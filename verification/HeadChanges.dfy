/**
 The head-change bridge: revert-only batches are held and emitted in front of the next batch.
 The specification is a transducer on sequences of batches; the bridge itself works on Go
 slices, whose backing arrays `append` may write in place.
 */
module HeadChanges {
  import opened Text

  /** One head change; `kind` is "revert", "apply" or "current", `val` the tipset, if any. */
  datatype Change = Change(kind: string, val: Option<int>)

  predicate RevertOnly(batch: seq<Change>) {
    batch != [] && forall i | 0 <= i < |batch| :: batch[i].kind == "revert"
  }

  predicate HasOther(batch: seq<Change>) {
    exists i | 0 <= i < |batch| :: batch[i].kind != "revert"
  }

  // ---- The transducer -----------------------------------------------------------------

  /** The reverts held back once the batches were pushed. */
  function Held(batches: seq<seq<Change>>): seq<Change> {
    if batches == [] then []
    else
      var last := batches[|batches| - 1];
      if RevertOnly(last) then Held(batches[..|batches| - 1]) + last else []
  }

  /** The batches emitted so far. */
  function Outputs(batches: seq<seq<Change>>): seq<seq<Change>> {
    if batches == [] then []
    else
      var (init, last) := (batches[..|batches| - 1], batches[|batches| - 1]);
      if RevertOnly(last) then Outputs(init) else Outputs(init) + [Held(init) + last]
  }

  /** What the bridge has emitted when its source closes. */
  function Delivered(batches: seq<seq<Change>>): seq<seq<Change>> {
    Outputs(batches) + if Held(batches) == [] then [] else [Held(batches)]
  }

  function Flatten<T>(batches: seq<seq<T>>): seq<T> {
    if batches == [] then [] else Flatten(batches[..|batches| - 1]) + batches[|batches| - 1]
  }

  lemma FlattenOne<T>(batches: seq<seq<T>>, batch: seq<T>)
    ensures Flatten(batches + [batch]) == Flatten(batches) + batch
  {
    assert (batches + [batch])[..|batches|] == batches;
  }

  /** Nothing is lost, repeated or reordered: what was emitted and what is held is what came in. */
  lemma {:induction false} OutputsAndHeld(batches: seq<seq<Change>>)
    ensures Flatten(Outputs(batches)) + Held(batches) == Flatten(batches)
    ensures forall i | 0 <= i < |Held(batches)| :: Held(batches)[i].kind == "revert"
  {
    if batches != [] {
      var init, last := batches[..|batches| - 1], batches[|batches| - 1];
      OutputsAndHeld(init);
      FlattenOne(Outputs(init), Held(init) + last);
      assert Flatten(Outputs(init)) + (Held(init) + last) == (Flatten(Outputs(init)) + Held(init)) + last;
    }
  }

  /** At close the held reverts follow, so the whole input has been emitted. */
  lemma AllDelivered(batches: seq<seq<Change>>)
    ensures Flatten(Delivered(batches)) == Flatten(batches)
  {
    OutputsAndHeld(batches);
    if Held(batches) == [] {
      assert Delivered(batches) == Outputs(batches);
      assert Flatten(Outputs(batches)) + [] == Flatten(Outputs(batches));
    } else {
      FlattenOne(Outputs(batches), Held(batches));
    }
  }

  /** Every emitted batch carries something else than reverts exactly when no pushed batch was empty. */
  lemma {:induction false} NoBareReverts(batches: seq<seq<Change>>)
    ensures (forall out | out in Outputs(batches) :: HasOther(out)) <==> [] !in batches
  {
    if batches != [] {
      var init, last := batches[..|batches| - 1], batches[|batches| - 1];
      NoBareReverts(init);
      OutputsAndHeld(init);
      assert batches == init + [last];
      if !RevertOnly(last) {
        var out := Held(init) + last;
        assert Outputs(batches) == Outputs(init) + [out];
        assert HasOther(out) <==> last != [] by {
          if last != [] {
            var i :| 0 <= i < |last| && last[i].kind != "revert";
            assert out[|Held(init)| + i] == last[i];
          } else {
            assert out == Held(init);
          }
        }
      }
    }
  }

  /** The promise needs the caller's guard: an empty batch lets a bare revert through. */
  lemma EmptyBatchReleasesReverts(revert: Change)
    requires revert.kind == "revert"
    ensures Outputs([[revert], []]) == [[revert]] && !HasOther([revert])
  {
    var one, both := [[revert]], [[revert], []];
    assert one[..0] == [] && both[..1] == one;
    assert Held([]) + [revert] == [revert] && RevertOnly(one[0]);
    assert Held(one) == [revert] && Outputs(one) == [];
    assert Held(one) + both[1] == [revert];
  }

  /** Emitting goes on as batches come: what was emitted stays emitted. */
  lemma {:induction false} OutputsGrow(batches: seq<seq<Change>>, more: seq<seq<Change>>)
    ensures Outputs(batches) <= Outputs(batches + more)
  {
    if more == [] {
      assert batches + more == batches;
    } else {
      var all := batches + more;
      OutputsGrow(batches, more[..|more| - 1]);
      assert all[..|all| - 1] == batches + more[..|more| - 1];
    }
  }

  // ---- Replay -------------------------------------------------------------------------

  /** A consumer that folds events into a state, for instance a head. */
  function Replay<S>(step: (S, Change) -> S, state: S, events: seq<Change>): S {
    if events == [] then state else step(Replay(step, state, events[..|events| - 1]), events[|events| - 1])
  }

  /** The same consumer, fed batch by batch. */
  function ReplayBatches<S>(step: (S, Change) -> S, state: S, batches: seq<seq<Change>>): S {
    if batches == [] then state
    else Replay(step, ReplayBatches(step, state, batches[..|batches| - 1]), batches[|batches| - 1])
  }

  lemma {:induction false} ReplayConcat<S>(step: (S, Change) -> S, state: S, a: seq<Change>, b: seq<Change>)
    ensures Replay(step, state, a + b) == Replay(step, Replay(step, state, a), b)
  {
    if b == [] {
      assert a + b == a;
    } else {
      ReplayConcat(step, state, a, b[..|b| - 1]);
      assert (a + b)[..|a + b| - 1] == a + b[..|b| - 1];
    }
  }

  lemma {:induction false} ReplayFlat<S>(step: (S, Change) -> S, state: S, batches: seq<seq<Change>>)
    ensures ReplayBatches(step, state, batches) == Replay(step, state, Flatten(batches))
  {
    if batches != [] {
      ReplayFlat(step, state, batches[..|batches| - 1]);
      ReplayConcat(step, state, Flatten(batches[..|batches| - 1]), batches[|batches| - 1]);
    }
  }

  /** Every consumer of the output ends in the state the input would have led to. */
  lemma SameHead<S>(step: (S, Change) -> S, state: S, batches: seq<seq<Change>>)
    ensures ReplayBatches(step, state, Delivered(batches)) == ReplayBatches(step, state, batches)
    ensures Replay(step, ReplayBatches(step, state, Outputs(batches)), Held(batches)) ==
            ReplayBatches(step, state, batches)
  {
    AllDelivered(batches);
    OutputsAndHeld(batches);
    ReplayFlat(step, state, Delivered(batches));
    ReplayFlat(step, state, Outputs(batches));
    ReplayFlat(step, state, batches);
    ReplayConcat(step, state, Flatten(Outputs(batches)), Held(batches));
  }

  // ---- Slices -------------------------------------------------------------------------

  /** A Go slice from the start of its backing array; the array's length is the capacity. */
  datatype Slice = Nil | Slice(arr: array<Change>, len: nat)
  {
    ghost predicate Valid() {
      Slice? ==> len <= arr.Length
    }

    ghost function Backing(): set<object> {
      if Slice? then {arr} else {}
    }

    ghost function Content(): seq<Change>
      requires Valid()
      reads Backing()
    {
      if Slice? then arr[..len] else []
    }
  }

  method Copy(to: array<Change>, at: nat, from: Slice)
    requires from.Valid() && at <= to.Length && (from.Slice? ==> from.arr != to && at + from.len <= to.Length)
    modifies to
    ensures to[..at] == old(to[..at])
    ensures from.Slice? ==> to[at..at + from.len] == from.Content()
  {
    if from.Nil? {
      return;
    }
    for i := 0 to from.len
      invariant to[..at] == old(to[..at])
      invariant to[at..at + i] == from.arr[..i]
    {
      to[at + i] := from.arr[i];
    }
  }

  /**
   Go's append: in place when the capacity allows, otherwise into a new array with `slack` room to
   spare. What the slice held before is never overwritten.
   */
  method Append(s: Slice, more: Slice, slack: nat) returns (r: Slice)
    requires s.Valid() && more.Valid() && s.Backing() !! more.Backing()
    modifies s.Backing()
    ensures r.Valid() && r.Content() == old(s.Content()) + old(more.Content())
    ensures s.Content() == old(s.Content()) && more.Content() == old(more.Content())
    ensures fresh(r.Backing()) || r.Backing() == s.Backing()
  {
    if more.Nil? || more.len == 0 {
      return s;
    }
    var len := if s.Slice? then s.len else 0;
    if s.Slice? && len + more.len <= s.arr.Length {
      Copy(s.arr, len, more);
      assert s.arr[..len + more.len] == s.arr[..len] + s.arr[len..len + more.len];
      return Slice(s.arr, len + more.len);
    }
    var arr := new Change[len + more.len + slack];
    Copy(arr, 0, s);
    Copy(arr, len, more);
    assert arr[..len + more.len] == arr[..len] + arr[len..len + more.len];
    r := Slice(arr, len + more.len);
  }

  method BatchIsRevertOnly(batch: Slice) returns (r: bool)
    requires batch.Valid()
    ensures r == RevertOnly(batch.Content())
  {
    if batch.Nil? || batch.len == 0 {
      return false;
    }
    for i := 0 to batch.len
      invariant forall j | 0 <= j < i :: batch.arr[j].kind == "revert"
    {
      if batch.arr[i].kind != "revert" {
        assert batch.Content()[i].kind != "revert";
        return false;
      }
    }
    r := true;
  }

  // ---- The coalescer ------------------------------------------------------------------

  class RevertCoalescer {
    var pending: Slice

    /** Reverts are held in a slice of their own, and only when there are some. */
    ghost predicate Valid()
      reads this
    {
      pending.Valid() && (pending.Slice? ==> pending.len > 0)
    }

    constructor ()
      ensures Valid() && pending == Nil
    {
      pending := Nil;
    }

    /**
     push, one step of Held and Outputs: a revert-only batch is added to the held ones, any other is
     emitted behind them. What is emitted is not kept, and the batch itself is never kept or changed.
     */
    method Push(batch: Slice, slack: nat) returns (emitted: Option<Slice>)
      requires Valid() && batch.Valid() && pending.Backing() !! batch.Backing()
      modifies this, pending.Backing()
      ensures Valid() && batch.Content() == old(batch.Content())
      ensures if RevertOnly(batch.Content())
              then emitted == None && pending.Content() == old(pending.Content()) + batch.Content()
              else emitted.Some? && pending == Nil
      ensures emitted.Some? ==>
              emitted.value.Valid() && emitted.value.Content() == old(pending.Content()) + batch.Content()
      ensures fresh(pending.Backing() - old(pending.Backing()))
      ensures emitted.Some? ==> fresh(emitted.value.Backing() - old(pending.Backing()) - batch.Backing())
    {
      var bare := BatchIsRevertOnly(batch);
      if bare {
        pending := Append(pending, batch, slack);
        return None;
      }
      if pending.Slice? {
        var merged := Append(pending, batch, slack);
        pending := Nil;
        return Some(merged);
      }
      emitted := Some(batch);
    }

    /** flush: the held reverts, once. */
    method Flush() returns (emitted: Option<Slice>)
      requires Valid()
      modifies this
      ensures Valid() && pending == Nil
      ensures emitted == if old(pending.Content()) == [] then None else Some(old(pending))
    {
      if pending.Nil? {
        return None;
      }
      emitted := Some(pending);
      pending := Nil;
    }
  }

  // ---- The bridge ---------------------------------------------------------------------

  /** What re-encoding a tipset gives: an error, or a tipset that may be nil. */
  datatype Conversion = Malformed | Tipset(val: Option<int>)

  /** An event of the distributor, with what its conversion gives and what ChainHead would answer at that moment. */
  datatype Source = Source(kind: string, converted: Conversion, head: Option<int>)

  /** One event as it is passed on, or dropped. */
  function ConvertOne(event: Source): Option<Change> {
    if event.converted.Malformed? then None
    else if event.converted.val.None? && event.kind == "current" then
      (if event.head.None? then None else Some(Change(event.kind, event.head)))
    else Some(Change(event.kind, event.converted.val))
  }

  function ConvertAll(batch: seq<Source>): seq<Change> {
    if batch == [] then []
    else
      ConvertAll(batch[..|batch| - 1])
      + match ConvertOne(batch[|batch| - 1]) case None => [] case Some(change) => [change]
  }

  /** An event passes unless it is malformed, or a "current" without a tipset while there is no head. */
  predicate Passes(event: Source) {
    match event.converted
    case Malformed => false
    case Tipset(val) => val == None && event.kind == "current" ==> event.head != None
  }

  /** It keeps its kind, and has its tipset, or the head when it is a "current" without one. */
  predicate IsImage(change: Change, event: Source) {
    && change.kind == event.kind
    && (event.converted == Tipset(None) && event.kind == "current" ==> change.val == event.head != None)
    && (event.converted != Tipset(None) || event.kind != "current" ==> event.converted == Tipset(change.val))
  }

  /** The changes are the images of exactly the events that pass, in order; `at` says which each comes from. */
  ghost predicate ImageOf(events: seq<Source>, changes: seq<Change>, at: seq<nat>) {
    && |at| == |changes|
    && (forall i, j | 0 <= i < j < |at| :: at[i] < at[j])
    && (forall i | 0 <= i < |at| :: at[i] < |events| && IsImage(changes[i], events[at[i]]))
    && (forall k: nat :: k in at <==> k < |events| && Passes(events[k]))
  }

  /** No "current" among the changes is without a tipset. */
  predicate Seeded(changes: seq<Change>) {
    forall i | 0 <= i < |changes| :: changes[i].kind == "current" ==> changes[i].val != None
  }

  lemma ConvertOneIs(event: Source)
    ensures ConvertOne(event).Some? <==> Passes(event)
    ensures ConvertOne(event).Some? ==> IsImage(ConvertOne(event).value, event)
  {}

  lemma {:induction false} ConvertIs(events: seq<Source>) returns (at: seq<nat>)
    ensures ImageOf(events, ConvertAll(events), at)
  {
    at := [];
    if events != [] {
      var n := |events| - 1;
      at := ConvertIs(events[..n]);
      ConvertOneIs(events[n]);
      ImageOneMore(events[..n], ConvertAll(events[..n]), at, events[n]);
      assert events[..n] + [events[n]] == events;
      if ConvertOne(events[n]).Some? {
        at := at + [n];
      } else {
        assert ConvertAll(events) == ConvertAll(events[..n]);
      }
    }
  }

  lemma ImageOneMore(events: seq<Source>, changes: seq<Change>, at: seq<nat>, event: Source)
    requires ImageOf(events, changes, at)
    ensures !Passes(event) ==> ImageOf(events + [event], changes, at)
    ensures forall change | Passes(event) && IsImage(change, event) ::
              ImageOf(events + [event], changes + [change], at + [|events|])
  {
    var all := events + [event];
    assert forall i | 0 <= i < |at| :: at[i] in at;
    assert all[|events|] == event && forall k | 0 <= k < |events| :: all[k] == events[k];
    forall change | Passes(event) && IsImage(change, event)
      ensures ImageOf(all, changes + [change], at + [|events|])
    {
      var more := at + [|events|];
      assert forall k: nat :: k in more <==> k in at || k == |events|;
    }
  }

  /** So no unseeded "current" is passed on. */
  lemma ImageIsSeeded(events: seq<Source>, changes: seq<Change>, at: seq<nat>)
    requires ImageOf(events, changes, at)
    ensures Seeded(changes)
  {
    forall i | 0 <= i < |changes| ensures changes[i].kind == "current" ==> changes[i].val != None {
      assert IsImage(changes[i], events[at[i]]);
    }
  }

  lemma {:induction false} ConvertConcat(a: seq<Source>, b: seq<Source>)
    ensures ConvertAll(a + b) == ConvertAll(a) + ConvertAll(b)
  {
    if b == [] {
      assert a + b == a;
    } else {
      var n := |b| - 1;
      ConvertConcat(a, b[..n]);
      assert (a + b)[..|a + b| - 1] == a + b[..n];
    }
  }

  /** Batch by batch or all at once, the same changes are pushed. */
  lemma {:induction false} AcceptedFlat(src: seq<seq<Source>>)
    ensures Flatten(Accepted(src)) == ConvertAll(Flatten(src))
  {
    if src != [] {
      var n := |src| - 1;
      AcceptedFlat(src[..n]);
      ConvertConcat(Flatten(src[..n]), src[n]);
      if ConvertAll(src[n]) == [] {
        assert Accepted(src) == Accepted(src[..n]);
      } else {
        FlattenOne(Accepted(src[..n]), ConvertAll(src[n]));
      }
    }
  }

  method Convert(batch: seq<Source>) returns (s: Slice, ghost at: seq<nat>)
    ensures s.Slice? && s.Valid() && ImageOf(batch, s.Content(), at) && Seeded(s.Content())
    ensures s.Slice? && s.Valid() && fresh(s.Backing()) && s.Content() == ConvertAll(batch)
  {
    var arr, len: nat := new Change[|batch|], 0;
    assert batch[..0] == [];
    for i := 0 to |batch|
      invariant len <= i && arr[..len] == ConvertAll(batch[..i])
    {
      assert batch[..i + 1][..i] == batch[..i];
      var change := ConvertOne(batch[i]);
      if change.Some? {
        arr[len] := change.value;
        len := len + 1;
      }
    }
    assert batch[..|batch|] == batch;
    s := Slice(arr, len);
    at := ConvertIs(batch);
    ImageIsSeeded(batch, ConvertAll(batch), at);
  }

  /** What the bridge pushes: the conversions of the source batches, without those that came out empty. */
  function Accepted(src: seq<seq<Source>>): (r: seq<seq<Change>>)
    ensures [] !in r
  {
    if src == [] then []
    else
      var batch := ConvertAll(src[|src| - 1]);
      Accepted(src[..|src| - 1]) + if batch == [] then [] else [batch]
  }

  lemma AcceptOne(src: seq<seq<Source>>, k: nat)
    requires k < |src|
    ensures Accepted(src[..k + 1]) ==
              if ConvertAll(src[k]) == [] then Accepted(src[..k]) else Accepted(src[..k]) + [ConvertAll(src[k])]
  {
    assert src[..k + 1][..k] == src[..k] && src[..k + 1][k] == src[k];
  }

  lemma {:induction false} AcceptedGrows(src: seq<seq<Source>>, k: nat)
    requires k <= |src|
    ensures Accepted(src[..k]) <= Accepted(src)
  {
    if k < |src| {
      AcceptedGrows(src[..|src| - 1], k);
      assert src[..|src| - 1][..k] == src[..k];
    } else {
      assert src[..k] == src;
    }
  }

  /** A prefix of what is pushed has a prefix of what is emitted. */
  lemma PrefixOutputs(before: seq<seq<Change>>, after: seq<seq<Change>>)
    requires before <= after
    ensures Outputs(before) <= Outputs(after)
  {
    OutputsGrow(before, after[|before|..]);
    assert before + after[|before|..] == after;
  }

  lemma PushOne(before: seq<seq<Change>>, batch: seq<Change>)
    ensures var after := before + [batch];
            if RevertOnly(batch) then Held(after) == Held(before) + batch && Outputs(after) == Outputs(before)
            else Held(after) == [] && Outputs(after) == Outputs(before) + [Held(before) + batch]
  {
    var after := before + [batch];
    assert after[..|after| - 1] == before;
  }

  /** The slices emitted so far, kept in the arrays `kept`, still hold what they held when they were sent. */
  ghost predicate Intact(sent: seq<Slice>, batches: seq<seq<Change>>, kept: set<object>)
    reads kept
  {
    && |sent| == |batches|
    && forall i | 0 <= i < |sent| :: sent[i].Valid() && sent[i].Backing() <= kept && sent[i].Content() == batches[i]
  }

  lemma IntactOneMore(sent: seq<Slice>, batches: seq<seq<Change>>, kept: set<object>, more: Slice)
    requires Intact(sent, batches, kept) && more.Valid()
    ensures Intact(sent + [more], batches + [more.Content()], kept + more.Backing())
  {
  }

  /**
   The coalescer once `pushed` went in, next to the slices sent so far: what it will still write to
   is not among their arrays.
   */
  ghost predicate Running(c: RevertCoalescer, pushed: seq<seq<Change>>, kept: set<object>)
    reads c, c.pending.Backing()
  {
    && c.Valid() && c !in kept && kept !! c.pending.Backing()
    && c.pending.Content() == Held(pushed)
  }

  /** Pushing one converted batch and emitting what comes out; `open` is whether the consumer is still there. */
  method PushAndEmit(c: RevertCoalescer, batch: Slice, slack: nat, open: bool, sent: seq<Slice>,
                     ghost pushed: seq<seq<Change>>, ghost content: seq<Change>, ghost kept: set<object>)
    returns (ok: bool, out: seq<Slice>, ghost keptNow: set<object>)
    requires Running(c, pushed, kept) && Intact(sent, Outputs(pushed), kept)
    requires batch.Valid() && batch.Content() == content
             && batch.Backing() !! c.pending.Backing() && kept !! batch.Backing()
    modifies c, c.pending.Backing()
    ensures fresh(c.pending.Backing() - old(c.pending.Backing()))
    ensures fresh(keptNow - kept - old(c.pending.Backing()) - batch.Backing())
    ensures out == sent || (open && |out| == |sent| + 1)
    ensures if ok then Running(c, pushed + [content], keptNow) && Intact(out, Outputs(pushed + [content]), keptNow)
            else out == sent && Intact(out, Outputs(pushed), keptNow) && |sent| < |Outputs(pushed + [content])| && !open
  {
    PushOne(pushed, content);
    var merged := c.Push(batch, slack);
    if merged.None? {
      return true, sent, kept;
    }
    if !open {
      return false, sent, kept;
    }
    IntactOneMore(sent, Outputs(pushed), kept, merged.value);
    return true, sent + [merged.value], kept + merged.value.Backing();
  }

  /** One turn of the loop over the source: convert a batch and, unless it comes out empty, push it. */
  method Turn(c: RevertCoalescer, source: seq<Source>, slack: nat, open: bool, sent: seq<Slice>,
              ghost before: seq<seq<Change>>, ghost after: seq<seq<Change>>, ghost kept: set<object>)
    returns (ok: bool, out: seq<Slice>, ghost keptNow: set<object>)
    requires after == if ConvertAll(source) == [] then before else before + [ConvertAll(source)]
    requires Running(c, before, kept) && Intact(sent, Outputs(before), kept)
    modifies c, c.pending.Backing()
    ensures fresh(c.pending.Backing() - old(c.pending.Backing()))
    ensures fresh(keptNow - kept - old(c.pending.Backing()))
    ensures out == sent || (open && |out| == |sent| + 1)
    ensures if ok then Running(c, after, keptNow) && Intact(out, Outputs(after), keptNow)
            else out == sent && Intact(out, Outputs(before), keptNow) && |sent| < |Outputs(after)| && !open
  {
    var converted, at := Convert(source);
    if converted.len == 0 {
      return true, sent, kept;
    }
    ok, out, keptNow := PushAndEmit(c, converted, slack, open, sent, before, ConvertAll(source), kept);
  }

  /** `stage(k)` is what was pushed once k source batches were read. */
  ghost predicate Stages(src: seq<seq<Source>>, stage: nat -> seq<seq<Change>>) {
    && stage(0) == []
    && forall k | 0 <= k < |src| ::
         stage(k + 1) == if ConvertAll(src[k]) == [] then stage(k) else stage(k) + [ConvertAll(src[k])]
  }

  /** The loop over the source, until it closes or the consumer is gone; `k` batches were read to the end. */
  method Forward(c: RevertCoalescer, src: seq<seq<Source>>, slack: nat -> nat, open: nat -> bool,
                 ghost stage: nat -> seq<seq<Change>>)
    returns (k: nat, sent: seq<Slice>, ghost kept: set<object>)
    requires c.pending == Nil && Stages(src, stage)
    modifies c
    ensures fresh(c.pending.Backing()) && fresh(kept)
    ensures k <= |src| && Intact(sent, Outputs(stage(k)), kept) && forall i | 0 <= i < |sent| :: open(i)
    ensures if k == |src| then Running(c, stage(k), kept) else !open(|sent|) && |sent| < |Outputs(stage(k + 1))|
  {
    k, sent, kept := 0, [], {};
    while k < |src|
      invariant k <= |src| && forall i | 0 <= i < |sent| :: open(i)
      invariant fresh(c.pending.Backing()) && fresh(kept)
      invariant Running(c, stage(k), kept) && Intact(sent, Outputs(stage(k)), kept)
    {
      var ok;
      ok, sent, kept := Turn(c, src[k], slack(k), open(|sent|), sent, stage(k), stage(k + 1), kept);
      if !ok {
        return;
      }
      k := k + 1;
    }
  }

  lemma AcceptedStages(src: seq<seq<Source>>, stage: nat -> seq<seq<Change>>)
    requires forall k: nat | k <= |src| :: stage(k) == Accepted(src[..k])
    ensures Stages(src, stage)
    ensures forall k: nat | k <= |src| :: Outputs(stage(k)) <= Outputs(Accepted(src))
    ensures stage(|src|) == Accepted(src)
  {
    forall k: nat | k < |src|
      ensures stage(k + 1) == if ConvertAll(src[k]) == [] then stage(k) else stage(k) + [ConvertAll(src[k])]
    {
      AcceptOne(src, k);
    }
    forall k: nat | k <= |src| ensures Outputs(stage(k)) <= Outputs(Accepted(src)) {
      AcceptedGrows(src, k);
      PrefixOutputs(stage(k), Accepted(src));
    }
    assert src[..|src|] == src && src[..0] == [];
  }

  /** The end of the goroutine, once the source has closed: flush, when there is something to flush. */
  method Close(c: RevertCoalescer, open: bool, sent: seq<Slice>, ghost pushed: seq<seq<Change>>,
               ghost kept: set<object>)
    returns (out: seq<Slice>, ghost keptNow: set<object>)
    requires Running(c, pushed, kept) && Intact(sent, Outputs(pushed), kept)
    modifies c
    ensures if Held(pushed) == [] || open then Intact(out, Delivered(pushed), keptNow)
            else out == sent && Intact(out, Outputs(pushed), keptNow)
    ensures out == sent || (open && |out| == |sent| + 1)
  {
    var flush := c.Flush();
    out, keptNow := sent, kept;
    assert Held(pushed) == [] ==> Delivered(pushed) == Outputs(pushed);
    if flush.Some? && open {
      IntactOneMore(sent, Outputs(pushed), kept, flush.value);
      out, keptNow := sent + [flush.value], kept + flush.value.Backing();
    }
  }

  /** The slices hold the first of these batches. */
  ghost predicate HoldPrefix(sent: seq<Slice>, all: seq<seq<Change>>)
    reads set s | s in sent && s.Slice? :: s.arr
  {
    && |sent| <= |all|
    && forall i | 0 <= i < |sent| :: sent[i].Valid() && sent[i].Content() == all[i]
  }

  lemma IntactIsPrefix(sent: seq<Slice>, batches: seq<seq<Change>>, kept: set<object>, all: seq<seq<Change>>)
    requires Intact(sent, batches, kept) && batches <= all
    ensures HoldPrefix(sent, all) && |sent| == |batches|
  {
  }

  /** The goroutine, on what its source batches come to: `stage(k)` after k of them, `all` emitted in the end. */
  method Notify(src: seq<seq<Source>>, slack: nat -> nat, open: nat -> bool,
                ghost stage: nat -> seq<seq<Change>>, ghost all: seq<seq<Change>>) returns (sent: seq<Slice>)
    requires Stages(src, stage) && all == Delivered(stage(|src|))
    requires forall k: nat | k <= |src| :: Outputs(stage(k)) <= all
    ensures HoldPrefix(sent, all)
    ensures (forall i | 0 <= i < |sent| :: open(i)) && (|sent| < |all| ==> !open(|sent|))
  {
    var c := new RevertCoalescer();
    var k;
    ghost var kept;
    k, sent, kept := Forward(c, src, slack, open, stage);
    IntactIsPrefix(sent, Outputs(stage(k)), kept, all);
    if k < |src| {
      return;
    }
    ghost var flushed := Held(stage(k)) == [] || open(|sent|);
    sent, kept := Close(c, open(|sent|), sent, stage(k), kept);
    IntactIsPrefix(sent, if flushed then all else Outputs(stage(k)), kept, all);
  }

  /**
   ChainNotify's goroutine on a source that delivers `src` and closes. `open(k)` is whether the
   consumer is still there at the k-th emit. The slices sent hold at the end what the specification
   emits at their place, whatever `append` did with its arrays since they were sent.
   */
  method ChainNotify(src: seq<seq<Source>>, slack: nat -> nat, open: nat -> bool)
    returns (sent: seq<Slice>, ghost at: seq<nat>)
    ensures HoldPrefix(sent, Delivered(Accepted(src)))
    ensures ImageOf(Flatten(src), Flatten(Delivered(Accepted(src))), at)
    ensures forall i | 0 <= i < |sent| :: Seeded(sent[i].Content())
    ensures (forall i | 0 <= i < |sent| :: open(i)) && (|sent| < |Delivered(Accepted(src))| ==> !open(|sent|))
  {
    ghost var stage := (k: nat) => if k <= |src| then Accepted(src[..k]) else [];
    AcceptedStages(src, stage);
    sent := Notify(src, slack, open, stage, Delivered(Accepted(src)));
    at := BridgeDelivers(src);
  }

  lemma {:induction false} SeededParts(batches: seq<seq<Change>>)
    requires Seeded(Flatten(batches))
    ensures forall i | 0 <= i < |batches| :: Seeded(batches[i])
  {
    if batches != [] {
      var n := |batches| - 1;
      var (init, last) := (Flatten(batches[..n]), batches[n]);
      assert Flatten(batches) == init + last;
      forall i | 0 <= i < |init| ensures init[i] == (init + last)[i] {}
      forall i | 0 <= i < |last| ensures last[i] == (init + last)[|init| + i] {}
      SeededParts(batches[..n]);
      forall i | 0 <= i < |batches| ensures Seeded(batches[i]) {
        if i < n {
          assert batches[i] == batches[..n][i];
        }
      }
    }
  }

  /**
   The bridge on a consumer that stays: the images of all events that pass arrive in order, no "current"
   among them without a tipset, and no batch sent before the close is all reverts.
   */
  lemma BridgeDelivers(src: seq<seq<Source>>) returns (at: seq<nat>)
    ensures ImageOf(Flatten(src), Flatten(Delivered(Accepted(src))), at)
    ensures forall i | 0 <= i < |Delivered(Accepted(src))| :: Seeded(Delivered(Accepted(src))[i])
    ensures Outputs(Accepted(src)) <= Delivered(Accepted(src))
            && |Delivered(Accepted(src))| <= |Outputs(Accepted(src))| + 1
    ensures forall out | out in Outputs(Accepted(src)) :: HasOther(out)
  {
    AllDelivered(Accepted(src));
    NoBareReverts(Accepted(src));
    AcceptedFlat(src);
    at := ConvertIs(Flatten(src));
    ImageIsSeeded(Flatten(src), ConvertAll(Flatten(src)), at);
    SeededParts(Delivered(Accepted(src)));
  }
}

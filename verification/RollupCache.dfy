/**
 The dashboard's rollup cache: one caller at a time recomputes, the others get what is there.
 The two critical sections of `get` are methods; any number of callers interleave them in the
 state machine below. Times are in seconds.
 */
module RollupCache {
  import opened Text

  const TTL: int := 45

  /** What a caller gets: the value, and whether it is marked fresh. */
  datatype Reply<V> = Reply(val: V, markedFresh: bool)

  /** The guarded fields; `computed` is None while the Go time is still zero. */
  datatype Cache<V> = Cache(val: V, computed: Option<int>, running: bool)

  predicate IsFresh<V>(c: Cache<V>, now: int) {
    c.computed.Some? && now - c.computed.value < TTL
  }

  /** A caller's first critical section: a reply, or None when the caller has to compute. */
  function Enter<V>(c: Cache<V>, now: int): (Cache<V>, Option<Reply<V>>) {
    if IsFresh(c, now) then (c, Some(Reply(c.val, true)))
    else if c.running then (c, Some(Reply(c.val, false)))
    else (c.(running := true), None)
  }

  /** Its second one, with the value it computed. */
  function Leave<V>(c: Cache<V>, v: V, now: int): Cache<V> {
    Cache(v, Some(now), false)
  }

  class RollupCache<V> {
    var c: Cache<V>

    constructor (zero: V)
      ensures c == Cache(zero, None, false)
    {
      c := Cache(zero, None, false);
    }

    /** The first section of `get`: only a caller that finds nothing fresh and nobody computing goes on to compute. */
    method Begin(now: int) returns (reply: Option<Reply<V>>)
      modifies this
      ensures reply.None? <==> !IsFresh(old(c), now) && !old(c).running
      ensures c.running <==> old(c).running || reply.None?
      ensures c.val == old(c).val && c.computed == old(c).computed
      ensures reply.Some? ==> reply.value == Reply(old(c).val, IsFresh(old(c), now))
      ensures (c, reply) == Enter(old(c), now)
    {
      if c.computed.Some? && now - c.computed.value < TTL {
        return Some(Reply(c.val, true));
      }
      if c.running {
        return Some(Reply(c.val, false));
      }
      c := c.(running := true);
      reply := None;
    }

    /**
     The second one, whatever happened in between: the caller's own value is stored and fresh for
     the TTL, and anyone may compute next.
     */
    method Finish(v: V, now: int) returns (reply: Reply<V>)
      modifies this
      ensures c.val == v && reply == Reply(v, true) && !c.running
      ensures forall later :: IsFresh(c, later) <==> later < now + TTL
      ensures c == Leave(old(c), v, now)
    {
      c := c.(val := v);
      c := c.(computed := Some(now));
      c := c.(running := false);
      reply := Reply(v, true);
    }
  }

  // ---- Any number of callers ----------------------------------------------------------

  /** What happens, in order: a computation starts or finishes, a caller gets a value that was already there. */
  datatype Event<V> = Started(at: int) | Finished(at: int, val: V) | Replied(at: int, reply: Reply<V>)

  /** The cache, the callers between their two sections, the clock, and what happened so far. */
  datatype State<V> = State(c: Cache<V>, computing: set<int>, now: int, log: seq<Event<V>>)

  datatype Step<V> = Wait(dt: nat) | Call(caller: int) | Return(caller: int, val: V)

  predicate Enabled<V>(st: State<V>, step: Step<V>) {
    match step
    case Wait(_) => true
    case Call(caller) => caller !in st.computing
    case Return(caller, _) => caller in st.computing
  }

  function Apply<V>(st: State<V>, step: Step<V>): State<V> {
    match step
    case Wait(dt) => st.(now := st.now + dt)
    case Call(caller) =>
      var (c, reply) := Enter(st.c, st.now);
      match reply {
        case None => st.(c := c, computing := st.computing + {caller}, log := st.log + [Started(st.now)])
        case Some(r) => st.(c := c, log := st.log + [Replied(st.now, r)])
      }
    case Return(caller, v) =>
      st.(c := Leave(st.c, v, st.now), computing := st.computing - {caller}, log := st.log + [Finished(st.now, v)])
  }

  function Run<V>(st: State<V>, steps: seq<Step<V>>): State<V> {
    if steps == [] then st else Apply(Run(st, steps[..|steps| - 1]), steps[|steps| - 1])
  }

  predicate Legal<V>(st: State<V>, steps: seq<Step<V>>) {
    steps == [] || (Legal(st, steps[..|steps| - 1]) && Enabled(Run(st, steps[..|steps| - 1]), steps[|steps| - 1]))
  }

  // ---- What the log says --------------------------------------------------------------

  /** Whether a computation is under way. */
  predicate InFlight<V>(log: seq<Event<V>>) {
    log != [] &&
    match log[|log| - 1]
    case Started(_) => true
    case Finished(_, _) => false
    case Replied(_, _) => InFlight(log[..|log| - 1])
  }

  /** When the last computation finished, and with what. */
  function LastFinish<V>(log: seq<Event<V>>): Option<(int, V)> {
    if log == [] then None
    else
      match log[|log| - 1]
      case Finished(at, v) => Some((at, v))
      case _ => LastFinish(log[..|log| - 1])
  }

  /** The last finish is less than the TTL old. */
  predicate Recent<V>(log: seq<Event<V>>, at: int) {
    LastFinish(log).Some? && at - LastFinish(log).value.0 < TTL
  }

  /** What may come next, after everything that happened before. */
  predicate Allowed<V(==)>(zero: V, log: seq<Event<V>>, e: Event<V>) {
    match e
    case Started(at) => !InFlight(log) && !Recent(log, at)
    case Finished(_, _) => InFlight(log)
    case Replied(at, r) =>
      && r.val == (if LastFinish(log).Some? then LastFinish(log).value.1 else zero)
      && if r.markedFresh then Recent(log, at) else InFlight(log) && !Recent(log, at)
  }

  /** Every event was allowed when it happened, and times never go back. */
  predicate Proper<V(==)>(zero: V, log: seq<Event<V>>) {
    log == [] ||
    (var (before, e) := (log[..|log| - 1], log[|log| - 1]);
     Proper(zero, before) && Allowed(zero, before, e) && (before != [] ==> before[|before| - 1].at <= e.at))
  }

  predicate Inv<V(==)>(zero: V, st: State<V>) {
    && Proper(zero, st.log) && (st.log != [] ==> st.log[|st.log| - 1].at <= st.now)
    && (st.c.running <==> InFlight(st.log)) && |st.computing| == (if st.c.running then 1 else 0)
    && match LastFinish(st.log)
       case None => st.c.computed == None && st.c.val == zero
       case Some(f) => st.c.computed == Some(f.0) && st.c.val == f.1
  }

  lemma Logged<V>(zero: V, log: seq<Event<V>>, e: Event<V>)
    ensures InFlight(log + [e]) <==> e.Started? || (e.Replied? && InFlight(log))
    ensures LastFinish(log + [e]) == if e.Finished? then Some((e.at, e.val)) else LastFinish(log)
    ensures Proper(zero, log) && Allowed(zero, log, e) && (log != [] ==> log[|log| - 1].at <= e.at) ==>
            Proper(zero, log + [e])
  {
    assert (log + [e])[..|log + [e]| - 1] == log;
  }

  lemma OneCaller(s: set<int>, x: int)
    requires x in s && |s| <= 1
    ensures s == {x}
  {
    assert |s - {x}| == |s| - 1;
    assert s == (s - {x}) + {x};
  }

  lemma CallKeeps<V>(zero: V, st: State<V>, caller: int)
    requires Inv(zero, st) && caller !in st.computing
    ensures Inv(zero, Apply(st, Call(caller)))
  {
    var reply := Enter(st.c, st.now).1;
    Logged(zero, st.log, if reply.None? then Started(st.now) else Replied(st.now, reply.value));
  }

  lemma ReturnKeeps<V>(zero: V, st: State<V>, caller: int, v: V)
    requires Inv(zero, st) && caller in st.computing
    ensures Inv(zero, Apply(st, Return(caller, v)))
  {
    Logged(zero, st.log, Finished(st.now, v));
    OneCaller(st.computing, caller);
  }

  lemma StepKeeps<V>(zero: V, st: State<V>, step: Step<V>)
    requires Inv(zero, st) && Enabled(st, step)
    ensures Inv(zero, Apply(st, step))
  {
    match step
    case Wait(_) =>
    case Call(caller) => CallKeeps(zero, st, caller);
    case Return(caller, v) => ReturnKeeps(zero, st, caller, v);
  }

  /** Whatever the callers do, at most one computes at a time, and every event is as Allowed says. */
  lemma {:induction false} RunKeeps<V>(zero: V, now: int, steps: seq<Step<V>>)
    requires Legal(State(Cache(zero, None, false), {}, now, []), steps)
    ensures Inv(zero, Run(State(Cache(zero, None, false), {}, now, []), steps))
  {
    if steps != [] {
      RunKeeps(zero, now, steps[..|steps| - 1]);
      StepKeeps(zero, Run(State(Cache(zero, None, false), {}, now, []), steps[..|steps| - 1]), steps[|steps| - 1]);
    }
  }

  lemma {:induction false} ProperPrefix<V>(zero: V, log: seq<Event<V>>, k: nat)
    requires Proper(zero, log) && k <= |log|
    ensures Proper(zero, log[..k])
  {
    if k < |log| {
      ProperPrefix(zero, log[..|log| - 1], k);
      assert log[..|log| - 1][..k] == log[..k];
    } else {
      assert log[..k] == log;
    }
  }

  lemma {:induction false} TimesAscend<V>(zero: V, log: seq<Event<V>>, i: nat, j: nat)
    requires Proper(zero, log) && i <= j < |log|
    ensures log[i].at <= log[j].at
    decreases j - i
  {
    if i < j {
      TimesAscend(zero, log, i, j - 1);
      ProperPrefix(zero, log, j + 1);
      assert log[..j + 1][..j] == log[..j];
    }
  }

  /** Between two starts there is a finish, and the later start is at least the TTL behind every finish before it. */
  lemma {:induction false} FinishBetween<V>(zero: V, log: seq<Event<V>>, i: nat) returns (f: nat)
    requires Proper(zero, log) && i < |log| && log[i].Started? && !InFlight(log)
    ensures i < f < |log| && log[f].Finished? && LastFinish(log) == Some((log[f].at, log[f].val))
  {
    var n := |log| - 1;
    var before := log[..n];
    if log[n].Finished? {
      f := n;
    } else {
      f := FinishBetween(zero, before, i);
    }
  }

  /** Computations never overlap, and each starts at least the TTL after the one before it finished. */
  lemma StartsApart<V>(zero: V, log: seq<Event<V>>, i: nat, j: nat) returns (f: nat)
    requires Proper(zero, log) && i < j < |log| && log[i].Started? && log[j].Started?
    ensures i < f < j && log[f].Finished? && log[j].at - log[f].at >= 45
    ensures log[j].at - log[i].at >= 45
  {
    ProperPrefix(zero, log, j + 1);
    assert log[..j + 1][..j] == log[..j] && log[..j + 1][j] == log[j];
    f := FinishBetween(zero, log[..j], i);
    TimesAscend(zero, log, i, f);
  }

  /**
   A fresh reply without computing shows a value finished less than the TTL ago; a stale one the
   last finished value, during a recompute.
   */
  lemma RepliesAreHonest<V>(zero: V, log: seq<Event<V>>, i: nat)
    requires Proper(zero, log) && i < |log| && log[i].Replied?
    ensures var (before, r) := (log[..i], log[i].reply);
            && r.val == (if LastFinish(before).Some? then LastFinish(before).value.1 else zero)
            && (r.markedFresh <==> LastFinish(before).Some? && log[i].at - LastFinish(before).value.0 < 45)
            && (!r.markedFresh ==> InFlight(before))
  {
    ProperPrefix(zero, log, i + 1);
    assert log[..i + 1][..i] == log[..i] && log[..i + 1][i] == log[i];
  }
}

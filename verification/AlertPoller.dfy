/**
 The poller over the task history: which failures it emits, how its cursor moves, and what its
 alerts then say. The two queries of a tick see two states of a table that only grows.
 */
module AlertPoller {
  import opened Text
  import opened Ordering
  import opened Alerts

  const BATCH: nat := 100

  /** A harmony_task_history row. */
  datatype Row = Row(id: int, taskId: int, name: string, failed: bool)

  /** Ids grow with every row (AUTOINCREMENT). */
  predicate IsHistory(h: seq<Row>) {
    forall i, j | 0 <= i < j < |h| :: h[i].id < h[j].id
  }

  /** The failed rows past a cursor, by ascending id. */
  function Failures(h: seq<Row>, after: int): seq<Row> {
    if h == [] then []
    else
      var last := h[|h| - 1];
      Failures(h[..|h| - 1], after) + if last.failed && last.id > after then [last] else []
  }

  /** The first query of a tick: LIMIT 100. */
  function Batch(h: seq<Row>, cursor: int): seq<Row> {
    var all := Failures(h, cursor);
    all[..if |all| < BATCH then |all| else BATCH]
  }

  /** The second query: MAX(id) past the cursor, which is kept when there is none. */
  function Newest(h: seq<Row>, cursor: int): int {
    if h != [] && h[|h| - 1].id > cursor then h[|h| - 1].id else cursor
  }

  lemma {:induction false} FailuresAre(h: seq<Row>, after: int)
    requires IsHistory(h)
    ensures forall row :: row in Failures(h, after) <==> row in h && row.failed && row.id > after
    ensures IsHistory(Failures(h, after))
  {
    if h != [] {
      FailuresAre(h[..|h| - 1], after);
      assert h == h[..|h| - 1] + [h[|h| - 1]];
    }
  }

  lemma {:induction false} FailuresGrow(h: seq<Row>, more: seq<Row>, after: int)
    requires h <= more
    ensures Failures(h, after) <= Failures(more, after)
  {
    if h == more {
    } else {
      FailuresGrow(h, more[..|more| - 1], after);
    }
  }

  lemma NewestIsMax(h: seq<Row>, cursor: int)
    requires IsHistory(h)
    ensures Newest(h, cursor) >= cursor && forall row | row in h :: row.id <= Newest(h, cursor)
  {
  }

  lemma {:induction false} NoneNewer(h: seq<Row>, after: int)
    requires forall row | row in h :: row.id <= after
    ensures Failures(h, after) == []
  {
    if h != [] {
      assert h[|h| - 1] in h;
      NoneNewer(h[..|h| - 1], after);
    }
  }

  /** Failures up to the newest row are the ones already there when it was the newest. */
  lemma {:induction false} FailuresSplit(h: seq<Row>, more: seq<Row>, after: int)
    requires IsHistory(more) && h <= more
    ensures Failures(more, after) == Failures(h, after) + Failures(more, Newest(h, after))
  {
    if h == more {
      NewestIsMax(h, after);
      NoneNewer(h, Newest(h, after));
    } else {
      FailuresSplit(h, more[..|more| - 1], after);
      NewestIsMax(h, after);
    }
  }

  // ---- Ticks --------------------------------------------------------------------------

  /** The history as the two queries of a tick find it. */
  datatype Poll = Poll(first: seq<Row>, second: seq<Row>)

  /** The table only grows, within a tick and from one to the next. */
  predicate Growing(polls: seq<Poll>) {
    && (forall k | 0 <= k < |polls| :: polls[k].first <= polls[k].second && IsHistory(polls[k].second))
    && forall k | 0 <= k < |polls| - 1 :: polls[k].second <= polls[k + 1].first
  }

  function CursorAt(start: int, polls: seq<Poll>, k: nat): int
    requires k <= |polls|
  {
    if k == 0 then start else Newest(polls[k - 1].second, CursorAt(start, polls, k - 1))
  }

  /** Everything the first k ticks hand to Emit, in order. */
  function EmittedAt(start: int, polls: seq<Poll>, k: nat): seq<Row>
    requires k <= |polls|
  {
    if k == 0 then [] else EmittedAt(start, polls, k - 1) + Batch(polls[k - 1].first, CursorAt(start, polls, k - 1))
  }

  lemma PrefixHistory(h: seq<Row>, more: seq<Row>)
    requires h <= more && IsHistory(more)
    ensures IsHistory(h)
  {
  }

  lemma BatchAre(h: seq<Row>, cursor: int)
    requires IsHistory(h)
    ensures IsHistory(Batch(h, cursor)) && |Batch(h, cursor)| <= BATCH
    ensures forall row | row in Batch(h, cursor) :: row in h && row.failed && row.id > cursor
  {
    FailuresAre(h, cursor);
  }

  lemma BatchWithin(poll: Poll, cursor: int)
    requires poll.first <= poll.second && IsHistory(poll.second)
    ensures IsHistory(Batch(poll.first, cursor)) && cursor <= Newest(poll.second, cursor)
    ensures forall row | row in Batch(poll.first, cursor) ::
            row.failed && cursor < row.id <= Newest(poll.second, cursor)
  {
    PrefixHistory(poll.first, poll.second);
    BatchAre(poll.first, cursor);
    NewestIsMax(poll.second, cursor);
    forall row | row in Batch(poll.first, cursor) ensures row.id <= Newest(poll.second, cursor) {
      assert row in poll.second;
    }
  }

  predicate Between(rows: seq<Row>, low: int, high: int) {
    forall i | 0 <= i < |rows| :: rows[i].failed && low < rows[i].id <= high
  }

  /** The cursor never moves back, and no row is emitted twice: emitted ids strictly ascend, between the two cursors. */
  lemma {:induction false} NoRowTwice(start: int, polls: seq<Poll>, k: nat)
    requires Growing(polls) && k <= |polls|
    ensures k > 0 ==> CursorAt(start, polls, k - 1) <= CursorAt(start, polls, k)
    ensures start <= CursorAt(start, polls, k) && IsHistory(EmittedAt(start, polls, k))
    ensures Between(EmittedAt(start, polls, k), start, CursorAt(start, polls, k))
  {
    if k > 0 {
      NoRowTwice(start, polls, k - 1);
      var cursor := CursorAt(start, polls, k - 1);
      BatchWithin(polls[k - 1], cursor);
      var batch := Batch(polls[k - 1].first, cursor);
      assert forall i | 0 <= i < |batch| :: batch[i] in batch;
    }
  }

  /** A tick emits every failure its new cursor passes over. */
  predicate Lossless(poll: Poll, cursor: int) {
    |Failures(poll.first, cursor)| <= 100 && Failures(poll.second, cursor) == Failures(poll.first, cursor)
  }

  lemma LosslessIff(poll: Poll, cursor: int)
    requires poll.first <= poll.second
    ensures Batch(poll.first, cursor) <= Failures(poll.second, cursor)
    ensures Batch(poll.first, cursor) == Failures(poll.second, cursor) <==> Lossless(poll, cursor)
  {
    FailuresGrow(poll.first, poll.second, cursor);
  }

  /** All failures the first k ticks could have seen. */
  function AllBy(start: int, polls: seq<Poll>, k: nat): seq<Row>
    requires k <= |polls|
  {
    if k == 0 then [] else Failures(polls[k - 1].second, start)
  }

  lemma {:induction false} CursorIsNewest(start: int, polls: seq<Poll>, k: nat)
    requires Growing(polls) && 0 < k <= |polls|
    ensures CursorAt(start, polls, k) == Newest(polls[k - 1].second, start)
  {
    if k > 1 {
      CursorIsNewest(start, polls, k - 1);
      assert polls[k - 2].second <= polls[k - 2 + 1].first;
      NewestIsMax(polls[k - 2].second, start);
    }
  }

  /** What a tick can add is what failed since the tick before. */
  lemma AllByOne(start: int, polls: seq<Poll>, k: nat)
    requires Growing(polls) && 0 < k <= |polls|
    ensures AllBy(start, polls, k) ==
            AllBy(start, polls, k - 1) + Failures(polls[k - 1].second, CursorAt(start, polls, k - 1))
  {
    if k > 1 {
      CursorIsNewest(start, polls, k - 1);
      assert polls[k - 2].second <= polls[k - 2 + 1].first;
      FailuresSplit(polls[k - 2].second, polls[k - 1].second, start);
    }
  }

  lemma SizesAdd(e: seq<Row>, batch: seq<Row>, all: seq<Row>, more: seq<Row>)
    requires |e| <= |all| && batch <= more && (|e| == |all| ==> e == all)
    ensures |e + batch| <= |all + more|
    ensures |e + batch| == |all + more| <==> |e| == |all| && batch == more
    ensures |e + batch| == |all + more| ==> e + batch == all + more
  {
  }

  /** Every one of the first k ticks emits all its cursor passes over. */
  predicate AllLossless(start: int, polls: seq<Poll>, k: nat)
    requires k <= |polls|
  {
    k == 0 || (AllLossless(start, polls, k - 1) && Lossless(polls[k - 1], CursorAt(start, polls, k - 1)))
  }

  lemma EmittedOne(start: int, polls: seq<Poll>, k: nat)
    requires Growing(polls) && 0 < k <= |polls|
    ensures var cursor := CursorAt(start, polls, k - 1);
            var (batch, more) := (Batch(polls[k - 1].first, cursor), Failures(polls[k - 1].second, cursor));
            && EmittedAt(start, polls, k) == EmittedAt(start, polls, k - 1) + batch
            && AllBy(start, polls, k) == AllBy(start, polls, k - 1) + more
            && batch <= more && (batch == more <==> Lossless(polls[k - 1], cursor))
  {
    AllByOne(start, polls, k);
    LosslessIff(polls[k - 1], CursorAt(start, polls, k - 1));
  }

  lemma {:induction false} EmittedWithin(start: int, polls: seq<Poll>, k: nat)
    requires Growing(polls) && k <= |polls|
    ensures |EmittedAt(start, polls, k)| <= |AllBy(start, polls, k)|
    ensures |EmittedAt(start, polls, k)| == |AllBy(start, polls, k)| <==> AllLossless(start, polls, k)
    ensures |EmittedAt(start, polls, k)| == |AllBy(start, polls, k)| ==>
            EmittedAt(start, polls, k) == AllBy(start, polls, k)
  {
    if k > 0 {
      EmittedWithin(start, polls, k - 1);
      EmittedOne(start, polls, k);
      var cursor := CursorAt(start, polls, k - 1);
      SizesAdd(EmittedAt(start, polls, k - 1), Batch(polls[k - 1].first, cursor),
               AllBy(start, polls, k - 1), Failures(polls[k - 1].second, cursor));
    }
  }

  /**
   The emitted rows are all failures past the starting cursor exactly when every tick found at most
   a hundred of them and none was inserted between its two queries.
   */
  lemma AllEmittedIff(start: int, polls: seq<Poll>)
    requires Growing(polls) && polls != []
    ensures EmittedAt(start, polls, |polls|) == Failures(polls[|polls| - 1].second, start) <==>
            AllLossless(start, polls, |polls|)
  {
    EmittedWithin(start, polls, |polls|);
  }

  lemma {:induction false} CursorGrows(start: int, polls: seq<Poll>, j: nat, k: nat)
    requires Growing(polls) && j <= k <= |polls|
    ensures CursorAt(start, polls, j) <= CursorAt(start, polls, k)
    decreases k - j
  {
    if j < k {
      CursorGrows(start, polls, j, k - 1);
      NewestIsMax(polls[k - 1].second, CursorAt(start, polls, k - 1));
    }
  }

  lemma BatchIsNewer(poll: Poll, cursor: int, row: Row)
    requires poll.first <= poll.second && IsHistory(poll.second) && row in Batch(poll.first, cursor)
    ensures row.id > cursor
  {
    BatchWithin(poll, cursor);
  }

  lemma {:induction false} LaterIsNewer(start: int, polls: seq<Poll>, j: nat, k: nat, row: Row)
    requires Growing(polls) && j <= k <= |polls| && row in EmittedAt(start, polls, k)
    ensures row in EmittedAt(start, polls, j) || row.id > CursorAt(start, polls, j)
    decreases k - j
  {
    if j < k {
      if row in EmittedAt(start, polls, k - 1) {
        LaterIsNewer(start, polls, j, k - 1, row);
      } else {
        CursorGrows(start, polls, j, k - 1);
        BatchIsNewer(polls[k - 1], CursorAt(start, polls, k - 1), row);
      }
    }
  }

  lemma EmittedIsBelow(start: int, polls: seq<Poll>, k: nat, row: Row)
    requires Growing(polls) && k <= |polls| && row in EmittedAt(start, polls, k)
    ensures row.id <= CursorAt(start, polls, k)
  {
    NoRowTwice(start, polls, k);
  }

  lemma PassedOver(poll: Poll, cursor: int, row: Row)
    requires IsHistory(poll.second) && row in Failures(poll.second, cursor)
    ensures cursor < row.id <= Newest(poll.second, cursor)
  {
    FailuresAre(poll.second, cursor);
    NewestIsMax(poll.second, cursor);
  }

  lemma NotEmittedBy(start: int, polls: seq<Poll>, j: nat, row: Row)
    requires Growing(polls) && 0 < j <= |polls| && row.id > CursorAt(start, polls, j - 1)
    requires row !in Batch(polls[j - 1].first, CursorAt(start, polls, j - 1))
    ensures row !in EmittedAt(start, polls, j)
  {
    if row in EmittedAt(start, polls, j - 1) {
      EmittedIsBelow(start, polls, j - 1, row);
    }
  }

  /** A failure that a tick's cursor passes over is not emitted by any later tick. */
  lemma PassedOverIsLost(start: int, polls: seq<Poll>, j: nat, k: nat, row: Row)
    requires Growing(polls) && 0 < j <= k <= |polls|
    requires row in Failures(polls[j - 1].second, CursorAt(start, polls, j - 1))
    requires row !in Batch(polls[j - 1].first, CursorAt(start, polls, j - 1))
    ensures row !in EmittedAt(start, polls, k)
  {
    PassedOver(polls[j - 1], CursorAt(start, polls, j - 1), row);
    NotEmittedBy(start, polls, j, row);
    if row in EmittedAt(start, polls, k) {
      LaterIsNewer(start, polls, j, k, row);
    }
  }

  // ---- What is emitted for a row ------------------------------------------------------

  /** The text behind a task's fingerprint. */
  function TaskText(name: string, taskId: int): string {
    Preimage("task/" + name, ["task_id"], map["task_id" := Number(taskId)])
  }

  function SeverityOf(prior: nat): string {
    if prior >= 5 then "critical" else if prior >= 3 then "error" else "warning"
  }

  /** The failures of a task up to and including a row. */
  function Prior(h: seq<Row>, taskId: int, upTo: int): nat {
    if h == [] then 0
    else
      var last := h[|h| - 1];
      Prior(h[..|h| - 1], taskId, upTo) + if last.failed && last.taskId == taskId && last.id <= upTo then 1 else 0
  }

  /** The arguments for a row; a failed count query leaves the severity at "warning". */
  function ArgsOf(row: Row, fp: string, prior: Option<nat>, context: Params): EmitArgs {
    EmitArgs(if prior.Some? then SeverityOf(prior.value) else "warning", "task/" + row.name,
             row.name + " failed (task_id=" + IntText(row.taskId) + ")", fp, context)
  }

  /** What a tick meets besides the history: whether its statements succeed, contexts and clocks. */
  datatype Env = Env(firstOk: bool, secondOk: bool, countOk: nat -> bool, context: nat -> Params,
                     keys: nat -> seq<string>, now: nat -> int, execOk: nat -> bool, readOk: nat -> bool)

  /** The store operation of a row. */
  function OpOf(row: Row, i: nat, h: seq<Row>, hash: string -> string, env: Env): Op {
    var fp := hash(TaskText(row.name, row.taskId));
    Emitted(fp, ArgsOf(row, fp, if env.countOk(i) then Some(Prior(h, row.taskId, row.id)) else None, env.context(i)),
            env.now(i))
  }

  /** The failed rows of a task up to and including a row, as a set of places in the history. */
  ghost function FailedUpTo(h: seq<Row>, taskId: int, upTo: int): set<nat> {
    set i: nat | i < |h| && h[i].failed && h[i].taskId == taskId && h[i].id <= upTo
  }

  lemma {:induction false} PriorCounts(h: seq<Row>, taskId: int, upTo: int)
    ensures Prior(h, taskId, upTo) == |FailedUpTo(h, taskId, upTo)|
  {
    if h == [] {
      assert FailedUpTo(h, taskId, upTo) == {};
    } else {
      var n := |h| - 1;
      var last := h[n];
      PriorCounts(h[..n], taskId, upTo);
      assert FailedUpTo(h, taskId, upTo) ==
             FailedUpTo(h[..n], taskId, upTo) +
             if last.failed && last.taskId == taskId && last.id <= upTo then {n} else {};
    }
  }

  /**
   What tick hands to Emit for a row: under the task's fingerprint, critical from five failures on, an error
   from three, otherwise a warning, as it is when they could not be counted.
   */
  lemma OpSays(row: Row, i: nat, h: seq<Row>, hash: string -> string, env: Env)
    ensures var (op, failed) := (OpOf(row, i, h, hash, env), |FailedUpTo(h, row.taskId, row.id)|);
            && op.Emitted? && op.fp == op.args.fingerprint == hash(TaskText(row.name, row.taskId))
               && op.now == env.now(i)
            && op.args.source == "task/" + row.name && op.args.context == env.context(i)
            && op.args.message == row.name + " failed (task_id=" + IntText(row.taskId) + ")"
            && (op.args.severity == "critical" <==> env.countOk(i) && failed >= 5)
            && (op.args.severity == "error" <==> env.countOk(i) && 3 <= failed < 5)
            && (op.args.severity == "warning" <==> !env.countOk(i) || failed < 3)
  {
    PriorCounts(h, row.taskId, row.id);
  }

  /** The store operations of the first k rows of a batch. */
  function OpsOf(batch: seq<Row>, h: seq<Row>, hash: string -> string, env: Env, k: nat): seq<Op>
    requires k <= |batch|
  {
    if k == 0 then []
    else OpsOf(batch, h, hash, env, k - 1) + if env.execOk(k - 1) then [OpOf(batch[k - 1], k - 1, h, hash, env)] else []
  }

  lemma OpsOneMore(db: Db, batch: seq<Row>, h: seq<Row>, hash: string -> string, env: Env, k: nat)
    requires k < |batch|
    ensures var before := ApplyOps(db, OpsOf(batch, h, hash, env, k));
            ApplyOps(db, OpsOf(batch, h, hash, env, k + 1)) ==
              if env.execOk(k) then ApplyOp(before, OpOf(batch[k], k, h, hash, env)) else before
  {
    var ops, more := OpsOf(batch, h, hash, env, k), OpsOf(batch, h, hash, env, k + 1);
    if env.execOk(k) {
      assert more[..|more| - 1] == ops;
    } else {
      assert more == ops;
    }
  }

  class Poller {
    var cursor: int
    const store: Store

    constructor (store: Store)
      ensures this.store == store && cursor == 0
    {
      this.store, cursor := store, 0;
    }

    /** initCursor: start behind what is already in the history. */
    method InitCursor(h: seq<Row>, queryOk: bool)
      requires IsHistory(h) && cursor == 0 && (forall row | row in h :: row.id > 0)
      modifies this
      ensures cursor == if queryOk then Newest(h, 0) else 0
      ensures queryOk ==> Failures(h, cursor) == []
    {
      if queryOk && h != [] {
        assert h[|h| - 1] in h;
        cursor := h[|h| - 1].id;
      }
      NewestIsMax(h, 0);
      if queryOk {
        NoneNewer(h, cursor);
      }
    }

    /** One row of a batch, handed to Emit. */
    method EmitRow(row: Row, i: nat, h: seq<Row>, env: Env)
      requires Alerts.Inv(store.db) && store.hash(TaskText(row.name, row.taskId)) != ""
      requires Distinct(env.keys(i)) && forall k :: k in env.keys(i) <==> k in env.context(i)
      modifies store
      ensures Alerts.Inv(store.db)
      ensures store.db ==
              if env.execOk(i) then ApplyOp(old(store.db), OpOf(row, i, h, store.hash, env)) else old(store.db)
    {
      var fp := store.hash(TaskText(row.name, row.taskId));
      var args := ArgsOf(row, fp, if env.countOk(i) then Some(Prior(h, row.taskId, row.id)) else None, env.context(i));
      var id := store.Emit(args, env.keys(i), env.now(i), env.execOk(i), env.readOk(i));
    }

    /** The loop of tick. */
    method EmitBatch(rows: seq<Row>, h: seq<Row>, env: Env)
      requires Alerts.Inv(store.db) && forall s :: store.hash(s) != ""
      requires forall i: nat :: Distinct(env.keys(i)) && forall k :: k in env.keys(i) <==> k in env.context(i)
      modifies store
      ensures Alerts.Inv(store.db)
      ensures store.db == ApplyOps(old(store.db), OpsOf(rows, h, store.hash, env, |rows|))
    {
      for i := 0 to |rows|
        invariant Alerts.Inv(store.db)
        invariant store.db == ApplyOps(old(store.db), OpsOf(rows, h, store.hash, env, i))
      {
        OpsOneMore(old(store.db), rows, h, store.hash, env, i);
        EmitRow(rows[i], i, h, env);
      }
    }

    /** tick: emit the batch of the first query, then move the cursor to the newest row of the second. */
    method Tick(poll: Poll, env: Env) returns (ok: bool)
      requires poll.first <= poll.second && IsHistory(poll.second) && Alerts.Inv(store.db)
      requires forall s :: store.hash(s) != ""
      requires forall i: nat :: Distinct(env.keys(i)) && forall k :: k in env.keys(i) <==> k in env.context(i)
      modifies this, store
      ensures Alerts.Inv(store.db) && ok == (env.firstOk && env.secondOk)
      ensures var batch := if ok then Batch(poll.first, old(cursor)) else [];
              && store.db == ApplyOps(old(store.db), OpsOf(batch, poll.second, store.hash, env, |batch|))
              && cursor == if ok then Newest(poll.second, old(cursor)) else old(cursor)
    {
      if !env.firstOk || !env.secondOk {
        return false;
      }
      EmitBatch(Batch(poll.first, cursor), poll.second, env);
      cursor := Newest(poll.second, cursor);
      ok := true;
    }
  }

  // ---- What the store says about a task -----------------------------------------------

  lemma {:induction false} DigitsAreNot(s: string, c: char)
    requires AllDigits(s) && !IsDigit(c)
    ensures c !in s
  {
  }

  lemma IntTextSign(n: int)
    ensures IntText(n) != "" && (IntText(n)[0] == '-' <==> n < 0)
  {
  }

  lemma IntTextIsInjective(m: int, n: int)
    requires IntText(m) == IntText(n)
    ensures m == n
  {
    IntTextSign(m);
    IntTextSign(n);
    if m < 0 {
      assert IntText(m)[1..] == NatText(-m) && IntText(n)[1..] == NatText(-n);
      NatTextValue(-m);
      NatTextValue(-n);
    } else {
      NatTextValue(m);
      NatTextValue(n);
    }
  }

  lemma IntTextHasNo(n: int, c: char)
    requires !IsDigit(c) && c != '-'
    ensures c !in IntText(n)
  {
    DigitsAreNot(NatText(if n < 0 then -n else n), c);
  }

  /** Different tasks have different texts. */
  lemma TaskTextIsInjective(name: string, taskId: int, name': string, taskId': int)
    requires NUL !in name && NUL !in name' && TaskText(name, taskId) == TaskText(name', taskId')
    ensures name == name' && taskId == taskId'
  {
    var p, q := map["task_id" := Number(taskId)], map["task_id" := Number(taskId')];
    IntTextHasNo(taskId, NUL);
    IntTextHasNo(taskId', NUL);
    PreimageIsInjective("task/" + name, ["task_id"], p, "task/" + name', ["task_id"], q);
    assert ("task/" + name)[5..] == name && ("task/" + name')[5..] == name';
    assert Show(p["task_id"]) == Show(q["task_id"]);
    IntTextIsInjective(taskId, taskId');
  }

  predicate OfTask(row: Row, name: string, taskId: int) {
    row.name == name && row.taskId == taskId
  }

  /** No NUL in the names, and no other task's text collides with this task's. */
  predicate CollisionFree(hash: string -> string, rows: seq<Row>, name: string, taskId: int) {
    && NUL !in name
    && forall row | row in rows ::
         && NUL !in row.name
         && (hash(TaskText(row.name, row.taskId)) == hash(TaskText(name, taskId)) ==>
             TaskText(row.name, row.taskId) == TaskText(name, taskId))
  }

  /** The fingerprint tells the rows of a task from all others. */
  predicate Tells(hash: string -> string, rows: seq<Row>, name: string, taskId: int) {
    forall i | 0 <= i < |rows| ::
      hash(TaskText(rows[i].name, rows[i].taskId)) == hash(TaskText(name, taskId)) <==> OfTask(rows[i], name, taskId)
  }

  lemma FingerprintTells(hash: string -> string, h: seq<Row>, rows: seq<Row>, name: string, taskId: int)
    requires CollisionFree(hash, h, name, taskId) && forall row | row in rows :: row in h
    ensures Tells(hash, rows, name, taskId)
  {
    forall i | 0 <= i < |rows|
      ensures hash(TaskText(rows[i].name, rows[i].taskId)) == hash(TaskText(name, taskId)) <==>
              OfTask(rows[i], name, taskId)
    {
      assert rows[i] in rows;
      if TaskText(rows[i].name, rows[i].taskId) == TaskText(name, taskId) {
        TaskTextIsInjective(rows[i].name, rows[i].taskId, name, taskId);
      }
    }
  }

  /** How many rows are of one task. */
  function CountOf(rows: seq<Row>, name: string, taskId: int): nat {
    if rows == [] then 0
    else
      var last := rows[|rows| - 1];
      CountOf(rows[..|rows| - 1], name, taskId) + if OfTask(last, name, taskId) then 1 else 0
  }

  /** The emissions of one fingerprint among the store's operations. */
  function FpOps(ops: seq<Op>, fp: string): seq<Op> {
    if ops == [] then []
    else
      var last := ops[|ops| - 1];
      FpOps(ops[..|ops| - 1], fp) + if last.Emitted? && last.fp == fp then [last] else []
  }

  lemma {:induction false} FpOpsDecide(ops: seq<Op>, fp: string)
    ensures |FpOps(ops, fp)| == Emissions(ops, fp)
    ensures Emissions(ops, fp) > 0 ==> FpOps(ops, fp)[0] == FirstEmission(ops, fp)
  {
    if ops != [] {
      FpOpsDecide(ops[..|ops| - 1], fp);
    }
  }

  /** The operation of one row, every statement getting through on the history `h`. */
  predicate EmitsRow(op: Op, row: Row, h: seq<Row>, hash: string -> string) {
    && op.Emitted? && op.fp == hash(TaskText(row.name, row.taskId))
    && op.args.severity == SeverityOf(Prior(h, row.taskId, row.id))
  }

  predicate Emit(ops: seq<Op>, rows: seq<Row>, h: seq<Row>, hash: string -> string) {
    |ops| == |rows| && forall i | 0 <= i < |rows| :: EmitsRow(ops[i], rows[i], h, hash)
  }

  /** Each operation is an emission, under `fp` exactly for the rows of the task. */
  predicate Labels(ops: seq<Op>, rows: seq<Row>, fp: string, name: string, taskId: int) {
    && |ops| == |rows|
    && forall i | 0 <= i < |rows| :: ops[i].Emitted? && (ops[i].fp == fp <==> OfTask(rows[i], name, taskId))
  }

  lemma EmitLabels(ops: seq<Op>, rows: seq<Row>, h: seq<Row>, hash: string -> string, name: string, taskId: int)
    requires Tells(hash, rows, name, taskId) && Emit(ops, rows, h, hash)
    ensures Labels(ops, rows, hash(TaskText(name, taskId)), name, taskId)
  {
    forall i | 0 <= i < |rows|
      ensures ops[i].Emitted? && ops[i].fp == hash(TaskText(rows[i].name, rows[i].taskId))
    {
      assert EmitsRow(ops[i], rows[i], h, hash);
    }
  }

  lemma {:induction false} EmissionsAreRows(ops: seq<Op>, rows: seq<Row>, fp: string, name: string, taskId: int)
    requires Labels(ops, rows, fp, name, taskId)
    ensures Emissions(ops, fp) == CountOf(rows, name, taskId)
  {
    if rows != [] {
      EmissionsAreRows(ops[..|rows| - 1], rows[..|rows| - 1], fp, name, taskId);
    }
  }

  // ---- What the ticks emit ------------------------------------------------------------

  /** A tick all of whose statements succeed. */
  ghost predicate Quiet(env: Env) {
    env.firstOk && env.secondOk && forall i: nat :: env.countOk(i) && env.execOk(i)
  }

  /** The store operations of the first k ticks, as Tick applies them. */
  function PollerOps(start: int, polls: seq<Poll>, envs: seq<Env>, hash: string -> string, k: nat): seq<Op>
    requires k <= |polls| && |envs| == |polls|
  {
    if k == 0 then []
    else
      var batch := Batch(polls[k - 1].first, CursorAt(start, polls, k - 1));
      PollerOps(start, polls, envs, hash, k - 1) + OpsOf(batch, polls[k - 1].second, hash, envs[k - 1], |batch|)
  }

  /** Rows that come later do not change how many failures came before. */
  lemma {:induction false} PriorIsStable(h: seq<Row>, more: seq<Row>, row: Row)
    requires h <= more && IsHistory(more) && row in h
    ensures Prior(more, row.taskId, row.id) == Prior(h, row.taskId, row.id)
  {
    if h != more {
      PriorIsStable(h, more[..|more| - 1], row);
      var i :| 0 <= i < |h| && h[i] == row;
      assert more[i] == row;
    }
  }

  lemma EmitConcat(a: seq<Op>, r: seq<Row>, b: seq<Op>, s: seq<Row>, h: seq<Row>, hash: string -> string)
    requires Emit(a, r, h, hash) && Emit(b, s, h, hash)
    ensures Emit(a + b, r + s, h, hash)
  {
  }

  lemma OpEmitsRow(row: Row, i: nat, h: seq<Row>, more: seq<Row>, hash: string -> string, env: Env)
    requires env.countOk(i) && h <= more && IsHistory(more) && row in h
    ensures EmitsRow(OpOf(row, i, h, hash, env), row, more, hash)
  {
    PriorIsStable(h, more, row);
  }

  lemma OneMoreEmits(ops: seq<Op>, rows: seq<Row>, op: Op, row: Row, h: seq<Row>, hash: string -> string)
    requires Emit(ops, rows, h, hash) && EmitsRow(op, row, h, hash)
    ensures Emit(ops + [op], rows + [row], h, hash)
  {
    EmitConcat(ops, rows, [op], [row], h, hash);
  }

  /** When every statement succeeds, each row adds its operation. */
  lemma QuietOps(batch: seq<Row>, h: seq<Row>, hash: string -> string, env: Env, k: nat)
    requires 0 < k <= |batch| && Quiet(env)
    ensures env.countOk(k - 1)
    ensures OpsOf(batch, h, hash, env, k) ==
            OpsOf(batch, h, hash, env, k - 1) + [OpOf(batch[k - 1], k - 1, h, hash, env)]
  {}

  /** One more row of a batch. */
  lemma BatchStep(ops: seq<Op>, batch: seq<Row>, h: seq<Row>, more: seq<Row>, hash: string -> string, env: Env, k: nat)
    requires k < |batch| && env.countOk(k) && h <= more && IsHistory(more) && batch[k] in h
    requires Emit(ops, batch[..k], more, hash)
    ensures Emit(ops + [OpOf(batch[k], k, h, hash, env)], batch[..k + 1], more, hash)
  {
    OpEmitsRow(batch[k], k, h, more, hash, env);
    OneMoreEmits(ops, batch[..k], OpOf(batch[k], k, h, hash, env), batch[k], more, hash);
    assert batch[..k + 1] == batch[..k] + [batch[k]];
  }

  /** A tick's operations on a batch emit its rows, seen from any later history. */
  lemma {:induction false} BatchEmits(batch: seq<Row>, h: seq<Row>, more: seq<Row>, hash: string -> string, env: Env,
                                      k: nat)
    requires k <= |batch| && Quiet(env) && h <= more && IsHistory(more) && forall row | row in batch :: row in h
    ensures Emit(OpsOf(batch, h, hash, env, k), batch[..k], more, hash)
  {
    if k > 0 {
      BatchEmits(batch, h, more, hash, env, k - 1);
      assert batch[k - 1] in batch;
      QuietOps(batch, h, hash, env, k);
      BatchStep(OpsOf(batch, h, hash, env, k - 1), batch, h, more, hash, env, k - 1);
    }
  }

  lemma {:induction false} SeenLater(polls: seq<Poll>, j: nat, k: nat)
    requires Growing(polls) && j <= k < |polls|
    ensures polls[j].second <= polls[k].second
    decreases k - j
  {
    if j < k {
      SeenLater(polls, j, k - 1);
      assert polls[k - 1].second <= polls[k - 1 + 1].first;
    }
  }

  /** The operations of successful ticks emit exactly the rows of EmittedAt, in order. */
  lemma {:induction false} TicksEmit(start: int, polls: seq<Poll>, envs: seq<Env>, hash: string -> string, k: nat,
                                     h: seq<Row>)
    requires Growing(polls) && k <= |polls| && |envs| == |polls| && (forall i | 0 <= i < |envs| :: Quiet(envs[i]))
    requires IsHistory(h) && (k > 0 ==> polls[k - 1].second <= h)
    ensures Emit(PollerOps(start, polls, envs, hash, k), EmittedAt(start, polls, k), h, hash)
  {
    if k > 0 {
      var poll, cursor := polls[k - 1], CursorAt(start, polls, k - 1);
      if k > 1 {
        SeenLater(polls, k - 2, k - 1);
      }
      TicksEmit(start, polls, envs, hash, k - 1, h);
      var batch := Batch(poll.first, cursor);
      PrefixHistory(poll.first, poll.second);
      BatchAre(poll.first, cursor);
      forall row | row in batch ensures row in poll.second {
        assert row in poll.first;
      }
      BatchEmits(batch, poll.second, h, hash, envs[k - 1], |batch|);
      assert batch[..|batch|] == batch;
      EmitConcat(PollerOps(start, polls, envs, hash, k - 1), EmittedAt(start, polls, k - 1),
                 OpsOf(batch, poll.second, hash, envs[k - 1], |batch|), batch, h, hash);
    }
  }

  lemma {:induction false} EmittedAreSeen(start: int, polls: seq<Poll>, k: nat)
    requires Growing(polls) && 0 < k <= |polls|
    ensures forall row | row in EmittedAt(start, polls, k) :: row in polls[k - 1].second
  {
    if k > 1 {
      EmittedAreSeen(start, polls, k - 1);
      SeenLater(polls, k - 2, k - 1);
    }
    var poll := polls[k - 1];
    PrefixHistory(poll.first, poll.second);
    BatchAre(poll.first, CursorAt(start, polls, k - 1));
  }

  // ---- Whole runs of the poller on a store shared with others -------------------------

  /**
   Successful ticks on a store that other emitters and acknowledgements work on too: of all its
   operations, those with this one fingerprint are the poller's.
   */
  ghost predicate Shared(start: int, polls: seq<Poll>, envs: seq<Env>, ops: seq<Op>, hash: string -> string,
                         name: string, taskId: int) {
    && Growing(polls) && polls != [] && |envs| == |polls| && (forall i | 0 <= i < |envs| :: Quiet(envs[i]))
    && CollisionFree(hash, polls[|polls| - 1].second, name, taskId)
    && var fp := hash(TaskText(name, taskId)); FpOps(ops, fp) == FpOps(PollerOps(start, polls, envs, hash, |polls|), fp)
  }

  lemma SharedEmissions(start: int, polls: seq<Poll>, envs: seq<Env>, ops: seq<Op>, hash: string -> string,
                        name: string, taskId: int)
    requires Shared(start, polls, envs, ops, hash, name, taskId)
    ensures var (rows, mine) := (EmittedAt(start, polls, |polls|), PollerOps(start, polls, envs, hash, |polls|));
            var fp := hash(TaskText(name, taskId));
            && Tells(hash, rows, name, taskId) && Emit(mine, rows, polls[|polls| - 1].second, hash)
            && Emissions(ops, fp) == Emissions(mine, fp) == CountOf(rows, name, taskId)
            && (Emissions(ops, fp) > 0 ==> FirstEmission(ops, fp) == FirstEmission(mine, fp))
  {
    var rows, mine := EmittedAt(start, polls, |polls|), PollerOps(start, polls, envs, hash, |polls|);
    var h, fp := polls[|polls| - 1].second, hash(TaskText(name, taskId));
    EmittedAreSeen(start, polls, |polls|);
    FingerprintTells(hash, h, rows, name, taskId);
    TicksEmit(start, polls, envs, hash, |polls|, h);
    EmitLabels(mine, rows, h, hash, name, taskId);
    EmissionsAreRows(mine, rows, fp, name, taskId);
    FpOpsDecide(ops, fp);
    FpOpsDecide(mine, fp);
  }

  /**
   A task's stored count grows by the rows emitted for it, whatever the store held before and
   whoever else writes to it; when no tick loses a failure, by all its failures past the cursor.
   */
  lemma StoredCountIsFailures(initial: Db, start: int, polls: seq<Poll>, envs: seq<Env>, ops: seq<Op>,
                              hash: string -> string, name: string, taskId: int)
    requires Shared(start, polls, envs, ops, hash, name, taskId)
    ensures var (db, fp) := (ApplyOps(initial, ops), hash(TaskText(name, taskId)));
            && CountIn(db, fp) == CountIn(initial, fp) + CountOf(EmittedAt(start, polls, |polls|), name, taskId)
            && (AllLossless(start, polls, |polls|) ==>
                  CountIn(db, fp) ==
                    CountIn(initial, fp) + CountOf(Failures(polls[|polls| - 1].second, start), name, taskId))
  {
    SharedEmissions(start, polls, envs, ops, hash, name, taskId);
    StoredCount(initial, ops, hash(TaskText(name, taskId)));
    AllEmittedIff(start, polls);
  }

  /** The first emission of a fingerprint is that of the task's first row. */
  lemma {:induction false} FirstRow(ops: seq<Op>, rows: seq<Row>, fp: string, name: string, taskId: int)
    returns (i: nat)
    requires Labels(ops, rows, fp, name, taskId) && Emissions(ops, fp) > 0
    ensures IsFirstOf(rows, name, taskId, i) && FirstEmission(ops, fp) == ops[i]
  {
    var n := |rows| - 1;
    if Emissions(ops[..n], fp) > 0 {
      i := FirstRow(ops[..n], rows[..n], fp, name, taskId);
      assert forall j | 0 <= j <= i :: rows[j] == rows[..n][j];
    } else {
      i := n;
      EmissionsAreRows(ops[..n], rows[..n], fp, name, taskId);
      NoneCounted(rows[..n], name, taskId);
      assert forall j | 0 <= j < n :: rows[j] == rows[..n][j];
    }
  }

  predicate IsFirstOf(rows: seq<Row>, name: string, taskId: int, i: nat) {
    i < |rows| && OfTask(rows[i], name, taskId) && forall j | 0 <= j < i :: !OfTask(rows[j], name, taskId)
  }

  lemma {:induction false} NoneCounted(rows: seq<Row>, name: string, taskId: int)
    requires CountOf(rows, name, taskId) == 0
    ensures forall j | 0 <= j < |rows| :: !OfTask(rows[j], name, taskId)
  {
    if rows != [] {
      var init := rows[..|rows| - 1];
      NoneCounted(init, name, taskId);
      assert forall j | 0 <= j < |init| :: rows[j] == init[j];
    }
  }

  /** Bounds above all ids make no difference. */
  lemma {:induction false} PriorAbove(h: seq<Row>, taskId: int, a: int, b: int)
    requires forall r | r in h :: r.id <= a && r.id <= b
    ensures Prior(h, taskId, a) == Prior(h, taskId, b)
  {
    if h != [] {
      assert h[|h| - 1] in h;
      PriorAbove(h[..|h| - 1], taskId, a, b);
    }
  }

  /** A failure counts itself among its prior failures. */
  lemma {:induction false} PriorStep(h: seq<Row>, row: Row)
    requires IsHistory(h) && row.failed && row in h
    ensures Prior(h, row.taskId, row.id) == Prior(h, row.taskId, row.id - 1) + 1
  {
    var init, last := h[..|h| - 1], h[|h| - 1];
    var i :| 0 <= i < |h| && h[i] == row;
    if row == last {
      forall r | r in init ensures r.id < row.id {
        var j :| 0 <= j < |init| && init[j] == r;
        assert h[j] == r;
      }
      PriorAbove(init, row.taskId, row.id, row.id - 1);
    } else {
      assert init[i] == row;
      PriorStep(init, row);
    }
  }

  lemma SeverityIs(prior: nat)
    ensures SeverityOf(prior) != "" && (SeverityOf(prior) != "warning" <==> prior >= 3)
  {
  }

  /** Two failures or more before this one, which is the first emitted of its task. */
  predicate HadFailedTwice(h: seq<Row>, row: Row) {
    Prior(h, row.taskId, row.id - 1) >= 2
  }

  lemma RowSeverity(op: Op, row: Row, h: seq<Row>, hash: string -> string)
    requires EmitsRow(op, row, h, hash) && IsHistory(h) && row in h && row.failed
    ensures op.args.severity == SeverityOf(Prior(h, row.taskId, row.id)) != ""
    ensures op.args.severity != "warning" <==> HadFailedTwice(h, row)
  {
    PriorStep(h, row);
    SeverityIs(Prior(h, row.taskId, row.id));
  }

  lemma FirstSeverity(emits: seq<Op>, rows: seq<Row>, h: seq<Row>, hash: string -> string, name: string, taskId: int)
    returns (i: nat)
    requires Tells(hash, rows, name, taskId) && Emit(emits, rows, h, hash)
    requires Emissions(emits, hash(TaskText(name, taskId))) > 0
    requires IsHistory(h) && forall row | row in rows :: row in h && row.failed
    ensures IsFirstOf(rows, name, taskId, i)
    ensures var severity := FirstEmission(emits, hash(TaskText(name, taskId))).args.severity;
            && severity == SeverityOf(Prior(h, taskId, rows[i].id)) != ""
            && (severity != "warning" <==> HadFailedTwice(h, rows[i]))
  {
    EmitLabels(emits, rows, h, hash, name, taskId);
    i := FirstRow(emits, rows, hash(TaskText(name, taskId)), name, taskId);
    assert EmitsRow(emits[i], rows[i], h, hash);
    assert rows[i] in rows;
    RowSeverity(emits[i], rows[i], h, hash);
  }

  lemma EmittedFailed(start: int, polls: seq<Poll>, k: nat)
    requires Growing(polls) && k <= |polls|
    ensures forall row | row in EmittedAt(start, polls, k) :: row.failed
  {
    NoRowTwice(start, polls, k);
  }

  /**
   Severity is decided once: the stored one is what the row had before, or else goes by how many
   failures the task had at its first emitted one, whatever comes later. So the promotion that tick
   promises is seen exactly on tasks that had failed twice or more before that.
   */
  lemma NeverPromoted(initial: Db, start: int, polls: seq<Poll>, envs: seq<Env>, ops: seq<Op>,
                      hash: string -> string, name: string, taskId: int) returns (i: nat)
    requires Shared(start, polls, envs, ops, hash, name, taskId)
    requires CountOf(EmittedAt(start, polls, |polls|), name, taskId) > 0
    ensures var (rows, h) := (EmittedAt(start, polls, |polls|), polls[|polls| - 1].second);
            var (db, fp) := (ApplyOps(initial, ops), hash(TaskText(name, taskId)));
            && IsFirstOf(rows, name, taskId, i) && fp in db.rows
            && if fp in initial.rows then db.rows[fp].severity == initial.rows[fp].severity
               else && db.rows[fp].severity == SeverityOf(Prior(h, taskId, rows[i].id))
                    && (db.rows[fp].severity != "warning" <==> HadFailedTwice(h, rows[i]))
  {
    SharedEmissions(start, polls, envs, ops, hash, name, taskId);
    EmittedAreSeen(start, polls, |polls|);
    EmittedFailed(start, polls, |polls|);
    i := FirstSeverity(PollerOps(start, polls, envs, hash, |polls|), EmittedAt(start, polls, |polls|),
                       polls[|polls| - 1].second, hash, name, taskId);
    StoredTexts(initial, ops, hash(TaskText(name, taskId)));
  }
}

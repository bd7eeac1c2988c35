/**
 The ParkComplete task: one owned run over a batch of candidates, and how many runs it takes
 to complete everything that is ready.
 */
module ParkComplete {
  import opened Text
  import opened StashPaths
  import opened PieceStore

  const BATCH_SIZE: nat := 32

  /** The piece a processed row completes: its URL resolves to a file that can be stat-ed. */
  predicate Completes(st: Store, resolve: string -> Option<string>, row: Row, id: int) {
    row.pieceId == id && Located(st, resolve, row.url).Some?
  }

  /**
   The tables after the rows in `rows` were processed: `complete` is set for what was located, and
   nothing else moves.
   */
  ghost predicate Processed(before: Store, after: Store, resolve: string -> Option<string>, rows: seq<Row>) {
    && after.refs == before.refs && after.files == before.files
    && after.pieces.Keys == before.pieces.Keys
    && forall id | id in before.pieces ::
         after.pieces[id] == before.pieces[id].(
           complete := before.pieces[id].complete ||
                       exists i | 0 <= i < |rows| :: Completes(before, resolve, rows[i], id))
  }

  /** Processing the next row, as the loop of Do does. */
  lemma ProcessOne(before: Store, cur: Store, resolve: string -> Option<string>, rows: seq<Row>, k: nat)
    requires k < |rows| && Processed(before, cur, resolve, rows[..k])
    ensures var located := Located(before, resolve, rows[k].url).Some?;
            Processed(before, if located then SetComplete(cur, rows[k].pieceId) else cur, resolve, rows[..k + 1])
  {
    var done, next := rows[..k], rows[..k + 1];
    assert next[k] == rows[k] && forall i | 0 <= i < k :: next[i] == done[i];
    forall id | id in before.pieces
      ensures (exists i | 0 <= i < |next| :: Completes(before, resolve, next[i], id)) <==>
                (exists i | 0 <= i < |done| :: Completes(before, resolve, done[i], id))
                  || Completes(before, resolve, rows[k], id)
    {
      if Completes(before, resolve, rows[k], id) {
        assert Completes(before, resolve, next[k], id);
      }
      if i :| 0 <= i < |done| && Completes(before, resolve, done[i], id) {
        assert Completes(before, resolve, next[i], id);
      }
    }
  }

  predicate AnyLocated(st: Store, resolve: string -> Option<string>, rows: seq<Row>) {
    exists i | 0 <= i < |rows| :: Located(st, resolve, rows[i].url).Some?
  }

  lemma OneMoreLocated(st: Store, resolve: string -> Option<string>, rows: seq<Row>, k: nat)
    requires k < |rows|
    ensures AnyLocated(st, resolve, rows[..k + 1]) <==>
              AnyLocated(st, resolve, rows[..k]) || Located(st, resolve, rows[k].url).Some?
  {
    var done, next := rows[..k], rows[..k + 1];
    assert next[k] == rows[k] && forall i | 0 <= i < k :: next[i] == done[i];
  }

  /** Ownership and updates held for the first k rows. */
  predicate Smooth(st: Store, resolve: string -> Option<string>, rows: seq<Row>, owned: nat -> bool,
                   execOk: nat -> bool, k: nat)
    requires k <= |rows|
  {
    && (forall i | 0 <= i < k :: owned(i))
    && forall i | 0 <= i < k && Located(st, resolve, rows[i].url).Some? :: execOk(i)
  }

  /** Tables and counter once the first k rows were processed. */
  ghost predicate Progress(before: Store, cur: Store, resolve: string -> Option<string>, rows: seq<Row>,
                           owned: nat -> bool, execOk: nat -> bool, k: nat, completed: nat)
  {
    && k <= |rows| && Processed(before, cur, resolve, rows[..k]) && Smooth(before, resolve, rows, owned, execOk, k)
    && (completed > 0 <==> AnyLocated(before, resolve, rows[..k]))
  }

  /** The cases of Do on its next row. */
  lemma NextRow(before: Store, cur: Store, resolve: string -> Option<string>, rows: seq<Row>,
                owned: nat -> bool, execOk: nat -> bool, k: nat, completed: nat)
    requires Progress(before, cur, resolve, rows, owned, execOk, k, completed) && k < |rows| && owned(k)
    ensures var path := Located(cur, resolve, rows[k].url);
            && path == Located(before, resolve, rows[k].url)
            && (path.None? ==> Progress(before, cur, resolve, rows, owned, execOk, k + 1, completed))
            && (path.Some? && execOk(k) ==>
                  Progress(before, SetComplete(cur, rows[k].pieceId), resolve,
                           rows, owned, execOk, k + 1, completed + 1))
  {
    ProcessOne(before, cur, resolve, rows, k);
    OneMoreLocated(before, resolve, rows, k);
  }

  /** Ref k shows where the bytes of a piece that waits are: its URL has the custore scheme and leads to a file. */
  predicate Shows(st: Store, resolve: string -> Option<string>, id: int, k: int) {
    && id in st.pieces && !st.pieces[id].complete && st.pieces[id].longTerm
    && k in st.refs && st.refs[k].pieceId == id
    && |st.refs[k].url| >= 10 && LowerAll(st.refs[k].url[..10]) == "custore://"
    && resolve(st.refs[k].url).Some? && resolve(st.refs[k].url).value in st.files
  }

  /** In terms of the columns: who may be completed, and, when a short answer was worked off, who is. */
  lemma CompletedWere(before: Store, after: Store, resolve: string -> Option<string>, rows: seq<Row>, seen: nat,
                      id: int)
    requires seen <= |rows| && CandidateQuery(before, BATCH_SIZE, rows)
             && Processed(before, after, resolve, rows[..seen])
    requires id in before.pieces
    ensures id in after.pieces && (before.pieces[id].complete ==> after.pieces[id].complete)
    ensures after.pieces[id].complete && !before.pieces[id].complete ==> exists k :: Shows(before, resolve, id, k)
    ensures seen == |rows| < BATCH_SIZE && (exists k :: Shows(before, resolve, id, k)) ==> after.pieces[id].complete
  {
    if after.pieces[id].complete && !before.pieces[id].complete {
      var i :| 0 <= i < seen && Completes(before, resolve, rows[..seen][i], id);
      assert IsCandidate(before, rows[i]) && rows[..seen][i] == rows[i];
      assert Shows(before, resolve, id, rows[i].refId);
    }
    if seen == |rows| < BATCH_SIZE && exists k :: Shows(before, resolve, id, k) {
      var k :| Shows(before, resolve, id, k);
      var row := Row(k, id, before.refs[k].url);
      assert IsCandidate(before, row) && rows[..seen] == rows;
      var i :| 0 <= i < |rows| && rows[i] == row;
      assert Completes(before, resolve, rows[i], id);
    }
  }

  datatype Outcome = Finished | OwnershipLost | UpdateFailed

  class Task {
    var st: Store
    const resolve: string -> Option<string>

    constructor (st: Store, resolve: string -> Option<string>)
      ensures this.st == st && this.resolve == resolve
    {
      this.st, this.resolve := st, resolve;
    }

    /**
     Task.Do on the rows its SELECT answered. `owned(i)` and `execOk(i)` are what stillOwned and
     the UPDATE report at row `i`. `seen` rows were processed; `wake` says whether onComplete ran.
     */
    method Do(rows: seq<Row>, owned: nat -> bool, execOk: nat -> bool)
      returns (outcome: Outcome, seen: nat, wake: bool)
      requires CandidateQuery(st, BATCH_SIZE, rows)
      modifies this`st
      ensures seen <= |rows| && Processed(old(st), st, resolve, rows[..seen])
      ensures forall id | id in old(st).pieces ::
                && id in st.pieces
                && (st.pieces[id].complete && !old(st).pieces[id].complete ==>
                    exists k :: Shows(old(st), resolve, id, k))
                && (outcome == Finished && |rows| < BATCH_SIZE && (exists k :: Shows(old(st), resolve, id, k)) ==>
                      st.pieces[id].complete)
      ensures outcome == Finished <==> seen == |rows|
      ensures outcome == OwnershipLost ==> !owned(seen)
      ensures outcome == UpdateFailed ==> !execOk(seen) && Located(old(st), resolve, rows[seen].url).Some?
      ensures Smooth(old(st), resolve, rows, owned, execOk, seen)
      ensures wake <==> outcome == Finished && AnyLocated(old(st), resolve, rows)
    {
      ghost var before := st;
      var completed, updated;
      seen, completed, updated := ProcessRows(rows, owned, execOk);
      forall id | id in before.pieces
        ensures id in st.pieces
        ensures st.pieces[id].complete && !before.pieces[id].complete ==> exists k :: Shows(before, resolve, id, k)
        ensures seen == |rows| < BATCH_SIZE && (exists k :: Shows(before, resolve, id, k)) ==> st.pieces[id].complete
      {
        CompletedWere(before, st, resolve, rows, seen, id);
      }
      assert seen == |rows| ==> rows[..seen] == rows;
      outcome := if seen == |rows| then Finished else if updated then OwnershipLost else UpdateFailed;
      wake := outcome == Finished && completed > 0;
    }

    /** The loop of Do; `updated` is false when it stopped at an UPDATE that failed. */
    method ProcessRows(rows: seq<Row>, owned: nat -> bool, execOk: nat -> bool)
      returns (seen: nat, completed: nat, updated: bool)
      modifies this`st
      ensures Progress(old(st), st, resolve, rows, owned, execOk, seen, completed)
      ensures updated && seen < |rows| ==> !owned(seen)
      ensures !updated ==> seen < |rows| && !execOk(seen) && Located(old(st), resolve, rows[seen].url).Some?
    {
      ghost var before := st;
      seen, completed, updated := 0, 0, true;
      assert rows[..0] == [];
      while seen < |rows| && owned(seen)
        invariant updated && Progress(before, st, resolve, rows, owned, execOk, seen, completed)
      {
        NextRow(before, st, resolve, rows, owned, execOk, seen, completed);
        var path := Located(st, resolve, rows[seen].url);
        if path.Some? {
          if !execOk(seen) {
            updated := false;
            return;
          }
          st := SetComplete(st, rows[seen].pieceId);
          completed := completed + 1;
        }
        seen := seen + 1;
      }
    }
  }

  // ---- Progress -----------------------------------------------------------------------

  /** No two refs of one piece. */
  predicate OneRefEach(st: Store) {
    forall j, k | j in st.refs && k in st.refs && st.refs[j].pieceId == st.refs[k].pieceId :: j == k
  }

  /** Pieces ParkComplete would look at, by the row it would see. */
  ghost predicate HasCandidate(st: Store, id: int) {
    exists row: Row :: IsCandidate(st, row) && row.pieceId == id
  }

  ghost predicate HasReady(st: Store, resolve: string -> Option<string>, id: int) {
    exists row: Row :: IsCandidate(st, row) && Completes(st, resolve, row, id)
  }

  ghost function Ready(st: Store, resolve: string -> Option<string>): set<int> {
    set id | id in st.pieces && HasReady(st, resolve, id)
  }

  /** Candidates whose URL is bad or whose file is missing. */
  ghost function Blocked(st: Store, resolve: string -> Option<string>): set<int> {
    set id | id in st.pieces && HasCandidate(st, id) && !HasReady(st, resolve, id)
  }

  ghost predicate OwnedRun(before: Store, after: Store, resolve: string -> Option<string>) {
    exists rows :: CandidateQuery(before, BATCH_SIZE, rows) && Processed(before, after, resolve, rows)
  }

  /** Consecutive owned runs with nothing else happening in between. */
  ghost predicate OwnedRuns(stores: seq<Store>, resolve: string -> Option<string>) {
    && stores != []
    && forall i | 0 <= i < |stores| - 1 :: OwnedRun(stores[i], stores[i + 1], resolve)
  }

  ghost function RowIds(rows: seq<Row>): set<int> {
    set i | 0 <= i < |rows| :: rows[i].pieceId
  }

  lemma {:induction false} DistinctRowIds(rows: seq<Row>)
    requires forall i, j | 0 <= i < j < |rows| :: rows[i].pieceId != rows[j].pieceId
    ensures |RowIds(rows)| == |rows|
  {
    if rows != [] {
      var init := rows[..|rows| - 1];
      DistinctRowIds(init);
      assert RowIds(rows) == RowIds(init) + {rows[|rows| - 1].pieceId} by {
        forall id | id in RowIds(rows) ensures id in RowIds(init) + {rows[|rows| - 1].pieceId} {
          var i :| 0 <= i < |rows| && rows[i].pieceId == id;
          if i < |rows| - 1 {
            assert init[i].pieceId == id;
          }
        }
        forall id | id in RowIds(init) ensures id in RowIds(rows) {
          var i :| 0 <= i < |init| && init[i].pieceId == id;
          assert rows[i].pieceId == id;
        }
      }
    }
  }

  /** With one ref each, the row of a piece is determined. */
  lemma OneRow(st: Store, a: Row, b: Row)
    requires OneRefEach(st) && IsCandidate(st, a) && IsCandidate(st, b) && a.pieceId == b.pieceId
    ensures a == b
  {
    assert st.refs[a.refId].pieceId == st.refs[b.refId].pieceId;
  }

  lemma RowsStayOrLeave(before: Store, after: Store, resolve: string -> Option<string>, rows: seq<Row>, row: Row)
    requires OneRefEach(before) && CandidateQuery(before, BATCH_SIZE, rows) && Processed(before, after, resolve, rows)
    ensures IsCandidate(after, row) ==> IsCandidate(before, row)
    ensures IsCandidate(before, row) ==>
              (IsCandidate(after, row) <==> !(row in rows && Located(before, resolve, row.url).Some?))
    ensures Located(after, resolve, row.url) == Located(before, resolve, row.url)
  {
    if IsCandidate(before, row) {
      if row in rows && Located(before, resolve, row.url).Some? {
        var i :| 0 <= i < |rows| && rows[i] == row;
        assert Completes(before, resolve, rows[i], row.pieceId);
      } else {
        forall i | 0 <= i < |rows| ensures !Completes(before, resolve, rows[i], row.pieceId) {
          if rows[i].pieceId == row.pieceId {
            OneRow(before, rows[i], row);
          }
        }
      }
    }
  }

  /** An owned run completes exactly the ready pieces among its rows. */
  lemma RunCompletesRows(before: Store, after: Store, resolve: string -> Option<string>, rows: seq<Row>)
    requires OneRefEach(before) && CandidateQuery(before, BATCH_SIZE, rows) && Processed(before, after, resolve, rows)
    ensures OneRefEach(after)
    ensures Ready(after, resolve) == Ready(before, resolve) - RowIds(rows)
    ensures Blocked(after, resolve) == Blocked(before, resolve)
  {
    forall id | id in before.pieces
      ensures HasReady(after, resolve, id) <==> HasReady(before, resolve, id) && id !in RowIds(rows)
      ensures HasCandidate(after, id) && !HasReady(after, resolve, id) <==>
                HasCandidate(before, id) && !HasReady(before, resolve, id)
    {
      if HasCandidate(before, id) {
        var row: Row :| IsCandidate(before, row) && row.pieceId == id;
        OnlyRow(before, resolve, row);
        RowsStayOrLeave(before, after, resolve, rows, row);
        RowIdIsRow(before, rows, row);
        forall r: Row | IsCandidate(after, r) && r.pieceId == id ensures r == row {
          RowsStayOrLeave(before, after, resolve, rows, r);
          OneRow(before, r, row);
        }
      } else {
        forall r: Row | r.pieceId == id ensures !IsCandidate(after, r) && !IsCandidate(before, r) {
          RowsStayOrLeave(before, after, resolve, rows, r);
        }
      }
    }
  }

  lemma OnlyRow(st: Store, resolve: string -> Option<string>, row: Row)
    requires OneRefEach(st) && IsCandidate(st, row)
    ensures HasReady(st, resolve, row.pieceId) <==> Located(st, resolve, row.url).Some?
  {
    if HasReady(st, resolve, row.pieceId) {
      var r: Row :| IsCandidate(st, r) && Completes(st, resolve, r, row.pieceId);
      OneRow(st, r, row);
    } else {
      assert !Completes(st, resolve, row, row.pieceId);
    }
  }

  lemma RowIdIsRow(st: Store, rows: seq<Row>, row: Row)
    requires OneRefEach(st) && CandidateQuery(st, BATCH_SIZE, rows) && IsCandidate(st, row)
    ensures row.pieceId in RowIds(rows) <==> row in rows
  {
    if row.pieceId in RowIds(rows) {
      var i :| 0 <= i < |rows| && rows[i].pieceId == row.pieceId;
      OneRow(st, rows[i], row);
    }
  }

  lemma RowIdsAreCandidates(st: Store, resolve: string -> Option<string>, rows: seq<Row>)
    requires OneRefEach(st) && CandidateQuery(st, BATCH_SIZE, rows)
    ensures |RowIds(rows)| == |rows| && RowIds(rows) <= Ready(st, resolve) + Blocked(st, resolve)
  {
    forall i, j | 0 <= i < j < |rows| ensures rows[i].pieceId != rows[j].pieceId {
      if rows[i].pieceId == rows[j].pieceId {
        OneRow(st, rows[i], rows[j]);
      }
    }
    DistinctRowIds(rows);
    forall id | id in RowIds(rows) ensures id in Ready(st, resolve) + Blocked(st, resolve) {
      var i :| 0 <= i < |rows| && rows[i].pieceId == id;
      assert IsCandidate(st, rows[i]);
    }
  }

  function Max0(n: int): nat {
    if n < 0 then 0 else n
  }

  lemma SubsetSize(a: set<int>, b: set<int>)
    requires a <= b
    ensures |a| <= |b|
  {
    assert b == a + (b - a);
  }

  lemma TakenAway(ready: set<int>, blocked: set<int>, ids: set<int>)
    requires ids <= ready + blocked
    ensures |ready - ids| <= |ready| && |ready - ids| + |ids| <= |ready| + |blocked|
  {
    SubsetSize(ready - ids, ready);
    var taken := ids * ready;
    assert ids == taken + (ids - ready);
    SubsetSize(ids - ready, blocked);
    assert ready == (ready - ids) + taken;
  }

  lemma ShortAnswerHasAll(st: Store, resolve: string -> Option<string>, rows: seq<Row>)
    requires OneRefEach(st) && CandidateQuery(st, BATCH_SIZE, rows) && |rows| < BATCH_SIZE
    ensures Ready(st, resolve) - RowIds(rows) == {}
  {
    forall id | id in Ready(st, resolve) ensures id in RowIds(rows) {
      var row: Row :| IsCandidate(st, row) && Completes(st, resolve, row, id);
      RowIdIsRow(st, rows, row);
    }
  }

  /** One run takes at least thirty-two less the blocked ones off what is ready, or all of it. */
  lemma RunProgress(before: Store, after: Store, resolve: string -> Option<string>, rows: seq<Row>)
    requires OneRefEach(before) && CandidateQuery(before, BATCH_SIZE, rows) && Processed(before, after, resolve, rows)
    ensures |Ready(after, resolve)| <= Max0(|Ready(before, resolve)| - Max0(32 - |Blocked(before, resolve)|))
  {
    RunCompletesRows(before, after, resolve, rows);
    RowIdsAreCandidates(before, resolve, rows);
    if |rows| < BATCH_SIZE {
      ShortAnswerHasAll(before, resolve, rows);
      assert |Ready(after, resolve)| == 0;
    } else {
      ShareTaken(Ready(before, resolve), Blocked(before, resolve), RowIds(rows), Ready(after, resolve));
    }
  }

  lemma ShareTaken(ready: set<int>, blocked: set<int>, ids: set<int>, rest: set<int>)
    requires ids <= ready + blocked && |ids| == 32 && rest == ready - ids
    ensures |rest| <= Max0(|ready| - Max0(32 - |blocked|))
  {
    TakenAway(ready, blocked, ids);
  }

  /** What one run keeps and what it takes. */
  lemma OneRun(before: Store, after: Store, resolve: string -> Option<string>)
    requires OneRefEach(before) && OwnedRun(before, after, resolve)
    ensures OneRefEach(after) && Blocked(after, resolve) == Blocked(before, resolve)
    ensures |Ready(after, resolve)| <= Max0(|Ready(before, resolve)| - Max0(32 - |Blocked(before, resolve)|))
  {
    var rows :| CandidateQuery(before, BATCH_SIZE, rows) && Processed(before, after, resolve, rows);
    RunCompletesRows(before, after, resolve, rows);
    RunProgress(before, after, resolve, rows);
  }

  lemma AllButLastRun(stores: seq<Store>, resolve: string -> Option<string>)
    requires OwnedRuns(stores, resolve) && |stores| > 1
    ensures OwnedRuns(stores[..|stores| - 1], resolve)
    ensures OwnedRun(stores[|stores| - 2], stores[|stores| - 1], resolve)
  {
    var init := stores[..|stores| - 1];
    forall i | 0 <= i < |init| - 1 ensures OwnedRun(init[i], init[i + 1], resolve) {
      assert OwnedRun(stores[i], stores[i + 1], resolve);
    }
  }

  /** What `k` shares leave of `n`. */
  function Left(n: nat, k: nat, share: nat): nat {
    if k == 0 then n else Max0(Left(n, k - 1, share) - share)
  }

  lemma {:induction false} LeftIs(n: nat, k: nat, share: nat)
    ensures Left(n, k, share) == Max0(n - k * share)
  {
    if k > 0 {
      LeftIs(n, k - 1, share);
      assert k * share == (k - 1) * share + share;
    }
  }

  /** Any number of consecutive owned runs: each takes its share, and the blocked pieces stay the same. */
  lemma {:induction false} RunsProgress(stores: seq<Store>, resolve: string -> Option<string>)
    requires OwnedRuns(stores, resolve) && OneRefEach(stores[0])
    ensures var last := stores[|stores| - 1];
            && OneRefEach(last) && Blocked(last, resolve) == Blocked(stores[0], resolve)
            && |Ready(last, resolve)| <=
                 Left(|Ready(stores[0], resolve)|, |stores| - 1, Max0(32 - |Blocked(stores[0], resolve)|))
  {
    if |stores| > 1 {
      var init := stores[..|stores| - 1];
      AllButLastRun(stores, resolve);
      RunsProgress(init, resolve);
      OneRun(init[|init| - 1], stores[|stores| - 1], resolve);
      ShareOnShare(|Ready(stores[0], resolve)|, |init| - 1, Max0(32 - |Blocked(stores[0], resolve)|),
                   |Ready(init[|init| - 1], resolve)|, |Ready(stores[|stores| - 1], resolve)|);
    }
  }

  lemma ShareOnShare(n: nat, k: nat, share: nat, before: nat, after: nat)
    requires before <= Left(n, k, share) && after <= Max0(before - share)
    ensures after <= Left(n, k + 1, share)
  {}

  lemma {:induction false} RunsKeepRows(stores: seq<Store>, resolve: string -> Option<string>)
    requires OwnedRuns(stores, resolve)
    ensures var last := stores[|stores| - 1];
            && last.refs == stores[0].refs && last.files == stores[0].files && last.pieces.Keys == stores[0].pieces.Keys
            && forall id | id in last.pieces ::
               last.pieces[id] == stores[0].pieces[id].(complete := last.pieces[id].complete)
  {
    if |stores| > 1 {
      AllButLastRun(stores, resolve);
      RunsKeepRows(stores[..|stores| - 1], resolve);
      var k := |stores| - 2;
      var rows :| CandidateQuery(stores[k], BATCH_SIZE, rows) && Processed(stores[k], stores[k + 1], resolve, rows);
    }
  }

  /** What was ready is complete in the end, or still ready. */
  lemma CompleteOrReady(stores: seq<Store>, resolve: string -> Option<string>, id: int)
    requires OwnedRuns(stores, resolve) && id in Ready(stores[0], resolve)
    ensures var last := stores[|stores| - 1];
            id in last.pieces && (last.pieces[id].complete <==> id !in Ready(last, resolve))
  {
    var last := stores[|stores| - 1];
    RunsKeepRows(stores, resolve);
    var row: Row :| IsCandidate(stores[0], row) && Completes(stores[0], resolve, row, id);
    if !last.pieces[id].complete {
      assert IsCandidate(last, row) && Completes(last, resolve, row, id);
    }
  }

  /** With fewer than 32 blocked candidates, n ready pieces are complete after ceil(n / (32 - b)) owned runs. */
  lemma AllReadyComplete(stores: seq<Store>, resolve: string -> Option<string>)
    requires OwnedRuns(stores, resolve) && OneRefEach(stores[0])
    requires |Blocked(stores[0], resolve)| < 32
    requires (|stores| - 1) * (32 - |Blocked(stores[0], resolve)|) >= |Ready(stores[0], resolve)|
    ensures forall id | id in Ready(stores[0], resolve) ::
              var last := stores[|stores| - 1]; id in last.pieces && last.pieces[id].complete
  {
    var last := stores[|stores| - 1];
    RunsProgress(stores, resolve);
    LeftIs(|Ready(stores[0], resolve)|, |stores| - 1, 32 - |Blocked(stores[0], resolve)|);
    assert Ready(last, resolve) == {};
    forall id | id in Ready(stores[0], resolve) ensures id in last.pieces && last.pieces[id].complete {
      CompleteOrReady(stores, resolve, id);
    }
  }

  /** An answer that holds a later piece holds every earlier candidate. */
  lemma EarlierFirst(st: Store, rows: seq<Row>, row: Row, id: int)
    requires OneRefEach(st) && CandidateQuery(st, BATCH_SIZE, rows) && IsCandidate(st, row)
    requires id in RowIds(rows) && row.pieceId < id
    ensures row.pieceId in RowIds(rows)
  {
    var i :| 0 <= i < |rows| && rows[i].pieceId == id;
    assert rows[i].pieceId > row.pieceId;
    assert row in rows;
    RowIdIsRow(st, rows, row);
  }

  /** The blocked candidates that the query answers before `id`. */
  ghost function BlockedBelow(st: Store, resolve: string -> Option<string>, id: int): (below: set<int>)
    ensures below <= Blocked(st, resolve)
  {
    set b | b in Blocked(st, resolve) && b < id
  }

  /** A ready piece among the rows: every blocked candidate below it is there too, so they are fewer than a batch. */
  lemma FewBelow(st: Store, resolve: string -> Option<string>, rows: seq<Row>, id: int)
    requires OneRefEach(st) && CandidateQuery(st, BATCH_SIZE, rows) && id in Ready(st, resolve) && id in RowIds(rows)
    ensures |BlockedBelow(st, resolve, id)| < BATCH_SIZE
  {
    RowIdsAreCandidates(st, resolve, rows);
    var below := BlockedBelow(st, resolve, id);
    forall b | b in below ensures b in RowIds(rows) {
      var row: Row :| IsCandidate(st, row) && row.pieceId == b;
      EarlierFirst(st, rows, row, id);
    }
    SubsetSize(below + {id}, RowIds(rows));
  }

  /** A ready piece not among the rows: they are a full batch of lower candidates. */
  lemma PassedOver(st: Store, resolve: string -> Option<string>, rows: seq<Row>, id: int)
    requires OneRefEach(st) && CandidateQuery(st, BATCH_SIZE, rows) && id in Ready(st, resolve) && id !in RowIds(rows)
    ensures |RowIds(rows)| == BATCH_SIZE && forall r | r in RowIds(rows) :: r < id
  {
    RowIdsAreCandidates(st, resolve, rows);
    var row: Row :| IsCandidate(st, row) && Completes(st, resolve, row, id);
    RowIdIsRow(st, rows, row);
    forall r | r in RowIds(rows) ensures r < id {
      var i :| 0 <= i < |rows| && rows[i].pieceId == r;
    }
  }

  /** With fewer than a batch of blocked candidates below a ready piece, a run takes that piece or one below it. */
  lemma SomeTaken(st: Store, resolve: string -> Option<string>, rows: seq<Row>, id: int) returns (taken: int)
    requires OneRefEach(st) && CandidateQuery(st, BATCH_SIZE, rows) && id in Ready(st, resolve)
    requires |BlockedBelow(st, resolve, id)| < BATCH_SIZE
    ensures taken in Ready(st, resolve) && taken in RowIds(rows) && taken <= id
  {
    if id in RowIds(rows) {
      return id;
    }
    PassedOver(st, resolve, rows, id);
    RowIdsAreCandidates(st, resolve, rows);
    if RowIds(rows) <= BlockedBelow(st, resolve, id) {
      SubsetSize(RowIds(rows), BlockedBelow(st, resolve, id));
      assert false;
    }
    taken :| taken in RowIds(rows) && taken !in BlockedBelow(st, resolve, id);
  }

  /** When a run makes progress: exactly when some ready piece has fewer than 32 blocked candidates below it. */
  lemma RunAdvancesIff(before: Store, after: Store, resolve: string -> Option<string>, rows: seq<Row>)
    requires OneRefEach(before) && CandidateQuery(before, BATCH_SIZE, rows) && Processed(before, after, resolve, rows)
    ensures Ready(after, resolve) != Ready(before, resolve) <==>
              exists id | id in Ready(before, resolve) :: |BlockedBelow(before, resolve, id)| < 32
  {
    RunCompletesRows(before, after, resolve, rows);
    if id :| id in Ready(before, resolve) && |BlockedBelow(before, resolve, id)| < 32 {
      var taken := SomeTaken(before, resolve, rows, id);
    }
    if Ready(after, resolve) != Ready(before, resolve) {
      var id :| id in Ready(before, resolve) && id !in Ready(after, resolve);
      FewBelow(before, resolve, rows, id);
    }
  }

  /** Thirty-two blocked pieces with the lowest ids starve every ready one. */
  lemma BlockedHeadStarves(before: Store, after: Store, resolve: string -> Option<string>, rows: seq<Row>,
                           head: set<int>)
    requires OneRefEach(before) && CandidateQuery(before, BATCH_SIZE, rows) && Processed(before, after, resolve, rows)
    requires head <= Blocked(before, resolve) && |head| == 32
    requires forall h, id | h in head && id in Ready(before, resolve) :: h < id
    ensures Ready(after, resolve) == Ready(before, resolve)
  {
    RunAdvancesIff(before, after, resolve, rows);
    forall id | id in Ready(before, resolve) ensures |BlockedBelow(before, resolve, id)| >= 32 {
      SubsetSize(head, BlockedBelow(before, resolve, id));
    }
  }

  // ---- Which pieces are ever completed ------------------------------------------------

  ghost function ReadyUpTo(st: Store, resolve: string -> Option<string>, id: int): set<int> {
    set r | r in Ready(st, resolve) && r <= id
  }

  lemma UpToShrinks(before: Store, after: Store, resolve: string -> Option<string>, id: int, taken: int)
    requires Ready(after, resolve) <= Ready(before, resolve)
    requires taken in Ready(before, resolve) && taken !in Ready(after, resolve) && taken <= id
    ensures |ReadyUpTo(after, resolve, id)| < |ReadyUpTo(before, resolve, id)|
  {
    var (rest, all) := (ReadyUpTo(after, resolve, id), ReadyUpTo(before, resolve, id));
    SubsetSize(rest + {taken}, all);
  }

  /** What one run means for one ready piece. */
  lemma RunOn(before: Store, after: Store, resolve: string -> Option<string>, id: int)
    requires OneRefEach(before) && OwnedRun(before, after, resolve) && id in Ready(before, resolve)
    ensures OneRefEach(after) && BlockedBelow(after, resolve, id) == BlockedBelow(before, resolve, id)
    ensures |BlockedBelow(before, resolve, id)| >= 32 ==> id in Ready(after, resolve)
    ensures |BlockedBelow(before, resolve, id)| < 32 ==>
            |ReadyUpTo(after, resolve, id)| < |ReadyUpTo(before, resolve, id)|
  {
    var rows :| CandidateQuery(before, BATCH_SIZE, rows) && Processed(before, after, resolve, rows);
    RunCompletesRows(before, after, resolve, rows);
    if |BlockedBelow(before, resolve, id)| < BATCH_SIZE {
      var taken := SomeTaken(before, resolve, rows, id);
      UpToShrinks(before, after, resolve, id, taken);
    } else if id in RowIds(rows) {
      FewBelow(before, resolve, rows, id);
    }
  }

  lemma {:induction false} RunsOn(stores: seq<Store>, resolve: string -> Option<string>, id: int)
    requires OwnedRuns(stores, resolve) && OneRefEach(stores[0]) && id in Ready(stores[0], resolve)
    ensures var (first, last) := (stores[0], stores[|stores| - 1]);
            && OneRefEach(last) && BlockedBelow(last, resolve, id) == BlockedBelow(first, resolve, id)
            && (|BlockedBelow(first, resolve, id)| >= 32 ==> id in Ready(last, resolve))
            && (|BlockedBelow(first, resolve, id)| < 32 && id in Ready(last, resolve) ==>
                  |ReadyUpTo(last, resolve, id)| + |stores| - 1 <= |ReadyUpTo(first, resolve, id)|)
  {
    if |stores| > 1 {
      var init := stores[..|stores| - 1];
      AllButLastRun(stores, resolve);
      RunsOn(init, resolve, id);
      var (before, after) := (init[|init| - 1], stores[|stores| - 1]);
      OneRun(before, after, resolve);
      if id in Ready(before, resolve) {
        RunOn(before, after, resolve, id);
      } else {
        StaysDone(before, after, resolve);
      }
    }
  }

  lemma StaysDone(before: Store, after: Store, resolve: string -> Option<string>)
    requires OneRefEach(before) && OwnedRun(before, after, resolve)
    ensures Ready(after, resolve) <= Ready(before, resolve)
  {
    var rows :| CandidateQuery(before, BATCH_SIZE, rows) && Processed(before, after, resolve, rows);
    RunCompletesRows(before, after, resolve, rows);
  }

  /**
   The exact condition: a ready piece is complete after as many owned runs as there are ready pieces up
   to it, or after any longer sequence of runs, if and only if fewer than 32 blocked candidates have lower ids.
   */
  lemma CompletedIff(stores: seq<Store>, resolve: string -> Option<string>, id: int)
    requires OwnedRuns(stores, resolve) && OneRefEach(stores[0]) && id in Ready(stores[0], resolve)
    requires |stores| > |ReadyUpTo(stores[0], resolve, id)|
    ensures var last := stores[|stores| - 1];
            && id in last.pieces
            && (last.pieces[id].complete <==> |BlockedBelow(stores[0], resolve, id)| < 32)
  {
    var last := stores[|stores| - 1];
    RunsOn(stores, resolve, id);
    CompleteOrReady(stores, resolve, id);
    if id in Ready(last, resolve) {
      assert id in ReadyUpTo(last, resolve, id);
    }
  }

  /** With 32 or more blocked candidates below it, a ready piece is not completed by any number of runs. */
  lemma NeverCompleted(stores: seq<Store>, resolve: string -> Option<string>, id: int)
    requires OwnedRuns(stores, resolve) && OneRefEach(stores[0]) && id in Ready(stores[0], resolve)
    requires |BlockedBelow(stores[0], resolve, id)| >= 32
    ensures var last := stores[|stores| - 1]; id in last.pieces && !last.pieces[id].complete
  {
    RunsOn(stores, resolve, id);
    CompleteOrReady(stores, resolve, id);
  }
}

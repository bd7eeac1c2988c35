/**
 The stash sweep run by itself: the integrity pass over complete pieces, and garbage
 collection of the stash directory. What concurrent uploads, finalizers and ParkComplete can
 do in between is the subject of StashLifecycle.
 */
module StashSweep {
  import opened Text
  import opened Ordering
  import opened StashPaths
  import opened PieceStore

  /** The counters of one pass. */
  datatype Result = Result(completeChecked: nat, broken: nat, healed: nat, candidates: nat, reclaimed: nat, bytes: nat)

  const NO_RESULT := Result(0, 0, 0, 0, 0, 0)

  // ---- The integrity pass -------------------------------------------------------------

  predicate Listed(rows: seq<Row>, id: int) {
    exists i | 0 <= i < |rows| :: rows[i].pieceId == id
  }

  /** The query groups by piece: one row for each complete piece with a custore ref, under its least custore URL. */
  ghost predicate IntegrityQuery(st: Store, rows: seq<Row>) {
    && (forall i | 0 <= i < |rows| :: IsCompleteRow(st, rows[i]))
    && (forall i, j | 0 <= i < j < |rows| :: rows[i].pieceId != rows[j].pieceId)
    && (forall row: Row | IsCompleteRow(st, row) :: Listed(rows, row.pieceId))
    && (forall i, row: Row | 0 <= i < |rows| && IsCompleteRow(st, row) && row.pieceId == rows[i].pieceId ::
          !Less(row.url, rows[i].url))
  }

  /** Who is checked: the complete pieces with a ref of the custore scheme. */
  lemma RowsAre(st: Store, rows: seq<Row>, id: int)
    requires IntegrityQuery(st, rows)
    ensures Listed(rows, id) <==>
              && id in st.pieces && st.pieces[id].complete
              && exists k | k in st.refs :: && st.refs[k].pieceId == id && |st.refs[k].url| >= 10
                                            && LowerAll(st.refs[k].url[..10]) == "custore://"
  {
    if i :| 0 <= i < |rows| && rows[i].pieceId == id {
      assert IsCompleteRow(st, rows[i]) && st.refs[rows[i].refId].pieceId == id;
    }
    if k :| k in st.refs && st.refs[k].pieceId == id && LikeCustore(st.refs[k].url)
            && id in st.pieces && st.pieces[id].complete {
      assert IsCompleteRow(st, Row(k, id, st.refs[k].url));
    }
  }

  /** A row whose URL resolves and whose file is gone. */
  predicate Broken(st: Store, resolve: string -> Option<string>, row: Row) {
    resolve(row.url).Some? && resolve(row.url).value !in st.files
  }

  /** A row whose file is there although the piece is flagged. */
  predicate Healed(st: Store, resolve: string -> Option<string>, row: Row) {
    && resolve(row.url).Some? && resolve(row.url).value in st.files
    && row.pieceId in st.pieces && st.pieces[row.pieceId].missingAt.Some?
  }

  ghost function CountBroken(st: Store, resolve: string -> Option<string>, rows: seq<Row>): nat {
    if rows == [] then 0
    else CountBroken(st, resolve, rows[..|rows| - 1]) + if Broken(st, resolve, rows[|rows| - 1]) then 1 else 0
  }

  ghost function CountHealed(st: Store, resolve: string -> Option<string>, rows: seq<Row>): nat {
    if rows == [] then 0
    else CountHealed(st, resolve, rows[..|rows| - 1]) + if Healed(st, resolve, rows[|rows| - 1]) then 1 else 0
  }

  /** The tables after the rows were checked: flags follow files, and nothing else moves. */
  ghost predicate Checked(before: Store, after: Store, resolve: string -> Option<string>, rows: seq<Row>,
                          now: nat -> int) {
    && after.refs == before.refs && after.files == before.files && after.pieces.Keys == before.pieces.Keys
    && (forall i | 0 <= i < |rows| && rows[i].pieceId in before.pieces && resolve(rows[i].url).Some? ::
          var id := rows[i].pieceId;
          after.pieces[id] == before.pieces[id].(
            missingAt := FlagAfter(resolve(rows[i].url).value !in before.files, before.pieces[id].missingAt, now(i))))
    && (forall id | id in before.pieces
        && (forall i | 0 <= i < |rows| && rows[i].pieceId == id :: resolve(rows[i].url).None?) ::
          after.pieces[id] == before.pieces[id])
  }

  lemma CheckOne(before: Store, cur: Store, resolve: string -> Option<string>, rows: seq<Row>, k: nat, now: nat -> int,
                 flag: Option<int>)
    requires k < |rows| && forall i | 0 <= i < k :: rows[i].pieceId != rows[k].pieceId
    requires Checked(before, cur, resolve, rows[..k], now)
    requires rows[k].pieceId in before.pieces && resolve(rows[k].url).Some?
    requires flag ==
             FlagAfter(resolve(rows[k].url).value !in before.files, before.pieces[rows[k].pieceId].missingAt, now(k))
    ensures Checked(before, SetMissing(cur, rows[k].pieceId, flag), resolve, rows[..k + 1], now)
    ensures cur.pieces[rows[k].pieceId] == before.pieces[rows[k].pieceId]
  {
    var done, next := rows[..k], rows[..k + 1];
    assert next[k] == rows[k] && forall i | 0 <= i < k :: next[i] == done[i] == rows[i];
    assert cur.pieces[rows[k].pieceId] == before.pieces[rows[k].pieceId];
  }

  lemma SkipOne(before: Store, cur: Store, resolve: string -> Option<string>, rows: seq<Row>, k: nat, now: nat -> int)
    requires k < |rows| && Checked(before, cur, resolve, rows[..k], now) && resolve(rows[k].url).None?
    ensures Checked(before, cur, resolve, rows[..k + 1], now)
  {
    var done, next := rows[..k], rows[..k + 1];
    assert next[k] == rows[k] && forall i | 0 <= i < k :: next[i] == done[i] == rows[i];
  }

  lemma CountOne(st: Store, resolve: string -> Option<string>, rows: seq<Row>, k: nat)
    requires k < |rows|
    ensures CountBroken(st, resolve, rows[..k + 1]) ==
            CountBroken(st, resolve, rows[..k]) + if Broken(st, resolve, rows[k]) then 1 else 0
    ensures CountHealed(st, resolve, rows[..k + 1]) ==
            CountHealed(st, resolve, rows[..k]) + if Healed(st, resolve, rows[k]) then 1 else 0
  {
    assert rows[..k + 1][..k] == rows[..k] && rows[..k + 1][k] == rows[k];
  }

  /**
   What the flags are for: behind every row that was checked the piece is flagged exactly when its
   file is absent; a stamp that was there is kept, and a new one is the time at which the row was checked.
   */
  ghost predicate FlagsTell(before: Store, after: Store, resolve: string -> Option<string>, rows: seq<Row>, seen: nat,
                            now: nat -> int)
    requires seen <= |rows|
  {
    forall i | 0 <= i < seen && rows[i].pieceId in before.pieces && resolve(rows[i].url).Some? ::
      && rows[i].pieceId in after.pieces
      && var (was, flag) := (before.pieces[rows[i].pieceId].missingAt, after.pieces[rows[i].pieceId].missingAt);
      && (flag.Some? <==> resolve(rows[i].url).value !in before.files)
      && (flag.Some? && was.Some? ==> flag == was)
      && (flag.Some? && was.None? ==> flag == Some(now(i)))
  }

  lemma CheckedTells(before: Store, after: Store, resolve: string -> Option<string>, rows: seq<Row>, seen: nat,
                     now: nat -> int)
    requires seen <= |rows| && Checked(before, after, resolve, rows[..seen], now)
    ensures FlagsTell(before, after, resolve, rows, seen, now)
  {
    forall i | 0 <= i < seen && rows[i].pieceId in before.pieces && resolve(rows[i].url).Some?
      ensures rows[..seen][i] == rows[i]
    {
    }
  }

  /** Pieces that are not complete are left alone. */
  lemma OthersKept(before: Store, after: Store, resolve: string -> Option<string>, rows: seq<Row>, seen: nat,
                   now: nat -> int, id: int)
    requires IntegrityQuery(before, rows) && seen <= |rows| && Checked(before, after, resolve, rows[..seen], now)
    requires id in before.pieces && !before.pieces[id].complete
    ensures id in after.pieces && after.pieces[id] == before.pieces[id]
  {
    RowsAre(before, rows, id);
    forall i | 0 <= i < seen ensures rows[..seen][i].pieceId != id {
      assert rows[..seen][i] == rows[i];
    }
  }

  /** The rows among the first `seen` whose file is absent, and those whose flag the file's return clears. */
  ghost function Absent(st: Store, resolve: string -> Option<string>, rows: seq<Row>, seen: nat): set<nat>
    requires seen <= |rows|
  {
    set i: nat | i < seen && resolve(rows[i].url).Some? && resolve(rows[i].url).value !in st.files
  }

  ghost function Returned(st: Store, resolve: string -> Option<string>, rows: seq<Row>, seen: nat): set<nat>
    requires seen <= |rows|
  {
    set i: nat | i < seen && resolve(rows[i].url).Some? && resolve(rows[i].url).value in st.files
                 && rows[i].pieceId in st.pieces && st.pieces[rows[i].pieceId].missingAt.Some?
  }

  lemma AbsentOneMore(st: Store, resolve: string -> Option<string>, rows: seq<Row>, k: nat)
    requires k < |rows|
    ensures Absent(st, resolve, rows, k + 1) ==
            Absent(st, resolve, rows, k) + if Broken(st, resolve, rows[k]) then {k} else {}
    ensures k !in Absent(st, resolve, rows, k)
  {}

  lemma ReturnedOneMore(st: Store, resolve: string -> Option<string>, rows: seq<Row>, k: nat)
    requires k < |rows|
    ensures Returned(st, resolve, rows, k + 1) ==
            Returned(st, resolve, rows, k) + if Healed(st, resolve, rows[k]) then {k} else {}
    ensures k !in Returned(st, resolve, rows, k)
  {}

  lemma AddOne(s: set<nat>, k: nat, b: bool)
    requires k !in s
    ensures |s + if b then {k} else {}| == |s| + if b then 1 else 0
  {}

  lemma {:induction false} BrokenAre(st: Store, resolve: string -> Option<string>, rows: seq<Row>, k: nat)
    requires k <= |rows|
    ensures CountBroken(st, resolve, rows[..k]) == |Absent(st, resolve, rows, k)|
  {
    if k > 0 {
      BrokenAre(st, resolve, rows, k - 1);
      CountOne(st, resolve, rows, k - 1);
      AbsentOneMore(st, resolve, rows, k - 1);
      AddOne(Absent(st, resolve, rows, k - 1), k - 1, Broken(st, resolve, rows[k - 1]));
    }
  }

  lemma {:induction false} HealedAre(st: Store, resolve: string -> Option<string>, rows: seq<Row>, k: nat)
    requires k <= |rows|
    ensures CountHealed(st, resolve, rows[..k]) == |Returned(st, resolve, rows, k)|
  {
    if k > 0 {
      HealedAre(st, resolve, rows, k - 1);
      CountOne(st, resolve, rows, k - 1);
      ReturnedOneMore(st, resolve, rows, k - 1);
      AddOne(Returned(st, resolve, rows, k - 1), k - 1, Healed(st, resolve, rows[k - 1]));
    }
  }

  /** A row whose flag has to change. */
  predicate NeedsWrite(st: Store, resolve: string -> Option<string>, row: Row) {
    && resolve(row.url).Some? && row.pieceId in st.pieces
    && (resolve(row.url).value !in st.files) != st.pieces[row.pieceId].missingAt.Some?
  }

  /** Ownership and updates held for these rows. */
  predicate Smooth(st: Store, resolve: string -> Option<string>, rows: seq<Row>, owned: nat -> bool,
                   execOk: nat -> bool) {
    forall i | 0 <= i < |rows| :: owned(i) && (NeedsWrite(st, resolve, rows[i]) ==> execOk(i))
  }

  lemma SmoothOne(st: Store, resolve: string -> Option<string>, rows: seq<Row>, owned: nat -> bool, execOk: nat -> bool,
                  k: nat)
    requires k < |rows| && Smooth(st, resolve, rows[..k], owned, execOk)
    requires owned(k) && (NeedsWrite(st, resolve, rows[k]) ==> execOk(k))
    ensures Smooth(st, resolve, rows[..k + 1], owned, execOk)
  {
    assert forall i | 0 <= i < k :: rows[..k + 1][i] == rows[..k][i];
  }

  /** Tables and counters once the rows in `rows` were checked. */
  ghost predicate Counted(before: Store, after: Store, resolve: string -> Option<string>, rows: seq<Row>,
                          now: nat -> int, broken: int, healed: int)
  {
    && Checked(before, after, resolve, rows, now)
    && broken == CountBroken(before, resolve, rows) && healed == CountHealed(before, resolve, rows)
  }

  /** The tables after one row whose update, if it needs one, got through. */
  function RowChecked(st: Store, resolve: string -> Option<string>, row: Row, now: int): Store {
    if !NeedsWrite(st, resolve, row) then st
    else SetMissing(st, row.pieceId, if resolve(row.url).value in st.files then None else Some(now))
  }

  function One(b: bool): nat {
    if b then 1 else 0
  }

  /** integrityPass on its next row. */
  lemma CheckCases(before: Store, cur: Store, resolve: string -> Option<string>, rows: seq<Row>, k: nat,
                   now: nat -> int, broken: int, healed: int)
    requires IntegrityQuery(before, rows) && k < |rows| && Counted(before, cur, resolve, rows[..k], now, broken, healed)
    ensures rows[k].pieceId in cur.pieces
    ensures NeedsWrite(before, resolve, rows[k]) <==> NeedsWrite(cur, resolve, rows[k])
    ensures Counted(before, RowChecked(cur, resolve, rows[k], now(k)), resolve, rows[..k + 1], now,
                    broken + One(Broken(cur, resolve, rows[k])), healed + One(Healed(cur, resolve, rows[k])))
  {
    var id, path := rows[k].pieceId, resolve(rows[k].url);
    assert IsCompleteRow(before, rows[k]);
    CountOne(before, resolve, rows, k);
    if path.None? {
      SkipOne(before, cur, resolve, rows, k, now);
    } else {
      var flag := FlagAfter(path.value !in before.files, before.pieces[id].missingAt, now(k));
      CheckOne(before, cur, resolve, rows, k, now, flag);
      if cur.pieces[id].missingAt == flag {
        assert SetMissing(cur, id, flag).pieces == cur.pieces;
      }
    }
  }

  /** Where the pass stands before row k. */
  ghost predicate Passed(before: Store, cur: Store, resolve: string -> Option<string>, rows: seq<Row>, k: nat,
                         now: nat -> int, owned: nat -> bool, execOk: nat -> bool, broken: int, healed: int)
  {
    && IntegrityQuery(before, rows) && k <= |rows|
    && Counted(before, cur, resolve, rows[..k], now, broken, healed)
    && Smooth(before, resolve, rows[..k], owned, execOk)
  }

  lemma PassOne(before: Store, cur: Store, resolve: string -> Option<string>, rows: seq<Row>, k: nat, now: nat -> int,
                owned: nat -> bool, execOk: nat -> bool, broken: int, healed: int)
    requires Passed(before, cur, resolve, rows, k, now, owned, execOk, broken, healed) && k < |rows| && owned(k)
    ensures rows[k].pieceId in cur.pieces
    ensures NeedsWrite(before, resolve, rows[k]) <==> NeedsWrite(cur, resolve, rows[k])
    ensures (NeedsWrite(cur, resolve, rows[k]) ==> execOk(k)) ==>
              Passed(before, RowChecked(cur, resolve, rows[k], now(k)), resolve, rows, k + 1, now, owned, execOk,
                     broken + One(Broken(cur, resolve, rows[k])), healed + One(Healed(cur, resolve, rows[k])))
  {
    CheckCases(before, cur, resolve, rows, k, now, broken, healed);
    if NeedsWrite(cur, resolve, rows[k]) ==> execOk(k) {
      SmoothOne(before, resolve, rows, owned, execOk, k);
    }
  }

  lemma {:induction false} NothingToHeal(before: Store, after: Store, resolve: string -> Option<string>, rows: seq<Row>,
                                         now: nat -> int, k: nat)
    requires k <= |rows| && Checked(before, after, resolve, rows, now)
    ensures CountHealed(after, resolve, rows[..k]) == 0
    ensures CountBroken(after, resolve, rows[..k]) == CountBroken(before, resolve, rows[..k])
  {
    if k > 0 {
      NothingToHeal(before, after, resolve, rows, now, k - 1);
      assert rows[..k][..k - 1] == rows[..k - 1] && rows[..k][k - 1] == rows[k - 1];
      assert resolve(rows[k - 1].url).Some? && rows[k - 1].pieceId in before.pieces ==>
          after.pieces[rows[k - 1].pieceId].missingAt.None? || resolve(rows[k - 1].url).value !in after.files;
    }
  }

  /** Checking changes no flag but missingAt, and checking again changes nothing. */
  lemma CheckedTwice(before: Store, mid: Store, after: Store, resolve: string -> Option<string>, rows: seq<Row>,
                     now: nat -> int, later: nat -> int, id: int)
    requires Checked(before, mid, resolve, rows, now)
             && Checked(mid, after, resolve, rows, later) && id in before.pieces
    ensures mid.pieces[id].complete == before.pieces[id].complete && after.pieces[id] == mid.pieces[id]
  {
    if i :| 0 <= i < |rows| && rows[i].pieceId == id && resolve(rows[i].url).Some? {
      assert rows[i].pieceId in mid.pieces;
    } else {
      assert forall i | 0 <= i < |rows| && rows[i].pieceId == id :: resolve(rows[i].url).None?;
    }
  }

  lemma SameCompleteRows(before: Store, mid: Store, rows: seq<Row>)
    requires IntegrityQuery(before, rows)
    requires forall row: Row :: IsCompleteRow(mid, row) <==> IsCompleteRow(before, row)
    ensures IntegrityQuery(mid, rows)
  {
  }

  /** A second pass right behind a complete one changes no row and heals nothing: first stamps are kept. */
  lemma SecondPassIsQuiet(before: Store, mid: Store, after: Store, resolve: string -> Option<string>, rows: seq<Row>,
                          now: nat -> int, later: nat -> int)
    requires IntegrityQuery(before, rows)
    requires Checked(before, mid, resolve, rows, now) && Checked(mid, after, resolve, rows, later)
    ensures IntegrityQuery(mid, rows) && after == mid
    ensures CountHealed(mid, resolve, rows) == 0
            && CountBroken(mid, resolve, rows) == CountBroken(before, resolve, rows)
  {
    NothingToHeal(before, mid, resolve, rows, now, |rows|);
    assert rows[..|rows|] == rows;
    forall id | id in before.pieces
      ensures mid.pieces[id].complete == before.pieces[id].complete && after.pieces[id] == mid.pieces[id]
    {
      CheckedTwice(before, mid, after, resolve, rows, now, later, id);
    }
    SameCompleteRows(before, mid, rows);
  }

  // ---- Garbage collection -------------------------------------------------------------

  /** What gcPass is run with: `armed` is GCEnabled, `removeOk(i)` whether `os.Remove` succeeds at entry `i`. */
  datatype Gc = Gc(entry: string -> string, referenced: set<string>, cutoff: int, armed: bool, removeOk: nat -> bool)

  /** An entry gcPass may reclaim, on the directory as it was listed. */
  predicate Orphan(files: map<string, File>, gc: Gc, name: string) {
    gc.entry(name) in files && Reclaimable(gc.referenced, gc.cutoff, gc.entry(name), name, files[gc.entry(name)])
  }

  predicate Takes(files: map<string, File>, gc: Gc, name: string, i: nat) {
    Orphan(files, gc, name) && gc.armed && gc.removeOk(i)
  }

  ghost function Orphans(files: map<string, File>, gc: Gc, names: seq<string>): set<string> {
    set i | 0 <= i < |names| && Orphan(files, gc, names[i]) :: gc.entry(names[i])
  }

  /** What gcPass takes away: orphans whose removal succeeds, when it is armed. */
  ghost function Taken(files: map<string, File>, gc: Gc, names: seq<string>): set<string> {
    set i | 0 <= i < |names| && Takes(files, gc, names[i], i) :: gc.entry(names[i])
  }

  /** The bytes of all files. */
  ghost function TotalBytes(files: map<string, File>): nat {
    if files == map[] then 0
    else
      var path :| path in files;
      files[path].size + TotalBytes(files - {path})
  }

  /** The total does not depend on the order of summation. */
  lemma {:induction false} TotalBytesWithout(files: map<string, File>, path: string)
    requires path in files
    ensures TotalBytes(files) == files[path].size + TotalBytes(files - {path})
    decreases |files|
  {
    var first :| path in files && first in files
      && TotalBytes(files) == files[first].size + TotalBytes(files - {first});
    if first != path {
      TotalBytesWithout(files - {first}, path);
      TotalBytesWithout(files - {path}, first);
      assert files - {first} - {path} == files - {path} - {first};
    }
  }

  /** What ReadDir lists: every name once. */
  ghost predicate Listing(entry: string -> string, names: seq<string>) {
    forall i, j | 0 <= i < j < |names| :: entry(names[i]) != entry(names[j])
  }

  /** Directory and counters once the entries in `names` were looked at. */
  ghost predicate Collected(files: map<string, File>, left: map<string, File>, gc: Gc, names: seq<string>,
                            candidates: int, reclaimed: int, bytes: int)
  {
    && left == files - Taken(files, gc, names)
    && candidates == |Orphans(files, gc, names)|
    && reclaimed == |Taken(files, gc, names)|
    && bytes == TotalBytes(files) - TotalBytes(left)
  }

  lemma OrphansGrow(files: map<string, File>, gc: Gc, names: seq<string>, k: nat)
    requires k < |names| && Listing(gc.entry, names)
    ensures gc.entry(names[k]) !in Orphans(files, gc, names[..k])
    ensures Orphans(files, gc, names[..k + 1]) ==
              Orphans(files, gc, names[..k]) + if Orphan(files, gc, names[k]) then {gc.entry(names[k])} else {}
  {
    var done, next := names[..k], names[..k + 1];
    assert next[k] == names[k] && forall i | 0 <= i < k :: next[i] == done[i] == names[i];
    forall p | p in Orphans(files, gc, done) ensures p in Orphans(files, gc, next) {
      var i :| 0 <= i < |done| && Orphan(files, gc, done[i]) && gc.entry(done[i]) == p;
      assert Orphan(files, gc, next[i]) && gc.entry(next[i]) == p;
    }
    forall p | p in Orphans(files, gc, next)
      ensures p in Orphans(files, gc, done) || (Orphan(files, gc, names[k]) && p == gc.entry(names[k]))
    {
      var i :| 0 <= i < |next| && Orphan(files, gc, next[i]) && gc.entry(next[i]) == p;
      if i < k {
        assert gc.entry(done[i]) == p;
      }
    }
  }

  lemma TakenGrows(files: map<string, File>, gc: Gc, names: seq<string>, k: nat)
    requires k < |names| && Listing(gc.entry, names)
    ensures gc.entry(names[k]) !in Taken(files, gc, names[..k])
    ensures Taken(files, gc, names[..k + 1]) ==
              Taken(files, gc, names[..k]) + if Takes(files, gc, names[k], k) then {gc.entry(names[k])} else {}
  {
    var done, next := names[..k], names[..k + 1];
    assert next[k] == names[k] && forall i | 0 <= i < k :: next[i] == done[i] == names[i];
    forall p | p in Taken(files, gc, done) ensures p in Taken(files, gc, next) {
      var i :| 0 <= i < |done| && Takes(files, gc, done[i], i) && gc.entry(done[i]) == p;
      assert Takes(files, gc, next[i], i) && gc.entry(next[i]) == p;
    }
    forall p | p in Taken(files, gc, next)
      ensures p in Taken(files, gc, done) || (Takes(files, gc, names[k], k) && p == gc.entry(names[k]))
    {
      var i :| 0 <= i < |next| && Takes(files, gc, next[i], i) && gc.entry(next[i]) == p;
      if i < k {
        assert gc.entry(done[i]) == p;
      }
    }
  }

  /**
   A listed name's file may be reclaimed: a plain `.tmp` file, in no ref's name, last written at the
   cutoff or earlier.
   */
  ghost predicate MayGo(files: map<string, File>, entry: string -> string, name: string, referenced: set<string>,
                        cutoff: int)
  {
    && entry(name) in files && !files[entry(name)].isDir && files[entry(name)].mtime <= cutoff
    && entry(name) !in referenced
    && |name| >= 4 && name[|name| - 4..] == ".tmp"
  }

  lemma MayGoIff(files: map<string, File>, gc: Gc, name: string)
    ensures MayGo(files, gc.entry, name, gc.referenced, gc.cutoff) <==> Orphan(files, gc, name)
  {}

  /** One more entry, as the loop of gcPass handles it. */
  lemma CollectOne(files: map<string, File>, left: map<string, File>, gc: Gc, names: seq<string>, k: nat,
                   candidates: int, reclaimed: int, bytes: int)
    requires k < |names| && Listing(gc.entry, names)
    requires Collected(files, left, gc, names[..k], candidates, reclaimed, bytes)
    ensures var path := gc.entry(names[k]);
            && (path in left <==> path in files) && (path in left ==> left[path] == files[path])
            && (path in left && Reclaimable(gc.referenced, gc.cutoff, path, names[k], left[path]) <==>
                  MayGo(files, gc.entry, names[k], gc.referenced, gc.cutoff))
            && if MayGo(files, gc.entry, names[k], gc.referenced, gc.cutoff) && gc.armed && gc.removeOk(k)
               then Collected(files, left - {path}, gc, names[..k + 1],
                              candidates + 1, reclaimed + 1, bytes + files[path].size)
               else Collected(files, left, gc, names[..k + 1],
                              if MayGo(files, gc.entry, names[k], gc.referenced, gc.cutoff) then candidates + 1
                              else candidates, reclaimed, bytes)
  {
    MayGoIff(files, gc, names[k]);
    OrphansGrow(files, gc, names, k);
    TakenGrows(files, gc, names, k);
    RemoveOne(files, Taken(files, gc, names[..k]), gc.entry(names[k]));
  }

  lemma RemoveOne(files: map<string, File>, taken: set<string>, path: string)
    requires path !in taken
    ensures path in files ==> TotalBytes(files - taken) == files[path].size + TotalBytes(files - taken - {path})
    ensures files - taken - {path} == files - (taken + {path})
  {
    if path in files {
      TotalBytesWithout(files - taken, path);
    }
  }

  /** `SELECT data_url FROM parked_piece_refs WHERE data_url LIKE 'custore://%'`. */
  ghost predicate UrlQuery(st: Store, urls: seq<string>) {
    && (forall k | k in st.refs && LikeCustore(st.refs[k].url) :: st.refs[k].url in urls)
    && (forall u | u in urls :: LikeCustore(u) && exists k :: k in st.refs && st.refs[k].url == u)
  }

  ghost function PathsOf(urls: seq<string>, resolve: string -> Option<string>): set<string> {
    set i | 0 <= i < |urls| && resolve(urls[i]).Some? :: resolve(urls[i]).value
  }

  lemma PathsOfConcat(urls: seq<string>, url: string, resolve: string -> Option<string>)
    ensures PathsOf(urls + [url], resolve) ==
              PathsOf(urls, resolve) + if resolve(url).Some? then {resolve(url).value} else {}
  {
    var all := urls + [url];
    forall p | p in PathsOf(urls, resolve) ensures p in PathsOf(all, resolve) {
      var i :| 0 <= i < |urls| && resolve(urls[i]).Some? && resolve(urls[i]).value == p;
      assert all[i] == urls[i];
    }
    if resolve(url).Some? {
      assert all[|urls|] == url;
    }
    forall p | p in PathsOf(all, resolve) ensures p in PathsOf(urls, resolve) || resolve(url) == Some(p) {
      var i :| 0 <= i < |all| && resolve(all[i]).Some? && resolve(all[i]).value == p;
      if i < |urls| {
        assert all[i] == urls[i];
      }
    }
  }

  lemma SnapshotIsReferenced(st: Store, urls: seq<string>, resolve: string -> Option<string>)
    requires UrlQuery(st, urls)
    ensures PathsOf(urls, resolve) == ReferencedPaths(st, resolve)
  {
    forall p | p in PathsOf(urls, resolve) ensures p in ReferencedPaths(st, resolve) {
      var i :| 0 <= i < |urls| && resolve(urls[i]).Some? && resolve(urls[i]).value == p;
      assert urls[i] in urls;
    }
    forall p | p in ReferencedPaths(st, resolve) ensures p in PathsOf(urls, resolve) {
      var k :| k in st.refs && LikeCustore(st.refs[k].url) && resolve(st.refs[k].url) == Some(p);
      var i :| 0 <= i < |urls| && urls[i] == st.refs[k].url;
    }
  }

  /** The rows are the same but for integrity_missing_at. */
  ghost predicate SameButMissing(before: map<int, Piece>, after: map<int, Piece>) {
    before.Keys == after.Keys && forall id | id in before :: after[id] == before[id].(missingAt := after[id].missingAt)
  }

  lemma CheckedKeepsPieces(before: Store, after: Store, resolve: string -> Option<string>, rows: seq<Row>,
                           now: nat -> int)
    requires Checked(before, after, resolve, rows, now)
    ensures SameButMissing(before.pieces, after.pieces)
  {
    forall id | id in before.pieces
      ensures after.pieces[id] == before.pieces[id].(missingAt := after.pieces[id].missingAt)
    {
      if i :| 0 <= i < |rows| && rows[i].pieceId == id && resolve(rows[i].url).Some? {
        assert rows[i].pieceId in before.pieces;
      } else {
        assert forall i | 0 <= i < |rows| && rows[i].pieceId == id :: resolve(rows[i].url).None?;
      }
    }
  }

  /** Nothing was changed, and what is gone is among these paths. */
  ghost predicate OnlyGone(before: map<string, File>, after: map<string, File>, paths: set<string>) {
    && after.Keys <= before.Keys && (forall p | p in after :: after[p] == before[p])
    && before.Keys - after.Keys <= paths
  }

  /** The paths of such files among the first `seen` names. */
  ghost function OldUnnamed(files: map<string, File>, entry: string -> string, listed: seq<string>, seen: nat,
                            referenced: set<string>, cutoff: int): set<string>
    requires seen <= |listed|
  {
    if seen == 0 then {}
    else
      OldUnnamed(files, entry, listed, seen - 1, referenced, cutoff)
      + if MayGo(files, entry, listed[seen - 1], referenced, cutoff) then {entry(listed[seen - 1])} else {}
  }

  lemma {:induction false} MoreListed(files: map<string, File>, entry: string -> string, listed: seq<string>, seen: nat,
                                      more: nat, referenced: set<string>, cutoff: int)
    requires seen <= more <= |listed|
    ensures OldUnnamed(files, entry, listed, seen, referenced, cutoff) <=
            OldUnnamed(files, entry, listed, more, referenced, cutoff)
    decreases more - seen
  {
    if seen < more {
      MoreListed(files, entry, listed, seen, more - 1, referenced, cutoff);
    }
  }

  /** A listed file is gone exactly when it may go, and at its entry the pass was armed and the removal succeeded. */
  ghost predicate GoneIff(before: map<string, File>, after: map<string, File>, entry: string -> string,
                          listed: seq<string>, referenced: set<string>, cutoff: int,
                          seen: nat, armed: bool, removeOk: nat -> bool)
  {
    forall i: nat {:trigger MayGo(before, entry, listed[i], referenced, cutoff)} |
      i < |listed| && entry(listed[i]) in before ::
      entry(listed[i]) !in after <==>
        MayGo(before, entry, listed[i], referenced, cutoff) && i < seen && armed && removeOk(i)
  }

  lemma {:induction false} OrphansMayGo(files: map<string, File>, gc: Gc, listed: seq<string>, seen: nat)
    requires seen <= |listed| && Listing(gc.entry, listed)
    ensures Orphans(files, gc, listed[..seen]) == OldUnnamed(files, gc.entry, listed, seen, gc.referenced, gc.cutoff)
  {
    if seen > 0 {
      OrphansMayGo(files, gc, listed, seen - 1);
      OrphansGrow(files, gc, listed, seen - 1);
      MayGoIff(files, gc, listed[seen - 1]);
    }
  }

  lemma TakenIsGone(before: map<string, File>, after: map<string, File>, gc: Gc, listed: seq<string>, seen: nat, i: nat)
    requires seen <= |listed| && Listing(gc.entry, listed) && after == before - Taken(before, gc, listed[..seen])
    requires i < |listed| && gc.entry(listed[i]) in before
    ensures gc.entry(listed[i]) !in after <==>
              MayGo(before, gc.entry, listed[i], gc.referenced, gc.cutoff) && i < seen && gc.armed && gc.removeOk(i)
  {
    MayGoIff(before, gc, listed[i]);
    var done := listed[..seen];
    if i < seen && Takes(before, gc, listed[i], i) {
      assert Takes(before, gc, done[i], i);
    }
    if gc.entry(listed[i]) !in after {
      var j :| 0 <= j < |done| && Takes(before, gc, done[j], j) && gc.entry(done[j]) == gc.entry(listed[i]);
      assert listed[j] == done[j];
    }
  }

  lemma TakenAreOrphans(files: map<string, File>, gc: Gc, names: seq<string>)
    ensures Taken(files, gc, names) <= Orphans(files, gc, names)
    ensures !gc.armed ==> Taken(files, gc, names) == {}
  {
    forall p | p in Taken(files, gc, names) ensures p in Orphans(files, gc, names) && gc.armed {
      var i :| 0 <= i < |names| && Takes(files, gc, names[i], i) && gc.entry(names[i]) == p;
    }
  }

  lemma TakenWasThere(files: map<string, File>, gc: Gc, names: seq<string>)
    ensures Taken(files, gc, names) <= files.Keys
  {
    forall p | p in Taken(files, gc, names) ensures p in files {
      var i :| 0 <= i < |names| && Takes(files, gc, names[i], i) && gc.entry(names[i]) == p;
    }
  }

  /**
   What is gone are listed files that may go; and of the first `seen` all that may go, if the pass is
   armed and they could be removed.
   */
  lemma OnlyOrphansGo(before: map<string, File>, after: map<string, File>, gc: Gc, listed: seq<string>, seen: nat)
    requires seen <= |listed| && Listing(gc.entry, listed) && after == before - Taken(before, gc, listed[..seen])
    ensures GoneIff(before, after, gc.entry, listed, gc.referenced, gc.cutoff, seen, gc.armed, gc.removeOk)
    ensures OnlyGone(before, after, OldUnnamed(before, gc.entry, listed, seen, gc.referenced, gc.cutoff))
    ensures before.Keys - after.Keys == Taken(before, gc, listed[..seen]) && (!gc.armed ==> after == before)
  {
    forall i: nat | i < |listed| && gc.entry(listed[i]) in before
      ensures gc.entry(listed[i]) !in after <==>
                MayGo(before, gc.entry, listed[i], gc.referenced, gc.cutoff) && i < seen && gc.armed && gc.removeOk(i)
    {
      TakenIsGone(before, after, gc, listed, seen, i);
    }
    TakenWasThere(before, gc, listed[..seen]);
    TakenAreOrphans(before, gc, listed[..seen]);
    OrphansMayGo(before, gc, listed, seen);
  }

  /** Listed files that are gone. */
  ghost function GoneAmong(before: map<string, File>, after: map<string, File>, entry: string -> string,
                           listed: seq<string>, k: nat): set<string>
    requires k <= |listed|
  {
    if k == 0 then {}
    else
      var path := entry(listed[k - 1]);
      GoneAmong(before, after, entry, listed, k - 1) + if path in before && path !in after then {path} else {}
  }

  /** What a pass took, looking at the first `seen` names. */
  ghost predicate PassTook(before: map<string, File>, after: map<string, File>, gc: Gc, listed: seq<string>, seen: nat)
    requires seen <= |listed|
  {
    && GoneIff(before, after, gc.entry, listed, gc.referenced, gc.cutoff, seen, gc.armed, gc.removeOk)
    && OnlyGone(before, after, OldUnnamed(before, gc.entry, listed, seen, gc.referenced, gc.cutoff))
    && (!gc.armed ==> after == before)
  }

  /** And what it counted: files that may go, files gone, and the bytes the directory lost. */
  ghost predicate PassCounted(before: map<string, File>, after: map<string, File>, gc: Gc, listed: seq<string>,
                              seen: nat, res: Result, out: Result)
    requires seen <= |listed|
  {
    && out.candidates == res.candidates + |OldUnnamed(before, gc.entry, listed, seen, gc.referenced, gc.cutoff)|
    && out.reclaimed == res.reclaimed + |GoneAmong(before, after, gc.entry, listed, |listed|)|
    && out.bytes == res.bytes + TotalBytes(before) - TotalBytes(after)
    && out.completeChecked == res.completeChecked && out.broken == res.broken && out.healed == res.healed
  }

  lemma {:induction false} GoneAmongIs(before: map<string, File>, after: map<string, File>, entry: string -> string,
                                       listed: seq<string>, k: nat, p: string)
    requires k <= |listed|
    ensures p in GoneAmong(before, after, entry, listed, k) <==>
              p in before && p !in after && exists i | 0 <= i < k :: entry(listed[i]) == p
  {
    if k > 0 {
      GoneAmongIs(before, after, entry, listed, k - 1, p);
    }
  }

  /** Counting what is gone among the listed names counts all that is gone. */
  lemma TakenAreListed(before: map<string, File>, after: map<string, File>, gc: Gc, listed: seq<string>, seen: nat)
    requires seen <= |listed| && after == before - Taken(before, gc, listed[..seen])
    ensures GoneAmong(before, after, gc.entry, listed, |listed|) == Taken(before, gc, listed[..seen])
  {
    var taken := Taken(before, gc, listed[..seen]);
    TakenWasThere(before, gc, listed[..seen]);
    forall p ensures p in GoneAmong(before, after, gc.entry, listed, |listed|) <==> p in taken {
      GoneAmongIs(before, after, gc.entry, listed, |listed|, p);
      if p in taken {
        var i :| 0 <= i < seen && Takes(before, gc, listed[..seen][i], i) && gc.entry(listed[..seen][i]) == p;
        assert gc.entry(listed[i]) == p;
      }
    }
  }

  lemma CollectedMeans(before: map<string, File>, after: map<string, File>, gc: Gc, listed: seq<string>, seen: nat,
                       candidates: nat, reclaimed: nat, bytes: nat, res: Result, out: Result)
    requires seen <= |listed| && Listing(gc.entry, listed)
    requires Collected(before, after, gc, listed[..seen], candidates, reclaimed, bytes)
    requires out == res.(candidates := res.candidates + candidates,
                         reclaimed := res.reclaimed + reclaimed, bytes := res.bytes + bytes)
    ensures PassTook(before, after, gc, listed, seen) && PassCounted(before, after, gc, listed, seen, res, out)
  {
    OnlyOrphansGo(before, after, gc, listed, seen);
    OrphansMayGo(before, gc, listed, seen);
    TakenAreListed(before, after, gc, listed, seen);
  }

  /** What the snapshot is: the paths of the refs whose URL has the custore scheme and resolves. */
  lemma ReferencedIff(st: Store, resolve: string -> Option<string>, path: string)
    ensures path in ReferencedPaths(st, resolve) <==>
              exists k | k in st.refs :: && |st.refs[k].url| >= 10 && LowerAll(st.refs[k].url[..10]) == "custore://"
                                         && resolve(st.refs[k].url) == Some(path)
  {
  }

  /** The counters after an integrity pass over all rows. */
  ghost function Tally(st: Store, resolve: string -> Option<string>, rows: seq<Row>): Result {
    NO_RESULT.(completeChecked := |rows|, broken := |Absent(st, resolve, rows, |rows|)|,
               healed := |Returned(st, resolve, rows, |rows|)|)
  }

  /** What a pass over some of the listed names means for the sweep, and what it means when nothing is lost. */
  lemma TookSweeps(before: map<string, File>, after: map<string, File>, entry: string -> string,
                   referenced: set<string>, cutoff: int, armed: bool, listed: seq<string>, seen: nat, flow: Flow)
    requires seen <= |listed| && (seen < |listed| ==> !flow.ownedGc(seen))
    requires PassTook(before, after, Gc(entry, referenced, cutoff, armed, flow.removeOk), listed, seen)
    ensures OnlyGone(before, after, OldUnnamed(before, entry, listed, |listed|, referenced, cutoff))
    ensures !armed ==> after == before
    ensures flow.Smooth() ==>
              GoneIff(before, after, entry, listed, referenced, cutoff, |listed|, armed, flow.removeOk)
  {
    MoreListed(before, entry, listed, seen, |listed|, referenced, cutoff);
    assert flow.Smooth() ==> seen == |listed|;
  }

  /** Everything outside the tables and the directory that a sweep meets: ownership, failures and clocks. */
  datatype Flow = Flow(owned: nat -> bool, execOk: nat -> bool, now: nat -> int,
                       ownedBetween: bool, gcNow: int, ownedGc: nat -> bool, removeOk: nat -> bool)
  {
    ghost predicate Smooth() {
      ownedBetween && forall i :: owned(i) && ownedGc(i) && removeOk(i)
    }
  }

  class Task {
    var st: Store
    const names: Names
    const gcEnabled: bool
    const retention: nat

    constructor (st: Store, names: Names, gcEnabled: bool, retention: nat)
      ensures this.st == st && this.names == names && this.gcEnabled == gcEnabled && this.retention == retention
    {
      this.st, this.names, this.gcEnabled, this.retention := st, names, gcEnabled, retention;
    }

    /**
     integrityPass on its query's rows; `now(i)`, `owned(i)`, `execOk(i)` are the clock, stillOwned
     and the UPDATE at row `i`.
     */
    method IntegrityPass(rows: seq<Row>, res: Result, owned: nat -> bool, execOk: nat -> bool, now: nat -> int)
      returns (ok: bool, seen: nat, out: Result)
      requires IntegrityQuery(st, rows)
      modifies this`st
      ensures seen <= |rows| && Checked(old(st), st, names.resolve, rows[..seen], now)
      ensures Smooth(old(st), names.resolve, rows[..seen], owned, execOk)
      ensures seen < |rows| && ok ==> !owned(seen)
      ensures !ok ==> seen < |rows| && NeedsWrite(old(st), names.resolve, rows[seen]) && !execOk(seen)
      ensures FlagsTell(old(st), st, names.resolve, rows, seen, now)
      ensures forall id | id in old(st).pieces && !old(st).pieces[id].complete ::
                id in st.pieces && st.pieces[id] == old(st).pieces[id]
      ensures out == res.(completeChecked := res.completeChecked + seen + if ok then 0 else 1,
                          broken := res.broken + |Absent(old(st), names.resolve, rows, seen)|,
                          healed := res.healed + |Returned(old(st), names.resolve, rows, seen)|)
    {
      ghost var before := st;
      var broken, healed;
      ok, seen, broken, healed := CheckRows(rows, owned, execOk, now);
      var checked := if ok then seen else seen + 1;
      out := res.(completeChecked := res.completeChecked + checked,
                  broken := res.broken + broken, healed := res.healed + healed);
      CheckedTells(before, st, names.resolve, rows, seen, now);
      forall id | id in before.pieces && !before.pieces[id].complete
        ensures id in st.pieces && st.pieces[id] == before.pieces[id]
      {
        OthersKept(before, st, names.resolve, rows, seen, now, id);
      }
      BrokenAre(before, names.resolve, rows, seen);
      HealedAre(before, names.resolve, rows, seen);
    }

    /** The loop of integrityPass. */
    method CheckRows(rows: seq<Row>, owned: nat -> bool, execOk: nat -> bool, now: nat -> int)
      returns (ok: bool, seen: nat, broken: nat, healed: nat)
      requires IntegrityQuery(st, rows)
      modifies this`st
      ensures Passed(old(st), st, names.resolve, rows, seen, now, owned, execOk, broken, healed)
      ensures seen < |rows| && ok ==> !owned(seen)
      ensures !ok ==> seen < |rows| && NeedsWrite(old(st), names.resolve, rows[seen]) && !execOk(seen)
    {
      ghost var before := st;
      ok, seen, broken, healed := true, 0, 0, 0;
      assert rows[..0] == [];
      while seen < |rows| && owned(seen)
        invariant Passed(before, st, names.resolve, rows, seen, now, owned, execOk, broken, healed)
        invariant ok
      {
        PassOne(before, st, names.resolve, rows, seen, now, owned, execOk, broken, healed);
        if NeedsWrite(st, names.resolve, rows[seen]) && !execOk(seen) {
          ok := false;
          return;
        }
        broken, healed := CheckRow(rows[seen], now(seen), broken, healed);
        seen := seen + 1;
      }
    }

    /** One row whose update, if it needs one, gets through: stamp, clear, or leave the flag, and count. */
    method CheckRow(row: Row, now: int, broken: nat, healed: nat) returns (b: nat, h: nat)
      requires row.pieceId in st.pieces
      modifies this`st
      ensures st == RowChecked(old(st), names.resolve, row, now)
      ensures b == broken + One(Broken(old(st), names.resolve, row))
              && h == healed + One(Healed(old(st), names.resolve, row))
    {
      b, h := broken, healed;
      var path := names.resolve(row.url);
      if path.Some? {
        var missing, flag := path.value !in st.files, st.pieces[row.pieceId].missingAt;
        if missing && flag == None {
          st := SetMissing(st, row.pieceId, Some(now));
          b := b + 1;
        } else if missing {
          b := b + 1;
        } else if flag != None {
          st := SetMissing(st, row.pieceId, None);
          h := h + 1;
        }
      }
    }

    /** gcPass on the names ReadDir listed. */
    method GcPass(listed: seq<string>, res: Result, referenced: set<string>, now: int, owned: nat -> bool,
                  removeOk: nat -> bool)
      returns (seen: nat, out: Result)
      requires Listing(names.entry, listed)
      modifies this`st
      ensures seen <= |listed| && (seen < |listed| ==> !owned(seen)) && forall i | 0 <= i < seen :: owned(i)
      ensures st.pieces == old(st.pieces) && st.refs == old(st.refs)
      ensures PassTook(old(st.files), st.files, Gc(names.entry, referenced, now - retention, gcEnabled, removeOk),
                       listed, seen)
      ensures PassCounted(old(st.files), st.files, Gc(names.entry, referenced, now - retention, gcEnabled, removeOk),
                          listed, seen, res, out)
    {
      ghost var before := st.files;
      ghost var gc := Gc(names.entry, referenced, now - retention, gcEnabled, removeOk);
      var candidates, reclaimed, bytes;
      seen, candidates, reclaimed, bytes := CollectAll(listed, referenced, now - retention, owned, removeOk);
      out := res.(candidates := res.candidates + candidates,
                  reclaimed := res.reclaimed + reclaimed, bytes := res.bytes + bytes);
      CollectedMeans(before, st.files, gc, listed, seen, candidates, reclaimed, bytes, res, out);
    }

    /** The loop of gcPass. */
    method CollectAll(listed: seq<string>, referenced: set<string>, cutoff: int, owned: nat -> bool,
                      removeOk: nat -> bool)
      returns (seen: nat, candidates: nat, reclaimed: nat, bytes: nat)
      requires Listing(names.entry, listed)
      modifies this`st
      ensures seen <= |listed| && (seen < |listed| ==> !owned(seen)) && forall i | 0 <= i < seen :: owned(i)
      ensures st.pieces == old(st.pieces) && st.refs == old(st.refs)
      ensures Collected(old(st.files), st.files, Gc(names.entry, referenced, cutoff, gcEnabled, removeOk),
                        listed[..seen], candidates, reclaimed, bytes)
    {
      ghost var before := st.files;
      ghost var gc := Gc(names.entry, referenced, cutoff, gcEnabled, removeOk);
      seen, candidates, reclaimed, bytes := 0, 0, 0, 0;
      assert Taken(before, gc, listed[..0]) == {} && Orphans(before, gc, listed[..0]) == {};
      while seen < |listed| && owned(seen)
        invariant seen <= |listed| && forall i | 0 <= i < seen :: owned(i)
        invariant st.pieces == old(st.pieces) && st.refs == old(st.refs)
        invariant Collected(before, st.files, gc, listed[..seen], candidates, reclaimed, bytes)
      {
        var path := names.entry(listed[seen]);
        CollectOne(before, st.files, gc, listed, seen, candidates, reclaimed, bytes);
        if path in st.files && Reclaimable(referenced, cutoff, path, listed[seen], st.files[path]) {
          candidates := candidates + 1;
          if gcEnabled && removeOk(seen) {
            reclaimed, bytes := reclaimed + 1, bytes + st.files[path].size;
            st := st.(files := st.files - {path});
          }
        }
        seen := seen + 1;
      }
    }

    /** The set of paths that the refs' URLs resolve to; a URL that does not resolve is skipped. */
    method Snapshot(urls: seq<string>) returns (referenced: set<string>)
      requires UrlQuery(st, urls)
      ensures referenced == ReferencedPaths(st, names.resolve)
    {
      referenced := {};
      for i := 0 to |urls|
        invariant referenced == PathsOf(urls[..i], names.resolve)
      {
        assert urls[..i + 1] == urls[..i] + [urls[i]];
        PathsOfConcat(urls[..i], urls[i], names.resolve);
        var path := names.resolve(urls[i]);
        if path.Some? {
          referenced := referenced + {path.value};
        }
      }
      assert urls[..|urls|] == urls;
      SnapshotIsReferenced(st, urls, names.resolve);
    }

    /**
     sweep: the snapshot of referenced paths, the integrity pass, then garbage collection. No file
     that a ref named at the snapshot is ever taken, whatever fails or is lost on the way.
     */
    method Sweep(urls: seq<string>, rows: seq<Row>, listed: seq<string>, flow: Flow) returns (ok: bool, out: Result)
      requires UrlQuery(st, urls) && IntegrityQuery(st, rows) && Listing(names.entry, listed)
      modifies this`st
      ensures st.refs == old(st.refs) && SameButMissing(old(st.pieces), st.pieces)
      ensures OnlyGone(old(st.files), st.files,
                       OldUnnamed(old(st.files), names.entry, listed, |listed|,
                                  ReferencedPaths(old(st), names.resolve), flow.gcNow - retention))
      ensures !gcEnabled || !ok ==> st.files == old(st.files)
      ensures (forall i :: flow.execOk(i)) ==> ok
      ensures ok && flow.Smooth() ==>
                && Checked(old(st), st.(files := old(st.files)), names.resolve, rows, flow.now)
                && FlagsTell(old(st), st.(files := old(st.files)), names.resolve, rows, |rows|, flow.now)
                && GoneIff(old(st.files), st.files, names.entry, listed, ReferencedPaths(old(st), names.resolve),
                           flow.gcNow - retention, |listed|, gcEnabled, flow.removeOk)
                && PassCounted(old(st.files), st.files,
                               Gc(names.entry, ReferencedPaths(old(st), names.resolve), flow.gcNow - retention,
                                  gcEnabled, flow.removeOk),
                               listed, |listed|, Tally(old(st), names.resolve, rows), out)
    {
      var referenced := Snapshot(urls);
      ok, out := CheckAndCollect(referenced, rows, listed, flow);
    }

    /** What sweep does with its snapshot. */
    method CheckAndCollect(referenced: set<string>, rows: seq<Row>, listed: seq<string>, flow: Flow)
      returns (ok: bool, out: Result)
      requires IntegrityQuery(st, rows) && Listing(names.entry, listed)
      modifies this`st
      ensures st.refs == old(st.refs) && SameButMissing(old(st.pieces), st.pieces)
      ensures OnlyGone(old(st.files), st.files, OldUnnamed(old(st.files), names.entry, listed, |listed|, referenced,
                                                           flow.gcNow - retention))
      ensures !gcEnabled || !ok ==> st.files == old(st.files)
      ensures (forall i :: flow.execOk(i)) ==> ok
      ensures ok && flow.Smooth() ==>
                && Checked(old(st), st.(files := old(st.files)), names.resolve, rows, flow.now)
                && FlagsTell(old(st), st.(files := old(st.files)), names.resolve, rows, |rows|, flow.now)
                && GoneIff(old(st.files), st.files, names.entry, listed, referenced, flow.gcNow - retention,
                           |listed|, gcEnabled, flow.removeOk)
                && PassCounted(old(st.files), st.files,
                               Gc(names.entry, referenced, flow.gcNow - retention, gcEnabled, flow.removeOk),
                               listed, |listed|, Tally(old(st), names.resolve, rows), out)
    {
      ghost var before := st;
      ok, out := Check(rows, flow);
      if !ok || !flow.ownedBetween {
        return;
      }
      ghost var mid := st;
      ghost var seen;
      out, seen := Collect(referenced, listed, flow, out);
      assert st.(files := before.files) == mid;
    }

    /** The garbage collection as sweep sees it. */
    method Collect(referenced: set<string>, listed: seq<string>, flow: Flow, checked: Result)
      returns (out: Result, ghost seen: nat)
      requires Listing(names.entry, listed)
      modifies this`st
      ensures seen <= |listed| && (flow.Smooth() ==> seen == |listed|)
      ensures st.refs == old(st.refs) && st.pieces == old(st.pieces)
      ensures OnlyGone(old(st.files), st.files, OldUnnamed(old(st.files), names.entry, listed, |listed|, referenced,
                                                           flow.gcNow - retention))
      ensures !gcEnabled ==> st.files == old(st.files)
      ensures flow.Smooth() ==>
                GoneIff(old(st.files), st.files, names.entry, listed, referenced, flow.gcNow - retention,
                        |listed|, gcEnabled, flow.removeOk)
      ensures PassCounted(old(st.files), st.files,
                          Gc(names.entry, referenced, flow.gcNow - retention, gcEnabled, flow.removeOk),
                          listed, seen, checked, out)
    {
      var looked;
      looked, out := GcPass(listed, checked, referenced, flow.gcNow, flow.ownedGc, flow.removeOk);
      seen := looked;
      TookSweeps(old(st.files), st.files, names.entry, referenced,
                 flow.gcNow - retention, gcEnabled, listed, seen, flow);
    }

    /** The integrity pass as sweep sees it. */
    method Check(rows: seq<Row>, flow: Flow) returns (ok: bool, out: Result)
      requires IntegrityQuery(st, rows)
      modifies this`st
      ensures st.refs == old(st.refs) && st.files == old(st.files) && SameButMissing(old(st.pieces), st.pieces)
      ensures (forall i :: flow.execOk(i)) ==> ok
      ensures ok && (forall i :: flow.owned(i)) ==>
                && Checked(old(st), st, names.resolve, rows, flow.now)
                && FlagsTell(old(st), st, names.resolve, rows, |rows|, flow.now)
                && out == Tally(old(st), names.resolve, rows)
    {
      ghost var before := st;
      var seen;
      ok, seen, out := IntegrityPass(rows, NO_RESULT, flow.owned, flow.execOk, flow.now);
      CheckedKeepsPieces(before, st, names.resolve, rows[..seen], flow.now);
      assert seen == |rows| ==> rows[..seen] == rows;
    }
  }
}

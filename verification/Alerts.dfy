/**
 The deduplicating alert store: fingerprints, emitting, acknowledging and counting.
 */
module Alerts {
  import opened Text
  import opened Ordering

  // ---- Fingerprints -------------------------------------------------------------------

  const NUL: char := '\0'

  /** A parameter, as far as `%v` tells parameters apart. */
  datatype Value = Number(n: int) | Str(s: string)

  /** `%v`: a string stands for itself. */
  function Show(v: Value): string {
    match v
    case Number(n) => IntText(n)
    case Str(s) => s
  }

  type Params = map<string, Value>

  /** The part of the hashed text that lists the parameters. */
  function Pairs(keys: seq<string>, params: Params): string
    requires forall k | k in keys :: k in params
  {
    if keys == [] then [] else keys[0] + "=" + Show(params[keys[0]]) + [NUL] + Pairs(keys[1..], params)
  }

  /** The text Fingerprint hashes; `listed` is the order in which the map yielded its keys. */
  function Preimage(source: string, listed: seq<string>, params: Params): string
    requires forall k :: k in listed <==> k in params
  {
    source + [NUL] + Pairs(Sort(listed), params)
  }

  /** A fingerprint does not depend on the order in which the parameters were listed. */
  lemma FingerprintIsStable(source: string, a: seq<string>, b: seq<string>, params: Params)
    requires Distinct(a) && Distinct(b)
    requires (forall k :: k in a <==> k in params) && (forall k :: k in b <==> k in params)
    ensures Preimage(source, a, params) == Preimage(source, b, params)
  {
    SortAscends(a);
    SortAscends(b);
    AscendingIsUnique(Sort(a), Sort(b));
  }

  /** Texts that end at the first occurrence of a character are told apart by what follows too. */
  lemma {:induction false} CutAt(a: string, b: string, c: char, x: string, y: string)
    requires c !in a && c !in b && a + [c] + x == b + [c] + y
    ensures a == b && x == y
  {
    var s, t := a + [c] + x, b + [c] + y;
    assert s[|a|] == c && t[|b|] == c;
    assert forall i | 0 <= i < |a| :: s[i] == a[i];
    assert forall i | 0 <= i < |b| :: t[i] == b[i];
    assert |a| == |b|;
    assert a == s[..|a|] && b == t[..|b|];
    assert x == s[|a| + 1..] && y == t[|b| + 1..];
  }

  /** Parameters whose text can be read back: no '=' or NUL in a key, no NUL in a value's text. */
  predicate Readable(params: Params) {
    forall k | k in params :: '=' !in k && NUL !in k && NUL !in Show(params[k])
  }

  /** The same keys, and values that print alike. */
  predicate ShownAlike(p: Params, q: Params) {
    p.Keys == q.Keys && forall k | k in p :: Show(p[k]) == Show(q[k])
  }

  predicate ShownAlikeOn(keys: seq<string>, p: Params, q: Params) {
    forall k | k in keys :: k in p && k in q && Show(p[k]) == Show(q[k])
  }

  /** The first pair and the rest. */
  lemma FirstPair(keys: seq<string>, params: Params)
    requires keys != [] && forall k | k in keys :: k in params
    ensures Pairs(keys, params) == keys[0] + ['='] + (Show(params[keys[0]]) + [NUL] + Pairs(keys[1..], params))
  {}

  /** Two texts with the same first pairs. */
  lemma FirstPairReadsBack(a: seq<string>, p: Params, b: seq<string>, q: Params)
    requires a != [] && b != [] && (forall k | k in a :: k in p) && (forall k | k in b :: k in q)
    requires Readable(p) && Readable(q) && Pairs(a, p) == Pairs(b, q)
    ensures a[0] == b[0] && Show(p[a[0]]) == Show(q[b[0]]) && Pairs(a[1..], p) == Pairs(b[1..], q)
  {
    FirstPair(a, p);
    FirstPair(b, q);
    var (v, w) := (Show(p[a[0]]), Show(q[b[0]]));
    CutAt(a[0], b[0], '=', v + [NUL] + Pairs(a[1..], p), w + [NUL] + Pairs(b[1..], q));
    CutAt(v, w, NUL, Pairs(a[1..], p), Pairs(b[1..], q));
  }

  lemma {:induction false} PairsReadBack(a: seq<string>, p: Params, b: seq<string>, q: Params)
    requires (forall k | k in a :: k in p) && (forall k | k in b :: k in q) && Readable(p) && Readable(q)
    requires Pairs(a, p) == Pairs(b, q)
    ensures a == b && ShownAlikeOn(a, p, q)
  {
    if a == [] || b == [] {
      assert |Pairs(a, p)| == |Pairs(b, q)|;
    } else {
      FirstPairReadsBack(a, p, b, q);
      PairsReadBack(a[1..], p, b[1..], q);
      assert a == [a[0]] + a[1..] && b == [b[0]] + b[1..];
    }
  }

  lemma {:induction false} AlikePairs(keys: seq<string>, p: Params, q: Params)
    requires ShownAlikeOn(keys, p, q)
    ensures Pairs(keys, p) == Pairs(keys, q)
  {
    if keys != [] {
      AlikePairs(keys[1..], p, q);
    }
  }

  lemma PreimageReadsBack(source: string, a: seq<string>, p: Params, source': string, b: seq<string>, q: Params)
    requires (forall k :: k in a <==> k in p) && (forall k :: k in b <==> k in q)
    requires NUL !in source && NUL !in source' && Readable(p) && Readable(q)
    requires Preimage(source, a, p) == Preimage(source', b, q)
    ensures source == source' && ShownAlike(p, q)
  {
    CutAt(source, source', NUL, Pairs(Sort(a), p), Pairs(Sort(b), q));
    PairsReadBack(Sort(a), p, Sort(b), q);
    SameKeys(a, p, b, q);
  }

  lemma SameKeys(a: seq<string>, p: Params, b: seq<string>, q: Params)
    requires (forall k :: k in a <==> k in p) && (forall k :: k in b <==> k in q) && Sort(a) == Sort(b)
    ensures p.Keys == q.Keys
  {
    forall k ensures k in p <==> k in q {
      assert k in Sort(a) <==> k in a;
      assert k in Sort(b) <==> k in b;
    }
  }

  lemma AlikePreimages(source: string, a: seq<string>, p: Params, b: seq<string>, q: Params)
    requires Distinct(a) && Distinct(b) && (forall k :: k in a <==> k in p) && (forall k :: k in b <==> k in q)
    requires ShownAlike(p, q)
    ensures Preimage(source, a, p) == Preimage(source, b, q)
  {
    SortAscends(a);
    SortAscends(b);
    AscendingIsUnique(Sort(a), Sort(b));
    AlikePairs(Sort(a), p, q);
  }

  /** Texts are equal exactly when the sources are and the parameters print alike. */
  lemma PreimageIsInjective(source: string, a: seq<string>, p: Params, source': string, b: seq<string>, q: Params)
    requires Distinct(a) && Distinct(b) && (forall k :: k in a <==> k in p) && (forall k :: k in b <==> k in q)
    requires NUL !in source && NUL !in source' && Readable(p) && Readable(q)
    ensures Preimage(source, a, p) == Preimage(source', b, q) <==> source == source' && ShownAlike(p, q)
  {
    if Preimage(source, a, p) == Preimage(source', b, q) {
      PreimageReadsBack(source, a, p, source', b, q);
    } else if source == source' && ShownAlike(p, q) {
      AlikePreimages(source, a, p, b, q);
    }
  }

  /** A number and its text are different parameters with one fingerprint. */
  lemma NumbersCollideWithTexts(source: string, key: string, n: int)
    ensures var (p, q) := (map[key := Number(n)], map[key := Str(IntText(n))]);
            p != q && Preimage(source, [key], p) == Preimage(source, [key], q)
  {
    var p, q := map[key := Number(n)], map[key := Str(IntText(n))];
    assert p[key] != q[key];
    AlikePairs(Sort([key]), p, q);
  }

  /** An '=' in a key makes two parameter sets collide. */
  lemma EqualsSignsCollide(source: string, key: string, value: string, rest: string)
    ensures var (p, q) := (map[key + "=" + rest := Str(value)], map[key := Str(rest + "=" + value)]);
            && Preimage(source, [key + "=" + rest], p) == Preimage(source, [key], q)
            && p != q
  {
    var p, q := map[key + "=" + rest := Str(value)], map[key := Str(rest + "=" + value)];
    var a, b := [key + "=" + rest], [key];
    assert Sort(a) == a && Sort(b) == b;
    assert Pairs(a, p) == key + "=" + rest + "=" + value + [NUL] + Pairs([], p);
    assert Pairs(b, q) == key + "=" + (rest + "=" + value) + [NUL] + Pairs([], q);
    assert Pairs(a, p) == Pairs(b, q);
    assert |key + "=" + rest| != |key|;
    assert key in q && key !in p;
  }

  // ---- The store ----------------------------------------------------------------------

  /** A curio_alerts row, without its fingerprint. */
  datatype Alert = Alert(id: int, severity: string, source: string, message: string, context: Params,
                         firstSeen: int, lastSeen: int, count: nat, acked: bool, ackedAt: Option<int>)

  /** Rows by fingerprint, which is UNIQUE; ids come from AUTOINCREMENT. */
  datatype Db = Db(rows: map<string, Alert>, nextId: int)

  /** What is emitted. An empty fingerprint asks for a computed one, an empty severity for "warning". */
  datatype EmitArgs = EmitArgs(severity: string, source: string, message: string, fingerprint: string, context: Params)

  /** The upsert: a new row, or one more occurrence on the old one, whose first texts and severity stay. */
  function Upsert(db: Db, fp: string, args: EmitArgs, now: int): Db {
    if fp in db.rows then
      db.(rows := db.rows[fp := db.rows[fp].(lastSeen := now, context := args.context, count := db.rows[fp].count + 1,
                                             acked := false, ackedAt := None)])
    else
      Db(db.rows[fp := Alert(db.nextId, if args.severity == "" then "warning" else args.severity,
                             args.source, args.message,
                             args.context, now, now, 1, false, None)],
         db.nextId + 1)
  }

  /** acked is 1 exactly when acked_at is set, and no two rows share an id. */
  predicate Inv(db: Db) {
    && (forall fp | fp in db.rows ::
        (db.rows[fp].acked <==> db.rows[fp].ackedAt.Some?) && db.rows[fp].id < db.nextId && db.rows[fp].count >= 1)
    && (forall a, b | a in db.rows && b in db.rows && db.rows[a].id == db.rows[b].id :: a == b)
  }

  /** The unacknowledged fingerprints, and those of one severity among them. */
  function Unacked(db: Db): set<string> {
    set fp | fp in db.rows && !db.rows[fp].acked
  }

  function UnackedOf(db: Db, severity: string): set<string> {
    set fp | fp in db.rows && !db.rows[fp].acked && db.rows[fp].severity == severity
  }

  /** The answer of CountsOf. */
  datatype Counts = Counts(total: nat, unacked: nat, bySeverity: map<string, nat>)

  function Sum(counts: map<string, nat>, keys: seq<string>): nat
    requires forall k | k in keys :: k in counts
  {
    if keys == [] then 0 else counts[keys[0]] + Sum(counts, keys[1..])
  }

  /** A row of SELECT severity, COUNT(*) ... WHERE acked = 0 GROUP BY severity. */
  datatype SeverityRow = SeverityRow(severity: string, count: nat)

  ghost predicate GroupQuery(db: Db, rows: seq<SeverityRow>) {
    && (forall i, j | 0 <= i < j < |rows| :: rows[i].severity != rows[j].severity)
    && (forall i | 0 <= i < |rows| :: rows[i].count == |UnackedOf(db, rows[i].severity)| > 0)
    && (forall fp | fp in Unacked(db) :: Grouped(rows, db.rows[fp].severity))
  }

  function SumRows(rows: seq<SeverityRow>): nat {
    if rows == [] then 0 else SumRows(rows[..|rows| - 1]) + rows[|rows| - 1].count
  }

  predicate Grouped(rows: seq<SeverityRow>, severity: string) {
    exists i | 0 <= i < |rows| :: rows[i].severity == severity
  }

  /** The unacknowledged rows whose severity is among the groups. */
  function UnackedIn(db: Db, rows: seq<SeverityRow>): set<string> {
    set fp | fp in db.rows && !db.rows[fp].acked && Grouped(rows, db.rows[fp].severity)
  }

  lemma GroupedOneMore(init: seq<SeverityRow>, last: SeverityRow, severity: string)
    ensures Grouped(init + [last], severity) <==> Grouped(init, severity) || last.severity == severity
  {
    var rows := init + [last];
    assert rows[|init|] == last;
    if i :| 0 <= i < |init| && init[i].severity == severity {
      assert rows[i].severity == severity;
    }
  }

  lemma {:induction false} GroupsPartition(db: Db, rows: seq<SeverityRow>)
    requires forall i, j | 0 <= i < j < |rows| :: rows[i].severity != rows[j].severity
    requires forall i | 0 <= i < |rows| :: rows[i].count == |UnackedOf(db, rows[i].severity)|
    ensures SumRows(rows) == |UnackedIn(db, rows)|
  {
    if rows == [] {
      assert UnackedIn(db, rows) == {};
    } else {
      var init, last := rows[..|rows| - 1], rows[|rows| - 1];
      GroupsPartition(db, init);
      assert rows == init + [last] && !Grouped(init, last.severity);
      forall fp | fp in db.rows
        ensures Grouped(rows, db.rows[fp].severity) <==>
                Grouped(init, db.rows[fp].severity) || last.severity == db.rows[fp].severity
      {
        GroupedOneMore(init, last, db.rows[fp].severity);
      }
      Disjointly(UnackedIn(db, init), UnackedOf(db, last.severity), UnackedIn(db, rows));
    }
  }

  lemma Disjointly(a: set<string>, b: set<string>, all: set<string>)
    requires a !! b && forall x :: x in all <==> x in a || x in b
    ensures |all| == |a| + |b|
  {
    assert all == a + b;
  }

  /** The severity counts of a dashboard add up to its unacknowledged alerts. */
  lemma CountsAddUp(db: Db, rows: seq<SeverityRow>)
    requires GroupQuery(db, rows)
    ensures SumRows(rows) == |Unacked(db)|
  {
    GroupsPartition(db, rows);
    assert UnackedIn(db, rows) == Unacked(db);
  }

  /** Store operations, as they interleave on one table. */
  datatype Op = Emitted(fp: string, args: EmitArgs, now: int) | Acked(id: int, now: int) | AllAcked(now: int)

  function AckRow(a: Alert, now: int): Alert {
    if a.acked then a else a.(acked := true, ackedAt := Some(now))
  }

  /** Acknowledging changes no row but those that leave the unacknowledged set, and in them only when that was. */
  ghost predicate AckedAt(before: Db, after: Db, now: int) {
    && after.rows.Keys == before.rows.Keys && after.nextId == before.nextId
    && (forall fp | fp in before.rows && (fp !in Unacked(before) || fp in Unacked(after)) ::
          after.rows[fp] == before.rows[fp])
    && (forall fp | fp in Unacked(before) && fp !in Unacked(after) ::
          after.rows[fp] == before.rows[fp].(acked := true, ackedAt := Some(now)))
  }

  function ApplyOp(db: Db, op: Op): Db {
    match op
    case Emitted(fp, args, now) => Upsert(db, fp, args, now)
    case Acked(id, now) =>
      db.(rows := map fp | fp in db.rows :: if db.rows[fp].id == id then AckRow(db.rows[fp], now) else db.rows[fp])
    case AllAcked(now) => db.(rows := map fp | fp in db.rows :: AckRow(db.rows[fp], now))
  }

  function ApplyOps(db: Db, ops: seq<Op>): Db {
    if ops == [] then db else ApplyOp(ApplyOps(db, ops[..|ops| - 1]), ops[|ops| - 1])
  }

  /** How often a fingerprint was emitted. */
  function Emissions(ops: seq<Op>, fp: string): nat {
    if ops == [] then 0
    else Emissions(ops[..|ops| - 1], fp) + if ops[|ops| - 1].Emitted? && ops[|ops| - 1].fp == fp then 1 else 0
  }

  /**
   Whether the last thing that happened to a fingerprint's row was an emission; `id` is the row's
   id, `base` how it was before.
   */
  predicate Raised(ops: seq<Op>, fp: string, id: int, base: bool) {
    if ops == [] then base
    else
      match ops[|ops| - 1]
      case Emitted(f, _, _) => f == fp || Raised(ops[..|ops| - 1], fp, id, base)
      case Acked(i, _) => i != id && Raised(ops[..|ops| - 1], fp, id, base)
      case AllAcked(_) => false
  }

  /** The first emission of a fingerprint. */
  function FirstEmission(ops: seq<Op>, fp: string): (first: Op)
    requires Emissions(ops, fp) > 0
    ensures first.Emitted? && first.fp == fp
  {
    var init, last := ops[..|ops| - 1], ops[|ops| - 1];
    if Emissions(init, fp) > 0 then FirstEmission(init, fp) else last
  }

  /** The last emission of a fingerprint. */
  function LastEmission(ops: seq<Op>, fp: string): (last: Op)
    requires Emissions(ops, fp) > 0
    ensures last.Emitted? && last.fp == fp && last in ops
  {
    var last := ops[|ops| - 1];
    if last.Emitted? && last.fp == fp then last else LastEmission(ops[..|ops| - 1], fp)
  }

  function CountIn(db: Db, fp: string): nat {
    if fp in db.rows then db.rows[fp].count else 0
  }

  /** After any interleaving a fingerprint has a row when it had one or was emitted, and every emission was counted. */
  lemma {:induction false} StoredCount(initial: Db, ops: seq<Op>, fp: string)
    ensures var db := ApplyOps(initial, ops);
            && (fp in db.rows <==> fp in initial.rows || Emissions(ops, fp) > 0)
            && CountIn(db, fp) == CountIn(initial, fp) + Emissions(ops, fp)
  {
    if ops != [] {
      StoredCount(initial, ops[..|ops| - 1], fp);
    }
  }

  /** Where a row's severity and texts come from: the row there was, or the first emission. */
  predicate TextsFrom(row: Alert, initial: Db, ops: seq<Op>, fp: string)
    requires fp in initial.rows || Emissions(ops, fp) > 0
  {
    if fp in initial.rows then
      var was := initial.rows[fp];
      && row.id == was.id && row.severity == was.severity && row.source == was.source
      && row.message == was.message && row.firstSeen == was.firstSeen
    else
      var first := FirstEmission(ops, fp);
      && row.severity == (if first.args.severity == "" then "warning" else first.args.severity)
      && row.source == first.args.source && row.message == first.args.message && row.firstSeen == first.now
  }

  /** They never change, whatever comes later. */
  lemma {:induction false} StoredTexts(initial: Db, ops: seq<Op>, fp: string)
    requires fp in initial.rows || Emissions(ops, fp) > 0
    ensures fp in ApplyOps(initial, ops).rows && TextsFrom(ApplyOps(initial, ops).rows[fp], initial, ops, fp)
  {
    StoredCount(initial, ops, fp);
    if ops != [] {
      var init := ops[..|ops| - 1];
      StoredCount(initial, init, fp);
      if fp in initial.rows || Emissions(init, fp) > 0 {
        StoredTexts(initial, init, fp);
      }
    }
  }

  /** The time last seen and the context are refreshed by every emission: they are those of the last one. */
  lemma {:induction false} StoredLatest(initial: Db, ops: seq<Op>, fp: string)
    requires fp in initial.rows || Emissions(ops, fp) > 0
    ensures fp in ApplyOps(initial, ops).rows
    ensures var row := ApplyOps(initial, ops).rows[fp];
            if Emissions(ops, fp) > 0
            then row.lastSeen == LastEmission(ops, fp).now && row.context == LastEmission(ops, fp).args.context
            else row.lastSeen == initial.rows[fp].lastSeen && row.context == initial.rows[fp].context
  {
    StoredCount(initial, ops, fp);
    if ops != [] {
      var init := ops[..|ops| - 1];
      StoredCount(initial, init, fp);
      if fp in initial.rows || Emissions(init, fp) > 0 {
        StoredLatest(initial, init, fp);
      }
    }
  }

  /** A row is acknowledged exactly when no emission followed the last acknowledgement. */
  lemma {:induction false} StoredAck(initial: Db, ops: seq<Op>, fp: string)
    requires fp in initial.rows || Emissions(ops, fp) > 0
    ensures fp in ApplyOps(initial, ops).rows
    ensures var row := ApplyOps(initial, ops).rows[fp];
            row.acked <==> !Raised(ops, fp, row.id, fp in initial.rows && !initial.rows[fp].acked)
  {
    StoredCount(initial, ops, fp);
    if ops != [] {
      var init := ops[..|ops| - 1];
      StoredCount(initial, init, fp);
      if fp in initial.rows || Emissions(init, fp) > 0 {
        StoredAck(initial, init, fp);
      }
    }
  }

  /** acked_at is set exactly on acknowledged rows, after any interleaving. */
  lemma {:induction false} OpsKeepInv(initial: Db, ops: seq<Op>)
    requires Inv(initial)
    ensures Inv(ApplyOps(initial, ops))
  {
    if ops != [] {
      OpsKeepInv(initial, ops[..|ops| - 1]);
      OpKeepsInv(ApplyOps(initial, ops[..|ops| - 1]), ops[|ops| - 1]);
    }
  }

  lemma OpKeepsInv(db: Db, op: Op)
    requires Inv(db)
    ensures Inv(ApplyOp(db, op))
  {
  }

  class Store {
    var db: Db
    const hash: string -> string

    constructor (db: Db, hash: string -> string)
      ensures this.db == db && this.hash == hash
    {
      this.db, this.hash := db, hash;
    }

    /** Emit; `keys` are the context's keys as the map yields them. The flags are whether the two statements succeed. */
    method Emit(args: EmitArgs, keys: seq<string>, now: int, execOk: bool, readOk: bool) returns (id: Option<int>)
      requires Inv(db) && Distinct(keys) && forall k :: k in keys <==> k in args.context
      modifies this
      ensures var fp :=
                if args.fingerprint == "" then hash(Preimage(args.source, keys, args.context)) else args.fingerprint;
              && Inv(db)
              && db == (if args.source != "" && args.message != "" && execOk then
                          ApplyOp(old(db), Emitted(fp, args, now))
                        else old(db))
              && (id.Some? <==> args.source != "" && args.message != "" && execOk && readOk)
              && (id.Some? ==> fp in db.rows && db.rows[fp].id == id.value)
    {
      if args.source == "" || args.message == "" || !execOk {
        return None;
      }
      var fp := if args.fingerprint == "" then hash(Preimage(args.source, keys, args.context)) else args.fingerprint;
      OpKeepsInv(db, Emitted(fp, args, now));
      db := Upsert(db, fp, args, now);
      id := if readOk then Some(db.rows[fp].id) else None;
    }

    /** Ack: the number of rows changed is 1 when the id names an unacknowledged row. */
    method Ack(id: int, now: int) returns (changed: nat)
      requires Inv(db)
      modifies this
      ensures Inv(db) && db == ApplyOp(old(db), Acked(id, now))
      ensures changed == (if exists fp | fp in Unacked(old(db)) :: old(db).rows[fp].id == id then 1 else 0)
      ensures Unacked(db) == set fp | fp in Unacked(old(db)) && old(db).rows[fp].id != id
      ensures AckedAt(old(db), db, now)
    {
      OpKeepsInv(db, Acked(id, now));
      changed := if exists fp | fp in Unacked(db) :: db.rows[fp].id == id then 1 else 0;
      db := db.(rows := map fp | fp in db.rows ::
                if db.rows[fp].id == id then AckRow(db.rows[fp], now) else db.rows[fp]);
    }

    method AckAll(now: int) returns (changed: nat)
      requires Inv(db)
      modifies this
      ensures Inv(db) && db == ApplyOp(old(db), AllAcked(now))
      ensures changed == |Unacked(old(db))| && Unacked(db) == {}
      ensures AckedAt(old(db), db, now)
    {
      OpKeepsInv(db, AllAcked(now));
      changed := |Unacked(db)|;
      db := db.(rows := map fp | fp in db.rows :: AckRow(db.rows[fp], now));
    }

    /** CountsOf on a table nobody writes to in between; `rows` is the answer of the grouping query. */
    method CountsOf(rows: seq<SeverityRow>) returns (c: Counts, ghost keys: seq<string>)
      requires GroupQuery(db, rows)
      ensures c.total == |db.rows| && c.unacked == |Unacked(db)|
      ensures forall s :: s in c.bySeverity <==> UnackedOf(db, s) != {}
      ensures forall s | s in c.bySeverity :: c.bySeverity[s] == |UnackedOf(db, s)|
      ensures Distinct(keys) && (forall s :: s in keys <==> s in c.bySeverity) && Sum(c.bySeverity, keys) == c.unacked
    {
      var groups: map<string, nat> := map[];
      keys := [];
      for i := 0 to |rows|
        invariant |keys| == i && forall j | 0 <= j < i ::
                  keys[j] == rows[j].severity && keys[j] in groups && groups[keys[j]] == rows[j].count
        invariant forall s :: s in keys <==> s in groups
      {
        groups := groups[rows[i].severity := rows[i].count];
        keys := keys + [rows[i].severity];
      }
      c := Counts(|db.rows|, |Unacked(db)|, groups);
      CountsAddUp(db, rows);
      SumIs(groups, keys, rows);
      GroupsAreSeverities(db, rows, keys);
    }
  }

  lemma GroupsAreSeverities(db: Db, rows: seq<SeverityRow>, keys: seq<string>)
    requires GroupQuery(db, rows) && |keys| == |rows| && forall j | 0 <= j < |rows| :: keys[j] == rows[j].severity
    ensures forall s :: s in keys <==> UnackedOf(db, s) != {}
  {
    forall s ensures s in keys <==> UnackedOf(db, s) != {} {
      if s in keys {
        var j :| 0 <= j < |keys| && keys[j] == s;
        assert |UnackedOf(db, s)| > 0;
      }
      if UnackedOf(db, s) != {} {
        var fp :| fp in UnackedOf(db, s);
        assert fp in Unacked(db);
      }
    }
  }

  lemma {:induction false} SumIs(counts: map<string, nat>, keys: seq<string>, rows: seq<SeverityRow>)
    requires |keys| == |rows| && forall i | 0 <= i < |rows| ::
             keys[i] == rows[i].severity && keys[i] in counts && counts[keys[i]] == rows[i].count
    ensures Sum(counts, keys) == SumRows(rows)
  {
    if rows != [] {
      var n := |rows| - 1;
      SumIs(counts, keys[..n], rows[..n]);
      SumLast(counts, keys);
    }
  }

  lemma {:induction false} SumLast(counts: map<string, nat>, keys: seq<string>)
    requires keys != [] && forall k | k in keys :: k in counts
    ensures Sum(counts, keys) == Sum(counts, keys[..|keys| - 1]) + counts[keys[|keys| - 1]]
  {
    if |keys| > 1 {
      SumLast(counts, keys[1..]);
      assert keys[1..][..|keys| - 2] == keys[..|keys| - 1][1..];
    }
  }
}

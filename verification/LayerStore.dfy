/**
 The Merkle-layer index on SQLite: a layer is written in one transaction, and read back node by
 node or as a whole.
 */
module LayerStore {
  import opened Text

  /** The primary key of pdp_cache_layer. */
  datatype Key = Key(piece: string, layer: int, leaf: int)

  /** The table: blobs by key. */
  type Table = map<Key, string>

  /** One node; its hash has 32 bytes by its Go type. */
  type Hash = h: string | |h| == 32 witness seq(32, _ => '0')
  datatype Node = Node(layer: int, index: int, hash: Hash)

  datatype Result<+T> = Ok(value: T) | Err

  function KeyOf(piece: string, n: Node): Key {
    Key(piece, n.layer, n.index)
  }

  /** The first k nodes of a layer upserted in order. */
  function PutAll(t: Table, piece: string, layer: seq<Node>, k: nat): Table
    requires k <= |layer|
  {
    if k == 0 then t else PutAll(t, piece, layer, k - 1)[KeyOf(piece, layer[k - 1]) := layer[k - 1].hash]
  }

  predicate IsLast(piece: string, layer: seq<Node>, k: nat, i: nat)
    requires i < k <= |layer|
  {
    forall j | i < j < k :: KeyOf(piece, layer[j]) != KeyOf(piece, layer[i])
  }

  predicate Writes(piece: string, layer: seq<Node>, k: nat, key: Key)
    requires k <= |layer|
  {
    exists i | 0 <= i < k :: KeyOf(piece, layer[i]) == key
  }

  /** The last write wins on repeated keys. */
  lemma {:induction false} LastWriteWins(t: Table, piece: string, layer: seq<Node>, k: nat, i: nat)
    requires i < k <= |layer| && IsLast(piece, layer, k, i)
    ensures KeyOf(piece, layer[i]) in PutAll(t, piece, layer, k)
            && PutAll(t, piece, layer, k)[KeyOf(piece, layer[i])] == layer[i].hash
  {
    if i < k - 1 {
      assert IsLast(piece, layer, k - 1, i);
      LastWriteWins(t, piece, layer, k - 1, i);
    }
  }

  /** No other key is touched: other pieces least of all. */
  lemma {:induction false} OtherKeysKept(t: Table, piece: string, layer: seq<Node>, k: nat, key: Key)
    requires k <= |layer|
    ensures key in PutAll(t, piece, layer, k) <==> key in t || Writes(piece, layer, k, key)
    ensures !Writes(piece, layer, k, key) && key in t ==> PutAll(t, piece, layer, k)[key] == t[key]
  {
    if k > 0 {
      OtherKeysKept(t, piece, layer, k - 1, key);
      if KeyOf(piece, layer[k - 1]) == key {
        assert Writes(piece, layer, k, key);
      }
    }
  }

  /** Two tables agree on all rows of all pieces but one. */
  predicate SameElsewhere(a: Table, b: Table, piece: string) {
    && (forall key | key in a && key.piece != piece :: key in b && b[key] == a[key])
    && forall key | key in b && key.piece != piece :: key in a
  }

  lemma PutStaysInPiece(t: Table, piece: string, layer: seq<Node>, k: nat)
    requires k <= |layer|
    ensures SameElsewhere(t, PutAll(t, piece, layer, k), piece)
  {
    forall key: Key | key.piece != piece
      ensures key in PutAll(t, piece, layer, k) <==> key in t
      ensures key in t ==> PutAll(t, piece, layer, k)[key] == t[key]
    {
      OtherKeysKept(t, piece, layer, k, key);
    }
  }

  /** Every blob is a digest: what AddPDPLayer writes always is. */
  predicate AllDigests(t: Table) {
    forall key | key in t :: |t[key]| == 32
  }

  lemma {:induction false} PutsDigests(t: Table, piece: string, layer: seq<Node>, k: nat)
    requires k <= |layer| && AllDigests(t)
    ensures AllDigests(PutAll(t, piece, layer, k))
  {
    if k > 0 {
      PutsDigests(t, piece, layer, k - 1);
    }
  }

  /** SELECT leaf_index, leaf ... WHERE piece_cid = ? AND layer_index = ? ORDER BY leaf_index ASC. */
  predicate LayerQuery(t: Table, piece: string, layer: int, rows: seq<(int, string)>) {
    && (forall i, j | 0 <= i < j < |rows| :: rows[i].0 < rows[j].0)
    && (forall i | 0 <= i < |rows| :: Key(piece, layer, rows[i].0) in t && t[Key(piece, layer, rows[i].0)] == rows[i].1)
    && forall key | key in t && key.piece == piece && key.layer == layer ::
       exists i | 0 <= i < |rows| :: rows[i].0 == key.leaf
  }

  /** A single row, as GetPDPNode answers it. */
  function NodeAt(t: Table, piece: string, layer: int, index: int): Result<Option<Node>> {
    var key := Key(piece, layer, index);
    if key !in t then Ok(None)
    else if |t[key]| != 32 then Err
    else Ok(Some(Node(layer, index, t[key])))
  }

  /** Nodes of one layer in strictly ascending order, the same as node-by-node reads would give. */
  predicate IsLayer(t: Table, piece: string, layer: int, out: seq<Node>) {
    && (forall i, j | 0 <= i < j < |out| :: out[i].index < out[j].index)
    && (forall i | 0 <= i < |out| :: out[i].layer == layer && NodeAt(t, piece, layer, out[i].index) == Ok(Some(out[i])))
    && forall key | key in t && key.piece == piece && key.layer == layer ::
       exists i | 0 <= i < |out| :: out[i].index == key.leaf
  }

  // ---- The store ----------------------------------------------------------------------

  /** What the callback of a transaction reports. */
  datatype Callback = Commit | Rollback | Failed | Panicked

  class Store {
    var rows: Table
    /** What the open transaction sees; nobody else does. */
    var tx: Option<Table>

    constructor ()
      ensures rows == map[] && tx == None
    {
      rows, tx := map[], None;
    }

    method Begin(ok: bool) returns (begun: bool)
      requires tx == None
      modifies this
      ensures rows == old(rows) && begun == ok && tx == if ok then Some(rows) else None
    {
      if ok {
        tx := Some(rows);
      }
      begun := ok;
    }

    /**
     The end of BeginTransaction: commit or roll back, as the callback says; `endOk` is whether that
     statement succeeds.
     */
    method End(result: Callback, endOk: bool) returns (didCommit: bool, failed: bool)
      requires tx.Some?
      modifies this
      ensures tx == None && didCommit == (result == Commit && endOk)
      ensures rows == if didCommit then old(tx).value else old(rows)
      ensures failed <==> result == Failed || result == Panicked || !endOk
    {
      match result
      case Commit =>
        if endOk {
          rows := tx.value;
        }
        tx := None;
        didCommit, failed := endOk, !endOk;
      case Rollback =>
        tx := None;
        didCommit, failed := false, !endOk;
      case _ =>
        tx := None;
        didCommit, failed := false, true;
    }

    /** AddPDPLayer: all of the layer or none of it. `execOk(i)` is whether the i-th upsert succeeds. */
    method AddPDPLayer(piece: string, layer: seq<Node>, beginOk: bool, execOk: nat -> bool, endOk: bool)
      returns (ok: bool)
      requires tx == None
      modifies this
      ensures tx == None && SameElsewhere(old(rows), rows, piece)
      ensures ok <==> layer != [] && beginOk && endOk && forall i | 0 <= i < |layer| :: execOk(i)
      ensures rows == if ok then PutAll(old(rows), piece, layer, |layer|) else old(rows)
    {
      if layer == [] {
        return false;
      }
      var begun := Begin(beginOk);
      if !begun {
        return false;
      }
      PutStaysInPiece(rows, piece, layer, |layer|);
      var result, i := Commit, 0;
      while i < |layer| && result == Commit
        invariant i <= |layer| && rows == old(rows) && tx.Some?
        invariant result == Commit ==> tx.value == PutAll(rows, piece, layer, i) && forall j | 0 <= j < i :: execOk(j)
        invariant result == Commit || (result == Failed && i < |layer| && !execOk(i))
        decreases |layer| - i, if result == Commit then 1 else 0
      {
        if !execOk(i) {
          result := Failed;
        } else {
          tx := Some(tx.value[Key(piece, layer[i].layer, layer[i].index) := layer[i].hash]);
          i := i + 1;
        }
      }
      var failed;
      ok, failed := End(result, endOk || result == Failed);
    }

    /**
     GetPDPLayer on the answer of its query; `scanOk(i)` and `rowsOk` are whether reading row i and
     the whole succeed.
     */
    method GetPDPLayer(piece: string, layer: int, answer: seq<(int, string)>, scanOk: nat -> bool, rowsOk: bool)
      returns (r: Result<seq<Node>>)
      requires LayerQuery(rows, piece, layer, answer)
      ensures r.Ok? ==> IsLayer(rows, piece, layer, r.value)
      ensures r.Ok? <==> rowsOk && (forall i | 0 <= i < |answer| :: scanOk(i) && |answer[i].1| == 32)
    {
      var out: seq<Node> := [];
      for i := 0 to |answer|
        invariant |out| == i && forall j | 0 <= j < i ::
                  scanOk(j) && |answer[j].1| == 32 && out[j] == Node(layer, answer[j].0, answer[j].1)
      {
        if !scanOk(i) || |answer[i].1| != 32 {
          return Err;
        }
        out := out + [Node(layer, answer[i].0, answer[i].1)];
      }
      if !rowsOk {
        return Err;
      }
      forall key | key in rows && key.piece == piece && key.layer == layer
        ensures exists i | 0 <= i < |out| :: out[i].index == key.leaf
      {
        var i :| 0 <= i < |answer| && answer[i].0 == key.leaf;
        assert out[i].index == key.leaf;
      }
      r := Ok(out);
    }

    /** GetPDPLayerIndex: the layer of whichever row LIMIT 1 yields. */
    method GetPDPLayerIndex(piece: string, row: Option<Key>) returns (has: bool, layer: int)
      requires match row
               case None => forall key | key in rows :: key.piece != piece
               case Some(key) => key in rows && key.piece == piece
      ensures has <==> exists key | key in rows :: key.piece == piece
      ensures has ==> exists key | key in rows :: key.piece == piece && key.layer == layer
    {
      match row
      case None => has, layer := false, 0;
      case Some(key) => has, layer := true, key.layer;
    }

    method RemoveIndexes(piece: string, ok: bool) returns (done: bool)
      modifies this`rows
      ensures done == ok && SameElsewhere(old(rows), rows, piece)
      ensures if ok then forall key | key in rows :: key.piece != piece else rows == old(rows)
    {
      if ok {
        rows := map key | key in rows && key.piece != piece :: rows[key];
      }
      done := ok;
    }
  }

  // ---- Reading back -------------------------------------------------------------------

  lemma {:induction false} SameIndices(a: seq<Node>, b: seq<Node>)
    requires forall i, j | 0 <= i < j < |a| :: a[i].index < a[j].index
    requires forall i, j | 0 <= i < j < |b| :: b[i].index < b[j].index
    requires (forall n | n in a :: n in b) && (forall n | n in b :: n in a)
    ensures a == b
  {
    assert b != [] ==> a != [] by {
      if b != [] {
        assert b[0] in b && b[0] in a;
      }
    }
    if a != [] {
      assert a[0] in b && a[|a| - 1] in b;
      var x, y := a[|a| - 1], b[|b| - 1];
      assert y in b && y in a && x in b;
      assert x.index <= y.index && y.index <= x.index;
      assert x == y;
      var a0, b0 := a[..|a| - 1], b[..|b| - 1];
      assert a == a0 + [x] && b == b0 + [y];
      forall n | n in a0 ensures n in b0 {
        assert n in b && n.index < x.index;
      }
      forall n | n in b0 ensures n in a0 {
        assert n in a && n.index < y.index;
      }
      SameIndices(a0, b0);
    }
  }

  /** A layer written in ascending order to a piece that had no such layer reads back as it was. */
  lemma AddedLayerReadsBack(t: Table, piece: string, layer: int, nodes: seq<Node>, out: seq<Node>)
    requires forall key | key in t :: key.piece != piece || key.layer != layer
    requires forall i | 0 <= i < |nodes| :: nodes[i].layer == layer
    requires forall i, j | 0 <= i < j < |nodes| :: nodes[i].index < nodes[j].index
    requires IsLayer(PutAll(t, piece, nodes, |nodes|), piece, layer, out)
    ensures out == nodes
  {
    var after := PutAll(t, piece, nodes, |nodes|);
    forall i | 0 <= i < |nodes|
      ensures NodeAt(after, piece, layer, nodes[i].index) == Ok(Some(nodes[i])) && nodes[i] in out
    {
      assert IsLast(piece, nodes, |nodes|, i);
      LastWriteWins(t, piece, nodes, |nodes|, i);
      var key := KeyOf(piece, nodes[i]);
      var j :| 0 <= j < |out| && out[j].index == key.leaf;
    }
    forall j | 0 <= j < |out| ensures out[j] in nodes {
      var key := Key(piece, layer, out[j].index);
      assert key in after;
      OtherKeysKept(t, piece, nodes, |nodes|, key);
      var i :| 0 <= i < |nodes| && KeyOf(piece, nodes[i]) == key;
    }
    SameIndices(out, nodes);
  }
}

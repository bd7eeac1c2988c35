/**
 The two tables behind a parked piece (parked_pieces, parked_piece_refs), the stash
 directory, and the queries that ParkComplete, the sweep and ReadPiece put to them.
 */
module PieceStore {
  import opened Text
  import opened StashPaths

  /** A parked_pieces row. `missingAt` is integrity_missing_at; `cid` is the decoded piece_cid, when it decodes. */
  datatype Piece = Piece(complete: bool, longTerm: bool, missingAt: Option<int>, rawSize: int, cid: Option<int>)

  /** A parked_piece_refs row. */
  datatype Ref = Ref(pieceId: int, url: string)

  datatype File = File(mtime: int, size: nat, isDir: bool)

  /** Rows by primary key, files by full path. */
  datatype Store = Store(pieces: map<int, Piece>, refs: map<int, Ref>, files: map<string, File>)

  /** `data_url LIKE 'custore://%'`: SQLite compares ASCII letters without case. */
  predicate LikeCustore(url: string) {
    |url| >= 10 && LowerAll(url[..10]) == "custore://"
  }

  /** A result row of a join of the two tables. The queries do not select ref_id; it tells rows apart here. */
  datatype Row = Row(refId: int, pieceId: int, url: string)

  predicate IsJoined(st: Store, row: Row) {
    row.refId in st.refs && st.refs[row.refId] == Ref(row.pieceId, row.url)
  }

  // ---- ParkComplete's candidates ------------------------------------------------------

  predicate Waiting(st: Store, id: int) {
    id in st.pieces && !st.pieces[id].complete && st.pieces[id].longTerm
  }

  predicate IsCandidate(st: Store, row: Row) {
    IsJoined(st, row) && Waiting(st, row.pieceId) && LikeCustore(row.url)
  }

  /** What `SELECT ... ORDER BY pp.id ASC LIMIT limit` may answer. */
  ghost predicate CandidateQuery(st: Store, limit: nat, rows: seq<Row>) {
    && |rows| <= limit
    && (forall i | 0 <= i < |rows| :: IsCandidate(st, rows[i]))
    && (forall i, j | 0 <= i < j < |rows| :: rows[i].pieceId <= rows[j].pieceId && rows[i] != rows[j])
    && (forall row: Row | IsCandidate(st, row) && row !in rows ::
          |rows| == limit && forall i | 0 <= i < |rows| :: rows[i].pieceId <= row.pieceId)
  }

  /** `UPDATE parked_pieces SET complete = 1 WHERE id = ? AND complete = 0`. */
  function SetComplete(st: Store, id: int): Store {
    if id in st.pieces then st.(pieces := st.pieces[id := st.pieces[id].(complete := true)]) else st
  }

  /** The path ParkComplete finds for a candidate, if its URL resolves and the file can be stat-ed. */
  function Located(st: Store, resolve: string -> Option<string>, url: string): Option<string> {
    match resolve(url)
    case None => None
    case Some(path) => if path in st.files then Some(path) else None
  }

  // ---- The sweep's queries ------------------------------------------------------------

  /** Every path some custore ref resolves to. */
  ghost function ReferencedPaths(st: Store, resolve: string -> Option<string>): set<string> {
    set k | k in st.refs && LikeCustore(st.refs[k].url) && resolve(st.refs[k].url).Some? ::
      resolve(st.refs[k].url).value
  }

  /** A row of the integrity query: one custore ref of a complete piece. */
  predicate IsCompleteRow(st: Store, row: Row) {
    && IsJoined(st, row) && LikeCustore(row.url)
    && row.pieceId in st.pieces && st.pieces[row.pieceId].complete
  }

  /** `UPDATE parked_pieces SET integrity_missing_at = ? WHERE id = ?` (guarded by the old value). */
  function SetMissing(st: Store, id: int, missingAt: Option<int>): Store {
    if id in st.pieces then st.(pieces := st.pieces[id := st.pieces[id].(missingAt := missingAt)]) else st
  }

  /** The flag a checked piece ends up with: an existing stamp is kept, a healed one cleared. */
  function FlagAfter(missing: bool, flag: Option<int>, now: int): Option<int> {
    if !missing then None else if flag.Some? then flag else Some(now)
  }

  /** gcPass on one directory entry: is it an orphan old enough to be reclaimed? */
  predicate Reclaimable(referenced: set<string>, cutoff: int, path: string, name: string, info: File) {
    && !info.isDir && HasSuffix(name, ".tmp")
    && path !in referenced
    && info.mtime <= cutoff
  }

  // ---- ReadPiece ----------------------------------------------------------------------

  datatype ReadError = NoRow | NotComplete | NoRef | SizeMismatch | BadCid | CidMismatch | BadUrl | OpenFailed

  datatype ReadResult = Opened(path: string) | Failed(error: ReadError)

  /** The URL of the piece's lowest ref id, as the correlated subquery answers it. */
  ghost predicate FirstUrl(st: Store, id: int, url: Option<string>) {
    match url
    case None => forall k | k in st.refs :: st.refs[k].pieceId != id
    case Some(u) =>
      exists k | k in st.refs ::
        && st.refs[k] == Ref(id, u)
        && forall j | j in st.refs && st.refs[j].pieceId == id :: k <= j
  }

  /**
   ReadPiece: look up, validate, resolve, open. `st` is what the SELECT sees, `files` the directory
   when the file is opened; `size == 0` and `cid == None` ask for no check.
   */
  function ReadPiece(st: Store, files: map<string, File>, resolve: string -> Option<string>,
                     id: int, size: int, cid: Option<int>, firstUrl: Option<string>): ReadResult {
    if id !in st.pieces || firstUrl.None? then Failed(NoRow)
    else
      var piece := st.pieces[id];
      if !piece.complete then Failed(NotComplete)
      else if firstUrl.value == "" then Failed(NoRef)
      else if size != 0 && size != piece.rawSize then Failed(SizeMismatch)
      else if cid.Some? && piece.cid.None? then Failed(BadCid)
      else if cid.Some? && piece.cid != cid then Failed(CidMismatch)
      else
        match resolve(firstUrl.value)
        case None => Failed(BadUrl)
        case Some(path) => if path in files then Opened(path) else Failed(OpenFailed)
  }

  // ---- Names --------------------------------------------------------------------------

  /**
   What the tables and the directory need to know of names: the path and the URL of an upload,
   the path gcPass builds for a listed name, and the resolver.
   */
  datatype Names = Names(
    pathOf: string -> string,
    urlOf: string -> string,
    entry: string -> string,
    resolve: string -> Option<string>)
  {
    ghost predicate Distinct() {
      forall a, b | IsUuid(a) && IsUuid(b) && pathOf(a) == pathOf(b) :: a == b
    }

    ghost predicate Valid() {
      && Distinct()
      && (forall id | IsUuid(id) :: resolve(urlOf(id)) == Some(pathOf(id)))
      && (forall id | IsUuid(id) :: LikeCustore(urlOf(id)) && entry(FileName(id)) == pathOf(id))
      && (forall id, n | IsUuid(id) && IsName(n) && pathOf(id) == entry(n) :: n == FileName(id))
    }
  }

  /** The names of a stash directory. */
  function NamesIn(env: Env): Names {
    Names(id => StashPath(env.dir, id), id => CustoreUrl(env.dir, id),
          name => JoinPath(env.dir, name), url => Resolve(url, env))
  }

  /** The URL of a stash file passes the query's scheme filter. */
  lemma CustoreUrlIsLike(dir: string, id: string)
    ensures LikeCustore(CustoreUrl(dir, id))
  {
    var url := CustoreUrl(dir, id);
    assert url[..10] == "custore://";
    var prefix := url[..10];
    assert forall i | 0 <= i < 10 :: Lower(prefix[i]) == prefix[i];
    assert LowerAll(prefix) == prefix;
  }

  /** An absolute stash directory has names that can be relied on. */
  lemma NamesInAreValid(env: Env)
    requires Rooted(env.dir) && IsBytes(env.dir) && Rooted(env.cwd)
    ensures NamesIn(env).Valid()
  {
    var names := NamesIn(env);
    forall id | IsUuid(id)
      ensures names.resolve(names.urlOf(id)) == Some(names.pathOf(id))
      ensures LikeCustore(names.urlOf(id)) && names.entry(FileName(id)) == names.pathOf(id)
    {
      AbsoluteDirRoundTrips(id, env);
      CustoreUrlIsLike(env.dir, id);
    }
    forall id, n | IsUuid(id) && IsName(n) && names.pathOf(id) == names.entry(n) ensures n == FileName(id) {
      UuidName(id);
      PathsAreDistinct(env.dir, FileName(id), n);
    }
    forall a, b | IsUuid(a) && IsUuid(b) && names.pathOf(a) == names.pathOf(b) ensures a == b {
      UuidName(a);
      UuidName(b);
      PathsAreDistinct(env.dir, FileName(a), FileName(b));
      assert FileName(a)[..|FileName(a)| - 4] == a && FileName(b)[..|FileName(b)| - 4] == b;
    }
  }
}

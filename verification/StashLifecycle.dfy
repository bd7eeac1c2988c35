/**
 The life of a piece file as a timed step machine. The uploader, the finalizer that inserts
 refs, ParkComplete and the sweep run concurrently on one pair of tables and one directory;
 a step is one database statement, one system call, or time passing, and any order of steps
 that the processes allow is a run.
 */
module StashLifecycle {
  import opened Text
  import opened StashPaths
  import opened PieceStore

  /**
   `maxRefAge`: how old an upload may be when its first ref is inserted.
   `maxLag`: how long after the ref snapshot gcPass takes its cutoff.
   */
  datatype Config = Config(names: Names, retention: nat, gcEnabled: bool, maxRefAge: nat, maxLag: nat)

  datatype Phase = Writing | Stored | Discarded
  datatype Stash = Stash(phase: Phase, born: int)

  /** The sweep task between two of its steps; `stat` is whether the file of the row at hand was found missing. */
  datatype Sweep =
    | Idle
    | Fetched(referenced: set<string>, at: int)
    | Checking(referenced: set<string>, at: int, rows: seq<Row>, stat: Option<bool>)
    | Collecting(referenced: set<string>, at: int, cutoff: int, todo: set<string>, doomed: Option<string>)

  /** `home`, `everPieces`, `collected` record history: each ref's upload, the piece ids used, the paths reclaimed. */
  datatype State = State(
    now: int,
    store: Store,
    uploads: map<string, Stash>,
    home: map<int, string>,
    everPieces: set<int>,
    queue: seq<Row>,
    checked: Option<Row>,
    sweep: Sweep,
    collected: set<string>)

  /** diskstash: `Discard` is writeFunc failing, or StashRemove. */
  datatype UploadStep = Create | Write(bytes: nat) | Finish | Discard

  /** The finalizer and everything else that edits the tables; refs go with their piece, ON DELETE CASCADE. */
  datatype TableStep =
    | InsertPiece(pieceId: int, longTerm: bool, rawSize: int, cid: Option<int>)
    | InsertRef(refId: int, pieceId: int, id: string)
    | InsertForeignRef(refId: int, pieceId: int, url: string)
    | DeleteRef(refId: int)
    | ForeignComplete(pieceId: int)
    | DeletePiece(pieceId: int)

  datatype ParkStep = Select(rows: seq<Row>) | Stat | Flip | Stop

  datatype SweepStep =
    | Snapshot | List(rows: seq<Row>) | Check | Flag
    | ReadDir(names: set<string>) | Inspect(name: string) | Remove | Quit

  datatype Step =
    | Wait(dt: nat) | Upload(id: string, u: UploadStep) | Table(t: TableStep) | Park(p: ParkStep)
    | Sweeping(w: SweepStep)

  predicate Initial(s: State) {
    && s.store.pieces == map[] && s.store.refs == map[] && s.uploads == map[] && s.home == map[]
    && s.everPieces == {} && s.queue == [] && s.checked == None && s.sweep == Idle && s.collected == {}
  }

  /** A fresh UUID: no upload, no file and nothing the sweep still holds has this name. */
  predicate Fresh(cfg: Config, s: State, id: string) {
    && IsUuid(id) && id !in s.uploads
    && cfg.names.pathOf(id) !in s.store.files && cfg.names.pathOf(id) !in s.collected
    && (s.sweep.Collecting? ==> s.sweep.doomed != Some(FileName(id)))
  }

  /** Some ref names this upload. */
  predicate Named(home: map<int, string>, id: string) {
    exists k | k in home :: home[k] == id
  }

  /** May a ref to this upload be inserted now? A piece may get refs to any number of uploads. */
  predicate RefAllowed(cfg: Config, s: State, id: string) {
    && id in s.uploads && s.uploads[id].phase == Stored
    && (s.now - s.uploads[id].born <= cfg.maxRefAge || Named(s.home, id))
  }

  predicate UploadEnabled(cfg: Config, s: State, id: string, u: UploadStep) {
    match u
    case Create => Fresh(cfg, s, id)
    case Write(_) => id in s.uploads && s.uploads[id].phase == Writing
    case Finish => id in s.uploads && s.uploads[id].phase == Writing
    case Discard => id in s.uploads && !Named(s.home, id)
  }

  predicate TableEnabled(cfg: Config, s: State, t: TableStep) {
    match t
    case InsertPiece(pieceId, _, _, _) => pieceId !in s.everPieces
    case InsertRef(refId, pieceId, id) =>
      refId !in s.store.refs && pieceId in s.store.pieces && RefAllowed(cfg, s, id)
    case InsertForeignRef(refId, pieceId, url) =>
      refId !in s.store.refs && pieceId in s.store.pieces && !LikeCustore(url)
    case DeleteRef(refId) => refId in s.store.refs
    case ForeignComplete(pieceId) => pieceId in s.store.pieces
    case DeletePiece(pieceId) => pieceId in s.store.pieces
  }

  ghost predicate ParkEnabled(s: State, p: ParkStep) {
    match p
    case Select(rows) => s.queue == [] && s.checked == None && CandidateQuery(s.store, 32, rows)
    case Stat => s.queue != [] && s.checked == None
    case Flip => s.checked.Some?
    case Stop => true
  }

  predicate SweepEnabled(cfg: Config, s: State, w: SweepStep) {
    match w
    case Snapshot => s.sweep == Idle
    case List(rows) => s.sweep.Fetched? && forall i | 0 <= i < |rows| :: IsCompleteRow(s.store, rows[i])
    case Check => s.sweep.Checking? && s.sweep.rows != [] && s.sweep.stat == None
    case Flag => s.sweep.Checking? && s.sweep.rows != [] && s.sweep.stat.Some?
    case ReadDir(names) =>
      && s.sweep.Checking? && s.sweep.rows == [] && s.now - s.sweep.at <= cfg.maxLag
      && forall n | n in names :: IsName(n)
    case Inspect(name) => s.sweep.Collecting? && s.sweep.doomed == None && name in s.sweep.todo
    case Remove => s.sweep.Collecting? && s.sweep.doomed.Some?
    case Quit => true
  }

  ghost predicate Enabled(cfg: Config, s: State, step: Step) {
    match step
    case Wait(_) => true
    case Upload(id, u) => UploadEnabled(cfg, s, id, u)
    case Table(t) => TableEnabled(cfg, s, t)
    case Park(p) => ParkEnabled(s, p)
    case Sweeping(w) => SweepEnabled(cfg, s, w)
  }

  function WithFile(s: State, path: string, f: File): State {
    s.(store := s.store.(files := s.store.files[path := f]))
  }

  function WithoutFile(s: State, path: string): State {
    s.(store := s.store.(files := s.store.files - {path}))
  }

  /** ParkComplete's stat of the next candidate: kept for the flip, or skipped. */
  function StatNext(cfg: Config, s: State): State
    requires s.queue != []
  {
    var row := s.queue[0];
    s.(queue := s.queue[1..],
       checked := if Located(s.store, cfg.names.resolve, row.url).Some? then Some(row) else None)
  }

  /** integrityPass stats its next row's file, or skips a bad URL. */
  function CheckNext(cfg: Config, s: State): State
    requires s.sweep.Checking? && s.sweep.rows != []
  {
    match cfg.names.resolve(s.sweep.rows[0].url)
    case None => s.(sweep := s.sweep.(rows := s.sweep.rows[1..]))
    case Some(path) => s.(sweep := s.sweep.(stat := Some(path !in s.store.files)))
  }

  /** Then it writes the flag, if it has to change. */
  function FlagNext(s: State): State
    requires s.sweep.Checking? && s.sweep.rows != [] && s.sweep.stat.Some?
  {
    var id := s.sweep.rows[0].pieceId;
    var flag := if id in s.store.pieces then s.store.pieces[id].missingAt else None;
    s.(store := SetMissing(s.store, id, FlagAfter(s.sweep.stat.value, flag, s.now)),
       sweep := s.sweep.(rows := s.sweep.rows[1..], stat := None))
  }

  /** gcPass on one listed name: remembered for removal, or passed over. */
  function InspectName(cfg: Config, s: State, name: string): State
    requires s.sweep.Collecting?
  {
    var path := cfg.names.entry(name);
    var doom := path in s.store.files && cfg.gcEnabled &&
                Reclaimable(s.sweep.referenced, s.sweep.cutoff, path, name, s.store.files[path]);
    s.(sweep := s.sweep.(todo := s.sweep.todo - {name}, doomed := if doom then Some(name) else None))
  }

  /** A candidate is kept for the flip exactly when its URL resolves to a file that is there. */
  lemma StatDecides(cfg: Config, s: State)
    requires s.queue != []
    ensures var (row, t) := (s.queue[0], StatNext(cfg, s));
            && t == s.(queue := s.queue[1..], checked := t.checked)
            && (t.checked == Some(row) <==>
                  cfg.names.resolve(row.url).Some? && cfg.names.resolve(row.url).value in s.store.files)
            && (t.checked == Some(row) || t.checked == None)
  {}

  /** A row of the integrity pass is skipped when its URL does not resolve; otherwise its file is looked for. */
  lemma CheckLooks(cfg: Config, s: State)
    requires SweepEnabled(cfg, s, Check)
    ensures var (row, t) := (s.sweep.rows[0], CheckNext(cfg, s));
            && t == s.(sweep := t.sweep) && t.sweep.Checking?
            && t.sweep == s.sweep.(rows := t.sweep.rows, stat := t.sweep.stat)
            && match cfg.names.resolve(row.url)
               case None => t.sweep.rows == s.sweep.rows[1..] && t.sweep.stat == None
               case Some(path) => t.sweep.rows == s.sweep.rows && t.sweep.stat == Some(path !in s.store.files)
  {}

  /** What a listed name has to be for its file to be removed next. */
  lemma DoomedIff(cfg: Config, s: State, name: string)
    requires SweepEnabled(cfg, s, Inspect(name))
    ensures var (path, files) := (cfg.names.entry(name), s.store.files);
            InspectName(cfg, s, name).sweep.doomed == Some(name) <==>
              && cfg.gcEnabled && path in files && !files[path].isDir && files[path].mtime <= s.sweep.cutoff
              && path !in s.sweep.referenced && |name| >= 4 && name[|name| - 4..] == ".tmp"
  {}

  /** What the integrity pass leaves in the row of a piece that exists. */
  lemma FlagFollowsStat(cfg: Config, s: State)
    requires SweepEnabled(cfg, s, Flag) && s.sweep.rows[0].pieceId in s.store.pieces
    ensures var p := s.sweep.rows[0].pieceId;
            var (was, row) := (s.store.pieces[p], FlagNext(s).store.pieces[p]);
            && row == was.(missingAt := row.missingAt)
            && (row.missingAt.Some? <==> s.sweep.stat == Some(true))
            && (row.missingAt.Some? ==> row.missingAt == if was.missingAt.Some? then was.missingAt else Some(s.now))
  {}

  function RemoveDoomed(cfg: Config, s: State): State
    requires s.sweep.Collecting? && s.sweep.doomed.Some?
  {
    var path := cfg.names.entry(s.sweep.doomed.value);
    WithoutFile(s, path).(sweep := s.sweep.(doomed := None), collected := s.collected + {path})
  }

  function Created(cfg: Config, s: State, id: string): State {
    WithFile(s, cfg.names.pathOf(id), File(s.now, 0, false)).(uploads := s.uploads[id := Stash(Writing, s.now)])
  }

  function Written(cfg: Config, s: State, id: string, bytes: nat): State {
    var path := cfg.names.pathOf(id);
    if path in s.store.files then WithFile(s, path, File(s.now, s.store.files[path].size + bytes, false)) else s
  }

  function InPhase(s: State, id: string, phase: Phase): State
    requires id in s.uploads
  {
    s.(uploads := s.uploads[id := s.uploads[id].(phase := phase)])
  }

  function RefInserted(cfg: Config, s: State, refId: int, pieceId: int, id: string): State {
    s.(store := s.store.(refs := s.store.refs[refId := Ref(pieceId, cfg.names.urlOf(id))]),
       home := s.home[refId := id])
  }

  function WithoutRefs(s: State, gone: set<int>): State {
    s.(store := s.store.(refs := s.store.refs - gone), home := s.home - gone)
  }

  function RefsOf(st: Store, pieceId: int): set<int> {
    set k | k in st.refs && st.refs[k].pieceId == pieceId
  }

  function PieceDeleted(s: State, pieceId: int): State {
    var t := WithoutRefs(s, RefsOf(s.store, pieceId));
    t.(store := t.store.(pieces := t.store.pieces - {pieceId}))
  }

  function ApplyUpload(cfg: Config, s: State, id: string, u: UploadStep): State
    requires UploadEnabled(cfg, s, id, u)
  {
    match u
    case Create => Created(cfg, s, id)
    case Write(bytes) => Written(cfg, s, id, bytes)
    case Finish => InPhase(s, id, Stored)
    case Discard => InPhase(WithoutFile(s, cfg.names.pathOf(id)), id, Discarded)
  }

  function ApplyTable(cfg: Config, s: State, t: TableStep): State
    requires TableEnabled(cfg, s, t)
  {
    match t
    case InsertPiece(pieceId, longTerm, rawSize, cid) =>
      s.(store := s.store.(pieces := s.store.pieces[pieceId := Piece(false, longTerm, None, rawSize, cid)]),
         everPieces := s.everPieces + {pieceId})
    case InsertRef(refId, pieceId, id) => RefInserted(cfg, s, refId, pieceId, id)
    case InsertForeignRef(refId, pieceId, url) =>
      s.(store := s.store.(refs := s.store.refs[refId := Ref(pieceId, url)]))
    case DeleteRef(refId) => WithoutRefs(s, {refId})
    case ForeignComplete(pieceId) => s.(store := SetComplete(s.store, pieceId))
    case DeletePiece(pieceId) => PieceDeleted(s, pieceId)
  }

  ghost function ApplyPark(cfg: Config, s: State, p: ParkStep): State
    requires ParkEnabled(s, p)
  {
    match p
    case Select(rows) => s.(queue := rows)
    case Stat => StatNext(cfg, s)
    case Flip => s.(store := SetComplete(s.store, s.checked.value.pieceId), checked := None)
    case Stop => s.(queue := [], checked := None)
  }

  ghost function ApplySweep(cfg: Config, s: State, w: SweepStep): State
    requires SweepEnabled(cfg, s, w)
  {
    match w
    case Snapshot => s.(sweep := Fetched(ReferencedPaths(s.store, cfg.names.resolve), s.now))
    case List(rows) => s.(sweep := Checking(s.sweep.referenced, s.sweep.at, rows, None))
    case Check => CheckNext(cfg, s)
    case Flag => FlagNext(s)
    case ReadDir(names) =>
      s.(sweep := Collecting(s.sweep.referenced, s.sweep.at, s.now - cfg.retention, names, None))
    case Inspect(name) => InspectName(cfg, s, name)
    case Remove => RemoveDoomed(cfg, s)
    case Quit => s.(sweep := Idle)
  }

  ghost function Apply(cfg: Config, s: State, step: Step): State
    requires Enabled(cfg, s, step)
  {
    match step
    case Wait(dt) => s.(now := s.now + dt)
    case Upload(id, u) => ApplyUpload(cfg, s, id, u)
    case Table(t) => ApplyTable(cfg, s, t)
    case Park(p) => ApplyPark(cfg, s, p)
    case Sweeping(w) => ApplySweep(cfg, s, w)
  }

  ghost predicate Legal(cfg: Config, s: State, steps: seq<Step>)
    decreases |steps|
  {
    steps != [] ==> Enabled(cfg, s, steps[0]) && Legal(cfg, Apply(cfg, s, steps[0]), steps[1..])
  }

  ghost function Run(cfg: Config, s: State, steps: seq<Step>): State
    requires Legal(cfg, s, steps)
    decreases |steps|
  {
    if steps == [] then s else Run(cfg, Apply(cfg, s, steps[0]), steps[1..])
  }

  // ---- The invariant ------------------------------------------------------------------

  /** Rows and history agree; every ref with a custore URL has its upload stored and on disk. */
  ghost predicate TablesInv(cfg: Config, s: State) {
    && s.home.Keys <= s.store.refs.Keys && s.store.pieces.Keys <= s.everPieces
    && (forall k | k in s.store.refs :: s.store.refs[k].pieceId in s.store.pieces)
    && (forall k | k in s.home :: s.store.refs[k].url == cfg.names.urlOf(s.home[k]))
    && (forall k | k in s.store.refs && k !in s.home :: !LikeCustore(s.store.refs[k].url))
    && (forall k | k in s.home :: s.home[k] in s.uploads && s.uploads[s.home[k]].phase == Stored)
    && (forall k | k in s.home :: cfg.names.pathOf(s.home[k]) in s.store.files)
  }

  ghost predicate FilesInv(cfg: Config, s: State) {
    && (forall id | id in s.uploads :: IsUuid(id) && s.uploads[id].born <= s.now)
    && (forall id | id in s.uploads && cfg.names.pathOf(id) in s.store.files ::
          s.store.files[cfg.names.pathOf(id)].mtime >= s.uploads[id].born)
    && (forall id | id in s.uploads && s.uploads[id].phase != Discarded ::
          cfg.names.pathOf(id) in s.store.files || cfg.names.pathOf(id) in s.collected)
  }

  /** ParkComplete or the integrity pass still holds this row of an earlier answer. */
  predicate Holds(s: State, row: Row) {
    row in s.queue || s.checked == Some(row) || (s.sweep.Checking? && row in s.sweep.rows)
  }

  ghost predicate RowsInv(s: State) {
    forall row | Holds(s, row) :: LikeCustore(row.url) && row.pieceId in s.everPieces
  }

  /** Whatever a ref names was in the sweep's snapshot, or is too young for the sweep. */
  ghost predicate SweepInv(cfg: Config, s: State) {
    && (s.sweep != Idle ==>
          && s.sweep.at <= s.now
          && forall k | k in s.home && s.home[k] in s.uploads ::
               || cfg.names.pathOf(s.home[k]) in s.sweep.referenced
               || s.uploads[s.home[k]].born + cfg.maxRefAge >= s.sweep.at)
    && (s.sweep.Collecting? ==>
          && s.sweep.cutoff + cfg.retention <= s.sweep.at + cfg.maxLag
          && (forall n | n in s.sweep.todo :: IsName(n)))
    && (s.sweep.Collecting? && s.sweep.doomed.Some? ==> DoomInv(cfg, s, s.sweep.doomed.value))
  }

  ghost predicate DoomInv(cfg: Config, s: State, name: string)
    requires s.sweep.Collecting?
  {
    && cfg.gcEnabled && IsName(name)
    && cfg.names.entry(name) !in s.sweep.referenced
    && (forall id | id in s.uploads && FileName(id) == name :: s.uploads[id].born <= s.sweep.cutoff)
  }

  /** What was reclaimed can no longer be given a first ref, and has none. */
  ghost predicate CollectedInv(cfg: Config, s: State) {
    && (forall id | id in s.uploads && cfg.names.pathOf(id) in s.collected ::
          s.uploads[id].born + cfg.maxRefAge < s.now && !Named(s.home, id))
    && (!cfg.gcEnabled ==> s.collected == {})
  }

  /** What keeps the files of refs safe, whatever rows the processes hold. */
  ghost predicate Core(cfg: Config, s: State) {
    TablesInv(cfg, s) && FilesInv(cfg, s) && SweepInv(cfg, s) && CollectedInv(cfg, s)
  }

  ghost predicate Inv(cfg: Config, s: State) {
    Core(cfg, s) && RowsInv(s)
  }

  /** The timing hypothesis under which garbage collection is safe. */
  predicate Timely(cfg: Config) {
    cfg.gcEnabled ==> cfg.maxRefAge + cfg.maxLag < cfg.retention
  }

  lemma InitialInv(cfg: Config, s: State)
    requires Initial(s)
    ensures Inv(cfg, s)
  {}

  // ---- Each step keeps it -------------------------------------------------------------

  /** A change to files, uploads and the reclaimed paths that keeps every named file keeps the invariant. */
  lemma FilesOnly(cfg: Config, s: State, t: State)
    requires Core(cfg, s)
    requires t == s.(store := s.store.(files := t.store.files), uploads := t.uploads, collected := t.collected)
    requires forall id | id in s.uploads :: id in t.uploads && t.uploads[id].born == s.uploads[id].born
    requires forall k | k in s.home ::
               t.uploads[s.home[k]].phase == Stored && cfg.names.pathOf(s.home[k]) in t.store.files
    requires forall id | id in t.uploads && id !in s.uploads ::
               s.sweep.Collecting? ==> s.sweep.doomed != Some(FileName(id))
    requires FilesInv(cfg, t) && CollectedInv(cfg, t)
    ensures Core(cfg, t)
  {
  }

  lemma CreateSpares(cfg: Config, s: State, id: string, other: string)
    requires cfg.names.Distinct() && FilesInv(cfg, s) && Fresh(cfg, s, id) && other in s.uploads
    ensures other != id && cfg.names.pathOf(other) != cfg.names.pathOf(id)
  {
    assert IsUuid(other);
  }

  lemma CreateKeepsFiles(cfg: Config, s: State, id: string)
    requires cfg.names.Distinct() && FilesInv(cfg, s) && Fresh(cfg, s, id)
    ensures FilesInv(cfg, Created(cfg, s, id))
  {
    forall other | other in s.uploads ensures other != id && cfg.names.pathOf(other) != cfg.names.pathOf(id) {
      CreateSpares(cfg, s, id, other);
    }
  }

  lemma CreateKeepsCollected(cfg: Config, s: State, id: string)
    requires CollectedInv(cfg, s) && Fresh(cfg, s, id)
    ensures CollectedInv(cfg, Created(cfg, s, id))
  {}

  lemma CreateKeepsHomes(cfg: Config, s: State, id: string)
    requires cfg.names.Distinct() && TablesInv(cfg, s) && FilesInv(cfg, s) && Fresh(cfg, s, id)
    ensures var t := Created(cfg, s, id);
            forall k | k in s.home ::
              t.uploads[s.home[k]].phase == Stored && cfg.names.pathOf(s.home[k]) in t.store.files
  {
    forall k | k in s.home ensures s.home[k] != id && cfg.names.pathOf(s.home[k]) != cfg.names.pathOf(id) {
      CreateSpares(cfg, s, id, s.home[k]);
    }
  }

  lemma CreateKeeps(cfg: Config, s: State, id: string)
    requires cfg.names.Valid() && Core(cfg, s) && Fresh(cfg, s, id)
    ensures Core(cfg, Created(cfg, s, id))
  {
    CreateKeepsFiles(cfg, s, id);
    CreateKeepsCollected(cfg, s, id);
    CreateKeepsHomes(cfg, s, id);
    FilesOnly(cfg, s, Created(cfg, s, id));
  }

  lemma WriteKeepsFiles(cfg: Config, s: State, id: string, bytes: nat)
    requires cfg.names.Distinct() && FilesInv(cfg, s) && id in s.uploads
    ensures FilesInv(cfg, Written(cfg, s, id, bytes))
  {}

  lemma WriteKeeps(cfg: Config, s: State, id: string, bytes: nat)
    requires cfg.names.Valid() && Core(cfg, s) && id in s.uploads
    ensures Core(cfg, Written(cfg, s, id, bytes))
  {
    WriteKeepsFiles(cfg, s, id, bytes);
    assert CollectedInv(cfg, Written(cfg, s, id, bytes));
    FilesOnly(cfg, s, Written(cfg, s, id, bytes));
  }

  lemma FinishKeepsFiles(cfg: Config, s: State, id: string)
    requires FilesInv(cfg, s) && CollectedInv(cfg, s) && id in s.uploads && s.uploads[id].phase == Writing
    ensures FilesInv(cfg, InPhase(s, id, Stored)) && CollectedInv(cfg, InPhase(s, id, Stored))
  {}

  lemma FinishKeeps(cfg: Config, s: State, id: string)
    requires cfg.names.Valid() && Core(cfg, s) && id in s.uploads && s.uploads[id].phase == Writing
    ensures Core(cfg, InPhase(s, id, Stored))
  {
    FinishKeepsFiles(cfg, s, id);
    FilesOnly(cfg, s, InPhase(s, id, Stored));
  }

  lemma DiscardKeepsFiles(cfg: Config, s: State, id: string)
    requires cfg.names.Distinct() && FilesInv(cfg, s) && CollectedInv(cfg, s) && id in s.uploads
    ensures var t := InPhase(WithoutFile(s, cfg.names.pathOf(id)), id, Discarded);
            FilesInv(cfg, t) && CollectedInv(cfg, t)
  {}

  lemma DiscardKeeps(cfg: Config, s: State, id: string)
    requires cfg.names.Valid() && Core(cfg, s) && id in s.uploads && !Named(s.home, id)
    ensures Core(cfg, InPhase(WithoutFile(s, cfg.names.pathOf(id)), id, Discarded))
  {
    DiscardKeepsFiles(cfg, s, id);
    FilesOnly(cfg, s, InPhase(WithoutFile(s, cfg.names.pathOf(id)), id, Discarded));
  }

  lemma UploadKeeps(cfg: Config, s: State, id: string, u: UploadStep)
    requires cfg.names.Valid() && Core(cfg, s) && UploadEnabled(cfg, s, id, u)
    ensures Core(cfg, ApplyUpload(cfg, s, id, u))
  {
    match u
    case Create => CreateKeeps(cfg, s, id);
    case Write(bytes) => WriteKeeps(cfg, s, id, bytes);
    case Finish => FinishKeeps(cfg, s, id);
    case Discard => DiscardKeeps(cfg, s, id);
  }

  /** A reclaimed upload is past the age at which a first ref may be inserted, so an allowed one is on disk. */
  lemma AllowedIsOnDisk(cfg: Config, s: State, id: string)
    requires Core(cfg, s) && RefAllowed(cfg, s, id)
    ensures cfg.names.pathOf(id) in s.store.files && cfg.names.pathOf(id) !in s.collected
    ensures s.sweep != Idle ==>
              cfg.names.pathOf(id) in s.sweep.referenced || s.uploads[id].born + cfg.maxRefAge >= s.sweep.at
  {}

  lemma InsertRefKeepsTables(cfg: Config, s: State, refId: int, pieceId: int, id: string)
    requires TablesInv(cfg, s) && cfg.names.pathOf(id) in s.store.files
    requires refId !in s.store.refs && pieceId in s.store.pieces && RefAllowed(cfg, s, id)
    ensures TablesInv(cfg, RefInserted(cfg, s, refId, pieceId, id))
  {}

  lemma InsertRefKeepsCollected(cfg: Config, s: State, refId: int, pieceId: int, id: string)
    requires FilesInv(cfg, s) && CollectedInv(cfg, s) && cfg.names.pathOf(id) !in s.collected
    ensures FilesInv(cfg, RefInserted(cfg, s, refId, pieceId, id))
    ensures CollectedInv(cfg, RefInserted(cfg, s, refId, pieceId, id))
  {
    var t := RefInserted(cfg, s, refId, pieceId, id);
    assert forall i | i != id && Named(t.home, i) :: Named(s.home, i);
  }

  lemma InsertRefKeepsSweep(cfg: Config, s: State, refId: int, pieceId: int, id: string)
    requires SweepInv(cfg, s) && id in s.uploads
    requires s.sweep != Idle ==>
               cfg.names.pathOf(id) in s.sweep.referenced || s.uploads[id].born + cfg.maxRefAge >= s.sweep.at
    ensures SweepInv(cfg, RefInserted(cfg, s, refId, pieceId, id))
  {}

  lemma InsertRefKeeps(cfg: Config, s: State, refId: int, pieceId: int, id: string)
    requires Core(cfg, s) && refId !in s.store.refs && pieceId in s.store.pieces && RefAllowed(cfg, s, id)
    ensures Core(cfg, RefInserted(cfg, s, refId, pieceId, id))
  {
    AllowedIsOnDisk(cfg, s, id);
    InsertRefKeepsTables(cfg, s, refId, pieceId, id);
    InsertRefKeepsCollected(cfg, s, refId, pieceId, id);
    InsertRefKeepsSweep(cfg, s, refId, pieceId, id);
  }

  /** Refs may go at any time, one by one or with their piece. */
  lemma WithoutRefsKeeps(cfg: Config, s: State, gone: set<int>)
    requires Core(cfg, s)
    ensures Core(cfg, WithoutRefs(s, gone))
  {
    var t := WithoutRefs(s, gone);
    assert forall id | Named(t.home, id) :: Named(s.home, id);
    assert CollectedInv(cfg, t);
    assert TablesInv(cfg, t);
  }

  lemma DeletePieceKeeps(cfg: Config, s: State, pieceId: int)
    requires Core(cfg, s)
    ensures Core(cfg, PieceDeleted(s, pieceId))
  {
    WithoutRefsKeeps(cfg, s, RefsOf(s.store, pieceId));
    PiecesOnly(cfg, WithoutRefs(s, RefsOf(s.store, pieceId)), PieceDeleted(s, pieceId));
  }

  lemma InsertForeignRefKeeps(cfg: Config, s: State, refId: int, pieceId: int, url: string)
    requires Core(cfg, s) && refId !in s.store.refs && pieceId in s.store.pieces && !LikeCustore(url)
    ensures Core(cfg, s.(store := s.store.(refs := s.store.refs[refId := Ref(pieceId, url)])))
  {
    var t := s.(store := s.store.(refs := s.store.refs[refId := Ref(pieceId, url)]));
    assert TablesInv(cfg, t);
  }

  /** A change to the rows of parked_pieces that leaves no ref without its piece. */
  lemma PiecesOnly(cfg: Config, s: State, t: State)
    requires Core(cfg, s)
    requires t == s.(store := s.store.(pieces := t.store.pieces), everPieces := t.everPieces)
    requires t.store.pieces.Keys <= t.everPieces
    requires forall k | k in s.store.refs :: s.store.refs[k].pieceId in t.store.pieces
    ensures Core(cfg, t)
  {
    assert TablesInv(cfg, t);
  }

  lemma TableKeeps(cfg: Config, s: State, t: TableStep)
    requires Core(cfg, s) && TableEnabled(cfg, s, t)
    ensures Core(cfg, ApplyTable(cfg, s, t))
  {
    match t
    case InsertRef(refId, pieceId, id) => InsertRefKeeps(cfg, s, refId, pieceId, id);
    case DeletePiece(pieceId) => DeletePieceKeeps(cfg, s, pieceId);
    case DeleteRef(refId) => WithoutRefsKeeps(cfg, s, {refId});
    case InsertForeignRef(refId, pieceId, url) => InsertForeignRefKeeps(cfg, s, refId, pieceId, url);
    case InsertPiece(_, _, _, _) => PiecesOnly(cfg, s, ApplyTable(cfg, s, t));
    case ForeignComplete(_) => PiecesOnly(cfg, s, ApplyTable(cfg, s, t));
  }

  lemma ParkKeeps(cfg: Config, s: State, p: ParkStep)
    requires Core(cfg, s) && ParkEnabled(s, p)
    ensures Core(cfg, ApplyPark(cfg, s, p))
  {
    match p
    case Select(_) => QueueOnly(cfg, s, ApplyPark(cfg, s, p));
    case Stat => QueueOnly(cfg, s, StatNext(cfg, s));
    case Stop => QueueOnly(cfg, s, ApplyPark(cfg, s, p));
    case Flip =>
      var t := s.(store := SetComplete(s.store, s.checked.value.pieceId));
      PiecesOnly(cfg, s, t);
      QueueOnly(cfg, t, ApplyPark(cfg, s, p));
  }

  lemma QueueOnly(cfg: Config, s: State, t: State)
    requires Core(cfg, s) && t == s.(queue := t.queue, checked := t.checked)
    ensures Core(cfg, t)
  {
    assert TablesInv(cfg, t) && FilesInv(cfg, t);
  }

  /** The snapshot holds the path of every ref there is at that moment. */
  lemma SnapshotIsComplete(cfg: Config, s: State, k: int)
    requires cfg.names.Valid() && TablesInv(cfg, s) && FilesInv(cfg, s) && k in s.home
    ensures cfg.names.pathOf(s.home[k]) in ReferencedPaths(s.store, cfg.names.resolve)
  {
    assert cfg.names.resolve(s.store.refs[k].url) == Some(cfg.names.pathOf(s.home[k]));
  }

  lemma SnapshotKeeps(cfg: Config, s: State)
    requires cfg.names.Valid() && Core(cfg, s) && s.sweep == Idle
    ensures Core(cfg, s.(sweep := Fetched(ReferencedPaths(s.store, cfg.names.resolve), s.now)))
  {
    forall k | k in s.home ensures cfg.names.pathOf(s.home[k]) in ReferencedPaths(s.store, cfg.names.resolve) {
      SnapshotIsComplete(cfg, s, k);
    }
    SweepOnly(cfg, s, Fetched(ReferencedPaths(s.store, cfg.names.resolve), s.now));
  }

  /** Changing the sweep's own state leaves the rest alone. */
  lemma SweepOnly(cfg: Config, s: State, sweep: Sweep)
    requires Core(cfg, s) && SweepInv(cfg, s.(sweep := sweep))
    ensures Core(cfg, s.(sweep := sweep))
  {
    var t := s.(sweep := sweep);
    assert TablesInv(cfg, t) && FilesInv(cfg, t);
  }

  lemma CheckKeeps(cfg: Config, s: State)
    requires Core(cfg, s) && SweepEnabled(cfg, s, Check)
    ensures Core(cfg, CheckNext(cfg, s))
  {
    SweepOnly(cfg, s, CheckNext(cfg, s).sweep);
  }

  lemma FlagKeeps(cfg: Config, s: State)
    requires Core(cfg, s) && SweepEnabled(cfg, s, Flag)
    ensures Core(cfg, FlagNext(s))
  {
    var t := FlagNext(s);
    PiecesOnly(cfg, s, s.(store := t.store));
    SweepOnly(cfg, s.(store := t.store), t.sweep);
  }

  lemma InspectKeeps(cfg: Config, s: State, name: string)
    requires cfg.names.Valid() && Core(cfg, s) && SweepEnabled(cfg, s, Inspect(name))
    ensures Core(cfg, ApplySweep(cfg, s, Inspect(name)))
  {
    SweepOnly(cfg, s, ApplySweep(cfg, s, Inspect(name)).sweep);
  }

  /** Nothing a ref names is ever doomed, nor anything a first ref may still name: the heart of the matter. */
  lemma DoomedIsUnnamed(cfg: Config, s: State, id: string)
    requires cfg.names.Valid() && Timely(cfg) && Core(cfg, s) && s.sweep.Collecting? && s.sweep.doomed.Some?
    requires id in s.uploads && cfg.names.pathOf(id) == cfg.names.entry(s.sweep.doomed.value)
    ensures s.uploads[id].born + cfg.maxRefAge < s.now && !Named(s.home, id)
  {
    assert FileName(id) == s.sweep.doomed.value;
  }

  lemma ReclaimKeepsFiles(cfg: Config, s: State, path: string)
    requires FilesInv(cfg, s) && CollectedInv(cfg, s) && cfg.gcEnabled
    requires forall id | id in s.uploads && cfg.names.pathOf(id) == path ::
               s.uploads[id].born + cfg.maxRefAge < s.now && !Named(s.home, id)
    ensures var t := WithoutFile(s, path).(collected := s.collected + {path});
            FilesInv(cfg, t) && CollectedInv(cfg, t)
  {}

  lemma RemoveKeeps(cfg: Config, s: State)
    requires cfg.names.Valid() && Timely(cfg) && Core(cfg, s) && s.sweep.Collecting? && s.sweep.doomed.Some?
    ensures Core(cfg, RemoveDoomed(cfg, s))
  {
    var path := cfg.names.entry(s.sweep.doomed.value);
    forall id | id in s.uploads && cfg.names.pathOf(id) == path
      ensures s.uploads[id].born + cfg.maxRefAge < s.now && !Named(s.home, id)
    {
      DoomedIsUnnamed(cfg, s, id);
    }
    var u := s.(sweep := s.sweep.(doomed := None));
    SweepOnly(cfg, s, u.sweep);
    ReclaimKeepsFiles(cfg, u, path);
    assert RemoveDoomed(cfg, s) == WithoutFile(u, path).(collected := u.collected + {path});
    FilesOnly(cfg, u, RemoveDoomed(cfg, s));
  }

  lemma SweepKeeps(cfg: Config, s: State, w: SweepStep)
    requires cfg.names.Valid() && Timely(cfg) && Core(cfg, s) && SweepEnabled(cfg, s, w)
    ensures Core(cfg, ApplySweep(cfg, s, w))
  {
    match w
    case Snapshot => SnapshotKeeps(cfg, s);
    case List(rows) => SweepOnly(cfg, s, Checking(s.sweep.referenced, s.sweep.at, rows, None));
    case Check => CheckKeeps(cfg, s);
    case Flag => FlagKeeps(cfg, s);
    case Inspect(name) => InspectKeeps(cfg, s, name);
    case Remove => RemoveKeeps(cfg, s);
    case ReadDir(names) =>
      SweepOnly(cfg, s, Collecting(s.sweep.referenced, s.sweep.at, s.now - cfg.retention, names, None));
    case Quit => SweepOnly(cfg, s, Idle);
  }

  lemma WaitKeeps(cfg: Config, s: State, dt: nat)
    requires Core(cfg, s)
    ensures Core(cfg, s.(now := s.now + dt))
  {
    var t := s.(now := s.now + dt);
    assert TablesInv(cfg, t);
  }

  lemma CoreStep(cfg: Config, s: State, step: Step)
    requires cfg.names.Valid() && Timely(cfg) && Core(cfg, s) && Enabled(cfg, s, step)
    ensures Core(cfg, Apply(cfg, s, step))
  {
    match step
    case Wait(dt) => WaitKeeps(cfg, s, dt);
    case Upload(id, u) => UploadKeeps(cfg, s, id, u);
    case Table(t) => TableKeeps(cfg, s, t);
    case Park(p) => ParkKeeps(cfg, s, p);
    case Sweeping(w) => SweepKeeps(cfg, s, w);
  }

  // ---- Rows that are held -------------------------------------------------------------

  /** A row that an answer just brought: at that moment its ref is there, and the piece. */
  predicate Answered(st: Store, row: Row) {
    IsJoined(st, row) && LikeCustore(row.url) && row.pieceId in st.pieces
  }

  /** A row held after a step was held before, or is one of a SELECT's answer, which changes no table. */
  lemma HeldStep(cfg: Config, s: State, step: Step, row: Row)
    requires Enabled(cfg, s, step) && Holds(Apply(cfg, s, step), row) && !Holds(s, row)
    ensures Apply(cfg, s, step).store == s.store && Answered(s.store, row)
    ensures step.Park? || step.Sweeping?
  {
    match step
    case Wait(_) =>
    case Upload(_, _) =>
    case Table(_) =>
    case Park(p) => HeldByPark(cfg, s, p, row);
    case Sweeping(w) => HeldBySweep(cfg, s, w, row);
  }

  lemma HeldByPark(cfg: Config, s: State, p: ParkStep, row: Row)
    requires ParkEnabled(s, p) && Holds(ApplyPark(cfg, s, p), row) && !Holds(s, row)
    ensures ApplyPark(cfg, s, p).store == s.store && Answered(s.store, row)
  {
    match p
    case Select(rows) =>
      var i :| 0 <= i < |rows| && rows[i] == row;
    case _ =>
  }

  lemma HeldBySweep(cfg: Config, s: State, w: SweepStep, row: Row)
    requires SweepEnabled(cfg, s, w) && Holds(ApplySweep(cfg, s, w), row) && !Holds(s, row)
    ensures ApplySweep(cfg, s, w).store == s.store && Answered(s.store, row)
  {
    match w
    case List(rows) =>
      var i :| 0 <= i < |rows| && rows[i] == row;
    case Check =>
    case _ =>
  }

  lemma EverGrows(cfg: Config, s: State, step: Step)
    requires Enabled(cfg, s, step)
    ensures s.everPieces <= Apply(cfg, s, step).everPieces
  {
    match step
    case Wait(_) =>
    case Upload(_, _) =>
    case Table(_) =>
    case Park(_) =>
    case Sweeping(_) =>
  }

  lemma RowsStep(cfg: Config, s: State, step: Step)
    requires Inv(cfg, s) && Enabled(cfg, s, step)
    ensures RowsInv(Apply(cfg, s, step))
  {
    EverGrows(cfg, s, step);
    forall row | Holds(Apply(cfg, s, step), row) && !Holds(s, row) ensures Answered(s.store, row) {
      HeldStep(cfg, s, step, row);
    }
  }

  /** Every step of every process keeps the invariant. */
  lemma StepKeeps(cfg: Config, s: State, step: Step)
    requires cfg.names.Valid() && Timely(cfg) && Inv(cfg, s) && Enabled(cfg, s, step)
    ensures Inv(cfg, Apply(cfg, s, step))
  {
    CoreStep(cfg, s, step);
    RowsStep(cfg, s, step);
  }

  // ---- Whole runs ---------------------------------------------------------------------

  lemma {:induction false} RunKeeps(cfg: Config, s: State, steps: seq<Step>)
    requires cfg.names.Valid() && Timely(cfg) && Inv(cfg, s) && Legal(cfg, s, steps)
    ensures Inv(cfg, Run(cfg, s, steps))
    decreases |steps|
  {
    if steps != [] {
      StepKeeps(cfg, s, steps[0]);
      RunKeeps(cfg, Apply(cfg, s, steps[0]), steps[1..]);
    }
  }

  lemma {:induction false} RunConcat(cfg: Config, s: State, a: seq<Step>, b: seq<Step>)
    requires Legal(cfg, s, a + b)
    ensures Legal(cfg, s, a) && Legal(cfg, Run(cfg, s, a), b)
    ensures Run(cfg, s, a + b) == Run(cfg, Run(cfg, s, a), b)
    decreases |a|
  {
    if a == [] {
      assert a + b == b;
    } else {
      assert (a + b)[1..] == a[1..] + b;
      RunConcat(cfg, Apply(cfg, s, a[0]), a[1..], b);
    }
  }

  /** Every ref with a custore URL names a file that is there. */
  ghost predicate RefsBacked(cfg: Config, s: State) {
    forall k | k in s.store.refs && LikeCustore(s.store.refs[k].url) ::
      Located(s.store, cfg.names.resolve, s.store.refs[k].url).Some?
  }

  lemma InvBacksRefs(cfg: Config, s: State)
    requires cfg.names.Valid() && Core(cfg, s)
    ensures RefsBacked(cfg, s)
  {
    forall k | k in s.store.refs && LikeCustore(s.store.refs[k].url)
      ensures Located(s.store, cfg.names.resolve, s.store.refs[k].url).Some?
    {
      assert s.store.refs[k].url == cfg.names.urlOf(s.home[k]) && IsUuid(s.home[k]);
    }
  }

  /** In every run, under the timing hypothesis, garbage collection leaves every referenced file alone. */
  lemma RefsStayBacked(cfg: Config, s: State, steps: seq<Step>)
    requires cfg.names.Valid() && Timely(cfg) && Initial(s) && Legal(cfg, s, steps)
    ensures RefsBacked(cfg, Run(cfg, s, steps))
  {
    InitialInv(cfg, s);
    RunKeeps(cfg, s, steps);
    InvBacksRefs(cfg, Run(cfg, s, steps));
  }

  lemma {:induction false} CollectedGrows(cfg: Config, s: State, steps: seq<Step>)
    requires Legal(cfg, s, steps)
    ensures s.collected <= Run(cfg, s, steps).collected
    decreases |steps|
  {
    if steps != [] {
      CollectedStep(cfg, s, steps[0]);
      CollectedGrows(cfg, Apply(cfg, s, steps[0]), steps[1..]);
    }
  }

  lemma CollectedStep(cfg: Config, s: State, step: Step)
    requires Enabled(cfg, s, step)
    ensures s.collected <= Apply(cfg, s, step).collected
  {
    match step
    case Wait(_) =>
    case Upload(_, _) =>
    case Table(_) =>
    case Park(_) =>
    case Sweeping(_) =>
  }

  lemma CollectedUnnamed(cfg: Config, s: State, path: string, k: int)
    requires cfg.names.Valid() && Core(cfg, s) && path in s.collected
    requires k in s.store.refs && LikeCustore(s.store.refs[k].url)
    ensures cfg.names.resolve(s.store.refs[k].url) != Some(path)
  {
    assert Named(s.home, s.home[k]) && IsUuid(s.home[k]);
  }

  /** What one sweep reclaims, no ref names then and no ref ever names later. */
  lemma ReclaimedIsNeverNamed(cfg: Config, s: State, before: seq<Step>, after: seq<Step>, path: string)
    requires cfg.names.Valid() && Timely(cfg) && Initial(s)
    requires Legal(cfg, s, before + after) && Legal(cfg, s, before) && path in Run(cfg, s, before).collected
    ensures var later := Run(cfg, s, before + after).store.refs;
            forall k | k in later && LikeCustore(later[k].url) :: cfg.names.resolve(later[k].url) != Some(path)
  {
    InitialInv(cfg, s);
    RunConcat(cfg, s, before, after);
    RunKeeps(cfg, s, before + after);
    CollectedGrows(cfg, Run(cfg, s, before), after);
    var t := Run(cfg, s, before + after);
    forall k | k in t.store.refs && LikeCustore(t.store.refs[k].url)
      ensures cfg.names.resolve(t.store.refs[k].url) != Some(path)
    {
      CollectedUnnamed(cfg, t, path, k);
    }
  }

  // ---- ParkComplete in the machine ----------------------------------------------------

  /**
   In every run a flip is justified by any ref that still has the row's URL: the file ParkComplete
   checked is there. Only when all of them were deleted since may it be gone.
   */
  lemma FlipIsJustified(cfg: Config, s: State, steps: seq<Step>, k: int)
    requires cfg.names.Valid() && Timely(cfg) && Initial(s) && Legal(cfg, s, steps)
    requires var t := Run(cfg, s, steps);
             ParkEnabled(t, Flip) && k in t.store.refs && t.store.refs[k].url == t.checked.value.url
    ensures var t := Run(cfg, s, steps);
            Located(t.store, cfg.names.resolve, t.checked.value.url).Some?
  {
    InitialInv(cfg, s);
    RunKeeps(cfg, s, steps);
    var t := Run(cfg, s, steps);
    assert Holds(t, t.checked.value);
    InvBacksRefs(cfg, t);
  }

  lemma CompleteAfterStep(cfg: Config, s: State, step: Step, p: int)
    requires Enabled(cfg, s, step) && p in s.everPieces && (p in s.store.pieces ==> s.store.pieces[p].complete)
    ensures var t := Apply(cfg, s, step); p in t.everPieces && (p in t.store.pieces ==> t.store.pieces[p].complete)
  {
    match step
    case Wait(_) =>
    case Upload(_, _) =>
    case Table(_) =>
    case Park(_) =>
    case Sweeping(w) =>
      match w
      case Check =>
      case Flag =>
      case Snapshot =>
      case List(_) =>
      case ReadDir(_) =>
      case Inspect(_) =>
      case Remove =>
      case Quit =>
  }

  /** No run of the processes turns `complete` back to 0: a complete piece stays complete as long as it exists. */
  lemma {:induction false} CompleteStaysComplete(cfg: Config, s: State, steps: seq<Step>, p: int)
    requires Legal(cfg, s, steps) && p in s.everPieces && (p in s.store.pieces ==> s.store.pieces[p].complete)
    ensures var t := Run(cfg, s, steps); p in t.store.pieces ==> t.store.pieces[p].complete
    decreases |steps|
  {
    if steps != [] {
      CompleteAfterStep(cfg, s, steps[0], p);
      CompleteStaysComplete(cfg, Apply(cfg, s, steps[0]), steps[1..], p);
    }
  }

  // ---- The timing hypothesis cannot be weakened ---------------------------------------

  /** No legal run ever leaves a ref without its file. */
  ghost predicate Safe(cfg: Config) {
    forall s, steps | Initial(s) && Legal(cfg, s, steps) :: RefsBacked(cfg, Run(cfg, s, steps))
  }

  lemma Cons(cfg: Config, s: State, step: Step, rest: seq<Step>)
    requires Enabled(cfg, s, step) && Legal(cfg, Apply(cfg, s, step), rest)
    ensures Legal(cfg, s, [step] + rest)
    ensures Run(cfg, s, [step] + rest) == Run(cfg, Apply(cfg, s, step), rest)
  {
    assert ([step] + rest)[1..] == rest;
  }

  const START := State(0, Store(map[], map[], map[]), map[], map[], {}, [], None, Idle, {})

  /** One upload, finished at time 0, and a ref snapshot taken when it has the greatest age a first ref may find. */
  lemma LateSnapshot(cfg: Config, id: string) returns (steps: seq<Step>, t: State)
    requires cfg.names.Valid() && IsUuid(id)
    ensures Legal(cfg, START, steps) && Run(cfg, START, steps) == t
    ensures t == START.(now := cfg.maxRefAge, sweep := Fetched({}, cfg.maxRefAge),
                        uploads := map[id := Stash(Stored, 0)],
                        store := START.store.(files := map[cfg.names.pathOf(id) := File(0, 0, false)]))
  {
    var a, b, c, d := Upload(id, Create), Upload(id, Finish), Wait(cfg.maxRefAge), Sweeping(Snapshot);
    var s1 := Apply(cfg, START, a);
    var s2 := Apply(cfg, s1, b);
    var s3 := Apply(cfg, s2, c);
    assert ReferencedPaths(s3.store, cfg.names.resolve) == {};
    t := Apply(cfg, s3, d);
    Cons(cfg, s3, d, []);
    Cons(cfg, s2, c, [d]);
    Cons(cfg, s1, b, [c] + [d]);
    Cons(cfg, START, a, [b] + ([c] + [d]));
    steps := [a] + ([b] + ([c] + [d]));
    assert [d] + [] == [d];
  }

  /** Its first ref is inserted just after the snapshot. */
  lemma LateRef(cfg: Config, id: string) returns (steps: seq<Step>, t: State)
    requires cfg.names.Valid() && IsUuid(id)
    ensures Legal(cfg, START, steps) && Run(cfg, START, steps) == t
    ensures t.now == cfg.maxRefAge && t.sweep == Fetched({}, cfg.maxRefAge)
    ensures t.store.files == map[cfg.names.pathOf(id) := File(0, 0, false)]
    ensures t.store.refs == map[1 := Ref(1, cfg.names.urlOf(id))]
  {
    var first, s := LateSnapshot(cfg, id);
    var e, f := Table(InsertPiece(1, true, 0, None)), Table(InsertRef(1, 1, id));
    var s1 := Apply(cfg, s, e);
    assert Enabled(cfg, s1, f);
    t := Apply(cfg, s1, f);
    Cons(cfg, s1, f, []);
    Cons(cfg, s, e, [f]);
    assert [f] + [] == [f];
    Append(cfg, START, first, [e] + [f]);
    steps := first + ([e] + [f]);
  }

  /** The sweep goes on as late as it may and takes the file. */
  lemma LateSweep(cfg: Config, id: string, s: State) returns (steps: seq<Step>, t: State)
    requires cfg.names.Valid() && IsUuid(id) && cfg.gcEnabled && cfg.maxRefAge + cfg.maxLag >= cfg.retention
    requires s.now == cfg.maxRefAge && s.sweep == Fetched({}, cfg.maxRefAge)
    requires s.store.files == map[cfg.names.pathOf(id) := File(0, 0, false)]
    ensures Legal(cfg, s, steps) && Run(cfg, s, steps) == t
    ensures t.store.refs == s.store.refs && cfg.names.pathOf(id) !in t.store.files
  {
    var name := FileName(id);
    UuidName(id);
    var l, a, b := Sweeping(List([])), Wait(cfg.maxLag), Sweeping(ReadDir({name}));
    var c, d := Sweeping(Inspect(name)), Sweeping(Remove);
    var s0 := Apply(cfg, s, l);
    var s1 := Apply(cfg, s0, a);
    var s2 := Apply(cfg, s1, b);
    var s3 := Apply(cfg, s2, c);
    assert s3.sweep.doomed == Some(name);
    t := Apply(cfg, s3, d);
    Cons(cfg, s3, d, []);
    Cons(cfg, s2, c, [d]);
    Cons(cfg, s1, b, [c] + [d]);
    Cons(cfg, s0, a, [b] + ([c] + [d]));
    Cons(cfg, s, l, [a] + ([b] + ([c] + [d])));
    steps := [l] + ([a] + ([b] + ([c] + [d])));
    assert [d] + [] == [d];
  }

  lemma {:induction false} Append(cfg: Config, s: State, a: seq<Step>, b: seq<Step>)
    requires Legal(cfg, s, a) && Legal(cfg, Run(cfg, s, a), b)
    ensures Legal(cfg, s, a + b) && Run(cfg, s, a + b) == Run(cfg, Run(cfg, s, a), b)
    decreases |a|
  {
    if a == [] {
      assert a + b == b;
    } else {
      Append(cfg, Apply(cfg, s, a[0]), a[1..], b);
      assert (a + b)[1..] == a[1..] + b;
    }
  }

  lemma UntimelyLosesAFile(cfg: Config)
    requires cfg.names.Valid() && !Timely(cfg)
    ensures !Safe(cfg)
  {
    var id := seq(36, i => if HyphenAt(i) then '-' else '0');
    var a, s := LateRef(cfg, id);
    var b, t := LateSweep(cfg, id, s);
    Append(cfg, START, a, b);
    assert Legal(cfg, START, a + b) && Run(cfg, START, a + b) == t;
    assert 1 in t.store.refs && LikeCustore(t.store.refs[1].url);
    assert Located(t.store, cfg.names.resolve, t.store.refs[1].url) == None;
    assert !RefsBacked(cfg, t);
  }

  /**
   Garbage collection is safe exactly when it is off or its retention exceeds the greatest age of a
   first ref plus the lag between ref snapshot and cutoff.
   */
  lemma SafeIffTimely(cfg: Config)
    requires cfg.names.Valid()
    ensures Safe(cfg) <==> (cfg.gcEnabled ==> cfg.maxRefAge + cfg.maxLag < cfg.retention)
  {
    if Timely(cfg) {
      forall s, steps | Initial(s) && Legal(cfg, s, steps) ensures RefsBacked(cfg, Run(cfg, s, steps)) {
        RefsStayBacked(cfg, s, steps);
      }
    } else {
      UntimelyLosesAFile(cfg);
    }
  }

  /** The same for the real names of an absolute stash directory. */
  lemma SafeInAbsoluteDir(env: Env, retention: nat, gcEnabled: bool, maxRefAge: nat, maxLag: nat)
    requires Rooted(env.dir) && IsBytes(env.dir) && Rooted(env.cwd)
    ensures Safe(Config(NamesIn(env), retention, gcEnabled, maxRefAge, maxLag)) <==>
              (gcEnabled ==> maxRefAge + maxLag < retention)
  {
    NamesInAreValid(env);
    SafeIffTimely(Config(NamesIn(env), retention, gcEnabled, maxRefAge, maxLag));
  }
}

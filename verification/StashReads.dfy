/**
 ReadPiece among the processes of the step machine: what a read finds whose SELECT and open are
 apart; and what more holds when all refs of a piece share one URL: how a read is tied to what
 ParkComplete checked, and that no piece is ever flagged missing.
 */
module StashReads {
  import opened Text
  import opened StashPaths
  import opened PieceStore
  import opened StashLifecycle

  // ---- The file behind a URL ----------------------------------------------------------

  /** Some ref, of whatever piece, has this URL. */
  predicate HasUrl(st: Store, url: string) {
    exists k | k in st.refs :: st.refs[k].url == url
  }

  /** A custore URL that some ref has belongs to an upload that is stored and on disk. */
  lemma UrlNames(cfg: Config, s: State, url: string) returns (id: string)
    requires cfg.names.Valid() && Core(cfg, s) && LikeCustore(url) && HasUrl(s.store, url)
    ensures IsUuid(id) && Named(s.home, id) && id in s.uploads && s.uploads[id].phase == Stored
    ensures cfg.names.resolve(url) == Some(cfg.names.pathOf(id)) && cfg.names.pathOf(id) in s.store.files
  {
    var k :| k in s.store.refs && s.store.refs[k].url == url;
    id := s.home[k];
    assert s.home[k] == id;
  }

  lemma UploadSpares(cfg: Config, s: State, id: string, u: UploadStep, named: string)
    requires cfg.names.Valid() && Core(cfg, s) && UploadEnabled(cfg, s, id, u)
    requires Named(s.home, named) && IsUuid(named) && named in s.uploads && s.uploads[named].phase == Stored
    requires cfg.names.pathOf(named) in s.store.files
    ensures var (path, t) := (cfg.names.pathOf(named), ApplyUpload(cfg, s, id, u));
            path in t.store.files && t.store.files[path] == s.store.files[path]
  {
    assert IsUuid(id);
  }

  lemma SweepSpares(cfg: Config, s: State, w: SweepStep, named: string)
    requires cfg.names.Valid() && Timely(cfg) && Core(cfg, s) && SweepEnabled(cfg, s, w)
    requires Named(s.home, named) && named in s.uploads && cfg.names.pathOf(named) in s.store.files
    ensures var (path, t) := (cfg.names.pathOf(named), ApplySweep(cfg, s, w));
            path in t.store.files && t.store.files[path] == s.store.files[path]
  {
    match w
    case Remove =>
      if cfg.names.pathOf(named) == cfg.names.entry(s.sweep.doomed.value) {
        DoomedIsUnnamed(cfg, s, named);
      }
    case Check =>
    case _ =>
  }

  lemma TablesOnly(cfg: Config, s: State, t: TableStep)
    requires TableEnabled(cfg, s, t)
    ensures ApplyTable(cfg, s, t).store.files == s.store.files
  {
    match t
    case InsertPiece(_, _, _, _) =>
    case _ =>
  }

  /** No step touches a file while a ref names it: it keeps its size and its time. */
  lemma FileStep(cfg: Config, s: State, step: Step, url: string)
    requires cfg.names.Valid() && Timely(cfg) && Core(cfg, s) && Enabled(cfg, s, step)
    requires LikeCustore(url) && HasUrl(s.store, url)
    ensures var (path, t) := (cfg.names.resolve(url), Apply(cfg, s, step));
            && path.Some? && path.value in s.store.files
            && path.value in t.store.files && t.store.files[path.value] == s.store.files[path.value]
  {
    var id := UrlNames(cfg, s, url);
    match step
    case Upload(i, u) => UploadSpares(cfg, s, i, u, id);
    case Wait(_) =>
    case Table(t) => TablesOnly(cfg, s, t);
    case Park(_) =>
    case Sweeping(w) => SweepSpares(cfg, s, w, id);
  }

  /** At every moment of the run some ref has this URL. */
  ghost predicate UrlStays(cfg: Config, s: State, steps: seq<Step>, url: string)
    requires Legal(cfg, s, steps)
    decreases |steps|
  {
    HasUrl(s.store, url) && (steps != [] ==> UrlStays(cfg, Apply(cfg, s, steps[0]), steps[1..], url))
  }

  /** Over any run in which some ref always has the URL, the file behind it stays as it is. */
  lemma {:induction false} FileStays(cfg: Config, s: State, steps: seq<Step>, url: string)
    requires cfg.names.Valid() && Timely(cfg) && Core(cfg, s) && Legal(cfg, s, steps)
    requires LikeCustore(url) && UrlStays(cfg, s, steps, url)
    ensures var (path, t) := (cfg.names.resolve(url), Run(cfg, s, steps));
            && Core(cfg, t) && HasUrl(t.store, url)
            && path.Some? && path.value in s.store.files
            && path.value in t.store.files && t.store.files[path.value] == s.store.files[path.value]
    decreases |steps|
  {
    if steps == [] {
      var id := UrlNames(cfg, s, url);
    } else {
      CoreStep(cfg, s, steps[0]);
      FileStep(cfg, s, steps[0], url);
      FileStays(cfg, Apply(cfg, s, steps[0]), steps[1..], url);
    }
  }

  // ---- Reading ------------------------------------------------------------------------

  /** What the read asks for agrees with the row. */
  predicate Matches(piece: Piece, size: int, cid: Option<int>) {
    piece.complete && (size == 0 || size == piece.rawSize) && (cid == None || cid == piece.cid)
  }

  /** Which URL a read goes by: that of the piece's ref with the lowest id, none when it has no ref. */
  lemma FirstUrlIs(st: Store, p: int, k: int, url: Option<string>)
    requires k in st.refs && st.refs[k].pieceId == p
    requires forall j | j in st.refs && st.refs[j].pieceId == p :: k <= j
    ensures FirstUrl(st, p, url) <==> url == Some(st.refs[k].url)
  {
    if url.Some? && FirstUrl(st, p, url) {
      var j :| j in st.refs && st.refs[j] == Ref(p, url.value)
               && forall i | i in st.refs && st.refs[i].pieceId == p :: j <= i;
    }
    if url == Some(st.refs[k].url) {
      assert st.refs[k] == Ref(p, url.value);
    }
  }

  /** Which error a read reports: the first of its checks that fails, in this order. */
  lemma ReadFails(st: Store, files: map<string, File>, resolve: string -> Option<string>,
                  p: int, size: int, cid: Option<int>, firstUrl: Option<string>)
    ensures var served := ReadPiece(st, files, resolve, p, size, cid, firstUrl);
            var found := p in st.pieces && firstUrl.Some?;
            var ready := found && st.pieces[p].complete && firstUrl.value != "";
            var sized := ready && (size == 0 || size == st.pieces[p].rawSize);
            var same := sized && (cid == None || cid == st.pieces[p].cid);
            && (served == Failed(NoRow) <==> !found)
            && (served == Failed(NotComplete) <==> found && !st.pieces[p].complete)
            && (served == Failed(NoRef) <==> found && st.pieces[p].complete && firstUrl.value == "")
            && (served == Failed(SizeMismatch) <==> ready && !sized)
            && (served == Failed(BadCid) || served == Failed(CidMismatch) <==> sized && !same)
            && (served == Failed(BadCid) ==> st.pieces[p].cid == None)
            && (served == Failed(CidMismatch) ==> st.pieces[p].cid != None)
            && (served == Failed(BadUrl) <==> same && resolve(firstUrl.value) == None)
            && (served == Failed(OpenFailed) <==>
                  same && resolve(firstUrl.value).Some? && resolve(firstUrl.value).value !in files)
  {}

  /** ReadPiece by cases: the request matches, and the file is there when it is opened. */
  lemma ReadIs(cfg: Config, st: Store, files: map<string, File>, p: int, size: int, cid: Option<int>, url: string)
    requires p in st.pieces && url != "" && cfg.names.resolve(url).Some? && cfg.names.resolve(url).value in files
    ensures var served := ReadPiece(st, files, cfg.names.resolve, p, size, cid, Some(url));
            if Matches(st.pieces[p], size, cid) then served == Opened(cfg.names.resolve(url).value) else served.Failed?
  {}

  /**
   In any run, with any number of URLs to a piece: a piece whose lowest ref has a custore URL is served
   exactly when it is complete and matches the request, whatever happens between the lookup and the
   open, as long as some ref keeps the URL; and the file opened is the one there was at the lookup.
   */
  lemma ReadIsServed(cfg: Config, s: State, steps: seq<Step>, between: seq<Step>,
                     p: int, size: int, cid: Option<int>, url: string)
    requires cfg.names.Valid() && Timely(cfg) && Initial(s)
    requires Legal(cfg, s, steps) && Legal(cfg, Run(cfg, s, steps), between)
    requires p in Run(cfg, s, steps).store.pieces && FirstUrl(Run(cfg, s, steps).store, p, Some(url))
    requires LikeCustore(url) && UrlStays(cfg, Run(cfg, s, steps), between, url)
    ensures var t := Run(cfg, s, steps);
            var (st, later) := (t.store, Run(cfg, t, between).store);
            var served := ReadPiece(st, later.files, cfg.names.resolve, p, size, cid, Some(url));
            && (served.Opened? <==> Matches(st.pieces[p], size, cid))
            && (served.Opened? ==>
                  && Some(served.path) == Located(st, cfg.names.resolve, url)
                  && served.path in later.files && later.files[served.path] == st.files[served.path])
  {
    InitialInv(cfg, s);
    RunKeeps(cfg, s, steps);
    var t := Run(cfg, s, steps);
    FileStays(cfg, t, between, url);
    ReadIs(cfg, t.store, Run(cfg, t, between).store.files, p, size, cid, url);
  }

  // ---- One URL for all refs of a piece ------------------------------------------------

  predicate HasRef(st: Store, p: int, url: string) {
    exists k | k in st.refs :: st.refs[k] == Ref(p, url)
  }

  /** The refs of a piece with a custore URL all have that URL. */
  predicate OneUrl(st: Store) {
    forall j, k | j in st.refs && k in st.refs && st.refs[j].pieceId == st.refs[k].pieceId ::
      LikeCustore(st.refs[j].url) ==> st.refs[k].url == st.refs[j].url
  }

  /** A piece that still exists has not lost its custore URL: its last ref goes with the piece. */
  predicate KeepsUrls(before: Store, after: Store) {
    forall k | k in before.refs && LikeCustore(before.refs[k].url) && before.refs[k].pieceId in after.pieces ::
      HasRef(after, before.refs[k].pieceId, before.refs[k].url)
  }

  /** Runs in which a piece has at most one custore URL, and has it as long as it exists. */
  ghost predicate Shared(cfg: Config, s: State, steps: seq<Step>)
    requires Legal(cfg, s, steps)
    decreases |steps|
  {
    && OneUrl(s.store)
    && (steps != [] ==>
          && KeepsUrls(s.store, Apply(cfg, s, steps[0]).store)
          && Shared(cfg, Apply(cfg, s, steps[0]), steps[1..]))
  }

  /** A held row's piece is gone, or still has the URL. */
  ghost predicate HeldInv(s: State) {
    forall row | Holds(s, row) && row.pieceId in s.store.pieces :: HasRef(s.store, row.pieceId, row.url)
  }

  /** The integrity pass finds a file missing only when the piece is gone. */
  predicate StatInv(s: State) {
    s.sweep.Checking? && s.sweep.rows != [] && s.sweep.stat == Some(true) ==>
      s.sweep.rows[0].pieceId !in s.store.pieces
  }

  predicate NoneFlagged(st: Store) {
    forall p | p in st.pieces :: st.pieces[p].missingAt == None
  }

  ghost predicate SharedInv(s: State) {
    HeldInv(s) && StatInv(s) && NoneFlagged(s.store)
  }

  /** A piece id is never used again. */
  lemma NoRebirth(cfg: Config, s: State, step: Step, p: int)
    requires Enabled(cfg, s, step) && p in s.everPieces && p in Apply(cfg, s, step).store.pieces
    ensures p in s.store.pieces
  {
    match step
    case Wait(_) =>
    case Upload(_, _) =>
    case Table(_) =>
    case Park(_) =>
    case Sweeping(w) =>
      match w
      case Check =>
      case _ =>
  }

  lemma HeldStepKeeps(cfg: Config, s: State, step: Step)
    requires RowsInv(s) && HeldInv(s) && Enabled(cfg, s, step) && KeepsUrls(s.store, Apply(cfg, s, step).store)
    ensures HeldInv(Apply(cfg, s, step))
  {
    var t := Apply(cfg, s, step);
    forall row | Holds(t, row) && row.pieceId in t.store.pieces ensures HasRef(t.store, row.pieceId, row.url) {
      if Holds(s, row) {
        NoRebirth(cfg, s, step, row.pieceId);
        var k :| k in s.store.refs && s.store.refs[k] == Ref(row.pieceId, row.url);
      } else {
        HeldStep(cfg, s, step, row);
        assert s.store.refs[row.refId] == Ref(row.pieceId, row.url);
      }
    }
  }

  /** The file of a live row is there when it is looked for. */
  lemma CheckFindsFile(cfg: Config, s: State)
    requires cfg.names.Valid() && Core(cfg, s) && RowsInv(s) && HeldInv(s) && SweepEnabled(cfg, s, Check)
    requires s.sweep.rows[0].pieceId in s.store.pieces
    ensures CheckNext(cfg, s).sweep == s.sweep.(stat := Some(false))
  {
    var row := s.sweep.rows[0];
    assert Holds(s, row);
    var k :| k in s.store.refs && s.store.refs[k] == Ref(row.pieceId, row.url);
    var id := UrlNames(cfg, s, row.url);
  }

  lemma SweepStatKeeps(cfg: Config, s: State, w: SweepStep)
    requires cfg.names.Valid() && Core(cfg, s) && RowsInv(s) && SharedInv(s) && SweepEnabled(cfg, s, w)
    ensures StatInv(ApplySweep(cfg, s, w))
  {
    match w
    case Check =>
      if s.sweep.rows[0].pieceId in s.store.pieces {
        CheckFindsFile(cfg, s);
      }
    case _ =>
  }

  lemma StatStepKeeps(cfg: Config, s: State, step: Step)
    requires cfg.names.Valid() && Inv(cfg, s) && SharedInv(s) && Enabled(cfg, s, step)
    ensures StatInv(Apply(cfg, s, step))
  {
    if step.Sweeping? {
      SweepStatKeeps(cfg, s, step.w);
    } else {
      var t := Apply(cfg, s, step);
      SweepStays(cfg, s, step);
      if s.sweep.Checking? && s.sweep.rows != [] && s.sweep.rows[0].pieceId in t.store.pieces {
        assert Holds(s, s.sweep.rows[0]);
        NoRebirth(cfg, s, step, s.sweep.rows[0].pieceId);
      }
    }
  }

  lemma SweepStays(cfg: Config, s: State, step: Step)
    requires Enabled(cfg, s, step) && !step.Sweeping?
    ensures Apply(cfg, s, step).sweep == s.sweep
  {
    match step
    case Wait(_) =>
    case Upload(_, _) =>
    case Table(_) =>
    case Park(_) =>
  }

  /** So a flag is never set: the update is for a piece that has none, or for one that is gone. */
  lemma FlagIsIdle(cfg: Config, s: State)
    requires StatInv(s) && NoneFlagged(s.store) && SweepEnabled(cfg, s, Flag)
    ensures FlagNext(s).store == s.store
  {
    var id := s.sweep.rows[0].pieceId;
    if id in s.store.pieces {
      assert s.store.pieces[id := s.store.pieces[id].(missingAt := None)] == s.store.pieces;
    }
  }

  lemma NoneFlaggedStep(cfg: Config, s: State, step: Step)
    requires StatInv(s) && NoneFlagged(s.store) && Enabled(cfg, s, step)
    ensures NoneFlagged(Apply(cfg, s, step).store)
  {
    match step
    case Wait(_) =>
    case Upload(_, _) =>
    case Table(_) =>
    case Park(_) =>
    case Sweeping(w) =>
      match w
      case Flag => FlagIsIdle(cfg, s);
      case Check =>
      case _ =>
  }

  lemma {:induction false} SharedRunKeeps(cfg: Config, s: State, steps: seq<Step>)
    requires cfg.names.Valid() && Timely(cfg) && Inv(cfg, s) && SharedInv(s)
    requires Legal(cfg, s, steps) && Shared(cfg, s, steps)
    ensures var t := Run(cfg, s, steps); Inv(cfg, t) && SharedInv(t) && OneUrl(t.store)
    decreases |steps|
  {
    if steps != [] {
      StepKeeps(cfg, s, steps[0]);
      HeldStepKeeps(cfg, s, steps[0]);
      StatStepKeeps(cfg, s, steps[0]);
      NoneFlaggedStep(cfg, s, steps[0]);
      SharedRunKeeps(cfg, Apply(cfg, s, steps[0]), steps[1..]);
    }
  }

  lemma SharedFromStart(cfg: Config, s: State, steps: seq<Step>)
    requires cfg.names.Valid() && Timely(cfg) && Initial(s) && Legal(cfg, s, steps) && Shared(cfg, s, steps)
    ensures var t := Run(cfg, s, steps); Inv(cfg, t) && SharedInv(t) && OneUrl(t.store)
  {
    InitialInv(cfg, s);
    SharedRunKeeps(cfg, s, steps);
  }

  /** In such runs the integrity pass changes no row, between its stat and its UPDATE or otherwise. */
  lemma FlagWritesNothing(cfg: Config, s: State, steps: seq<Step>)
    requires cfg.names.Valid() && Timely(cfg) && Initial(s) && Legal(cfg, s, steps) && Shared(cfg, s, steps)
    ensures var t := Run(cfg, s, steps);
            && NoneFlagged(t.store)
            && (SweepEnabled(cfg, t, Flag) ==> FlagNext(t).store == t.store)
  {
    SharedFromStart(cfg, s, steps);
    if SweepEnabled(cfg, Run(cfg, s, steps), Flag) {
      FlagIsIdle(cfg, Run(cfg, s, steps));
    }
  }

  predicate Deletes(steps: seq<Step>, p: int) {
    Table(DeletePiece(p)) in steps
  }

  lemma PieceStays(cfg: Config, s: State, step: Step, p: int)
    requires Enabled(cfg, s, step) && p in s.store.pieces && step != Table(DeletePiece(p))
    ensures p in Apply(cfg, s, step).store.pieces
  {
    match step
    case Wait(_) =>
    case Upload(_, _) =>
    case Table(_) =>
    case Park(_) =>
    case Sweeping(w) =>
      match w
      case Check =>
      case _ =>
  }

  /** In such runs a piece that is not deleted keeps its URL throughout. */
  lemma {:induction false} SharedUrlStays(cfg: Config, s: State, steps: seq<Step>, p: int, url: string)
    requires Legal(cfg, s, steps) && Shared(cfg, s, steps) && !Deletes(steps, p)
    requires p in s.store.pieces && HasRef(s.store, p, url) && LikeCustore(url)
    ensures UrlStays(cfg, s, steps, url)
    ensures var t := Run(cfg, s, steps); p in t.store.pieces && HasRef(t.store, p, url)
    decreases |steps|
  {
    var k :| k in s.store.refs && s.store.refs[k] == Ref(p, url);
    assert s.store.refs[k].url == url;
    if steps != [] {
      PieceStays(cfg, s, steps[0], p);
      SharedUrlStays(cfg, Apply(cfg, s, steps[0]), steps[1..], p, url);
    }
  }

  /** Every ref of the piece leads to the file at this path. */
  predicate AllLeadTo(st: Store, resolve: string -> Option<string>, p: int, path: string) {
    forall k | k in st.refs && st.refs[k].pieceId == p :: Located(st, resolve, st.refs[k].url) == Some(path)
  }

  /** With one URL, every ref of a piece leads to the one file. */
  lemma RefsLeadToOne(cfg: Config, t: State, p: int, url: string)
    requires cfg.names.Valid() && Core(cfg, t) && OneUrl(t.store) && HasRef(t.store, p, url) && LikeCustore(url)
    ensures HasUrl(t.store, url) && cfg.names.resolve(url).Some?
    ensures AllLeadTo(t.store, cfg.names.resolve, p, cfg.names.resolve(url).value)
  {
    var k :| k in t.store.refs && t.store.refs[k] == Ref(p, url);
    assert t.store.refs[k].url == url;
    var id := UrlNames(cfg, t, url);
  }

  /**
   In such runs a piece parked from an upload is served exactly when it is complete and matches the
   request, whatever happens between the lookup and the open, unless the piece is deleted: the file
   opened is the one every ref of the piece leads ParkComplete and the sweep to, before and after.
   */
  lemma CompleteIsServed(cfg: Config, s: State, steps: seq<Step>, between: seq<Step>,
                         p: int, size: int, cid: Option<int>, url: string)
    requires cfg.names.Valid() && Timely(cfg) && Initial(s)
    requires Legal(cfg, s, steps) && Legal(cfg, Run(cfg, s, steps), between)
    requires Shared(cfg, s, steps) && Shared(cfg, Run(cfg, s, steps), between) && !Deletes(between, p)
    requires HasRef(Run(cfg, s, steps).store, p, url) && LikeCustore(url)
    ensures var t := Run(cfg, s, steps);
            var (st, later) := (t.store, Run(cfg, t, between).store);
            var served := ReadPiece(st, later.files, cfg.names.resolve, p, size, cid, Some(url));
            && p in st.pieces && (forall first | FirstUrl(st, p, first) :: first == Some(url))
            && (served.Opened? <==> Matches(st.pieces[p], size, cid))
            && (served.Opened? ==>
                  && AllLeadTo(st, cfg.names.resolve, p, served.path)
                  && AllLeadTo(later, cfg.names.resolve, p, served.path)
                  && served.path in st.files && served.path in later.files
                  && later.files[served.path] == st.files[served.path])
  {
    SharedFromStart(cfg, s, steps);
    var t := Run(cfg, s, steps);
    SharedUrlStays(cfg, t, between, p, url);
    SharedRunKeeps(cfg, t, between);
    RefsLeadToOne(cfg, t, p, url);
    RefsLeadToOne(cfg, Run(cfg, t, between), p, url);
    FileStays(cfg, t, between, url);
    ReadIs(cfg, t.store, Run(cfg, t, between).store.files, p, size, cid, url);
    OnlyUrl(t.store, p, url);
  }

  lemma OnlyUrl(st: Store, p: int, url: string)
    requires OneUrl(st) && HasRef(st, p, url) && LikeCustore(url)
    ensures forall first | FirstUrl(st, p, first) :: first == Some(url)
  {
    var k :| k in st.refs && st.refs[k] == Ref(p, url);
    forall first | FirstUrl(st, p, first) ensures first == Some(url) {
      assert st.refs[k].pieceId == p;
    }
  }

  /** ParkComplete is about to complete a piece that exists. */
  predicate Flipping(t: State) {
    t.checked.Some? && t.checked.value.pieceId in t.store.pieces
  }

  /** The state after the flip and the steps that follow it. */
  ghost function AfterFlip(cfg: Config, t: State, middle: seq<Step>): State
    requires Flipping(t) && Legal(cfg, Apply(cfg, t, Park(Flip)), middle)
  {
    Run(cfg, Apply(cfg, t, Park(Flip)), middle)
  }

  /** Runs with one URL a piece from the flip over a lookup to the open, none of which deletes the piece. */
  ghost predicate FlipToOpen(cfg: Config, t: State, middle: seq<Step>, between: seq<Step>) {
    && Flipping(t) && Legal(cfg, Apply(cfg, t, Park(Flip)), middle)
    && Legal(cfg, AfterFlip(cfg, t, middle), between)
    && Shared(cfg, Apply(cfg, t, Park(Flip)), middle) && Shared(cfg, AfterFlip(cfg, t, middle), between)
    && !Deletes(middle, t.checked.value.pieceId) && !Deletes(between, t.checked.value.pieceId)
  }

  /** What a flip knows of a piece that still exists: its URL, and that its file is there. */
  lemma FlipKnows(cfg: Config, t: State)
    requires cfg.names.Valid() && Inv(cfg, t) && HeldInv(t) && OneUrl(t.store) && Flipping(t)
    ensures var row := t.checked.value;
            && LikeCustore(row.url) && row.pieceId in t.everPieces && HasRef(t.store, row.pieceId, row.url)
            && Located(t.store, cfg.names.resolve, row.url).Some?
  {
    var row := t.checked.value;
    assert Holds(t, row);
    var k :| k in t.store.refs && t.store.refs[k] == Ref(row.pieceId, row.url);
    assert t.store.refs[k].url == row.url;
    var id := UrlNames(cfg, t, row.url);
  }

  lemma FlipCompletes(cfg: Config, t: State)
    requires Flipping(t)
    ensures var (p, after) := (t.checked.value.pieceId, Apply(cfg, t, Park(Flip)));
            && p in after.store.pieces && after.store.pieces[p].complete
            && after.store.refs == t.store.refs && after.store.files == t.store.files
            && after.everPieces == t.everPieces
  {}

  /**
   From the flip to the read: once ParkComplete completed a piece that exists, every later read that
   matches its row, unless the piece is deleted, opens the very file ParkComplete checked, unchanged.
   */
  lemma CheckedIsServed(cfg: Config, s: State, steps: seq<Step>, middle: seq<Step>, between: seq<Step>,
                        size: int, cid: Option<int>)
    requires cfg.names.Valid() && Timely(cfg) && Initial(s) && Legal(cfg, s, steps) && Shared(cfg, s, steps)
    requires FlipToOpen(cfg, Run(cfg, s, steps), middle, between)
    ensures var t := Run(cfg, s, steps);
            var (row, read) := (t.checked.value, AfterFlip(cfg, t, middle));
            var files := Run(cfg, read, between).store.files;
            var served := ReadPiece(read.store, files, cfg.names.resolve, row.pieceId, size, cid, Some(row.url));
            && HasRef(t.store, row.pieceId, row.url) && Located(t.store, cfg.names.resolve, row.url).Some?
            && row.pieceId in read.store.pieces && read.store.pieces[row.pieceId].complete
            && (forall first | FirstUrl(read.store, row.pieceId, first) :: first == Some(row.url))
            && (served.Opened? <==> Matches(read.store.pieces[row.pieceId], size, cid))
            && (served.Opened? ==>
                  && Located(t.store, cfg.names.resolve, row.url) == Some(served.path)
                  && served.path in files && files[served.path] == t.store.files[served.path])
  {
    SharedFromStart(cfg, s, steps);
    var t := Run(cfg, s, steps);
    var (p, url) := (t.checked.value.pieceId, t.checked.value.url);
    FlipKnows(cfg, t);
    FlipCompletes(cfg, t);
    var flipped := Apply(cfg, t, Park(Flip));
    StepKeeps(cfg, t, Park(Flip));
    SharedUrlStays(cfg, flipped, middle, p, url);
    assert HasRef(flipped.store, p, url);
    FileStays(cfg, flipped, middle, url);
    CompleteStaysComplete(cfg, flipped, middle, p);
    var read := Run(cfg, flipped, middle);
    SharedUrlStays(cfg, read, between, p, url);
    FileStays(cfg, read, between, url);
    ReadIs(cfg, read.store, Run(cfg, read, between).store.files, p, size, cid, url);
    OnlyUrl(read.store, p, url);
  }
}

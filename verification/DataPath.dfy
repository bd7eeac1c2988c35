/**
 Discovery of a labelled data directory: the bounded walk below every mountpoint, and the choice
 among what it finds.
 */
module DataPath {
  import opened Text
  import opened Ordering
  import opened StashPaths

  /** What a path leads to, without following links; a directory may refuse to be read. */
  datatype Node = File | Link | Dir(readable: bool, entries: seq<Entry>)
  datatype Entry = Entry(name: string, node: Node)

  const LABEL: string := "curio-pdp-data"

  // ---- The walk -----------------------------------------------------------------------

  /** What the walk appends below `dir` with `left` levels to go. */
  function Labels(dir: string, node: Node, left: nat): seq<string>
    decreases left, 0
  {
    if left == 0 || !node.Dir? || !node.readable then [] else LabelsIn(dir, node.entries, |node.entries|, left)
  }

  /** The same for the first k entries of a directory. */
  function LabelsIn(dir: string, entries: seq<Entry>, k: nat, left: nat): seq<string>
    requires k <= |entries| && left > 0
    decreases left - 1, k + 1
  {
    if k == 0 then []
    else LabelsIn(dir, entries, k - 1, left) + LabelsAt(dir, entries[k - 1], left)
  }

  function LabelsAt(dir: string, e: Entry, left: nat): seq<string>
    requires left > 0
    decreases left - 1, 1
  {
    if !e.node.Dir? then []
    else if e.name == LABEL then [JoinPath(dir, e.name)]
    else Labels(JoinPath(dir, e.name), e.node, left - 1)
  }

  /** findLabelDirs, with the depth counted down. */
  method FindLabelDirs(dir: string, node: Node, left: nat) returns (out: seq<string>)
    ensures out == Labels(dir, node, left)
    decreases left
  {
    out := [];
    if left == 0 || !node.Dir? || !node.readable {
      return;
    }
    for k := 0 to |node.entries|
      invariant out == LabelsIn(dir, node.entries, k, left)
    {
      var e := node.entries[k];
      if e.node.Dir? {
        var child := JoinPath(dir, e.name);
        if e.name == LABEL {
          out := out + [child];
        } else {
          var sub := FindLabelDirs(child, e.node, left - 1);
          out := out + sub;
        }
      }
    }
  }

  /** A directory that can be reached from `node` through readable directories, never through a link. */
  predicate Reaches(node: Node, names: seq<string>)
    decreases |names|
  {
    && node.Dir?
    && (names != [] ==>
          node.readable && exists i | 0 <= i < |node.entries| :: Leads(node.entries[i], names))
  }

  predicate Leads(e: Entry, names: seq<string>)
    requires names != []
    decreases |names|, 0
  {
    e.name == names[0] && Reaches(e.node, names[1..])
  }

  /** A label directory with no label directory above it, `names` below the root of the walk. */
  predicate IsLabel(node: Node, names: seq<string>) {
    && names != [] && names[|names| - 1] == LABEL && LABEL !in names[..|names| - 1]
    && Reaches(node, names)
  }

  function PathOf(dir: string, names: seq<string>): string
    decreases |names|
  {
    if names == [] then dir else PathOf(JoinPath(dir, names[0]), names[1..])
  }

  lemma {:induction false} InSome(dir: string, entries: seq<Entry>, k: nat, left: nat, p: string) returns (i: nat)
    requires k <= |entries| && left > 0 && p in LabelsIn(dir, entries, k, left)
    ensures i < k && p in LabelsAt(dir, entries[i], left)
    decreases k
  {
    if p in LabelsAt(dir, entries[k - 1], left) {
      i := k - 1;
    } else {
      i := InSome(dir, entries, k - 1, left, p);
    }
  }

  lemma {:induction false} InAll(dir: string, entries: seq<Entry>, k: nat, left: nat, i: nat, p: string)
    requires i < k <= |entries| && left > 0 && p in LabelsAt(dir, entries[i], left)
    ensures p in LabelsIn(dir, entries, k, left)
    decreases k
  {
    if i < k - 1 {
      InAll(dir, entries, k - 1, left, i, p);
    }
  }

  /** Whatever the walk finds is a label directory within its depth. */
  lemma {:induction false} FoundIsLabel(dir: string, node: Node, left: nat, p: string) returns (names: seq<string>)
    requires p in Labels(dir, node, left)
    ensures 1 <= |names| <= left && IsLabel(node, names) && p == PathOf(dir, names)
    decreases left
  {
    var i := InSome(dir, node.entries, |node.entries|, left, p);
    var e := node.entries[i];
    if e.name == LABEL {
      names := [LABEL];
      assert names[1..] == [] && Reaches(e.node, []);
    } else {
      var rest := FoundIsLabel(JoinPath(dir, e.name), e.node, left - 1, p);
      names := [e.name] + rest;
      assert names[1..] == rest;
      assert names[..|names| - 1] == [e.name] + rest[..|rest| - 1];
    }
    assert Leads(e, names);
  }

  lemma Below(node: Node, names: seq<string>) returns (i: nat)
    requires IsLabel(node, names)
    ensures node.Dir? && node.readable && i < |node.entries| && node.entries[i].node.Dir?
            && node.entries[i].name == names[0]
    ensures |names| == 1 ==> names[0] == LABEL
    ensures |names| > 1 ==> names[0] != LABEL && IsLabel(node.entries[i].node, names[1..])
  {
    i :| 0 <= i < |node.entries| && Leads(node.entries[i], names);
    assert Reaches(node.entries[i].node, names[1..]);
    if |names| > 1 {
      var rest := names[1..];
      assert names[..|names| - 1] == [names[0]] + rest[..|rest| - 1];
      assert rest[|rest| - 1] == names[|names| - 1];
    }
  }

  lemma FoundBelow(dir: string, node: Node, left: nat, i: nat, p: string)
    requires node.Dir? && node.readable && left > 0 && i < |node.entries|
    requires p in LabelsAt(dir, node.entries[i], left)
    ensures p in Labels(dir, node, left)
  {
    InAll(dir, node.entries, |node.entries|, left, i, p);
  }

  lemma FoundHere(dir: string, e: Entry, left: nat, names: seq<string>)
    requires e.node.Dir? && |names| == 1 && names[0] == e.name == LABEL && left > 0
    ensures PathOf(dir, names) in LabelsAt(dir, e, left)
  {
    assert names[1..] == [];
  }

  lemma FoundDeeper(dir: string, e: Entry, left: nat, p: string)
    requires e.node.Dir? && e.name != LABEL && left > 0 && p in Labels(JoinPath(dir, e.name), e.node, left - 1)
    ensures p in LabelsAt(dir, e, left)
  {}

  lemma PathGoesOn(dir: string, names: seq<string>)
    requires names != []
    ensures PathOf(dir, names) == PathOf(JoinPath(dir, names[0]), names[1..])
  {}

  /** Every label directory within its depth is found. */
  lemma {:induction false} LabelIsFound(dir: string, node: Node, left: nat, names: seq<string>)
    requires |names| <= left && IsLabel(node, names)
    ensures PathOf(dir, names) in Labels(dir, node, left)
    decreases left
  {
    var i := Below(node, names);
    var e := node.entries[i];
    if |names| == 1 {
      FoundHere(dir, e, left, names);
    } else {
      LabelIsFound(JoinPath(dir, e.name), e.node, left - 1, names[1..]);
      PathGoesOn(dir, names);
      FoundDeeper(dir, e, left, PathOf(dir, names));
    }
    FoundBelow(dir, node, left, i, PathOf(dir, names));
  }

  /** Below a rooted directory the paths found are that directory's elements and the names below it. */
  lemma {:induction false} PathOfNames(dir: string, names: seq<string>)
    requires Rooted(dir) && AllNames(names)
    ensures names != [] ==> PathOf(dir, names) == AbsPath(Elements(dir) + names)
    decreases |names|
  {
    if names != [] {
      FirstStep(dir, names[0]);
      PathOfNames(JoinPath(dir, names[0]), names[1..]);
      OneThenRest(Elements(dir), names);
    }
  }

  lemma FirstStep(dir: string, name: string)
    requires Rooted(dir) && IsName(name)
    ensures Rooted(JoinPath(dir, name)) && Elements(JoinPath(dir, name)) == Elements(dir) + [name]
    ensures JoinPath(dir, name) == AbsPath(Elements(dir) + [name])
  {
    JoinName(dir, name);
    NamesAreClean(Elements(dir) + [name]);
  }

  lemma OneThenRest(elements: seq<string>, names: seq<string>)
    requires names != []
    ensures elements + [names[0]] + names[1..] == elements + names
    ensures names[1..] == [] ==> elements + [names[0]] == elements + names
  {}

  // ---- The choice ---------------------------------------------------------------------

  /** What discovery looks at: the tree below each path, free bytes, the working directory, the depth. */
  datatype Host = Host(tree: string -> Node, free: string -> nat, cwd: string, depth: nat)

  /** The absolute paths found below any of the mounts. */
  function Found(host: Host, mounts: seq<string>): set<string> {
    set m, hit | m in mounts && hit in Labels(m, host.tree(m), host.depth) :: Abs(hit, host.cwd)
  }

  /** Most free space first, then the shorter path, then the lexically smaller one. */
  predicate Better(host: Host, a: string, b: string) {
    || host.free(a) > host.free(b)
    || (host.free(a) == host.free(b) && (|a| < |b| || (|a| == |b| && Less(a, b))))
  }

  lemma BetterIsStrict(host: Host, a: string, b: string, c: string)
    ensures !Better(host, a, a)
    ensures Better(host, a, b) ==> !Better(host, b, a)
    ensures Better(host, a, b) && Better(host, b, c) ==> Better(host, a, c)
    ensures a != b ==> Better(host, a, b) || Better(host, b, a)
  {
    CompareZero(a, a);
    CompareZero(a, b);
    CompareIsAntisymmetric(a, b);
    if Less(a, b) && Less(b, c) {
      CompareIsTransitive(a, b, c);
    }
  }

  /** The one path better than all others found, or "" when nothing was. */
  ghost predicate IsBest(host: Host, found: set<string>, p: string) {
    if found == {} then p == ""
    else p in found && forall q | q in found && q != p :: Better(host, p, q)
  }

  /** The head of the sorted list of candidates. */
  method First(host: Host, found: seq<string>) returns (best: string)
    requires found != []
    ensures best in found && forall q | q in found && q != best :: Better(host, best, q)
  {
    best := found[0];
    for i := 1 to |found|
      invariant best in found && forall j | 0 <= j < i && found[j] != best :: Better(host, best, found[j])
    {
      BetterIsStrict(host, found[i], best, best);
      if Better(host, found[i], best) {
        forall j | 0 <= j < i && found[j] != found[i] ensures Better(host, found[i], found[j]) {
          BetterIsStrict(host, found[i], best, found[j]);
        }
        best := found[i];
      }
    }
  }

  /** No other path found has more free space; of those with as much none is shorter, of those as long none is less. */
  ghost predicate Roomiest(host: Host, found: set<string>, p: string) {
    forall q | q in found ::
      && host.free(q) <= host.free(p)
      && (host.free(q) == host.free(p) ==> |p| <= |q|)
      && (host.free(q) == host.free(p) && |q| == |p| && q != p ==> exists k: nat :: LessAt(p, q, k))
  }

  lemma BestIsRoomiest(host: Host, found: set<string>, p: string)
    requires IsBest(host, found, p)
    ensures Roomiest(host, found, p)
  {
    forall q | q in found && host.free(q) == host.free(p) && |q| == |p| && q != p
      ensures exists k: nat :: LessAt(p, q, k)
    {
      LessIff(p, q);
    }
  }

  /** discoverLabelled: the best of everything found below the mounts. */
  method DiscoverLabelled(host: Host, mounts: seq<string>) returns (path: string)
    ensures IsBest(host, Found(host, mounts), path)
    ensures if Found(host, mounts) == {} then path == "" else path in Found(host, mounts)
    ensures Roomiest(host, Found(host, mounts), path)
  {
    var found: seq<string>, seen: set<string> := [], {};
    for k := 0 to |mounts|
      invariant seen == Found(host, mounts[..k]) && forall p :: p in found <==> p in seen
    {
      var hits := FindLabelDirs(mounts[k], host.tree(mounts[k]), host.depth);
      FoundOneMore(host, mounts, k);
      ghost var before := seen;
      for i := 0 to |hits|
        invariant seen == before + AbsOf(hits[..i], host.cwd) && forall p :: p in found <==> p in seen
      {
        assert hits[..i + 1] == hits[..i] + [hits[i]];
        var abs := Abs(hits[i], host.cwd);
        if abs !in seen {
          seen := seen + {abs};
          found := found + [abs];
        }
      }
      assert hits[..|hits|] == hits;
    }
    assert mounts[..|mounts|] == mounts;
    if found == [] {
      assert forall p :: p in seen ==> p in found;
      return "";
    }
    assert found[0] in seen;
    path := First(host, found);
    BestIsRoomiest(host, Found(host, mounts), path);
  }

  function AbsOf(hits: seq<string>, cwd: string): set<string> {
    set hit | hit in hits :: Abs(hit, cwd)
  }

  lemma FoundOneMore(host: Host, mounts: seq<string>, k: nat)
    requires k < |mounts|
    ensures Found(host, mounts[..k + 1]) ==
              Found(host, mounts[..k]) + AbsOf(Labels(mounts[k], host.tree(mounts[k]), host.depth), host.cwd)
  {
    assert mounts[..k + 1] == mounts[..k] + [mounts[k]];
  }

  /** The choice depends on what is found only: not on the order of the mounts, nor on repeats or overlaps. */
  lemma ChoiceIsUnique(host: Host, mounts: seq<string>, mounts': seq<string>, p: string, p': string)
    requires IsBest(host, Found(host, mounts), p) && IsBest(host, Found(host, mounts'), p')
    requires (forall m :: m in mounts <==> m in mounts') || Found(host, mounts) == Found(host, mounts')
    ensures p == p'
  {
    assert Found(host, mounts) == Found(host, mounts');
    BetterIsStrict(host, p, p', p);
  }

  /**
   On rooted mounts, the paths found are exactly those of the label directories within the depth,
   each named by its mount's elements and the names below.
   */
  lemma FoundIff(host: Host, mounts: seq<string>, p: string)
    requires forall m | m in mounts :: Rooted(m)
    requires forall m, names | m in mounts && IsLabel(host.tree(m), names) :: AllNames(names)
    ensures p in Found(host, mounts) <==>
              exists m, names :: m in mounts && LabelBelow(host, m, names) && p == AbsPath(Elements(m) + names)
  {
    if p in Found(host, mounts) {
      var m, hit :| m in mounts && hit in Labels(m, host.tree(m), host.depth) && Abs(hit, host.cwd) == p;
      var names := FoundIsLabel(m, host.tree(m), host.depth, hit);
      HitIsClean(host, m, names);
      assert LabelBelow(host, m, names);
    }
    if m, names :| m in mounts && LabelBelow(host, m, names) && p == AbsPath(Elements(m) + names) {
      LabelIsFound(m, host.tree(m), host.depth, names);
      HitIsClean(host, m, names);
    }
  }

  ghost predicate LabelBelow(host: Host, mount: string, names: seq<string>) {
    1 <= |names| <= host.depth && IsLabel(host.tree(mount), names)
  }

  lemma HitIsClean(host: Host, m: string, names: seq<string>)
    requires Rooted(m) && names != [] && AllNames(names)
    ensures Abs(PathOf(m, names), host.cwd) == AbsPath(Elements(m) + names)
  {
    PathOfNames(m, names);
    RootedElements(m);
    NamesAreClean(Elements(m) + names);
  }
}

/**
 Stash file names, the custore URLs that name them in the database, and the resolver that
 turns such a URL back into a path. ParkComplete, the sweep and ReadPiece share the resolver
 (the reader's copy is the same text); the sweep's garbage collection compares what it
 returns with the paths it builds from the directory listing.
 Paths are Unix paths; each `char` stands for one byte.
 */
module StashPaths {
  import opened Text

  // ---- package path/filepath ----------------------------------------------------------

  function Join(parts: seq<string>): string {
    if parts == [] then "" else if |parts| == 1 then parts[0] else parts[0] + "/" + Join(parts[1..])
  }

  predicate Rooted(p: string) {
    p != "" && p[0] == '/'
  }

  /** One element read by `Clean`, on the elements kept so far. */
  function Visit(kept: seq<string>, rooted: bool, part: string): seq<string> {
    if part == "" || part == "." then kept
    else if part == ".." && kept != [] && kept[|kept| - 1] != ".." then kept[..|kept| - 1]
    else if part == ".." && rooted then kept
    else kept + [part]
  }

  function Walk(kept: seq<string>, rooted: bool, parts: seq<string>): seq<string>
    decreases |parts|
  {
    if parts == [] then kept else Walk(Visit(kept, rooted, parts[0]), rooted, parts[1..])
  }

  /** The elements `filepath.Clean` leaves. */
  function Elements(p: string): seq<string> {
    Walk([], Rooted(p), Split(p, '/'))
  }

  function AbsPath(elements: seq<string>): string {
    "/" + Join(elements)
  }

  /** `filepath.Clean`. */
  function Clean(p: string): string {
    if Rooted(p) then AbsPath(Elements(p))
    else if Elements(p) == [] then "."
    else Join(Elements(p))
  }

  /** `filepath.Join(dir, name)` with a non-empty name. */
  function JoinPath(dir: string, name: string): string {
    if dir == "" then Clean(name) else Clean(dir + "/" + name)
  }

  /** `filepath.Abs`, with the working directory as a parameter. */
  function Abs(dir: string, cwd: string): string {
    if Rooted(dir) then Clean(dir) else JoinPath(cwd, dir)
  }

  function CommonPrefix(a: seq<string>, b: seq<string>): (n: nat)
    ensures n <= |a| && n <= |b|
  {
    if a != [] && b != [] && a[0] == b[0] then 1 + CommonPrefix(a[1..], b[1..]) else 0
  }

  /** `filepath.Rel` between two rooted paths, given by their elements. */
  function Rel(base: seq<string>, target: seq<string>): string {
    if base == target then "."
    else
      var n := CommonPrefix(base, target);
      Join(seq(|base| - n, _ => "..") + target[n..])
  }

  // ---- package net/url ----------------------------------------------------------------

  function HexChar(d: nat): char
    requires d < 16
  {
    if d < 10 then ('0' as int + d) as char else ('A' as int + d - 10) as char
  }

  function HexValue(c: char): (v: int)
    ensures -1 <= v < 16
  {
    if '0' <= c <= '9' then c as int - '0' as int
    else if 'A' <= c <= 'F' then c as int - 'A' as int + 10
    else if 'a' <= c <= 'f' then c as int - 'a' as int + 10
    else -1
  }

  /** The bytes `url.URL.String` leaves alone in a path. */
  predicate KeptInPath(c: char) {
    || 'a' <= c <= 'z' || 'A' <= c <= 'Z' || '0' <= c <= '9'
    || c == '-' || c == '_' || c == '.' || c == '~' || c == '$' || c == '&' || c == '+'
    || c == ',' || c == '/' || c == ':' || c == ';' || c == '=' || c == '@'
  }

  function EscapeChar(c: char): string {
    if KeptInPath(c) then [c] else ['%', HexChar(c as int / 16 % 16), HexChar(c as int % 16)]
  }

  /** `URL.EscapedPath` (percent-encoding as in section 2.1 of RFC 3986). */
  function Escape(p: string): string {
    if p == "" then "" else EscapeChar(p[0]) + Escape(p[1..])
  }

  /** Percent-decoding of a path; a malformed escape is an error. */
  function Unescape(s: string): Option<string> {
    if s == "" then Some("")
    else if s[0] != '%' then
      match Unescape(s[1..])
      case None => None
      case Some(rest) => Some([s[0]] + rest)
    else if |s| < 3 || HexValue(s[1]) < 0 || HexValue(s[2]) < 0 then None
    else
      match Unescape(s[3..])
      case None => None
      case Some(rest) => Some([(16 * HexValue(s[1]) + HexValue(s[2])) as char] + rest)
  }

  predicate IsAlpha(c: char) {
    'a' <= c <= 'z' || 'A' <= c <= 'Z'
  }

  predicate IsSchemeChar(c: char) {
    IsAlpha(c) || IsDigit(c) || c == '+' || c == '-' || c == '.'
  }

  function Lower(c: char): char {
    if 'A' <= c <= 'Z' then (c as int + 32) as char else c
  }

  function LowerAll(s: string): string {
    seq(|s|, i requires 0 <= i < |s| => Lower(s[i]))
  }

  datatype Url = Url(scheme: string, path: string)

  /** The path of a URL whose scheme and query are cut off: opaque, or behind an authority. */
  function PathPart(rest: string, okHost: string -> bool): (r: Option<string>)
    ensures r.Some? ==> r.value == "" || r.value[0] == '/'
  {
    if !Rooted(rest) then Some("")
    else if |rest| >= 2 && rest[1] == '/' then
      var authority := rest[2..2 + IndexOf(rest[2..], '/')];
      if authority != "" && !okHost(authority) then None else Unescape(rest[2 + |authority|..])
    else Unescape(rest)
  }

  /**
   `url.Parse`. A text without a scheme is reported as an error here: every caller rejects it
   right after. Which non-empty authorities Go accepts is left open in `okHost`.
   */
  function Parse(raw: string, okHost: string -> bool): (r: Option<Url>)
    ensures r.Some? ==> r.value.path == "" || r.value.path[0] == '/'
  {
    var hash := IndexOf(raw, '#');
    var u := raw[..hash];
    var colon := IndexOf(u, ':');
    if exists i | 0 <= i < |u| :: u[i] < ' ' || u[i] as int == 127 then None
    else if hash < |raw| && Unescape(raw[hash + 1..]).None? then None
    else if colon == |u| || colon == 0 || !IsAlpha(u[0]) || !(forall i | 0 <= i < colon :: IsSchemeChar(u[i])) then None
    else
      var rest := u[colon + 1..];
      match PathPart(rest[..IndexOf(rest, '?')], okHost)
      case None => None
      case Some(path) => Some(Url(LowerAll(u[..colon]), path))
  }

  // ---- diskstash and the resolver -----------------------------------------------------

  predicate IsHex(c: char) {
    '0' <= c <= '9' || 'a' <= c <= 'f'
  }

  predicate HyphenAt(i: int) {
    i == 8 || i == 13 || i == 18 || i == 23
  }

  /** The text of a UUID: 32 lower-case hexadecimal digits in five groups. */
  predicate IsUuid(id: string) {
    |id| == 36 && forall i | 0 <= i < |id| :: if HyphenAt(i) then id[i] == '-' else IsHex(id[i])
  }

  function FileName(id: string): string {
    id + ".tmp"
  }

  /** Where StashCreate, StashRemove and ServeAndRemove keep the file of `id`. */
  function StashPath(dir: string, id: string): string {
    JoinPath(dir, FileName(id))
  }

  /** StashURL's text once the uploader has put the custore scheme in. */
  function CustoreUrl(dir: string, id: string): string {
    "custore://" + Escape(StashPath(dir, id))
  }

  datatype Env = Env(dir: string, cwd: string, okHost: string -> bool)

  /** stashPathFromCustoreURL; `None` stands for its errors. */
  function Resolve(dataUrl: string, env: Env): Option<string> {
    match Parse(dataUrl, env.okHost)
    case None => None
    case Some(u) =>
      if u.scheme != "custore" || u.path == "" || u.path == "/" then None
      else if HasPrefix(Rel(Elements(Abs(env.dir, env.cwd)), Elements(Clean(u.path))), "..") then None
      else Some(Clean(u.path))
  }

  // ---- Cleaning -----------------------------------------------------------------------

  /** An element that `Clean` keeps as it is. */
  predicate IsName(s: string) {
    s != "" && s != "." && s != ".." && '/' !in s
  }

  predicate AllNames(parts: seq<string>) {
    forall i | 0 <= i < |parts| :: IsName(parts[i])
  }

  predicate NoSlash(parts: seq<string>) {
    forall i | 0 <= i < |parts| :: '/' !in parts[i]
  }

  predicate Solid(parts: seq<string>) {
    forall i | 0 <= i < |parts| :: parts[i] != "" && '/' !in parts[i]
  }

  lemma {:induction false} SplitParts(s: string)
    ensures NoSlash(Split(s, '/'))
    decreases |s|
  {
    var i := IndexOf(s, '/');
    if i < |s| {
      SplitParts(s[i + 1..]);
    }
  }

  lemma {:induction false} SplitJoin(parts: seq<string>)
    requires parts != [] && NoSlash(parts)
    ensures Split(Join(parts), '/') == parts
  {
    if |parts| == 1 {
      assert parts == [parts[0]];
    } else {
      var rest := parts[1..];
      SplitJoin(rest);
      SplitConcat(parts[0], Join(rest), '/');
      assert Split(parts[0], '/') == [parts[0]];
      assert [parts[0]] + rest == parts;
    }
  }

  lemma {:induction false} WalkConcat(kept: seq<string>, rooted: bool, a: seq<string>, b: seq<string>)
    ensures Walk(kept, rooted, a + b) == Walk(Walk(kept, rooted, a), rooted, b)
    decreases |a|
  {
    if a == [] {
      assert a + b == b;
    } else {
      assert (a + b)[1..] == a[1..] + b;
      WalkConcat(Visit(kept, rooted, a[0]), rooted, a[1..], b);
    }
  }

  lemma {:induction false} WalkNames(kept: seq<string>, rooted: bool, names: seq<string>)
    requires AllNames(names)
    ensures Walk(kept, rooted, names) == kept + names
    decreases |names|
  {
    if names == [] {
      assert kept + names == kept;
    } else {
      WalkNames(kept + [names[0]], rooted, names[1..]);
      assert kept + [names[0]] + names[1..] == kept + names;
    }
  }

  lemma {:induction false} WalkKeepsNames(kept: seq<string>, parts: seq<string>)
    requires AllNames(kept) && NoSlash(parts)
    ensures AllNames(Walk(kept, true, parts))
    decreases |parts|
  {
    if parts != [] {
      WalkKeepsNames(Visit(kept, true, parts[0]), parts[1..]);
    }
  }

  lemma RootedElements(p: string)
    requires Rooted(p)
    ensures AllNames(Elements(p))
  {
    SplitParts(p);
    WalkKeepsNames([], Split(p, '/'));
  }

  /** A rooted path made of names is clean, and its elements are those names. */
  lemma NamesAreClean(names: seq<string>)
    requires AllNames(names)
    ensures Elements(AbsPath(names)) == names && Clean(AbsPath(names)) == AbsPath(names)
  {
    var p := AbsPath(names);
    assert p == "" + "/" + Join(names);
    SplitConcat("", Join(names), '/');
    assert Split("", '/') == [""];
    if names == [] {
      assert ([""] + [""])[1..] == [""];
      assert Walk([], true, [""]) == [];
    } else {
      SplitJoin(names);
      assert ([""] + names)[1..] == names;
      WalkNames([], true, names);
      assert [] + names == names;
    }
  }

  /** `Clean` of a rooted path is idempotent and loses no element. */
  lemma CleanTwice(p: string)
    requires Rooted(p)
    ensures Rooted(Clean(p)) && Elements(Clean(p)) == Elements(p) && Clean(Clean(p)) == Clean(p)
  {
    RootedElements(p);
    NamesAreClean(Elements(p));
  }

  /** A name put below a directory is one more element. */
  lemma NameBelow(dir: string, name: string)
    requires dir != "" && IsName(name)
    ensures Elements(dir + "/" + name) == Elements(dir) + [name]
  {
    assert (dir + "/" + name)[0] == dir[0];
    SplitConcat(dir, name, '/');
    assert Split(name, '/') == [name];
    WalkConcat([], Rooted(dir), Split(dir, '/'), [name]);
  }

  lemma JoinName(dir: string, name: string)
    requires Rooted(dir) && IsName(name)
    ensures Elements(dir + "/" + name) == Elements(dir) + [name]
    ensures JoinPath(dir, name) == AbsPath(Elements(dir) + [name])
    ensures AllNames(Elements(dir) + [name])
  {
    NameBelow(dir, name);
    RootedElements(dir);
  }

  lemma JoinRelative(dir: string, name: string)
    requires !Rooted(dir) && IsName(name)
    ensures JoinPath(dir, name) == Join(Elements(dir) + [name])
    ensures NoSlash(Elements(dir) + [name])
  {
    SplitParts(dir);
    WalkSolid([], Split(dir, '/'));
    if dir == "" {
      assert Split(name, '/') == [name];
      WalkNames([], false, [name]);
      assert [] + [name] == [name];
    } else {
      NameBelow(dir, name);
      assert (dir + "/" + name)[0] == dir[0];
    }
  }

  /**
   What one more element does to a rooted path: an empty one or "." nothing, ".." takes the last element
   away, if there is one, and any other is appended.
   */
  lemma OneMoreElement(dir: string, part: string)
    requires Rooted(dir) && '/' !in part
    ensures part == "" || part == "." ==> Elements(dir + "/" + part) == Elements(dir)
    ensures part == ".." ==> Elements(dir + "/" + part) ==
                             if Elements(dir) == [] then [] else Elements(dir)[..|Elements(dir)| - 1]
    ensures IsName(part) ==> Elements(dir + "/" + part) == Elements(dir) + [part]
    ensures Elements("/") == []
  {
    assert (dir + "/" + part)[0] == dir[0];
    SplitConcat(dir, part, '/');
    assert Split(part, '/') == [part];
    WalkConcat([], true, Split(dir, '/'), [part]);
    RootedElements(dir);
    OneVisit(Elements(dir), part);
    NamesAreClean([]);
  }

  lemma OneVisit(kept: seq<string>, part: string)
    requires AllNames(kept)
    ensures Walk(kept, true, [part]) == Visit(kept, true, part)
    ensures part == ".." ==> Visit(kept, true, part) == if kept == [] then [] else kept[..|kept| - 1]
  {
    assert [part][1..] == [];
  }

  /** A path that is not rooted stays so when cleaned. */
  lemma RelativeStaysRelative(p: string)
    requires !Rooted(p)
    ensures !Rooted(Clean(p))
  {
    var parts := Elements(p);
    SplitParts(p);
    WalkSolid([], Split(p, '/'));
    if parts != [] {
      assert parts[0][0] in parts[0];
      assert Join(parts)[0] == parts[0][0];
    }
  }

  lemma {:induction false} WalkSolid(kept: seq<string>, parts: seq<string>)
    requires Solid(kept) && NoSlash(parts)
    ensures Solid(Walk(kept, false, parts))
    decreases |parts|
  {
    if parts != [] {
      WalkSolid(Visit(kept, false, parts[0]), parts[1..]);
    }
  }

  // ---- Percent-encoding ---------------------------------------------------------------

  predicate IsBytes(s: string) {
    forall i | 0 <= i < |s| :: s[i] as int < 256
  }

  lemma UnescapeOne(c: char, rest: string)
    requires c as int < 256 && Unescape(rest).Some?
    ensures Unescape(EscapeChar(c) + rest) == Some([c] + Unescape(rest).value)
  {
    var s := EscapeChar(c) + rest;
    if KeptInPath(c) {
      assert s[0] != '%' && s[1..] == rest;
    } else {
      assert s[3..] == rest;
      assert HexValue(s[1]) == c as int / 16 && HexValue(s[2]) == c as int % 16;
    }
  }

  /** Decoding undoes encoding on every byte string. */
  lemma {:induction false} UnescapeEscape(p: string)
    requires IsBytes(p)
    ensures Unescape(Escape(p)) == Some(p)
  {
    if p != "" {
      UnescapeEscape(p[1..]);
      UnescapeOne(p[0], Escape(p[1..]));
      assert [p[0]] + p[1..] == p;
    }
  }

  predicate PathSafe(c: char) {
    ' ' < c && c as int < 127 && c != '#' && c != '?'
  }

  predicate AllSafe(s: string) {
    forall i | 0 <= i < |s| :: PathSafe(s[i])
  }

  lemma {:induction false} EscapeIsSafe(p: string)
    ensures AllSafe(Escape(p))
    ensures Rooted(p) ==> Rooted(Escape(p))
  {
    if p != "" {
      EscapeIsSafe(p[1..]);
      var e := EscapeChar(p[0]);
      assert forall i | 0 <= i < |e| :: PathSafe(e[i]);
    }
  }

  lemma NotFound(s: string, c: char)
    requires forall i | 0 <= i < |s| :: s[i] != c
    ensures IndexOf(s, c) == |s|
  {}

  lemma PathPartOfEscaped(p: string, okHost: string -> bool)
    requires Rooted(p) && IsBytes(p)
    ensures PathPart("//" + Escape(p), okHost) == Some(p)
  {
    var e := Escape(p);
    var rest := "//" + e;
    EscapeIsSafe(p);
    UnescapeEscape(p);
    IndexOfIs(e, '/', 0);
    assert rest[2..] == e && rest[1] == '/';
    assert rest[2..2] == "";
  }

  lemma ParsePlain(scheme: string, rest: string, okHost: string -> bool)
    requires scheme != "" && AllSafe(rest) && forall i | 0 <= i < |scheme| :: IsAlpha(scheme[i])
    ensures Parse(scheme + ":" + rest, okHost) ==
              match PathPart(rest, okHost) case None => None case Some(path) => Some(Url(LowerAll(scheme), path))
  {
    var raw := scheme + ":" + rest;
    var k := |scheme|;
    assert forall i | 0 <= i < |raw| :: PathSafe(raw[i]) by {
      forall i | 0 <= i < |raw| ensures PathSafe(raw[i]) {
        if i < k {
          assert raw[i] == scheme[i];
        } else if i > k {
          assert raw[i] == rest[i - k - 1];
        }
      }
    }
    NotFound(raw, '#');
    NotFound(rest, '?');
    assert raw[..|raw|] == raw && rest[..|rest|] == rest;
    assert forall j | 0 <= j < k :: raw[j] == scheme[j];
    IndexOfIs(raw, ':', k);
    assert raw[..k] == scheme && raw[k + 1..] == rest;
  }

  lemma LowerKeeps(s: string)
    requires forall i | 0 <= i < |s| :: 'a' <= s[i] <= 'z'
    ensures LowerAll(s) == s
  {}

  /** A custore URL is parsed back to the path it was made from. */
  lemma ParseCustore(p: string, okHost: string -> bool)
    requires Rooted(p) && IsBytes(p)
    ensures Parse("custore://" + Escape(p), okHost) == Some(Url("custore", p))
  {
    var scheme, rest := "custore", "//" + Escape(p);
    assert forall i | 0 <= i < |scheme| :: 'a' <= scheme[i] <= 'z';
    EscapeIsSafe(p);
    PathPartOfEscaped(p, okHost);
    ParsePlain(scheme, rest, okHost);
    LowerKeeps(scheme);
    CustoreText(Escape(p));
  }

  lemma CustoreText(e: string)
    ensures "custore://" + e == "custore" + ":" + ("//" + e)
  {
    assert "custore://" == "custore" + ":" + "//";
  }

  // ---- Resolving ----------------------------------------------------------------------

  lemma {:induction false} CommonPrefixOf(a: seq<string>, b: seq<string>)
    ensures var n := CommonPrefix(a, b); a[..n] == b[..n] && (n < |a| && n < |b| ==> a[n] != b[n])
  {
    if a != [] && b != [] && a[0] == b[0] {
      CommonPrefixOf(a[1..], b[1..]);
      var n := CommonPrefix(a[1..], b[1..]);
      assert a[..n + 1] == [a[0]] + a[1..][..n];
      assert b[..n + 1] == [b[0]] + b[1..][..n];
    }
  }

  /** Lexically at or below `base`, with no leading ".." in the element right below it. */
  predicate Within(base: seq<string>, target: seq<string>) {
    && base <= target
    && (|base| < |target| ==> !HasPrefix(target[|base|], ".."))
  }

  lemma JoinStart(parts: seq<string>)
    requires parts != [] && (IsName(parts[0]) || parts[0] == "..")
    ensures HasPrefix(Join(parts), "..") <==> HasPrefix(parts[0], "..")
  {
    if |parts| > 1 && |parts[0]| == 1 {
      assert parts[0] == [parts[0][0]];
      assert parts[0][0] != '.';
      assert Join(parts)[0] == parts[0][0];
    }
  }

  /** The textual ".." test on `Rel` decides exactly whether the target lies within the base. */
  lemma RelTest(base: seq<string>, target: seq<string>)
    requires AllNames(base) && AllNames(target)
    ensures HasPrefix(Rel(base, target), "..") <==> !Within(base, target)
  {
    if base != target {
      var n := CommonPrefix(base, target);
      CommonPrefixOf(base, target);
      var parts := seq(|base| - n, _ => "..") + target[n..];
      if n == |base| {
        assert base <= target by {
          assert target == base + target[n..];
        }
        assert parts == target[n..];
      } else {
        assert parts[0] == "..";
        assert !(base <= target);
      }
      JoinStart(parts);
    }
  }

  /** Exactly which URLs the resolver accepts, and what it answers. */
  lemma ResolveAccepts(url: string, env: Env)
    requires Rooted(env.cwd)
    ensures Rooted(Abs(env.dir, env.cwd))
    ensures var u := Parse(url, env.okHost);
            Resolve(url, env) ==
              if u.Some? && u.value.scheme == "custore" && u.value.path != "" && u.value.path != "/"
                 && Within(Elements(Abs(env.dir, env.cwd)), Elements(u.value.path))
              then Some(AbsPath(Elements(u.value.path))) else None
  {
    var abs := Abs(env.dir, env.cwd);
    if Rooted(env.dir) {
      CleanTwice(env.dir);
    } else {
      CleanTwice(env.cwd + "/" + env.dir);
    }
    RootedElements(abs);
    var u := Parse(url, env.okHost);
    if u.Some? && u.value.path != "" {
      CleanTwice(u.value.path);
      RootedElements(u.value.path);
      RelTest(Elements(abs), Elements(u.value.path));
    }
  }

  /** Safety boundary: whatever is accepted is a clean rooted path lexically inside the stash directory. */
  lemma ResolvedIsInside(url: string, env: Env)
    requires Rooted(env.cwd) && Resolve(url, env).Some?
    ensures var path := Resolve(url, env).value;
            Clean(path) == path && Elements(Abs(env.dir, env.cwd)) <= Elements(path)
  {
    ResolveAccepts(url, env);
    var u := Parse(url, env.okHost).value;
    CleanTwice(u.path);
  }

  lemma UuidName(id: string)
    requires IsUuid(id)
    ensures IsName(FileName(id)) && !HasPrefix(FileName(id), "..") && HasSuffix(FileName(id), ".tmp")
    ensures IsBytes(FileName(id))
  {
    var n := FileName(id);
    assert n[0] == id[0] && n[|id|] == '.' && n[|n| - 4..] == ".tmp";
    assert forall i | |id| <= i < |n| :: n[i] == ".tmp"[i - |id|];
  }

  predicate AllBytes(parts: seq<string>) {
    forall i | 0 <= i < |parts| :: IsBytes(parts[i])
  }

  lemma {:induction false} SplitBytes(s: string)
    requires IsBytes(s)
    ensures AllBytes(Split(s, '/'))
    decreases |s|
  {
    var i := IndexOf(s, '/');
    if i < |s| {
      SplitBytes(s[i + 1..]);
    }
  }

  lemma {:induction false} WalkBytes(kept: seq<string>, rooted: bool, parts: seq<string>)
    requires AllBytes(kept) && AllBytes(parts)
    ensures AllBytes(Walk(kept, rooted, parts))
    decreases |parts|
  {
    if parts != [] {
      WalkBytes(Visit(kept, rooted, parts[0]), rooted, parts[1..]);
    }
  }

  lemma {:induction false} JoinBytes(parts: seq<string>)
    requires AllBytes(parts)
    ensures IsBytes(Join(parts))
  {
    if |parts| > 1 {
      JoinBytes(parts[1..]);
    }
  }

  lemma StashPathOf(dir: string, id: string)
    requires Rooted(dir) && IsBytes(dir) && IsUuid(id)
    ensures StashPath(dir, id) == AbsPath(Elements(dir) + [FileName(id)])
    ensures Elements(StashPath(dir, id)) == Elements(dir) + [FileName(id)]
    ensures IsBytes(StashPath(dir, id)) && Rooted(StashPath(dir, id))
  {
    UuidName(id);
    JoinName(dir, FileName(id));
    NamesAreClean(Elements(dir) + [FileName(id)]);
    SplitBytes(dir);
    WalkBytes([], true, Split(dir, '/'));
    JoinBytes(Elements(dir) + [FileName(id)]);
  }

  /** With an absolute stash directory, clean or not, a file's URL resolves to the very path gcPass builds for it. */
  lemma AbsoluteDirRoundTrips(id: string, env: Env)
    requires Rooted(env.dir) && IsBytes(env.dir) && Rooted(env.cwd) && IsUuid(id)
    ensures Resolve(CustoreUrl(env.dir, id), env) == Some(JoinPath(env.dir, FileName(id)))
  {
    var p := StashPath(env.dir, id);
    StashPathOf(env.dir, id);
    UuidName(id);
    ParseCustore(p, env.okHost);
    ResolveAccepts(CustoreUrl(env.dir, id), env);
    CleanTwice(env.dir);
    assert p != "/" by {
      if p == "/" {
        assert p == AbsPath([]);
        NamesAreClean([]);
      }
    }
  }

  /** With a relative one it never does: the two sides of the comparison cannot meet. */
  lemma RelativeDirNeverRoundTrips(id: string, env: Env)
    requires !Rooted(env.dir) && Rooted(env.cwd) && IsUuid(id)
    ensures Resolve(CustoreUrl(env.dir, id), env) != Some(JoinPath(env.dir, FileName(id)))
  {
    ResolveAccepts(CustoreUrl(env.dir, id), env);
    UuidName(id);
    var p := if env.dir == "" then FileName(id) else env.dir + "/" + FileName(id);
    assert !Rooted(p) by {
      if env.dir == "" {
        assert '/' !in FileName(id);
      } else {
        assert p[0] == env.dir[0];
      }
    }
    RelativeStaysRelative(p);
  }

  /** So garbage collection recognises referenced files exactly when the stash directory is absolute. */
  lemma RoundTripsIffAbsolute(id: string, env: Env)
    requires Rooted(env.cwd) && IsUuid(id) && IsBytes(env.dir)
    ensures Resolve(CustoreUrl(env.dir, id), env) == Some(JoinPath(env.dir, FileName(id))) <==> Rooted(env.dir)
  {
    if Rooted(env.dir) {
      AbsoluteDirRoundTrips(id, env);
    } else {
      RelativeDirNeverRoundTrips(id, env);
    }
  }

  /** Different files of one directory, absolute or not, have different paths. */
  lemma PathsAreDistinct(dir: string, a: string, b: string)
    requires IsName(a) && IsName(b) && JoinPath(dir, a) == JoinPath(dir, b)
    ensures a == b
  {
    var (withA, withB) := (Elements(dir) + [a], Elements(dir) + [b]);
    if Rooted(dir) {
      JoinName(dir, a);
      JoinName(dir, b);
      NamesAreClean(withA);
      NamesAreClean(withB);
    } else {
      JoinRelative(dir, a);
      JoinRelative(dir, b);
      SplitJoin(withA);
      SplitJoin(withB);
    }
    assert withA[|Elements(dir)|] == withB[|Elements(dir)|];
  }
}

/**
  Path handling of the build script, on POSIX paths (`posixpath`):
  `norm_unix` (platform-amebapro2/builder/main.py:564-565), the `-I`
  include-directory extraction (main.py:49-63) and the object-file naming of
  `_mk_objs` (main.py:573-580).
 */
module Paths {
  import opened Common

  /** `os.path.isabs` */
  predicate IsAbs(p: string) {
    p != [] && p[0] == '/'
  }

  /** `os.path.join(a, b)`: an absolute `b` replaces `a`; otherwise one separator
      goes between them unless `a` is empty or already ends with one. */
  function Join(a: string, b: string): string {
    if IsAbs(b) then b
    else if a == [] || a[|a| - 1] == '/' then a + b
    else a + ['/'] + b
  }

  /** An absolute second part replaces the first; otherwise the joined path
      starts with the first part and ends with the second. */
  lemma JoinParts(a: string, b: string)
    ensures IsAbs(b) ==> Join(a, b) == b
    ensures !IsAbs(b) ==> EndsWith(Join(a, b), b) && StartsWith(Join(a, b), a)
  {
    var r := Join(a, b);
    if !IsAbs(b) {
      if a == [] || a[|a| - 1] == '/' {
        assert r[|r| - |b|..] == b && r[..|a|] == a;
      } else {
        assert r == a + (['/'] + b);
        assert r[|r| - |b|..] == b && r[..|a|] == a;
      }
    }
  }

  /** Joining a fixed directory with relative names keeps the names apart. */
  lemma JoinInjective(a: string, b1: string, b2: string)
    requires !IsAbs(b1) && !IsAbs(b2)
    requires Join(a, b1) == Join(a, b2)
    ensures b1 == b2
  {
    JoinParts(a, b1);
    JoinParts(a, b2);
    var r := Join(a, b1);
    var n := |r| - |b1|;
    assert b1 == r[n..];
    assert b2 == r[|r| - |b2|..];
  }

  // ---------------------------------------------------------------------
  // norm_unix
  // ---------------------------------------------------------------------

  /** `path.replace("\\", "/")` */
  function NormUnix(p: string): (r: string)
    ensures |r| == |p|
    ensures '\\' !in r
    ensures forall i :: 0 <= i < |p| && p[i] != '\\' ==> r[i] == p[i]
    ensures forall i :: 0 <= i < |p| && p[i] == '\\' ==> r[i] == '/'
  {
    if p == [] then []
    else [if p[0] == '\\' then '/' else p[0]] + NormUnix(p[1..])
  }

  lemma NormUnixIdempotent(p: string)
    ensures NormUnix(NormUnix(p)) == NormUnix(p)
  {
    var q := NormUnix(p);
    assert NormUnix(q) == q;
  }

  /** A path without back-slashes is left as it is. */
  lemma NormUnixKeeps(p: string)
    requires '\\' !in p
    ensures NormUnix(p) == p
  {
    var q := NormUnix(p);
    assert forall i :: 0 <= i < |p| ==> q[i] == p[i];
  }

  // ---------------------------------------------------------------------
  // -I include directories
  // ---------------------------------------------------------------------

  /** The value `env.GetProjectOption("build_flags")` can take. */
  datatype BuildFlags = Unset | Single(flag: string) | Many(flags: seq<string>)

  /** `if not flags: flags = [] elif isinstance(flags, str): flags = [flags]` */
  function FlagList(b: BuildFlags): (r: seq<string>)
    ensures b.Unset? || b == Single("") ==> r == []
    ensures b.Single? && b.flag != "" ==> r == [b.flag]
    ensures b.Many? ==> r == b.flags
  {
    match b
    case Unset => []
    case Single(f) => if f == "" then [] else [f]
    case Many(fs) => fs
  }

  /** The directory one flag contributes: after `strip()`, a flag `-Ipath`
      names `path`, made absolute against the project directory when relative. */
  function IncludeDir(flag: string, projectDir: string): (r: Option<string>)
    ensures r.Some? <==> StartsWith(Strip(flag), "-I")
    ensures r.Some? && IsAbs(Strip(flag)[2..]) ==> r.value == Strip(flag)[2..]
    ensures r.Some? && !IsAbs(Strip(flag)[2..]) ==> r.value == Join(projectDir, Strip(flag)[2..])
  {
    var f := Strip(flag);
    if StartsWith(f, "-I") then
      var path := f[2..];
      Some(if !IsAbs(path) then Join(projectDir, path) else path)
    else None
  }

  /** The include directories of a flag list, in flag order. */
  function IncludeDirs(flags: seq<string>, projectDir: string): (r: seq<string>)
    ensures |r| <= |flags|
  {
    if flags == [] then []
    else
      var init := IncludeDirs(flags[..|flags| - 1], projectDir);
      match IncludeDir(flags[|flags| - 1], projectDir)
      case Some(d) => init + [d]
      case None => init
  }

  /** Every listed directory comes from an `-I` flag, and every `-I` flag's
      directory is listed. */
  /** One more flag adds its include directory, if it names one. */
  lemma IncludeDirsStep(flags: seq<string>, i: nat, projectDir: string)
    requires i < |flags|
    ensures IncludeDirs(flags[..i + 1], projectDir)
            == IncludeDirs(flags[..i], projectDir) + (match IncludeDir(flags[i], projectDir)
                                                      case Some(d) => [d]
                                                      case None => [])
  {
    assert flags[..i + 1][..i] == flags[..i];
    assert flags[..i + 1][i] == flags[i];
  }

  lemma IncludeDirsComplete(flags: seq<string>, projectDir: string)
    ensures forall d :: d in IncludeDirs(flags, projectDir) <==>
              exists i :: 0 <= i < |flags| && IncludeDir(flags[i], projectDir) == Some(d)
  {
    var os := Lookups(flags, projectDir);
    IncludeDirsPresent(flags, projectDir);
    PresentComplete(os);
  }

  /** What each flag contributes, flag by flag. */
  function Lookups(flags: seq<string>, projectDir: string): (r: seq<Option<string>>)
    ensures |r| == |flags| && forall i :: 0 <= i < |flags| ==> r[i] == IncludeDir(flags[i], projectDir)
  {
    seq(|flags|, i requires 0 <= i < |flags| => IncludeDir(flags[i], projectDir))
  }

  /** The values of the present entries, in order. */
  function Present(os: seq<Option<string>>): seq<string>
    decreases |os|
  {
    if os == [] then []
    else Present(os[..|os| - 1]) + (if os[|os| - 1].Some? then [os[|os| - 1].value] else [])
  }

  lemma {:induction false} PresentComplete(os: seq<Option<string>>)
    ensures forall d :: d in Present(os) <==> exists i :: 0 <= i < |os| && os[i] == Some(d)
    decreases |os|
  {
    if os != [] {
      var init := os[..|os| - 1];
      PresentComplete(init);
      forall d | d in Present(os) ensures exists i :: 0 <= i < |os| && os[i] == Some(d) {
        if d in Present(init) {
          var i :| 0 <= i < |init| && init[i] == Some(d);
          assert os[i] == init[i];
        } else {
          assert os[|os| - 1] == Some(d);
        }
      }
      forall d, i | 0 <= i < |os| && os[i] == Some(d) ensures d in Present(os) {
        if i < |init| {
          assert init[i] == os[i];
          assert d in Present(init);
        } else {
          assert i == |os| - 1;
        }
      }
    }
  }

  lemma {:induction false} IncludeDirsPresent(flags: seq<string>, projectDir: string)
    ensures IncludeDirs(flags, projectDir) == Present(Lookups(flags, projectDir))
    decreases |flags|
  {
    if flags != [] {
      var init := flags[..|flags| - 1];
      var os := Lookups(flags, projectDir);
      IncludeDirsPresent(init, projectDir);
      assert os[..|os| - 1] == Lookups(init, projectDir);
    }
  }

  /** With an absolute project directory every listed directory is absolute. */
  lemma {:induction false} IncludeDirsAbsolute(flags: seq<string>, projectDir: string)
    requires IsAbs(projectDir)
    ensures forall d :: d in IncludeDirs(flags, projectDir) ==> IsAbs(d)
  {
    if flags != [] {
      IncludeDirsAbsolute(flags[..|flags| - 1], projectDir);
    }
  }

  /** The loop of main.py:55-63: strips each flag and collects the `-I` directories. */
  method ExtractIncludeDirs(b: BuildFlags, projectDir: string) returns (dirs: seq<string>)
    ensures dirs == IncludeDirs(FlagList(b), projectDir)
  {
    var flags := FlagList(b);
    dirs := [];
    var i := 0;
    while i < |flags|
      invariant 0 <= i <= |flags|
      invariant dirs == IncludeDirs(flags[..i], projectDir)
    {
      var f := Strip(flags[i]);
      IncludeDirsStep(flags, i, projectDir);
      if StartsWith(f, "-I") {
        var path := f[2..];
        if !IsAbs(path) {
          path := Join(projectDir, path);
        }
        assert IncludeDir(flags[i], projectDir) == Some(path);
        dirs := dirs + [path];
      } else {
        assert IncludeDir(flags[i], projectDir) == None;
      }
      i := i + 1;
    }
    assert flags[..|flags|] == flags;
  }

  // ---------------------------------------------------------------------
  // os.path.relpath and _mk_objs
  // ---------------------------------------------------------------------

  /** An absolute, normalised path as its list of components ("/a/b" is ["a", "b"]). */
  type Components = seq<string>

  /** The component ".", spelled out character by character. */
  predicate IsDot(c: string) {
    |c| == 1 && c[0] == '.'
  }

  /** The component "..". */
  predicate IsDotDot(c: string) {
    |c| == 2 && c[0] == '.' && c[1] == '.'
  }

  predicate IsName(c: string) {
    c != [] && !IsDot(c) && !IsDotDot(c) && '/' !in c
  }

  predicate Normal(p: Components) {
    forall i :: 0 <= i < |p| ==> IsName(p[i])
  }

  /** The length of the longest common prefix of two component lists. */
  function CommonLength(a: Components, b: Components): (k: nat)
    ensures k <= |a| && k <= |b| && a[..k] == b[..k]
    ensures k < |a| && k < |b| ==> a[k] != b[k]
  {
    if a == [] || b == [] || a[0] != b[0] then 0
    else
      var k := CommonLength(a[1..], b[1..]);
      assert a[..k + 1] == [a[0]] + a[1..][..k];
      assert b[..k + 1] == [b[0]] + b[1..][..k];
      k + 1
  }

  function Parents(n: nat): (r: Components)
    ensures |r| == n && forall i :: 0 <= i < n ==> r[i] == ".."
  {
    seq(n, _ => "..")
  }

  /** No component holds a back-slash. */
  predicate NoBackslash(cs: Components) {
    forall i :: 0 <= i < |cs| ==> '\\' !in cs[i]
  }

  /** `os.path.relpath(path, start)` as a component list: one ".." per component
      of `start` beyond the common prefix, then the rest of `path`; "." when
      empty. The result is never empty, and relpath inverts joining: walking it
      from `start` arrives back at `path`. Its components are non-empty, free of
      "/", and free of back-slashes when `path`'s are. */
  function RelComponents(path: Components, start: Components): (r: Components)
    ensures r != []
    ensures Normal(path) ==> Walk(start, r) == path
    ensures Normal(path) ==> Separable(r)
    ensures NoBackslash(path) ==> NoBackslash(r)
  {
    var k := CommonLength(path, start);
    var rel := Parents(|start| - k) + path[k..];
    RelParts(path, start, k, rel);
    if Normal(path) then
      RelWalk(path, start, k, rel);
      if rel == [] then ["."] else rel
    else if rel == [] then ["."] else rel
  }

  /** The components of `Parents(|start| - k) + path[k..]`. */
  lemma RelParts(path: Components, start: Components, k: nat, rel: Components)
    requires k == CommonLength(path, start) && rel == Parents(|start| - k) + path[k..]
    ensures Normal(path) ==> Separable(rel)
    ensures NoBackslash(path) ==> NoBackslash(rel)
  {
    if Normal(path) {
      RelSeparable(path, k, |start| - k, rel);
    }
    if NoBackslash(path) {
      RelNoBackslash(path, k, |start| - k, rel);
    }
  }

  lemma RelSeparable(path: Components, k: nat, n: nat, rel: Components)
    requires Normal(path) && k <= |path| && rel == Parents(n) + path[k..]
    ensures Separable(rel)
  {
    forall i | 0 <= i < |rel| ensures rel[i] != [] && '/' !in rel[i] {
      RelIndex(path, k, n, rel, i);
      if i >= n {
        assert IsName(path[k + i - n]);
      }
    }
  }

  lemma RelNoBackslash(path: Components, k: nat, n: nat, rel: Components)
    requires NoBackslash(path) && k <= |path| && rel == Parents(n) + path[k..]
    ensures NoBackslash(rel)
  {
    forall i | 0 <= i < |rel| ensures '\\' !in rel[i] {
      RelIndex(path, k, n, rel, i);
    }
  }

  lemma RelIndex(path: Components, k: nat, n: nat, rel: Components, i: nat)
    requires k <= |path| && rel == Parents(n) + path[k..] && i < |rel|
    ensures i < n ==> rel[i] == ".."
    ensures i >= n ==> rel[i] == path[k + i - n]
  {
  }

  lemma RelWalk(path: Components, start: Components, k: nat, rel: Components)
    requires Normal(path)
    requires k == CommonLength(path, start) && rel == Parents(|start| - k) + path[k..]
    ensures Walk(start, if rel == [] then ["."] else rel) == path
  {
    if rel == [] {
      assert start == start[..k] == path[..k] == path;
      assert Walk(start, ["."]) == Walk(start, []);
    } else {
      WalkUpDown(path, start, k);
    }
  }

  /** Up from `start` to the common prefix, then down along the rest of `path`. */
  lemma WalkUpDown(path: Components, start: Components, k: nat)
    requires Normal(path) && k <= |path| && k <= |start| && start[..k] == path[..k]
    ensures Walk(start, Parents(|start| - k) + path[k..]) == path
  {
    var n := |start| - k;
    var rest := path[k..];
    NormalSuffix(path, k);
    Rejoin(start, path, k);
    calc {
      Walk(start, Parents(n) + rest);
      { WalkUp(start, n, rest); }
      Walk(start[..|start| - n], rest);
      Walk(path[..k], rest);
      { WalkDown(path[..k], rest); }
      path[..k] + rest;
      path;
    }
  }

  lemma NormalSuffix(path: Components, k: nat)
    requires Normal(path) && k <= |path|
    ensures Normal(path[k..])
  {
    forall i | 0 <= i < |path| - k ensures IsName(path[k..][i]) { assert path[k..][i] == path[k + i]; }
  }

  lemma Rejoin(start: Components, path: Components, k: nat)
    requires k <= |path| && k <= |start| && start[..k] == path[..k]
    ensures start[..|start| - (|start| - k)] == path[..k] && path[..k] + path[k..] == path
  {
  }

  /** Walking a relative component list from a directory: ".." goes up (not
      above the root), "." stays, any other name goes down. */
  function Walk(dir: Components, rel: Components): Components
    decreases |rel|
  {
    if rel == [] then dir
    else if IsDotDot(rel[0]) then Walk(if dir == [] then [] else dir[..|dir| - 1], rel[1..])
    else if IsDot(rel[0]) then Walk(dir, rel[1..])
    else Walk(dir + [rel[0]], rel[1..])
  }

  lemma {:induction false} WalkUp(dir: Components, n: nat, rest: Components)
    requires n <= |dir|
    ensures Walk(dir, Parents(n) + rest) == Walk(dir[..|dir| - n], rest)
    decreases n
  {
    if n > 0 {
      var rel := Parents(n) + rest;
      assert Parents(n)[1..] == Parents(n - 1);
      assert IsDotDot(rel[0]) && rel[1..] == Parents(n - 1) + rest;
      assert Walk(dir, rel) == Walk(dir[..|dir| - 1], rel[1..]);
      WalkUp(dir[..|dir| - 1], n - 1, rest);
      assert dir[..|dir| - 1][..|dir| - 1 - (n - 1)] == dir[..|dir| - n];
    } else {
      assert Parents(0) + rest == rest;
      assert dir[..|dir|] == dir;
    }
  }

  lemma {:induction false} WalkDown(dir: Components, names: Components)
    requires Normal(names)
    ensures Walk(dir, names) == dir + names
    decreases |names|
  {
    if names != [] {
      assert IsName(names[0]);
      WalkDown(dir + [names[0]], names[1..]);
      assert dir + [names[0]] + names[1..] == dir + names;
    }
  }

  /** Two sources with the same relative path are the same source. */
  lemma RelComponentsInjective(p1: Components, p2: Components, start: Components)
    requires Normal(p1) && Normal(p2)
    requires RelComponents(p1, start) == RelComponents(p2, start)
    ensures p1 == p2
  {
    assert Walk(start, RelComponents(p1, start)) == p1;
  }

  /** `"/".join(components)` for a relative path. */
  function Render(cs: Components): string {
    if cs == [] then "" else JoinWith(cs, '/')
  }

  /** A component list whose parts are non-empty and free of "/". */
  predicate Separable(cs: Components) {
    forall i :: 0 <= i < |cs| ==> cs[i] != "" && '/' !in cs[i]
  }

  lemma RenderInjective(xs: Components, ys: Components)
    requires Separable(xs) && Separable(ys) && xs != [] && ys != []
    requires Render(xs) == Render(ys)
    ensures xs == ys
  {
    SplitJoin(xs, '/');
    SplitJoin(ys, '/');
  }

  /** `relpath(src, sdk_dir).replace("\\", "/")`: never empty, free of
      back-slashes, and relative (it cannot start with "/") when the source's
      components are normal and hold no back-slash. */
  function RelText(src: Components, sdk: Components): (r: string)
    ensures '\\' !in r
    ensures Normal(src) ==> r != []
    ensures Normal(src) && NoBackslash(src) ==> !IsAbs(r)
  {
    var cs := RelComponents(src, sdk);
    var r := NormUnix(Render(cs));
    if Normal(src) then
      RenderRelative(cs);
      assert NoBackslash(src) ==> cs[0][0] != '\\';
      r
    else r
  }

  /** A source outside the SDK tree has a relative text that starts by going up
      (".." alone, or "../" and more), so its object lands outside `obj_root`. */
  lemma RelTextOutsideSdk(src: Components, sdk: Components)
    requires Normal(src) && NoBackslash(src)
    requires !(|sdk| <= |src| && src[..|sdk|] == sdk)
    ensures var t := RelText(src, sdk); StartsWith(t, "..") && (|t| == 2 || t[2] == '/')
  {
    var cs := RelComponents(src, sdk);
    RelComponentsOutside(src, sdk);
    RenderNoBackslash(cs);
    NormUnixKeeps(Render(cs));
    RenderUp(cs);
  }

  /** Outside `start`, the relative path begins with "..". */
  lemma RelComponentsOutside(path: Components, start: Components)
    requires !(|start| <= |path| && path[..|start|] == start)
    ensures RelComponents(path, start)[0] == ".."
  {
    var k := CommonLength(path, start);
    assert k < |start|;
    var rel := Parents(|start| - k) + path[k..];
    assert rel[0] == "..";
  }

  /** The text of a relative path that begins with "..". */
  lemma RenderUp(cs: Components)
    requires cs != [] && cs[0] == ".."
    ensures var t := Render(cs); StartsWith(t, "..") && (|t| == 2 || t[2] == '/')
  {
    var t := Render(cs);
    if |cs| > 1 {
      assert t == cs[0] + (['/'] + JoinWith(cs[1..], '/'));
      assert t[..2] == cs[0] && t[2] == '/';
    } else {
      assert t == cs[0];
    }
  }

  /** `os.path.join(obj_root, rel) + suffix + ".o"` */
  function ObjectName(objRoot: string, rel: string, suffix: string): string {
    Join(objRoot, rel) + suffix + ".o"
  }

  /** The object file `_mk_objs` names for one source. */
  function ObjectPath(objRoot: string, src: Components, sdk: Components, suffix: string): string {
    ObjectName(objRoot, RelText(src, sdk), suffix)
  }

  /** A source inside the SDK tree gets its object under `obj_root`, at the
      source's own path below the SDK root. */
  lemma ObjectPathInsideSdk(objRoot: string, src: Components, sdk: Components, suffix: string)
    requires |sdk| < |src| && src[..|sdk|] == sdk
    ensures ObjectPath(objRoot, src, sdk, suffix)
            == Join(objRoot, NormUnix(Render(src[|sdk|..]))) + suffix + ".o"
  {
    var k := CommonLength(src, sdk);
    assert k == |sdk|;
    assert Parents(0) + src[k..] == src[|sdk|..];
  }

  /** Distinct sources have distinct relative texts (back-slashes aside). */
  lemma RelTextInjective(s1: Components, s2: Components, sdk: Components)
    requires Normal(s1) && Normal(s2) && NoBackslash(s1) && NoBackslash(s2)
    requires RelText(s1, sdk) == RelText(s2, sdk)
    ensures s1 == s2
  {
    var r1 := RelComponents(s1, sdk);
    var r2 := RelComponents(s2, sdk);
    RenderNoBackslash(r1);
    RenderNoBackslash(r2);
    NormUnixKeeps(Render(r1));
    NormUnixKeeps(Render(r2));
    RenderInjective(r1, r2);
    RelComponentsInjective(s1, s2, sdk);
  }

  lemma ObjectNameCancel(objRoot: string, t1: string, t2: string, suffix: string)
    requires ObjectName(objRoot, t1, suffix) == ObjectName(objRoot, t2, suffix)
    ensures Join(objRoot, t1) == Join(objRoot, t2)
  {
    var tail := suffix + ".o";
    ObjectNameTail(objRoot, t1, suffix);
    ObjectNameTail(objRoot, t2, suffix);
    SuffixCancel(Join(objRoot, t1), Join(objRoot, t2), tail);
  }

  lemma ObjectNameTail(objRoot: string, t: string, suffix: string)
    ensures ObjectName(objRoot, t, suffix) == Join(objRoot, t) + (suffix + ".o")
  {
    var j := Join(objRoot, t);
    assert j + suffix + ".o" == j + (suffix + ".o");
  }

  /** `os.path.join(obj_root, rel) + suffix + ".o"`: a relative `rel` puts the
      object under `obj_root`, ending with `rel`, the suffix and `.o`; an
      absolute `rel` discards `obj_root`. */
  lemma ObjectNameShape(objRoot: string, t: string, suffix: string)
    ensures var n := ObjectName(objRoot, t, suffix);
      && (!IsAbs(t) ==> StartsWith(n, objRoot) && EndsWith(n, t + suffix + ".o"))
      && (IsAbs(t) ==> n == t + suffix + ".o")
  {
    var j, tail := Join(objRoot, t), suffix + ".o";
    JoinParts(objRoot, t);
    ObjectNameTail(objRoot, t, suffix);
    if !IsAbs(t) {
      StartsWithAppend(j, tail, objRoot);
      EndsWithAppend(j, tail, t);
      assert t + tail == t + suffix + ".o";
    }
  }

  lemma StartsWithAppend(s: string, more: string, prefix: string)
    requires StartsWith(s, prefix)
    ensures StartsWith(s + more, prefix)
  {
    assert (s + more)[..|prefix|] == s[..|prefix|];
  }

  lemma EndsWithAppend(s: string, more: string, suffix: string)
    requires EndsWith(s, suffix)
    ensures EndsWith(s + more, suffix + more)
  {
    var n := s + more;
    assert n[|n| - |suffix + more|..] == s[|s| - |suffix|..] + more;
  }

  lemma SuffixCancel(a: string, b: string, t: string)
    requires a + t == b + t
    ensures a == b
  {
    assert |a| == |b|;
    assert a == (a + t)[..|a|];
    assert b == (b + t)[..|b|];
  }

  /** Within one object root and suffix, distinct sources never share an object
      file (names with back-slashes aside, which `norm_unix` would merge). */
  lemma ObjectPathsDistinct(objRoot: string, s1: Components, s2: Components, sdk: Components, suffix: string)
    requires Normal(s1) && Normal(s2) && s1 != s2
    requires NoBackslash(s1) && NoBackslash(s2)
    ensures ObjectPath(objRoot, s1, sdk, suffix) != ObjectPath(objRoot, s2, sdk, suffix)
  {
    if ObjectPath(objRoot, s1, sdk, suffix) == ObjectPath(objRoot, s2, sdk, suffix) {
      ObjectNameCancel(objRoot, RelText(s1, sdk), RelText(s2, sdk), suffix);
      JoinInjective(objRoot, RelText(s1, sdk), RelText(s2, sdk));
      RelTextInjective(s1, s2, sdk);
    }
  }

  lemma {:induction false} JoinNoBackslash(cs: Components)
    requires cs != [] && NoBackslash(cs)
    ensures '\\' !in JoinWith(cs, '/')
    decreases |cs|
  {
    if |cs| > 1 {
      JoinNoBackslash(cs[1..]);
    }
  }

  lemma RenderNoBackslash(cs: Components)
    requires NoBackslash(cs)
    ensures '\\' !in Render(cs)
  {
    if cs != [] {
      JoinNoBackslash(cs);
    }
  }

  lemma RenderRelative(cs: Components)
    requires Separable(cs) && cs != []
    ensures |Render(cs)| > 0 && Render(cs)[0] == cs[0][0]
  {
    if |cs| > 1 {
      assert JoinWith(cs, '/') == cs[0] + (['/'] + JoinWith(cs[1..], '/'));
    }
  }

  /** The bootloader's and the application's objects never collide: their
      suffixes differ in the character just before ".o". */
  lemma BootloaderAndApplicationObjectsDiffer(root1: string, src1: Components, sdk1: Components,
                                              root2: string, src2: Components, sdk2: Components)
    ensures ObjectPath(root1, src1, sdk1, ".bootloader") != ObjectPath(root2, src2, sdk2, ".application")
  {
    var a := ObjectPath(root1, src1, sdk1, ".bootloader");
    var b := ObjectPath(root2, src2, sdk2, ".application");
    assert a[|a| - 3] == 'r';
    assert b[|b| - 3] == 'n';
  }

  /** `f` applied to every element, in order. */
  function Map<T, U>(f: T -> U, xs: seq<T>): (r: seq<U>)
    ensures |r| == |xs| && forall i :: 0 <= i < |xs| ==> r[i] == f(xs[i])
    decreases |xs|
  {
    if xs == [] then []
    else
      var init := Map(f, xs[..|xs| - 1]);
      assert forall i :: 0 <= i < |xs| - 1 ==> xs[..|xs| - 1][i] == xs[i];
      init + [f(xs[|xs| - 1])]
  }

  /** `_mk_objs`: one object path per source, in source order (the SCons
      `Object` builder calls and directory creation are not modelled). */
  method MkObjs(srcs: seq<Components>, suffix: string, objRoot: string, sdk: Components) returns (objs: seq<string>)
    ensures |objs| == |srcs|
    ensures forall i :: 0 <= i < |srcs| ==> objs[i] == ObjectPath(objRoot, srcs[i], sdk, suffix)
  {
    var name := (s: Components) => ObjectPath(objRoot, s, sdk, suffix);
    objs := [];
    for i := 0 to |srcs|
      invariant objs == Map(name, srcs[..i])
    {
      assert srcs[..i + 1][..i] == srcs[..i];
      objs := objs + [name(srcs[i])];
    }
    assert srcs[..|srcs|] == srcs;
  }
}

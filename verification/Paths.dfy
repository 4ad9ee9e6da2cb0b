/**
 Lexical path handling: path/filepath on a Unix system, worked out on path components, and
 the guard that keeps bundle entries below their directory (pkg/bundle/bundle.go, safeJoin).
 */
module Paths {
  import opened Results
  import Strings

  datatype PathError = OutsideBundle | NoWorkingDirectory | Unrelated

  // ---------- components ----------

  function Kept(parts: seq<string>): seq<string> {
    if parts == [] then []
    else if parts[0] == "" || parts[0] == "." then Kept(parts[1..])
    else [parts[0]] + Kept(parts[1..])
  }

  /** The components that count: empty ones and "." are skipped. */
  function Components(path: string): seq<string> {
    Kept(Strings.Split(path, '/'))
  }

  /** filepath.IsAbs */
  predicate IsAbs(path: string) {
    path != "" && path[0] == '/'
  }

  predicate IsComponent(c: string) {
    c != "" && c != "." && '/' !in c
  }

  predicate AreComponents(cs: seq<string>) {
    forall i :: 0 <= i < |cs| ==> IsComponent(cs[i])
  }

  lemma {:induction false} KeptAreComponents(parts: seq<string>)
    requires forall p :: p in parts ==> '/' !in p
    ensures AreComponents(Kept(parts))
  {
    if parts != [] {
      KeptAreComponents(parts[1..]);
    }
  }

  lemma ComponentsAreComponents(path: string)
    ensures AreComponents(Components(path))
  {
    Strings.SplitPartsLackSeparator(path, '/');
    KeptAreComponents(Strings.Split(path, '/'));
  }

  lemma {:induction false} KeptConcat(a: seq<string>, b: seq<string>)
    ensures Kept(a + b) == Kept(a) + Kept(b)
  {
    if a == [] {
      assert a + b == b;
    } else {
      assert (a + b)[1..] == a[1..] + b;
      KeptConcat(a[1..], b);
    }
  }

  lemma {:induction false} KeptAll(cs: seq<string>)
    requires AreComponents(cs)
    ensures Kept(cs) == cs
  {
    if cs != [] {
      KeptAll(cs[1..]);
    }
  }

  lemma ComponentsConcat(a: string, b: string)
    ensures Components(a + "/" + b) == Components(a) + Components(b)
  {
    Strings.SplitConcat(a, '/', b);
    KeptConcat(Strings.Split(a, '/'), Strings.Split(b, '/'));
  }

  lemma ComponentsOfJoin(cs: seq<string>)
    requires AreComponents(cs)
    ensures Components(Strings.Join(cs, "/")) == cs
  {
    if cs == [] {
      assert Strings.Split("", '/') == [""];
    } else {
      Strings.SplitOfJoin(cs, '/');
      KeptAll(cs);
    }
  }

  // ---------- Clean ----------

  /** One component meets the stack: ".." takes the last name back, and at the root it is dropped. */
  function Push(stack: seq<string>, rooted: bool, c: string): seq<string> {
    if c != ".." then stack + [c]
    else if stack != [] && stack[|stack| - 1] != ".." then stack[..|stack| - 1]
    else if rooted then stack
    else stack + [c]
  }

  function Walk(stack: seq<string>, rooted: bool, cs: seq<string>): seq<string> {
    if cs == [] then stack
    else Push(Walk(stack, rooted, cs[..|cs| - 1]), rooted, cs[|cs| - 1])
  }

  function Render(rooted: bool, cs: seq<string>): string {
    if rooted then "/" + Strings.Join(cs, "/")
    else if cs == [] then "."
    else Strings.Join(cs, "/")
  }

  function Reduced(path: string): seq<string> {
    Walk([], IsAbs(path), Components(path))
  }

  /** filepath.Clean */
  function Clean(path: string): string {
    if path == "" then "." else Render(IsAbs(path), Reduced(path))
  }

  /** The shape of a cleaned path: any number of ".." (none under the root), then names. */
  predicate Normal(rooted: bool, cs: seq<string>) {
    && AreComponents(cs)
    && forall i :: 0 <= i < |cs| && cs[i] == ".." ==> !rooted && (i > 0 ==> cs[i - 1] == "..")
  }

  lemma {:induction false} WalkIsNormal(stack: seq<string>, rooted: bool, cs: seq<string>)
    requires Normal(rooted, stack) && AreComponents(cs)
    ensures Normal(rooted, Walk(stack, rooted, cs))
  {
    if cs != [] {
      WalkIsNormal(stack, rooted, cs[..|cs| - 1]);
      hide IsComponent;
    }
  }

  lemma {:induction false} WalkOfNormal(stack: seq<string>, rooted: bool, cs: seq<string>)
    requires Normal(rooted, stack + cs)
    ensures Walk(stack, rooted, cs) == stack + cs
  {
    if cs == [] {
      assert stack + cs == stack;
    } else {
      var front, last := cs[..|cs| - 1], cs[|cs| - 1];
      var all := stack + cs;
      assert stack + front == all[..|all| - 1];
      WalkOfNormal(stack, rooted, front);
      assert all[|all| - 1] == last;
      assert all == stack + front + [last];
    }
  }

  lemma {:induction false} WalkConcat(stack: seq<string>, rooted: bool, a: seq<string>, b: seq<string>)
    ensures Walk(stack, rooted, a + b) == Walk(Walk(stack, rooted, a), rooted, b)
  {
    if b == [] {
      assert a + b == a;
    } else {
      assert (a + b)[..|a + b| - 1] == a + b[..|b| - 1];
      WalkConcat(stack, rooted, a, b[..|b| - 1]);
    }
  }

  /** Under the root it makes no difference whether the rest was reduced on its own first. */
  lemma {:induction false} WalkOfReduced(stack: seq<string>, cs: seq<string>)
    requires Normal(true, stack) && AreComponents(cs)
    ensures Walk(stack, true, Walk([], false, cs)) == Walk(stack, true, cs)
  {
    if cs != [] {
      var front, last := cs[..|cs| - 1], cs[|cs| - 1];
      var n := Walk([], false, front);
      WalkOfReduced(stack, front);
      WalkIsNormal([], false, front);
      if last != ".." || n == [] || n[|n| - 1] == ".." {
        WalkConcat(stack, true, n, [last]);
        WalkOne(Walk(stack, true, n), true, last);
      } else {
        var name := n[|n| - 1];
        assert n == n[..|n| - 1] + [name];
        WalkConcat(stack, true, n[..|n| - 1], [name]);
        WalkOne(Walk(stack, true, n[..|n| - 1]), true, name);
      }
    }
  }

  lemma WalkOne(stack: seq<string>, rooted: bool, c: string)
    ensures Walk(stack, rooted, [c]) == Push(stack, rooted, c)
  {
    assert [c][..0] == [];
  }

  /** Reading a rendered normal form back gives the form. */
  lemma ParseOfRender(rooted: bool, cs: seq<string>)
    requires Normal(rooted, cs)
    ensures Render(rooted, cs) != "" && IsAbs(Render(rooted, cs)) == rooted
    ensures Components(Render(rooted, cs)) == cs
  {
    ComponentsOfJoin(cs);
    if rooted {
      ComponentsConcat("", Strings.Join(cs, "/"));
      assert "" + "/" + Strings.Join(cs, "/") == Render(rooted, cs);
      assert Components("") == [] by { assert Strings.Split("", '/') == [""]; }
      assert [] + cs == cs;
    } else if cs == [] {
      assert Strings.Split(".", '/') == ["."];
    } else {
      JoinStarts(cs);
      assert IsComponent(cs[0]);
    }
  }

  lemma JoinStarts(cs: seq<string>)
    requires cs != []
    ensures cs[0] <= Strings.Join(cs, "/")
    ensures |cs| > 1 ==> cs[0] + "/" <= Strings.Join(cs, "/")
  {
  }

  lemma CleanIsNormal(path: string)
    ensures Normal(IsAbs(path), Reduced(path))
    ensures Clean(path) == Render(IsAbs(path), Reduced(path))
    ensures Clean(path) != "" && IsAbs(Clean(path)) == IsAbs(path)
    ensures Components(Clean(path)) == Reduced(path)
  {
    ComponentsAreComponents(path);
    WalkIsNormal([], IsAbs(path), Components(path));
    ParseOfRender(IsAbs(path), Reduced(path));
    if path == "" {
      assert Strings.Split("", '/') == [""];
    }
  }

  lemma RenderIsClean(rooted: bool, cs: seq<string>)
    requires Normal(rooted, cs)
    ensures Reduced(Render(rooted, cs)) == cs
    ensures Clean(Render(rooted, cs)) == Render(rooted, cs)
  {
    ParseOfRender(rooted, cs);
    assert [] + cs == cs;
    WalkOfNormal([], rooted, cs);
  }

  /** Cleaning is idempotent, and a clean path is k times ".." followed by names. */
  lemma CleanIdempotent(path: string)
    ensures Clean(Clean(path)) == Clean(path)
    ensures Normal(IsAbs(path), Components(Clean(path)))
  {
    CleanIsNormal(path);
    RenderIsClean(IsAbs(path), Reduced(path));
  }

  // ---------- climbing out ----------

  /** How far below (or, when negative, above) its start a walk ends. */
  function Depth(cs: seq<string>): int {
    if cs == [] then 0
    else Depth(cs[..|cs| - 1]) + (if cs[|cs| - 1] == ".." then -1 else 1)
  }

  /** Read left to right, the components climb above their start at some point. */
  ghost predicate ClimbsOut(cs: seq<string>) {
    exists k :: 0 <= k <= |cs| && Depth(cs[..k]) < 0
  }

  /** A relative path cleans to one that starts with ".." exactly when it climbs out. */
  lemma {:induction false} StartsUpIffClimbsOut(cs: seq<string>)
    requires AreComponents(cs)
    ensures var n := Walk([], false, cs);
            && (n != [] && n[0] == ".." <==> ClimbsOut(cs))
            && ((n == [] || n[0] != "..") ==> Depth(cs) == |n|)
  {
    if cs == [] {
      assert cs[..0] == [];
    } else {
      var front := cs[..|cs| - 1];
      StartsUpIffClimbsOut(front);
      WalkIsNormal([], false, front);
      var m := Walk([], false, front);
      ClimbsOutStep(cs);
      if m != [] && m[0] == ".." {
      } else {
        NoUpsInside(m);
      }
    }
  }

  lemma ClimbsOutStep(cs: seq<string>)
    requires cs != []
    ensures ClimbsOut(cs) <==> ClimbsOut(cs[..|cs| - 1]) || Depth(cs) < 0
  {
    hide Depth;
    var front := cs[..|cs| - 1];
    assert forall k :: 0 <= k <= |front| ==> front[..k] == cs[..k];
    assert cs[..|cs|] == cs;
    if ClimbsOut(front) {
      var k :| 0 <= k <= |front| && Depth(front[..k]) < 0;
      assert Depth(cs[..k]) < 0;
    }
    if ClimbsOut(cs) {
      var k :| 0 <= k <= |cs| && Depth(cs[..k]) < 0;
      if k < |cs| {
        assert Depth(front[..k]) < 0;
      }
    }
  }

  lemma NoUpsInside(m: seq<string>)
    requires Normal(false, m) && (m == [] || m[0] != "..")
    ensures forall i :: 0 <= i < |m| ==> m[i] != ".."
  {
    forall i | 0 <= i < |m|
      ensures m[i] != ".."
    {
      NoUpAt(m, i);
    }
  }

  lemma {:induction false} NoUpAt(m: seq<string>, i: nat)
    requires Normal(false, m) && i < |m| && m[0] != ".."
    ensures m[i] != ".."
  {
    if i > 0 {
      NoUpAt(m, i - 1);
    }
  }

  // ---------- joining, absolute paths, relative paths ----------

  /** filepath.Join of two elements */
  function Join(a: string, b: string): string {
    if a != "" then Clean(a + "/" + b) else if b != "" then Clean(b) else ""
  }

  /** os.Getwd: None when the working directory cannot be read. */
  type WorkDir = d: Option<string> | d.Some? ==> IsAbs(d.value) witness None

  /** filepath.Abs */
  function Abs(cwd: WorkDir, path: string): Result<string, PathError> {
    if IsAbs(path) then Ok(Clean(path))
    else if cwd.None? then Err(NoWorkingDirectory)
    else Ok(Join(cwd.value, path))
  }

  /** The place in the file tree that a path names, as components below the root. */
  function Locate(cwd: string, path: string): seq<string> {
    if IsAbs(path) then Walk([], true, Components(path))
    else Walk([], true, Components(cwd) + Components(path))
  }

  function Repeat(c: string, n: nat): seq<string> {
    seq(n, i => c)
  }

  function CommonPrefix(a: seq<string>, b: seq<string>): (k: nat)
    ensures k <= |a| && k <= |b| && a[..k] == b[..k]
    ensures k < |a| && k < |b| ==> a[k] != b[k]
  {
    if a == [] || b == [] || a[0] != b[0] then 0 else
      assert [a[0]] + a[1..] == a && [b[0]] + b[1..] == b;
      1 + CommonPrefix(a[1..], b[1..])
  }

  /** filepath.Rel */
  function Rel(base: string, target: string): Result<string, PathError> {
    var b, t := Clean(base), Clean(target);
    if b == t then Ok(".")
    else if IsAbs(b) != IsAbs(t) then Err(Unrelated)
    else
      var bs, ts := Components(b), Components(t);
      var k := CommonPrefix(bs, ts);
      if k < |bs| && bs[k] == ".." then Err(Unrelated)
      else Ok(Strings.Join(Repeat("..", |bs| - k) + ts[k..], "/"))
  }

  lemma JoinLocates(a: string, b: string)
    requires a != ""
    ensures Join(a, b) == Render(IsAbs(a), Walk([], IsAbs(a), Components(a) + Components(b)))
    ensures Normal(IsAbs(a), Walk([], IsAbs(a), Components(a) + Components(b)))
  {
    var s := a + "/" + b;
    ComponentsConcat(a, b);
    ComponentsAreComponents(a);
    ComponentsAreComponents(b);
    assert IsAbs(s) == IsAbs(a);
    CleanIsNormal(s);
  }

  lemma AbsLocates(cwd: WorkDir, path: string)
    ensures Abs(cwd, path).Ok? <==> IsAbs(path) || cwd.Some?
    ensures Abs(cwd, path).Ok? ==>
              var place := Locate(if cwd.Some? then cwd.value else "/", path);
              Normal(true, place) && Abs(cwd, path).value == Render(true, place)
  {
    if IsAbs(path) {
      CleanIsNormal(path);
    } else if cwd.Some? {
      JoinLocates(cwd.value, path);
    }
  }

  /** A location written out as an absolute path names that location, whatever the working directory. */
  lemma LocateOfRender(cwd: string, place: seq<string>)
    requires Normal(true, place)
    ensures Locate(cwd, Render(true, place)) == place
  {
    ParseOfRender(true, place);
    assert [] + place == place;
    WalkOfNormal([], true, place);
  }

  // ---------- the guard on bundle entries ----------

  /** safeJoin */
  function SafeJoin(cwd: WorkDir, root: string, name: string): Result<string, PathError> {
    match Abs(cwd, root)
    case Err(e) => Err(e)
    case Ok(base) =>
      var cleaned := Clean(name);
      if IsAbs(cleaned) then Err(OutsideBundle)
      else if cleaned == ".." || Strings.HasPrefix(cleaned, "../") then Err(OutsideBundle)
      else
        var target := Join(base, cleaned);
        match Rel(base, target)
        case Err(e) => Err(e)
        case Ok(rel) =>
          if rel == ".." || Strings.HasPrefix(rel, "../") then Err(OutsideBundle) else Ok(target)
  }

  /** The two string tests of safeJoin ask whether the first component is "..". */
  lemma FirstIsUp(cs: seq<string>)
    requires AreComponents(cs) && cs != []
    ensures var s := Strings.Join(cs, "/");
            s == ".." || "../" <= s <==> cs[0] == ".."
  {
    var s := Strings.Join(cs, "/");
    assert IsComponent(cs[0]);
    if |cs| == 1 {
      assert "../"[2] == '/';
    } else {
      var rest := Strings.Join(cs[1..], "/");
      assert s == cs[0] + ['/'] + rest;
      Strings.SplitFirst(cs[0], '/', rest);
      assert s[|cs[0]|] == '/' && cs[0] + "/" <= s && s[..|cs[0]|] == cs[0];
      if "../" <= s {
        assert s[0] == '.' && s[1] == '.' && s[2] == '/';
        Strings.IndexOfUnique(s, '/', 2);
      }
    }
  }

  predicate Inside(name: string) {
    && !IsAbs(name)
    && (Components(Clean(name)) == [] || Components(Clean(name))[0] != "..")
  }

  /** Where safeJoin puts a name: below the base, at the name's own cleaned components. */
  function PlaceOf(cwd: WorkDir, root: string, name: string): seq<string> {
    Locate(if cwd.Some? then cwd.value else "/", root) + Components(Clean(name))
  }

  lemma InsideIsNames(name: string)
    requires Inside(name)
    ensures var cs := Components(Clean(name));
            AreComponents(cs) && (forall i :: 0 <= i < |cs| ==> cs[i] != "..") && Normal(true, cs)
  {
    CleanIsNormal(name);
    NoUpsInside(Components(Clean(name)));
  }

  lemma NormalBelow(base: seq<string>, cs: seq<string>)
    requires Normal(true, base) && Normal(true, cs)
    ensures Normal(true, base + cs)
    ensures Walk([], true, base + cs) == base + cs
  {
    assert [] + (base + cs) == base + cs;
    WalkOfNormal([], true, base + cs);
  }

  /** The later Rel check of safeJoin has nothing left to refuse. */
  lemma RelBelow(base: seq<string>, cs: seq<string>)
    requires Normal(true, base) && Normal(true, cs)
    ensures var rel := Rel(Render(true, base), Render(true, base + cs));
            rel.Ok? && rel.value != ".." && !Strings.HasPrefix(rel.value, "../")
  {
    RelIsTheRest(base, cs);
    if cs != [] {
      FirstIsUp(cs);
    } else {
      assert |"../"| > |"."|;
    }
  }

  lemma RelIsTheRest(base: seq<string>, cs: seq<string>)
    requires Normal(true, base) && Normal(true, cs)
    ensures Rel(Render(true, base), Render(true, base + cs)) == Ok(if cs == [] then "." else Strings.Join(cs, "/"))
  {
    hide Render, Clean, Components, Walk, Normal, IsAbs, CommonPrefix, Strings.Join;
    NormalBelow(base, cs);
    RenderIsClean(true, base);
    RenderIsClean(true, base + cs);
    ParseOfRender(true, base);
    ParseOfRender(true, base + cs);
    assert base + [] == base;
    PrefixIsCommon(base, cs);
    assert Repeat("..", 0) + (base + cs)[|base|..] == cs;
  }

  lemma PrefixIsCommon(base: seq<string>, cs: seq<string>)
    ensures CommonPrefix(base, base + cs) == |base|
  {
    hide CommonPrefix;
    assert (base + cs)[..|base|] == base;
  }

  /**
   safeJoin, over all names: it succeeds exactly when the base can be made absolute and the
   name is relative and does not climb out. The result is then a cleaned absolute path: the
   base followed by the components of the cleaned name.
   */
  lemma SafeJoinIff(cwd: WorkDir, root: string, name: string)
    ensures SafeJoin(cwd, root, name).Ok? <==> (IsAbs(root) || cwd.Some?) && Inside(name)
    ensures Inside(name) <==> !IsAbs(name) && !ClimbsOut(Components(name))
    ensures SafeJoin(cwd, root, name).Ok? ==>
              && Normal(true, PlaceOf(cwd, root, name))
              && SafeJoin(cwd, root, name) == Ok(Render(true, PlaceOf(cwd, root, name)))
  {
    AbsLocates(cwd, root);
    CleanIsNormal(name);
    ComponentsAreComponents(name);
    if !IsAbs(name) {
      StartsUpIffClimbsOut(Components(name));
    }
    if Abs(cwd, root).Ok? && !IsAbs(name) {
      GuardReads(name);
      if Inside(name) {
        SafeJoinInside(cwd, root, name);
      }
    }
  }

  lemma GuardReads(name: string)
    requires !IsAbs(name)
    ensures (Clean(name) == ".." || Strings.HasPrefix(Clean(name), "../")) <==> !Inside(name)
  {
    CleanIsNormal(name);
    if Reduced(name) != [] {
      FirstIsUp(Reduced(name));
    }
  }

  lemma SafeJoinInside(cwd: WorkDir, root: string, name: string)
    requires Abs(cwd, root).Ok? && Inside(name)
    ensures Normal(true, PlaceOf(cwd, root, name))
    ensures SafeJoin(cwd, root, name) == Ok(Render(true, PlaceOf(cwd, root, name)))
  {
    hide Clean, Components, Render, Walk, Rel;
    AbsLocates(cwd, root);
    var base := Locate(if cwd.Some? then cwd.value else "/", root);
    var cs := Components(Clean(name));
    CleanIsNormal(name);
    InsideIsNames(name);
    NormalBelow(base, cs);
    GuardReads(name);
    ParseOfRender(true, base);
    JoinLocates(Render(true, base), Clean(name));
    RelBelow(base, cs);
  }

  /** Bundle.AssetPath */
  function AssetPath(extracted: string, rel: string): string {
    Join(extracted, Clean(rel))
  }

  /**
   AssetPath and safeJoin agree on the file they mean. AssetPath is absolute only when the
   extraction directory is; the operating system then finds the same place from the
   working directory.
   */
  lemma AssetPathMeansTheSameFile(cwd: WorkDir, extracted: string, rel: string)
    requires cwd.Some? && extracted != "" && SafeJoin(cwd, extracted, rel).Ok?
    ensures Locate(cwd.value, AssetPath(extracted, rel)) == PlaceOf(cwd, extracted, rel)
    ensures SafeJoin(cwd, extracted, rel).value == Render(true, PlaceOf(cwd, extracted, rel))
    ensures IsAbs(AssetPath(extracted, rel)) <==> IsAbs(extracted)
  {
    SafeJoinIff(cwd, extracted, rel);
    JoinLocates(extracted, Clean(rel));
    var cs := Components(Clean(rel));
    var all := Components(extracted) + cs;
    InsideIsNames(rel);
    ComponentsAreComponents(extracted);
    ComponentsAreComponents(cwd.value);
    ParseOfRender(IsAbs(extracted), Walk([], IsAbs(extracted), all));
    AbsLocates(cwd, extracted);
    var base := Locate(cwd.value, extracted);
    NamesOnTop(base, cs);
    if IsAbs(extracted) {
      WalkConcat([], true, Components(extracted), cs);
      RenderIsClean(true, Walk([], true, all));
    } else {
      var w := Walk([], true, Components(cwd.value));
      WalkIsNormal([], true, Components(cwd.value));
      WalkConcat([], true, Components(cwd.value), Walk([], false, all));
      WalkOfReduced(w, all);
      WalkConcat(w, true, Components(extracted), cs);
      WalkConcat([], true, Components(cwd.value), Components(extracted));
    }
  }

  lemma NamesOnTop(stack: seq<string>, cs: seq<string>)
    requires Normal(true, stack) && Normal(true, cs)
    ensures Walk(stack, true, cs) == stack + cs
  {
    WalkOfNormal(stack, true, cs);
  }

  /** Cleaning a path does not change the place it names. */
  lemma LocateOfClean(cwd: string, path: string)
    requires IsAbs(cwd)
    ensures Locate(cwd, Clean(path)) == Locate(cwd, path)
  {
    CleanIsNormal(path);
    ComponentsAreComponents(path);
    ComponentsAreComponents(cwd);
    var cs, ws := Components(path), Components(cwd);
    if IsAbs(path) {
      assert [] + Reduced(path) == Reduced(path);
      WalkOfNormal([], true, Reduced(path));
    } else {
      var w := Walk([], true, ws);
      WalkIsNormal([], true, ws);
      WalkConcat([], true, ws, Walk([], false, cs));
      WalkConcat([], true, ws, cs);
      WalkOfReduced(w, cs);
    }
  }

  // ---------- Clean, one step at a time ----------

  /** A name is appended, "." and empty components change nothing, and ".." takes the last name back:
      with none left it is dropped under the root and kept elsewhere. */
  lemma CleanSteps(path: string, name: string)
    requires path != "" && IsComponent(name) && name != ".."
    ensures Components(Clean(path + "/" + name)) == Components(Clean(path)) + [name]
    ensures Clean(path + "/.") == Clean(path) == Clean(path + "/")
    ensures Clean(path + "/" + name + "/..") == Clean(path)
    ensures Components(Clean(path)) == [] ==> Components(Clean(path + "/..")) == (if path[0] == '/' then [] else [".."])
    ensures Components(Clean(path)) != [] && Components(Clean(path))[|Components(Clean(path))| - 1] == ".." ==>
              Components(Clean(path + "/..")) == Components(Clean(path)) + [".."]
  {
    hide Clean, Walk, Components, Kept;
    CleanIsNormal(path);
    OneComponent(name);
    CleanAppends(path, name, [name]);
    CleanAppends(path, ".", []);
    CleanAppends(path, "", []);
    CleanAppends(path, "..", [".."]);
    assert path + "/" == path + "/" + "";
    var rooted, cs := IsAbs(path), Components(path);
    WalkOne(Reduced(path), rooted, name);
    WalkOne(Reduced(path), rooted, "..");
    NothingMore(Reduced(path), rooted);
    var named := path + "/" + name;
    CleanAppends(named, "..", [".."]);
    assert path + "/" + name + "/.." == named + "/" + "..";
    WalkOne(Reduced(named), rooted, "..");
    assert (Reduced(path) + [name])[..|Reduced(path)|] == Reduced(path);
    SameReduced(named + "/" + "..", path);
    SameReduced(path + "/" + ".", path);
    SameReduced(path + "/" + "", path);
    assert path + "/." == path + "/" + "." && path + "/.." == path + "/" + "..";
  }

  lemma NothingMore(stack: seq<string>, rooted: bool)
    ensures Walk(stack, rooted, []) == stack
  {
  }

  /** The components of one element: a name or "..", or nothing. */
  lemma OneComponent(name: string)
    requires IsComponent(name)
    ensures Components(name) == [name] && Components("..") == [".."] && Components(".") == [] && Components("") == []
  {
    assert Strings.Join([name], "/") == name && Strings.Join([".."], "/") == "..";
    ComponentsOfJoin([name]);
    ComponentsOfJoin([".."]);
    assert Strings.Split(".", '/') == ["."] && Strings.Split("", '/') == [""];
    assert Kept(["."][1..]) == [];
  }

  lemma CleanAppends(path: string, last: string, cs: seq<string>)
    requires path != "" && Components(last) == cs
    ensures Reduced(path + "/" + last) == Walk(Reduced(path), IsAbs(path), cs)
    ensures Components(Clean(path + "/" + last)) == Reduced(path + "/" + last) && Components(Clean(path)) == Reduced(path)
    ensures path + "/" + last != "" && IsAbs(path + "/" + last) == IsAbs(path)
  {
    hide Clean, Walk, Components;
    var s := path + "/" + last;
    ComponentsConcat(path, last);
    assert s[0] == path[0];
    CleanIsNormal(s);
    CleanIsNormal(path);
    WalkConcat([], IsAbs(path), Components(path), cs);
  }

  lemma SameReduced(a: string, b: string)
    requires a != "" && b != "" && IsAbs(a) == IsAbs(b) && Reduced(a) == Reduced(b)
    ensures Clean(a) == Clean(b)
  {
  }

  // ---------- Dir ----------

  function LastSlash(path: string): (i: nat)
    ensures i <= |path|
  {
    if path == "" then 0
    else if path[|path| - 1] == '/' then |path|
    else LastSlash(path[..|path| - 1])
  }

  /** filepath.Dir */
  function Dir(path: string): string {
    Clean(path[..LastSlash(path)])
  }

  lemma {:induction false} LastSlashAt(a: string, last: string)
    requires '/' !in last
    ensures LastSlash(a + "/" + last) == |a| + 1
  {
    var s := a + "/" + last;
    if last != "" {
      assert s[..|s| - 1] == a + "/" + last[..|last| - 1];
      LastSlashAt(a, last[..|last| - 1]);
    }
  }

  /** Dir drops the last element, and a bare name is in ".". */
  lemma DirDropsTheLast(dir: string, last: string)
    requires dir != "" && '/' !in last
    ensures Dir(dir + "/" + last) == Clean(dir) && Dir(last) == "."
  {
    hide Clean;
    LastSlashAt(dir, last);
    assert (dir + "/" + last)[..|dir| + 1] == dir + "/";
    CleanSteps(dir, "x");
    NoSlash(last);
    assert Clean("") == "." by { CleanOfNothing(); }
  }

  lemma CleanOfNothing()
    ensures Clean("") == "."
  {
  }

  lemma {:induction false} NoSlash(last: string)
    requires '/' !in last
    ensures LastSlash(last) == 0 && last[..0] == ""
  {
    if last != "" {
      NoSlash(last[..|last| - 1]);
    }
  }

  lemma ComponentsWithSlash(head: string)
    ensures Components(head + "/") == Components(head)
  {
    ComponentsConcat(head, "");
    assert head + "/" + "" == head + "/";
    assert Components("") == [] by { assert Strings.Split("", '/') == [""]; }
    assert Components(head) + [] == Components(head);
  }

  /** A rendered absolute path, cut before its last component. */
  lemma RenderSplit(front: seq<string>, last: string)
    ensures Render(true, front + [last]) == (if front == [] then "" else Render(true, front)) + "/" + last
  {
    if front != [] {
      Strings.JoinConcat(front, [last], "/");
    } else {
      assert front + [last] == [last];
    }
  }

  /** The directory of a cleaned absolute path is the path without its last component. */
  lemma DirOfRender(cs: seq<string>)
    requires Normal(true, cs)
    ensures Dir(Render(true, cs)) == Render(true, if cs == [] then [] else cs[..|cs| - 1])
  {
    var s := Render(true, cs);
    if cs == [] {
      assert s[..LastSlash(s)] == "/";
      RenderIsClean(true, []);
    } else {
      var front, last := cs[..|cs| - 1], cs[|cs| - 1];
      assert IsComponent(last) && Normal(true, front) && front + [last] == cs;
      hide Render, Components, Clean, Walk;
      var head := if front == [] then "" else Render(true, front);
      RenderSplit(front, last);
      LastSlashAt(head, last);
      assert s[..|head| + 1] == head + "/";
      ComponentsWithSlash(head);
      HeadIsClean(front);
      CleanIsNormal(head + "/");
    }
  }

  lemma HeadIsClean(front: seq<string>)
    requires Normal(true, front)
    ensures var head := if front == [] then "" else Render(true, front);
            Components(head) == front && IsAbs(head + "/") && Walk([], true, front) == front
  {
    ParseOfRender(true, front);
    assert [] + front == front;
    WalkOfNormal([], true, front);
    if front == [] {
      assert Strings.Split("", '/') == [""];
    }
  }
}

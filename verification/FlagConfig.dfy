/**
 Resolving the flags of one command (pkg/config/profile.go, pkg/config/resolver.go): maps
 merged in place, in whatever order a map is visited.
 */
module FlagConfig {
  import opened Results
  import opened FlagLayers

  datatype ResolveError = NotDeclared | Disabled | UnknownProfile(name: string)

  // ---------- the data ----------

  /** FlagSet, a map that is passed by reference; a missing map is null. */
  class FlagSet {
    var entries: Flags

    constructor ()
      ensures entries == map[]
    {
      entries := map[];
    }

    method Clone() returns (out: FlagSet)
      ensures fresh(out) && out.entries == entries
    {
      out := new FlagSet();
      if |entries| == 0 {
        return;
      }
      var rest := entries.Keys;
      while rest != {}
        invariant fresh(out) && rest <= entries.Keys
        invariant out.entries == entries - rest
      {
        var k :| k in rest;
        out.entries := out.entries[k := entries[k]];
        rest := rest - {k};
      }
      assert out.entries == entries;
    }
  }

  function Entries(f: FlagSet?): Flags
    reads f
  {
    if f == null then map[] else f.entries
  }

  datatype CommandSection = CommandSection(profiles: seq<string>, flags: FlagSet?, disabled: bool)

  /** CommandSection.Clone */
  method CloneSection(c: CommandSection) returns (out: CommandSection)
    ensures out.profiles == c.profiles && out.disabled == c.disabled
    ensures out.flags != null && fresh(out.flags) && out.flags.entries == Entries(c.flags)
  {
    var flags: FlagSet;
    if c.flags != null && |c.flags.entries| > 0 {
      flags := c.flags.Clone();
    } else {
      flags := new FlagSet();
    }
    out := CommandSection(c.profiles, flags, c.disabled);
  }

  /** The contents of a profile, with the maps read out. */
  datatype SectionView = SectionView(profiles: seq<string>, flags: Flags, disabled: bool)

  datatype ProfileView = ProfileView(defaults: Flags, profiles: map<string, Flags>, commands: map<string, SectionView>)

  class ConfigurationProfile {
    var defaults: FlagSet?
    var profiles: map<string, FlagSet?>
    var commands: map<string, CommandSection>
    const sourcePath: string

    constructor (sourcePath: string)
      ensures this.sourcePath == sourcePath && fresh(defaults)
      ensures View() == ProfileView(map[], map[], map[])
    {
      var empty := new FlagSet();
      this.sourcePath := sourcePath;
      defaults := empty;
      profiles := map[];
      commands := map[];
    }

    ghost function Sets(): set<FlagSet?>
      reads this
    {
      {defaults} + (set n | n in profiles :: profiles[n]) + (set c | c in commands :: commands[c].flags)
    }

    ghost function View(): ProfileView
      reads this, Sets()
    {
      ProfileView(Entries(defaults),
                  map n | n in profiles :: Entries(profiles[n]),
                  map c | c in commands :: SectionView(commands[c].profiles, Entries(commands[c].flags), commands[c].disabled))
    }
  }

  method AddProfile(profile: ConfigurationProfile, name: string, flags: FlagSet)
    modifies profile`profiles
    ensures profile.View() == old(profile.View()).(profiles := old(profile.View()).profiles[name := flags.entries])
  {
    profile.profiles := profile.profiles[name := flags];
  }

  method AddCommand(profile: ConfigurationProfile, path: string, section: CommandSection)
    modifies profile`commands
    ensures profile.View() == old(profile.View()).(commands :=
              old(profile.View()).commands[path := SectionView(section.profiles, Entries(section.flags), section.disabled)])
  {
    profile.commands := profile.commands[path := section];
  }

  lemma SectionInView(profile: ConfigurationProfile, path: string)
    ensures path in profile.View().commands <==> path in profile.commands
    ensures path in profile.commands ==>
              var c := profile.commands[path];
              c.flags in profile.Sets() && profile.View().commands[path] == SectionView(c.profiles, Entries(c.flags), c.disabled)
  {
  }

  lemma ProfileInView(profile: ConfigurationProfile, name: string)
    ensures profile.View().defaults == Entries(profile.defaults) && profile.defaults in profile.Sets()
    ensures name in profile.View().profiles <==> name in profile.profiles
    ensures name in profile.profiles ==>
              profile.profiles[name] in profile.Sets() && profile.View().profiles[name] == Entries(profile.profiles[name])
  {
  }

  class ResolvedInvocation {
    const commandPath: string
    const profiles: seq<string>
    const sourcePath: string
    const flags: FlagSet
    var overrides: seq<Override>
    var warnings: seq<string>

    constructor (commandPath: string, profile: ConfigurationProfile, section: CommandSection)
      ensures this.commandPath == commandPath && sourcePath == profile.sourcePath && profiles == section.profiles
      ensures fresh(flags) && flags.entries == map[] && overrides == [] && warnings == []
    {
      var empty := new FlagSet();
      this.commandPath := commandPath;
      profiles := section.profiles;
      sourcePath := profile.sourcePath;
      flags := empty;
      overrides := [];
      warnings := [];
    }
  }

  // ---------- what a resolution is ----------

  function FirstMissing(names: seq<string>, profiles: map<string, Flags>): (r: Option<string>)
    ensures r == None <==> forall n :: n in names ==> n in profiles
    ensures r.Some? ==> exists i :: 0 <= i < |names| && names[i] == r.value && r.value !in profiles
                                    && forall j :: 0 <= j < i ==> names[j] in profiles
  {
    if names == [] then None
    else if names[0] !in profiles then Some(names[0])
    else
      var rest := FirstMissing(names[1..], profiles);
      assert rest.Some? ==> forall i :: 0 <= i < |names[1..]| ==> names[1..][i] == names[i + 1];
      rest
  }

  function ProfileLayer(name: string, profiles: map<string, Flags>): Layer
    requires name in profiles
  {
    Layer("profile " + name, profiles[name], PROFILE)
  }

  function ProfileLayers(names: seq<string>, profiles: map<string, Flags>): (r: seq<Layer>)
    requires forall n :: n in names ==> n in profiles
    ensures |r| == |names|
  {
    seq(|names|, i requires 0 <= i < |names| => ProfileLayer(names[i], profiles))
  }

  function Usable(view: Option<ProfileView>, path: string): Result<SectionView, ResolveError> {
    if view == None || path !in view.value.commands then Err(NotDeclared)
    else if view.value.commands[path].disabled then Err(Disabled)
    else Ok(view.value.commands[path])
  }

  /** The layers of an enabled command, lowest precedence first. */
  function SectionChain(view: ProfileView, section: SectionView, path: string, runtime: Flags): Result<seq<Layer>, ResolveError> {
    match FirstMissing(section.profiles, view.profiles)
    case Some(name) => Err(UnknownProfile(name))
    case None =>
      Ok([Layer("defaults", view.defaults, DEFAULT)]
         + ProfileLayers(section.profiles, view.profiles)
         + [Layer("command " + path, section.flags, COMMAND)]
         + [Layer("runtime", runtime, RUNTIME)])
  }

  /** The layers of a command, or why there are none. */
  function Chain(view: Option<ProfileView>, path: string, runtime: Flags): Result<seq<Layer>, ResolveError> {
    match Usable(view, path)
    case Err(e) => Err(e)
    case Ok(section) => SectionChain(view.value, section, path, runtime)
  }

  // ---------- the operations ----------

  method ValidateCommandSection(profile: ConfigurationProfile?, path: string) returns (r: Result<CommandSection, ResolveError>)
    ensures profile == null ==> r == Err(NotDeclared)
    ensures profile != null && path !in profile.commands ==> r == Err(NotDeclared)
    ensures profile != null && path in profile.commands ==>
              r == if profile.commands[path].disabled then Err(Disabled) else Ok(profile.commands[path])
    ensures profile != null ==>
              match Usable(Some(profile.View()), path)
              case Err(e) => r == Err(e)
              case Ok(section) => r.Ok? && path in profile.commands && r.value == profile.commands[path] && !section.disabled
  {
    if profile == null {
      return Err(NotDeclared);
    }
    if path !in profile.commands {
      return Err(NotDeclared);
    }
    var section := profile.commands[path];
    if section.disabled {
      return Err(Disabled);
    }
    return Ok(section);
  }

  class FlagApplier {
    const resolved: ResolvedInvocation

    constructor (resolved: ResolvedInvocation)
      ensures this.resolved == resolved
    {
      this.resolved := resolved;
    }

    /** Puts one layer on top: the flags are replaced, one line for each is appended. */
    method Apply(source: string, flags: FlagSet?, fallback: string) returns (ghost own: seq<Override>)
      requires flags != resolved.flags
      modifies resolved`overrides, resolved.flags
      ensures resolved.flags.entries == Put(old(resolved.flags.entries), Layer(source, Entries(flags), fallback))
      ensures resolved.overrides == old(resolved.overrides) + own
      ensures multiset(own) == multiset(LinesOf(old(resolved.flags.entries), Layer(source, Entries(flags), fallback)))
    {
      hide Put, LinesOf, Visited;
      own := [];
      ghost var l := Layer(source, Entries(flags), fallback);
      ghost var before := resolved.flags.entries;
      NothingVisited(before, l);
      if flags == null || |flags.entries| == 0 {
        EmptyLayer(before, l);
        return;
      }
      var rest := flags.entries.Keys;
      while rest != {}
        invariant rest <= flags.entries.Keys && flags.entries == l.flags
        invariant resolved.flags.entries == Put(before, Visited(l, rest))
        invariant resolved.overrides == old(resolved.overrides) + own
        invariant multiset(own) == multiset(LinesOf(before, Visited(l, rest)))
      {
        var name :| name in rest;
        VisitOne(before, l, rest, name);
        VisitLines(before, l, rest, name);
        var current := flags.entries[name];
        if current.source == "" {
          current := current.(source := fallback);
        }
        if name in resolved.flags.entries {
          var line := Override(source, name, resolved.flags.entries[name].source);
          resolved.overrides := resolved.overrides + [line];
          own := own + [line];
        }
        resolved.flags.entries := resolved.flags.entries[name := current];
        rest := rest - {name};
      }
    }
  }

  /** The layers put on a new invocation so far. */
  ghost predicate Holds(resolved: ResolvedInvocation, layers: seq<Layer>)
    reads resolved, resolved.flags
  {
    resolved.flags.entries == Merge(layers) && Listed(resolved.overrides, layers)
  }

  /** Apply, read as one more layer. */
  method ApplyLayer(applier: FlagApplier, source: string, flags: FlagSet?, fallback: string, ghost layers: seq<Layer>)
    requires flags != applier.resolved.flags && Holds(applier.resolved, layers)
    modifies applier.resolved`overrides, applier.resolved.flags
    ensures Holds(applier.resolved, layers + [Layer(source, Entries(flags), fallback)])
  {
    hide Put, LinesOf, Merge, Listed;
    ghost var lines := applier.resolved.overrides;
    ghost var own := applier.Apply(source, flags, fallback);
    OneMoreLayer(lines, own, layers, Layer(source, Entries(flags), fallback));
  }

  method ApplyProfileSections(applier: FlagApplier, profile: ConfigurationProfile, section: CommandSection, ghost base: seq<Layer>)
      returns (r: Result<Unit, ResolveError>)
    requires applier.resolved.flags !in profile.Sets() && Holds(applier.resolved, base)
    modifies applier.resolved`overrides, applier.resolved.flags
    ensures match FirstMissing(section.profiles, profile.View().profiles)
            case Some(name) => r == Err(UnknownProfile(name))
            case None =>
              && r == Ok(Unit.Unit)
              && Holds(applier.resolved, base + ProfileLayers(section.profiles, profile.View().profiles))
  {
    hide Put, LinesOf, Merge, Listed, Holds, FirstMissing, ProfileLayers, ConfigurationProfile.View;
    ghost var views := profile.View().profiles;
    var names := section.profiles;
    var i := 0;
    NoProfileYet(names, views, base);
    while i < |names|
      invariant 0 <= i <= |names| && profile.View().profiles == views
      invariant forall n :: n in names[..i] ==> n in views
      invariant FirstMissing(names, views) == FirstMissing(names[i..], views)
      invariant Holds(applier.resolved, base + ProfileLayers(names[..i], views))
    {
      var name := names[i];
      ProfileInView(profile, name);
      FirstListed(names, i, views);
      if name !in profile.profiles {
        return Err(UnknownProfile(name));
      }
      ghost var before := ProfileLayers(names[..i], views);
      ApplyLayer(applier, "profile " + name, profile.profiles[name], PROFILE, base + before);
      NextProfile(names, i, views, base);
      i := i + 1;
    }
    assert names[..i] == names;
    return Ok(Unit.Unit);
  }

  lemma NoProfileYet(names: seq<string>, views: map<string, Flags>, base: seq<Layer>)
    ensures base + ProfileLayers(names[..0], views) == base && names[0..] == names
  {
    assert ProfileLayers(names[..0], views) == [];
  }

  lemma FirstListed(names: seq<string>, i: nat, views: map<string, Flags>)
    requires i < |names|
    ensures names[i] !in views ==> FirstMissing(names[i..], views) == Some(names[i])
  {
  }

  lemma NextProfile(names: seq<string>, i: nat, views: map<string, Flags>, base: seq<Layer>)
    requires i < |names| && names[i] in views && forall n :: n in names[..i] ==> n in views
    ensures FirstMissing(names[i..], views) == FirstMissing(names[i + 1..], views)
    ensures forall n :: n in names[..i + 1] ==> n in views
    ensures base + ProfileLayers(names[..i], views) + [ProfileLayer(names[i], views)] == base + ProfileLayers(names[..i + 1], views)
  {
    assert names[i..][1..] == names[i + 1..];
    assert names[..i + 1] == names[..i] + [names[i]];
    assert ProfileLayers(names[..i + 1], views) == ProfileLayers(names[..i], views) + [ProfileLayer(names[i], views)];
  }

  method SanitizeRuntimeOverrides(runtime: FlagSet?) returns (r: FlagSet?)
    ensures r != null ==> fresh(r)
    ensures Entries(r) == map n | n in Entries(runtime) :: Sourced(Entries(runtime)[n], RUNTIME)
  {
    if runtime == null || |runtime.entries| == 0 {
      return null;
    }
    var cloned := runtime.Clone();
    var rest := cloned.entries.Keys;
    while rest != {}
      invariant fresh(cloned) && rest <= cloned.entries.Keys == runtime.entries.Keys
      invariant forall n :: n in runtime.entries ==>
        cloned.entries[n] == if n in rest then runtime.entries[n] else Sourced(runtime.entries[n], RUNTIME)
    {
      var name :| name in rest;
      var value := cloned.entries[name];
      if value.source == "" {
        cloned.entries := cloned.entries[name := value.(source := RUNTIME)];
      }
      rest := rest - {name};
    }
    r := cloned;
  }

  /** The four groups of layers, one after the other. */
  method ApplyAll(applier: FlagApplier, profile: ConfigurationProfile, path: string, runtime: FlagSet?)
      returns (r: Result<Unit, ResolveError>)
    requires path in profile.View().commands && Holds(applier.resolved, [])
    requires applier.resolved.flags !in profile.Sets() && applier.resolved.flags != runtime
    modifies applier.resolved`overrides, applier.resolved.flags
    ensures match SectionChain(old(profile.View()), old(profile.View()).commands[path], path, old(Entries(runtime)))
            case Err(e) => r == Err(e)
            case Ok(layers) => r == Ok(Unit.Unit) && Holds(applier.resolved, layers)
  {
    hide Put, LinesOf, Merge, Listed, Holds, FirstMissing, ProfileLayers, ConfigurationProfile.View;
    SectionInView(profile, path);
    ProfileInView(profile, "");
    ghost var view := profile.View();
    ghost var section := view.commands[path];
    ghost var base := [Layer("defaults", view.defaults, DEFAULT)];
    assert [] + base == base;
    var sanitized := SanitizeRuntimeOverrides(runtime);
    assert profile.View() == view;
    ApplyLayer(applier, "defaults", profile.defaults, DEFAULT, []);
    assert profile.View() == view;
    r := ApplyProfileSections(applier, profile, profile.commands[path], base);
    if r.Err? {
      return;
    }
    ghost var layers := base + ProfileLayers(section.profiles, view.profiles);
    ApplyLayer(applier, "command " + path, profile.commands[path].flags, COMMAND, layers);
    layers := layers + [Layer("command " + path, section.flags, COMMAND)];
    ApplyLayer(applier, "runtime", sanitized, RUNTIME, layers);
    SanitizedLayer(layers, old(Entries(runtime)), Entries(sanitized), applier.resolved);
  }

  /** newResolvedInvocation and newFlagApplier */
  method NewApplier(path: string, profile: ConfigurationProfile, section: CommandSection) returns (applier: FlagApplier)
    ensures fresh(applier) && fresh(applier.resolved) && fresh(applier.resolved.flags) && Holds(applier.resolved, [])
    ensures applier.resolved.commandPath == path && applier.resolved.profiles == section.profiles
    ensures applier.resolved.sourcePath == profile.sourcePath && applier.resolved.warnings == []
  {
    var resolved := new ResolvedInvocation(path, profile, section);
    applier := new FlagApplier(resolved);
    NoLayers();
  }

  /** The inputs are only read: the result and its maps are new. */
  method ResolveInvocation(profile: ConfigurationProfile?, path: string, runtime: FlagSet?)
      returns (r: Result<ResolvedInvocation, ResolveError>)
    ensures (profile != null ==> profile.View() == old(profile.View())) && Entries(runtime) == old(Entries(runtime))
    ensures match Chain(if profile == null then None else Some(profile.View()), path, Entries(runtime))
            case Err(e) => r == Err(e)
            case Ok(layers) =>
              && r.Ok? && fresh(r.value) && fresh(r.value.flags) && Holds(r.value, layers)
              && r.value.commandPath == path && profile != null && path in profile.commands
              && r.value.profiles == profile.commands[path].profiles
              && r.value.sourcePath == profile.sourcePath && r.value.warnings == []
  {
    hide Holds, SectionChain, ConfigurationProfile.View;
    assert profile != null ==> forall s :: s in profile.Sets() ==> allocated(s);
    var valid := ValidateCommandSection(profile, path);
    if valid.Err? {
      return Err(valid.error);
    }
    SectionInView(profile, path);
    var applier := NewApplier(path, profile, valid.value);
    var done := ApplyAll(applier, profile, path, runtime);
    r := if done.Err? then Err(done.error) else Ok(applier.resolved);
  }

  lemma NoLayers()
    ensures Merge([]) == map[] && Listed([], [])
  {
  }

  lemma SanitizedLayer(layers: seq<Layer>, runtime: Flags, filled: Flags, resolved: ResolvedInvocation)
    requires filled == map n | n in runtime :: Sourced(runtime[n], RUNTIME)
    ensures Holds(resolved, layers + [Layer("runtime", filled, RUNTIME)]) <==> Holds(resolved, layers + [Layer("runtime", runtime, RUNTIME)])
  {
    hide Put, LinesOf, Merge, Listed, Sourced;
    var a, b := Layer("runtime", filled, RUNTIME), Layer("runtime", runtime, RUNTIME);
    FilledInBefore(Merge(layers), b, filled);
    assert b.(flags := filled) == a;
    SameTop(layers, a, b, resolved.overrides);
  }

  // ---------- main results ----------

  /**
   The layers of a resolution: the defaults, then the listed profiles in order, then the
   command's flags, then what was given at run time, each under the name its override lines show.
   */
  lemma LayersAre(view: ProfileView, path: string, runtime: Flags)
    requires Chain(Some(view), path, runtime).Ok?
    ensures path in view.commands && !view.commands[path].disabled
    ensures var layers, section := Chain(Some(view), path, runtime).value, view.commands[path];
            && |layers| == |section.profiles| + 3
            && layers[0] == Layer("defaults", view.defaults, "default")
            && (forall i :: 0 <= i < |section.profiles| ==>
                  && section.profiles[i] in view.profiles
                  && layers[1 + i] == Layer("profile " + section.profiles[i], view.profiles[section.profiles[i]], "profile"))
            && layers[|layers| - 2] == Layer("command " + path, section.flags, "command")
            && layers[|layers| - 1] == Layer("runtime", runtime, "runtime")
  {
    var names, layers := view.commands[path].profiles, Chain(Some(view), path, runtime).value;
    forall i | 0 <= i < |names|
      ensures names[i] in view.profiles
      ensures layers[1 + i] == Layer("profile " + names[i], view.profiles[names[i]], "profile")
    {
      assert layers[1 + i] == ProfileLayers(names, view.profiles)[i];
    }
  }

  /** The last listed profile that defines the name. */
  function LastProfile(names: seq<string>, profiles: map<string, Flags>, name: string): Option<FlagValue>
    requires forall n :: n in names ==> n in profiles
  {
    if names == [] then None
    else
      var top := names[|names| - 1];
      if name in profiles[top] then Some(Sourced(profiles[top][name], PROFILE))
      else LastProfile(names[..|names| - 1], profiles, name)
  }

  /** The layered lookup: runtime, else command, else the last profile, else the defaults. */
  function Lookup(view: ProfileView, section: SectionView, runtime: Flags, name: string): Option<FlagValue>
    requires forall n :: n in section.profiles ==> n in view.profiles
  {
    if name in runtime then Some(Sourced(runtime[name], RUNTIME))
    else if name in section.flags then Some(Sourced(section.flags[name], COMMAND))
    else
      var p := LastProfile(section.profiles, view.profiles, name);
      if p.Some? then p
      else if name in view.defaults then Some(Sourced(view.defaults[name], DEFAULT))
      else None
  }

  function Get(flags: Flags, name: string): Option<FlagValue> {
    if name in flags then Some(flags[name]) else None
  }

  lemma TopLayer(layers: seq<Layer>, l: Layer, name: string)
    ensures Get(Merge(layers + [l]), name) ==
            if name in l.flags then Some(Sourced(l.flags[name], l.fallback)) else Get(Merge(layers), name)
  {
    assert (layers + [l])[..|layers|] == layers;
  }

  lemma {:induction false} ProfilesOverBase(base: seq<Layer>, names: seq<string>, profiles: map<string, Flags>, name: string)
    requires forall n :: n in names ==> n in profiles
    ensures var p := LastProfile(names, profiles, name);
            Get(Merge(base + ProfileLayers(names, profiles)), name) == if p.Some? then p else Get(Merge(base), name)
    decreases |names|
  {
    hide Merge, Get;
    if names == [] {
      assert base + ProfileLayers(names, profiles) == base;
    } else {
      var k := |names| - 1;
      ProfilesOverBase(base, names[..k], profiles, name);
      var below, top := ProfileLayers(names[..k], profiles), ProfileLayer(names[k], profiles);
      TopLayer(base + below, top, name);
      assert base + ProfileLayers(names, profiles) == base + below + [top];
    }
  }

  /** Merging map after map, in any order of visits, is the layered lookup. */
  lemma ResolvedFlagsAreTheLookup(view: ProfileView, path: string, runtime: Flags, name: string)
    requires Chain(Some(view), path, runtime).Ok?
    ensures Get(Merge(Chain(Some(view), path, runtime).value), name) == Lookup(view, view.commands[path], runtime, name)
  {
    hide Merge, Get, LastProfile;
    var section := view.commands[path];
    var base := [Layer("defaults", view.defaults, DEFAULT)];
    var mid := base + ProfileLayers(section.profiles, view.profiles);
    var command := Layer("command " + path, section.flags, COMMAND);
    TopLayer(mid + [command], Layer("runtime", runtime, RUNTIME), name);
    TopLayer(mid, command, name);
    ProfilesOverBase(base, section.profiles, view.profiles, name);
    TopLayer([], base[0], name);
    assert [] + [base[0]] == base;
    assert Get(Merge([]), name) == None by { NothingMerged(name); }
  }

  lemma NothingMerged(name: string)
    ensures Get(Merge([]), name) == None
  {
  }
}

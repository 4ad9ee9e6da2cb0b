/**
 Turning a parsed configuration file into typed flag values (internal/config/loader.go).
 The YAML parser is not part of this model; its result is a RawProfile.
 */
module FlagLoader {
  import opened Results
  import opened Strings
  import opened FlagLayers
  import opened FlagConfig
  import opened FlagCatalog

  /** A value as the YAML parser hands it over; numbers and Stringers carry their printed form. */
  datatype Raw =
    | RawBool(on: bool)
    | RawText(text: string)
    | RawNumber(printed: string)
    | RawStringer(printed: string)
    | RawList(items: seq<Raw>)
    | RawTexts(texts: seq<string>)
    | RawOther

  type RawFlags = map<string, Raw>

  datatype RawSection = RawSection(profiles: seq<string>, flags: RawFlags, disabled: bool)

  datatype RawProfile = RawProfile(defaults: RawFlags, profiles: map<string, RawFlags>, commands: map<string, RawSection>)

  datatype LoadError =
    | SecretsDisallowed(name: string)
    | UnknownFlag(name: string)
    | InvalidFlagType(name: string)
    | UnknownCommand(path: string, available: seq<string>)
    | InProfile(profile: string, cause: LoadError)
    | InCommand(path: string, cause: LoadError)

  // ---------- single values ----------

  const SENSITIVE: seq<string> := ["token", "secret", "passphrase", "password", "kubeconfig"]

  predicate IsSensitive(name: string) {
    exists i :: 0 <= i < |SENSITIVE| && Contains(Lower(name), SENSITIVE[i])
  }

  /** strconv.ParseBool */
  function ParseBool(s: string): Option<bool> {
    if s in ["1", "t", "T", "true", "TRUE", "True"] then Some(true)
    else if s in ["0", "f", "F", "false", "FALSE", "False"] then Some(false)
    else None
  }

  function FormatBool(b: bool): string {
    if b then "true" else "false"
  }

  function Stringify(raw: Raw): Option<string> {
    match raw
    case RawText(s) => Some(s)
    case RawStringer(s) => Some(s)
    case RawNumber(s) => Some(s)
    case RawBool(b) => Some(FormatBool(b))
    case _ => None
  }

  function StringifyAll(items: seq<Raw>): (r: Option<seq<string>>)
    ensures r.Some? ==> |r.value| == |items|
  {
    if items == [] then Some([])
    else
      var first, rest := Stringify(items[0]), StringifyAll(items[1..]);
      if first.Some? && rest.Some? then Some([first.value] + rest.value) else None
  }

  function CoerceBool(raw: Raw): Option<Value> {
    match raw
    case RawBool(b) => Some(BoolValue(b))
    case RawText(s) => (match ParseBool(TrimSpace(s)) case Some(b) => Some(BoolValue(b)) case None => None)
    case _ => None
  }

  function CoerceList(raw: Raw): Option<Value> {
    match raw
    case RawList(items) => (match StringifyAll(items) case Some(ts) => Some(ListValue(ts)) case None => None)
    case RawTexts(ts) => Some(ListValue(ts))
    case RawText(s) => Some(ListValue([TrimSpace(s)]))
    case _ => None
  }

  function Coerce(raw: Raw, t: FlagType): Option<Value> {
    match t
    case BoolType => CoerceBool(raw)
    case ListType => CoerceList(raw)
    case TextType => (match Stringify(raw) case Some(s) => Some(TextValue(s)) case None => None)
  }

  predicate HasType(v: Value, t: FlagType) {
    match t
    case BoolType => v.BoolValue?
    case ListType => v.ListValue?
    case TextType => v.TextValue?
  }

  lemma CoercedHasType(raw: Raw, t: FlagType)
    ensures Coerce(raw, t).Some? ==> HasType(Coerce(raw, t).value, t)
  {
  }

  function Following(texts: seq<string>, rest: Option<seq<string>>): Option<seq<string>> {
    if rest.Some? then Some(texts + rest.value) else None
  }

  /** One text for every item, at its place. */
  predicate TextsInOrder(items: seq<Raw>, texts: seq<string>) {
    |texts| == |items| && forall i :: 0 <= i < |items| ==> Stringify(items[i]) == Some(texts[i])
  }

  lemma {:induction false} AllOrNone(items: seq<Raw>)
    ensures StringifyAll(items).Some? <==> forall i :: 0 <= i < |items| ==> Stringify(items[i]).Some?
    ensures StringifyAll(items).Some? ==> TextsInOrder(items, StringifyAll(items).value)
  {
    hide Stringify;
    if items != [] {
      AllOrNone(items[1..]);
      assert forall i :: 0 <= i < |items[1..]| ==> items[1..][i] == items[i + 1];
      assert forall i :: 0 < i < |items| ==> items[i] == items[1..][i - 1];
    }
  }

  lemma AllAhead(items: seq<Raw>)
    ensures StringifyAll(items) == Following([], StringifyAll(items[0..]))
  {
    assert items[0..] == items;
    var all := StringifyAll(items);
    assert all.Some? ==> [] + all.value == all.value;
  }

  lemma OneMoreText(texts: seq<string>, items: seq<Raw>, i: nat)
    requires i < |items|
    ensures Following(texts, StringifyAll(items[i..])) ==
            if Stringify(items[i]).Some? then Following(texts + [Stringify(items[i]).value], StringifyAll(items[i + 1..])) else None
  {
    hide Stringify;
    var rest := StringifyAll(items[i + 1..]);
    if Stringify(items[i]).Some? && rest.Some? {
      assert texts + ([Stringify(items[i]).value] + rest.value) == texts + [Stringify(items[i]).value] + rest.value;
    }
    assert items[i..][0] == items[i] && items[i..][1..] == items[i + 1..];
  }

  lemma NoMoreTexts(texts: seq<string>, items: seq<Raw>)
    ensures Following(texts, StringifyAll(items[|items|..])) == Some(texts)
  {
    assert texts + [] == texts;
  }

  // ---------- what a raw value becomes, written out ----------

  predicate SaysTrue(s: string) {
    s == "1" || s == "t" || s == "T" || s == "true" || s == "TRUE" || s == "True"
  }

  predicate SaysFalse(s: string) {
    s == "0" || s == "f" || s == "F" || s == "false" || s == "FALSE" || s == "False"
  }

  /** The text that a raw value prints as. */
  predicate Prints(raw: Raw, text: string) {
    match raw
    case RawText(s) => text == s
    case RawStringer(s) => text == s
    case RawNumber(s) => text == s
    case RawBool(b) => text == (if b then "true" else "false")
    case _ => false
  }

  /** The value v stands for the raw value, read as type t. */
  predicate StandsFor(raw: Raw, t: FlagType, v: Value) {
    match t
    case BoolType =>
      v.BoolValue? && ((raw.RawBool? && v.on == raw.on) || (raw.RawText? && if v.on then SaysTrue(TrimSpace(raw.text)) else SaysFalse(TrimSpace(raw.text))))
    case TextType => v.TextValue? && Prints(raw, v.text)
    case ListType =>
      && v.ListValue?
      && match raw
         case RawList(items) => |v.items| == |items| && forall i :: 0 <= i < |items| ==> Prints(items[i], v.items[i])
         case RawTexts(texts) => v.items == texts
         case RawText(s) => v.items == [TrimSpace(s)]
         case _ => false
  }

  lemma StringifyPrints(raw: Raw, text: string)
    ensures Stringify(raw) == Some(text) <==> Prints(raw, text)
  {
  }

  /** A raw value is coerced to v exactly when v stands for it. */
  lemma CoercedIffStandsFor(raw: Raw, t: FlagType, v: Value)
    ensures Coerce(raw, t) == Some(v) <==> StandsFor(raw, t, v)
  {
    hide StringifyAll, Stringify, Prints, TrimSpace, ParseBool, SaysTrue, SaysFalse;
    match t {
      case BoolType =>
        if raw.RawText? {
          ParsedWords(TrimSpace(raw.text));
        }
      case TextType =>
        if v.TextValue? {
          StringifyPrints(raw, v.text);
        }
      case ListType =>
        if raw.RawList? && v.ListValue? {
          PrintedLists(raw.items, v.items);
        }
    }
  }

  lemma ParsedWords(s: string)
    ensures ParseBool(s) == Some(true) <==> SaysTrue(s)
    ensures ParseBool(s) == Some(false) <==> SaysFalse(s)
  {
  }

  lemma PrintedLists(items: seq<Raw>, texts: seq<string>)
    ensures StringifyAll(items) == Some(texts) <==>
            |texts| == |items| && forall i :: 0 <= i < |items| ==> Prints(items[i], texts[i])
  {
    hide Stringify, StringifyAll, Prints;
    AllOrNone(items);
    if |texts| == |items| {
      forall i | 0 <= i < |items|
        ensures Stringify(items[i]) == Some(texts[i]) <==> Prints(items[i], texts[i])
      {
        StringifyPrints(items[i], texts[i]);
      }
      if StringifyAll(items).Some? && forall i :: 0 <= i < |items| ==> Prints(items[i], texts[i]) {
        assert StringifyAll(items).value == texts;
      }
    }
  }

  /** An entry is accepted exactly when its name is known and not sensitive and some value of the type stands for it. */
  lemma TypedIff(v: View, command: string, name: string, raw: Raw)
    ensures Typed(v, command, name, raw).Ok? <==>
            && !IsSensitive(name) && TypeAt(v, command, name).Some?
            && exists value :: StandsFor(raw, TypeAt(v, command, name).value, value)
    ensures IsSensitive(name) ==> Typed(v, command, name, raw) == Err(SecretsDisallowed(name))
    ensures !IsSensitive(name) && TypeAt(v, command, name) == None ==> Typed(v, command, name, raw) == Err(UnknownFlag(name))
  {
    hide IsSensitive, TypeAt, Coerce, StandsFor;
    if TypeAt(v, command, name).Some? {
      var t := TypeAt(v, command, name).value;
      if Coerce(raw, t).Some? {
        CoercedIffStandsFor(raw, t, Coerce(raw, t).value);
      }
      forall value | StandsFor(raw, t, value)
        ensures Coerce(raw, t).Some?
      {
        CoercedIffStandsFor(raw, t, value);
      }
    }
  }

  /** The five words that make a flag name sensitive, in any letter case. */
  lemma SensitiveNames(name: string)
    ensures IsSensitive(name) <==>
            || Occurs(name, "token") || Occurs(name, "secret") || Occurs(name, "passphrase")
            || Occurs(name, "password") || Occurs(name, "kubeconfig")
  {
    hide Contains, Occurs, Lower;
    ContainsFolded(name, "token");
    ContainsFolded(name, "secret");
    ContainsFolded(name, "passphrase");
    ContainsFolded(name, "password");
    ContainsFolded(name, "kubeconfig");
    assert Contains(Lower(name), SENSITIVE[0]) <==> Contains(Lower(name), "token");
    assert Contains(Lower(name), SENSITIVE[1]) <==> Contains(Lower(name), "secret");
    assert Contains(Lower(name), SENSITIVE[2]) <==> Contains(Lower(name), "passphrase");
    assert Contains(Lower(name), SENSITIVE[3]) <==> Contains(Lower(name), "password");
    assert Contains(Lower(name), SENSITIVE[4]) <==> Contains(Lower(name), "kubeconfig");
  }

  /** coerceStringSliceValue */
  method CoerceStringSlice(raw: Raw) returns (r: Option<Value>)
    ensures raw.RawList? ==>
              && (r.Some? <==> forall i :: 0 <= i < |raw.items| ==> Stringify(raw.items[i]).Some?)
              && (r.Some? ==> r.value.ListValue? && TextsInOrder(raw.items, r.value.items))
    ensures raw.RawTexts? ==> r == Some(ListValue(raw.texts))
    ensures raw.RawText? ==> r == Some(ListValue([TrimSpace(raw.text)]))
    ensures !raw.RawList? && !raw.RawTexts? && !raw.RawText? ==> r == None
    ensures r == CoerceList(raw)
  {
    hide Stringify, StringifyAll, TextsInOrder;
    if raw.RawList? {
      AllOrNone(raw.items);
    }
    match raw {
      case RawList(items) =>
        var texts: seq<string> := [];
        AllAhead(items);
        for i := 0 to |items|
          invariant StringifyAll(items) == Following(texts, StringifyAll(items[i..]))
        {
          OneMoreText(texts, items, i);
          var text := Stringify(items[i]);
          if text == None {
            return None;
          }
          texts := texts + [text.value];
        }
        NoMoreTexts(texts, items);
        return Some(ListValue(texts));
      case RawTexts(texts) => return Some(ListValue(texts));
      case RawText(text) => return Some(ListValue([TrimSpace(text)]));
      case _ => return None;
    }
  }

  // ---------- flag sets ----------

  function TypeAt(v: View, command: string, name: string): Option<FlagType> {
    if command == "" then if name in v.index then Some(v.index[name]) else None
    else if command in v.commands && name in v.commands[command] then Some(v.commands[command][name])
    else None
  }

  function Typed(v: View, command: string, name: string, raw: Raw): Result<Value, LoadError> {
    if IsSensitive(name) then Err(SecretsDisallowed(name))
    else
      match TypeAt(v, command, name)
      case None => Err(UnknownFlag(name))
      case Some(t) =>
        match Coerce(raw, t)
        case None => Err(InvalidFlagType(name))
        case Some(value) => Ok(value)
  }

  predicate Accepted(v: View, command: string, entries: RawFlags) {
    forall n :: n in entries ==> Typed(v, command, n, entries[n]).Ok?
  }

  function Built(v: View, command: string, entries: RawFlags, fallback: string): Flags {
    map n | n in entries && Typed(v, command, n, entries[n]).Ok? ::
      FlagValue(Typed(v, command, n, entries[n]).value, fallback)
  }

  predicate Refused(v: View, command: string, entries: RawFlags, e: LoadError) {
    exists n :: n in entries && Typed(v, command, n, entries[n]) == Err(e)
  }

  lemma NothingBuilt(v: View, command: string, fallback: string)
    ensures Accepted(v, command, map[]) && Built(v, command, map[], fallback) == map[]
  {
    hide Typed;
  }

  lemma BuiltStep(v: View, command: string, entries: RawFlags, seen: RawFlags, name: string, fallback: string)
    requires name in entries && Accepted(v, command, seen)
    ensures match Typed(v, command, name, entries[name])
            case Err(e) => !Accepted(v, command, entries) && Refused(v, command, entries, e)
            case Ok(value) =>
              && Accepted(v, command, seen[name := entries[name]])
              && Built(v, command, seen[name := entries[name]], fallback) ==
                 Built(v, command, seen, fallback)[name := FlagValue(value, fallback)]
  {
    hide Typed;
  }

  class Loader {
    const catalog: CobraCatalog

    constructor (catalog: CobraCatalog)
      ensures this.catalog == catalog
    {
      this.catalog := catalog;
    }

    /** The loop body of buildFlagSet for one entry. */
    method BuildEntry(name: string, raw: Raw, command: string) returns (r: Result<Value, LoadError>)
      ensures r == Typed(catalog.Contents(), command, name, raw)
    {
      if IsSensitive(name) {
        return Err(SecretsDisallowed(name));
      }
      var flagType := if command != "" then catalog.FlagType(command, name) else catalog.AnyFlagType(name);
      if flagType == None {
        return Err(UnknownFlag(name));
      }
      var value: Option<Value>;
      match flagType.value {
        case ListType => value := CoerceStringSlice(raw);
        case _ => value := Coerce(raw, flagType.value);
      }
      return if value == None then Err(InvalidFlagType(name)) else Ok(value.value);
    }

    /** The entries are visited in any order; the first one that is refused ends the loop. */
    method BuildFlagSet(entries: RawFlags, command: string, fallback: string) returns (r: Result<FlagSet, LoadError>)
      ensures r.Ok? <==> Accepted(catalog.Contents(), command, entries)
      ensures r.Ok? ==> fresh(r.value) && r.value.entries == Built(catalog.Contents(), command, entries, fallback)
      ensures r.Err? ==> Refused(catalog.Contents(), command, entries, r.error)
    {
      hide Typed, Accepted, Built, CobraCatalog.Contents;
      ghost var v := catalog.Contents();
      NothingBuilt(v, command, fallback);
      var flags := new FlagSet();
      var rest := entries.Keys;
      assert entries - rest == map[];
      while rest != {}
        invariant fresh(flags) && rest <= entries.Keys && catalog.Contents() == v
        invariant Accepted(v, command, entries - rest)
        invariant flags.entries == Built(v, command, entries - rest, fallback)
      {
        var name :| name in rest;
        BuiltStep(v, command, entries, entries - rest, name, fallback);
        var value := BuildEntry(name, entries[name], command);
        if value.Err? {
          return Err(value.error);
        }
        flags.entries := flags.entries[name := FlagValue(value.value, fallback)];
        assert entries - (rest - {name}) == (entries - rest)[name := entries[name]];
        rest := rest - {name};
      }
      assert entries - rest == entries;
      return Ok(flags);
    }

    // ---------- the three sections ----------

    method PopulateDefaults(profile: ConfigurationProfile, raw: RawProfile) returns (e: Option<LoadError>)
      requires profile.View().defaults == map[]
      modifies profile`defaults
      ensures e == None <==> Accepted(catalog.Contents(), "", raw.defaults)
      ensures e == None ==>
                profile.View() == old(profile.View()).(defaults := Built(catalog.Contents(), "", raw.defaults, DEFAULT))
      ensures e.Some? ==> Refused(catalog.Contents(), "", raw.defaults, e.value)
    {
      if |raw.defaults| == 0 {
        return None;
      }
      hide Typed, CobraCatalog.Contents, Built, Accepted, Refused;
      var flags := BuildFlagSet(raw.defaults, "", DEFAULT);
      if flags.Err? {
        return Some(flags.error);
      }
      profile.defaults := flags.value;
      return None;
    }

    method PopulateProfiles(profile: ConfigurationProfile, raw: RawProfile) returns (e: Option<LoadError>)
      requires profile.View().profiles == map[]
      modifies profile`profiles
      ensures e == None <==> ProfilesAccepted(catalog.Contents(), raw.profiles)
      ensures e == None ==>
                profile.View() == old(profile.View()).(profiles := BuiltProfiles(catalog.Contents(), raw.profiles))
      ensures e.Some? ==> ProfileRefused(catalog.Contents(), raw.profiles, e.value)
    {
      hide Typed, CobraCatalog.Contents, Built, Accepted, Refused, BuiltProfiles, ProfilesAccepted, ConfigurationProfile.View;
      NoProfiles(catalog.Contents());
      ghost var v, before := catalog.Contents(), profile.View();
      var rest := raw.profiles.Keys;
      assert raw.profiles - rest == map[];
      while rest != {}
        invariant rest <= raw.profiles.Keys && catalog.Contents() == v
        invariant ProfilesAccepted(v, raw.profiles - rest)
        invariant profile.View() == before.(profiles := BuiltProfiles(v, raw.profiles - rest))
      {
        var name :| name in rest;
        ghost var was := profile.View();
        assert forall s :: s in profile.Sets() ==> allocated(s);
        var flags := BuildFlagSet(raw.profiles[name], "", PROFILE);
        assert profile.View() == was;
        ProfilesStep(v, raw.profiles, raw.profiles - rest, name);
        if flags.Err? {
          return Some(InProfile(name, flags.error));
        }
        AddProfile(profile, name, flags.value);
        assert raw.profiles - (rest - {name}) == (raw.profiles - rest)[name := raw.profiles[name]];
        rest := rest - {name};
      }
      assert raw.profiles - rest == raw.profiles;
      return None;
    }

    method PopulateCommands(profile: ConfigurationProfile, raw: RawProfile) returns (e: Option<LoadError>)
      requires profile.View().commands == map[]
      modifies profile`commands
      ensures e == None <==> CommandsAccepted(catalog.Contents(), raw.commands)
      ensures e == None ==>
                && profile.View() == old(profile.View()).(commands := profile.View().commands)
                && CommandsBuilt(catalog.Contents(), raw.commands, profile.View().commands)
      ensures e.Some? ==> CommandRefused(catalog.Contents(), raw.commands, e.value)
    {
      hide Typed, Built, Accepted, Refused, TrimSpace, CommandsBuilt, CommandsAccepted, CommandRefused, ConfigurationProfile.View;
      NoCommands(catalog.Contents());
      ghost var v, before := catalog.Contents(), profile.View();
      var rest := raw.commands.Keys;
      assert raw.commands - rest == map[];
      while rest != {}
        invariant rest <= raw.commands.Keys && catalog.Contents() == v
        invariant CommandsAccepted(v, raw.commands - rest)
        invariant profile.View() == before.(commands := profile.View().commands)
        invariant CommandsBuilt(v, raw.commands - rest, profile.View().commands)
      {
        var command :| command in rest;
        var section := raw.commands[command];
        var cmdPath := TrimSpace(command);
        var seen := raw.commands - rest;
        assert raw.commands - (rest - {command}) == seen[command := section];
        rest := rest - {command};
        CommandsStep(v, raw.commands, seen, profile.View().commands, command);
        if cmdPath == "" {
          continue;
        }
        if !catalog.IsCommandSupported(cmdPath) {
          var available := catalog.Commands();
          return Some(UnknownCommand(cmdPath, available));
        }
        ghost var built := profile.View().commands;
        assert forall s :: s in profile.Sets() ==> allocated(s);
        var flags := BuildFlagSet(section.flags, cmdPath, COMMAND);
        if flags.Err? {
          return Some(InCommand(cmdPath, flags.error));
        }
        assert profile.View().commands == built;
        AddCommand(profile, cmdPath, CommandSection(section.profiles, flags.value, section.disabled));
        OneMoreCommand(v, seen, built, command, section);
      }
      assert raw.commands - rest == raw.commands;
      return None;
    }

    /** Load, from the parsed file on. */
    method Load(path: string, raw: RawProfile) returns (r: Result<ConfigurationProfile, LoadError>)
      ensures r.Ok? <==> Loadable(catalog.Contents(), raw)
      ensures r.Ok? ==> fresh(r.value) && r.value.sourcePath == path && LoadedFrom(catalog.Contents(), raw, r.value.View())
      ensures r.Ok? ==> StandsForFile(catalog.Contents(), raw, r.value.View())
      ensures r.Err? ==> Explained(catalog.Contents(), raw, r.error)
    {
      hide Typed, CobraCatalog.Contents, Built, Accepted, Refused, ProfilesAccepted, BuiltProfiles, CommandsAccepted, CommandsBuilt,
        CommandRefused, ProfileRefused, StandsForFile, ConfigurationProfile.View;
      var profile := new ConfigurationProfile(path);
      var e := PopulateDefaults(profile, raw);
      if e.Some? {
        return Err(e.value);
      }
      e := PopulateProfiles(profile, raw);
      if e.Some? {
        return Err(e.value);
      }
      e := PopulateCommands(profile, raw);
      if e.Some? {
        return Err(e.value);
      }
      LoadedStandsForTheFile(catalog.Contents(), raw, profile.View());
      return Ok(profile);
    }
  }

  // ---------- what a loaded profile is ----------

  predicate ProfilesAccepted(v: View, profiles: map<string, RawFlags>) {
    forall n :: n in profiles ==> Accepted(v, "", profiles[n])
  }

  function BuiltProfiles(v: View, profiles: map<string, RawFlags>): map<string, Flags> {
    map n | n in profiles :: Built(v, "", profiles[n], PROFILE)
  }

  ghost predicate ProfileRefused(v: View, profiles: map<string, RawFlags>, e: LoadError) {
    && e.InProfile? && e.profile in profiles && Refused(v, "", profiles[e.profile], e.cause)
  }

  lemma NoProfiles(v: View)
    ensures ProfilesAccepted(v, map[]) && BuiltProfiles(v, map[]) == map[]
  {
  }

  lemma ProfilesStep(v: View, profiles: map<string, RawFlags>, seen: map<string, RawFlags>, name: string)
    requires name in profiles && ProfilesAccepted(v, seen)
    ensures Accepted(v, "", profiles[name]) ==> ProfilesAccepted(v, seen[name := profiles[name]])
    ensures !Accepted(v, "", profiles[name]) ==> !ProfilesAccepted(v, profiles)
    ensures BuiltProfiles(v, seen[name := profiles[name]]) ==
            BuiltProfiles(v, seen)[name := Built(v, "", profiles[name], PROFILE)]
  {
    hide Accepted, Built;
  }

  /** A command key whose path is blank is skipped, whatever stands below it. */
  predicate CommandsAccepted(v: View, commands: map<string, RawSection>) {
    forall c :: c in commands && TrimSpace(c) != "" ==>
      TrimSpace(c) in v.commands && Accepted(v, TrimSpace(c), commands[c].flags)
  }

  function BuiltSection(v: View, command: string, section: RawSection): SectionView {
    SectionView(section.profiles, Built(v, TrimSpace(command), section.flags, COMMAND), section.disabled)
  }

  predicate IsFrom(v: View, commands: map<string, RawSection>, c: string, path: string, section: SectionView) {
    c in commands && TrimSpace(c) == path && section == BuiltSection(v, c, commands[c])
  }

  /** Every key that is not blank has a section under its trimmed path, and every section comes from such a key. */
  ghost predicate CommandsBuilt(v: View, commands: map<string, RawSection>, built: map<string, SectionView>) {
    && (forall c :: c in commands && TrimSpace(c) != "" ==> TrimSpace(c) in built)
    && (forall path :: path in built ==> path != "" && exists c :: IsFrom(v, commands, c, path, built[path]))
  }

  ghost predicate CommandRefused(v: View, commands: map<string, RawSection>, e: LoadError) {
    exists c :: c in commands && TrimSpace(c) != "" &&
      ((TrimSpace(c) !in v.commands && e == UnknownCommand(TrimSpace(c), v.order)) ||
       (e.InCommand? && e.path == TrimSpace(c) && Refused(v, e.path, commands[c].flags, e.cause)))
  }

  lemma NoCommands(v: View)
    ensures CommandsAccepted(v, map[]) && CommandsBuilt(v, map[], map[])
  {
    hide TrimSpace;
  }

  /** One key: skipped when blank, accepted or the reason for a refusal. */
  lemma CommandsStep(v: View, commands: map<string, RawSection>, seen: map<string, RawSection>, built: map<string, SectionView>, c: string)
    requires c in commands && c !in seen && (forall d :: d in seen ==> d in commands && seen[d] == commands[d])
    requires CommandsAccepted(v, seen) && CommandsBuilt(v, seen, built)
    ensures var path, flags := TrimSpace(c), commands[c].flags;
            && (path == "" ==> CommandsAccepted(v, seen[c := commands[c]]) && CommandsBuilt(v, seen[c := commands[c]], built))
            && (path != "" && path in v.commands && Accepted(v, path, flags) ==> CommandsAccepted(v, seen[c := commands[c]]))
            && (path != "" && path !in v.commands ==>
                  !CommandsAccepted(v, commands) && CommandRefused(v, commands, UnknownCommand(path, v.order)))
            && (path != "" && path in v.commands && !Accepted(v, path, flags) ==> !CommandsAccepted(v, commands))
            && (path != "" && path in v.commands ==>
                  forall e :: Refused(v, path, flags, e) ==> CommandRefused(v, commands, InCommand(path, e)))
  {
    hide TrimSpace, Accepted, Refused, BuiltSection;
    var more := seen[c := commands[c]];
    if TrimSpace(c) == "" {
      forall path | path in built
        ensures path != "" && exists d :: IsFrom(v, more, d, path, built[path])
      {
        var d :| IsFrom(v, seen, d, path, built[path]);
        assert IsFrom(v, more, d, path, built[path]);
      }
    }
  }

  lemma OneMoreCommand(v: View, seen: map<string, RawSection>, built: map<string, SectionView>, command: string, section: RawSection)
    requires CommandsBuilt(v, seen, built) && TrimSpace(command) != "" && command !in seen
    ensures CommandsBuilt(v, seen[command := section], built[TrimSpace(command) := BuiltSection(v, command, section)])
  {
    hide TrimSpace, BuiltSection;
    var more, now := seen[command := section], built[TrimSpace(command) := BuiltSection(v, command, section)];
    forall path | path in now
      ensures path != "" && exists c :: IsFrom(v, more, c, path, now[path])
    {
      if path == TrimSpace(command) {
        assert IsFrom(v, more, command, path, now[path]);
      } else {
        var c :| IsFrom(v, seen, c, path, built[path]);
        assert IsFrom(v, more, c, path, now[path]);
      }
    }
  }

  predicate Loadable(v: View, raw: RawProfile) {
    && Accepted(v, "", raw.defaults)
    && ProfilesAccepted(v, raw.profiles)
    && CommandsAccepted(v, raw.commands)
  }

  ghost predicate LoadedFrom(v: View, raw: RawProfile, p: ProfileView) {
    && p.defaults == Built(v, "", raw.defaults, DEFAULT)
    && p.profiles == BuiltProfiles(v, raw.profiles)
    && CommandsBuilt(v, raw.commands, p.commands)
  }

  ghost predicate Explained(v: View, raw: RawProfile, e: LoadError) {
    || Refused(v, "", raw.defaults, e)
    || ProfileRefused(v, raw.profiles, e)
    || CommandRefused(v, raw.commands, e)
  }

  // ---------- what every loaded profile guarantees ----------

  /** No sensitive name, and every value of the type the catalogue gives the name there. */
  ghost predicate WellTyped(v: View, command: string, flags: Flags) {
    forall n :: n in flags ==>
      && !IsSensitive(n) && TypeAt(v, command, n).Some?
      && HasType(flags[n].value, TypeAt(v, command, n).value)
  }

  lemma BuiltIsWellTyped(v: View, command: string, entries: RawFlags, fallback: string)
    ensures WellTyped(v, command, Built(v, command, entries, fallback))
  {
    hide IsSensitive;
    forall n | n in Built(v, command, entries, fallback)
      ensures !IsSensitive(n) && TypeAt(v, command, n).Some?
      ensures HasType(Built(v, command, entries, fallback)[n].value, TypeAt(v, command, n).value)
    {
      CoercedHasType(entries[n], TypeAt(v, command, n).value);
    }
  }

  /** No loaded profile holds a sensitive flag, an unknown one, or a value of the wrong type. */
  lemma LoadedIsWellTyped(v: View, raw: RawProfile, p: ProfileView)
    requires LoadedFrom(v, raw, p)
    ensures WellTyped(v, "", p.defaults)
    ensures forall n :: n in p.profiles ==> WellTyped(v, "", p.profiles[n])
    ensures forall c :: c in p.commands ==> WellTyped(v, c, p.commands[c].flags)
  {
    hide WellTyped, Built, TrimSpace;
    BuiltIsWellTyped(v, "", raw.defaults, DEFAULT);
    forall n | n in p.profiles
      ensures WellTyped(v, "", p.profiles[n])
    {
      BuiltIsWellTyped(v, "", raw.profiles[n], PROFILE);
    }
    forall path | path in p.commands
      ensures WellTyped(v, path, p.commands[path].flags)
    {
      var c :| IsFrom(v, raw.commands, c, path, p.commands[path]);
      BuiltIsWellTyped(v, path, raw.commands[c].flags, COMMAND);
    }
  }

  // ---------- from the file to the profile, value by value ----------

  /** The flags hold exactly the names of the file's entries, and each value stands for its entry. */
  ghost predicate ReadFrom(v: View, command: string, entries: RawFlags, flags: Flags, source: string) {
    && flags.Keys == entries.Keys
    && forall n :: n in entries ==>
         && TypeAt(v, command, n).Some?
         && StandsFor(entries[n], TypeAt(v, command, n).value, flags[n].value)
         && flags[n].source == source
  }

  lemma BuiltIsReadFrom(v: View, command: string, entries: RawFlags, fallback: string)
    requires Accepted(v, command, entries)
    ensures ReadFrom(v, command, entries, Built(v, command, entries, fallback), fallback)
  {
    hide StandsFor, Coerce, IsSensitive, TypeAt;
    forall n | n in entries
      ensures TypeAt(v, command, n).Some?
      ensures StandsFor(entries[n], TypeAt(v, command, n).value, Built(v, command, entries, fallback)[n].value)
      ensures Built(v, command, entries, fallback)[n].source == fallback
    {
      assert Typed(v, command, n, entries[n]).Ok?;
      CoercedIffStandsFor(entries[n], TypeAt(v, command, n).value, Built(v, command, entries, fallback)[n].value);
    }
  }

  /** The section was read from the file's section under this key. */
  ghost predicate SectionReadFrom(v: View, path: string, raw: RawSection, section: SectionView) {
    && section.profiles == raw.profiles && section.disabled == raw.disabled
    && ReadFrom(v, path, raw.flags, section.flags, "command")
  }

  /** Everything in the profile stands for what the file says, under the same names. */
  ghost predicate StandsForFile(v: View, raw: RawProfile, p: ProfileView) {
    && ReadFrom(v, "", raw.defaults, p.defaults, "default")
    && p.profiles.Keys == raw.profiles.Keys
    && (forall n :: n in raw.profiles ==> ReadFrom(v, "", raw.profiles[n], p.profiles[n], "profile"))
    && (forall path :: path in p.commands ==> exists c :: IsReadUnder(v, raw, c, path, p.commands[path]))
  }

  ghost predicate IsReadUnder(v: View, raw: RawProfile, c: string, path: string, section: SectionView) {
    c in raw.commands && TrimSpace(c) == path && SectionReadFrom(v, path, raw.commands[c], section)
  }

  lemma LoadedStandsForTheFile(v: View, raw: RawProfile, p: ProfileView)
    requires Loadable(v, raw) && LoadedFrom(v, raw, p)
    ensures StandsForFile(v, raw, p)
  {
    hide ReadFrom, Built, Accepted, TrimSpace;
    BuiltIsReadFrom(v, "", raw.defaults, DEFAULT);
    forall n | n in raw.profiles
      ensures ReadFrom(v, "", raw.profiles[n], p.profiles[n], "profile")
    {
      BuiltIsReadFrom(v, "", raw.profiles[n], PROFILE);
    }
    forall path | path in p.commands
      ensures exists c :: IsReadUnder(v, raw, c, path, p.commands[path])
    {
      var c :| IsFrom(v, raw.commands, c, path, p.commands[path]);
      BuiltIsReadFrom(v, path, raw.commands[c].flags, COMMAND);
      assert IsReadUnder(v, raw, c, path, p.commands[path]);
    }
  }
}

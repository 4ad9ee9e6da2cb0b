/**
 Applying a configuration file to the flags of one command (cmd/chainctl/declarative/binder.go):
 the flags given on the command line are read, the file is loaded and resolved, and the
 result is written back flag by flag.
 */
module FlagBinder {
  import opened Results
  import opened Strings
  import opened FlagLayers
  import opened FlagConfig
  import opened FlagCatalog
  import opened FlagLoader

  const CONFIG := "config"

  datatype BindError =
    | NotReadable(name: string)
    | NotLoaded(load: LoadError)
    | NotResolved(resolve: ResolveError)
    | InvalidType(name: string)
    | NotApplied(name: string)

  // ---------- the flags of a command ----------

  /** A flag with the name of its value type, its value and whether it was set. */
  datatype PFlag = PFlag(kind: string, value: Value, changed: bool)

  type Table = map<string, PFlag>

  predicate ValidTable(flags: Table) {
    forall n :: n in flags ==> HasType(flags[n].value, TypeOf(flags[n].kind))
  }

  /** How pflag reads the text of a string slice, as one line of comma-separated values; None refuses it. */
  type CsvReader = string -> Option<seq<string>>

  /** No character that encloses or ends a field. */
  predicate IsQuiet(text: string) {
    '"' !in text && '\n' !in text && '\r' !in text
  }

  /** The empty text is the empty list, and text without quotes and line ends is cut at its commas. */
  ghost predicate ReadsPlainText(csv: CsvReader) {
    csv("") == Some([]) && forall text :: text != "" && IsQuiet(text) ==> csv(text) == Some(Split(text, ','))
  }

  /** What a list flag keeps when it is set: a flag that was set before is extended, a default is replaced. */
  function Earlier(flag: PFlag): seq<string> {
    if flag.changed && flag.value.ListValue? then flag.value.items else []
  }

  /** pflag.FlagSet, as far as it is used here. */
  class FlagTable {
    const csv: CsvReader
    var flags: Table

    constructor (csv: CsvReader, flags: Table)
      requires ValidTable(flags)
      ensures this.csv == csv && this.flags == flags
    {
      this.csv := csv;
      this.flags := flags;
    }

    /**
     Set: bools are parsed, strings taken as they are. A string slice reads several items, a
     string array takes the text as one. A value of another type may refuse its text.
     */
    method Set(name: string, text: string) returns (ok: bool)
      requires ValidTable(flags) && name in flags
      modifies this`flags
      ensures ValidTable(flags) && flags.Keys == old(flags).Keys
      ensures forall m :: m in flags && m != name ==> flags[m] == old(flags)[m]
      ensures flags[name].kind == old(flags)[name].kind
      ensures ok ==> flags[name].changed
      ensures old(flags)[name].kind == "string" || (old(flags)[name].kind == "bool" && ParseBool(text).Some?) ==> ok
      ensures ok && flags[name].kind == "bool" ==> ParseBool(text).Some? && flags[name].value == BoolValue(ParseBool(text).value)
      ensures ok && flags[name].kind == "string" ==> flags[name].value == TextValue(text)
      ensures old(flags)[name].kind == "stringArray" || (old(flags)[name].kind == "stringSlice" && csv(text).Some?) ==> ok
      ensures ok && flags[name].kind == "stringSlice" ==>
                csv(text).Some? && flags[name].value == ListValue(Earlier(old(flags)[name]) + csv(text).value)
      ensures ok && flags[name].kind == "stringArray" ==> flags[name].value == ListValue(Earlier(old(flags)[name]) + [text])
    {
      var flag := flags[name];
      ok := true;
      if flag.kind == "bool" {
        var parsed := ParseBool(text);
        ok := parsed.Some?;
        flag := flag.(value := BoolValue(ok && parsed.value));
      } else if flag.kind == "string" {
        flag := flag.(value := TextValue(text));
      } else if flag.kind == "stringArray" {
        flag := flag.(value := ListValue(Earlier(flag) + [text]));
      } else if flag.kind == "stringSlice" {
        var parsed := csv(text);
        ok := parsed.Some?;
        flag := flag.(value := if ok then ListValue(Earlier(flag) + parsed.value) else flag.value);
      } else {
        ok := *;
        var printed: string := *;
        flag := flag.(value := if ok then TextValue(printed) else flag.value);
      }
      flags := flags[name := if ok then flag.(changed := true) else flag];
    }
  }

  // ---------- what was given on the command line ----------

  /** The typed getters know three types; any other type, a string array among them, is an error. */
  predicate Readable(kind: string) {
    kind == "bool" || kind == "string" || kind == "stringSlice"
  }

  predicate IsGiven(flags: Table, name: string) {
    name in flags && flags[name].changed && name != CONFIG
  }

  function RuntimeOf(flags: Table): Flags {
    map n | n in flags && IsGiven(flags, n) :: FlagValue(flags[n].value, RUNTIME)
  }

  predicate AllReadable(flags: Table) {
    forall n :: n in flags && IsGiven(flags, n) ==> Readable(flags[n].kind)
  }

  lemma NothingGiven()
    ensures AllReadable(map[]) && RuntimeOf(map[]) == map[]
  {
  }

  lemma GivenStep(flags: Table, seen: Table, name: string)
    requires name in flags && name !in seen && AllReadable(seen)
    requires forall n :: n in seen ==> n in flags && seen[n] == flags[n]
    ensures IsGiven(flags, name) <==> flags[name].changed && name != CONFIG
    ensures !IsGiven(flags, name) ==>
              AllReadable(seen[name := flags[name]]) && RuntimeOf(seen[name := flags[name]]) == RuntimeOf(seen)
    ensures IsGiven(flags, name) ==>
              RuntimeOf(seen[name := flags[name]]) == RuntimeOf(seen)[name := FlagValue(flags[name].value, RUNTIME)]
    ensures IsGiven(flags, name) && Readable(flags[name].kind) ==> AllReadable(seen[name := flags[name]])
    ensures IsGiven(flags, name) && !Readable(flags[name].kind) ==> !AllReadable(flags)
  {
    hide Readable;
  }

  lemma GivenFlags(flags: Table)
    ensures AllReadable(flags) ==> forall n :: n in flags && flags[n].changed && n != "config" ==>
              && (flags[n].kind == "bool" || flags[n].kind == "string" || flags[n].kind == "stringSlice")
              && n in RuntimeOf(flags) && RuntimeOf(flags)[n] == FlagValue(flags[n].value, "runtime")
    ensures forall n :: n in RuntimeOf(flags) ==> n in flags && flags[n].changed && n != "config"
  {
  }

  /** The map is nil when nothing was given. */
  method CollectRuntimeOverrides(cmd: FlagTable) returns (r: Result<FlagSet?, BindError>)
    ensures r.Ok? <==> AllReadable(cmd.flags)
    ensures r.Ok? ==> forall n :: n in cmd.flags && cmd.flags[n].changed && n != "config" ==>
              && (cmd.flags[n].kind == "bool" || cmd.flags[n].kind == "string" || cmd.flags[n].kind == "stringSlice")
              && n in Entries(r.value) && Entries(r.value)[n] == FlagValue(cmd.flags[n].value, "runtime")
    ensures r.Ok? ==> forall n :: n in Entries(r.value) ==> n in cmd.flags && cmd.flags[n].changed && n != "config"
    ensures r.Ok? ==> Entries(r.value) == RuntimeOf(cmd.flags) && (r.value != null ==> fresh(r.value))
    ensures r.Err? ==> r.error.NotReadable? && IsGiven(cmd.flags, r.error.name) && !Readable(cmd.flags[r.error.name].kind)
  {
    hide RuntimeOf, AllReadable, IsGiven;
    var runtime := new FlagSet();
    var rest := cmd.flags.Keys;
    assert cmd.flags - rest == map[];
    NothingGiven();
    while rest != {}
      invariant fresh(runtime) && rest <= cmd.flags.Keys
      invariant AllReadable(cmd.flags - rest) && runtime.entries == RuntimeOf(cmd.flags - rest)
    {
      var name :| name in rest;
      var flag := cmd.flags[name];
      var seen := cmd.flags - rest;
      assert cmd.flags - (rest - {name}) == seen[name := flag];
      rest := rest - {name};
      GivenStep(cmd.flags, seen, name);
      if !flag.changed || name == CONFIG {
        continue;
      }
      if !Readable(flag.kind) {
        return Err(NotReadable(name));
      }
      runtime.entries := runtime.entries[name := FlagValue(flag.value, RUNTIME)];
    }
    assert cmd.flags - rest == cmd.flags;
    GivenFlags(cmd.flags);
    if |runtime.entries| == 0 {
      return Ok(null);
    }
    return Ok(runtime);
  }

  // ---------- writing the flags back ----------

  /** fmt.Sprint */
  function Sprint(v: Value): string {
    match v
    case BoolValue(b) => FormatBool(b)
    case TextValue(s) => s
    case ListValue(items) => "[" + Join(items, " ") + "]"
  }

  /** formatResolvedFlagValue; None stands for the type error. */
  function FormatResolvedFlagValue(kind: string, v: Value): Option<string> {
    match TypeOf(kind)
    case BoolType => if v.BoolValue? then Some(FormatBool(v.on)) else None
    case ListType => if v.ListValue? then Some(Join(v.items, ",")) else None
    case TextType => Some(Sprint(v))
  }

  /** What one flag holds after it was written; of types other than these four nothing is said. */
  predicate Written(csv: CsvReader, before: PFlag, v: Value, after: PFlag) {
    && after.kind == before.kind && after.changed
    && (before.kind == "bool" ==> v.BoolValue? && after.value == v)
    && (before.kind == "string" ==> after.value == TextValue(Sprint(v)))
    && (before.kind == "stringSlice" ==>
          v.ListValue? && csv(Join(v.items, ",")).Some?
          && after.value == ListValue(Earlier(before) + csv(Join(v.items, ",")).value))
    && (before.kind == "stringArray" ==> v.ListValue? && after.value == ListValue(Earlier(before) + [Join(v.items, ",")]))
  }

  /** Set will not refuse the value: a string slice must be able to read its text. */
  predicate Takes(csv: CsvReader, flag: PFlag, v: Value) {
    || flag.kind == "bool" || flag.kind == "string" || flag.kind == "stringArray"
    || (flag.kind == "stringSlice" && v.ListValue? && csv(Join(v.items, ",")).Some?)
  }

  /** A bool or string flag other than --config: one whose final value pflag determines. */
  predicate IsPlain(flags: Table, name: string) {
    name in flags && name != CONFIG && (flags[name].kind == "bool" || flags[name].kind == "string")
  }

  predicate IsWritten(before: Table, flags: Flags, name: string) {
    name in before && name in flags && name != CONFIG
  }

  predicate Applied(csv: CsvReader, before: Table, flags: Flags, after: Table) {
    && after.Keys == before.Keys
    && forall n :: n in before ==>
         if IsWritten(before, flags, n) then Written(csv, before[n], flags[n].value, after[n]) else after[n] == before[n]
  }

  /** A resolved value that its flag cannot take. */
  predicate Mismatch(before: Table, flags: Flags, name: string) {
    IsWritten(before, flags, name) && FormatResolvedFlagValue(before[name].kind, flags[name].value) == None
  }

  predicate NoMismatch(before: Table, flags: Flags) {
    forall n :: n in flags ==> !Mismatch(before, flags, n)
  }

  /** The resolved names that the command does not have. */
  function Ignored(before: Table, flags: Flags): set<string> {
    set n | n in flags && n !in before && n != CONFIG
  }

  method ApplyResolvedFlag(cmd: FlagTable, resolved: ResolvedInvocation, name: string, v: Value) returns (e: Option<BindError>)
    requires ValidTable(cmd.flags)
    modifies cmd`flags, resolved`warnings
    ensures ValidTable(cmd.flags) && cmd.flags.Keys == old(cmd.flags).Keys
    ensures forall m :: m in cmd.flags && m != name ==> cmd.flags[m] == old(cmd.flags)[m]
    ensures name == "config" ==> e == None && cmd.flags == old(cmd.flags)
    ensures e == None && name in cmd.flags && name != CONFIG ==>
              && Written(cmd.csv, old(cmd.flags)[name], v, cmd.flags[name])
              && FormatResolvedFlagValue(old(cmd.flags)[name].kind, v).Some?
    ensures name != CONFIG && name !in cmd.flags ==> e == None && resolved.warnings == old(resolved.warnings) + [name]
    ensures name == CONFIG || name in cmd.flags ==> resolved.warnings == old(resolved.warnings)
    ensures e.Some? ==> e.value.InvalidType? || e.value.NotApplied?
    ensures e.Some? && e.value.NotApplied? ==>
              && e.value.name == name && name in cmd.flags && name != CONFIG && !Takes(cmd.csv, old(cmd.flags)[name], v)
    ensures e.Some? && e.value.InvalidType? ==>
              && e.value.name == name && name in cmd.flags
              && FormatResolvedFlagValue(old(cmd.flags)[name].kind, v) == None
  {
    if name == CONFIG {
      return None;
    }
    if name !in cmd.flags {
      resolved.warnings := resolved.warnings + [name];
      return None;
    }
    var value := FormatResolvedFlagValue(cmd.flags[name].kind, v);
    if value == None {
      return Some(InvalidType(name));
    }
    var ok := cmd.Set(name, value.value);
    if !ok {
      return Some(NotApplied(name));
    }
    return None;
  }

  lemma NothingApplied(csv: CsvReader, before: Table)
    ensures Applied(csv, before, map[], before) && NoMismatch(before, map[]) && Ignored(before, map[]) == {}
  {
  }

  /** One more name of the resolved map. */
  lemma AppliedStep(csv: CsvReader, before: Table, flags: Flags, seen: Flags, name: string, now: Table, later: Table)
    requires name in flags && name !in seen && Applied(csv, before, seen, now) && NoMismatch(before, seen)
    requires later.Keys == now.Keys && forall m :: m in now && m != name ==> later[m] == now[m]
    requires name == CONFIG ==> later == now
    requires name in now && name != CONFIG ==>
               Written(csv, now[name], flags[name].value, later[name]) && FormatResolvedFlagValue(now[name].kind, flags[name].value).Some?
    ensures Applied(csv, before, seen[name := flags[name]], later) && NoMismatch(before, seen[name := flags[name]])
  {
    hide Written, FormatResolvedFlagValue;
    if name in now {
      assert now[name] == before[name];
    }
  }

  lemma IgnoredStep(before: Table, seen: Flags, name: string, v: FlagValue)
    requires name !in seen
    ensures var more, was := Ignored(before, seen[name := v]), Ignored(before, seen);
            if name !in before && name != CONFIG
            then multiset(more) == multiset(was) + multiset{name}
            else more == was
  {
    if name !in before && name != CONFIG {
      assert Ignored(before, seen[name := v]) == Ignored(before, seen) + {name};
    } else {
      assert Ignored(before, seen[name := v]) == Ignored(before, seen);
    }
  }

  /** The resolved map is visited in any order; each name touches its own flag only. */
  method ApplyResolvedFlags(cmd: FlagTable, resolved: ResolvedInvocation) returns (e: Option<BindError>)
    requires ValidTable(cmd.flags)
    modifies cmd`flags, resolved`warnings
    ensures ValidTable(cmd.flags)
    ensures e == None ==>
              && Applied(cmd.csv, old(cmd.flags), resolved.flags.entries, cmd.flags)
              && NoMismatch(old(cmd.flags), resolved.flags.entries)
              && multiset(resolved.warnings) ==
                 multiset(old(resolved.warnings)) + multiset(Ignored(old(cmd.flags), resolved.flags.entries))
    ensures e.Some? ==> e.value.InvalidType? || e.value.NotApplied?
    ensures e.Some? && e.value.NotApplied? ==>
              && IsWritten(old(cmd.flags), resolved.flags.entries, e.value.name)
              && !Takes(cmd.csv, old(cmd.flags)[e.value.name], resolved.flags.entries[e.value.name].value)
    ensures e.Some? && e.value.InvalidType? ==> Mismatch(old(cmd.flags), resolved.flags.entries, e.value.name)
  {
    hide Applied, NoMismatch, Ignored, Written, Takes, FormatResolvedFlagValue, ValidTable;
    ghost var csv, before, warned := cmd.csv, cmd.flags, multiset(resolved.warnings);
    var entries := resolved.flags.entries;
    var rest := entries.Keys;
    assert entries - rest == map[];
    NothingApplied(csv, before);
    while rest != {}
      invariant rest <= entries.Keys && resolved.flags.entries == entries && ValidTable(cmd.flags)
      invariant Applied(csv, before, entries - rest, cmd.flags) && NoMismatch(before, entries - rest)
      invariant multiset(resolved.warnings) == warned + multiset(Ignored(before, entries - rest))
    {
      var name :| name in rest;
      ghost var seen, now := entries - rest, cmd.flags;
      SameBelow(csv, before, seen, now, name);
      assert entries - (rest - {name}) == seen[name := entries[name]];
      rest := rest - {name};
      e := ApplyResolvedFlag(cmd, resolved, name, entries[name].value);
      if e.Some? {
        return;
      }
      AppliedStep(csv, before, entries, seen, name, now, cmd.flags);
      IgnoredStep(before, seen, name, entries[name]);
    }
    assert entries - rest == entries;
    return None;
  }

  lemma SameBelow(csv: CsvReader, before: Table, seen: Flags, now: Table, name: string)
    requires Applied(csv, before, seen, now) && name !in seen
    ensures name in before <==> name in now
    ensures name in before ==> now[name] == before[name]
  {
  }

  // ---------- main results ----------

  /** The layered lookup of a bool or string flag, its own value being the last resort. */
  function Final(view: ProfileView, section: SectionView, before: PFlag, name: string): Value
    requires forall n :: n in section.profiles ==> n in view.profiles
  {
    if before.changed then before.value
    else
      match Lookup(view, section, map[], name)
      case None => before.value
      case Some(v) => if before.kind == "bool" then v.value else TextValue(Sprint(v.value))
  }

  /**
   After a successful apply every bool or string flag holds what was given at run time, else
   the command's value, else that of the last listed profile, else the default, else what it
   held before.
   */
  lemma FlagsHoldTheLookup(csv: CsvReader, view: ProfileView, path: string, before: Table, after: Table, name: string)
    requires ValidTable(before) && Chain(Some(view), path, RuntimeOf(before)).Ok?
    requires Applied(csv, before, Merge(Chain(Some(view), path, RuntimeOf(before)).value), after)
    requires IsPlain(before, name)
    ensures after[name].value == Final(view, view.commands[path], before[name], name)
  {
    hide Merge, LastProfile;
    ResolvedFlagsAreTheLookup(view, path, RuntimeOf(before), name);
    assert name in RuntimeOf(before) <==> before[name].changed;
  }

  // ---------- list flags ----------

  predicate AllQuiet(items: seq<string>) {
    forall i :: 0 <= i < |items| ==> IsQuiet(items[i])
  }

  /** The lists that survive being written with commas and read again. */
  predicate IsPlainList(items: seq<string>) {
    AllQuiet(items) && items != [""] && forall i :: 0 <= i < |items| ==> ',' !in items[i]
  }

  lemma {:induction false} JoinIsQuiet(items: seq<string>)
    requires AllQuiet(items)
    ensures IsQuiet(Join(items, ","))
    ensures Join(items, ",") == "" <==> items == [] || items == [""]
  {
    if |items| > 1 {
      JoinIsQuiet(items[1..]);
    }
  }

  /** Without quotes and line ends, a list is read back as it was exactly when it is plain. */
  lemma ReadBackIffPlain(csv: CsvReader, items: seq<string>)
    requires ReadsPlainText(csv) && AllQuiet(items)
    ensures csv(Join(items, ",")).Some?
    ensures csv(Join(items, ",")) == Some(items) <==> IsPlainList(items)
  {
    hide IsQuiet, Join, Split;
    JoinIsQuiet(items);
    var text := Join(items, ",");
    if text != "" {
      SplitPartsLackSeparator(text, ',');
      if IsPlainList(items) {
        SplitOfJoin(items, ',');
      } else {
        var i :| 0 <= i < |items| && ',' in items[i];
        assert items[i] in items;
      }
    }
  }

  /**
   A string slice that was not given holds the resolved list exactly when that is plain; one
   that was given holds its items twice. A string array holds the whole list as one item.
   */
  predicate HoldsList(before: PFlag, found: Option<FlagValue>, after: Value) {
    if before.changed then
      before.kind == "stringSlice" && before.value.ListValue? && IsPlainList(before.value.items) ==>
        after == ListValue(before.value.items + before.value.items)
    else
      match found
      case None => after == before.value
      case Some(v) =>
        && v.value.ListValue?
        && (before.kind == "stringArray" ==> after == ListValue([Join(v.value.items, ",")]))
        && (before.kind == "stringSlice" && AllQuiet(v.value.items) ==> (after == v.value <==> IsPlainList(v.value.items)))
  }

  predicate IsList(flag: PFlag) {
    flag.kind == "stringSlice" || flag.kind == "stringArray"
  }

  lemma WrittenList(csv: CsvReader, before: PFlag, v: FlagValue, after: PFlag)
    requires ReadsPlainText(csv) && IsList(before) && Written(csv, before, v.value, after)
    requires before.changed ==> v.value == before.value
    ensures HoldsList(before, Some(v), after.value)
  {
    hide IsPlainList, ReadsPlainText, AllQuiet, Join;
    var text := Join(v.value.items, ",");
    PlainIsQuiet(v.value.items);
    if AllQuiet(v.value.items) {
      ReadBackIffPlain(csv, v.value.items);
    }
    assert !before.changed ==> Earlier(before) + [text] == [text];
    assert !before.changed && csv(text).Some? ==> Earlier(before) + csv(text).value == csv(text).value;
  }

  lemma PlainIsQuiet(items: seq<string>)
    ensures IsPlainList(items) ==> AllQuiet(items)
  {
  }

  lemma ListsHoldTheLookup(csv: CsvReader, view: ProfileView, path: string, before: Table, after: Table, name: string)
    requires ReadsPlainText(csv) && ValidTable(before) && Chain(Some(view), path, RuntimeOf(before)).Ok?
    requires Applied(csv, before, Merge(Chain(Some(view), path, RuntimeOf(before)).value), after)
    requires name in before && name != CONFIG && IsList(before[name])
    ensures name in after && HoldsList(before[name], Lookup(view, view.commands[path], map[], name), after[name].value)
  {
    hide Merge, LastProfile, HoldsList, Written, ReadsPlainText;
    var flags := Merge(Chain(Some(view), path, RuntimeOf(before)).value);
    ResolvedFlagsAreTheLookup(view, path, RuntimeOf(before), name);
    assert name in RuntimeOf(before) <==> before[name].changed;
    if name in flags {
      WrittenList(csv, before[name], flags[name], after[name]);
      if before[name].changed {
        GivenListHolds(before[name], flags[name], Lookup(view, view.commands[path], map[], name), after[name].value);
      }
    } else {
      NoListHolds(before[name]);
    }
  }

  lemma GivenListHolds(before: PFlag, v: FlagValue, found: Option<FlagValue>, after: Value)
    requires before.changed && HoldsList(before, Some(v), after)
    ensures HoldsList(before, found, after)
  {
  }

  lemma NoListHolds(before: PFlag)
    ensures !before.changed ==> HoldsList(before, None, before.value)
  {
  }

  /** Giving a list on the command line keeps it as it is only if it is empty. */
  lemma GivenListIsDoubled(before: PFlag, found: Option<FlagValue>, after: Value)
    requires before.kind == "stringSlice" && before.changed && before.value.ListValue? && IsPlainList(before.value.items)
    requires HoldsList(before, found, after)
    ensures after.ListValue? && |after.items| == 2 * |before.value.items|
    ensures after == before.value <==> before.value.items == []
  {
  }

  /** A string array holds the resolved list exactly when that has one item. */
  lemma ArrayHoldsOneItem(before: PFlag, v: FlagValue, after: Value)
    requires before.kind == "stringArray" && !before.changed && HoldsList(before, Some(v), after)
    ensures after == v.value <==> v.value.ListValue? && |v.value.items| == 1
  {
  }

  ghost predicate AllTake(csv: CsvReader, before: Table, flags: Flags) {
    forall n :: IsWritten(before, flags, n) ==> Takes(csv, before[n], flags[n].value)
  }

  predicate HoldLookup(view: ProfileView, path: string, before: Table, after: Table)
    requires Chain(Some(view), path, RuntimeOf(before)).Ok?
  {
    forall n :: n in before && IsPlain(before, n) ==>
      n in after && after[n].value == Final(view, view.commands[path], before[n], n)
  }

  lemma AllHoldTheLookup(csv: CsvReader, view: ProfileView, path: string, before: Table, after: Table)
    requires ValidTable(before) && Chain(Some(view), path, RuntimeOf(before)).Ok?
    requires Applied(csv, before, Merge(Chain(Some(view), path, RuntimeOf(before)).value), after)
    ensures HoldLookup(view, path, before, after)
  {
    hide Final, Merge, Written;
    forall n | n in before && IsPlain(before, n)
      ensures after[n].value == Final(view, view.commands[path], before[n], n)
    {
      FlagsHoldTheLookup(csv, view, path, before, after, n);
    }
  }

  /** A flag that a file may name and that does not take every value. */
  predicate IsExposed(flags: Table, name: string) {
    && name in flags && name != CONFIG && !flags[name].changed && !IsSensitive(name)
    && TypeOf(flags[name].kind) != TextType
  }

  predicate IsOther(t: Option<FlagType>, kind: string) {
    t.Some? && t.value != TypeOf(kind)
  }

  /** The catalogue gives the name another type, for files in general or for this command. */
  predicate CanClash(v: View, path: string, flags: Table, name: string) {
    IsExposed(flags, name) && (IsOther(TypeAt(v, "", name), flags[name].kind) || IsOther(TypeAt(v, path, name), flags[name].kind))
  }

  predicate Agree(v: View, path: string, flags: Table) {
    forall n :: n in flags ==> !CanClash(v, path, flags, n)
  }

  /** One type for each flag name across the command tree is enough for that. */
  lemma OneTypeAgrees(root: Command, path: string, flags: Table)
    requires forall n :: n in flags && IsExposed(flags, n) ==> OneType(PreOrder(root, [], []), n, TypeOf(flags[n].kind))
    ensures Agree(Catalogued(root), path, flags)
  {
    hide RecordAll, PreOrder, OneType, IsExposed;
    forall n | n in flags && IsExposed(flags, n)
      ensures !CanClash(Catalogued(root), path, flags, n)
    {
      AnswersAgree(PreOrder(root, [], []), n, TypeOf(flags[n].kind), path);
    }
  }

  lemma {:induction false} ProfileValueIsTyped(v: View, names: seq<string>, profiles: map<string, Flags>, name: string)
    requires forall n :: n in names ==> n in profiles
    requires forall n :: n in profiles ==> WellTyped(v, "", profiles[n])
    ensures var p := LastProfile(names, profiles, name);
            p.Some? ==> !IsSensitive(name) && TypeAt(v, "", name).Some? && HasType(p.value.value, TypeAt(v, "", name).value)
  {
    if names != [] {
      var top := names[|names| - 1];
      assert WellTyped(v, "", profiles[top]);
      if name !in profiles[top] {
        ProfileValueIsTyped(v, names[..|names| - 1], profiles, name);
      }
    }
  }

  /** A flag that is no text takes exactly the values of its own type, a text flag takes all. */
  lemma FitsIffTyped(kind: string, value: Value)
    ensures FormatResolvedFlagValue(kind, value).Some? <==> TypeOf(kind) == TextType || HasType(value, TypeOf(kind))
  {
  }

  lemma OneTypeOnly(value: Value, t: FlagType, u: FlagType)
    requires HasType(value, t) && HasType(value, u)
    ensures t == u
  {
  }

  /** A loaded file and agreeing types leave no resolved value that its flag cannot take. */
  lemma NoTypeError(v: View, raw: RawProfile, view: ProfileView, path: string, before: Table)
    requires LoadedFrom(v, raw, view) && Agree(v, path, before) && ValidTable(before)
    requires Chain(Some(view), path, RuntimeOf(before)).Ok?
    ensures NoMismatch(before, Merge(Chain(Some(view), path, RuntimeOf(before)).value))
  {
    hide Merge, LoadedFrom, LastProfile, FormatResolvedFlagValue, IsSensitive;
    var runtime, section := RuntimeOf(before), view.commands[path];
    var flags := Merge(Chain(Some(view), path, runtime).value);
    LoadedIsWellTyped(v, raw, view);
    forall n | n in flags
      ensures !Mismatch(before, flags, n)
    {
      ResolvedFlagsAreTheLookup(view, path, runtime, n);
      ProfileValueIsTyped(v, section.profiles, view.profiles, n);
      if n in before && n != CONFIG {
        assert !CanClash(v, path, before, n);
        FitsIffTyped(before[n].kind, flags[n].value);
      }
    }
  }

  lemma FitsAll(before: Table, flags: Flags)
    requires NoMismatch(before, flags)
    ensures forall n :: !Mismatch(before, flags, n)
  {
    hide FormatResolvedFlagValue;
  }

  // ---------- from the file to the flags ----------

  /** The last listed profile of the file that has the name. */
  function RawProfileEntry(names: seq<string>, profiles: map<string, RawFlags>, name: string): Option<Raw> {
    if names == [] then None
    else
      var top := names[|names| - 1];
      if top in profiles && name in profiles[top] then Some(profiles[top][name])
      else RawProfileEntry(names[..|names| - 1], profiles, name)
  }

  /** The entry of the file that decides: the command's, else the last profile's, else the default. */
  function RawEntry(raw: RawProfile, section: RawSection, name: string): Option<Raw> {
    if name in section.flags then Some(section.flags[name])
    else
      var p := RawProfileEntry(section.profiles, raw.profiles, name);
      if p.Some? then p else if name in raw.defaults then Some(raw.defaults[name]) else None
  }

  /** The type that the catalogue gives the name where that entry stands. */
  function EntryType(v: View, path: string, section: RawSection, name: string): Option<FlagType> {
    TypeAt(v, if name in section.flags then path else "", name)
  }

  /** The looked-up value stands for the deciding entry. */
  predicate LookupStands(v: View, path: string, raw: RawProfile, section: RawSection, name: string, found: Option<FlagValue>) {
    match RawEntry(raw, section, name)
    case None => found == None
    case Some(entry) =>
      && found.Some? && EntryType(v, path, section, name).Some?
      && StandsFor(entry, EntryType(v, path, section, name).value, found.value.value)
  }

  predicate ProfileStands(v: View, entry: Option<Raw>, name: string, found: Option<FlagValue>) {
    match entry
    case None => found == None
    case Some(e) => found.Some? && TypeAt(v, "", name).Some? && StandsFor(e, TypeAt(v, "", name).value, found.value.value)
  }

  lemma {:induction false} LastProfileStands(v: View, raw: RawProfile, view: ProfileView, names: seq<string>, name: string)
    requires StandsForFile(v, raw, view) && forall n :: n in names ==> n in view.profiles
    ensures ProfileStands(v, RawProfileEntry(names, raw.profiles, name), name, LastProfile(names, view.profiles, name))
  {
    if names != [] {
      hide StandsFor, TypeAt;
      var top := names[|names| - 1];
      assert ReadFrom(v, "", raw.profiles[top], view.profiles[top], "profile");
      LastProfileStands(v, raw, view, names[..|names| - 1], name);
    }
  }

  lemma LookupStandsForFile(v: View, raw: RawProfile, view: ProfileView, path: string, c: string, name: string)
    requires StandsForFile(v, raw, view) && path in view.commands && IsReadUnder(v, raw, c, path, view.commands[path])
    requires forall n :: n in view.commands[path].profiles ==> n in view.profiles
    ensures LookupStands(v, path, raw, raw.commands[c], name, Lookup(view, view.commands[path], map[], name))
  {
    hide StandsFor, TypeAt, TrimSpace, LastProfile, RawProfileEntry;
    LastProfileStands(v, raw, view, view.commands[path].profiles, name);
  }

  /** What a bool or string flag that was not given holds in the end, said of the entry of the file. */
  predicate HoldsEntry(kind: string, entry: Raw, t: Option<FlagType>, after: Value) {
    && (kind == "bool" && entry.RawBool? ==> after == BoolValue(entry.on))
    && (kind == "bool" && entry.RawText? ==>
          && after.BoolValue?
          && if after.on then SaysTrue(TrimSpace(entry.text)) else SaysFalse(TrimSpace(entry.text)))
    && (kind == "string" && t == Some(TextType) ==> after.TextValue? && Prints(entry, after.text))
    && (kind == "string" && t == Some(BoolType) && entry.RawBool? ==> after == TextValue(if entry.on then "true" else "false"))
  }

  /** Bool and string flags hold what was given, else what the file's deciding entry says, else what they held. */
  predicate HoldFile(v: View, path: string, raw: RawProfile, section: RawSection, before: Table, after: Table) {
    forall n :: n in before && IsPlain(before, n) ==>
      && n in after
      && if before[n].changed || RawEntry(raw, section, n) == None then after[n].value == before[n].value
         else HoldsEntry(before[n].kind, RawEntry(raw, section, n).value, EntryType(v, path, section, n), after[n].value)
  }

  /** The same of a list flag, for the list that the file's deciding entry stands for. */
  ghost predicate HoldsListEntry(before: PFlag, entry: Option<Raw>, after: Value) {
    if before.changed || entry == None then HoldsList(before, None, after)
    else exists v: FlagValue :: StandsFor(entry.value, ListType, v.value) && HoldsList(before, Some(v), after)
  }

  ghost predicate HoldFileLists(raw: RawProfile, section: RawSection, before: Table, after: Table) {
    forall n :: n in before && n != "config" && IsList(before[n]) ==>
      n in after && HoldsListEntry(before[n], RawEntry(raw, section, n), after[n].value)
  }

  /** An enabled section of the file, under a key that trims to the path, with known profiles, was applied; --config was not. */
  ghost predicate AppliesFile(csv: CsvReader, v: View, raw: RawProfile, path: string, before: Table, after: Table) {
    && (exists c :: IsApplied(csv, v, raw, c, path, before, after))
    && ("config" in before ==> "config" in after && after["config"] == before["config"])
  }

  ghost predicate IsApplied(csv: CsvReader, v: View, raw: RawProfile, c: string, path: string, before: Table, after: Table) {
    && c in raw.commands && TrimSpace(c) == path && !raw.commands[c].disabled
    && (forall n :: n in raw.commands[c].profiles ==> n in raw.profiles)
    && HoldFile(v, path, raw, raw.commands[c], before, after)
    && (ReadsPlainText(csv) ==> HoldFileLists(raw, raw.commands[c], before, after))
  }

  lemma FileIsApplied(csv: CsvReader, v: View, raw: RawProfile, view: ProfileView, path: string, before: Table, after: Table)
    requires StandsForFile(v, raw, view) && ValidTable(before) && Chain(Some(view), path, RuntimeOf(before)).Ok?
    requires Applied(csv, before, Merge(Chain(Some(view), path, RuntimeOf(before)).value), after)
    ensures AppliesFile(csv, v, raw, path, before, after)
  {
    hide Merge, HoldFile, HoldFileLists, ReadsPlainText, ReadFrom, TrimSpace, Written;
    var c :| IsReadUnder(v, raw, c, path, view.commands[path]);
    FlagsHoldTheFile(csv, v, raw, view, path, c, before, after);
    if ReadsPlainText(csv) {
      ListsHoldTheFile(csv, v, raw, view, path, c, before, after);
    }
    assert IsApplied(csv, v, raw, c, path, before, after);
  }

  lemma FlagsHoldTheFile(csv: CsvReader, v: View, raw: RawProfile, view: ProfileView, path: string, c: string, before: Table, after: Table)
    requires StandsForFile(v, raw, view) && ValidTable(before) && Chain(Some(view), path, RuntimeOf(before)).Ok?
    requires c in raw.commands && IsReadUnder(v, raw, c, path, view.commands[path])
    requires Applied(csv, before, Merge(Chain(Some(view), path, RuntimeOf(before)).value), after)
    ensures HoldFile(v, path, raw, raw.commands[c], before, after)
  {
    hide Merge, StandsForFile, IsReadUnder, TypeAt, LastProfile, RawEntry, EntryType, HoldsEntry, Final, TrimSpace, LookupStands;
    forall n | n in before && IsPlain(before, n)
      ensures n in after
      ensures if before[n].changed || RawEntry(raw, raw.commands[c], n) == None then after[n].value == before[n].value
              else HoldsEntry(before[n].kind, RawEntry(raw, raw.commands[c], n).value, EntryType(v, path, raw.commands[c], n), after[n].value)
    {
      BoolsStayBools(csv, view, path, before, after, n);
      FlagsHoldTheLookup(csv, view, path, before, after, n);
      LookupStandsForFile(v, raw, view, path, c, n);
      EntryIsHeld(v, path, raw, raw.commands[c], view, before[n], n, after[n].value);
    }
  }

  lemma ListsHoldTheFile(csv: CsvReader, v: View, raw: RawProfile, view: ProfileView, path: string, c: string, before: Table, after: Table)
    requires ReadsPlainText(csv) && StandsForFile(v, raw, view)
    requires ValidTable(before) && Chain(Some(view), path, RuntimeOf(before)).Ok?
    requires c in raw.commands && IsReadUnder(v, raw, c, path, view.commands[path])
    requires Applied(csv, before, Merge(Chain(Some(view), path, RuntimeOf(before)).value), after)
    ensures HoldFileLists(raw, raw.commands[c], before, after)
  {
    hide Merge, StandsForFile, IsReadUnder, ReadsPlainText, RawEntry, Lookup, LookupStands, HoldsListEntry, HoldsList, Written, TrimSpace;
    forall n | n in before && n != "config" && IsList(before[n])
      ensures n in after && HoldsListEntry(before[n], RawEntry(raw, raw.commands[c], n), after[n].value)
    {
      ListsHoldTheLookup(csv, view, path, before, after, n);
      LookupStandsForFile(v, raw, view, path, c, n);
      ListEntryIsHeld(v, path, raw, raw.commands[c], before[n], n, Lookup(view, view.commands[path], map[], n), after[n].value);
    }
  }

  lemma ListEntryIsHeld(v: View, path: string, raw: RawProfile, section: RawSection, before: PFlag, name: string, found: Option<FlagValue>, after: Value)
    requires LookupStands(v, path, raw, section, name, found) && HoldsList(before, found, after)
    ensures HoldsListEntry(before, RawEntry(raw, section, name), after)
  {
    hide RawEntry, EntryType, IsPlainList, Join;
    if !before.changed && RawEntry(raw, section, name).Some? {
      assert StandsFor(RawEntry(raw, section, name).value, ListType, found.value.value);
    }
  }

  lemma BoolsStayBools(csv: CsvReader, view: ProfileView, path: string, before: Table, after: Table, name: string)
    requires ValidTable(before) && Chain(Some(view), path, RuntimeOf(before)).Ok?
    requires Applied(csv, before, Merge(Chain(Some(view), path, RuntimeOf(before)).value), after)
    requires name in before
    ensures name in after && (before[name].kind == "bool" ==> after[name].value.BoolValue?)
  {
    hide Merge, Chain;
  }

  lemma EntryIsHeld(v: View, path: string, raw: RawProfile, section: RawSection, view: ProfileView, before: PFlag, name: string, after: Value)
    requires path in view.commands && forall n :: n in view.commands[path].profiles ==> n in view.profiles
    requires LookupStands(v, path, raw, section, name, Lookup(view, view.commands[path], map[], name))
    requires after == Final(view, view.commands[path], before, name) && (before.kind == "bool" ==> after.BoolValue?)
    ensures if before.changed || RawEntry(raw, section, name) == None then after == before.value
            else HoldsEntry(before.kind, RawEntry(raw, section, name).value, EntryType(v, path, section, name), after)
  {
    hide TypeAt, LastProfile, RawEntry, EntryType, TrimSpace, Lookup;
  }

  // ---------- when a type error is possible, exactly ----------

  /** The file loads and resolves, and a resolved value is one its flag cannot take. */
  ghost predicate FileClashes(v: View, path: string, flags: Table, raw: RawProfile, view: ProfileView) {
    && Loadable(v, raw) && LoadedFrom(v, raw, view)
    && Chain(Some(view), path, RuntimeOf(flags)).Ok?
    && !NoMismatch(flags, Merge(Chain(Some(view), path, RuntimeOf(flags)).value))
  }

  ghost predicate SomeFileClashes(v: View, path: string, flags: Table) {
    exists raw, view :: FileClashes(v, path, flags, raw, view)
  }

  /** A file can have a section for the command. */
  predicate IsDeclarable(v: View, path: string) {
    path in v.commands && path != "" && TrimSpace(path) == path
  }

  function Sample(t: FlagType): Raw {
    match t
    case BoolType => RawBool(true)
    case ListType => RawTexts([])
    case TextType => RawText("")
  }

  lemma SampleFits(t: FlagType)
    ensures Coerce(Sample(t), t).Some? && HasType(Coerce(Sample(t), t).value, t)
  {
  }

  /** A file with one flag, among the defaults or in the command's section. */
  function FileWith(asDefault: bool, path: string, name: string, t: FlagType): RawProfile {
    var flags := map[name := Sample(t)];
    RawProfile(if asDefault then flags else map[], map[],
               map[path := RawSection([], if asDefault then map[] else flags, false)])
  }

  function ViewWith(v: View, path: string, raw: RawProfile): ProfileView
    requires path in raw.commands
  {
    ProfileView(Built(v, "", raw.defaults, DEFAULT), map[], map[path := BuiltSection(v, path, raw.commands[path])])
  }

  /** Such a file loads and resolves, and the flag has the value the file gives it. */
  lemma FileLoads(v: View, asDefault: bool, path: string, name: string, t: FlagType, runtime: Flags)
    requires IsDeclarable(v, path) && !IsSensitive(name) && name !in runtime
    requires TypeAt(v, if asDefault then "" else path, name) == Some(t)
    ensures var raw := FileWith(asDefault, path, name, t);
            var view := ViewWith(v, path, raw);
            && Loadable(v, raw) && LoadedFrom(v, raw, view) && Chain(Some(view), path, runtime).Ok?
            && name in Merge(Chain(Some(view), path, runtime).value)
            && HasType(Merge(Chain(Some(view), path, runtime).value)[name].value, t)
  {
    hide IsSensitive, TypeAt, Coerce, Merge, TrimSpace, HasType;
    var raw := FileWith(asDefault, path, name, t);
    var view := ViewWith(v, path, raw);
    SampleFits(t);
    assert LoadedFrom(v, raw, view) by {
      assert IsFrom(v, raw.commands, path, path, view.commands[path]);
    }
    ResolvedFlagsAreTheLookup(view, path, runtime, name);
  }

  lemma ClashingFile(v: View, asDefault: bool, path: string, name: string, t: FlagType, flags: Table)
    requires IsDeclarable(v, path) && IsExposed(flags, name) && t != TypeOf(flags[name].kind)
    requires TypeAt(v, if asDefault then "" else path, name) == Some(t)
    ensures var raw := FileWith(asDefault, path, name, t); FileClashes(v, path, flags, raw, ViewWith(v, path, raw))
  {
    var raw := FileWith(asDefault, path, name, t);
    FileLoads(v, asDefault, path, name, t, RuntimeOf(flags));
    hide Merge, Loadable, LoadedFrom, TypeAt, Chain, FileWith, ViewWith, IsSensitive, FormatResolvedFlagValue;
    var resolved := Merge(Chain(Some(ViewWith(v, path, raw)), path, RuntimeOf(flags)).value);
    FitsIffTyped(flags[name].kind, resolved[name].value);
    if HasType(resolved[name].value, TypeOf(flags[name].kind)) {
      OneTypeOnly(resolved[name].value, t, TypeOf(flags[name].kind));
    }
    assert Mismatch(flags, resolved, name);
  }

  lemma LoadedCommandIsDeclarable(v: View, raw: RawProfile, view: ProfileView, path: string)
    requires Loadable(v, raw) && LoadedFrom(v, raw, view) && path in view.commands
    ensures IsDeclarable(v, path)
  {
    hide TrimSpace, BuiltSection, Accepted;
    var c :| IsFrom(v, raw.commands, c, path, view.commands[path]);
    TrimSpaceTwice(c);
  }

  /**
   Some file that loads and resolves gives this command's flags a value one of them cannot take
   if and only if a file can have a section for the command and one of its flags can clash: not
   sensitive, not given at run time, bool or list, and of another type in the catalogue.
   */
  lemma TypeErrorIffClash(v: View, path: string, flags: Table)
    requires ValidTable(flags)
    ensures SomeFileClashes(v, path, flags) <==> IsDeclarable(v, path) && exists n :: CanClash(v, path, flags, n)
  {
    hide FileWith, ViewWith, IsDeclarable, ValidTable, TypeAt, IsSensitive;
    if SomeFileClashes(v, path, flags) {
      var raw, view :| FileClashes(v, path, flags, raw, view);
      ClashNeedsBoth(v, path, flags, raw, view);
    }
    if IsDeclarable(v, path) && exists n :: CanClash(v, path, flags, n) {
      var n :| CanClash(v, path, flags, n);
      var asDefault := IsOther(TypeAt(v, "", n), flags[n].kind);
      var t := TypeAt(v, if asDefault then "" else path, n).value;
      ClashingFile(v, asDefault, path, n, t, flags);
    }
  }

  lemma ClashNeedsBoth(v: View, path: string, flags: Table, raw: RawProfile, view: ProfileView)
    requires ValidTable(flags) && FileClashes(v, path, flags, raw, view)
    ensures IsDeclarable(v, path) && exists n :: CanClash(v, path, flags, n)
  {
    hide Loadable, LoadedFrom, IsDeclarable, Merge, NoMismatch, CanClash;
    LoadedCommandIsDeclarable(v, raw, view, path);
    if Agree(v, path, flags) {
      NoTypeError(v, raw, view, path, flags);
    }
  }

  /** A flag that is a bool on one command and a list on the next. */
  function TwoTypes(): Command {
    Command("chainctl", false, [], [],
            [Command("a", false, [], [Flag("x", "bool")], []), Command("b", false, [], [Flag("x", "stringSlice")], [])])
  }

  lemma TwoTypesCatalogued()
    ensures var v := Catalogued(TwoTypes());
            TypeAt(v, "", "x") == Some(BoolType) && "chainctl b" in v.commands
  {
    var root := TwoTypes();
    var entries := PreOrder(root, [], []);
    var below, last := PreOrderFrom(root, 0, ["chainctl"], []), PreOrderFrom(root, 1, ["chainctl"], []);
    assert [] + ["chainctl"] == ["chainctl"];
    assert entries == [Entry([], ["chainctl"], FlagsOf(root))] + below;
    assert below == PreOrder(root.children[0], ["chainctl"], [] + [0]) + last;
    assert last == PreOrder(root.children[1], ["chainctl"], [] + [1]) + PreOrderFrom(root, 2, ["chainctl"], []);
    assert FlagsOf(root) == map[];
    FlagsOfOne("a", "x", "bool");
    assert entries[1] == below[0];
    hide PreOrder, PreOrderFrom, RecordAll;
    assert FirstToDefine(entries, 1, "x");
    IndexHoldsTheFirst(entries, "x");
    assert |entries| == 3 && entries[2] == last[0] && last[0].path == ["chainctl", "b"];
    assert Key(["chainctl", "b"]) == "chainctl b" by {
      assert ["chainctl", "b"][1..] == ["b"];
    }
    assert LastWithKey(entries, 2, "chainctl b");
    CommandsHoldTheLast(entries, "chainctl b");
  }

  lemma TwoTypesNames()
    ensures TrimSpace("chainctl b") == "chainctl b" && !IsSensitive("x")
  {
    assert forall i :: 0 <= i < |SENSITIVE| ==> |SENSITIVE[i]| > 1;
  }

  /** A default for it is read as a bool, and the second command cannot take that. */
  lemma TwoTypesClash()
    ensures var v := Catalogued(TwoTypes());
            var raw := RawProfile(map["x" := RawBool(true)], map[], map["chainctl b" := RawSection([], map[], false)]);
            var flags := map["x" := PFlag("stringSlice", ListValue([]), false)];
            && ValidTable(flags)
            && FileClashes(v, "chainctl b", flags, raw, ViewWith(v, "chainctl b", raw))
  {
    var v := Catalogued(TwoTypes());
    var flags := map["x" := PFlag("stringSlice", ListValue([]), false)];
    hide Catalogued, FileClashes, TypeAt, IsSensitive, TrimSpace, ViewWith;
    TwoTypesCatalogued();
    TwoTypesNames();
    assert IsExposed(flags, "x");
    ClashingFile(v, true, "chainctl b", "x", BoolType, flags);
  }

  lemma FlagsOfOne(use: string, name: string, kind: string)
    ensures FlagsOf(Command(use, false, [], [Flag(name, kind)], [])) == map[name := TypeOf(kind)]
  {
    var own := [Flag(name, kind)];
    assert own[1..] == [];
    assert AddTypes(map[], []) == map[];
    assert AddTypes(map[], own) == AddTypes(map[name := TypeOf(kind)], []);
  }

  // ---------- the whole of apply ----------

  class Manager {
    const catalog: CobraCatalog
    const loader: Loader

    constructor (root: Command)
      ensures fresh(catalog) && loader.catalog == catalog && catalog.Contents() == Catalogued(root)
    {
      var c := NewCobraCatalog(root);
      catalog := c;
      loader := new Loader(c);
    }

    /** From the parsed file on; finding the file and printing the summary are not modelled. */
    method Apply(raw: RawProfile, path: string, commandPath: string, cmd: FlagTable)
        returns (r: Result<ResolvedInvocation, BindError>, ghost view: ProfileView)
      requires ValidTable(cmd.flags) && loader.catalog == catalog
      modifies cmd`flags
      ensures ValidTable(cmd.flags)
      ensures r.Ok? ==>
                && LoadedFrom(catalog.Contents(), raw, view)
                && Chain(Some(view), commandPath, RuntimeOf(old(cmd.flags))).Ok?
                && var layers := Chain(Some(view), commandPath, RuntimeOf(old(cmd.flags))).value;
                && Holds(r.value, layers)
                && r.value.commandPath == commandPath && r.value.sourcePath == path
                && HoldLookup(view, commandPath, old(cmd.flags), cmd.flags)
                && AppliesFile(cmd.csv, catalog.Contents(), raw, commandPath, old(cmd.flags), cmd.flags)
                && Applied(cmd.csv, old(cmd.flags), Merge(layers), cmd.flags)
                && multiset(r.value.warnings) == multiset(Ignored(old(cmd.flags), Merge(layers)))
      ensures r.Err? && r.error.InvalidType? ==>
                && LoadedFrom(catalog.Contents(), raw, view)
                && Chain(Some(view), commandPath, RuntimeOf(old(cmd.flags))).Ok?
                && Mismatch(old(cmd.flags), Merge(Chain(Some(view), commandPath, RuntimeOf(old(cmd.flags))).value), r.error.name)
      ensures Agree(catalog.Contents(), commandPath, old(cmd.flags)) ==> !(r.Err? && r.error.InvalidType?)
      ensures r.Err? && r.error.NotReadable? ==> !AllReadable(old(cmd.flags))
      ensures r.Err? && r.error.NotLoaded? ==> !Loadable(catalog.Contents(), raw)
      ensures r.Err? && r.error.NotResolved? ==> Chain(Some(view), commandPath, RuntimeOf(old(cmd.flags))) == Err(r.error.resolve)
      ensures AllReadable(old(cmd.flags)) && Loadable(catalog.Contents(), raw) ==> LoadedFrom(catalog.Contents(), raw, view)
      ensures (&& AllReadable(old(cmd.flags)) && Loadable(catalog.Contents(), raw)
               && Chain(Some(view), commandPath, RuntimeOf(old(cmd.flags))).Ok?
               && Agree(catalog.Contents(), commandPath, old(cmd.flags))
               && AllTake(cmd.csv, old(cmd.flags), Merge(Chain(Some(view), commandPath, RuntimeOf(old(cmd.flags))).value))) ==> r.Ok?
      ensures r.Err? && (r.error.NotReadable? || r.error.NotLoaded? || r.error.NotResolved?) ==> cmd.flags == old(cmd.flags)
    {
      hide LoadedFrom, Chain, Merge, Listed, Applied, Mismatch, NoMismatch, RuntimeOf, Ignored, AllReadable, Loadable, Explained,
        ValidTable, HoldLookup, AppliesFile, StandsForFile, Agree, IsPlain, IsWritten, Takes, ConfigurationProfile.View;
      ghost var v, csv, before := catalog.Contents(), cmd.csv, cmd.flags;
      view := ProfileView(map[], map[], map[]);
      var runtime := CollectRuntimeOverrides(cmd);
      if runtime.Err? {
        return Err(runtime.error), view;
      }
      var profile := loader.Load(path, raw);
      if profile.Err? {
        return Err(NotLoaded(profile.error)), view;
      }
      view := profile.value.View();
      var resolved := ResolveInvocation(profile.value, commandPath, runtime.value);
      if resolved.Err? {
        return Err(NotResolved(resolved.error)), view;
      }
      var e := ApplyResolvedFlags(cmd, resolved.value);
      if e == None {
        AllHoldTheLookup(csv, view, commandPath, before, cmd.flags);
        FileIsApplied(csv, v, raw, view, commandPath, before, cmd.flags);
      } else if Agree(v, commandPath, before) {
        NoTypeError(v, raw, view, commandPath, before);
        FitsAll(before, resolved.value.flags.entries);
      }
      r := if e.Some? then Err(e.value) else Ok(resolved.value);
    }
  }
}

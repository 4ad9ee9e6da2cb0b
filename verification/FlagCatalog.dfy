/**
 The catalogue of commands and flags (internal/config/cobra_catalog.go): a recursive walk
 over the command tree that extends one path slice, whose backing array siblings share.
 */
module FlagCatalog {
  import opened Results
  import opened Strings

  datatype FlagType = TextType | BoolType | ListType

  /** A flag with the name of its value type. */
  datatype Flag = Flag(name: string, kind: string)

  /** A command with the flags it inherits, its own flags and its subcommands in display order. */
  datatype Command = Command(use: string, hidden: bool, inherited: seq<Flag>, own: seq<Flag>, children: seq<Command>)

  type Types = map<string, FlagType>

  function TypeOf(kind: string): FlagType {
    if kind == "bool" then BoolType
    else if kind == "stringSlice" || kind == "stringArray" then ListType
    else TextType
  }

  function AddTypes(types: Types, flags: seq<Flag>): Types
    decreases |flags|
  {
    if flags == [] then types
    else AddTypes(types[flags[0].name := TypeOf(flags[0].kind)], flags[1..])
  }

  /** The flags a command accepts; its own shadow the inherited ones. */
  function FlagsOf(cmd: Command): Types {
    AddTypes(AddTypes(map[], cmd.inherited), cmd.own)
  }

  predicate IsLastNamed(flags: seq<Flag>, i: nat, name: string) {
    i < |flags| && flags[i].name == name && forall k :: i < k < |flags| ==> flags[k].name != name
  }

  lemma OneMoreType(types: Types, flags: seq<Flag>)
    ensures AddTypes(types, flags) ==
            if flags == [] then types else AddTypes(types[flags[0].name := TypeOf(flags[0].kind)], flags[1..])
  {
  }

  lemma {:induction false} AddedTypes(types: Types, flags: seq<Flag>, name: string)
    ensures (forall i :: 0 <= i < |flags| ==> flags[i].name != name) ==>
              (name in AddTypes(types, flags) <==> name in types)
              && (name in types ==> AddTypes(types, flags)[name] == types[name])
    ensures forall i: nat :: IsLastNamed(flags, i, name) ==>
              name in AddTypes(types, flags) && AddTypes(types, flags)[name] == TypeOf(flags[i].kind)
    decreases |flags|
  {
    hide TypeOf, AddTypes;
    OneMoreType(types, flags);
    if flags != [] {
      var rest, more := flags[1..], types[flags[0].name := TypeOf(flags[0].kind)];
      AddedTypes(more, rest, name);
      forall i: nat | IsLastNamed(flags, i, name)
        ensures name in AddTypes(types, flags) && AddTypes(types, flags)[name] == TypeOf(flags[i].kind)
      {
        if i > 0 {
          assert IsLastNamed(rest, i - 1, name);
        } else {
          assert forall k :: 0 <= k < |rest| ==> rest[k] == flags[k + 1];
        }
      }
      if forall i :: 0 <= i < |flags| ==> flags[i].name != name {
        assert flags[0].name != name;
        assert forall k :: 0 <= k < |rest| ==> rest[k] == flags[k + 1];
      }
    }
  }

  predicate IsNamed(flags: seq<Flag>, name: string) {
    exists i :: 0 <= i < |flags| && flags[i].name == name
  }

  /** A command accepts what it inherits and what it declares, and its own flags shadow inherited ones. */
  lemma OwnShadowsInherited(cmd: Command, name: string)
    ensures !IsNamed(cmd.inherited, name) && !IsNamed(cmd.own, name) ==> name !in FlagsOf(cmd)
    ensures forall i: nat :: IsLastNamed(cmd.own, i, name) ==>
              name in FlagsOf(cmd) && FlagsOf(cmd)[name] == TypeOf(cmd.own[i].kind)
    ensures !IsNamed(cmd.own, name) ==> forall i: nat :: IsLastNamed(cmd.inherited, i, name) ==>
              name in FlagsOf(cmd) && FlagsOf(cmd)[name] == TypeOf(cmd.inherited[i].kind)
  {
    hide TypeOf, AddTypes;
    AddedTypes(map[], cmd.inherited, name);
    AddedTypes(AddTypes(map[], cmd.inherited), cmd.own, name);
  }

  /** Bool flags, list flags (slices and arrays), and everything else as text. */
  lemma OwnFlagTypes(cmd: Command, i: nat, name: string)
    requires IsLastNamed(cmd.own, i, name)
    ensures name in FlagsOf(cmd)
    ensures FlagsOf(cmd)[name] == BoolType <==> cmd.own[i].kind == "bool"
    ensures FlagsOf(cmd)[name] == ListType <==> cmd.own[i].kind == "stringSlice" || cmd.own[i].kind == "stringArray"
  {
    hide FlagsOf;
    OwnShadowsInherited(cmd, name);
  }

  // ---------- the visible commands ----------

  /** A visible command: where it is in the tree, the words of its path, its flags. */
  datatype Entry = Entry(at: seq<nat>, path: seq<string>, flags: Types)

  function Key(path: seq<string>): string {
    Join(path, " ")
  }

  /** The command itself, then its visible subcommands, each with everything below it. */
  function PreOrder(cmd: Command, parents: seq<string>, at: seq<nat>): seq<Entry>
    decreases cmd, |cmd.children| + 1
  {
    var path := parents + [cmd.use];
    [Entry(at, path, FlagsOf(cmd))] + PreOrderFrom(cmd, 0, path, at)
  }

  function PreOrderFrom(cmd: Command, j: nat, path: seq<string>, at: seq<nat>): seq<Entry>
    decreases cmd, |cmd.children| - j
  {
    if j >= |cmd.children| then []
    else
      (if cmd.children[j].hidden then [] else PreOrder(cmd.children[j], path, at + [j]))
      + PreOrderFrom(cmd, j + 1, path, at)
  }

  // ---------- the catalogue ----------

  datatype View = View(commands: map<string, Types>, index: Types, order: seq<string>)

  /** The types already known win. */
  function AddUnknown(index: Types, types: Types): (r: Types)
    ensures r.Keys == index.Keys + types.Keys
  {
    types + index
  }

  function RecordOne(v: View, path: seq<string>, types: Types): View {
    View(v.commands[Key(path) := types], AddUnknown(v.index, types), v.order + [Key(path)])
  }

  function RecordAll(v: View, entries: seq<Entry>): View {
    if entries == [] then v
    else
      var last := entries[|entries| - 1];
      RecordOne(RecordAll(v, entries[..|entries| - 1]), last.path, last.flags)
  }

  lemma {:induction false} RecordInTwoParts(v: View, a: seq<Entry>, b: seq<Entry>)
    ensures RecordAll(v, a + b) == RecordAll(RecordAll(v, a), b)
  {
    hide RecordOne;
    if b == [] {
      assert a + b == a;
    } else {
      var k := |b| - 1;
      assert (a + b)[..|a + b| - 1] == a + b[..k];
      RecordInTwoParts(v, a, b[..k]);
    }
  }

  class CobraCatalog {
    var commands: map<string, Types>
    var index: Types
    var order: seq<string>

    constructor ()
      ensures Contents() == View(map[], map[], [])
    {
      commands, index, order := map[], map[], [];
    }

    function Contents(): View
      reads this
    {
      View(commands, index, order)
    }

    function IsCommandSupported(command: string): bool
      reads this
    {
      command in commands
    }

    function FlagType(command: string, flag: string): Option<FlagType>
      reads this
    {
      if command in commands && flag in commands[command] then Some(commands[command][flag]) else None
    }

    function AnyFlagType(flag: string): Option<FlagType>
      reads this
    {
      if flag in index then Some(index[flag]) else None
    }

    method Commands() returns (r: seq<string>)
      ensures r == order
    {
      r := order;
    }

    /** Enters one command; the map of its flags is visited in any order. */
    method Record(path: seq<string>, types: Types)
      modifies this
      ensures Contents() == RecordOne(old(Contents()), path, types)
    {
      commands := commands[Key(path) := types];
      order := order + [Key(path)];
      ghost var before := index;
      var rest := types.Keys;
      while rest != {}
        invariant rest <= types.Keys && index == AddUnknown(before, types - rest)
        invariant commands == old(commands)[Key(path) := types] && order == old(order) + [Key(path)]
      {
        var name :| name in rest;
        if name !in index {
          index := index[name := types[name]];
        }
        rest := rest - {name};
      }
      assert types - rest == types;
    }
  }

  // ---------- the walk ----------

  /** A slice from the start of a backing array that other slices may share. */
  datatype Slice = Slice(backing: array<string>, len: nat)

  ghost predicate Within(s: Slice) {
    s.len <= s.backing.Length
  }

  function Words(s: Slice): seq<string>
    requires Within(s)
    reads s.backing
  {
    s.backing[..s.len]
  }

  /** append: in place when there is room, else into a new array of any larger capacity. */
  method Append(s: Slice, word: string) returns (r: Slice)
    requires Within(s)
    modifies s.backing
    ensures Within(r) && Words(r) == old(Words(s)) + [word]
    ensures r.len == s.len + 1 && (r.backing == s.backing || fresh(r.backing))
    ensures Words(s) == old(Words(s))
  {
    if s.len < s.backing.Length {
      s.backing[s.len] := word;
      r := Slice(s.backing, s.len + 1);
    } else {
      var capacity: nat :| capacity > s.len;
      var grown := new string[capacity](_ => "");
      for i := 0 to s.len
        invariant grown[..i] == s.backing[..i] && s.backing[..] == old(s.backing[..])
      {
        grown[i] := s.backing[i];
      }
      grown[s.len] := word;
      r := Slice(grown, s.len + 1);
    }
  }

  method CollectTypes(types: Types, flags: seq<Flag>) returns (r: Types)
    ensures r == AddTypes(types, flags)
  {
    r := types;
    var i := 0;
    assert flags[0..] == flags;
    while i < |flags|
      invariant 0 <= i <= |flags| && AddTypes(r, flags[i..]) == AddTypes(types, flags)
    {
      assert flags[i..][1..] == flags[i + 1..];
      r := r[flags[i].name := TypeOf(flags[i].kind)];
      i := i + 1;
    }
  }

  /**
   traverseCommands. The words of the caller's slice survive although every append below may
   write into the same array: each call writes at or past the length it was given.
   */
  method TraverseCommands(cmd: Command, parents: Slice, catalog: CobraCatalog, ghost at: seq<nat>)
    requires Within(parents)
    modifies catalog, parents.backing
    ensures Words(parents) == old(Words(parents))
    ensures catalog.Contents() == RecordAll(old(catalog.Contents()), PreOrder(cmd, old(Words(parents)), at))
    decreases cmd
  {
    hide RecordOne, CobraCatalog.Contents, RecordAll, PreOrder, PreOrderFrom;
    ghost var before := catalog.Contents();
    ghost var above := Words(parents);
    var path := Append(parents, cmd.use);
    ghost var words := Words(path);
    var types := CollectTypes(map[], cmd.inherited);
    types := CollectTypes(types, cmd.own);
    catalog.Record(Words(path), types);
    ghost var done := [Entry(at, words, FlagsOf(cmd))];
    FirstEntry(cmd, before, above, words, types, at);
    var j := 0;
    while j < |cmd.children|
      invariant 0 <= j <= |cmd.children|
      invariant Words(path) == words && Words(parents) == above
      invariant catalog.Contents() == RecordAll(before, done)
      invariant PreOrder(cmd, above, at) == done + PreOrderFrom(cmd, j, words, at)
    {
      NextEntries(cmd, j, words, at, before, done);
      if !cmd.children[j].hidden {
        TraverseCommands(cmd.children[j], path, catalog, at + [j]);
        KeepsLower(parents, path, above, words);
        done := done + PreOrder(cmd.children[j], words, at + [j]);
      }
      j := j + 1;
    }
    NextEntries(cmd, j, words, at, before, done);
  }

  lemma KeepsLower(parents: Slice, path: Slice, above: seq<string>, words: seq<string>)
    requires Within(parents) && Within(path) && path.len == parents.len + 1
    requires Words(path) == words && words[..parents.len] == above
    ensures path.backing == parents.backing ==> Words(parents) == above
  {
  }

  lemma FirstEntry(cmd: Command, before: View, above: seq<string>, words: seq<string>, types: Types, at: seq<nat>)
    requires words == above + [cmd.use] && types == FlagsOf(cmd)
    ensures var done := [Entry(at, words, FlagsOf(cmd))];
            && RecordOne(before, words, types) == RecordAll(before, done)
            && PreOrder(cmd, above, at) == done + PreOrderFrom(cmd, 0, words, at)
  {
    hide RecordOne;
    var done := [Entry(at, words, FlagsOf(cmd))];
    assert done[..0] == [];
  }

  lemma NextEntries(cmd: Command, j: nat, words: seq<string>, at: seq<nat>, before: View, done: seq<Entry>)
    ensures j < |cmd.children| && !cmd.children[j].hidden ==>
              var more := PreOrder(cmd.children[j], words, at + [j]);
              && done + PreOrderFrom(cmd, j, words, at) == done + more + PreOrderFrom(cmd, j + 1, words, at)
              && RecordAll(before, done + more) == RecordAll(RecordAll(before, done), more)
    ensures j < |cmd.children| && cmd.children[j].hidden ==>
              done + PreOrderFrom(cmd, j, words, at) == done + PreOrderFrom(cmd, j + 1, words, at)
    ensures j >= |cmd.children| ==> done + PreOrderFrom(cmd, j, words, at) == done
  {
    hide RecordAll, PreOrder;
    if j < |cmd.children| && !cmd.children[j].hidden {
      RecordInTwoParts(before, done, PreOrder(cmd.children[j], words, at + [j]));
    }
  }

  function Catalogued(root: Command): View {
    RecordAll(View(map[], map[], []), PreOrder(root, [], []))
  }

  method NewCobraCatalog(root: Command) returns (c: CobraCatalog)
    ensures fresh(c) && c.Contents() == Catalogued(root)
  {
    hide RecordAll, PreOrder;
    c := new CobraCatalog();
    var none := new string[0];
    assert Words(Slice(none, 0)) == [];
    TraverseCommands(root, Slice(none, 0), c, []);
  }

  // ---------- what the walk finds ----------

  /** The entry stands for the command that the child numbers lead to, none of them hidden. */
  predicate Reached(cmd: Command, parents: seq<string>, way: seq<nat>, e: Entry, at: seq<nat>)
    decreases |way|
  {
    if way == [] then e == Entry(at, parents + [cmd.use], FlagsOf(cmd))
    else
      && way[0] < |cmd.children| && !cmd.children[way[0]].hidden
      && Reached(cmd.children[way[0]], parents + [cmd.use], way[1..], e, at + [way[0]])
  }

  ghost predicate IsReached(cmd: Command, parents: seq<string>, e: Entry, at: seq<nat>) {
    exists way :: Reached(cmd, parents, way, e, at)
  }

  /** Exactly the commands that are reached without passing a hidden one are listed. */
  lemma {:induction false} ListedIffReached(cmd: Command, parents: seq<string>, at: seq<nat>, e: Entry)
    ensures e in PreOrder(cmd, parents, at) <==> IsReached(cmd, parents, e, at)
    decreases cmd, |cmd.children| + 1
  {
    hide FlagsOf;
    var path := parents + [cmd.use];
    ListedBelow(cmd, 0, parents, at, e);
    var self := Entry(at, path, FlagsOf(cmd));
    assert PreOrder(cmd, parents, at) == [self] + PreOrderFrom(cmd, 0, path, at);
    if e == self {
      assert Reached(cmd, parents, [], e, at);
    }
    if e in PreOrderFrom(cmd, 0, path, at) {
      var way :| WayFrom(cmd, 0, parents, way, e, at);
      assert Reached(cmd, parents, way, e, at);
    }
    if way :| Reached(cmd, parents, way, e, at) {
      if way == [] {
        assert e == self == PreOrder(cmd, parents, at)[0];
      } else {
        assert WayFrom(cmd, 0, parents, way, e, at);
      }
    }
  }

  predicate WayFrom(cmd: Command, j: nat, parents: seq<string>, way: seq<nat>, e: Entry, at: seq<nat>) {
    way != [] && j <= way[0] && Reached(cmd, parents, way, e, at)
  }

  lemma {:induction false} ListedBelow(cmd: Command, j: nat, parents: seq<string>, at: seq<nat>, e: Entry)
    ensures e in PreOrderFrom(cmd, j, parents + [cmd.use], at) <==> exists way :: WayFrom(cmd, j, parents, way, e, at)
    decreases cmd, |cmd.children| - j
  {
    hide FlagsOf, PreOrder;
    var path := parents + [cmd.use];
    if j < |cmd.children| {
      ListedBelow(cmd, j + 1, parents, at, e);
      ListedIffReached(cmd.children[j], path, at + [j], e);
      if e in PreOrderFrom(cmd, j, path, at) {
        if !cmd.children[j].hidden && e in PreOrder(cmd.children[j], path, at + [j]) {
          var way :| Reached(cmd.children[j], path, way, e, at + [j]);
          assert ([j] + way)[1..] == way;
          assert WayFrom(cmd, j, parents, [j] + way, e, at);
        } else {
          var way :| WayFrom(cmd, j + 1, parents, way, e, at);
          assert WayFrom(cmd, j, parents, way, e, at);
        }
      }
      if way :| WayFrom(cmd, j, parents, way, e, at) {
        if way[0] == j {
          var rest := way[1..];
          assert Reached(cmd.children[j], path, rest, e, at + [j]);
          assert e in PreOrder(cmd.children[j], path, at + [j]);
        } else {
          assert WayFrom(cmd, j + 1, parents, way, e, at);
          assert e in PreOrderFrom(cmd, j + 1, path, at);
        }
      }
    }
  }

  /** Parents before children, children in their order. */
  predicate Before(a: seq<nat>, b: seq<nat>) {
    b != [] && (a == [] || a[0] < b[0] || (a[0] == b[0] && Before(a[1..], b[1..])))
  }

  predicate InOrder(entries: seq<Entry>) {
    forall i, j :: 0 <= i < j < |entries| ==> Before(entries[i].at, entries[j].at)
  }

  predicate AllBelow(entries: seq<Entry>, at: seq<nat>, j: nat) {
    forall e :: e in entries ==> |e.at| > |at| && e.at[..|at|] == at && e.at[|at|] >= j
  }

  lemma {:induction false} BeforeByNumber(at: seq<nat>, a: seq<nat>, b: seq<nat>)
    requires |b| > |at| && at <= a && at <= b && (|a| > |at| ==> a[|at|] < b[|at|])
    ensures Before(a, b)
  {
    if at != [] {
      BeforeByNumber(at[1..], a[1..], b[1..]);
    }
  }

  /** Each visible command is listed once, and in pre-order. */
  lemma {:induction false} PreOrderIsInOrder(cmd: Command, parents: seq<string>, at: seq<nat>)
    ensures InOrder(PreOrder(cmd, parents, at))
    ensures forall e :: e in PreOrder(cmd, parents, at) ==> at <= e.at
    decreases cmd, |cmd.children| + 1
  {
    hide FlagsOf, PreOrderFrom;
    var path := parents + [cmd.use];
    BelowInOrder(cmd, 0, path, at);
    var below := PreOrderFrom(cmd, 0, path, at);
    var all := PreOrder(cmd, parents, at);
    forall i, j | 0 <= i < j < |all|
      ensures Before(all[i].at, all[j].at)
    {
      assert all[j] == below[j - 1] && below[j - 1] in below;
      if i == 0 {
        BeforeByNumber(at, at, all[j].at);
      } else {
        assert all[i] == below[i - 1];
      }
    }
  }

  lemma {:induction false} BelowInOrder(cmd: Command, j: nat, path: seq<string>, at: seq<nat>)
    ensures InOrder(PreOrderFrom(cmd, j, path, at)) && AllBelow(PreOrderFrom(cmd, j, path, at), at, j)
    decreases cmd, |cmd.children| - j
  {
    hide FlagsOf, PreOrder, Before;
    if j < |cmd.children| {
      BelowInOrder(cmd, j + 1, path, at);
      var first := if cmd.children[j].hidden then [] else PreOrder(cmd.children[j], path, at + [j]);
      var rest := PreOrderFrom(cmd, j + 1, path, at);
      if !cmd.children[j].hidden {
        PreOrderIsInOrder(cmd.children[j], path, at + [j]);
      }
      assert PreOrderFrom(cmd, j, path, at) == first + rest;
      TwoGroups(first, rest, at, j);
    }
  }

  lemma TwoGroups(first: seq<Entry>, rest: seq<Entry>, at: seq<nat>, j: nat)
    requires InOrder(first) && InOrder(rest) && AllBelow(rest, at, j + 1)
    requires forall e :: e in first ==> at + [j] <= e.at
    ensures InOrder(first + rest) && AllBelow(first + rest, at, j)
  {
    hide Before;
    var all := first + rest;
    forall e | e in first
      ensures |e.at| > |at| && e.at[..|at|] == at && e.at[|at|] == j
    {
      assert e.at[|at|] == (at + [j])[|at|];
      assert e.at[..|at|] == (at + [j])[..|at|];
    }
    forall i, k | 0 <= i < k < |all|
      ensures Before(all[i].at, all[k].at)
    {
      if i < |first| <= k {
        assert all[i] in first && all[k] in rest;
        BeforeByNumber(at, all[i].at, all[k].at);
      } else if k < |first| {
        assert all[i] == first[i] && all[k] == first[k];
      } else {
        assert all[i] == rest[i - |first|] && all[k] == rest[k - |first|];
      }
    }
  }

  /** Commands() lists the paths of exactly these entries, in this order. */
  lemma {:induction false} OrderListsThePaths(v: View, entries: seq<Entry>)
    ensures var o := RecordAll(v, entries).order;
            && |o| == |v.order| + |entries| && o[..|v.order|] == v.order
            && forall i :: 0 <= i < |entries| ==> o[|v.order| + i] == Join(entries[i].path, " ")
  {
    if entries != [] {
      OrderListsThePaths(v, entries[..|entries| - 1]);
    }
  }

  predicate FirstToDefine(entries: seq<Entry>, i: nat, flag: string) {
    && i < |entries| && flag in entries[i].flags
    && forall k :: 0 <= k < i ==> flag !in entries[k].flags
  }

  lemma {:induction false} FirstExists(entries: seq<Entry>, j: nat, flag: string) returns (i: nat)
    requires j < |entries| && flag in entries[j].flags
    ensures FirstToDefine(entries, i, flag)
    decreases j
  {
    if m: nat :| m < j && flag in entries[m].flags {
      i := FirstExists(entries, m, flag);
    } else {
      i := j;
    }
  }

  predicate Defines(entries: seq<Entry>, i: nat, flag: string) {
    i < |entries| && flag in entries[i].flags
  }

  /** AnyFlagType answers with the first command in pre-order that has the flag. */
  lemma {:induction false} IndexHoldsTheFirst(entries: seq<Entry>, flag: string)
    ensures var index := RecordAll(View(map[], map[], []), entries).index;
            && (flag in index <==> exists i: nat :: Defines(entries, i, flag))
            && (forall i: nat :: FirstToDefine(entries, i, flag) ==> flag in index && index[flag] == entries[i].flags[flag])
  {
    if entries != [] {
      var k := |entries| - 1;
      IndexHoldsTheFirst(entries[..k], flag);
      var index := RecordAll(View(map[], map[], []), entries[..k]).index;
      forall i: nat | i < k
        ensures Defines(entries, i, flag) <==> Defines(entries[..k], i, flag)
        ensures FirstToDefine(entries, i, flag) <==> FirstToDefine(entries[..k], i, flag)
      {
      }
      if flag in index {
        var i: nat :| Defines(entries[..k], i, flag);
        assert Defines(entries, i, flag);
      }
      assert flag in entries[k].flags <==> Defines(entries, k, flag);
    }
  }

  predicate LastWithKey(entries: seq<Entry>, i: nat, key: string) {
    && i < |entries| && Key(entries[i].path) == key
    && forall k :: i < k < |entries| ==> Key(entries[k].path) != key
  }

  /** A command path that several commands share stands for the last of them in pre-order. */
  lemma {:induction false} CommandsHoldTheLast(entries: seq<Entry>, key: string)
    ensures var commands := RecordAll(View(map[], map[], []), entries).commands;
            && (key in commands <==> exists i: nat :: LastWithKey(entries, i, key))
            && (forall i: nat :: LastWithKey(entries, i, key) ==> commands[key] == entries[i].flags)
  {
    hide Key;
    if entries != [] {
      var k := |entries| - 1;
      CommandsHoldTheLast(entries[..k], key);
      if Key(entries[k].path) == key {
        assert LastWithKey(entries, k, key);
      } else {
        forall i: nat | i < |entries|
          ensures LastWithKey(entries, i, key) <==> LastWithKey(entries[..k], i, key)
        {
        }
      }
    }
  }

  // ---------- one type for each name ----------

  /** Every visible command gives the flag the same type. */
  predicate OneType(entries: seq<Entry>, flag: string, t: FlagType) {
    forall e :: e in entries && flag in e.flags ==> e.flags[flag] == t
  }

  /** With one type for a name, every answer of the catalogue about it is that type. */
  lemma AnswersAgree(entries: seq<Entry>, flag: string, t: FlagType, key: string)
    requires OneType(entries, flag, t)
    ensures var v := RecordAll(View(map[], map[], []), entries);
            && (flag in v.index ==> v.index[flag] == t)
            && (key in v.commands && flag in v.commands[key] ==> v.commands[key][flag] == t)
  {
    hide RecordAll, Key;
    IndexHoldsTheFirst(entries, flag);
    CommandsHoldTheLast(entries, key);
    var v := RecordAll(View(map[], map[], []), entries);
    if flag in v.index {
      var j: nat :| Defines(entries, j, flag);
      var i := FirstExists(entries, j, flag);
      assert entries[i] in entries;
    }
    if key in v.commands {
      var i: nat :| LastWithKey(entries, i, key);
      assert entries[i] in entries;
    }
  }
}

/**
 Loading a bundle (pkg/bundle/bundle.go): the tar entries are unpacked below a directory
 named after the archive's digest, then the files the manifest lists are checked.
 */
module Bundle {
  import opened Results
  import Hex
  import Paths
  import Strings

  type Place = seq<string>

  const MANIFEST_NAME := "bundle.yaml"

  datatype BundleError =
    | TarballRequired | TarballUnreadable | ResetFailed | CacheNotCreated
    | ArchiveBroken | BadPath(reason: Paths.PathError) | EntryNotWritten(name: string)
    | ManifestMissing | ManifestInvalid | AssetUnreadable(rel: string) | ChecksumMismatch(rel: string)

  /** One tar header with its body; None is a body that breaks off while it is copied. */
  datatype Entry = Entry(isDir: bool, name: string, body: Option<string>)

  /** What the tar reader yields: entries, then a clean end or a read error. */
  datatype Archive = Archive(entries: seq<Entry>, endsCleanly: bool)

  datatype Manifest = Manifest(version: string, contents: string, checksums: map<string, string>)

  /** The parts of the system that are not modelled: SHA-256, the tar format and YAML. */
  datatype Codecs = Codecs(sha256: Hex.Digest, untar: string -> Archive, parse: string -> Option<Manifest>)

  datatype Loaded = Loaded(path: string, cacheRoot: string, extracted: string, manifest: Manifest)

  predicate Under(root: Place, p: Place) {
    root <= p
  }

  function Prefixes(p: Place): set<Place> {
    set i | 0 <= i <= |p| :: p[..i]
  }

  function Parent(p: Place): Place {
    if p == [] then [] else p[..|p| - 1]
  }

  // ---------- the file tree ----------

  /** The file tree of the machine, without links. Any operation may fail for reasons of its own. */
  class FileTree {
    const cwd: string
    var files: map<Place, string>
    var dirs: set<Place>

    constructor (cwd: string, files: map<Place, string>, dirs: set<Place>)
      requires Paths.IsAbs(cwd)
      ensures this.cwd == cwd && this.files == files && this.dirs == dirs
    {
      this.cwd := cwd;
      this.files := files;
      this.dirs := dirs;
    }

    /** os.Getwd */
    method Getwd() returns (w: Paths.WorkDir)
      requires Paths.IsAbs(cwd)
      ensures w == None || w == Some(cwd)
    {
      if * { return None; }
      return Some(cwd);
    }

    /** os.ReadFile */
    method ReadFile(path: string) returns (data: Option<string>)
      ensures data.Some? ==> Paths.Locate(cwd, path) in files && data.value == files[Paths.Locate(cwd, path)]
    {
      if * { return None; }
      var p := Paths.Locate(cwd, path);
      return if p in files then Some(files[p]) else None;
    }

    /** os.RemoveAll: nothing outside the subtree is touched, and on success the subtree is gone. */
    method RemoveAll(path: string) returns (ok: bool)
      modifies this
      ensures ok ==> files == Outside(old(files), Paths.Locate(cwd, path)) && dirs == DirsOutside(old(dirs), Paths.Locate(cwd, path))
      ensures Outside(files, Paths.Locate(cwd, path)) == Outside(old(files), Paths.Locate(cwd, path))
      ensures DirsOutside(dirs, Paths.Locate(cwd, path)) == DirsOutside(old(dirs), Paths.Locate(cwd, path))
    {
      var p := Paths.Locate(cwd, path);
      if * {
        return false;
      }
      files := Outside(files, p);
      dirs := DirsOutside(dirs, p);
      return true;
    }

    /** os.MkdirAll: a file in the way is an error; an error may leave some of the directories behind. */
    method MkdirAll(path: string) returns (ok: bool)
      modifies this`dirs
      ensures ok ==> dirs == old(dirs) + Prefixes(Paths.Locate(cwd, path)) && files.Keys !! Prefixes(Paths.Locate(cwd, path))
      ensures old(dirs) <= dirs <= old(dirs) + Prefixes(Paths.Locate(cwd, path))
    {
      var p := Paths.Locate(cwd, path);
      if files.Keys !! Prefixes(p) {
        dirs := dirs + Prefixes(p);
        return true;
      }
      return false;
    }

    /** os.WriteFile: an error may leave a cut-off file at that place and nowhere else. */
    method WriteFile(path: string, data: string) returns (ok: bool)
      modifies this`files
      ensures ok ==> files == old(files)[Paths.Locate(cwd, path) := data]
      ensures ok ==> Paths.Locate(cwd, path) !in dirs && Parent(Paths.Locate(cwd, path)) in dirs
      ensures files - {Paths.Locate(cwd, path)} == old(files) - {Paths.Locate(cwd, path)}
    {
      var p := Paths.Locate(cwd, path);
      if p in dirs || Parent(p) !in dirs {
        return false;
      }
      if * {
        var written :| 0 <= written <= |data|;
        files := files[p := data[..written]];
        return false;
      }
      files := files[p := data];
      return true;
    }
  }

  function Outside(files: map<Place, string>, root: Place): map<Place, string> {
    map p | p in files && !Under(root, p) :: files[p]
  }

  function DirsOutside(dirs: set<Place>, root: Place): set<Place> {
    set p | p in dirs && !Under(root, p)
  }

  // ---------- what an archive unpacks to ----------

  function TargetOf(root: Place, name: string): Place {
    root + Paths.Components(Paths.Clean(name))
  }

  predicate IsManifest(e: Entry) {
    !e.isDir && e.name == MANIFEST_NAME
  }

  predicate WritesFile(e: Entry) {
    !e.isDir && e.name != MANIFEST_NAME
  }

  function BodyOf(e: Entry): string {
    if e.body.Some? then e.body.value else ""
  }

  function FilesAfter(root: Place, files: map<Place, string>, e: Entry): map<Place, string> {
    if WritesFile(e) then files[TargetOf(root, e.name) := BodyOf(e)] else files
  }

  function DirsFor(root: Place, e: Entry): set<Place> {
    Prefixes(if e.isDir then TargetOf(root, e.name) else Parent(TargetOf(root, e.name)))
  }

  /** The files after all entries: a later entry for the same place replaces an earlier one. */
  function UnpackedFiles(root: Place, files: map<Place, string>, entries: seq<Entry>): map<Place, string> {
    if entries == [] then files
    else FilesAfter(root, UnpackedFiles(root, files, entries[..|entries| - 1]), entries[|entries| - 1])
  }

  /** The directories made for them. */
  function UnpackedDirs(root: Place, entries: seq<Entry>): set<Place> {
    if entries == [] then {}
    else UnpackedDirs(root, entries[..|entries| - 1]) + DirsFor(root, entries[|entries| - 1])
  }

  function LastManifest(entries: seq<Entry>): Option<string> {
    if entries == [] then None
    else if IsManifest(entries[|entries| - 1]) then Some(BodyOf(entries[|entries| - 1]))
    else LastManifest(entries[..|entries| - 1])
  }

  /** The entry is a file other than the manifest, and its cleaned name leads to p. */
  predicate WritesTo(root: Place, e: Entry, p: Place) {
    !e.isDir && e.name != "bundle.yaml" && root + Paths.Components(Paths.Clean(e.name)) == p
  }

  /** Entry i writes to p and no later entry does. */
  ghost predicate IsLastWriter(root: Place, entries: seq<Entry>, p: Place, i: int) {
    && 0 <= i < |entries| && WritesTo(root, entries[i], p)
    && forall j :: i < j < |entries| ==> !WritesTo(root, entries[j], p)
  }

  lemma LastWriterStep(root: Place, front: seq<Entry>, e: Entry, p: Place, i: int)
    ensures WritesTo(root, e, p) ==> IsLastWriter(root, front + [e], p, |front|)
    ensures !WritesTo(root, e, p) ==> (IsLastWriter(root, front + [e], p, i) <==> IsLastWriter(root, front, p, i))
  {
    hide WritesTo;
    var all := front + [e];
    assert all[|front|] == e && forall j :: 0 <= j < |front| ==> all[j] == front[j];
  }

  /** Where some entry writes, the tree ends up with the body of the last such entry. */
  lemma {:induction false} LastWriterWins(root: Place, files: map<Place, string>, entries: seq<Entry>, p: Place, i: int)
    requires IsLastWriter(root, entries, p, i)
    ensures p in UnpackedFiles(root, files, entries)
    ensures entries[i].body.Some? ==> UnpackedFiles(root, files, entries)[p] == entries[i].body.value
  {
    var front, e := entries[..|entries| - 1], entries[|entries| - 1];
    assert front + [e] == entries;
    LastWriterStep(root, front, e, p, i);
    if i < |front| {
      assert !WritesTo(root, e, p) && front[i] == entries[i];
      LastWriterWins(root, files, front, p, i);
    }
  }

  /** Where no entry writes, the tree is as it was. */
  lemma {:induction false} UnwrittenStays(root: Place, files: map<Place, string>, entries: seq<Entry>, p: Place)
    requires forall j :: 0 <= j < |entries| ==> !WritesTo(root, entries[j], p)
    ensures var after := UnpackedFiles(root, files, entries);
            (p in after <==> p in files) && (p in files ==> after[p] == files[p])
  {
    if entries != [] {
      hide TargetOf, BodyOf;
      assert !WritesTo(root, entries[|entries| - 1], p);
      UnwrittenStays(root, files, entries[..|entries| - 1], p);
    }
  }

  lemma {:induction false} SomeLastWriter(root: Place, entries: seq<Entry>, p: Place)
    requires exists j :: 0 <= j < |entries| && WritesTo(root, entries[j], p)
    ensures exists i :: IsLastWriter(root, entries, p, i)
  {
    var front, e := entries[..|entries| - 1], entries[|entries| - 1];
    assert front + [e] == entries;
    LastWriterStep(root, front, e, p, 0);
    if !WritesTo(root, e, p) {
      var j :| 0 <= j < |entries| && WritesTo(root, entries[j], p);
      assert front[j] == entries[j];
      SomeLastWriter(root, front, p);
      var i :| IsLastWriter(root, front, p, i);
      LastWriterStep(root, front, e, p, i);
    }
  }

  /** Starting from a tree with nothing below root, exactly the written places hold files afterwards. */
  lemma TreeBelowRoot(root: Place, files: map<Place, string>, entries: seq<Entry>, p: Place)
    requires Under(root, p)
    ensures var after := UnpackedFiles(root, Outside(files, root), entries);
            && (p in after <==> exists i :: IsLastWriter(root, entries, p, i))
            && forall i :: IsLastWriter(root, entries, p, i) && entries[i].body.Some? ==> after[p] == entries[i].body.value
  {
    forall i | IsLastWriter(root, entries, p, i) {
      LastWriterWins(root, Outside(files, root), entries, p, i);
    }
    if exists j :: 0 <= j < |entries| && WritesTo(root, entries[j], p) {
      SomeLastWriter(root, entries, p);
    } else {
      UnwrittenStays(root, Outside(files, root), entries, p);
    }
  }

  /** Entry i is a manifest and no later entry is. */
  predicate IsLastManifest(entries: seq<Entry>, i: int) {
    && 0 <= i < |entries| && !entries[i].isDir && entries[i].name == "bundle.yaml"
    && forall j :: i < j < |entries| ==> entries[j].isDir || entries[j].name != "bundle.yaml"
  }

  /** The manifest body is that of the last manifest entry, and there is none without one. */
  lemma {:induction false} ManifestIsTheLast(entries: seq<Entry>)
    ensures LastManifest(entries).Some? ==> exists i :: IsLastManifest(entries, i)
    ensures forall i :: IsLastManifest(entries, i) && entries[i].body.Some? ==> LastManifest(entries) == entries[i].body
  {
    if entries != [] {
      var k := |entries| - 1;
      var front := entries[..k];
      ManifestIsTheLast(front);
      if IsManifest(entries[k]) {
        assert IsLastManifest(entries, k);
      } else {
        forall i | 0 <= i < k
          ensures IsLastManifest(entries, i) <==> IsLastManifest(front, i)
        {
        }
        if LastManifest(front).Some? {
          var i :| IsLastManifest(front, i);
          assert IsLastManifest(entries, i);
        }
      }
    }
  }

  /** Below root there is exactly one file for each place that some entry writes, with the body of the last one. */
  ghost predicate HoldsArchive(root: Place, entries: seq<Entry>, files: map<Place, string>) {
    && (forall p :: Under(root, p) && p in files ==> exists i :: IsLastWriter(root, entries, p, i))
    && (forall p, i :: IsLastWriter(root, entries, p, i) ==> p in files && entries[i].body == Some(files[p]))
  }

  /** The manifest was parsed from the last manifest entry. */
  ghost predicate HasManifest(codecs: Codecs, entries: seq<Entry>, m: Manifest) {
    exists i :: IsLastManifest(entries, i) && entries[i].body.Some? && codecs.parse(entries[i].body.value) == Some(m)
  }

  lemma UnpackedHolds(codecs: Codecs, root: Place, entries: seq<Entry>, files: map<Place, string>, m: Manifest)
    requires forall i :: 0 <= i < |entries| ==> Wholesome(entries[i])
    requires LastManifest(entries).Some? && codecs.parse(LastManifest(entries).value) == Some(m)
    ensures HoldsArchive(root, entries, UnpackedFiles(root, Outside(files, root), entries))
    ensures HasManifest(codecs, entries, m)
  {
    var after := UnpackedFiles(root, Outside(files, root), entries);
    forall p | Under(root, p) && p in after
      ensures exists i :: IsLastWriter(root, entries, p, i)
    {
      TreeBelowRoot(root, files, entries, p);
    }
    forall p, i | IsLastWriter(root, entries, p, i)
      ensures p in after && entries[i].body == Some(after[p])
    {
      assert Wholesome(entries[i]);
      LastWriterWins(root, Outside(files, root), entries, p, i);
    }
    ManifestIsTheLast(entries);
    var i :| IsLastManifest(entries, i);
    assert Wholesome(entries[i]);
  }

  /** The directory an entry needs: its own place, or the one its file or manifest would stand in. */
  function NeededDir(root: Place, e: Entry): Place {
    var place := root + Paths.Components(Paths.Clean(e.name));
    if e.isDir || place == [] then place else place[..|place| - 1]
  }

  /** The directories made are exactly those on the way to what the entries need. */
  lemma {:induction false} DirsAreNeeded(root: Place, entries: seq<Entry>, p: Place)
    ensures p in UnpackedDirs(root, entries) <==> exists i :: 0 <= i < |entries| && p <= NeededDir(root, entries[i])
  {
    hide NeededDir, DirsFor, Prefixes;
    if entries != [] {
      var k := |entries| - 1;
      DirsAreNeeded(root, entries[..k], p);
      NeededIsMade(root, entries[k]);
      PrefixesAre(NeededDir(root, entries[k]), p);
      NeededByOneMore(root, entries[..k], entries[k], p);
      assert entries == entries[..k] + [entries[k]];
    }
  }

  lemma NeededByOneMore(root: Place, front: seq<Entry>, e: Entry, p: Place)
    ensures (exists i :: 0 <= i < |front + [e]| && p <= NeededDir(root, (front + [e])[i]))
            <==> (exists i :: 0 <= i < |front| && p <= NeededDir(root, front[i])) || p <= NeededDir(root, e)
  {
    hide NeededDir;
    var all := front + [e];
    assert all[|front|] == e;
    forall i | 0 <= i < |front| ensures all[i] == front[i] { }
    if i :| 0 <= i < |front| && p <= NeededDir(root, front[i]) {
      assert p <= NeededDir(root, all[i]);
    }
  }

  lemma NeededIsMade(root: Place, e: Entry)
    ensures DirsFor(root, e) == Prefixes(NeededDir(root, e))
  {
    hide Paths.Clean, Paths.Components;
  }

  lemma PrefixesAre(way: Place, p: Place)
    ensures p in Prefixes(way) <==> p <= way
  {
    if p <= way {
      assert p == way[..|p|];
    }
  }

  /** Entries that stay inside share a place exactly when their cleaned names are equal. */
  lemma SamePlaceIffSameCleanedName(root: Place, a: string, b: string)
    requires Paths.Inside(a) && Paths.Inside(b)
    ensures TargetOf(root, a) == TargetOf(root, b) <==> Paths.Clean(a) == Paths.Clean(b)
  {
    hide Paths.Clean, Paths.Components, Paths.Render;
    Paths.CleanIsNormal(a);
    Paths.CleanIsNormal(b);
    var x, y := Paths.Components(Paths.Clean(a)), Paths.Components(Paths.Clean(b));
    assert (root + x)[|root|..] == x && (root + y)[|root|..] == y;
  }

  // ---------- unpacking ----------

  /** Where safeJoin sends a name, read as a place in the tree. */
  lemma SafeJoinPlace(cwd: string, w: Paths.WorkDir, root: string, name: string)
    requires Paths.IsAbs(cwd) && (w == None || w == Some(cwd)) && Paths.SafeJoin(w, root, name).Ok?
    ensures var target := Paths.SafeJoin(w, root, name).value;
            && Paths.Inside(name)
            && Paths.Locate(cwd, target) == TargetOf(Paths.Locate(cwd, root), name)
            && Paths.Locate(cwd, Paths.Dir(target)) == Parent(TargetOf(Paths.Locate(cwd, root), name))
  {
    hide Paths.SafeJoin, Paths.Clean, Paths.Components, Paths.Render, Paths.Dir, Paths.Inside, Paths.ClimbsOut, Paths.Normal;
    Paths.SafeJoinIff(w, root, name);
    var place := Paths.PlaceOf(w, root, name);
    Paths.LocateOfRender(cwd, place);
    Paths.DirOfRender(place);
    ParentIsNormal(place);
    Paths.LocateOfRender(cwd, Parent(place));
  }

  lemma ParentIsNormal(p: Place)
    requires Paths.Normal(true, p)
    ensures Paths.Normal(true, Parent(p))
  {
  }

  /** Away from root the files are the same, and the only new directories lead to root. */
  ghost predicate KeepsOutside(files: map<Place, string>, dirs: set<Place>, files': map<Place, string>, dirs': set<Place>, root: Place) {
    && (forall p :: p in files && !Under(root, p) ==> p in files' && files'[p] == files[p])
    && (forall p :: p in files' && !Under(root, p) ==> p in files)
    && (forall p :: p in dirs && !Under(root, p) ==> p in dirs')
    && (forall p :: p in dirs' && !Under(root, p) ==> p in dirs || p in Prefixes(root))
  }

  lemma KeepsTransitive(f: map<Place, string>, d: set<Place>, f': map<Place, string>, d': set<Place>,
                        f'': map<Place, string>, d'': set<Place>, root: Place)
    requires KeepsOutside(f, d, f', d', root) && KeepsOutside(f', d', f'', d'', root)
    ensures KeepsOutside(f, d, f'', d'', root)
  {
    hide Under, Prefixes;
  }

  /** Changing one file at or below root, and making directories on the way to a place below it. */
  lemma ChangeBelowKeeps(f: map<Place, string>, d: set<Place>, f': map<Place, string>, d': set<Place>, root: Place, target: Place, way: Place)
    requires Under(root, target) && f' - {target} == f - {target}
    requires Under(root, way) || way == Parent(target)
    requires d <= d' <= d + Prefixes(way)
    ensures KeepsOutside(f, d, f', d', root)
  {
    forall p | !Under(root, p)
      ensures p in f ==> p in f' && f'[p] == f[p]
      ensures p in f' ==> p in f
    {
      assert p in f - {target} <==> p in f' - {target};
      assert p in f - {target} ==> (f - {target})[p] == (f' - {target})[p];
    }
    forall p | p in Prefixes(way) && !Under(root, p)
      ensures p in Prefixes(root)
    {
      PrefixOutside(root, way, p, target);
    }
  }

  lemma PrefixOutside(root: Place, way: Place, p: Place, target: Place)
    requires Under(root, target) && (Under(root, way) || way == Parent(target))
    requires p in Prefixes(way) && !Under(root, p)
    ensures p in Prefixes(root)
  {
    var i :| 0 <= i <= |way| && way[..i] == p;
    if Under(root, way) {
      if |root| <= i {
        assert false;
      }
      assert way[..|root|] == root && p == root[..i];
    } else {
      assert |target| == |root| && target == root;
      assert p == root[..i];
    }
  }

  /** extractEntry: one entry. A manifest body is handed back; anything else goes to disk. */
  method ExtractEntry(tree: FileTree, root: string, e: Entry, manifest: Option<string>)
    returns (r: Result<Unit, BundleError>, manifest': Option<string>)
    requires Paths.IsAbs(tree.cwd)
    modifies tree
    ensures r.Ok? ==>
      && Paths.Inside(e.name) && (e.isDir || e.body.Some?)
      && tree.files == FilesAfter(Paths.Locate(tree.cwd, root), old(tree.files), e)
      && tree.dirs == old(tree.dirs) + DirsFor(Paths.Locate(tree.cwd, root), e)
      && manifest' == (if IsManifest(e) then Some(BodyOf(e)) else manifest)
    ensures r.Ok? && e.isDir ==> tree.files == old(tree.files) && manifest' == manifest
    ensures r.Ok? && !e.isDir && e.name == "bundle.yaml" ==> tree.files == old(tree.files) && manifest' == e.body
    ensures r.Ok? && !e.isDir && e.name != "bundle.yaml" ==>
              && manifest' == manifest && e.body.Some?
              && tree.files == old(tree.files)[Paths.Locate(tree.cwd, root) + Paths.Components(Paths.Clean(e.name)) := e.body.value]
    ensures r.Err? ==> r.error.BadPath? || r.error.EntryNotWritten?
    ensures KeepsOutside(old(tree.files), old(tree.dirs), tree.files, tree.dirs, Paths.Locate(tree.cwd, root))
  {
    hide Paths.Locate, Paths.SafeJoin, Paths.Inside, KeepsOutside, Prefixes, Paths.Components, Paths.Clean, Under, Parent;
    manifest' := manifest;
    ghost var place := Paths.Locate(tree.cwd, root);
    ghost var target := TargetOf(place, e.name);
    assert Under(place, target) by { TargetIsUnder(place, e.name); }
    ghost var way := if e.isDir then target else Parent(target);
    ChangeBelowKeeps(tree.files, tree.dirs, tree.files, tree.dirs, place, target, way);
    var w := tree.Getwd();
    var joined := Paths.SafeJoin(w, root, e.name);
    if joined.Err? {
      return Err(BadPath(joined.error)), manifest;
    }
    SafeJoinPlace(tree.cwd, w, root, e.name);
    if e.isDir {
      var made := tree.MkdirAll(joined.value);
      ChangeBelowKeeps(old(tree.files), old(tree.dirs), tree.files, tree.dirs, place, target, way);
      if !made {
        return Err(EntryNotWritten(e.name)), manifest;
      }
      return Ok(Unit.Unit), manifest;
    }
    var made := tree.MkdirAll(Paths.Dir(joined.value));
    ChangeBelowKeeps(old(tree.files), old(tree.dirs), tree.files, tree.dirs, place, target, way);
    if !made || e.body.None? {
      return Err(EntryNotWritten(e.name)), manifest;
    }
    if e.name == MANIFEST_NAME {
      return Ok(Unit.Unit), e.body;
    }
    var written := tree.WriteFile(joined.value, e.body.value);
    ChangeBelowKeeps(old(tree.files), old(tree.dirs), tree.files, tree.dirs, place, target, way);
    if !written {
      return Err(EntryNotWritten(e.name)), manifest;
    }
    return Ok(Unit.Unit), manifest;
  }

  lemma TargetIsUnder(root: Place, name: string)
    ensures Under(root, TargetOf(root, name))
  {
  }

  predicate Wholesome(e: Entry) {
    Paths.Inside(e.name) && (e.isDir || e.body.Some?)
  }

  /** All entries were accepted, and the tree and the manifest body are what they make of them. */
  ghost predicate Unpacked(root: Place, entries: seq<Entry>, files: map<Place, string>, dirs: set<Place>,
                           files': map<Place, string>, dirs': set<Place>, manifest: Option<string>) {
    && (forall i :: 0 <= i < |entries| ==> Wholesome(entries[i]))
    && files' == UnpackedFiles(root, files, entries)
    && dirs' == dirs + UnpackedDirs(root, entries)
    && manifest == LastManifest(entries)
  }

  lemma UnpackedOneMore(root: Place, entries: seq<Entry>, e: Entry, files: map<Place, string>, dirs: set<Place>,
                        files': map<Place, string>, dirs': set<Place>, manifest: Option<string>)
    requires Unpacked(root, entries, files, dirs, files', dirs', manifest) && Wholesome(e)
    ensures Unpacked(root, entries + [e], files, dirs, FilesAfter(root, files', e), dirs' + DirsFor(root, e),
                     if IsManifest(e) then Some(BodyOf(e)) else manifest)
  {
    hide FilesAfter, DirsFor, Wholesome, BodyOf;
    assert (entries + [e])[..|entries|] == entries;
    assert dirs + UnpackedDirs(root, entries) + DirsFor(root, e) == dirs + (UnpackedDirs(root, entries) + DirsFor(root, e));
  }

  /** extractTarToDir */
  method ExtractTarToDir(tree: FileTree, codecs: Codecs, data: string, root: string) returns (r: Result<Manifest, BundleError>)
    requires Paths.IsAbs(tree.cwd)
    modifies tree
    ensures r.Ok? ==>
      var archive := codecs.untar(data);
      && archive.endsCleanly
      && Unpacked(Paths.Locate(tree.cwd, root), archive.entries, old(tree.files), old(tree.dirs), tree.files, tree.dirs, LastManifest(archive.entries))
      && LastManifest(archive.entries).Some?
      && codecs.parse(LastManifest(archive.entries).value) == Some(r.value)
      && PutsArchive(Paths.Locate(tree.cwd, root), archive.entries, old(tree.files), tree.files)
      && HasManifest(codecs, archive.entries, r.value)
    ensures r.Err? ==> r.error.BadPath? || r.error.EntryNotWritten? || r.error in {ArchiveBroken, ManifestMissing, ManifestInvalid}
    ensures r == Err(ArchiveBroken) ==> !codecs.untar(data).endsCleanly
    ensures r == Err(ManifestMissing) ==> forall i :: !IsLastManifest(codecs.untar(data).entries, i)
    ensures r == Err(ManifestInvalid) ==>
              exists i :: IsLastManifest(codecs.untar(data).entries, i) && codecs.untar(data).entries[i].body.Some?
                          && codecs.parse(codecs.untar(data).entries[i].body.value) == None
    ensures KeepsOutside(old(tree.files), old(tree.dirs), tree.files, tree.dirs, Paths.Locate(tree.cwd, root))
  {
    hide Paths.Locate, Paths.Inside, FilesAfter, DirsFor, KeepsOutside, IsManifest, BodyOf, Wholesome, Unpacked, LastManifest,
      PutsArchive, HasManifest;
    ghost var place := Paths.Locate(tree.cwd, root);
    ghost var files0, dirs0 := tree.files, tree.dirs;
    KeepsReflexive(files0, dirs0, place);
    var archive := codecs.untar(data);
    var entries := archive.entries;
    var manifest: Option<string> := None;
    var i := 0;
    assert Unpacked(place, [], files0, dirs0, files0, dirs0, None) by { UnpackedNone(place, files0, dirs0); }
    assert entries[..0] == [];
    while i < |entries|
      invariant i <= |entries|
      invariant Unpacked(place, entries[..i], files0, dirs0, tree.files, tree.dirs, manifest)
      invariant KeepsOutside(files0, dirs0, tree.files, tree.dirs, place)
    {
      ghost var files, dirs := tree.files, tree.dirs;
      var step, found := ExtractEntry(tree, root, entries[i], manifest);
      KeepsTransitive(files0, dirs0, files, dirs, tree.files, tree.dirs, place);
      if step.Err? {
        return Err(step.error);
      }
      UnpackedOneMore(place, entries[..i], entries[i], files0, dirs0, files, dirs, manifest) by {
        assert Wholesome(entries[i]) by { WholesomeEntry(entries[i]); }
      }
      assert entries[..i + 1] == entries[..i] + [entries[i]];
      manifest := found;
      i := i + 1;
    }
    assert entries[..i] == entries;
    assert manifest == LastManifest(entries) by { UnpackedManifest(place, entries, files0, dirs0, tree.files, tree.dirs, manifest); }
    ManifestIsTheLast(entries);
    UnpackedAreWholesome(place, entries, files0, dirs0, tree.files, tree.dirs, manifest);
    if !archive.endsCleanly {
      return Err(ArchiveBroken);
    }
    if manifest.None? {
      return Err(ManifestMissing);
    }
    var parsed := codecs.parse(manifest.value);
    if parsed.None? {
      return Err(ManifestInvalid);
    }
    UnpackedPuts(codecs, place, entries, files0, dirs0, tree.files, tree.dirs, parsed.value);
    return Ok(parsed.value);
  }

  /** Each place some entry writes holds the body of the last one, and all others are as before. */
  ghost predicate PutsArchive(root: Place, entries: seq<Entry>, before: map<Place, string>, after: map<Place, string>) {
    && (forall p, i :: IsLastWriter(root, entries, p, i) ==> p in after && entries[i].body == Some(after[p]))
    && (forall p :: (forall i :: !IsLastWriter(root, entries, p, i)) ==>
          (p in after <==> p in before) && (p in before ==> after[p] == before[p]))
  }

  lemma UnpackedPuts(codecs: Codecs, root: Place, entries: seq<Entry>, files: map<Place, string>, dirs: set<Place>,
                     files': map<Place, string>, dirs': set<Place>, m: Manifest)
    requires Unpacked(root, entries, files, dirs, files', dirs', LastManifest(entries))
    requires LastManifest(entries).Some? && codecs.parse(LastManifest(entries).value) == Some(m)
    ensures PutsArchive(root, entries, files, files') && HasManifest(codecs, entries, m)
  {
    forall p, i | IsLastWriter(root, entries, p, i)
      ensures p in files' && entries[i].body == Some(files'[p])
    {
      assert Wholesome(entries[i]);
      LastWriterWins(root, files, entries, p, i);
    }
    forall p | forall i :: !IsLastWriter(root, entries, p, i)
      ensures (p in files' <==> p in files) && (p in files ==> files'[p] == files[p])
    {
      if exists j :: 0 <= j < |entries| && WritesTo(root, entries[j], p) {
        SomeLastWriter(root, entries, p);
      } else {
        UnwrittenStays(root, files, entries, p);
      }
    }
    UnpackedHolds(codecs, root, entries, files, m);
  }

  lemma UnpackedAreWholesome(root: Place, entries: seq<Entry>, files: map<Place, string>, dirs: set<Place>,
                             files': map<Place, string>, dirs': set<Place>, manifest: Option<string>)
    requires Unpacked(root, entries, files, dirs, files', dirs', manifest)
    ensures forall i :: IsLastManifest(entries, i) ==> entries[i].body.Some?
  {
    forall i | IsLastManifest(entries, i)
      ensures entries[i].body.Some?
    {
      assert Wholesome(entries[i]);
    }
  }

  lemma UnpackedNone(root: Place, files: map<Place, string>, dirs: set<Place>)
    ensures Unpacked(root, [], files, dirs, files, dirs, None)
  {
  }

  lemma UnpackedManifest(root: Place, entries: seq<Entry>, files: map<Place, string>, dirs: set<Place>,
                         files': map<Place, string>, dirs': set<Place>, manifest: Option<string>)
    requires Unpacked(root, entries, files, dirs, files', dirs', manifest)
    ensures manifest == LastManifest(entries)
  {
  }

  lemma WholesomeEntry(e: Entry)
    requires Paths.Inside(e.name) && (e.isDir || e.body.Some?)
    ensures Wholesome(e)
  {
  }

  lemma KeepsReflexive(f: map<Place, string>, d: set<Place>, root: Place)
    ensures KeepsOutside(f, d, f, d, root)
  {
  }

  // ---------- checksums ----------

  function DigestText(codecs: Codecs, data: string): string {
    Hex.Encode(codecs.sha256(data))
  }

  /** The file named by rel exists below root and has the expected digest, letter case aside. */
  predicate ChecksumHolds(codecs: Codecs, files: map<Place, string>, root: Place, rel: string, expected: string) {
    && Paths.Inside(rel)
    && TargetOf(root, rel) in files
    && Strings.Lower(DigestText(codecs, files[TargetOf(root, rel)])) == Strings.Lower(expected)
  }

  /** The file named by rel is there, and its digest is not the expected one in any letter case. */
  predicate DigestDiffers(codecs: Codecs, files: map<Place, string>, root: Place, rel: string, expected: string) {
    var p := root + Paths.Components(Paths.Clean(rel));
    p in files && !Strings.SameButCase(Hex.Encode(codecs.sha256(files[p])), expected)
  }

  lemma ChecksumFails(codecs: Codecs, files: map<Place, string>, root: Place, rel: string, expected: string)
    requires Paths.Inside(rel) && TargetOf(root, rel) in files
    requires Strings.Lower(DigestText(codecs, files[TargetOf(root, rel)])) != Strings.Lower(expected)
    ensures DigestDiffers(codecs, files, root, rel, expected)
  {
    hide Paths.Clean, Paths.Components, Paths.Inside, Strings.Lower, Strings.SameButCase;
    Strings.LowerMeets(DigestText(codecs, files[TargetOf(root, rel)]), expected);
  }

  /** Without a working directory safeJoin says so; any other error is the name's own fault. */
  lemma JoinError(w: Paths.WorkDir, root: string, name: string)
    requires Paths.SafeJoin(w, root, name).Err?
    ensures Paths.SafeJoin(w, root, name) == Err(Paths.OutsideBundle) ==> !Paths.Inside(name)
  {
    hide Paths.Clean, Paths.Components, Paths.Render, Paths.Inside, Paths.ClimbsOut, Paths.Normal, Paths.Rel, Paths.Join;
    Paths.SafeJoinIff(w, root, name);
  }

  /** validateChecksums; the map is visited in an order of its own. */
  method ValidateChecksums(tree: FileTree, codecs: Codecs, root: string, checksums: map<string, string>) returns (r: Result<Unit, BundleError>)
    requires Paths.IsAbs(tree.cwd)
    ensures r.Ok? ==> forall rel :: rel in checksums ==> ChecksumHolds(codecs, tree.files, Paths.Locate(tree.cwd, root), rel, checksums[rel])
    ensures r.Err? && r.error.ChecksumMismatch? ==>
              var rel := r.error.rel;
              rel in checksums && Paths.Inside(rel) && DigestDiffers(codecs, tree.files, Paths.Locate(tree.cwd, root), rel, checksums[rel])
    ensures r.Err? && r.error == BadPath(Paths.OutsideBundle) ==> exists rel :: rel in checksums && !Paths.Inside(rel)
    ensures r.Err? && r.error.AssetUnreadable? ==> r.error.rel in checksums && Paths.Inside(r.error.rel)
    ensures r.Err? ==> r.error.BadPath? || r.error.ChecksumMismatch? || r.error.AssetUnreadable?
  {
    hide Paths.Locate, Paths.SafeJoin, Paths.Inside, Strings.Lower, DigestDiffers;
    var left := checksums.Keys;
    while left != {}
      invariant left <= checksums.Keys
      invariant forall rel :: rel in checksums && rel !in left ==>
                  ChecksumHolds(codecs, tree.files, Paths.Locate(tree.cwd, root), rel, checksums[rel])
      decreases |left|
    {
      var rel :| rel in left;
      left := left - {rel};
      var w := tree.Getwd();
      var joined := Paths.SafeJoin(w, root, rel);
      if joined.Err? {
        JoinError(w, root, rel);
        return Err(BadPath(joined.error));
      }
      SafeJoinPlace(tree.cwd, w, root, rel);
      var data := tree.ReadFile(joined.value);
      if data.None? {
        return Err(AssetUnreadable(rel));
      }
      var actual := DigestText(codecs, data.value);
      if Strings.Lower(actual) != Strings.Lower(checksums[rel]) {
        ChecksumFails(codecs, tree.files, Paths.Locate(tree.cwd, root), rel, checksums[rel]);
        return Err(ChecksumMismatch(rel));
      }
    }
    return Ok(Unit.Unit);
  }

  // ---------- Load ----------

  lemma DigestIsName(id: string)
    requires id != "" && Hex.IsHex(id)
    ensures Paths.IsComponent(id) && id != ".."
    ensures forall stack, rooted :: Paths.Push(stack, rooted, id) == stack + [id]
  {
    assert '0' <= id[0] <= '9' || 'a' <= id[0] <= 'f';
  }

  /** The extraction directory is a fresh child of the cache root, named by the archive's digest. */
  lemma ExtractDirIsChild(cwd: string, cacheRoot: string, id: string)
    requires Paths.IsAbs(cwd) && cacheRoot != "" && id != "" && Hex.IsHex(id)
    ensures Paths.Join(cacheRoot, id) != ""
    ensures Paths.Locate(cwd, Paths.Join(cacheRoot, id)) == Paths.Locate(cwd, cacheRoot) + [id]
  {
    hide Hex.IsHex, Paths.Walk, Paths.Components, Paths.Render, Paths.Push;
    DigestIsName(id);
    Paths.ComponentsOfJoin([id]);
    assert Strings.Join([id], "/") == id;
    Paths.JoinLocates(cacheRoot, id);
    var cs, rooted := Paths.Components(cacheRoot), Paths.IsAbs(cacheRoot);
    Paths.ComponentsAreComponents(cacheRoot);
    Paths.ComponentsAreComponents(cwd);
    Paths.ParseOfRender(rooted, Paths.Walk([], rooted, cs + [id]));
    Paths.WalkConcat([], true, cs, [id]);
    Paths.WalkOne(Paths.Walk([], true, cs), true, id);
    if rooted {
      Paths.RenderIsClean(true, Paths.Walk([], true, cs + [id]));
    } else {
      var ws := Paths.Components(cwd);
      var w := Paths.Walk([], true, ws);
      Paths.WalkIsNormal([], true, ws);
      Paths.WalkConcat([], true, ws, Paths.Walk([], false, cs + [id]));
      Paths.WalkOfReduced(w, cs + [id]);
      Paths.WalkConcat(w, true, cs, [id]);
      Paths.WalkOne(Paths.Walk(w, true, cs), true, id);
      Paths.WalkConcat([], true, ws, cs);
    }
  }

  /** What a successful Load leaves behind, and what it says about the assets. */
  ghost predicate LoadedTree(codecs: Codecs, tarball: string, cwd: string, b: Loaded,
                             files: map<Place, string>, dirs: set<Place>, files': map<Place, string>, dirs': set<Place>) {
    var root, archive := Paths.Locate(cwd, b.extracted), codecs.untar(tarball);
    && root == Paths.Locate(cwd, b.cacheRoot) + [DigestText(codecs, tarball)]
    && archive.endsCleanly
    && Unpacked(root, archive.entries, Outside(files, root), DirsOutside(dirs, root) + Prefixes(root), files', dirs', LastManifest(archive.entries))
    && HoldsArchive(root, archive.entries, files')
    && HasManifest(codecs, archive.entries, b.manifest)
    && forall rel :: rel in b.manifest.checksums ==> AssetOk(codecs, cwd, b, files', rel)
  }

  /** The file at AssetPath(rel) exists and has the digest the manifest gives. */
  predicate AssetOk(codecs: Codecs, cwd: string, b: Loaded, files: map<Place, string>, rel: string)
    requires rel in b.manifest.checksums
  {
    var p := Paths.Locate(cwd, Paths.AssetPath(b.extracted, rel));
    && p in files
    && Strings.SameButCase(Hex.Encode(codecs.sha256(files[p])), b.manifest.checksums[rel])
  }

  lemma AssetIsWhereChecked(codecs: Codecs, cwd: string, b: Loaded, files: map<Place, string>, rel: string)
    requires Paths.IsAbs(cwd) && b.extracted != "" && rel in b.manifest.checksums
    requires ChecksumHolds(codecs, files, Paths.Locate(cwd, b.extracted), rel, b.manifest.checksums[rel])
    ensures AssetOk(codecs, cwd, b, files, rel)
  {
    hide Paths.SafeJoin, Paths.Locate, Paths.AssetPath, Paths.Inside, Paths.ClimbsOut, Strings.Lower, Paths.Clean, Paths.Components;
    Paths.SafeJoinIff(Some(cwd), b.extracted, rel);
    Paths.AssetPathMeansTheSameFile(Some(cwd), b.extracted, rel);
    var p := Paths.Locate(cwd, Paths.AssetPath(b.extracted, rel));
    Strings.LowerMeets(DigestText(codecs, files[p]), b.manifest.checksums[rel]);
  }

  /** root is the extraction directory of this archive and cache root. */
  predicate IsExtractDir(codecs: Codecs, files: map<Place, string>, cwd: string, tarballPath: string, cacheRoot: string,
                         tarball: string, root: Place) {
    && Paths.Locate(cwd, tarballPath) in files
    && tarball == files[Paths.Locate(cwd, tarballPath)]
    && root == Paths.Locate(cwd, if cacheRoot == "" then Paths.Dir(tarballPath) else cacheRoot) + [DigestText(codecs, tarball)]
  }

  lemma ExtractDirPinned(codecs: Codecs, files: map<Place, string>, cwd: string, tarballPath: string, cacheRoot: string, tarball: string)
    requires Paths.IsAbs(cwd) && Paths.Locate(cwd, tarballPath) in files && tarball == files[Paths.Locate(cwd, tarballPath)]
    ensures var cache := if cacheRoot == "" then Paths.Dir(tarballPath) else cacheRoot;
            var dir := Paths.Join(cache, DigestText(codecs, tarball));
            && dir != ""
            && Paths.Locate(cwd, dir) == Paths.Locate(cwd, cache) + [DigestText(codecs, tarball)]
            && IsExtractDir(codecs, files, cwd, tarballPath, cacheRoot, tarball, Paths.Locate(cwd, dir))
  {
    hide Paths.Locate, Paths.Join, Paths.Dir;
    DirNotEmpty(tarballPath);
    Hex.EncodeIsHex(codecs.sha256(tarball));
    ExtractDirIsChild(cwd, if cacheRoot == "" then Paths.Dir(tarballPath) else cacheRoot, DigestText(codecs, tarball));
  }

  /**
   Load. Whatever happens, files outside the extraction directory stay as they are; the only
   directories that can appear outside it are those that lead to it. Before the archive was
   read there is no such directory, and nothing at all changes.
   */
  method Load(tree: FileTree, codecs: Codecs, tarballPath: string, cacheRoot: string)
    returns (r: Result<Loaded, BundleError>, ghost tarball: string, ghost root: Place)
    requires Paths.IsAbs(tree.cwd)
    modifies tree
    ensures KeepsOutside(old(tree.files), old(tree.dirs), tree.files, tree.dirs, root)
    ensures (tree.files == old(tree.files) && tree.dirs == old(tree.dirs))
         || IsExtractDir(codecs, old(tree.files), tree.cwd, tarballPath, cacheRoot, tarball, root)
    ensures tarballPath == "" <==> r == Err(TarballRequired)
    ensures r == Err(ArchiveBroken) ==> !codecs.untar(tarball).endsCleanly
    ensures r == Err(ManifestMissing) ==> forall i :: !IsLastManifest(codecs.untar(tarball).entries, i)
    ensures r.Err? && r.error.ChecksumMismatch? ==>
              exists m :: HasManifest(codecs, codecs.untar(tarball).entries, m) && r.error.rel in m.checksums
                          && DigestDiffers(codecs, tree.files, root, r.error.rel, m.checksums[r.error.rel])
    ensures r.Ok? ==>
      && IsExtractDir(codecs, old(tree.files), tree.cwd, tarballPath, cacheRoot, tarball, root)
      && r.value.path == tarballPath
      && r.value.cacheRoot == (if cacheRoot == "" then Paths.Dir(tarballPath) else cacheRoot)
      && root == Paths.Locate(tree.cwd, r.value.extracted)
      && LoadedTree(codecs, tarball, tree.cwd, r.value, old(tree.files), old(tree.dirs), tree.files, tree.dirs)
  {
    hide Paths.Locate, Paths.Join, Paths.Dir, KeepsOutside, Unpacked, IsExtractDir, AssetOk, ChecksumHolds, HoldsArchive, HasManifest, LastManifest,
      DigestDiffers, IsLastManifest, DigestText;
    tarball, root := "", [];
    KeepsReflexive(tree.files, tree.dirs, root);
    if tarballPath == "" {
      return Err(TarballRequired), tarball, root;
    }
    var cache := cacheRoot;
    if cache == "" {
      cache := Paths.Dir(tarballPath);
    }
    var data := tree.ReadFile(tarballPath);
    if data.None? {
      return Err(TarballUnreadable), tarball, root;
    }
    tarball := data.value;
    var bundleId := DigestText(codecs, data.value);
    var extractDir := Paths.Join(cache, bundleId);
    root := Paths.Locate(tree.cwd, extractDir);
    ExtractDirPinned(codecs, tree.files, tree.cwd, tarballPath, cacheRoot, tarball);

    var removed := tree.RemoveAll(extractDir);
    RemovalKeeps(old(tree.files), old(tree.dirs), tree.files, tree.dirs, root);
    if !removed {
      return Err(ResetFailed), tarball, root;
    }
    ghost var files, dirs := tree.files, tree.dirs;
    var made := tree.MkdirAll(extractDir);
    ChangeBelowKeeps(files, dirs, tree.files, tree.dirs, root, root, root) by { assert Under(root, root); }
    KeepsTransitive(old(tree.files), old(tree.dirs), files, dirs, tree.files, tree.dirs, root);
    if !made {
      return Err(CacheNotCreated), tarball, root;
    }
    ghost var files', dirs' := tree.files, tree.dirs;
    var manifest := ExtractTarToDir(tree, codecs, data.value, extractDir);
    KeepsTransitive(old(tree.files), old(tree.dirs), files', dirs', tree.files, tree.dirs, root);
    if manifest.Err? {
      return Err(manifest.error), tarball, root;
    }
    var checked := ValidateChecksums(tree, codecs, extractDir, manifest.value.checksums);
    if checked.Err? {
      return Err(checked.error), tarball, root;
    }
    var b := Loaded(tarballPath, cache, extractDir, manifest.value);
    forall rel | rel in b.manifest.checksums
      ensures AssetOk(codecs, tree.cwd, b, tree.files, rel)
    {
      AssetIsWhereChecked(codecs, tree.cwd, b, tree.files, rel);
    }
    UnpackedIsArchive(codecs, root, data.value, old(tree.files), files', dirs', tree.files, tree.dirs, b.manifest);
    return Ok(b), tarball, root;
  }

  lemma UnpackedIsArchive(codecs: Codecs, root: Place, data: string, files: map<Place, string>,
                          f: map<Place, string>, d: set<Place>, f': map<Place, string>, d': set<Place>, m: Manifest)
    requires f == Outside(files, root)
    requires var entries := codecs.untar(data).entries;
             && Unpacked(root, entries, f, d, f', d', LastManifest(entries))
             && LastManifest(entries).Some? && codecs.parse(LastManifest(entries).value) == Some(m)
    ensures HoldsArchive(root, codecs.untar(data).entries, f') && HasManifest(codecs, codecs.untar(data).entries, m)
  {
    hide HoldsArchive, HasManifest, UnpackedFiles, LastManifest, Wholesome, Outside;
    UnpackedHolds(codecs, root, codecs.untar(data).entries, files, m);
  }

  lemma DirNotEmpty(path: string)
    ensures Paths.Dir(path) != ""
  {
    Paths.CleanIsNormal(path[..Paths.LastSlash(path)]);
  }

  lemma RemovalKeeps(f: map<Place, string>, d: set<Place>, f': map<Place, string>, d': set<Place>, root: Place)
    requires Outside(f', root) == Outside(f, root) && DirsOutside(d', root) == DirsOutside(d, root)
    ensures KeepsOutside(f, d, f', d', root)
  {
    forall p | !Under(root, p)
      ensures p in f <==> p in f'
      ensures p in f ==> f'[p] == f[p]
      ensures p in d <==> p in d'
    {
      assert p in Outside(f, root) <==> p in Outside(f', root);
      assert p in Outside(f, root) ==> Outside(f, root)[p] == Outside(f', root)[p];
      assert p in DirsOutside(d, root) <==> p in DirsOutside(d', root);
    }
  }
}

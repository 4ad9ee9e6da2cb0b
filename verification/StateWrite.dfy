/**
 Writing the state file (pkg/state/state.go): into a temporary file in the same directory,
 then renamed over the target. Any step may fail, and the process may stop at any step.
 */
module StateWrite {
  import opened Results

  datatype ChartSource = ChartSource(kind: string, reference: string, digest: string)

  datatype Record = Record(
    release: string, ns: string, chart: ChartSource, version: string,
    lastAction: string, timestamp: string, clusterEndpoint: string)

  /** A file: something from elsewhere, or what encoding a record has put into it so far. */
  datatype Content = Foreign(text: string) | Empty | Torn(record: Record) | Complete(record: Record)

  datatype Stage = Directory | Create | ChmodTemp | Encode | Close | Rename | ChmodTarget

  // ---------- temporary names ----------

  type Random32 = r: int | 0 <= r < 0x1_0000_0000

  function Decimal(n: nat): string {
    if n < 10 then ["0123456789"[n]] else Decimal(n / 10) + ["0123456789"[n % 10]]
  }

  /** os.CreateTemp(dir, "state-*.json") puts a random number for the star. */
  function TempPath(dir: string, r: Random32): string {
    (if dir != "" && dir[|dir| - 1] == '/' then dir else dir + "/") + "state-" + Decimal(r) + ".json"
  }

  ghost predicate IsTempPath(path: string) {
    exists dir, r: Random32 :: path == TempPath(dir, r)
  }

  /** A temporary name starts with "state-" and ends in ".json"; a file of any other name is none. */
  lemma TempNamesShow(dir: string, name: string, r: Random32)
    requires '/' !in name && TempPath(dir, r) == (if dir != "" && dir[|dir| - 1] == '/' then dir else dir + "/") + name
    ensures |name| > 11 && name[..6] == "state-" && name[|name| - 5..] == ".json"
    ensures forall i :: 6 <= i < |name| - 5 ==> '0' <= name[i] <= '9'
  {
    var head := if dir != "" && dir[|dir| - 1] == '/' then dir else dir + "/";
    DecimalDigits(r);
    var rest := "state-" + Decimal(r) + ".json";
    assert (head + name)[|head|..] == name && (head + "state-" + Decimal(r) + ".json")[|head|..] == rest;
  }

  lemma {:induction false} DecimalDigits(n: nat)
    ensures |Decimal(n)| >= 1 && forall i :: 0 <= i < |Decimal(n)| ==> '0' <= Decimal(n)[i] <= '9'
  {
    if n >= 10 {
      DecimalDigits(n / 10);
    }
  }

  // ---------- one call, alone ----------

  /** How one step ends; Stops is the process ending at that step. An encoding that does not
      succeed may have written a part, and a stop inside it that wrote nothing is a stop before it. */
  datatype Fate = Succeeds | Fails | Stops

  datatype Fates = Fates(
    directory: Fate, create: Fate, temp: string, chmodTemp: Fate, encode: Fate, part: bool,
    close: Fate, rename: Fate, chmodTarget: Fate, remove: Fate)

  datatype Ending = Returned(failed: Option<Stage>) | Killed

  type Files = map<string, Content>

  function AfterRemove(files: Files, temp: string, remove: Fate): Files {
    if remove == Succeeds then files - {temp} else files
  }

  /** A call that leaves early: the deferred remove runs, unless the process stopped. */
  function Leave(files: Files, temp: string, failed: Option<Stage>, remove: Fate): (Files, Ending) {
    (AfterRemove(files, temp, remove), if remove == Stops then Killed else Returned(failed))
  }

  /** The whole call as one function of the files and of the fate of every step. */
  function WriteAlone(files: Files, path: string, record: Record, f: Fates): (Files, Ending) {
    if f.directory == Stops then (files, Killed)
    else if f.directory == Fails then (files, Returned(Some(Directory)))
    else if f.create == Stops then (files, Killed)
    else if f.create == Fails || f.temp in files then (files, Returned(Some(Create)))
    else
      var blank := files[f.temp := Empty];
      var torn := if f.part then blank[f.temp := Torn(record)] else blank;
      var written := blank[f.temp := Complete(record)];
      if f.chmodTemp == Stops then (blank, Killed)
      else if f.chmodTemp == Fails then Leave(blank, f.temp, Some(ChmodTemp), f.remove)
      else if f.encode == Stops then (torn, Killed)
      else if f.encode == Fails then Leave(torn, f.temp, Some(Encode), f.remove)
      else if f.close == Stops then (written, Killed)
      else if f.close == Fails then Leave(written, f.temp, Some(Close), f.remove)
      else if f.rename == Stops then (written, Killed)
      else if f.rename == Fails then Leave(written, f.temp, Some(Rename), f.remove)
      else
        var renamed := (written - {f.temp})[path := Complete(record)];
        if f.chmodTarget == Stops then (renamed, Killed)
        else Leave(renamed, f.temp, if f.chmodTarget == Fails then Some(ChmodTarget) else None, f.remove)
  }

  /** The rename took place. */
  predicate Reaches(files: Files, f: Fates) {
    && f.directory == Succeeds && f.create == Succeeds && f.temp !in files
    && f.chmodTemp == Succeeds && f.encode == Succeeds && f.close == Succeeds && f.rename == Succeeds
  }

  /** The file p is in both or in neither, and the same. */
  predicate SameAt(before: Files, after: Files, p: string) {
    (p in before <==> p in after) && (p in before ==> after[p] == before[p])
  }

  predicate Holds(files: Files, path: string, record: Record) {
    path in files && files[path] == Complete(record)
  }

  /** The target is not taken for a new temporary file. */
  predicate IsSafe(files: Files, path: string, f: Fates) {
    path in files || path != f.temp
  }

  /** What the ending of a call says about the target. */
  predicate Told(before: Files, after: Files, path: string, record: Record, r: Ending) {
    match r
    case Returned(None) => Holds(after, path, record)
    case Returned(Some(stage)) => if stage == ChmodTarget then Holds(after, path, record) else SameAt(before, after, path)
    case Killed => SameAt(before, after, path) || Holds(after, path, record)
  }

  lemma AlonePromise(files: Files, path: string, record: Record, f: Fates)
    ensures var (after, r) := WriteAlone(files, path, record, f);
            && (IsSafe(files, path, f) ==> Told(files, after, path, record, r))
            && (forall p :: p != path && (p in files || p != f.temp) ==> SameAt(files, after, p))
            && (r.Returned? && f.remove == Succeeds && f.temp != path ==> SameAt(files, after, f.temp))
  {
    AloneErrorTells(files, path, record, f);
    forall p | p in files || p != f.temp
      ensures if p == path && Reaches(files, f) then Holds(WriteAlone(files, path, record, f).0, p, record)
              else SameAt(files, WriteAlone(files, path, record, f).0, p)
    {
      AloneWritesAllOrNothing(files, path, record, f, p);
    }
  }

  class Folder {
    var files: Files

    constructor (files: Files)
      ensures this.files == files
    {
      this.files := files;
    }

    /** os.CreateTemp: only a name that does not exist yet is taken. */
    method CreateTemp(fate: Fate, name: string) returns (ok: bool)
      modifies this
      ensures ok <==> fate == Succeeds && name !in old(files)
      ensures files == if ok then old(files)[name := Empty] else old(files)
    {
      ok := fate == Succeeds && name !in files;
      if ok {
        files := files[name := Empty];
      }
    }

    /** json.Encoder.Encode into an open file: anything but success may leave a torn record. */
    method Encode(fate: Fate, part: bool, name: string, record: Record) returns (ok: bool)
      modifies this
      ensures ok <==> fate == Succeeds
      ensures files == if ok then old(files)[name := Complete(record)]
                       else if part then old(files)[name := Torn(record)]
                       else old(files)
    {
      ok := fate == Succeeds;
      if part {
        files := files[name := Torn(record)];
      }
      if ok {
        files := files[name := Complete(record)];
      }
    }

    /** os.Rename: one atomic step that replaces the target. */
    method Rename(fate: Fate, name: string, path: string) returns (ok: bool)
      requires name in files
      modifies this
      ensures ok <==> fate == Succeeds
      ensures files == if ok then (old(files) - {name})[path := old(files)[name]] else old(files)
    {
      ok := fate == Succeeds;
      if ok {
        var content := files[name];
        files := (files - {name})[path := content];
      }
    }

    /** os.Remove */
    method Remove(fate: Fate, name: string)
      modifies this
      ensures files == AfterRemove(old(files), name, fate)
    {
      if fate == Succeeds {
        files := files - {name};
      }
    }

    /**
     writeStateFile with ensureDirectory before it. Whatever ends the call, the target is what it
     was or the complete record, and the ending tells which; no other file changes but the
     temporary one, which is gone again when the call returns and its remove worked.
     */
    method WriteStateFile(path: string, record: Record, f: Fates) returns (r: Ending)
      modifies this
      ensures IsSafe(old(files), path, f) ==> Told(old(files), files, path, record, r)
      ensures forall p :: p != path && (p in old(files) || p != f.temp) ==> SameAt(old(files), files, p)
      ensures r.Returned? && f.remove == Succeeds && f.temp != path ==> SameAt(old(files), files, f.temp)
      ensures (files, r) == WriteAlone(old(files), path, record, f)
    {
      AlonePromise(files, path, record, f);
      hide Told, SameAt;
      if f.directory != Succeeds {
        return if f.directory == Stops then Killed else Returned(Some(Directory));
      }
      if f.create == Stops {
        return Killed;
      }
      var created := CreateTemp(f.create, f.temp);
      if !created {
        return Returned(Some(Stage.Create));
      }
      if f.chmodTemp != Succeeds {
        if f.chmodTemp == Stops {
          return Killed;
        }
        Remove(f.remove, f.temp);
        return if f.remove == Stops then Killed else Returned(Some(ChmodTemp));
      }
      var encoded := Encode(f.encode, f.part, f.temp, record);
      if !encoded {
        if f.encode == Stops {
          return Killed;
        }
        Remove(f.remove, f.temp);
        return if f.remove == Stops then Killed else Returned(Some(Stage.Encode));
      }
      if f.close != Succeeds {
        if f.close == Stops {
          return Killed;
        }
        Remove(f.remove, f.temp);
        return if f.remove == Stops then Killed else Returned(Some(Close));
      }
      if f.rename == Stops {
        return Killed;
      }
      var renamed := Rename(f.rename, f.temp, path);
      if !renamed {
        Remove(f.remove, f.temp);
        return if f.remove == Stops then Killed else Returned(Some(Stage.Rename));
      }
      if f.chmodTarget == Stops {
        return Killed;
      }
      Remove(f.remove, f.temp);
      if f.remove == Stops {
        return Killed;
      }
      return Returned(if f.chmodTarget == Fails then Some(ChmodTarget) else None);
    }
  }

  /** Alone, a call leaves every file but a new temporary one as it was, except that the target
      becomes the whole record exactly when the rename was reached. */
  lemma AloneWritesAllOrNothing(files: Files, path: string, record: Record, f: Fates, p: string)
    requires p in files || p != f.temp
    ensures var after := WriteAlone(files, path, record, f).0;
            if p == path && Reaches(files, f) then Holds(after, p, record) else SameAt(files, after, p)
  {
  }

  /** A call returns nil exactly when every step succeeded and it was not stopped in the deferred remove. */
  lemma NilIff(files: Files, path: string, record: Record, f: Fates)
    ensures WriteAlone(files, path, record, f).1 == Returned(None) <==>
            Reaches(files, f) && f.chmodTarget == Succeeds && f.remove != Stops
  {
  }

  /** A nil return, or an error of the last chmod, means the rename was reached; any other error means it was not. */
  lemma AloneErrorTells(files: Files, path: string, record: Record, f: Fates)
    ensures var r := WriteAlone(files, path, record, f).1;
            r.Returned? ==> (Reaches(files, f) <==> r.failed == None || r.failed == Some(ChmodTarget))
  {
  }
}

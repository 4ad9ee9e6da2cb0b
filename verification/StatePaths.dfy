/**
 Where the state file lives: the overrides a user may give, the platform default, and the
 checks on the result (internal/state/resolver.go; pkg/state/state.go, resolvePath;
 cmd/chainctl/app/action.go, resolveStateOverrides).
 */
module StatePaths {
  import opened Results
  import Paths
  import Strings

  const DEFAULT_FILE_NAME := "app.json"
  const CONFIG_DIR := "chainctl"
  const STATE_DIR := "state"

  datatype Overrides = Overrides(directory: string, fileName: string, filePath: string)

  /** What the resolver asks the process for: its working directory, XDG_CONFIG_HOME and the home directory. */
  datatype Environment = Environment(cwd: Paths.WorkDir, xdg: string, home: Option<string>)

  datatype StatePathError =
    | ConflictingOverrides | RelativeStateFile | InvalidFileName | NoHomeDirectory | NoWorkingDirectory | EmptyPath

  const RESERVED: seq<string> := [
    "CON", "PRN", "AUX", "NUL",
    "COM1", "COM2", "COM3", "COM4", "COM5", "COM6", "COM7", "COM8", "COM9",
    "LPT1", "LPT2", "LPT3", "LPT4", "LPT5", "LPT6", "LPT7", "LPT8", "LPT9"]

  predicate IsControl(c: char) {
    c < ' ' || c as int == 127
  }

  predicate IsReserved(upper: string) {
    exists i :: 0 <= i < |RESERVED| && (upper == RESERVED[i] || Strings.HasPrefix(upper, RESERVED[i] + "."))
  }

  /** invalidFileName; note that "." and ".." pass. */
  predicate IsInvalidFileName(name: string) {
    || name == "" || '/' in name || '\\' in name
    || (exists i :: 0 <= i < |name| && IsControl(name[i]))
    || IsReserved(Strings.Upper(name))
  }

  /** defaultStateDirectory */
  function DefaultStateDirectory(env: Environment): Result<string, StatePathError> {
    if env.xdg != "" then Ok(Paths.Clean(Paths.Clean(env.xdg) + "/" + CONFIG_DIR + "/" + STATE_DIR))
    else if env.home.None? || env.home.value == "" then Err(NoHomeDirectory)
    else Ok(Paths.Clean(Paths.Clean(env.home.value) + "/." + CONFIG_DIR + "/" + STATE_DIR))
  }

  function EffectiveDirectory(env: Environment, directory: string): Result<string, StatePathError> {
    match if directory == "" then DefaultStateDirectory(env) else Ok(directory)
    case Err(e) => Err(e)
    case Ok(chosen) =>
      var dir := Paths.Clean(chosen);
      if Paths.IsAbs(dir) then Ok(dir)
      else
        match Paths.Abs(env.cwd, dir)
        case Err(_) => Err(NoWorkingDirectory)
        case Ok(abs) => Ok(abs)
  }

  /** Resolver.Resolve */
  function Resolve(env: Environment, o: Overrides): Result<string, StatePathError> {
    if o.filePath != "" && o.fileName != "" then Err(ConflictingOverrides)
    else if o.filePath != "" then
      if !Paths.IsAbs(o.filePath) then Err(RelativeStateFile) else Ok(Paths.Clean(o.filePath))
    else
      match EffectiveDirectory(env, o.directory)
      case Err(e) => Err(e)
      case Ok(dir) =>
        var fileName := if o.fileName == "" then DEFAULT_FILE_NAME else o.fileName;
        if IsInvalidFileName(fileName) then Err(InvalidFileName) else Ok(Paths.Join(dir, fileName))
  }

  /** Manager.resolvePath with the default resolver */
  function ManagerPath(env: Environment, o: Overrides): Result<string, StatePathError> {
    match Resolve(env, o)
    case Err(e) => Err(e)
    case Ok(path) => if Strings.TrimSpace(path) == "" then Err(EmptyPath) else Ok(path)
  }

  /** resolveStateOverrides: the path, and the overrides that name it for the later write. */
  function RunOverrides(env: Environment, fileName: string, filePath: string): Result<(Overrides, string), StatePathError> {
    match Resolve(env, Overrides("", fileName, filePath))
    case Err(e) => Err(e)
    case Ok(path) => Ok((Overrides("", "", path), path))
  }

  lemma DirectoryIsCleanAbsolute(env: Environment, directory: string)
    ensures var r := EffectiveDirectory(env, directory);
            r.Ok? ==> Paths.IsAbs(r.value) && Paths.Clean(r.value) == r.value
  {
    var chosen := if directory == "" then DefaultStateDirectory(env) else Ok(directory);
    if chosen.Ok? {
      Paths.CleanIdempotent(chosen.value);
      var dir := Paths.Clean(chosen.value);
      if !Paths.IsAbs(dir) && env.cwd.Some? {
        Paths.CleanIdempotent(env.cwd.value + "/" + dir);
        Paths.CleanIsNormal(env.cwd.value + "/" + dir);
      }
    }
  }

  /**
   Whatever overrides are accepted, the answer is an absolute, clean, non-blank path, and it
   answers itself: resolving it again, in any environment, gives the same path.
   */
  lemma ResolvedPathIsFixed(env: Environment, o: Overrides, later: Environment)
    requires Resolve(env, o).Ok?
    ensures var path := Resolve(env, o).value;
            && Paths.IsAbs(path) && Paths.Clean(path) == path && Strings.TrimSpace(path) != ""
            && Resolve(later, Overrides("", "", path)) == Ok(path)
            && ManagerPath(later, Overrides("", "", path)) == Ok(path)
  {
    hide Strings.TrimSpace, Paths.Clean, IsInvalidFileName;
    var path := Resolve(env, o).value;
    if o.filePath != "" {
      Paths.CleanIdempotent(o.filePath);
      Paths.CleanIsNormal(o.filePath);
    } else {
      DirectoryIsCleanAbsolute(env, o.directory);
      var dir := EffectiveDirectory(env, o.directory).value;
      var joined := dir + "/" + (if o.fileName == "" then DEFAULT_FILE_NAME else o.fileName);
      Paths.CleanIdempotent(joined);
      Paths.CleanIsNormal(joined);
    }
    Strings.TrimSpaceKeepsFirst(path);
  }

  /** A file path override names the place it says, seen from any directory. */
  lemma FilePathIsObeyed(env: Environment, o: Overrides, cwd: string)
    requires o.filePath != "" && Resolve(env, o).Ok? && Paths.IsAbs(cwd)
    ensures Paths.Locate(cwd, Resolve(env, o).value) == Paths.Locate(cwd, o.filePath)
  {
    hide Paths.Clean, Paths.Locate;
    Paths.LocateOfClean(cwd, o.filePath);
  }

  /** A directory override names the directory it says, seen from the process's own. */
  lemma DirectoryIsObeyed(env: Environment, directory: string)
    requires directory != "" && env.cwd.Some? && EffectiveDirectory(env, directory).Ok?
    ensures Paths.Locate(env.cwd.value, EffectiveDirectory(env, directory).value) == Paths.Locate(env.cwd.value, directory)
  {
    var cwd, dir := env.cwd.value, Paths.Clean(directory);
    Paths.LocateOfClean(cwd, directory);
    hide Paths.Clean, Paths.Locate, Paths.Render;
    if !Paths.IsAbs(dir) {
      Paths.AbsLocates(env.cwd, dir);
      Paths.LocateOfRender(cwd, Paths.Locate(cwd, dir));
    }
  }

  /** So once a run has resolved its overrides, its state manager cannot fail on the path. */
  lemma LaterWriteFindsThePath(env: Environment, fileName: string, filePath: string, later: Environment)
    requires RunOverrides(env, fileName, filePath).Ok?
    ensures var (o, hint) := RunOverrides(env, fileName, filePath).value;
            ManagerPath(later, o) == Ok(hint)
  {
    ResolvedPathIsFixed(env, Overrides("", fileName, filePath), later);
  }

  /**
   An accepted file name lands directly in the chosen directory exactly when it is neither
   "." nor "..", the two names the check lets through.
   */
  lemma NamedFileIsChildIff(env: Environment, directory: string, fileName: string)
    requires fileName != "" && Resolve(env, Overrides(directory, fileName, "")).Ok?
    ensures EffectiveDirectory(env, directory).Ok?
    ensures var dir, path := EffectiveDirectory(env, directory).value, Resolve(env, Overrides(directory, fileName, "")).value;
            Paths.Components(path) == Paths.Components(dir) + [fileName] <==> fileName != "." && fileName != ".."
  {
    DirectoryIsCleanAbsolute(env, directory);
    var dir := EffectiveDirectory(env, directory).value;
    hide EffectiveDirectory, IsReserved, Paths.Clean, Paths.Render;
    Paths.CleanIsNormal(dir);
    var ds, cs := Paths.Components(dir), Paths.Components(fileName);
    NameComponents(fileName);
    Paths.JoinLocates(dir, fileName);
    Paths.ParseOfRender(true, Paths.Walk([], true, ds + cs));
    Paths.WalkConcat([], true, ds, cs);
    assert [] + ds == ds;
    Paths.WalkOfNormal([], true, ds);
    if cs == [] {
      assert ds + cs == ds;
    } else {
      Paths.WalkOne(ds, true, fileName);
    }
  }

  lemma NameComponents(name: string)
    requires name != "" && '/' !in name
    ensures Paths.Components(name) == if name == "." then [] else [name]
  {
    Strings.IndexOfUnique(name, '/', |name|);
    assert name[..|name|] == name;
    assert Strings.Split(name, '/') == [name];
    assert Paths.Kept([name][1..]) == [];
    if name != "." {
      assert Paths.Kept([name]) == [name] + Paths.Kept([name][1..]);
    }
  }

  /** The check does let ".." through. */
  lemma DotDotIsAccepted()
    ensures !IsInvalidFileName("..")
  {
    var upper := Strings.Upper("..");
    assert upper == "..";
    forall i | 0 <= i < |RESERVED|
      ensures upper != RESERVED[i] && !Strings.HasPrefix(upper, RESERVED[i] + ".")
    {
      assert |RESERVED[i]| >= 3;
    }
    assert ".."[0] == '.' && ".."[1] == '.';
  }

  /** Nor does it stop ".", which resolves to the directory itself. */
  lemma DotNamesTheDirectory(env: Environment, directory: string)
    requires EffectiveDirectory(env, directory).Ok?
    ensures Resolve(env, Overrides(directory, ".", "")) == EffectiveDirectory(env, directory)
  {
    DotIsAccepted();
    DirectoryIsCleanAbsolute(env, directory);
    var dir := EffectiveDirectory(env, directory).value;
    hide EffectiveDirectory, IsInvalidFileName, Paths.Clean, Paths.Render;
    Paths.CleanIsNormal(dir);
    NameComponents(".");
    Paths.JoinLocates(dir, ".");
    assert Paths.Components(dir) + [] == Paths.Components(dir) == [] + Paths.Components(dir);
    Paths.WalkOfNormal([], true, Paths.Components(dir));
  }

  lemma DotIsAccepted()
    ensures !IsInvalidFileName(".")
  {
    var upper := Strings.Upper(".");
    assert upper == ".";
    forall i | 0 <= i < |RESERVED|
      ensures upper != RESERVED[i] && !Strings.HasPrefix(upper, RESERVED[i] + ".")
    {
      assert |RESERVED[i]| >= 3;
    }
    assert "."[0] == '.';
  }

  // ---------- without overrides, and what is refused ----------

  lemma JoinNames(dir: string, names: seq<string>)
    requires dir != "" && names != [] && Paths.Normal(true, names)
    ensures Paths.Components(dir + "/" + Strings.Join(names, "/")) == Paths.Components(dir) + names
  {
    Paths.ComponentsConcat(dir, Strings.Join(names, "/"));
    Paths.ComponentsOfJoin(names);
  }

  /** Walking on from a place through plain names just appends them. */
  lemma NamesAppend(cwd: string, dir: string, names: seq<string>)
    requires Paths.IsAbs(cwd) && dir != "" && names != [] && Paths.Normal(true, names)
    ensures Paths.Locate(cwd, dir + "/" + Strings.Join(names, "/")) == Paths.Locate(cwd, dir) + names
  {
    hide Paths.Components, Paths.Walk, Strings.Join;
    JoinNames(dir, names);
    var path := dir + "/" + Strings.Join(names, "/");
    assert Paths.IsAbs(path) == Paths.IsAbs(dir);
    Paths.ComponentsAreComponents(dir);
    Paths.ComponentsAreComponents(cwd);
    var start := if Paths.IsAbs(dir) then Paths.Components(dir) else Paths.Components(cwd) + Paths.Components(dir);
    Paths.WalkIsNormal([], true, start);
    Paths.WalkConcat([], true, start, names);
    Paths.NamesOnTop(Paths.Walk([], true, start), names);
    if !Paths.IsAbs(dir) {
      assert Paths.Components(cwd) + (Paths.Components(dir) + names) == start + names;
    }
  }

  lemma AreNames()
    ensures Paths.Normal(true, ["chainctl", "state"]) && Paths.Normal(true, [".chainctl", "state"]) && Paths.Normal(true, ["app.json"])
    ensures Strings.Join(["chainctl", "state"], "/") == "chainctl/state" && Strings.Join([".chainctl", "state"], "/") == ".chainctl/state"
  {
    assert ["chainctl", "state"][1..] == ["state"] && [".chainctl", "state"][1..] == ["state"];
  }

  /** The default directory is chainctl/state below XDG_CONFIG_HOME, else .chainctl/state below the home directory. */
  lemma DefaultDirectoryIs(env: Environment)
    requires env.cwd.Some?
    ensures var r, cwd := EffectiveDirectory(env, ""), env.cwd.value;
            && (env.xdg != "" ==> r.Ok? && Paths.Locate(cwd, r.value) == Paths.Locate(cwd, env.xdg) + ["chainctl", "state"])
            && (env.xdg == "" && env.home.Some? && env.home.value != "" ==>
                  r.Ok? && Paths.Locate(cwd, r.value) == Paths.Locate(cwd, env.home.value) + [".chainctl", "state"])
            && (env.xdg == "" && (env.home == None || env.home == Some("")) ==> r == Err(NoHomeDirectory))
  {
    hide Paths.Clean, Paths.Locate, EffectiveDirectory, Paths.Normal;
    if env.xdg != "" {
      AreNames();
      WithNames(Paths.Clean(env.xdg));
      DirectoryBelow(env, env.xdg, ["chainctl", "state"]);
    } else if env.home.Some? && env.home.value != "" {
      AreNames();
      WithNames(Paths.Clean(env.home.value));
      DirectoryBelow(env, env.home.value, [".chainctl", "state"]);
    } else {
      NoDirectory(env);
    }
  }

  lemma WithNames(dir: string)
    ensures dir + "/" + CONFIG_DIR + "/" + STATE_DIR == dir + "/" + "chainctl/state"
    ensures dir + "/." + CONFIG_DIR + "/" + STATE_DIR == dir + "/" + ".chainctl/state"
  {
  }

  lemma NoDirectory(env: Environment)
    requires env.xdg == "" && (env.home == None || env.home == Some(""))
    ensures EffectiveDirectory(env, "") == Err(NoHomeDirectory)
  {
  }

  lemma DirectoryBelow(env: Environment, base: string, names: seq<string>)
    requires env.cwd.Some? && names != [] && Paths.Normal(true, names)
    requires DefaultStateDirectory(env) == Ok(Paths.Clean(Paths.Clean(base) + "/" + Strings.Join(names, "/")))
    ensures EffectiveDirectory(env, "").Ok?
    ensures Paths.Locate(env.cwd.value, EffectiveDirectory(env, "").value) == Paths.Locate(env.cwd.value, base) + names
  {
    hide Paths.Clean, Paths.Locate, EffectiveDirectory, DefaultStateDirectory, Paths.Normal, Strings.Join;
    var cwd := env.cwd.value;
    var path := Paths.Clean(base) + "/" + Strings.Join(names, "/");
    Paths.CleanIsNormal(base);
    NamesAppend(cwd, Paths.Clean(base), names);
    Paths.LocateOfClean(cwd, base);
    Paths.LocateOfClean(cwd, path);
    ChosenIsLocated(env, Paths.Clean(path));
  }

  /** Cleaning a chosen directory, and making it absolute, keeps the place. */
  lemma ChosenIsLocated(env: Environment, chosen: string)
    requires env.cwd.Some? && DefaultStateDirectory(env) == Ok(chosen)
    ensures EffectiveDirectory(env, "").Ok?
    ensures Paths.Locate(env.cwd.value, EffectiveDirectory(env, "").value) == Paths.Locate(env.cwd.value, chosen)
  {
    var cwd, dir := env.cwd.value, Paths.Clean(chosen);
    Paths.LocateOfClean(cwd, chosen);
    hide Paths.Clean, Paths.Locate, Paths.Render, DefaultStateDirectory;
    Paths.AbsLocates(env.cwd, dir);
    if !Paths.IsAbs(dir) {
      Paths.LocateOfRender(cwd, Paths.Locate(cwd, dir));
    }
  }

  /** Without a file name the state is in app.json, directly in the directory. */
  lemma DefaultFileIs(env: Environment, directory: string)
    requires EffectiveDirectory(env, directory).Ok?
    ensures Resolve(env, Overrides(directory, "", "")).Ok?
    ensures Paths.Components(Resolve(env, Overrides(directory, "", "")).value) ==
            Paths.Components(EffectiveDirectory(env, directory).value) + ["app.json"]
  {
    AppJsonIsValid();
    hide EffectiveDirectory, IsInvalidFileName;
    assert Resolve(env, Overrides(directory, "", "")) == Resolve(env, Overrides(directory, "app.json", ""));
    NamedFileIsChildIff(env, directory, "app.json");
  }

  lemma AppJsonIsValid()
    ensures !IsInvalidFileName("app.json")
  {
    InvalidNames("app.json");
    var upper := "app.json";
    assert upper[0] == 'a' && upper[1] == 'p';
  }

  /** One of the reserved device names stands at the front, letter case ignored, alone or before a dot. */
  predicate IsDeviceName(name: string, device: string) {
    && |device| <= |name|
    && (forall k :: 0 <= k < |device| ==> Strings.IsLetter(device[k], name[k]))
    && (|name| == |device| || name[|device|] == '.')
  }

  /** CON, PRN, AUX, NUL, COM1 to COM9 and LPT1 to LPT9. */
  predicate IsDevice(device: string) {
    || device == "CON" || device == "PRN" || device == "AUX" || device == "NUL"
    || (|device| == 4 && (device[..3] == "COM" || device[..3] == "LPT") && '1' <= device[3] <= '9')
  }

  lemma ReservedAreDevices()
    ensures forall i :: 0 <= i < |RESERVED| ==> IsDevice(RESERVED[i])
  {
  }

  lemma DevicesAreReserved(device: string)
    requires IsDevice(device)
    ensures device in RESERVED
  {
    assert RESERVED[0] == "CON" && RESERVED[1] == "PRN" && RESERVED[2] == "AUX" && RESERVED[3] == "NUL";
    if |device| == 4 {
      var d := device[3] as int - '1' as int;
      assert device == device[..3] + [device[3]];
      if device[..3] == "COM" {
        assert RESERVED[4 + d] == "COM" + [device[3]];
      } else {
        assert RESERVED[13 + d] == "LPT" + [device[3]];
      }
    }
  }

  lemma UpperIsDevice(name: string, device: string)
    requires IsDevice(device)
    ensures Strings.Upper(name) == device || Strings.HasPrefix(Strings.Upper(name), device + ".") <==> IsDeviceName(name, device)
  {
    var upper := Strings.Upper(name);
    assert forall k :: 0 <= k < |device| ==> 'A' <= device[k] <= 'Z' || '1' <= device[k] <= '9';
    if |device| <= |name| {
      forall k | 0 <= k < |device|
        ensures upper[k] == device[k] <==> Strings.IsLetter(device[k], name[k])
      {
        assert upper[k] == Strings.UpperChar(name[k]);
      }
      if |device| < |name| {
        assert upper[|device|] == Strings.UpperChar(name[|device|]);
        assert upper[..|device| + 1] == upper[..|device|] + [upper[|device|]];
      }
    }
  }

  /** Exactly these file names are refused. */
  lemma InvalidNames(name: string)
    ensures IsInvalidFileName(name) <==>
            || name == "" || '/' in name || '\\' in name
            || (exists i :: 0 <= i < |name| && (name[i] as int < 32 || name[i] as int == 127))
            || (exists device :: IsDevice(device) && IsDeviceName(name, device))
  {
    hide IsDeviceName, IsDevice, RESERVED;
    assert IsReserved(Strings.Upper(name)) <==> exists device :: IsDevice(device) && IsDeviceName(name, device) by {
      ReservedNames(name);
    }
  }

  lemma ReservedNames(name: string)
    ensures IsReserved(Strings.Upper(name)) <==> exists device :: IsDevice(device) && IsDeviceName(name, device)
  {
    hide IsDeviceName, IsDevice, Strings.Upper;
    ReservedAreDevices();
    var upper := Strings.Upper(name);
    if IsReserved(upper) {
      var i :| 0 <= i < |RESERVED| && (upper == RESERVED[i] || Strings.HasPrefix(upper, RESERVED[i] + "."));
      UpperIsDevice(name, RESERVED[i]);
    }
    if device :| IsDevice(device) && IsDeviceName(name, device) {
      UpperIsDevice(name, device);
      DevicesAreReserved(device);
      var i :| 0 <= i < |RESERVED| && RESERVED[i] == device;
    }
  }

  /** Which overrides are refused, and with which error. */
  lemma RefusedOverrides(env: Environment, o: Overrides)
    ensures Resolve(env, o) == Err(ConflictingOverrides) <==> o.filePath != "" && o.fileName != ""
    ensures Resolve(env, o) == Err(RelativeStateFile) <==> o.filePath != "" && o.fileName == "" && o.filePath[0] != '/'
    ensures Resolve(env, o) == Err(InvalidFileName) <==>
            o.filePath == "" && o.fileName != "" && IsInvalidFileName(o.fileName) && EffectiveDirectory(env, o.directory).Ok?
    ensures o.filePath == "" && EffectiveDirectory(env, o.directory).Err? ==>
              Resolve(env, o) == Err(NoHomeDirectory) || Resolve(env, o) == Err(NoWorkingDirectory)
  {
    AppJsonIsValid();
    hide IsInvalidFileName, Paths.Clean;
  }
}

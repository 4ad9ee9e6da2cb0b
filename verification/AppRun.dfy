/**
 One install or upgrade run and sequences of them (cmd/chainctl/app/action.go, with EmitPhase
 of pkg/telemetry/emitter.go): Helm runs inside a telemetry phase, and only its success leads
 to the state file being written.
 */
module AppRun {
  import opened Results
  import StatePaths
  import opened StateWrite

  datatype Action = Install | Upgrade

  datatype Profile = Profile(release: string, ns: string, clusterEndpoint: string)

  datatype Options = Options(valuesBlank: bool, endpointBlank: bool, appVersion: string, stateFileName: string, stateFilePath: string)

  datatype RunError =
    | ValuesFileMissing | EndpointMissing | BadProfile | StatePath(cause: StatePaths.StatePathError)
    | TelemetryUnavailable | ChartUnresolved | StartNotEmitted | HelmFailed | EndNotEmitted
    | NoStateManager | StateNotWritten(stage: Stage) | OutputFailed

  datatype RunEnding = Succeeded | Failed(error: RunError) | Stopped

  /** One call of installer.Install and what it returned; None is a process that ended inside it. */
  datatype HelmCall = HelmCall(profile: Profile, returned: Option<bool>)

  datatype PhaseEvent = PhaseStarted | PhaseSucceeded | PhaseFailed

  /** Everything outside the run that decides how it goes. */
  datatype Surroundings = Surroundings(
    profile: Option<Profile>, env: StatePaths.Environment, telemetry: Fate, chart: Fate, source: ChartSource,
    start: Fate, helm: Fate, finish: Fate, hasManager: bool, later: StatePaths.Environment,
    stamp: string, write: Fates, output: Fate)

  datatype Request = Request(action: Action, options: Options, around: Surroundings)

  datatype World = World(files: Files, calls: seq<HelmCall>, events: seq<PhaseEvent>)

  /** deriveVersion */
  function DeriveVersion(options: Options, source: ChartSource): string {
    if options.appVersion != "" then options.appVersion
    else if source.kind == "oci" then AfterLastColon(source.reference)
    else ""
  }

  /** The text after the last colon, or "" without one. */
  function AfterLastColon(s: string): string {
    if s == "" then ""
    else if ':' in s[1..] then AfterLastColon(s[1..])
    else if s[0] == ':' then s[1..]
    else ""
  }

  function ActionName(action: Action): string {
    match action
    case Install => "install"
    case Upgrade => "upgrade"
  }

  /** buildStateRecord, with the timestamp that Write fills in */
  function RecordOf(q: Request, profile: Profile): Record {
    Record(profile.release, profile.ns, q.around.source, DeriveVersion(q.options, q.around.source),
           ActionName(q.action), q.around.stamp, profile.clusterEndpoint)
  }

  /** The text is what stands after the last colon of s; without a colon it is empty. */
  predicate FollowsLastColon(s: string, text: string) {
    ':' !in text && (if ':' in s then |text| < |s| && s == s[..|s| - |text| - 1] + ":" + text else text == "")
  }

  lemma {:induction false} AfterLastColonFollows(s: string)
    ensures FollowsLastColon(s, AfterLastColon(s))
  {
    if s != "" && ':' in s[1..] {
      AfterLastColonFollows(s[1..]);
      var text := AfterLastColon(s[1..]);
      assert s[..|s| - |text| - 1] == [s[0]] + s[1..][..|s| - |text| - 2];
      assert s == [s[0]] + s[1..];
    } else if s != "" && s[0] == ':' {
      assert s[..0] == "" && s == ":" + s[1..];
    }
  }

  /** The record of this request, field by field, for the profile Helm was called with. */
  predicate IsRecordOf(rec: Record, q: Request, profile: Profile) {
    && rec.release == profile.release
    && rec.ns == profile.ns
    && rec.clusterEndpoint == profile.clusterEndpoint
    && rec.chart == q.around.source
    && rec.timestamp == q.around.stamp
    && rec.lastAction == (if q.action == Install then "install" else "upgrade")
    && (if q.options.appVersion != "" then rec.version == q.options.appVersion
        else if q.around.source.kind == "oci" then FollowsLastColon(q.around.source.reference, rec.version)
        else rec.version == "")
  }

  lemma RecordTells(q: Request, profile: Profile)
    ensures IsRecordOf(RecordOf(q, profile), q, profile)
  {
    hide AfterLastColon, FollowsLastColon;
    AfterLastColonFollows(q.around.source.reference);
  }

  /** The file holds the complete record of this request, and nothing else. */
  predicate HoldsRecordOf(files: Files, p: string, q: Request, profile: Profile) {
    p in files && files[p].Complete? && IsRecordOf(files[p].record, q, profile)
  }

  // ---------- the telemetry phase ----------

  datatype PhaseEnding = PhaseOk | PhaseError(error: RunError) | PhaseStopped

  /** EmitPhase around the Helm call, as a function of what each of its parts does. */
  function PhaseAlone(w: World, profile: Profile, a: Surroundings): (World, PhaseEnding) {
    if a.start == Stops then (w, PhaseStopped)
    else if a.start == Fails then (w, PhaseError(StartNotEmitted))
    else
      var w1 := w.(events := w.events + [PhaseStarted]);
      if a.helm == Stops then (w1.(calls := w1.calls + [HelmCall(profile, None)]), PhaseStopped)
      else
        var ok := a.helm == Succeeds;
        var w2 := w1.(calls := w1.calls + [HelmCall(profile, Some(ok))]);
        if a.finish == Stops then (w2, PhaseStopped)
        else if a.finish == Fails then (w2, PhaseError(EndNotEmitted))
        else (w2.(events := w2.events + [if ok then PhaseSucceeded else PhaseFailed]),
              if ok then PhaseOk else PhaseError(HelmFailed))
  }

  // ---------- the run ----------

  function Persist(w: World, q: Request, profile: Profile, overrides: StatePaths.Overrides): (World, RunEnding) {
    var a := q.around;
    if !a.hasManager then (w, Failed(NoStateManager))
    else
      match StatePaths.ManagerPath(a.later, overrides)
      case Err(e) => (w, Failed(StatePath(e)))
      case Ok(path) =>
        var (files, ending) := WriteAlone(w.files, path, RecordOf(q, profile), a.write);
        var w' := w.(files := files);
        match ending
        case Killed => (w', Stopped)
        case Returned(Some(stage)) => (w', Failed(StateNotWritten(stage)))
        case Returned(None) =>
          (w', match a.output case Succeeds => Succeeded case Fails => Failed(OutputFailed) case Stops => Stopped)
  }

  /** runAppAction as one function of the world and the request. */
  function RunAlone(w: World, q: Request): (World, RunEnding) {
    var a := q.around;
    if q.options.valuesBlank then (w, Failed(ValuesFileMissing))
    else if q.action == Upgrade && q.options.endpointBlank then (w, Failed(EndpointMissing))
    else if a.profile.None? then (w, Failed(BadProfile))
    else
      match StatePaths.RunOverrides(a.env, q.options.stateFileName, q.options.stateFilePath)
      case Err(e) => (w, Failed(StatePath(e)))
      case Ok((overrides, _)) =>
        if a.telemetry == Stops || (a.telemetry == Succeeds && a.chart == Stops) then (w, Stopped)
        else if a.telemetry == Fails then (w, Failed(TelemetryUnavailable))
        else if a.chart == Fails then (w, Failed(ChartUnresolved))
        else
          var (w', phase) := PhaseAlone(w, a.profile.value, a);
          match phase
          case PhaseStopped => (w', Stopped)
          case PhaseError(e) => (w', Failed(e))
          case PhaseOk => Persist(w', q, a.profile.value, overrides)
  }

  /** The state path the run settles on before it does anything else. */
  function StatePathOf(q: Request): Result<string, StatePaths.StatePathError> {
    StatePaths.Resolve(q.around.env, StatePaths.Overrides("", q.options.stateFileName, q.options.stateFilePath))
  }

  ghost predicate HelmAtMostOnce(w: World, q: Request, w': World) {
    || w'.calls == w.calls
    || (q.around.profile.Some? && exists ret :: w'.calls == w.calls + [HelmCall(q.around.profile.value, ret)])
  }

  /** Helm was called once and returned nil, and p holds the full record. */
  predicate Recorded(w: World, q: Request, w': World, p: string) {
    && q.around.profile.Some?
    && w'.calls == w.calls + [HelmCall(q.around.profile.value, Some(true))]
    && (IsSafe(w.files, p, q.around.write) ==>
          && Holds(w'.files, p, RecordOf(q, q.around.profile.value))
          && HoldsRecordOf(w'.files, p, q, w'.calls[|w.calls|].profile))
  }

  class Machine {
    const folder: Folder
    var calls: seq<HelmCall>
    var events: seq<PhaseEvent>

    constructor (folder: Folder)
      ensures this.folder == folder && calls == [] && events == []
    {
      this.folder := folder;
      calls, events := [], [];
    }

    function Now(): World
      reads this, folder
    {
      World(folder.files, calls, events)
    }

    /** Emitter.Emit */
    method Emit(fate: Fate, event: PhaseEvent) returns (ok: bool)
      modifies this`events
      ensures ok <==> fate == Succeeds
      ensures events == if ok then old(events) + [event] else old(events)
    {
      ok := fate == Succeeds;
      if ok {
        events := events + [event];
      }
    }

    /** HelmInstaller.Install */
    method CallHelm(fate: Fate, profile: Profile) returns (ok: bool)
      modifies this`calls
      ensures ok <==> fate == Succeeds
      ensures calls == old(calls) + [HelmCall(profile, if fate == Stops then None else Some(fate == Succeeds))]
    {
      ok := fate == Succeeds;
      calls := calls + [HelmCall(profile, if fate == Stops then None else Some(ok))];
    }

    /**
     Emitter.EmitPhase, called with the Helm installation as its callback: no callback without a
     start event, never two callbacks, and success only with a nil callback between both events.
     */
    method EmitPhase(profile: Profile, a: Surroundings) returns (r: PhaseEnding)
      modifies this
      ensures folder.files == old(folder.files)
      ensures calls == old(calls) || exists ret :: calls == old(calls) + [HelmCall(profile, ret)]
      ensures calls != old(calls) ==> old(events) + [PhaseStarted] <= events
      ensures r == PhaseOk ==>
                && calls == old(calls) + [HelmCall(profile, Some(true))]
                && events == old(events) + [PhaseStarted, PhaseSucceeded]
      ensures r == PhaseError(HelmFailed) ==>
                && calls == old(calls) + [HelmCall(profile, Some(false))]
                && events == old(events) + [PhaseStarted, PhaseFailed]
      ensures (Now(), r) == PhaseAlone(old(Now()), profile, a)
    {
      var started := Emit(a.start, PhaseStarted);
      if !started {
        return if a.start == Stops then PhaseStopped else PhaseError(StartNotEmitted);
      }
      var ok := CallHelm(a.helm, profile);
      if a.helm == Stops {
        return PhaseStopped;
      }
      var finished := Emit(a.finish, if ok then PhaseSucceeded else PhaseFailed);
      if !finished {
        return if a.finish == Stops then PhaseStopped else PhaseError(EndNotEmitted);
      }
      return if ok then PhaseOk else PhaseError(HelmFailed);
    }

    /**
     persistState and Manager.Write, then the output: success means the whole record is in the
     file the overrides name, and only that file can have changed.
     */
    method PersistState(q: Request, profile: Profile, overrides: StatePaths.Overrides) returns (r: RunEnding)
      modifies this, folder
      ensures calls == old(calls) && events == old(events)
      ensures r == Succeeded ==>
                && StatePaths.ManagerPath(q.around.later, overrides).Ok?
                && var path := StatePaths.ManagerPath(q.around.later, overrides).value;
                   IsSafe(old(folder.files), path, q.around.write) ==>
                     Holds(folder.files, path, RecordOf(q, profile)) && HoldsRecordOf(folder.files, path, q, profile)
      ensures forall p :: IsSafe(old(folder.files), p, q.around.write) && !SameAt(old(folder.files), folder.files, p) ==>
                StatePaths.ManagerPath(q.around.later, overrides) == Ok(p) && HoldsRecordOf(folder.files, p, q, profile)
      ensures (Now(), r) == Persist(old(Now()), q, profile, overrides)
    {
      RecordTells(q, profile);
      hide IsRecordOf, RecordOf;
      if !q.around.hasManager {
        return Failed(NoStateManager);
      }
      var path := StatePaths.ManagerPath(q.around.later, overrides);
      if path.Err? {
        return Failed(StatePath(path.error));
      }
      var ending := folder.WriteStateFile(path.value, RecordOf(q, profile), q.around.write);
      if ending.Killed? {
        return Stopped;
      }
      if ending.failed.Some? {
        return Failed(StateNotWritten(ending.failed.value));
      }
      if q.around.output == Stops {
        return Stopped;
      }
      return if q.around.output == Succeeds then Succeeded else Failed(OutputFailed);
    }

    /**
     runAppAction. Helm is called at most once. Success means it was, it returned nil, and the
     state file holds the full record; a file that changed at all is that file, after such a
     call; and an error about the state path comes before Helm or not at all.
     */
    method RunAppAction(q: Request) returns (r: RunEnding)
      modifies this, folder
      ensures HelmAtMostOnce(old(Now()), q, Now())
      ensures r == Succeeded ==> StatePathOf(q).Ok? && Recorded(old(Now()), q, Now(), StatePathOf(q).value)
      ensures forall p :: IsSafe(old(folder.files), p, q.around.write) && !SameAt(old(folder.files), folder.files, p) ==>
                StatePathOf(q) == Ok(p) && Recorded(old(Now()), q, Now(), p)
      ensures r.Failed? && r.error.StatePath? ==> Now() == old(Now())
      ensures (Now(), r) == RunAlone(old(Now()), q)
    {
      RunPromise(Now(), q);
      hide HelmAtMostOnce, Recorded, StatePathOf, SameAt;
      var a := q.around;
      if q.options.valuesBlank {
        return Failed(ValuesFileMissing);
      }
      if q.action == Upgrade && q.options.endpointBlank {
        return Failed(EndpointMissing);
      }
      if a.profile.None? {
        return Failed(BadProfile);
      }
      var overrides := StatePaths.RunOverrides(a.env, q.options.stateFileName, q.options.stateFilePath);
      if overrides.Err? {
        return Failed(StatePath(overrides.error));
      }
      if a.telemetry != Succeeds {
        return if a.telemetry == Stops then Stopped else Failed(TelemetryUnavailable);
      }
      if a.chart != Succeeds {
        return if a.chart == Stops then Stopped else Failed(ChartUnresolved);
      }
      var phase := EmitPhase(a.profile.value, a);
      if phase.PhaseStopped? {
        return Stopped;
      }
      if phase.PhaseError? {
        return Failed(phase.error);
      }
      r := PersistState(q, a.profile.value, overrides.value.0);
    }
  }

  // ---------- what one run can do ----------

  /** The run reaches the rename of the state file. */
  predicate Records(w: World, q: Request) {
    && !q.options.valuesBlank && !(q.action == Upgrade && q.options.endpointBlank)
    && q.around.profile.Some? && StatePathOf(q).Ok?
    && q.around.telemetry == Succeeds && q.around.chart == Succeeds
    && q.around.start == Succeeds && q.around.helm == Succeeds && q.around.finish == Succeeds
    && q.around.hasManager && Reaches(w.files, q.around.write)
  }

  /** A run succeeds exactly when it records, the write returns nil and the output is written. */
  lemma SucceedsIff(w: World, q: Request)
    ensures RunAlone(w, q).1 == Succeeded <==>
            && Records(w, q) && q.around.output == Succeeds
            && q.around.write.chmodTarget == Succeeds && q.around.write.remove != Stops
  {
    hide WriteAlone, Reaches, StatePaths.Resolve, StatePaths.ManagerPath, RecordOf;
    if StatePathOf(q).Ok? && q.around.profile.Some? {
      StatePaths.LaterWriteFindsThePath(q.around.env, q.options.stateFileName, q.options.stateFilePath, q.around.later);
      NilIff(w.files, StatePathOf(q).value, RecordOf(q, q.around.profile.value), q.around.write);
    }
  }

  /** What is checked first is reported first, and nothing has happened by then. */
  lemma EarlyErrors(w: World, q: Request)
    ensures q.options.valuesBlank ==> RunAlone(w, q) == (w, Failed(ValuesFileMissing))
    ensures !q.options.valuesBlank && q.action == Upgrade && q.options.endpointBlank ==> RunAlone(w, q) == (w, Failed(EndpointMissing))
    ensures RunAlone(w, q).1 == Failed(BadProfile) ==> RunAlone(w, q).0 == w && q.around.profile == None
    ensures RunAlone(w, q).1 == Failed(ChartUnresolved) ==> RunAlone(w, q).0 == w
    ensures RunAlone(w, q).1 == Failed(HelmFailed) ==> RunAlone(w, q).0.files == w.files && !Records(w, q)
  {
    hide WriteAlone, Reaches, StatePaths.Resolve, StatePaths.ManagerPath, RecordOf;
  }

  /** After the overrides were resolved, no later step of any run can fail on the state path. */
  lemma NoPathErrorAfterHelm(w: World, q: Request)
    requires RunAlone(w, q).0.calls != w.calls
    ensures StatePathOf(q).Ok?
    ensures !(RunAlone(w, q).1.Failed? && RunAlone(w, q).1.error.StatePath?)
  {
    hide WriteAlone, StatePaths.Resolve, StatePaths.ManagerPath, RecordOf;
    if StatePathOf(q).Ok? {
      StatePaths.LaterWriteFindsThePath(q.around.env, q.options.stateFileName, q.options.stateFilePath, q.around.later);
    }
  }

  /**
   EmitPhase runs its callback exactly when the start event was written, never twice, and
   reports success exactly when both events were written and the callback succeeded.
   */
  lemma PhaseCallsHelmOnce(w: World, profile: Profile, a: Surroundings)
    ensures var (w', r) := PhaseAlone(w, profile, a);
            && w'.files == w.files
            && (a.start != Succeeds ==> w'.calls == w.calls)
            && (a.start == Succeeds ==> |w'.calls| == |w.calls| + 1 && w'.calls[..|w.calls|] == w.calls && w'.calls[|w.calls|].profile == profile)
            && (r.PhaseOk? <==> a.start == Succeeds && a.helm == Succeeds && a.finish == Succeeds)
            && (r.PhaseOk? ==> w'.calls == w.calls + [HelmCall(profile, Some(true))]
                               && w'.events == w.events + [PhaseStarted, PhaseSucceeded])
  {
  }

  /**
   One run and one state file p. The file changes only when the run resolved p, made one Helm
   call that returned nil, and got as far as its rename; it then holds the run's full record.
   */
  lemma OneRun(w: World, q: Request, p: string)
    requires IsSafe(w.files, p, q.around.write)
    ensures var w' := RunAlone(w, q).0;
            && HelmAtMostOnce(w, q, w')
            && (if Records(w, q) && StatePathOf(q) == Ok(p) then Recorded(w, q, w', p) else SameAt(w.files, w'.files, p))
  {
    hide WriteAlone, Reaches, StatePaths.Resolve, StatePaths.ManagerPath, RecordOf, IsRecordOf, SameAt;
    if StatePathOf(q).Ok? && q.around.profile.Some? {
      RecordTells(q, q.around.profile.value);
      StatePaths.LaterWriteFindsThePath(q.around.env, q.options.stateFileName, q.options.stateFilePath, q.around.later);
      AloneWritesAllOrNothing(w.files, StatePathOf(q).value, RecordOf(q, q.around.profile.value), q.around.write, p);
    }
    assert SameAt(w.files, w.files, p) by { SameIsSame(w.files, p); }
  }

  lemma SameIsSame(files: Files, p: string)
    ensures SameAt(files, files, p)
  {
  }

  /** What holds of every run, whatever its path. */
  lemma RunPromise(w: World, q: Request)
    ensures var (w', r) := RunAlone(w, q);
            && HelmAtMostOnce(w, q, w')
            && (r == Succeeded ==> StatePathOf(q).Ok? && Recorded(w, q, w', StatePathOf(q).value))
            && (forall p :: IsSafe(w.files, p, q.around.write) && !SameAt(w.files, w'.files, p) ==>
                  StatePathOf(q) == Ok(p) && Recorded(w, q, w', p))
            && (r.Failed? && r.error.StatePath? ==> w' == w)
  {
    var (w', r) := RunAlone(w, q);
    HelmCalls(w, q);
    forall p | IsSafe(w.files, p, q.around.write) && !SameAt(w.files, w'.files, p)
      ensures StatePathOf(q) == Ok(p) && Recorded(w, q, w', p)
    {
      OneRun(w, q, p);
    }
    if r.Failed? && r.error.StatePath? {
      PathErrorChangesNothing(w, q);
    }
    if r == Succeeded {
      SuccessRecords(w, q);
      if IsSafe(w.files, StatePathOf(q).value, q.around.write) {
        OneRun(w, q, StatePathOf(q).value);
      }
    }
  }

  lemma HelmCalls(w: World, q: Request)
    ensures HelmAtMostOnce(w, q, RunAlone(w, q).0)
  {
    hide WriteAlone, StatePaths.Resolve, StatePaths.ManagerPath, RecordOf;
  }

  lemma PathErrorChangesNothing(w: World, q: Request)
    requires RunAlone(w, q).1.Failed? && RunAlone(w, q).1.error.StatePath?
    ensures RunAlone(w, q).0 == w
  {
    hide WriteAlone, StatePaths.Resolve, StatePaths.ManagerPath, RecordOf;
    if StatePathOf(q).Ok? {
      StatePaths.LaterWriteFindsThePath(q.around.env, q.options.stateFileName, q.options.stateFilePath, q.around.later);
    }
  }

  lemma SuccessRecords(w: World, q: Request)
    requires RunAlone(w, q).1 == Succeeded
    ensures StatePathOf(q).Ok? && Records(w, q)
    ensures q.around.profile.Some? && RunAlone(w, q).0.calls == w.calls + [HelmCall(q.around.profile.value, Some(true))]
  {
    hide WriteAlone, Reaches, StatePaths.Resolve, StatePaths.ManagerPath, RecordOf;
    if StatePathOf(q).Ok? && q.around.profile.Some? {
      StatePaths.LaterWriteFindsThePath(q.around.env, q.options.stateFileName, q.options.stateFilePath, q.around.later);
      AloneErrorTells(w.files, StatePathOf(q).value, RecordOf(q, q.around.profile.value), q.around.write);
    }
  }

  /** Helm can have succeeded without a record: the completion event fails, and nothing is written. */
  lemma SuccessWithoutRecord(w: World, q: Request)
    requires !q.options.valuesBlank && !(q.action == Upgrade && q.options.endpointBlank)
    requires q.around.profile.Some? && StatePathOf(q).Ok?
    requires q.around.telemetry == Succeeds && q.around.chart == Succeeds
    requires q.around.start == Succeeds && q.around.helm == Succeeds && q.around.finish == Fails
    ensures var (w', r) := RunAlone(w, q);
            && w'.calls == w.calls + [HelmCall(q.around.profile.value, Some(true))]
            && w'.files == w.files && r == Failed(EndNotEmitted)
  {
    hide StatePaths.Resolve, RecordOf, WriteAlone;
  }

  /**
   After a Helm call that returned nil, the state file is written exactly when the completion
   event was, there is a state manager and the write reaches its rename.
   */
  lemma RecordedIffFinished(w: World, q: Request, p: string)
    requires q.around.profile.Some? && RunAlone(w, q).0.calls == w.calls + [HelmCall(q.around.profile.value, Some(true))]
    requires StatePathOf(q) == Ok(p) && IsSafe(w.files, p, q.around.write)
    ensures var files := RunAlone(w, q).0.files;
            if q.around.finish == Succeeds && q.around.hasManager && Reaches(w.files, q.around.write)
            then Holds(files, p, RecordOf(q, q.around.profile.value)) && HoldsRecordOf(files, p, q, q.around.profile.value)
            else SameAt(w.files, files, p)
  {
    OneRun(w, q, p);
    NilCallMeans(w, q);
    hide RunAlone, Reaches, RecordOf, StatePathOf;
  }

  lemma NilCallMeans(w: World, q: Request)
    requires q.around.profile.Some? && RunAlone(w, q).0.calls == w.calls + [HelmCall(q.around.profile.value, Some(true))]
    ensures Records(w, q) <==> q.around.finish == Succeeds && q.around.hasManager && Reaches(w.files, q.around.write)
  {
    hide WriteAlone, Reaches, StatePaths.Resolve, StatePaths.ManagerPath, RecordOf;
    var calls := RunAlone(w, q).0.calls;
    assert |calls| == |w.calls| + 1 && calls[|w.calls|].returned == Some(true);
  }

  // ---------- sequences of runs ----------

  function After(w: World, requests: seq<Request>): World {
    if requests == [] then w
    else RunAlone(After(w, requests[..|requests| - 1]), requests[|requests| - 1]).0
  }

  /** The last run that got its record into p. */
  function LastRecorded(w: World, requests: seq<Request>, p: string): Option<nat> {
    if requests == [] then None
    else
      var front, q := requests[..|requests| - 1], requests[|requests| - 1];
      if Records(After(w, front), q) && StatePathOf(q) == Ok(p) then Some(|front|) else LastRecorded(w, front, p)
  }

  /** No run's temporary name equals p. */
  predicate AwayFromTemps(requests: seq<Request>, p: string) {
    forall i :: 0 <= i < |requests| ==> requests[i].around.write.temp != p
  }

  /** Run i made exactly one Helm call, and it returned nil. */
  ghost predicate CalledHelmOnce(w: World, requests: seq<Request>, i: nat)
    requires i < |requests|
  {
    && requests[i].around.profile.Some?
    && After(w, requests[..i + 1]).calls == After(w, requests[..i]).calls + [HelmCall(requests[i].around.profile.value, Some(true))]
  }

  /**
   Over any sequence of runs, whatever fails or stops in each: a state file holds what it held
   at first, until some run gets its record there; from then on it holds the full record of
   the last such run, and that run made exactly one Helm call, which returned nil.
   */
  lemma {:induction false} StateFileTellsTheTruth(w: World, requests: seq<Request>, p: string)
    requires p in w.files || AwayFromTemps(requests, p)
    ensures var w' := After(w, requests);
            match LastRecorded(w, requests, p)
            case None => SameAt(w.files, w'.files, p)
            case Some(i) => i < |requests| && TellsOf(w, requests, i, w'.files, p)
  {
    if requests != [] {
      var n := |requests| - 1;
      var front, q := requests[..n], requests[n];
      hide RunAlone, Records, RecordOf, StatePathOf, TellsOf, Recorded, SameAt;
      assert p in w.files || AwayFromTemps(front, p);
      StateFileTellsTheTruth(w, front, p);
      var f := After(w, front);
      assert IsSafe(f.files, p, q.around.write) by { StaysSafe(w, requests, p); }
      OneRun(f, q, p);
      if Records(f, q) && StatePathOf(q) == Ok(p) {
        LastTells(w, requests, p);
      } else if LastRecorded(w, front, p).Some? {
        PrefixTells(w, front, requests, LastRecorded(w, front, p).value, f.files, After(w, requests).files, p);
      } else {
        SameAtTransitive(w.files, f.files, After(w, requests).files, p);
      }
    }
  }

  /** Run i called Helm once, Helm returned nil, and the file holds the full record of that run. */
  ghost predicate TellsOf(w: World, requests: seq<Request>, i: nat, files: Files, p: string)
    requires i < |requests|
  {
    && CalledHelmOnce(w, requests, i)
    && Holds(files, p, RecordOf(requests[i], requests[i].around.profile.value))
    && HoldsRecordOf(files, p, requests[i], requests[i].around.profile.value)
  }

  /** A file that is there stays there, so it is never taken for a new temporary file. */
  lemma {:induction false} StaysSafe(w: World, requests: seq<Request>, p: string)
    requires requests != [] && (p in w.files || AwayFromTemps(requests, p))
    ensures var n := |requests| - 1; IsSafe(After(w, requests[..n]).files, p, requests[n].around.write)
  {
    if p in w.files {
      StaysThere(w, requests[..|requests| - 1], p);
    }
  }

  lemma {:induction false} StaysThere(w: World, requests: seq<Request>, p: string)
    requires p in w.files
    ensures p in After(w, requests).files
  {
    if requests != [] {
      hide RunAlone, Records, RecordOf, StatePathOf, IsRecordOf;
      var n := |requests| - 1;
      StaysThere(w, requests[..n], p);
      OneRun(After(w, requests[..n]), requests[n], p);
    }
  }

  lemma LastTells(w: World, requests: seq<Request>, p: string)
    requires requests != []
    requires var n := |requests| - 1;
             var f := After(w, requests[..n]);
             IsSafe(f.files, p, requests[n].around.write) && Recorded(f, requests[n], After(w, requests), p)
    ensures TellsOf(w, requests, |requests| - 1, After(w, requests).files, p)
  {
    hide RunAlone, RecordOf, IsRecordOf;
    CalledLast(w, requests);
  }

  lemma PrefixTells(w: World, front: seq<Request>, requests: seq<Request>, i: nat, files: Files, after: Files, p: string)
    requires front <= requests && i < |front| && TellsOf(w, front, i, files, p) && SameAt(files, after, p)
    ensures TellsOf(w, requests, i, after, p)
  {
    hide CalledHelmOnce, RecordOf, IsRecordOf;
    CalledInPrefix(w, front, requests, i);
    assert front[i] == requests[i];
  }

  lemma SameAtTransitive(a: Files, b: Files, c: Files, p: string)
    requires SameAt(a, b, p) && SameAt(b, c, p)
    ensures SameAt(a, c, p)
  {
  }

  lemma CalledLast(w: World, requests: seq<Request>)
    requires requests != []
    requires var front, q := requests[..|requests| - 1], requests[|requests| - 1];
             q.around.profile.Some? && RunAlone(After(w, front), q).0.calls == After(w, front).calls + [HelmCall(q.around.profile.value, Some(true))]
    ensures CalledHelmOnce(w, requests, |requests| - 1)
  {
    hide RunAlone;
    assert requests[..|requests| - 1 + 1] == requests;
  }

  lemma CalledInPrefix(w: World, front: seq<Request>, requests: seq<Request>, i: nat)
    requires front <= requests && i < |front| && CalledHelmOnce(w, front, i)
    ensures CalledHelmOnce(w, requests, i)
  {
    hide After;
    assert front[..i] == requests[..i] && front[..i + 1] == requests[..i + 1];
  }

  /** Every real temporary name is one that os.CreateTemp can make, so a state file of any other name qualifies. */
  lemma OrdinaryNamesAreAway(requests: seq<Request>, p: string)
    requires !IsTempPath(p)
    requires forall i :: 0 <= i < |requests| ==> IsTempPath(requests[i].around.write.temp)
    ensures AwayFromTemps(requests, p)
  {
  }
}

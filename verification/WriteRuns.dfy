/**
 Any number of state writes to one target, step by step and interleaved in any way. Each
 step may fail, and a writer that gets no further steps is a process that stopped there.
 Temporary names are never handed out twice during a run.
 */
module WriteRuns {
  import opened Results
  import opened StateWrite

  /** The directory of the state file, and the state file. */
  datatype Site = Site(dir: string, target: string)

  /** Where one call stands. In Open, `next` is the step it takes next; Leaving still owes the
      deferred remove. */
  datatype Writer =
    | Entered(record: Record)
    | DirReady(record: Record)
    | Open(record: Record, temp: string, next: Stage)
    | Leaving(record: Record, temp: string, failed: Option<Stage>)
    | Gone(record: Record, created: Option<string>, failed: Option<Stage>, removed: bool)

  datatype Event =
    | Enter(w: nat, record: Record)
    | MakeDir(w: nat, ok: bool)
    | OpenTemp(w: nat, pick: Option<Random32>)
    | WritePart(w: nat)
    | Step(w: nat, ok: bool)
    | Cleanup(w: nat, ok: bool)

  datatype State = State(files: Files, used: set<string>, writers: map<nat, Writer>)

  /** The next step of an open writer. */
  function StepOpen(site: Site, files: Files, writer: Writer, ok: bool): (Files, Writer)
    requires writer.Open?
  {
    var Open(record, temp, next) := writer;
    match next
    case ChmodTemp =>
      (files, if ok then Open(record, temp, Encode) else Leaving(record, temp, Some(ChmodTemp)))
    case Encode =>
      if ok then (files[temp := Complete(record)], Open(record, temp, Close))
      else (files, Leaving(record, temp, Some(Encode)))
    case Close =>
      (files, if ok then Open(record, temp, Rename) else Leaving(record, temp, Some(Close)))
    case Rename =>
      if ok && temp in files then ((files - {temp})[site.target := files[temp]], Open(record, temp, ChmodTarget))
      else (files, Leaving(record, temp, Some(Rename)))
    case ChmodTarget =>
      (files, Leaving(record, temp, if ok then None else Some(ChmodTarget)))
    case _ => (files, writer)
  }

  function Move(site: Site, s: State, writer: Writer, e: Event): (Files, set<string>, Writer) {
    match (writer, e)
    case (Entered(record), MakeDir(_, ok)) =>
      (s.files, s.used, if ok then DirReady(record) else Gone(record, None, Some(Directory), true))
    case (DirReady(record), OpenTemp(_, pick)) =>
      if pick.None? then (s.files, s.used, Gone(record, None, Some(Create), true))
      else
        var temp := TempPath(site.dir, pick.value);
        if temp in s.files || temp in s.used then (s.files, s.used, writer)
        else (s.files[temp := Empty], s.used + {temp}, Open(record, temp, ChmodTemp))
    case (Open(record, temp, next), WritePart(_)) =>
      (if next.Encode? then s.files[temp := Torn(record)] else s.files, s.used, writer)
    case (Open(_, _, _), Step(_, ok)) =>
      var (files, after) := StepOpen(site, s.files, writer, ok);
      (files, s.used, after)
    case (Leaving(record, temp, failed), Cleanup(_, ok)) =>
      (if ok then s.files - {temp} else s.files, s.used, Gone(record, Some(temp), failed, ok))
    case _ => (s.files, s.used, writer)
  }

  function Next(site: Site, s: State, e: Event): State {
    if e.Enter? then
      if e.w in s.writers then s else s.(writers := s.writers[e.w := Entered(e.record)])
    else if e.w !in s.writers then s
    else
      var (files, used, writer) := Move(site, s, s.writers[e.w], e);
      State(files, used, s.writers[e.w := writer])
  }

  function Run(site: Site, init: Files, events: seq<Event>): State {
    if events == [] then State(init, {}, map[])
    else Next(site, Run(site, init, events[..|events| - 1]), events[|events| - 1])
  }

  /** The writer whose rename was the last to take place. */
  function LastRename(site: Site, init: Files, events: seq<Event>): Option<nat> {
    if events == [] then None
    else
      var front, e := events[..|events| - 1], events[|events| - 1];
      if Renames(Run(site, init, front), e) then Some(e.w) else LastRename(site, init, front)
  }

  predicate Renames(s: State, e: Event) {
    && e.Step? && e.ok && e.w in s.writers
    && s.writers[e.w].Open? && s.writers[e.w].next.Rename? && s.writers[e.w].temp in s.files
  }

  /** The call is past its rename. */
  predicate HasRenamed(writer: Writer) {
    match writer
    case Open(_, _, next) => next.ChmodTarget?
    case Leaving(_, _, failed) => failed == None || failed == Some(ChmodTarget)
    case Gone(_, temp, failed, _) => temp.Some? && (failed == None || failed == Some(ChmodTarget))
    case _ => false
  }

  // ---------- the invariant ----------

  function TempOf(writer: Writer): Option<string> {
    match writer
    case Open(_, temp, _) => Some(temp)
    case Leaving(_, temp, _) => Some(temp)
    case Gone(_, temp, _, _) => temp
    case _ => None
  }

  /** What the directory holds under a call's temporary name. */
  predicate WriterOk(site: Site, files: Files, writer: Writer) {
    match writer
    case Open(record, temp, next) =>
      && temp != site.target
      && !next.Directory? && !next.Create?
      && (next.ChmodTarget? <==> temp !in files)
      && (next.Close? || next.Rename? ==> temp in files && files[temp] == Complete(record))
    case Leaving(_, temp, _) =>
      temp != site.target && (HasRenamed(writer) ==> temp !in files)
    case Gone(_, temp, _, removed) =>
      temp.Some? ==> temp.value != site.target && (HasRenamed(writer) || removed ==> temp.value !in files)
    case _ => true
  }

  /** The target cannot be mistaken for a new temporary file. */
  ghost predicate Guarded(site: Site, init: Files) {
    site.target in init || forall r: Random32 :: site.target != TempPath(site.dir, r)
  }

  ghost predicate Inv(site: Site, init: Files, s: State) {
    && (forall w :: w in s.writers ==> WriterOk(site, s.files, s.writers[w]))
    && (forall w :: w in s.writers && TempOf(s.writers[w]).Some? ==> TempOf(s.writers[w]).value in s.used)
    && (forall v, w {:trigger s.writers[v], s.writers[w]} ::
          v in s.writers && w in s.writers && SharedTemp(s.writers[v], s.writers[w]) ==> v == w)
    && (site.target in init ==> site.target in s.files)
  }

  predicate SharedTemp(a: Writer, b: Writer) {
    TempOf(a).Some? && TempOf(a) == TempOf(b)
  }

  /** A file that is neither the target nor the mover's own temporary file is left alone. */
  lemma MoveTouchesOwn(site: Site, s: State, writer: Writer, e: Event, p: string)
    requires p != site.target && TempOf(Move(site, s, writer, e).2) != Some(p)
    ensures p in Move(site, s, writer, e).0 <==> p in s.files
    ensures p in s.files ==> Move(site, s, writer, e).0[p] == s.files[p]
  {
  }

  lemma MoveKeepsOwn(site: Site, init: Files, s: State, writer: Writer, e: Event)
    requires Guarded(site, init) && (site.target in init ==> site.target in s.files)
    requires WriterOk(site, s.files, writer)
    ensures var (files, used, after) := Move(site, s, writer, e);
            && WriterOk(site, files, after)
            && (site.target in init ==> site.target in files)
            && (TempOf(writer).Some? ==> TempOf(after) == TempOf(writer) && used == s.used)
            && (TempOf(writer).None? && TempOf(after).Some? ==>
                  TempOf(after).value !in s.used && used == s.used + {TempOf(after).value})
            && (TempOf(after).None? ==> used == s.used)
  {
    hide TempPath;
  }

  lemma OthersStayOk(site: Site, files: Files, files': Files, other: Writer)
    requires WriterOk(site, files, other)
    requires TempOf(other).Some? ==>
               var t := TempOf(other).value; (t in files' <==> t in files) && (t in files ==> files'[t] == files[t])
    ensures WriterOk(site, files', other)
  {
  }

  lemma NextKeepsInv(site: Site, init: Files, s: State, e: Event)
    requires Guarded(site, init) && Inv(site, init, s)
    ensures Inv(site, init, Next(site, s, e))
  {
    if !e.Enter? && e.w in s.writers {
      hide Move, WriterOk, TempOf, Guarded;
      var writer := s.writers[e.w];
      MoveKeepsOwn(site, init, s, writer, e);
      var t := Next(site, s, e);
      assert forall v :: v in s.writers && v != e.w && TempOf(s.writers[v]).Some? ==> !SharedTemp(s.writers[v], t.writers[e.w]);
      forall v | v in s.writers && v != e.w
        ensures WriterOk(site, t.files, s.writers[v])
      {
        if TempOf(s.writers[v]).Some? {
          TempIsNotTarget(site, s.files, s.writers[v]);
          MoveTouchesOwn(site, s, writer, e, TempOf(s.writers[v]).value);
        }
        OthersStayOk(site, s.files, t.files, s.writers[v]);
      }
    }
  }

  lemma TempIsNotTarget(site: Site, files: Files, writer: Writer)
    requires WriterOk(site, files, writer) && TempOf(writer).Some?
    ensures TempOf(writer).value != site.target
  {
  }

  lemma {:induction false} RunsKeepInv(site: Site, init: Files, events: seq<Event>)
    requires Guarded(site, init)
    ensures Inv(site, init, Run(site, init, events))
  {
    if events != [] {
      RunsKeepInv(site, init, events[..|events| - 1]);
      NextKeepsInv(site, init, Run(site, init, events[..|events| - 1]), events[|events| - 1]);
    }
  }

  // ---------- main results ----------

  /** One step: the target changes only by a rename, and then becomes that writer's whole record. */
  lemma TargetStep(site: Site, init: Files, s: State, e: Event)
    requires Guarded(site, init) && Inv(site, init, s)
    ensures var t := Next(site, s, e);
            && (Renames(s, e) ==>
                  && site.target in t.files && t.files[site.target] == Complete(s.writers[e.w].record)
                  && HasRenamed(t.writers[e.w]) && t.writers[e.w].record == s.writers[e.w].record)
            && (!Renames(s, e) ==>
                  && (site.target in t.files <==> site.target in s.files)
                  && (site.target in s.files ==> t.files[site.target] == s.files[site.target]))
  {
    if !e.Enter? && e.w in s.writers {
      var writer := s.writers[e.w];
      assert WriterOk(site, s.files, writer);
      if writer.DirReady? && e.OpenTemp? && e.pick.Some? {
        hide TempPath;
        assert site.target in init || site.target != TempPath(site.dir, e.pick.value);
      }
    }
  }

  lemma RenamedStays(site: Site, s: State, e: Event, w: nat)
    requires w in s.writers
    ensures w in Next(site, s, e).writers
    ensures Next(site, s, e).writers[w].record == s.writers[w].record
    ensures HasRenamed(s.writers[w]) ==> HasRenamed(Next(site, s, e).writers[w])
  {
  }

  /**
   In every interleaving, whatever fails or stops, the target holds its initial content until
   a first rename, and ever after exactly the complete record of the last writer to rename.
   */
  lemma {:induction false} TargetIsLastRename(site: Site, init: Files, events: seq<Event>)
    requires Guarded(site, init)
    ensures var s := Run(site, init, events);
            match LastRename(site, init, events)
            case None => (site.target in s.files <==> site.target in init) && (site.target in init ==> s.files[site.target] == init[site.target])
            case Some(w) =>
              && w in s.writers && HasRenamed(s.writers[w])
              && site.target in s.files && s.files[site.target] == Complete(s.writers[w].record)
  {
    if events != [] {
      hide Next, Renames, HasRenamed, Guarded, Inv;
      var front, e := events[..|events| - 1], events[|events| - 1];
      TargetIsLastRename(site, init, front);
      RunsKeepInv(site, init, front);
      TargetStep(site, init, Run(site, init, front), e);
      if Renames(Run(site, init, front), e) {
        assert e.w in Run(site, init, events).writers by { StillThere(site, Run(site, init, front), e); }
      } else if LastRename(site, init, front).Some? {
        RenamedStays(site, Run(site, init, front), e, LastRename(site, init, front).value);
      }
    }
  }

  lemma StillThere(site: Site, s: State, e: Event)
    requires Renames(s, e)
    ensures e.w in Next(site, s, e).writers
  {
  }

  /** A call that is not past its rename, be it failed, stopped or under way, has made none. */
  lemma {:induction false} NoRenameSoFar(site: Site, init: Files, events: seq<Event>, w: nat)
    requires w in Run(site, init, events).writers && !HasRenamed(Run(site, init, events).writers[w])
    ensures forall i :: 0 <= i < |events| && events[i].w == w ==> !Renames(Run(site, init, events[..i]), events[i])
  {
    if events != [] {
      hide Next, Renames, HasRenamed;
      var k := |events| - 1;
      var front, e := events[..k], events[k];
      assert forall i :: 0 <= i < k ==> events[..i] == front[..i];
      if w in Run(site, init, front).writers {
        RenamedStays(site, Run(site, init, front), e, w);
        NoRenameSoFar(site, init, front, w);
      } else {
        NotYetStarted(site, init, front, w);
      }
      if e.w == w {
        NotARename(site, Run(site, init, front), e);
      }
    }
  }

  lemma NotARename(site: Site, s: State, e: Event)
    requires e.w in Next(site, s, e).writers && !HasRenamed(Next(site, s, e).writers[e.w])
    ensures !Renames(s, e)
  {
  }

  lemma {:induction false} NotYetStarted(site: Site, init: Files, events: seq<Event>, w: nat)
    requires w !in Run(site, init, events).writers
    ensures forall i :: 0 <= i < |events| && events[i].w == w ==> !Renames(Run(site, init, events[..i]), events[i])
  {
    if events != [] {
      var k := |events| - 1;
      var front := events[..k];
      assert forall i :: 0 <= i < k ==> events[..i] == front[..i];
      assert w !in Run(site, init, front).writers by {
        if w in Run(site, init, front).writers {
          RenamedStays(site, Run(site, init, front), events[k], w);
        }
      }
      NotYetStarted(site, init, front, w);
    }
  }

  /**
   A call that failed or stopped before its rename never touched the target: no step of it
   changed what stood there.
   */
  lemma FailedCallLeftTargetAlone(site: Site, init: Files, events: seq<Event>, w: nat, i: nat)
    requires Guarded(site, init)
    requires w in Run(site, init, events).writers && !HasRenamed(Run(site, init, events).writers[w])
    requires i < |events| && events[i].w == w
    ensures SameAt(Run(site, init, events[..i]).files, Run(site, init, events[..i + 1]).files, site.target)
  {
    hide Next, Run, Renames, Guarded, Inv;
    NoRenameSoFar(site, init, events, w);
    RunsKeepInv(site, init, events[..i]);
    TargetStep(site, init, Run(site, init, events[..i]), events[i]);
    RunOneMore(site, init, events, i);
  }

  lemma RunOneMore(site: Site, init: Files, events: seq<Event>, i: nat)
    requires i < |events|
    ensures Run(site, init, events[..i + 1]) == Next(site, Run(site, init, events[..i]), events[i])
  {
    assert events[..i + 1][..i] == events[..i];
  }

  /** A call that came back left no temporary file, unless its remove failed before the rename. */
  lemma ReturnLeavesNoTemp(site: Site, init: Files, events: seq<Event>, w: nat)
    requires Guarded(site, init)
    requires w in Run(site, init, events).writers
    requires var c := Run(site, init, events).writers[w]; c.Gone? && c.created.Some? && (c.removed || HasRenamed(c))
    ensures Run(site, init, events).writers[w].created.value !in Run(site, init, events).files
  {
    hide Run, Guarded;
    RunsKeepInv(site, init, events);
    assert WriterOk(site, Run(site, init, events).files, Run(site, init, events).writers[w]);
  }

  /** One call that gets as far as its empty temporary file. */
  function Opening(record: Record, r: Random32): seq<Event> {
    [Enter(0, record), MakeDir(0, true), OpenTemp(0, Some(r))]
  }

  lemma OpeningRun(site: Site, init: Files, record: Record, r: Random32)
    requires TempPath(site.dir, r) !in init
    ensures var t := TempPath(site.dir, r);
            Run(site, init, Opening(record, r)) == State(init[t := Empty], {t}, map[0 := Open(record, t, ChmodTemp)])
  {
    hide TempPath;
    var es := Opening(record, r);
    assert es[..2][..1] == es[..1] && es[..1][..0] == [];
    assert Run(site, init, es[..1]) == State(init, {}, map[0 := Entered(record)]);
    assert Run(site, init, es[..2]) == State(init, {}, map[0 := DirReady(record)]);
  }

  /** The target holds its initial content (or nothing, as at first) or some writer's complete record. */
  ghost predicate Intact(site: Site, init: Files, s: State) {
    || ((site.target in s.files <==> site.target in init) && (site.target in init ==> s.files[site.target] == init[site.target]))
    || (site.target in s.files && exists w :: w in s.writers && s.files[site.target] == Complete(s.writers[w].record))
  }

  /**
   The promise holds in every run exactly when the target already exists or is not itself of
   the form the temporary names take; otherwise a writer may be handed the target's own
   name, and a stop then leaves a half-written file there.
   */
  lemma IntactIffGuarded(site: Site, init: Files)
    ensures (forall events :: Intact(site, init, Run(site, init, events))) <==> Guarded(site, init)
  {
    if Guarded(site, init) {
      forall events
        ensures Intact(site, init, Run(site, init, events))
      {
        TargetIsLastRename(site, init, events);
      }
    } else {
      var r: Random32 :| site.target == TempPath(site.dir, r);
      var record := Record("", "", ChartSource("", "", ""), "", "", "", "");
      TempNamedTarget(site, init, r, record);
    }
  }

  lemma TempNamedTarget(site: Site, init: Files, r: Random32, record: Record)
    requires site.target == TempPath(site.dir, r) && site.target !in init
    ensures exists events :: !Intact(site, init, Run(site, init, events))
  {
    OpeningRun(site, init, record, r);
    assert !Intact(site, init, Run(site, init, Opening(record, r)));
  }

  /** The default state file, app.json, meets the condition in any directory. */
  lemma DefaultNameIsGuarded(dir: string, init: Files)
    ensures Guarded(Site(dir, (if dir != "" && dir[|dir| - 1] == '/' then dir else dir + "/") + "app.json"), init)
  {
    var head := if dir != "" && dir[|dir| - 1] == '/' then dir else dir + "/";
    forall r: Random32
      ensures head + "app.json" != TempPath(dir, r)
    {
      hide TempPath;
      assert |"app.json"| < 11;
      if head + "app.json" == TempPath(dir, r) {
        TempNamesShow(dir, "app.json", r);
      }
    }
  }

  // ---------- a single writer ----------

  /** All steps succeed. */
  function Good(temp: string, part: bool): Fates {
    Fates(Succeeds, Succeeds, temp, Succeeds, Succeeds, part, Succeeds, Succeeds, Succeeds, Succeeds)
  }

  /** The fates that bring a single call to where it stands. */
  function SoFar(files: Files, writer: Writer): Fates {
    var temp := if TempOf(writer).Some? then TempOf(writer).value else "";
    var good := Good(temp, temp in files && files[temp].Torn?);
    match writer
    case Entered(_) => good.(directory := Stops)
    case DirReady(_) => good.(create := Stops)
    case Open(_, _, next) => EndsAt(good, next, Stops)
    case Leaving(_, _, failed) => FailsAt(good, failed).(remove := Stops)
    case Gone(_, _, failed, removed) => FailsAt(good, failed).(remove := if removed then Succeeds else Fails)
  }

  function EndsAt(f: Fates, at: Stage, fate: Fate): Fates {
    match at
    case Directory => f.(directory := fate)
    case Create => f.(create := fate)
    case ChmodTemp => f.(chmodTemp := fate)
    case Encode => f.(encode := fate)
    case Close => f.(close := fate)
    case Rename => f.(rename := fate)
    case ChmodTarget => f.(chmodTarget := fate)
  }

  function FailsAt(f: Fates, failed: Option<Stage>): Fates {
    if failed == None then f else EndsAt(f, failed.value, Fails)
  }

  /** Where the call stands is where the call as one function ends with those fates. */
  predicate CallStands(site: Site, init: Files, files: Files, c: Writer) {
    && WriteAlone(init, site.target, c.record, SoFar(files, c)) == (files, if c.Gone? then Returned(c.failed) else Killed)
    && (TempOf(c).Some? ==> TempOf(c).value !in init)
    && StageFits(c)
  }

  predicate StageFits(c: Writer) {
    match c
    case Open(_, _, next) => next != Directory && next != Create
    case Leaving(_, _, failed) => failed != Some(Directory) && failed != Some(Create)
    case Gone(_, created, failed, _) => created.None? <==> failed == Some(Directory) || failed == Some(Create)
    case _ => true
  }

  ghost predicate StandsAlone(site: Site, init: Files, s: State, w: nat) {
    && s.writers.Keys <= {w}
    && if w in s.writers then CallStands(site, init, s.files, s.writers[w]) else s.files == init
  }

  lemma MoveStands(site: Site, init: Files, s: State, c: Writer, e: Event)
    requires CallStands(site, init, s.files, c)
    ensures CallStands(site, init, Move(site, s, c, e).0, Move(site, s, c, e).2)
  {
    hide TempPath;
    if c.Leaving? && e.Cleanup? {
      hide CallStands, Move;
      CleanupStands(site, init, s.files, c, e.ok);
      assert Move(site, s, c, e).0 == (if e.ok then s.files - {c.temp} else s.files) && Move(site, s, c, e).2 == Gone(c.record, Some(c.temp), c.failed, e.ok) by {
        CleanupMove(site, s, c, e);
      }
    } else if c.Open? && e.Step? {
      if c.next == Encode {
        EncodeStands(site, init, s.files, c, e.ok);
      } else {
        OpenStands(site, init, s.files, c, e.ok);
      }
    } else if c.Open? && e.WritePart? {
      var torn := init[c.temp := Empty][c.temp := Torn(c.record)];
      assert torn[c.temp := Torn(c.record)] == torn;
    }
  }

  lemma CleanupMove(site: Site, s: State, c: Writer, e: Event)
    requires c.Leaving? && e.Cleanup?
    ensures Move(site, s, c, e) == (if e.ok then s.files - {c.temp} else s.files, s.used, Gone(c.record, Some(c.temp), c.failed, e.ok))
  {
  }

  lemma EncodeStands(site: Site, init: Files, files: Files, c: Writer, ok: bool)
    requires CallStands(site, init, files, c) && c.Open? && c.next == Encode
    ensures CallStands(site, init, StepOpen(site, files, c, ok).0, StepOpen(site, files, c, ok).1)
  {
    var blank := init[c.temp := Empty];
    assert blank[c.temp := Torn(c.record)][c.temp := Complete(c.record)] == blank[c.temp := Complete(c.record)];
  }

  lemma OpenStands(site: Site, init: Files, files: Files, c: Writer, ok: bool)
    requires CallStands(site, init, files, c) && c.Open? && c.next != Encode
    ensures CallStands(site, init, StepOpen(site, files, c, ok).0, StepOpen(site, files, c, ok).1)
  {
  }

  /** The files when the deferred remove is due. */
  function AtRemove(init: Files, path: string, record: Record, temp: string, part: bool, failed: Option<Stage>): Files {
    var blank := init[temp := Empty];
    if failed == Some(ChmodTemp) || (failed == Some(Encode) && !part) then blank
    else if failed == Some(Encode) then blank[temp := Torn(record)]
    else if failed == Some(Close) || failed == Some(Rename) then blank[temp := Complete(record)]
    else (blank[temp := Complete(record)] - {temp})[path := Complete(record)]
  }

  lemma LeaveAtRemove(init: Files, path: string, record: Record, temp: string, part: bool, failed: Option<Stage>, remove: Fate)
    requires temp !in init && failed != Some(Directory) && failed != Some(Create)
    ensures WriteAlone(init, path, record, FailsAt(Good(temp, part), failed).(remove := remove)) ==
            Leave(AtRemove(init, path, record, temp, part, failed), temp, failed, remove)
  {
  }

  lemma PartIsRemoved(init: Files, path: string, record: Record, temp: string, failed: Option<Stage>)
    ensures AtRemove(init, path, record, temp, true, failed) - {temp} == AtRemove(init, path, record, temp, false, failed) - {temp}
  {
  }

  lemma CleanupStands(site: Site, init: Files, files: Files, c: Writer, ok: bool)
    requires CallStands(site, init, files, c) && c.Leaving?
    ensures CallStands(site, init, if ok then files - {c.temp} else files, Gone(c.record, Some(c.temp), c.failed, ok))
  {
    hide WriteAlone, AtRemove, FailsAt;
    var after := if ok then files - {c.temp} else files;
    var part, later := c.temp in files && files[c.temp].Torn?, c.temp in after && after[c.temp].Torn?;
    LeaveAtRemove(init, site.target, c.record, c.temp, part, c.failed, Stops);
    LeaveAtRemove(init, site.target, c.record, c.temp, later, c.failed, if ok then Succeeds else Fails);
    PartIsRemoved(init, site.target, c.record, c.temp, c.failed);
  }

  lemma StepStandsAlone(site: Site, init: Files, s: State, e: Event)
    requires StandsAlone(site, init, s, e.w)
    ensures StandsAlone(site, init, Next(site, s, e), e.w)
  {
    hide Move, CallStands;
    if e.w in s.writers {
      MoveStands(site, init, s, s.writers[e.w], e);
    } else if e.Enter? {
      JustEntered(site, init, e.record);
    }
  }

  lemma JustEntered(site: Site, init: Files, record: Record)
    ensures CallStands(site, init, init, Entered(record))
  {
  }

  /**
   A run of a single call, cut off wherever one likes, ends as the call taken as one function
   does for some fates of its steps.
   */
  lemma {:induction false} LoneRunIsTheCall(site: Site, init: Files, events: seq<Event>, w: nat)
    requires forall e :: e in events ==> e.w == w
    ensures StandsAlone(site, init, Run(site, init, events), w)
  {
    if events != [] {
      hide Next, StandsAlone;
      var front, e := events[..|events| - 1], events[|events| - 1];
      assert e in events;
      LoneRunIsTheCall(site, init, front, w);
      StepStandsAlone(site, init, Run(site, init, front), e);
    } else {
      assert StandsAlone(site, init, State(init, {}, map[]), w) by { NobodyYet(site, init, w); }
    }
  }

  lemma NobodyYet(site: Site, init: Files, w: nat)
    ensures StandsAlone(site, init, State(init, {}, map[]), w)
  {
  }
}

/**
 Submitting an upgrade plan (pkg/upgrade/controller.go): create the one plan object, or read
 it and write it back with a new spec. Other callers, and the controller that owns the rest
 of the object, act at the same time.
 */
module UpgradePlan {
  import opened Results
  import opened ApiServer

  /** The single name used, PlanNamespace with PlanResourceName. */
  const NAME := "system-upgrade/chainctl-upgrade"

  /** The unstructured object: its spec, and every other top-level field. */
  datatype Plan = Plan(spec: map<string, string>, rest: map<string, string>)

  function SpecOf(k3sVersion: string): map<string, string> {
    map["version" := k3sVersion]
  }

  /** PlanObject: a new object that carries only its group, version and kind. */
  function FreshPlan(k3sVersion: string): Plan {
    Plan(SpecOf(k3sVersion), map["apiVersion" := "upgrade.cattle.io/v1", "kind" := "Plan"])
  }

  /** The object a successful submission leaves in place of what it found. */
  function Submitted(s: Server<Plan>, k3sVersion: string): Plan {
    if NAME in s.objects then s.objects[NAME].body.(spec := SpecOf(k3sVersion)) else FreshPlan(k3sVersion)
  }

  /** The one plan object asks for this version, and has kept whatever else it held; a new one is a bare plan. */
  predicate AsksFor(s: Server<Plan>, t: Server<Plan>, k3sVersion: string) {
    var name := "system-upgrade/chainctl-upgrade";
    && name in t.objects
    && t.objects[name].body.spec == map["version" := k3sVersion]
    && t.objects[name].body.rest ==
       (if name in s.objects then s.objects[name].body.rest
        else map["apiVersion" := "upgrade.cattle.io/v1", "kind" := "Plan"])
    && t.objects - {name} == s.objects - {name}
  }

  lemma SubmittedAsks(s: Server<Plan>, k3sVersion: string)
    ensures AsksFor(s, Put(s, NAME, Submitted(s, k3sVersion)), k3sVersion)
  {
    assert Put(s, NAME, Submitted(s, k3sVersion)).objects - {NAME} == s.objects - {NAME};
  }

  /** The read object, a private copy whose spec is overwritten. */
  class PlanObject {
    const version: nat
    var spec: map<string, string>
    var rest: map<string, string>

    constructor (stored: Stored<Plan>)
      ensures version == stored.version && spec == stored.body.spec && rest == stored.body.rest
    {
      version := stored.version;
      spec := stored.body.spec;
      rest := stored.body.rest;
    }
  }

  class ControllerClient {
    const server: Endpoint<Plan>

    constructor (server: Endpoint<Plan>)
      ensures this.server == server
    {
      this.server := server;
    }

    /**
     `before` is the server as the call's last request found it. Success is one write made on
     `before` that replaces the spec and nothing else; an error leaves `before` alone, unless
     it is a lost reply to that same write.
     */
    method SubmitPlan(k3sVersion: string) returns (r: Result<Unit, ServerError>, ghost before: Server<Plan>)
      requires WellVersioned(server.state)
      modifies server
      ensures WellVersioned(server.state) && Evolves(old(server.state), before)
      ensures r.Ok? ==> AsksFor(before, server.state, k3sVersion)
      ensures r.Ok? ==> server.state == Put(before, NAME, Submitted(before, k3sVersion))
      ensures r.Err? ==>
              || (r.error == Unavailable && server.losses > old(server.losses))
              || (r.error == NotFound && NAME !in before.objects)
              || (r.error == Conflict && NAME in before.objects)
      ensures r.Err? && server.state != before ==>
              r.error == Unavailable && server.state == Put(before, NAME, Submitted(before, k3sVersion))
    {
      hide AsksFor;
      var obj := FreshPlan(k3sVersion);
      server.Interfere();
      before := server.state;
      r := server.Create(NAME, obj);
      if r == Err(AlreadyExists) {
        server.Interfere();
        ghost var seen := server.state;
        EvolvesTransitive(old(server.state), before, seen);
        before := seen;
        var reply := server.Get(NAME);
        if reply.Err? {
          return Err(reply.error), before;
        }
        var existing := new PlanObject(reply.value);
        existing.spec := obj.spec;
        server.Interfere();
        before := server.state;
        EvolvesTransitive(old(server.state), seen, before);
        UpdateIsCompareAndSwap(seen, before, NAME, reply.value, Plan(existing.spec, existing.rest));
        r := server.Update(NAME, existing.version, Plan(existing.spec, existing.rest));
      }
      SubmittedAsks(before, k3sVersion);
    }
  }

  // ---------- all interleavings ----------

  datatype Client =
    | Calling(k3sVersion: string)
    | Clashed(k3sVersion: string)
    | Fetched(k3sVersion: string, copy: Stored<Plan>)
    | Done(k3sVersion: string, result: Result<Unit, ServerError>)

  /** A step of call c, or of somebody else who writes any object or deletes it. */
  datatype Event =
    | Start(c: nat, k3sVersion: string)
    | SendCreate(c: nat, net: Network)
    | SendGet(c: nat, net: Network)
    | SendUpdate(c: nat, net: Network)
    | OthersWrite(body: Plan)
    | OthersDelete

  datatype State = State(server: Server<Plan>, clients: map<nat, Client>)

  function Move(s: Server<Plan>, client: Client, e: Event): (Server<Plan>, Client) {
    match (client, e)
    case (Calling(v), SendCreate(_, net)) =>
      var (next, reply) := Through(net, s, CreateAt(s, NAME, FreshPlan(v)));
      (next, if reply == Err(AlreadyExists) then Clashed(v) else Done(v, reply))
    case (Clashed(v), SendGet(_, net)) =>
      if net != Delivered then (s, Done(v, Err(Unavailable)))
      else if NAME !in s.objects then (s, Done(v, Err(NotFound)))
      else (s, Fetched(v, s.objects[NAME]))
    case (Fetched(v, copy), SendUpdate(_, net)) =>
      var (next, reply) := Through(net, s, UpdateAt(s, NAME, copy.version, copy.body.(spec := SpecOf(v))));
      (next, Done(v, reply))
    case _ => (s, client)
  }

  function Next(s: State, e: Event): State {
    match e
    case OthersWrite(body) => s.(server := Put(s.server, NAME, body))
    case OthersDelete => s.(server := Server(s.server.objects - {NAME}, s.server.revision + 1))
    case Start(c, v) => if c in s.clients then s else s.(clients := s.clients[c := Calling(v)])
    case _ =>
      if e.c !in s.clients then s
      else
        var (server, client) := Move(s.server, s.clients[e.c], e);
        State(server, s.clients[e.c := client])
  }

  function Run(events: seq<Event>): State {
    if events == [] then State(Server(map[], 0), map[])
    else Next(Run(events[..|events| - 1]), events[|events| - 1])
  }

  /** A held copy is the stored object, or older than whatever is stored now. */
  ghost predicate ClientOk(s: Server<Plan>, client: Client) {
    client.Fetched? ==>
      && 0 < client.copy.version <= s.revision
      && (NAME in s.objects ==> s.objects[NAME] == client.copy || client.copy.version < s.objects[NAME].version)
  }

  ghost predicate Inv(s: State) {
    && WellVersioned(s.server)
    && forall c :: c in s.clients ==> ClientOk(s.server, s.clients[c])
  }

  lemma MoveKeeps(s: Server<Plan>, client: Client, e: Event)
    requires WellVersioned(s) && ClientOk(s, client)
    ensures var (t, next) := Move(s, client, e);
            WellVersioned(t) && Evolves(s, t) && ClientOk(t, next)
  {
    if client.Calling? && e.SendCreate? {
      WritesEvolve(s, NAME, NO_VERSION, FreshPlan(client.k3sVersion), e.net);
    } else if client.Fetched? && e.SendUpdate? {
      WritesEvolve(s, NAME, client.copy.version, client.copy.body.(spec := SpecOf(client.k3sVersion)), e.net);
    }
  }

  lemma NextKeepsInv(s: State, e: Event)
    requires Inv(s)
    ensures Inv(Next(s, e)) && Evolves(s.server, Next(s, e).server)
  {
    hide Move;
    if (e.SendCreate? || e.SendGet? || e.SendUpdate?) && e.c in s.clients {
      MoveKeeps(s.server, s.clients[e.c], e);
    }
  }

  lemma {:induction false} RunsKeepInv(events: seq<Event>)
    ensures Inv(Run(events))
  {
    if events != [] {
      RunsKeepInv(events[..|events| - 1]);
      NextKeepsInv(Run(events[..|events| - 1]), events[|events| - 1]);
    }
  }

  predicate IsStepOf(c: nat, e: Event) {
    (e.SendCreate? || e.SendGet? || e.SendUpdate?) && e.c == c
  }

  predicate IsCurrent(s: Server<Plan>, copy: Stored<Plan>) {
    NAME in s.objects && s.objects[NAME] == copy
  }

  /** Step k writes, creates or deletes the plan: what is stored under the name is another object, or none. */
  predicate Touched(events: seq<Event>, k: nat)
    requires k < |events|
  {
    IsTouched(Run(events[..k]).server, Run(events[..k + 1]).server)
  }

  predicate IsTouched(s: Server<Plan>, t: Server<Plan>) {
    (NAME in s.objects) != (NAME in t.objects) || (NAME in s.objects && NAME in t.objects && s.objects[NAME] != t.objects[NAME])
  }

  /** Step j is the Get with which call c read its copy. */
  predicate ReadAt(events: seq<Event>, j: nat, c: nat, copy: Stored<Plan>) {
    && j < |events| && events[j] == SendGet(c, Delivered)
    && c in Run(events[..j]).clients && Run(events[..j]).clients[c].Clashed?
    && IsCurrent(Run(events[..j]).server, copy)
  }

  lemma {:induction false} ReadExists(events: seq<Event>, c: nat) returns (j: nat)
    requires c in Run(events).clients && Run(events).clients[c].Fetched?
    ensures ReadAt(events, j, c, Run(events).clients[c].copy)
  {
    var n := |events| - 1;
    var front, e := events[..n], events[n];
    if c in Run(front).clients && Run(front).clients[c] == Run(events).clients[c] {
      hide Next;
      j := ReadExists(front, c);
      assert front[..j] == events[..j];
    } else {
      j := n;
    }
  }

  lemma RunOneMore(events: seq<Event>, k: nat)
    requires k < |events|
    ensures Run(events[..k + 1]) == Next(Run(events[..k]), events[k])
  {
    assert events[..k + 1][..k] == events[..k];
  }

  /** From the read on: the copy is current exactly as long as no step touched the plan. */
  lemma {:induction false} CurrentIffUntouched(events: seq<Event>, j: nat, n: nat, c: nat, copy: Stored<Plan>)
    requires ReadAt(events, j, c, copy) && j < n <= |events|
    ensures var s := Run(events[..n]).server;
            && copy.version <= s.revision
            && (IsCurrent(s, copy) <==> forall k :: j < k < n ==> !Touched(events, k))
            && (!IsCurrent(s, copy) && NAME in s.objects ==> copy.version < s.objects[NAME].version)
    decreases n
  {
    hide Next, Run, Inv, IsTouched, IsCurrent;
    if n == j + 1 {
      ReadLeavesServer(events, j, c, copy);
    } else {
      CurrentIffUntouched(events, j, n - 1, c, copy);
      ServersEvolve(events, n - 1);
      StillCurrent(Run(events[..n - 1]).server, Run(events[..n]).server, copy);
      assert (forall k :: j < k < n ==> !Touched(events, k)) <==> (forall k :: j < k < n - 1 ==> !Touched(events, k)) && !Touched(events, n - 1);
    }
  }

  lemma ServersEvolve(events: seq<Event>, k: nat)
    requires k < |events|
    ensures Evolves(Run(events[..k]).server, Run(events[..k + 1]).server)
  {
    hide Next, Run;
    RunsKeepInv(events[..k]);
    RunOneMore(events, k);
    NextKeepsInv(Run(events[..k]), events[k]);
  }

  lemma ReadLeavesServer(events: seq<Event>, j: nat, c: nat, copy: Stored<Plan>)
    requires ReadAt(events, j, c, copy)
    ensures var s := Run(events[..j + 1]).server; IsCurrent(s, copy) && copy.version <= s.revision
  {
    hide Run;
    RunsKeepInv(events[..j]);
    RunOneMore(events, j);
  }

  lemma StillCurrent(s: Server<Plan>, t: Server<Plan>, copy: Stored<Plan>)
    requires Evolves(s, t) && copy.version <= s.revision
    requires !IsCurrent(s, copy) && NAME in s.objects ==> copy.version < s.objects[NAME].version
    ensures copy.version <= t.revision
    ensures IsCurrent(t, copy) <==> IsCurrent(s, copy) && !IsTouched(s, t)
    ensures !IsCurrent(t, copy) && NAME in t.objects ==> copy.version < t.objects[NAME].version
  {
  }

  /**
   The Update of call c, in any run. It takes effect exactly when it arrives and no step since
   the call's Get wrote, created or deleted the plan; otherwise it changes nothing.
   */
  lemma StaleUpdateChangesNothing(events: seq<Event>, c: nat, net: Network) returns (j: nat)
    requires c in Run(events).clients && Run(events).clients[c].Fetched?
    ensures ReadAt(events, j, c, Run(events).clients[c].copy)
    ensures var s, client := Run(events).server, Run(events).clients[c];
            var untouched := forall k :: j < k < |events| ==> !Touched(events, k);
            var t := Next(Run(events), SendUpdate(c, net));
            && (if untouched && net != Dropped
                then t.server == Put(s, NAME, Submitted(s, client.k3sVersion)) && AsksFor(s, t.server, client.k3sVersion)
                else t.server == s)
            && (t.clients[c] == Done(client.k3sVersion, Ok(Unit.Unit)) <==> untouched && net == Delivered)
  {
    hide Run, Touched, ReadAt, AsksFor;
    RunsKeepInv(events);
    SubmittedAsks(Run(events).server, Run(events).clients[c].k3sVersion);
    var client := Run(events).clients[c];
    assert ClientOk(Run(events).server, client);
    j := ReadExists(events, c);
    assert j < |events| by { ReadIsBefore(events, j, c, client.copy); }
    assert events[..|events|] == events;
    CurrentIffUntouched(events, j, |events|, c, client.copy);
  }

  lemma ReadIsBefore(events: seq<Event>, j: nat, c: nat, copy: Stored<Plan>)
    requires ReadAt(events, j, c, copy)
    ensures j < |events|
  {
  }

  /** No step of any submission, in any run, touches what lies outside the spec of an object that exists. */
  lemma RestSurvives(events: seq<Event>, c: nat, e: Event)
    requires IsStepOf(c, e) && NAME in Run(events).server.objects
    ensures var s, t := Run(events).server, Next(Run(events), e).server;
            && NAME in t.objects
            && t.objects[NAME].body.rest == s.objects[NAME].body.rest
            && (t != s ==> c in Run(events).clients && t.objects[NAME].body.spec == map["version" := Run(events).clients[c].k3sVersion])
  {
    hide Run;
    RunsKeepInv(events);
    if c in Run(events).clients {
      assert ClientOk(Run(events).server, Run(events).clients[c]);
    }
  }

  /** At this step of call c the stored spec becomes the one it submits. */
  ghost predicate TakesHold(past: seq<Event>, e: Event, c: nat, k3sVersion: string) {
    && IsStepOf(c, e)
    && c in Run(past).clients && !Run(past).clients[c].Done? && Run(past).clients[c].k3sVersion == k3sVersion
    && var t := Next(Run(past), e).server;
    && NAME in t.objects && t.objects[NAME].body.spec == map["version" := k3sVersion]
  }

  /** Each submission that returns nil has a moment, inside the call, at which the stored spec is its own. */
  lemma {:induction false} NilMeansItTookHold(events: seq<Event>, c: nat)
    requires c in Run(events).clients && Run(events).clients[c].Done? && Run(events).clients[c].result.Ok?
    ensures exists i :: 0 <= i < |events| && TakesHold(events[..i], events[i], c, Run(events).clients[c].k3sVersion)
  {
    var front, e := events[..|events| - 1], events[|events| - 1];
    var s := Run(front);
    if c in s.clients && s.clients[c] == Run(events).clients[c] {
      hide TakesHold;
      NilMeansItTookHold(front, c);
      var i :| 0 <= i < |front| && TakesHold(front[..i], front[i], c, s.clients[c].k3sVersion);
      assert front[..i] == events[..i] && front[i] == events[i];
    } else {
      assert events[..|front|] == front;
      assert TakesHold(events[..|front|], events[|front|], c, Run(events).clients[c].k3sVersion);
    }
  }
}

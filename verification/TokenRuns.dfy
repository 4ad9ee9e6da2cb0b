/**
 Any number of processes creating and consuming tokens against one API server, interleaved
 in any way, with requests dropped, replies lost and processes that simply stop.
 */
module TokenRuns {
  import opened Results
  import opened ApiServer
  import opened KubeTokens
  import Tokens

  datatype Call =
    | CreateCall(opts: Tokens.CreateOptions, draws: Tokens.Draws)
    | ConsumeCall(composite: string, expected: string)

  datatype Reply = Created(created: Tokens.CreatedToken) | Consumed

  /** Where one call stands. `at` is the clock reading the call has taken. */
  datatype Client =
    | Calling(call: Call)
    | Minted(call: Call, at: int, record: Tokens.Token, created: Tokens.CreatedToken)
    | Fetched(call: Call, copy: Stored<Secret>)
    | Ready(call: Call, at: int, copy: Stored<Secret>, update: Secret)
    | Done(call: Call, clock: Option<int>, result: Result<Reply, KubeError>)

  /** One step of the call c. */
  datatype Event =
    | Start(c: nat, call: Call)
    | Mint(c: nat, now: int)
    | SendCreate(c: nat, net: Network)
    | SendGet(c: nat, net: Network)
    | Check(c: nat, now: int)
    | SendUpdate(c: nat, net: Network)

  datatype State = State(server: Server<Secret>, clients: map<nat, Client>)

  function Finish(call: Call, clock: Option<int>, reply: Result<Unit, ServerError>, good: Reply): Client {
    Done(call, clock, match reply case Ok(_) => Ok(good) case Err(e) => Err(Api(e)))
  }

  function IdOf(call: Call): (id: string) {
    if call.ConsumeCall? && Tokens.SplitToken(call.composite).Ok? then Tokens.SplitToken(call.composite).value.0 else ""
  }

  /** One step of one call; an event that does not fit the call's position leaves everything as it is. */
  function Move(h: Tokens.Digest, s: Server<Secret>, client: Client, e: Event): (Server<Secret>, Client) {
    match (client, e)
    case (Calling(CreateCall(opts, draws)), Mint(_, now)) =>
      (match Tokens.GenerateToken(h, opts, now, draws)
       case Err(err) => (s, Done(client.call, Some(now), Err(Rejected(err))))
       case Ok((record, created)) => (s, Minted(client.call, now, record, created)))
    case (Minted(call, at, record, created), SendCreate(_, net)) =>
      var (next, reply) := Through(net, s, CreateAt(s, SecretName(record.id), SecretOf(record)));
      (next, Finish(call, Some(at), reply, Created(created)))
    case (Calling(ConsumeCall(composite, _)), SendGet(_, net)) =>
      (match Tokens.SplitToken(composite)
       case Err(err) => (s, Done(client.call, None, Err(Rejected(err))))
       case Ok((id, _)) =>
         if net != Delivered then (s, Done(client.call, None, Err(Api(Unavailable))))
         else if SecretName(id) !in s.objects then (s, Done(client.call, None, Err(Rejected(Tokens.NotFound))))
         else (s, Fetched(client.call, s.objects[SecretName(id)])))
    case (Fetched(ConsumeCall(composite, expected), copy), Check(_, now)) =>
      (match Tokens.SplitToken(composite)
       case Err(_) => (s, client)
       case Ok((id, secret)) =>
         match CheckFetched(h, copy.body, id, secret, expected, now)
         case Err(err) => (s, Done(client.call, Some(now), Err(err)))
         case Ok(update) => (s, Ready(client.call, now, copy, update)))
    case (Ready(call, at, copy, update), SendUpdate(_, net)) =>
      var (next, reply) := Through(net, s, UpdateAt(s, SecretName(IdOf(call)), copy.version, update));
      (next, Finish(call, Some(at), reply, Consumed))
    case _ => (s, client)
  }

  function Next(h: Tokens.Digest, s: State, e: Event): State {
    if e.Start? then
      if e.c in s.clients then s else s.(clients := s.clients[e.c := Calling(e.call)])
    else if e.c !in s.clients then s
    else
      var (server, client) := Move(h, s.server, s.clients[e.c], e);
      State(server, s.clients[e.c := client])
  }

  /** The state after a sequence of steps, starting from a server that holds no secret. */
  function Run(h: Tokens.Digest, events: seq<Event>): State {
    if events == [] then State(Server(map[], 0), map[])
    else Next(h, Run(h, events[..|events| - 1]), events[|events| - 1])
  }

  // ---------- what every step keeps ----------

  /** What later writes may do to a token secret: mark it consumed, and nothing else. */
  predicate SecretDescends(before: Secret, after: Secret) {
    && RECORD in before.data && before.data[RECORD].Encoded?
    && RECORD in after.data && after.data[RECORD].Encoded?
    && Tokens.Descends(RecordOf(before), RecordOf(after))
    && RecordOf(before).expiresAt == RecordOf(after).expiresAt
    && before.labels == after.labels
    && before.annotations - {"chainctl.io/consumedAt"} == after.annotations - {"chainctl.io/consumedAt"}
    && before.data - {"record"} == after.data - {"record"}
    && ("chainctl.io/consumedAt" in before.annotations ==>
          "chainctl.io/consumedAt" in after.annotations
          && after.annotations["chainctl.io/consumedAt"] == before.annotations["chainctl.io/consumedAt"])
  }

  /** No secret is lost, versions only rise, and an unchanged version means an unchanged secret. */
  ghost predicate Grows(s: Server<Secret>, t: Server<Secret>) {
    && s.revision <= t.revision
    && forall n :: n in s.objects ==> n in t.objects && ObjectGrows(s.objects[n], t.objects[n])
  }

  predicate ObjectGrows(a: Stored<Secret>, b: Stored<Secret>) {
    && a.version <= b.version
    && (a.version == b.version ==> a == b)
    && SecretDescends(a.body, b.body)
  }

  lemma GrowsTransitive(s: Server<Secret>, t: Server<Secret>, u: Server<Secret>)
    requires Grows(s, t) && Grows(t, u)
    ensures Grows(s, u)
  {
    forall n | n in s.objects
      ensures n in u.objects && ObjectGrows(s.objects[n], u.objects[n])
    {
      assert ObjectGrows(s.objects[n], t.objects[n]) && ObjectGrows(t.objects[n], u.objects[n]);
    }
  }

  ghost predicate Sound(s: Server<Secret>) {
    WellVersioned(s) && HoldsTokens(s)
  }

  lemma PutGrows(s: Server<Secret>, name: string, body: Secret)
    requires Sound(s) && TokenSecret(name, body)
    requires name in s.objects ==> SecretDescends(s.objects[name].body, body)
    ensures Sound(Put(s, name, body)) && Grows(s, Put(s, name, body))
  {
    forall n | n in s.objects
      ensures n in Put(s, name, body).objects && ObjectGrows(s.objects[n], Put(s, name, body).objects[n])
    {
      assert TokenSecret(n, s.objects[n].body);
    }
  }

  /** The copy a call holds is the stored secret, or an earlier state of it with an older version. */
  ghost predicate CopyOk(s: Server<Secret>, call: Call, copy: Stored<Secret>) {
    && call.ConsumeCall?
    && Tokens.SplitToken(call.composite).Ok?
    && var name := SecretName(IdOf(call));
    && copy.version > 0
    && TokenSecret(name, copy.body)
    && name in s.objects
    && ObjectGrows(copy, s.objects[name])
  }

  ghost predicate ClientOk(h: Tokens.Digest, s: Server<Secret>, client: Client) {
    match client
    case Calling(_) => true
    case Minted(call, at, record, created) =>
      call.CreateCall? && Tokens.GenerateToken(h, call.opts, at, call.draws) == Ok((record, created))
    case Fetched(call, copy) => CopyOk(s, call, copy)
    case Ready(call, at, copy, update) =>
      && CopyOk(s, call, copy)
      && CheckFetched(h, copy.body, IdOf(call), Tokens.SplitToken(call.composite).value.1, call.expected, at) == Ok(update)
    case Done(call, _, result) =>
      result == Ok(Consumed) ==> MarkedConsumed(s, call)
  }

  predicate MarkedConsumed(s: Server<Secret>, call: Call) {
    && call.ConsumeCall?
    && Tokens.SplitToken(call.composite).Ok?
    && SecretName(IdOf(call)) in s.objects
    && var body := s.objects[SecretName(IdOf(call))].body;
    && RECORD in body.data && body.data[RECORD].Encoded? && RecordOf(body).consumed
  }

  /** What an accepted check writes back marks the record it read and touches nothing else of it. */
  lemma UpdateMarks(h: Tokens.Digest, name: string, body: Secret, id: string, secret: string, expected: string, now: int)
    requires TokenSecret(name, body)
    ensures var r := CheckFetched(h, body, id, secret, expected, now);
            r.Ok? ==>
              && !RecordOf(body).consumed && now <= RecordOf(body).expiresAt && RecordOf(body).scope == expected
              && TokenSecret(name, r.value) && SecretDescends(body, r.value) && RecordOf(r.value).consumed
              && RecordOf(r.value) == RecordOf(body).(consumed := true)
  {
  }

  lemma FreshSecret(h: Tokens.Digest, opts: Tokens.CreateOptions, now: int, draws: Tokens.Draws)
    ensures var r := Tokens.GenerateToken(h, opts, now, draws);
            r.Ok? ==> TokenSecret(SecretName(r.value.0.id), SecretOf(r.value.0)) && RecordOf(SecretOf(r.value.0)) == r.value.0
  {
    var r := Tokens.GenerateToken(h, opts, now, draws);
    if r.Ok? {
      assert SecretName(r.value.0.id)[|PREFIX|..] == r.value.0.id;
    }
  }

  /** A call's standing is not hurt by what the others write. */
  lemma ClientStaysOk(h: Tokens.Digest, s: Server<Secret>, t: Server<Secret>, client: Client)
    requires ClientOk(h, s, client) && Grows(s, t)
    ensures ClientOk(h, t, client)
  {
    hide Tokens.SplitToken, Tokens.GenerateToken, CheckFetched;
  }

  /** A conditional write is served exactly when the secret is still the copy the call read. */
  lemma UpdateServed(h: Tokens.Digest, s: Server<Secret>, client: Client)
    requires Sound(s) && ClientOk(h, s, client) && client.Ready?
    ensures var name := SecretName(IdOf(client.call));
            && name in s.objects
            && UpdateAt(s, name, client.copy.version, client.update) ==
               if s.objects[name] == client.copy then (Put(s, name, client.update), Ok(Unit.Unit)) else (s, Err(Conflict))
  {
    hide Tokens.SplitToken, CheckFetched;
  }

  lemma UpdateStep(h: Tokens.Digest, s: Server<Secret>, client: Client, e: Event)
    requires Sound(s) && ClientOk(h, s, client) && client.Ready? && e.SendUpdate?
    ensures var (t, next) := Move(h, s, client, e);
            Sound(t) && Grows(s, t) && ClientOk(h, t, next)
  {
    hide Tokens.SplitToken, CheckFetched, Sound, Grows, TokenSecret, SecretDescends;
    var call, name := client.call, SecretName(IdOf(client.call));
    UpdateServed(h, s, client);
    UpdateMarks(h, name, client.copy.body, IdOf(call), Tokens.SplitToken(call.composite).value.1, call.expected, client.at);
    GrowsReflexive(s);
    if s.objects[name] == client.copy {
      PutGrows(s, name, client.update);
      MarkedAfterPut(s, call, client.update);
    }
  }

  lemma MarkedAfterPut(s: Server<Secret>, call: Call, body: Secret)
    requires call.ConsumeCall? && Tokens.SplitToken(call.composite).Ok?
    requires TokenSecret(SecretName(IdOf(call)), body) && RecordOf(body).consumed
    ensures MarkedConsumed(Put(s, SecretName(IdOf(call)), body), call)
  {
    hide Tokens.SplitToken;
  }

  lemma CreateStep(h: Tokens.Digest, s: Server<Secret>, client: Client, e: Event)
    requires Sound(s) && ClientOk(h, s, client) && client.Minted? && e.SendCreate?
    ensures var (t, next) := Move(h, s, client, e);
            Sound(t) && Grows(s, t) && ClientOk(h, t, next)
  {
    hide Tokens.SplitToken, Tokens.GenerateToken, CheckFetched, SecretOf, Sound, Grows, TokenSecret, SecretDescends;
    FreshSecret(h, client.call.opts, client.at, client.call.draws);
    GrowsReflexive(s);
    if SecretName(client.record.id) !in s.objects {
      PutGrows(s, SecretName(client.record.id), SecretOf(client.record));
    }
  }

  lemma ReadStep(h: Tokens.Digest, s: Server<Secret>, client: Client, e: Event)
    requires Sound(s) && ClientOk(h, s, client) && !e.SendCreate? && !e.SendUpdate?
    ensures Move(h, s, client, e).0 == s && ClientOk(h, s, Move(h, s, client, e).1)
  {
    hide Tokens.SplitToken, Tokens.GenerateToken, CheckFetched;
    if client.Calling? && client.call.ConsumeCall? && SecretName(IdOf(client.call)) in s.objects {
      assert TokenSecret(SecretName(IdOf(client.call)), s.objects[SecretName(IdOf(client.call))].body);
    }
  }

  /** One step of one call keeps the server sound and the call in good standing. */
  lemma MoveKeeps(h: Tokens.Digest, s: Server<Secret>, client: Client, e: Event)
    requires Sound(s) && ClientOk(h, s, client)
    ensures var (t, next) := Move(h, s, client, e);
            Sound(t) && Grows(s, t) && ClientOk(h, t, next)
  {
    hide Sound, Grows, ClientOk;
    GrowsReflexive(s);
    if client.Minted? && e.SendCreate? {
      CreateStep(h, s, client, e);
    } else if client.Ready? && e.SendUpdate? {
      UpdateStep(h, s, client, e);
    } else if !e.SendCreate? && !e.SendUpdate? {
      ReadStep(h, s, client, e);
    }
  }

  predicate Won(client: Client) {
    client.Done? && client.result == Ok(Consumed)
  }

  predicate SameWin(a: Client, b: Client) {
    Won(a) && Won(b) && IdOf(a.call) == IdOf(b.call)
  }

  /** Two successful consumes never name the same id. */
  ghost predicate OneWinner(s: State) {
    forall c, d {:trigger s.clients[c], s.clients[d]} ::
      c in s.clients && d in s.clients && SameWin(s.clients[c], s.clients[d]) ==> c == d
  }

  ghost predicate Inv(h: Tokens.Digest, s: State) {
    && Sound(s.server)
    && (forall c :: c in s.clients ==> ClientOk(h, s.server, s.clients[c]))
    && OneWinner(s)
  }

  /** A call that wins now finds its record unmarked, so nobody had won it before. */
  lemma WinnerIsNew(h: Tokens.Digest, s: Server<Secret>, client: Client, e: Event, other: Client)
    requires Sound(s) && ClientOk(h, s, client) && ClientOk(h, s, other)
    requires !Won(client) && Won(Move(h, s, client, e).1) && Won(other)
    ensures IdOf(Move(h, s, client, e).1.call) != IdOf(other.call)
  {
    WinningStep(h, s, client, e);
    hide Tokens.SplitToken, CheckFetched, Tokens.GenerateToken, UpdateAt, Through, Move;
    var call, name := client.call, SecretName(IdOf(client.call));
    UpdateServed(h, s, client);
    UpdateMarks(h, name, client.copy.body, IdOf(call), Tokens.SplitToken(call.composite).value.1, call.expected, client.at);
  }

  /** Only an Update that finds its copy current wins. */
  lemma WinningStep(h: Tokens.Digest, s: Server<Secret>, client: Client, e: Event)
    requires Sound(s) && ClientOk(h, s, client) && !Won(client) && Won(Move(h, s, client, e).1)
    ensures client.Ready? && e.SendUpdate? && Move(h, s, client, e).1.call == client.call
    ensures SecretName(IdOf(client.call)) in s.objects && s.objects[SecretName(IdOf(client.call))] == client.copy
  {
    hide Tokens.SplitToken, CheckFetched, Tokens.GenerateToken, UpdateAt, IdOf, Sound;
    assert client.Ready? && e.SendUpdate?;
    UpdateServed(h, s, client);
  }

  lemma NextKeepsInv(h: Tokens.Digest, s: State, e: Event)
    requires Inv(h, s)
    ensures Inv(h, Next(h, s, e)) && Grows(s.server, Next(h, s, e).server)
  {
    hide Move, ClientOk, Sound;
    var t := Next(h, s, e);
    if e.Start? || e.c !in s.clients {
      NewcomerOk(h, s.server, e);
      GrowsReflexive(s.server);
    } else {
      MoveKeeps(h, s.server, s.clients[e.c], e);
      forall c | c in t.clients
        ensures ClientOk(h, t.server, t.clients[c])
      {
        if c != e.c {
          ClientStaysOk(h, s.server, t.server, s.clients[c]);
        }
      }
      forall d | d in s.clients && d != e.c && Won(s.clients[d]) && Won(t.clients[e.c])
        ensures IdOf(t.clients[e.c].call) != IdOf(s.clients[d].call)
      {
        if Won(s.clients[e.c]) {
          WonStays(h, s.server, s.clients[e.c], e);
        } else {
          WinnerIsNew(h, s.server, s.clients[e.c], e, s.clients[d]);
        }
      }
    }
  }

  lemma NewcomerOk(h: Tokens.Digest, s: Server<Secret>, e: Event)
    ensures e.Start? ==> ClientOk(h, s, Calling(e.call))
  {
  }

  lemma GrowsReflexive(s: Server<Secret>)
    requires Sound(s)
    ensures Grows(s, s)
  {
  }

  lemma WonStays(h: Tokens.Digest, s: Server<Secret>, client: Client, e: Event)
    requires client.Done?
    ensures Move(h, s, client, e) == (s, client)
  {
  }

  lemma {:induction false} RunsKeepInv(h: Tokens.Digest, events: seq<Event>)
    ensures Inv(h, Run(h, events))
  {
    if events != [] {
      RunsKeepInv(h, events[..|events| - 1]);
      NextKeepsInv(h, Run(h, events[..|events| - 1]), events[|events| - 1]);
    }
  }

  // ---------- main results ----------

  /**
   Whatever the interleaving, however many processes try and whichever requests or replies
   are lost: of all the consumes that name one id, at most one ever returns success.
   */
  lemma AtMostOneConsumeSucceeds(h: Tokens.Digest, events: seq<Event>, c: nat, d: nat)
    requires c in Run(h, events).clients && d in Run(h, events).clients
    requires SameWin(Run(h, events).clients[c], Run(h, events).clients[d])
    ensures c == d
  {
    hide Run, IdOf;
    RunsKeepInv(h, events);
  }

  /**
   Between any two moments of a run no token is lost, id, scope, expiry, hash and notes stay
   as they were, the consumed flag only rises, and at both moments the consumedAt
   annotation is there exactly when the record is consumed.
   */
  lemma {:induction false} TokensOnlyAge(h: Tokens.Digest, events: seq<Event>, i: nat)
    requires i <= |events|
    ensures Grows(Run(h, events[..i]).server, Run(h, events).server)
    ensures HoldsTokens(Run(h, events).server)
    decreases |events|
  {
    RunsKeepInv(h, events);
    if i == |events| {
      assert events[..i] == events;
      GrowsReflexive(Run(h, events).server);
    } else {
      var front := events[..|events| - 1];
      assert front[..i] == events[..i];
      TokensOnlyAge(h, front, i);
      RunsKeepInv(h, front);
      NextKeepsInv(h, Run(h, front), events[|events| - 1]);
      GrowsTransitive(Run(h, events[..i]).server, Run(h, front).server, Run(h, events).server);
    }
  }

  /**
   In every run the step that consumes a token is the Update of a consume of its id, and the
   annotation it adds is the clock reading of that very call, to the second.
   */
  lemma ConsumingStepStamps(h: Tokens.Digest, events: seq<Event>, e: Event, n: string)
    requires n in Run(h, events).server.objects && RECORD in Run(h, events).server.objects[n].body.data
    requires Run(h, events).server.objects[n].body.data[RECORD].Encoded?
    requires !RecordOf(Run(h, events).server.objects[n].body).consumed
    requires var t := Next(h, Run(h, events), e).server;
             && n in t.objects && RECORD in t.objects[n].body.data && t.objects[n].body.data[RECORD].Encoded?
             && RecordOf(t.objects[n].body).consumed
    ensures var s, t := Run(h, events), Next(h, Run(h, events), e);
            && e.SendUpdate? && e.c in s.clients && s.clients[e.c].Ready?
            && var client := s.clients[e.c];
            && n == "chainctl-node-token-" + IdOf(client.call)
            && MarksOnly(s.server.objects[n].body, t.server.objects[n].body, client.at)
            && t.clients[e.c].Done? && t.clients[e.c].clock == Some(client.at)
  {
    RunsKeepInv(h, events);
    var s := Run(h, events);
    hide Run, Sound, OneWinner, Tokens.SplitToken, Tokens.GenerateToken, CheckFetched, SecretOf, MarksOnly, IdOf, TokenSecret;
    assert !e.Start? && e.c in s.clients;
    var client := s.clients[e.c];
    assert ClientOk(h, s.server, client);
    OnlyUpdatesOverwrite(h, s.server, client, e, n);
    UpdateServed(h, s.server, client);
    CheckedMarksOnly(h, client.copy.body, IdOf(client.call), Tokens.SplitToken(client.call.composite).value.1, client.call.expected, client.at);
  }

  /** A stored secret is overwritten only by the Update of a consume of its id. */
  lemma OnlyUpdatesOverwrite(h: Tokens.Digest, s: Server<Secret>, client: Client, e: Event, n: string)
    requires ClientOk(h, s, client) && n in s.objects
    requires n !in Move(h, s, client, e).0.objects || Move(h, s, client, e).0.objects[n] != s.objects[n]
    ensures client.Ready? && e.SendUpdate? && n == SecretName(IdOf(client.call))
  {
    hide Tokens.SplitToken, Tokens.GenerateToken, CheckFetched, SecretOf, IdOf;
  }
}

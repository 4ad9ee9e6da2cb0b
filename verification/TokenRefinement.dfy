/**
 Every interleaved run of the Kubernetes token store is a run of the atomic store: each write
 that reaches the server is one atomic operation, and each call's answer is the answer of one
 atomic operation taken at a moment inside the call.
 */
module TokenRefinement {
  import opened Results
  import opened ApiServer
  import opened KubeTokens
  import opened TokenRuns
  import Tokens

  /** The atomic operation, if any, that one step performs on the store. */
  function OpsOf(s: State, e: Event): seq<Tokens.Op> {
    if e.Start? || e.c !in s.clients then []
    else
      var client := s.clients[e.c];
      if client.Minted? && e.SendCreate? && client.call.CreateCall?
         && e.net != Dropped && SecretName(client.record.id) !in s.server.objects
      then [Tokens.Create(client.call.opts, client.at, client.call.draws)]
      else if client.Ready? && e.SendUpdate? && client.call.ConsumeCall?
         && e.net != Dropped && UpdateAt(s.server, SecretName(IdOf(client.call)), client.copy.version, client.update).1.Ok?
      then [Tokens.Consume(client.call.composite, client.call.expected, client.at)]
      else []
  }

  function AtomicOps(h: Tokens.Digest, events: seq<Event>): seq<Tokens.Op> {
    if events == [] then []
    else AtomicOps(h, events[..|events| - 1]) + OpsOf(Run(h, events[..|events| - 1]), events[|events| - 1])
  }

  function Past(h: Tokens.Digest, events: seq<Event>): Tokens.History {
    Tokens.Run(h, AtomicOps(h, events))
  }

  /** A served conditional write is the atomic consume, with the clock reading taken at the check. */
  lemma WriteIsAtomicConsume(h: Tokens.Digest, s: Server<Secret>, client: Client)
    requires Sound(s) && ClientOk(h, s, client) && client.Ready?
    requires SecretName(IdOf(client.call)) in s.objects && s.objects[SecretName(IdOf(client.call))] == client.copy
    ensures HoldsTokens(Put(s, SecretName(IdOf(client.call)), client.update))
    ensures Tokens.AtomicConsume(h, View(s), client.call.composite, client.call.expected, client.at) ==
            (View(Put(s, SecretName(IdOf(client.call)), client.update)), Ok(Unit.Unit))
  {
    hide Tokens.SplitToken, CheckFetched, Tokens.AtomicConsume, View;
    AloneIsAtomic(h, s, client.call.composite, client.call.expected, client.at);
  }

  /**
   The Update of a consume, whatever the network does: an answer of Ok or a lost reply to a
   served write is the atomic consume; a conflict, a request that never arrived and a lost
   reply to a conflict leave the server alone.
   */
  lemma UpdateTakesOrLeaves(h: Tokens.Digest, s: Server<Secret>, client: Client, net: Network)
    requires Sound(s) && ClientOk(h, s, client) && client.Ready?
    ensures var name := SecretName(IdOf(client.call));
            var (t, reply) := Through(net, s, UpdateAt(s, name, client.copy.version, client.update));
            && name in s.objects && client.call.ConsumeCall?
            && (if net != Dropped && s.objects[name] == client.copy then
                  && HoldsTokens(t)
                  && Tokens.AtomicConsume(h, View(s), client.call.composite, client.call.expected, client.at) == (View(t), Ok(Unit.Unit))
                else t == s)
            && (reply.Ok? <==> net == Delivered && s.objects[name] == client.copy)
            && (reply == Err(Conflict) ==> t == s && s.objects[name] != client.copy)
  {
    hide Tokens.SplitToken, CheckFetched, Tokens.AtomicConsume, View, IdOf, UpdateAt, TokenSecret, ObjectGrows, HoldsTokens, WellVersioned;
    UpdateServed(h, s, client);
    if s.objects[SecretName(IdOf(client.call))] == client.copy {
      WriteIsAtomicConsume(h, s, client);
    }
  }

  /** A served creation is the atomic creation of an id the store does not hold. */
  lemma WriteIsAtomicCreate(h: Tokens.Digest, s: Server<Secret>, client: Client)
    requires Sound(s) && ClientOk(h, s, client) && client.Minted?
    requires SecretName(client.record.id) !in s.objects
    ensures client.record.id !in View(s)
    ensures HoldsTokens(Put(s, SecretName(client.record.id), SecretOf(client.record)))
    ensures View(Put(s, SecretName(client.record.id), SecretOf(client.record))) == View(s)[client.record.id := client.record]
  {
    hide Tokens.GenerateToken, SecretOf, View;
    FreshSecret(h, client.call.opts, client.at, client.call.draws);
    ViewAt(s, client.record.id);
    ViewAfterPut(s, client.record.id, SecretOf(client.record));
  }

  /** `after` is `past` with at most one atomic operation applied, and that operation re-issues no id. */
  ghost predicate Refines(h: Tokens.Digest, past: Tokens.History, ops: seq<Tokens.Op>, after: Tokens.Store) {
    || (ops == [] && after == past.store)
    || (|ops| == 1 && after == Tokens.Apply(h, past, ops[0]).store
        && forall id :: id in past.store ==> !Tokens.Writes(h, ops[0], id))
  }

  lemma CreateRefines(h: Tokens.Digest, s: State, e: Event, past: Tokens.History)
    requires Inv(h, s) && Inv(h, Next(h, s, e)) && past.store == View(s.server)
    requires e.SendCreate? && e.c in s.clients && s.clients[e.c].Minted?
    ensures Refines(h, past, OpsOf(s, e), View(Next(h, s, e).server))
  {
    hide Tokens.SplitToken, Tokens.GenerateToken, SecretOf, View, Sound, OneWinner, Tokens.AtomicConsume;
    var client := s.clients[e.c];
    assert ClientOk(h, s.server, client);
    if SecretName(client.record.id) !in s.server.objects {
      WriteIsAtomicCreate(h, s.server, client);
    }
  }

  lemma ConsumeRefines(h: Tokens.Digest, s: State, e: Event, past: Tokens.History)
    requires Inv(h, s) && Inv(h, Next(h, s, e)) && past.store == View(s.server)
    requires e.SendUpdate? && e.c in s.clients && s.clients[e.c].Ready?
    ensures Refines(h, past, OpsOf(s, e), View(Next(h, s, e).server))
  {
    hide Tokens.SplitToken, CheckFetched, View, Sound, OneWinner, Tokens.AtomicConsume, IdOf, UpdateAt, TokenSecret;
    var client := s.clients[e.c];
    assert ClientOk(h, s.server, client);
    UpdateServed(h, s.server, client);
    if s.server.objects[SecretName(IdOf(client.call))] == client.copy {
      WriteIsAtomicConsume(h, s.server, client);
      hide ClientOk, Inv;
    }
  }

  lemma StepRefines(h: Tokens.Digest, s: State, e: Event, past: Tokens.History)
    requires Inv(h, s) && past.store == View(s.server)
    ensures Inv(h, Next(h, s, e))
    ensures Refines(h, past, OpsOf(s, e), View(Next(h, s, e).server))
  {
    NextKeepsInv(h, s, e);
    if !e.Start? && e.c in s.clients {
      var client := s.clients[e.c];
      if client.Minted? && e.SendCreate? {
        CreateRefines(h, s, e, past);
      } else if client.Ready? && e.SendUpdate? {
        ConsumeRefines(h, s, e, past);
      } else {
        hide View, Refines;
        OtherStep(h, s.server, client, e);
        assert Refines(h, past, [], View(s.server)) by { NothingDone(h, past); }
      }
    }
  }

  lemma NothingDone(h: Tokens.Digest, past: Tokens.History)
    ensures Refines(h, past, [], past.store)
  {
  }

  lemma OtherStep(h: Tokens.Digest, s: Server<Secret>, client: Client, e: Event)
    requires !(client.Minted? && e.SendCreate?) && !(client.Ready? && e.SendUpdate?)
    ensures Move(h, s, client, e).0 == s
  {
    hide Tokens.SplitToken, CheckFetched, Tokens.GenerateToken;
  }

  /** At every moment of every interleaved run the server is, record for record, the atomic
      store after the writes so far, taken one at a time in the order the server served them. */
  lemma {:induction false} RefinesAtomicStore(h: Tokens.Digest, events: seq<Event>)
    ensures Inv(h, Run(h, events))
    ensures View(Run(h, events).server) == Past(h, events).store
  {
    RunsKeepInv(h, events);
    if events != [] {
      hide Next, OpsOf, View, Tokens.Apply, Inv;
      var front, e := events[..|events| - 1], events[|events| - 1];
      RefinesAtomicStore(h, front);
      StepRefines(h, Run(h, front), e, Past(h, front));
      var ops, all := AtomicOps(h, front), AtomicOps(h, events);
      if OpsOf(Run(h, front), e) == [] {
        assert all == ops;
      } else {
        assert all[..|all| - 1] == ops && all[|all| - 1] == OpsOf(Run(h, front), e)[0];
      }
    } else {
      assert View(Run(h, events).server) == map[];
    }
  }

  // ---------- where each answer comes from ----------

  /** At this step call c reads, and finds `copy`. */
  ghost predicate ReadHere(h: Tokens.Digest, past: seq<Event>, e: Event, c: nat, call: Call, copy: Stored<Secret>) {
    var s := Run(h, past);
    && e == SendGet(c, Delivered)
    && c in s.clients && s.clients[c] == Calling(call)
    && SecretName(IdOf(call)) in s.server.objects
    && s.server.objects[SecretName(IdOf(call))] == copy
  }

  /** The store as it stands after `past`. */
  ghost function StoreAfter(h: Tokens.Digest, past: seq<Event>): Tokens.Store {
    Past(h, past).store
  }

  /** A finished Create, set against the store just before and just after one step. */
  ghost predicate CreateAnswer(h: Tokens.Digest, call: Call, clock: Option<int>, result: Result<Reply, KubeError>, before: Tokens.Store, after: Tokens.Store)
    requires call.CreateCall?
  {
    && clock.Some?
    && var made := Tokens.GenerateToken(h, call.opts, clock.value, call.draws);
    match result
    case Ok(reply) => made.Ok? && reply == Created(made.value.1) && Adds(before, made.value.0, after)
    case Err(err) =>
      if err.Rejected? then made == Err(err.reason) && after == before
      else err.Api? && (after == before || (err.cause == Unavailable && made.Ok? && Adds(before, made.value.0, after)))
  }

  predicate Adds(before: Tokens.Store, record: Tokens.Token, after: Tokens.Store) {
    record.id !in before && after == before[record.id := record]
  }

  /** A finished Consume, set against the store just before and just after one step. */
  ghost predicate ConsumeAnswer(h: Tokens.Digest, call: Call, clock: Option<int>, result: Result<Reply, KubeError>, before: Tokens.Store, after: Tokens.Store)
    requires call.ConsumeCall?
  {
    match result
    case Ok(reply) => reply == Consumed && clock.Some? && Takes(h, before, call, clock.value, after)
    case Err(err) =>
      if err.Rejected? then
        && after == before
        && forall now :: clock.None? || clock == Some(now) ==>
             Tokens.AtomicConsume(h, before, call.composite, call.expected, now) == (before, Err(err.reason))
      else
        err.Api? && (after == before || (err.cause == Unavailable && clock.Some? && Takes(h, before, call, clock.value, after)))
  }

  predicate Takes(h: Tokens.Digest, before: Tokens.Store, call: Call, now: int, after: Tokens.Store)
    requires call.ConsumeCall?
  {
    Tokens.AtomicConsume(h, before, call.composite, call.expected, now) == (after, Ok(Unit.Unit))
  }

  /** The step e is the request, or the check, of call c that this outcome belongs to. */
  ghost predicate IsDecisive(e: Event, before: Client, clock: Option<int>, result: Result<Reply, KubeError>) {
    if before.call.CreateCall? then
      if result.Err? && result.error.Rejected? then e.Mint? && before.Calling? else e.SendCreate? && before.Minted?
    else if result.Ok? then e.SendUpdate? && before.Ready?
    else if result.error.Api? && clock.Some? then e.SendUpdate? && before.Ready?
    else e.SendGet? && before.Calling?
  }

  /**
   This step of call c is the moment at which its final answer is the atomic answer: the Update
   of a success, a conflict or a lost reply, the Get of a rejected consume or of a read that
   failed, the request of a creation.
   */
  ghost predicate AnsweredHere(h: Tokens.Digest, past: seq<Event>, e: Event, c: nat, call: Call, clock: Option<int>, result: Result<Reply, KubeError>) {
    && !e.Start? && e.c == c && c in Run(h, past).clients && Run(h, past).clients[c].call == call
    && IsDecisive(e, Run(h, past).clients[c], clock, result)
    && if call.CreateCall? then CreateAnswer(h, call, clock, result, StoreAfter(h, past), StoreAfter(h, past + [e]))
       else ConsumeAnswer(h, call, clock, result, StoreAfter(h, past), StoreAfter(h, past + [e]))
  }

  ghost predicate Pinned(h: Tokens.Digest, past: seq<Event>, e: Event, c: nat, client: Client) {
    match client
    case Calling(_) => true
    case Minted(_, _, _, _) => true
    case Fetched(call, copy) => ReadHere(h, past, e, c, call, copy)
    case Ready(call, _, copy, _) => ReadHere(h, past, e, c, call, copy)
    case Done(call, clock, result) => AnsweredHere(h, past, e, c, call, clock, result)
  }

  ghost predicate Explained(h: Tokens.Digest, events: seq<Event>, c: nat) {
    c in Run(h, events).clients ==>
      var client := Run(h, events).clients[c];
      client.Calling? || client.Minted? ||
      exists i :: 0 <= i < |events| && Pinned(h, events[..i], events[i], c, client)
  }

  lemma StillPinned(h: Tokens.Digest, front: seq<Event>, events: seq<Event>, c: nat, client: Client)
    requires front <= events
    requires exists i :: 0 <= i < |front| && Pinned(h, front[..i], front[i], c, client)
    ensures exists i :: 0 <= i < |events| && Pinned(h, events[..i], events[i], c, client)
  {
    hide Pinned;
    var i :| 0 <= i < |front| && Pinned(h, front[..i], front[i], c, client);
    assert front[..i] == events[..i] && front[i] == events[i];
  }

  lemma RejectedCopy(h: Tokens.Digest, past: seq<Event>, e: Event, c: nat, call: Call, copy: Stored<Secret>, now: int)
    requires ReadHere(h, past, e, c, call, copy) && call.ConsumeCall? && Tokens.SplitToken(call.composite).Ok?
    requires CheckFetched(h, copy.body, IdOf(call), Tokens.SplitToken(call.composite).value.1, call.expected, now).Err?
    ensures var err := CheckFetched(h, copy.body, IdOf(call), Tokens.SplitToken(call.composite).value.1, call.expected, now).error;
            AnsweredHere(h, past, e, c, call, Some(now), Err(err))
  {
    RefinesAtomicStore(h, past);
    hide Tokens.SplitToken, CheckFetched, View, Tokens.AtomicConsume, Run, Past, Inv;
    assert HoldsTokens(Run(h, past).server) by { RunsAreSound(h, past); }
    RunSnoc(h, past, e);
    Unmoved(h, past, e);
    AloneIsAtomic(h, Run(h, past).server, call.composite, call.expected, now);
  }

  lemma RunsAreSound(h: Tokens.Digest, past: seq<Event>)
    ensures Sound(Run(h, past).server)
    ensures forall c :: c in Run(h, past).clients ==> ClientOk(h, Run(h, past).server, Run(h, past).clients[c])
  {
    hide Run, Sound, ClientOk;
    RunsKeepInv(h, past);
  }

  lemma AbsentSecret(h: Tokens.Digest, past: seq<Event>, composite: string, expected: string, now: int)
    requires Tokens.SplitToken(composite).Err? || SecretName(Tokens.SplitToken(composite).value.0) !in Run(h, past).server.objects
    ensures var err := if Tokens.SplitToken(composite).Err? then Tokens.SplitToken(composite).error else Tokens.NotFound;
            Tokens.AtomicConsume(h, StoreAfter(h, past), composite, expected, now) == (StoreAfter(h, past), Err(err))
  {
    RefinesAtomicStore(h, past);
    RunsAreSound(h, past);
    hide Tokens.SplitToken, CheckFetched, View, Tokens.AtomicConsume, Run, Past, Inv;
    AloneIsAtomic(h, Run(h, past).server, composite, expected, now);
  }

  /** The step that settles call c, or sets its copy aside, pins it down. */
  lemma NewlyPinned(h: Tokens.Digest, past: seq<Event>, e: Event)
    requires !e.Start? && e.c in Run(h, past).clients
    requires !Run(h, past).clients[e.c].Fetched?
    ensures var before, after := Run(h, past).clients[e.c], Move(h, Run(h, past).server, Run(h, past).clients[e.c], e).1;
            before != after ==> Pinned(h, past, e, e.c, after)
  {
    var s := Run(h, past);
    var client := s.clients[e.c];
    match client {
      case Calling(call) =>
        if call.ConsumeCall? { CallingConsume(h, past, e, call); } else { CallingCreate(h, past, e, call); }
      case Minted(call, at, record, created) => MintedCreate(h, past, e, client);
      case Ready(call, at, copy, update) => ReadyConsume(h, past, e, client);
      case _ =>
    }
  }

  lemma Unmoved(h: Tokens.Digest, past: seq<Event>, e: Event)
    requires Run(h, past + [e]).server == Run(h, past).server
    ensures StoreAfter(h, past + [e]) == StoreAfter(h, past)
  {
    hide View, Run, Past, Inv;
    RefinesAtomicStore(h, past);
    RefinesAtomicStore(h, past + [e]);
  }

  lemma RunSnoc(h: Tokens.Digest, past: seq<Event>, e: Event)
    ensures Run(h, past + [e]) == Next(h, Run(h, past), e)
  {
    assert (past + [e])[..|past|] == past;
  }

  lemma CallingConsume(h: Tokens.Digest, past: seq<Event>, e: Event, call: Call)
    requires !e.Start? && e.c in Run(h, past).clients && Run(h, past).clients[e.c] == Calling(call) && call.ConsumeCall?
    ensures var after := Move(h, Run(h, past).server, Calling(call), e).1;
            after != Calling(call) ==> Pinned(h, past, e, e.c, after)
  {
    hide Run, Tokens.SplitToken, CheckFetched, Tokens.AtomicConsume, StoreAfter;
    if e.SendGet? {
      RunSnoc(h, past, e);
      Unmoved(h, past, e);
      var s := Run(h, past);
      if Tokens.SplitToken(call.composite).Err? || (e.net == Delivered && SecretName(IdOf(call)) !in s.server.objects) {
        forall now {
          AbsentSecret(h, past, call.composite, call.expected, now);
        }
      }
    }
  }

  lemma CallingCreate(h: Tokens.Digest, past: seq<Event>, e: Event, call: Call)
    requires !e.Start? && e.c in Run(h, past).clients && Run(h, past).clients[e.c] == Calling(call) && call.CreateCall?
    ensures var after := Move(h, Run(h, past).server, Calling(call), e).1;
            after != Calling(call) ==> Pinned(h, past, e, e.c, after)
  {
    hide Run, Tokens.GenerateToken, StoreAfter;
    if e.Mint? {
      RunSnoc(h, past, e);
      Unmoved(h, past, e);
    }
  }

  lemma CreateOutcome(h: Tokens.Digest, s: Server<Secret>, client: Client, e: Event)
    requires Sound(s) && ClientOk(h, s, client) && client.Minted? && e.SendCreate?
    ensures var (t, next) := Move(h, s, client, e);
            && next.Done? && next.call == client.call && HoldsTokens(t) && client.call.CreateCall?
            && CreateAnswer(h, client.call, next.clock, next.result, View(s), View(t))
            && (next.result.Err? ==> next.result.error.Api?)
  {
    hide Tokens.GenerateToken, SecretOf, View, TokenSecret, HoldsTokens, WellVersioned;
    if SecretName(client.record.id) !in s.objects {
      WriteIsAtomicCreate(h, s, client);
    }
  }

  lemma MintedCreate(h: Tokens.Digest, past: seq<Event>, e: Event, client: Client)
    requires !e.Start? && e.c in Run(h, past).clients && Run(h, past).clients[e.c] == client && client.Minted?
    ensures var after := Move(h, Run(h, past).server, client, e).1;
            after != client ==> Pinned(h, past, e, e.c, after)
  {
    hide Run, Move, View, Past, Inv, CreateAnswer, ClientOk, Sound;
    if e.SendCreate? {
      RunSnoc(h, past, e);
      RunsAreSound(h, past);
      RefinesAtomicStore(h, past);
      RefinesAtomicStore(h, past + [e]);
      CreateOutcome(h, Run(h, past).server, client, e);
    } else {
      Waits(h, Run(h, past).server, client, e);
    }
  }

  lemma ConsumeOutcome(h: Tokens.Digest, s: Server<Secret>, client: Client, e: Event)
    requires Sound(s) && ClientOk(h, s, client) && client.Ready? && e.SendUpdate?
    ensures var (t, next) := Move(h, s, client, e);
            && next.Done? && next.call == client.call && HoldsTokens(t) && client.call.ConsumeCall?
            && ConsumeAnswer(h, client.call, next.clock, next.result, View(s), View(t))
            && next.clock.Some? && (next.result.Err? ==> next.result.error.Api?)
            && !(next.result.Err? && next.result.error.Rejected?)
  {
    hide Tokens.SplitToken, CheckFetched, Tokens.AtomicConsume, View, IdOf, UpdateAt, TokenSecret, ObjectGrows, HoldsTokens, WellVersioned;
    UpdateServed(h, s, client);
    if s.objects[SecretName(IdOf(client.call))] == client.copy {
      WriteIsAtomicConsume(h, s, client);
    }
  }

  lemma Waits(h: Tokens.Digest, s: Server<Secret>, client: Client, e: Event)
    requires (client.Minted? && !e.SendCreate?) || (client.Ready? && !e.SendUpdate?)
    ensures Move(h, s, client, e) == (s, client)
  {
  }

  lemma ReadyConsume(h: Tokens.Digest, past: seq<Event>, e: Event, client: Client)
    requires !e.Start? && e.c in Run(h, past).clients && Run(h, past).clients[e.c] == client && client.Ready?
    ensures var after := Move(h, Run(h, past).server, client, e).1;
            after != client ==> Pinned(h, past, e, e.c, after)
  {
    hide Run, Move, View, Past, Inv, ConsumeAnswer, ClientOk, Sound;
    if e.SendUpdate? {
      RunSnoc(h, past, e);
      RunsAreSound(h, past);
      RefinesAtomicStore(h, past);
      RefinesAtomicStore(h, past + [e]);
      ConsumeOutcome(h, Run(h, past).server, client, e);
    } else {
      Waits(h, Run(h, past).server, client, e);
    }
  }

  /** A check on the copy keeps the moment of the read, or answers with the atomic answer of that moment. */
  lemma CheckedCopy(h: Tokens.Digest, past: seq<Event>, e: Event, c: nat, client: Client, s: Server<Secret>, check: Event)
    requires client.Fetched? && Pinned(h, past, e, c, client) && ClientOk(h, s, client)
    ensures Pinned(h, past, e, c, Move(h, s, client, check).1)
  {
    hide Run, CheckFetched, Tokens.SplitToken, Tokens.AtomicConsume, AnsweredHere, ReadHere;
    if check.Check? {
      var secret := Tokens.SplitToken(client.call.composite).value.1;
      if CheckFetched(h, client.copy.body, IdOf(client.call), secret, client.call.expected, check.now).Err? {
        RejectedCopy(h, past, e, c, client.call, client.copy, check.now);
      }
    }
  }

  /**
   Every call of every run is accounted for. A success took effect, as the atomic consume
   with its own clock reading, at its Update. A rejection is the answer the atomic consume
   gives at the moment of the call's Get. A conflict, or a request that never arrived,
   changed nothing. A lost reply changed nothing or was the whole atomic operation.
   */
  lemma {:induction false} EveryCallIsExplained(h: Tokens.Digest, events: seq<Event>, c: nat)
    ensures Explained(h, events, c)
  {
    if events != [] && c in Run(h, events).clients {
      var front, e := events[..|events| - 1], events[|events| - 1];
      var s := Run(h, front);
      EveryCallIsExplained(h, front, c);
      RunsAreSound(h, front);
      hide Move, Pinned, ClientOk, Sound;
      assert events[..|front|] == front;
      if c in s.clients && Run(h, events).clients[c] == s.clients[c] {
        if !s.clients[c].Calling? && !s.clients[c].Minted? {
          StillPinned(h, front, events, c, s.clients[c]);
        }
      } else if c in s.clients {
        assert e.c == c && !e.Start?;
        var after := Move(h, s.server, s.clients[c], e).1;
        if s.clients[c].Fetched? {
          var i :| 0 <= i < |front| && Pinned(h, front[..i], front[i], c, s.clients[c]);
          CheckedCopy(h, front[..i], front[i], c, s.clients[c], s.server, e);
          StillPinned(h, front, events, c, after);
        } else {
          NewlyPinned(h, front, e);
        }
      }
    }
  }

  // ---------- what follows from the atomic store ----------

  /** Only Create and Consume operations come from the Kubernetes store. */
  lemma {:induction false} NeverForced(h: Tokens.Digest, events: seq<Event>)
    ensures forall op :: op in AtomicOps(h, events) ==> !op.ForceExpire?
  {
    if events != [] {
      NeverForced(h, events[..|events| - 1]);
    }
  }

  /**
   A consume that succeeds names an issued token in the token's scope, at a clock reading no
   later than 24 hours after the reading at its issue, and until the very step of its own
   Update that token was not consumed. It was given, byte for byte, the text issued for the
   token, unless the digest does not tell its secret from the issued one.
   */
  lemma SuccessMeansIssuedText(h: Tokens.Digest, events: seq<Event>, c: nat)
    requires c in Run(h, events).clients && Won(Run(h, events).clients[c])
    ensures var client := Run(h, events).clients[c];
            && client.call.ConsumeCall? && client.clock.Some?
            && exists i :: 0 <= i < |events| && IsUpdateOf(h, events[..i], events[i], c, client.call)
                           && IssuedBefore(h, events[..i], client.call, client.clock.value)
                           && (GivesIssuedText(h, events[..i], client.call) || GivesCollision(h, events[..i], client.call))
  {
    var client := Run(h, events).clients[c];
    EveryCallIsExplained(h, events, c);
    hide Run, Tokens.AtomicConsume, Tokens.SplitToken, Past, IssuedBefore, Pinned, IsUpdateOf, GivesIssuedText, GivesCollision, StoreAfter;
    var i :| 0 <= i < |events| && Pinned(h, events[..i], events[i], c, client);
    PinnedSuccess(h, events[..i], events[i], c, client);
    IssuedAtSuccess(h, events[..i], client.call, client.clock.value);
  }

  /** This step is the Update of call c. */
  ghost predicate IsUpdateOf(h: Tokens.Digest, past: seq<Event>, e: Event, c: nat, call: Call) {
    && e.SendUpdate? && e.c == c && c in Run(h, past).clients
    && Run(h, past).clients[c].call == call && Run(h, past).clients[c].Ready?
  }

  lemma PinnedSuccess(h: Tokens.Digest, past: seq<Event>, e: Event, c: nat, client: Client)
    requires Pinned(h, past, e, c, client) && Won(client)
    ensures client.call.ConsumeCall? && client.clock.Some?
    ensures IsUpdateOf(h, past, e, c, client.call)
    ensures Tokens.AtomicConsume(h, StoreAfter(h, past), client.call.composite, client.call.expected, client.clock.value).1.Ok?
  {
    hide Run, Tokens.AtomicConsume, Past, Tokens.GenerateToken;
  }

  /** The token that the call names: issued, in scope, young enough and unconsumed. */
  ghost predicate IssuedBefore(h: Tokens.Digest, past: seq<Event>, call: Call, now: int)
    requires call.ConsumeCall?
  {
    var id := IdOf(call);
    && id in Past(h, past).issued
    && now <= Past(h, past).issued[id].at + Tokens.MAX_TTL
    && id in Past(h, past).store
    && Past(h, past).store[id].scope == call.expected
    && !Past(h, past).store[id].consumed
  }

  ghost predicate GivesIssuedText(h: Tokens.Digest, past: seq<Event>, call: Call)
    requires call.ConsumeCall?
  {
    IdOf(call) in Past(h, past).issued && call.composite == IdOf(call) + "." + Past(h, past).issued[IdOf(call)].secret
  }

  /** Another secret for the same id, with the same digest. */
  ghost predicate GivesCollision(h: Tokens.Digest, past: seq<Event>, call: Call)
    requires call.ConsumeCall?
  {
    && Tokens.SplitToken(call.composite).Ok? && IdOf(call) in Past(h, past).issued
    && var secret := Tokens.SplitToken(call.composite).value.1;
       secret != Past(h, past).issued[IdOf(call)].secret
       && Tokens.SameDigest(h, IdOf(call), secret, Past(h, past).issued[IdOf(call)].secret)
  }

  lemma IssuedAtSuccess(h: Tokens.Digest, past: seq<Event>, call: Call, now: int)
    requires call.ConsumeCall?
    requires Tokens.AtomicConsume(h, StoreAfter(h, past), call.composite, call.expected, now).1.Ok?
    ensures IssuedBefore(h, past, call, now)
    ensures GivesIssuedText(h, past, call) || GivesCollision(h, past, call)
  {
    hide Tokens.SplitToken, Tokens.SameDigest, Tokens.Run, Tokens.AtomicConsume, AtomicOps, Tokens.Genuine;
    Tokens.RunsAreGenuine(h, AtomicOps(h, past));
    Tokens.AcceptedIffPasses(h, Past(h, past), call.composite, call.expected, now);
    Tokens.SplitTokenIff(call.composite, IdOf(call), Tokens.SplitToken(call.composite).value.1);
    NeverForced(h, past);
    Tokens.LifeIsBounded(h, AtomicOps(h, past), IdOf(call));
  }
}

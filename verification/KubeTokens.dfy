/**
 Join tokens kept in Kubernetes secrets (pkg/tokens/kube_store.go). A consume is a read, a
 check and a conditional write; other processes may write between any two of its requests.
 */
module KubeTokens {
  import opened Results
  import opened ApiServer
  import Tokens

  const PREFIX := "chainctl-node-token-"
  const RECORD := "record"
  const CONSUMED_AT := "chainctl.io/consumedAt"
  const CREATED_BY := "chainctl.io/createdBy"
  const DESCRIPTION := "chainctl.io/description"
  const EXPIRES_AT := "chainctl.io/expiresAt"
  const MANAGED_BY := "app.kubernetes.io/managed-by"
  const TOKEN_SCOPE := "chainctl.io/token-scope"
  const SECOND := 1_000_000_000

  /** Secret data: the JSON text of a record, or bytes that do not decode to one. */
  datatype Payload = Encoded(record: Tokens.Token) | Garbage(bytes: string)

  /** An annotation: plain text, or an instant written out to the second (RFC 3339). */
  datatype Note = Text(text: string) | Stamp(second: int)

  datatype Secret = Secret(labels: map<string, string>, annotations: map<string, Note>, data: map<string, Payload>)

  datatype KubeError = Rejected(reason: Tokens.TokenError) | Malformed | Undecodable | Api(cause: ServerError)

  /** tokenSecretName */
  function SecretName(id: string): string {
    PREFIX + id
  }

  function StampOf(instant: int): Note {
    Stamp(instant / SECOND)
  }

  /** The secret that Create sends for a fresh record. */
  function SecretOf(record: Tokens.Token): Secret {
    var expires := map[EXPIRES_AT := StampOf(record.expiresAt)];
    var owned := if record.createdBy != "" then expires[CREATED_BY := Text(record.createdBy)] else expires;
    var notes := if record.description != "" then owned[DESCRIPTION := Text(record.description)] else owned;
    Secret(map[MANAGED_BY := "chainctl", TOKEN_SCOPE := record.scope], notes, map[RECORD := Encoded(record)])
  }

  /** What Consume decides about the secret it fetched: an error, or the secret to write back. */
  function CheckFetched(h: Tokens.Digest, body: Secret, id: string, secret: string, expected: string, now: int): Result<Secret, KubeError> {
    if RECORD !in body.data then Err(Malformed)
    else
      match body.data[RECORD]
      case Garbage(_) => Err(Undecodable)
      case Encoded(record) =>
        match Tokens.Verdict(h, record, id, secret, expected, now)
        case Some(e) => Err(Rejected(e))
        case None => Ok(body.(
          annotations := body.annotations[CONSUMED_AT := StampOf(now)],
          data := body.data[RECORD := Encoded(record.(consumed := true))]))
  }

  /** The secret of a new token, key by key. */
  predicate ShowsNewToken(body: Secret, record: Tokens.Token) {
    && body.labels == map["app.kubernetes.io/managed-by" := "chainctl", "chainctl.io/token-scope" := record.scope]
    && body.data == map["record" := Encoded(record)]
    && (forall k :: k in body.annotations ==>
          k == "chainctl.io/expiresAt" || k == "chainctl.io/createdBy" || k == "chainctl.io/description")
    && "chainctl.io/expiresAt" in body.annotations
    && body.annotations["chainctl.io/expiresAt"] == Stamp(record.expiresAt / 1_000_000_000)
    && ("chainctl.io/createdBy" in body.annotations <==> record.createdBy != "")
    && (record.createdBy != "" ==> body.annotations["chainctl.io/createdBy"] == Text(record.createdBy))
    && ("chainctl.io/description" in body.annotations <==> record.description != "")
    && (record.description != "" ==> body.annotations["chainctl.io/description"] == Text(record.description))
  }

  lemma NewSecretShows(record: Tokens.Token)
    ensures ShowsNewToken(SecretOf(record), record)
  {
  }

  /** One secret was added, under the token's name, and it shows the token; all other objects are as before. */
  predicate IsAdded(s: Server<Secret>, t: Server<Secret>, record: Tokens.Token) {
    var name := "chainctl-node-token-" + record.id;
    && name !in s.objects && name in t.objects
    && t.objects - {name} == s.objects
    && ShowsNewToken(t.objects[name].body, record)
  }

  lemma CreatedIsAdded(s: Server<Secret>, record: Tokens.Token)
    requires SecretName(record.id) !in s.objects
    ensures IsAdded(s, CreateAt(s, SecretName(record.id), SecretOf(record)).0, record)
  {
    NewSecretShows(record);
    hide ShowsNewToken, SecretOf;
    var name := SecretName(record.id);
    var t := Put(s, name, SecretOf(record));
    assert t.objects - {name} == s.objects;
  }

  /** Consuming at the instant `now` sets the record's flag and adds one annotation; all else of the secret stays. */
  predicate MarksOnly(before: Secret, after: Secret, now: int) {
    && after.labels == before.labels
    && after.annotations == before.annotations["chainctl.io/consumedAt" := Stamp(now / 1_000_000_000)]
    && "record" in before.data && before.data["record"].Encoded?
    && after.data == before.data["record" := Encoded(before.data["record"].record.(consumed := true))]
  }

  lemma CheckedMarksOnly(h: Tokens.Digest, body: Secret, id: string, secret: string, expected: string, now: int)
    ensures var r := CheckFetched(h, body, id, secret, expected, now);
            r.Ok? ==> MarksOnly(body, r.value, now) && !body.data["record"].record.consumed
  {
    hide Tokens.CompareSecret;
  }

  /** Which answer a fetched secret gets: no record, a record that cannot be read, or the record's own refusal. */
  lemma CheckRefuses(h: Tokens.Digest, body: Secret, id: string, secret: string, expected: string, now: int)
    ensures var r := CheckFetched(h, body, id, secret, expected, now);
            if "record" !in body.data then r == Err(Malformed)
            else if body.data["record"].Garbage? then r == Err(Undecodable)
            else
              var record := body.data["record"].record;
              if record.consumed then r == Err(Rejected(Tokens.AlreadyConsumed))
              else if record.expiresAt < now then r == Err(Rejected(Tokens.Expired))
              else if record.scope != expected then r == Err(Rejected(Tokens.ScopeMismatch))
              else if record.hashedSecret != Tokens.HashSecret(h, id, secret) then r == Err(Rejected(Tokens.NotFound))
              else r.Ok?
  {
  }

  /** The server after a consume at `now`: the secret of the id is marked, and every other object is as it was. */
  predicate ConsumedOnly(s: Server<Secret>, t: Server<Secret>, id: string, now: int) {
    var name := "chainctl-node-token-" + id;
    && name in s.objects && name in t.objects
    && MarksOnly(s.objects[name].body, t.objects[name].body, now)
    && t.objects - {name} == s.objects - {name}
  }

  lemma AloneMarksOnly(h: Tokens.Digest, s: Server<Secret>, composite: string, expected: string, now: int)
    ensures var (t, r) := ConsumeAlone(h, s, composite, expected, now);
            && (r.Ok? ==> Tokens.SplitToken(composite).Ok? && ConsumedOnly(s, t, Tokens.SplitToken(composite).value.0, now))
            && (r.Err? ==> t == s)
  {
    hide Tokens.SplitToken, CheckFetched, MarksOnly;
    if Tokens.SplitToken(composite).Ok? {
      var (id, secret) := Tokens.SplitToken(composite).value;
      var name := SecretName(id);
      if name in s.objects {
        CheckedMarksOnly(h, s.objects[name].body, id, secret, expected, now);
        var t := ConsumeAlone(h, s, composite, expected, now).0;
        assert t.objects - {name} == s.objects - {name};
      }
    }
  }

  /** The whole call, had it run alone on server s. */
  function ConsumeAlone(h: Tokens.Digest, s: Server<Secret>, composite: string, expected: string, now: int): (Server<Secret>, Result<Unit, KubeError>) {
    match Tokens.SplitToken(composite)
    case Err(e) => (s, Err(Rejected(e)))
    case Ok((id, secret)) =>
      if SecretName(id) !in s.objects then (s, Err(Rejected(Tokens.NotFound)))
      else
        match CheckFetched(h, s.objects[SecretName(id)].body, id, secret, expected, now)
        case Err(e) => (s, Err(e))
        case Ok(update) => (Put(s, SecretName(id), update), Ok(Unit.Unit))
  }

  /** A fetched secret: a private copy that the call overwrites before it sends it back. */
  class SecretObject {
    const name: string
    var version: nat
    var labels: map<string, string>
    var annotations: map<string, Note>
    var data: map<string, Payload>

    constructor (name: string, stored: Stored<Secret>)
      ensures this.name == name && version == stored.version
      ensures labels == stored.body.labels && annotations == stored.body.annotations && data == stored.body.data
    {
      this.name := name;
      version := stored.version;
      labels := stored.body.labels;
      annotations := stored.body.annotations;
      data := stored.body.data;
    }
  }

  class KubeStore {
    const server: Endpoint<Secret>
    const h: Tokens.Digest

    constructor (server: Endpoint<Secret>, h: Tokens.Digest)
      ensures this.server == server && this.h == h
    {
      this.server := server;
      this.h := h;
    }

    /** The secret that Create sends, annotation by annotation. */
    method BuildSecret(record: Tokens.Token) returns (secret: Secret)
      ensures secret == SecretOf(record)
    {
      var annotations := map[EXPIRES_AT := StampOf(record.expiresAt)];
      if record.createdBy != "" {
        annotations := annotations[CREATED_BY := Text(record.createdBy)];
      }
      if record.description != "" {
        annotations := annotations[DESCRIPTION := Text(record.description)];
      }
      secret := Secret(map[MANAGED_BY := "chainctl", TOKEN_SCOPE := record.scope],
                       annotations, map[RECORD := Encoded(record)]);
    }

    /** `before` is the server as the Create request found it. */
    method Create(opts: Tokens.CreateOptions, now: int, draws: Tokens.Draws)
      returns (r: Result<Tokens.CreatedToken, KubeError>, ghost before: Server<Secret>)
      requires WellVersioned(server.state)
      modifies server
      ensures WellVersioned(server.state) && Evolves(old(server.state), before)
      ensures match Tokens.GenerateToken(h, opts, now, draws)
              case Err(e) => r == Err(Rejected(e)) && server.state == before
              case Ok((record, created)) =>
                var (next, reply) := CreateAt(before, SecretName(record.id), SecretOf(record));
                || (reply.Ok? && r == Ok(created) && server.state == next)
                || (reply.Err? && r == Err(Api(reply.error)) && server.state == before)
                || (r == Err(Api(Unavailable)) && server.state in {before, next})
      ensures r.Ok? ==>
                var made := Tokens.GenerateToken(h, opts, now, draws);
                made.Ok? && r.value == made.value.1 && IsAdded(before, server.state, made.value.0)
      ensures r == Err(Api(Unavailable)) ==> server.losses > old(server.losses)
    {
      hide IsAdded, SecretOf, SecretName, Tokens.GenerateToken;
      var generated := Tokens.GenerateToken(h, opts, now, draws);
      before := server.state;
      if generated.Err? {
        return Err(Rejected(generated.error)), before;
      }
      var (record, created) := generated.value;
      var secret := BuildSecret(record);
      server.Interfere();
      before := server.state;
      if SecretName(record.id) !in before.objects {
        CreatedIsAdded(before, record);
      }
      var reply := server.Create(SecretName(record.id), secret);
      if reply.Err? {
        return Err(Api(reply.error)), before;
      }
      return Ok(created), before;
    }

    /** The first half of Consume: read the secret and check the record in it. */
    method FetchChecked(id: string, secret: string, expected: string, now: int)
      returns (r: Result<SecretObject, KubeError>, ghost copy: Stored<Secret>)
      requires WellVersioned(server.state)
      modifies server
      ensures WellVersioned(server.state) && Evolves(old(server.state), server.state)
      ensures r.Ok? ==>
                && SecretName(id) in server.state.objects && copy == server.state.objects[SecretName(id)]
                && CheckFetched(h, copy.body, id, secret, expected, now).Ok?
                && r.value.name == SecretName(id) && r.value.version == copy.version
                && copy.body == Secret(r.value.labels, r.value.annotations, r.value.data)
                && fresh(r.value)
      ensures r.Err? && r.error.Api? ==> r.error.cause == Unavailable && server.losses > old(server.losses)
      ensures server.losses >= old(server.losses)
      ensures r.Err? && !r.error.Api? ==>
                if SecretName(id) in server.state.objects
                then CheckFetched(h, server.state.objects[SecretName(id)].body, id, secret, expected, now) == Err(r.error)
                else r.error == Rejected(Tokens.NotFound)
    {
      hide Tokens.CompareSecret;
      server.Interfere();
      copy := Stored(0, Secret(map[], map[], map[]));
      var reply := server.Get(SecretName(id));
      if reply == Err(NotFound) {
        return Err(Rejected(Tokens.NotFound)), copy;
      }
      if reply.Err? {
        return Err(Api(reply.error)), copy;
      }
      copy := reply.value;
      var stored := new SecretObject(SecretName(id), reply.value);

      if RECORD !in stored.data {
        return Err(Malformed), copy;
      }
      if stored.data[RECORD].Garbage? {
        return Err(Undecodable), copy;
      }
      var record := stored.data[RECORD].record;
      if record.consumed {
        return Err(Rejected(Tokens.AlreadyConsumed)), copy;
      }
      if now > record.expiresAt {
        return Err(Rejected(Tokens.Expired)), copy;
      }
      if record.scope != expected {
        return Err(Rejected(Tokens.ScopeMismatch)), copy;
      }
      if !Tokens.CompareSecret(h, record, id, secret) {
        return Err(Rejected(Tokens.NotFound)), copy;
      }
      return Ok(stored), copy;
    }

    /**
     `seen` is the server as the read found it, `before` as the write found it (or as the
     call left it, when it never wrote). A success or a lost reply is the lone call made at
     `before`; a rejection is the lone call made at `seen`; a conflict changes nothing.
     */
    method Consume(composite: string, expected: string, now: int)
      returns (r: Result<Unit, KubeError>, ghost seen: Server<Secret>, ghost before: Server<Secret>)
      requires WellVersioned(server.state)
      modifies server
      ensures WellVersioned(server.state)
      ensures Evolves(old(server.state), seen) && Evolves(seen, before)
      ensures r.Ok? ==> Tokens.SplitToken(composite).Ok? && ConsumedOnly(before, server.state, Tokens.SplitToken(composite).value.0, now)
      ensures r.Ok? ==> (server.state, r) == ConsumeAlone(h, before, composite, expected, now)
      ensures r.Err? && r.error.Api? && server.state != before ==>
              r.error.cause == Unavailable && (server.state, Ok(Unit.Unit)) == ConsumeAlone(h, before, composite, expected, now)
      ensures r == Err(Api(Unavailable)) ==> server.losses > old(server.losses)
      ensures r.Err? && r.error.Api? && r.error.cause != Unavailable ==>
              && server.state == before && Tokens.SplitToken(composite).Ok?
              && var name := "chainctl-node-token-" + Tokens.SplitToken(composite).value.0;
                 name in seen.objects && !(name in before.objects && before.objects[name] == seen.objects[name])
      ensures r.Err? && !r.error.Api? ==>
              server.state == before && ConsumeAlone(h, seen, composite, expected, now) == (seen, r)
    {
      hide Tokens.SplitToken, Tokens.Verdict, ConsumedOnly;
      seen, before := server.state, server.state;
      var parts := Tokens.SplitToken(composite);
      if parts.Err? {
        return Err(Rejected(parts.error)), seen, before;
      }
      var (id, secret) := parts.value;

      var fetched, copy := FetchChecked(id, secret, expected, now);
      seen, before := server.state, server.state;
      if fetched.Err? {
        return Err(fetched.error), seen, before;
      }
      var stored := fetched.value;
      var record := stored.data[RECORD].record;
      record := record.(consumed := true);
      stored.annotations := stored.annotations[CONSUMED_AT := StampOf(now)];
      stored.data := stored.data[RECORD := Encoded(record)];

      server.Interfere();
      before := server.state;
      UpdateIsCompareAndSwap(seen, before, stored.name, copy,
                             Secret(stored.labels, stored.annotations, stored.data));
      AloneMarksOnly(h, before, composite, expected, now);
      var written := server.Update(stored.name, stored.version, Secret(stored.labels, stored.annotations, stored.data));
      if written.Err? {
        return Err(Api(written.error)), seen, before;
      }
      return Ok(Unit.Unit), seen, before;
    }
  }

  // ---------- the server read as an atomic store ----------

  /** A secret that Create or Consume could have written under this name. */
  predicate TokenSecret(name: string, body: Secret) {
    && PREFIX <= name
    && RECORD in body.data
    && body.data[RECORD].Encoded?
    && body.data[RECORD].record.id == name[|PREFIX|..]
    && (CONSUMED_AT in body.annotations <==> body.data[RECORD].record.consumed)
  }

  ghost predicate HoldsTokens(s: Server<Secret>) {
    forall n :: n in s.objects ==> TokenSecret(n, s.objects[n].body)
  }

  function RecordOf(body: Secret): Tokens.Token
    requires RECORD in body.data && body.data[RECORD].Encoded?
  {
    body.data[RECORD].record
  }

  ghost function View(s: Server<Secret>): Tokens.Store
    requires HoldsTokens(s)
  {
    var ids := set n | n in s.objects :: RecordOf(s.objects[n].body).id;
    map id | id in ids && SecretName(id) in s.objects :: RecordOf(s.objects[SecretName(id)].body)
  }

  lemma ViewAt(s: Server<Secret>, id: string)
    requires HoldsTokens(s)
    ensures id in View(s) <==> SecretName(id) in s.objects
    ensures id in View(s) ==> View(s)[id] == RecordOf(s.objects[SecretName(id)].body) && View(s)[id].id == id
  {
    if SecretName(id) in s.objects {
      assert SecretName(id)[|PREFIX|..] == id;
      assert RecordOf(s.objects[SecretName(id)].body).id == id;
    }
  }

  /** Writing one token secret changes the view at that id and nowhere else. */
  lemma ViewAfterPut(s: Server<Secret>, id: string, body: Secret)
    requires HoldsTokens(s) && TokenSecret(SecretName(id), body)
    ensures HoldsTokens(Put(s, SecretName(id), body))
    ensures View(Put(s, SecretName(id), body)) == View(s)[id := RecordOf(body)]
  {
    var t := Put(s, SecretName(id), body);
    hide View, SecretName, RecordOf;
    assert HoldsTokens(t);
    forall i
      ensures i in View(t) <==> i in View(s)[id := RecordOf(body)]
      ensures i in View(t) ==> View(t)[i] == View(s)[id := RecordOf(body)][i]
    {
      ViewAt(s, i);
      ViewAt(t, i);
      NamesDiffer(i, id);
    }
  }

  lemma NamesDiffer(i: string, id: string)
    ensures SecretName(i) == SecretName(id) <==> i == id
  {
    assert SecretName(i)[|PREFIX|..] == i && SecretName(id)[|PREFIX|..] == id;
  }

  /** Run alone on a token server, the Kubernetes call and the atomic consume agree in verdict and effect. */
  lemma AloneIsAtomic(h: Tokens.Digest, s: Server<Secret>, composite: string, expected: string, now: int)
    requires HoldsTokens(s)
    ensures var (t, r) := ConsumeAlone(h, s, composite, expected, now);
            && HoldsTokens(t)
            && Tokens.AtomicConsume(h, View(s), composite, expected, now) ==
               (View(t), match r case Ok(u) => Ok(u) case Err(e) => if e.Rejected? then Err(e.reason) else Ok(Unit.Unit))
            && (r.Err? ==> r.error.Rejected?)
  {
    hide Tokens.SplitToken, View, SecretName, Tokens.CompareSecret;
    var parts := Tokens.SplitToken(composite);
    if parts.Ok? {
      var (id, secret) := parts.value;
      ViewAt(s, id);
      if SecretName(id) in s.objects {
        var body := s.objects[SecretName(id)].body;
        var update := CheckFetched(h, body, id, secret, expected, now);
        if update.Ok? {
          ViewAfterPut(s, id, update.value);
        }
      }
    }
  }
}

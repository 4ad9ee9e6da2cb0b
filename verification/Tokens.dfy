/**
 Join tokens (pkg/tokens/store.go): how a token is issued, how its text form is taken
 apart, and the in-memory store whose mutex makes every call one atomic step.
 */
module Tokens {
  import opened Results
  import Hex
  import Strings

  type Digest = Hex.Digest

  type Bytes8 = b: seq<Hex.Byte> | |b| == 8 witness seq(8, i => 0 as Hex.Byte)
  type Bytes16 = b: seq<Hex.Byte> | |b| == 16 witness seq(16, i => 0 as Hex.Byte)

  // Times and durations are whole nanoseconds.
  const MINUTE := 60_000_000_000
  const HOUR := 60 * MINUTE
  const DEFAULT_TTL := 2 * HOUR
  const MAX_TTL := 24 * HOUR

  const SCOPE_WORKER := "worker"
  const SCOPE_CONTROL_PLANE := "control-plane"

  datatype TokenError =
    | NotFound | AlreadyConsumed | Expired | ScopeMismatch | InvalidFormat
    | UnknownScope | TtlTooLong | NoRandomness

  datatype CreateOptions = CreateOptions(scope: string, ttl: int, createdBy: string, description: string)

  datatype Token = Token(
    id: string, scope: string, expiresAt: int, hashedSecret: string,
    createdBy: string, description: string, consumed: bool)

  datatype CreatedToken = CreatedToken(
    id: string, scope: string, expiresAt: int, createdBy: string, description: string, token: string)

  /** What the random source yields for one call; None is a failed read. */
  datatype Draws = Draws(id: Option<Bytes8>, secret: Option<Bytes16>)

  // ---------- text form ----------

  /** splitToken */
  function SplitToken(composite: string): Result<(string, string), TokenError> {
    var parts := Strings.Split(composite, '.');
    if |parts| != 2 || parts[0] == "" || parts[1] == "" then Err(InvalidFormat)
    else Ok((parts[0], parts[1]))
  }

  /** The two halves of a token text: neither is empty and neither holds a dot. */
  predicate Parts(id: string, secret: string) {
    id != "" && secret != "" && '.' !in id && '.' !in secret
  }

  /** Splitting is the exact inverse of writing `id.secret`. */
  lemma SplitTokenIff(composite: string, id: string, secret: string)
    ensures SplitToken(composite) == Ok((id, secret)) <==>
            composite == id + "." + secret && Parts(id, secret)
  {
    var parts := Strings.Split(composite, '.');
    if SplitToken(composite) == Ok((id, secret)) {
      Strings.JoinOfSplit(composite, '.');
      assert parts == [id, secret];
      assert id in parts && secret in parts;
      assert Strings.Join([secret], ".") == secret;
    }
    if composite == id + "." + secret && Parts(id, secret) {
      assert composite == id + ['.'] + secret;
      Strings.SplitConcat(id, '.', secret);
      assert Strings.Split(id, '.') == [id] && Strings.Split(secret, '.') == [secret];
    }
  }

  /** hashSecret */
  function HashSecret(h: Digest, id: string, secret: string): string {
    Hex.Encode(h(id + ":" + secret))
  }

  /** compareSecret: equal length and equal bytes. */
  predicate CompareSecret(h: Digest, record: Token, id: string, secret: string) {
    var expected := HashSecret(h, id, secret);
    |expected| == |record.hashedSecret| && expected == record.hashedSecret
  }

  /** The digest does not tell these two secrets of one id apart. */
  predicate SameDigest(h: Digest, id: string, s: string, t: string) {
    h(id + ":" + s) == h(id + ":" + t)
  }

  /** The stored hash is the digest of id:secret, written in hex. */
  lemma HashIsTheDigest(h: Digest, id: string, secret: string)
    ensures Hex.IsHex(HashSecret(h, id, secret)) && Hex.Decode(HashSecret(h, id, secret)) == h(id + ":" + secret)
  {
    Hex.EncodeIsHex(h(id + ":" + secret));
    Hex.DecodeInvertsEncode(h(id + ":" + secret));
  }

  /** Writing a digest in hex adds no collision of its own. */
  lemma HashesMeetIffDigestsDo(h: Digest, id: string, s: string, t: string)
    ensures HashSecret(h, id, s) == HashSecret(h, id, t) <==> SameDigest(h, id, s, t)
  {
    if HashSecret(h, id, s) == HashSecret(h, id, t) {
      Hex.EncodeInjective(h(id + ":" + s), h(id + ":" + t));
    }
  }

  /** generateToken, with the clock reading and the random bytes as inputs. */
  function GenerateToken(h: Digest, opts: CreateOptions, now: int, draws: Draws): (r: Result<(Token, CreatedToken), TokenError>)
    ensures r.Ok? ==>
      var (record, created) := r.value;
      && now < record.expiresAt <= now + MAX_TTL
      && !record.consumed
      && draws.secret.Some?
      && var secret := Hex.Encode(draws.secret.value);
      && Parts(record.id, secret)
      && created.token == record.id + "." + secret
      && record.hashedSecret == HashSecret(h, record.id, secret)
  {
    if opts.scope != SCOPE_WORKER && opts.scope != SCOPE_CONTROL_PLANE then Err(UnknownScope)
    else
      var ttl := if opts.ttl <= 0 then DEFAULT_TTL else opts.ttl;
      if ttl > MAX_TTL then Err(TtlTooLong)
      else if draws.id.None? || draws.secret.None? then Err(NoRandomness)
      else
        var id := Hex.Encode(draws.id.value);
        var secret := Hex.Encode(draws.secret.value);
        Hex.EncodeIsHex(draws.id.value);
        Hex.EncodeIsHex(draws.secret.value);
        var record := Token(id, opts.scope, now + ttl, HashSecret(h, id, secret),
                            opts.createdBy, opts.description, false);
        var created := CreatedToken(id, record.scope, record.expiresAt, record.createdBy,
                                    record.description, id + "." + secret);
        Ok((record, created))
  }

  /** A token is issued exactly when scope and life are allowed and randomness was there, and it is what was asked for. */
  lemma IssuedAsAsked(h: Digest, opts: CreateOptions, now: int, draws: Draws)
    ensures var r := GenerateToken(h, opts, now, draws);
            && (r.Ok? <==> (opts.scope == "worker" || opts.scope == "control-plane")
                           && opts.ttl <= 86_400_000_000_000 && draws.id.Some? && draws.secret.Some?)
            && (r.Ok? ==>
                  var (record, created) := r.value;
                  && draws.id.Some? && Hex.Decode(record.id) == draws.id.value
                  && record.expiresAt - now == (if opts.ttl > 0 then opts.ttl else 7_200_000_000_000)
                  && record.scope == created.scope == opts.scope
                  && record.createdBy == created.createdBy == opts.createdBy
                  && record.description == created.description == opts.description
                  && created.id == record.id && created.expiresAt == record.expiresAt)
  {
    hide Hex.Encode, Hex.Decode, Hex.IsHex, HashSecret;
    if draws.id.Some? {
      Hex.DecodeInvertsEncode(draws.id.value);
    }
  }

  // ---------- the atomic store ----------

  type Store = map<string, Token>

  /** The checks a consume makes on the record it found, in the order it makes them. */
  function Verdict(h: Digest, record: Token, id: string, secret: string, expected: string, now: int): Option<TokenError> {
    if record.consumed then Some(AlreadyConsumed)
    else if now > record.expiresAt then Some(Expired)
    else if record.scope != expected then Some(ScopeMismatch)
    else if !CompareSecret(h, record, id, secret) then Some(NotFound)
    else None
  }

  /** One consume as a single step on the whole store. */
  function AtomicConsume(h: Digest, store: Store, composite: string, expected: string, now: int): (Store, Result<Unit, TokenError>) {
    match SplitToken(composite)
    case Err(e) => (store, Err(e))
    case Ok((id, secret)) =>
      if id !in store then (store, Err(NotFound))
      else
        match Verdict(h, store[id], id, secret, expected, now)
        case Some(e) => (store, Err(e))
        case None => (store[id := store[id].(consumed := true)], Ok(Unit.Unit))
  }

  function ForceExpired(store: Store, composite: string, now: int): Store {
    match SplitToken(composite)
    case Err(_) => store
    case Ok((id, _)) =>
      if id in store then store[id := store[id].(expiresAt := now - MINUTE)] else store
  }

  /** MemoryStore. A record is a value in the map: nothing outside the store ever holds one. */
  class MemoryStore {
    var tokens: Store

    constructor ()
      ensures tokens == map[]
    {
      tokens := map[];
    }

    method Create(h: Digest, opts: CreateOptions, now: int, draws: Draws) returns (r: Result<CreatedToken, TokenError>)
      modifies this
      ensures match GenerateToken(h, opts, now, draws)
              case Ok((record, created)) => r == Ok(created) && tokens == old(tokens)[record.id := record]
              case Err(e) => r == Err(e) && tokens == old(tokens)
    {
      var generated := GenerateToken(h, opts, now, draws);
      if generated.Err? {
        return Err(generated.error);
      }
      var (record, created) := generated.value;
      tokens := tokens[record.id := record];
      return Ok(created);
    }

    method Consume(h: Digest, composite: string, expected: string, now: int) returns (r: Result<Unit, TokenError>)
      modifies this
      ensures (tokens, r) == AtomicConsume(h, old(tokens), composite, expected, now)
    {
      var parts := SplitToken(composite);
      if parts.Err? {
        return Err(parts.error);
      }
      var (id, secret) := parts.value;
      if id !in tokens {
        return Err(NotFound);
      }
      var record := tokens[id];
      if record.consumed {
        return Err(AlreadyConsumed);
      }
      if now > record.expiresAt {
        return Err(Expired);
      }
      if record.scope != expected {
        return Err(ScopeMismatch);
      }
      if !CompareSecret(h, record, id, secret) {
        return Err(NotFound);
      }
      record := record.(consumed := true);
      tokens := tokens[id := record];
      return Ok(Unit.Unit);
    }

    method ForceExpire(composite: string, now: int)
      modifies this
      ensures tokens == ForceExpired(old(tokens), composite, now)
    {
      var parts := SplitToken(composite);
      if parts.Err? {
        return;
      }
      var id := parts.value.0;
      if id in tokens {
        tokens := tokens[id := tokens[id].(expiresAt := now - MINUTE)];
      }
    }
  }

  // ---------- runs of the atomic store ----------

  datatype Op =
    | Create(opts: CreateOptions, now: int, draws: Draws)
    | Consume(composite: string, expected: string, now: int)
    | ForceExpire(composite: string, now: int)

  /** The secret half of the text handed out for an id, and the clock reading when it was handed out. */
  datatype Issue = Issue(secret: string, at: int)

  datatype History = History(store: Store, issued: map<string, Issue>)

  function Apply(h: Digest, past: History, op: Op): History {
    match op
    case Create(opts, now, draws) =>
      (match GenerateToken(h, opts, now, draws)
       case Ok((record, created)) =>
         History(past.store[record.id := record], past.issued[record.id := Issue(Hex.Encode(draws.secret.value), now)])
       case Err(_) => past)
    case Consume(composite, expected, now) =>
      past.(store := AtomicConsume(h, past.store, composite, expected, now).0)
    case ForceExpire(composite, now) =>
      past.(store := ForceExpired(past.store, composite, now))
  }

  function Run(h: Digest, ops: seq<Op>): History {
    if ops == [] then History(map[], map[])
    else Apply(h, Run(h, ops[..|ops| - 1]), ops[|ops| - 1])
  }

  /** The id a successful Create writes. */
  predicate Writes(h: Digest, op: Op, id: string) {
    op.Create? && var r := GenerateToken(h, op.opts, op.now, op.draws); r.Ok? && r.value.0.id == id
  }

  /** What never changes about a record, and the one flag that only ever rises. */
  predicate Descends(before: Token, after: Token) {
    && after.(expiresAt := before.expiresAt, consumed := before.consumed) == before
    && (before.consumed ==> after.consumed)
  }

  lemma ApplyDescends(h: Digest, past: History, op: Op, id: string)
    requires !Writes(h, op, id) && (id in past.store || id in Apply(h, past, op).store)
    ensures id in past.store && id in Apply(h, past, op).store
    ensures Descends(past.store[id], Apply(h, past, op).store[id])
    ensures id in past.issued ==> id in Apply(h, past, op).issued && Apply(h, past, op).issued[id] == past.issued[id]
    ensures !op.ForceExpire? ==> Apply(h, past, op).store[id].expiresAt == past.store[id].expiresAt
  {
  }

  /** The record sits under its own id and carries the hash of the secret issued for it. */
  ghost predicate GenuineAt(h: Digest, past: History, id: string) {
    && id in past.store
    && id in past.issued
    && past.store[id].id == id
    && Parts(id, past.issued[id].secret)
    && past.store[id].hashedSecret == HashSecret(h, id, past.issued[id].secret)
  }

  ghost predicate Genuine(h: Digest, past: History) {
    forall id :: id in past.store ==> GenuineAt(h, past, id)
  }

  lemma ApplyKeepsGenuine(h: Digest, past: History, op: Op)
    requires Genuine(h, past)
    ensures Genuine(h, Apply(h, past, op))
  {
    forall id | id in Apply(h, past, op).store
      ensures GenuineAt(h, Apply(h, past, op), id)
    {
      if !Writes(h, op, id) {
        ApplyDescends(h, past, op, id);
        assert GenuineAt(h, past, id);
      }
    }
  }

  lemma {:induction false} RunsAreGenuine(h: Digest, ops: seq<Op>)
    ensures Genuine(h, Run(h, ops))
  {
    if ops != [] {
      RunsAreGenuine(h, ops[..|ops| - 1]);
      ApplyKeepsGenuine(h, Run(h, ops[..|ops| - 1]), ops[|ops| - 1]);
    }
  }

  /** The text issued for id is given and its record can still be used. */
  predicate Admits(past: History, id: string, composite: string, expected: string, now: int) {
    && id in past.store
    && id in past.issued
    && composite == id + "." + past.issued[id].secret
    && Usable(past.store[id], expected, now)
  }

  /** The record of the id can still be used, and the digest does not tell the secret from the issued one. */
  predicate Passes(h: Digest, past: History, id: string, secret: string, expected: string, now: int) {
    && id in past.store
    && id in past.issued
    && SameDigest(h, id, secret, past.issued[id].secret)
    && Usable(past.store[id], expected, now)
  }

  lemma AcceptedIffPasses(h: Digest, past: History, composite: string, expected: string, now: int)
    requires Genuine(h, past)
    ensures AtomicConsume(h, past.store, composite, expected, now).1.Ok? <==>
            SplitToken(composite).Ok? &&
            Passes(h, past, SplitToken(composite).value.0, SplitToken(composite).value.1, expected, now)
  {
    hide SplitToken, HashSecret, SameDigest;
    if SplitToken(composite).Ok? {
      var (id, secret) := SplitToken(composite).value;
      if id in past.store {
        assert GenuineAt(h, past, id);
        HashesMeetIffDigestsDo(h, id, secret, past.issued[id].secret);
      }
    }
  }

  /** Which refusal a text meets, said of the record it names; a refusal changes nothing. */
  lemma RefusalsMean(h: Digest, past: History, composite: string, expected: string, now: int)
    requires Genuine(h, past)
    ensures var (after, r) := AtomicConsume(h, past.store, composite, expected, now);
            && (r.Err? ==> after == past.store)
            && (r == Err(InvalidFormat) <==> SplitToken(composite).Err?)
            && (SplitToken(composite).Ok? ==>
                  var (id, secret) := SplitToken(composite).value;
                  if id !in past.store then r == Err(NotFound)
                  else
                    var record := past.store[id];
                    && id in past.issued
                    && (r == Err(AlreadyConsumed) <==> record.consumed)
                    && (r == Err(Expired) <==> !record.consumed && now > record.expiresAt)
                    && (r == Err(ScopeMismatch) <==> !record.consumed && now <= record.expiresAt && record.scope != expected)
                    && (r == Err(NotFound) <==> Usable(record, expected, now) && !SameDigest(h, id, secret, past.issued[id].secret)))
  {
    hide HashSecret, SameDigest;
    if SplitToken(composite).Ok? {
      var (id, secret) := SplitToken(composite).value;
      if id in past.store {
        assert GenuineAt(h, past, id);
        HashesMeetIffDigestsDo(h, id, secret, past.issued[id].secret);
      }
    }
  }

  /** The text holds another secret than the one issued for its id, and the digest is the same. */
  predicate Collides(h: Digest, past: History, composite: string, expected: string, now: int) {
    && SplitToken(composite).Ok?
    && var (id, secret) := SplitToken(composite).value;
       Passes(h, past, id, secret, expected, now) && secret != past.issued[id].secret
  }

  lemma IssuedTextPasses(h: Digest, past: History, id: string, composite: string, expected: string, now: int)
    requires Genuine(h, past) && Admits(past, id, composite, expected, now)
    ensures SplitToken(composite) == Ok((id, past.issued[id].secret))
    ensures Passes(h, past, id, past.issued[id].secret, expected, now)
  {
    hide SplitToken, HashSecret;
    assert GenuineAt(h, past, id);
    SplitTokenIff(composite, id, past.issued[id].secret);
  }

  /**
   For every digest: a reachable store accepts a text exactly when it is, byte for byte, the
   text issued for an id that is still unconsumed, unexpired and in scope, or holds another
   secret for such an id with the very digest of the issued one.
   */
  lemma AcceptsExactlyTheIssued(h: Digest, ops: seq<Op>, composite: string, expected: string, now: int)
    ensures AtomicConsume(h, Run(h, ops).store, composite, expected, now).1.Ok? <==>
            (exists id :: Admits(Run(h, ops), id, composite, expected, now)) || Collides(h, Run(h, ops), composite, expected, now)
  {
    hide AtomicConsume, SplitToken, SameDigest, Usable, Run;
    RunsAreGenuine(h, ops);
    var past := Run(h, ops);
    AcceptedIffPasses(h, past, composite, expected, now);
    if id :| Admits(past, id, composite, expected, now) {
      IssuedTextPasses(h, past, id, composite, expected, now);
    } else if AtomicConsume(h, past.store, composite, expected, now).1.Ok? {
      var (id, secret) := SplitToken(composite).value;
      SplitTokenIff(composite, id, secret);
      assert secret == past.issued[id].secret ==> Admits(past, id, composite, expected, now);
    }
  }

  predicate Usable(record: Token, expected: string, now: int) {
    !record.consumed && now <= record.expiresAt && record.scope == expected
  }

  function From(h: Digest, past: History, ops: seq<Op>): History {
    if ops == [] then past
    else Apply(h, From(h, past, ops[..|ops| - 1]), ops[|ops| - 1])
  }

  /**
   As long as no later Create draws the same id, id, scope, hash and notes of a record are
   fixed, its consumed flag never falls, and its expiry moves only when an operation other
   than Create or Consume asks for it.
   */
  lemma {:induction false} RecordsOnlyAge(h: Digest, past: History, ops: seq<Op>, id: string)
    requires id in past.store
    requires forall op :: op in ops ==> !Writes(h, op, id)
    ensures id in From(h, past, ops).store
    ensures Descends(past.store[id], From(h, past, ops).store[id])
    ensures (forall op :: op in ops ==> !op.ForceExpire?) ==>
            From(h, past, ops).store[id].expiresAt == past.store[id].expiresAt
  {
    if ops != [] {
      hide Apply;
      var front, op := ops[..|ops| - 1], ops[|ops| - 1];
      assert op in ops && forall o :: o in front ==> o in ops;
      RecordsOnlyAge(h, past, front, id);
      ApplyDescends(h, From(h, past, front), op, id);
    }
  }

  /** One success per issue: after it, no text naming the id is accepted until the id is issued anew. */
  lemma ConsumedIsFinal(h: Digest, past: History, first: Op, later: seq<Op>, again: Op)
    requires first.Consume? && AtomicConsume(h, past.store, first.composite, first.expected, first.now).1.Ok?
    requires again.Consume? && SplitToken(again.composite).Ok?
    requires SplitToken(again.composite).value.0 == SplitToken(first.composite).value.0
    requires forall op :: op in later ==> !Writes(h, op, SplitToken(first.composite).value.0)
    ensures var now := From(h, Apply(h, past, first), later).store;
            AtomicConsume(h, now, again.composite, again.expected, again.now) == (now, Err(AlreadyConsumed))
  {
    RecordsOnlyAge(h, Apply(h, past, first), later, SplitToken(first.composite).value.0);
  }

  function Clock(op: Op): int {
    op.now
  }

  ghost predicate ClockRises(ops: seq<Op>, start: int) {
    && (forall i :: 0 <= i < |ops| ==> start <= Clock(ops[i]))
    && forall i, j :: 0 <= i < j < |ops| ==> Clock(ops[i]) <= Clock(ops[j])
  }

  function LastClock(ops: seq<Op>, start: int): int {
    if ops == [] then start else Clock(ops[|ops| - 1])
  }

  /** With a clock that never runs backwards an expired record stays expired, even though
      ForceExpire may move its expiry to a later instant than it had. */
  lemma {:induction false} ExpiredStaysExpired(h: Digest, past: History, ops: seq<Op>, id: string, start: int)
    requires id in past.store && past.store[id].expiresAt < start
    requires ClockRises(ops, start)
    requires forall op :: op in ops ==> !Writes(h, op, id)
    ensures id in From(h, past, ops).store
    ensures From(h, past, ops).store[id].expiresAt < LastClock(ops, start)
  {
    if ops != [] {
      var front := ops[..|ops| - 1];
      assert ops[|ops| - 1] in ops;
      assert LastClock(front, start) <= Clock(ops[|ops| - 1]);
      ExpiredStaysExpired(h, past, front, id, start);
    }
  }

  lemma ExpiredStaysUnusable(h: Digest, past: History, ops: seq<Op>, start: int, composite: string, expected: string, now: int)
    requires SplitToken(composite).Ok? && SplitToken(composite).value.0 in past.store
    requires past.store[SplitToken(composite).value.0].expiresAt < start
    requires ClockRises(ops + [Consume(composite, expected, now)], start)
    requires forall op :: op in ops ==> !Writes(h, op, SplitToken(composite).value.0)
    ensures AtomicConsume(h, From(h, past, ops).store, composite, expected, now).1.Err?
  {
    var all := ops + [Consume(composite, expected, now)];
    assert forall i :: 0 <= i < |ops| ==> all[i] == ops[i];
    assert all[|ops|].now == now;
    ExpiredStaysExpired(h, past, ops, SplitToken(composite).value.0, start);
    assert LastClock(ops, start) <= Clock(all[|ops|]);
  }

  /** After ForceExpire the named token is expired, all else about it is as before, and so is every other token. */
  lemma ForceExpireEnds(h: Digest, store: Store, composite: string, now: int, later: int, text: string, expected: string)
    requires SplitToken(composite).Ok? && SplitToken(composite).value.0 in store && now <= later
    requires SplitToken(text).Ok? && SplitToken(text).value.0 == SplitToken(composite).value.0
    ensures var id, after := SplitToken(composite).value.0, ForceExpired(store, composite, now);
            && after == store[id := store[id].(expiresAt := now - 60_000_000_000)]
            && AtomicConsume(h, after, text, expected, later) ==
               (after, Err(if store[id].consumed then AlreadyConsumed else Expired))
  {
  }

  /** ForceExpire can lengthen a life that already ended: the expiry of this record moves forward. */
  lemma ForceExpireMayMoveForward(composite: string, id: string, record: Token, now: int)
    requires SplitToken(composite).Ok? && SplitToken(composite).value.0 == id
    ensures ForceExpired(map[id := record], composite, now)[id].expiresAt > record.expiresAt <==> record.expiresAt < now - MINUTE
  {
  }

  /** Without ForceExpire no record outlives its issue by more than the longest allowed life. */
  lemma {:induction false} LifeIsBounded(h: Digest, ops: seq<Op>, id: string)
    requires forall op :: op in ops ==> !op.ForceExpire?
    requires id in Run(h, ops).store
    ensures id in Run(h, ops).issued
    ensures Run(h, ops).issued[id].at < Run(h, ops).store[id].expiresAt <= Run(h, ops).issued[id].at + 86_400_000_000_000
  {
    var front := ops[..|ops| - 1];
    var op := ops[|ops| - 1];
    assert op in ops;
    if !Writes(h, op, id) {
      LifeIsBounded(h, front, id);
    }
  }
}

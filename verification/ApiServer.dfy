/**
 The Kubernetes API server as its clients see it: named objects, each with a version drawn
 from one rising counter. Create refuses a name that exists; Update refuses a version that
 is no longer current (Kubernetes API Conventions, section "Concurrency Control and
 Consistency").
 */
module ApiServer {
  import opened Results

  datatype Stored<+T> = Stored(version: nat, body: T)

  datatype Server<+T> = Server(objects: map<string, Stored<T>>, revision: nat)

  datatype ServerError = AlreadyExists | NotFound | Conflict | Unavailable

  /** What the network does to one request. */
  datatype Network = Delivered | Dropped | ReplyLost

  /** An update that carries no version is not checked against the current one. */
  const NO_VERSION: nat := 0

  ghost predicate WellVersioned<T>(s: Server<T>) {
    forall n :: n in s.objects ==> 0 < s.objects[n].version <= s.revision
  }

  function Put<T>(s: Server<T>, name: string, body: T): Server<T> {
    Server(s.objects[name := Stored(s.revision + 1, body)], s.revision + 1)
  }

  function CreateAt<T>(s: Server<T>, name: string, body: T): (Server<T>, Result<Unit, ServerError>) {
    if name in s.objects then (s, Err(AlreadyExists)) else (Put(s, name, body), Ok(Unit.Unit))
  }

  function UpdateAt<T>(s: Server<T>, name: string, version: nat, body: T): (Server<T>, Result<Unit, ServerError>) {
    if name !in s.objects then (s, Err(NotFound))
    else if version != NO_VERSION && version != s.objects[name].version then (s, Err(Conflict))
    else (Put(s, name, body), Ok(Unit.Unit))
  }

  /** The server and the caller's view after one write request crossed the network. */
  function Through<T>(net: Network, before: Server<T>, served: (Server<T>, Result<Unit, ServerError>)): (Server<T>, Result<Unit, ServerError>) {
    match net
    case Delivered => served
    case Dropped => (before, Err(Unavailable))
    case ReplyLost => (served.0, Err(Unavailable))
  }

  /** (after, r) is what the request may leave behind, whatever the network does. */
  predicate Answered<T(==)>(before: Server<T>, served: (Server<T>, Result<Unit, ServerError>), after: Server<T>, r: Result<Unit, ServerError>) {
    || (after, r) == Through(Delivered, before, served)
    || (after, r) == Through(Dropped, before, served)
    || (after, r) == Through(ReplyLost, before, served)
  }

  /** What any number of other clients may do: whatever was written since carries a newer version. */
  ghost predicate Evolves<T>(s: Server<T>, t: Server<T>) {
    && s.revision <= t.revision
    && forall n {:trigger n in t.objects} :: n in t.objects ==>
         (n in s.objects && t.objects[n] == s.objects[n]) || s.revision < t.objects[n].version
  }

  lemma EvolvesTransitive<T>(s: Server<T>, t: Server<T>, u: Server<T>)
    requires Evolves(s, t) && Evolves(t, u)
    ensures Evolves(s, u)
  {
    forall n | n in u.objects
      ensures (n in s.objects && u.objects[n] == s.objects[n]) || s.revision < u.objects[n].version
    {
      if n in t.objects && u.objects[n] == t.objects[n] {
      }
    }
  }

  lemma WritesEvolve<T>(s: Server<T>, name: string, version: nat, body: T, net: Network)
    requires WellVersioned(s)
    ensures WellVersioned(Through(net, s, CreateAt(s, name, body)).0)
    ensures WellVersioned(Through(net, s, UpdateAt(s, name, version, body)).0)
    ensures Evolves(s, Through(net, s, CreateAt(s, name, body)).0)
    ensures Evolves(s, Through(net, s, UpdateAt(s, name, version, body)).0)
  {
  }

  /**
   An update that sends back the version it read is a compare-and-swap: it is served exactly
   when the object is still the very one that was read.
   */
  lemma UpdateIsCompareAndSwap<T>(s: Server<T>, t: Server<T>, name: string, copy: Stored<T>, body: T)
    requires WellVersioned(s) && WellVersioned(t) && Evolves(s, t)
    requires name in s.objects && s.objects[name] == copy
    ensures UpdateAt(t, name, copy.version, body).1.Ok? <==> name in t.objects && t.objects[name] == copy
  {
    assert name in t.objects ==> t.objects[name] == copy || copy.version < t.objects[name].version;
  }

  /** Two updates made from one read: the second is served exactly when it carries no version. */
  lemma SecondUpdateFromOneRead<T>(s: Server<T>, name: string, first: T, second: T, version: nat)
    requires WellVersioned(s) && name in s.objects
    requires version == s.objects[name].version || version == NO_VERSION
    ensures var after := UpdateAt(s, name, s.objects[name].version, first);
            && after.1.Ok?
            && (UpdateAt(after.0, name, version, second).1.Ok? <==> version == NO_VERSION)
  {
  }

  /** One API server shared with unknown other clients, and how often the network lost a request or reply of this one. */
  class Endpoint<T> {
    var state: Server<T>
    var losses: nat

    constructor (initial: Server<T>)
      ensures state == initial && losses == 0
    {
      state := initial;
      losses := 0;
    }

    /** Other clients run for a while. */
    method Interfere()
      requires WellVersioned(state)
      modifies this`state
      ensures WellVersioned(state) && Evolves(old(state), state)
    {
    }

    method Get(name: string) returns (r: Result<Stored<T>, ServerError>)
      modifies this`losses
      ensures r.Ok? ==> name in state.objects && r.value == state.objects[name]
      ensures r.Err? ==> r.error == Unavailable || (r.error == NotFound && name !in state.objects)
      ensures losses == if r == Err(Unavailable) then old(losses) + 1 else old(losses)
    {
      var net: Network := *;
      if net != Delivered {
        losses := losses + 1;
        return Err(Unavailable);
      }
      if name !in state.objects {
        return Err(NotFound);
      }
      return Ok(state.objects[name]);
    }

    method Create(name: string, body: T) returns (r: Result<Unit, ServerError>)
      requires WellVersioned(state)
      modifies this
      ensures WellVersioned(state)
      ensures Answered(old(state), CreateAt(old(state), name, body), state, r)
      ensures losses == if r == Err(Unavailable) then old(losses) + 1 else old(losses)
    {
      var net: Network := *;
      WritesEvolve(state, name, NO_VERSION, body, net);
      var (next, reply) := Through(net, state, CreateAt(state, name, body));
      state := next;
      losses := if net == Delivered then losses else losses + 1;
      r := reply;
    }

    method Update(name: string, version: nat, body: T) returns (r: Result<Unit, ServerError>)
      requires WellVersioned(state)
      modifies this
      ensures WellVersioned(state)
      ensures Answered(old(state), UpdateAt(old(state), name, version, body), state, r)
      ensures losses == if r == Err(Unavailable) then old(losses) + 1 else old(losses)
    {
      var net: Network := *;
      WritesEvolve(state, name, version, body, net);
      var (next, reply) := Through(net, state, UpdateAt(state, name, version, body));
      state := next;
      losses := if net == Delivered then losses else losses + 1;
      r := reply;
    }
  }
}

/**
 The frame ring registration protocol as functions on values: a table of rings
 with their publications, and a server that binds each display to one client
 process and one rising cookie. The display store and the clock are read only.
 */
module FrameRingSpec {
  import opened Wrappers
  import opened LeaseStoreSpec

  const RING_GENERATIONS: nat := 0xFFFF_FFFF_FFFF_FFFF

  datatype Owner = Owner(leaseId: nat, displayId: nat, generation: nat, capability: Capability)

  /** The store vouches for this lease, capability and display generation. */
  predicate Owned(s: State, o: Owner, now: int) {
    var display := Authorize(s, LeaseDisplayRequest(true, o.leaseId, o.displayId), o.capability, now);
    display.Some? && display.value.generation == o.generation
  }

  predicate Authorized(s: State, o: Owner, now: int) {
    Owned(s, o, now) && o.generation != 0
  }

  // ---------------------------------------------------------------- the ring table

  /** One publication object; producers may hold it after its ring has left the table. */
  datatype Publication = Publication(displayId: nat, ringGeneration: nat, enabled: bool)

  /** A registered ring; `publication` refers to its publication object. */
  datatype Ring = Ring(owner: Owner, ringGeneration: nat, publication: nat)

  /** `publications` holds every publication object ever made, in order. */
  datatype Lifetime = Lifetime(rings: map<nat, Ring>, publications: seq<Publication>, nextRingGeneration: nat)
  {
    predicate CanPublish(id: nat) {
      && id in rings && rings[id].publication < |publications|
      && publications[rings[id].publication].enabled
    }

    predicate Matches(id: nat, displayGeneration: nat, ringGeneration: nat) {
      id in rings && rings[id].owner.generation == displayGeneration && rings[id].ringGeneration == ringGeneration
    }
  }

  function Disabled(publications: seq<Publication>, which: set<nat>): (r: seq<Publication>)
    ensures |r| == |publications|
  {
    seq(|publications|, i requires 0 <= i < |publications| =>
      if i in which then publications[i].(enabled := false) else publications[i])
  }

  /** Takes rings off the table and disables their publications. */
  function Retire(l: Lifetime, ids: set<nat>): Lifetime {
    l.(rings := l.rings - ids,
       publications := Disabled(l.publications, set id | id in ids && id in l.rings :: l.rings[id].publication))
  }

  function RetireRing(l: Lifetime, id: nat, displayGeneration: nat, ringGeneration: nat): Lifetime {
    if l.Matches(id, displayGeneration, ringGeneration) then Retire(l, {id}) else l
  }

  function RetireDisplay(l: Lifetime, id: nat, displayGeneration: nat): Lifetime {
    if id in l.rings && l.rings[id].owner.generation == displayGeneration then Retire(l, {id}) else l
  }

  function Unavailable(l: Lifetime, s: State, now: int): set<nat> {
    set id | id in l.rings && !Authorized(s, l.rings[id].owner, now)
  }

  /** A lookup retires the ring it finds if its owner is no longer authorized. */
  function SnapshotTable(l: Lifetime, s: State, id: nat, displayGeneration: nat, now: int): Lifetime {
    if id in l.rings && l.rings[id].owner.generation == displayGeneration && !Authorized(s, l.rings[id].owner, now)
    then Retire(l, {id}) else l
  }

  function Snapshot(l: Lifetime, s: State, id: nat, displayGeneration: nat, now: int): Option<Ring> {
    if id in l.rings && l.rings[id].owner.generation == displayGeneration && Authorized(s, l.rings[id].owner, now)
    then Some(l.rings[id]) else None
  }

  datatype RegistrationStatus = Registered | OwnerUnavailable | InvalidResources | GenerationExhausted

  /** The 64-bit counter; zero means that every generation has been issued. */
  function NextRingGeneration(generation: nat): nat {
    if generation == RING_GENERATIONS then 0 else generation + 1
  }

  function RegistrationStatusOf(l: Lifetime, s: State, o: Owner, resources: bool, now: int): RegistrationStatus {
    if !Authorized(s, o, now) then OwnerUnavailable
    else if !resources then InvalidResources
    else if l.nextRingGeneration == 0 then GenerationExhausted
    else Registered
  }

  function Register(l: Lifetime, s: State, o: Owner, resources: bool, now: int): Lifetime {
    if RegistrationStatusOf(l, s, o, resources, now) != Registered then l
    else
      var cleared := Retire(l, Unavailable(l, s, now) + {o.displayId});
      Lifetime(cleared.rings[o.displayId := Ring(o, l.nextRingGeneration, |l.publications|)],
               cleared.publications + [Publication(o.displayId, l.nextRingGeneration, true)],
               NextRingGeneration(l.nextRingGeneration))
  }

  // ---------------------------------------------------------------- the server

  datatype Peer = Peer(processId: nat, processStart: nat)
  {
    predicate Valid() { processId != 0 && processStart != 0 }
  }

  /** `payload` stands for the adapter, geometry and handle fields, `wellFormed` for their validity. */
  datatype RegisterRequest = RegisterRequest(wellFormed: bool, owner: Owner, cookie: nat, payload: nat)
  {
    predicate Valid() {
      wellFormed && owner.leaseId != 0 && owner.displayId != 0 && owner.generation != 0 && cookie != 0
    }
  }

  datatype Reply = Reply(cookie: nat, displayGeneration: nat, ringGeneration: nat)

  const NO_REPLY := Reply(0, 0, 0)

  datatype ClearRequest = ClearRequest(wellFormed: bool, identity: Reply, leaseId: nat, displayId: nat,
                                       capability: Capability, flags: nat)
  {
    predicate Valid() {
      && wellFormed && flags <= 1 && identity.cookie != 0 && identity.displayGeneration != 0
      && (flags == 1 <==> identity.ringGeneration == 0)
    }

    function Claimant(): Owner {
      Owner(leaseId, displayId, identity.displayGeneration, capability)
    }
  }

  datatype WireStatus = Success | InvalidInput | Unauthorized | ImportFailed | StaleGeneration

  /** `request.cookie` is the display's high-water mark; it outlives the ring as a tombstone. */
  datatype Entry = Entry(peer: Peer, request: RegisterRequest, reply: Reply)

  datatype Server = Server(entries: map<nat, Entry>, rings: Lifetime)

  datatype Outcome = Outcome(server: Server, status: WireStatus, reply: Reply)

  /** Whether a reap takes this display's ring off the table. */
  predicate ReapRetires(v: Server, s: State, now: int, id: nat) {
    && id in v.entries
    && var e := v.entries[id];
       if !Owned(s, e.request.owner, now)
       then v.rings.Matches(id, e.request.owner.generation, e.reply.ringGeneration)
       else e.reply.ringGeneration != 0 && id in v.rings.rings
            && v.rings.rings[id].owner.generation == e.request.owner.generation
            && !Authorized(s, v.rings.rings[id].owner, now)
  }

  /** The reply survives only while the very ring it names can still publish. */
  function ReapedEntry(v: Server, s: State, now: int, id: nat): Entry
    requires id in v.entries
  {
    var e := v.entries[id];
    var ring := Snapshot(v.rings, s, id, e.request.owner.generation, now);
    if e.reply.ringGeneration != 0 &&
       (ring.None? || !v.rings.CanPublish(id) || ring.value.ringGeneration != e.reply.ringGeneration)
    then e.(reply := NO_REPLY) else e
  }

  function Reap(v: Server, s: State, now: int): Server {
    Server(map id | id in v.entries && Owned(s, v.entries[id].request.owner, now) :: ReapedEntry(v, s, now, id),
           Retire(v.rings, set id | id in v.entries && ReapRetires(v, s, now, id)))
  }

  /** What a registration that passes the cookie check does; `imported` is the importer's answer. */
  function Bind(v: Server, s: State, peer: Peer, r: RegisterRequest, imported: bool, now: int): Outcome {
    var id := r.owner.displayId;
    var previous := if id in v.entries then v.entries[id] else Entry(peer, r, NO_REPLY);
    var entries := v.entries[id := Entry(peer, r, NO_REPLY)];
    var retired := RetireRing(v.rings, id, previous.request.owner.generation, previous.reply.ringGeneration);
    if !imported then Outcome(Server(entries, retired), ImportFailed, NO_REPLY)
    else if RegistrationStatusOf(v.rings, s, r.owner, true, now) != Registered then
      Outcome(Server(entries, retired), Unauthorized, NO_REPLY)
    else
      var reply := Reply(r.cookie, r.owner.generation, v.rings.nextRingGeneration);
      Outcome(Server(entries[id := Entry(peer, r, reply)], Register(v.rings, s, r.owner, true, now)), Success, reply)
  }

  function RegisterRing(v: Server, s: State, peer: Peer, r: RegisterRequest, imported: bool, now: int): Outcome {
    if !peer.Valid() || !r.Valid() then Outcome(v, InvalidInput, NO_REPLY)
    else if !Owned(s, r.owner, now) then Outcome(v, Unauthorized, NO_REPLY)
    else
      var v1, id := Reap(v, s, now), r.owner.displayId;
      if id in v1.entries && v1.entries[id].peer != peer then Outcome(v1, Unauthorized, NO_REPLY)
      else if id in v1.entries && r.cookie <= v1.entries[id].request.cookie then
        if r.cookie == v1.entries[id].request.cookie && v1.entries[id].reply.ringGeneration != 0 &&
           v1.entries[id].request == r then Outcome(v1, Success, v1.entries[id].reply)
        else Outcome(v1, StaleGeneration, NO_REPLY)
      else Bind(v1, s, peer, r, imported, now)
  }

  /** The request a cancellation leaves behind when no registration has been seen. */
  function Tombstone(r: ClearRequest): RegisterRequest {
    RegisterRequest(false, r.Claimant(), r.identity.cookie, 0)
  }

  /** Clears the ring of an existing entry. */
  function ClearEntry(v: Server, peer: Peer, r: ClearRequest): Outcome
    requires r.displayId in v.entries
  {
    var e := v.entries[r.displayId];
    if e.peer != peer || e.request.owner.capability != r.capability || e.request.owner.leaseId != r.leaseId then
      Outcome(v, Unauthorized, NO_REPLY)
    else if r.identity.cookie < e.request.cookie || r.identity.displayGeneration != e.request.owner.generation then
      Outcome(v, StaleGeneration, NO_REPLY)
    else if r.flags == 0 && (r.identity.cookie != e.request.cookie ||
                             r.identity.ringGeneration != e.reply.ringGeneration) then
      Outcome(v, StaleGeneration, NO_REPLY)
    else
      var rings := if e.reply.ringGeneration == 0 then v.rings
                   else RetireRing(v.rings, r.displayId, e.request.owner.generation, e.reply.ringGeneration);
      var entry := e.(request := e.request.(cookie := r.identity.cookie), reply := NO_REPLY);
      Outcome(Server(v.entries[r.displayId := entry], rings), Success, NO_REPLY)
  }

  function ClearRing(v: Server, s: State, peer: Peer, r: ClearRequest, now: int): Outcome {
    if !peer.Valid() || !r.Valid() then Outcome(v, InvalidInput, NO_REPLY)
    else if !Owned(s, r.Claimant(), now) then Outcome(v, Unauthorized, NO_REPLY)
    else
      var v1 := Reap(v, s, now);
      if r.displayId in v1.entries then ClearEntry(v1, peer, r)
      else if r.flags != 1 then Outcome(v1, StaleGeneration, NO_REPLY)
      else Outcome(v1.(entries := v1.entries[r.displayId := Entry(peer, Tombstone(r), NO_REPLY)]), Success, NO_REPLY)
  }

  function ResetServer(v: Server): Server {
    Server(map id | id in v.entries :: v.entries[id].(reply := NO_REPLY),
           Retire(v.rings, set id | id in v.entries &&
             v.rings.Matches(id, v.entries[id].request.owner.generation, v.entries[id].reply.ringGeneration)))
  }

  // ---------------------------------------------------------------- runs

  datatype RingOp =
    | DoRegister(peer: Peer, request: RegisterRequest, imported: bool)
    | DoClear(peer: Peer, clear: ClearRequest)
    | DoReap
    | DoReset
    | DoSnapshot(id: nat, displayGeneration: nat)
    | DoRetireRing(id: nat, displayGeneration: nat, ringGeneration: nat)
    | DoRetireDisplay(id: nat, displayGeneration: nat)
    | DoRetireUnavailable
    | DoResetTable
    | DoDisable(publication: nat)  // a producer gives up on its ring

  /** One step: the store and the time it sees may be anything. */
  datatype Step = Step(op: RingOp, store: State, now: int)

  function Apply(v: Server, step: Step): Server {
    var Step(op, s, now) := step;
    match op
    case DoRegister(peer, r, imported) => RegisterRing(v, s, peer, r, imported, now).server
    case DoClear(peer, r) => ClearRing(v, s, peer, r, now).server
    case DoReap => Reap(v, s, now)
    case DoReset => ResetServer(v)
    case DoSnapshot(id, generation) => v.(rings := SnapshotTable(v.rings, s, id, generation, now))
    case DoRetireRing(id, generation, ring) => v.(rings := RetireRing(v.rings, id, generation, ring))
    case DoRetireDisplay(id, generation) => v.(rings := RetireDisplay(v.rings, id, generation))
    case DoRetireUnavailable => v.(rings := Retire(v.rings, Unavailable(v.rings, s, now)))
    case DoResetTable => v.(rings := Retire(v.rings, v.rings.rings.Keys))
    case DoDisable(publication) => v.(rings := v.rings.(publications := Disabled(v.rings.publications, {publication})))
  }

  function Run(v: Server, steps: seq<Step>): Server
    decreases |steps|
  {
    if steps == [] then v else Run(Apply(v, steps[0]), steps[1..])
  }

  const FRESH_SERVER := Server(map[], Lifetime(map[], [], 1))
}

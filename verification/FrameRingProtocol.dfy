/** What every run of the frame ring protocol keeps. */
module FrameRingProtocol {
  import L = LeaseStoreSpec
  import opened FrameRingSpec

  // ---------------------------------------------------------------- the invariant

  /** Generations are issued in order, one a publication, and each ring refers to its own publication. */
  ghost predicate Issued(l: Lifetime) {
    && |l.publications| <= RING_GENERATIONS
    && l.nextRingGeneration == (if |l.publications| == RING_GENERATIONS then 0 else |l.publications| + 1)
    && (forall i | 0 <= i < |l.publications| :: l.publications[i].ringGeneration == i + 1)
    && forall id | id in l.rings ::
         && l.rings[id].ringGeneration == l.rings[id].publication + 1
         && l.rings[id].publication < |l.publications|
         && l.publications[l.rings[id].publication].displayId == id
         && l.rings[id].owner.displayId == id && l.rings[id].owner.generation != 0
  }

  /** A publication that is still enabled belongs to a ring on the table. */
  ghost predicate EnabledOnTable(l: Lifetime) {
    forall i | 0 <= i < |l.publications| && l.publications[i].enabled ::
      l.publications[i].displayId in l.rings && l.rings[l.publications[i].displayId].publication == i
  }

  /** The entry is for this ring: same owner, and its reply names the ring's generation. */
  ghost predicate NamesRing(e: Entry, ring: Ring) {
    e.request.owner == ring.owner && e.reply.ringGeneration == ring.ringGeneration
  }

  /** A ring that can publish is the one its display's entry names. */
  ghost predicate EnabledIsNamed(v: Server) {
    forall id | v.rings.CanPublish(id) :: id in v.entries && NamesRing(v.entries[id], v.rings.rings[id])
  }

  ghost predicate EntrySound(l: Lifetime, id: nat, e: Entry) {
    && e.request.owner.displayId == id && e.request.owner.generation != 0 && e.request.cookie != 0
    && (e.reply.ringGeneration != 0 ==>
          && e.reply.cookie == e.request.cookie && e.reply.displayGeneration == e.request.owner.generation
          && e.reply.ringGeneration <= |l.publications|)
  }

  ghost predicate Entries(v: Server) {
    forall id | id in v.entries :: EntrySound(v.rings, id, v.entries[id])
  }

  ghost predicate RingInv(v: Server) {
    Issued(v.rings) && EnabledOnTable(v.rings) && EnabledIsNamed(v) && Entries(v)
  }

  /** Replies and enabled rings match in both directions. */
  ghost predicate Synchronized(v: Server) {
    && EnabledIsNamed(v)
    && forall id | id in v.entries && v.entries[id].reply.ringGeneration != 0 ::
         v.rings.CanPublish(id) && NamesRing(v.entries[id], v.rings.rings[id])
  }

  // ---------------------------------------------------------------- retiring

  /** Publications only ever go from enabled to disabled, and keep who they were made for. */
  ghost predicate Ages(p: seq<Publication>, q: seq<Publication>) {
    && |p| <= |q|
    && forall i | 0 <= i < |p| ::
         && q[i].displayId == p[i].displayId && q[i].ringGeneration == p[i].ringGeneration
         && (q[i].enabled ==> p[i].enabled)
  }

  lemma RetireInv(l: Lifetime, ids: set<nat>)
    requires Issued(l) && EnabledOnTable(l)
    ensures Issued(Retire(l, ids)) && EnabledOnTable(Retire(l, ids))
  {
  }

  /** Retiring rings leaves exactly the others able to publish. */
  lemma RetireCanPublish(l: Lifetime, ids: set<nat>, id: nat)
    requires Issued(l)
    ensures Retire(l, ids).CanPublish(id) <==> id !in ids && l.CanPublish(id)
  {
  }

  lemma RetireAges(l: Lifetime, ids: set<nat>)
    ensures Ages(l.publications, Retire(l, ids).publications) && |Retire(l, ids).publications| == |l.publications|
  {
  }

  lemma RetireServerInv(v: Server, ids: set<nat>)
    requires RingInv(v)
    ensures RingInv(v.(rings := Retire(v.rings, ids)))
  {
    hide Retire, Issued, EnabledOnTable;
    RetireInv(v.rings, ids);
    RetireAges(v.rings, ids);
    RetireKeepsRings(v.rings, ids);
    forall id ensures Retire(v.rings, ids).CanPublish(id) <==> id !in ids && v.rings.CanPublish(id) {
      RetireCanPublish(v.rings, ids, id);
    }
  }

  lemma RetireKeepsRings(l: Lifetime, ids: set<nat>)
    ensures Retire(l, ids).rings == l.rings - ids && Retire(l, ids).nextRingGeneration == l.nextRingGeneration
  {
  }

  lemma DisableInv(v: Server, publication: nat)
    requires RingInv(v)
    ensures RingInv(v.(rings := v.rings.(publications := Disabled(v.rings.publications, {publication}))))
  {
  }

  // ---------------------------------------------------------------- reaping

  lemma ReapInv(v: Server, s: L.State, now: int)
    requires RingInv(v)
    ensures RingInv(Reap(v, s, now)) && Synchronized(Reap(v, s, now))
  {
    hide Retire, Owned, Issued, EnabledOnTable;
    var v' := Reap(v, s, now);
    var ids := set id | id in v.entries && ReapRetires(v, s, now, id);
    RetireInv(v.rings, ids);
    RetireAges(v.rings, ids);
    RetireKeepsRings(v.rings, ids);
    forall id ensures v'.rings.CanPublish(id) <==> id !in ids && v.rings.CanPublish(id) {
      RetireCanPublish(v.rings, ids, id);
    }
  }

  lemma ReapedOwners(v: Server, s: L.State, now: int, o: Owner)
    requires RingInv(v) && Owned(s, o, now) && o.displayId in Reap(v, s, now).entries
    ensures Reap(v, s, now).entries[o.displayId].request.owner == o
  {
  }

  // ---------------------------------------------------------------- registering and clearing

  lemma RegisterIssues(l: Lifetime, s: L.State, o: Owner, now: int)
    requires Issued(l) && EnabledOnTable(l) && RegistrationStatusOf(l, s, o, true, now) == Registered
    ensures var l' := Register(l, s, o, true, now);
            && Issued(l') && EnabledOnTable(l') && l'.CanPublish(o.displayId)
            && |l'.publications| == |l.publications| + 1 && Ages(l.publications, l'.publications)
            && l'.rings[o.displayId] == Ring(o, l.nextRingGeneration, |l.publications|)
            && (forall id | l'.CanPublish(id) && id != o.displayId :: l.CanPublish(id) && l'.rings[id] == l.rings[id])
            && (forall id | l.CanPublish(id) && id != o.displayId && Authorized(s, l.rings[id].owner, now) ::
                  l'.CanPublish(id))
  {
    hide Retire, Authorized, Issued, EnabledOnTable;
    var ids := Unavailable(l, s, now) + {o.displayId};
    var cleared := Retire(l, ids);
    RetireInv(l, ids);
    RetireAges(l, ids);
    RetireKeepsRings(l, ids);
    AppendInv(cleared, o);
    forall id ensures cleared.CanPublish(id) <==> id !in ids && l.CanPublish(id) {
      RetireCanPublish(l, ids, id);
    }
    assert o.generation != 0 by { AuthorizedGeneration(s, o, now); }
  }

  lemma AuthorizedGeneration(s: L.State, o: Owner, now: int)
    requires Authorized(s, o, now)
    ensures o.generation != 0
  {
  }

  lemma AppendInv(l: Lifetime, o: Owner)
    requires Issued(l) && EnabledOnTable(l) && o.displayId !in l.rings && l.nextRingGeneration != 0
    ensures var l' := Lifetime(l.rings[o.displayId := Ring(o, l.nextRingGeneration, |l.publications|)],
                               l.publications + [Publication(o.displayId, l.nextRingGeneration, true)],
                               NextRingGeneration(l.nextRingGeneration));
            && (o.generation != 0 ==> Issued(l')) && EnabledOnTable(l') && l'.CanPublish(o.displayId)
            && Ages(l.publications, l'.publications)
            && forall id | id != o.displayId :: l'.CanPublish(id) <==> l.CanPublish(id)
  {
  }

  /** Retiring what an entry names silences the display, and nothing else. */
  lemma RetireNamed(v: Server, id: nat, displayGeneration: nat, ringGeneration: nat)
    requires RingInv(v)
    requires v.rings.CanPublish(id) ==> v.rings.Matches(id, displayGeneration, ringGeneration)
    ensures var l' := RetireRing(v.rings, id, displayGeneration, ringGeneration);
            && Issued(l') && EnabledOnTable(l') && Ages(v.rings.publications, l'.publications)
            && |l'.publications| == |v.rings.publications| && !l'.CanPublish(id)
            && forall d | d != id :: (l'.CanPublish(d) <==> v.rings.CanPublish(d)) &&
                                     (l'.CanPublish(d) ==> l'.rings[d] == v.rings.rings[d])
  {
    hide Retire, Issued, EnabledOnTable;
    RetireInv(v.rings, {id});
    RetireAges(v.rings, {id});
    RetireKeepsRings(v.rings, {id});
    forall d ensures Retire(v.rings, {id}).CanPublish(d) <==> d != id && v.rings.CanPublish(d) {
      RetireCanPublish(v.rings, {id}, d);
    }
  }

  /** Every entry is vouched for right now, as after a reap. */
  ghost predicate AllOwned(v: Server, s: L.State, now: int) {
    forall id | id in v.entries :: Owned(s, v.entries[id].request.owner, now)
  }

  /** What a registration that does not succeed leaves: a tombstone, and no ring that can publish. */
  lemma RefusedBindInv(v: Server, s: L.State, peer: Peer, r: RegisterRequest, imported: bool, now: int)
    requires RingInv(v) && Synchronized(v) && r.Valid()
    requires r.owner.displayId in v.entries ==> v.entries[r.owner.displayId].request.owner == r.owner
    requires !imported || RegistrationStatusOf(v.rings, s, r.owner, true, now) != Registered
    ensures var after := Bind(v, s, peer, r, imported, now).server; RingInv(after) && Synchronized(after)
  {
    hide Issued, EnabledOnTable, Register, RegistrationStatusOf, RetireRing;
    var id := r.owner.displayId;
    var previous := if id in v.entries then v.entries[id] else Entry(peer, r, NO_REPLY);
    RetireNamed(v, id, previous.request.owner.generation, previous.reply.ringGeneration);
  }

  lemma DoneBindInv(v: Server, s: L.State, peer: Peer, r: RegisterRequest, now: int)
    requires RingInv(v) && Synchronized(v) && AllOwned(v, s, now) && r.Valid()
    requires RegistrationStatusOf(v.rings, s, r.owner, true, now) == Registered
    ensures var after := Bind(v, s, peer, r, true, now).server; RingInv(after) && Synchronized(after)
  {
    hide Issued, EnabledOnTable, Register, RegistrationStatusOf, RetireRing, Owned;
    RegisterIssues(v.rings, s, r.owner, now);
    IssuesNonzero(v.rings, s, r.owner, now);
  }

  lemma BindInv(v: Server, s: L.State, peer: Peer, r: RegisterRequest, imported: bool, now: int)
    requires RingInv(v) && Synchronized(v) && AllOwned(v, s, now) && r.Valid()
    requires r.owner.displayId in v.entries ==> v.entries[r.owner.displayId].request.owner == r.owner
    ensures RingInv(Bind(v, s, peer, r, imported, now).server) &&
            Synchronized(Bind(v, s, peer, r, imported, now).server)
  {
    hide RingInv, Synchronized, AllOwned, Bind, RegistrationStatusOf;
    if imported && RegistrationStatusOf(v.rings, s, r.owner, true, now) == Registered {
      DoneBindInv(v, s, peer, r, now);
    } else {
      RefusedBindInv(v, s, peer, r, imported, now);
    }
  }

  lemma IssuesNonzero(l: Lifetime, s: L.State, o: Owner, now: int)
    requires Issued(l) && RegistrationStatusOf(l, s, o, true, now) == Registered
    ensures l.nextRingGeneration == |l.publications| + 1
  {
  }

  lemma ReapedAllOwned(v: Server, s: L.State, now: int)
    ensures AllOwned(Reap(v, s, now), s, now)
  {
  }

  lemma RegisterRingInv(v: Server, s: L.State, peer: Peer, r: RegisterRequest, imported: bool, now: int)
    requires RingInv(v)
    ensures var after := RegisterRing(v, s, peer, r, imported, now).server;
            RingInv(after) && (after == v || Synchronized(after))
  {
    hide RingInv, Synchronized, Reap, Bind, Owned, AllOwned;
    if peer.Valid() && r.Valid() && Owned(s, r.owner, now) {
      var v1 := Reap(v, s, now);
      ReapInv(v, s, now);
      ReapedAllOwned(v, s, now);
      if r.owner.displayId in v1.entries {
        ReapedOwners(v, s, now, r.owner);
      }
      BindInv(v1, s, peer, r, imported, now);
    }
  }

  lemma ClearEntryInv(v: Server, peer: Peer, r: ClearRequest)
    requires RingInv(v) && Synchronized(v) && r.displayId in v.entries && r.Valid()
    ensures RingInv(ClearEntry(v, peer, r).server) && Synchronized(ClearEntry(v, peer, r).server)
  {
    hide Issued, EnabledOnTable, RetireRing;
    var e := v.entries[r.displayId];
    assert EntrySound(v.rings, r.displayId, e);
    if e.reply.ringGeneration != 0 {
      RetireNamed(v, r.displayId, e.request.owner.generation, e.reply.ringGeneration);
    } else {
      NotNamed(v, r.displayId);
    }
  }

  lemma NotNamed(v: Server, id: nat)
    requires RingInv(v) && id in v.entries && v.entries[id].reply.ringGeneration == 0
    ensures !v.rings.CanPublish(id)
  {
  }

  lemma ClearRingInv(v: Server, s: L.State, peer: Peer, r: ClearRequest, now: int)
    requires RingInv(v)
    ensures var after := ClearRing(v, s, peer, r, now).server;
            RingInv(after) && (after == v || Synchronized(after))
  {
    hide Reap, Owned, ClearEntry, Issued, EnabledOnTable;
    if peer.Valid() && r.Valid() && Owned(s, r.Claimant(), now) {
      var v1 := Reap(v, s, now);
      ReapInv(v, s, now);
      if r.displayId in v1.entries {
        ClearEntryInv(v1, peer, r);
      }
    }
  }

  lemma ResetInv(v: Server)
    requires RingInv(v)
    ensures RingInv(ResetServer(v)) && Synchronized(ResetServer(v))
    ensures forall id :: !ResetServer(v).rings.CanPublish(id)
  {
    hide Retire, Issued, EnabledOnTable;
    var ids := set id | id in v.entries &&
      v.rings.Matches(id, v.entries[id].request.owner.generation, v.entries[id].reply.ringGeneration);
    RetireInv(v.rings, ids);
    RetireAges(v.rings, ids);
    RetireKeepsRings(v.rings, ids);
    forall id ensures !Retire(v.rings, ids).CanPublish(id) {
      RetireCanPublish(v.rings, ids, id);
    }
  }

  lemma ApplyInv(v: Server, step: Step)
    requires RingInv(v)
    ensures RingInv(Apply(v, step))
  {
    hide RingInv, Synchronized, Reap, Retire, RegisterRing, ClearRing, ResetServer, Disabled;
    var Step(op, s, now) := step;
    match op
    case DoRegister(peer, r, imported) => RegisterRingInv(v, s, peer, r, imported, now);
    case DoClear(peer, r) => ClearRingInv(v, s, peer, r, now);
    case DoReap => ReapInv(v, s, now);
    case DoReset => ResetInv(v);
    case DoSnapshot(id, _) => RetireServerInv(v, {id});
    case DoRetireRing(id, _, _) => RetireServerInv(v, {id});
    case DoRetireDisplay(id, _) => RetireServerInv(v, {id});
    case DoRetireUnavailable => RetireServerInv(v, Unavailable(v.rings, s, now));
    case DoResetTable => RetireServerInv(v, v.rings.rings.Keys);
    case DoDisable(publication) => DisableInv(v, publication);
  }

  /** Whatever the store does meanwhile, every run keeps the invariant. */
  lemma {:induction false} RunInv(v: Server, steps: seq<Step>)
    requires RingInv(v)
    ensures RingInv(Run(v, steps))
    decreases |steps|
  {
    hide RingInv, Apply;
    if steps != [] {
      ApplyInv(v, steps[0]);
      RunInv(Apply(v, steps[0]), steps[1..]);
    }
  }

  /** After a reap, a reset, and every request that gets past its checks, replies name exactly the enabled rings. */
  lemma ServerStepsSynchronize(v: Server, step: Step)
    requires RingInv(v) && (step.op.DoRegister? || step.op.DoClear? || step.op.DoReap? || step.op.DoReset?)
    ensures Synchronized(Apply(v, step)) || (Apply(v, step) == v && (step.op.DoRegister? || step.op.DoClear?))
  {
    hide RingInv, Synchronized, Reap, RegisterRing, ClearRing, ResetServer;
    var Step(op, s, now) := step;
    match op
    case DoRegister(peer, r, imported) => RegisterRingInv(v, s, peer, r, imported, now);
    case DoClear(peer, r) => ClearRingInv(v, s, peer, r, now);
    case DoReap => ReapInv(v, s, now);
    case DoReset => ResetInv(v);
  }

  // ---------------------------------------------------------------- publications over a run

  lemma AgesTransitive(p: seq<Publication>, q: seq<Publication>, r: seq<Publication>)
    requires Ages(p, q) && Ages(q, r)
    ensures Ages(p, r)
  {
  }

  lemma BindAges(v: Server, s: L.State, peer: Peer, r: RegisterRequest, imported: bool, now: int)
    requires RingInv(v)
    ensures Ages(v.rings.publications, Bind(v, s, peer, r, imported, now).server.rings.publications)
  {
    hide Issued, EnabledOnTable, Retire, Register, RegistrationStatusOf, Owned;
    RetireAges(v.rings, {r.owner.displayId});
    if RegistrationStatusOf(v.rings, s, r.owner, true, now) == Registered {
      RegisterIssues(v.rings, s, r.owner, now);
    }
  }

  lemma ReapAges(v: Server, s: L.State, now: int)
    ensures Ages(v.rings.publications, Reap(v, s, now).rings.publications)
    ensures |Reap(v, s, now).rings.publications| == |v.rings.publications|
  {
  }

  lemma ApplyAges(v: Server, step: Step)
    requires RingInv(v)
    ensures Ages(v.rings.publications, Apply(v, step).rings.publications)
  {
    hide RingInv, Reap, Retire, Bind, Disabled, Owned, Ages;
    var Step(op, s, now) := step;
    var p := v.rings.publications;
    ReapAges(v, s, now);
    ReapInv(v, s, now);
    AgesReflexive(p);
    match op
    case DoRegister(peer, r, imported) =>
      var v1 := Reap(v, s, now);
      BindAges(v1, s, peer, r, imported, now);
      AgesTransitive(p, v1.rings.publications, Bind(v1, s, peer, r, imported, now).server.rings.publications);
    case DoClear(peer, r) =>
      var v1 := Reap(v, s, now);
      RetireAges(v1.rings, {r.displayId});
      AgesTransitive(p, v1.rings.publications, Retire(v1.rings, {r.displayId}).publications);
    case DoReap =>
    case DoReset => ResetAges(v);
    case DoSnapshot(id, _) => RetireAges(v.rings, {id});
    case DoRetireRing(id, _, _) => RetireAges(v.rings, {id});
    case DoRetireDisplay(id, _) => RetireAges(v.rings, {id});
    case DoRetireUnavailable => RetireAges(v.rings, Unavailable(v.rings, s, now));
    case DoResetTable => RetireAges(v.rings, v.rings.rings.Keys);
    case DoDisable(publication) => DisabledAges(p, {publication});
  }

  lemma AgesReflexive(p: seq<Publication>)
    ensures Ages(p, p)
  {
  }

  lemma DisabledAges(p: seq<Publication>, which: set<nat>)
    ensures Ages(p, Disabled(p, which))
  {
  }

  lemma ResetAges(v: Server)
    ensures Ages(v.rings.publications, ResetServer(v).rings.publications)
  {
  }

  /** Over every run publications keep their display and generation, and never come back once disabled. */
  lemma {:induction false} RunAges(v: Server, steps: seq<Step>)
    requires RingInv(v)
    ensures Ages(v.rings.publications, Run(v, steps).rings.publications)
    decreases |steps|
  {
    hide RingInv, Apply, Ages;
    if steps == [] {
      AgesReflexive(v.rings.publications);
    } else {
      var v1 := Apply(v, steps[0]);
      ApplyInv(v, steps[0]);
      ApplyAges(v, steps[0]);
      RunAges(v1, steps[1..]);
      AgesTransitive(v.rings.publications, v1.rings.publications, Run(v1, steps[1..]).rings.publications);
    }
  }

  lemma FreshInv()
    ensures RingInv(FRESH_SERVER)
  {
  }

  /**
   After every run from a fresh server, every publication ever made has a nonzero
   generation; and if it is still enabled, it is the one of the ring on the table
   for its display, and that display's entry names it with that ring's owner.
   A registration that has just succeeded is one of them.
   */
  lemma EnabledPublicationIsCurrent(steps: seq<Step>, i: nat)
    requires i < |Run(FRESH_SERVER, steps).rings.publications|
    ensures var v := Run(FRESH_SERVER, steps); var p := v.rings.publications[i];
            && 1 <= p.ringGeneration <= RING_GENERATIONS
            && (p.enabled ==>
                  && p.displayId in v.rings.rings && v.rings.rings[p.displayId].publication == i
                  && v.rings.rings[p.displayId].ringGeneration == p.ringGeneration
                  && p.displayId in v.entries && NamesRing(v.entries[p.displayId], v.rings.rings[p.displayId]))
  {
    hide Apply, Run;
    FreshInv();
    RunInv(FRESH_SERVER, steps);
    var v := Run(FRESH_SERVER, steps);
    if v.rings.publications[i].enabled {
      assert v.rings.CanPublish(v.rings.publications[i].displayId);
    }
  }

  /** After every run no two publications share a ring generation, and no display has two that are enabled. */
  lemma PublicationsAreExclusive(steps: seq<Step>, i: nat, j: nat)
    requires var p := Run(FRESH_SERVER, steps).rings.publications; i < |p| && j < |p| && i != j
    ensures var p := Run(FRESH_SERVER, steps).rings.publications;
            && p[i].ringGeneration != p[j].ringGeneration
            && !(p[i].enabled && p[j].enabled && p[i].displayId == p[j].displayId)
  {
    hide Apply, Run;
    FreshInv();
    RunInv(FRESH_SERVER, steps);
  }

  // ---------------------------------------------------------------- the cookie mark

  /** `e1` is `e` later: same peer and owner, a mark no lower, and at the same mark the same reply or none. */
  ghost predicate Follows(e: Entry, e1: Entry) {
    && e1.peer == e.peer && e1.request.owner == e.request.owner && e.request.cookie <= e1.request.cookie
    && (e1.request.cookie == e.request.cookie ==>
          e1.request == e.request && (e1.reply == e.reply || e1.reply == NO_REPLY))
  }

  /** The display's entry is still there, and follows from `e`. */
  ghost predicate Bound(v: Server, id: nat, e: Entry) {
    id in v.entries && Follows(e, v.entries[id])
  }

  lemma FollowsTransitive(a: Entry, b: Entry, c: Entry)
    requires Follows(a, b) && Follows(b, c)
    ensures Follows(a, c)
  {
  }

  lemma ReapBinds(v: Server, s: L.State, now: int, id: nat)
    requires id in v.entries && Owned(s, v.entries[id].request.owner, now)
    ensures Bound(Reap(v, s, now), id, v.entries[id])
  {
  }

  lemma RegisterBinds(v: Server, s: L.State, peer: Peer, r: RegisterRequest, imported: bool, now: int, id: nat)
    requires RingInv(v) && id in v.entries && Owned(s, v.entries[id].request.owner, now)
    ensures Bound(RegisterRing(v, s, peer, r, imported, now).server, id, v.entries[id])
  {
    hide RingInv, Reap, Owned, Register, RegistrationStatusOf, RetireRing;
    if peer.Valid() && r.Valid() && Owned(s, r.owner, now) {
      var v1 := Reap(v, s, now);
      ReapBinds(v, s, now, id);
      if r.owner.displayId in v1.entries {
        ReapedOwners(v, s, now, r.owner);
      }
    }
  }

  lemma ClearBinds(v: Server, s: L.State, peer: Peer, r: ClearRequest, now: int, id: nat)
    requires RingInv(v) && id in v.entries && Owned(s, v.entries[id].request.owner, now)
    ensures Bound(ClearRing(v, s, peer, r, now).server, id, v.entries[id])
  {
    hide RingInv, Reap, Owned, RetireRing;
    if peer.Valid() && r.Valid() && Owned(s, r.Claimant(), now) {
      ReapBinds(v, s, now, id);
    }
  }

  lemma ApplyBinds(v: Server, step: Step, id: nat)
    requires RingInv(v) && id in v.entries && Owned(step.store, v.entries[id].request.owner, step.now)
    ensures Bound(Apply(v, step), id, v.entries[id])
  {
    hide RingInv, Reap, Owned, RegisterRing, ClearRing, Retire;
    var Step(op, s, now) := step;
    match op
    case DoRegister(peer, r, imported) => RegisterBinds(v, s, peer, r, imported, now, id);
    case DoClear(peer, r) => ClearBinds(v, s, peer, r, now, id);
    case DoReap => ReapBinds(v, s, now, id);
    case _ =>
  }

  /** The store vouches for `o` at every step. */
  ghost predicate ContinuouslyOwned(steps: seq<Step>, o: Owner) {
    forall i | 0 <= i < |steps| :: Owned(steps[i].store, o, steps[i].now)
  }

  /**
   While one lease, capability and display generation stay authorized, the entry
   stays, its peer does not change and its cookie mark never falls.
   */
  lemma {:induction false} MarkNeverFalls(v: Server, steps: seq<Step>, id: nat)
    requires RingInv(v) && id in v.entries && ContinuouslyOwned(steps, v.entries[id].request.owner)
    ensures Bound(Run(v, steps), id, v.entries[id])
    decreases |steps|
  {
    hide RingInv, Apply, Owned;
    if steps != [] {
      var v1 := Apply(v, steps[0]);
      assert Owned(steps[0].store, v.entries[id].request.owner, steps[0].now);
      ApplyInv(v, steps[0]);
      ApplyBinds(v, steps[0], id);
      assert ContinuouslyOwned(steps[1..], v.entries[id].request.owner);
      MarkNeverFalls(v1, steps[1..], id);
      FollowsTransitive(v.entries[id], v1.entries[id], Run(v1, steps[1..]).entries[id]);
    }
  }

  /**
   After any such run, a registration at or below a mark the entry once had makes
   no ring, and succeeds only as an exact replay from the same peer, answered with
   the reply of that time.
   */
  lemma NothingBelowTheMark(v: Server, steps: seq<Step>, id: nat, last: Step)
    requires RingInv(v) && id in v.entries && ContinuouslyOwned(steps + [last], v.entries[id].request.owner)
    requires last.op.DoRegister? && last.op.request.owner.displayId == id
    requires last.op.request.cookie <= v.entries[id].request.cookie
    ensures var before, e := Run(v, steps), v.entries[id];
            var outcome := RegisterRing(before, last.store, last.op.peer, last.op.request, last.op.imported, last.now);
            && |outcome.server.rings.publications| == |before.rings.publications|
            && (outcome.status == Success ==>
                  && last.op.request == e.request && last.op.peer == e.peer
                  && outcome.reply == e.reply && e.reply.ringGeneration != 0)
  {
    hide RingInv, Owned, Run, Reap, Bind;
    var e, o := v.entries[id], v.entries[id].request.owner;
    assert Owned(last.store, o, last.now) by { assert (steps + [last])[|steps|] == last; }
    assert ContinuouslyOwned(steps, o) by {
      forall i | 0 <= i < |steps| ensures Owned(steps[i].store, o, steps[i].now) {
        assert (steps + [last])[i] == steps[i];
      }
    }
    MarkNeverFalls(v, steps, id);
    var before := Run(v, steps);
    ReapBinds(before, last.store, last.now, id);
    FollowsTransitive(e, before.entries[id], Reap(before, last.store, last.now).entries[id]);
    ReapAges(before, last.store, last.now);
  }
}

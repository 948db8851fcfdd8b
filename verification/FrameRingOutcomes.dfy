/** Which ring requests are granted, what a granted one does, and what a clear keeps true afterwards. */
module FrameRingOutcomes {
  import L = LeaseStoreSpec
  import opened FrameRingSpec
  import opened FrameRingProtocol

  // ---------------------------------------------------------------- what is vouched for

  /** The display has an entry, and the store still vouches for the owner in it. */
  ghost predicate Held(v: Server, s: L.State, now: int, id: nat) {
    id in v.entries && Owned(s, v.entries[id].request.owner, now)
  }

  lemma EnabledIsHeldIff(v: Server, s: L.State, now: int, id: nat)
    requires RingInv(v) && v.rings.CanPublish(id)
    ensures id in v.entries && v.rings.rings[id].owner == v.entries[id].request.owner
    ensures v.entries[id].reply.ringGeneration == v.rings.rings[id].ringGeneration
    ensures Authorized(s, v.rings.rings[id].owner, now) <==> Held(v, s, now, id)
  {
    hide Owned;
  }

  /**
   A reap silences exactly the rings whose owner the store no longer vouches for, and keeps
   exactly the entries of the owners it does vouch for.
   */
  lemma ReapExact(v: Server, s: L.State, now: int, id: nat)
    requires RingInv(v)
    ensures var v' := Reap(v, s, now);
            && (v'.rings.CanPublish(id) <==> v.rings.CanPublish(id) && Authorized(s, v.rings.rings[id].owner, now))
            && (v'.rings.CanPublish(id) ==> v'.rings.rings[id] == v.rings.rings[id])
            && (id in v'.entries <==> Held(v, s, now, id))
            && (id in v'.entries ==>
                  && v'.entries[id].peer == v.entries[id].peer && v'.entries[id].request == v.entries[id].request
                  && (v'.entries[id].reply.ringGeneration != 0 <==> v.rings.CanPublish(id))
                  && (v.rings.CanPublish(id) ==> v'.entries[id].reply == v.entries[id].reply))
  {
    hide Retire, Owned, Issued, EnabledOnTable;
    var ids := set id | id in v.entries && ReapRetires(v, s, now, id);
    IssuedOf(v);
    RetireCanPublish(v.rings, ids, id);
    RetireKeepsRings(v.rings, ids);
    ReapInv(v, s, now);
    if v.rings.CanPublish(id) {
      EnabledIsHeldIff(v, s, now, id);
      RingGenerations(v, id);
    }
  }

  lemma IssuedOf(v: Server)
    requires RingInv(v)
    ensures Issued(v.rings) && EnabledOnTable(v.rings)
  {
  }

  lemma RingGenerations(v: Server, id: nat)
    requires RingInv(v) && v.rings.CanPublish(id)
    ensures v.rings.rings[id].ringGeneration != 0 && v.rings.rings[id].owner.generation != 0
  {
  }

  lemma ReapedOwner(v: Server, s: L.State, now: int, o: Owner)
    requires RingInv(v) && Owned(s, o, now) && Held(v, s, now, o.displayId)
    ensures v.entries[o.displayId].request.owner == o && o.generation != 0
  {
  }

  // ---------------------------------------------------------------- clear and cancel

  /** A ring request leaves a display as a reap would: same entry, and able to publish exactly as then. */
  ghost predicate AsReaped(v: Server, s: L.State, now: int, v': Server, d: nat) {
    var v1 := Reap(v, s, now);
    && (d in v'.entries <==> d in v1.entries) && (d in v1.entries ==> v'.entries[d] == v1.entries[d])
    && (v'.rings.CanPublish(d) <==> v1.rings.CanPublish(d))
    && (v1.rings.CanPublish(d) ==> v'.rings.rings[d] == v1.rings.rings[d])
  }

  /** The claim that a clear or cancel makes, told from the server before it. */
  ghost predicate Clearable(v: Server, s: L.State, peer: Peer, r: ClearRequest, now: int) {
    var id := r.displayId;
    if !Held(v, s, now, id) then r.flags == 1
    else
      && v.entries[id].peer == peer
      && if r.flags == 1 then v.entries[id].request.cookie <= r.identity.cookie
         else
           && v.entries[id].request.cookie == r.identity.cookie
           && v.rings.CanPublish(id) && v.rings.rings[id].ringGeneration == r.identity.ringGeneration
  }

  /**
   A clear succeeds exactly for the peer that registered it, if the ring it names is the one
   that can publish; a cancel, for any cookie not below that peer's mark, or if nobody holds
   the display.
   */
  lemma ClearGrantedIff(v: Server, s: L.State, peer: Peer, r: ClearRequest, now: int)
    requires RingInv(v)
    ensures ClearRing(v, s, peer, r, now).status == Success <==>
              peer.Valid() && r.Valid() && Owned(s, r.Claimant(), now) && Clearable(v, s, peer, r, now)
  {
    hide RingInv, Reap, Owned, RetireRing;
    if peer.Valid() && r.Valid() && Owned(s, r.Claimant(), now) {
      var id := r.displayId;
      ReapExact(v, s, now, id);
      if Held(v, s, now, id) {
        ReapedOwner(v, s, now, r.Claimant());
        if v.rings.CanPublish(id) {
          EnabledIsHeldIff(v, s, now, id);
        }
      }
    }
  }

  /** The entry of a display the requester holds, cleared. */
  lemma EntryCleared(v: Server, peer: Peer, r: ClearRequest)
    requires RingInv(v) && Synchronized(v) && r.displayId in v.entries && ClearEntry(v, peer, r).status == Success
    ensures var v', id := ClearEntry(v, peer, r).server, r.displayId;
            && !v'.rings.CanPublish(id) && id in v'.entries
            && v'.entries[id] == v.entries[id].(request := v.entries[id].request.(cookie := r.identity.cookie),
                                                reply := NO_REPLY)
            && v.entries[id].peer == peer && v.entries[id].request.owner.generation == r.identity.displayGeneration
            && v.entries[id].request.cookie <= r.identity.cookie
            && |v'.rings.publications| == |v.rings.publications|
            && forall d | d != id ::
                 && (d in v'.entries <==> d in v.entries) && (d in v.entries ==> v'.entries[d] == v.entries[d])
                 && (v'.rings.CanPublish(d) <==> v.rings.CanPublish(d))
                 && (v.rings.CanPublish(d) ==> v'.rings.rings[d] == v.rings.rings[d])
  {
    hide RetireRing, Issued, EnabledOnTable;
    var e, id := v.entries[r.displayId], r.displayId;
    if e.reply.ringGeneration == 0 {
      NotNamed(v, id);
    } else {
      RetireNamed(v, id, e.request.owner.generation, e.reply.ringGeneration);
    }
  }

  /**
   A clear or cancel that succeeds leaves its display unable to publish and its mark at the
   cookie it named, with no reply to replay; every other display is as a reap leaves it.
   */
  lemma ClearSilences(v: Server, s: L.State, peer: Peer, r: ClearRequest, now: int)
    requires RingInv(v) && ClearRing(v, s, peer, r, now).status == Success
    ensures var v', id := ClearRing(v, s, peer, r, now).server, r.displayId;
            && !v'.rings.CanPublish(id) && id in v'.entries
            && v'.entries[id].peer == peer && v'.entries[id].request.owner == r.Claimant()
            && v'.entries[id].request.cookie == r.identity.cookie && v'.entries[id].reply == NO_REPLY
            && |v'.rings.publications| == |v.rings.publications|
            && forall d | d != id :: AsReaped(v, s, now, v', d)
  {
    hide RingInv, Synchronized, Reap, Owned, ClearEntry;
    var v1, id := Reap(v, s, now), r.displayId;
    ReapInv(v, s, now);
    ReapAges(v, s, now);
    ReapExact(v, s, now, id);
    if id in v1.entries {
      ReapedOwner(v, s, now, r.Claimant());
      EntryCleared(v1, peer, r);
    } else {
      NoEntryNoRing(v1, id);
    }
  }

  lemma NoEntryNoRing(v: Server, id: nat)
    requires RingInv(v) && id !in v.entries
    ensures !v.rings.CanPublish(id)
  {
  }

  // ---------------------------------------------------------------- after a clear, over any run

  /** The display cannot publish, and its mark, of this owner, is at or above `k`. */
  ghost predicate Silent(v: Server, id: nat, o: Owner, k: nat) {
    !v.rings.CanPublish(id) && id in v.entries && v.entries[id].request.owner == o && v.entries[id].request.cookie >= k
  }

  /** The step registers nothing for the display above cookie `k`. */
  predicate AtOrBelow(step: Step, id: nat, k: nat) {
    step.op.DoRegister? && step.op.request.owner.displayId == id ==> step.op.request.cookie <= k
  }

  lemma BindSpares(v: Server, s: L.State, peer: Peer, r: RegisterRequest, imported: bool, now: int, id: nat)
    requires RingInv(v) && Synchronized(v) && id != r.owner.displayId && !v.rings.CanPublish(id)
    ensures !Bind(v, s, peer, r, imported, now).server.rings.CanPublish(id)
  {
    hide Retire, Register, Issued, EnabledOnTable, RegistrationStatusOf;
    RetireCanPublish(v.rings, {r.owner.displayId}, id);
    if RegistrationStatusOf(v.rings, s, r.owner, true, now) == Registered {
      RegisterIssues(v.rings, s, r.owner, now);
    }
  }

  lemma RegisterKeepsSilent(v: Server, s: L.State, peer: Peer, r: RegisterRequest, imported: bool, now: int, id: nat,
                            k: nat)
    requires RingInv(v) && !v.rings.CanPublish(id) && Held(v, s, now, id) && v.entries[id].request.cookie >= k
    requires r.owner.displayId == id ==> r.cookie <= k
    ensures !RegisterRing(v, s, peer, r, imported, now).server.rings.CanPublish(id)
  {
    hide RingInv, Synchronized, Reap, Owned, Bind;
    if peer.Valid() && r.Valid() && Owned(s, r.owner, now) {
      ReapInv(v, s, now);
      ReapExact(v, s, now, id);
      if id != r.owner.displayId {
        BindSpares(Reap(v, s, now), s, peer, r, imported, now, id);
      }
    }
  }

  lemma ClearKeepsSilent(v: Server, s: L.State, peer: Peer, r: ClearRequest, now: int, id: nat)
    requires RingInv(v) && !v.rings.CanPublish(id)
    ensures !ClearRing(v, s, peer, r, now).server.rings.CanPublish(id)
  {
    hide RingInv, Synchronized, Reap, Owned, Retire;
    if peer.Valid() && r.Valid() && Owned(s, r.Claimant(), now) {
      var v1 := Reap(v, s, now);
      ReapInv(v, s, now);
      ReapExact(v, s, now, id);
      IssuedOf(v1);
      RetireCanPublish(v1.rings, {r.displayId}, id);
    }
  }

  lemma StepKeepsSilent(v: Server, step: Step, id: nat, o: Owner, k: nat)
    requires RingInv(v) && Silent(v, id, o, k) && Owned(step.store, o, step.now) && AtOrBelow(step, id, k)
    ensures Silent(Apply(v, step), id, o, k)
  {
    hide RingInv, Reap, Retire, RegisterRing, ClearRing, Disabled, Owned;
    var Step(op, s, now) := step;
    ApplyBinds(v, step, id);
    IssuedOf(v);
    match op
    case DoRegister(peer, r, imported) => RegisterKeepsSilent(v, s, peer, r, imported, now, id, k);
    case DoClear(peer, r) => ClearKeepsSilent(v, s, peer, r, now, id);
    case DoReap => ReapExact(v, s, now, id);
    case DoReset => ResetInv(v);
    case DoSnapshot(d, _) => RetireCanPublish(v.rings, {d}, id);
    case DoRetireRing(d, _, _) => RetireCanPublish(v.rings, {d}, id);
    case DoRetireDisplay(d, _) => RetireCanPublish(v.rings, {d}, id);
    case DoRetireUnavailable => RetireCanPublish(v.rings, Unavailable(v.rings, s, now), id);
    case DoResetTable => RetireCanPublish(v.rings, v.rings.rings.Keys, id);
    case DoDisable(publication) => DisableSilences(v.rings, publication, id);
  }

  lemma DisableSilences(l: Lifetime, publication: nat, id: nat)
    requires !l.CanPublish(id)
    ensures !l.(publications := Disabled(l.publications, {publication})).CanPublish(id)
  {
  }

  lemma {:induction false} RunKeepsSilent(v: Server, steps: seq<Step>, id: nat, o: Owner, k: nat)
    requires RingInv(v) && Silent(v, id, o, k) && ContinuouslyOwned(steps, o)
    requires forall i | 0 <= i < |steps| :: AtOrBelow(steps[i], id, k)
    ensures Silent(Run(v, steps), id, o, k)
    decreases |steps|
  {
    hide RingInv, Apply, Owned, Silent;
    if steps != [] {
      ApplyInv(v, steps[0]);
      StepKeepsSilent(v, steps[0], id, o, k);
      RunKeepsSilent(Apply(v, steps[0]), steps[1..], id, o, k);
    }
  }

  /**
   While its owner stays authorized, a display cleared or cancelled at cookie `k` stays
   silent over every run that registers nothing for it above `k`: whatever late or
   repeated registrations, clears, lookups and reaps come, and from whichever peer.
   */
  lemma ClearedStaysSilent(v: Server, s: L.State, peer: Peer, r: ClearRequest, now: int, steps: seq<Step>)
    requires RingInv(v) && ClearRing(v, s, peer, r, now).status == Success
    requires ContinuouslyOwned(steps, r.Claimant())
    requires forall i | 0 <= i < |steps| :: AtOrBelow(steps[i], r.displayId, r.identity.cookie)
    ensures !Run(ClearRing(v, s, peer, r, now).server, steps).rings.CanPublish(r.displayId)
  {
    hide RingInv, ClearRing, Run, Owned, AtOrBelow, AsReaped;
    ClearSilences(v, s, peer, r, now);
    ClearRingInv(v, s, peer, r, now);
    RunKeepsSilent(ClearRing(v, s, peer, r, now).server, steps, r.displayId, r.Claimant(), r.identity.cookie);
  }

  /** Whatever else such a run does, a registration at or below `k` after it makes no ring and does not succeed. */
  lemma ClearedIsNotRegistered(v: Server, s: L.State, peer: Peer, r: ClearRequest, now: int, steps: seq<Step>,
                               last: Step)
    requires RingInv(v) && ClearRing(v, s, peer, r, now).status == Success
    requires ContinuouslyOwned(steps + [last], r.Claimant())
    requires last.op.DoRegister? && last.op.request.owner.displayId == r.displayId
    requires last.op.request.cookie <= r.identity.cookie
    ensures var before := Run(ClearRing(v, s, peer, r, now).server, steps);
            var outcome := RegisterRing(before, last.store, last.op.peer, last.op.request, last.op.imported, last.now);
            && outcome.status != Success
            && |outcome.server.rings.publications| == |before.rings.publications|
  {
    hide RingInv, ClearRing, RegisterRing, Run, Owned, AsReaped;
    ClearSilences(v, s, peer, r, now);
    ClearRingInv(v, s, peer, r, now);
    NothingBelowTheMark(ClearRing(v, s, peer, r, now).server, steps, r.displayId, last);
  }

  // ---------------------------------------------------------------- registration

  /**
   A registration succeeds exactly if the display is free, or held by the same peer, and it
   brings a cookie above the mark with resources that import, while a generation is left; or
   if it repeats the request whose ring can still publish.
   */
  lemma RegisterGrantedIff(v: Server, s: L.State, peer: Peer, r: RegisterRequest, imported: bool, now: int)
    requires RingInv(v)
    ensures var id := r.owner.displayId;
            RegisterRing(v, s, peer, r, imported, now).status == Success <==>
              && peer.Valid() && r.Valid() && Owned(s, r.owner, now)
              && if !Held(v, s, now, id) || r.cookie > v.entries[id].request.cookie
                 then
                   && imported && |v.rings.publications| < RING_GENERATIONS
                   && (Held(v, s, now, id) ==> v.entries[id].peer == peer)
                 else v.entries[id].peer == peer && v.entries[id].request == r && v.rings.CanPublish(id)
  {
    hide RingInv, Reap, Owned, RetireRing, Register;
    if peer.Valid() && r.Valid() && Owned(s, r.owner, now) {
      var id := r.owner.displayId;
      ReapExact(v, s, now, id);
      ReapKeepsCounter(v, s, now);
      if Held(v, s, now, id) {
        ReapedOwner(v, s, now, r.owner);
      }
    }
  }

  lemma ReapKeepsCounter(v: Server, s: L.State, now: int)
    requires RingInv(v)
    ensures Reap(v, s, now).rings.nextRingGeneration != 0 <==> |v.rings.publications| < RING_GENERATIONS
    ensures Reap(v, s, now).rings.nextRingGeneration == v.rings.nextRingGeneration
  {
  }

  /**
   A registration above the mark that succeeds makes one ring, under the next generation,
   for the peer, owner and cookie that asked; it can publish, and what could publish for the
   display before cannot. Every other display is as a reap leaves it.
   */
  lemma RegisterTakesEffect(v: Server, s: L.State, peer: Peer, r: RegisterRequest, imported: bool, now: int)
    requires RingInv(v) && RegisterRing(v, s, peer, r, imported, now).status == Success
    requires Held(v, s, now, r.owner.displayId) ==> r.cookie > v.entries[r.owner.displayId].request.cookie
    ensures var outcome, id, n := RegisterRing(v, s, peer, r, imported, now), r.owner.displayId, |v.rings.publications|;
            var v' := outcome.server;
            && outcome.reply == Reply(r.cookie, r.owner.generation, n + 1)
            && id in v'.entries && v'.entries[id] == Entry(peer, r, outcome.reply)
            && |v'.rings.publications| == n + 1 && v'.rings.publications[n] == Publication(id, n + 1, true)
            && v'.rings.CanPublish(id) && v'.rings.rings[id] == Ring(r.owner, n + 1, n)
            && forall d | d != id :: AsReaped(v, s, now, v', d)
  {
    hide RingInv, Synchronized, Reap, Owned, RetireRing, Register, Authorized, Issued, EnabledOnTable;
    var v1, id := Reap(v, s, now), r.owner.displayId;
    ReapInv(v, s, now);
    ReapAges(v, s, now);
    ReapExact(v, s, now, id);
    IssuedOf(v1);
    RegisterIssues(v1.rings, s, r.owner, now);
    IssuesNonzero(v1.rings, s, r.owner, now);
    RegisterAppends(v1.rings, s, r.owner, now);
    forall d | d != id && v1.rings.CanPublish(d) ensures Authorized(s, v1.rings.rings[d].owner, now) {
      ReapExact(v, s, now, d);
    }
  }

  lemma RegisterAppends(l: Lifetime, s: L.State, o: Owner, now: int)
    requires RegistrationStatusOf(l, s, o, true, now) == Registered
    ensures var p := Register(l, s, o, true, now).publications;
            |p| == |l.publications| + 1 && p[|l.publications|] == Publication(o.displayId, l.nextRingGeneration, true)
  {
  }

  /** The registration gets as far as taking its cookie. */
  ghost predicate TakesCookie(v: Server, s: L.State, peer: Peer, r: RegisterRequest, now: int) {
    var id := r.owner.displayId;
    && peer.Valid() && r.Valid() && Owned(s, r.owner, now)
    && (Held(v, s, now, id) ==> v.entries[id].peer == peer && r.cookie > v.entries[id].request.cookie)
  }

  /** If it then fails, for want of resources or of a generation, the cookie is spent and the display silenced. */
  lemma FailedRegistrationSilences(v: Server, s: L.State, peer: Peer, r: RegisterRequest, imported: bool, now: int)
    requires RingInv(v) && TakesCookie(v, s, peer, r, now)
    requires RegisterRing(v, s, peer, r, imported, now).status != Success
    ensures RegisterRing(v, s, peer, r, imported, now).status == if imported then Unauthorized else ImportFailed
    ensures var v', id := RegisterRing(v, s, peer, r, imported, now).server, r.owner.displayId;
            && !v'.rings.CanPublish(id) && id in v'.entries && v'.entries[id] == Entry(peer, r, NO_REPLY)
            && |v'.rings.publications| == |v.rings.publications|
            && forall d | d != id :: AsReaped(v, s, now, v', d)
  {
    hide RingInv, Synchronized, Reap, Owned, RetireRing, Register, Authorized, Issued, EnabledOnTable,
         RegistrationStatusOf;
    var v1, id := Reap(v, s, now), r.owner.displayId;
    ReapInv(v, s, now);
    ReapAges(v, s, now);
    ReapExact(v, s, now, id);
    var previous := if id in v1.entries then v1.entries[id] else Entry(peer, r, NO_REPLY);
    if v1.rings.CanPublish(id) {
      EnabledIsHeldIff(v1, s, now, id);
      RingGenerations(v1, id);
    }
    RetireNamed(v1, id, previous.request.owner.generation, previous.reply.ringGeneration);
  }

  // ---------------------------------------------------------------- the table by itself

  /** The table takes a ring exactly for an authorized owner, with resources, while a generation is left. */
  lemma TableRegistersIff(l: Lifetime, s: L.State, o: Owner, resources: bool, now: int)
    requires Issued(l)
    ensures var status := RegistrationStatusOf(l, s, o, resources, now);
            if !Authorized(s, o, now) then status == OwnerUnavailable
            else if !resources then status == InvalidResources
            else if |l.publications| >= 0xFFFF_FFFF_FFFF_FFFF then status == GenerationExhausted
            else status == Registered
    ensures RegistrationStatusOf(l, s, o, resources, now) != Registered ==> Register(l, s, o, resources, now) == l
  {
  }

  /** A sweep of the table leaves exactly the rings whose owners the store vouches for. */
  lemma SweepExact(l: Lifetime, s: L.State, now: int, id: nat)
    requires Issued(l)
    ensures var l' := Retire(l, Unavailable(l, s, now));
            && (id in l'.rings <==> id in l.rings && Authorized(s, l.rings[id].owner, now))
            && (id in l'.rings ==> l'.rings[id] == l.rings[id] && (l'.CanPublish(id) <==> l.CanPublish(id)))
            && (l'.CanPublish(id) ==> l.CanPublish(id))
  {
    hide Authorized;
  }

  predicate HasRing(l: Lifetime, id: nat, displayGeneration: nat) {
    id in l.rings && l.rings[id].owner.generation == displayGeneration
  }

  /** A lookup returns the ring of that display generation, or drops it if its owner is no longer vouched for. */
  lemma LookupExact(l: Lifetime, s: L.State, id: nat, displayGeneration: nat, now: int)
    requires Issued(l)
    ensures var found := Snapshot(l, s, id, displayGeneration, now);
            var l' := SnapshotTable(l, s, id, displayGeneration, now);
            && (found.Some? <==> HasRing(l, id, displayGeneration) && Authorized(s, l.rings[id].owner, now))
            && (found.Some? ==> found.value == l.rings[id])
            && (forall d :: d in l'.rings <==>
                  d in l.rings && (d != id || found.Some? || !HasRing(l, id, displayGeneration)))
            && forall d | d in l'.rings :: l'.rings[d] == l.rings[d] && (l'.CanPublish(d) <==> l.CanPublish(d))
  {
    hide Authorized;
  }

  /** Retiring by name takes the display's ring if, and only if, it is the one named; and touches no other. */
  lemma NamedRetireExact(l: Lifetime, id: nat, displayGeneration: nat, ringGeneration: nat, d: nat)
    requires Issued(l)
    ensures var exact := RetireRing(l, id, displayGeneration, ringGeneration);
            var any := RetireDisplay(l, id, displayGeneration);
            var named := HasRing(l, id, displayGeneration);
            && (d in exact.rings <==>
                  d in l.rings && !(d == id && named && l.rings[id].ringGeneration == ringGeneration))
            && (d in any.rings <==> d in l.rings && !(d == id && named))
            && (exact.CanPublish(d) <==> d in exact.rings && l.CanPublish(d))
            && (any.CanPublish(d) <==> d in any.rings && l.CanPublish(d))
  {
    RetireCanPublish(l, {id}, d);
    RetireKeepsRings(l, {id});
    hide Retire;
  }
}

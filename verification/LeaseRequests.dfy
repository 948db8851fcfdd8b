/** Which requests the lease store grants, and exactly what it then does, told from the state alone. */
module LeaseRequests {
  import opened Wrappers
  import opened DisplayIdentity
  import opened LeaseStoreSpec
  import opened LeaseStoreInvariant
  import opened LeaseStoreLineage
  import opened ConnectorPolicy
  import opened LeaseFencing
  import opened LeaseDeadlines

  // ---------------------------------------------------------------- which creates are granted

  ghost predicate Sound(r: CreateRequest, owner: Option<Capability>) {
    r.wellFormed && r.leaseId >= 0x6000_0000_0000_0000 && r.displayId > 0 && owner != Some(0)
  }

  /** The lease is still running at `now`, and none of its displays is condemned. */
  ghost predicate Runs(s: State, l: nat, now: int) {
    l in s.leases && now < s.leases[l].expiresAt &&
    forall d | d in s.displays && s.displays[d].leaseId == l :: !s.displays[d].pending
  }

  /** Whoever asks presents no capability, or the lease's own, or the lease has none. */
  ghost predicate MayJoin(s: State, l: nat, owner: Option<Capability>) {
    l in s.leases && (owner == None || s.leases[l].capability == None || s.leases[l].capability == owner)
  }

  /** Some temporary connector is neither in use nor quarantined. */
  ghost predicate HasRoom(s: State) {
    exists c :: InRange(s, c) && c !in s.quarantined && forall d | d in s.displays :: s.displays[d].connector != c
  }

  /** The temporary connectors follow the permanent ones; the top of the range is cut at what 32 bits can say. */
  ghost predicate InRange(s: State, c: nat) {
    s.maxPermanent <= c < s.maxPermanent + s.maxTemporary && c < 0xffff_ffff
  }

  /** No display shown has the EDID identity that display `d` retains. */
  ghost predicate IdentityUnused(s: State, d: nat) {
    forall e | e in s.displays :: IdentityOf(s.displays[e].EffectiveId()) != IdentityOf(d)
  }

  lemma FreeConnector(s: State, d: nat, retain: bool)
    requires Inv(s)
    ensures s.IsTemporary(SelectConnector(s, d, retain).connector) <==> HasRoom(s)
  {
    hide Inv, SelectConnector;
    PlacesClean(s);
    SelectionSucceedsIff(s, d, retain);
    assert forall c: nat :: InRange(s, c) <==> s.IsTemporary(c);
  }

  /** The store grants a create exactly under these conditions. */
  lemma CreateGrantedIff(s: State, r: CreateRequest, owner: Option<Capability>, now: int)
    requires Inv(s)
    ensures Create(s, r, owner, now).error == NoError <==>
            && Sound(r, owner) && r.displayId !in s.displays && |s.displays| < s.maxTemporary
            && (r.leaseId in s.leases ==> Runs(s, r.leaseId, now) && MayJoin(s, r.leaseId, owner))
            && HasRoom(s) && (r.ephemeral || IdentityUnused(s, r.displayId))
  {
    hide Inv, SelectConnector, HasRoom;
    FreeConnector(s, r.displayId, !r.ephemeral);
  }

  /** Otherwise the error names the first condition that fails. */
  lemma CreateErrors(s: State, r: CreateRequest, owner: Option<Capability>, now: int)
    requires Inv(s)
    ensures var error, l := Create(s, r, owner, now).error, r.leaseId;
            var leaseOpen := l in s.leases ==> Runs(s, l, now) && MayJoin(s, l, owner);
            if !Sound(r, owner) then error == ValidationFailed
            else if r.displayId in s.displays then error == AlreadyExists
            else if |s.displays| >= s.maxTemporary then error == LimitReached
            else if !leaseOpen then error == LeaseNotFound
            else if !HasRoom(s) then error == LimitReached
            else if !r.ephemeral && !IdentityUnused(s, r.displayId) then error == DuplicateIdentity
            else error == NoError
  {
    hide Inv, SelectConnector, HasRoom;
    FreeConnector(s, r.displayId, !r.ephemeral);
  }

  /** Except for want of a connector or an identity of its own, a refused create changes nothing at all. */
  lemma TurnedAwayUnchanged(s: State, r: CreateRequest, owner: Option<Capability>, now: int)
    requires r.leaseId in s.leases && !(Runs(s, r.leaseId, now) && MayJoin(s, r.leaseId, owner))
    ensures Create(s, r, owner, now).state == s && Create(s, r, owner, now).error != NoError
  {
  }

  /**
   Over every run through which a lease bound to an owner lives, whoever presents
   another capability cannot put a display on it, whatever display it asks for.
   */
  lemma OnlyTheOwnerJoins(s: State, ops: seq<StoreOp>, r: CreateRequest, owner: Capability, other: Capability, now: int)
    requires Inv(s) && BoundTo(s, r.leaseId, owner) && LivesThrough(s, ops, r.leaseId) && other != owner
    ensures Create(Run(s, ops), r, Some(other), now).state == Run(s, ops)
    ensures Create(Run(s, ops), r, Some(other), now).error != NoError
  {
    hide Create, Inv;
    OnlyTheOwnerIsAuthorized(s, ops, r.leaseId, r.displayId, owner, other, now);
    StillLives(s, ops, r.leaseId);
    TurnedAwayUnchanged(Run(s, ops), r, Some(other), now);
  }

  lemma {:induction false} StillLives(s: State, ops: seq<StoreOp>, l: nat)
    requires LivesThrough(s, ops, l)
    ensures l in Run(s, ops).leases
    decreases |ops|
  {
    hide Apply;
    if ops != [] {
      StillLives(Apply(s, ops[0]), ops[1..], l);
    }
  }

  // ---------------------------------------------------------------- what a grant gives

  /** The time granted is the admissible one nearest to what was asked for, and ten seconds if nothing was. */
  lemma TimeGranted(asked: nat, t: int)
    requires 3000 <= t <= 300_000
    ensures NormalizeTimeout(0) == 10_000
    ensures asked > 0 ==>
              var granted := NormalizeTimeout(asked);
              && 3000 <= granted <= 300_000
              && (if granted < asked then asked - granted else granted - asked) <= (if t < asked then asked - t
                                                                                    else t - asked)
  {
  }

  /** A create opens its lease with the time granted, or leaves it its times; it binds a lease that has no owner yet. */
  lemma CreateBinds(s: State, r: CreateRequest, owner: Option<Capability>, now: int)
    requires Create(s, r, owner, now).error == NoError
    ensures var s', l := Create(s, r, owner, now).state, r.leaseId;
            && l in s'.leases
            && (if l in s.leases
                then
                  && s'.leases[l].expiresAt == s.leases[l].expiresAt && s'.leases[l].timeoutMs == s.leases[l].timeoutMs
                  && s'.leases[l].capability == if s.leases[l].capability == None then owner else s.leases[l].capability
                else s'.leases[l] == Lease(NormalizeTimeout(r.timeoutMs), now + NormalizeTimeout(r.timeoutMs), owner))
            && forall m | m != l ::
                 (m in s'.leases <==> m in s.leases) && (m in s.leases ==> s'.leases[m] == s.leases[m])
  {
  }

  /** Every capability in force was presented, nonzero, by a create of the run: none is made up. */
  lemma {:induction false} OwnersPresented(s: State, ops: seq<StoreOp>, l: nat)
    requires l in Run(s, ops).leases && Run(s, ops).leases[l].capability.Some?
    ensures || (exists m :: m in s.leases && s.leases[m].capability == Run(s, ops).leases[l].capability)
            || (exists i | 0 <= i < |ops| :: ops[i].OpCreate? && ops[i].createOwner == Run(s, ops).leases[l].capability)
    decreases |ops|
  {
    hide Apply;
    if ops != [] {
      var s1, capability := Apply(s, ops[0]), Run(s, ops).leases[l].capability;
      OwnersPresented(s1, ops[1..], l);
      if m :| m in s1.leases && s1.leases[m].capability == capability {
        OwnerComesFrom(s, ops[0], m);
      } else {
        var i :| 0 <= i < |ops[1..]| && ops[1..][i].OpCreate? && ops[1..][i].createOwner == capability;
        assert ops[i + 1].createOwner == capability;
      }
    }
  }

  lemma OwnerComesFrom(s: State, op: StoreOp, l: nat)
    requires l in Apply(s, op).leases && Apply(s, op).leases[l].capability.Some?
    ensures || (exists m :: m in s.leases && s.leases[m].capability == Apply(s, op).leases[l].capability)
            || (op.OpCreate? && op.createOwner == Apply(s, op).leases[l].capability)
  {
    hide Create;
    if op.OpCreate? {
      CreateOwnerComesFrom(s, op.create, op.createOwner, op.createNow, l);
    } else if op.OpReclaim? && CanReclaim(s, op.reclaim, op.reclaimNow) == NoError && l == op.reclaim.newLeaseId {
      assert s.displays[op.reclaim.displayId].leaseId in s.leases;
    } else {
      assert l in s.leases;
    }
  }

  lemma CreateOwnerComesFrom(s: State, r: CreateRequest, owner: Option<Capability>, now: int, l: nat)
    requires var s' := Create(s, r, owner, now).state; l in s'.leases && s'.leases[l].capability.Some?
    ensures var capability := Create(s, r, owner, now).state.leases[l].capability;
            (l in s.leases && s.leases[l].capability == capability) || owner == capability
  {
  }

  // ---------------------------------------------------------------- ephemeral identities

  /** The counter has moved on by `steps`, round its 64 bits if need be. */
  ghost predicate Advanced(counter: nat, counter': nat, steps: nat) {
    counter' == (counter + steps) % WORD64
  }

  /** A granted ephemeral create gives out one of the next candidates, and the counter is then just past it. */
  lemma EphemeralIssued(s: State, r: CreateRequest, owner: Option<Capability>, now: int) returns (skipped: nat)
    requires Inv(s) && r.ephemeral && Create(s, r, owner, now).error == NoError
    ensures var s' := Create(s, r, owner, now).state;
            && skipped < s.maxTemporary && r.displayId in s'.displays
            && s'.displays[r.displayId].EffectiveId() == EphemeralId(s.nextEphemeral, skipped)
            && Advanced(s.nextEphemeral, s'.nextEphemeral, skipped + 1)
  {
    skipped := SkippedCandidates(s.displays, s.nextEphemeral, 0);
    EphemeralIdPositive(s.nextEphemeral, skipped);
  }

  lemma CreateAdvances(s: State, r: CreateRequest, owner: Option<Capability>, now: int) returns (steps: nat)
    requires Inv(s) && s.nextEphemeral < WORD64
    ensures steps <= s.maxTemporary
    ensures Advanced(s.nextEphemeral, Create(s, r, owner, now).state.nextEphemeral, steps)
  {
    hide Inv;
    if r.ephemeral && Create(s, r, owner, now).error == NoError {
      var skipped := EphemeralIssued(s, r, owner, now);
      return skipped + 1;
    }
    return 0;
  }

  lemma ApplyAdvances(s: State, op: StoreOp) returns (steps: nat)
    requires Inv(s) && s.nextEphemeral < WORD64
    ensures steps <= s.maxTemporary && Apply(s, op).maxTemporary == s.maxTemporary
    ensures Advanced(s.nextEphemeral, Apply(s, op).nextEphemeral, steps)
  {
    hide Create, Inv;
    if op.OpCreate? {
      SameSize(s, op.create, op.createOwner, op.createNow);
      steps := CreateAdvances(s, op.create, op.createOwner, op.createNow);
    } else {
      steps := 0;
    }
  }

  lemma SameSize(s: State, r: CreateRequest, owner: Option<Capability>, now: int)
    ensures Create(s, r, owner, now).state.maxTemporary == s.maxTemporary
  {
  }

  lemma AdvancedTwice(a: nat, b: nat, c: nat, m: nat, n: nat)
    requires Advanced(a, b, m) && Advanced(b, c, n)
    ensures Advanced(a, c, m + n)
  {
    WrapsTwice(a + m, n);
  }

  lemma {:induction false} RunAdvances(s: State, ops: seq<StoreOp>) returns (steps: nat)
    requires Inv(s) && s.nextEphemeral < WORD64
    ensures steps <= |ops| * s.maxTemporary && Run(s, ops).maxTemporary == s.maxTemporary && Inv(Run(s, ops))
    ensures Advanced(s.nextEphemeral, Run(s, ops).nextEphemeral, steps)
    decreases |ops|
  {
    hide Apply, Inv;
    if ops == [] { return 0; }
    var s1 := Apply(s, ops[0]);
    var first := ApplyAdvances(s, ops[0]);
    ApplyInv(s, ops[0]);
    assert s1.nextEphemeral < WORD64;
    var more := RunAdvances(s1, ops[1..]);
    AdvancedTwice(s.nextEphemeral, s1.nextEphemeral, Run(s, ops).nextEphemeral, first, more);
    MoreByOne(|ops|, s.maxTemporary, first, more);
    return first + more;
  }

  lemma MoreByOne(n: nat, m: nat, first: nat, more: nat)
    requires n > 0 && first <= m && more <= (n - 1) * m
    ensures first + more <= n * m
  {
  }

  /**
   An ephemeral identity is not given out again, whether its display is still there or not, for as
   long as the operations since number less than 2^32 over the most displays there can be.
   */
  lemma IdentityNotReissued(s: State, r: CreateRequest, owner: Option<Capability>, now: int, ops: seq<StoreOp>,
                            r': CreateRequest, owner': Option<Capability>, now': int)
    requires Inv(s) && s.nextEphemeral < WORD64 && (|ops| + 1) * s.maxTemporary < WORD32
    requires r.ephemeral && r'.ephemeral && Create(s, r, owner, now).error == NoError
    requires Create(Run(Create(s, r, owner, now).state, ops), r', owner', now').error == NoError
    ensures var s1 := Create(s, r, owner, now).state; var s2 := Create(Run(s1, ops), r', owner', now').state;
            && r.displayId in s1.displays && r'.displayId in s2.displays
            && IdentityOf(s1.displays[r.displayId].EffectiveId()) != IdentityOf(s2.displays[r'.displayId].EffectiveId())
  {
    hide Create, Inv, Run, IdentityOf, EphemeralId;
    var s1 := Create(s, r, owner, now).state;
    var j := EphemeralIssued(s, r, owner, now);
    CreateInv(s, r, owner, now);
    SameSize(s, r, owner, now);
    var steps := RunAdvances(s1, ops);
    var s2 := Run(s1, ops);
    var k := EphemeralIssued(s2, r', owner', now');
    AdvancedTwice(s.nextEphemeral, s1.nextEphemeral, s2.nextEphemeral, j + 1, steps);
    LaterCandidate(s.nextEphemeral, s2.nextEphemeral, j + 1 + steps, k);
    assert (|ops| + 1) * s.maxTemporary == |ops| * s.maxTemporary + s.maxTemporary;
    EphemeralWindowDistinct(s.nextEphemeral, j, j + 1 + steps + k);
  }

  lemma LaterCandidate(counter: nat, counter': nat, steps: nat, k: nat)
    requires Advanced(counter, counter', steps)
    ensures EphemeralId(counter', k) == EphemeralId(counter, steps + k)
  {
    WrapsTwice(counter + steps, k);
  }

  // ---------------------------------------------------------------- renewals and reclaims

  /** The store renews a lease exactly while it runs and no condemned display of it has run out. */
  lemma FeedGrantedIff(s: State, r: LeaseRequest, now: int)
    ensures CanFeed(s, r, now) == NoError <==>
            && r.wellFormed && r.leaseId >= 0x6000_0000_0000_0000
            && r.leaseId in s.leases && now < s.leases[r.leaseId].expiresAt
            && forall d | d in s.displays && s.displays[d].leaseId == r.leaseId ::
                 s.displays[d].pending ==> now < s.displays[d].expiresAt
    ensures CanFeed(s, r, now) != NoError ==> Feed(s, r, now) == s
  {
  }

  /** A renewal gives the lease the time granted, and touches no other lease and no owner. */
  lemma FeedExtends(s: State, r: LeaseRequest, now: int)
    requires CanFeed(s, r, now) == NoError
    ensures var s', granted := Feed(s, r, now), NormalizeTimeout(r.timeoutMs);
            && s'.leases.Keys == s.leases.Keys && s'.displays.Keys == s.displays.Keys
            && s'.leases[r.leaseId] == Lease(granted, now + granted, s.leases[r.leaseId].capability)
            && (forall m | m in s.leases && m != r.leaseId :: s'.leases[m] == s.leases[m])
            && forall d | d in s.displays ::
                 if s.displays[d].leaseId == r.leaseId && !s.displays[d].pending
                 then s'.displays[d] == s.displays[d].(timeoutMs := granted, expiresAt := now + granted)
                 else s'.displays[d] == s.displays[d]
  {
  }

  /**
   A reclaim is granted exactly to the owner of a running lease, nothing of it condemned, for a
   lease id not in use.
   */
  lemma ReclaimGrantedIff(s: State, r: ReclaimRequest, now: int)
    requires Inv(s)
    ensures CanReclaim(s, r, now) == NoError <==>
            && r.wellFormed && r.newLeaseId >= 0x6000_0000_0000_0000 && r.displayId > 0 && r.capability > 0
            && r.displayId in s.displays && r.newLeaseId !in s.leases
            && var l := s.displays[r.displayId].leaseId;
               Runs(s, l, now) && s.leases[l].capability == Some(r.capability)
    ensures CanReclaim(s, r, now) != NoError ==> Reclaim(s, r, now) == s
  {
  }

  /** The displays reclaimed run for the time granted on their new lease; nothing else about them changes. */
  lemma ReclaimMoves(s: State, r: ReclaimRequest, now: int)
    requires CanReclaim(s, r, now) == NoError
    ensures var s', l, granted := Reclaim(s, r, now), s.displays[r.displayId].leaseId, NormalizeTimeout(r.timeoutMs);
            && s'.leases.Keys == s.leases.Keys - {l} + {r.newLeaseId} && s'.displays.Keys == s.displays.Keys
            && s'.leases[r.newLeaseId] == Lease(granted, now + granted, Some(r.capability))
            && (forall m | m in s.leases && m != l :: s'.leases[m] == s.leases[m])
            && forall d | d in s.displays ::
                 if s.displays[d].leaseId == l
                 then s'.displays[d] == s.displays[d].(leaseId := r.newLeaseId, timeoutMs := granted,
                                                       expiresAt := now + granted)
                 else s'.displays[d] == s.displays[d]
  {
  }

  // ---------------------------------------------------------------- what goes

  /** Exactly the displays that `stays` keeps are left, and exactly their leases; nothing about either has changed. */
  ghost predicate Keeps(s: State, s': State, stays: Record -> bool) {
    && (forall d :: d in s'.displays <==> d in s.displays && stays(s.displays[d]))
    && (forall d | d in s'.displays :: s'.displays[d] == s.displays[d])
    && (forall l :: l in s'.leases <==>
          exists d | d in s.displays && stays(s.displays[d]) :: s.displays[d].leaseId == l)
    && (forall l | l in s'.leases :: l in s.leases && s'.leases[l] == s.leases[l])
  }

  lemma KeepsFrom(s: State, s': State, stays: Record -> bool)
    requires Inv(s) && Inv(s')
    requires forall d :: d in s'.displays <==> d in s.displays && stays(s.displays[d])
    requires forall d | d in s'.displays :: s'.displays[d] == s.displays[d]
    requires forall l | l in s'.leases :: l in s.leases && s'.leases[l] == s.leases[l]
    ensures Keeps(s, s', stays)
  {
    forall l
      ensures l in s'.leases <==> exists d | d in s.displays && stays(s.displays[d]) :: s.displays[d].leaseId == l
    {
      LeaseIsUsed(s', l);
      if d :| d in s'.displays && s'.displays[d].leaseId == l {
        assert stays(s.displays[d]);
      }
    }
  }

  lemma LeaseIsUsed(s: State, l: nat)
    requires Inv(s)
    ensures l in s.leases <==> exists d | d in s.displays :: s.displays[d].leaseId == l
  {
    assert l in s.leases ==> s.LeaseHasDisplays(l);
  }

  /** One display goes, and its lease with it if it was the last. */
  ghost predicate Takes(s: State, s': State, d: nat) {
    && s'.displays == s.displays - {d}
    && forall l | l in s'.leases :: l in s.leases && s'.leases[l] == s.leases[l]
  }

  lemma TakesKeeps(s: State, s': State, d: nat)
    requires Inv(s) && Inv(s') && Takes(s, s', d)
    ensures Keeps(s, s', (x: Record) => x.displayId != d)
  {
    hide Keeps;
    InvPlaced(s);
    KeepsFrom(s, s', (x: Record) => x.displayId != d);
  }

  lemma RemoveTakes(s: State, r: LeaseDisplayRequest, mode: RemoveMode)
    requires RecordsFiled(s) && r.wellFormed && r.displayId in s.displays
    requires s.displays[r.displayId].leaseId == r.leaseId
    ensures var s' := Remove(s, r, mode);
            && Takes(s, s', r.displayId) && s'.quarantined == s.quarantined
            && s'.reservations == if mode == ReleaseReservation then s.reservations - {r.displayId} else s.reservations
  {
  }

  /** A removal takes that display, and its reservation if asked; nothing at all if it is on another lease. */
  lemma RemoveExact(s: State, r: LeaseDisplayRequest, mode: RemoveMode)
    requires Inv(s) && r.wellFormed
    ensures var s' := Remove(s, r, mode);
            if r.displayId in s.displays && s.displays[r.displayId].leaseId == r.leaseId
            then
              && Keeps(s, s', (x: Record) => x.displayId != r.displayId) && s'.quarantined == s.quarantined
              && s'.reservations == if mode == ReleaseReservation then s.reservations - {r.displayId}
                 else s.reservations
            else s' == s
  {
    hide Inv, Placed, Keeps, Takes;
    if r.displayId in s.displays && s.displays[r.displayId].leaseId == r.leaseId {
      hide Remove;
      InvPlaced(s);
      PlacedFiled(s);
      RemoveTakes(s, r, mode);
      RemoveInv(s, r, mode);
      TakesKeeps(s, Remove(s, r, mode), r.displayId);
    }
  }

  lemma PlacedFiled(s: State)
    requires Placed(s)
    ensures RecordsFiled(s)
  {
  }

  lemma AbandonTakes(s: State, r: LeaseDisplayRequest, generation: nat, owner: Capability)
    requires CanAbandon(s, r, generation, owner) == NoError
    ensures var s' := Abandon(s, r, generation, owner);
            && Takes(s, s', r.displayId) && s'.reservations == s.reservations - {r.displayId}
            && s'.quarantined == s.quarantined + {s.displays[r.displayId].connector}
  {
  }

  /** Eviction is granted to the owner of the lease, for a condemned record called by its generation. */
  lemma AbandonGrantedIff(s: State, r: LeaseDisplayRequest, generation: nat, owner: Capability)
    requires Inv(s) && r.wellFormed
    ensures CanAbandon(s, r, generation, owner) == NoError <==>
            && r.displayId in s.displays && s.displays[r.displayId].leaseId == r.leaseId
            && s.displays[r.displayId].generation == generation && s.displays[r.displayId].pending
            && s.leases[r.leaseId].capability == Some(owner)
    ensures CanAbandon(s, r, generation, owner) != NoError ==> Abandon(s, r, generation, owner) == s
  {
  }

  /** It takes the display and its reservation, and quarantines its connector. */
  lemma AbandonExact(s: State, r: LeaseDisplayRequest, generation: nat, owner: Capability)
    requires Inv(s) && CanAbandon(s, r, generation, owner) == NoError
    ensures var s' := Abandon(s, r, generation, owner);
            && Keeps(s, s', (x: Record) => x.displayId != r.displayId)
            && r.displayId in s.displays && s'.quarantined == s.quarantined + {s.displays[r.displayId].connector}
            && s'.reservations == s.reservations - {r.displayId}
  {
    hide Inv, Keeps, Takes, Abandon;
    AbandonTakes(s, r, generation, owner);
    AbandonInv(s, r, generation, owner);
    TakesKeeps(s, Abandon(s, r, generation, owner), r.displayId);
  }

  /** A release takes every display of the lease, and nothing else. */
  lemma ReleaseExact(s: State, r: LeaseRequest)
    requires Inv(s) && r.wellFormed
    ensures Keeps(s, Release(s, r), (x: Record) => x.leaseId != r.leaseId)
  {
    ReleaseInv(s, r);
    hide Inv;
    InvPlaced(s);
    KeepsFrom(s, Release(s, r), (x: Record) => x.leaseId != r.leaseId);
  }

  /** A reap takes every display that has run out, and nothing else. */
  lemma ReapExact(s: State, now: int)
    requires Inv(s)
    ensures Keeps(s, Reap(s, now), (x: Record) => now < x.expiresAt)
  {
    ReapInv(s, now);
    hide Inv;
    KeepsFrom(s, Reap(s, now), (x: Record) => now < x.expiresAt);
  }

  // ---------------------------------------------------------------- condemned records

  lemma MarkExact(s: State, r: LeaseDisplayRequest)
    requires Inv(s) && r.wellFormed
    ensures var s' := MarkPending(s, r);
            if r.displayId in s.displays && s.displays[r.displayId].leaseId == r.leaseId
            then s' == s.(displays := s.displays[r.displayId := s.displays[r.displayId].(pending := true)])
            else s' == s
  {
  }

  /** Whatever is done, a condemned record either goes or stays as it is, on the same lease with the same deadline. */
  lemma CondemnedStep(s: State, op: StoreOp, x: Record)
    requires Inv(s) && x.displayId in s.displays && s.displays[x.displayId] == x && x.pending
    ensures var s' := Apply(s, op);
            x.displayId in s'.displays && s'.displays[x.displayId].generation == x.generation ==>
              s'.displays[x.displayId] == x
  {
    hide Create, Inv;
    if op.OpCreate? {
      var r, owner, now := op.create, op.createOwner, op.createNow;
      if Create(s, r, owner, now).error == NoError {
        PlacesClean(s);
        CreateAdds(s, r, owner, now);
      } else {
        RefusedCreateInv(s, r, owner, now);
      }
    } else if op.OpReclaim? && CanReclaim(s, op.reclaim, op.reclaimNow) == NoError {
      assert !s.LeaseHasPending(s.displays[op.reclaim.displayId].leaseId);
    }
  }

  /**
   Over every run, for as long as a condemned record is stored it is the very same
   record, so nobody is authorized to use it, nobody else joins or reclaims its lease,
   and nobody renews that lease once the record has run out.
   */
  lemma {:induction false} CondemnedStays(s: State, ops: seq<StoreOp>, x: Record)
    requires Inv(s) && x.displayId in s.displays && s.displays[x.displayId] == x && x.pending
    requires x.displayId in Run(s, ops).displays && Run(s, ops).displays[x.displayId].generation == x.generation
    ensures Inv(Run(s, ops)) && Run(s, ops).displays[x.displayId] == x
    decreases |ops|
  {
    hide Apply, Inv;
    if ops != [] {
      var s1 := Apply(s, ops[0]);
      ApplyInv(s, ops[0]);
      if x.displayId in s1.displays && s1.displays[x.displayId].generation == x.generation {
        CondemnedStep(s, ops[0], x);
        CondemnedStays(s1, ops[1..], x);
      } else {
        CondemnedGone(s, ops[0], x);
        GoneForever(s1, ops[1..], x.generation);
      }
    }
  }

  lemma CondemnedGone(s: State, op: StoreOp, x: Record)
    requires Inv(s) && x.displayId in s.displays && s.displays[x.displayId] == x
    requires var s' := Apply(s, op);
             !(x.displayId in s'.displays && s'.displays[x.displayId].generation == x.generation)
    ensures Gone(Apply(s, op), x.generation)
  {
    hide Apply;
    InvPlaced(s);
    StoredLineage(s, x.displayId);
    ApplyEvolves(s, op);
    LineageEvolves(s, Apply(s, op), x);
    ApplyInv(s, op);
  }

  lemma CondemnedIsRefused(s: State, ops: seq<StoreOp>, x: Record, owner: Capability, now: int)
    requires Inv(s) && x.displayId in s.displays && s.displays[x.displayId] == x && x.pending
    requires x.displayId in Run(s, ops).displays && Run(s, ops).displays[x.displayId].generation == x.generation
    ensures var after, l := Run(s, ops), x.leaseId;
            && Authorize(after, LeaseDisplayRequest(true, l, x.displayId), owner, now) == None
            && (forall timeout :: now >= x.expiresAt ==> Feed(after, LeaseRequest(true, l, timeout), now) == after)
            && (forall r: CreateRequest, o | r.leaseId == l :: Create(after, r, o, now).state == after)
            && forall r: ReclaimRequest | r.displayId in after.displays && after.displays[r.displayId].leaseId == l ::
                 Reclaim(after, r, now) == after
  {
    hide Run, Create, Inv;
    var after := Run(s, ops);
    CondemnedStays(s, ops, x);
    assert x.leaseId in after.leases by { LeaseIsUsed(after, x.leaseId); }
    forall r: CreateRequest, o | r.leaseId == x.leaseId ensures Create(after, r, o, now).state == after {
      TurnedAwayUnchanged(after, r, o, now);
    }
    assert after.LeaseHasPending(x.leaseId);
  }
}

/** What a lease proves: who may act on a display, and for how long. */
module LeaseFencing {
  import opened Wrappers
  import opened LeaseStoreSpec
  import opened LeaseStoreInvariant

  /** A lease id that nothing refers to: no request made with it gets through. */
  ghost predicate Dead(s: State, l: nat) {
    l !in s.leases && forall d | d in s.displays :: s.displays[d].leaseId != l
  }

  /** With a dead lease nobody is authorized, and nothing is removed, marked, abandoned, fed or released. */
  lemma DeadLeaseRefusesAll(s: State, l: nat, d: nat, owner: Capability, generation: nat, timeout: nat, now: int)
    requires Dead(s, l)
    ensures var onDisplay, onLease := LeaseDisplayRequest(true, l, d), LeaseRequest(true, l, timeout);
            && Authorize(s, onDisplay, owner, now) == None
            && Remove(s, onDisplay, RetainReservation) == s && Remove(s, onDisplay, ReleaseReservation) == s
            && MarkPending(s, onDisplay) == s && Abandon(s, onDisplay, generation, owner) == s
            && Feed(s, onLease, now) == s && Release(s, onLease) == s
  {
  }

  /** The operation cannot bring this lease id to life. */
  predicate SparesLease(op: StoreOp, l: nat) {
    && (op.OpCreate? ==> op.create.leaseId != l)
    && (op.OpReclaim? ==> op.reclaim.newLeaseId != l)
  }

  lemma StaysDead(s: State, op: StoreOp, l: nat)
    requires Inv(s) && Dead(s, l) && SparesLease(op, l)
    ensures Dead(Apply(s, op), l)
  {
    hide Create, Inv;
    if op.OpCreate? {
      CreateOnOtherLease(s, op.create, op.createOwner, op.createNow, l);
    }
  }

  lemma CreateOnOtherLease(s: State, r: CreateRequest, owner: Option<Capability>, now: int, l: nat)
    requires Inv(s) && Dead(s, l) && r.leaseId != l
    ensures Dead(Create(s, r, owner, now).state, l)
  {
    hide Create, Inv;
    if Create(s, r, owner, now).error == NoError {
      PlacesClean(s);
      CreateAdds(s, r, owner, now);
      CreateJoins(s, r, owner, now);
    } else {
      RefusedCreateInv(s, r, owner, now);
    }
  }

  lemma PlacesClean(s: State)
    requires Inv(s)
    ensures QuarantineClean(s)
  {
  }

  /**
   After a reclaim the old lease is dead, and the displays it had are authorized under the new one,
   for the same owner.
   */
  lemma ReclaimFences(s: State, r: ReclaimRequest, now: int)
    requires Inv(s) && CanReclaim(s, r, now) == NoError
    ensures var s', l := Reclaim(s, r, now), s.displays[r.displayId].leaseId;
            && Dead(s', l)
            && forall d | d in s.displays && s.displays[d].leaseId == l ::
                 var moved := Authorize(s', LeaseDisplayRequest(true, r.newLeaseId, d), r.capability, now);
                 && moved.Some? && moved.value.generation == s.displays[d].generation
                 && moved.value.connector == s.displays[d].connector
  {
    var s', l := Reclaim(s, r, now), s.displays[r.displayId].leaseId;
    forall d | d in s.displays && s.displays[d].leaseId == l
      ensures d != 0 && !s.displays[d].pending
    {
      assert !s.LeaseHasPending(l);
    }
  }

  /**
   Reclaim is a fence: whatever runs afterwards, unless some create or reclaim
   chooses the old lease id anew, a client that still holds the old lease can
   neither use, feed, remove nor release anything.
   */
  lemma {:induction false} OldLeaseStaysFenced(s: State, ops: seq<StoreOp>, l: nat)
    requires Inv(s) && Dead(s, l) && forall i | 0 <= i < |ops| :: SparesLease(ops[i], l)
    ensures Dead(Run(s, ops), l)
    decreases |ops|
  {
    hide Apply, Inv, Dead;
    if ops != [] {
      StaysDead(s, ops[0], l);
      ApplyInv(s, ops[0]);
      OldLeaseStaysFenced(Apply(s, ops[0]), ops[1..], l);
    }
  }

  /** So after any such run, whoever still holds a fenced lease is refused everything. */
  lemma FencedIsRefused(s: State, ops: seq<StoreOp>, l: nat, d: nat, owner: Capability, generation: nat, timeout: nat,
                        now: int)
    requires Inv(s) && Dead(s, l) && forall i | 0 <= i < |ops| :: SparesLease(ops[i], l)
    ensures var after := Run(s, ops);
            var onDisplay, onLease := LeaseDisplayRequest(true, l, d), LeaseRequest(true, l, timeout);
            && Authorize(after, onDisplay, owner, now) == None
            && Remove(after, onDisplay, RetainReservation) == after
            && Remove(after, onDisplay, ReleaseReservation) == after
            && MarkPending(after, onDisplay) == after && Abandon(after, onDisplay, generation, owner) == after
            && Feed(after, onLease, now) == after && Release(after, onLease) == after
  {
    hide Inv, Run, Dead, Authorize, Remove, MarkPending, Abandon, Feed, Release;
    OldLeaseStaysFenced(s, ops, l);
    DeadLeaseRefusesAll(Run(s, ops), l, d, owner, generation, timeout, now);
  }

  /** A lease once bound to an owner stays bound to that owner for as long as it lives. */
  ghost predicate BoundTo(s: State, l: nat, owner: Capability) {
    l in s.leases ==> s.leases[l].capability == Some(owner)
  }

  lemma CreateKeepsOwner(s: State, r: CreateRequest, o: Option<Capability>, now: int, l: nat, owner: Capability)
    requires Inv(s) && l in s.leases && BoundTo(s, l, owner)
    ensures BoundTo(Create(s, r, o, now).state, l, owner)
  {
  }

  lemma OwnerKept(s: State, op: StoreOp, l: nat, owner: Capability)
    requires Inv(s) && l in s.leases && BoundTo(s, l, owner)
    ensures BoundTo(Apply(s, op), l, owner)
  {
    hide Create, Inv;
    if op.OpCreate? {
      CreateKeepsOwner(s, op.create, op.createOwner, op.createNow, l, owner);
    }
  }

  /** The lease is never dropped in between. */
  ghost predicate LivesThrough(s: State, ops: seq<StoreOp>, l: nat)
    decreases |ops|
  {
    l in s.leases && (ops != [] ==> LivesThrough(Apply(s, ops[0]), ops[1..], l))
  }

  /** Over every run through which a lease lives, only the owner it was bound to is ever authorized by it. */
  lemma {:induction false} OnlyTheOwnerIsAuthorized(s: State, ops: seq<StoreOp>, l: nat, d: nat, owner: Capability,
                                                    other: Capability, now: int)
    requires Inv(s) && BoundTo(s, l, owner) && LivesThrough(s, ops, l) && other != owner
    ensures BoundTo(Run(s, ops), l, owner)
    ensures Authorize(Run(s, ops), LeaseDisplayRequest(true, l, d), other, now) == None
    decreases |ops|
  {
    hide Apply, Inv;
    if ops != [] {
      OwnerKept(s, ops[0], l, owner);
      ApplyInv(s, ops[0]);
      OnlyTheOwnerIsAuthorized(Apply(s, ops[0]), ops[1..], l, d, owner, other, now);
    }
  }

  /** A renewal pushes the deadline of every display of the lease that is not condemned, and of nothing else. */
  lemma FeedRenews(s: State, r: LeaseRequest, now: int, d: nat)
    requires CanFeed(s, r, now) == NoError && d in s.displays
    ensures var x, x' := s.displays[d], Feed(s, r, now).displays[d];
            && x'.(timeoutMs := x.timeoutMs, expiresAt := x.expiresAt) == x
            && (x.leaseId == r.leaseId && !x.pending ==>
                  x'.expiresAt == now + x'.timeoutMs && MIN_TIMEOUT_MS <= x'.timeoutMs <= MAX_TIMEOUT_MS)
            && (x.leaseId != r.leaseId || x.pending ==> x' == x)
  {
  }
}

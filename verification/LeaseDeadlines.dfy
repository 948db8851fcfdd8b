/** Over every run: a display whose lease is fed before each deadline stays, and one whose lease is not fed goes. */
module LeaseDeadlines {
  import opened Wrappers
  import opened LeaseStoreSpec
  import opened LeaseStoreInvariant
  import opened LeaseStoreLineage
  import opened LeaseFencing

  /**
   The deadline of a lease after one more request, read off the requests alone:
   a renewal in time moves it, and nothing else does.
   */
  function DeadlineAfter(op: StoreOp, l: nat, deadline: int): int {
    if op.OpFeed? && op.feed.leaseId == l && ValidLease(op.feed) && op.feedNow < deadline
    then op.feedNow + NormalizeTimeout(op.feed.timeoutMs)
    else deadline
  }

  /** The deadline after a whole run. */
  function FinalDeadline(ops: seq<StoreOp>, l: nat, deadline: int): int
    decreases |ops|
  {
    if ops == [] then deadline else FinalDeadline(ops[1..], l, DeadlineAfter(ops[0], l, deadline))
  }

  /** The store is never reaped at or past the deadline in force. */
  predicate FedInTime(ops: seq<StoreOp>, l: nat, deadline: int)
    decreases |ops|
  {
    ops != [] ==>
      && (ops[0].OpReap? ==> ops[0].reapNow < deadline)
      && FedInTime(ops[1..], l, DeadlineAfter(ops[0], l, deadline))
  }

  /**
   The operation neither removes the display, nor releases, reclaims or condemns
   anything on its lease. It may create, feed, reap and remove as it likes.
   */
  ghost predicate LeavesAlone(s: State, op: StoreOp, d: nat, l: nat) {
    match op
    case OpReclaim(r, now) => CanReclaim(s, r, now) == NoError ==> s.displays[r.displayId].leaseId != l
    case OpRemove(r, _) => r.leaseId == l ==> r.displayId != d
    case OpMark(r) => r.leaseId != l
    case OpRelease(r) => r.leaseId != l
    case OpCreate(_, _, _) => true
    case OpAbandon(_, _, _) => true
    case OpFeed(_, _) => true
    case OpReap(_) => true
  }

  ghost predicate LeftAlone(s: State, ops: seq<StoreOp>, d: nat, l: nat)
    decreases |ops|
  {
    ops == [] || (LeavesAlone(s, ops[0], d, l) && LeftAlone(Apply(s, ops[0]), ops[1..], d, l))
  }

  /** `d` is stored on lease `l`, nothing on that lease is condemned, and this is the lease's deadline. */
  ghost predicate Running(s: State, d: nat, generation: nat, l: nat, deadline: int) {
    && Inv(s) && Has(s, d, generation) && s.displays[d].leaseId == l && !s.LeaseHasPending(l)
    && l in s.leases && s.leases[l].expiresAt == deadline
  }

  ghost predicate Has(s: State, d: nat, generation: nat) {
    d in s.displays && s.displays[d].generation == generation
  }

  ghost predicate Gone(s: State, generation: nat) {
    generation < s.nextGeneration && forall e | e in s.displays :: s.displays[e].generation != generation
  }

  lemma CreateRuns(s: State, r: CreateRequest, owner: Option<Capability>, now: int, d: nat, g: nat, l: nat,
                   deadline: int)
    requires Running(s, d, g, l, deadline)
    ensures Running(Create(s, r, owner, now).state, d, g, l, deadline)
  {
    hide Create, Inv;
    CreateInv(s, r, owner, now);
    if Create(s, r, owner, now).error == NoError {
      InvPlaced(s);
      CreateAdds(s, r, owner, now);
      CreateJoins(s, r, owner, now);
    } else {
      RefusedCreateInv(s, r, owner, now);
    }
  }

  lemma ReapRuns(s: State, now: int, d: nat, g: nat, l: nat, deadline: int)
    requires Running(s, d, g, l, deadline) && now < deadline
    ensures Running(Reap(s, now), d, g, l, deadline)
  {
    hide Inv;
    ReapInv(s, now);
    TimesMirrored(s, d);
  }

  lemma TimesMirrored(s: State, d: nat)
    requires Inv(s) && d in s.displays && !s.displays[d].pending
    ensures s.displays[d].leaseId in s.leases && s.displays[d].expiresAt == s.leases[s.displays[d].leaseId].expiresAt
  {
  }

  lemma OtherRuns(s: State, op: StoreOp, d: nat, g: nat, l: nat, deadline: int)
    requires Running(s, d, g, l, deadline) && LeavesAlone(s, op, d, l) && !op.OpCreate? && !op.OpReap?
    ensures Running(Apply(s, op), d, g, l, DeadlineAfter(op, l, deadline))
  {
    hide Inv, Create, Reap;
    ApplyInv(s, op);
    if op.OpFeed? && CanFeed(s, op.feed, op.feedNow) == NoError {
      FeedRenews(s, op.feed, op.feedNow, d);
    }
  }

  /** Left alone, and not reaped past its deadline, the display stays, under the deadline read off the requests. */
  lemma StepRuns(s: State, op: StoreOp, d: nat, g: nat, l: nat, deadline: int)
    requires Running(s, d, g, l, deadline) && LeavesAlone(s, op, d, l) && (op.OpReap? ==> op.reapNow < deadline)
    ensures Running(Apply(s, op), d, g, l, DeadlineAfter(op, l, deadline))
  {
    hide Running, Create, Reap, LeavesAlone;
    match op
    case OpCreate(r, owner, now) =>
      CreateRuns(s, r, owner, now, d, g, l, deadline);
    case OpReap(now) =>
      ReapRuns(s, now, d, g, l, deadline);
    case _ =>
      OtherRuns(s, op, d, g, l, deadline);
  }

  /** A reap at or past the deadline takes every display of the lease that is not condemned. */
  lemma ReapTakesAll(s: State, now: int, d: nat, g: nat, l: nat, deadline: int)
    requires Running(s, d, g, l, deadline) && now >= deadline
    ensures Gone(Reap(s, now), g)
    ensures forall e | e in Reap(s, now).displays :: Reap(s, now).displays[e].leaseId != l
  {
    hide Inv;
    InvPlaced(s);
    forall e | e in s.displays && s.displays[e].leaseId == l ensures s.displays[e].expiresAt <= now {
      assert !s.LeaseHasPending(l);
      TimesMirrored(s, e);
    }
  }

  lemma {:induction false} GoneForever(s: State, ops: seq<StoreOp>, generation: nat)
    requires Inv(s) && Gone(s, generation)
    ensures Gone(Run(s, ops), generation)
    decreases |ops|
  {
    hide Inv, Apply;
    if ops != [] {
      ApplyInv(s, ops[0]);
      ApplyEvolves(s, ops[0]);
      GoneForever(Apply(s, ops[0]), ops[1..], generation);
    }
  }

  /**
   Over every run that leaves a display and its lease alone, whatever else it does
   and in whatever order its clock readings come: that very display is still stored
   at the end exactly if the lease was fed before each deadline, that is, if no
   reap came at or past the deadline then in force; and it then runs to the deadline
   that the requests have left.
   */
  lemma {:induction false} StaysIffFedInTime(s: State, ops: seq<StoreOp>, d: nat, g: nat, l: nat, deadline: int)
    requires Running(s, d, g, l, deadline) && LeftAlone(s, ops, d, l)
    ensures Has(Run(s, ops), d, g) <==> FedInTime(ops, l, deadline)
    ensures FedInTime(ops, l, deadline) ==> Running(Run(s, ops), d, g, l, FinalDeadline(ops, l, deadline))
    ensures !FedInTime(ops, l, deadline) ==> Gone(Run(s, ops), g)
    decreases |ops|
  {
    hide Running, Apply, LeavesAlone, DeadlineAfter;
    RunningFacts(s, d, g, l, deadline);
    if ops != [] {
      var op := ops[0];
      if op.OpReap? && op.reapNow >= deadline {
        ReapTakesAll(s, op.reapNow, d, g, l, deadline);
        AppliedReap(s, op);
        ApplyInv(s, op);
        GoneForever(Apply(s, op), ops[1..], g);
      } else {
        StepRuns(s, op, d, g, l, deadline);
        StaysIffFedInTime(Apply(s, op), ops[1..], d, g, l, DeadlineAfter(op, l, deadline));
      }
    }
  }

  lemma RunningFacts(s: State, d: nat, g: nat, l: nat, deadline: int)
    requires Running(s, d, g, l, deadline)
    ensures Inv(s) && Has(s, d, g)
  {
  }

  lemma AppliedReap(s: State, op: StoreOp)
    requires op.OpReap?
    ensures Apply(s, op) == Reap(s, op.reapNow)
  {
  }

  /** While a display runs, exactly the owner of its lease is authorized to use it, and until the deadline. */
  lemma AuthorizedNow(s: State, d: nat, g: nat, l: nat, deadline: int, owner: Capability, asks: Capability, now: int)
    requires Running(s, d, g, l, deadline) && BoundTo(s, l, owner)
    ensures Authorize(s, LeaseDisplayRequest(true, l, d), asks, now) ==
              if asks == owner && now < deadline then Some(s.displays[d]) else None
  {
    assert !s.LeaseHasPending(l);
    TimesMirrored(s, d);
    InvPlaced(s);
  }

  lemma {:induction false} OwnerWhileFed(s: State, ops: seq<StoreOp>, d: nat, g: nat, l: nat, deadline: int,
                                         owner: Capability)
    requires Running(s, d, g, l, deadline) && LeftAlone(s, ops, d, l) && FedInTime(ops, l, deadline)
    requires BoundTo(s, l, owner)
    ensures BoundTo(Run(s, ops), l, owner)
    decreases |ops|
  {
    hide Apply, LeavesAlone, DeadlineAfter, Inv;
    if ops != [] {
      OwnerKept(s, ops[0], l, owner);
      StepRuns(s, ops[0], d, g, l, deadline);
      OwnerWhileFed(Apply(s, ops[0]), ops[1..], d, g, l, DeadlineAfter(ops[0], l, deadline), owner);
    }
  }

  /**
   Over every run that leaves a display and its lease alone: whoever asks is
   authorized to use that very display exactly if it is the owner, the lease was
   fed before each deadline, and the deadline the requests have left lies ahead.
   */
  lemma AuthorizedWhileFed(s: State, ops: seq<StoreOp>, d: nat, g: nat, l: nat, deadline: int, owner: Capability,
                           asks: Capability, now: int)
    requires Running(s, d, g, l, deadline) && LeftAlone(s, ops, d, l) && BoundTo(s, l, owner)
    ensures var granted := Authorize(Run(s, ops), LeaseDisplayRequest(true, l, d), asks, now);
            granted.Some? && granted.value.generation == g <==>
              asks == owner && FedInTime(ops, l, deadline) && now < FinalDeadline(ops, l, deadline)
  {
    hide Authorize, Run, Running, LeftAlone;
    StaysIffFedInTime(s, ops, d, g, l, deadline);
    var after, end := Run(s, ops), FinalDeadline(ops, l, deadline);
    if FedInTime(ops, l, deadline) {
      OwnerWhileFed(s, ops, d, g, l, deadline, owner);
      AuthorizedNow(after, d, g, l, end, owner, asks, now);
      RunningFacts(after, d, g, l, end);
    } else {
      AuthorizedIsStored(after, LeaseDisplayRequest(true, l, d), asks, now);
    }
  }

  lemma AuthorizedIsStored(s: State, r: LeaseDisplayRequest, asks: Capability, now: int)
    ensures var granted := Authorize(s, r, asks, now);
            granted.Some? ==> r.displayId in s.displays && granted.value == s.displays[r.displayId]
  {
  }
}

/** The in-place lease store, operation by operation, proved against `LeaseStoreSpec`. */
module LeaseStore {
  import opened Wrappers
  import opened DisplayIdentity
  import opened LeaseStoreSpec
  import opened LeaseStoreInvariant

  class DisplayStore {
    const maxPermanent: U32
    const maxTemporary: U32
    var displays: map<nat, Record>
    var leases: map<nat, Lease>
    var reservations: map<nat, nat>
    var quarantined: set<nat>
    var nextEphemeral: nat
    var nextGeneration: nat

    /** The value the store currently holds. */
    ghost function Contents(): State
      reads this
    {
      State(maxPermanent, maxTemporary, displays, leases, reservations, quarantined, nextEphemeral, nextGeneration)
    }

    ghost predicate Valid()
      reads this
    {
      Inv(Contents())
    }

    constructor (maxPermanent: U32, maxTemporary: U32, reservations: map<nat, nat>)
      ensures Valid() && Contents() == InitialState(maxPermanent, maxTemporary, reservations)
    {
      this.maxPermanent, this.maxTemporary := maxPermanent, maxTemporary;
      displays, leases, this.reservations, quarantined := map[], map[], reservations, {};
      nextEphemeral, nextGeneration := 1, 1;
    }

    function ConnectorLimit(): nat
      reads this
    {
      if maxTemporary > MAX_U32 - maxPermanent then MAX_U32 else maxPermanent + maxTemporary
    }

    predicate ConnectorIsTemporary(c: nat)
      reads this
    {
      c >= maxPermanent && c < ConnectorLimit()
    }

    predicate ConnectorIsActive(c: nat)
      reads this
    {
      exists d | d in displays :: displays[d].connector == c
    }

    predicate ConnectorIsReserved(c: nat)
      reads this
    {
      exists e | e in reservations :: reservations[e] == c
    }

    predicate ConnectorIsReservedForOther(c: nat, d: nat)
      reads this
    {
      exists e | e in reservations :: e != d && reservations[e] == c
    }

    predicate LeaseHasPendingDeparture(l: nat)
      reads this
    {
      exists d | d in displays :: displays[d].leaseId == l && displays[d].pending
    }

    method RemoveConnectorReservation(c: nat, except: nat)
      modifies this`reservations
      ensures reservations == DropReservations(old(reservations), c, except)
    {
      ghost var before := reservations;
      var todo := reservations.Keys;
      while todo != {}
        invariant todo <= before.Keys
        invariant reservations.Keys == set e | e in before && (e in todo || e == except || before[e] != c)
        invariant forall e | e in reservations :: reservations[e] == before[e]
      {
        var e :| e in todo;
        if e != except && reservations[e] == c {
          reservations := reservations - {e};
        }
        todo := todo - {e};
      }
    }

    method ConnectorIndexForDisplay(d: nat, retain: bool) returns (c: nat)
      modifies this`reservations
      ensures c == SelectConnector(old(Contents()), d, retain).connector
      ensures reservations == SelectConnector(old(Contents()), d, retain).reservations
    {
      if retain && d in reservations {
        var c := reservations[d];
        if ConnectorIsTemporary(c) && !ConnectorIsActive(c) {
          return c;
        }
      }
      var limit := ConnectorLimit();
      c := maxPermanent;
      while c < limit
        invariant maxPermanent <= c <= limit
        invariant FirstOpen(Contents(), d, retain, c) == FirstOpen(Contents(), d, retain, maxPermanent)
      {
        var reserved := if retain then ConnectorIsReservedForOther(c, d) else ConnectorIsReserved(c);
        if !ConnectorIsActive(c) && c !in quarantined && !reserved {
          return;
        }
        c := c + 1;
      }
      c := maxPermanent;
      while c < limit
        invariant maxPermanent <= c <= limit
        invariant reservations == old(reservations)
        invariant FirstFree(Contents(), c) == FirstFree(Contents(), maxPermanent)
      {
        if !ConnectorIsActive(c) && c !in quarantined {
          RemoveConnectorReservation(c, d);
          return;
        }
        c := c + 1;
      }
    }

    /** Draws candidates until one is unused; the search stops within one more than the active displays. */
    method NextEphemeralIdentity() returns (identity: nat)
      requires |displays| < WORD32
      modifies this`nextEphemeral
      ensures var skipped := SkippedCandidates(displays, old(nextEphemeral), 0);
              && identity == EphemeralId(old(nextEphemeral), skipped)
              && nextEphemeral == (old(nextEphemeral) + skipped + 1) % WORD64
    {
      hide IdentityOf, IdentityInUse, EphemeralId, SkippedCandidates;
      ghost var counter, tried := nextEphemeral, 0;
      identity := EphemeralId(nextEphemeral, 0);
      nextEphemeral := (nextEphemeral + 1) % WORD64;
      while IdentityInUse(displays, identity)
        invariant 0 <= tried <= |displays|
        invariant identity == EphemeralId(counter, tried)
        invariant nextEphemeral == (counter + tried + 1) % WORD64
        invariant forall j | 0 <= j < tried :: IdentityInUse(displays, EphemeralId(counter, j))
        invariant SkippedCandidates(displays, counter, tried) == SkippedCandidates(displays, counter, 0)
        decreases |displays| - tried
      {
        SkipsOn(displays, counter, tried);
        tried := tried + 1;
        CandidateAfter(counter, tried);
        identity := EphemeralId(nextEphemeral, 0);
        nextEphemeral := (nextEphemeral + 1) % WORD64;
      }
    }

    /** The checks a create passes before any connector is looked for. */
    method CheckCreate(r: CreateRequest, owner: Option<Capability>, now: int) returns (error: StoreError)
      ensures error == CreateRefusal(Contents(), r, owner, now)
    {
      if !ValidCreate(r, owner) {
        return ValidationFailed;
      }
      if r.displayId in displays {
        return AlreadyExists;
      }
      if |displays| >= maxTemporary {
        return LimitReached;
      }
      if r.leaseId in leases {
        var lease := leases[r.leaseId];
        if lease.expiresAt <= now || LeaseHasPendingDeparture(r.leaseId) {
          return LeaseNotFound;
        }
        if owner.Some? && lease.capability.Some? && lease.capability.value != owner.value {
          return LeaseNotFound;
        }
      }
      return NoError;
    }

    method CreateTemporaryDisplay(r: CreateRequest, owner: Option<Capability>, now: int) returns (error: StoreError)
      requires Valid()
      modifies this
      ensures Valid() && error == Create(old(Contents()), r, owner, now).error
      ensures Contents() == Create(old(Contents()), r, owner, now).state
    {
      hide Inv, CreateRefusal, SelectConnector, IdentityInUse, SkippedCandidates, NewLease, Insert, EphemeralId,
           NormalizeTimeout;
      CreateInv(Contents(), r, owner, now);
      error := CheckCreate(r, owner, now);
      if error != NoError {
        return;
      }
      RoomLeft(Contents(), r, owner, now);
      var retain := !r.ephemeral;
      var c := ConnectorIndexForDisplay(r.displayId, retain);
      if !ConnectorIsTemporary(c) {
        return LimitReached;
      }
      var identity := r.displayId;
      if retain {
        if IdentityInUse(displays, identity) {
          return DuplicateIdentity;
        }
      } else {
        identity := NextEphemeralIdentity();
      }
      InsertIgnores(old(Contents()), reservations, nextEphemeral, r, owner, now, Selection(reservations, c), identity);
      FileDisplay(r, owner, now, c, identity);
    }

    /** Reserves the connector, adds the record, and opens or joins its lease. */
    method FileDisplay(r: CreateRequest, owner: Option<Capability>, now: int, c: nat, identity: nat)
      modifies this
      ensures Contents() == Insert(old(Contents()), r, NewLease(old(Contents()), r, owner, now),
                                   Selection(old(reservations), c), identity, old(nextEphemeral))
    {
      var retain, joins := !r.ephemeral, r.leaseId in leases;
      if retain {
        RemoveConnectorReservation(c, r.displayId);
        reservations := reservations[r.displayId := c];
      }
      var timeout := NormalizeTimeout(r.timeoutMs);
      var expires := now + timeout;
      if joins {
        timeout, expires := leases[r.leaseId].timeoutMs, leases[r.leaseId].expiresAt;
      }
      displays := displays[r.displayId :=
        Record(r.leaseId, r.displayId, timeout, c, expires, retain, identity, nextGeneration, false)];
      nextGeneration := nextGeneration + 1;
      if !joins {
        leases := leases[r.leaseId := Lease(timeout, expires, owner)];
      } else if owner.Some? && leases[r.leaseId].capability.None? {
        leases := leases[r.leaseId := leases[r.leaseId].(capability := owner)];
      } else {
        assert leases == leases[r.leaseId := leases[r.leaseId]];
      }
    }

    method MoveDisplays(l: nat, newLease: nat, timeout: nat, expires: int) returns (moved: nat)
      requires newLease != l
      modifies this`displays
      ensures displays == MoveLease(old(displays), l, newLease, timeout, expires)
      ensures moved == |set d | d in old(displays) && old(displays)[d].leaseId == l|
    {
      ghost var before := displays;
      ghost var done: set<nat> := {};
      moved := 0;
      var todo := displays.Keys;
      while todo != {}
        invariant todo <= before.Keys == displays.Keys
        invariant done == set d | d in before && d !in todo && before[d].leaseId == l
        invariant moved == |done|
        invariant forall d | d in before ::
                    displays[d] == if d in done then before[d].(leaseId := newLease, timeoutMs := timeout,
                                                                expiresAt := expires)
                                   else before[d]
      {
        var d :| d in todo;
        if displays[d].leaseId == l {
          displays := displays[d := displays[d].(leaseId := newLease, timeoutMs := timeout, expiresAt := expires)];
          moved := moved + 1;
          done := done + {d};
        }
        todo := todo - {d};
      }
      assert done == set d | d in before && before[d].leaseId == l;
    }

    method ReclaimTemporaryDisplay(r: ReclaimRequest, now: int) returns (error: StoreError, moved: nat)
      requires Valid()
      modifies this`displays, this`leases
      ensures Valid() && error == CanReclaim(old(Contents()), r, now)
      ensures Contents() == Reclaim(old(Contents()), r, now)
      ensures error == NoError ==>
                var l := old(displays)[r.displayId].leaseId;
                moved == |set d | d in old(displays) && old(displays)[d].leaseId == l|
    {
      hide Inv;
      ReclaimInv(Contents(), r, now);
      if !ValidReclaim(r) {
        return ValidationFailed, 0;
      }
      if r.displayId !in displays || displays[r.displayId].pending {
        return LeaseNotFound, 0;
      }
      var l := displays[r.displayId].leaseId;
      if l !in leases || leases[l].expiresAt <= now || LeaseHasPendingDeparture(l) || leases[l].capability.None? ||
         leases[l].capability.value != r.capability {
        return LeaseNotFound, 0;
      }
      if r.newLeaseId == l || r.newLeaseId in leases {
        return LeaseNotFound, 0;
      }
      var timeout := NormalizeTimeout(r.timeoutMs);
      var capability := leases[l].capability;
      moved := MoveDisplays(l, r.newLeaseId, timeout, now + timeout);
      leases := (leases - {l})[r.newLeaseId := Lease(timeout, now + timeout, capability)];
      return NoError, moved;
    }

    method RemoveLeaseIfEmpty(l: nat)
      modifies this`leases
      ensures Contents() == DropLeaseIfEmpty(old(Contents()), l)
    {
      if !exists d | d in displays :: displays[d].leaseId == l {
        leases := leases - {l};
      }
    }

    method RemoveTemporaryDisplay(r: LeaseDisplayRequest, mode: RemoveMode) returns (error: StoreError)
      requires Valid()
      modifies this`displays, this`leases, this`reservations
      ensures Valid() && error == CanRemove(old(Contents()), r)
      ensures Contents() == Remove(old(Contents()), r, mode)
    {
      hide Inv;
      RemoveInv(Contents(), r, mode);
      if !ValidLeaseDisplay(r) {
        return ValidationFailed;
      }
      if r.displayId !in displays || displays[r.displayId].leaseId != r.leaseId {
        return DisplayNotFound;
      }
      if mode.ReleaseReservation? {
        reservations := reservations - {r.displayId};
      }
      displays := displays - {r.displayId};
      RemoveLeaseIfEmpty(r.leaseId);
      return NoError;
    }

    method MarkTemporaryDisplayPendingDeparture(r: LeaseDisplayRequest) returns (error: StoreError)
      requires Valid()
      modifies this`displays
      ensures Valid() && error == CanRemove(old(Contents()), r)
      ensures Contents() == MarkPending(old(Contents()), r)
    {
      hide Inv;
      MarkInv(Contents(), r);
      if !ValidLeaseDisplay(r) {
        return ValidationFailed;
      }
      if r.displayId !in displays || displays[r.displayId].leaseId != r.leaseId {
        return DisplayNotFound;
      }
      displays := displays[r.displayId := displays[r.displayId].(pending := true)];
      return NoError;
    }

    method AbandonPendingTemporaryDisplay(r: LeaseDisplayRequest, generation: nat, owner: Capability)
      returns (error: StoreError)
      requires Valid()
      modifies this`displays, this`leases, this`reservations, this`quarantined
      ensures Valid() && error == CanAbandon(old(Contents()), r, generation, owner)
      ensures Contents() == Abandon(old(Contents()), r, generation, owner)
    {
      hide Inv;
      AbandonInv(Contents(), r, generation, owner);
      if !ValidLeaseDisplay(r) {
        return ValidationFailed;
      }
      if r.displayId !in displays {
        return DisplayNotFound;
      }
      var display := displays[r.displayId];
      if display.leaseId != r.leaseId || display.generation != generation || !display.pending {
        return DisplayNotFound;
      }
      if r.leaseId !in leases || leases[r.leaseId].capability.None? || leases[r.leaseId].capability.value != owner {
        return LeaseNotFound;
      }
      quarantined := quarantined + {display.connector};
      reservations := reservations - {r.displayId};
      displays := displays - {r.displayId};
      RemoveLeaseIfEmpty(r.leaseId);
      return NoError;
    }

    method RenewDisplays(l: nat, timeout: nat, expires: int)
      modifies this`displays
      ensures displays == Renew(old(displays), l, timeout, expires)
    {
      ghost var before := displays;
      var todo := displays.Keys;
      while todo != {}
        invariant todo <= before.Keys == displays.Keys
        invariant forall d | d in before ::
                    displays[d] == if d !in todo && before[d].leaseId == l && !before[d].pending
                                   then before[d].(timeoutMs := timeout, expiresAt := expires) else before[d]
      {
        var d :| d in todo;
        if displays[d].leaseId == l && !displays[d].pending {
          displays := displays[d := displays[d].(timeoutMs := timeout, expiresAt := expires)];
        }
        todo := todo - {d};
      }
    }

    method FeedLease(r: LeaseRequest, now: int) returns (error: StoreError)
      requires Valid()
      modifies this`displays, this`leases
      ensures Valid() && error == CanFeed(old(Contents()), r, now)
      ensures Contents() == Feed(old(Contents()), r, now)
    {
      hide Inv;
      FeedInv(Contents(), r, now);
      if !ValidLease(r) {
        return ValidationFailed;
      }
      if r.leaseId !in leases {
        return LeaseNotFound;
      }
      if leases[r.leaseId].expiresAt <= now ||
         exists d | d in displays :: displays[d].leaseId == r.leaseId && displays[d].pending &&
           displays[d].expiresAt <= now {
        return LeaseNotFound;
      }
      var timeout := NormalizeTimeout(r.timeoutMs);
      leases := leases[r.leaseId := leases[r.leaseId].(timeoutMs := timeout, expiresAt := now + timeout)];
      RenewDisplays(r.leaseId, timeout, now + timeout);
      return NoError;
    }

    method EraseDisplaysOfLease(l: nat)
      modifies this`displays
      ensures displays == map d | d in old(displays) && old(displays)[d].leaseId != l :: old(displays)[d]
    {
      ghost var before := displays;
      var todo := displays.Keys;
      while todo != {}
        invariant todo <= before.Keys
        invariant displays.Keys == set d | d in before && (d in todo || before[d].leaseId != l)
        invariant forall d | d in displays :: displays[d] == before[d]
      {
        var d :| d in todo;
        if displays[d].leaseId == l {
          displays := displays - {d};
        }
        todo := todo - {d};
      }
    }

    method ReleaseLease(r: LeaseRequest) returns (error: StoreError)
      requires Valid()
      modifies this`displays, this`leases
      ensures Valid() && error == CanRelease(old(Contents()), r)
      ensures Contents() == Release(old(Contents()), r)
    {
      hide Inv;
      ReleaseInv(Contents(), r);
      if !ValidLease(r) {
        return ValidationFailed;
      }
      if r.leaseId !in leases {
        return LeaseNotFound;
      }
      EraseDisplaysOfLease(r.leaseId);
      leases := leases - {r.leaseId};
      assert Contents() == Release(old(Contents()), r);
      return NoError;
    }

    method EraseDisplay(d: nat)
      requires d in displays
      modifies this`displays, this`leases
      ensures displays == old(displays) - {d} && |displays.Keys| == |old(displays).Keys| - 1
      ensures leases == old(leases) - (if LeaseIn(displays, old(displays)[d].leaseId) then {}
                                       else {old(displays)[d].leaseId})
    {
      var l := displays[d].leaseId;
      displays := displays - {d};
      assert displays.Keys == old(displays).Keys - {d};
      RemoveLeaseIfEmpty(l);
    }

    method EraseExpired(now: int) returns (removed: nat)
      modifies this`displays, this`leases
      ensures displays == Unexpired(old(displays), now)
      ensures leases == old(leases) - EmptiedLeases(old(displays), displays)
      ensures removed == |old(displays).Keys| - |displays.Keys|
    {
      hide EmptiedLeases, LeaseIn, IdentityOf, Walked, Unexpired;
      ghost var before, leasesBefore := displays, leases;
      removed := 0;
      var todo := displays.Keys;
      NothingEmptied(displays);
      WalkStarts(displays, now);
      while todo != {}
        invariant Walked(before, todo, now, displays)
        invariant removed == |before.Keys| - |displays.Keys|
        invariant leases == leasesBefore - EmptiedLeases(before, displays)
      {
        var d :| d in todo;
        WalkOn(before, todo, now, displays, d);
        if displays[d].expiresAt <= now {
          EmptiedStep(before, displays, d);
          EraseDisplay(d);
          removed := removed + 1;
        }
        todo := todo - {d};
      }
      WalkEnds(before, now, displays);
    }

    method ReapExpired(now: int) returns (removed: nat)
      requires Valid()
      modifies this`displays, this`leases
      ensures Valid() && Contents() == Reap(old(Contents()), now)
      ensures removed == |old(displays).Keys| - |displays.Keys|
    {
      hide Inv, Reap, EmptiedLeases, Unexpired;
      ReapInv(Contents(), now);
      EmptiedIsReaped(Contents(), now);
      removed := EraseExpired(now);
    }
  }

  /** Filing a record takes reservations and counter from its arguments, and the lease from the rest. */
  lemma InsertIgnores(s: State, reservations: map<nat, nat>, next: nat, r: CreateRequest, owner: Option<Capability>,
                      now: int, selected: Selection, identity: nat)
    ensures var s' := s.(reservations := reservations, nextEphemeral := next);
            && NewLease(s', r, owner, now) == NewLease(s, r, owner, now)
            && Insert(s', r, NewLease(s', r, owner, now), selected, identity, next) ==
                 Insert(s, r, NewLease(s, r, owner, now), selected, identity, next)
  {
  }

  lemma RoomLeft(s: State, r: CreateRequest, owner: Option<Capability>, now: int)
    requires CreateRefusal(s, r, owner, now) == NoError
    ensures |s.displays| < WORD32
  {
  }

  /** The walk has still to visit `todo`, and has erased what had expired among the others. */
  ghost predicate Walked(before: map<nat, Record>, todo: set<nat>, now: int, left: map<nat, Record>) {
    && todo <= before.Keys
    && left.Keys == (set d | d in before && (d in todo || before[d].expiresAt > now))
    && forall d | d in left :: left[d] == before[d]
  }

  lemma WalkStarts(displays: map<nat, Record>, now: int)
    ensures Walked(displays, displays.Keys, now, displays)
  {
  }

  lemma WalkOn(before: map<nat, Record>, todo: set<nat>, now: int, left: map<nat, Record>, d: nat)
    requires Walked(before, todo, now, left) && d in todo
    ensures d in left && left[d] == before[d] && left.Keys <= before.Keys &&
            forall e | e in left :: left[e] == before[e]
    ensures Walked(before, todo - {d}, now, if left[d].expiresAt <= now then left - {d} else left)
  {
  }

  lemma WalkEnds(before: map<nat, Record>, now: int, left: map<nat, Record>)
    requires Walked(before, {}, now, left)
    ensures left == Unexpired(before, now)
  {
  }

  /** A candidate that is taken leaves the search where it would have come from there. */
  lemma SkipsOn(displays: map<nat, Record>, counter: nat, k: nat)
    requires |displays| < WORD32 && k <= |displays|
    requires forall j | 0 <= j <= k :: IdentityInUse(displays, EphemeralId(counter, j))
    ensures k < |displays| && SkippedCandidates(displays, counter, k) == SkippedCandidates(displays, counter, k + 1)
  {
    hide IdentityInUse, EphemeralId;
    CandidatesExhaust(displays, counter, k + 1);
  }

  lemma NothingEmptied(displays: map<nat, Record>)
    ensures EmptiedLeases(displays, displays) == {}
  {
  }

  lemma CandidateAfter(counter: nat, k: nat)
    ensures EphemeralId((counter + k) % WORD64, 0) == EphemeralId(counter, k)
    ensures ((counter + k) % WORD64 + 1) % WORD64 == (counter + k + 1) % WORD64
  {
    WrapTwice(counter + k);
  }

  lemma WrapTwice(c: nat)
    ensures (c % WORD64) % WORD64 == c % WORD64
    ensures (c % WORD64 + 1) % WORD64 == (c + 1) % WORD64
  {
  }

  /** Leases that had a display before and have none left now. */
  ghost function EmptiedLeases(before: map<nat, Record>, left: map<nat, Record>): set<nat> {
    set d | d in before && d !in left && !LeaseIn(left, before[d].leaseId) :: before[d].leaseId
  }

  ghost predicate LeaseIn(displays: map<nat, Record>, l: nat) {
    exists e | e in displays :: displays[e].leaseId == l
  }

  lemma EmptiedIsReaped(s: State, now: int)
    ensures var left := Unexpired(s.displays, now);
            Reap(s, now) == s.(displays := left, leases := s.leases - EmptiedLeases(s.displays, left))
  {
  }

  lemma EmptiedStep(before: map<nat, Record>, left: map<nat, Record>, d: nat)
    requires d in left && left.Keys <= before.Keys && forall e | e in left :: left[e] == before[e]
    ensures var now, l := left - {d}, before[d].leaseId;
            EmptiedLeases(before, now) == EmptiedLeases(before, left) + (if LeaseIn(now, l) then {} else {l})
  {
    var now, l := left - {d}, before[d].leaseId;
    forall m ensures LeaseIn(left, m) <==> LeaseIn(now, m) || m == l {
      if LeaseIn(left, m) {
        var e :| e in left && left[e].leaseId == m;
        if e != d {
          assert now[e].leaseId == m;
        }
      }
      if LeaseIn(now, m) {
        var e :| e in now && now[e].leaseId == m;
        assert left[e].leaseId == m;
      }
      assert left[d].leaseId == l;
    }
    var target := EmptiedLeases(before, left) + (if LeaseIn(now, l) then {} else {l});
    forall m | m in EmptiedLeases(before, now) ensures m in target {
      var x :| x in before && x !in now && !LeaseIn(now, before[x].leaseId) && before[x].leaseId == m;
      if x != d {
        assert x !in left;
      }
    }
    forall m | m in target ensures m in EmptiedLeases(before, now) {
      if m in EmptiedLeases(before, left) {
        var x :| x in before && x !in left && !LeaseIn(left, before[x].leaseId) && before[x].leaseId == m;
        assert x !in now && !LeaseIn(now, m);
      } else {
        assert d in before && d !in now;
      }
    }
  }
}

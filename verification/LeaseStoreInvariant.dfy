/** The joint invariant of the lease store, kept by every operation and so by every run. */
module LeaseStoreInvariant {
  import opened Wrappers
  import opened Arithmetic
  import opened Bits
  import opened DisplayIdentity
  import opened LeaseStoreSpec

  /** Each record sits under its own id, on a temporary connector, with an issued generation. */
  ghost predicate RecordsFiled(s: State) {
    forall d | d in s.displays ::
      var r := s.displays[d];
      && r.displayId == d && d != 0 && r.leaseId >= MIN_LEASE_ID && r.identityId != 0
      && s.IsTemporary(r.connector) && 1 <= r.generation < s.nextGeneration
      && (r.retain ==> r.identityId == d)
  }

  /** Live leases are exactly the leases of stored displays. */
  ghost predicate LeasesLive(s: State) {
    && (forall d | d in s.displays :: s.displays[d].leaseId in s.leases)
    && (forall l {:trigger s.LeaseHasDisplays(l)} | l in s.leases :: s.LeaseHasDisplays(l))
  }

  /** A display that is not awaiting departure shows its lease's timeout and expiry. */
  ghost predicate MirrorsLease(s: State) {
    forall d | d in s.displays && s.displays[d].leaseId in s.leases && !s.displays[d].pending ::
      && s.displays[d].timeoutMs == s.leases[s.displays[d].leaseId].timeoutMs
      && s.displays[d].expiresAt == s.leases[s.displays[d].leaseId].expiresAt
  }

  /** No two displays share a connector or a generation. */
  ghost predicate DistinctPlaces(s: State) {
    forall d, e | d in s.displays && e in s.displays && d != e ::
      && s.displays[d].connector != s.displays[e].connector
      && s.displays[d].generation != s.displays[e].generation
  }

  /** No two displays present the same EDID product code and serial number. */
  ghost predicate DistinctIdentities(s: State) {
    forall d, e | d in s.displays && e in s.displays && d != e ::
      IdentityOf(s.displays[d].EffectiveId()) != IdentityOf(s.displays[e].EffectiveId())
  }

  /** A retained display's reservation is its connector, and nobody else reserves an occupied connector. */
  ghost predicate ReservationsFit(s: State) {
    && (forall d | d in s.displays && s.displays[d].retain ::
          d in s.reservations && s.reservations[d] == s.displays[d].connector)
    && (forall d, e | d in s.displays && e in s.reservations && s.reservations[e] == s.displays[d].connector :: e == d)
  }

  /** A quarantined connector is a temporary one, unoccupied and unreserved. */
  ghost predicate QuarantineClean(s: State) {
    && (forall c | c in s.quarantined :: s.IsTemporary(c))
    && (forall d | d in s.displays :: s.displays[d].connector !in s.quarantined)
    && (forall e | e in s.reservations :: s.reservations[e] !in s.quarantined)
  }

  /** Where everything sits: connectors, reservations, quarantine. */
  ghost predicate Placed(s: State) {
    && RecordsFiled(s) && DistinctPlaces(s) && ReservationsFit(s) && QuarantineClean(s)
    && |s.displays| <= s.maxTemporary && s.nextGeneration >= 1
  }

  ghost predicate Inv(s: State) {
    Placed(s) && DistinctIdentities(s) && LeasesLive(s) && MirrorsLease(s)
  }

  lemma InvPlaced(s: State)
    requires Inv(s)
    ensures Placed(s)
  {
  }

  /** The store starts in the invariant from any reservation map. */
  lemma InitialInv(maxPermanent: U32, maxTemporary: U32, reservations: map<nat, nat>)
    ensures Inv(InitialState(maxPermanent, maxTemporary, reservations))
  {
  }

  // ---------------------------------------------------------------- create

  lemma EphemeralIdPositive(counter: nat, k: nat)
    ensures EphemeralId(counter, k) != 0
  {
    var c := (counter + k) % WORD64;
    OrHighWord(c);
    OrPositive(EPHEMERAL_BASE_HIGH, c / WORD32);
  }

  lemma {:induction false} OrPositive(a: nat, b: nat)
    requires a > 0
    ensures Or(a, b) > 0
    decreases a + b
  {
    if a > 1 {
      OrPositive(a / 2, b / 2);
    }
  }

  /**
   Whatever connector a create is given is free: even the unchecked reservation path never yields a
   quarantined one.
   */
  lemma SelectedIsFree(s: State, d: nat, retain: bool)
    requires QuarantineClean(s)
    ensures var c := SelectConnector(s, d, retain).connector;
            s.IsTemporary(c) ==> s.IsFree(c)
    ensures s.IsTemporary(SelectConnector(s, d, retain).connector) ||
            SelectConnector(s, d, retain).connector == s.Limit()
  {
  }

  /** Selection only ever drops reservations other displays hold on the connector it returns. */
  lemma SelectionFrame(s: State, d: nat, retain: bool)
    ensures var sel := SelectConnector(s, d, retain);
            && sel.reservations.Keys <= s.reservations.Keys
            && (forall e | e in sel.reservations :: sel.reservations[e] == s.reservations[e])
            && (forall e | e in s.reservations && s.reservations[e] != sel.connector :: e in sel.reservations)
            && (d in s.reservations ==> d in sel.reservations)
  {
  }

  /** What a successful create changes: one new record, on a free connector, under a new generation. */
  ghost predicate Added(s: State, s': State, added: Record) {
    var d := added.displayId;
    && d !in s.displays && d != 0 && |s.displays| < s.maxTemporary
    && s'.displays == s.displays[d := added]
    && added.leaseId >= MIN_LEASE_ID && !added.pending
    && (added.retain ==> added.identityId == d) && added.identityId != 0
    && s.IsTemporary(added.connector) && s.IsFree(added.connector)
    && added.generation == s.nextGeneration && s'.nextGeneration == s.nextGeneration + 1
    && s'.quarantined == s.quarantined && s'.maxPermanent == s.maxPermanent && s'.maxTemporary == s.maxTemporary
  }

  /** Its lease is the one it joined or opened, and it shows that lease's times. */
  ghost predicate JoinsLease(s: State, s': State, added: Record) {
    && s'.leases.Keys == s.leases.Keys + {added.leaseId}
    && (forall l | l in s.leases ::
          s'.leases[l].timeoutMs == s.leases[l].timeoutMs && s'.leases[l].expiresAt == s.leases[l].expiresAt)
    && added.timeoutMs == s'.leases[added.leaseId].timeoutMs && added.expiresAt == s'.leases[added.leaseId].expiresAt
  }

  /** Reservations afterwards: old ones that do not touch the new connector, and the new display's own. */
  ghost predicate ReservationsAfter(s: State, s': State, added: Record) {
    var d, c := added.displayId, added.connector;
    && (added.retain ==> d in s'.reservations && s'.reservations[d] == c)
    && (forall e | e in s'.reservations && (e != d || !added.retain) ::
          e in s.reservations && s'.reservations[e] == s.reservations[e])
    && (forall e | e in s'.reservations && s'.reservations[e] == c :: e == d)
    && (forall e | e in s.reservations && s.reservations[e] != c && e != d :: e in s'.reservations)
  }

  /** The record a successful create adds. */
  lemma CreateAdds(s: State, r: CreateRequest, owner: Option<Capability>, now: int)
    requires QuarantineClean(s) && Create(s, r, owner, now).error == NoError
    ensures var s', d := Create(s, r, owner, now).state, r.displayId;
            && d in s'.displays && d !in s.displays && Added(s, s', s'.displays[d]) && s'.displays[d].displayId == d
            && s'.displays[d].leaseId == r.leaseId && s'.displays[d].retain == !r.ephemeral
            && s'.displays[d].connector == SelectConnector(s, d, !r.ephemeral).connector
  {
    SelectedIsFree(s, r.displayId, !r.ephemeral);
    if r.ephemeral {
      EphemeralIdPositive(s.nextEphemeral, SkippedCandidates(s.displays, s.nextEphemeral, 0));
    }
  }

  lemma CreateJoins(s: State, r: CreateRequest, owner: Option<Capability>, now: int)
    requires Create(s, r, owner, now).error == NoError
    ensures var s' := Create(s, r, owner, now).state;
            r.displayId in s'.displays && JoinsLease(s, s', s'.displays[r.displayId])
  {
    var s' := Create(s, r, owner, now).state;
    InsertJoins(s, s', r, NewLease(s, r, owner, now));
  }

  lemma InsertJoins(s: State, s': State, r: CreateRequest, lease: Lease)
    requires s'.leases == s.leases[r.leaseId := lease] && r.displayId in s'.displays
    requires s'.displays[r.displayId].leaseId == r.leaseId
    requires s'.displays[r.displayId].timeoutMs == lease.timeoutMs &&
             s'.displays[r.displayId].expiresAt == lease.expiresAt
    requires r.leaseId in s.leases ==>
               lease.timeoutMs == s.leases[r.leaseId].timeoutMs && lease.expiresAt == s.leases[r.leaseId].expiresAt
    ensures JoinsLease(s, s', s'.displays[r.displayId])
  {
  }

  /** The identity a create gives out is used by no active display. */
  lemma CreateIdentity(s: State, r: CreateRequest, owner: Option<Capability>, now: int)
    requires Create(s, r, owner, now).error == NoError
    ensures var s' := Create(s, r, owner, now).state;
            r.displayId in s'.displays && !s.IdentityActive(s'.displays[r.displayId].EffectiveId())
  {
    if r.ephemeral {
      EphemeralIdPositive(s.nextEphemeral, SkippedCandidates(s.displays, s.nextEphemeral, 0));
    }
  }

  lemma CreateReservations(s: State, r: CreateRequest, owner: Option<Capability>, now: int)
    requires QuarantineClean(s) && Create(s, r, owner, now).error == NoError
    ensures var s' := Create(s, r, owner, now).state;
            r.displayId in s'.displays && ReservationsAfter(s, s', s'.displays[r.displayId])
  {
  }

  lemma AddedLeases(s: State, s': State, added: Record)
    requires LeasesLive(s) && Added(s, s', added) && JoinsLease(s, s', added)
    ensures LeasesLive(s')
  {
    forall l | l in s'.leases ensures s'.LeaseHasDisplays(l) {
      if l == added.leaseId {
        assert s'.displays[added.displayId].leaseId == l;
      } else {
        assert s.LeaseHasDisplays(l);
        var e :| e in s.displays && s.displays[e].leaseId == l;
        assert s'.displays[e] == s.displays[e];
      }
    }
  }

  lemma AddedMirrors(s: State, s': State, added: Record)
    requires LeasesLive(s) && MirrorsLease(s) && Added(s, s', added) && JoinsLease(s, s', added)
    ensures MirrorsLease(s')
  {
  }

  lemma AddedIdentities(s: State, s': State, added: Record)
    requires DistinctIdentities(s) && Added(s, s', added) && !s.IdentityActive(added.EffectiveId())
    ensures DistinctIdentities(s')
  {
  }

  lemma AddedFiled(s: State, s': State, added: Record)
    requires RecordsFiled(s) && DistinctPlaces(s) && s.nextGeneration >= 1 && Added(s, s', added)
    ensures RecordsFiled(s') && DistinctPlaces(s')
  {
    forall e | e in s.displays ensures s.displays[e].connector != added.connector {
      assert s.IsActive(s.displays[e].connector);
    }
  }

  lemma AddedReservations(s: State, s': State, added: Record)
    requires ReservationsFit(s) && QuarantineClean(s) && Added(s, s', added) && ReservationsAfter(s, s', added)
    ensures ReservationsFit(s') && QuarantineClean(s')
  {
  }

  /** A refused create gives up what the selection gave up, or nothing. */
  lemma RefusedDrops(s: State, r: CreateRequest, owner: Option<Capability>, now: int)
    requires Placed(s) && Create(s, r, owner, now).error != NoError
    ensures var s', c := Create(s, r, owner, now).state, SelectConnector(s, r.displayId, !r.ephemeral).connector;
            s' == s || Dropped(s, s', c)
  {
    if CreateRefusal(s, r, owner, now) == NoError {
      SelectedIsFree(s, r.displayId, !r.ephemeral);
      SelectionFrame(s, r.displayId, !r.ephemeral);
    }
  }

  /** A refused create changes at most the reservations, and only by dropping some on an unoccupied connector. */
  lemma RefusedCreateInv(s: State, r: CreateRequest, owner: Option<Capability>, now: int)
    requires Inv(s) && Create(s, r, owner, now).error != NoError
    ensures Inv(Create(s, r, owner, now).state)
    ensures Create(s, r, owner, now).state == s.(reservations := Create(s, r, owner, now).state.reservations)
  {
    hide Inv, Create, Dropped;
    InvPlaced(s);
    RefusedDrops(s, r, owner, now);
    var s', c := Create(s, r, owner, now).state, SelectConnector(s, r.displayId, !r.ephemeral).connector;
    if s' != s {
      DroppedOnly(s, s', c);
      ReservationsDropped(s, s', c);
    }
  }

  /** Reservations are given up, of a connector that nobody occupies. */
  ghost predicate Dropped(s: State, s': State, c: nat) {
    && s' == s.(reservations := s'.reservations) && !s.IsActive(c)
    && s'.reservations.Keys <= s.reservations.Keys
    && (forall e | e in s'.reservations :: s'.reservations[e] == s.reservations[e])
    && (forall e | e in s.reservations && s.reservations[e] != c :: e in s'.reservations)
  }

  lemma DroppedPlaced(s: State, s': State, c: nat)
    requires Placed(s) && Dropped(s, s', c)
    ensures Placed(s')
  {
    forall x | x in s.displays ensures s.displays[x].connector != c {
      assert s.IsActive(s.displays[x].connector);
    }
  }

  lemma DroppedLeases(s: State, s': State, c: nat)
    requires LeasesLive(s) && MirrorsLease(s) && DistinctIdentities(s) && Dropped(s, s', c)
    ensures LeasesLive(s') && MirrorsLease(s') && DistinctIdentities(s')
  {
    forall l | l in s'.leases ensures s'.LeaseHasDisplays(l) {
      assert s.LeaseHasDisplays(l);
    }
  }

  lemma DroppedOnly(s: State, s': State, c: nat)
    requires Dropped(s, s', c)
    ensures s' == s.(reservations := s'.reservations)
  {
  }

  lemma ReservationsDropped(s: State, s': State, c: nat)
    requires Inv(s) && Dropped(s, s', c)
    ensures Inv(s')
  {
    hide Placed, LeasesLive, MirrorsLease, DistinctIdentities, Dropped;
    DroppedPlaced(s, s', c);
    DroppedLeases(s, s', c);
  }

  lemma CreateInv(s: State, r: CreateRequest, owner: Option<Capability>, now: int)
    requires Inv(s)
    ensures Inv(Create(s, r, owner, now).state)
  {
    if Create(s, r, owner, now).error == NoError {
      CreateAdds(s, r, owner, now);
      CreateJoins(s, r, owner, now);
      CreateIdentity(s, r, owner, now);
      CreateReservations(s, r, owner, now);
      var s' := Create(s, r, owner, now).state;
      var added := s'.displays[r.displayId];
      AddedFiled(s, s', added);
      AddedReservations(s, s', added);
      AddedIdentities(s, s', added);
      AddedLeases(s, s', added);
      AddedMirrors(s, s', added);
    } else {
      RefusedCreateInv(s, r, owner, now);
    }
  }

  // ---------------------------------------------------------------- operations that restamp records

  /** Same displays in the same places; only leases, times and the pending flag may differ. */
  ghost predicate SamePlaces(s: State, s': State) {
    && s'.displays.Keys == s.displays.Keys && s'.reservations == s.reservations && s'.quarantined == s.quarantined
    && s'.maxPermanent == s.maxPermanent && s'.maxTemporary == s.maxTemporary && s'.nextGeneration == s.nextGeneration
    && forall d | d in s.displays ::
         && s'.displays[d].displayId == s.displays[d].displayId && s'.displays[d].connector == s.displays[d].connector
         && s'.displays[d].retain == s.displays[d].retain && s'.displays[d].identityId == s.displays[d].identityId
         && s'.displays[d].generation == s.displays[d].generation && s'.displays[d].leaseId >= MIN_LEASE_ID
  }

  lemma RestampPlaced(s: State, s': State)
    requires Placed(s) && SamePlaces(s, s')
    ensures Placed(s')
  {
    assert |s'.displays| == |s'.displays.Keys| == |s.displays.Keys| == |s.displays|;
  }

  lemma RestampIdentities(s: State, s': State)
    requires DistinctIdentities(s) && SamePlaces(s, s')
    ensures DistinctIdentities(s')
  {
  }

  lemma ReclaimLeases(s: State, r: ReclaimRequest, now: int)
    requires LeasesLive(s) && MirrorsLease(s) && CanReclaim(s, r, now) == NoError
    ensures LeasesLive(Reclaim(s, r, now)) && MirrorsLease(Reclaim(s, r, now))
  {
    var s' := Reclaim(s, r, now);
    assert s'.displays[r.displayId].leaseId == r.newLeaseId;
    forall m | m in s'.leases ensures s'.LeaseHasDisplays(m) {
      if m != r.newLeaseId {
        assert s.LeaseHasDisplays(m);
        var e :| e in s.displays && s.displays[e].leaseId == m;
        assert s'.displays[e].leaseId == m;
      }
    }
  }

  lemma ReclaimInv(s: State, r: ReclaimRequest, now: int)
    requires Inv(s)
    ensures Inv(Reclaim(s, r, now))
  {
    if CanReclaim(s, r, now) == NoError {
      assert SamePlaces(s, Reclaim(s, r, now));
      RestampPlaced(s, Reclaim(s, r, now));
      RestampIdentities(s, Reclaim(s, r, now));
      ReclaimLeases(s, r, now);
    }
  }

  lemma MarkLeases(s: State, r: LeaseDisplayRequest)
    requires LeasesLive(s) && MirrorsLease(s)
    ensures LeasesLive(MarkPending(s, r)) && MirrorsLease(MarkPending(s, r))
  {
    var s' := MarkPending(s, r);
    forall l | l in s'.leases ensures s'.LeaseHasDisplays(l) {
      assert s.LeaseHasDisplays(l);
      var e :| e in s.displays && s.displays[e].leaseId == l;
      assert s'.displays[e].leaseId == l;
    }
  }

  lemma MarkSamePlaces(s: State, r: LeaseDisplayRequest)
    requires RecordsFiled(s)
    ensures SamePlaces(s, MarkPending(s, r))
  {
  }

  lemma MarkInv(s: State, r: LeaseDisplayRequest)
    requires Inv(s)
    ensures Inv(MarkPending(s, r))
  {
    MarkSamePlaces(s, r);
    RestampPlaced(s, MarkPending(s, r));
    RestampIdentities(s, MarkPending(s, r));
    MarkLeases(s, r);
  }

  lemma FeedLeases(s: State, r: LeaseRequest, now: int)
    requires LeasesLive(s) && MirrorsLease(s)
    ensures LeasesLive(Feed(s, r, now)) && MirrorsLease(Feed(s, r, now))
  {
    var s' := Feed(s, r, now);
    forall l | l in s'.leases ensures s'.LeaseHasDisplays(l) {
      assert s.LeaseHasDisplays(l);
      var e :| e in s.displays && s.displays[e].leaseId == l;
      assert s'.displays[e].leaseId == l;
    }
  }

  lemma FeedSamePlaces(s: State, r: LeaseRequest, now: int)
    requires RecordsFiled(s)
    ensures SamePlaces(s, Feed(s, r, now))
  {
  }

  lemma FeedInv(s: State, r: LeaseRequest, now: int)
    requires Inv(s)
    ensures Inv(Feed(s, r, now))
  {
    FeedSamePlaces(s, r, now);
    RestampPlaced(s, Feed(s, r, now));
    RestampIdentities(s, Feed(s, r, now));
    FeedLeases(s, r, now);
  }

  // ---------------------------------------------------------------- operations that delete records

  /** Some displays and reservations are gone; a connector may have been quarantined after them. */
  ghost predicate Fewer(s: State, s': State) {
    && s'.displays.Keys <= s.displays.Keys && (forall d | d in s'.displays :: s'.displays[d] == s.displays[d])
    && s' == s.(displays := s'.displays, leases := s'.leases, reservations := s'.reservations,
                quarantined := s'.quarantined)
    && s'.reservations.Keys <= s.reservations.Keys
    && (forall e | e in s'.reservations :: s'.reservations[e] == s.reservations[e])
    && (forall e | e in s.reservations && e in s'.displays :: e in s'.reservations)
    && (forall c | c in s'.quarantined && c !in s.quarantined ::
          && s.IsTemporary(c)
          && (forall d | d in s'.displays :: s'.displays[d].connector != c)
          && (forall e | e in s'.reservations :: s'.reservations[e] != c))
  }

  /** The leases left are those that still have a display. */
  ghost predicate LeasesTrimmed(s: State, s': State) {
    && s'.leases.Keys <= s.leases.Keys && (forall l | l in s'.leases :: s'.leases[l] == s.leases[l])
    && (forall l {:trigger s'.LeaseHasDisplays(l)} | l in s.leases :: l in s'.leases <==> s'.LeaseHasDisplays(l))
  }

  lemma FewerFiled(s: State, s': State)
    requires Placed(s) && Fewer(s, s')
    ensures RecordsFiled(s') && DistinctPlaces(s') && |s'.displays| <= s'.maxTemporary && s'.nextGeneration >= 1
  {
    SubsetSize(s'.displays.Keys, s.displays.Keys);
  }

  lemma FewerPlaced(s: State, s': State)
    requires Placed(s) && Fewer(s, s')
    ensures Placed(s')
  {
    hide RecordsFiled, DistinctPlaces;
    FewerFiled(s, s');
  }

  lemma TrimmedLeases(s: State, s': State)
    requires LeasesLive(s) && MirrorsLease(s) && LeasesTrimmed(s, s')
    requires s'.displays.Keys <= s.displays.Keys && (forall d | d in s'.displays :: s'.displays[d] == s.displays[d])
    ensures LeasesLive(s') && MirrorsLease(s')
  {
    forall d | d in s'.displays ensures s'.displays[d].leaseId in s'.leases {
      assert s'.LeaseHasDisplays(s'.displays[d].leaseId);
    }
  }

  lemma ShrinkInv(s: State, s': State)
    requires Inv(s) && Fewer(s, s') && LeasesTrimmed(s, s')
    ensures Inv(s')
  {
    FewerPlaced(s, s');
    TrimmedLeases(s, s');
  }

  lemma DropLeaseFacts(s: State, t: State, l: nat)
    requires LeasesLive(s) && t.leases == s.leases
    requires t.displays.Keys <= s.displays.Keys && forall d | d in t.displays :: t.displays[d] == s.displays[d]
    requires forall d | d in s.displays && d !in t.displays :: s.displays[d].leaseId == l
    ensures var s' := DropLeaseIfEmpty(t, l);
            s' == t.(leases := s'.leases) && LeasesTrimmed(s, s')
  {
    var s' := DropLeaseIfEmpty(t, l);
    forall m | m in s.leases && m != l ensures s'.LeaseHasDisplays(m) {
      assert s.LeaseHasDisplays(m);
      var e :| e in s.displays && s.displays[e].leaseId == m;
      assert s'.displays[e].leaseId == m;
    }
    if t.LeaseHasDisplays(l) {
      assert s'.LeaseHasDisplays(l);
    } else {
      assert !s'.LeaseHasDisplays(l);
    }
  }

  lemma RemoveInv(s: State, r: LeaseDisplayRequest, mode: RemoveMode)
    requires Inv(s)
    ensures Inv(Remove(s, r, mode))
  {
    if CanRemove(s, r) == NoError {
      var t := s.(displays := s.displays - {r.displayId},
                  reservations := if mode.ReleaseReservation? then s.reservations - {r.displayId} else s.reservations);
      DropLeaseFacts(s, t, r.leaseId);
      ShrinkInv(s, Remove(s, r, mode));
    }
  }

  lemma AbandonInv(s: State, r: LeaseDisplayRequest, generation: nat, owner: Capability)
    requires Inv(s)
    ensures Inv(Abandon(s, r, generation, owner))
  {
    if CanAbandon(s, r, generation, owner) == NoError {
      var t := s.(quarantined := s.quarantined + {s.displays[r.displayId].connector},
                  reservations := s.reservations - {r.displayId},
                  displays := s.displays - {r.displayId});
      DropLeaseFacts(s, t, r.leaseId);
      ShrinkInv(s, Abandon(s, r, generation, owner));
    }
  }

  lemma ReleaseTrims(s: State, r: LeaseRequest)
    requires LeasesLive(s) && CanRelease(s, r) == NoError
    ensures LeasesTrimmed(s, Release(s, r))
  {
    var s' := Release(s, r);
    forall l | l in s.leases ensures l in s'.leases <==> s'.LeaseHasDisplays(l) {
      if l != r.leaseId {
        assert s.LeaseHasDisplays(l);
        var e :| e in s.displays && s.displays[e].leaseId == l;
        assert s'.displays[e].leaseId == l;
      }
    }
  }

  lemma ReleaseInv(s: State, r: LeaseRequest)
    requires Inv(s)
    ensures Inv(Release(s, r))
  {
    hide LeasesTrimmed, LeasesLive;
    if CanRelease(s, r) == NoError {
      ReleaseTrims(s, r);
      ShrinkInv(s, Release(s, r));
    }
  }

  lemma ReapTrims(s: State, now: int)
    requires LeasesLive(s)
    ensures Fewer(s, Reap(s, now)) && LeasesTrimmed(s, Reap(s, now))
  {
    var s' := Reap(s, now);
    forall l | l in s.leases ensures l in s'.leases <==> s'.LeaseHasDisplays(l) {
      assert s.LeaseHasDisplays(l);
      var e :| e in s.displays && s.displays[e].leaseId == l;
      if e in s'.displays {
        assert s'.displays[e].leaseId == l;
      }
    }
  }

  lemma ReapInv(s: State, now: int)
    requires Inv(s)
    ensures Inv(Reap(s, now))
  {
    ReapTrims(s, now);
    ShrinkInv(s, Reap(s, now));
  }

  lemma ApplyInv(s: State, op: StoreOp)
    requires Inv(s)
    ensures Inv(Apply(s, op))
  {
    hide Inv, Create, Reclaim, Remove, MarkPending, Abandon, Feed, Release, Reap;
    match op
    case OpCreate(r, owner, now) =>
      CreateInv(s, r, owner, now);
    case OpReclaim(r, now) => ReclaimInv(s, r, now);
    case OpRemove(r, mode) => RemoveInv(s, r, mode);
    case OpMark(r) => MarkInv(s, r);
    case OpAbandon(r, generation, owner) => AbandonInv(s, r, generation, owner);
    case OpFeed(r, now) => FeedInv(s, r, now);
    case OpRelease(r) => ReleaseInv(s, r);
    case OpReap(now) => ReapInv(s, now);
  }

  /** Every run of store operations, from any reservation map, ends in the joint invariant. */
  lemma {:induction false} RunInv(s: State, ops: seq<StoreOp>)
    requires Inv(s)
    ensures Inv(Run(s, ops))
    decreases |ops|
  {
    if ops != [] {
      ApplyInv(s, ops[0]);
      RunInv(Apply(s, ops[0]), ops[1..]);
    }
  }
}

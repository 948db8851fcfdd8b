/** Which connector a created display gets, over whole runs of the store. */
module ConnectorPolicy {
  import opened Wrappers
  import opened Arithmetic
  import opened LeaseStoreSpec
  import opened LeaseStoreInvariant

  // ---------------------------------------------------------------- selection

  /** Selection succeeds exactly when some temporary connector is neither occupied nor quarantined. */
  lemma SelectionSucceedsIff(s: State, d: nat, retain: bool)
    requires QuarantineClean(s)
    ensures s.IsTemporary(SelectConnector(s, d, retain).connector) <==> exists c :: s.IsTemporary(c) && s.IsFree(c)
  {
  }

  /** The integers from `lo` up to `hi`. */
  function Interval(lo: nat, hi: nat): (r: set<nat>)
    requires lo <= hi
    ensures |r| == hi - lo
    ensures forall x :: x in r <==> lo <= x < hi
    decreases hi - lo
  {
    if lo == hi then {} else {lo} + Interval(lo + 1, hi)
  }

  function ConnectorsInUse(displays: map<nat, Record>): set<nat> {
    set d | d in displays :: displays[d].connector
  }

  /** Distinct connectors: as many are in use as there are displays. */
  lemma {:induction false} InUseCount(displays: map<nat, Record>)
    requires forall d, e | d in displays && e in displays && d != e :: displays[d].connector != displays[e].connector
    ensures |ConnectorsInUse(displays)| == |displays|
    decreases |displays|
  {
    if |displays| == 0 {
      assert displays == map[];
      assert ConnectorsInUse(displays) == {};
    } else {
      assert displays.Keys != {};
      var d :| d in displays;
      var rest := displays - {d};
      assert rest.Keys == displays.Keys - {d} && |rest.Keys| == |displays.Keys| - 1;
      InUseCount(rest);
      var c := displays[d].connector;
      assert c !in ConnectorsInUse(rest);
      assert ConnectorsInUse(displays) == ConnectorsInUse(rest) + {c} by {
        forall x | x in ConnectorsInUse(displays) ensures x in ConnectorsInUse(rest) + {c} {
          var e :| e in displays && displays[e].connector == x;
          if e != d {
            assert rest[e].connector == x;
          }
        }
        forall x | x in ConnectorsInUse(rest) ensures x in ConnectorsInUse(displays) {
          var e :| e in rest && rest[e].connector == x;
          assert displays[e].connector == x;
        }
      }
    }
  }

  /**
   Selection fails exactly when the active displays and the quarantined
   connectors fill the connector range, saturated as it may be.
   */
  lemma SelectionFailsExactlyWhenFull(s: State, d: nat, retain: bool)
    requires Inv(s)
    ensures !s.IsTemporary(SelectConnector(s, d, retain).connector) <==>
            |s.displays| + |s.quarantined| == s.Limit() - s.maxPermanent
  {
    SelectionSucceedsIff(s, d, retain);
    FreeConnectorIff(s);
  }

  /** So while the range does not overflow 32 bits, when they number the maximum. */
  lemma SelectionFailsAtTheMaximum(s: State, d: nat, retain: bool)
    requires Inv(s) && s.maxPermanent + s.maxTemporary <= MAX_U32
    ensures !s.IsTemporary(SelectConnector(s, d, retain).connector) <==>
            |s.displays| + |s.quarantined| == s.maxTemporary
  {
    SelectionFailsExactlyWhenFull(s, d, retain);
  }

  /** Counting: a connector is left exactly when the range is larger than what is taken of it. */
  lemma FreeConnectorIff(s: State)
    requires RecordsFiled(s) && QuarantineClean(s) && DistinctPlaces(s)
    ensures |s.displays| + |s.quarantined| <= s.Limit() - s.maxPermanent
    ensures (exists c :: s.IsTemporary(c) && s.IsFree(c)) <==>
            |s.displays| + |s.quarantined| < s.Limit() - s.maxPermanent
  {
    InUseCount(s.displays);
    TakenConnectors(s);
    var taken, range := ConnectorsInUse(s.displays) + s.quarantined, Interval(s.maxPermanent, s.Limit());
    SubsetSize(taken, range);
    if c :| s.IsTemporary(c) && s.IsFree(c) {
      assert c in range;
      SubsetSize(taken + {c}, range);
    } else {
      forall c | c in range ensures c in taken {
        assert s.IsTemporary(c);
      }
      assert taken == range;
    }
  }

  lemma TakenConnectors(s: State)
    requires RecordsFiled(s) && QuarantineClean(s)
    ensures var taken := ConnectorsInUse(s.displays) + s.quarantined;
            && taken <= Interval(s.maxPermanent, s.Limit())
            && |taken| == |ConnectorsInUse(s.displays)| + |s.quarantined|
            && forall c :: s.IsFree(c) <==> c !in taken
  {
  }

  // ---------------------------------------------------------------- one-to-one reservations

  ghost predicate OneToOne(reservations: map<nat, nat>) {
    forall d, e | d in reservations && e in reservations && reservations[d] == reservations[e] :: d == e
  }

  /** No connector is both free and unspoken for. */
  ghost predicate NoOpenConnector(s: State, d: nat, retain: bool) {
    forall c | s.IsTemporary(c) :: !s.IsOpen(c, d, retain)
  }

  /** Another display loses its reservation in a create only if no open connector was left. */
  lemma EvictionOnlyWhenNoneOpen(s: State, r: CreateRequest, owner: Option<Capability>, now: int, e: nat)
    requires Inv(s) && OneToOne(s.reservations)
    requires e in s.reservations && e != r.displayId && e !in Create(s, r, owner, now).state.reservations
    ensures NoOpenConnector(s, r.displayId, !r.ephemeral)
  {
    var d, retain := r.displayId, !r.ephemeral;
    var open := FirstOpen(s, d, retain, s.maxPermanent);
    assert open == s.Limit();
  }

  lemma CreateKeepsOneToOne(s: State, r: CreateRequest, owner: Option<Capability>, now: int)
    requires Inv(s) && OneToOne(s.reservations)
    ensures OneToOne(Create(s, r, owner, now).state.reservations)
  {
    SelectionFrame(s, r.displayId, !r.ephemeral);
    if Create(s, r, owner, now).error == NoError {
      CreateReservations(s, r, owner, now);
    }
  }

  /** Apart from creates, operations only delete reservations. */
  lemma OnlyCreatesReserve(s: State, op: StoreOp)
    requires !op.OpCreate?
    ensures Apply(s, op).reservations.Keys <= s.reservations.Keys
    ensures forall e | e in Apply(s, op).reservations :: Apply(s, op).reservations[e] == s.reservations[e]
  {
  }

  lemma ApplyKeepsOneToOne(s: State, op: StoreOp)
    requires Inv(s) && OneToOne(s.reservations)
    ensures OneToOne(Apply(s, op).reservations)
  {
    if op.OpCreate? {
      CreateKeepsOneToOne(s, op.create, op.createOwner, op.createNow);
    } else {
      OnlyCreatesReserve(s, op);
    }
  }

  /** From one-to-one starting reservations, they stay one-to-one over every run. */
  lemma {:induction false} RunKeepsOneToOne(s: State, ops: seq<StoreOp>)
    requires Inv(s) && OneToOne(s.reservations)
    ensures OneToOne(Run(s, ops).reservations)
    decreases |ops|
  {
    if ops != [] {
      ApplyInv(s, ops[0]);
      ApplyKeepsOneToOne(s, ops[0]);
      RunKeepsOneToOne(Apply(s, ops[0]), ops[1..]);
    }
  }

  // ---------------------------------------------------------------- quarantine

  lemma QuarantineGrows(s: State, op: StoreOp)
    ensures s.quarantined <= Apply(s, op).quarantined
    ensures Apply(s, op).maxPermanent == s.maxPermanent && Apply(s, op).maxTemporary == s.maxTemporary
  {
  }

  /**
   Once quarantined, a connector is given to no later create of any run, from
   any starting reservations: it stays quarantined and nobody ever occupies it.
   */
  lemma {:induction false} QuarantinedForever(s: State, ops: seq<StoreOp>, c: nat)
    requires Inv(s) && c in s.quarantined
    ensures c in Run(s, ops).quarantined && !Run(s, ops).IsActive(c) && !Run(s, ops).IsReserved(c)
    decreases |ops|
  {
    if ops != [] {
      ApplyInv(s, ops[0]);
      QuarantineGrows(s, ops[0]);
      QuarantinedForever(Apply(s, ops[0]), ops[1..], c);
    }
  }

  /** In particular the next successful create, after any run, lands elsewhere. */
  lemma QuarantinedNotReissued(s: State, ops: seq<StoreOp>, r: CreateRequest, owner: Option<Capability>, now: int,
                               c: nat)
    requires Inv(s) && c in s.quarantined
    requires Create(Run(s, ops), r, owner, now).error == NoError
    ensures Create(Run(s, ops), r, owner, now).state.displays[r.displayId].connector != c
  {
    RunInv(s, ops);
    QuarantinedForever(s, ops, c);
    CreateAdds(Run(s, ops), r, owner, now);
  }

  /** The connector of a condemned display that its owner evicts is given to nobody in any later run. */
  lemma EvictedNeverReissued(s: State, evict: LeaseDisplayRequest, generation: nat, owner: Capability,
                             ops: seq<StoreOp>,
                             r: CreateRequest, o: Option<Capability>, now: int)
    requires Inv(s) && CanAbandon(s, evict, generation, owner) == NoError
    requires Create(Run(Abandon(s, evict, generation, owner), ops), r, o, now).error == NoError
    ensures Create(Run(Abandon(s, evict, generation, owner), ops), r, o, now).state.displays[r.displayId].connector
              != s.displays[evict.displayId].connector
  {
    hide Create, Run, Inv;
    var s' := Abandon(s, evict, generation, owner);
    ApplyInv(s, OpAbandon(evict, generation, owner));
    AbandonQuarantines(s, evict, generation, owner);
    QuarantinedNotReissued(s', ops, r, o, now, s.displays[evict.displayId].connector);
  }

  lemma AbandonQuarantines(s: State, evict: LeaseDisplayRequest, generation: nat, owner: Capability)
    requires CanAbandon(s, evict, generation, owner) == NoError
    ensures var s' := Abandon(s, evict, generation, owner);
            && s'.quarantined == s.quarantined + {s.displays[evict.displayId].connector}
            && s'.displays == s.displays - {evict.displayId} && s'.reservations == s.reservations - {evict.displayId}
  {
  }

  // ---------------------------------------------------------------- returning displays

  /** `d` alone reserves `c`, and nobody else occupies it. */
  ghost predicate Holds(s: State, d: nat, c: nat) {
    && s.IsTemporary(c)
    && d in s.reservations && s.reservations[d] == c
    && (forall e | e in s.reservations && s.reservations[e] == c :: e == d)
    && (forall e | e in s.displays && s.displays[e].connector == c :: e == d)
  }

  /**
   What can cost `d` its connector: being abandoned, having its reservation
   released, or a create that finds no open connector and takes its connector.
   */
  ghost predicate Disturbs(s: State, op: StoreOp, d: nat) {
    match op
    case OpAbandon(r, generation, owner) => r.displayId == d && CanAbandon(s, r, generation, owner) == NoError
    case OpRemove(r, mode) => r.displayId == d && mode.ReleaseReservation? && CanRemove(s, r) == NoError
    case OpCreate(r, owner, now) =>
      && r.displayId != d && CreateRefusal(s, r, owner, now) == NoError
      && !UsesOwnReservation(s, r.displayId, !r.ephemeral)
      && NoOpenConnector(s, r.displayId, !r.ephemeral)
    case _ => false
  }

  /** A create that gives out another connector, or gives a retained `d` its own, leaves `d` holding `c`. */
  lemma HeldWhenDone(s: State, r: CreateRequest, owner: Option<Capability>, now: int, d: nat, c: nat)
    requires Inv(s) && Holds(s, d, c) && Create(s, r, owner, now).error == NoError
    requires if r.displayId == d then !r.ephemeral && SelectConnector(s, d, true).connector == c
             else SelectConnector(s, r.displayId, !r.ephemeral).connector != c
    ensures Holds(Create(s, r, owner, now).state, d, c)
  {
    hide Create, SelectConnector, Inv;
    InvPlaced(s);
    CreateAdds(s, r, owner, now);
    CreateReservations(s, r, owner, now);
  }

  /** An ephemeral create of `d` itself takes nobody's reservation from it. */
  lemma HeldByEphemeral(s: State, r: CreateRequest, owner: Option<Capability>, now: int, c: nat)
    requires Inv(s) && Holds(s, r.displayId, c) && Create(s, r, owner, now).error == NoError && r.ephemeral
    ensures Holds(Create(s, r, owner, now).state, r.displayId, c)
  {
    hide Inv;
    InvPlaced(s);
    SelectionFrame(s, r.displayId, false);
    CreateAdds(s, r, owner, now);
  }

  lemma HeldWhenRefused(s: State, r: CreateRequest, owner: Option<Capability>, now: int, d: nat, c: nat)
    requires Inv(s) && Holds(s, d, c) && Create(s, r, owner, now).error != NoError
    requires r.displayId != d && CreateRefusal(s, r, owner, now) == NoError ==>
               SelectConnector(s, r.displayId, !r.ephemeral).connector != c
    ensures Holds(Create(s, r, owner, now).state, d, c)
  {
    SelectionFrame(s, r.displayId, !r.ephemeral);
  }

  lemma CreateSparesHeld(s: State, r: CreateRequest, owner: Option<Capability>, now: int, d: nat, c: nat)
    requires Inv(s) && Holds(s, d, c) && !Disturbs(s, OpCreate(r, owner, now), d)
    ensures Holds(Create(s, r, owner, now).state, d, c)
  {
    hide Create, Inv, Holds, SelectConnector, UsesOwnReservation, NoOpenConnector;
    var x, retain := r.displayId, !r.ephemeral;
    if CreateRefusal(s, r, owner, now) == NoError {
      if x != d {
        OthersAvoid(s, x, retain, d, c);
      } else if retain {
        RefusesStored(s, r, owner, now);
        OwnConnectorChosen(s, r, owner, now, c);
      }
    }
    if Create(s, r, owner, now).error != NoError {
      HeldWhenRefused(s, r, owner, now, d, c);
    } else {
      RefusesNothing(s, r, owner, now);
      if x == d && !retain {
        HeldByEphemeral(s, r, owner, now, c);
      } else {
        HeldWhenDone(s, r, owner, now, d, c);
      }
    }
  }

  lemma RefusesStored(s: State, r: CreateRequest, owner: Option<Capability>, now: int)
    requires CreateRefusal(s, r, owner, now) == NoError
    ensures r.displayId !in s.displays
  {
  }

  lemma RefusesNothing(s: State, r: CreateRequest, owner: Option<Capability>, now: int)
    requires Create(s, r, owner, now).error == NoError
    ensures CreateRefusal(s, r, owner, now) == NoError
  {
  }

  lemma OthersAvoid(s: State, x: nat, retain: bool, d: nat, c: nat)
    requires Holds(s, d, c) && x != d
    requires UsesOwnReservation(s, x, retain) || !NoOpenConnector(s, x, retain)
    ensures SelectConnector(s, x, retain).connector != c
  {
  }

  lemma OwnConnectorChosen(s: State, r: CreateRequest, owner: Option<Capability>, now: int, c: nat)
    requires Holds(s, r.displayId, c) && !r.ephemeral && r.displayId !in s.displays
    ensures SelectConnector(s, r.displayId, true).connector == c
  {
  }

  /** Apart from creates, operations move no display to another connector. */
  lemma OnlyCreatesPlace(s: State, op: StoreOp)
    requires !op.OpCreate?
    ensures Apply(s, op).displays.Keys <= s.displays.Keys
    ensures forall e | e in Apply(s, op).displays :: Apply(s, op).displays[e].connector == s.displays[e].connector
  {
  }

  lemma UndisturbedKeepsReservation(s: State, op: StoreOp, d: nat)
    requires !op.OpCreate? && !Disturbs(s, op, d) && d in s.reservations
    ensures d in Apply(s, op).reservations
  {
  }

  lemma ApplySparesHeld(s: State, op: StoreOp, d: nat, c: nat)
    requires Inv(s) && Holds(s, d, c) && !Disturbs(s, op, d)
    ensures Holds(Apply(s, op), d, c)
  {
    QuarantineGrows(s, op);
    if op.OpCreate? {
      CreateSparesHeld(s, op.create, op.createOwner, op.createNow, d, c);
    } else {
      OnlyCreatesReserve(s, op);
      OnlyCreatesPlace(s, op);
      UndisturbedKeepsReservation(s, op, d);
    }
  }

  ghost predicate NeverDisturbed(s: State, ops: seq<StoreOp>, d: nat)
    decreases |ops|
  {
    ops == [] || (!Disturbs(s, ops[0], d) && NeverDisturbed(Apply(s, ops[0]), ops[1..], d))
  }

  lemma {:induction false} RunSparesHeld(s: State, ops: seq<StoreOp>, d: nat, c: nat)
    requires Inv(s) && Holds(s, d, c) && NeverDisturbed(s, ops, d)
    ensures Holds(Run(s, ops), d, c)
    decreases |ops|
  {
    if ops != [] {
      ApplyInv(s, ops[0]);
      ApplySparesHeld(s, ops[0], d, c);
      RunSparesHeld(Apply(s, ops[0]), ops[1..], d, c);
    }
  }

  /**
   A retained display that is stored, removed and later recreated, after any
   operations that do not disturb it, comes back on its old connector.
   */
  lemma ReturnsToItsConnector(s: State, d: nat, ops: seq<StoreOp>, r: CreateRequest, owner: Option<Capability>,
                              now: int)
    requires Inv(s) && d in s.displays && s.displays[d].retain && NeverDisturbed(s, ops, d)
    requires r.displayId == d && !r.ephemeral && Create(Run(s, ops), r, owner, now).error == NoError
    ensures Create(Run(s, ops), r, owner, now).state.displays[d].connector == s.displays[d].connector
  {
    var c := s.displays[d].connector;
    assert Holds(s, d, c);
    RunInv(s, ops);
    RunSparesHeld(s, ops, d, c);
    CreateAdds(Run(s, ops), r, owner, now);
    OwnConnectorChosen(Run(s, ops), r, owner, now, c);
  }
}

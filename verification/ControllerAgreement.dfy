/**
 Store and backend agree: a record that is fully created and not awaiting
 departure has a monitor of its own generation, except while a departure that
 has reached the backend has not yet updated the store.

 Two steps of the controller can break this, and only they: a departure without
 a generation fence that reaches the backend when the display id already belongs
 to a live record, and a reclaim that changes the lease of a record some
 operation in flight has observed. Runs without such steps are called guarded.
 */
module ControllerAgreement {
  import opened Wrappers
  import opened LeaseStoreSpec
  import opened LeaseStoreInvariant
  import opened LeaseStoreLineage
  import opened DriverController
  import opened ControllerSafety
  import opened ControllerMonitors

  // ---------------------------------------------------------------- agreement

  ghost predicate Creating(task: Task, generation: nat) {
    (task.Reserving? || task.Arriving? || task.RollingBack?) && task.created.generation == generation
  }

  ghost predicate InFlight(threads: map<nat, Thread>, generation: nat) {
    exists t | t in threads :: Creating(threads[t].task, generation)
  }

  /** A departure of this monitor has been made, and its caller has not yet updated the store. */
  ghost predicate Landed(threads: map<nat, Thread>, m: Monitor) {
    exists t | t in threads :: threads[t].HoldsMutex() && Targets(threads[t].task, m)
  }

  /** Fully created and not awaiting departure. */
  ghost predicate Live(c: System, d: nat) {
    d in c.store.displays && !c.store.displays[d].pending && !InFlight(c.threads, c.store.displays[d].generation)
  }

  ghost predicate AgreesOn(c: System, d: nat) {
    Live(c, d) && !Landed(c.threads, MonitorOf(c.store.displays[d])) ==> MonitorOf(c.store.displays[d]) in c.monitors
  }

  ghost predicate Agree(c: System) {
    forall d | d in c.store.displays :: AgreesOn(c, d)
  }

  // ---------------------------------------------------------------- guarded runs

  ghost predicate Guarded(c: System, a: Action)
    requires Enabled(c, a)
  {
    match a
    case Call(t, _, _) => c.threads[t].task.PreDepart? ==> !Live(c, c.threads[t].task.condemned.displayId)
    case ReclaimDisplay(r, now) =>
      CanReclaim(c.store, r, now) == NoError ==>
        forall t, x | t in c.threads && x in Records(c.threads[t].task) && IsCurrent(c.store, x) ::
          x.leaseId != c.store.displays[r.displayId].leaseId
    case _ => true
  }

  ghost predicate IsGuardedRun(c: System, actions: seq<Action>)
    decreases |actions|
  {
    actions == [] ||
    (Enabled(c, actions[0]) && Guarded(c, actions[0]) && IsGuardedRun(Next(c, actions[0]), actions[1..]))
  }

  // ---------------------------------------------------------------- the invariant of guarded runs

  /** The record, if still stored, is still under the lease it was observed with. */
  ghost predicate LeaseKept(s: State, r: Record) {
    forall d | d in s.displays && s.displays[d].generation == r.generation :: s.displays[d].leaseId == r.leaseId
  }

  ghost predicate NotStored(s: State, generation: nat) {
    forall d | d in s.displays :: s.displays[d].generation != generation
  }

  /** What a guarded run knows of each operation in flight. */
  ghost predicate TaskKnown(c: System, t: nat)
    requires t in c.threads
  {
    var th := c.threads[t];
    && (forall r | r in Records(th.task) :: LeaseKept(c.store, r))
    && (th.task.Orphaned? || th.task.Unwinding? ==> NotStored(c.store, th.task.created.generation))
    && (th.task.Arriving? && th.phase == Returned(Done) ==> MonitorOf(th.task.created) in c.monitors)
    && (th.task.PreDepart? && th.HoldsMutex() ==> !Live(c, th.task.condemned.displayId))
  }

  ghost predicate GuardedInv(c: System) {
    Agree(c) && forall t | t in c.threads :: TaskKnown(c, t)
  }

  // ---------------------------------------------------------------- store sections

  ghost predicate KeepsLeases(s: State, s': State) {
    forall d | d in s.displays && d in s'.displays && s'.displays[d].generation == s.displays[d].generation ::
      s'.displays[d].leaseId == s.displays[d].leaseId
  }

  /** Records that appear belong to the task that goes on; all others were there, on the same lease. */
  ghost predicate SectionKnown(s: State, section: Section) {
    && Evolves(s, section.store) && KeepsLeases(s, section.store)
    && (forall d | d in section.store.displays && section.store.displays[d].generation >= s.nextGeneration ::
          section.next.Some? && Creating(section.next.value, section.store.displays[d].generation))
    && (section.next.Some? ==> forall r | r in Records(section.next.value) :: LeaseKept(section.store, r))
    && (section.next.Some? && (section.next.value.Orphaned? || section.next.value.Unwinding?) ==>
          NotStored(section.store, section.next.value.created.generation))
  }

  lemma LeaseKeptEvolves(s: State, s': State, r: Record)
    requires LeaseKept(s, r) && r.generation < s.nextGeneration && Evolves(s, s') && KeepsLeases(s, s')
    ensures LeaseKept(s', r)
  {
  }

  lemma NotStoredEvolves(s: State, s': State, generation: nat)
    requires NotStored(s, generation) && generation < s.nextGeneration && Evolves(s, s')
    ensures NotStored(s', generation)
  {
  }

  /** Same displays or fewer: nothing new, nothing moved. */
  ghost predicate OnlyShrinksOrMarks(s: State, s': State) {
    && s'.nextGeneration == s.nextGeneration
    && forall d | d in s'.displays :: d in s.displays && s'.displays[d].leaseId == s.displays[d].leaseId &&
         SameLine(s.displays[d], s'.displays[d])
  }

  lemma RemoveShrinks(s: State, r: Record, mode: RemoveMode)
    ensures OnlyShrinksOrMarks(s, RemoveIfCurrent(s, r, mode))
  {
  }

  lemma MarkShrinks(s: State, r: Record)
    ensures OnlyShrinksOrMarks(s, MarkIfCurrent(s, r)) && OnlyShrinksOrMarks(s, MarkPending(s, RequestFor(r)))
  {
  }

  lemma AbandonShrinks(s: State, r: Record, owner: Capability)
    ensures OnlyShrinksOrMarks(s, Abandon(s, RequestFor(r), r.generation, owner))
  {
  }

  /** A section without a create: known as soon as its next task's records are. */
  lemma ShrinkKnown(s: State, section: Section)
    requires RecordsFiled(s) && OnlyShrinksOrMarks(s, section.store)
    requires section.next.Some? ==> forall r | r in Records(section.next.value) :: LeaseKept(section.store, r)
    requires section.next.Some? && (section.next.value.Orphaned? || section.next.value.Unwinding?) ==>
               NotStored(section.store, section.next.value.created.generation)
    ensures SectionKnown(s, section)
  {
  }

  lemma StoredLeaseKept(s: State, d: nat)
    requires Placed(s) && d in s.displays
    ensures LeaseKept(s, s.displays[d])
  {
  }

  /** Every record after a create was there before, unchanged, or is the one it added. */
  lemma CreateStores(s: State, r: CreateRequest, owner: Option<Capability>, now: int, d: nat)
    requires Inv(s) && d in CreateSection(s, r, owner, now).store.displays
    ensures var section := CreateSection(s, r, owner, now);
            || (d in s.displays && section.store.displays[d] == s.displays[d])
            || (d !in s.displays && section.next.Some? &&
                Creating(section.next.value, section.store.displays[d].generation))
  {
    hide Create, Inv;
    if Create(s, r, owner, now).error == NoError {
      InvPlaced(s);
      CreateAdds(s, r, owner, now);
    } else {
      RefusedCreateInv(s, r, owner, now);
    }
  }

  lemma AddsKnown(s: State, section: Section)
    requires Evolves(s, section.store) && forall d | d in s.displays :: s.displays[d].generation < s.nextGeneration
    requires forall d | d in section.store.displays ::
               || (d in s.displays && section.store.displays[d] == s.displays[d])
               || (d !in s.displays && section.next.Some? &&
                   Creating(section.next.value, section.store.displays[d].generation))
    requires section.next.Some? ==>
               && (section.next.value.Reserving? || section.next.value.Arriving?)
               && LeaseKept(section.store, section.next.value.created)
    ensures SectionKnown(s, section)
  {
  }

  lemma IssuedGenerations(s: State)
    requires Inv(s)
    ensures forall d | d in s.displays :: s.displays[d].generation < s.nextGeneration
  {
  }

  lemma CreateSectionKnown(s: State, r: CreateRequest, owner: Option<Capability>, now: int)
    requires Inv(s)
    ensures SectionKnown(s, CreateSection(s, r, owner, now))
  {
    hide Inv, Create, Evolves, SectionKnown, Placed, LeaseKept;
    var section := CreateSection(s, r, owner, now);
    CreateEvolves(s, r, owner, now);
    CreateInv(s, r, owner, now);
    IssuedGenerations(s);
    InvPlaced(section.store);
    forall d | d in section.store.displays
      ensures || (d in s.displays && section.store.displays[d] == s.displays[d])
              || (d !in s.displays && section.next.Some? &&
                  Creating(section.next.value, section.store.displays[d].generation))
    {
      CreateStores(s, r, owner, now, d);
    }
    if r.displayId in section.store.displays {
      StoredLeaseKept(section.store, r.displayId);
    }
    AddsKnown(s, section);
  }

  lemma CreateAfterKnown(s: State, s1: State, r: CreateRequest, owner: Option<Capability>, now: int)
    requires RecordsFiled(s) && Inv(s1) && OnlyShrinksOrMarks(s, s1)
    ensures SectionKnown(s, CreateSection(s1, r, owner, now))
  {
    hide Inv, CreateSection;
    var section := CreateSection(s1, r, owner, now);
    CreateSectionKnown(s1, r, owner, now);
    EvolvesTransitive(s, s1, section.store);
  }

  lemma PreDepartKnown(s: State, task: Task, result: BackendError)
    requires Inv(s) && task.PreDepart?
    ensures SectionKnown(s, PreDepartSection(s, task, result).(evicted := {}))
  {
    hide Inv, SectionKnown, CreateSection, RemoveIfCurrent, MarkPending, Abandon, CanAbandon, IsCurrent,
         OnlyShrinksOrMarks;
    var PreDepart(r, owner, now, condemned) := task;
    InvPlaced(s);
    UnchangedShrinks(s);
    ShrinkKnown(s, Ends(s));
    match result
    case Busy =>
    case Done =>
      RemoveShrinks(s, condemned, RetainReservation);
      RemoveEvolves(s, condemned, RetainReservation);
      CreateAfterKnown(s, RemoveIfCurrent(s, condemned, RetainReservation), r, owner, now);
      NoEvictions(RemoveIfCurrent(s, condemned, RetainReservation), r, owner, now);
    case Failed =>
      MarkShrinks(s, condemned);
      ShrinkKnown(s, Ends(MarkPending(s, RequestFor(condemned))));
      if owner.Some? {
        AbandonShrinks(s, condemned, owner.value);
        ApplyInv(s, OpAbandon(RequestFor(condemned), condemned.generation, owner.value));
        var s1 := Abandon(s, RequestFor(condemned), condemned.generation, owner.value);
        CreateAfterKnown(s, s1, r, owner, now);
        NoEvictions(s1, r, owner, now);
      }
  }

  lemma UnchangedShrinks(s: State)
    ensures OnlyShrinksOrMarks(s, s)
  {
  }

  lemma NoEvictions(s: State, r: CreateRequest, owner: Option<Capability>, now: int)
    ensures CreateSection(s, r, owner, now).(evicted := {}) == CreateSection(s, r, owner, now)
  {
  }

  lemma KnownIgnoresEvictions(s: State, section: Section)
    requires SectionKnown(s, section.(evicted := {}))
    ensures SectionKnown(s, section)
  {
  }

  lemma StillKept(s: State, s': State, task: Task)
    requires (forall r | r in Records(task) :: LeaseKept(s, r)) && OnlyShrinksOrMarks(s, s')
    ensures forall r | r in Records(task) :: LeaseKept(s', r)
  {
  }

  /** An observed record that is no longer current is no longer stored: its lease cannot have moved. */
  lemma NotCurrentNotStored(s: State, r: Record)
    requires RecordsFiled(s) && Lineage(s, r) && LeaseKept(s, r) && !IsCurrent(s, r)
    ensures NotStored(s, r.generation)
  {
  }

  lemma SweepKnown(s: State, todo: seq<Record>, result: BackendError)
    requires RecordsFiled(s) && todo != [] && forall r | r in Records(Sweeping(todo)) :: LeaseKept(s, r)
    ensures SectionKnown(s, SweepSection(s, todo, result))
  {
    hide RemoveIfCurrent, MarkIfCurrent, LeaseKept, OnlyShrinksOrMarks, SectionKnown;
    var section := SweepSection(s, todo, result);
    UnchangedShrinks(s);
    RemoveShrinks(s, todo[0], RetainReservation);
    MarkShrinks(s, todo[0]);
    if |todo| > 1 {
      forall r | r in Records(Sweeping(todo[1..])) ensures r in Records(Sweeping(todo)) {
      }
      StillKept(s, section.store, Sweeping(todo));
    }
    ShrinkKnown(s, section);
  }

  lemma ResumeKnown(s: State, task: Task, result: BackendError)
    requires Inv(s) && TaskSane(s, task) && forall r | r in Records(task) :: LeaseKept(s, r)
    ensures SectionKnown(s, ResumeSection(s, task, result))
  {
    hide Inv, RemoveIfCurrent, PreDepartSection, SweepSection, LeaseKept, NotStored, OnlyShrinksOrMarks, SectionKnown,
         Lineage, IsCurrent;
    var section := ResumeSection(s, task, result);
    InvPlaced(s);
    UnchangedShrinks(s);
    match task
    case PreDepart(_, _, _, _) =>
      PreDepartKnown(s, task, result);
      KnownIgnoresEvictions(s, section);
    case Sweeping(todo) =>
      SweepKnown(s, todo, result);
    case Condemned(arrived) =>
      RemoveShrinks(s, arrived, RetainReservation);
      ShrinkKnown(s, section);
    case _ =>
      var created := task.created;
      assert created in Records(task);
      RemoveShrinks(s, created, RetainReservation);
      RemoveShrinks(s, created, ReleaseReservation);
      if !IsCurrent(s, created) {
        NotCurrentNotStored(s, created);
      } else {
        CurrentStored(s, created);
        StoredLeaseKept(s, created.displayId);
      }
      ShrinkKnown(s, section);
  }

  lemma CurrentStored(s: State, r: Record)
    requires IsCurrent(s, r)
    ensures r.displayId in s.displays
  {
  }

  // ---------------------------------------------------------------- a store section

  /** `d` holds the same record before and after, and is not awaiting departure afterwards. */
  ghost predicate Survives(s: State, s': State, d: nat) {
    && d in s.displays && d in s'.displays && SameLine(s.displays[d], s'.displays[d]) && !s'.displays[d].pending
  }

  /** A creation ends only by arriving, and a departure that has landed leaves no live record behind. */
  ghost predicate Settles(c: System, t: nat, section: Section) {
    t in c.threads ==> forall d | Survives(c.store, section.store, d) ::
      var r := c.store.displays[d];
      && (Creating(c.threads[t].task, r.generation) ==>
            || (section.next.Some? && Creating(section.next.value, r.generation))
            || (MonitorOf(r) in c.monitors && c.threads[t].HoldsMutex()))
      && (c.threads[t].HoldsMutex() && Targets(c.threads[t].task, MonitorOf(r)) ==> !Live(c, d))
  }

  /** New records are in the hands of the operation that goes on. */
  ghost predicate NewInFlight(s: State, section: Section) {
    forall d | d in section.store.displays ::
      || (d in s.displays && SameLine(s.displays[d], section.store.displays[d]))
      || (section.next.Some? && Creating(section.next.value, section.store.displays[d].generation))
  }

  /** A record live after a section was live before, or its monitor has just arrived. */
  lemma LiveAfter(c: System, t: nat, section: Section, d: nat)
    requires NewInFlight(c.store, section) && Settles(c, t, section) && Live(Proceed(c, t, section), d)
    ensures Survives(c.store, section.store, d)
    ensures Live(c, d) || (t in c.threads && c.threads[t].HoldsMutex() && MonitorOf(c.store.displays[d]) in c.monitors)
  {
    var c' := Proceed(c, t, section);
    var generation := section.store.displays[d].generation;
    if section.next.Some? {
      assert c'.threads[t].task == section.next.value;
    }
    assert Survives(c.store, section.store, d);
    assert forall u | u in c.threads && u != t :: u in c'.threads && c'.threads[u] == c.threads[u];
  }

  lemma ProceedAgree(c: System, t: nat, section: Section)
    requires NewInFlight(c.store, section) && Settles(c, t, section) && Agree(c)
    ensures Agree(Proceed(c, t, section))
  {
    var c' := Proceed(c, t, section);
    forall d | d in c'.store.displays ensures AgreesOn(c', d) {
      if Live(c', d) {
        LiveAfter(c, t, section, d);
        var m := MonitorOf(c.store.displays[d]);
        if Live(c, d) && Landed(c.threads, m) {
          var u :| u in c.threads && c.threads[u].HoldsMutex() && Targets(c.threads[u].task, m);
          if u != t {
            assert c'.threads[u] == c.threads[u];
          }
        }
      }
    }
  }

  lemma KnownIsNewInFlight(s: State, section: Section)
    requires SectionKnown(s, section)
    ensures NewInFlight(s, section)
  {
  }

  lemma ProceedTask(c: System, t: nat, section: Section, u: nat)
    requires MachineInv(c) && GuardedInv(c) && SectionKnown(c.store, section) && Settles(c, t, section)
    requires u in Proceed(c, t, section).threads
    ensures TaskKnown(Proceed(c, t, section), u)
  {
    hide Inv, Lineage, Evolves, KeepsLeases, LeaseKept, NotStored, Live, Settles, NewInFlight, Agree;
    var c' := Proceed(c, t, section);
    if u != t {
      var task := c.threads[u].task;
      assert TaskSane(c.store, task) && TaskKnown(c, u);
      forall r | r in Records(task) ensures LeaseKept(section.store, r) {
        IssuedGeneration(c.store, r);
        LeaseKeptEvolves(c.store, section.store, r);
      }
      if task.Orphaned? || task.Unwinding? {
        assert task.created in Records(task);
        IssuedGeneration(c.store, task.created);
        NotStoredEvolves(c.store, section.store, task.created.generation);
      }
      KnownIsNewInFlight(c.store, section);
      if task.PreDepart? && c.threads[u].HoldsMutex() && Live(c', task.condemned.displayId) {
        LiveAfter(c, t, section, task.condemned.displayId);
      }
    }
  }

  lemma ProceedGuardedInv(c: System, t: nat, section: Section)
    requires MachineInv(c) && GuardedInv(c) && SectionKnown(c.store, section) && Settles(c, t, section)
    ensures GuardedInv(Proceed(c, t, section))
  {
    hide MachineInv, SectionKnown, Settles, Agree, NewInFlight, TaskKnown;
    var c' := Proceed(c, t, section);
    KnownIsNewInFlight(c.store, section);
    ProceedAgree(c, t, section);
    forall u | u in c'.threads ensures TaskKnown(c', u) {
      ProceedTask(c, t, section, u);
    }
  }

  // ---------------------------------------------------------------- resuming settles

  /** The head of a sweep that has departed does not survive: it is removed, or marked. */
  lemma SweepSettles(s: State, todo: seq<Record>, result: BackendError, d: nat)
    requires RecordsFiled(s) && todo != [] && LeaseKept(s, todo[0]) && result != Busy
    requires Survives(s, SweepSection(s, todo, result).store, d)
    ensures MonitorOf(s.displays[d]) != MonitorOf(todo[0])
  {
  }

  lemma RollbackRemoves(s: State, r: Record, mode: RemoveMode, d: nat)
    requires RecordsFiled(s) && Lineage(s, r) && LeaseKept(s, r) && Survives(s, RemoveIfCurrent(s, r, mode), d)
    ensures s.displays[d].generation != r.generation
  {
  }

  lemma ResumeSettles(c: System, t: nat)
    requires MachineInv(c) && Enabled(c, Resume(t)) && TaskKnown(c, t)
    ensures Settles(c, t, ResumeSection(c.store, c.threads[t].task, c.threads[t].phase.result))
  {
    hide Inv, RemoveIfCurrent, SweepSection, PreDepartSection, LeaseKept, Live;
    var s, task, result := c.store, c.threads[t].task, c.threads[t].phase.result;
    var section := ResumeSection(s, task, result);
    assert TaskSane(s, task);
    InvPlaced(s);
    forall d | Survives(s, section.store, d)
      ensures var r := s.displays[d];
              && (Creating(task, r.generation) ==>
                    || (section.next.Some? && Creating(section.next.value, r.generation))
                    || (MonitorOf(r) in c.monitors && c.threads[t].HoldsMutex()))
              && (c.threads[t].HoldsMutex() && Targets(task, MonitorOf(r)) ==> !Live(c, d))
    {
      match task
      case PreDepart(_, _, _, _) =>
      case Sweeping(todo) =>
        assert todo[0] in Records(task);
        if c.threads[t].HoldsMutex() {
          SweepSettles(s, todo, result, d);
        }
      case Condemned(arrived) =>
        assert arrived in Records(task);
        assert s.displays[d].generation != arrived.generation;
      case Orphaned(created) =>
      case Unwinding(created) =>
      case Reserving(created) => CreatorSettles(c, t, d);
      case Arriving(created) => CreatorSettles(c, t, d);
      case RollingBack(created) => CreatorSettles(c, t, d);
    }
  }

  lemma CreatorSettles(c: System, t: nat, d: nat)
    requires MachineInv(c) && Enabled(c, Resume(t)) && TaskKnown(c, t)
    requires c.threads[t].task.Reserving? || c.threads[t].task.Arriving? || c.threads[t].task.RollingBack?
    requires Survives(c.store, ResumeSection(c.store, c.threads[t].task, c.threads[t].phase.result).store, d)
    ensures var section := ResumeSection(c.store, c.threads[t].task, c.threads[t].phase.result);
            var r := c.store.displays[d];
            Creating(c.threads[t].task, r.generation) ==>
              || (section.next.Some? && Creating(section.next.value, r.generation))
              || (MonitorOf(r) in c.monitors && c.threads[t].HoldsMutex())
  {
    hide Inv, RemoveIfCurrent, LeaseKept, Lineage, IsCurrent, NotStored;
    var s, task, result := c.store, c.threads[t].task, c.threads[t].phase.result;
    var created := task.created;
    assert created in Records(task) && TaskSane(s, task);
    InvPlaced(s);
    SameGeneration(s, created);
    if !IsCurrent(s, created) {
      NotCurrentNotStored(s, created);
      StoredSomewhere(s, created.generation);
    } else {
      CurrentStored(s, created);
    }
    if Survives(s, RemoveIfCurrent(s, created, ReleaseReservation), d) {
      RollbackRemoves(s, created, ReleaseReservation, d);
    }
    if Survives(s, RemoveIfCurrent(s, created, RetainReservation), d) {
      RollbackRemoves(s, created, RetainReservation, d);
    }
  }

  lemma StoredSomewhere(s: State, generation: nat)
    requires NotStored(s, generation)
    ensures forall d | d in s.displays :: s.displays[d].generation != generation
  {
  }

  lemma SameGeneration(s: State, r: Record)
    requires Lineage(s, r)
    ensures forall d | d in s.displays && s.displays[d].generation == r.generation :: SameLine(r, s.displays[d])
  {
  }

  // ---------------------------------------------------------------- the other steps

  lemma BeginCreateKnown(s: State, r: CreateRequest, owner: Option<Capability>, now: int)
    requires Inv(s)
    ensures SectionKnown(s, BeginCreate(s, r, owner, now))
  {
    hide Inv, SectionKnown, CreateSection, LeaseKept, OnlyShrinksOrMarks;
    CreateSectionKnown(s, r, owner, now);
    if !ValidCreate(r, owner) || (r.displayId in s.displays && s.displays[r.displayId].pending) {
      if r.displayId in s.displays {
        FiledUnder(s, r.displayId);
      }
      UnchangedKnown(s, BeginCreate(s, r, owner, now));
    }
  }

  /** A section that leaves the store alone and goes on with stored records, if at all, is known. */
  lemma UnchangedKnown(s: State, section: Section)
    requires Inv(s) && section.store == s
    requires section.next.Some? ==>
               && (section.next.value.PreDepart? || section.next.value.Sweeping?)
               && forall r | r in Records(section.next.value) ::
                    r.displayId in s.displays && s.displays[r.displayId] == r
    ensures SectionKnown(s, section)
  {
    hide Inv, SectionKnown, LeaseKept, OnlyShrinksOrMarks;
    InvPlaced(s);
    UnchangedShrinks(s);
    if section.next.Some? {
      forall r | r in Records(section.next.value) ensures LeaseKept(s, r) {
        StoredLeaseKept(s, r.displayId);
      }
    }
    ShrinkKnown(s, section);
  }

  lemma BeginKnown(c: System, a: Action, section: Section)
    requires MachineInv(c) && Enabled(c, a)
    requires (a.StartCreate? && section == BeginCreate(c.store, a.create, a.owner, a.createNow))
             || (a.StartRemove? && section == BeginRemove(c.store, a.remove))
             || (a.StartRelease? && section == BeginRelease(c.store, a.release, a.snapshot))
             || (a.StartReap? && section == BeginReap(c.store, a.snapshot))
    ensures SectionKnown(c.store, section) && Settles(c, a.t, section)
  {
    hide Inv, SectionKnown, CreateSection, LeaseKept, OnlyShrinksOrMarks, Release, TaskSane;
    var s := c.store;
    match a
    case StartCreate(t, r, owner, now) => BeginCreateKnown(s, r, owner, now);
    case StartRemove(_, r) =>
      if r.displayId in s.displays {
        FiledUnder(s, r.displayId);
      }
      UnchangedKnown(s, section);
    case StartRelease(_, r, snapshot) =>
      if snapshot == [] {
        InvPlaced(s);
        UnchangedShrinks(s);
        ReleaseShrinks(s, r);
        ShrinkKnown(s, section);
      } else {
        UnchangedKnown(s, section);
      }
    case StartReap(_, _, _) => UnchangedKnown(s, section);
  }

  lemma ReleaseShrinks(s: State, r: LeaseRequest)
    ensures OnlyShrinksOrMarks(s, Release(s, r))
  {
  }

  /** A lease renewal or a reclaim restamps records; which are live does not change. */
  lemma RestampAgree(c: System, s': State)
    requires Agree(c)
    requires forall d | d in s'.displays :: d in c.store.displays && SameLine(c.store.displays[d], s'.displays[d])
    ensures Agree(c.(store := s'))
    ensures forall d | Live(c.(store := s'), d) :: Live(c, d)
  {
  }

  lemma RestampGuardedInv(c: System, s': State)
    requires GuardedInv(c)
    requires forall d | d in s'.displays :: d in c.store.displays && SameLine(c.store.displays[d], s'.displays[d])
    requires forall t, r | t in c.threads && r in Records(c.threads[t].task) :: LeaseKept(s', r)
    ensures GuardedInv(c.(store := s'))
  {
  }

  lemma FeedGuardedInv(c: System, r: LeaseRequest, now: int)
    requires GuardedInv(c)
    ensures GuardedInv(c.(store := Feed(c.store, r, now)))
  {
    hide GuardedInv, Agree;
    var s' := Feed(c.store, r, now);
    forall t, x | t in c.threads && x in Records(c.threads[t].task) ensures LeaseKept(s', x) {
      KnownKept(c, t, x);
    }
    RestampGuardedInv(c, s');
  }

  lemma KnownKept(c: System, t: nat, x: Record)
    requires GuardedInv(c) && t in c.threads && x in Records(c.threads[t].task)
    ensures LeaseKept(c.store, x)
  {
  }

  lemma ReclaimGuardedInv(c: System, r: ReclaimRequest, now: int)
    requires MachineInv(c) && GuardedInv(c) && Enabled(c, ReclaimDisplay(r, now)) && Guarded(c, ReclaimDisplay(r, now))
    ensures GuardedInv(c.(store := Reclaim(c.store, r, now)))
  {
    hide GuardedInv, Agree, Inv;
    var s, s' := c.store, Reclaim(c.store, r, now);
    InvPlaced(s);
    forall t, x | t in c.threads && x in Records(c.threads[t].task) ensures LeaseKept(s', x) {
      KnownKept(c, t, x);
      assert TaskSane(s, c.threads[t].task);
    }
    RestampGuardedInv(c, s');
  }

  lemma CallAgree(c: System, t: nat, result: BackendError, kept: set<Monitor>)
    requires Agree(c) && Enabled(c, Call(t, result, kept))
    ensures Agree(Next(c, Call(t, result, kept)))
    ensures forall d :: Live(Next(c, Call(t, result, kept)), d) <==> Live(c, d)
  {
    var c' := Next(c, Call(t, result, kept));
    SameTasks(c, c');
    forall d | d in c'.store.displays ensures AgreesOn(c', d) {
      assert AgreesOn(c, d);
      if Targets(c.threads[t].task, MonitorOf(c.store.displays[d])) {
        assert c'.threads[t].HoldsMutex();
      }
    }
  }

  lemma CallGuardedInv(c: System, t: nat, result: BackendError, kept: set<Monitor>)
    requires GuardedInv(c) && Enabled(c, Call(t, result, kept)) && Guarded(c, Call(t, result, kept))
    ensures GuardedInv(Next(c, Call(t, result, kept)))
  {
    hide LeaseKept, NotStored, Live, Agree;
    var c' := Next(c, Call(t, result, kept));
    CallAgree(c, t, result, kept);
    forall u | u in c'.threads ensures TaskKnown(c', u) {
      assert TaskKnown(c, u) && !c.threads[u].HoldsMutex();
    }
  }

  lemma SameTasks(c: System, c': System)
    requires c'.store == c.store && c'.threads.Keys == c.threads.Keys
    requires forall t | t in c.threads :: c'.threads[t].task == c.threads[t].task
    ensures forall d :: Live(c', d) <==> Live(c, d)
  {
  }

  lemma TimeOutGuardedInv(c: System, t: nat)
    requires GuardedInv(c) && Enabled(c, TimeOut(t))
    ensures GuardedInv(Next(c, TimeOut(t)))
  {
    hide LeaseKept, NotStored;
    var c' := Next(c, TimeOut(t));
    SameTasks(c, c');
    forall d | d in c'.store.displays ensures AgreesOn(c', d) {
      assert AgreesOn(c, d);
      if Landed(c.threads, MonitorOf(c.store.displays[d])) {
        var u :| u in c.threads && c.threads[u].HoldsMutex() &&
          Targets(c.threads[u].task, MonitorOf(c.store.displays[d]));
        assert c'.threads[u] == c.threads[u];
      }
    }
    forall u | u in c'.threads ensures TaskKnown(c', u) {
      assert TaskKnown(c, u);
    }
  }

  lemma ResumeGuardedInv(c: System, t: nat)
    requires MachineInv(c) && GuardedInv(c) && Enabled(c, Resume(t))
    ensures GuardedInv(Next(c, Resume(t)))
  {
    hide Inv, TaskSane, ResumeSection, LeaseKept, SectionKnown, Settles, Agree, TaskKnown;
    var task, result := c.threads[t].task, c.threads[t].phase.result;
    assert TaskKnown(c, t);
    forall r | r in Records(task) ensures LeaseKept(c.store, r) {
      KnownKept(c, t, r);
    }
    ResumeKnown(c.store, task, result);
    ResumeSettles(c, t);
    ProceedGuardedInv(c, t, ResumeSection(c.store, task, result));
  }

  lemma NextGuardedInv(c: System, a: Action)
    requires MachineInv(c) && GuardedInv(c) && Enabled(c, a) && Guarded(c, a)
    ensures GuardedInv(Next(c, a))
  {
    hide MachineInv, GuardedInv, SectionKnown, Settles, BeginCreate, BeginRemove, BeginRelease, BeginReap,
         ResumeSection, Feed, Reclaim;
    match a
    case FeedLease(r, now) => FeedGuardedInv(c, r, now);
    case ReclaimDisplay(r, now) => ReclaimGuardedInv(c, r, now);
    case Call(t, result, kept) => CallGuardedInv(c, t, result, kept);
    case TimeOut(t) => TimeOutGuardedInv(c, t);
    case Resume(t) => ResumeGuardedInv(c, t);
    case StartCreate(t, r, owner, now) =>
      BeginKnown(c, a, BeginCreate(c.store, r, owner, now));
      ProceedGuardedInv(c, t, BeginCreate(c.store, r, owner, now));
    case StartRemove(t, r) =>
      BeginKnown(c, a, BeginRemove(c.store, r));
      ProceedGuardedInv(c, t, BeginRemove(c.store, r));
    case StartRelease(t, r, snapshot) =>
      BeginKnown(c, a, BeginRelease(c.store, r, snapshot));
      ProceedGuardedInv(c, t, BeginRelease(c.store, r, snapshot));
    case StartReap(t, now, snapshot) =>
      BeginKnown(c, a, BeginReap(c.store, snapshot));
      ProceedGuardedInv(c, t, BeginReap(c.store, snapshot));
  }

  // ---------------------------------------------------------------- whole runs

  lemma {:induction false} RunGuardedInv(c: System, actions: seq<Action>)
    requires MachineInv(c) && GuardedInv(c) && IsGuardedRun(c, actions)
    ensures IsRun(c, actions) && GuardedInv(After(c, actions))
    decreases |actions|
  {
    hide MachineInv, GuardedInv, Next, Enabled, Guarded;
    if actions != [] {
      NextInv(c, actions[0]);
      NextGuardedInv(c, actions[0]);
      RunGuardedInv(Next(c, actions[0]), actions[1..]);
    }
  }

  /**
   From a fresh driver, after every guarded interleaving, each fully created
   record that does not await departure has a monitor of its own generation,
   except while a departure of that monitor is between the backend and the store.
   */
  lemma StoreAndBackendAgree(c: System, actions: seq<Action>)
    requires Initial(c) && IsGuardedRun(c, actions)
    ensures IsRun(c, actions) && Agree(After(c, actions))
  {
    hide MachineInv, Next, Enabled, Guarded, Agree;
    InitialMachineInv(c);
    InitialGuardedInv(c);
    RunGuardedInv(c, actions);
  }

  lemma InitialGuardedInv(c: System)
    requires Initial(c)
    ensures GuardedInv(c)
  {
  }

  /** An unfenced departure is guarded whenever the condemned record it observed is still stored. */
  lemma StillStoredIsGuarded(c: System, t: nat, result: BackendError, kept: set<Monitor>)
    requires MachineInv(c) && Enabled(c, Call(t, result, kept)) && c.threads[t].task.PreDepart?
    requires IsCurrent(c.store, c.threads[t].task.condemned)
    ensures Guarded(c, Call(t, result, kept))
  {
    hide Inv;
    var task := c.threads[t].task;
    assert task.condemned in Records(task) && TaskSane(c.store, task);
  }
}

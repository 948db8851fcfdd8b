/**
 Over every interleaving: an operation that comes back from the backend only
 ever touches the record it observed, never a replacement.
 */
module ControllerSafety {
  import opened Wrappers
  import opened LeaseStoreSpec
  import opened LeaseStoreInvariant
  import opened LeaseStoreLineage
  import opened DriverController

  // ---------------------------------------------------------------- the invariant of the machine

  ghost function Records(task: Task): set<Record> {
    match task
    case PreDepart(_, _, _, condemned) => {condemned}
    case Condemned(arrived) => {arrived}
    case Sweeping(todo) => set r | r in todo
    case _ => {task.created}
  }

  ghost predicate TaskSane(s: State, task: Task) {
    && (forall r | r in Records(task) :: Lineage(s, r))
    && (task.Sweeping? ==> task.todo != [])
    && (task.PreDepart? ==> task.condemned.pending && task.condemned.displayId == task.request.displayId)
    && (task.Condemned? ==> task.arrived.pending)
  }

  ghost predicate OneCaller(threads: map<nat, Thread>) {
    forall t, u | t in threads && u in threads && threads[t].HoldsMutex() && threads[u].HoldsMutex() :: t == u
  }

  ghost predicate MachineInv(c: System) {
    && Inv(c.store)
    && (forall t | t in c.threads :: TaskSane(c.store, c.threads[t].task))
    && OneCaller(c.threads)
  }

  lemma TaskSaneEvolves(s: State, s': State, task: Task)
    requires TaskSane(s, task) && Evolves(s, s')
    ensures TaskSane(s', task)
  {
  }

  // ---------------------------------------------------------------- store sections

  /** What every section guarantees: the store stays sound, evolves, and the next task observes real records. */
  ghost predicate SectionSound(s: State, section: Section) {
    && Inv(section.store) && Evolves(s, section.store)
    && (section.next.Some? ==> TaskSane(section.store, section.next.value))
  }

  lemma RemoveEvolves(s: State, r: Record, mode: RemoveMode)
    requires Inv(s)
    ensures Inv(RemoveIfCurrent(s, r, mode)) && Evolves(s, RemoveIfCurrent(s, r, mode))
  {
    hide Inv, Evolves, Remove;
    EvolvesReflexive(s);
    ApplyInv(s, OpRemove(RequestFor(r), mode));
    ApplyEvolves(s, OpRemove(RequestFor(r), mode));
  }

  lemma MarkEvolves(s: State, r: Record)
    requires Inv(s)
    ensures Inv(MarkIfCurrent(s, r)) && Evolves(s, MarkIfCurrent(s, r))
    ensures Inv(MarkPending(s, RequestFor(r))) && Evolves(s, MarkPending(s, RequestFor(r)))
  {
    hide Inv, Evolves, MarkPending;
    EvolvesReflexive(s);
    ApplyInv(s, OpMark(RequestFor(r)));
    ApplyEvolves(s, OpMark(RequestFor(r)));
  }

  lemma CreateSectionSound(s: State, r: CreateRequest, owner: Option<Capability>, now: int)
    requires Inv(s)
    ensures SectionSound(s, CreateSection(s, r, owner, now))
  {
    hide Inv, Evolves, Create, Lineage;
    var s' := Create(s, r, owner, now).state;
    CreateInv(s, r, owner, now);
    CreateEvolves(s, r, owner, now);
    if r.displayId in s'.displays {
      InvPlaced(s');
      StoredLineage(s', r.displayId);
    }
  }

  lemma SectionAfter(s: State, s1: State, section: Section)
    requires Evolves(s, s1) && SectionSound(s1, section)
    ensures SectionSound(s, section)
  {
    hide Inv, TaskSane;
    EvolvesTransitive(s, s1, section.store);
  }

  lemma SweepSectionSound(s: State, todo: seq<Record>, result: BackendError)
    requires Inv(s) && todo != [] && TaskSane(s, Sweeping(todo))
    ensures SectionSound(s, SweepSection(s, todo, result))
  {
    hide Inv, Evolves, Lineage, RemoveIfCurrent, MarkIfCurrent;
    var section := SweepSection(s, todo, result);
    EvolvesReflexive(s);
    RemoveEvolves(s, todo[0], RetainReservation);
    MarkEvolves(s, todo[0]);
    if |todo| > 1 {
      forall r | r in Records(Sweeping(todo[1..])) ensures Lineage(section.store, r) {
        assert r in Records(Sweeping(todo));
        LineageEvolves(s, section.store, r);
      }
    }
  }

  lemma PreDepartSectionSound(s: State, task: Task, result: BackendError)
    requires Inv(s) && task.PreDepart? && TaskSane(s, task)
    ensures SectionSound(s, PreDepartSection(s, task, result))
  {
    hide Inv, Evolves, RemoveIfCurrent, MarkPending, Abandon, CanAbandon, CreateSection, Lineage, IsCurrent;
    var PreDepart(r, owner, now, condemned) := task;
    EvolvesReflexive(s);
    match result
    case Busy =>
    case Done =>
      var s1 := RemoveIfCurrent(s, condemned, RetainReservation);
      RemoveEvolves(s, condemned, RetainReservation);
      CreateSectionSound(s1, r, owner, now);
      SectionAfter(s, s1, CreateSection(s1, r, owner, now));
    case Failed =>
      MarkEvolves(s, condemned);
      if owner.Some? {
        var op := OpAbandon(RequestFor(condemned), condemned.generation, owner.value);
        var s1 := Abandon(s, RequestFor(condemned), condemned.generation, owner.value);
        ApplyInv(s, op);
        ApplyEvolves(s, op);
        CreateSectionSound(s1, r, owner, now);
        SectionAfter(s, s1, CreateSection(s1, r, owner, now));
      }
  }

  lemma ResumeSectionSound(s: State, task: Task, result: BackendError)
    requires Inv(s) && TaskSane(s, task)
    ensures SectionSound(s, ResumeSection(s, task, result))
  {
    hide Inv, Evolves, Lineage, RemoveIfCurrent, SweepSection, PreDepartSection;
    EvolvesReflexive(s);
    match task
    case PreDepart(_, _, _, _) => PreDepartSectionSound(s, task, result);
    case Sweeping(todo) => SweepSectionSound(s, todo, result);
    case Condemned(arrived) => RemoveEvolves(s, arrived, RetainReservation);
    case Arriving(created) =>
      RemoveEvolves(s, created, ReleaseReservation);
      if IsCurrent(s, created) {
        InvPlaced(s);
        StoredLineage(s, created.displayId);
      }
    case _ =>
      RemoveEvolves(s, task.created, RetainReservation);
      RemoveEvolves(s, task.created, ReleaseReservation);
  }

  // ---------------------------------------------------------------- steps

  lemma ProceedInv(c: System, t: nat, section: Section)
    requires MachineInv(c) && SectionSound(c.store, section)
    ensures MachineInv(Proceed(c, t, section))
  {
    hide Inv, Evolves, TaskSane;
    forall u | u in c.threads ensures TaskSane(section.store, c.threads[u].task) {
      TaskSaneEvolves(c.store, section.store, c.threads[u].task);
    }
  }

  lemma StoreStepInv(c: System, s': State)
    requires MachineInv(c) && Inv(s') && Evolves(c.store, s')
    ensures MachineInv(c.(store := s'))
  {
    hide Inv, Evolves, TaskSane;
    forall u | u in c.threads ensures TaskSane(s', c.threads[u].task) {
      TaskSaneEvolves(c.store, s', c.threads[u].task);
    }
  }

  lemma BeginCreateSound(s: State, r: CreateRequest, owner: Option<Capability>, now: int)
    requires Inv(s)
    ensures SectionSound(s, BeginCreate(s, r, owner, now))
  {
    hide Inv, Evolves, Lineage, CreateSection;
    EvolvesReflexive(s);
    InvPlaced(s);
    CreateSectionSound(s, r, owner, now);
    if r.displayId in s.displays {
      FiledUnder(s, r.displayId);
      StoredLineage(s, r.displayId);
    }
  }

  lemma BeginRemoveSound(s: State, r: LeaseDisplayRequest)
    requires Inv(s)
    ensures SectionSound(s, BeginRemove(s, r))
  {
    hide Inv, Evolves, Lineage;
    EvolvesReflexive(s);
    InvPlaced(s);
    if r.displayId in s.displays {
      StoredLineage(s, r.displayId);
    }
  }

  lemma SnapshotSound(s: State, snapshot: seq<Record>, qualifies: Record -> bool)
    requires Inv(s) && Lists(s, snapshot, qualifies) && snapshot != []
    ensures SectionSound(s, Continues(s, Sweeping(snapshot)))
  {
    hide Inv, Evolves, Lineage;
    EvolvesReflexive(s);
    InvPlaced(s);
    forall r | r in Records(Sweeping(snapshot)) ensures Lineage(s, r) {
      StoredLineage(s, r.displayId);
    }
  }

  lemma EndsSound(s: State, s': State, op: StoreOp)
    requires Inv(s) && (s' == s || s' == Apply(s, op))
    ensures SectionSound(s, Ends(s'))
  {
    hide Inv, Evolves, Apply;
    EvolvesReflexive(s);
    ApplyInv(s, op);
    ApplyEvolves(s, op);
  }

  lemma BeginSound(c: System, a: Action)
    requires MachineInv(c) && Enabled(c, a) && !a.FeedLease? && !a.ReclaimDisplay? && !a.Call? && !a.TimeOut? &&
             !a.Resume?
    ensures match a
            case StartCreate(t, r, owner, now) => SectionSound(c.store, BeginCreate(c.store, r, owner, now))
            case StartRemove(t, r) => SectionSound(c.store, BeginRemove(c.store, r))
            case StartRelease(t, r, snapshot) => SectionSound(c.store, BeginRelease(c.store, r, snapshot))
            case StartReap(t, now, snapshot) => SectionSound(c.store, BeginReap(c.store, snapshot))
            case _ => true
  {
    hide Inv, Evolves, TaskSane, BeginCreate, BeginRemove, Release, SectionSound, Lists;
    var s := c.store;
    match a
    case StartCreate(t, r, owner, now) => BeginCreateSound(s, r, owner, now);
    case StartRemove(t, r) => BeginRemoveSound(s, r);
    case StartRelease(t, r, snapshot) =>
      if snapshot != [] {
        SnapshotSound(s, snapshot, (x: Record) => x.leaseId == r.leaseId);
      }
      EndsSound(s, Release(s, r), OpRelease(r));
      EndsSound(s, s, OpRelease(r));
    case StartReap(t, now, snapshot) =>
      if snapshot != [] {
        SnapshotSound(s, snapshot, (x: Record) => x.pending || x.expiresAt <= now);
      }
      EndsSound(s, s, OpReap(now));
  }

  lemma FiledUnder(s: State, d: nat)
    requires Inv(s) && d in s.displays
    ensures s.displays[d].displayId == d
  {
  }

  /** Every enabled step of every operation keeps the machine's invariant. */
  lemma NextInv(c: System, a: Action)
    requires MachineInv(c) && Enabled(c, a)
    ensures MachineInv(Next(c, a))
  {
    hide Inv, Evolves, TaskSane, SectionSound, BeginCreate, BeginRemove, BeginRelease, BeginReap, ResumeSection, Feed,
         Reclaim;
    match a
    case FeedLease(r, now) =>
      ApplyInv(c.store, OpFeed(r, now));
      ApplyEvolves(c.store, OpFeed(r, now));
      StoreStepInv(c, Feed(c.store, r, now));
    case ReclaimDisplay(r, now) =>
      ApplyInv(c.store, OpReclaim(r, now));
      ApplyEvolves(c.store, OpReclaim(r, now));
      StoreStepInv(c, Reclaim(c.store, r, now));
    case Call(t, result, kept) =>
    case TimeOut(t) =>
    case Resume(t) =>
      ResumeSectionSound(c.store, c.threads[t].task, c.threads[t].phase.result);
      ProceedInv(c, t, ResumeSection(c.store, c.threads[t].task, c.threads[t].phase.result));
    case StartCreate(t, r, owner, now) =>
      BeginSound(c, a);
      ProceedInv(c, t, BeginCreate(c.store, r, owner, now));
    case StartRemove(t, r) =>
      BeginSound(c, a);
      ProceedInv(c, t, BeginRemove(c.store, r));
    case StartRelease(t, r, snapshot) =>
      BeginSound(c, a);
      ProceedInv(c, t, BeginRelease(c.store, r, snapshot));
    case StartReap(t, now, snapshot) =>
      BeginSound(c, a);
      ProceedInv(c, t, BeginReap(c.store, snapshot));
  }

  lemma InitialMachineInv(c: System)
    requires Initial(c)
    ensures MachineInv(c)
  {
  }

  // ---------------------------------------------------------------- only the observed record

  /** `r` names exactly this stored record: same display, same lease, same generation. */
  ghost predicate Names(r: Record, stored: Record) {
    r.displayId == stored.displayId && r.leaseId == stored.leaseId && r.generation == stored.generation
  }

  /** The record of `d` was removed, or replaced by another one. */
  ghost predicate Lost(s: State, s': State, d: nat) {
    d in s.displays && !(d in s'.displays && s'.displays[d].generation == s.displays[d].generation)
  }

  ghost predicate NewlyPending(s: State, s': State, d: nat) {
    d in s.displays && d in s'.displays && !s.displays[d].pending && s'.displays[d].pending
  }

  /** The one record that an operation's pending backend call is about. */
  ghost function Subject(task: Task): Record
    requires task.Sweeping? ==> task.todo != []
  {
    match task
    case PreDepart(_, _, _, condemned) => condemned
    case Condemned(arrived) => arrived
    case Sweeping(todo) => todo[0]
    case _ => task.created
  }

  /**
   What a returning call may remove its subject for: a departure that is done, the
   creator's own rollback, or an eviction by the owner after a departure failed.
   */
  ghost predicate MayRemove(s: State, s': State, task: Task, result: BackendError) {
    match task
    case PreDepart(_, owner, _, condemned) =>
      || result == Done
      || (result == Failed && owner.Some? && s'.quarantined == s.quarantined + {condemned.connector})
    case Reserving(_) => result != Done
    case Arriving(created) => result != Done && !created.retain
    case RollingBack(_) => true
    case Condemned(_) => result == Done
    case Sweeping(_) => result == Done
    case Unwinding(_) => false
    case Orphaned(_) => false
  }

  /** A section after a backend call touches the subject of that call at most, and only with good reason. */
  ghost predicate TouchesOnlySubject(s: State, s': State, task: Task, result: BackendError, d: nat)
    requires task.Sweeping? ==> task.todo != []
  {
    && (Lost(s, s', d) ==> Names(Subject(task), s.displays[d]) && MayRemove(s, s', task, result))
    && (NewlyPending(s, s', d) ==> Names(Subject(task), s.displays[d]) && task.Sweeping? && result == Failed)
  }

  lemma RemoveTouches(s: State, r: Record, mode: RemoveMode, d: nat)
    requires RecordsFiled(s)
    ensures var s' := RemoveIfCurrent(s, r, mode);
            && (Lost(s, s', d) ==> Names(r, s.displays[d]))
            && !NewlyPending(s, s', d)
            && (forall e | e in s'.displays :: e in s.displays && s'.displays[e] == s.displays[e])
  {
  }

  lemma MarkTouches(s: State, r: Record, d: nat)
    requires RecordsFiled(s)
    ensures var s' := MarkIfCurrent(s, r);
            !Lost(s, s', d) && (NewlyPending(s, s', d) ==> Names(r, s.displays[d]))
  {
  }

  /** A create, refused or not, neither loses nor marks any stored record. */
  lemma CreateTouchesNothing(s: State, r: CreateRequest, owner: Option<Capability>, now: int, d: nat)
    requires Inv(s) && d in s.displays
    ensures var s' := CreateSection(s, r, owner, now).store;
            d in s'.displays && s'.displays[d] == s.displays[d]
  {
    if Create(s, r, owner, now).error == NoError {
      CreateAdds(s, r, owner, now);
    } else {
      RefusedCreateInv(s, r, owner, now);
    }
  }

  lemma UnchangedTouchesNothing(s: State, d: nat)
    ensures !Lost(s, s, d) && !NewlyPending(s, s, d)
  {
  }

  lemma AbandonTouches(s: State, r: Record, owner: Capability, d: nat)
    requires RecordsFiled(s)
    ensures var s' := Abandon(s, RequestFor(r), r.generation, owner);
            && (Lost(s, s', d) ==> Names(r, s.displays[d]))
            && !NewlyPending(s, s', d)
  {
  }

  /** A create that follows neither loses nor marks anything more. */
  lemma CreateAfterTouches(s: State, s1: State, r: CreateRequest, owner: Option<Capability>, now: int, d: nat)
    requires Inv(s1) && d in s.displays && !NewlyPending(s, s1, d)
    ensures var s' := CreateSection(s1, r, owner, now).store;
            (Lost(s, s', d) ==> Lost(s, s1, d)) && (NewlyPending(s, s', d) ==> Lost(s, s1, d))
  {
    hide Inv, CreateSection;
    if d in s1.displays {
      CreateTouchesNothing(s1, r, owner, now, d);
    }
  }

  lemma MarkedTouches(s: State, r: Record, d: nat)
    requires RecordsFiled(s) && r.pending && Lineage(s, r)
    ensures var s' := MarkPending(s, RequestFor(r));
            IsCurrent(s, r) ==> !Lost(s, s', d) && !NewlyPending(s, s', d)
  {
  }

  lemma PreDepartTouches(s: State, task: Task, result: BackendError, d: nat)
    requires Inv(s) && task.PreDepart? && TaskSane(s, task) && d in s.displays
    ensures var s' := PreDepartSection(s, task, result).store;
            && (Lost(s, s', d) ==> Names(task.condemned, s.displays[d]))
            && (NewlyPending(s, s', d) ==> Names(task.condemned, s.displays[d]))
  {
    hide Inv, CreateSection, Lost, NewlyPending, Names, RemoveIfCurrent, Abandon, CanAbandon, MarkPending, IsCurrent;
    var PreDepart(r, owner, now, condemned) := task;
    InvPlaced(s);
    UnchangedTouchesNothing(s, d);
    assert condemned in Records(task);
    match result
    case Busy =>
    case Done =>
      RemoveTouches(s, condemned, RetainReservation, d);
      RemoveEvolves(s, condemned, RetainReservation);
      CreateAfterTouches(s, RemoveIfCurrent(s, condemned, RetainReservation), r, owner, now, d);
    case Failed =>
      MarkedTouches(s, condemned, d);
      if owner.Some? {
        AbandonTouches(s, condemned, owner.value, d);
        ApplyInv(s, OpAbandon(RequestFor(condemned), condemned.generation, owner.value));
        CreateAfterTouches(s, Abandon(s, RequestFor(condemned), condemned.generation, owner.value), r, owner, now, d);
      }
  }

  /** The condemned record is awaiting departure already, so nothing becomes pending there. */
  lemma PreDepartMarksNothing(s: State, task: Task, result: BackendError, d: nat)
    requires Inv(s) && task.PreDepart? && TaskSane(s, task) && d in s.displays
    ensures !NewlyPending(s, PreDepartSection(s, task, result).store, d)
  {
    hide Inv, PreDepartSection;
    PreDepartTouches(s, task, result, d);
    InvPlaced(s);
    assert task.condemned in Records(task);
    assert Lineage(s, task.condemned);
  }

  /** Busy leaves the store alone; an eviction quarantines the connector of the record it evicts. */
  lemma PreDepartReason(s: State, task: Task, result: BackendError, d: nat)
    requires Inv(s) && task.PreDepart? && TaskSane(s, task) && d in s.displays
    requires Lost(s, PreDepartSection(s, task, result).store, d)
    ensures MayRemove(s, PreDepartSection(s, task, result).store, task, result)
  {
    hide Inv, CreateSection, Lost, RemoveIfCurrent, Abandon, CanAbandon, MarkPending, IsCurrent, Lineage;
    var PreDepart(r, owner, now, condemned) := task;
    UnchangedTouchesNothing(s, d);
    InvPlaced(s);
    assert condemned in Records(task);
    MarkedTouches(s, condemned, d);
    if result == Failed && owner.Some? {
      var s1 := Abandon(s, RequestFor(condemned), condemned.generation, owner.value);
      if CanAbandon(s, RequestFor(condemned), condemned.generation, owner.value) == NoError {
        AbandonedConnector(s, condemned, owner.value);
        ApplyInv(s, OpAbandon(RequestFor(condemned), condemned.generation, owner.value));
        CreateKeepsQuarantine(s1, r, owner, now);
      }
    }
  }

  lemma AbandonedConnector(s: State, r: Record, owner: Capability)
    requires Lineage(s, r) && RecordsFiled(s)
    requires CanAbandon(s, RequestFor(r), r.generation, owner) == NoError
    ensures Abandon(s, RequestFor(r), r.generation, owner).quarantined == s.quarantined + {r.connector}
  {
  }

  lemma CreateKeepsQuarantine(s: State, r: CreateRequest, owner: Option<Capability>, now: int)
    requires Inv(s)
    ensures CreateSection(s, r, owner, now).store.quarantined == s.quarantined
  {
    hide Inv, Create;
    if Create(s, r, owner, now).error == NoError {
      InvPlaced(s);
      CreateAdds(s, r, owner, now);
    } else {
      RefusedCreateInv(s, r, owner, now);
    }
  }

  lemma ResumeTouches(s: State, task: Task, result: BackendError, d: nat)
    requires Inv(s) && TaskSane(s, task) && d in s.displays
    ensures TouchesOnlySubject(s, ResumeSection(s, task, result).store, task, result, d)
  {
    hide Inv, RemoveIfCurrent, MarkIfCurrent, PreDepartSection, Lost, NewlyPending, IsCurrent, Lineage;
    InvPlaced(s);
    UnchangedTouchesNothing(s, d);
    match task
    case PreDepart(_, _, _, _) =>
      PreDepartTouches(s, task, result, d);
      PreDepartMarksNothing(s, task, result, d);
      if Lost(s, PreDepartSection(s, task, result).store, d) {
        PreDepartReason(s, task, result, d);
      }
    case Sweeping(todo) =>
      RemoveTouches(s, todo[0], RetainReservation, d);
      MarkTouches(s, todo[0], d);
    case Condemned(arrived) =>
      RemoveTouches(s, arrived, RetainReservation, d);
    case _ =>
      RemoveTouches(s, task.created, RetainReservation, d);
      RemoveTouches(s, task.created, ReleaseReservation, d);
  }

  /** Sections that start an operation, and the calls and lease renewals between them, touch no record. */
  lemma OthersTouchNothing(c: System, a: Action, d: nat)
    requires MachineInv(c) && Enabled(c, a) && !a.Resume? && d in c.store.displays
    ensures !Lost(c.store, Next(c, a).store, d) && !NewlyPending(c.store, Next(c, a).store, d)
  {
    hide Inv, CreateSection, TaskSane;
    match a
    case StartCreate(t, r, owner, now) => CreateTouchesNothing(c.store, r, owner, now, d);
    case StartRelease(t, r, snapshot) =>
      if snapshot == [] {
        assert c.store.displays[d].leaseId != r.leaseId;
      }
    case _ =>
  }

  /**
   In every reachable state of every interleaving, a step that removes or
   replaces a stored record, or marks it as awaiting departure, comes back from
   a backend call about that very record. It removes it because the departure is
   done, to roll back its own create, or to evict it by its owner's right; it
   marks it only because the departure failed, never because it was `Busy`.
   */
  lemma OnlyObservedRecordsTouched(c: System, a: Action, d: nat)
    requires MachineInv(c) && Enabled(c, a) && d in c.store.displays
    ensures Lost(c.store, Next(c, a).store, d) || NewlyPending(c.store, Next(c, a).store, d) ==>
              && a.Resume?
              && TouchesOnlySubject(c.store, Next(c, a).store, c.threads[a.t].task, c.threads[a.t].phase.result, d)
  {
    hide Inv, TaskSane, TouchesOnlySubject, Lost, NewlyPending, ResumeSection;
    if a.Resume? {
      ResumeTouches(c.store, c.threads[a.t].task, c.threads[a.t].phase.result, d);
    } else {
      OthersTouchNothing(c, a, d);
    }
  }

  // ---------------------------------------------------------------- whole runs

  lemma {:induction false} RunMachineInv(c: System, actions: seq<Action>)
    requires MachineInv(c) && IsRun(c, actions)
    ensures MachineInv(After(c, actions))
    decreases |actions|
  {
    hide MachineInv, Next, Enabled;
    if actions != [] {
      NextInv(c, actions[0]);
      RunMachineInv(Next(c, actions[0]), actions[1..]);
    }
  }

  lemma NextEvolves(c: System, a: Action)
    requires MachineInv(c) && Enabled(c, a)
    ensures Evolves(c.store, Next(c, a).store)
  {
    hide Inv, Evolves, TaskSane, BeginCreate, BeginRemove, BeginRelease, BeginReap, ResumeSection, Feed, Reclaim;
    EvolvesReflexive(c.store);
    match a
    case FeedLease(r, now) => ApplyEvolves(c.store, OpFeed(r, now));
    case ReclaimDisplay(r, now) => ApplyEvolves(c.store, OpReclaim(r, now));
    case Call(t, result, kept) =>
    case TimeOut(t) =>
    case Resume(t) => ResumeSectionSound(c.store, c.threads[t].task, c.threads[t].phase.result);
    case _ => BeginSound(c, a);
  }

  /**
   A generation names one lineage for the whole run: a record once stored and
   any record that later carries its generation agree on display id, connector
   and identity, and once awaiting departure it stays so.
   */
  lemma {:induction false} GenerationNamesLineage(c: System, actions: seq<Action>, r: Record)
    requires MachineInv(c) && IsRun(c, actions) && Lineage(c.store, r)
    ensures Lineage(After(c, actions).store, r)
    decreases |actions|
  {
    hide MachineInv, Next, Enabled, Lineage, Evolves;
    if actions != [] {
      NextInv(c, actions[0]);
      NextEvolves(c, actions[0]);
      LineageEvolves(c.store, Next(c, actions[0]).store, r);
      GenerationNamesLineage(Next(c, actions[0]), actions[1..], r);
    }
  }

  ghost function Stored(s: State): set<Record> {
    set d | d in s.displays :: s.displays[d]
  }

  predicate Starts(a: Action, t: nat) {
    (a.StartCreate? || a.StartRemove? || a.StartRelease? || a.StartReap?) && a.t == t
  }

  /**
   What the operation in thread `t` has seen: the records the store held each time
   that operation, since it started, let go of the controller lock.
   */
  ghost function SeenBy(c: System, actions: seq<Action>, t: nat, seen: set<Record>): set<Record>
    requires IsRun(c, actions)
    decreases |actions|
  {
    if actions == [] then seen
    else
      var a, c' := actions[0], Next(c, actions[0]);
      SeenBy(c', actions[1..], t,
             if Starts(a, t) then Stored(c'.store) else if a == Resume(t) then seen + Stored(c'.store) else seen)
  }

  lemma SectionObserves(s: State, task: Task, result: BackendError)
    requires task.Sweeping? ==> task.todo != []
    ensures var section := ResumeSection(s, task, result);
            section.next.Some? ==> Records(section.next.value) <= Records(task) + Stored(section.store)
  {
    hide Create, RemoveIfCurrent, Abandon, CanAbandon, MarkPending, MarkIfCurrent;
  }

  lemma BeginCreateObserves(s: State, r: CreateRequest, owner: Option<Capability>, now: int)
    ensures var section := BeginCreate(s, r, owner, now);
            section.next.Some? ==> Records(section.next.value) <= Stored(section.store)
  {
    hide Create;
  }

  lemma BeginRemoveObserves(s: State, r: LeaseDisplayRequest)
    ensures var section := BeginRemove(s, r);
            section.next.Some? ==> Records(section.next.value) <= Stored(s)
  {
  }

  lemma SnapshotStored(s: State, snapshot: seq<Record>, qualifies: Record -> bool)
    requires Lists(s, snapshot, qualifies)
    ensures Records(Sweeping(snapshot)) <= Stored(s)
  {
  }

  ghost predicate HasSeen(c: System, t: nat, seen: set<Record>) {
    t in c.threads ==> Records(c.threads[t].task) <= seen
  }

  lemma StartObserves(c: System, a: Action, t: nat)
    requires Enabled(c, a) && Starts(a, t)
    ensures HasSeen(Next(c, a), t, Stored(Next(c, a).store))
  {
    hide Create, Release, Stored;
    match a
    case StartCreate(_, r, owner, now) => BeginCreateObserves(c.store, r, owner, now);
    case StartRemove(_, r) => BeginRemoveObserves(c.store, r);
    case StartRelease(_, r, snapshot) => SnapshotStored(c.store, snapshot, (x: Record) => x.leaseId == r.leaseId);
    case StartReap(_, now, snapshot) =>
      SnapshotStored(c.store, snapshot, (x: Record) => x.pending || x.expiresAt <= now);
  }

  lemma NextObserved(c: System, a: Action, t: nat, seen: set<Record>)
    requires Enabled(c, a) && HasSeen(c, t, seen)
    ensures var c' := Next(c, a);
            HasSeen(c', t, if Starts(a, t) then Stored(c'.store)
                           else if a == Resume(t) then seen + Stored(c'.store) else seen)
  {
    hide Create, ResumeSection, BeginCreate, BeginRemove, BeginRelease, BeginReap, Feed, Reclaim, Stored;
    if Starts(a, t) {
      StartObserves(c, a, t);
    } else if a == Resume(t) {
      SectionObserves(c.store, c.threads[t].task, c.threads[t].phase.result);
    }
  }

  lemma {:induction false} RunObserved(c: System, actions: seq<Action>, t: nat, seen: set<Record>)
    requires IsRun(c, actions) && HasSeen(c, t, seen)
    ensures HasSeen(After(c, actions), t, SeenBy(c, actions, t, seen))
    decreases |actions|
  {
    hide Next, Enabled, Stored, HasSeen;
    if actions != [] {
      var a, c' := actions[0], Next(c, actions[0]);
      NextObserved(c, a, t, seen);
      RunObserved(c', actions[1..], t,
                  if Starts(a, t) then Stored(c'.store) else if a == Resume(t) then seen + Stored(c'.store) else seen);
    }
  }

  /**
   From a fresh driver, after any run, a step that removes, replaces or marks the
   record of `d` resumes an operation whose call was about a record which that
   same operation had seen in the store when it let go of the lock, under the same
   display id, lease and generation. A record that replaced it while the call was
   out is not among those, and so is never touched.
   */
  lemma TouchedRecordWasObserved(c: System, actions: seq<Action>, a: Action, d: nat)
    requires Initial(c) && IsRun(c, actions)
    requires Enabled(After(c, actions), a) && d in After(c, actions).store.displays
    requires var s := After(c, actions).store; var s' := Next(After(c, actions), a).store;
             Lost(s, s', d) || NewlyPending(s, s', d)
    ensures var at := After(c, actions);
            && a.Resume? && a.t in at.threads
            && (at.threads[a.t].task.Sweeping? ==> at.threads[a.t].task.todo != [])
            && Names(Subject(at.threads[a.t].task), at.store.displays[d])
            && Subject(at.threads[a.t].task) in SeenBy(c, actions, a.t, {})
  {
    hide MachineInv, Next, Lost, NewlyPending, SeenBy;
    var at := After(c, actions);
    InitialMachineInv(c);
    RunMachineInv(c, actions);
    OnlyObservedRecordsTouched(at, a, d);
    RunObserved(c, actions, a.t, {});
    assert Subject(at.threads[a.t].task) in Records(at.threads[a.t].task);
  }
}

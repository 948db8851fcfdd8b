/**
 Every interleaving of the controller does to the store what a run of the store's own
 operations does: so what those runs promise holds of the controller as well.
 */
module ControllerRefinement {
  import opened Wrappers
  import opened LeaseStoreSpec
  import opened LeaseStoreInvariant
  import opened DriverController
  import opened ControllerSafety
  import opened ConnectorPolicy
  import opened LeaseFencing

  // ---------------------------------------------------------------- what a step does to the store

  /** A removal that is made only if the record observed is still the one stored. */
  ghost function RemovalOf(s: State, r: Record, mode: RemoveMode): seq<StoreOp> {
    if IsCurrent(s, r) then [OpRemove(RequestFor(r), mode)] else []
  }

  ghost function MarkOf(s: State, r: Record): seq<StoreOp> {
    if IsCurrent(s, r) then [OpMark(RequestFor(r))] else []
  }

  /** What the operation does once its backend call has returned. */
  ghost function OpsOfResume(s: State, task: Task, result: BackendError): seq<StoreOp> {
    match task
    case PreDepart(r, owner, now, condemned) =>
      (match result
       case Busy => []
       case Done => RemovalOf(s, condemned, RetainReservation) + [OpCreate(r, owner, now)]
       case Failed =>
         if IsCurrent(s, condemned) && owner.Some? &&
            CanAbandon(s, RequestFor(condemned), condemned.generation, owner.value) == NoError
         then [OpAbandon(RequestFor(condemned), condemned.generation, owner.value), OpCreate(r, owner, now)]
         else MarkOf(s, condemned))
    case Reserving(created) => if result == Done then [] else RemovalOf(s, created, ReleaseReservation)
    case Unwinding(_) => []
    case Arriving(created) =>
      if result == Done || created.retain then [] else RemovalOf(s, created, ReleaseReservation)
    case RollingBack(created) =>
      RemovalOf(s, created, if result == Done then ReleaseReservation else RetainReservation)
    case Orphaned(_) => []
    case Condemned(arrived) => if result == Done then RemovalOf(s, arrived, RetainReservation) else []
    case Sweeping(todo) =>
      if todo == [] then []
      else
        match result
        case Done => RemovalOf(s, todo[0], RetainReservation)
        case Failed => MarkOf(s, todo[0])
        case Busy => []
  }

  /** The store operations that one action of the machine comes to. */
  ghost function OpsOf(c: System, a: Action): seq<StoreOp>
    requires Enabled(c, a)
  {
    match a
    case StartCreate(_, r, owner, now) =>
      if !ValidCreate(r, owner) || (r.displayId in c.store.displays && c.store.displays[r.displayId].pending) then []
      else [OpCreate(r, owner, now)]
    case StartRemove(_, _) => []
    case StartRelease(_, r, snapshot) => if snapshot == [] then [OpRelease(r)] else []
    case StartReap(_, _, _) => []
    case FeedLease(r, now) => [OpFeed(r, now)]
    case ReclaimDisplay(r, now) => [OpReclaim(r, now)]
    case Call(_, _, _) => []
    case TimeOut(_) => []
    case Resume(t) => OpsOfResume(c.store, c.threads[t].task, c.threads[t].phase.result)
  }

  ghost function OpsOfRun(c: System, actions: seq<Action>): seq<StoreOp>
    requires IsRun(c, actions)
    decreases |actions|
  {
    if actions == [] then [] else OpsOf(c, actions[0]) + OpsOfRun(Next(c, actions[0]), actions[1..])
  }

  // ---------------------------------------------------------------- one step

  lemma RunOne(s: State, op: StoreOp)
    ensures Run(s, [op]) == Apply(s, op)
  {
    hide Apply;
    assert [op][1..] == [];
    assert Run(Apply(s, op), [op][1..]) == Apply(s, op);
  }

  lemma {:induction false} RunAppend(s: State, a: seq<StoreOp>, b: seq<StoreOp>)
    ensures Run(s, a + b) == Run(Run(s, a), b)
    decreases |a|
  {
    hide Apply;
    if a == [] {
      assert a + b == b;
    } else {
      assert (a + b)[1..] == a[1..] + b;
      RunAppend(Apply(s, a[0]), a[1..], b);
    }
  }

  lemma RemovalRuns(s: State, r: Record, mode: RemoveMode)
    ensures Run(s, RemovalOf(s, r, mode)) == RemoveIfCurrent(s, r, mode)
  {
    if IsCurrent(s, r) {
      RunOne(s, OpRemove(RequestFor(r), mode));
    }
  }

  lemma MarkRuns(s: State, r: Record)
    ensures Run(s, MarkOf(s, r)) == MarkIfCurrent(s, r)
  {
    if IsCurrent(s, r) {
      RunOne(s, OpMark(RequestFor(r)));
    }
  }

  lemma CreateSectionStore(s: State, r: CreateRequest, owner: Option<Capability>, now: int)
    ensures CreateSection(s, r, owner, now).store == Create(s, r, owner, now).state
  {
  }

  lemma PreDepartRuns(s: State, task: Task, result: BackendError)
    requires task.PreDepart?
    ensures PreDepartSection(s, task, result).store == Run(s, OpsOfResume(s, task, result))
  {
    hide Create, CreateSection, CanAbandon, Abandon, Run, RemoveIfCurrent, RemovalOf, MarkPending, IsCurrent;
    var PreDepart(r, owner, now, condemned) := task;
    match result {
      case Busy =>
        RunNone(s);
      case Done =>
        RemovalRuns(s, condemned, RetainReservation);
        RunAppend(s, RemovalOf(s, condemned, RetainReservation), [OpCreate(r, owner, now)]);
        CreateRuns(RemoveIfCurrent(s, condemned, RetainReservation), r, owner, now);
      case Failed =>
        if IsCurrent(s, condemned) && owner.Some? &&
           CanAbandon(s, RequestFor(condemned), condemned.generation, owner.value) == NoError {
          var evict := OpAbandon(RequestFor(condemned), condemned.generation, owner.value);
          RunOne(s, evict);
          RunAppend(s, [evict], [OpCreate(r, owner, now)]);
          assert [evict, OpCreate(r, owner, now)] == [evict] + [OpCreate(r, owner, now)];
          CreateRuns(Abandon(s, RequestFor(condemned), condemned.generation, owner.value), r, owner, now);
        } else {
          MarkRuns(s, condemned);
        }
    }
  }

  lemma RunNone(s: State)
    ensures Run(s, []) == s
  {
  }

  lemma CreateRuns(s: State, r: CreateRequest, owner: Option<Capability>, now: int)
    ensures Run(s, [OpCreate(r, owner, now)]) == CreateSection(s, r, owner, now).store
  {
    hide Create, CreateSection;
    CreateSectionStore(s, r, owner, now);
    RunOne(s, OpCreate(r, owner, now));
  }

  lemma SweepRunsOps(s: State, todo: seq<Record>, result: BackendError)
    requires todo != []
    ensures SweepSection(s, todo, result).store == Run(s, OpsOfResume(s, Sweeping(todo), result))
  {
    hide Run, RemoveIfCurrent, RemovalOf, MarkIfCurrent, MarkOf;
    RunNone(s);
    RemovalRuns(s, todo[0], RetainReservation);
    MarkRuns(s, todo[0]);
  }

  lemma ResumeRuns(s: State, task: Task, result: BackendError)
    requires task.Sweeping? ==> task.todo != []
    ensures ResumeSection(s, task, result).store == Run(s, OpsOfResume(s, task, result))
  {
    hide Run, RemoveIfCurrent, RemovalOf, PreDepartSection, SweepSection;
    RunNone(s);
    match task
    case PreDepart(_, _, _, _) => PreDepartRuns(s, task, result);
    case Reserving(created) => RemovalRuns(s, created, ReleaseReservation);
    case Arriving(created) => RemovalRuns(s, created, ReleaseReservation);
    case RollingBack(created) =>
      RemovalRuns(s, created, ReleaseReservation);
      RemovalRuns(s, created, RetainReservation);
    case Condemned(arrived) => RemovalRuns(s, arrived, RetainReservation);
    case Sweeping(todo) => SweepRunsOps(s, todo, result);
    case _ =>
  }

  lemma StepRunsOps(c: System, a: Action)
    requires Enabled(c, a)
    ensures Next(c, a).store == Run(c.store, OpsOf(c, a))
  {
    hide Run, Create, CreateSection, Release, Feed, Reclaim, OpsOfResume, ResumeSection, CanRemove;
    RunNone(c.store);
    match a
    case StartCreate(_, r, owner, now) => CreateRuns(c.store, r, owner, now);
    case StartRelease(_, r, _) =>
      RunOne(c.store, OpRelease(r));
      if !ValidLease(r) {
        InvalidRelease(c.store, r);
      }
    case FeedLease(r, now) => RunOne(c.store, OpFeed(r, now));
    case ReclaimDisplay(r, now) => RunOne(c.store, OpReclaim(r, now));
    case Resume(t) => ResumeRuns(c.store, c.threads[t].task, c.threads[t].phase.result);
    case _ =>
  }

  lemma InvalidRelease(s: State, r: LeaseRequest)
    requires !ValidLease(r)
    ensures Release(s, r) == s
  {
  }

  // ---------------------------------------------------------------- over every interleaving

  /** The store after any interleaving is the store after the operations it comes to, in that order. */
  lemma {:induction false} ControllerRunsTheStore(c: System, actions: seq<Action>)
    requires IsRun(c, actions)
    ensures After(c, actions).store == Run(c.store, OpsOfRun(c, actions))
    decreases |actions|
  {
    hide Next, Enabled, OpsOf;
    if actions != [] {
      StepRunsOps(c, actions[0]);
      ControllerRunsTheStore(Next(c, actions[0]), actions[1..]);
      RunAppend(c.store, OpsOf(c, actions[0]), OpsOfRun(Next(c, actions[0]), actions[1..]));
    }
  }

  /**
   Reclaim is a fence for the controller too: whatever was under way when a lease was moved, and
   whatever starts later, nobody is authorized, and nothing is fed, removed or released, with the old
   lease, unless a create or reclaim names it anew.
   */
  lemma ReclaimFencesOperations(c: System, r: ReclaimRequest, now: int, moved: System, actions: seq<Action>, l: nat,
                                d: nat, owner: Capability, generation: nat, timeout: nat, later: int)
    requires MachineInv(c) && CanReclaim(c.store, r, now) == NoError && c.store.displays[r.displayId].leaseId == l
    requires Enabled(c, ReclaimDisplay(r, now)) && moved == Next(c, ReclaimDisplay(r, now)) && IsRun(moved, actions)
    requires forall op | op in OpsOfRun(moved, actions) :: SparesLease(op, l)
    ensures var after := After(moved, actions).store;
            && Dead(after, l) && Authorize(after, LeaseDisplayRequest(true, l, d), owner, later) == None
            && Feed(after, LeaseRequest(true, l, timeout), later) == after
  {
    hide Inv, TaskSane, Dead, Authorize, Feed, SparesLease, CanReclaim, Reclaim, Run, Remove, MarkPending, Abandon,
         Release, OpsOfRun, IsRun, After;
    assert moved.store == Reclaim(c.store, r, now);
    hide Next, Enabled;
    ReclaimFences(c.store, r, now);
    ReclaimInv(c.store, r, now);
    ControllerRunsTheStore(moved, actions);
    OldLeaseStaysFenced(moved.store, OpsOfRun(moved, actions), l);
    FencedIsRefused(moved.store, OpsOfRun(moved, actions), l, d, owner, generation, timeout, later);
  }

  /** A connector once quarantined is given to nobody again, however the operations interleave. */
  lemma QuarantineOutlivesOperations(c: System, actions: seq<Action>, connector: nat)
    requires MachineInv(c) && IsRun(c, actions) && connector in c.store.quarantined
    ensures var s := After(c, actions).store;
            && connector in s.quarantined && !s.IsActive(connector) && !s.IsReserved(connector)
  {
    hide Inv, TaskSane, Next, Enabled;
    ControllerRunsTheStore(c, actions);
    PlacesClean(c.store);
    QuarantinedForever(c.store, OpsOfRun(c, actions), connector);
  }
}

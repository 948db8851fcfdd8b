/**
 When exactly the step of an operation breaks the agreement of store and backend:
 for every task, every answer of the backend and every state that agrees, however
 it came about. The guards of `ControllerAgreement` are then shown to be needed.
 */
module ControllerExactness {
  import opened Wrappers
  import opened LeaseStoreSpec
  import opened LeaseStoreInvariant
  import opened LeaseStoreLineage
  import opened DriverController
  import opened ControllerSafety
  import opened ControllerMonitors
  import opened ControllerAgreement
  import opened ConnectorPolicy

  // ---------------------------------------------------------------- one call and its return

  /** The operation waits for its call, and the backend is free to take it. */
  ghost predicate Waits(c: System, t: nat) {
    && t in c.threads && c.threads[t].phase.Waiting? && c.MutexFree()
    && (c.threads[t].task.Sweeping? ==> c.threads[t].task.todo != [])
  }

  /** The backend answers, or the call gives up waiting for it; of what a failed departure targets it keeps `kept`. */
  ghost function Answer(c: System, t: nat, result: BackendError, kept: set<Monitor>): Action {
    if result == Busy then TimeOut(t) else Call(t, result, kept * c.monitors)
  }

  ghost function Answered(c: System, t: nat, result: BackendError, kept: set<Monitor>): System
    requires Waits(c, t)
  {
    Next(c, Answer(c, t, result, kept))
  }

  /** The answer, and the store section that the operation runs upon it. */
  ghost function Continued(c: System, t: nat, result: BackendError, kept: set<Monitor>): System
    requires Waits(c, t)
  {
    Next(Answered(c, t, result, kept), Resume(t))
  }

  lemma AnsweredThread(c: System, t: nat, result: BackendError, kept: set<Monitor>)
    requires Waits(c, t)
    ensures var task := c.threads[t].task; var answered := Answered(c, t, result, kept);
            && Enabled(c, Answer(c, t, result, kept)) && Enabled(answered, Resume(t))
            && answered.store == c.store && answered.threads == c.threads[t := Thread(task, Returned(result))]
            && Continued(c, t, result, kept) == Proceed(answered, t, ResumeSection(c.store, task, result))
            && (result == Busy ==> answered.monitors == c.monitors)
            && (result != Busy ==> answered.monitors == MonitorsAfter(c.monitors, task, result, kept * c.monitors))
  {
    hide ResumeSection, MonitorsAfter;
  }

  lemma ContinuedInv(c: System, t: nat, result: BackendError, kept: set<Monitor>)
    requires MachineInv(c) && Waits(c, t)
    ensures MachineInv(Continued(c, t, result, kept))
    ensures MonitorInv(c) ==> MonitorInv(Continued(c, t, result, kept))
  {
    hide MachineInv, MonitorInv, Next, Enabled;
    AnsweredThread(c, t, result, kept);
    var answered := Answered(c, t, result, kept);
    NextInv(c, Answer(c, t, result, kept));
    NextInv(answered, Resume(t));
    if MonitorInv(c) {
      NextMonitorInv(c, Answer(c, t, result, kept));
      NextMonitorInv(answered, Resume(t));
    }
  }

  /** A departure's monitor survives the answer: it was not asked for, or failed and kept it. */
  ghost predicate Spares(result: BackendError, kept: set<Monitor>, m: Monitor) {
    result == Busy || (result == Failed && m in kept)
  }

  /** The record observed is still there, not condemned, but under another lease. */
  ghost predicate Stray(s: State, x: Record) {
    && x.displayId in s.displays && s.displays[x.displayId].generation == x.generation
    && s.displays[x.displayId].leaseId != x.leaseId && !s.displays[x.displayId].pending
  }

  /** The record observed is still there. */
  ghost predicate Stands(s: State, x: Record) {
    x.displayId in s.displays && s.displays[x.displayId].generation == x.generation
  }

  /**
   What must hold when an operation's call is made for its answer and the section
   upon it to keep agreement. A departure that clears a live monitor must have its
   record in hand; a create must not be left with a record that it cannot remove.
   */
  ghost predicate Safe(c: System, t: nat, result: BackendError, kept: set<Monitor>)
    requires t in c.threads && (c.threads[t].task.Sweeping? ==> c.threads[t].task.todo != [])
  {
    match c.threads[t].task
    case PreDepart(_, _, _, condemned) =>
      Live(c, condemned.displayId) ==> Spares(result, kept, MonitorOf(c.store.displays[condemned.displayId]))
    case Sweeping(todo) =>
      Stray(c.store, todo[0]) && Live(c, todo[0].displayId) ==> Spares(result, kept, MonitorOf(todo[0]))
    case Orphaned(created) =>
      Stands(c.store, created) && Live(c, created.displayId) ==> Spares(result, kept, MonitorOf(created))
    case Reserving(created) => !Stray(c.store, created)
    case Arriving(created) => Stray(c.store, created) ==> result == Done || created.retain
    case RollingBack(created) => !Stray(c.store, created)
    case Unwinding(_) => true
    case Condemned(_) => true
  }

  // ---------------------------------------------------------------- safe steps agree

  lemma ResumeNewInFlight(s: State, task: Task, result: BackendError)
    requires Inv(s) && TaskSane(s, task)
    ensures NewInFlight(s, ResumeSection(s, task, result))
  {
    hide Inv, RemoveIfCurrent, MarkIfCurrent, PreDepartSection, Lineage, IsCurrent;
    match task
    case PreDepart(_, _, _, _) =>
      var section := PreDepartSection(s, task, result);
      PreDepartKnown(s, task, result);
      KnownIgnoresEvictions(s, section);
      KnownIsNewInFlight(s, section);
    case Sweeping(todo) =>
      RemoveShrinks(s, todo[0], RetainReservation);
      MarkShrinks(s, todo[0]);
    case Condemned(arrived) =>
      RemoveShrinks(s, arrived, RetainReservation);
    case _ =>
      RemoveShrinks(s, task.created, RetainReservation);
      RemoveShrinks(s, task.created, ReleaseReservation);
  }

  /** What survives of an observed record that is not astray is not that record: it is removed or condemned. */
  lemma NotStrayRemoved(s: State, x: Record, mode: RemoveMode, d: nat)
    requires RecordsFiled(s) && Lineage(s, x) && !Stray(s, x)
    ensures Survives(s, RemoveIfCurrent(s, x, mode), d) ==> s.displays[d].generation != x.generation
    ensures Survives(s, MarkIfCurrent(s, x), d) ==> s.displays[d].generation != x.generation
    ensures !IsCurrent(s, x) && Survives(s, s, d) ==> s.displays[d].generation != x.generation
  {
  }

  lemma SweepSettlesUnless(c: System, t: nat, result: BackendError, kept: set<Monitor>)
    requires MachineInv(c) && Waits(c, t) && c.threads[t].task.Sweeping?
    requires result != Busy ==> !(Stray(c.store, c.threads[t].task.todo[0]) &&
                                  Live(c, c.threads[t].task.todo[0].displayId))
    ensures Settles(Answered(c, t, result, kept), t, ResumeSection(c.store, c.threads[t].task, result))
  {
    hide Inv, Lineage, RemoveIfCurrent, MarkIfCurrent, Stray, IsCurrent, Live;
    AnsweredThread(c, t, result, kept);
    var s, task, answered := c.store, c.threads[t].task, Answered(c, t, result, kept);
    var head, section := task.todo[0], ResumeSection(s, task, result);
    SameTasks(c, answered);
    assert TaskSane(s, task) && head in Records(task);
    SoundPlaces(s);
    forall d | Survives(s, section.store, d) && result != Busy && MonitorOf(s.displays[d]) == MonitorOf(head)
      ensures !Live(answered, d)
    {
      FiledUnder(s, d);
      if !Stray(s, head) {
        NotStrayRemoved(s, head, RetainReservation, d);
      }
    }
  }

  lemma CreatorSettlesUnless(c: System, t: nat, result: BackendError, kept: set<Monitor>)
    requires MachineInv(c) && Waits(c, t) && Safe(c, t, result, kept)
    requires c.threads[t].task.Reserving? || c.threads[t].task.Arriving? || c.threads[t].task.RollingBack?
    ensures Settles(Answered(c, t, result, kept), t, ResumeSection(c.store, c.threads[t].task, result))
  {
    hide Inv, Lineage, RemoveIfCurrent, MarkIfCurrent, Stray, IsCurrent, Live;
    AnsweredThread(c, t, result, kept);
    var s, task, answered := c.store, c.threads[t].task, Answered(c, t, result, kept);
    var x, section := task.created, ResumeSection(s, task, result);
    assert TaskSane(s, task) && x in Records(task);
    SoundPlaces(s);
    forall d | Survives(s, section.store, d) && s.displays[d].generation == x.generation
      ensures || (section.next.Some? && Creating(section.next.value, x.generation))
              || (MonitorOf(s.displays[d]) in answered.monitors && answered.threads[t].HoldsMutex())
    {
      SameGeneration(s, x);
      if !Stray(s, x) {
        NotStrayRemoved(s, x, RetainReservation, d);
        NotStrayRemoved(s, x, ReleaseReservation, d);
      }
    }
  }

  lemma OthersSettle(c: System, t: nat, result: BackendError, kept: set<Monitor>)
    requires MachineInv(c) && Waits(c, t)
    requires var task := c.threads[t].task;
             || task.Unwinding? || task.Condemned?
             || (task.PreDepart? && (result != Busy ==> !Live(c, task.condemned.displayId)))
             || (task.Orphaned? && (result != Busy ==>
                                    !(Stands(c.store, task.created) && Live(c, task.created.displayId))))
    ensures Settles(Answered(c, t, result, kept), t, ResumeSection(c.store, c.threads[t].task, result))
  {
    hide Inv, RemoveIfCurrent, MarkIfCurrent, PreDepartSection, Live;
    AnsweredThread(c, t, result, kept);
    var s, task, answered := c.store, c.threads[t].task, Answered(c, t, result, kept);
    SameTasks(c, answered);
    assert TaskSane(s, task);
    if task.Condemned? {
      assert task.arrived in Records(task);
    }
    forall d | d in s.displays ensures s.displays[d].displayId == d {
      FiledUnder(s, d);
    }
    forall d | d in s.displays && !s.displays[d].pending && Targets(task, MonitorOf(s.displays[d])) && result != Busy
      ensures !Live(answered, d)
    {
    }
  }

  /** An answer leaves alone every monitor but those that its call targets. */
  lemma AnsweredAgree(c: System, t: nat, result: BackendError, kept: set<Monitor>)
    requires Waits(c, t) && Agree(c)
    ensures Agree(Answered(c, t, result, kept))
  {
    hide Agree, MonitorsAfter;
    if result == Busy {
      TimeOutAgree(c, t);
    } else {
      CallAgree(c, t, result, kept * c.monitors);
    }
  }

  lemma TimeOutAgree(c: System, t: nat)
    requires Agree(c) && Enabled(c, TimeOut(t)) && c.MutexFree()
    ensures Agree(Next(c, TimeOut(t)))
  {
    var c' := Next(c, TimeOut(t));
    SameTasks(c, c');
    forall d | d in c'.store.displays ensures AgreesOn(c', d) {
      assert AgreesOn(c, d);
    }
  }

  lemma SettledAgrees(c: System, t: nat, result: BackendError, kept: set<Monitor>)
    requires MachineInv(c) && Agree(c) && Waits(c, t)
    requires Settles(Answered(c, t, result, kept), t, ResumeSection(c.store, c.threads[t].task, result))
    ensures Agree(Continued(c, t, result, kept))
  {
    hide Agree, Inv, TaskSane, Settles, NewInFlight, ResumeSection;
    AnsweredThread(c, t, result, kept);
    AnsweredAgree(c, t, result, kept);
    ResumeNewInFlight(c.store, c.threads[t].task, result);
    ProceedAgree(Answered(c, t, result, kept), t, ResumeSection(c.store, c.threads[t].task, result));
  }

  // ---------------------------------------------------------------- spared monitors

  /** A departure over a live record that is not in hand changes no record, and creates nothing of its generation. */
  lemma LeftInPlace(s: State, task: Task, result: BackendError, d: nat)
    requires Inv(s) && TaskSane(s, task) && d in s.displays && !s.displays[d].pending
    requires || (task.PreDepart? && d == task.condemned.displayId)
             || (task.Sweeping? && d == task.todo[0].displayId && Stray(s, task.todo[0]))
             || task.Orphaned?
    ensures var section := ResumeSection(s, task, result);
            && d in section.store.displays && section.store.displays[d] == s.displays[d]
            && (section.next.Some? ==> !Creating(section.next.value, s.displays[d].generation))
            && (result != Done ==> section.store == s)
            && (result == Busy || result == Failed ==> section.next.None? || section.next.value.Sweeping?)
  {
    hide Inv, CreateSection;
    if task.PreDepart? {
      assert task.condemned in Records(task) && !IsCurrent(s, task.condemned);
      InvPlaced(s);
      CreateTouchesNothing(s, task.request, task.owner, task.now, d);
      CreateSectionFresh(s, task.request, task.owner, task.now);
    }
  }

  /** The live record that a task's departure is about to lose sight of, if there is one. */
  ghost predicate AtRisk(c: System, t: nat, d: nat)
    requires t in c.threads && (c.threads[t].task.Sweeping? ==> c.threads[t].task.todo != [])
  {
    && Live(c, d)
    && match c.threads[t].task
       case PreDepart(_, _, _, condemned) => d == condemned.displayId
       case Sweeping(todo) => d == todo[0].displayId && Stray(c.store, todo[0])
       case Orphaned(created) => d == created.displayId && Stands(c.store, created)
       case _ => false
  }

  /** A thread that was creating nothing makes no record live by going on. */
  lemma LiveBefore(c: System, c': System, t: nat, d: nat)
    requires t in c.threads && forall g :: !Creating(c.threads[t].task, g)
    requires c'.store == c.store
    requires forall u | u in c.threads && u != t :: u in c'.threads && c'.threads[u] == c.threads[u]
    requires Live(c', d)
    ensures Live(c, d)
  {
  }

  /** If the answer spares its monitor, everything that was shown is shown still. */
  lemma SparedAgrees(c: System, t: nat, result: BackendError, kept: set<Monitor>, d: nat)
    requires MachineInv(c) && Agree(c) && Waits(c, t) && AtRisk(c, t, d)
    requires Spares(result, kept, MonitorOf(c.store.displays[d]))
    ensures Agree(Continued(c, t, result, kept))
  {
    hide Inv, Lineage, ResumeSection, Stray, Stands, Live;
    AnsweredThread(c, t, result, kept);
    var s, task, answered := c.store, c.threads[t].task, Answered(c, t, result, kept);
    var c' := Continued(c, t, result, kept);
    AtRiskStored(c, t, d);
    assert TaskSane(s, task);
    LeftInPlace(s, task, result, d);
    assert c'.MutexFree();
    forall e | e in c'.store.displays && Live(c', e) ensures MonitorOf(c'.store.displays[e]) in c'.monitors {
      LiveBefore(c, c', t, e);
      FiledUnder(s, e);
      FiledUnder(s, d);
      assert AgreesOn(c, e);
    }
  }

  lemma AtRiskStored(c: System, t: nat, d: nat)
    requires t in c.threads && (c.threads[t].task.Sweeping? ==> c.threads[t].task.todo != []) && AtRisk(c, t, d)
    ensures d in c.store.displays && !c.store.displays[d].pending
    ensures c.threads[t].task.Sweeping? ==> Stray(c.store, c.threads[t].task.todo[0])
    ensures c.threads[t].task.Sweeping? ==> c.store.displays[d].generation == c.threads[t].task.todo[0].generation
    ensures c.threads[t].task.Orphaned? ==> c.store.displays[d].generation == c.threads[t].task.created.generation
    ensures forall g :: !Creating(c.threads[t].task, g)
  {
  }

  // ---------------------------------------------------------------- unsafe steps do not

  lemma UncoveredDisagrees(c: System, d: nat)
    requires Live(c, d) && MonitorOf(c.store.displays[d]) !in c.monitors && c.MutexFree()
    ensures !Agree(c)
  {
    assert !AgreesOn(c, d);
  }

  /** Another's step creates nothing of this generation: the record stays live. */
  lemma LiveStill(c: System, c': System, t: nat, d: nat)
    requires Live(c, d) && d in c'.store.displays && c'.store.displays[d] == c.store.displays[d]
    requires forall u | u in c'.threads && u != t :: u in c.threads && c'.threads[u] == c.threads[u]
    requires t in c'.threads ==> !Creating(c'.threads[t].task, c.store.displays[d].generation)
    ensures Live(c', d)
  {
  }

  /** If it does not, the record stays live, and has lost its monitor. */
  lemma LostDisagrees(c: System, t: nat, result: BackendError, kept: set<Monitor>, d: nat)
    requires MachineInv(c) && Waits(c, t) && AtRisk(c, t, d)
    requires !Spares(result, kept, MonitorOf(c.store.displays[d]))
    ensures !Agree(Continued(c, t, result, kept))
  {
    hide Inv, Lineage, ResumeSection, Stray, Stands, Live;
    AnsweredThread(c, t, result, kept);
    var s, task := c.store, c.threads[t].task;
    var c' := Continued(c, t, result, kept);
    AtRiskStored(c, t, d);
    AtRiskLive(c, t, d);
    assert TaskSane(s, task);
    LeftInPlace(s, task, result, d);
    LiveStill(c, c', t, d);
    FiledUnder(s, d);
    UncoveredDisagrees(c', d);
  }

  lemma AtRiskLive(c: System, t: nat, d: nat)
    requires t in c.threads && (c.threads[t].task.Sweeping? ==> c.threads[t].task.todo != []) && AtRisk(c, t, d)
    ensures Live(c, d)
  {
  }

  /** A create over a record that went astray: what it does next, and that it leaves the record alone. */
  lemma StrayCreate(s: State, task: Task, result: BackendError)
    requires task.Reserving? || task.Arriving? || task.RollingBack?
    requires Stray(s, task.created)
    ensures var x := task.created;
            ResumeSection(s, task, result) ==
              if task.Reserving? && result == Done then Continues(s, Unwinding(x))
              else if task.Arriving? && result == Done then Continues(s, Orphaned(x))
              else if task.Arriving? && x.retain then Continues(s, RollingBack(x))
              else Ends(s)
  {
  }

  /** Nobody else creates this generation, and nothing of it is shown before it has arrived. */
  lemma OnlyCreator(c: System, t: nat)
    requires MonitorInv(c) && Waits(c, t)
    requires c.threads[t].task.Reserving? || c.threads[t].task.Arriving? || c.threads[t].task.RollingBack?
    ensures var x := c.threads[t].task.created;
            && MonitorOf(x) !in c.monitors
            && forall u | u in c.threads && u != t :: !Creating(c.threads[u].task, x.generation)
  {
    hide Accounted;
    assert NotShownYet(c, t);
  }

  /** Left with a record it cannot remove, the create goes, and the record is live without a monitor. */
  lemma StrandedDisagrees(c: System, t: nat, result: BackendError, kept: set<Monitor>)
    requires MachineInv(c) && MonitorInv(c) && Waits(c, t) && !Safe(c, t, result, kept)
    requires c.threads[t].task.Reserving? || c.threads[t].task.Arriving? || c.threads[t].task.RollingBack?
    ensures !Agree(Continued(c, t, result, kept))
  {
    hide Inv, TaskSane, MonitorInv, ResumeSection;
    AnsweredThread(c, t, result, kept);
    var task := c.threads[t].task;
    var c', x := Continued(c, t, result, kept), task.created;
    OnlyCreator(c, t);
    StrayCreate(c.store, task, result);
    FiledUnder(c.store, x.displayId);
    assert forall u | u in c'.threads && u != t :: c'.threads[u] == c.threads[u];
    UncoveredDisagrees(c', x.displayId);
  }

  // ---------------------------------------------------------------- exactly

  lemma DepartureExact(c: System, t: nat, result: BackendError, kept: set<Monitor>)
    requires MachineInv(c) && Agree(c) && Waits(c, t)
    requires c.threads[t].task.PreDepart? || c.threads[t].task.Sweeping? || c.threads[t].task.Orphaned?
    ensures Agree(Continued(c, t, result, kept)) <==> Safe(c, t, result, kept)
  {
    hide MachineInv, Agree, Settles, Live, Stray, Stands, Continued, Answered, ResumeSection, Spares;
    var task := c.threads[t].task;
    var d := Subject(task).displayId;
    if AtRisk(c, t, d) {
      RiskIsSafe(c, t, d, result, kept);
      if Spares(result, kept, MonitorOf(c.store.displays[d])) {
        SparedAgrees(c, t, result, kept, d);
      } else {
        LostDisagrees(c, t, result, kept, d);
      }
    } else {
      if task.Sweeping? {
        SweepSettlesUnless(c, t, result, kept);
      } else {
        OthersSettle(c, t, result, kept);
      }
      SettledAgrees(c, t, result, kept);
    }
  }

  /** A departure at risk is safe exactly if it spares the live record's monitor. */
  lemma RiskIsSafe(c: System, t: nat, d: nat, result: BackendError, kept: set<Monitor>)
    requires MachineInv(c) && Waits(c, t) && AtRisk(c, t, d)
    ensures d in c.store.displays
    ensures Safe(c, t, result, kept) <==> Spares(result, kept, MonitorOf(c.store.displays[d]))
  {
    hide Inv, TaskSane;
    FiledUnder(c.store, d);
  }

  /**
   For every task, every answer and every state that agrees: store and backend
   agree after the answer and the section upon it exactly if the step was safe.
   */
  lemma StepExact(c: System, t: nat, result: BackendError, kept: set<Monitor>)
    requires MachineInv(c) && MonitorInv(c) && Agree(c) && Waits(c, t)
    ensures Agree(Continued(c, t, result, kept)) <==> Safe(c, t, result, kept)
  {
    hide MachineInv, MonitorInv, Agree, Settles, Continued, Answered, ResumeSection, Live, Stray, Stands;
    var task := c.threads[t].task;
    if task.PreDepart? || task.Sweeping? || task.Orphaned? {
      DepartureExact(c, t, result, kept);
    } else if task.Unwinding? || task.Condemned? {
      OthersSettle(c, t, result, kept);
      SettledAgrees(c, t, result, kept);
    } else if Safe(c, t, result, kept) {
      CreatorSettlesUnless(c, t, result, kept);
      SettledAgrees(c, t, result, kept);
    } else {
      StrandedDisagrees(c, t, result, kept);
    }
  }

  /**
   An unfenced departure, however it is answered: store and backend agree afterwards
   exactly if the display id belonged to no live record when the call was made, or
   the call spared that record's monitor.
   */
  lemma UnfencedDepartureExact(c: System, t: nat, result: BackendError, kept: set<Monitor>)
    requires MachineInv(c) && Agree(c) && Waits(c, t) && c.threads[t].task.PreDepart?
    ensures var d := c.threads[t].task.condemned.displayId;
            Agree(Continued(c, t, result, kept)) <==>
              (Live(c, d) ==> Spares(result, kept, MonitorOf(c.store.displays[d])))
  {
    hide MachineInv, Agree, Continued, Live;
    DepartureExact(c, t, result, kept);
  }

  // ---------------------------------------------------------------- reclaims

  /** The reclaim succeeds, and moves the lease of this display. */
  ghost predicate Moves(s: State, r: ReclaimRequest, now: int, d: nat)
    requires d in s.displays
  {
    CanReclaim(s, r, now) == NoError && s.displays[r.displayId].leaseId == s.displays[d].leaseId
  }

  /** A reclaim moves exactly the displays of one lease, and nothing about a record but its lease and times. */
  lemma ReclaimMoves(s: State, r: ReclaimRequest, now: int)
    ensures var s' := Reclaim(s, r, now);
            && s'.displays.Keys == s.displays.Keys
            && forall d | d in s.displays ::
                 && SameLine(s.displays[d], s'.displays[d]) && s'.displays[d].pending == s.displays[d].pending
                 && (s'.displays[d].leaseId != s.displays[d].leaseId <==> Moves(s, r, now, d))
                 && (Moves(s, r, now, d) ==> !s.displays[d].pending)
  {
  }

  lemma SoundPlaces(s: State)
    requires Inv(s)
    ensures RecordsFiled(s) && DistinctPlaces(s)
  {
  }

  /** A record observed and current goes astray exactly if the reclaim moves its lease. */
  lemma StrayIffMoved(s: State, r: ReclaimRequest, now: int, x: Record)
    requires IsCurrent(s, x)
    ensures Stray(Reclaim(s, r, now), x) <==> Moves(s, r, now, x.displayId)
  {
    hide Reclaim, CanReclaim;
    ReclaimMoves(s, r, now);
  }

  ghost function Reclaimed(c: System, r: ReclaimRequest, now: int): System {
    c.(store := Reclaim(c.store, r, now))
  }

  /** A reclaim itself breaks nothing: it is a step like any other, and moves no monitor. */
  lemma ReclaimedSound(c: System, r: ReclaimRequest, now: int)
    requires MachineInv(c) && c.MutexFree()
    ensures var c' := Reclaimed(c, r, now);
            && c' == Next(c, ReclaimDisplay(r, now)) && MachineInv(c') && (MonitorInv(c) ==> MonitorInv(c'))
            && (Agree(c) ==> Agree(c')) && (forall d :: Live(c', d) <==> Live(c, d))
            && (forall t | Waits(c, t) :: Waits(c', t))
  {
    hide Inv, TaskSane, MonitorInv, Agree, Reclaim, CanReclaim;
    NextInv(c, ReclaimDisplay(r, now));
    ReclaimMoves(c.store, r, now);
    if MonitorInv(c) {
      NextMonitorInv(c, ReclaimDisplay(r, now));
    }
    if Agree(c) {
      RestampAgree(c, Reclaim(c.store, r, now));
    }
  }

  /** A removal observes its record and waits; nothing else moves. */
  lemma RemoveStarts(c: System, t: nat, d: nat)
    requires MachineInv(c) && t !in c.threads && Live(c, d)
    ensures var x := c.store.displays[d]; var started := Next(c, StartRemove(t, RequestFor(x)));
            && started == c.(threads := c.threads[t := Thread(Sweeping([x]), Waiting)])
            && Live(started, d) && (c.MutexFree() ==> Waits(started, t)) && MachineInv(started)
            && (Agree(c) ==> Agree(started))
  {
    hide Inv, TaskSane, Agree;
    var x := c.store.displays[d];
    FiledUnder(c.store, d);
    InvPlaced(c.store);
    NextInv(c, StartRemove(t, RequestFor(x)));
    if Agree(c) {
      ProceedAgree(c, t, BeginRemove(c.store, RequestFor(x)));
    }
  }

  /**
   Remove a live display, and let its lease be reclaimed before the departure is
   made: however that is answered, store and backend agree afterwards exactly if
   the reclaim did not move the display's lease, or the answer spared its monitor.
   */
  lemma ReclaimOverlapExact(c: System, t: nat, d: nat, r: ReclaimRequest, now: int, result: BackendError,
                            kept: set<Monitor>)
    requires MachineInv(c) && Agree(c) && c.MutexFree() && t !in c.threads && Live(c, d)
    ensures var started := Next(c, StartRemove(t, RequestFor(c.store.displays[d])));
            && Waits(Reclaimed(started, r, now), t)
            && (Agree(Continued(Reclaimed(started, r, now), t, result, kept)) <==>
                  !Moves(c.store, r, now, d) || Spares(result, kept, MonitorOf(c.store.displays[d])))
  {
    hide MachineInv, Agree, Continued, Live, Stray, Moves, Waits, Spares, BeginRemove;
    LiveStored(c, d);
    RemoveStarts(c, t, d);
    var x := c.store.displays[d];
    var started := Next(c, StartRemove(t, RequestFor(x)));
    ReclaimedSound(started, r, now);
    WaitsThread(Reclaimed(started, r, now), t);
    StoredIsCurrent(c, d);
    StrayIffMoved(c.store, r, now, x);
    DepartureExact(Reclaimed(started, r, now), t, result, kept);
  }

  lemma LiveStored(c: System, d: nat)
    requires Live(c, d)
    ensures d in c.store.displays
  {
  }

  lemma WaitsThread(c: System, t: nat)
    requires Waits(c, t)
    ensures t in c.threads && c.MutexFree()
  {
  }

  lemma StoredIsCurrent(c: System, d: nat)
    requires MachineInv(c) && d in c.store.displays
    ensures c.store.displays[d].displayId == d && IsCurrent(c.store, c.store.displays[d])
  {
    hide Inv, TaskSane;
    FiledUnder(c.store, d);
  }

  /**
   A reclaim over a create that waits to reserve its identity, or to take it back:
   agreement is lost, whatever the answer, exactly if the create's lease moves.
   */
  lemma ReclaimOverReservingExact(c: System, t: nat, r: ReclaimRequest, now: int, result: BackendError,
                                  kept: set<Monitor>)
    requires MachineInv(c) && MonitorInv(c) && Agree(c) && Waits(c, t)
    requires (c.threads[t].task.Reserving? || c.threads[t].task.RollingBack?) &&
             IsCurrent(c.store, c.threads[t].task.created)
    ensures Waits(Reclaimed(c, r, now), t)
    ensures Agree(Continued(Reclaimed(c, r, now), t, result, kept)) <==>
              !Moves(c.store, r, now, c.threads[t].task.created.displayId)
  {
    hide MachineInv, MonitorInv, Agree, Continued, Live, Stray, Moves;
    ReclaimedSound(c, r, now);
    StrayIffMoved(c.store, r, now, c.threads[t].task.created);
    StepExact(Reclaimed(c, r, now), t, result, kept);
  }

  /** The rest of a create that waits to arrive: its arrival, and whatever one call that asks for. */
  ghost function Finished(c: System, t: nat, first: BackendError, kept: set<Monitor>, second: BackendError,
                          kept': set<Monitor>): System
    requires MachineInv(c) && Waits(c, t) && c.threads[t].task.Arriving?
  {
    var arrived := Continued(c, t, first, kept);
    AfterArrival(c, t, first, kept);
    if t in arrived.threads then Continued(arrived, t, second, kept') else arrived
  }

  lemma AfterArrival(c: System, t: nat, result: BackendError, kept: set<Monitor>)
    requires MachineInv(c) && Waits(c, t) && c.threads[t].task.Arriving?
    ensures var x, arrived := c.threads[t].task.created, Continued(c, t, result, kept);
            && arrived.MutexFree()
            && (t in arrived.threads ==>
                  && Waits(arrived, t)
                  && arrived.threads[t].task ==
                       if result != Done then RollingBack(x)
                       else if !IsCurrent(c.store, x) then Orphaned(x)
                       else Condemned(c.store.displays[x.displayId]))
            && (t !in arrived.threads <==>
                  if result != Done then !x.retain
                  else IsCurrent(c.store, x) && !c.store.displays[x.displayId].pending)
            && (t in arrived.threads ==> arrived.store == c.store)
  {
    hide Inv, TaskSane, RemoveIfCurrent, IsCurrent, MonitorsAfter;
    AnsweredThread(c, t, result, kept);
  }

  /**
   A reclaim over a create that waits to arrive, and the create then run to its end,
   however its calls are answered: store and backend agree exactly if the reclaim did
   not move its lease, or the arrival was done and the clean-up departure that follows
   spared the monitor.
   */
  lemma ReclaimOverArrivalExact(c: System, t: nat, r: ReclaimRequest, now: int, first: BackendError, kept: set<Monitor>,
                                second: BackendError, kept': set<Monitor>)
    requires MachineInv(c) && MonitorInv(c) && Agree(c) && Waits(c, t)
    requires c.threads[t].task.Arriving? && IsCurrent(c.store, c.threads[t].task.created)
    ensures var x, reclaimed := c.threads[t].task.created, Reclaimed(c, r, now);
            && MachineInv(reclaimed) && Waits(reclaimed, t)
            && (Agree(Finished(reclaimed, t, first, kept, second, kept')) <==>
                  !Moves(c.store, r, now, x.displayId) || (first == Done && Spares(second, kept', MonitorOf(x))))
  {
    hide MachineInv, MonitorInv, Agree, Continued, Live, Stray, Moves, Waits, IsCurrent, Spares, Reclaimed;
    WaitsThread(c, t);
    ReclaimedSound(c, r, now);
    var reclaimed, x := Reclaimed(c, r, now), c.threads[t].task.created;
    ReclaimedThreads(c, r, now);
    StrayIffMoved(c.store, r, now, x);
    ReclaimedCurrent(c, r, now, x);
    StepExact(reclaimed, t, first, kept);
    AfterArrival(reclaimed, t, first, kept);
    ContinuedInv(reclaimed, t, first, kept);
    var arrived := Continued(reclaimed, t, first, kept);
    if Stray(reclaimed.store, x) && (first == Done || x.retain) {
      StrayNotCurrent(reclaimed.store, x);
      StepExact(arrived, t, second, kept');
      if first == Done {
        StrayStands(reclaimed.store, x);
        OrphanIsLive(c, t, r, now, kept);
      }
    } else if !Stray(reclaimed.store, x) && t in arrived.threads {
      StepExact(arrived, t, second, kept');
    }
  }

  lemma ReclaimedThreads(c: System, r: ReclaimRequest, now: int)
    ensures Reclaimed(c, r, now).threads == c.threads && Reclaimed(c, r, now).store == Reclaim(c.store, r, now)
  {
  }

  lemma ReclaimedCurrent(c: System, r: ReclaimRequest, now: int, x: Record)
    requires IsCurrent(c.store, x)
    ensures IsCurrent(Reclaim(c.store, r, now), x) || Stray(Reclaim(c.store, r, now), x)
  {
  }

  lemma StrayNotCurrent(s: State, x: Record)
    requires Stray(s, x)
    ensures !IsCurrent(s, x)
  {
  }

  lemma StrayStands(s: State, x: Record)
    requires Stray(s, x)
    ensures Stands(s, x)
  {
  }

  /** Once the arrival over a record gone astray is done, the record is live. */
  lemma OrphanIsLive(c: System, t: nat, r: ReclaimRequest, now: int, kept: set<Monitor>)
    requires MachineInv(c) && MonitorInv(c) && Waits(c, t) && c.threads[t].task.Arriving?
    requires MachineInv(Reclaimed(c, r, now)) && Waits(Reclaimed(c, r, now), t)
    requires Stray(Reclaim(c.store, r, now), c.threads[t].task.created)
    ensures Live(Continued(Reclaimed(c, r, now), t, Done, kept), c.threads[t].task.created.displayId)
  {
    hide Inv, TaskSane, MonitorInv, ResumeSection, MonitorsAfter;
    var reclaimed, x := Reclaimed(c, r, now), c.threads[t].task.created;
    AnsweredThread(reclaimed, t, Done, kept);
    OnlyCreator(c, t);
    StrayCreate(reclaimed.store, c.threads[t].task, Done);
  }

  // ---------------------------------------------------------------- runs that disagree

  /** One part of the guard, lifted: on unfenced departures, on reclaims over removals, or on reclaims over creates. */
  datatype Waiver = Departures | OverRemovals | OverCreates

  /** A task over whose record this waiver allows a reclaim. */
  ghost predicate Exposed(task: Task, w: Waiver) {
    match w
    case Departures => false
    case OverRemovals => task.Sweeping?
    case OverCreates => task.Reserving? || task.Arriving? || task.RollingBack?
  }

  /** A guarded step, or one that the waiver lifts the guard from; with departures waived there is no reclaim at all. */
  ghost predicate Allowed(c: System, a: Action, w: Waiver)
    requires Enabled(c, a)
  {
    if a.ReclaimDisplay? then
      && !w.Departures?
      && (CanReclaim(c.store, a.reclaim, a.reclaimNow) == NoError ==>
            forall t, x | t in c.threads && !Exposed(c.threads[t].task, w) && x in Records(c.threads[t].task)
                          && IsCurrent(c.store, x) ::
              x.leaseId != c.store.displays[a.reclaim.displayId].leaseId)
    else Guarded(c, a) || (w.Departures? && a.Call?)
  }

  ghost predicate IsWaivedRun(c: System, actions: seq<Action>, w: Waiver)
    decreases |actions|
  {
    actions != [] ==>
      && Enabled(c, actions[0]) && Allowed(c, actions[0], w)
      && IsWaivedRun(Next(c, actions[0]), actions[1..], w)
  }

  /** Such a run leads from `c` to `c'`. */
  ghost predicate Reaches(c: System, c': System, w: Waiver) {
    exists actions :: IsRun(c, actions) && IsWaivedRun(c, actions, w) && After(c, actions) == c'
  }

  lemma {:induction false} RunThen(c: System, actions: seq<Action>, a: Action, w: Waiver)
    requires IsRun(c, actions) && IsWaivedRun(c, actions, w) && IsWaivedRun(After(c, actions), [a], w)
    ensures IsRun(c, actions + [a]) && IsWaivedRun(c, actions + [a], w)
    ensures After(c, actions + [a]) == Next(After(c, actions), a)
    decreases |actions|
  {
    hide Next, Enabled, Allowed;
    if actions == [] {
      assert actions + [a] == [a];
      assert IsRun(Next(c, a), [a][1..]) && After(Next(c, a), [a][1..]) == Next(c, a);
    } else {
      assert (actions + [a])[1..] == actions[1..] + [a];
      RunThen(Next(c, actions[0]), actions[1..], a, w);
    }
  }

  lemma ReachesItself(c: System, w: Waiver)
    ensures Reaches(c, c, w)
  {
    assert IsRun(c, []) && IsWaivedRun(c, [], w) && After(c, []) == c;
  }

  lemma ReachesNext(c: System, c': System, a: Action, w: Waiver)
    requires Reaches(c, c', w) && Enabled(c', a) && Allowed(c', a, w)
    ensures Reaches(c, Next(c', a), w)
  {
    hide Next, Enabled, Allowed;
    var actions :| IsRun(c, actions) && IsWaivedRun(c, actions, w) && After(c, actions) == c';
    assert [a][1..] == [] && IsWaivedRun(Next(c', a), [], w);
    RunThen(c, actions, a, w);
  }

  lemma ReachesInv(c: System, c': System, w: Waiver)
    requires Initial(c) && Reaches(c, c', w)
    ensures MachineInv(c') && MonitorInv(c')
  {
    hide MachineInv, Next, Enabled, Allowed;
    InitialMachineInv(c);
    assert MonitorInv(c);
    hide MonitorInv;
    var actions :| IsRun(c, actions) && IsWaivedRun(c, actions, w) && After(c, actions) == c';
    RunMachineInv(c, actions);
    RunMonitorInv(c, actions);
  }

  /** A store without displays and leases, and with a connector to give. */
  ghost predicate Empty(s: State) {
    Inv(s) && s.displays == map[] && s.leases == map[] && s.quarantined == {} && s.maxPermanent < s.Limit()
  }

  const CREATE := CreateRequest(true, MIN_LEASE_ID, 1, true, 0)
  const OWNER: Capability := 7

  /** What a system with one display shows: the record of display 1, just created, as the next generation. */
  ghost predicate HoldsOne(s: State, before: State) {
    && s.displays.Keys == {1} && s.leases.Keys == {MIN_LEASE_ID} && s.quarantined == {} && Inv(s)
    && s.maxPermanent == before.maxPermanent && s.maxTemporary == before.maxTemporary
    && var x := s.displays[1];
    && x.displayId == 1 && x.leaseId == MIN_LEASE_ID && !x.retain && !x.pending && x.generation == before.nextGeneration
    && s.leases[MIN_LEASE_ID].capability == Some(OWNER) && s.leases[MIN_LEASE_ID].expiresAt > 0
  }

  /** Into an empty store with a connector to give, an ephemeral create is not refused. */
  lemma FirstSucceeds(s: State)
    requires Empty(s)
    ensures Create(s, CREATE, Some(OWNER), 0).error == NoError
  {
    hide Inv, SelectConnector, SkippedCandidates, NewLease, Insert;
    assert s.IsTemporary(s.maxPermanent) && s.IsFree(s.maxPermanent);
    InvPlaced(s);
    SelectionSucceedsIff(s, 1, false);
  }

  lemma FirstLease(s: State)
    requires Empty(s) && Create(s, CREATE, Some(OWNER), 0).error == NoError
    ensures var s' := Create(s, CREATE, Some(OWNER), 0).state;
            && s'.leases.Keys == {MIN_LEASE_ID} && s'.leases[MIN_LEASE_ID].capability == Some(OWNER)
            && s'.leases[MIN_LEASE_ID].expiresAt > 0
  {
    hide Inv, SelectConnector, SkippedCandidates;
  }

  /** A create into an empty store succeeds, and opens its lease. */
  lemma FirstCreate(s: State)
    requires Empty(s)
    ensures Create(s, CREATE, Some(OWNER), 0).error == NoError && HoldsOne(Create(s, CREATE, Some(OWNER), 0).state, s)
  {
    hide Create, Inv;
    FirstSucceeds(s);
    FirstLease(s);
    InvPlaced(s);
    CreateInv(s, CREATE, Some(OWNER), 0);
    CreateAdds(s, CREATE, Some(OWNER), 0);
  }

  lemma FreshIsEmpty(c: System)
    requires Initial(c) && c.store.maxPermanent < c.store.Limit()
    ensures Empty(c.store)
  {
    InitialInv(c.store.maxPermanent, c.store.maxTemporary, c.store.reservations);
  }

  lemma ArrivedEnds(s: State, x: Record)
    requires x.displayId in s.displays && s.displays[x.displayId] == x && !x.pending
    ensures ResumeSection(s, Arriving(x), Done) == Ends(s)
  {
  }

  /** A created display's arrival, done: the operation ends, and its monitor is shown. */
  lemma Arrives(c0: System, c: System, t: nat, w: Waiver)
    requires Reaches(c0, c, w) && c.MutexFree() && t in c.threads && 1 in c.store.displays
    requires c.store.displays[1].displayId == 1 && !c.store.displays[1].pending
    requires c.threads[t] == Thread(Arriving(c.store.displays[1]), Waiting)
    ensures Reaches(c0, c.(monitors := c.monitors + {MonitorOf(c.store.displays[1])}, threads := c.threads - {t}), w)
  {
    hide Reaches, ResumeSection;
    var x := c.store.displays[1];
    ReachesNext(c0, c, Call(t, Done, {}), w);
    var called := Next(c, Call(t, Done, {}));
    assert called == c.(monitors := c.monitors + {MonitorOf(x)},
                        threads := c.threads[t := Thread(Arriving(x), Returned(Done))]);
    ReachesNext(c0, called, Resume(t), w);
    ArrivedEnds(c.store, x);
    assert Next(called, Resume(t)) == c.(monitors := c.monitors + {MonitorOf(x)}, threads := c.threads - {t});
  }

  /** A fresh driver comes to have one display on its way. */
  lemma CreatesOne(c0: System, w: Waiver)
    requires Initial(c0) && c0.store.maxPermanent < c0.store.Limit()
    ensures exists c :: Reaches(c0, c, w) && HoldsOne(c.store, c0.store) && c.monitors == {}
                        && c.threads == map[0 := Thread(Arriving(c.store.displays[1]), Waiting)]
  {
    hide Create, Inv, Reaches;
    FreshIsEmpty(c0);
    FirstCreate(c0.store);
    ReachesItself(c0, w);
    ReachesNext(c0, c0, StartCreate(0, CREATE, Some(OWNER), 0), w);
    var c := Next(c0, StartCreate(0, CREATE, Some(OWNER), 0));
    assert c.threads == map[0 := Thread(Arriving(c.store.displays[1]), Waiting)];
  }

  /** A fresh driver comes to show one display. */
  lemma ShowsOne(c0: System, w: Waiver)
    requires Initial(c0) && c0.store.maxPermanent < c0.store.Limit()
    ensures exists c :: Reaches(c0, c, w) && HoldsOne(c.store, c0.store) && c.threads == map[]
                        && c.monitors == {MonitorOf(c.store.displays[1])}
  {
    hide Inv, Reaches;
    CreatesOne(c0, w);
    var c1 :| Reaches(c0, c1, w) && HoldsOne(c1.store, c0.store) && c1.monitors == {}
              && c1.threads == map[0 := Thread(Arriving(c1.store.displays[1]), Waiting)];
    var x := c1.store.displays[1];
    Arrives(c0, c1, 0, w);
    var c := c1.(monitors := c1.monitors + {MonitorOf(x)}, threads := c1.threads - {0});
    assert c.threads == map[] && c.monitors == {MonitorOf(x)};
  }

  lemma ShownAgrees(c: System, d: nat)
    requires c.store.displays.Keys == {d} && !c.store.displays[d].pending &&
             MonitorOf(c.store.displays[d]) in c.monitors
    requires c.MutexFree() && forall t | t in c.threads :: !Creating(c.threads[t].task, c.store.displays[d].generation)
    ensures Agree(c) && Live(c, d)
  {
  }

  /** A call that departs with a fence, answered, and the section upon it, are guarded steps. */
  lemma ReachesContinued(c0: System, c: System, t: nat, result: BackendError, kept: set<Monitor>, w: Waiver)
    requires Reaches(c0, c, w) && Waits(c, t) && (c.threads[t].task.PreDepart? ==> w.Departures?)
    ensures Reaches(c0, Continued(c, t, result, kept), w)
  {
    hide Reaches, ResumeSection, MonitorsAfter;
    AnsweredThread(c, t, result, kept);
    ReachesNext(c0, c, Answer(c, t, result, kept), w);
    ReachesNext(c0, Answered(c, t, result, kept), Resume(t), w);
  }

  /** A reclaim with nobody else in flight but one task that the waiver exposes. */
  lemma ReachesReclaimed(c0: System, c: System, r: ReclaimRequest, now: int, w: Waiver)
    requires Reaches(c0, c, w) && c.MutexFree() && !w.Departures?
    requires forall t | t in c.threads :: Exposed(c.threads[t].task, w)
    ensures Reaches(c0, Reclaimed(c, r, now), w)
  {
    hide Reaches, Reclaim, CanReclaim;
    ReachesNext(c0, c, ReclaimDisplay(r, now), w);
  }

  const RECLAIM := ReclaimRequest(true, MIN_LEASE_ID + 1, 1, OWNER, 0)

  /**
   The guard on reclaims over removals is needed: from every fresh driver with room,
   a run whose every other step is guarded, with a reclaim in the midst of a removal,
   leads to a live record without a monitor.
   */
  lemma ReclaimGuardNeeded(c0: System)
    requires Initial(c0) && c0.store.maxPermanent < c0.store.Limit()
    ensures exists c :: Reaches(c0, c, OverRemovals) && !Agree(c)
  {
    hide Inv, Agree, MachineInv, Reaches, Moves, Live, BeginRemove, Continued, Waits, Reclaimed;
    ShowsOne(c0, OverRemovals);
    var c :| Reaches(c0, c, OverRemovals) && HoldsOne(c.store, c0.store) && c.threads == map[]
             && c.monitors == {MonitorOf(c.store.displays[1])};
    ReachesInv(c0, c, OverRemovals);
    ShownAgrees(c, 1);
    CanBeReclaimed(c.store, c0.store);
    ReclaimOverlapExact(c, 0, 1, RECLAIM, 0, Done, {});
    RemoveStarts(c, 0, 1);
    var start := StartRemove(0, RequestFor(c.store.displays[1]));
    ReachesNext(c0, c, start, OverRemovals);
    var started := Next(c, start);
    assert started.threads == map[0 := Thread(Sweeping([c.store.displays[1]]), Waiting)];
    WaitsThread(started, 0);
    ReachesReclaimed(c0, started, RECLAIM, 0, OverRemovals);
    ReclaimedThreads(started, RECLAIM, 0);
    ReachesContinued(c0, Reclaimed(started, RECLAIM, 0), 0, Done, {}, OverRemovals);
  }

  /**
   The guard on reclaims over creates is needed: from every fresh driver with room, a
   run whose every other step is guarded, with a reclaim while the display's arrival
   is under way, ends the create with a live record without a monitor.
   */
  lemma CreateGuardNeeded(c0: System)
    requires Initial(c0) && c0.store.maxPermanent < c0.store.Limit()
    ensures exists c :: Reaches(c0, c, OverCreates) && !Agree(c)
  {
    hide Inv, Agree, MachineInv, MonitorInv, Reaches, Moves, Live, Continued, Reclaimed, MonitorsAfter;
    CreatesOne(c0, OverCreates);
    var c :| Reaches(c0, c, OverCreates) && HoldsOne(c.store, c0.store) && c.monitors == {}
             && c.threads == map[0 := Thread(Arriving(c.store.displays[1]), Waiting)];
    ReachesInv(c0, c, OverCreates);
    ArrivingAgrees(c);
    CanBeReclaimed(c.store, c0.store);
    ReclaimOverArrivalExact(c, 0, RECLAIM, 0, Done, {}, Done, {});
    ReachesReclaimed(c0, c, RECLAIM, 0, OverCreates);
    var reclaimed := Reclaimed(c, RECLAIM, 0);
    ReclaimedThreads(c, RECLAIM, 0);
    ReachesContinued(c0, reclaimed, 0, Done, {}, OverCreates);
    AfterArrival(reclaimed, 0, Done, {});
    var arrived := Continued(reclaimed, 0, Done, {});
    if 0 in arrived.threads {
      ReachesContinued(c0, arrived, 0, Done, {}, OverCreates);
    }
  }

  /** With its one record still being created, a system agrees. */
  lemma ArrivingAgrees(c: System)
    requires c.store.displays.Keys == {1}
    requires c.threads == map[0 := Thread(Arriving(c.store.displays[1]), Waiting)]
    ensures Agree(c) && Waits(c, 0)
  {
    assert Creating(c.threads[0].task, c.store.displays[1].generation);
  }

  lemma CanBeReclaimed(s: State, before: State)
    requires HoldsOne(s, before)
    ensures CanReclaim(s, RECLAIM, 0) == NoError && Moves(s, RECLAIM, 0, 1)
    ensures s.displays[1].displayId == 1 && IsCurrent(s, s.displays[1])
  {
    assert !s.LeaseHasPending(MIN_LEASE_ID);
  }

  /** The one display, condemned. */
  function Condemn(s: State): State
    requires 1 in s.displays
  {
    s.(displays := s.displays[1 := s.displays[1].(pending := true)])
  }

  lemma FailedRemovalCondemns(s: State, before: State)
    requires HoldsOne(s, before)
    ensures var x := s.displays[1]; BeginRemove(s, RequestFor(x)) == Continues(s, Sweeping([x]))
    ensures var x := s.displays[1]; SweepSection(s, [x], Failed) == Ends(Condemn(s))
  {
  }

  lemma ClearsOne(x: Record)
    ensures MonitorsAfter({MonitorOf(x)}, Sweeping([x]), Failed, {} * {MonitorOf(x)}) == {}
  {
  }

  /** From there a removal whose departure fails, and shows the display no more, leaves its record condemned. */
  lemma Condemns(c0: System, c: System, w: Waiver)
    requires Reaches(c0, c, w) && HoldsOne(c.store, c0.store) && c.threads == map[]
    requires c.monitors == {MonitorOf(c.store.displays[1])}
    ensures Reaches(c0, c.(store := Condemn(c.store), monitors := {}), w)
  {
    hide HoldsOne, BeginRemove, SweepSection, Condemn, Reaches, MonitorsAfter, Continued;
    FailedRemovalCondemns(c.store, c0.store);
    OneStored(c.store, c0.store);
    var x := c.store.displays[1];
    var start := StartRemove(0, RequestFor(x));
    ReachesNext(c0, c, start, w);
    var started := Next(c, start);
    assert started == c.(threads := map[0 := Thread(Sweeping([x]), Waiting)]);
    ReachesContinued(c0, started, 0, Failed, {}, w);
    AnsweredThread(started, 0, Failed, {});
    ClearsOne(x);
    assert Continued(started, 0, Failed, {}) == c.(store := Condemn(c.store), monitors := {});
  }

  lemma OneStored(s: State, before: State)
    requires HoldsOne(s, before)
    ensures 1 in s.displays
  {
  }

  /** Two creates of a condemned display both set out to depart it first. */
  lemma BothPredepart(c0: System, c: System, w: Waiver)
    requires Reaches(c0, c, w) && c.threads == map[] && 1 in c.store.displays && c.store.displays[1].pending
    ensures var waiting := Thread(PreDepart(CREATE, Some(OWNER), 0, c.store.displays[1]), Waiting);
            Reaches(c0, c.(threads := map[0 := waiting, 1 := waiting]), w)
  {
    hide CreateSection;
    var waiting := Thread(PreDepart(CREATE, Some(OWNER), 0, c.store.displays[1]), Waiting);
    ReachesNext(c0, c, StartCreate(0, CREATE, Some(OWNER), 0), w);
    var one := Next(c, StartCreate(0, CREATE, Some(OWNER), 0));
    assert one == c.(threads := map[0 := waiting]);
    ReachesNext(c0, one, StartCreate(1, CREATE, Some(OWNER), 0), w);
    assert Next(one, StartCreate(1, CREATE, Some(OWNER), 0)) == c.(threads := map[0 := waiting, 1 := waiting]);
  }

  /** The condemned display is the only one: with it and its lease gone, the store is empty. */
  lemma EmptiedByRemoval(s: State, before: State)
    requires HoldsOne(s, before) && before.maxPermanent < before.Limit()
    ensures var removed := RemoveIfCurrent(Condemn(s), Condemn(s).displays[1], RetainReservation);
            Empty(removed) && removed.nextGeneration == s.nextGeneration
  {
    hide Inv;
    var x := Condemn(s).displays[1];
    var condemned := Condemn(s);
    MarkInv(s, RequestFor(s.displays[1]));
    MarkCondemns(s, before);
    RemoveInv(condemned, RequestFor(x), RetainReservation);
    OnlyOneRemoved(condemned, x);
  }

  lemma MarkCondemns(s: State, before: State)
    requires HoldsOne(s, before)
    ensures MarkPending(s, RequestFor(s.displays[1])) == Condemn(s)
  {
  }

  lemma OnlyOneRemoved(s: State, x: Record)
    requires s.displays.Keys == {1} && s.displays[1] == x && x.displayId == 1 && x.leaseId == MIN_LEASE_ID
    requires s.leases.Keys == {MIN_LEASE_ID}
    ensures RemoveIfCurrent(s, x, RetainReservation) == Remove(s, RequestFor(x), RetainReservation)
    ensures Remove(s, RequestFor(x), RetainReservation) == s.(displays := map[], leases := map[])
  {
    assert s.displays - {1} == map[] && s.leases - {MIN_LEASE_ID} == map[];
    assert !s.(displays := map[]).LeaseHasDisplays(MIN_LEASE_ID);
  }

  lemma CondemnedStays(s: State)
    requires 1 in s.displays
    ensures 1 in Condemn(s).displays && Condemn(s).displays[1] == s.displays[1].(pending := true)
  {
  }

  /** The other create overtakes: it departs the condemned display, creates it anew, and has it arrive. */
  lemma Overtakes(c0: System, c: System, s: State)
    requires Reaches(c0, c, Departures) && c0.store.maxPermanent < c0.store.Limit() && c.monitors == {}
    requires HoldsOne(s, c0.store) && c.store == Condemn(s)
    requires var waiting := Thread(PreDepart(CREATE, Some(OWNER), 0, c.store.displays[1]), Waiting);
             c.threads == map[0 := waiting, 1 := waiting]
    ensures exists c' :: Reaches(c0, c', Departures) && c'.threads == map[0 := c.threads[0]]
              && c'.store.displays.Keys == {1} && !c'.store.displays[1].pending
              && c'.store.displays[1].generation >= s.nextGeneration
              && c'.store.displays[1].displayId == 1 && MonitorOf(c'.store.displays[1]) in c'.monitors
  {
    hide Create, Inv, RemoveIfCurrent, Reaches, Condemn, MonitorsAfter;
    CondemnedStays(s);
    var x := c.store.displays[1];
    EmptiedByRemoval(s, c0.store);
    ReachesNext(c0, c, Call(1, Done, {}), Departures);
    var departed := Next(c, Call(1, Done, {}));
    assert departed.threads == map[0 := c.threads[0], 1 := c.threads[1].(phase := Returned(Done))];
    ReachesNext(c0, departed, Resume(1), Departures);
    var empty := RemoveIfCurrent(c.store, x, RetainReservation);
    FirstCreate(empty);
    var created := Next(departed, Resume(1));
    assert created.store == Create(empty, CREATE, Some(OWNER), 0).state;
    var y := created.store.displays[1];
    assert created.threads == map[0 := c.threads[0], 1 := Thread(Arriving(y), Waiting)];
    Arrives(c0, created, 1, Departures);
    var arrived := created.(monitors := created.monitors + {MonitorOf(y)}, threads := created.threads - {1});
    assert arrived.threads == map[0 := c.threads[0]];
  }

  /** The create that was overtaken departs the other's monitor, and finds nothing of its own to remove. */
  lemma DepartsTheOther(c0: System, c: System, x: Record)
    requires Reaches(c0, c, Departures) && MachineInv(c)
    requires c.threads == map[0 := Thread(PreDepart(CREATE, Some(OWNER), 0, x), Waiting)] && x.displayId == 1
    requires c.store.displays.Keys == {1} && !c.store.displays[1].pending &&
             c.store.displays[1].generation != x.generation
    requires MonitorOf(c.store.displays[1]) in c.monitors
    ensures exists c' :: Reaches(c0, c', Departures) && !Agree(c')
  {
    hide Agree, MachineInv, Reaches, Live, Continued;
    ShownAgrees(c, 1);
    UnfencedDepartureExact(c, 0, Done, {});
    ReachesContinued(c0, c, 0, Done, {}, Departures);
  }

  /**
   The guard on unfenced departures is needed: from every fresh driver with room,
   a run without any reclaim, in which two creates set out over one condemned
   record and the second to call departs what the first has created, leads to a
   live record without a monitor.
   */
  lemma DepartureGuardNeeded(c0: System)
    requires Initial(c0) && c0.store.maxPermanent < c0.store.Limit()
    ensures exists c :: Reaches(c0, c, Departures) && !Agree(c)
  {
    hide Agree, MachineInv, Inv, Reaches, Condemn;
    ShowsOne(c0, Departures);
    var c1 :| Reaches(c0, c1, Departures) && HoldsOne(c1.store, c0.store) && c1.threads == map[]
              && c1.monitors == {MonitorOf(c1.store.displays[1])};
    Condemns(c0, c1, Departures);
    var s := c1.store;
    CondemnedStays(s);
    var x := Condemn(s).displays[1];
    var c2 := c1.(store := Condemn(s), monitors := {});
    BothPredepart(c0, c2, Departures);
    var waiting := Thread(PreDepart(CREATE, Some(OWNER), 0, x), Waiting);
    var c3 := c2.(threads := map[0 := waiting, 1 := waiting]);
    Overtakes(c0, c3, s);
    var c4 :| Reaches(c0, c4, Departures) && c4.threads == map[0 := waiting]
              && c4.store.displays.Keys == {1} && !c4.store.displays[1].pending
              && c4.store.displays[1].generation >= s.nextGeneration
              && c4.store.displays[1].displayId == 1 && MonitorOf(c4.store.displays[1]) in c4.monitors;
    ReachesInv(c0, c4, Departures);
    IssuedGenerations(s);
    DepartsTheOther(c0, c4, x);
  }
}

/** Over every interleaving, every monitor the backend shows is accounted for. */
module ControllerMonitors {
  import opened Wrappers
  import opened LeaseStoreSpec
  import opened LeaseStoreInvariant
  import opened LeaseStoreLineage
  import opened DriverController
  import opened ControllerSafety

  /** Tasks of an operation that has created a record and not yet finished with it. */
  ghost predicate IsCreator(task: Task) {
    task.Reserving? || task.Unwinding? || task.Arriving? || task.RollingBack? || task.Orphaned?
  }

  ghost predicate HasArrived(th: Thread) {
    th.task.Orphaned? || (th.task.Arriving? && th.phase == Returned(Done))
  }

  /** The operation is responsible for this monitor. */
  ghost predicate Owns(th: Thread, m: Monitor) {
    HasArrived(th) && m == MonitorOf(th.task.created)
  }

  ghost predicate Recorded(s: State, m: Monitor) {
    m.0 in s.displays && s.displays[m.0].generation == m.1
  }

  ghost predicate Owned(threads: map<nat, Thread>, m: Monitor) {
    exists t | t in threads :: Owns(threads[t], m)
  }

  /** A stored record, an operation in flight, a quarantined eviction or a refused clean-up answers for it. */
  ghost predicate Accounted(c: System, m: Monitor) {
    Recorded(c.store, m) || Owned(c.threads, m) || m in c.evicted || m in c.refused
  }

  ghost predicate CreatorsDistinct(threads: map<nat, Thread>) {
    forall t, u | t in threads && u in threads && t != u && IsCreator(threads[t].task) && IsCreator(threads[u].task) ::
      threads[t].task.created.generation != threads[u].task.created.generation
  }

  /** Nothing is shown for a record whose arrival has not succeeded. */
  ghost predicate NotShownYet(c: System, t: nat)
    requires t in c.threads
  {
    IsCreator(c.threads[t].task) && !HasArrived(c.threads[t]) ==> MonitorOf(c.threads[t].task.created) !in c.monitors
  }

  /** A departure that succeeded has cleared what it targets, until its caller resumes. */
  ghost predicate Cleared(c: System, t: nat)
    requires t in c.threads
  {
    c.threads[t].phase == Returned(Done) ==> forall m | m in c.monitors :: !Targets(c.threads[t].task, m)
  }

  ghost predicate MonitorInv(c: System) {
    && (forall m | m in c.monitors :: m.1 < c.store.nextGeneration)
    && CreatorsDistinct(c.threads)
    && (forall t | t in c.threads :: NotShownYet(c, t) && Cleared(c, t))
    && (forall m | m in c.monitors :: Accounted(c, m))
  }

  // ---------------------------------------------------------------- a store section

  /** What a section of `t` must do for the monitors to stay accounted for. */
  ghost predicate Answers(c: System, t: nat, section: Section) {
    && c.store.nextGeneration <= section.store.nextGeneration
    && (forall m | m in c.monitors && Recorded(c.store, m) :: Recorded(section.store, m) || m in section.evicted)
    && (t in c.threads ==> forall m | m in c.monitors && Owns(c.threads[t], m) ::
          || Recorded(section.store, m) || m in section.refused
          || (section.next.Some? && section.next.value.Orphaned? && MonitorOf(section.next.value.created) == m))
    && (section.next.Some? && IsCreator(section.next.value) ==>
          var created := section.next.value.created;
          && (created.generation >= c.store.nextGeneration
              || (t in c.threads && IsCreator(c.threads[t].task) && created == c.threads[t].task.created))
          && (section.next.value.Orphaned? || MonitorOf(created) !in c.monitors))
  }

  lemma ProceedAccounted(c: System, t: nat, section: Section, m: Monitor)
    requires MonitorInv(c) && Answers(c, t, section) && m in c.monitors
    ensures Accounted(Proceed(c, t, section), m)
  {
    var c' := Proceed(c, t, section);
    assert Accounted(c, m);
    if Owned(c.threads, m) {
      var u :| u in c.threads && Owns(c.threads[u], m);
      if u != t {
        assert u in c'.threads && Owns(c'.threads[u], m);
      } else if section.next.Some? && section.next.value.Orphaned? && MonitorOf(section.next.value.created) == m {
        assert Owns(c'.threads[t], m);
      }
    }
  }

  lemma ProceedMonitorInv(c: System, t: nat, section: Section)
    requires MachineInv(c) && MonitorInv(c) && Answers(c, t, section)
    ensures MonitorInv(Proceed(c, t, section))
  {
    hide Inv, Accounted, Owned;
    var c' := Proceed(c, t, section);
    forall m | m in c'.monitors ensures Accounted(c', m) {
      ProceedAccounted(c, t, section, m);
    }
    ProceedCreators(c, t, section);
  }

  lemma ProceedCreators(c: System, t: nat, section: Section)
    requires MachineInv(c) && CreatorsDistinct(c.threads) && Answers(c, t, section)
    ensures CreatorsDistinct(Proceed(c, t, section).threads)
  {
    hide Inv, Recorded, Owns;
    var c' := Proceed(c, t, section);
    if section.next.Some? && IsCreator(section.next.value) {
      forall u | u in c.threads && u != t && IsCreator(c.threads[u].task)
        ensures c.threads[u].task.created.generation != section.next.value.created.generation
      {
        assert TaskSane(c.store, c.threads[u].task);
        assert c.threads[u].task.created in Records(c.threads[u].task);
      }
    }
  }

  // ---------------------------------------------------------------- resuming

  /** A record lost when `t` resumes is shown by nobody, or was evicted on purpose. */
  lemma LostIsNotShown(c: System, t: nat, d: nat)
    requires MachineInv(c) && MonitorInv(c) && Enabled(c, Resume(t)) && d in c.store.displays
    requires Lost(c.store, Next(c, Resume(t)).store, d)
    ensures var m := MonitorOf(c.store.displays[d]);
            m !in c.monitors || m in ResumeSection(c.store, c.threads[t].task, c.threads[t].phase.result).evicted
  {
    hide Inv, PreDepartSection, Lost, NewlyPending, Accounted, CreatorsDistinct, Lineage;
    var s, task, result := c.store, c.threads[t].task, c.threads[t].phase.result;
    assert NotShownYet(c, t) && Cleared(c, t);
    ResumeTouches(s, task, result, d);
    if task.PreDepart? {
      PreDepartEvicts(s, task, result, d);
    }
  }

  lemma PreDepartEvicts(s: State, task: Task, result: BackendError, d: nat)
    requires Inv(s) && task.PreDepart? && TaskSane(s, task) && d in s.displays
    requires Lost(s, PreDepartSection(s, task, result).store, d)
    ensures result == Done || MonitorOf(s.displays[d]) in PreDepartSection(s, task, result).evicted
  {
    hide Inv, CreateSection, Lost, NewlyPending, RemoveIfCurrent, Abandon, CanAbandon, MarkPending, IsCurrent, Lineage;
    PreDepartTouches(s, task, result, d);
    UnchangedTouchesNothing(s, d);
    InvPlaced(s);
    assert task.condemned in Records(task);
    MarkedTouches(s, task.condemned, d);
  }

  /** A created record's generation is the one just issued. */
  lemma CreateSectionFresh(s: State, r: CreateRequest, owner: Option<Capability>, now: int)
    requires Inv(s)
    ensures var section := CreateSection(s, r, owner, now);
            && section.evicted == {} && section.refused == {}
            && (section.next.Some? ==>
                  && (section.next.value.Reserving? || section.next.value.Arriving?)
                  && section.next.value.created.generation == s.nextGeneration)
  {
  }

  lemma PreDepartNext(s: State, task: Task, result: BackendError)
    requires Inv(s) && task.PreDepart?
    ensures var section := PreDepartSection(s, task, result);
            section.next.Some? ==>
              && (section.next.value.Reserving? || section.next.value.Arriving?)
              && section.next.value.created.generation >= s.nextGeneration
  {
    hide Inv, CreateSection, Abandon, CanAbandon, MarkPending, RemoveIfCurrent, Evolves, IsCurrent;
    var PreDepart(r, owner, now, condemned) := task;
    RemoveEvolves(s, condemned, RetainReservation);
    var s1 := RemoveIfCurrent(s, condemned, RetainReservation);
    EvolvesUp(s, s1);
    CreateSectionFresh(s1, r, owner, now);
    if owner.Some? {
      var op := OpAbandon(RequestFor(condemned), condemned.generation, owner.value);
      ApplyInv(s, op);
      ApplyEvolves(s, op);
      var s2 := Abandon(s, RequestFor(condemned), condemned.generation, owner.value);
      EvolvesUp(s, s2);
      CreateSectionFresh(s2, r, owner, now);
    }
  }

  lemma EvolvesUp(s: State, s': State)
    requires Evolves(s, s')
    ensures s.nextGeneration <= s'.nextGeneration
  {
  }

  lemma ResumeNext(c: System, t: nat)
    requires MachineInv(c) && MonitorInv(c) && Enabled(c, Resume(t))
    ensures var section := ResumeSection(c.store, c.threads[t].task, c.threads[t].phase.result);
            section.next.Some? && IsCreator(section.next.value) ==>
              var created := section.next.value.created;
              && (created.generation >= c.store.nextGeneration
                  || (IsCreator(c.threads[t].task) && created == c.threads[t].task.created))
              && (section.next.value.Orphaned? || MonitorOf(created) !in c.monitors)
  {
    hide Inv, RemoveIfCurrent, MarkIfCurrent, PreDepartSection, Accounted, CreatorsDistinct, Lineage;
    var task, result := c.threads[t].task, c.threads[t].phase.result;
    assert NotShownYet(c, t);
    if task.PreDepart? {
      PreDepartNext(c.store, task, result);
    }
  }

  lemma ResumeOwned(c: System, t: nat, m: Monitor)
    requires MachineInv(c) && MonitorInv(c) && Enabled(c, Resume(t)) && m in c.monitors && Owns(c.threads[t], m)
    ensures var section := ResumeSection(c.store, c.threads[t].task, c.threads[t].phase.result);
            || Recorded(section.store, m) || m in section.refused
            || (section.next.Some? && section.next.value.Orphaned? && MonitorOf(section.next.value.created) == m)
  {
    hide Inv, RemoveIfCurrent, MarkIfCurrent, PreDepartSection, Accounted, CreatorsDistinct, Lineage;
    assert Cleared(c, t);
  }

  lemma ResumeAnswers(c: System, t: nat)
    requires MachineInv(c) && MonitorInv(c) && Enabled(c, Resume(t))
    ensures Answers(c, t, ResumeSection(c.store, c.threads[t].task, c.threads[t].phase.result))
  {
    hide Inv, TaskSane, MonitorInv, ResumeSection, Owns, Evolves;
    var section := ResumeSection(c.store, c.threads[t].task, c.threads[t].phase.result);
    ResumeSectionSound(c.store, c.threads[t].task, c.threads[t].phase.result);
    EvolvesUp(c.store, section.store);
    forall m | m in c.monitors && Recorded(c.store, m)
      ensures Recorded(section.store, m) || m in section.evicted
    {
      if !Recorded(section.store, m) {
        FiledUnder(c.store, m.0);
        LostIsNotShown(c, t, m.0);
      }
    }
    forall m | m in c.monitors && Owns(c.threads[t], m)
      ensures || Recorded(section.store, m) || m in section.refused
              || (section.next.Some? && section.next.value.Orphaned? && MonitorOf(section.next.value.created) == m)
    {
      ResumeOwned(c, t, m);
    }
    ResumeNext(c, t);
  }

  // ---------------------------------------------------------------- the other steps

  lemma BeginAnswers(c: System, a: Action, section: Section)
    requires MachineInv(c) && MonitorInv(c) && Enabled(c, a) && !a.Resume?
    requires (a.StartCreate? && section == BeginCreate(c.store, a.create, a.owner, a.createNow))
             || (a.StartRemove? && section == BeginRemove(c.store, a.remove))
             || (a.StartRelease? && section == BeginRelease(c.store, a.release, a.snapshot))
             || (a.StartReap? && section == BeginReap(c.store, a.snapshot))
    ensures Answers(c, a.t, section)
  {
    hide Inv, TaskSane, Accounted, CreatorsDistinct, CreateSection, Evolves;
    BeginSound(c, a);
    EvolvesUp(c.store, section.store);
    forall m | m in c.monitors && Recorded(c.store, m) ensures Recorded(section.store, m) {
      OthersTouchNothing(c, a, m.0);
    }
    if a.StartCreate? {
      CreateSectionFresh(c.store, a.create, a.owner, a.createNow);
    }
  }

  lemma CallAccounted(c: System, t: nat, result: BackendError, kept: set<Monitor>, m: Monitor)
    requires MachineInv(c) && MonitorInv(c) && Enabled(c, Call(t, result, kept))
    requires m in Next(c, Call(t, result, kept)).monitors
    ensures Accounted(Next(c, Call(t, result, kept)), m) && m.1 < c.store.nextGeneration
  {
    hide Inv, Lineage, CreatorsDistinct;
    var c' := Next(c, Call(t, result, kept));
    var task := c.threads[t].task;
    if m in c.monitors {
      assert Accounted(c, m);
      if Owned(c.threads, m) {
        var u :| u in c.threads && Owns(c.threads[u], m);
        assert Owns(c'.threads[u], m);
      }
    } else {
      assert TaskSane(c.store, task) && task.created in Records(task);
      IssuedGeneration(c.store, task.created);
      assert Owns(c'.threads[t], m);
    }
  }

  lemma CallThreads(c: System, t: nat, result: BackendError, kept: set<Monitor>, u: nat)
    requires MonitorInv(c) && Enabled(c, Call(t, result, kept)) && u in c.threads
    ensures var c' := Next(c, Call(t, result, kept)); NotShownYet(c', u) && Cleared(c', u)
  {
    hide Accounted;
    assert NotShownYet(c, u) && Cleared(c, u);
    assert u != t ==> !c.threads[u].HoldsMutex();
  }

  lemma CallMonitorInv(c: System, t: nat, result: BackendError, kept: set<Monitor>)
    requires MachineInv(c) && MonitorInv(c) && Enabled(c, Call(t, result, kept))
    ensures MonitorInv(Next(c, Call(t, result, kept)))
  {
    hide Accounted, NotShownYet, Cleared, TaskSane, MonitorsAfter;
    var c' := Next(c, Call(t, result, kept));
    forall m | m in c'.monitors ensures Accounted(c', m) && m.1 < c'.store.nextGeneration {
      CallAccounted(c, t, result, kept, m);
    }
    forall u | u in c'.threads ensures NotShownYet(c', u) && Cleared(c', u) {
      CallThreads(c, t, result, kept, u);
    }
  }

  lemma IssuedGeneration(s: State, r: Record)
    requires Lineage(s, r)
    ensures r.generation < s.nextGeneration
  {
  }

  lemma TimeOutMonitorInv(c: System, t: nat)
    requires MonitorInv(c) && Enabled(c, TimeOut(t))
    ensures MonitorInv(Next(c, TimeOut(t)))
  {
    var c' := Next(c, TimeOut(t));
    forall m | m in c'.monitors ensures Accounted(c', m) {
      assert Accounted(c, m);
      if Owned(c.threads, m) {
        var u :| u in c.threads && Owns(c.threads[u], m);
        assert Owns(c'.threads[u], m);
      }
    }
    forall u | u in c'.threads ensures NotShownYet(c', u) && Cleared(c', u) {
      assert NotShownYet(c, u) && Cleared(c, u);
    }
  }

  lemma RestampMonitorInv(c: System, s': State)
    requires MonitorInv(c)
    requires s'.nextGeneration == c.store.nextGeneration && s'.displays.Keys == c.store.displays.Keys
    requires forall d | d in s'.displays :: s'.displays[d].generation == c.store.displays[d].generation
    ensures MonitorInv(c.(store := s'))
  {
  }

  lemma NextMonitorInv(c: System, a: Action)
    requires MachineInv(c) && MonitorInv(c) && Enabled(c, a)
    ensures MonitorInv(Next(c, a))
  {
    hide MachineInv, MonitorInv, Answers, BeginCreate, BeginRemove, BeginRelease, BeginReap, ResumeSection;
    match a
    case FeedLease(r, now) => RestampMonitorInv(c, Feed(c.store, r, now));
    case ReclaimDisplay(r, now) => RestampMonitorInv(c, Reclaim(c.store, r, now));
    case Call(t, result, kept) => CallMonitorInv(c, t, result, kept);
    case TimeOut(t) => TimeOutMonitorInv(c, t);
    case Resume(t) =>
      ResumeAnswers(c, t);
      ProceedMonitorInv(c, t, ResumeSection(c.store, c.threads[t].task, c.threads[t].phase.result));
    case StartCreate(t, r, owner, now) =>
      BeginAnswers(c, a, BeginCreate(c.store, r, owner, now));
      ProceedMonitorInv(c, t, BeginCreate(c.store, r, owner, now));
    case StartRemove(t, r) =>
      BeginAnswers(c, a, BeginRemove(c.store, r));
      ProceedMonitorInv(c, t, BeginRemove(c.store, r));
    case StartRelease(t, r, snapshot) =>
      BeginAnswers(c, a, BeginRelease(c.store, r, snapshot));
      ProceedMonitorInv(c, t, BeginRelease(c.store, r, snapshot));
    case StartReap(t, now, snapshot) =>
      BeginAnswers(c, a, BeginReap(c.store, snapshot));
      ProceedMonitorInv(c, t, BeginReap(c.store, snapshot));
  }

  lemma {:induction false} RunMonitorInv(c: System, actions: seq<Action>)
    requires MachineInv(c) && MonitorInv(c) && IsRun(c, actions)
    ensures MonitorInv(After(c, actions))
    decreases |actions|
  {
    hide MachineInv, MonitorInv, Next, Enabled;
    if actions != [] {
      NextInv(c, actions[0]);
      NextMonitorInv(c, actions[0]);
      RunMonitorInv(Next(c, actions[0]), actions[1..]);
    }
  }

  /**
   From a fresh driver, after any interleaving at all, every monitor has a stored
   record of its own generation, an operation in flight that owns it, or was left
   behind by a quarantined eviction or a refused clean-up departure.
   */
  lemma EveryMonitorAccounted(c: System, actions: seq<Action>, m: Monitor)
    requires Initial(c) && IsRun(c, actions) && m in After(c, actions).monitors
    ensures Accounted(After(c, actions), m)
  {
    hide MachineInv, Next, Enabled, Accounted;
    InitialMachineInv(c);
    RunMonitorInv(c, actions);
  }
}

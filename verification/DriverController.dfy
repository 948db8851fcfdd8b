/**
 The driver controller as a machine of interleaved steps. Each operation runs
 store sections under the controller lock and lets go of it around every
 backend call. Backend calls are made one at a time under the backend mutex,
 which a caller keeps until it holds the controller lock again; a call that
 cannot get the mutex in time reports `Busy` and never reaches the backend.
 */
module DriverController {
  import opened Wrappers
  import opened LeaseStoreSpec

  datatype BackendError = Done | Failed | Busy

  /** A monitor the backend shows: its display id and the generation it arrived with. */
  type Monitor = (nat, nat)

  /** What a suspended operation will do next; each names the backend call it is making. */
  datatype Task =
    | PreDepart(request: CreateRequest, owner: Option<Capability>, now: int,
                condemned: Record)   // depart, any generation
    | Reserving(created: Record)     // reserve the identity
    | Unwinding(created: Record)     // unreserve it: the record is gone
    | Arriving(created: Record)      // arrive
    | RollingBack(created: Record)   // unreserve after a failed arrival
    | Orphaned(created: Record)      // depart a monitor whose record is gone
    | Condemned(arrived: Record)     // depart a monitor whose record awaits departure
    | Sweeping(todo: seq<Record>)    // depart the first record of a remove, release or reap

  datatype Phase = Waiting | Returned(result: BackendError)

  datatype Thread = Thread(task: Task, phase: Phase)
  {
    /** Still inside the backend mutex: called, and waiting for the controller lock. */
    predicate HoldsMutex() {
      phase.Returned? && phase.result != Busy
    }
  }

  /** `evicted` and `refused` record, for the proof, monitors given up on. */
  datatype System = System(store: State, monitors: set<Monitor>, threads: map<nat, Thread>,
                           refused: set<Monitor>, evicted: set<Monitor>)
  {
    predicate MutexFree() {
      forall t | t in threads :: !threads[t].HoldsMutex()
    }
  }

  function MonitorOf(r: Record): Monitor {
    (r.displayId, r.generation)
  }

  /** Whether the departure a task is making concerns this monitor. */
  predicate Targets(task: Task, m: Monitor) {
    match task
    case PreDepart(_, _, _, condemned) => m.0 == condemned.displayId
    case Orphaned(created) => m == MonitorOf(created)
    case Condemned(arrived) => m == MonitorOf(arrived)
    case Sweeping(todo) => todo != [] && m == MonitorOf(todo[0])
    case _ => false
  }

  /** The stored record is still the one observed: same lease, same generation. */
  predicate IsCurrent(s: State, r: Record) {
    && r.displayId in s.displays
    && s.displays[r.displayId].leaseId == r.leaseId
    && s.displays[r.displayId].generation == r.generation
  }

  function RequestFor(r: Record): LeaseDisplayRequest {
    LeaseDisplayRequest(true, r.leaseId, r.displayId)
  }

  function RemoveIfCurrent(s: State, r: Record, mode: RemoveMode): State {
    if IsCurrent(s, r) then Remove(s, RequestFor(r), mode) else s
  }

  function MarkIfCurrent(s: State, r: Record): State {
    if IsCurrent(s, r) then MarkPending(s, RequestFor(r)) else s
  }

  /** The outcome of one store section: the new store and what the operation waits for next, if anything. */
  datatype Section = Section(store: State, next: Option<Task>, refused: set<Monitor>, evicted: set<Monitor>)

  function Ends(s: State): Section {
    Section(s, None, {}, {})
  }

  function Continues(s: State, task: Task): Section {
    Section(s, Some(task), {}, {})
  }

  function CreateSection(s: State, r: CreateRequest, owner: Option<Capability>, now: int): Section {
    var created := Create(s, r, owner, now);
    if created.error != NoError || r.displayId !in created.state.displays then Ends(created.state)
    else
      var record := created.state.displays[r.displayId];
      Continues(created.state, if record.retain then Reserving(record) else Arriving(record))
  }

  function BeginCreate(s: State, r: CreateRequest, owner: Option<Capability>, now: int): Section {
    if !ValidCreate(r, owner) then Ends(s)
    else if r.displayId in s.displays && s.displays[r.displayId].pending then
      Continues(s, PreDepart(r, owner, now, s.displays[r.displayId]))
    else CreateSection(s, r, owner, now)
  }

  function BeginRemove(s: State, r: LeaseDisplayRequest): Section {
    if CanRemove(s, r) != NoError then Ends(s) else Continues(s, Sweeping([s.displays[r.displayId]]))
  }

  function BeginRelease(s: State, r: LeaseRequest, snapshot: seq<Record>): Section {
    if !ValidLease(r) then Ends(s)
    else if snapshot == [] then Ends(Release(s, r))
    else Continues(s, Sweeping(snapshot))
  }

  function BeginReap(s: State, snapshot: seq<Record>): Section {
    if snapshot == [] then Ends(s) else Continues(s, Sweeping(snapshot))
  }

  function SweepSection(s: State, todo: seq<Record>, result: BackendError): Section
    requires todo != []
  {
    var after := match result
      case Done => RemoveIfCurrent(s, todo[0], RetainReservation)
      case Failed => MarkIfCurrent(s, todo[0])
      case Busy => s;
    if |todo| == 1 then Ends(after) else Continues(after, Sweeping(todo[1..]))
  }

  /** After the unfenced departure that precedes a create over a condemned record. */
  function PreDepartSection(s: State, task: Task, result: BackendError): Section
    requires task.PreDepart?
  {
    var PreDepart(r, owner, now, condemned) := task;
    match result
    case Busy => Ends(s)
    case Done => CreateSection(RemoveIfCurrent(s, condemned, RetainReservation), r, owner, now)
    case Failed =>
      if !IsCurrent(s, condemned) then Ends(s)
      else if owner.Some? &&
              CanAbandon(s, RequestFor(condemned), condemned.generation, owner.value) == NoError then
        CreateSection(Abandon(s, RequestFor(condemned), condemned.generation, owner.value), r, owner, now)
        .(evicted := {MonitorOf(condemned)})
      else Ends(MarkPending(s, RequestFor(condemned)))
  }

  function ArriveSection(s: State, created: Record, result: BackendError): Section {
    if result != Done then
      if created.retain then Continues(s, RollingBack(created))
      else Ends(RemoveIfCurrent(s, created, ReleaseReservation))
    else if !IsCurrent(s, created) then Continues(s, Orphaned(created))
    else if s.displays[created.displayId].pending then Continues(s, Condemned(s.displays[created.displayId]))
    else Ends(s)
  }

  /** The store section an operation runs once its backend call has returned. */
  function ResumeSection(s: State, task: Task, result: BackendError): Section
    requires task.Sweeping? ==> task.todo != []
  {
    match task
    case PreDepart(_, _, _, _) => PreDepartSection(s, task, result)
    case Reserving(created) =>
      if result != Done then Ends(RemoveIfCurrent(s, created, ReleaseReservation))
      else if !IsCurrent(s, created) then Continues(s, Unwinding(created))
      else Continues(s, Arriving(created))
    case Unwinding(_) => Ends(s)
    case Arriving(created) => ArriveSection(s, created, result)
    case RollingBack(created) =>
      Ends(RemoveIfCurrent(s, created, if result == Done then ReleaseReservation else RetainReservation))
    case Orphaned(created) => Ends(s).(refused := if result == Done then {} else {MonitorOf(created)})
    case Condemned(arrived) => Ends(if result == Done then RemoveIfCurrent(s, arrived, RetainReservation) else s)
    case Sweeping(todo) => SweepSection(s, todo, result)
  }

  // ---------------------------------------------------------------- steps

  datatype Action =
    | StartCreate(t: nat, create: CreateRequest, owner: Option<Capability>, createNow: int)
    | StartRemove(t: nat, remove: LeaseDisplayRequest)
    | StartRelease(t: nat, release: LeaseRequest, snapshot: seq<Record>)
    | StartReap(t: nat, reapNow: int, snapshot: seq<Record>)
    | FeedLease(feed: LeaseRequest, feedNow: int)
    | ReclaimDisplay(reclaim: ReclaimRequest, reclaimNow: int)
    | Call(t: nat, result: BackendError, kept: set<Monitor>)
    | TimeOut(t: nat)
    | Resume(t: nat)

  /** `snapshot` lists exactly the stored records that qualify, each once. */
  ghost predicate Lists(s: State, snapshot: seq<Record>, qualifies: Record -> bool) {
    && (forall i | 0 <= i < |snapshot| ::
          && snapshot[i].displayId in s.displays && s.displays[snapshot[i].displayId] == snapshot[i]
          && qualifies(snapshot[i]))
    && (forall i, j | 0 <= i < j < |snapshot| :: snapshot[i].displayId != snapshot[j].displayId)
    && (forall d | d in s.displays && qualifies(s.displays[d]) :: s.displays[d] in snapshot)
  }

  ghost predicate Enabled(c: System, a: Action) {
    match a
    case StartCreate(t, _, _, _) => t !in c.threads
    case StartRemove(t, _) => t !in c.threads
    case StartRelease(t, r, snapshot) => t !in c.threads &&
                                         Lists(c.store, snapshot, (x: Record) => x.leaseId == r.leaseId)
    case StartReap(t, now, snapshot) =>
      t !in c.threads && Lists(c.store, snapshot, (x: Record) => x.pending || x.expiresAt <= now)
    case FeedLease(_, _) => true
    case ReclaimDisplay(_, _) => c.MutexFree()
    case Call(t, result, kept) =>
      && t in c.threads && c.threads[t].phase.Waiting? && c.MutexFree()
      && result != Busy && kept <= c.monitors
    case TimeOut(t) => t in c.threads && c.threads[t].phase.Waiting?
    case Resume(t) =>
      && t in c.threads && c.threads[t].phase.Returned?
      && (c.threads[t].task.Sweeping? ==> c.threads[t].task.todo != [])
  }

  /** The backend's contract: a departure clears what it targets or fails, keeping any part of it. */
  function MonitorsAfter(monitors: set<Monitor>, task: Task, result: BackendError, kept: set<Monitor>): set<Monitor> {
    match task
    case Arriving(created) => if result == Done then monitors + {MonitorOf(created)} else monitors
    case _ => set m | m in monitors && (!Targets(task, m) || (result != Done && m in kept))
  }

  function Proceed(c: System, t: nat, section: Section): System {
    System(section.store, c.monitors,
           if section.next.None? then c.threads - {t} else c.threads[t := Thread(section.next.value, Waiting)],
           c.refused + section.refused, c.evicted + section.evicted)
  }

  ghost function Next(c: System, a: Action): System
    requires Enabled(c, a)
  {
    match a
    case StartCreate(t, r, owner, now) => Proceed(c, t, BeginCreate(c.store, r, owner, now))
    case StartRemove(t, r) => Proceed(c, t, BeginRemove(c.store, r))
    case StartRelease(t, r, snapshot) => Proceed(c, t, BeginRelease(c.store, r, snapshot))
    case StartReap(t, now, snapshot) => Proceed(c, t, BeginReap(c.store, snapshot))
    case FeedLease(r, now) => c.(store := Feed(c.store, r, now))
    case ReclaimDisplay(r, now) => c.(store := Reclaim(c.store, r, now))
    case Call(t, result, kept) =>
      c.(monitors := MonitorsAfter(c.monitors, c.threads[t].task, result, kept),
         threads := c.threads[t := c.threads[t].(phase := Returned(result))])
    case TimeOut(t) => c.(threads := c.threads[t := c.threads[t].(phase := Returned(Busy))])
    case Resume(t) => Proceed(c, t, ResumeSection(c.store, c.threads[t].task, c.threads[t].phase.result))
  }

  /** A driver that has just started: nothing stored, nothing shown, nothing under way. */
  ghost predicate Initial(c: System) {
    && c.store == InitialState(c.store.maxPermanent, c.store.maxTemporary, c.store.reservations)
    && c.monitors == {} && c.threads == map[] && c.refused == {} && c.evicted == {}
  }

  /** A run: each action is enabled where it is taken. */
  ghost predicate IsRun(c: System, actions: seq<Action>)
    decreases |actions|
  {
    actions == [] || (Enabled(c, actions[0]) && IsRun(Next(c, actions[0]), actions[1..]))
  }

  ghost function After(c: System, actions: seq<Action>): System
    requires IsRun(c, actions)
    decreases |actions|
  {
    if actions == [] then c else After(Next(c, actions[0]), actions[1..])
  }
}

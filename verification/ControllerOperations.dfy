/**
 What whole operations of the controller do: a sweep goes on to the last record it
 listed, and a create ends as its calls are answered.
 */
module ControllerOperations {
  import opened Wrappers
  import opened LeaseStoreSpec
  import opened LeaseStoreInvariant
  import opened DriverController
  import opened ControllerSafety
  import opened ControllerMonitors
  import opened ControllerExactness

  // ---------------------------------------------------------------- sweeps, over any run

  /** The backend answers thread `t`, or its call times out. */
  predicate AnswersTo(a: Action, t: nat) {
    (a.Call? || a.TimeOut?) && a.t == t
  }

  function AnswerCount(actions: seq<Action>, t: nat): nat {
    if actions == [] then 0
    else AnswerCount(actions[..|actions| - 1], t) + if AnswersTo(actions[|actions| - 1], t) then 1 else 0
  }

  function ResumeCount(actions: seq<Action>, t: nat): nat {
    if actions == [] then 0
    else ResumeCount(actions[..|actions| - 1], t) + if actions[|actions| - 1] == Resume(t) then 1 else 0
  }

  ghost predicate NeverStarts(actions: seq<Action>, t: nat) {
    forall i | 0 <= i < |actions| :: !Starts(actions[i], t)
  }

  /** After so many answers and resumptions, the sweep is at the record of that number, or over if that was the last. */
  ghost predicate SweepAt(c: System, t: nat, snapshot: seq<Record>, answers: nat, resumes: nat) {
    && resumes <= |snapshot|
    && if resumes == |snapshot| then t !in c.threads && answers == resumes
       else
         && t in c.threads && c.threads[t].task == Sweeping(snapshot[resumes..])
         && answers == resumes + if c.threads[t].phase.Returned? then 1 else 0
  }

  lemma SweepNext(c: System, a: Action, t: nat, snapshot: seq<Record>, answers: nat, resumes: nat)
    requires SweepAt(c, t, snapshot, answers, resumes) && Enabled(c, a) && !Starts(a, t)
    ensures SweepAt(Next(c, a), t, snapshot, answers + if AnswersTo(a, t) then 1 else 0,
                    resumes + if a == Resume(t) then 1 else 0)
  {
    hide BeginCreate, BeginRemove, BeginRelease, BeginReap, Feed, Reclaim, MonitorsAfter, RemoveIfCurrent,
         MarkIfCurrent;
    if a == Resume(t) {
      assert snapshot[resumes..][1..] == snapshot[resumes + 1..];
    } else if a.Resume? {
      hide ResumeSection;
    }
  }

  lemma {:induction false} RunSplits(c: System, first: seq<Action>, second: seq<Action>)
    requires IsRun(c, first + second)
    ensures IsRun(c, first) && IsRun(After(c, first), second)
    ensures After(c, first + second) == After(After(c, first), second)
    decreases |first|
  {
    hide Next, Enabled;
    if first == [] {
      assert first + second == second;
    } else {
      assert (first + second)[1..] == first[1..] + second;
      RunSplits(Next(c, first[0]), first[1..], second);
    }
  }

  lemma {:induction false} SweepRuns(c: System, actions: seq<Action>, t: nat, snapshot: seq<Record>)
    requires SweepAt(c, t, snapshot, 0, 0) && IsRun(c, actions) && NeverStarts(actions, t)
    ensures SweepAt(After(c, actions), t, snapshot, AnswerCount(actions, t), ResumeCount(actions, t))
    decreases |actions|
  {
    hide SweepAt, Next, Enabled, IsRun, After, AnswerCount, ResumeCount;
    if actions == [] {
      NothingRun(c, t);
    } else {
      var front, a := actions[..|actions| - 1], actions[|actions| - 1];
      assert front + [a] == actions;
      CountsGrow(front, a, t);
      RunSplits(c, front, [a]);
      SweepRuns(c, front, t, snapshot);
      OneAction(After(c, front), a);
      SweepNext(After(c, front), a, t, snapshot, AnswerCount(front, t), ResumeCount(front, t));
    }
  }

  lemma NothingRun(c: System, t: nat)
    ensures IsRun(c, []) && After(c, []) == c && AnswerCount([], t) == 0 && ResumeCount([], t) == 0
  {
  }

  lemma CountsGrow(front: seq<Action>, a: Action, t: nat)
    ensures AnswerCount(front + [a], t) == AnswerCount(front, t) + if AnswersTo(a, t) then 1 else 0
    ensures ResumeCount(front + [a], t) == ResumeCount(front, t) + if a == Resume(t) then 1 else 0
  {
    assert (front + [a])[..|front|] == front;
  }

  lemma OneAction(c: System, a: Action)
    requires IsRun(c, [a])
    ensures Enabled(c, a) && After(c, [a]) == Next(c, a)
  {
    hide Next, Enabled;
    assert [a][1..] == [];
    assert IsRun(Next(c, a), [a][1..]) && After(Next(c, a), [a][1..]) == Next(c, a);
  }

  /** A release of a valid lease, or a reap, that has listed something to depart. */
  ghost predicate StartsSweep(a: Action) {
    (a.StartRelease? && ValidLease(a.release) && a.snapshot != []) || (a.StartReap? && a.snapshot != [])
  }

  /**
   In every interleaving, a release or reap that has listed `snapshot` is, after its
   k-th answer, done with exactly k records and at the next one; its operation is over
   when, and only when, the last has been answered.
   */
  lemma SweepVisitsAll(c: System, start: Action, actions: seq<Action>)
    requires StartsSweep(start) && Enabled(c, start) && IsRun(Next(c, start), actions) && NeverStarts(actions, start.t)
    ensures SweepAt(After(Next(c, start), actions), start.t, start.snapshot,
                    AnswerCount(actions, start.t), ResumeCount(actions, start.t))
    ensures start.t !in After(Next(c, start), actions).threads <==> ResumeCount(actions, start.t) == |start.snapshot|
  {
    assert SweepAt(Next(c, start), start.t, start.snapshot, 0, 0) by {
      assert start.snapshot[0..] == start.snapshot;
    }
    hide SweepAt, Next, Enabled;
    SweepRuns(Next(c, start), actions, start.t, start.snapshot);
    SweepOver(After(Next(c, start), actions), start.t, start.snapshot, AnswerCount(actions, start.t),
              ResumeCount(actions, start.t));
  }

  lemma SweepOver(c: System, t: nat, snapshot: seq<Record>, answers: nat, resumes: nat)
    requires SweepAt(c, t, snapshot, answers, resumes)
    ensures t !in c.threads <==> resumes == |snapshot|
    ensures t !in c.threads ==> answers == |snapshot|
  {
  }

  /** The call answered after `k` others is about the k-th record listed. */
  lemma KthCallIsAboutKthRecord(c: System, start: Action, actions: seq<Action>, i: nat)
    requires StartsSweep(start) && Enabled(c, start) && IsRun(Next(c, start), actions) && NeverStarts(actions, start.t)
    requires i < |actions| && AnswersTo(actions[i], start.t)
    ensures IsRun(Next(c, start), actions[..i])
    ensures var at, k := After(Next(c, start), actions[..i]), AnswerCount(actions[..i], start.t);
            && k < |start.snapshot| && start.t in at.threads
            && at.threads[start.t] == Thread(Sweeping(start.snapshot[k..]), Waiting)
            && Subject(at.threads[start.t].task) == start.snapshot[k]
  {
    hide Next, Enabled, After, SweepAt, AnswerCount, ResumeCount;
    var c1, t := Next(c, start), start.t;
    assert actions == actions[..i] + actions[i..];
    RunSplits(c1, actions[..i], actions[i..]);
    assert Enabled(After(c1, actions[..i]), actions[i]);
    hide IsRun;
    SweepVisitsAll(c, start, actions[..i]);
    WaitsAtRecord(After(c1, actions[..i]), actions[i], t, start.snapshot, AnswerCount(actions[..i], t),
                  ResumeCount(actions[..i], t));
  }

  lemma WaitsAtRecord(c: System, a: Action, t: nat, snapshot: seq<Record>, answers: nat, resumes: nat)
    requires SweepAt(c, t, snapshot, answers, resumes) && Enabled(c, a) && AnswersTo(a, t)
    ensures answers < |snapshot| && t in c.threads && c.threads[t] == Thread(Sweeping(snapshot[answers..]), Waiting)
    ensures Subject(c.threads[t].task) == snapshot[answers]
  {
  }

  // ---------------------------------------------------------------- an operation by itself

  /** An answer of the backend: its result, and what a failed departure keeps of its target. */
  type Reply = (BackendError, set<Monitor>)

  /** The operation goes on, call after call, with nothing in between, until it is over or the answers are. */
  ghost function Alone(c: System, t: nat, answers: seq<Reply>): System
    decreases |answers|
  {
    if answers == [] || !Waits(c, t) then c
    else Alone(Continued(c, t, answers[0].0, answers[0].1), t, answers[1..])
  }

  /** The record of `d` and the monitors of `d` are as they were. */
  ghost predicate Untouched(c: System, c': System, d: nat) {
    && (d in c'.store.displays <==> d in c.store.displays)
    && (d in c.store.displays ==> c'.store.displays[d] == c.store.displays[d])
    && forall m: Monitor | m.0 == d :: m in c'.monitors <==> m in c.monitors
  }

  /** What an answer makes of the record it is about, and of its monitor. */
  ghost predicate Departs(c: System, c': System, x: Record, answer: Reply) {
    && (match answer.0
        case Done => x.displayId !in c'.store.displays
        case Failed => x.displayId in c'.store.displays && c'.store.displays[x.displayId] == x.(pending := true)
        case Busy => x.displayId in c'.store.displays && c'.store.displays[x.displayId] == x)
    && forall m: Monitor | m.0 == x.displayId ::
         m in c'.monitors <==> m in c.monitors && (m != MonitorOf(x) || Spares(answer.0, answer.1, m))
  }

  /** The records listed are those stored, each once. */
  ghost predicate AllStored(s: State, todo: seq<Record>) {
    && (forall i | 0 <= i < |todo| ::
          todo[i].displayId in s.displays && s.displays[todo[i].displayId] == todo[i] && ValidRecord(todo[i]))
    && (forall i, j | 0 <= i < j < |todo| :: todo[i].displayId != todo[j].displayId)
  }

  ghost predicate ValidRecord(x: Record) {
    x.displayId != 0 && x.leaseId >= MIN_LEASE_ID
  }

  lemma DepartStore(s: State, x: Record, result: BackendError)
    requires x.displayId in s.displays && s.displays[x.displayId] == x && ValidRecord(x)
    ensures var s' := SweepSection(s, [x], result).store;
            && (result == Done ==> s'.displays == s.displays - {x.displayId})
            && (result == Failed ==> s'.displays == s.displays[x.displayId := x.(pending := true)])
            && (result == Busy ==> s' == s)
  {
  }

  lemma SweepSame(s: State, todo: seq<Record>, result: BackendError)
    requires todo != []
    ensures SweepSection(s, todo, result) ==
              if |todo| == 1 then Ends(SweepSection(s, [todo[0]], result).store)
              else Continues(SweepSection(s, [todo[0]], result).store, Sweeping(todo[1..]))
  {
  }

  /** One record of a sweep: it is dealt with as answered, everything else stays, and the sweep goes on. */
  lemma SweepOne(c: System, t: nat, todo: seq<Record>, answer: Reply)
    requires Waits(c, t) && todo != [] && c.threads[t].task == Sweeping(todo) && AllStored(c.store, todo)
    ensures var c' := Continued(c, t, answer.0, answer.1);
            && Departs(c, c', todo[0], answer)
            && (forall d | d != todo[0].displayId :: Untouched(c, c', d))
            && AllStored(c'.store, todo[1..])
            && (|todo| > 1 ==> Waits(c', t) && c'.threads[t].task == Sweeping(todo[1..]))
            && (|todo| == 1 ==> c'.threads == c.threads - {t})
  {
    hide SweepSection;
    var x := todo[0];
    AnsweredThread(c, t, answer.0, answer.1);
    SweepSame(c.store, todo, answer.0);
    DepartStore(c.store, x, answer.0);
  }

  /**
   A sweep by itself, answered as you like: each record listed ends as its own answer
   says, removed, condemned or left alone; every other display is untouched; and the
   operation is over.
   */
  lemma {:induction false} SweepOutcome(c: System, t: nat, todo: seq<Record>, answers: seq<Reply>)
    requires Waits(c, t) && todo != [] && c.threads[t].task == Sweeping(todo) && AllStored(c.store, todo)
    requires |answers| == |todo|
    ensures var c' := Alone(c, t, answers);
            && c'.threads == c.threads - {t}
            && (forall k | 0 <= k < |todo| :: Departs(c, c', todo[k], answers[k]))
            && (forall d | (forall k | 0 <= k < |todo| :: d != todo[k].displayId) :: Untouched(c, c', d))
    decreases |todo|
  {
    hide Waits, Continued, AllStored, Departs, Untouched;
    var c1 := Continued(c, t, answers[0].0, answers[0].1);
    SweepOne(c, t, todo, answers[0]);
    var c' := Alone(c, t, answers);
    assert c' == Alone(c1, t, answers[1..]);
    if |todo| == 1 {
      assert answers[1..] == [] && c' == c1;
    } else {
      SweepOutcome(c1, t, todo[1..], answers[1..]);
      Apart(c.store, todo);
      assert c'.threads == c.threads - {t} by { SameOthers(c, c1, t, todo, answers[0]); }
      forall k | 0 <= k < |todo| ensures Departs(c, c', todo[k], answers[k]) {
        if k == 0 {
          assert forall j | 0 <= j < |todo[1..]| :: todo[0].displayId != todo[1..][j].displayId;
          DepartsThenUntouched(c, c1, c', todo[0], answers[0]);
        } else {
          assert todo[1..][k - 1] == todo[k] && answers[1..][k - 1] == answers[k];
          UntouchedThenDeparts(c, c1, c', todo[k], answers[k]);
        }
      }
      forall d | forall k | 0 <= k < |todo| :: d != todo[k].displayId ensures Untouched(c, c', d) {
        assert d != todo[0].displayId;
        assert forall j | 0 <= j < |todo[1..]| :: d != todo[1..][j].displayId;
        UntouchedTwice(c, c1, c', d);
      }
    }
  }

  lemma Apart(s: State, todo: seq<Record>)
    requires AllStored(s, todo)
    ensures forall i, j | 0 <= i < j < |todo| :: todo[i].displayId != todo[j].displayId
  {
  }

  lemma SameOthers(c: System, c1: System, t: nat, todo: seq<Record>, answer: Reply)
    requires Waits(c, t) && |todo| > 1 && c.threads[t].task == Sweeping(todo)
    requires c1 == Continued(c, t, answer.0, answer.1)
    ensures c1.threads - {t} == c.threads - {t}
  {
    hide SweepSection;
    AnsweredThread(c, t, answer.0, answer.1);
    SweepSame(c.store, todo, answer.0);
  }

  lemma DepartsThenUntouched(c: System, c1: System, c': System, x: Record, answer: Reply)
    requires Departs(c, c1, x, answer) && Untouched(c1, c', x.displayId)
    ensures Departs(c, c', x, answer)
  {
  }

  lemma UntouchedThenDeparts(c: System, c1: System, c': System, x: Record, answer: Reply)
    requires Untouched(c, c1, x.displayId) && Departs(c1, c', x, answer)
    ensures Departs(c, c', x, answer)
  {
  }

  lemma UntouchedTwice(c: System, c1: System, c': System, d: nat)
    requires Untouched(c, c1, d) && Untouched(c1, c', d)
    ensures Untouched(c, c', d)
  {
  }

  lemma ListedStored(s: State, snapshot: seq<Record>, qualifies: Record -> bool)
    requires Inv(s) && Lists(s, snapshot, qualifies)
    ensures AllStored(s, snapshot)
    ensures forall d | d in s.displays ::
              qualifies(s.displays[d]) <==> exists k | 0 <= k < |snapshot| :: snapshot[k].displayId == d
  {
    hide Inv;
    InvPlaced(s);
    forall d | d in s.displays
      ensures qualifies(s.displays[d]) <==> exists k | 0 <= k < |snapshot| :: snapshot[k].displayId == d
    {
      FiledUnder(s, d);
      if qualifies(s.displays[d]) {
        var k :| 0 <= k < |snapshot| && snapshot[k] == s.displays[d];
        assert snapshot[k].displayId == d;
      }
    }
  }

  ghost predicate AllDone(answers: seq<Reply>) {
    forall k | 0 <= k < |answers| :: answers[k].0 == Done
  }

  /** What a sweep clears if every departure is done: exactly the displays listed, with their monitors. */
  ghost predicate Clears(c: System, c': System, qualifies: Record -> bool) {
    forall d | d in c.store.displays ::
      if qualifies(c.store.displays[d]) then d !in c'.store.displays && MonitorOf(c.store.displays[d]) !in c'.monitors
      else Untouched(c, c', d)
  }

  lemma SweepClears(c: System, started: System, t: nat, snapshot: seq<Record>, qualifies: Record -> bool,
                    answers: seq<Reply>)
    requires MachineInv(c) && c.MutexFree() && t !in c.threads && Lists(c.store, snapshot, qualifies) && snapshot != []
    requires started == c.(threads := c.threads[t := Thread(Sweeping(snapshot), Waiting)])
    requires |answers| == |snapshot| && AllDone(answers)
    ensures var c' := Alone(started, t, answers); c'.threads == c.threads && Clears(c, c', qualifies)
  {
    hide Inv, TaskSane, Alone, AllStored, Lists;
    ListedStored(c.store, snapshot, qualifies);
    SweepOutcome(started, t, snapshot, answers);
    var c' := Alone(started, t, answers);
    assert c.threads[t := Thread(Sweeping(snapshot), Waiting)] - {t} == c.threads;
    forall d | d in c.store.displays
      ensures if qualifies(c.store.displays[d])
              then d !in c'.store.displays && MonitorOf(c.store.displays[d]) !in c'.monitors
              else Untouched(c, c', d)
    {
      if qualifies(c.store.displays[d]) {
        var k :| 0 <= k < |snapshot| && snapshot[k].displayId == d;
        assert Departs(started, c', snapshot[k], answers[k]);
        ListedIsStored(c.store, snapshot, qualifies, k);
      } else {
        assert Untouched(started, c', d);
      }
    }
  }

  lemma ListedIsStored(s: State, snapshot: seq<Record>, qualifies: Record -> bool, k: nat)
    requires Lists(s, snapshot, qualifies) && k < |snapshot|
    ensures snapshot[k].displayId in s.displays && s.displays[snapshot[k].displayId] == snapshot[k]
  {
  }

  /**
   A release with nothing else going on, all its departures done: no display of the
   lease is stored or shown any more, and no other display has been touched.
   */
  lemma ReleaseClears(c: System, t: nat, r: LeaseRequest, snapshot: seq<Record>, answers: seq<Reply>)
    requires MachineInv(c) && c.MutexFree() && Enabled(c, StartRelease(t, r, snapshot)) && ValidLease(r)
    requires |answers| == |snapshot| && AllDone(answers)
    ensures var c' := Alone(Next(c, StartRelease(t, r, snapshot)), t, answers);
            && c'.threads == c.threads && Clears(c, c', (x: Record) => x.leaseId == r.leaseId)
            && forall d | d in c'.store.displays :: c'.store.displays[d].leaseId != r.leaseId
  {
    hide Inv, TaskSane, Clears;
    var ofLease := (x: Record) => x.leaseId == r.leaseId;
    var started := Next(c, StartRelease(t, r, snapshot));
    var c' := Alone(started, t, answers);
    if snapshot == [] {
      EmptyRelease(c, t, r, answers);
    } else {
      SweepClears(c, started, t, snapshot, ofLease, answers);
      ClearedOf(c, t, started, snapshot, ofLease, answers);
    }
  }

  lemma EmptyRelease(c: System, t: nat, r: LeaseRequest, answers: seq<Reply>)
    requires Enabled(c, StartRelease(t, r, [])) && answers == []
    ensures var c' := Alone(Next(c, StartRelease(t, r, [])), t, answers);
            && c'.threads == c.threads && Clears(c, c', (x: Record) => x.leaseId == r.leaseId)
            && forall d | d in c'.store.displays :: c'.store.displays[d].leaseId != r.leaseId
  {
    assert c.threads - {t} == c.threads;
    assert forall d | d in c.store.displays :: c.store.displays[d].leaseId != r.leaseId;
  }

  /** A sweep stores nothing new. */
  lemma ClearedOf(c: System, t: nat, started: System, snapshot: seq<Record>, qualifies: Record -> bool,
                  answers: seq<Reply>)
    requires MachineInv(c) && c.MutexFree() && t !in c.threads && Lists(c.store, snapshot, qualifies) && snapshot != []
    requires started == c.(threads := c.threads[t := Thread(Sweeping(snapshot), Waiting)])
    requires |answers| == |snapshot| && AllDone(answers)
    ensures var c' := Alone(started, t, answers);
            forall d | d in c'.store.displays ::
              d in c.store.displays && c'.store.displays[d] == c.store.displays[d] && !qualifies(c.store.displays[d])
  {
    hide Inv, TaskSane, Alone, AllStored, Lists;
    SweepClears(c, started, t, snapshot, qualifies, answers);
    ListedStored(c.store, snapshot, qualifies);
    SweepOutcome(started, t, snapshot, answers);
    var c' := Alone(started, t, answers);
    forall d ensures d in c'.store.displays ==> d in c.store.displays {
      if k :| 0 <= k < |snapshot| && snapshot[k].displayId == d {
        ListedIsStored(c.store, snapshot, qualifies, k);
      } else {
        assert Untouched(started, c', d);
      }
    }
  }

  /**
   A reap with nothing else going on, all its departures done: of what was stored,
   exactly what is neither condemned nor past its deadline is left, untouched.
   */
  lemma ReapClears(c: System, t: nat, now: int, snapshot: seq<Record>, answers: seq<Reply>)
    requires MachineInv(c) && c.MutexFree() && Enabled(c, StartReap(t, now, snapshot))
    requires |answers| == |snapshot| && AllDone(answers)
    ensures var c' := Alone(Next(c, StartReap(t, now, snapshot)), t, answers);
            && c'.threads == c.threads && Clears(c, c', (x: Record) => x.pending || x.expiresAt <= now)
            && forall d | d in c'.store.displays ::
                 !c'.store.displays[d].pending && c'.store.displays[d].expiresAt > now
  {
    hide Inv, TaskSane, Clears;
    var due := (x: Record) => x.pending || x.expiresAt <= now;
    var started := Next(c, StartReap(t, now, snapshot));
    if snapshot == [] {
      EmptyReap(c, t, now, answers);
    } else {
      SweepClears(c, started, t, snapshot, due, answers);
      ClearedOf(c, t, started, snapshot, due, answers);
    }
  }

  lemma EmptyReap(c: System, t: nat, now: int, answers: seq<Reply>)
    requires Enabled(c, StartReap(t, now, [])) && answers == []
    ensures var c' := Alone(Next(c, StartReap(t, now, [])), t, answers);
            && c'.threads == c.threads && Clears(c, c', (x: Record) => x.pending || x.expiresAt <= now)
            && forall d | d in c'.store.displays ::
                 !c'.store.displays[d].pending && c'.store.displays[d].expiresAt > now
  {
    assert c.threads - {t} == c.threads;
    assert forall d | d in c.store.displays :: !c.store.displays[d].pending && c.store.displays[d].expiresAt > now;
  }

  // ---------------------------------------------------------------- a create by itself

  /** A record just created: stored, on its way, and shown by nobody. */
  ghost predicate Fresh(c: System, t: nat, x: Record) {
    && Waits(c, t) && x.displayId in c.store.displays && c.store.displays[x.displayId] == x && !x.pending
    && ValidRecord(x) && MonitorOf(x) !in c.monitors
  }

  lemma BeginsCreate(s: State, r: CreateRequest, owner: Option<Capability>, now: int)
    requires Inv(s) && (r.displayId in s.displays ==> !s.displays[r.displayId].pending)
    ensures var created := Create(s, r, owner, now);
            if created.error != NoError then BeginCreate(s, r, owner, now) == Ends(created.state)
            else
              && r.displayId in created.state.displays
              && var x := created.state.displays[r.displayId];
              && BeginCreate(s, r, owner, now) == Continues(created.state, if x.retain then Reserving(x)
                                                            else Arriving(x))
              && x.displayId == r.displayId && x.retain == !r.ephemeral && !x.pending && ValidRecord(x)
              && x.generation == s.nextGeneration
  {
    hide Inv, Create;
    if Create(s, r, owner, now).error == NoError {
      InvPlaced(s);
      CreateAdds(s, r, owner, now);
      AcceptedIsValid(s, r, owner, now);
    } else if !ValidCreate(r, owner) {
      InvalidRefused(s, r, owner, now);
    }
  }

  /** A create that is not about to depart anything first: refused, or on its way with the record it has stored. */
  lemma CreateStarts(c: System, t: nat, r: CreateRequest, owner: Option<Capability>, now: int)
    requires MachineInv(c) && MonitorInv(c) && c.MutexFree() && t !in c.threads
    requires r.displayId in c.store.displays ==> !c.store.displays[r.displayId].pending
    ensures var started := Next(c, StartCreate(t, r, owner, now)); var created := Create(c.store, r, owner, now);
            if created.error != NoError then started == c.(store := created.state)
            else
              && r.displayId in created.state.displays
              && var x := created.state.displays[r.displayId];
              && started == c.(store := created.state,
                               threads := c.threads[t := Thread(if x.retain then Reserving(x)
                                                                else Arriving(x), Waiting)])
              && Fresh(started, t, x) && x.displayId == r.displayId && x.retain == !r.ephemeral
  {
    hide Inv, TaskSane, Create, BeginCreate, CreatorsDistinct, NotShownYet, Cleared, Accounted;
    assert c.threads - {t} == c.threads;
    BeginsCreate(c.store, r, owner, now);
  }

  lemma AcceptedIsValid(s: State, r: CreateRequest, owner: Option<Capability>, now: int)
    requires Create(s, r, owner, now).error == NoError
    ensures ValidCreate(r, owner)
  {
  }

  lemma InvalidRefused(s: State, r: CreateRequest, owner: Option<Capability>, now: int)
    requires !ValidCreate(r, owner)
    ensures Create(s, r, owner, now) == CreateOutcome(s, ValidationFailed)
  {
  }

  /** The record of a create is taken back, with its reservation or without. */
  ghost predicate TakenBack(c: System, c': System, x: Record, reservationKept: bool) {
    && c'.store.displays == c.store.displays - {x.displayId} && c'.monitors == c.monitors
    && c'.store.reservations == (if reservationKept then c.store.reservations else c.store.reservations - {x.displayId})
    && c'.store.quarantined == c.store.quarantined
  }

  lemma TakesBack(s: State, x: Record, mode: RemoveMode)
    requires x.displayId in s.displays && s.displays[x.displayId] == x && ValidRecord(x)
    ensures var s' := RemoveIfCurrent(s, x, mode);
            && s'.displays == s.displays - {x.displayId} && s'.quarantined == s.quarantined
            && s'.reservations == (if mode.ReleaseReservation? then s.reservations - {x.displayId} else s.reservations)
  {
  }

  lemma NoTargets(monitors: set<Monitor>, task: Task, result: BackendError, kept: set<Monitor>)
    requires task.Reserving? || task.RollingBack? || (task.Arriving? && result != Done)
    ensures MonitorsAfter(monitors, task, result, kept) == monitors
  {
  }

  /** Reserving the identity: done, the create goes on to arrive; otherwise it gives everything up. */
  lemma ReserveOutcome(c: System, t: nat, x: Record, answer: Reply)
    requires Fresh(c, t, x) && c.threads[t].task == Reserving(x)
    ensures var c' := Continued(c, t, answer.0, answer.1);
            if answer.0 == Done then c' == c.(threads := c.threads[t := Thread(Arriving(x), Waiting)])
            else c'.threads == c.threads - {t} && TakenBack(c, c', x, false)
  {
    hide RemoveIfCurrent, MonitorsAfter;
    AnsweredThread(c, t, answer.0, answer.1);
    TakesBack(c.store, x, ReleaseReservation);
    if answer.0 != Busy {
      NoTargets(c.monitors, Reserving(x), answer.0, answer.1 * c.monitors);
    }
  }

  /** Arriving: done, the display is stored and shown; otherwise a retained one goes on to give its identity back. */
  lemma ArriveOutcome(c: System, t: nat, x: Record, answer: Reply)
    requires Fresh(c, t, x) && c.threads[t].task == Arriving(x)
    ensures var c' := Continued(c, t, answer.0, answer.1);
            if answer.0 == Done then c' == c.(monitors := c.monitors + {MonitorOf(x)}, threads := c.threads - {t})
            else if x.retain then c' == c.(threads := c.threads[t := Thread(RollingBack(x), Waiting)])
            else c'.threads == c.threads - {t} && TakenBack(c, c', x, false)
  {
    hide RemoveIfCurrent;
    AnsweredThread(c, t, answer.0, answer.1);
    TakesBack(c.store, x, ReleaseReservation);
    if answer.0 == Failed {
      NoTargets(c.monitors, Arriving(x), answer.0, answer.1 * c.monitors);
    }
  }

  /** Giving the identity back: the connector stays reserved exactly if the backend did not take it back. */
  lemma RollbackOutcome(c: System, t: nat, x: Record, answer: Reply)
    requires Fresh(c, t, x) && c.threads[t].task == RollingBack(x)
    ensures var c' := Continued(c, t, answer.0, answer.1);
            c'.threads == c.threads - {t} && TakenBack(c, c', x, answer.0 != Done)
  {
    hide RemoveIfCurrent, MonitorsAfter;
    AnsweredThread(c, t, answer.0, answer.1);
    TakesBack(c.store, x, ReleaseReservation);
    TakesBack(c.store, x, RetainReservation);
    if answer.0 != Busy {
      NoTargets(c.monitors, RollingBack(x), answer.0, answer.1 * c.monitors);
    }
  }

  lemma AloneStep(c: System, t: nat, answers: seq<Reply>)
    requires Waits(c, t) && answers != []
    ensures Alone(c, t, answers) == Alone(Continued(c, t, answers[0].0, answers[0].1), t, answers[1..])
  {
  }

  lemma AloneOver(c: System, t: nat, answers: seq<Reply>)
    requires answers == [] || t !in c.threads
    ensures Alone(c, t, answers) == c
  {
  }

  /**
   A create by itself, for every way its calls can be answered. The display ends up
   stored and shown exactly if all were done. Otherwise its record is taken back, and
   its reservation too, unless the backend, having reserved the identity and failed the
   arrival, would not take the identity back: then the connector stays reserved.
   */
  lemma CreateEnds(c: System, t: nat, x: Record, reserve: Reply, arrive: Reply, unreserve: Reply)
    requires Fresh(c, t, x) && c.threads[t].task == if x.retain then Reserving(x) else Arriving(x)
    ensures var c' := Alone(c, t, if x.retain then [reserve, arrive, unreserve] else [arrive]);
            && c'.threads == c.threads - {t}
            && var reserved := x.retain && reserve.0 == Done;
            if (x.retain ==> reserved) && arrive.0 == Done
            then c'.store == c.store && c'.monitors == c.monitors + {MonitorOf(x)}
            else TakenBack(c, c', x, reserved && unreserve.0 != Done)
  {
    hide Continued, TakenBack, Alone;
    if x.retain {
      ReserveOutcome(c, t, x, reserve);
      var c1 := Continued(c, t, reserve.0, reserve.1);
      AloneStep(c, t, [reserve, arrive, unreserve]);
      assert [reserve, arrive, unreserve][1..] == [arrive, unreserve];
      if reserve.0 == Done {
        assert c.threads[t := Thread(Arriving(x), Waiting)] - {t} == c.threads - {t};
        ArrivedEnds(c1, t, x, arrive, unreserve);
        SameTakenBack(c, c1, Alone(c1, t, [arrive, unreserve]), x, unreserve.0 != Done);
      } else {
        AloneOver(c1, t, [arrive, unreserve]);
      }
    } else {
      ArriveOutcome(c, t, x, arrive);
      AloneStep(c, t, [arrive]);
      AloneOver(Continued(c, t, arrive.0, arrive.1), t, [arrive][1..]);
    }
  }

  lemma ArrivedEnds(c: System, t: nat, x: Record, arrive: Reply, unreserve: Reply)
    requires Fresh(c, t, x) && c.threads[t].task == Arriving(x) && x.retain
    ensures var c' := Alone(c, t, [arrive, unreserve]);
            && c'.threads == c.threads - {t}
            && if arrive.0 == Done then c'.store == c.store && c'.monitors == c.monitors + {MonitorOf(x)}
               else TakenBack(c, c', x, unreserve.0 != Done)
  {
    hide Continued, TakenBack, Alone;
    ArriveOutcome(c, t, x, arrive);
    var c1 := Continued(c, t, arrive.0, arrive.1);
    AloneStep(c, t, [arrive, unreserve]);
    assert [arrive, unreserve][1..] == [unreserve];
    if arrive.0 == Done {
      AloneOver(c1, t, [unreserve]);
    } else {
      assert c.threads[t := Thread(RollingBack(x), Waiting)] - {t} == c.threads - {t};
      RollbackOutcome(c1, t, x, unreserve);
      AloneStep(c1, t, [unreserve]);
      AloneOver(Continued(c1, t, unreserve.0, unreserve.1), t, [unreserve][1..]);
      SameTakenBack(c, c1, Alone(c1, t, [unreserve]), x, unreserve.0 != Done);
    }
  }

  lemma SameTakenBack(c: System, c2: System, c': System, x: Record, kept: bool)
    requires c2.store == c.store && c2.monitors == c.monitors
    ensures TakenBack(c2, c', x, kept) <==> TakenBack(c, c', x, kept)
  {
  }

  // ---------------------------------------------------------------- removals and evictions

  /** A removal goes to the backend exactly for a display stored on the lease that was named. */
  lemma RemoveStartsIff(c: System, t: nat, r: LeaseDisplayRequest)
    requires t !in c.threads
    ensures var started := Next(c, StartRemove(t, r));
            if ValidLeaseDisplay(r) && r.displayId in c.store.displays &&
              c.store.displays[r.displayId].leaseId == r.leaseId
            then started == c.(threads := c.threads[t := Thread(Sweeping([c.store.displays[r.displayId]]), Waiting)])
            else started == c
  {
    assert c.threads - {t} == c.threads;
  }

  /**
   So does a release, for a valid lease that has displays, and a reap that has any; nothing is
   stored differently yet.
   */
  lemma SweepStartsIff(c: System, start: Action)
    requires MachineInv(c) && Enabled(c, start) && (start.StartRelease? || start.StartReap?)
    ensures var started := Next(c, start);
            && started.store.displays == c.store.displays && started.monitors == c.monitors
            && (start.StartRelease? && !ValidLease(start.release) ==> started == c)
            && started.threads == if StartsSweep(start)
               then c.threads[start.t := Thread(Sweeping(start.snapshot), Waiting)]
                                  else c.threads
  {
    hide Inv, TaskSane;
    assert c.threads - {start.t} == c.threads;
    if start.StartRelease? && start.snapshot == [] {
      assert forall d | d in c.store.displays :: c.store.displays[d].leaseId != start.release.leaseId;
    }
  }

  /**
   A valid create of a display that is stored and condemned sets out to depart it first; an invalid
   one does nothing.
   */
  lemma CreateOverCondemned(c: System, t: nat, r: CreateRequest, owner: Option<Capability>, now: int)
    requires t !in c.threads && r.displayId in c.store.displays && c.store.displays[r.displayId].pending
    ensures Next(c, StartCreate(t, r, owner, now)) ==
              if !ValidCreate(r, owner) then c
              else c.(threads := c.threads[t := Thread(PreDepart(r, owner, now, c.store.displays[r.displayId]),
                                                       Waiting)])
  {
    assert c.threads - {t} == c.threads;
  }

  /** The condemned record is out of the way: gone, and evicted into quarantine if its departure was refused. */
  ghost predicate OutOfTheWay(s: State, cleared: State, x: Record, departed: bool) {
    && cleared.displays == s.displays - {x.displayId}
    && cleared.quarantined == (if departed then s.quarantined else s.quarantined + {x.connector})
    && cleared.reservations == (if departed then s.reservations else s.reservations - {x.displayId})
  }

  /** Whoever creates has proved to own the lease of the condemned record. */
  ghost predicate OwnsLease(s: State, x: Record, owner: Option<Capability>) {
    owner.Some? && x.leaseId in s.leases && s.leases[x.leaseId].capability == owner
  }

  lemma RemovedOutOfTheWay(s: State, x: Record)
    requires Inv(s) && x.displayId in s.displays && s.displays[x.displayId] == x
    ensures var cleared := RemoveIfCurrent(s, x, RetainReservation); Inv(cleared) && OutOfTheWay(s, cleared, x, true)
  {
    hide Inv;
    StoredRecordValid(s, x.displayId);
    TakesBack(s, x, RetainReservation);
    RemoveInv(s, RequestFor(x), RetainReservation);
  }

  lemma EvictedOutOfTheWay(s: State, x: Record, owner: Capability)
    requires Inv(s) && x.displayId in s.displays && s.displays[x.displayId] == x && x.pending
    ensures CanAbandon(s, RequestFor(x), x.generation, owner) == NoError <==> OwnsLease(s, x, Some(owner))
    ensures OwnsLease(s, x, Some(owner)) ==>
              var cleared := Abandon(s, RequestFor(x), x.generation, owner);
              Inv(cleared) && OutOfTheWay(s, cleared, x, false)
  {
    hide Inv;
    StoredRecordValid(s, x.displayId);
    AbandonInv(s, RequestFor(x), x.generation, owner);
  }

  lemma MarkedAlready(s: State, x: Record)
    requires x.displayId in s.displays && s.displays[x.displayId] == x && x.pending
    ensures MarkPending(s, RequestFor(x)) == s && IsCurrent(s, x)
  {
    assert s.displays[x.displayId := x] == s.displays;
  }

  /** What the create does next, after any answer. */
  lemma PreDepartGoesOn(s: State, task: Task, result: BackendError)
    requires Inv(s) && task.PreDepart? && task.condemned.pending
    requires task.condemned.displayId in s.displays && s.displays[task.condemned.displayId] == task.condemned
    ensures var section := PreDepartSection(s, task, result);
            if result == Busy || (result == Failed && !OwnsLease(s, task.condemned, task.owner))
            then section.store == s && section.next == None
            else exists cleared: State ::
              && OutOfTheWay(s, cleared, task.condemned, result == Done)
              && var created := Create(cleared, task.request, task.owner, task.now);
                 section.store == created.state && (section.next.Some? <==> created.error == NoError)
  {
    hide Inv, Create, CreateSection, Abandon, CanAbandon, RemoveIfCurrent, OutOfTheWay, MarkPending;
    var x := task.condemned;
    MarkedAlready(s, x);
    if result == Done {
      RemovedOutOfTheWay(s, x);
      CreateGoesAhead(RemoveIfCurrent(s, x, RetainReservation), task.request, task.owner, task.now);
    } else if result == Failed && task.owner.Some? {
      EvictedOutOfTheWay(s, x, task.owner.value);
      if OwnsLease(s, x, task.owner) {
        CreateGoesAhead(Abandon(s, RequestFor(x), x.generation, task.owner.value), task.request, task.owner, task.now);
      }
    }
  }

  /**
   A create that must first depart a condemned display, by itself. If the call was not
   made, or it failed and the caller does not own the lease, nothing changes and the
   operation is over. If it was done the record is gone, and if it failed for the owner
   it is gone and its connector quarantined; either way the create then goes ahead.
   */
  lemma PreDepartOutcome(c: System, t: nat, x: Record, answer: Reply)
    requires MachineInv(c) && Waits(c, t) && c.threads[t].task.PreDepart? && c.threads[t].task.condemned == x
    requires x.displayId in c.store.displays && c.store.displays[x.displayId] == x
    ensures var c', task := Continued(c, t, answer.0, answer.1), c.threads[t].task;
            if answer.0 == Busy || (answer.0 == Failed && !OwnsLease(c.store, x, task.owner))
            then c'.store == c.store && c'.threads == c.threads - {t}
            else exists cleared: State ::
              && OutOfTheWay(c.store, cleared, x, answer.0 == Done)
              && var created := Create(cleared, task.request, task.owner, task.now);
                 c'.store == created.state && (t in c'.threads <==> created.error == NoError)
  {
    hide Inv, Create, MonitorsAfter, PreDepartSection, OutOfTheWay, OwnsLease;
    AnsweredThread(c, t, answer.0, answer.1);
    assert TaskSane(c.store, c.threads[t].task);
    PreDepartGoesOn(c.store, c.threads[t].task, answer.0);
  }

  lemma StoredRecordValid(s: State, d: nat)
    requires Inv(s) && d in s.displays
    ensures ValidRecord(s.displays[d]) && s.displays[d].displayId == d
  {
  }

  lemma CreateGoesAhead(s: State, r: CreateRequest, owner: Option<Capability>, now: int)
    requires Inv(s)
    ensures CreateSection(s, r, owner, now).store == Create(s, r, owner, now).state
    ensures CreateSection(s, r, owner, now).next.Some? <==> Create(s, r, owner, now).error == NoError
  {
    hide Create, Inv;
    if Create(s, r, owner, now).error == NoError {
      InvPlaced(s);
      CreateAdds(s, r, owner, now);
    }
  }
}

/**
 Framebuffer references and pending-commit counts of the kernel driver, over
 every interleaving of commit tails, frame readers and shutdown. A step is what
 runs under one lock, or one reference or counter operation outside the locks.
 */
module FrameReferences {
  import opened Wrappers

  type Framebuffer = nat
  type OutputId = nat

  /** The pointer variables that own a framebuffer reference. */
  datatype Holder =
    | Shown(output: OutputId)   // what the output presents
    | Reading(reader: nat)      // a frame request in flight
    | Incoming(commit: nat)     // a tail's new framebuffer
    | Outgoing(commit: nat)     // the framebuffer a tail has replaced
    | Releasing                 // what the shutdown path has taken from an output

  /** Where an accepted commit is. */
  datatype Stage =
    | Prepared                  // counted, not yet handed to the helpers
    | Refused(checked: Option<OutputId>)  // the helpers failed; its counts are being taken back
    | Between                   // in the tail, between outputs
    | Holding(output: OutputId) // has its new framebuffer, if any, and is about to publish it
    | Dropping                  // has published, and is dropping what is left over

  /** `todo`: touched outputs that still count this commit as pending. */
  datatype Commit = Commit(todo: set<OutputId>, stage: Stage)

  /** Who has the shutdown lock, and how far it is. */
  datatype Shutdown =
    | Idle
    | Quiescing(thread: nat, drained: bool, toRelease: set<OutputId>)
    | Unplugging(unplugger: nat, toRelease: set<OutputId>)

  /** Reference counts, and the variables that own references. */
  datatype Frames = Frames(references: map<Framebuffer, int>, held: map<Holder, Framebuffer>)
  {
    function References(fb: Framebuffer): int {
      if fb in references then references[fb] else 0
    }

    function Get(h: Holder, fb: Framebuffer): Frames {
      Frames(references[fb := References(fb) + 1], held[h := fb])
    }

    function Put(h: Holder): Frames {
      if h !in held then this
      else Frames(references[held[h] := References(held[h]) - 1], held - {h})
    }

    /** Moves a pointer from one variable to another, touching no count. */
    function Move(from: Holder, to: Holder): Frames {
      if from !in held then this.(held := held - {to})
      else this.(held := (held - {from})[to := held[from]])
    }

    /** What publishing on an output does: out with the old pointer, in with the new. */
    function Swap(k: nat, o: OutputId): Frames {
      Move(Shown(o), Outgoing(k)).Move(Incoming(k), Shown(o))
    }
  }

  /** The pending-commit counters, and how often one had to be repaired. */
  datatype Counters = Counters(pending: map<OutputId, int>, repairs: nat)
  {
    function Count(o: OutputId): int {
      if o in pending then pending[o] else 0
    }

    function Add(touched: set<OutputId>): Counters {
      this.(pending := map o | o in pending.Keys + touched :: Count(o) + if o in touched then 1 else 0)
    }

    /** The guarded decrement: repairs the counter instead of letting it go negative. */
    function Decrement(o: OutputId): Counters {
      if Count(o) <= 0 then Counters(pending[o := 0], repairs + 1) else this.(pending := pending[o := Count(o) - 1])
    }
  }

  datatype Device = Device(
    outputs: set<OutputId>, frames: Frames, counters: Counters, commits: map<nat, Commit>,
    accepting: bool, owner: Option<nat>, shutdown: Shutdown, unplugged: bool, unplugs: nat)

  datatype Action =
    | Accept(thread: nat, commit: nat, touched: set<OutputId>)
    | Fail(commit: nat)
    | CheckPending(commit: nat, output: OutputId)
    | TakeBack(commit: nat)
    | Begin(commit: nat)
    | TakeNew(commit: nat, output: OutputId, fb: Option<Framebuffer>)
    | PublishOutput(commit: nat, swaps: bool)
    | DropOld(commit: nat)
    | DropNew(commit: nat)
    | Finish(commit: nat)
    | Read(reader: nat, output: OutputId)
    | DoneReading(reader: nat)
    | Quiesce(thread: nat)
    | Drained
    | Take(output: OutputId)
    | Drop
    | EndQuiesce
    | Unplug(thread: nat)
    | EndUnplug

  predicate InStage(d: Device, k: nat, stage: Stage) {
    k in d.commits && d.commits[k].stage == stage
  }

  /**
   `Drained` is the one assumption about the DRM helpers: their shutdown returns
   only when no commit is in flight. A thread inside the quiesce submits commits
   only from that shutdown.
   */
  predicate Enabled(d: Device, a: Action) {
    match a
    case Accept(t, k, touched) =>
      && k !in d.commits && touched <= d.outputs
      && (d.accepting || d.owner == Some(t))
      && (d.shutdown.Quiescing? && d.shutdown.thread == t ==> !d.shutdown.drained)
    case Fail(k) => InStage(d, k, Prepared)
    case CheckPending(k, o) => InStage(d, k, Refused(None)) && o in d.commits[k].todo
    case TakeBack(k) => k in d.commits && d.commits[k].stage.Refused? && d.commits[k].stage.checked.Some?
    case Begin(k) => InStage(d, k, Prepared)
    case TakeNew(k, o, _) => InStage(d, k, Between) && o in d.commits[k].todo
    case PublishOutput(k, _) => k in d.commits && d.commits[k].stage.Holding?
    case DropOld(k) => InStage(d, k, Dropping) && Outgoing(k) in d.frames.held
    case DropNew(k) => InStage(d, k, Dropping) && Outgoing(k) !in d.frames.held
    case Finish(k) =>
      k in d.commits && d.commits[k].todo == {} && (d.commits[k].stage.Between? || d.commits[k].stage == Refused(None))
    case Read(r, o) => o in d.outputs && Reading(r) !in d.frames.held
    case DoneReading(r) => Reading(r) in d.frames.held
    case Quiesce(_) => d.shutdown.Idle?
    case Drained => d.shutdown.Quiescing? && !d.shutdown.drained && d.commits == map[]
    case Take(o) =>
      && ((d.shutdown.Quiescing? && d.shutdown.drained) || d.shutdown.Unplugging?)
      && o in d.shutdown.toRelease && Releasing !in d.frames.held
    case Drop => Releasing in d.frames.held
    case EndQuiesce => d.shutdown.Quiescing? && d.shutdown.drained && d.shutdown.toRelease == {} &&
                       Releasing !in d.frames.held
    case Unplug(_) => d.shutdown.Idle? && !d.accepting
    case EndUnplug => d.shutdown.Unplugging? && d.shutdown.toRelease == {} && Releasing !in d.frames.held
  }

  function SetStage(commits: map<nat, Commit>, k: nat, stage: Stage): map<nat, Commit>
    requires k in commits
  {
    commits[k := commits[k].(stage := stage)]
  }

  /** The commit no longer counts as pending on this output. */
  function Settle(commits: map<nat, Commit>, k: nat, o: OutputId, stage: Stage): map<nat, Commit>
    requires k in commits
  {
    commits[k := Commit(commits[k].todo - {o}, stage)]
  }

  function Next(d: Device, a: Action): Device
    requires Enabled(d, a)
  {
    match a
    case Accept(t, k, touched) => d.(commits := d.commits[k := Commit(touched, Prepared)],
                                     counters := d.counters.Add(touched))
    case Fail(k) => d.(commits := SetStage(d.commits, k, Refused(None)))
    case CheckPending(k, o) =>
      if d.counters.Count(o) <= 0
      then d.(counters := d.counters.Decrement(o), commits := Settle(d.commits, k, o, Refused(None)))
      else d.(commits := SetStage(d.commits, k, Refused(Some(o))))
    case TakeBack(k) =>
      var o := d.commits[k].stage.checked.value;
      d.(counters := d.counters.(pending := d.counters.pending[o := d.counters.Count(o) - 1]),
         commits := Settle(d.commits, k, o, Refused(None)))
    case Begin(k) => d.(commits := SetStage(d.commits, k, Between))
    case TakeNew(k, o, fb) =>
      d.(frames := if fb.Some? then d.frames.Get(Incoming(k), fb.value) else d.frames,
         commits := SetStage(d.commits, k, Holding(o)))
    case PublishOutput(k, swaps) =>
      var o := d.commits[k].stage.output;
      d.(frames := if swaps then d.frames.Swap(k, o) else d.frames,
         counters := d.counters.Decrement(o), commits := Settle(d.commits, k, o, Dropping))
    case DropOld(k) => d.(frames := d.frames.Put(Outgoing(k)))
    case DropNew(k) => d.(frames := d.frames.Put(Incoming(k)), commits := SetStage(d.commits, k, Between))
    case Finish(k) => d.(commits := d.commits - {k})
    case Read(r, o) =>
      if Shown(o) in d.frames.held then d.(frames := d.frames.Get(Reading(r), d.frames.held[Shown(o)])) else d
    case DoneReading(r) => d.(frames := d.frames.Put(Reading(r)))
    case Quiesce(t) =>
      if !d.accepting then d else d.(accepting := false, owner := Some(t), shutdown := Quiescing(t, false, d.outputs))
    case Drained => d.(shutdown := d.shutdown.(drained := true))
    case Take(o) =>
      d.(frames := d.frames.Move(Shown(o), Releasing), shutdown := d.shutdown.(toRelease := d.shutdown.toRelease - {o}))
    case Drop => d.(frames := d.frames.Put(Releasing))
    case EndQuiesce => d.(owner := None, shutdown := Idle)
    case Unplug(t) => if d.unplugged then d else d.(unplugged := true, shutdown := Unplugging(t, d.outputs))
    case EndUnplug => d.(unplugs := d.unplugs + 1, shutdown := Idle)
  }

  predicate Initial(d: Device) {
    && d.frames == Frames(map[], map[]) && d.counters == Counters(map[], 0) && d.commits == map[]
    && d.accepting && d.owner == None && d.shutdown.Idle? && !d.unplugged && d.unplugs == 0
  }

  predicate IsRun(d: Device, actions: seq<Action>)
    decreases |actions|
  {
    actions == [] || (Enabled(d, actions[0]) && IsRun(Next(d, actions[0]), actions[1..]))
  }

  function After(d: Device, actions: seq<Action>): Device
    requires IsRun(d, actions)
    decreases |actions|
  {
    if actions == [] then d else After(Next(d, actions[0]), actions[1..])
  }

  // ---------------------------------------------------------------- references

  /** The variables that refer to this framebuffer. */
  ghost function HoldersOf(held: map<Holder, Framebuffer>, fb: Framebuffer): set<Holder> {
    set h | h in held && held[h] == fb
  }

  /** References held are exactly the variables that refer: outputs, readers, tails and the shutdown path. */
  ghost predicate ReferencesConserved(f: Frames) {
    forall fb: Framebuffer :: f.References(fb) == |HoldersOf(f.held, fb)|
  }

  lemma HolderGained(held: map<Holder, Framebuffer>, h: Holder, fb: Framebuffer, x: Framebuffer)
    requires h !in held
    ensures |HoldersOf(held[h := fb], x)| == |HoldersOf(held, x)| + if x == fb then 1 else 0
  {
    var more := held[h := fb];
    forall y ensures y in HoldersOf(more, x) <==> y in HoldersOf(held, x) || (x == fb && y == h) {
    }
    assert HoldersOf(more, x) == if x == fb then HoldersOf(held, x) + {h} else HoldersOf(held, x);
  }

  lemma HolderLost(held: map<Holder, Framebuffer>, h: Holder, x: Framebuffer)
    requires h in held
    ensures |HoldersOf(held - {h}, x)| == |HoldersOf(held, x)| - if x == held[h] then 1 else 0
  {
    if x == held[h] {
      assert HoldersOf(held - {h}, x) == HoldersOf(held, x) - {h};
    } else {
      assert HoldersOf(held - {h}, x) == HoldersOf(held, x);
    }
  }

  lemma GetConserves(f: Frames, h: Holder, fb: Framebuffer)
    requires ReferencesConserved(f) && h !in f.held
    ensures ReferencesConserved(f.Get(h, fb))
  {
    hide HoldersOf;
    forall x: Framebuffer ensures f.Get(h, fb).References(x) == |HoldersOf(f.Get(h, fb).held, x)| {
      HolderGained(f.held, h, fb, x);
    }
  }

  lemma PutConserves(f: Frames, h: Holder)
    requires ReferencesConserved(f)
    ensures ReferencesConserved(f.Put(h))
  {
    hide HoldersOf;
    if h in f.held {
      forall x: Framebuffer ensures f.Put(h).References(x) == |HoldersOf(f.Put(h).held, x)| {
        HolderLost(f.held, h, x);
      }
    }
  }

  /** Moving a pointer into an empty variable leaves every count right without touching it. */
  lemma MoveConserves(f: Frames, from: Holder, to: Holder)
    requires ReferencesConserved(f) && to !in f.held && from != to
    ensures ReferencesConserved(f.Move(from, to))
  {
    hide HoldersOf;
    if from in f.held {
      forall x: Framebuffer ensures f.Move(from, to).References(x) == |HoldersOf(f.Move(from, to).held, x)| {
        HolderLost(f.held, from, x);
        HolderGained(f.held - {from}, to, f.held[from], x);
      }
    } else {
      assert f.held - {to} == f.held;
    }
  }

  lemma SwapConserves(f: Frames, k: nat, o: OutputId)
    requires ReferencesConserved(f) && Outgoing(k) !in f.held
    ensures ReferencesConserved(f.Swap(k, o))
  {
    hide ReferencesConserved;
    MoveConserves(f, Shown(o), Outgoing(k));
    MoveConserves(f.Move(Shown(o), Outgoing(k)), Incoming(k), Shown(o));
  }

  /** A tail's variables are empty outside the stages that use them. */
  ghost predicate HoldersPlaced(d: Device) {
    && (forall k | Incoming(k) in d.frames.held ::
          k in d.commits && (d.commits[k].stage.Holding? || d.commits[k].stage.Dropping?))
    && (forall k | Outgoing(k) in d.frames.held :: k in d.commits && d.commits[k].stage.Dropping?)
    && (forall k | k in d.commits && d.commits[k].stage.Holding? :: d.commits[k].stage.output in d.commits[k].todo)
  }

  lemma ReferencesNext(d: Device, a: Action)
    requires ReferencesConserved(d.frames) && HoldersPlaced(d) && Enabled(d, a)
    ensures ReferencesConserved(Next(d, a).frames)
  {
    hide ReferencesConserved;
    match a
    case TakeNew(k, o, fb) =>
      if fb.Some? {
        GetConserves(d.frames, Incoming(k), fb.value);
      }
    case PublishOutput(k, swaps) => SwapConserves(d.frames, k, d.commits[k].stage.output);
    case DropOld(k) => PutConserves(d.frames, Outgoing(k));
    case DropNew(k) => PutConserves(d.frames, Incoming(k));
    case Read(r, o) =>
      if Shown(o) in d.frames.held {
        GetConserves(d.frames, Reading(r), d.frames.held[Shown(o)]);
      }
    case DoneReading(r) => PutConserves(d.frames, Reading(r));
    case Take(o) => MoveConserves(d.frames, Shown(o), Releasing);
    case Drop => PutConserves(d.frames, Releasing);
    case _ =>
  }

  lemma PublishHolders(d: Device, k: nat, swaps: bool)
    requires HoldersPlaced(d) && Enabled(d, PublishOutput(k, swaps))
    ensures HoldersPlaced(Next(d, PublishOutput(k, swaps)))
  {
  }

  lemma DropHolders(d: Device, a: Action)
    requires HoldersPlaced(d) && Enabled(d, a) && (a.TakeNew? || a.DropOld? || a.DropNew?)
    ensures HoldersPlaced(Next(d, a))
  {
  }

  lemma CommitHolders(d: Device, a: Action)
    requires HoldersPlaced(d) && Enabled(d, a)
    requires a.Accept? || a.Fail? || a.CheckPending? || a.TakeBack? || a.Begin? || a.Finish?
    ensures HoldersPlaced(Next(d, a))
  {
  }

  lemma OtherHolders(d: Device, a: Action)
    requires HoldersPlaced(d) && Enabled(d, a)
    requires a.Read? || a.DoneReading? || a.Quiesce? || a.Drained? || a.Take? || a.Drop? || a.EndQuiesce? ||
             a.Unplug? || a.EndUnplug?
    ensures HoldersPlaced(Next(d, a))
  {
  }

  lemma HoldersNext(d: Device, a: Action)
    requires HoldersPlaced(d) && Enabled(d, a)
    ensures HoldersPlaced(Next(d, a))
  {
    hide HoldersPlaced, Enabled, Next;
    if a.PublishOutput? {
      PublishHolders(d, a.commit, a.swaps);
    } else if a.TakeNew? || a.DropOld? || a.DropNew? {
      DropHolders(d, a);
    } else if a.Accept? || a.Fail? || a.CheckPending? || a.TakeBack? || a.Begin? || a.Finish? {
      CommitHolders(d, a);
    } else {
      OtherHolders(d, a);
    }
  }

  // ---------------------------------------------------------------- pending commits

  /** The accepted commits that have not been published on this output. */
  ghost function Unpublished(commits: map<nat, Commit>, o: OutputId): set<nat> {
    set k | k in commits && o in commits[k].todo
  }

  ghost predicate ChecksPlaced(commits: map<nat, Commit>) {
    forall k | k in commits && commits[k].stage.Refused? && commits[k].stage.checked.Some? ::
      commits[k].stage.checked.value in commits[k].todo
  }

  /** The counter is exactly the accepted, unpublished commits, and was never repaired. */
  ghost predicate PendingConserved(n: Counters, commits: map<nat, Commit>) {
    n.repairs == 0 && forall o: OutputId :: n.Count(o) == |Unpublished(commits, o)|
  }

  /** While a commit still counts, the counter is positive, so no repair fires. */
  lemma CountsWhileUnpublished(n: Counters, commits: map<nat, Commit>, k: nat, o: OutputId)
    requires PendingConserved(n, commits) && k in commits && o in commits[k].todo
    ensures n.Count(o) >= 1
  {
    assert k in Unpublished(commits, o);
  }

  lemma SettleConserves(n: Counters, commits: map<nat, Commit>, k: nat, o: OutputId, stage: Stage)
    requires PendingConserved(n, commits) && k in commits && o in commits[k].todo
    ensures n.Decrement(o) == n.(pending := n.pending[o := n.Count(o) - 1])
    ensures PendingConserved(n.Decrement(o), Settle(commits, k, o, stage))
  {
    var commits' := Settle(commits, k, o, stage);
    CountsWhileUnpublished(n, commits, k, o);
    forall x: OutputId ensures n.Decrement(o).Count(x) == |Unpublished(commits', x)| {
      assert Unpublished(commits', x) == Unpublished(commits, x) - if x == o then {k} else {};
    }
  }

  lemma SamePending(n: Counters, commits: map<nat, Commit>, commits': map<nat, Commit>)
    requires PendingConserved(n, commits)
    requires forall k | k in commits' :: k in commits && commits'[k].todo == commits[k].todo
    requires forall k | k in commits && k !in commits' :: commits[k].todo == {}
    ensures PendingConserved(n, commits')
  {
    forall o: OutputId ensures n.Count(o) == |Unpublished(commits', o)| {
      assert Unpublished(commits', o) == Unpublished(commits, o);
    }
  }

  lemma AcceptCounts(commits: map<nat, Commit>, k: nat, touched: set<OutputId>, x: OutputId)
    requires k !in commits
    ensures var commits' := commits[k := Commit(touched, Prepared)];
            |Unpublished(commits', x)| == |Unpublished(commits, x)| + if x in touched then 1 else 0
  {
    var commits' := commits[k := Commit(touched, Prepared)];
    assert k !in Unpublished(commits, x);
    if x in touched {
      assert Unpublished(commits', x) == Unpublished(commits, x) + {k};
    } else {
      assert Unpublished(commits', x) == Unpublished(commits, x);
    }
  }

  lemma AcceptConserves(n: Counters, commits: map<nat, Commit>, k: nat, touched: set<OutputId>)
    requires PendingConserved(n, commits) && k !in commits
    ensures PendingConserved(n.Add(touched), commits[k := Commit(touched, Prepared)])
  {
    hide Unpublished;
    var commits' := commits[k := Commit(touched, Prepared)];
    forall x: OutputId ensures n.Add(touched).Count(x) == |Unpublished(commits', x)| {
      AcceptCounts(commits, k, touched, x);
    }
  }

  lemma PendingOthers(d: Device, a: Action)
    requires PendingConserved(d.counters, d.commits) && ChecksPlaced(d.commits) && Enabled(d, a)
    requires !a.Accept? && !a.CheckPending? && !a.TakeBack? && !a.PublishOutput?
    ensures PendingConserved(Next(d, a).counters, Next(d, a).commits) && ChecksPlaced(Next(d, a).commits)
  {
    hide PendingConserved;
    SamePending(d.counters, d.commits, Next(d, a).commits);
  }

  lemma PublishPending(d: Device, k: nat, swaps: bool)
    requires PendingConserved(d.counters, d.commits) && ChecksPlaced(d.commits) && HoldersPlaced(d)
    requires Enabled(d, PublishOutput(k, swaps))
    ensures var d' := Next(d, PublishOutput(k, swaps));
            PendingConserved(d'.counters, d'.commits) && ChecksPlaced(d'.commits)
  {
    hide PendingConserved;
    SettleConserves(d.counters, d.commits, k, d.commits[k].stage.output, Dropping);
  }

  lemma PendingNext(d: Device, a: Action)
    requires PendingConserved(d.counters, d.commits) && ChecksPlaced(d.commits) && HoldersPlaced(d) && Enabled(d, a)
    ensures PendingConserved(Next(d, a).counters, Next(d, a).commits) && ChecksPlaced(Next(d, a).commits)
  {
    hide PendingConserved, HoldersPlaced;
    match a
    case Accept(t, k, touched) => AcceptConserves(d.counters, d.commits, k, touched);
    case CheckPending(k, o) =>
      CountsWhileUnpublished(d.counters, d.commits, k, o);
      SamePending(d.counters, d.commits, SetStage(d.commits, k, Refused(Some(o))));
    case TakeBack(k) => SettleConserves(d.counters, d.commits, k, d.commits[k].stage.checked.value, Refused(None));
    case PublishOutput(k, swaps) => PublishPending(d, k, swaps);
    case _ => PendingOthers(d, a);
  }

  // ---------------------------------------------------------------- quiesce and unplug

  /** Nothing is shown on an output, and no commit is under way. */
  ghost predicate Quiet(d: Device, o: OutputId) {
    Shown(o) !in d.frames.held && d.commits == map[]
  }

  ghost predicate ShutdownInv(d: Device) {
    && (d.shutdown.Idle? ==> d.owner == None)
    && (d.shutdown.Quiescing? ==> !d.accepting && d.owner == Some(d.shutdown.thread))
    && (d.shutdown.Quiescing? && !d.shutdown.drained ==> d.shutdown.toRelease == d.outputs)
    && (d.shutdown.Unplugging? ==> !d.accepting && d.owner == None && d.unplugged && d.unplugs == 0)
    && (d.unplugged ==> !d.accepting && !d.shutdown.Quiescing?)
    && (!d.unplugged ==> d.unplugs == 0) && (d.unplugged && !d.shutdown.Unplugging? ==> d.unplugs == 1)
    && (d.shutdown.Quiescing? && d.shutdown.drained ==>
          d.commits == map[] && forall o | o in d.outputs && o !in d.shutdown.toRelease :: Quiet(d, o))
    && (!d.accepting && !d.shutdown.Quiescing? ==> d.commits == map[] && forall o | o in d.outputs :: Quiet(d, o))
  }

  ghost predicate SameShutdown(d: Device, d': Device) {
    && d'.outputs == d.outputs && d'.accepting == d.accepting && d'.owner == d.owner && d'.shutdown == d.shutdown
    && d'.unplugged == d.unplugged && d'.unplugs == d.unplugs
  }

  /** While commits can still be under way nothing is promised about what is shown. */
  lemma BusyStep(d: Device, d': Device)
    requires ShutdownInv(d) && SameShutdown(d, d') && (d.accepting || (d.shutdown.Quiescing? && !d.shutdown.drained))
    ensures ShutdownInv(d')
  {
  }

  lemma ShowsNoMore(d: Device, d': Device)
    requires ShutdownInv(d) && SameShutdown(d, d') && d'.commits == d.commits
    requires forall o | Shown(o) in d'.frames.held :: Shown(o) in d.frames.held
    ensures ShutdownInv(d')
  {
  }

  lemma ShutdownNext(d: Device, a: Action)
    requires ShutdownInv(d) && Enabled(d, a)
    ensures ShutdownInv(Next(d, a))
  {
    var d' := Next(d, a);
    if a.Read? || a.DoneReading? || a.Drop? {
      ShowsNoMore(d, d');
    } else if !(a.Quiesce? || a.Drained? || a.Take? || a.EndQuiesce? || a.Unplug? || a.EndUnplug?) {
      BusyStep(d, d');
    }
  }

  ghost predicate DeviceInv(d: Device) {
    && ReferencesConserved(d.frames) && HoldersPlaced(d)
    && PendingConserved(d.counters, d.commits) && ChecksPlaced(d.commits) && ShutdownInv(d)
  }

  lemma NextDeviceInv(d: Device, a: Action)
    requires DeviceInv(d) && Enabled(d, a)
    ensures DeviceInv(Next(d, a)) && Next(d, a).outputs == d.outputs
  {
    hide ReferencesConserved, HoldersPlaced, PendingConserved, ChecksPlaced, ShutdownInv, Enabled, Next;
    ReferencesNext(d, a);
    HoldersNext(d, a);
    PendingNext(d, a);
    ShutdownNext(d, a);
    SameOutputs(d, a);
  }

  lemma SameOutputs(d: Device, a: Action)
    requires Enabled(d, a)
    ensures Next(d, a).outputs == d.outputs
  {
  }

  lemma {:induction false} RunDeviceInv(d: Device, actions: seq<Action>)
    requires DeviceInv(d) && IsRun(d, actions)
    ensures DeviceInv(After(d, actions))
    decreases |actions|
  {
    hide Next, Enabled, ReferencesConserved, HoldersPlaced, PendingConserved, ShutdownInv;
    if actions != [] {
      NextDeviceInv(d, actions[0]);
      RunDeviceInv(Next(d, actions[0]), actions[1..]);
    }
  }

  lemma InitialDeviceInv(d: Device)
    requires Initial(d)
    ensures DeviceInv(d)
  {
  }

  /**
   After every interleaving from a fresh device: each framebuffer is referenced
   exactly as often as outputs, readers, tails and the shutdown path refer to it;
   each pending counter is exactly the accepted, unpublished commits of its
   output, and was never repaired; and the device was unplugged at most once.
   */
  lemma EverythingConserved(d: Device, actions: seq<Action>, fb: Framebuffer, o: OutputId)
    requires Initial(d) && IsRun(d, actions)
    ensures var d' := After(d, actions);
            && d'.frames.References(fb) == |HoldersOf(d'.frames.held, fb)|
            && d'.counters.Count(o) == |Unpublished(d'.commits, o)|
            && d'.counters.repairs == 0 && d'.unplugs <= 1
  {
    InitialDeviceInv(d);
    RunDeviceInv(d, actions);
  }

  /** Once a quiesce has returned, it stays so that nothing is accepted, in flight or shown. */
  ghost predicate Quiesced(d: Device) {
    !d.accepting && !d.shutdown.Quiescing?
  }

  lemma QuiescedNext(d: Device, a: Action)
    requires DeviceInv(d) && Quiesced(d) && Enabled(d, a)
    ensures Quiesced(Next(d, a)) && !a.Accept? && !a.PublishOutput?
  {
  }

  /** Whatever runs after a quiesce has returned, no buffer is published again. */
  lemma {:induction false} NothingShownAfterQuiesce(d: Device, actions: seq<Action>, o: OutputId)
    requires DeviceInv(d) && Quiesced(d) && IsRun(d, actions) && o in d.outputs
    ensures Quiesced(After(d, actions)) && Quiet(After(d, actions), o)
    ensures forall i | 0 <= i < |actions| :: !actions[i].Accept? && !actions[i].PublishOutput?
    decreases |actions|
  {
    hide Next, Enabled, ReferencesConserved, HoldersPlaced, PendingConserved;
    if actions != [] {
      var d' := Next(d, actions[0]);
      NextDeviceInv(d, actions[0]);
      QuiescedNext(d, actions[0]);
      NothingShownAfterQuiesce(d', actions[1..], o);
    }
  }
}

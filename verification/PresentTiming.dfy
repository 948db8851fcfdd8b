/** The timestamp of each presented commit: latched at its own completion, or a fallback. */
module PresentTiming {
  import opened Wrappers

  /** A commit's timing record; time zero means that none was latched. */
  datatype Timing = Timing(timestamp: nat, pending: bool)

  const UNARMED := Timing(0, false)

  function Armed(): Timing {
    Timing(0, true)
  }

  function Complete(timing: Timing, timestamp: nat): Timing {
    if !timing.pending || timestamp == 0 then timing else Timing(timestamp, false)
  }

  /** How a flush is completed: at once, or by a later vblank wired to the commit's flip completion. */
  datatype FlushKind = NoEvent | NoVblank | Untracked | Tracked

  datatype Event =
    | Flush(flushed: nat, kind: FlushKind, flushNow: nat)
    | Vblank(handled: bool, flipDone: bool, drmTime: nat, vblankNow: nat)
    | Publish(published: Option<nat>, fallback: nat)

  /** One output: the timing of each commit's state, and the commit awaiting its flip, if any. */
  datatype Output = Output(timings: map<nat, Timing>, slot: Option<nat>)
  {
    function TimingOf(commit: nat): Timing {
      if commit in timings then timings[commit] else UNARMED
    }
  }

  function VblankTime(e: Event): nat
    requires e.Vblank?
  {
    if e.drmTime != 0 then e.drmTime else e.vblankNow
  }

  function Step(o: Output, e: Event): Output {
    match e
    case Flush(c, kind, now) =>
      if kind == Tracked then Output(o.timings[c := Armed()], Some(c))
      else o.(timings := o.timings[c := Complete(Armed(), now)])
    case Vblank(handled, flipDone, _, _) =>
      if !handled || o.slot.None? || !flipDone then o
      else Output(o.timings[o.slot.value := Complete(o.TimingOf(o.slot.value), VblankTime(e))], None)
    case Publish(commit, _) =>
      if commit.None? then o
      else Output(o.timings[commit.value := o.TimingOf(commit.value).(pending := false)],
                  if o.slot == commit then None else o.slot)
  }

  /** The timestamp a publication reports. */
  function PublishedTime(o: Output, commit: Option<nat>, fallback: nat): nat {
    if commit.None? || o.TimingOf(commit.value).timestamp == 0 then fallback else o.TimingOf(commit.value).timestamp
  }

  function After(log: seq<Event>): Output
    decreases |log|
  {
    if log == [] then Output(map[], None) else Step(After(log[..|log| - 1]), log[|log| - 1])
  }

  class PresentOutput {
    var timings: map<nat, Timing>
    var slot: Option<nat>

    ghost function Contents(): Output
      reads this
    {
      Output(timings, slot)
    }

    constructor ()
      ensures Contents() == After([])
    {
      timings, slot := map[], None;
    }

    method AtomicFlush(commit: nat, kind: FlushKind, now: nat)
      modifies this
      ensures Contents() == Step(old(Contents()), Flush(commit, kind, now))
    {
      var timing := Armed();
      match kind {
        case Tracked => slot := Some(commit);
        case NoEvent => timing := Complete(timing, now);
        case NoVblank => timing := Complete(timing, now);
        case Untracked => timing := Complete(timing, now);
      }
      timings := timings[commit := timing];
    }

    method HandleVblank(handled: bool, flipDone: bool, drmTime: nat, now: nat) returns (ok: bool)
      modifies this
      ensures ok == handled
      ensures Contents() == Step(old(Contents()), Vblank(handled, flipDone, drmTime, now))
    {
      if !handled { return false; }
      if slot.Some? && flipDone {
        var commit, time := slot.value, drmTime;
        if time == 0 {
          time := now;
        }
        timings := timings[commit := Complete(if commit in timings then timings[commit] else UNARMED, time)];
        slot := None;
      }
      return true;
    }

    method TakeTimestamp(commit: Option<nat>, now: nat) returns (timestamp: nat)
      modifies this
      ensures timestamp == PublishedTime(old(Contents()), commit, now)
      ensures Contents() == Step(old(Contents()), Publish(commit, now))
    {
      if commit.None? { return now; }
      if slot == commit {
        slot := None;
      }
      var timing := if commit.value in timings then timings[commit.value] else UNARMED;
      timings := timings[commit.value := timing.(pending := false)];
      return if timing.timestamp != 0 then timing.timestamp else now;
    }
  }

  // ---------------------------------------------------------------- the log, read by itself

  ghost predicate Flushes(e: Event, c: nat) {
    e.Flush? && e.flushed == c
  }

  ghost predicate Tracks(e: Event, c: nat) {
    Flushes(e, c) && e.kind == Tracked
  }

  ghost predicate Publishes(e: Event, c: nat) {
    e.Publish? && e.published == Some(c)
  }

  /** A vblank that finds the awaited flip done. */
  ghost predicate Completes(e: Event) {
    e.Vblank? && e.handled && e.flipDone
  }

  ghost predicate Detaches(e: Event, c: nat) {
    Completes(e) || Publishes(e, c)
  }

  /** `c` was flushed for a later vblank, which has not come, and was not published either. */
  ghost predicate Awaiting(log: seq<Event>, c: nat) {
    exists j | 0 <= j < |log| :: Tracks(log[j], c) && Undetached(log, j, |log|, c)
  }

  ghost predicate Undetached(log: seq<Event>, j: nat, end: nat, c: nat)
    requires end <= |log|
  {
    forall k | j < k < end :: !Detaches(log[k], c)
  }

  /** Event `i` is the completion of commit `c` itself. */
  ghost predicate OwnCompletion(log: seq<Event>, i: nat, c: nat)
    requires i < |log|
  {
    || (Flushes(log[i], c) && log[i].kind != Tracked)
    || (Completes(log[i]) && exists j | 0 <= j < i :: Tracks(log[j], c) && Undetached(log, j, i, c))
  }

  ghost function CompletionTime(e: Event): nat
    requires e.Flush? || e.Vblank?
  {
    if e.Flush? then e.flushNow else if e.drmTime != 0 then e.drmTime else e.vblankNow
  }

  /** A commit is flushed once, before it is published, and after every commit flushed before it was published. */
  ghost predicate Serialized(log: seq<Event>) {
    forall j, k | 0 <= k < j < |log| && log[j].Flush? ::
      && !Publishes(log[k], log[j].flushed)
      && (log[k].Flush? ==> log[k].flushed != log[j].flushed && PublishedBetween(log, k, j, log[k].flushed))
  }

  ghost predicate PublishedBetween(log: seq<Event>, k: nat, j: nat, c: nat)
    requires j <= |log|
  {
    exists m | k < m < j :: Publishes(log[m], c)
  }

  // ---------------------------------------------------------------- the output tells what the log says

  ghost predicate SlotAgrees(log: seq<Event>) {
    forall c: nat :: (After(log).slot == Some(c) <==> Awaiting(log, c)) &&
      (Awaiting(log, c) ==> After(log).TimingOf(c) == Armed())
  }

  ghost predicate StampAgrees(log: seq<Event>, c: nat) {
    && (forall i | 0 <= i < |log| && OwnCompletion(log, i, c) ::
          After(log).TimingOf(c).timestamp == CompletionTime(log[i]))
    && ((forall i | 0 <= i < |log| :: !OwnCompletion(log, i, c)) ==> After(log).TimingOf(c).timestamp == 0)
  }

  lemma OwnCompletionExtends(log: seq<Event>, e: Event, c: nat)
    ensures forall i | 0 <= i < |log| :: OwnCompletion(log + [e], i, c) <==> OwnCompletion(log, i, c)
    ensures OwnCompletion(log + [e], |log|, c) <==>
              (Flushes(e, c) && e.kind != Tracked) || (Completes(e) && Awaiting(log, c))
  {
    var log' := log + [e];
    forall i, j | 0 <= j < i <= |log| ensures Undetached(log', j, i, c) <==> Undetached(log, j, i, c) {
      assert forall k | j < k < i :: log'[k] == log[k];
    }
    assert forall i | 0 <= i < |log| :: log'[i] == log[i];
  }

  lemma SerializedPrefix(log: seq<Event>, e: Event)
    requires Serialized(log + [e])
    ensures Serialized(log)
  {
    var log' := log + [e];
    forall j, k | 0 <= k < j < |log| && log[j].Flush?
      ensures !Publishes(log[k], log[j].flushed)
      ensures log[k].Flush? ==> log[k].flushed != log[j].flushed && PublishedBetween(log, k, j, log[k].flushed)
    {
      assert log'[j] == log[j] && log'[k] == log[k];
      if log[k].Flush? {
        var m :| k < m < j && Publishes(log'[m], log[k].flushed);
        assert Publishes(log[m], log[k].flushed);
      }
    }
  }

  /** When a commit is flushed nothing awaits, and nothing about the commit itself has happened yet. */
  lemma NothingAwaitsAtFlush(log: seq<Event>, e: Event, c: nat)
    requires Serialized(log + [e]) && e.Flush?
    ensures !Awaiting(log, c)
    ensures forall i | 0 <= i < |log| :: !OwnCompletion(log, i, e.flushed)
  {
    var log' := log + [e];
    assert log'[|log|] == e;
    forall k | 0 <= k < |log| && log[k].Flush?
      ensures log[k].flushed != e.flushed && PublishedBetween(log', k, |log|, log[k].flushed)
    {
      assert log'[k] == log[k];
    }
  }

  /** While a commit awaits its vblank it has had no completion. */
  lemma AwaitingNotCompleted(log: seq<Event>, c: nat, i: nat)
    requires Serialized(log) && Awaiting(log, c) && i < |log|
    ensures !OwnCompletion(log, i, c)
  {
  }

  lemma SlotStep(log: seq<Event>, e: Event)
    requires Serialized(log + [e]) && SlotAgrees(log)
    ensures SlotAgrees(log + [e])
  {
  }

  lemma StampStep(log: seq<Event>, e: Event, c: nat)
    requires Serialized(log + [e]) && SlotAgrees(log) && StampAgrees(log, c)
    ensures StampAgrees(log + [e], c)
  {
    hide Awaiting, OwnCompletion, Serialized, Detaches;
    var log' := log + [e];
    assert log'[..|log|] == log;
    SerializedPrefix(log, e);
    OwnCompletionExtends(log, e, c);
    if e.Flush? {
      NothingAwaitsAtFlush(log, e, c);
    } else if Completes(e) && Awaiting(log, c) {
      forall i | 0 <= i < |log| ensures !OwnCompletion(log, i, c) {
        AwaitingNotCompleted(log, c, i);
      }
      assert After(log').TimingOf(c).timestamp == CompletionTime(e);
    }
  }

  lemma {:induction false} OutputAgrees(log: seq<Event>)
    requires Serialized(log)
    ensures SlotAgrees(log) && forall c: nat :: StampAgrees(log, c)
    decreases |log|
  {
    hide SlotAgrees, StampAgrees, Serialized;
    if log == [] {
      EmptyAgrees();
    } else {
      var rest, e := log[..|log| - 1], log[|log| - 1];
      assert rest + [e] == log;
      SerializedPrefix(rest, e);
      OutputAgrees(rest);
      SlotStep(rest, e);
      forall c: nat ensures StampAgrees(log, c) {
        StampStep(rest, e, c);
      }
    }
  }

  lemma EmptyAgrees()
    ensures SlotAgrees([]) && forall c: nat :: StampAgrees([], c)
  {
  }

  /**
   In every run in which a commit's flush follows the publication of the commits
   before it, the published timestamp is that of the commit's own completion, or
   the fallback if it had none (a clock that reads zero latches nothing).
   */
  lemma PublishedTimestamp(log: seq<Event>, c: nat, fallback: nat)
    requires Serialized(log)
    ensures var time := PublishedTime(After(log), Some(c), fallback);
            && (forall i | 0 <= i < |log| && OwnCompletion(log, i, c) ::
                  time == if CompletionTime(log[i]) != 0 then CompletionTime(log[i]) else fallback)
            && ((forall i | 0 <= i < |log| :: !OwnCompletion(log, i, c)) ==> time == fallback)
  {
    OutputAgrees(log);
    assert StampAgrees(log, c);
  }

  /** An event that neither flushes the commit nor completes it leaves its latched time alone. */
  lemma LatchedTimeStays(o: Output, e: Event, c: nat)
    requires o.slot != Some(c) && !Flushes(e, c)
    ensures Step(o, e).TimingOf(c).timestamp == o.TimingOf(c).timestamp
  {
  }

  /** After its publication a commit is not flushed. */
  lemma NotFlushedAfterwards(log: seq<Event>, i: nat, e: Event, c: nat)
    requires Serialized(log + [e]) && i < |log| && Publishes(log[i], c)
    ensures !Flushes(e, c)
  {
    assert (log + [e])[|log|] == e && (log + [e])[i] == log[i];
  }

  /**
   Nothing that happens after a commit has been published, with whatever fallback, changes the time
   latched for it.
   */
  lemma {:induction false} PublishedTimestampIsFinal(log: seq<Event>, more: seq<Event>, c: nat, fallback: nat)
    requires Serialized(log + [Publish(Some(c), fallback)] + more)
    ensures var base := log + [Publish(Some(c), fallback)];
            && After(base + more).TimingOf(c).timestamp == After(log).TimingOf(c).timestamp
            && PublishedTime(After(base + more), Some(c), fallback) == PublishedTime(After(log), Some(c), fallback)
    decreases |more|
  {
    hide Serialized, SlotAgrees, StampAgrees;
    var base := log + [Publish(Some(c), fallback)];
    if more == [] {
      assert base + more == base && base[..|log|] == log;
    } else {
      var rest, e := more[..|more| - 1], more[|more| - 1];
      assert base + more == (base + rest) + [e];
      assert (base + more)[..|base + more| - 1] == base + rest && (base + rest)[|log|] == Publish(Some(c), fallback);
      SerializedPrefix(base + rest, e);
      PublishedTimestampIsFinal(log, rest, c, fallback);
      SlotNeverPublished(base + rest, |log|, c);
      NotFlushedAfterwards(base + rest, |log|, e, c);
      LatchedTimeStays(After(base + rest), e, c);
    }
  }

  /** The pending slot never names a published commit. */
  lemma SlotNeverPublished(log: seq<Event>, i: nat, c: nat)
    requires Serialized(log) && i < |log| && Publishes(log[i], c)
    ensures After(log).slot != Some(c)
  {
  }

  /** The pending slot is empty at each flush: its overwrite warning never fires. */
  lemma SlotEmptyAtFlush(log: seq<Event>, e: Event)
    requires Serialized(log + [e]) && e.Flush?
    ensures After(log).slot == None
  {
    SerializedPrefix(log, e);
    OutputAgrees(log);
    if After(log).slot.Some? {
      NothingAwaitsAtFlush(log, e, After(log).slot.value);
    }
  }
}

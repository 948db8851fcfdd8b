/** The bounded presentation trace of one output, as a window on an unbounded log. */
module PresentTrace {
  import opened Wrappers

  const HISTORY: nat := 4096
  const MAX_EVENTS: nat := 64
  const U64_MAX: nat := 0xFFFF_FFFF_FFFF_FFFF

  datatype TraceEvent = TraceEvent(sequence: nat, timestamp: nat)

  /** What a drain hands back. */
  datatype Batch = Batch(events: seq<TraceEvent>, newest: nat, overflow: bool)

  /** Events are numbered from one, in order. */
  ghost predicate Numbered(log: seq<TraceEvent>) {
    forall i | 0 <= i < |log| :: log[i].sequence == i + 1
  }

  /** How many of the first events have been overwritten. */
  function Overwritten(count: nat): nat {
    if count >= HISTORY then count - HISTORY else 0
  }

  /** The batch an unbounded log would give: up to 64 events after `after`, from the retained ones. */
  function Drained(log: seq<TraceEvent>, after: nat): Batch {
    var lost := Overwritten(|log|);
    var first := if after < lost then lost else after;
    Batch(if first >= |log| then [] else if |log| - first <= MAX_EVENTS then log[first..]
          else log[first..first + MAX_EVENTS],
          |log|, after < lost)
  }

  class TraceRing {
    const slots: array<TraceEvent>
    var sequence: nat
    ghost var log: seq<TraceEvent>

    ghost predicate Valid()
      reads this, slots
    {
      && slots.Length == HISTORY && sequence == |log| && Numbered(log)
      && forall i | Overwritten(|log|) <= i < |log| :: slots[i % HISTORY] == log[i]
    }

    constructor ()
      ensures Valid() && log == [] && fresh(slots)
    {
      slots := new TraceEvent[HISTORY](_ => TraceEvent(0, 0));
      sequence, log := 0, [];
    }

    method Publish(timestamp: nat)
      requires Valid()
      modifies this, slots
      ensures Valid() && log == old(log) + [TraceEvent(old(|log|) + 1, timestamp)]
    {
      sequence := sequence + 1;
      slots[(sequence - 1) % HISTORY] := TraceEvent(sequence, timestamp);
      log := log + [TraceEvent(sequence, timestamp)];
      forall i | Overwritten(|log|) <= i < |log| - 1 ensures slots[i % HISTORY] == log[i] {
        SlotsApart(i, |log| - 1);
      }
    }

    /** The slot check never fails, so a batch has no holes and the flag means what was overwritten. */
    method Drain(after: nat) returns (batch: Option<Batch>)
      requires Valid()
      ensures batch == if after == U64_MAX then None else Some(Drained(log, after))
    {
      if after == U64_MAX { return None; }
      var first, overflow := after + 1, false;
      if sequence >= HISTORY {
        var oldest := sequence - HISTORY + 1;
        if first < oldest {
          first, overflow := oldest, true;
        }
      }
      var events: seq<TraceEvent> := [];
      var next := first;
      while next <= sequence && |events| < MAX_EVENTS
        invariant first <= next && Overwritten(sequence) < first && overflow == (after < Overwritten(|log|))
        invariant next == first + |events| && (next <= sequence + 1 || events == [])
        invariant next <= sequence + 1 ==> events == log[first - 1..next - 1]
        invariant |events| <= MAX_EVENTS
        decreases sequence + 1 - next
      {
        var event := slots[(next - 1) % HISTORY];
        if event.sequence != next {
          overflow := true;
        } else {
          events := events + [event];
        }
        next := next + 1;
      }
      if first <= sequence {
        assert events == log[first - 1..first - 1 + |events|];
        if sequence - first < MAX_EVENTS {
          assert log[first - 1..] == log[first - 1..sequence];
        }
      }
      return Some(Batch(events, sequence, overflow));
    }
  }

  /** Two retained events never share a slot. */
  lemma SlotsApart(i: nat, j: nat)
    requires i < j < i + HISTORY
    ensures i % HISTORY != j % HISTORY
  {
  }

  // ---------------------------------------------------------------- a reader beside a publisher

  datatype TraceStep = Published(timestamp: nat) | Read

  /** A reader that asks for what follows the last event it got. */
  datatype Reader = Reader(log: seq<TraceEvent>, cursor: nat, collected: seq<TraceEvent>, overflowed: bool)

  function ReaderStep(r: Reader, step: TraceStep): Reader {
    match step
    case Published(timestamp) => r.(log := r.log + [TraceEvent(|r.log| + 1, timestamp)])
    case Read =>
      var batch := Drained(r.log, r.cursor);
      Reader(r.log,
             if batch.events == [] then r.cursor else batch.events[|batch.events| - 1].sequence,
             r.collected + batch.events,
             r.overflowed || batch.overflow)
  }

  function ReaderRun(r: Reader, steps: seq<TraceStep>): Reader
    decreases |steps|
  {
    if steps == [] then r else ReaderRun(ReaderStep(r, steps[0]), steps[1..])
  }

  /** Each collected event is the logged one, later than the one before it, after `start` and up to the cursor. */
  ghost predicate InOrder(r: Reader, start: nat) {
    Ordered(r.log, r.collected, start, r.cursor)
  }

  ghost predicate Ordered(log: seq<TraceEvent>, events: seq<TraceEvent>, start: nat, end: nat) {
    && (forall k | 0 <= k < |events| ::
          start < events[k].sequence <= end <= |log| && log[events[k].sequence - 1] == events[k])
    && (forall k, m | 0 <= k < m < |events| :: events[k].sequence < events[m].sequence)
  }

  ghost predicate ReaderInv(r: Reader, start: nat) {
    && Numbered(r.log) && start <= r.cursor <= |r.log| && InOrder(r, start)
    && (if r.overflowed then |r.collected| < r.cursor - start else r.collected == r.log[start..r.cursor])
  }

  lemma DrainedFacts(log: seq<TraceEvent>, after: nat)
    requires Numbered(log) && after <= |log|
    ensures var lost, batch := Overwritten(|log|), Drained(log, after);
            var first := if after < lost then lost else after;
            && first + |batch.events| <= |log| && batch.events == log[first..first + |batch.events|]
            && (batch.events == [] <==> after == |log|)
            && (batch.events != [] ==> batch.events[|batch.events| - 1].sequence == first + |batch.events|)
  {
  }

  lemma ReadInOrder(r: Reader, start: nat, first: nat, next: nat)
    requires Numbered(r.log) && InOrder(r, start) && start <= r.cursor <= first <= next <= |r.log|
    ensures InOrder(r.(cursor := next, collected := r.collected + r.log[first..next]), start)
  {
  }

  lemma InOrderIgnoresFlag(r: Reader, start: nat, flag: bool)
    requires InOrder(r, start)
    ensures InOrder(r.(overflowed := flag), start)
  {
  }

  /** What a read does, said of the log: it takes the next stretch, and notes whether it had to skip to it. */
  lemma ReadStretch(r: Reader)
    requires Numbered(r.log) && r.cursor <= |r.log|
    ensures var lost := Overwritten(|r.log|); var first := if r.cursor < lost then lost else r.cursor;
            var next := first + |Drained(r.log, r.cursor).events|;
            && r.cursor <= first <= next <= |r.log|
            && ReaderStep(r, Read) ==
                 Reader(r.log, next, r.collected + r.log[first..next], r.overflowed || r.cursor < first)
  {
    DrainedFacts(r.log, r.cursor);
  }

  /** A stretch taken from the cursor completes what was complete; one taken past it leaves a gap. */
  lemma StretchContents(r: Reader, start: nat, first: nat, next: nat)
    requires start <= r.cursor <= first <= next <= |r.log|
    requires if r.overflowed then |r.collected| < r.cursor - start else r.collected == r.log[start..r.cursor]
    ensures var collected := r.collected + r.log[first..next];
            if r.overflowed || r.cursor < first then |collected| < next - start else collected == r.log[start..next]
  {
    assert r.log[start..r.cursor] + r.log[r.cursor..next] == r.log[start..next];
  }

  lemma ReadInv(r: Reader, start: nat)
    requires ReaderInv(r, start)
    ensures ReaderInv(ReaderStep(r, Read), start)
  {
    hide InOrder, Drained, Numbered;
    var lost := Overwritten(|r.log|);
    var first := if r.cursor < lost then lost else r.cursor;
    var next := first + |Drained(r.log, r.cursor).events|;
    ReadStretch(r);
    ReadInOrder(r, start, first, next);
    StretchContents(r, start, first, next);
    InOrderIgnoresFlag(r.(cursor := next, collected := r.collected + r.log[first..next]), start, r.overflowed ||
                       r.cursor < first);
  }

  lemma OrderedStays(log: seq<TraceEvent>, events: seq<TraceEvent>, start: nat, end: nat, e: TraceEvent)
    requires Ordered(log, events, start, end)
    ensures Ordered(log + [e], events, start, end)
  {
    var more := log + [e];
    forall k | 0 <= k < |events|
      ensures start < events[k].sequence <= end <= |more| && more[events[k].sequence - 1] == events[k]
    {
      var at := events[k].sequence - 1;
      assert log[at] == events[k];
      assert more[at] == log[at];
    }
  }

  lemma PublishInv(r: Reader, timestamp: nat, start: nat)
    requires ReaderInv(r, start)
    ensures ReaderInv(ReaderStep(r, Published(timestamp)), start)
  {
    hide Ordered;
    var r' := ReaderStep(r, Published(timestamp));
    OrderedStays(r.log, r.collected, start, r.cursor, TraceEvent(|r.log| + 1, timestamp));
    assert r'.log[start..r.cursor] == r.log[start..r.cursor];
  }

  lemma {:induction false} ReaderRunInv(r: Reader, steps: seq<TraceStep>, start: nat)
    requires ReaderInv(r, start)
    ensures ReaderInv(ReaderRun(r, steps), start)
    decreases |steps|
  {
    hide ReaderInv;
    if steps != [] {
      match steps[0] {
        case Published(timestamp) => PublishInv(r, timestamp, start);
        case Read => ReadInv(r, start);
      }
      ReaderRunInv(ReaderStep(r, steps[0]), steps[1..], start);
    }
  }

  /**
   However publishing and draining interleave, a reader gets each event at most
   once and in order, and it holds the whole log from its start to its cursor
   exactly if no drain raised the overflow flag.
   */
  lemma ReaderMissesOnlyWhatItIsTold(log: seq<TraceEvent>, steps: seq<TraceStep>, start: nat)
    requires Numbered(log) && start <= |log|
    ensures var r := ReaderRun(Reader(log, start, [], false), steps);
            && start <= r.cursor <= |r.log| && InOrder(r, start)
            && (r.collected == r.log[start..r.cursor] <==> !r.overflowed)
  {
    hide ReaderRun;
    ReaderRunInv(Reader(log, start, [], false), steps, start);
  }

  /** Exactly which events a drain hands back: the oldest 64 after the cursor, of the newest 4096. */
  lemma DrainedIs(log: seq<TraceEvent>, after: nat, k: nat)
    ensures var batch, lost := Drained(log, after), if |log| > 4096 then |log| - 4096 else 0;
            var first := if after > lost then after else lost;
            && batch.newest == |log| && (batch.overflow <==> after < lost)
            && |batch.events| == (if first >= |log| then 0 else if |log| - first > 64 then 64 else |log| - first)
            && (k < |batch.events| ==> batch.events[k] == log[first + k])
  {
  }

  /** Draining until nothing is left, with nothing published meanwhile. */
  function DrainAll(log: seq<TraceEvent>, after: nat): seq<TraceEvent>
    requires Numbered(log) && after <= |log|
    decreases |log| - after
  {
    DrainedFacts(log, after);
    var batch := Drained(log, after);
    if batch.events == [] then [] else batch.events + DrainAll(log, batch.events[|batch.events| - 1].sequence)
  }

  lemma LostAtMost(count: nat)
    ensures Overwritten(count) <= count && (count > 0 ==> Overwritten(count) < count)
  {
  }

  lemma DrainAllStep(log: seq<TraceEvent>, after: nat)
    requires Numbered(log) && after <= |log|
    ensures var batch := Drained(log, after);
            && (batch.events == [] ==> DrainAll(log, after) == [])
            && (batch.events != [] ==>
                  var last := batch.events[|batch.events| - 1].sequence;
                  after < last <= |log| && DrainAll(log, after) == batch.events + DrainAll(log, last))
  {
    hide Drained, Numbered;
    DrainedFacts(log, after);
  }

  /** Repeated draining yields every retained event after the start, once each, in order. */
  lemma {:induction false} DrainAllYieldsRetained(log: seq<TraceEvent>, after: nat)
    requires Numbered(log) && after <= |log|
    ensures var lost := Overwritten(|log|);
            DrainAll(log, after) == log[if after < lost then lost else after..]
    decreases |log| - after
  {
    hide Drained, Numbered, Overwritten, DrainAll;
    DrainedFacts(log, after);
    LostAtMost(|log|);
    var batch, lost := Drained(log, after), Overwritten(|log|);
    var first := if after < lost then lost else after;
    var last := first + |batch.events|;
    DrainAllStep(log, after);
    if batch.events != [] {
      DrainAllYieldsRetained(log, last);
      assert log[first..last] + log[last..] == log[first..];
    }
  }
}

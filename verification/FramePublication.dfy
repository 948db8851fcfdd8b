/**
 What the kernel driver shows and hands to readers, told from the log of a run:
 which framebuffer each publication brings, and who may still commit in a shutdown.
 */
module FramePublication {
  import opened Wrappers
  import opened FrameReferences

  /** An output, and the framebuffer a commit has taken for it, if any. */
  datatype Offer = Offer(output: OutputId, fb: Option<Framebuffer>)

  /** What commit `k` last took, and for which output. */
  function LastOffer(actions: seq<Action>, k: nat): Option<Offer> {
    if actions == [] then None
    else
      var a := actions[|actions| - 1];
      if a.TakeNew? && a.commit == k then Some(Offer(a.output, a.fb)) else LastOffer(actions[..|actions| - 1], k)
  }

  /**
   What output `o` shows: what the last publication on it to swap had taken; nothing
   before the first, or once the shutdown path has taken it away.
   */
  function ShownBy(actions: seq<Action>, o: OutputId): Option<Framebuffer> {
    if actions == [] then None
    else
      var front, a := actions[..|actions| - 1], actions[|actions| - 1];
      if a.PublishOutput? && a.swaps && LastOffer(front, a.commit).Some? && LastOffer(front, a.commit).value.output == o
      then LastOffer(front, a.commit).value.fb
      else if a == Take(o) then None
      else ShownBy(front, o)
  }

  /** What reader `r` has: what the output it last asked about showed at that moment, until it is done with it. */
  function ReadBy(actions: seq<Action>, r: nat): Option<Framebuffer> {
    if actions == [] then None
    else
      var front, a := actions[..|actions| - 1], actions[|actions| - 1];
      if a.Read? && a.reader == r then ShownBy(front, a.output)
      else if a == DoneReading(r) then None
      else ReadBy(front, r)
  }

  ghost function Holds(d: Device, h: Holder): Option<Framebuffer> {
    if h in d.frames.held then Some(d.frames.held[h]) else None
  }

  /** A commit about to publish holds what it last took, for the output it took it for. */
  ghost predicate OffersHeld(d: Device, actions: seq<Action>) {
    forall k | k in d.commits && d.commits[k].stage.Holding? ::
      LastOffer(actions, k) == Some(Offer(d.commits[k].stage.output, Holds(d, Incoming(k))))
  }

  ghost predicate ShowsTheLog(d: Device, actions: seq<Action>) {
    && (forall o :: Holds(d, Shown(o)) == ShownBy(actions, o))
    && (forall r :: Holds(d, Reading(r)) == ReadBy(actions, r))
  }

  lemma LogGrows(actions: seq<Action>, a: Action)
    ensures (actions + [a])[..|actions + [a]| - 1] == actions && (actions + [a])[|actions + [a]| - 1] == a
  {
  }

  lemma OfferGrows(actions: seq<Action>, a: Action, k: nat)
    ensures LastOffer(actions + [a], k) ==
              if a.TakeNew? && a.commit == k then Some(Offer(a.output, a.fb)) else LastOffer(actions, k)
  {
    LogGrows(actions, a);
  }

  /** A commit about to publish was so before, with the same framebuffer, or has just taken it. */
  lemma HoldingNext(d: Device, a: Action, k: nat)
    requires HoldersPlaced(d) && Enabled(d, a)
    requires k in Next(d, a).commits && Next(d, a).commits[k].stage.Holding?
    ensures var d' := Next(d, a);
            if a.TakeNew? && a.commit == k
            then d'.commits[k].stage == Holding(a.output) && Holds(d', Incoming(k)) == a.fb
            else
              && k in d.commits && d.commits[k].stage == d'.commits[k].stage
              && Holds(d', Incoming(k)) == Holds(d, Incoming(k))
  {
  }

  lemma OffersNext(d: Device, actions: seq<Action>, a: Action)
    requires HoldersPlaced(d) && OffersHeld(d, actions) && Enabled(d, a)
    ensures OffersHeld(Next(d, a), actions + [a])
  {
    hide HoldersPlaced, Enabled, Next, LastOffer, Holds;
    forall k | k in Next(d, a).commits && Next(d, a).commits[k].stage.Holding?
      ensures LastOffer(actions + [a], k) ==
                Some(Offer(Next(d, a).commits[k].stage.output, Holds(Next(d, a), Incoming(k))))
    {
      OfferGrows(actions, a, k);
      HoldingNext(d, a, k);
    }
  }

  lemma PublishShows(d: Device, actions: seq<Action>, a: Action)
    requires HoldersPlaced(d) && OffersHeld(d, actions) && ShowsTheLog(d, actions) && Enabled(d, a) && a.PublishOutput?
    ensures ShowsTheLog(Next(d, a), actions + [a])
  {
    LogGrows(actions, a);
  }

  lemma OthersShow(d: Device, actions: seq<Action>, a: Action)
    requires ShowsTheLog(d, actions) && Enabled(d, a) && !a.PublishOutput?
    ensures ShowsTheLog(Next(d, a), actions + [a])
  {
    LogGrows(actions, a);
  }

  lemma {:induction false} RunGrows(d: Device, actions: seq<Action>, a: Action)
    requires IsRun(d, actions + [a])
    ensures IsRun(d, actions) && Enabled(After(d, actions), a)
    ensures After(d, actions + [a]) == Next(After(d, actions), a)
    decreases |actions|
  {
    hide Next, Enabled;
    if actions == [] {
      assert [a][1..] == [];
      assert actions + [a] == [a];
    } else {
      assert (actions + [a])[1..] == actions[1..] + [a];
      RunGrows(Next(d, actions[0]), actions[1..], a);
    }
  }

  lemma {:induction false} RunShowsTheLog(d: Device, actions: seq<Action>)
    requires Initial(d) && IsRun(d, actions)
    ensures OffersHeld(After(d, actions), actions) && ShowsTheLog(After(d, actions), actions)
    decreases |actions|
  {
    hide Next, Enabled, OffersHeld, ShowsTheLog, ShownBy, ReadBy, LastOffer;
    if actions == [] {
      NothingYet(d);
    } else {
      var front, a := actions[..|actions| - 1], actions[|actions| - 1];
      assert front + [a] == actions;
      RunGrows(d, front, a);
      RunShowsTheLog(d, front);
      InitialDeviceInv(d);
      RunDeviceInv(d, front);
      OffersNext(After(d, front), front, a);
      if a.PublishOutput? {
        PublishShows(After(d, front), front, a);
      } else {
        OthersShow(After(d, front), front, a);
      }
    }
  }

  lemma NothingYet(d: Device)
    requires Initial(d)
    ensures OffersHeld(d, []) && ShowsTheLog(d, [])
  {
  }

  /**
   After every interleaving from a fresh device, each output shows exactly the
   framebuffer that the last swapping publication on it had taken, or nothing if that
   had taken none, if there was none, or if the shutdown has taken it away since.
   */
  lemma ShowsLastPublished(d: Device, actions: seq<Action>, o: OutputId)
    requires Initial(d) && IsRun(d, actions)
    ensures Holds(After(d, actions), Shown(o)) == ShownBy(actions, o)
  {
    RunShowsTheLog(d, actions);
  }

  /** A publication that swaps shows what its commit took for that output, whatever else ran in between. */
  lemma PublicationShows(d: Device, actions: seq<Action>, take: Action, between: seq<Action>, k: nat)
    requires take.TakeNew? && take.commit == k
    requires forall i | 0 <= i < |between| :: !(between[i].TakeNew? && between[i].commit == k)
    requires Initial(d) && IsRun(d, actions + [take] + between + [PublishOutput(k, true)])
    ensures Holds(After(d, actions + [take] + between + [PublishOutput(k, true)]), Shown(take.output)) == take.fb
  {
    var log := actions + [take] + between;
    OfferStands(actions, take, between, k);
    RunShowsTheLog(d, log + [PublishOutput(k, true)]);
    LogGrows(log, PublishOutput(k, true));
  }

  lemma {:induction false} OfferStands(actions: seq<Action>, take: Action, between: seq<Action>, k: nat)
    requires take.TakeNew? && take.commit == k
    requires forall i | 0 <= i < |between| :: !(between[i].TakeNew? && between[i].commit == k)
    ensures LastOffer(actions + [take] + between, k) == Some(Offer(take.output, take.fb))
    decreases |between|
  {
    if between == [] {
      assert actions + [take] + between == actions + [take];
      LogGrows(actions, take);
    } else {
      var front, a := between[..|between| - 1], between[|between| - 1];
      OfferStands(actions, take, front, k);
      assert actions + [take] + between == (actions + [take] + front) + [a];
      LogGrows(actions + [take] + front, a);
    }
  }

  /** A reader has exactly what the output showed when it asked, and that stays referenced until it is done. */
  lemma ReaderHolds(d: Device, actions: seq<Action>, r: nat)
    requires Initial(d) && IsRun(d, actions)
    ensures Holds(After(d, actions), Reading(r)) == ReadBy(actions, r)
    ensures ReadBy(actions, r).Some? ==> After(d, actions).frames.References(ReadBy(actions, r).value) >= 1
  {
    RunShowsTheLog(d, actions);
    if ReadBy(actions, r).Some? {
      var fb := ReadBy(actions, r).value;
      EverythingConserved(d, actions, fb, 0);
      assert Reading(r) in HoldersOf(After(d, actions).frames.held, fb);
    }
  }

  // ---------------------------------------------------------------- shutdown

  /** Closed to everyone, or to everyone but `t`, who is shutting the device down. */
  ghost predicate ClosedBut(d: Device, t: nat) {
    !d.accepting && (d.owner == None || d.owner == Some(t))
  }

  lemma ClosedNext(d: Device, a: Action, t: nat)
    requires ClosedBut(d, t) && Enabled(d, a)
    ensures ClosedBut(Next(d, a), t) && (a.Accept? ==> a.thread == t)
  {
  }

  lemma {:induction false} ClosedRun(d: Device, actions: seq<Action>, t: nat)
    requires ClosedBut(d, t) && IsRun(d, actions)
    ensures ClosedBut(After(d, actions), t)
    ensures forall i | 0 <= i < |actions| && actions[i].Accept? :: actions[i].thread == t
    decreases |actions|
  {
    hide Next, Enabled;
    if actions != [] {
      ClosedNext(d, actions[0], t);
      ClosedRun(Next(d, actions[0]), actions[1..], t);
    }
  }

  /** Once a quiesce has begun, whatever runs after it, only the thread that began it ever commits again. */
  lemma OnlyTheQuiescerCommits(d: Device, actions: seq<Action>, t: nat)
    requires d.accepting && Enabled(d, Quiesce(t)) && IsRun(Next(d, Quiesce(t)), actions)
    ensures forall i | 0 <= i < |actions| && actions[i].Accept? :: actions[i].thread == t
  {
    hide IsRun, After;
    ClosedRun(Next(d, Quiesce(t)), actions, t);
  }

  /** When it ends, the device is quiesced for good: nothing in flight, nothing shown, nothing accepted. */
  lemma EndsQuiesced(d: Device, actions: seq<Action>, o: OutputId)
    requires DeviceInv(d) && Enabled(d, EndQuiesce) && IsRun(Next(d, EndQuiesce), actions) && o in d.outputs
    ensures Quiesced(After(Next(d, EndQuiesce), actions)) && Quiet(After(Next(d, EndQuiesce), actions), o)
    ensures forall i | 0 <= i < |actions| :: !actions[i].Accept? && !actions[i].PublishOutput?
  {
    hide ReferencesConserved, HoldersPlaced, PendingConserved, IsRun, After;
    NextDeviceInv(d, EndQuiesce);
    NothingShownAfterQuiesce(Next(d, EndQuiesce), actions, o);
  }
}

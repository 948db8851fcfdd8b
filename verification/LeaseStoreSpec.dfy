/**
 What the display lease store holds and what each of its operations does to it,
 as functions on values. `LeaseStore` proves the in-place store against these.
 */
module LeaseStoreSpec {
  import opened Wrappers
  import opened DisplayIdentity

  const MAX_U32: nat := 0xffff_ffff
  const MIN_LEASE_ID: nat := 0x6000_0000_0000_0000
  const DEFAULT_TIMEOUT_MS: nat := 10_000
  const MIN_TIMEOUT_MS: nat := 3_000
  const MAX_TIMEOUT_MS: nat := 300_000

  type U32 = x: nat | x <= MAX_U32

  /** An owner capability is 32 bytes read as one number; all-zero bytes read 0. */
  type Capability = nat

  datatype Record = Record(leaseId: nat, displayId: nat, timeoutMs: nat, connector: nat, expiresAt: int,
                           retain: bool, identityId: nat, generation: nat, pending: bool)
  {
    function EffectiveId(): nat {
      if identityId == 0 then displayId else identityId
    }
  }

  datatype Lease = Lease(timeoutMs: nat, expiresAt: int, capability: Option<Capability>)

  datatype StoreError =
    | NoError | ValidationFailed | LimitReached | AlreadyExists | DuplicateIdentity | LeaseNotFound | DisplayNotFound

  datatype RemoveMode = RetainReservation | ReleaseReservation

  /** Requests; `wellFormed` stands for the namespace, reserved-field and mode checks made on arrival. */
  datatype CreateRequest =
    CreateRequest(wellFormed: bool, leaseId: nat, displayId: nat, ephemeral: bool, timeoutMs: nat)
  datatype ReclaimRequest =
    ReclaimRequest(wellFormed: bool, newLeaseId: nat, displayId: nat, capability: Capability, timeoutMs: nat)
  datatype LeaseDisplayRequest = LeaseDisplayRequest(wellFormed: bool, leaseId: nat, displayId: nat)
  datatype LeaseRequest = LeaseRequest(wellFormed: bool, leaseId: nat, timeoutMs: nat)

  predicate ValidCreate(r: CreateRequest, owner: Option<Capability>) {
    r.wellFormed && r.leaseId >= MIN_LEASE_ID && r.displayId != 0 && (owner.Some? ==> owner.value != 0)
  }

  predicate ValidReclaim(r: ReclaimRequest) {
    r.wellFormed && r.newLeaseId >= MIN_LEASE_ID && r.displayId != 0 && r.capability != 0
  }

  predicate ValidLeaseDisplay(r: LeaseDisplayRequest) {
    r.wellFormed && r.leaseId >= MIN_LEASE_ID && r.displayId != 0
  }

  predicate ValidLease(r: LeaseRequest) {
    r.wellFormed && r.leaseId >= MIN_LEASE_ID
  }

  function NormalizeTimeout(requested: nat): nat {
    if requested == 0 then DEFAULT_TIMEOUT_MS
    else if requested < MIN_TIMEOUT_MS then MIN_TIMEOUT_MS
    else if requested > MAX_TIMEOUT_MS then MAX_TIMEOUT_MS
    else requested
  }

  datatype State = State(
    maxPermanent: U32, maxTemporary: U32,
    displays: map<nat, Record>, leases: map<nat, Lease>,
    reservations: map<nat, nat>, quarantined: set<nat>,
    nextEphemeral: nat, nextGeneration: nat)
  {
    function Limit(): nat {
      if maxTemporary > MAX_U32 - maxPermanent then MAX_U32 else maxPermanent + maxTemporary
    }

    predicate IsTemporary(c: nat) {
      maxPermanent <= c < Limit()
    }

    predicate IsActive(c: nat) {
      exists d | d in displays :: displays[d].connector == c
    }

    predicate IsReserved(c: nat) {
      exists e | e in reservations :: reservations[e] == c
    }

    predicate IsReservedForOther(c: nat, d: nat) {
      exists e | e in reservations :: e != d && reservations[e] == c
    }

    /** Neither occupied nor quarantined. */
    predicate IsFree(c: nat) {
      !IsActive(c) && c !in quarantined
    }

    /** Free, and not spoken for by a display that should keep it. */
    predicate IsOpen(c: nat, d: nat, retain: bool) {
      IsFree(c) && if retain then !IsReservedForOther(c, d) else !IsReserved(c)
    }

    predicate IdentityActive(id: nat) {
      IdentityInUse(displays, id)
    }

    predicate LeaseHasDisplays(l: nat) {
      exists d | d in displays :: displays[d].leaseId == l
    }

    predicate LeaseHasPending(l: nat) {
      exists d | d in displays :: displays[d].leaseId == l && displays[d].pending
    }

    predicate LeaseHasExpiredPending(l: nat, now: int) {
      exists d | d in displays :: displays[d].leaseId == l && displays[d].pending && displays[d].expiresAt <= now
    }
  }

  predicate IdentityInUse(displays: map<nat, Record>, id: nat) {
    exists d | d in displays :: IdentityOf(displays[d].EffectiveId()) == IdentityOf(id)
  }

  function InitialState(maxPermanent: U32, maxTemporary: U32, reservations: map<nat, nat>): State {
    State(maxPermanent, maxTemporary, map[], map[], reservations, {}, 1, 1)
  }

  // ---------------------------------------------------------------- connectors

  /** The first open connector at or after `i`, or the limit. */
  function FirstOpen(s: State, d: nat, retain: bool, i: nat): (c: nat)
    requires i <= s.Limit()
    ensures i <= c <= s.Limit()
    ensures c < s.Limit() ==> s.IsOpen(c, d, retain)
    ensures forall j | i <= j < c :: !s.IsOpen(j, d, retain)
    decreases s.Limit() - i
  {
    if i == s.Limit() then i else if s.IsOpen(i, d, retain) then i else FirstOpen(s, d, retain, i + 1)
  }

  /** The first free connector at or after `i`, or the limit. */
  function FirstFree(s: State, i: nat): (c: nat)
    requires i <= s.Limit()
    ensures i <= c <= s.Limit()
    ensures c < s.Limit() ==> s.IsFree(c)
    ensures forall j | i <= j < c :: !s.IsFree(j)
    decreases s.Limit() - i
  {
    if i == s.Limit() then i else if s.IsFree(i) then i else FirstFree(s, i + 1)
  }

  function DropReservations(reservations: map<nat, nat>, c: nat, except: nat): map<nat, nat> {
    map e | e in reservations && (e == except || reservations[e] != c) :: reservations[e]
  }

  datatype Selection = Selection(reservations: map<nat, nat>, connector: nat)

  predicate UsesOwnReservation(s: State, d: nat, retain: bool) {
    retain && d in s.reservations && s.IsTemporary(s.reservations[d]) && !s.IsActive(s.reservations[d])
  }

  /** Own reservation first, then the first open connector, then any free one at its holder's expense. */
  function SelectConnector(s: State, d: nat, retain: bool): Selection {
    if UsesOwnReservation(s, d, retain) then Selection(s.reservations, s.reservations[d])
    else
      var open := FirstOpen(s, d, retain, s.maxPermanent);
      if open < s.Limit() then Selection(s.reservations, open)
      else
        var free := FirstFree(s, s.maxPermanent);
        if free < s.Limit() then Selection(DropReservations(s.reservations, free, d), free)
        else Selection(s.reservations, s.Limit())
  }

  // ---------------------------------------------------------------- identities

  ghost predicate HeldBySomeone(held: map<nat, Identity>, wanted: Identity) {
    exists d | d in held :: held[d] == wanted
  }

  /** Pigeonhole: distinct wanted values, each held by someone, need as many holders. */
  lemma {:induction false} HoldersSuffice(held: map<nat, Identity>, wanted: seq<Identity>)
    requires forall i, j | 0 <= i < j < |wanted| :: wanted[i] != wanted[j]
    requires forall j | 0 <= j < |wanted| :: HeldBySomeone(held, wanted[j])
    ensures |wanted| <= |held|
    decreases |wanted|
  {
    if |wanted| > 0 {
      var n := |wanted| - 1;
      assert HeldBySomeone(held, wanted[n]);
      var d :| d in held && held[d] == wanted[n];
      var others := held - {d};
      assert others.Keys == held.Keys - {d} && |others.Keys| == |held.Keys| - 1;
      forall j | 0 <= j < n ensures HeldBySomeone(others, wanted[..n][j]) {
        assert HeldBySomeone(held, wanted[j]) && wanted[j] != wanted[n];
        var e :| e in held && held[e] == wanted[j];
        assert others[e] == wanted[..n][j];
      }
      HoldersSuffice(others, wanted[..n]);
    }
  }

  /** No more candidates can be taken than there are active displays. */
  lemma CandidatesExhaust(displays: map<nat, Record>, counter: nat, k: nat)
    requires k <= WORD32
    requires forall j | 0 <= j < k :: IdentityInUse(displays, EphemeralId(counter, j))
    ensures k <= |displays|
  {
    var held := map d | d in displays :: IdentityOf(displays[d].EffectiveId());
    var wanted := seq(k, j requires 0 <= j < k => IdentityOf(EphemeralId(counter, j)));
    forall i, j | 0 <= i < j < k ensures wanted[i] != wanted[j] {
      EphemeralWindowDistinct(counter, i, j);
    }
    forall j | 0 <= j < k ensures HeldBySomeone(held, wanted[j]) {
      assert IdentityInUse(displays, EphemeralId(counter, j));
      var d :| d in displays && IdentityOf(displays[d].EffectiveId()) == IdentityOf(EphemeralId(counter, j));
      assert held[d] == wanted[j];
    }
    HoldersSuffice(held, wanted);
    assert held.Keys == displays.Keys;
  }

  /** How many candidates the search skips, having skipped `k` already. */
  function SkippedCandidates(displays: map<nat, Record>, counter: nat, k: nat): (skipped: nat)
    requires |displays| < WORD32 && k <= |displays|
    requires forall j | 0 <= j < k :: IdentityInUse(displays, EphemeralId(counter, j))
    ensures k <= skipped <= |displays|
    ensures !IdentityInUse(displays, EphemeralId(counter, skipped))
    ensures forall j | 0 <= j < skipped :: IdentityInUse(displays, EphemeralId(counter, j))
    decreases |displays| - k
  {
    if IdentityInUse(displays, EphemeralId(counter, k)) then
      CandidatesExhaust(displays, counter, k + 1);
      SkippedCandidates(displays, counter, k + 1)
    else k
  }

  // ---------------------------------------------------------------- operations

  datatype CreateOutcome = CreateOutcome(state: State, error: StoreError)

  /** Why a create is turned away before any connector is looked for; `NoError` if it is not. */
  function CreateRefusal(s: State, r: CreateRequest, owner: Option<Capability>, now: int): StoreError {
    if !ValidCreate(r, owner) then ValidationFailed
    else if r.displayId in s.displays then AlreadyExists
    else if |s.displays| >= s.maxTemporary then LimitReached
    else if r.leaseId in s.leases &&
            (s.leases[r.leaseId].expiresAt <= now || s.LeaseHasPending(r.leaseId)) then LeaseNotFound
    else if r.leaseId in s.leases && owner.Some? && s.leases[r.leaseId].capability.Some? &&
            s.leases[r.leaseId].capability != owner then LeaseNotFound
    else NoError
  }

  function NewLease(s: State, r: CreateRequest, owner: Option<Capability>, now: int): Lease {
    if r.leaseId !in s.leases then
      var timeout := NormalizeTimeout(r.timeoutMs);
      Lease(timeout, now + timeout, owner)
    else if owner.Some? && s.leases[r.leaseId].capability.None? then
      s.leases[r.leaseId].(capability := owner)
    else
      s.leases[r.leaseId]
  }

  function Create(s: State, r: CreateRequest, owner: Option<Capability>, now: int): CreateOutcome {
    var refusal := CreateRefusal(s, r, owner, now);
    if refusal != NoError then CreateOutcome(s, refusal)
    else
      var d, retain := r.displayId, !r.ephemeral;
      var selected := SelectConnector(s, d, retain);
      var c := selected.connector;
      var evicted := s.(reservations := selected.reservations);
      if !s.IsTemporary(c) then CreateOutcome(evicted, LimitReached)
      else if retain && s.IdentityActive(d) then CreateOutcome(evicted, DuplicateIdentity)
      else
        var skipped := if retain then 0 else SkippedCandidates(s.displays, s.nextEphemeral, 0);
        var identity := if retain then d else EphemeralId(s.nextEphemeral, skipped);
        var nextEphemeral := if retain then s.nextEphemeral else (s.nextEphemeral + skipped + 1) % WORD64;
        CreateOutcome(Insert(s, r, NewLease(s, r, owner, now), selected, identity, nextEphemeral), NoError)
  }

  /** Files the new record under its lease and, for a retained display, reserves its connector. */
  function Insert(s: State, r: CreateRequest, lease: Lease, selected: Selection, identity: nat,
                  nextEphemeral: nat): State {
    var d, c, retain := r.displayId, selected.connector, !r.ephemeral;
    var record := Record(r.leaseId, d, lease.timeoutMs, c, lease.expiresAt, retain, identity, s.nextGeneration, false);
    s.(displays := s.displays[d := record],
       leases := s.leases[r.leaseId := lease],
       reservations := if retain then DropReservations(selected.reservations, c, d)[d := c] else selected.reservations,
       nextEphemeral := nextEphemeral,
       nextGeneration := s.nextGeneration + 1)
  }

  function CanReclaim(s: State, r: ReclaimRequest, now: int): StoreError {
    if !ValidReclaim(r) then ValidationFailed
    else if r.displayId !in s.displays || s.displays[r.displayId].pending then LeaseNotFound
    else
      var l := s.displays[r.displayId].leaseId;
      if l !in s.leases || s.leases[l].expiresAt <= now || s.LeaseHasPending(l) ||
         s.leases[l].capability != Some(r.capability) then LeaseNotFound
      else if r.newLeaseId == l || r.newLeaseId in s.leases then LeaseNotFound
      else NoError
  }

  /** Moves every display of one lease onto a fresh lease. */
  function MoveLease(displays: map<nat, Record>, l: nat, newLease: nat, timeoutMs: nat, expiresAt: int)
    : map<nat, Record>
  {
    map d | d in displays ::
      if displays[d].leaseId == l
      then displays[d].(leaseId := newLease, timeoutMs := timeoutMs, expiresAt := expiresAt)
      else displays[d]
  }

  function Reclaim(s: State, r: ReclaimRequest, now: int): State {
    if CanReclaim(s, r, now) != NoError then s
    else
      var l := s.displays[r.displayId].leaseId;
      var timeout := NormalizeTimeout(r.timeoutMs);
      s.(displays := MoveLease(s.displays, l, r.newLeaseId, timeout, now + timeout),
         leases := (s.leases - {l})[r.newLeaseId := Lease(timeout, now + timeout, s.leases[l].capability)])
  }

  /** Drops a lease that no stored display refers to. */
  function DropLeaseIfEmpty(s: State, l: nat): State {
    if s.LeaseHasDisplays(l) then s else s.(leases := s.leases - {l})
  }

  function CanRemove(s: State, r: LeaseDisplayRequest): StoreError {
    if !ValidLeaseDisplay(r) then ValidationFailed
    else if r.displayId !in s.displays || s.displays[r.displayId].leaseId != r.leaseId then DisplayNotFound
    else NoError
  }

  function Remove(s: State, r: LeaseDisplayRequest, mode: RemoveMode): State {
    if CanRemove(s, r) != NoError then s
    else
      DropLeaseIfEmpty(
        s.(displays := s.displays - {r.displayId},
           reservations := if mode.ReleaseReservation? then s.reservations - {r.displayId} else s.reservations),
        r.leaseId)
  }

  function MarkPending(s: State, r: LeaseDisplayRequest): State {
    if CanRemove(s, r) != NoError then s
    else s.(displays := s.displays[r.displayId := s.displays[r.displayId].(pending := true)])
  }

  function CanAbandon(s: State, r: LeaseDisplayRequest, generation: nat, owner: Capability): StoreError {
    if !ValidLeaseDisplay(r) then ValidationFailed
    else if r.displayId !in s.displays || s.displays[r.displayId].leaseId != r.leaseId ||
            s.displays[r.displayId].generation != generation || !s.displays[r.displayId].pending then DisplayNotFound
    else if r.leaseId !in s.leases || s.leases[r.leaseId].capability != Some(owner) then LeaseNotFound
    else NoError
  }

  function Abandon(s: State, r: LeaseDisplayRequest, generation: nat, owner: Capability): State {
    if CanAbandon(s, r, generation, owner) != NoError then s
    else
      DropLeaseIfEmpty(
        s.(quarantined := s.quarantined + {s.displays[r.displayId].connector},
           reservations := s.reservations - {r.displayId},
           displays := s.displays - {r.displayId}),
        r.leaseId)
  }

  function CanFeed(s: State, r: LeaseRequest, now: int): StoreError {
    if !ValidLease(r) then ValidationFailed
    else if r.leaseId !in s.leases || s.leases[r.leaseId].expiresAt <= now ||
            s.LeaseHasExpiredPending(r.leaseId, now) then LeaseNotFound
    else NoError
  }

  /** Renews every display of a lease that is not awaiting departure. */
  function Renew(displays: map<nat, Record>, l: nat, timeoutMs: nat, expiresAt: int): map<nat, Record> {
    map d | d in displays ::
      if displays[d].leaseId == l && !displays[d].pending
      then displays[d].(timeoutMs := timeoutMs, expiresAt := expiresAt)
      else displays[d]
  }

  function Feed(s: State, r: LeaseRequest, now: int): State {
    if CanFeed(s, r, now) != NoError then s
    else
      var timeout := NormalizeTimeout(r.timeoutMs);
      s.(leases := s.leases[r.leaseId := s.leases[r.leaseId].(timeoutMs := timeout, expiresAt := now + timeout)],
         displays := Renew(s.displays, r.leaseId, timeout, now + timeout))
  }

  function CanRelease(s: State, r: LeaseRequest): StoreError {
    if !ValidLease(r) then ValidationFailed
    else if r.leaseId !in s.leases then LeaseNotFound
    else NoError
  }

  function Release(s: State, r: LeaseRequest): State {
    if CanRelease(s, r) != NoError then s
    else
      s.(displays := map d | d in s.displays && s.displays[d].leaseId != r.leaseId :: s.displays[d],
         leases := s.leases - {r.leaseId})
  }

  function Unexpired(displays: map<nat, Record>, now: int): map<nat, Record> {
    map d | d in displays && displays[d].expiresAt > now :: displays[d]
  }

  /** Drops expired displays, and the leases whose last display expired. */
  function Reap(s: State, now: int): State {
    var rest := Unexpired(s.displays, now);
    var emptied := set d | d in s.displays && s.displays[d].expiresAt <= now &&
                           !(exists e | e in rest :: rest[e].leaseId == s.displays[d].leaseId) :: s.displays[d].leaseId;
    s.(displays := rest, leases := s.leases - emptied)
  }

  /** The record a capture client may use, if it proves to own it. */
  function Authorize(s: State, r: LeaseDisplayRequest, owner: Capability, now: int): Option<Record> {
    if !ValidLeaseDisplay(r) || r.displayId !in s.displays || r.leaseId !in s.leases ||
       s.displays[r.displayId].leaseId != r.leaseId || s.displays[r.displayId].pending ||
       s.leases[r.leaseId].expiresAt <= now || s.displays[r.displayId].expiresAt <= now ||
       s.leases[r.leaseId].capability != Some(owner) then None
    else Some(s.displays[r.displayId])
  }

  datatype StoreOp =
    | OpCreate(create: CreateRequest, createOwner: Option<Capability>, createNow: int)
    | OpReclaim(reclaim: ReclaimRequest, reclaimNow: int)
    | OpRemove(remove: LeaseDisplayRequest, mode: RemoveMode)
    | OpMark(mark: LeaseDisplayRequest)
    | OpAbandon(abandon: LeaseDisplayRequest, generation: nat, abandonOwner: Capability)
    | OpFeed(feed: LeaseRequest, feedNow: int)
    | OpRelease(release: LeaseRequest)
    | OpReap(reapNow: int)

  function Apply(s: State, op: StoreOp): State {
    match op
    case OpCreate(r, owner, now) => Create(s, r, owner, now).state
    case OpReclaim(r, now) => Reclaim(s, r, now)
    case OpRemove(r, mode) => Remove(s, r, mode)
    case OpMark(r) => MarkPending(s, r)
    case OpAbandon(r, generation, owner) => Abandon(s, r, generation, owner)
    case OpFeed(r, now) => Feed(s, r, now)
    case OpRelease(r) => Release(s, r)
    case OpReap(now) => Reap(s, now)
  }

  /** The state after a whole run of operations. */
  function Run(s: State, ops: seq<StoreOp>): State
    decreases |ops|
  {
    if ops == [] then s else Run(Apply(s, ops[0]), ops[1..])
  }
}

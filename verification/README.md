# Virtual display driver: verified model

A Dafny model of the parts of the virtual display driver where state, interleaving
or byte layout make mistakes easy, with proofs of what they promise over every
input and every run.

- **Display lease store** (`LeaseStoreSpec`, `LeaseStoreInvariant`, `LeaseStoreLineage`,
  `ConnectorPolicy`, `LeaseFencing`, `LeaseDeadlines`, `LeaseRequests`, `DisplayIdentity`,
  `LeaseStore`): displays, leases, connector reservations, quarantined connectors and two
  counters. The specification is a function of the state for each operation;
  `LeaseStore.DisplayStore` is the object that changes in place, each method proved to
  compute its function. Which requests are granted, and what then changes, is proved of
  those functions from the state alone.
- **Driver controller** (`DriverController`, `ControllerSafety`, `ControllerMonitors`,
  `ControllerAgreement`, `ControllerExactness`, `ControllerOperations`,
  `ControllerRefinement`): any number of threads that run store sections under the
  controller lock and let go of it around backend calls, interleaved in every way.
  A backend call and the store section that follows are separate steps; the backend
  mutex is held from the call until the controller lock is retaken.
- **Frame rings** (`FrameRingSpec`, `FrameRingProtocol`, `FrameRingOutcomes`, `FrameRings`):
  registration with client cookies, tombstones, peer binding, ring generations and
  publications that are disabled once and for all, on top of the store's authorization.
- **Kernel presentation path** (`PresentTiming`, `PresentTrace`, `FrameReferences`,
  `FramePublication`): the timestamp of each commit, the bounded trace ring, framebuffer
  references and pending counters, what each output shows, quiesce and unplug.
- **Data transformations** (`YuvWalk`, `DriverState`, `BrokerCommands`, `EdidTiming`,
  `Edid`, `EdidFeatures`, `CtaBlocks`): the chroma pointer walk, the profile blob, the
  broker commands, and the EDID encoder with its readers.

Where the code falls short of what one might expect, the code is kept as it is and
the exact condition is proved:

- One step of an operation breaks the agreement of store and backend exactly if it is
  not safe (`StepExact`), and the ways in which it can be are these. An unfenced departure
  before a create breaks it exactly if the display id belongs to a live record when the
  call is made and the answer does not spare that record's monitor
  (`UnfencedDepartureExact`). A reclaim over a removal breaks it exactly if it moves the
  display's lease and the departure does not spare the monitor (`ReclaimOverlapExact`).
  A reclaim over a create that moves its lease breaks it, unless the arrival is done and
  the clean-up departure spares the monitor (`ReclaimOverReservingExact`,
  `ReclaimOverArrivalExact`). Each of the three is reached from every fresh driver
  (`DepartureGuardNeeded`, `ReclaimGuardNeeded`, `CreateGuardNeeded`).
- The EDID range descriptor's lower vertical limit does not cover a plain 1920x1080 at
  30 Hz (`HdAt30IsNotCovered`): at 30 Hz it covers exactly if 30 times the total pixels
  is a multiple of 10000, above on a condition on pixels and rate that always holds from
  31.351 Hz on, below 30 Hz only a whole number of hertz (`LowerVerticalCoversModeIff`).
  Its horizontal limits miss at either end (`HorizontalCoversModeIff`, `HorizontalMisses`).
- The chroma walk equals direct addressing at a pixel exactly if C division rounds the
  start and the pixel the same way; so always inside the picture (`WalkedIsDirectIff`).
- A printed broker command reproduces its name exactly if no space leads or trails it
  (`PermanentSetRoundTrip`, `ProfileSetRoundTrip`).

Integers are unbounded except where the width matters, and there it is written out:
the 64-bit ephemeral counter and the ring generation counter wrap, the connector limit
saturates at 32 bits, C division truncates, bytes are reduced modulo 256.

## Model

| member | source | states |
|---|---|---|
| DisplayIdentity.EphemeralWindowDistinct | src/driver/display_identity.cpp:12-20 | Any two candidates of the wrapping 64-bit ephemeral counter less than 2^32 apart have different (product, serial) pairs, the zero-to-one serial included |
| DisplayIdentity.IdentityExact | src/driver/display_identity.cpp:12-20 | The product code is 0x5000 plus the low twelve bits of the id; the serial is never zero and, with the high word, gives back the low word, except that equal words give one |
| LeaseStoreSpec.CandidatesExhaust | src/driver/lease_store.cpp:197-207 | At most as many leading candidates can be taken as there are active displays |
| LeaseStoreSpec.SkippedCandidates | src/driver/lease_store.cpp:203-207 | The identity search skips at most one candidate per active display and stops at one that no active display uses |
| LeaseStoreSpec.FirstOpen | src/driver/lease_store.cpp:723-731 | The first temporary connector that is free and not reserved for another display, if there is one |
| LeaseStoreSpec.FirstFree | src/driver/lease_store.cpp:733-741 | The first temporary connector that is neither active nor quarantined, if there is one |
| LeaseStoreInvariant.RunInv | src/driver/lease_store.cpp:161-350 | Every run of store operations keeps the joint invariant: live leases are the lease ids of stored displays, records mirror their lease, connectors, generations and identities are distinct, retained reservations match, quarantined connectors are unoccupied and unreserved |
| LeaseStoreInvariant.ApplyInv | src/driver/lease_store.cpp:372-475 | Each operation, refused or not, keeps the joint invariant |
| LeaseStoreInvariant.InitialInv | src/driver/lease_store.cpp:99-117 | A fresh store satisfies the invariant whatever reservations it starts from |
| LeaseStoreInvariant.CreateAdds | src/driver/lease_store.cpp:222-241 | A create adds exactly one record, not pending, on a free temporary connector, with the next generation, and changes no other record |
| LeaseStoreInvariant.CreateJoins | src/driver/lease_store.cpp:214-255 | The created record is on the requested lease and shows that lease's times; other leases keep theirs |
| LeaseStoreInvariant.CreateIdentity | src/driver/lease_store.cpp:197-207 | The identity given out is used by no active display |
| LeaseStoreInvariant.CreateReservations | src/driver/lease_store.cpp:209-212 | After a create nobody else reserves the chosen connector, a retained display reserves it, and all other reservations are untouched |
| LeaseStoreInvariant.RefusedCreateInv | src/driver/lease_store.cpp:191-202 | A refused create changes nothing but, possibly, reservations, and keeps the invariant |
| LeaseStoreInvariant.ReclaimInv | src/driver/lease_store.cpp:265-327 | Moving every display of a lease onto a fresh lease keeps the joint invariant |
| LeaseStoreInvariant.AbandonInv | src/driver/lease_store.cpp:372-405 | Evicting a condemned record keeps the joint invariant, so nothing is left on the connector it quarantines |
| LeaseStoreInvariant.ReapInv | src/driver/lease_store.cpp:566-581 | Reaping keeps the joint invariant, so the leases left are exactly those with a display left |
| ConnectorPolicy.SelectionSucceedsIff | src/driver/lease_store.cpp:709-746 | A connector is found exactly when some temporary connector is neither active nor quarantined |
| ConnectorPolicy.SelectionFailsExactlyWhenFull | src/driver/lease_store.cpp:637-677 | Selection fails exactly when active plus quarantined connectors fill the range, saturated at 32 bits as it may be |
| ConnectorPolicy.SelectionFailsAtTheMaximum | src/driver/lease_store.cpp:643-648 | While the range does not overflow, that is when they number the maximum |
| ConnectorPolicy.EvictionOnlyWhenNoneOpen | src/driver/lease_store.cpp:723-746 | Another display loses its reservation to a create only when no unreserved free connector was left |
| ConnectorPolicy.RunKeepsOneToOne | src/driver/lease_store.cpp:695-746 | From one-to-one starting reservations, reservations stay one-to-one over every run |
| ConnectorPolicy.QuarantinedForever | src/driver/lease_store.cpp:400-403 | A quarantined connector stays quarantined, unoccupied and unreserved over every run, from any starting reservations |
| ConnectorPolicy.QuarantinedNotReissued | src/driver/lease_store.cpp:709-721 | No create in any later run is given a quarantined connector, although the reservation fast path never tests quarantine |
| ConnectorPolicy.EvictedNeverReissued | src/driver/lease_store.cpp:372-405 | The connector of a condemned display that its owner evicts is given to nobody in any later run |
| ConnectorPolicy.ReturnsToItsConnector | src/driver/lease_store.cpp:329-350 | A retained display that is removed and recreated gets its old connector back, unless in between it was abandoned, had its reservation released, or a create found no open connector |
| LeaseFencing.ReclaimFences | src/driver/lease_store.cpp:289-319 | After a reclaim nothing refers to the old lease, and each display it had is authorized under the new one, for the same owner, with its connector and generation |
| LeaseFencing.OldLeaseStaysFenced | src/driver/lease_store.cpp:289-293 | Over every run in which no create or reclaim chooses the id anew, a fenced lease stays dead |
| LeaseFencing.FencedIsRefused | src/driver/lease_store.cpp:352-370 | After every such run, with a fenced lease no display is authorized, removed, marked or abandoned, and nothing is fed or released |
| LeaseFencing.OnlyTheOwnerIsAuthorized | src/driver/lease_store.cpp:183-187 | Over every run through which a lease lives, its owner does not change and nobody else is authorized by it |
| LeaseDeadlines.StaysIffFedInTime | src/driver/lease_store.cpp:422-453 | Over every run that leaves a display and its lease alone, that very display stays exactly if no reap came at or past the deadline which the renewals, read off the requests alone, had set, and then runs to the deadline they have left; otherwise it is gone for good |
| LeaseDeadlines.ReapTakesAll | src/driver/lease_store.cpp:566-581 | The first reap at or past an unfed lease's deadline takes every display of the lease |
| LeaseDeadlines.StepRuns | src/driver/lease_store.cpp:436-450 | Any other operation keeps the display and moves its deadline only as a renewal in time asks |
| LeaseDeadlines.AuthorizedWhileFed | src/driver/lease_store.cpp:352-370 | Over every run that leaves a display and its lease alone, whoever asks is authorized to use that very display exactly if it presents the capability the lease is bound to, the lease was fed before each deadline, and the deadline the requests have left lies ahead |
| LeaseRequests.CreateGrantedIff | src/driver/lease_store.cpp:166-202 | In every reachable state a create is granted exactly if the request is sound, the id is not stored, there is room, the lease (if live) has not expired, has nothing condemned and is not bound to another presented owner, some connector of the range is neither in use nor quarantined, and a retained identity is unused |
| LeaseRequests.CreateErrors | src/driver/lease_store.cpp:166-202 | Otherwise the error names the first of these conditions that fails |
| LeaseRequests.OnlyTheOwnerJoins | src/driver/lease_store.cpp:185-189 | Over every run through which a lease bound to an owner lives, a create that presents another capability is refused and leaves the store as it was |
| LeaseRequests.CreateBinds | src/driver/lease_store.cpp:214-255 | A create opens its lease with the time granted, or leaves it its times and owner; it binds a lease that has no owner yet, and touches no other lease |
| LeaseRequests.OwnersPresented | src/driver/lease_store.cpp:243-255 | Every capability in force after a run was in force before it or was presented by a create of the run |
| LeaseRequests.TimeGranted | src/driver/control_protocol.cpp:77-83 | The timeout granted is the one between 3 s and 300 s nearest to the one asked for, and 10 s if none was |
| LeaseRequests.IdentityNotReissued | src/driver/lease_store.cpp:203-207 | An ephemeral identity is not given out again, whether its display is still there or not, while the operations since number less than 2^32 over the most displays there can be |
| LeaseRequests.FeedGrantedIff | src/driver/lease_store.cpp:426-438 | A feed is granted exactly while the lease runs and no condemned display of it has run out; refused, it changes nothing |
| LeaseRequests.ReclaimGrantedIff | src/driver/lease_store.cpp:265-293 | A reclaim is granted exactly to the owner of a running lease with nothing condemned, for a lease id not in use; refused, it changes nothing |
| LeaseRequests.RemoveExact | src/driver/lease_store.cpp:329-350 | A removal takes that display alone, its lease if it was the last on it, and its reservation if asked; and nothing if the display is on another lease |
| LeaseRequests.AbandonGrantedIff | src/driver/lease_store.cpp:372-398 | An eviction is granted exactly to the owner of the lease, for a condemned record named by its generation |
| LeaseRequests.AbandonExact | src/driver/lease_store.cpp:400-404 | It takes that display alone, with its reservation, and quarantines its connector |
| LeaseRequests.ReleaseExact | src/driver/lease_store.cpp:455-475 | A release takes exactly the displays of the lease; exactly the leases with a display left stay, unchanged |
| LeaseRequests.ReapExact | src/driver/lease_store.cpp:566-581 | A reap takes exactly the displays that have run out; exactly the leases with a display left stay, unchanged |
| LeaseRequests.CondemnedStays | src/driver/lease_store.cpp:407-420 | Over every run, for as long as a condemned record is stored it is the very same record, on its lease, with its deadline |
| LeaseRequests.CondemnedIsRefused | src/driver/lease_store.cpp:352-370 | So after every such run nobody is authorized to use it, nobody else joins or reclaims its lease, and nobody renews that lease once the record has run out |
| LeaseStore.DisplayStore.CreateTemporaryDisplay | src/driver/lease_store.cpp:161-263 | The in-place create leaves the store as the specification says, reports the same error, and keeps the invariant |
| LeaseStore.DisplayStore.ConnectorIndexForDisplay | src/driver/lease_store.cpp:709-746 | The three-stage search with its eviction returns the specified connector and leaves the specified reservations |
| LeaseStore.DisplayStore.NextEphemeralIdentity | src/driver/lease_store.cpp:203-207 | The do-while search terminates, returns the first unused candidate and advances the counter past it |
| LeaseStore.DisplayStore.ReclaimTemporaryDisplay | src/driver/lease_store.cpp:265-327 | The in-place reclaim, with its loop over displays, computes the specified state |
| LeaseStore.DisplayStore.RemoveTemporaryDisplay | src/driver/lease_store.cpp:329-350 | The in-place removal, with or without its reservation, computes the specified state |
| LeaseStore.DisplayStore.AbandonPendingTemporaryDisplay | src/driver/lease_store.cpp:372-405 | The in-place eviction of a condemned record computes the specified state |
| LeaseStore.DisplayStore.MarkTemporaryDisplayPendingDeparture | src/driver/lease_store.cpp:407-420 | The in-place mark computes the specified state |
| LeaseStore.DisplayStore.FeedLease | src/driver/lease_store.cpp:422-453 | The in-place renewal, which skips pending displays, computes the specified state |
| LeaseStore.DisplayStore.ReleaseLease | src/driver/lease_store.cpp:455-475 | The erasing loop removes exactly the displays of the lease, and the lease |
| LeaseStore.DisplayStore.ReapExpired | src/driver/lease_store.cpp:566-581 | The erasing loop removes exactly the expired displays, counts them, and drops the leases left empty |
| ControllerSafety.NextInv | src/driver/driver_controller.cpp:88-309 | Every step of every operation keeps the store invariant, the lineage of each record observed by an operation in flight, and the backend mutex to one holder |
| ControllerSafety.RunMachineInv | src/driver/driver_controller.cpp:12-37 | The machine's invariant holds after every interleaving |
| ControllerSafety.OnlyObservedRecordsTouched | src/driver/driver_controller.cpp:46-53 | Whatever is removed, replaced or marked is the one record that the returning backend call was about, by display, lease and generation: removed because its departure is done, to roll back its own create, or evicted by its owner into quarantine; marked only because its departure Failed, never because of Busy |
| ControllerSafety.TouchedRecordWasObserved | src/driver/driver_controller.cpp:361-387 | From a fresh driver, that record is one which the same operation, since it started, had seen in the store when it let go of the controller lock |
| ControllerSafety.GenerationNamesLineage | src/driver/driver_controller.cpp:192-309 | Over every run a generation names one record: same display, connector and identity, and once pending always pending |
| ControllerMonitors.EveryMonitorAccounted | src/driver/driver_controller.cpp:229-308 | From a fresh driver, after any interleaving, every monitor has a stored record of its generation, an operation in flight that owns it, or was left by a quarantined eviction or a refused clean-up departure |
| ControllerMonitors.RunMonitorInv | src/driver/driver_controller.cpp:605-659 | The accounting of monitors holds after every run |
| ControllerMonitors.LostIsNotShown | src/driver/driver_controller.cpp:372-378 | A record lost when an operation resumes is shown by no monitor, unless it was evicted into quarantine |
| ControllerAgreement.StoreAndBackendAgree | src/driver/driver_controller.cpp:102-158 | After every guarded run, each fully created record that is not pending has a monitor of its generation, except while a departure of it is between backend and store |
| ControllerAgreement.NextGuardedInv | src/driver/driver_controller.cpp:192-309 | Each guarded step keeps agreement and the lease of every observed record |
| ControllerAgreement.StillStoredIsGuarded | src/driver/driver_controller.cpp:102-115 | An unfenced departure is guarded whenever the condemned record it observed is still stored |
| ControllerExactness.StepExact | src/driver/driver_controller.cpp:88-309 | For every task, every answer of the backend (done, failed or busy, keeping what it likes) and every state that agrees, guarded or not: store and backend agree after the answer and the section upon it exactly if the step was safe, a condition on the state at the call and on the answer |
| ControllerExactness.DepartureExact | src/driver/driver_controller.cpp:361-387 | The part of it for departures: unsafe exactly if the departure clears the monitor of a live record that it has not in hand |
| ControllerExactness.StrandedDisagrees | src/driver/driver_controller.cpp:180-264 | A create that is left with a record it cannot remove leaves it live without a monitor |
| ControllerExactness.UnfencedDepartureExact | src/driver/driver_controller.cpp:105-158 | After an unfenced departure, however it is answered, and its create, store and backend agree exactly if the display id belonged to no live record at the call, or the answer spared that record's monitor |
| ControllerExactness.ReclaimOverlapExact | src/driver/driver_controller.cpp:343-388 | With a reclaim between a removal's start and its departure, however that is answered, store and backend agree afterwards exactly if the reclaim did not move that display's lease, or the answer spared its monitor |
| ControllerExactness.ReclaimOverReservingExact | src/driver/driver_controller.cpp:180-227 | With a reclaim over a create that waits to reserve its identity, or to take it back, agreement is lost exactly if the create's lease moved |
| ControllerExactness.ReclaimOverArrivalExact | src/driver/driver_controller.cpp:229-309 | With a reclaim over a create that waits to arrive, and the create run to its end however its calls are answered, store and backend agree exactly if its lease did not move, or the arrival was done and the clean-up departure spared the monitor |
| ControllerExactness.DepartureGuardNeeded | src/driver/driver_controller.cpp:102-115 | From every fresh driver with room, a run without reclaims, in which two creates set out over one condemned record, ends with a live record that has no monitor |
| ControllerExactness.ReclaimGuardNeeded | src/driver/driver_controller.cpp:343-388 | From every fresh driver with room, a run guarded but for a reclaim over a removal ends with a live record that has no monitor |
| ControllerExactness.CreateGuardNeeded | src/driver/driver_controller.cpp:264-281 | From every fresh driver with room, a run guarded but for a reclaim over an arrival ends with a live record that has no monitor |
| ControllerOperations.SweepVisitsAll | src/driver/driver_controller.cpp:416-446 | In every interleaving, a release or reap that has listed some displays is, after its k-th answer, done with exactly k of them and at the next; its operation is over when, and only when, the last has been answered |
| ControllerOperations.KthCallIsAboutKthRecord | src/driver/driver_controller.cpp:623-656 | The departure answered or timed out after k others is about the k-th display listed |
| ControllerOperations.SweepOutcome | src/driver/driver_controller.cpp:416-446 | A sweep by itself, answered as you like: each display listed is removed, condemned or left alone as its own answer says, and every other is untouched |
| ControllerOperations.ReleaseClears | src/driver/driver_controller.cpp:397-448 | A release with nothing else going on, all departures done, leaves no display of the lease stored or shown, and touches no other |
| ControllerOperations.ReapClears | src/driver/driver_controller.cpp:605-659 | A reap with nothing else going on, all departures done, leaves exactly the displays that are neither condemned nor past their deadline |
| ControllerOperations.CreateEnds | src/driver/driver_controller.cpp:182-309 | A create by itself, for every way its calls are answered: stored and shown exactly if all were done; otherwise taken back, with its reservation, unless the backend had reserved the identity and would not take it back |
| ControllerOperations.ReserveOutcome | src/driver/driver_controller.cpp:184-211 | If the identity could not be reserved, the record and its reservation are taken back and the create is over |
| ControllerOperations.PreDepartOutcome | src/driver/driver_controller.cpp:102-158 | With the condemned display still stored, a create over it goes ahead exactly if the departure was done, or failed for the owner of its lease, and then its connector is quarantined; otherwise the store is unchanged |
| ControllerRefinement.ControllerRunsTheStore | src/driver/driver_controller.cpp:88-309 | The store after any interleaving of the controller is the store after a run of its own operations, read off the interleaving step by step |
| ControllerRefinement.ReclaimFencesOperations | src/driver/driver_controller.cpp:311-341 | Whatever was under way when a reclaim moved a lease, and whatever starts later, nobody is authorized and nothing is fed with the old lease unless a create or reclaim names it anew |
| ControllerRefinement.QuarantineOutlivesOperations | src/driver/driver_controller.cpp:117-138 | A connector once quarantined is neither used nor reserved again, however the operations interleave |
| FrameRingProtocol.RunInv | src/driver/frame_ring_lifetime.cpp:20-121 | Every run, over any store states and times, keeps the invariant of rings, publications and entries |
| FrameRingProtocol.EnabledPublicationIsCurrent | src/driver/frame_ring_lifetime.cpp:31-49 | After every run each publication, the newest included, has a nonzero generation, and one still enabled is that of the ring on the table, named by its display's entry with that ring's owner |
| FrameRingProtocol.PublicationsAreExclusive | src/driver/frame_ring_lifetime.cpp:31-49 | Ring generations are never reused, and no display has two enabled publications |
| FrameRingProtocol.RunAges | src/driver/frame_ring_lifetime.cpp:77-121 | Over every run publications keep their display and generation and are never enabled again |
| FrameRingProtocol.ServerStepsSynchronize | src/driver/frame_ring_server.cpp:44-68 | After each server operation that passes its checks, an enabled ring is exactly the one named by the entry's reply, in both directions |
| FrameRingProtocol.ResetInv | src/driver/frame_ring_server.cpp:150-157 | A reset leaves no ring able to publish and keeps the marks |
| FrameRingProtocol.MarkNeverFalls | src/driver/frame_ring_server.cpp:90-128 | While lease, capability and generation stay authorized, the entry stays, its peer does not change and its cookie mark never falls |
| FrameRingProtocol.NothingBelowTheMark | src/driver/frame_ring_server.cpp:31-43 | After any such run a registration at or below the mark makes no ring, and succeeds only as an identical replay from the same peer with the same reply |
| FrameRingProtocol.RegisterIssues | src/driver/frame_ring_lifetime.cpp:20-49 | A registration issues the next generation, leaves the new ring able to publish, and disturbs no other authorized ring |
| FrameRingProtocol.RetireNamed | src/driver/frame_ring_lifetime.cpp:77-90 | Retiring what an entry names silences that display and no other |
| FrameRingOutcomes.ClearGrantedIff | src/driver/frame_ring_server.cpp:90-127 | A clear succeeds exactly for the peer that registered, authorized now, if the ring it names is the one that can publish; a cancel, for any cookie not below that peer's mark, or if nobody holds the display |
| FrameRingOutcomes.ClearSilences | src/driver/frame_ring_server.cpp:107-127 | After a clear or cancel that succeeds its display cannot publish, its mark is the cookie named and it has no reply; every other display is as after a reap |
| FrameRingOutcomes.ClearedStaysSilent | src/driver/frame_ring_server.cpp:121-127 | While its owner stays authorized, a display cleared or cancelled at a cookie cannot publish after any run that registers nothing for it above that cookie |
| FrameRingOutcomes.ClearedIsNotRegistered | src/driver/frame_ring_server.cpp:31-43 | And after any run, a registration at or below that cookie makes no ring and does not succeed |
| FrameRingOutcomes.RegisterGrantedIff | src/driver/frame_ring_server.cpp:23-69 | A registration succeeds exactly if the display is free or held by the same peer, the cookie is above the mark, the resources import and a generation is left; or if it repeats the request whose ring can still publish |
| FrameRingOutcomes.RegisterTakesEffect | src/driver/frame_ring_server.cpp:44-68 | One above the mark that succeeds makes one ring under the next generation, for that peer, owner and cookie; every other display is as after a reap |
| FrameRingOutcomes.FailedRegistrationSilences | src/driver/frame_ring_server.cpp:44-62 | One above the mark that fails spends its cookie and silences the display |
| FrameRingOutcomes.ReapExact | src/driver/frame_ring_server.cpp:130-149 | A reap silences exactly the rings, and drops exactly the entries, whose owner the store no longer vouches for; a reply stays exactly while its ring can publish |
| FrameRingOutcomes.SweepExact | src/driver/frame_ring_lifetime.cpp:109-121 | A sweep of the table leaves exactly the rings of authorized owners |
| FrameRingOutcomes.NamedRetireExact | src/driver/frame_ring_lifetime.cpp:77-100 | Retiring by name takes the display's ring exactly if it is the one named, and no other |
| FrameRings.FrameRingLifetime.RegisterRing | src/driver/frame_ring_lifetime.cpp:20-49 | The in-place registration computes the specified table, status and generation |
| FrameRings.FrameRingLifetime.SnapshotRing | src/driver/frame_ring_lifetime.cpp:60-75 | The lookup returns the ring and retires it if its owner is no longer authorized |
| FrameRings.FrameRingLifetime.RetireUnavailable | src/driver/frame_ring_lifetime.cpp:109-121 | The erasing walk retires exactly the rings of unauthorized owners, and counts them |
| FrameRings.FrameRingLifetime.Reset | src/driver/frame_ring_lifetime.cpp:102-107 | Reset disables and drops every ring, keeping the generation counter |
| FrameRings.FrameRingServer.RegisterRing | src/driver/frame_ring_server.cpp:23-69 | The in-place registration computes the specified server, status and reply |
| FrameRings.FrameRingServer.ClearRing | src/driver/frame_ring_server.cpp:90-128 | The in-place clear or cancel computes the specified server and status |
| FrameRings.FrameRingServer.ReapAll | src/driver/frame_ring_server.cpp:130-149 | The erasing walk over entries computes the specified server in any order, and counts what it erased |
| FrameRings.FrameRingServer.Reset | src/driver/frame_ring_server.cpp:150-157 | Reset retires what the entries name and clears the replies |
| PresentTrace.TraceRing.Publish | linux/vibeshine-drm/vkms_drv.c:640-653 | Publishing appends one numbered event to the log that the 4096 slots are a window of |
| PresentTrace.TraceRing.Drain | linux/vibeshine-drm/vkms_drv.c:180-232 | A drain returns up to 64 consecutive events after the later of the cursor and the last overwritten one; overflow is set exactly when wanted events were overwritten; the slot mismatch never happens |
| PresentTrace.ReaderMissesOnlyWhatItIsTold | linux/vibeshine-drm/vkms_drv.c:204-228 | However publishing and draining interleave, events arrive once and in order, and the reader holds the whole log up to its cursor exactly if no drain raised the flag |
| PresentTrace.DrainAllYieldsRetained | linux/vibeshine-drm/vkms_drv.c:216-228 | Repeated draining yields each retained event once, in order |
| PresentTiming.PresentOutput.AtomicFlush | linux/vibeshine-drm/vkms_crtc.c:381-419 | The flush arms the commit's record and completes it, or leaves it in the pending slot |
| PresentTiming.PresentOutput.HandleVblank | linux/vibeshine-drm/vkms_crtc.c:34-66 | A vblank latches the time of the pending commit when its flip is done, and empties the slot |
| PresentTiming.PresentOutput.TakeTimestamp | linux/vibeshine-drm/vkms_crtc.c:487-504 | Publication detaches and disarms the commit, and reports the latched time or the fallback |
| PresentTiming.PublishedTimestamp | linux/vibeshine-drm/vibeshine_drm_present.h:20-45 | In every serialized run the published time is that of the commit's own completion as read off the event log, or the fallback if it had none |
| PresentTiming.PublishedTimestampIsFinal | linux/vibeshine-drm/vibeshine_drm_present.h:38-45 | Nothing after a commit's publication, with whatever fallback, changes its latched or reported time |
| PresentTiming.SlotEmptyAtFlush | linux/vibeshine-drm/vkms_crtc.c:393-397 | The pending slot is empty at each flush, so the warning there never fires |
| PresentTiming.SlotNeverPublished | linux/vibeshine-drm/vkms_drv.c:726-734 | The pending slot never names a published commit |
| FrameReferences.EverythingConserved | linux/vibeshine-drm/vkms_drv.c:614-691 | After every interleaving, references equal the outputs, readers, tails and shutdown variables that refer, pending counters equal accepted unpublished commits, no counter was repaired, and the device was unplugged at most once |
| FrameReferences.ReferencesNext | linux/vibeshine-drm/vkms_drv.c:363-426 | Each get, put and pointer swap keeps the reference counts equal to the variables that refer |
| FrameReferences.PendingNext | linux/vibeshine-drm/vkms_drv.c:670-691 | Each step keeps the pending counters equal to the accepted, unpublished commits, without a repair |
| FrameReferences.ShutdownNext | linux/vibeshine-drm/vkms_drv.c:842-921 | Each step keeps the shutdown order: nothing in flight after the drain, nothing shown after the release, unplug after quiesce |
| FrameReferences.NothingShownAfterQuiesce | linux/vibeshine-drm/vkms_drv.c:777-797 | Once a quiesce has returned, no later run accepts a commit, publishes a buffer or shows one |
| FramePublication.ShowsLastPublished | linux/vibeshine-drm/vkms_drv.c:635-648 | After every interleaving from a fresh device, an output shows exactly what the last swapping publication on it had taken, or nothing if that took none, there was none, or the shutdown has taken it since |
| FramePublication.PublicationShows | linux/vibeshine-drm/vkms_drv.c:635-648 | A publication that swaps shows what its commit took for that output, whatever else ran in between |
| FramePublication.ReaderHolds | linux/vibeshine-drm/vkms_drv.c:363-370 | A reader holds exactly what the output showed when it asked, and that stays referenced until it is done |
| FramePublication.OnlyTheQuiescerCommits | linux/vibeshine-drm/vkms_drv.c:851-861 | Once a quiesce has begun, only the thread that began it ever commits again |
| FramePublication.EndsQuiesced | linux/vibeshine-drm/vkms_drv.c:863-880 | When it ends, nothing is in flight, shown or accepted in any run that follows |
| YuvWalk.TestFindsBoundary | linux/vibeshine-drm/vkms_formats.c:174-188 | For all directions and coordinates, C remainder included, the advance test fires exactly where the line crosses a chroma boundary |
| YuvWalk.WalkedIsDirectIff | linux/vibeshine-drm/vkms_formats.c:546-550 | The walked chroma coordinate is the directly divided one exactly if C rounds start and pixel the same way |
| YuvWalk.WalkIsDirect | linux/vibeshine-drm/vkms_formats.c:34-55 | Inside the picture the walked chroma address is that of (x / hsub, y / vsub) |
| YuvWalk.ReadSemiplanar | linux/vibeshine-drm/vkms_formats.c:537-567 | The two-plane reader converts every pixel at its directly addressed luma and chroma |
| YuvWalk.ReadPlanar | linux/vibeshine-drm/vkms_formats.c:583-619 | The three-plane reader converts every pixel at its directly addressed luma and both chroma channels |
| DriverState.DecodeEncode | src/driver/windows_driver_state.cpp:106-111 | Reading back a written profile gives the same eight fields |
| DriverState.EncodeDecode | src/driver/windows_driver_state.cpp:129-135 | Writing back a read profile gives the same 36 bytes |
| DriverState.SerializeProfiles | src/driver/windows_driver_state.cpp:122-137 | The writing loop produces header and records in order |
| DriverState.ParseProfiles | src/driver/windows_driver_state.cpp:89-120 | The parser accepts exactly the serializations of bounded lists of valid profiles |
| DriverState.SerializeInjective | src/driver/windows_driver_state.cpp:122-137 | Different bounded lists have different blobs, so parsing returns the list serialized |
| DriverState.BlobLayout | src/driver/windows_driver_state.cpp:122-137 | Byte by byte: version 1, the count, then at 8 + 36 i the eight fields of profile i, little-endian |
| DriverState.UpsertSucceeds | src/driver/windows_driver_state.cpp:139-176 | Upserting a valid profile into a well-formed list always succeeds, keeps ids and connectors distinct, and keeps exactly the entries sharing neither |
| DriverState.RemoveKeeps | src/driver/windows_driver_state.cpp:178-193 | Removal drops exactly the display's entries and keeps the list well-formed |
| DriverState.RoomLeft | src/driver/windows_driver_state.cpp:166-173 | Entries that all avoid one connector leave room, by counting connectors |
| DriverState.ConnectorReservations | src/driver/windows_driver_state.cpp:195-203 | Each display reserves the connector of its first entry; for a well-formed list the map is one-to-one |
| BrokerCommands.ParsePrint | src/driver/broker_commands.cpp:22-44 | Every 32-bit number, signed or not, is read back from its decimal text |
| BrokerCommands.TrimCommand | src/driver/broker_commands.cpp:12-20 | The two trimming loops compute the trimmed text |
| BrokerCommands.SplitBrokerWords | src/driver/broker_commands.cpp:62-80 | The cursor loop returns the words and stops right after the last one |
| BrokerCommands.ParseBrokerCommand | src/driver/broker_commands.cpp:272-306 | The parser's steps compute the specified fields, or fail |
| BrokerCommands.CommandRoundTrip | src/driver/broker_commands.cpp:180-183 | For every name, trimming and parsing a printed command returns all numbers and the trimmed name cut to the name field, or fails if the name trims away |
| BrokerCommands.CommandRoundTripIff | src/driver/cli_commands.cpp:275-303 | The command reproduces its fields exactly if the name is not empty, fits, and has nothing to trim |
| BrokerCommands.PermanentSetRoundTrip | src/driver/cli_commands.cpp:275-286 | For a safe name, the permanent-set command reproduces the request exactly if no space leads or trails the name |
| BrokerCommands.ProfileSetRoundTrip | src/driver/cli_commands.cpp:288-303 | The same for the manifest-profile-set command, signed positions included |
| BrokerCommands.PermanentText | src/driver/cli_commands.cpp:275-286 | The permanent-set command, word by word |
| BrokerCommands.ProfileText | src/driver/cli_commands.cpp:288-303 | The manifest-profile-set command, word by word |
| BrokerCommands.PrintedIs | src/driver/cli_commands.cpp:275-303 | A number is printed as its decimal digits, without leading zeros, after a minus sign if negative |
| BrokerCommands.LineEndIgnored | src/driver/broker_commands.cpp:12-20 | A line end after a command, and spaces on either side, change nothing |
| EdidTiming.DetailedFits | src/driver/edid.cpp:98-118 | The expressible mode keeps the picture and has a rate and clock in range |
| EdidTiming.ClockNeverSaturates | src/driver/edid.cpp:84-96 | The 16-bit clock field is never clipped at the top, for all sanitized options |
| EdidTiming.RateExpressed | src/driver/edid.cpp:98-118 | The rate is the one asked for if it is at most 255 Hz and within the clock field; failing that 60 Hz or less; and failing that the greatest rate within the clock field |
| EdidTiming.BlankingShape | src/driver/edid.cpp:84-96 | Horizontal blanking is a fifth of the width, at least 160, rounded up to a multiple of 8; vertical a twentieth of the height, at least 45 |
| EdidTiming.RangeCoversFromAbove | src/driver/edid.cpp:218-250 | The upper vertical and pixel clock limits cover the detailed timing |
| EdidTiming.RangeIsTight | src/driver/edid.cpp:218-250 | The limits are no wider than they must be: the upper ones are the least that cover, or 60 Hz, 30 kHz and 300 MHz |
| EdidTiming.LowerVerticalCoversIff | src/driver/edid.cpp:231-241 | The lower vertical limit covers the computed timing exactly when that is at 30 Hz or above, or at a whole number of hertz |
| EdidTiming.LowerVerticalCoversModeIff | src/driver/edid.cpp:218-241 | In terms of the mode asked for: from 30000 mHz on, exactly if total pixels times rate reaches 30 Hz rounded up to the clock's unit; below, exactly if the clock is a whole number of hertz |
| EdidTiming.CoversAt30Iff | src/driver/edid.cpp:84-96 | At 30000 mHz exactly if 30 times the total pixels is a multiple of 10000 |
| EdidTiming.AlwaysCoversAbove | src/driver/edid.cpp:98-118 | From 31351 mHz on always, lowered rates included |
| EdidTiming.HdAt30IsNotCovered | src/driver/edid.cpp:231-241 | A plain 1920x1080 at 30 Hz is not covered |
| EdidTiming.SlowCoveredOnce | src/driver/edid.cpp:231-241 | Below 30 Hz some modes are covered: 10000 total pixels at 29 Hz |
| EdidTiming.HorizontalCoversIff | src/driver/edid.cpp:227-244 | The horizontal limits cover the timing exactly when its clock, in units of 10 kHz, lies between 3 and 25.5 for each pixel of a line |
| EdidTiming.HorizontalCoversModeIff | src/driver/edid.cpp:98-118 | In terms of the mode asked for: if the clock field limits the rate, the lower limit always covers and the upper one exactly from 2570 pixels a line on; otherwise exactly as lines, rows and the rate expressed say |
| EdidTiming.HorizontalMisses | src/driver/edid.cpp:227-244 | Neither end is always covered: one input runs over the byte, another runs under 30 kHz |
| Edid.CreateEdid | src/driver/edid.cpp:262-363 | The array encoder puts every section in its place, leaves zero what it does not write, and both block checksums hold |
| Edid.WriteChecksum | src/driver/edid.cpp:252-259 | The block sums to zero modulo 256 and nothing but its last byte changes |
| Edid.HasValidChecksums | src/driver/edid.cpp:365-377 | True exactly when both blocks sum to zero modulo 256 |
| Edid.SanitizeText | src/driver/edid.cpp:167-180 | The cleaning and trimming loops compute the sanitized text |
| Edid.WriteText | src/driver/edid.cpp:182-201 | The text descriptor holds the sanitized text, a line end and spaces, and nothing else changes |
| Edid.TimingReadBack | src/driver/edid.cpp:539-563 | The timing reader returns exactly the computed timing |
| Edid.IdentityReadBack | src/driver/edid.cpp:468-503 | Product and serial come back; the manufacturer comes back exactly if it is three letters A to Z |
| Edid.NameReadBack | src/driver/edid.cpp:505-537 | The name reader returns the sanitized name, or nothing if none of it is left |
| Edid.ReadMonitorName | src/driver/edid.cpp:505-537 | The scanning loops compute the first visible name of the four descriptors |
| Edid.AdvertisedRangeCovers | src/driver/edid.cpp:218-250 | In every encoded EDID the limits read cover the timing read, from below exactly on the condition that the mode gives |
| Edid.ReadHdrMetadata | src/driver/edid.cpp:414-435 | Reading an encoded EDID returns the HDR metadata written, or nothing without HDR |
| EdidFeatures.SizesReadBack | src/driver/edid.cpp:285-286 | The millimetre fields of the detailed timing give back width and height exactly, and bytes 21 and 22 are width and height in centimetres, rounded half up between 1 and 255 |
| EdidFeatures.SyncReadBack | src/driver/edid.cpp:139-165 | The sync pulses read lie within the blanking read, a third and a fifth of it across, three and five lines down; no border, not interlaced |
| EdidFeatures.ColoursReadBack | src/driver/edid.cpp:289-317 | Each chromaticity coordinate read is the nearest to that of BT.2020 with HDR, and of sRGB without |
| EdidFeatures.BasicsReadBack | src/driver/edid.cpp:280-323 | Version 1.4, digital, eight bits a colour, DisplayPort, gamma 2.2, neither established nor standard timings, one extension |
| EdidFeatures.SerialTextReadBack | src/driver/edid.cpp:320-320 | The serial descriptor holds the serial number, in full, in decimal |
| EdidFeatures.CleanTextKept | src/driver/edid.cpp:167-180 | A text that is short, printable and without a space at its end is written as it is |
| EdidFeatures.ReadColorimetry | src/driver/edid.cpp:437-450 | Reading an encoded EDID returns all three BT.2020 encodings with HDR, and nothing without |
| EdidFeatures.ExtensionReadBack | src/driver/edid.cpp:326-359 | The extension is CTA-861 revision 3 with 64 bytes of data blocks with HDR and none without |
| EdidFeatures.SanitizedIsNearest | src/driver/edid.cpp:120-137 | Sizes and rate are moved into range and no further; all else is as given |
| CtaBlocks.FindDataBlock | src/driver/edid.cpp:385-411 | For arbitrary bytes the walk terminates, stays in bounds and returns the first matching block of the chain, or nothing if none matches |
| CtaBlocks.OneChain | src/driver/edid.cpp:395-408 | The blocks form a single chain, so what the walk skips is on no block boundary |

## Left out

- Request validation (namespace, reserved fields, display modes, names) is one flag `wellFormed`; settings of a record that no decision depends on (size, name, luminance) are not stored.
- The permanent display count, the display manifest, the render adapter and state queries: they share no state with the operations modelled.
- An owner capability is a number, and comparing two is equality.
- Times are integers on one clock; the expiry arithmetic does not overflow.
- The display generation counter is unbounded, as no run can exhaust 64 bits; likewise the trace sequence.
- The backend is a set of (display id, generation) monitors; a departure that fails may leave or clear what it targets, an arrival adds its monitor. The backend's own clean-up of stale monitors on arrival and its connector-level state are not part of this model.
- Backend identity reservations are modelled by their results only.
- The controller is a machine of steps over a store value, not an object with locks; a lock timeout is a step that may happen at any time. That an operation's lock is eventually taken (liveness) is not stated.
- Reclaim under a busy backend mutex changes nothing and is not a step.
- `query_target` of the frame ring server reads the store only. Publication sequence numbers and the frame resources themselves are left out; an importer answers yes or no.
- The outputs a commit touches are fixed when it is accepted; the source works them out again from the same atomic state when it publishes.
- DRM core, timers, wait queues and dma-buf export: two things are assumed of them: the DRM shutdown returns only when no commit is in flight, and a commit's flush follows publication of the commits before it.
- Pixel conversion, colour mathematics and formats whose blocks are not single pixels; the line readers take the conversion as a function of the addresses read.
- The HDR luminance code (floating point) is a byte handed to the encoder, and the chromaticity bytes are constants, of which the rounding is proved.
- Windows device, registry, service and pipe code, the command line's option parsing, and formatting of results.
- Container GUIDs and permanent display identities: expressions that one reads off.
- A controller step is one whole store section: interleavings inside a section, which the controller lock forbids, are not represented.

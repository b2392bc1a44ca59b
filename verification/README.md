# Verified model of the NFD RIB, the NDN consumers and the routing helpers

A Dafny model of the parts of the repository that carry the most state, and proofs of what they do:

- **RIB to FIB** (`Routes`, `RibTree`, `NameOrder`, `RibEntries`, `Ribs`, `FibUpdates`, `FibUpdaters`, `FibDeltas`,
  `FibSpec`, `EntryUpdates`, `FibRefinement`, `FibRuns`, `FibSteps`, `FaceRemoval`, `FibFaults`). The RIB is a tree of names.
  `FibUpdater` turns one change of it into commands that add and remove next hops, pushing child-inherit routes down the
  tree as far as the first entry that captures. `FibSpec` defines, from the routes alone, which next hops a RIB calls for.
  The classes follow the source loop by loop and are proved against closed forms per name and face (`FibDeltas`).
  `EntryUpdates` compares one entry's part of a closed form with what the entry should hand down, `FibRefinement` carries
  that over the tree to a whole RIB and `FibRuns` to whole runs. `FibSteps` shows that the runs exist, `FaceRemoval` is about
  the batches of a destroyed face, and `FibFaults` constructs a run for each of the conditions that make an update harmful.
- **Sending the commands** (`Forwarder`, `SendProtocol`, `SendSafety`, `SendEffects`, `Batches`, `BatchQueue`,
  `QueueFaults`). Commands for the face of the batch first, the others once those are acknowledged, with retries after a
  timeout. A run answers the outstanding commands in any order. `Batches` puts the computation, the sending and the change
  of the RIB together. `BatchQueue` is about several batches: one that fails may leave commands without a response, and
  their callbacks act on the lists of the next.
- **Consumers** (`Rtt`, `Consumers`, `ConsumerRuns`, `ConsumerLaws`, `Pcon`, `PconRuns`, `WindowLaws`). Sequence
  numbers that are on their way, timed out or done, the round trip estimator beside them, and the congestion window of
  `ConsumerPcon` on top.
- **Global routing** (`Topology`, `GlobalRouting`, `RouteCalculation`). Installing routers along channels, and computing
  routes through every face by making the other faces expensive for a while.
- **Address ranges** (`Cidr`) and **attachment logs** (`Attachments`).

Each class has the source's fields. A `View()` gives its state as a value, each method equates the new view with a function
of the old one, and the run theorems are about those functions.

## Where the code does not do what one expects

These are results, each stated with the exact condition:

- The incremental FIB and the inherited records equal the recomputed ones after an update if and only if the update is
  harmless (`FibRefinement.Harmless`, a condition on the RIB before it; one route on each face is not assumed). It is not
  harmless when a stray route reaches some name below (`Stray`), when the changed name is given a next hop it should not
  have or not at that cost (`Overgranted`), or when its inherited record stays behind (`Stale`). Per kind of update
  `EntryUpdates` gives these as conditions on the changed entry, on the route found at its ancestors and on the route due
  from there. They include erasing a sole route that captures, turning capture on over another route that offers the same
  face as an ancestor, turning child-inherit off under capture, turning off one of two captures, erasing a route of an
  entry that keeps one on an ancestor's face, and adding a route without capture on a face the entry inherits.
  `FibFaults` has a run for each. Runs of routine updates, with one route at each name, stay right throughout
  (`FibRuns.Routine`, `FibRuns.RoutineRunIsExact`).
- Changing the capture flag of an existing route does not update the entry's count of capturing routes
  (fib-updater.cpp:117-121). This alone leaves the FIB right where the update is harmless, and misleads later updates
  (`FibFaults.StaleCountMisleads`).
- With several origins on a face the ancestors' route found is the first one and not always the cheapest
  (`FibFaults.SecondOriginMisleads`). Unregistering one of them can leave a cost that is not the least remaining one, or no
  next hop at all (`FibRuns.ErasedOriginExact`, `FibFaults.ErasedOriginLosesHop`).
- Raising the cost of the cheapest of several routes on a face above another one dereferences a null pointer at
  fib-updater.cpp:486 unless a route on the face child-inherits (`FibRuns.CrashesExactly`, `FibFaults.CrashIsReached`).
- A remove command that times out is retried as an add (fib-updater.cpp:293), so a run can report success with a FIB that
  still has the next hop (`SendEffects.SuccessIsExact`, `SendEffects.TimedOutRemoveAddsNextHop`).
- After a failure the next batch starts while commands of the failed one may be outstanding (rib.cpp:458-470). Their
  responses can empty the next batch's lists, start its second phase early or report the failed batch a success;
  `BatchQueue.StaysInOrderExactly` says which do, `QueueFaults` has the runs, and with at most one command for the own face
  of each batch it never happens (`BatchQueue.SmallBatchesKeepOrder`).
- The assertion `diff > 0` of `ConsumerPcon` fails exactly when a decrease takes effect while m_seq equals the highest Data
  number seen, on 32 bits (`PconRuns.MarkedContentAsserts`, `PconRuns.TimerAsserts`). Marked Data for the next, never issued,
  number leads there, and after Data for such a number so does marked Data for an issued one
  (`PconRuns.IssuedDataCanFail`). While all Data is for issued numbers it never fails (`PconRuns.PconRunKeepsInv`).
- Face metrics of 65536 and more do not survive `CalculateAllPossibleRoutes` (`RouteCalculation.RestoredAllExactly`).
- The change log of attachments cannot tell a satellite named "-" from no satellite (`Attachments.StoreAttachments`).
- The last epoch is in no interval of `addUserLinks`: the open interval ends at period - 1, excluded.

## Choices

- Names are sequences of components, and components of one type are ordered by length, then value. Parent and child
  pointers of entries are names into the table. The computing half of the updater reads a snapshot of the RIB, which it
  never changes. A `RouteSet` is a map from face to route, since its order compares faces only. Maps and sets iterate in an
  arbitrary order, except the table of the RIB where `findDescendants` relies on its order; no result depends on it.
- The forwarder, the network, clocks and timers are events of a run or parameters of a method. `ERROR_TIMEOUT` is the value
  of `sim/ndnSIM/ndn-cxx/ndn-cxx/mgmt/nfd/controller.cpp:33`. Times, windows and estimates are `real`; `pow(t - k, 3)` is an
  arbitrary real. Sequence numbers and `m_seq - m_highData` wrap at 2^32, weights at 2^32 and remembered metrics at 2^16.
- `Consumer` is a field of `ConsumerPcon`; its sweep is written out once more with the overriding `OnTimeout`. The
  precondition of the two sweeps, that waiting numbers are in the RTT history once each, is kept by every run
  (`ConsumerRuns.RunKeepsInv`). `Sensible` lists the configured values the window results ask for.
- Dijkstra's algorithm is a parameter. `RouteCalculation.Attained` and `Shortest` say what is assumed of it.
- What `from_string` makes of an address is a parameter of `Cidr.Network.Read`.

## Model

| member | source | states |
|---|---|---|
| `FibRuns.RoutineRunIsExact` | sim/ndnSIM/NFD/rib/fib-updater.cpp:92-186 | Whole runs from an empty RIB, one route at each name: if every update registers an absent name (any flags), changes a route's cost, toggles child-inherit of a non-capturing route, or unregisters a non-capturing (or absent) route, then in every state FIB and inherited records equal the ones recomputed from the routes alone, capture counts are right, and no such update crashes |
| `FibRefinement.StepIsExactlyHarmless` | sim/ndnSIM/NFD/rib/fib-updater.cpp:92-186 | Main theorem of the updater, for every update that does not crash and any number of origins, capture toggles included: from a RIB with right capture counts whose FIB and inherited records equal the ones recomputed from the routes alone, one acknowledged update leaves both equal to the recomputed ones of the new RIB **if and only if** the update is harmless, a condition on the RIB before it |
| `FibRefinement.StepExactAt` | sim/ndnSIM/NFD/rib/fib-updater.cpp:376-635 | The same at one name and face: the next hop is the recomputed one if and only if the pair is safe from stray routes, and then the inherited record is right unless it is left behind |
| `FibRefinement.RibStepExactAt` | sim/ndnSIM/NFD/rib/fib-updater.cpp:376-635 | The same without a FIB: the pending command turns the old next hop into the new one exactly at safe names |
| `FibRefinement.BelowExactAt` | sim/ndnSIM/NFD/rib/fib-updater.cpp:647-692 | Below the changed name: the pushes are right there exactly where the path is shut, the name has its own route on the face, or the pushed route is the one to inherit |
| `FibRefinement.SoundUnlessToggled` | sim/ndnSIM/NFD/rib/fib-updater.cpp:113-123 | The capture counts stay right exactly when the update does not change the capture flag of an existing route |
| `FibRefinement.StepKeepsInvExactly` | sim/ndnSIM/NFD/rib/fib-updater.cpp:92-186 | Bookkeeping, so that steps can be chained: FIB, records and capture counts are all right after the update if and only if it is harmless and toggles no capture |
| `FibRefinement.OfferFound` | sim/ndnSIM/NFD/rib/rib.cpp:301-347 | With any number of origins, the climb to the first capturing entry finds an ancestor's route exactly where the reference `Inherited` has one |
| `FibRefinement.OfferIsInherited` | sim/ndnSIM/NFD/rib/rib.cpp:301-347 | With one route on each face it also finds it at the reference cost |
| `FibRuns.RunIsExactlyHarmless` | sim/ndnSIM/NFD/rib/fib-updater.cpp:67-186 | Whole runs from an empty RIB, any number of origins: while the capture counts are right, FIB and records are right in every state if and only if every update was harmless when it was applied |
| `FibRuns.CountsStayRight` | sim/ndnSIM/NFD/rib/fib-updater.cpp:113-123 | They are right as long as no update has toggled the capture of an existing route |
| `FibRuns.NewNameHarmlessExactly` | sim/ndnSIM/NFD/rib/fib-updater.cpp:376-421 | Registering an absent name is harmless if and only if it captures or the ancestors' routes found on the other faces are the cheapest ones |
| `FibRuns.NewNameIsHarmless` | sim/ndnSIM/NFD/rib/fib-updater.cpp:376-421 | With one route on each face it always is, for all four flag combinations |
| `FibRuns.ReregistrationIsHarmless` | sim/ndnSIM/NFD/rib/fib-updater.cpp:462-559 | Changing a cost, or toggling child-inherit where the entry does not capture, is harmless |
| `FibRuns.SoleErasureIsHarmless` | sim/ndnSIM/NFD/rib/fib-updater.cpp:561-627 | Unregistering the only route of a name is harmless unless it captures |
| `FibRuns.RegisterThenUnregisterRestores` | sim/ndnSIM/NFD/rib/fib-updater.cpp:376-421 | Registering an absent name without capture and unregistering it again restores routes and FIB |
| `FibRuns.CrashesExactly` | sim/ndnSIM/NFD/rib/fib-updater.cpp:479-487 | The unguarded dereference of `prevRoute` is reached if and only if the one cheapest route on a face becomes dearer than another one there and no route on the face child-inherits |
| `FibRuns.SingleNeverCrashes` | sim/ndnSIM/NFD/rib/fib-updater.cpp:479-487 | With one route on each face it is never reached |
| `FibRuns.RecordedNamesArePresent` | sim/ndnSIM/NFD/rib/rib.cpp:472-480 | Every name in the inherited-route list is in the updated RIB, as `modifyInheritedRoutes` asserts |
| `FibRuns.ErasedOriginExact` | sim/ndnSIM/NFD/rib/fib-updater.cpp:158-177 | With any number of origins on one face, unregistering one leaves ADD with the least remaining cost if and only if the erased route was a cheapest one, two remaining routes tie, or an ancestor offers the face at that very cost |
| `FibSteps.StepExists` | sim/ndnSIM/NFD/rib/fib-updater.cpp:92-186 | Every update that does not reach the null dereference, one for a destroyed face included, can be carried out and acknowledged, so the runs of the theorems exist |
| `FaceRemoval.RemovalExactAt` | sim/ndnSIM/NFD/rib/fib-updater.cpp:67-90 | A batch for a destroyed face, at any name: no command for that face is pending; on every other face the pending command turns the old next hop into the one recomputed from the changed RIB **if and only if** the name is safe from stray routes, and then the record is right unless it is left behind |
| `FaceRemoval.InheritedHopIsRemoved` | sim/ndnSIM/NFD/rib/fib-updater.cpp:629-635 | When the last route of a name goes with its face, each next hop the name had inherited on another face is removed |
| `FaceRemoval.RemovalKeepsHopsExactly` | sim/ndnSIM/NFD/rib/rib.cpp:362-374 | From a FIB that is right but for the destroyed face, such a batch keeps it right there if and only if every name is safe on every other face |
| `FaceRemoval.CutOffIsExactWithout` | sim/ndnSIM/NFD/daemon/table/cleanup.cpp:31-43 | A right FIB from which the forwarder has dropped the next hops on a face is right but for that face |
| `FaceRemoval.RemovedFaceLeavesExact` | sim/ndnSIM/NFD/rib/rib.cpp:362-374 | All batches of a destroyed face, any number of origins: harmless ones end, once no route on the face is left, with FIB and records recomputed from the routes that remain |
| `FaceRemoval.DestroyedFaceIsForgotten` | sim/ndnSIM/NFD/rib/rib.cpp:362-374 | With one route at each name and no capturing one on the face, one batch for each of its routes removes exactly the names that had one, and FIB and records are then those recomputed from the rest |
| `FibFaults.CaptureErasureLosesRoutes` | sim/ndnSIM/NFD/rib/fib-updater.cpp:561-597 | Constructs a run in which unregistering a sole capturing route leaves a next hop below it missing |
| `FibFaults.ChildInheritOffPassesCapture` | sim/ndnSIM/NFD/rib/fib-updater.cpp:524-537 | Constructs a run in which turning child-inherit off under capture pushes the ancestor's route past the capture |
| `FibFaults.CaptureOnRemovesOwnOffer` | sim/ndnSIM/NFD/rib/fib-updater.cpp:540-549 | Constructs a run in which turning capture on removes, below, the other route the entry offers on an ancestor's face |
| `FibFaults.NewCaptureRemovesOwnOffer` | sim/ndnSIM/NFD/rib/fib-updater.cpp:442-452 | The same for a new capturing route |
| `FibFaults.CaptureOffPassesCapture` | sim/ndnSIM/NFD/rib/fib-updater.cpp:550-558 | Constructs a run in which turning off one of two captures pushes the ancestor's route past the other one |
| `FibFaults.ErasureOverridesOwnOffer` | sim/ndnSIM/NFD/rib/fib-updater.cpp:585-597 | Constructs a run in which unregistering one route pushes the ancestor's route over the one the entry still offers |
| `FibFaults.NewRouteStaysRecorded` | sim/ndnSIM/NFD/rib/fib-updater.cpp:454-459 | Constructs a run in which a second route of a name, on the face it inherits, leaves the face recorded as inherited |
| `FibFaults.ErasureRecordsOwnFace` | sim/ndnSIM/NFD/rib/fib-updater.cpp:613-626 | Constructs a run in which unregistering one of two origins records the face as inherited beside the route that is left |
| `FibFaults.StaleCountMisleads` | sim/ndnSIM/NFD/rib/fib-updater.cpp:113-123 | Constructs a run in which turning on the capture of a route leaves everything right but the count, and a name registered below then gets a next hop past the capturing entry |
| `FibFaults.SecondOriginMisleads` | sim/ndnSIM/NFD/rib/rib.cpp:325-341 | Constructs a run in which a second origin leaves everything right, and a name registered below then gets the first route's cost and not the cheapest one |
| `FibFaults.SecondOriginIsPushedOn` | sim/ndnSIM/NFD/rib/fib-updater.cpp:396-414 | The same for a name below a new one that inherits on another face |
| `FibFaults.ErasedOriginLosesHop` | sim/ndnSIM/NFD/rib/fib-updater.cpp:158-177 | Constructs a run with routes of cost 1, 5 and 9 on one face: unregistering the last removes the next hop that two routes still call for |
| `FibFaults.CostRaisePicksWrongRoute` | sim/ndnSIM/NFD/rib/fib-updater.cpp:476-487 | Constructs a run with routes of cost 1, 5 and 8, the last inheriting: raising the 1 to 10 leaves a next hop of cost 8 where 5 is due |
| `FibFaults.ErasedRouteIsPushed` | sim/ndnSIM/NFD/rib/fib-updater.cpp:158-177 | Constructs a run with three origins in which the route just unregistered is pushed to the names below |
| `FibFaults.CrashIsReached` | sim/ndnSIM/NFD/rib/fib-updater.cpp:479-487 | Constructs a run with routes of cost 1 and 5 on one face, after which raising the 1 to 10 reaches the null dereference |
| `FibFaults.CaptureOnIsHarmless` | sim/ndnSIM/NFD/rib/fib-updater.cpp:540-558 | Turning on the capture of the only route of a name is harmless for FIB and records, though the count is wrong from then on |
| `FibFaults.RootRegistrationIsHarmless` | sim/ndnSIM/NFD/rib/fib-updater.cpp:423-460 | Every new route at the root is harmless, whatever the origins |
| `FibFaults.FurtherRouteIsHarmless` | sim/ndnSIM/NFD/rib/fib-updater.cpp:423-460 | So is a further route of any name on a face it does not inherit, unless it is the first that captures |
| `EntryUpdates.NewNameHandsDown` | sim/ndnSIM/NFD/rib/fib-updater.cpp:396-420 | New name: what the pushes leave below equals what the new entry hands down exactly when the route is not stray |
| `EntryUpdates.NewRouteHandsDown` | sim/ndnSIM/NFD/rib/fib-updater.cpp:423-460 | The same for a new route at a present name |
| `EntryUpdates.NewRouteSlotRight` | sim/ndnSIM/NFD/rib/fib-updater.cpp:432-459 | The new route's own name: its command is right, and its record unless left behind |
| `EntryUpdates.OverwrittenHandsDown` | sim/ndnSIM/NFD/rib/fib-updater.cpp:505-558 | The same below a changed route, for all flag changes and any other routes of the entry |
| `EntryUpdates.OverwrittenSlotRight` | sim/ndnSIM/NFD/rib/fib-updater.cpp:476-487 | The changed route's own name: cost branch and capture branch |
| `EntryUpdates.ErasedHandsDown` | sim/ndnSIM/NFD/rib/fib-updater.cpp:561-611 | The same below an erased route, the next origin on its face taken into account |
| `EntryUpdates.ErasedSlotRight` | sim/ndnSIM/NFD/rib/fib-updater.cpp:613-627 | The erased route's own name, with its entry gone or other routes left |
| `FibUpdaters.FibUpdater.constructor` | sim/ndnSIM/NFD/rib/fib-updater.cpp:41-46 | A new updater has empty lists, so nothing is pending or recorded anywhere |
| `FibUpdaters.FibUpdater.AddFibUpdate` | sim/ndnSIM/NFD/rib/fib-updater.cpp:313-334 | Exactly one pending command per name and face: the last one wins, all other slots stay |
| `FibUpdaters.FibUpdater.AddInheritedRoute` | sim/ndnSIM/NFD/rib/fib-updater.cpp:694-703 | Records exactly one face of one name as inherited |
| `FibUpdaters.FibUpdater.RemoveInheritedRoute` | sim/ndnSIM/NFD/rib/fib-updater.cpp:705-714 | Records exactly one face of one name as no longer inherited |
| `FibUpdaters.FibUpdater.AddInheritedRoutes` | sim/ndnSIM/NFD/rib/fib-updater.cpp:336-348 | Adds the offered faces the entry has no route on, and touches nothing else |
| `FibUpdaters.FibUpdater.AddInheritedRoutesExcept` | sim/ndnSIM/NFD/rib/fib-updater.cpp:350-362 | Adds the offered faces other than the ignored one, and touches nothing else |
| `FibUpdaters.FibUpdater.RemoveInheritedRoutes` | sim/ndnSIM/NFD/rib/fib-updater.cpp:364-374 | Removes the listed faces the entry inherits, and touches nothing else |
| `FibUpdaters.FibUpdater.TraverseSubTree` | sim/ndnSIM/NFD/rib/fib-updater.cpp:647-692 | Exactness of the traversal: for each descendant and face, add where the face is offered and the path is open, remove where the face is inherited and the path is open, else unchanged; add beats remove |
| `FibUpdaters.FibUpdater.ModifyChildrensInheritedRoutes` | sim/ndnSIM/NFD/rib/fib-updater.cpp:637-645 | The same for everything below a name, given its topmost descendants |
| `FibUpdaters.FibUpdater.RemoveFromEntry` | sim/ndnSIM/NFD/rib/fib-updater.cpp:656-672 | The first loop of the traversal: what is removed here and what is passed on |
| `FibUpdaters.FibUpdater.AddToEntry` | sim/ndnSIM/NFD/rib/fib-updater.cpp:674-689 | The second loop of the traversal: what is added here and what is passed on |
| `FibUpdaters.FibUpdater.CreateFibUpdatesForNewRibEntry` | sim/ndnSIM/NFD/rib/fib-updater.cpp:376-421 | The pending commands and records of a new name, as a closed form per name and face |
| `FibUpdaters.FibUpdater.CreateFibUpdatesForNewRoute` | sim/ndnSIM/NFD/rib/fib-updater.cpp:423-460 | The same for a new route at a present name |
| `FibUpdaters.FibUpdater.CreateFibUpdatesForUpdatedRoute` | sim/ndnSIM/NFD/rib/fib-updater.cpp:462-559 | The same for a changed route; reports failure exactly when the source would dereference a null `prevRoute` |
| `FibUpdaters.FibUpdater.UpdateOwnCost` | sim/ndnSIM/NFD/rib/fib-updater.cpp:476-487 | The cost branch at the name itself |
| `FibUpdaters.FibUpdater.ToggleFlags` | sim/ndnSIM/NFD/rib/fib-updater.cpp:505-558 | Both flag branches in their order |
| `FibUpdaters.FibUpdater.ToggleChildInherit` | sim/ndnSIM/NFD/rib/fib-updater.cpp:505-538 | The child-inherit branch |
| `FibUpdaters.FibUpdater.ToggleCapture` | sim/ndnSIM/NFD/rib/fib-updater.cpp:540-558 | The capture branch |
| `FibUpdaters.FibUpdater.CreateFibUpdatesForErasedRoute` | sim/ndnSIM/NFD/rib/fib-updater.cpp:561-627 | The closed form for an erased route |
| `FibUpdaters.FibUpdater.PushForErasedRoute` | sim/ndnSIM/NFD/rib/fib-updater.cpp:567-611 | What an erased route pushes below its name |
| `FibUpdaters.FibUpdater.CreateFibUpdatesForErasedRibEntry` | sim/ndnSIM/NFD/rib/fib-updater.cpp:629-635 | Removes exactly what the erased entry inherited |
| `FibUpdaters.FibUpdater.ComputeUpdatesForRegistration` | sim/ndnSIM/NFD/rib/fib-updater.cpp:92-144 | A registration has the effect of one of its three cases |
| `FibUpdaters.FibUpdater.ComputeUpdatesForUnregistration` | sim/ndnSIM/NFD/rib/fib-updater.cpp:146-186 | An unregistration has the combined effect of its steps |
| `FibUpdaters.FibUpdater.ComputeUpdates` | sim/ndnSIM/NFD/rib/fib-updater.cpp:67-90 | For the one update of a batch, every slot is the closed form `Delta`, whose meaning `FibRefinement.RibStepExactAt` and `FaceRemoval.RemovalExactAt` state; it fails exactly on the null dereference |
| `FibUpdaters.ChildrenForNonInsertedName` | sim/ndnSIM/NFD/rib/fib-updater.cpp:129-140 | The entries found to be the new name's children are the topmost names below it |
| `FibUpdaters.GetAncestorRoutes` | sim/ndnSIM/NFD/rib/rib.cpp:301-347 | The route set holds, per face, the route of the nearest child-inherit ancestor up to the first capturing one |
| `RibEntries.RibEntry.InsertRoute` | sim/ndnSIM/NFD/rib/rib-entry.cpp:48-63 | Appends a route of a new face and origin, counts its capture flag, and reports whether it did |
| `RibEntries.RibEntry.EraseRoute` | sim/ndnSIM/NFD/rib/rib-entry.cpp:65-70 | Erases the first route of that face and origin, if any, and uncounts its capture flag |
| `RibEntries.RibEntry.AddChild` | sim/ndnSIM/NFD/rib/rib-entry.cpp:94-100 | Links child and parent both ways |
| `RibEntries.RibEntry.RemoveChild` | sim/ndnSIM/NFD/rib/rib-entry.cpp:102-108 | Unlinks child and parent both ways |
| `RibEntries.RibEntry.AddInheritedRoute` | sim/ndnSIM/NFD/rib/rib-entry.cpp:128-132 | Marks the face as inherited |
| `RibEntries.RibEntry.RemoveInheritedRoute` | sim/ndnSIM/NFD/rib/rib-entry.cpp:134-138 | Unmarks the face |
| `RibEntries.RibEntry.HasInheritedRoute` | sim/ndnSIM/NFD/rib/rib-entry.cpp:147-151 | True exactly for a marked face |
| `RibEntries.RibEntry.HasChildInheritOnFaceId` | sim/ndnSIM/NFD/rib/rib-entry.cpp:159-169 | True exactly when some route on the face is child-inherit |
| `RibEntries.RibEntry.GetRouteWithLowestCostByFaceId` | sim/ndnSIM/NFD/rib/rib-entry.cpp:171-191 | Returns the scan's candidate |
| `RibEntries.RibEntry.GetRouteWithLowestCostAndChildInheritByFaceId` | sim/ndnSIM/NFD/rib/rib-entry.cpp:217-239 | Returns the child-inherit scan's candidate |
| `RibEntries.RibEntry.GetRouteWithSecondLowestCostByFaceId` | sim/ndnSIM/NFD/rib/rib-entry.cpp:193-215 | Returns the second lowest, or nothing for fewer than two routes |
| `Routes.SecondLowestIsSecond` | sim/ndnSIM/NFD/rib/rib-entry.cpp:193-215 | The route `getRouteWithSecondLowestCostByFaceId` returns is the second order statistic of the costs on the face |
| `Routes.LowestIsMinimum` | sim/ndnSIM/NFD/rib/rib-entry.cpp:171-191 | The scans return a route of least cost |
| `Routes.LowestIsFirst` | sim/ndnSIM/NFD/rib/rib-entry.cpp:171-191 | Among routes of least cost the scans return the first |
| `Routes.FirstInheritIsFirst` | sim/ndnSIM/NFD/rib/rib.cpp:325-341 | What the route set keeps of several child-inherit routes on one face of an entry is the first |
| `Routes.CountErased` | sim/ndnSIM/NFD/rib/rib-entry.cpp:110-126 | The capture count stays the number of capturing routes when a route is erased |
| `Routes.CountReplaced` | sim/ndnSIM/NFD/rib/fib-updater.cpp:117-121 | Overwriting a route in place changes the number of capturing routes by the difference of the flags, while the count field does not move |
| `RibTree.FindParent` | sim/ndnSIM/NFD/rib/rib.cpp:213-224 | Returns the longest present proper prefix |
| `RibTree.ParentIsLongest` | sim/ndnSIM/NFD/rib/rib.cpp:213-224 | No present proper prefix is longer than the parent |
| `RibTree.ChildrenAreTopmost` | sim/ndnSIM/NFD/rib/rib.cpp:148-159 | With linked pointers, the children of an entry are exactly the topmost names below it |
| `RibTree.ParentAfterInsert` | sim/ndnSIM/NFD/rib/rib.cpp:132-159 | Inserting a name re-parents exactly those names below it that had its parent |
| `RibTree.ParentAfterErase` | sim/ndnSIM/NFD/rib/rib.cpp:261-299 | Erasing a name hands its children to its parent and moves nobody else |
| `Ribs.Rib.Insert` | sim/ndnSIM/NFD/rib/rib.cpp:97-168 | Keeps the pointers a tree by longest prefix, and changes routes and counts at that name only, as stated |
| `Ribs.Rib.Erase` | sim/ndnSIM/NFD/rib/rib.cpp:170-198 | The same for erasing, the entry going with its last route |
| `Ribs.Rib.EraseEntry` | sim/ndnSIM/NFD/rib/rib.cpp:261-299 | Splices the name out of the tree |
| `Ribs.Rib.AdoptDescendants` | sim/ndnSIM/NFD/rib/rib.cpp:148-159 | The descendants that shared the new entry's parent now hang under it |
| `Ribs.Rib.FindDescendants` | sim/ndnSIM/NFD/rib/rib.cpp:226-245 | The scan of the ordered table from the prefix on, stopped at the first other name, yields exactly the names strictly below it, in order |
| `NameOrder.DescendantsAreContiguous` | sim/ndnSIM/NFD/rib/rib.cpp:232-241 | In the canonical order of names nothing stands between a prefix and a name below it but other names below it |
| `NameOrder.NamesCompare` | sim/ndnSIM/ndn-cxx/ndn-cxx/name.cpp:281-295 | The canonical order: of two different names exactly one comes first |
| `NameOrder.BeforeTransitive` | sim/ndnSIM/ndn-cxx/ndn-cxx/name.cpp:281-295 | The canonical order is transitive |
| `NameOrder.BeforeExactly` | sim/ndnSIM/ndn-cxx/ndn-cxx/name.cpp:281-295 | The order in full: a prefix comes first, otherwise the first component that differs decides, the shorter one or among equally long ones the one with the lesser first differing character |
| `NameOrder.Next` | sim/ndnSIM/NFD/rib/rib.cpp:231-233 | The increment of the table's iterator: the first name behind the given one |
| `Ribs.Rib.ModifyInheritedRoutes` | sim/ndnSIM/NFD/rib/rib.cpp:472-491 | Each face's record becomes the last one listed for it, all else stays |
| `Ribs.AdoptedTree` | sim/ndnSIM/NFD/rib/rib.cpp:132-159 | Once they are adopted, parent and child pointers again follow the prefix order |
| `Ribs.ReleasedTree` | sim/ndnSIM/NFD/rib/rib.cpp:261-299 | Once an entry is released and removed, parent and child pointers again follow the prefix order |
| `Batches.OnFibUpdateSuccess` | sim/ndnSIM/NFD/rib/rib.cpp:428-456 | The RIB change and the inherited records are applied after success |
| `Batches.SendAndAnswer` | sim/ndnSIM/NFD/rib/fib-updater.cpp:48-65 | Sends the computed lists and takes responses in any order: what happens is a run of the protocol |
| `Batches.SendAccepted` | sim/ndnSIM/NFD/rib/fib-updater.cpp:188-311 | When the forwarder accepts every command, the sending ends, in success |
| `Batches.SuccessIsStep` | sim/ndnSIM/NFD/rib/rib.cpp:388-456 | A run that reports success with nothing skipped is, with the RIB change that follows, one acknowledged batch of the run model, of any action, if and only if no remove command timed out |
| `Batches.SuccessIsExactlyHarmless` | sim/ndnSIM/NFD/rib/rib.cpp:388-456 | Computation, sending and RIB change together: such a run leaves FIB and inherited records right if and only if the update was harmless |
| `Batches.ApplyUpdate` | sim/ndnSIM/NFD/rib/rib.cpp:388-456 | One batch through all the classes, whatever the responses: crashed, unfinished with the RIB unchanged, or succeeded with the RIB side of the step, and with its FIB wherever no update was skipped and no remove timed out |
| `Batches.ApplyAcknowledged` | sim/ndnSIM/NFD/rib/rib.cpp:388-456 | With every command accepted, each update that does not crash is carried through as one step of the run model |
| `Batches.SuccessIsStepAt` | sim/ndnSIM/NFD/rib/fib-updater.cpp:282-311 | A run that reports success with updates skipped: at every name and face no skipped update is for, the FIB has what the step would leave if and only if no remove command for them timed out |
| `Batches.ApplyAll` | sim/ndnSIM/NFD/rib/rib.cpp:388-456 | Batch after batch on one RIB from empty, each acknowledged: a run of the run model up to the first update that crashes |
| `Forwarder.SlotsDescribeFib` | sim/ndnSIM/NFD/rib/fib-updater.cpp:313-334 | Executing both lists in order leaves each next hop as its slot says |
| `SendProtocol.FibSender.constructor` | sim/ndnSIM/NFD/rib/fib-updater.cpp:48-65 | Starts the protocol on the two lists |
| `SendProtocol.FibSender.SendUpdates` | sim/ndnSIM/NFD/rib/fib-updater.cpp:188-206 | Issues one command per update, in order |
| `SendProtocol.FibSender.SendUpdatesForBatchFaceId` | sim/ndnSIM/NFD/rib/fib-updater.cpp:208-218 | First phase, skipped when its list is empty |
| `SendProtocol.FibSender.SendUpdatesForNonBatchFaceId` | sim/ndnSIM/NFD/rib/fib-updater.cpp:220-230 | Second phase, success when its list is empty |
| `SendProtocol.FibSender.OnUpdateSuccess` | sim/ndnSIM/NFD/rib/fib-updater.cpp:261-280 | The acknowledged update leaves its list; the last one starts the second phase or reports success |
| `SendProtocol.FibSender.OnUpdateError` | sim/ndnSIM/NFD/rib/fib-updater.cpp:282-311 | Retry, skip, failure or exception, by code and number of timeouts |
| `SendProtocol.FibSender.Respond` | sim/ndnSIM/NFD/rib/fib-updater.cpp:232-259 | One response to any outstanding command of the batch |
| `SendSafety.RunIsConsistent` | sim/ndnSIM/NFD/rib/fib-updater.cpp:188-311 | Every state of every run, responses in any order: each update is listed, accepted or skipped, and waits for at most one response |
| `SendSafety.RunOutcomes` | sim/ndnSIM/NFD/rib/fib-updater.cpp:208-311 | No command for another face before all batch-face updates are accepted; success at most once and only when every update was accepted or was a non-batch one refused with 410; never both success and failure; nothing outstanding means success, failure or the exception |
| `SendSafety.FailureIsFinal` | sim/ndnSIM/NFD/rib/fib-updater.cpp:282-311 | After `onFailure` no later state reports success |
| `SendEffects.ResponseDecreases` | sim/ndnSIM/NFD/rib/fib-updater.cpp:261-311 | Every response lowers a measure on what is outstanding and the retries left |
| `SendEffects.RunIsShort` | sim/ndnSIM/NFD/rib/fib-updater.cpp:188-311 | A run has at most 11 responses per pending update, so it ends |
| `SendEffects.RunIsCounted` | sim/ndnSIM/NFD/rib/fib-updater.cpp:282-297 | No update causes more than 11 commands |
| `SendEffects.ElevenCommandsThenThrow` | sim/ndnSIM/NFD/rib/fib-updater.cpp:282-311 | A constructed run for any one update: when all its commands time out it is sent exactly 11 times, one command after the other, and then the exception is thrown |
| `SendEffects.RefusalOutcomes` | sim/ndnSIM/NFD/rib/fib-updater.cpp:282-311 | The outcomes of a refusal, with the numbers: code 10060 before the tenth timeout is retried as an add, code 410 fails the batch or skips the update, anything else throws |
| `SendEffects.SuccessIsExactAt` | sim/ndnSIM/NFD/rib/fib-updater.cpp:282-311 | A run that reports success leaves, at every name and face no skipped update is for, the next hop the lists call for if and only if no remove command for them timed out, since a retry is always an add |
| `SendEffects.SuccessIsExact` | sim/ndnSIM/NFD/rib/fib-updater.cpp:282-297 | A run that reports success with every update accepted leaves the FIB the lists call for if and only if no remove command timed out, since a retry is always an add |
| `SendEffects.TimedOutRemoveAddsNextHop` | sim/ndnSIM/NFD/rib/fib-updater.cpp:282-297 | A run in which one remove command times out once: success is reported with the next hop to be removed in the FIB |
| `SendEffects.UpdaterListsAreSplit` | sim/ndnSIM/NFD/rib/fib-updater.cpp:313-334 | The lists the computation leaves behind satisfy what the protocol theorems ask |
| `BatchQueue.StaysInOrderExactly` | sim/ndnSIM/NFD/rib/rib.cpp:388-470 | Several batches, a failed one leaving commands without response: from a queue in order every event leaves it in order (each batch begun after the report of the one before and keeping all guarantees of a batch alone) **if and only if** it is not a response to an earlier batch's command that changes the current lists, finds the one it is for empty, or fails the earlier batch again while the current one is in progress |
| `BatchQueue.QueueRunIsInOrderExactly` | sim/ndnSIM/NFD/rib/rib.cpp:388-470 | Whole runs of batches and responses: every state is in order if and only if no response disturbs in this way |
| `BatchQueue.InOrderOutcomes` | sim/ndnSIM/NFD/rib/fib-updater.cpp:208-311 | In order means, for each batch: nothing for other faces before its own updates are accepted for it; success at most once, only with all of them accepted or skipped, never with failure; all batches but the last reported |
| `BatchQueue.PhasesSwapExactly` | sim/ndnSIM/NFD/rib/fib-updater.cpp:261-280 | The second phase of the current batch starts too early exactly when an earlier batch's command is accepted for the only update left on the first list |
| `BatchQueue.SmallBatchesKeepOrder` | sim/ndnSIM/NFD/rib/rib.cpp:458-470 | Batches with at most one command for their own face never get in each other's way, in any run |
| `BatchQueue.FirstInFirstOut` | sim/ndnSIM/NFD/rib/rib.cpp:376-400 | In every state of every run, disturbed or not: the batches started so far followed by those waiting are exactly the submitted ones in the order of submission, and none waits unless one is in progress |
| `BatchQueue.StartedStays` | sim/ndnSIM/NFD/rib/rib.cpp:397-398 | A batch that has been started keeps its place among the started ones |
| `BatchQueue.ResponseMeansExecution` | sim/ndnSIM/NFD/rib/fib-updater.cpp:232-311 | Whichever batch a command belongs to, the FIB changes by that command exactly when it was accepted or carried out before it timed out, and by nothing else |
| `BatchQueue.UpdateQueue.constructor` | sim/ndnSIM/NFD/rib/rib.cpp:46-54 | The queue starts empty and idle |
| `BatchQueue.UpdateQueue.BeginApplyUpdate` | sim/ndnSIM/NFD/rib/rib.cpp:349-359 | Queues a batch behind the others and starts the first one if none is in progress; the order is that of `BatchQueue.FirstInFirstOut` |
| `BatchQueue.UpdateQueue.SendBatchFromQueue` | sim/ndnSIM/NFD/rib/rib.cpp:388-426 | Starts the next batch, and the one after when it has no commands at all |
| `BatchQueue.UpdateQueue.OnFibUpdateReported` | sim/ndnSIM/NFD/rib/rib.cpp:448-469 | Either callback frees the queue and starts the next batch |
| `BatchQueue.UpdateQueue.Respond` | sim/ndnSIM/NFD/rib/fib-updater.cpp:261-311 | A response acts on the lists of the current batch and on the callbacks of its command's own batch |
| `QueueFaults.LateAcceptanceSwapsPhases` | sim/ndnSIM/NFD/rib/rib.cpp:458-470 | Constructs a run: an acceptance for a failed batch empties the next one's list, whose second phase starts unacknowledged and ends by reporting the success of the failed batch |
| `QueueFaults.SecondRefusalReportsSuccess` | sim/ndnSIM/NFD/rib/fib-updater.cpp:294-304 | Constructs a run: the second 410 of a failed batch, arriving while a batch for another face is in progress, reports its success |
| `Rtt.RttMeanDeviation.Measurement` | sim/ndnSIM/utils/ndn-rtt-mean-deviation.cpp:82-103 | First sample and smoothing |
| `Rtt.RttMeanDeviation.RetransmitTimeout` | sim/ndnSIM/utils/ndn-rtt-mean-deviation.cpp:105-118 | The timeout, between its bounds |
| `Rtt.RttMeanDeviation.IncreaseMultiplier` | sim/ndnSIM/utils/ndn-rtt-estimator.cpp:228-234 | Doubles the multiplier up to the maximum |
| `Rtt.RttMeanDeviation.SentSeq` | sim/ndnSIM/utils/ndn-rtt-mean-deviation.cpp:145-160 | Flags a known number, appends a new one |
| `Rtt.RttMeanDeviation.AckSeq` | sim/ndnSIM/utils/ndn-rtt-mean-deviation.cpp:163-187 | Drops the number; a sample only if it was noted once |
| `Rtt.RtoInRange` | sim/ndnSIM/utils/ndn-rtt-mean-deviation.cpp:105-118 | The timeout lies in [minRto, maxRto] (section 2 of RFC 6298) |
| `Rtt.BackoffIsBounded` | sim/ndnSIM/utils/ndn-rtt-estimator.cpp:228-234 | k timeouts multiply the backoff to min(m * 2^k, max) (section 5 of RFC 6298) |
| `Rtt.MeasuredBetween` | sim/ndnSIM/utils/ndn-rtt-mean-deviation.cpp:82-103 | A sample moves the estimate towards itself, never past it, and keeps the variance non-negative |
| `Rtt.MeasuredIsWeighted` | sim/ndnSIM/utils/ndn-rtt-mean-deviation.cpp:82-103 | A later sample has the share gain in the new estimate and its distance the share gain2 in the new variance; a first one is the estimate, and half of it the variance |
| `Rtt.EqualSamplesConverge` | sim/ndnSIM/utils/ndn-rtt-mean-deviation.cpp:82-103 | k equal samples leave the share (1 - gain)^k of the distance between estimate and sample |
| `Rtt.RtoIsExact` | sim/ndnSIM/utils/ndn-rtt-mean-deviation.cpp:105-118 | The timeout is the multiplier times estimate plus four variances, or the bound it would pass |
| `Rtt.RtoGrows` | sim/ndnSIM/utils/ndn-rtt-mean-deviation.cpp:105-118 | The timeout never shrinks when estimate, variance or multiplier grow |
| `Rtt.TimeoutsDoubleRto` | sim/ndnSIM/utils/ndn-rtt-mean-deviation.cpp:105-118 | k timeouts multiply the timeout by 2^k until a maximum is reached (section 5 of RFC 6298) |
| `Consumers.Consumer.SendPacket` | sim/ndnSIM/apps/ndn-consumer.cpp:158-206 | Whenever anything awaits retransmission an active consumer sends the least such number, also at the limit, else the next new one; it sends nothing exactly when inactive, or at the limit with nothing to retransmit |
| `Consumers.Consumer.OnData` | sim/ndnSIM/apps/ndn-consumer.cpp:212-253 | All five tables and the history drop the number |
| `Consumers.Consumer.OnTimeout` | sim/ndnSIM/apps/ndn-consumer.cpp:265-276 | Backs off, flags the number and queues it |
| `Consumers.Consumer.WillSendOutInterest` | sim/ndnSIM/apps/ndn-consumer.cpp:279-294 | Enters the number in the tables, keeping first-send times |
| `Consumers.Consumer.Earliest` | sim/ndnSIM/apps/ndn-consumer.cpp:118-120 | The first entry of the time index |
| `Consumers.Consumer.CheckRetxTimeout` | sim/ndnSIM/apps/ndn-consumer.cpp:110-132 | The sweep is exact despite its early exit: it moves precisely the entries with time + rto <= now and backs off once for each |
| `ConsumerRuns.RunKeepsInv` | sim/ndnSIM/apps/ndn-consumer.cpp:110-294 | Every interleaving of sends, Data, sweeps and stops: issued numbers split exactly into satisfied, waiting and to be retransmitted; delay tables and counts have exactly the last two as keys and hold first-send times and send counts; the RTT history holds exactly the pending numbers; a sample comes only from a number sent once that never timed out, measured from its first send (section 3 of RFC 6298) |
| `ConsumerRuns.EventKeepsInv` | sim/ndnSIM/apps/ndn-consumer.cpp:110-294 | One event keeps all of it |
| `ConsumerRuns.SatisfiedIsFinal` | sim/ndnSIM/apps/ndn-consumer.cpp:158-253 | A satisfied number is never sent again |
| `ConsumerRuns.SampleIsClean` | sim/ndnSIM/utils/ndn-rtt-mean-deviation.cpp:163-187 | A measured number is pending, never timed out, and the sample is now minus its first send |
| `ConsumerRuns.LimitedNeverWraps` | sim/ndnSIM/apps/ndn-consumer.cpp:172-181 | With a limit below 2^32 - 1 the counter never wraps |
| `ConsumerRuns.RunKeepsRtoInRange` | sim/ndnSIM/utils/ndn-rtt-mean-deviation.cpp:105-118 | In every run the timeout stays within its bounds |
| `ConsumerLaws.SendPicksLowest` | sim/ndnSIM/apps/ndn-consumer.cpp:158-206 | In every state of a run: a send takes the least number awaiting retransmission and counts one more send of it, else issues the next number, else changes nothing |
| `ConsumerLaws.LowestAreResent` | sim/ndnSIM/apps/ndn-consumer.cpp:158-206 | k sends in a row with k or more numbers awaiting retransmission: exactly the k lowest have been sent once more, and nothing else |
| `ConsumerLaws.RunKeepsTimes` | sim/ndnSIM/apps/ndn-consumer.cpp:279-294 | In every run the timer table and the last-delay table hold the time of the last send of their numbers |
| `ConsumerLaws.SweepExpiresExactly` | sim/ndnSIM/apps/ndn-consumer.cpp:110-132 | A sweep moves to the retransmissions exactly the waiting numbers last sent a full timeout ago or earlier |
| `ConsumerLaws.SweepBacksOff` | sim/ndnSIM/apps/ndn-consumer.cpp:265-276 | k numbers that expire in a sweep multiply the backoff by 2^k up to its maximum, and leave the estimate alone |
| `ConsumerLaws.DataSettles` | sim/ndnSIM/apps/ndn-consumer.cpp:212-253 | Data for an issued number satisfies it and removes it, and no other, from what is pending; an inactive consumer ignores it |
| `ConsumerLaws.SampleExactly` | sim/ndnSIM/utils/ndn-rtt-mean-deviation.cpp:163-187 | A number yields a sample if and only if it is pending and never timed out |
| `ConsumerLaws.DataIsMeasuredExactly` | sim/ndnSIM/utils/ndn-rtt-mean-deviation.cpp:163-187 | Such Data, and no other, changes the estimate: one measurement from the first send, with the backoff reset to 1 |
| `Pcon.ConsumerPcon.SendPacket` | sim/ndnSIM/apps/ndn-consumer-window.cpp:214-219 | m_inFlight counts each send |
| `Pcon.ConsumerPcon.OnData` | sim/ndnSIM/apps/ndn-consumer-pcon.cpp:104-136 | Tables, highest Data, window and m_inFlight after one Data packet |
| `Pcon.ConsumerPcon.OnTimeout` | sim/ndnSIM/apps/ndn-consumer-pcon.cpp:138-150 | Window decrease, m_inFlight and base timeout |
| `Pcon.ConsumerPcon.CheckRetxTimeout` | sim/ndnSIM/apps/ndn-consumer.cpp:110-132 | The same sweep with the overriding OnTimeout: k timeouts, k attempts to decrease |
| `Pcon.ConsumerPcon.WindowIncrease` | sim/ndnSIM/apps/ndn-consumer-pcon.cpp:152-173 | Slow start and congestion avoidance |
| `Pcon.ConsumerPcon.WindowDecrease` | sim/ndnSIM/apps/ndn-consumer-pcon.cpp:175-209 | Unless suppressed, the window becomes the initial window or beta (CUBIC: cubicBeta) times itself, the threshold is that product (CUBIC: the new window), and recPoint is m_seq plus addRttSuppress times the 32-bit difference, given the asserted fact that it is positive |
| `Pcon.ConsumerPcon.CubicIncrease` | sim/ndnSIM/apps/ndn-consumer-pcon.cpp:280-315 | Slow start or the CUBIC step, given the asserted m_cubicWmax > 0; the window never shrinks |
| `Pcon.ConsumerPcon.CubicDecrease` | sim/ndnSIM/apps/ndn-consumer-pcon.cpp:317-343 | Wmax, fast convergence, threshold and window |
| `PconRuns.PconRunKeepsInv` | sim/ndnSIM/apps/ndn-consumer-pcon.cpp:104-209 | Main result: over every run with Data only for issued numbers, the window keeps its floor, a finite threshold means m_cubicWmax > 0, recPoint strictly grows over effective decreases with Data in between for a number first issued after the earlier one (section 5 of RFC 6675), m_inFlight <= number of waiting numbers, and no assertion of the source fails |
| `PconRuns.FreshRunOutcomes` | sim/ndnSIM/apps/ndn-consumer-pcon.cpp:104-209 | The main result for a consumer that has just started, spelled out: window floor, m_inFlight bound, spaced decreases, and no issued number lost |
| `PconRuns.AfterPconEvents` | sim/ndnSIM/apps/ndn-consumer-pcon.cpp:152-209 | In every run whatsoever the window is at least the initial window, and in CUBIC a finite threshold means m_cubicWmax > 0 (sections 4.5 and 4.6 of RFC 8312) |
| `PconRuns.SweepCutsOnce` | sim/ndnSIM/apps/ndn-consumer-pcon.cpp:175-209 | However many numbers time out in one sweep, conservative adaptation decreases the window at most once, and exactly once when not suppressed |
| `PconRuns.CutIsSpaced` | sim/ndnSIM/apps/ndn-consumer-pcon.cpp:175-209 | One effective decrease keeps the spacing and suppresses the next until newer Data |
| `PconRuns.IncreasedOk` | sim/ndnSIM/apps/ndn-consumer-pcon.cpp:152-173 | An increase never lowers the window |
| `PconRuns.CubicNeverOvershoots` | sim/ndnSIM/apps/ndn-consumer-pcon.cpp:297-315 | Above the threshold a CUBIC increase never lowers the window and never carries it past the target (section 4.1 of RFC 8312) |
| `PconRuns.AvoidanceAddsAtMostOne` | sim/ndnSIM/apps/ndn-consumer-pcon.cpp:152-160 | In congestion avoidance a window's worth of Data adds at most one to the AIMD window |
| `PconRuns.CutOk` | sim/ndnSIM/apps/ndn-consumer-pcon.cpp:175-209 | A decrease never raises the window and never goes below its floor |
| `PconRuns.MarkedContentAsserts` | sim/ndnSIM/apps/ndn-consumer-pcon.cpp:175-180 | In every state, with marked Data for any number: the assertion diff > 0 fails if and only if the decrease takes effect and m_seq, modulo 2^32, equals the highest number seen, this one included |
| `PconRuns.TimerAsserts` | sim/ndnSIM/apps/ndn-consumer-pcon.cpp:175-180 | The same for a sweep of timeouts: it fails if and only if a number expired, the decrease takes effect and m_seq equals m_highData modulo 2^32 |
| `PconRuns.IssuedDataCanFail` | sim/ndnSIM/apps/ndn-consumer-pcon.cpp:175-180 | A run from a fresh consumer in which marked Data for an issued number fails the assertion, after unmarked Data for a number never issued |
| `PconRuns.TimerInFlight` | sim/ndnSIM/apps/ndn-consumer-window.cpp:198-212 | A sweep never leaves fewer waiting numbers than m_inFlight counts |
| `Pcon.DecreaseIsExact` | sim/ndnSIM/apps/ndn-consumer-pcon.cpp:175-209 | The same as a law of the window |
| `WindowLaws.CubicRemembers` | sim/ndnSIM/apps/ndn-consumer-pcon.cpp:317-343 | A CUBIC decrease remembers its time, the window, and as Wmax the window or, with fast convergence below 99 percent of the last one, the mean of the window and its reduced value |
| `WindowLaws.DecreasesCompound` | sim/ndnSIM/apps/ndn-consumer-pcon.cpp:104-209 | Whole runs in which no Data increases the window: after k effective decreases, by marks or timeouts, it is beta^k times itself, down to the initial window |
| `WindowLaws.DecreaseIsStrict` | sim/ndnSIM/apps/ndn-consumer-pcon.cpp:175-209 | So from above the initial window it is strictly smaller exactly if some decrease took effect |
| `WindowLaws.SlowStartAddsOneEach` | sim/ndnSIM/apps/ndn-consumer-pcon.cpp:152-160 | Whole runs below the threshold: k unmarked Data make the window exactly k greater, for AIMD and CUBIC |
| `WindowLaws.NewConsumerStartsSlowly` | sim/ndnSIM/apps/ndn-consumer-pcon.cpp:86-102 | A new consumer is in slow start: k unmarked Data give the initial window plus k |
| `WindowLaws.FirstMarkTakesEffect` | sim/ndnSIM/apps/ndn-consumer-pcon.cpp:86-102 | The first marked Data of a new consumer, for any number but 0, is not suppressed |
| `WindowLaws.AvoidanceAddsAtLeast` | sim/ndnSIM/apps/ndn-consumer-pcon.cpp:152-160 | In congestion avoidance k Data, up to a window's worth, add at least k / (w + 1) to the AIMD window |
| `WindowLaws.AvoidanceIsExact` | sim/ndnSIM/apps/ndn-consumer-pcon.cpp:297-315 | Unmarked Data at the threshold adds 1 / w (AIMD), or the positive distance to the target over w (CUBIC) |
| `WindowLaws.CubicStartsAtWindow` | sim/ndnSIM/apps/ndn-consumer-pcon.cpp:280-343 | Right after a CUBIC decrease the target is the window itself, so Data adds nothing at time 0 (section 4.1 of RFC 8312) |
| `WindowLaws.InFlightIsBalance` | sim/ndnSIM/apps/ndn-consumer-window.cpp:198-219 | In every run m_inFlight is at least the sends less the Data and timeouts, and exactly that while it has never been negative |
| `GlobalRouting.GlobalRouter.constructor` | sim/ndnSIM/model/ndn-global-router.cpp:40-44 | A router starts without edges |
| `GlobalRouting.GlobalRouter.AddIncidency` | sim/ndnSIM/model/ndn-global-router.cpp:73-77 | Appends one edge from this router |
| `GlobalRouting.GlobalRoutingHelper.InstallNode` | sim/ndnSIM/helper/ndn-global-routing-helper.cpp:66-132 | Terminates; what it adds has exactly the required edges and is reachable from the node, and a node that had a router changes nothing |
| `GlobalRouting.GlobalRoutingHelper.InstallChannel` | sim/ndnSIM/helper/ndn-global-routing-helper.cpp:134-161 | The same for a channel's router, whose edges carry no face |
| `GlobalRouting.GlobalRoutingHelper.InstallFace` | sim/ndnSIM/helper/ndn-global-routing-helper.cpp:83-131 | One face: skipped, two-device channel, or shared channel |
| `GlobalRouting.GlobalRoutingHelper.InstallPeer` | sim/ndnSIM/helper/ndn-global-routing-helper.cpp:103-121 | A face on a channel of two devices: the edges so far and the one to the other node |
| `GlobalRouting.GlobalRoutingHelper.ConnectOthers` | sim/ndnSIM/helper/ndn-global-routing-helper.cpp:103-121 | The loop over the devices of the channel: an edge to the node of each other device, installed first if need be |
| `GlobalRouting.GlobalRoutingHelper.Install` | sim/ndnSIM/helper/ndn-global-routing-helper.cpp:163-169 | The same over all nodes of a container |
| `GlobalRouting.InstalledIsReachable` | sim/ndnSIM/helper/ndn-global-routing-helper.cpp:66-169 | Main result: from a neighbour-closed set of routers, installing ends with exactly that set plus all vertices reachable from the given nodes, again closed |
| `Topology.OneOtherEnd` | sim/ndnSIM/helper/ndn-global-routing-helper.cpp:103-121 | A face on a two-device channel has exactly one edge, to the router at the other end |
| `Topology.CompleteMeansReachable` | sim/ndnSIM/helper/ndn-global-routing-helper.cpp:66-161 | A search that completed every new vertex has found exactly the reachable ones |
| `Topology.EdgesReadOff` | sim/ndnSIM/helper/ndn-global-routing-helper.cpp:83-131 | Read off the network: a node's router has an edge for a face exactly if the face is on a channel of two devices, to the node of the other device; a channel's router has one to the node of each device |
| `Topology.NeighboursReadOff` | sim/ndnSIM/helper/ndn-global-routing-helper.cpp:83-131 | The neighbours of a node: over a channel of two devices the other node, over any other channel the channel itself |
| `GlobalRouting.EdgesAreEnds` | sim/ndnSIM/helper/ndn-global-routing-helper.cpp:83-161 | A completed router has an edge for each of these ends and no other, to the router aggregated there |
| `RouteCalculation.PathWeightIsSum` | sim/ndnSIM/helper/boost-graph-ndn-global-routing-helper.hpp:210-229 | Folding WeightCombine over a path gives its first face and the sum of its metrics |
| `RouteCalculation.PathCostIsSum` | sim/ndnSIM/helper/boost-graph-ndn-global-routing-helper.hpp:268-280 | The cost of a path is the sum of the metrics of its faces on 16 bits; edges without a face cost nothing |
| `RouteCalculation.RouteCalculator.CalculateAllPossibleRoutes` | sim/ndnSIM/helper/ndn-global-routing-helper.cpp:282-387 | Metrics and routes after the loop over all nodes; what the routes are is `EveryFaceGetsRoutes` and `EveryRouteIsJustified` |
| `RouteCalculation.RouteCalculator.CalculateNode` | sim/ndnSIM/helper/ndn-global-routing-helper.cpp:316-385 | Metrics and routes after one node: disable all faces, search with one enabled at a time, restore |
| `RouteCalculation.RouteCalculator.CalculateFace` | sim/ndnSIM/helper/ndn-global-routing-helper.cpp:326-379 | One search: the metrics end as they began |
| `RouteCalculation.RouteCalculator.AddRoutes` | sim/ndnSIM/helper/ndn-global-routing-helper.cpp:350-375 | The loops over distances and prefixes |
| `RouteCalculation.RestoredAllExactly` | sim/ndnSIM/helper/ndn-global-routing-helper.cpp:316-385 | Every metric is left as found if and only if the metrics of all routers' faces fit 16 bits |
| `RouteCalculation.FaceRoutesAreJustified` | sim/ndnSIM/helper/ndn-global-routing-helper.cpp:326-379 | Taking Dijkstra as returning the weight of some path, every route added while face F is enabled names F and costs the sum of the metrics of a path that starts at F |
| `RouteCalculation.CheapPathsGetRoutes` | sim/ndnSIM/helper/ndn-global-routing-helper.cpp:326-379 | With shortest paths, every target reachable through F below the price of a disabled face gets a route through F for each prefix, at the least cost of all paths that start at F |
| `RouteCalculation.NodeRoutesByFace` | sim/ndnSIM/helper/ndn-global-routing-helper.cpp:326-379 | A node's routes are those of its faces, one search each |
| `RouteCalculation.EveryFaceGetsRoutes` | sim/ndnSIM/helper/ndn-global-routing-helper.cpp:282-387 | Main result, for every node with a router and every face of its on a device: a target that some path reaches through the face below the price of a disabled one gets a route through it for each prefix, at the least cost of all paths leaving by it, under the metrics the earlier nodes have left and with shortest paths |
| `RouteCalculation.EveryRouteIsJustified` | sim/ndnSIM/helper/ndn-global-routing-helper.cpp:282-387 | Conversely every route added is justified: a path from some node's router leaves by that device face and reaches a target with the prefix at that cost, under the metrics of that time |
| `RouteCalculation.SearchMetricsAre` | sim/ndnSIM/helper/ndn-global-routing-helper.cpp:310-333 | Those metrics: the node's other faces at 65534, faces of this and earlier nodes cut to 16 bits, the rest untouched |
| `Cidr.MakeMask` | sim/ndnSIM/NFD/core/network.cpp:132-137 | The bit loop builds the mask whose first p bits are set |
| `Cidr.ApplyMask` | sim/ndnSIM/NFD/core/network.cpp:139-149 | Least and greatest address of the range, byte by byte |
| `Cidr.RangeIsPrefix` | sim/ndnSIM/NFD/core/network.cpp:126-175 | For addresses of any number of bytes and any prefix length p: min <= a <= max if and only if a agrees with the given address on its first p bits |
| `Cidr.Network.Read` | sim/ndnSIM/NFD/core/network.cpp:84-179 | Which texts are accepted, and that the network then contains exactly the addresses of that family that share the first p bits; a rejected text changes nothing |
| `Cidr.PrefixLengthIsDecimal` | sim/ndnSIM/NFD/core/network.cpp:108-131 | The text after the slash is accepted as p if and only if it is p in decimal, leading zeros allowed, and p is at most 32 (IPv4) or 128 (IPv6) |
| `Cidr.Network.ContainsExactly` | sim/ndnSIM/NFD/core/network.hpp:41-45 | doesContain is prefix matching |
| `Cidr.SharingMeansNested` | sim/ndnSIM/NFD/core/network.hpp:41-45 | Two ranges of one family that share an address are nested, so two ranges are nested or disjoint |
| `Attachments.StoreAttachments` | Leo.py:664-682 | The log has a line for each change and no other, and its (epoch, name) pairs read back as the attachments if and only if no satellite is named "-" |
| `Attachments.AddUserLinks` | Leo.py:495-520 | For each satellite: intervals in order and apart, containing an epoch before the last if and only if the satellite is attached then, and never the last epoch |
| `Attachments.NextEpoch` | Leo.py:504-518 | One epoch of the interval loop |

## Left out

- SendProtocol.FibSender.Respond: a command whose response is lost is carried out at its timeout or never, not after a retry of it was accepted.
- BatchQueue.UpdateQueue.Respond: the lists of each batch are given when it is queued, not computed from the RIB when it starts; every result is for any such lists.
- FibRefinement.StepIsExactlyHarmless: for one update per batch, as `Rib::addUpdateToQueue` makes them; REMOVE_FACE is the subject of FaceRemoval.
- FaceRemoval.DestroyedFaceIsForgotten: `m_faceMap` is not modelled; the batches are any that name each route on the face at least once.
- FaceRemoval.RemovalKeepsHopsExactly: on the destroyed face itself records are stated right only where the name is safe.
- FibRuns.RunIsExactlyHarmless: says nothing about updates applied while some capture count is wrong; FibFaults.StaleCountMisleads is a run that comes there.
- Batches.SuccessIsStepAt: says nothing about the next hops that skipped updates were for.
- RibEntries.RibEntry.AddInheritedRoute: the inherited list is kept as the set of its faces, all the code ever looks at.
- Routes.SecondLowestIsSecond: among routes of equal cost, which one `nth_element` leaves second is fixed to the earlier one; only its cost and flags could differ.
- Routes.CountReplaced: the decrement below zero wraps at 2^64 as in the source, an increment past it is not modelled.
- ConsumerRuns.RunKeepsInv: runs in which m_seq wraps at 2^32 are excluded, as numbers are then reused.
- PconRuns.PconRunKeepsInv: Data for numbers never issued is excluded; what then happens is stated by MarkedContentAsserts, and the window floor holds without this restriction.
- Cidr.Network.Read: the scope identifier of an IPv6 address is not modelled.
- Attachments.StoreAttachments: a line is an (epoch, name) pair; a name holding the comma or line break of the written file would not read back either.
- Attachments.AddUserLinks: one ground terminal at a time, with intervals as pairs of minutes, not date strings.
- RouteCalculation.CheapPathsGetRoutes: the third component of a weight, the delay, is always 0.0 and dropped.
- The window rule of `ConsumerWindow` itself, one more per Data and a reset on timeout: `ConsumerPcon` overrides it, and its counting of m_inFlight is the same.
- BIC in `ConsumerPcon`: its increase can lower the window, so it shares none of the window results.
- Route expiration, prefix announcements and route flags other than child-inherit and capture: scheduling outside this code.
- The window sizes that decide when `ScheduleNextPacket` sends: sends are events that may happen at any time.
- `ConsumerBatches`, `ConsumerZipfMandelbrot` and the base-class `RttEstimator::SentSeq`: they reuse numbers or are overridden.
- `AddOrigin` and `CalculateRoutes`: one append, and the loop of `CalculateAllPossibleRoutes` without the metrics.
- Floating-point rounding, logging, tracing, attributes and packet encoding.

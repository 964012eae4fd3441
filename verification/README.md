# Wavr, modelled and proved

Wavr is a home-presence server. This project models the parts of it that are algorithms or
protocols in their own right, and proves what they promise over all inputs, all runs or all
interleavings. Code that changes things step by step is modelled as classes and methods with
loops; code made of expressions is modelled as functions. Every method is proved against a
function or a predicate, and the properties are lemmas about that function over whole histories.

| file | models |
|---|---|
| `ArpTarget.dfy`, `ArpMeaning.dfy`, `ArpBlocking.dfy`, `ArpInvariant.dfy`, `ArpRuns.dfy`, `ArpLimits.dfy`, `ArpWitness.dfy`, `DeviceBlocker.dfy` | the device blocker: who may be blocked, the set of blocks, the re-assert tick, shutdown, the audit ring |
| `CalibMerge.dfy`, `CalibStore.dfy`, `CalibRefine.dfy` | progressive camera calibration: the merge of walks, the stored row, the solve and its two writes |
| `PeerPairing.dfy`, `PeerInvariant.dfy`, `PeerRuns.dfy`, `PeerCodes.dfy` | pairing between Cores over a network that loses replies |
| `AssistantLoop.dfy` | the bounded tool-calling loop around a language model |
| `DesignTokens.dfy` | resolution of CSS custom properties |
| `CameraUrl.dfy`, `PercentEncoding.dfy`, `RtspCredentials.dfy` | camera URL surgery |
| `ClientCommands.dfy`, `CommandTable.dfy` | named client commands turned into HTTP requests |
| `OldestOut.dfy`, `CalibSample.dfy`, `CalibSession.dfy` | the feet-pixel cache and the guided walk |
| `AwayMonitor.dfy` | the home/away debouncer |
| `PolygonText.dfy`, `Anchors.dfy`, `AnchorReads.dfy` | named places, their external ids and their stored polygons |
| `ConfigExport.dfy`, `ConfigImport.dfy`, `ConfigAudit.dfy`, `ConfigHandover.dfy`, `Json.dfy` | configuration export, check, preview, plan and audit, and how they fit together |
| `Prelude.dfy`, `PyDict.dfy`, `Text.dfy`, `StringOrder.dfy`, `Digits.dfy` | shared vocabulary |

`dafny verify dfyconfig.toml` checks everything.

## What the proofs found

These are places where the code does less than its own text or a natural reading promises. Each
comes with the exact condition under which the promise holds, for all inputs or all runs; where an
entry names an example, that is one concrete input or run beside the condition.

- A poison is about one device, at one address, for one gateway. A run of the blocker leaves such
  an entry poisoned with no block to restore it exactly when some accepted call is for a device
  blocked at another address or for another gateway (`ArpLimits.StrandsNothingExactly`;
  `ArpWitness.StrandingIsReached` and `ArpWitness.GatewayMoveStrands` are examples that end with
  nothing blocked).
- No guard refuses a broadcast address as such, which the module's text promises. None is ever
  accepted exactly when the /24 of this host is no ordinary private network or this host has that
  address itself (`ArpLimits.NeverBroadcastExactly`; `ArpWitness.BroadcastIsAccepted` is an example).
- A transport that raises in the middle of a call leaves wire and table disagreeing: a tick
  exactly when it stops on an expired block (`ArpLimits.TickRaisedBreaksExactly`), a block call
  exactly when the same poison was not in force (`ArpLimits.BlockRaisedBreaksExactly`), an
  unblock whenever there is something to unblock (`ArpLimits.UnblockRaisedBreaksExactly`), and
  `stop` for the device it fails on and all later ones (`ArpLimits.StopRaisedLeavesExactly`). The
  block such a block call leaves is expired by no loop exactly when none was running before
  (`ArpLimits.BlockRaisedUnwatchedExactly`); every first block call is an example of both
  (`ArpWitness.FirstBlockRaisedBreaks`).
- "New points are never dropped" holds exactly while one walk fits under the cap
  (`CalibMerge.NewPointsKeptExactly`). A fresh start is not capped at all
  (`CalibMerge.FreshTwice`).
- The homography and the points are two writes. The stored points are the ones the stored
  homography was solved from exactly when they pass the point store's own limits
  (`CalibRefine.PointsFollowExactly`); an example that does not is a first walk of more than 200
  points (`CalibRefine.OversizedFirstWalk`).
- Writing a homography alone leaves the row coherent exactly when neither the homography, nor its
  quality, nor the image size changes (`CalibRefine.HomographyAloneExactly`). A changed size
  makes the next walk merge pixels of two resolutions (`CalibRefine.ResizeMixesExactly`).
- The credential a redeem hands out is named by a peer row exactly when the link-back was stored
  (`PeerRuns.ForwardCredentialNamedExactly`). When it was not, the credential stays live until
  somebody revokes the device by hand (`PeerRuns.UnlinkedGrantVerifies`;
  `PeerRuns.ReplyLostLeavesGrant` is an example).
- Inserting credentials keeps the host and the rest of a camera URL exactly when nothing after
  the host contains an "@" and the host with what follows holds a "/" or a ":"
  (`RtspCredentials.KeepsExactly`). Without the latter the result is empty.
- With a clock that stands still the sample store is the most-recent-first list exactly when the
  least recently recorded camera is each time the first among the oldest
  (`CalibSample.AgreesExactly`, `OldestOut.EvictedExactly`); an example where it is not, and the
  camera just recorded goes next, is `CalibSample.TieEvictsJustRecorded`.
- The spot index of a walk counts its pairs exactly when no abort found captures standing
  (`CalibSession.IndexMatchesExactly`).
- An external id bound with untidy white space can be neither resolved nor unbound under the text
  it was bound with (`Anchors.BoundResolvesExactly`, `Anchors.UnbindsExactly`), and `create` hands
  back a polygon that later reads only return when it has at most four decimals
  (`Anchors.CreateReadsBackExactly`).
- The audit refuses an export exactly when the operator's own names, texts or settings, as far as
  they leave, hold something suspicious (`ConfigHandover.ExportAuditsExactly`), though the refusal calls it a bug in
  the exporter.
- An export is not capped, so a Core may refuse its own file
  (`ConfigExport.ExportAcceptedExactly`); and the preview fails on a null list of floors or
  rooms that the plan accepts (`ConfigImport.PlannedPreviewsExactly`).

## Model

| member | source | states |
|---|---|---|
| ArpTarget.NormMacIdempotent | backend/wavr/arp_block.py:63-64 | a normalised MAC is a normal form: normalising it again changes nothing |
| ArpTarget.V4Canonical | backend/wavr/arp_block.py:67-72 | two dotted spellings of one address are one spelling, so guards that compare text compare addresses |
| ArpTarget.AddressCheckedExactly | backend/wavr/arp_block.py:109-138 | the address guards accept exactly the private, ordinary IPv4 addresses of the /24 of this host that are not this host, a gateway address or a refused range |
| ArpTarget.CandidateFound | backend/wavr/arp_block.py:93-108 | the lookup yields a target exactly when the first record under the requested MAC is no gateway and has that address, and gateway and host address are known |
| ArpTarget.AcceptedIsSafe | backend/wavr/arp_block.py:75-140 | whatever `validate_target` accepts is a known device at a safe address |
| ArpTarget.AcceptedExactly | backend/wavr/arp_block.py:75-140 | the guards accept exactly the safe targets: the first record under that MAC, not the gateway, at a safe address |
| ArpMeaning.PrivateByOctets | backend/wavr/arp_block.py:131-133 | the private ranges, octet by octet |
| ArpMeaning.RefusedByOctets | backend/wavr/arp_block.py:131-133 | and the loopback, link-local, multicast, reserved and unspecified ones |
| ArpMeaning.AddressSpelledExactly | backend/wavr/arp_block.py:123-126 | a text is read as an address exactly when it is that address in dotted decimals |
| ArpMeaning.SameMacExactly | backend/wavr/arp_block.py:63-64 | two texts are one MAC exactly when, trimmed, they differ only in case and in the separators ":", "-" and "." |
| ArpMeaning.AddressRefusedFor | backend/wavr/arp_block.py:123-139 | which address is refused for what |
| ArpMeaning.RequestRefusedFor | backend/wavr/arp_block.py:93-122 | which request is refused before its address is looked at |
| DeviceBlocker.ArpBlocker.constructor | backend/wavr/arp_block.py:166-180 | a new blocker starts the empty run, with TTL and caps clamped to at least one |
| DeviceBlocker.ArpBlocker.Record | backend/wavr/arp_block.py:187-193 | the audit ring is the last `max_events` of the whole history, kept under every append |
| DeviceBlocker.ArpBlocker.RecentEvents | backend/wavr/arp_block.py:196-197 | a reader gets the last events of the whole history, as many as asked within the ring |
| DeviceBlocker.ArpBlocker.BlockTarget | backend/wavr/arp_block.py:213-226 | a block call does what the run specification says: refusal, cap, overwrite, poison, record, loop |
| DeviceBlocker.ArpBlocker.UnblockMac | backend/wavr/arp_block.py:228-235 | an unblock removes the entry and restores with the entry's own address and gateway |
| DeviceBlocker.ArpBlocker.Tick | backend/wavr/arp_block.py:244-255 | the loop over a copy of the blocks, popping as it goes, is one declarative tick: the expired restored, the rest poisoned again |
| DeviceBlocker.ArpBlocker.LoopStep | backend/wavr/arp_block.py:257-265 | the re-assert loop ends when nothing is blocked, else ticks |
| DeviceBlocker.ArpBlocker.StopRestore | backend/wavr/arp_block.py:267-278 | shutdown restores every block in order and leaves none |
| ArpInvariant.RunKeepsInv | backend/wavr/arp_block.py:205-278 | the invariant of wire, blocks, grants and clock holds after every run |
| ArpRuns.WireMatchesBlocks | backend/wavr/arp_block.py:205-278 | after every run, the last packet to a MAC is a poison exactly when the MAC is blocked, with the block's address and gateway; every restore repeats the poison it heals |
| ArpRuns.StopHealsEveryone | backend/wavr/arp_block.py:267-278 | after stop, the last packet to every MAC ever sent one is a restore |
| ArpRuns.EveryPoisonAuthorised | backend/wavr/arp_block.py:213-255 | every poison ever sent comes from an accepted call for that very target, safe as that call saw it, less than the TTL before |
| ArpRuns.BoundedAndExpiring | backend/wavr/arp_block.py:213-255 | never more than `max_blocks` blocks; after a tick none is past its deadline |
| ArpRuns.BlocksAreWatched | backend/wavr/arp_block.py:237-265 | outside shutdown there is never a block without a live loop to expire it |
| ArpRuns.LoopRunsExactly | backend/wavr/arp_block.py:237-275 | the loop is started by an accepted call, ends when it finds nothing blocked, and is ended by stop |
| ArpRuns.HistoryTellsWire | backend/wavr/arp_block.py:187-278 | after every run the audit trail has one event per packet sent, in order, with its device and address, of a healing kind exactly when the packet heals |
| ArpRuns.StepTells | backend/wavr/arp_block.py:213-278 | each kind of event comes from its own step: a block from an accepted call, an unblock from unblock, one Expire per dropped and one Reassert per kept block of a tick, one Restore per block from stop |
| ArpRuns.BlockAcceptedExactly | backend/wavr/arp_block.py:213-220 | a block call is accepted exactly for a safe target with a place left, or one blocked already |
| ArpRuns.AcceptedBlocks | backend/wavr/arp_block.py:213-226 | and then that device is blocked at its address for the gateway of the call, poisoned at once, and no other is touched |
| ArpRuns.BlockLastsExactly | backend/wavr/arp_block.py:244-255 | a tick keeps it blocked exactly while less than the TTL has passed |
| ArpRuns.UnblockRemovesExactly | backend/wavr/arp_block.py:228-235 | an unblock takes out its device and no other |
| ArpLimits.ReblockStrandsExactly | backend/wavr/arp_block.py:213-226 | an accepted call leaves a device's entry for a gateway poisoned without a block exactly when the device was blocked at another address or for another gateway |
| ArpLimits.StepStrandsExactly | backend/wavr/arp_block.py:205-278 | and no other step does: tick, loop, unblock and stop never strand one |
| ArpLimits.StrandsNothingExactly | backend/wavr/arp_block.py:205-278 | a whole run strands no such entry exactly when no accepted call is for a device blocked at another address or for another gateway |
| ArpWitness.StrandingIsReached | backend/wavr/arp_block.py:213-235 | under every configuration some run of accepted calls ends with nothing blocked and an entry poisoned |
| ArpWitness.GatewayMoveStrands | backend/wavr/arp_block.py:213-235 | and so does block, block, unblock of one device at one address when only the gateway moved |
| ArpLimits.NeverBroadcastExactly | backend/wavr/arp_block.py:109-138 | no broadcast address is ever accepted exactly when the host's /24 is no ordinary private network or its last address is the host's own |
| ArpWitness.BroadcastIsAccepted | backend/wavr/arp_block.py:75-140 | some request has a broadcast address accepted |
| ArpLimits.TickRaisedBreaksExactly | backend/wavr/arp_block.py:244-255 | a tick cut short by a raising transport breaks the match of wire and blocks exactly when it stops on an expired block |
| ArpLimits.BlockRaisedBreaksExactly | backend/wavr/arp_block.py:213-226 | a block call cut short by a raising transport breaks it exactly when the wire did not already end on that very poison |
| ArpLimits.BlockRaisedUnwatchedExactly | backend/wavr/arp_block.py:221-226 | the block it leaves is never expired by the loop exactly when no loop was live before the call |
| ArpWitness.FirstBlockRaisedBreaks | backend/wavr/arp_block.py:213-226 | the first block call of any run, cut short, does both |
| ArpLimits.UnblockRaisedBreaksExactly | backend/wavr/arp_block.py:228-235 | an unblock cut short breaks it exactly when there was a block to remove |
| ArpLimits.StopRaisedLeavesExactly | backend/wavr/arp_block.py:267-278 | a stop cut short at packet k leaves poisoned exactly the devices from the k-th on, with no loop |
| ArpWitness.RaisingIsReached | backend/wavr/arp_block.py:244-255 | under every configuration some run reaches a tick that a raising transport would break |
| CalibMerge.Keep | backend/wavr/calib_refine.py:76-79 | the filtering loop keeps exactly the unflagged points, in order |
| CalibMerge.MergePoints | backend/wavr/calib_refine.py:42-90 | the nested flagging loops and the slices compute the declarative merge |
| CalibMerge.MergeStaysPaired | backend/wavr/calib_refine.py:42-90 | the two lists are those of merging pairs: image and floor points never come apart |
| CalibMerge.CloseIsDistance | backend/wavr/calib_refine.py:70-74 | two floor points are close exactly when their straight-line distance is at most eps |
| CalibMerge.MergedByDistance | backend/wavr/calib_refine.py:68-90 | while all fits, a stored pair stays when every walked point is farther than eps along some axis, and goes when one is within eps |
| CalibMerge.FlagsByDistance | backend/wavr/calib_refine.py:68-74 | the same of the flags on the lists as they are handed over |
| CalibMerge.NewPointsKeptExactly | backend/wavr/calib_refine.py:84-90 | this walk's points all survive the cap exactly when the walk fits under it |
| CalibMerge.MergeTwice | backend/wavr/calib_refine.py:42-90 | merging the same walk twice is merging it once |
| CalibMerge.FreshTwice | backend/wavr/calib_refine.py:63-66 | a fresh start repeated changes nothing exactly when it fits under the cap it skips |
| CalibMerge.StoredIsSuffix | backend/wavr/calib_refine.py:42-90 | after any history of walks, what is stored is a suffix of: each walk's pairs in order, kept unless a later walk came within eps |
| CalibMerge.StoredIsEverything | backend/wavr/calib_refine.py:42-90 | and is all of that list while it has always fitted |
| CalibMerge.StoredBounded | backend/wavr/calib_refine.py:42-90 | and is bounded for ever once each walk fits |
| CalibStore.ValidateHomography | backend/wavr/calib_store.py:87-111 | the loop accepts exactly nine finite numbers of which the last is not zero, and names the first fault otherwise |
| CalibStore.CalibrationStore.SetHomography | backend/wavr/calib_store.py:193-222 | writes homography, size and quality, or nothing when an entry, the size, the quality (not a number, not finite, out of range) or the blob is at fault; keeps mount and points |
| CalibStore.CalibrationStore.SetPoints | backend/wavr/calib_store.py:224-245 | writes points and size, or nothing, with the error of the first check that fails: not a list, unequal lengths, too many, a malformed or non-finite pair, the size, the blob |
| CalibStore.PointsStoredExactly | backend/wavr/calib_store.py:114-147 | points are stored exactly when they are equally many finite [x, y] pairs within the limits, and then as handed in, in order |
| CalibStore.HomographyStoredExactly | backend/wavr/calib_store.py:193-222 | a homography is stored exactly when it is nine finite numbers, the last not zero, at a size of 1 to 100000 each way, with a quality from 0 to 1 if any, in 4096 characters |
| CalibStore.HomographyRefusedFor | backend/wavr/calib_store.py:87-111 | the first fault of a homography is the one named |
| CalibStore.PointsRefusedFor | backend/wavr/calib_store.py:114-147 | and of points |
| CalibStore.WritesKeep | backend/wavr/calib_store.py:179-245 | each write leaves the other columns and the other cameras as they were |
| CalibStore.CalibrationStore.SetMount | backend/wavr/calib_store.py:179-191 | writes the mount alone, or nothing |
| CalibRefine.SolveProgressive | backend/wavr/calib_refine.py:93-134 | the read, merge, solve and two writes, in order, with each way to fail |
| CalibRefine.SolveWrites | backend/wavr/calib_refine.py:93-134 | a refused solve writes nothing; a finished one stores the merge and its solve and counts its points and those of the walk; mount and other cameras are untouched |
| CalibRefine.PointsFollowExactly | backend/wavr/calib_refine.py:126-134 | once the homography is written, the points beside it are the ones it was solved from exactly when they pass the point limits |
| CalibRefine.OversizedFirstWalk | backend/wavr/calib_refine.py:63-66 | a first walk over 200 points stores a homography without its points |
| CalibRefine.HomographyAloneExactly | backend/wavr/calib_store.py:193-222 | writing a homography alone keeps the row coherent exactly when there are points and the write changes neither homography, nor quality, nor the size the points were marked at |
| CalibRefine.ResizeMixesExactly | backend/wavr/calib_store.py:193-222 | writing another size over old points makes the next walk merge with pixels of the old resolution instead of starting afresh; harmless exactly when that walk fits and fills the store or leaves no old point standing |
| CalibRefine.FittingWalksAreStored | backend/wavr/calib_refine.py:93-134 | in a run whose walks have at most 200 pairs and blobs in the cap, no solve ends with its points refused |
| CalibRefine.RunHolds | backend/wavr/calib_refine.py:93-134 | over every run of solves, mounts and deletes whose walks have at most 200 pairs and blobs in the cap, the row holds the merge of exactly the walks since the last delete, and its solve |
| CalibRefine.RunKeepsSurvivors | backend/wavr/calib_refine.py:42-90 | so in such a run every stored pair is one a walk measured and no later walk of that size came near |
| DesignTokens.ErrorsAreTrue | scripts/gen_tokens.py:36-46 | an error reported along a reference path is real: a cycle through the named token, or a reference to an undefined one with no fallback |
| DesignTokens.ResolvesExactly | scripts/gen_tokens.py:30-48 | every token resolves exactly when the reference graph has no cycle and nothing needed is missing |
| DesignTokens.SeenDoesNotMatter | scripts/gen_tokens.py:36-46 | the set of names already visited never changes a successful result |
| DesignTokens.SolutionAgrees | scripts/gen_tokens.py:36-46 | any solution of the substitution equations agrees with what resolves |
| DesignTokens.ResolvedIsTheSolution | scripts/gen_tokens.py:30-48 | the result is the one map in which each token is its definition with references replaced |
| DesignTokens.DeclaredExactly | scripts/gen_tokens.py:31-34 | the names read are those declared in some block, each with its last declaration |
| DesignTokens.Tokens | scripts/gen_tokens.py:30-48 | the loops succeed exactly on acyclic, complete declarations, return that map, and name a true fault otherwise |
| PeerPairing.Core.Redeem | backend/wavr/api_peers.py:86-101 | takes the displayed code, and no other, off the screen and mints one credential that verifies, for the Core that asked; or changes nothing |
| PeerCodes.OneCodeOneCredential | backend/wavr/pairing.py:125-155 | in every interleaving, no two confirms ever hold a credential for one code of one Core |
| PeerCodes.CredentialsAreForShownCodes | backend/wavr/pairing.py:125-155 | and one is only held for a code that Core had shown, which is off its screen |
| PeerPairing.Core.LinkBack | backend/wavr/api_peers.py:266-288 | records a peer naming the caller's own device row, or changes nothing |
| PeerPairing.Core.Unpair | backend/wavr/api_peers.py:294-305 | forgets the outbound token and revokes the inbound credential together |
| PeerInvariant.RunKeepsInv | backend/wavr/api_peers.py:86-305 | the protocol invariant holds in every interleaving of any number of pairings with lost replies |
| PeerRuns.RowsNameOwnDevices | backend/wavr/api_peers.py:179-288 | a peer row names a device its own Core minted for the Core at the other end |
| PeerRuns.EndsMatch | backend/wavr/api_peers.py:179-288 | the token in the row at one end is the token of the device named at the other |
| PeerRuns.UnpairIsFinal | backend/wavr/api_peers.py:294-305 | after unpair at either end, whatever follows, the token minted for that peer is rejected, the one the other end's row holds included |
| PeerRuns.ReverseLegOkIsTrue | backend/wavr/api_peers.py:215-244 | reverse_leg_ok true: the other Core stored that token; false: it verifies nowhere, ever after, even if stored |
| PeerRuns.OutboundIsOurs | backend/wavr/api_peers.py:179-288 | what a Core presents is rejected or taken for a credential minted for that Core |
| PeerRuns.ForwardCredentialNamedExactly | backend/wavr/api_peers.py:179-288 | the credential a redeem handed out is named by a peer row, so revocable by unpair, exactly when the link-back was stored |
| PeerRuns.UnlinkedGrantVerifies | backend/wavr/api_peers.py:86-288 | a credential whose link-back was never stored still verifies after every run that does not revoke that device by hand |
| PeerRuns.ReplyLostLeavesGrant | backend/wavr/api_peers.py:179-288 | a run that ends so: code shown, redeemed, reply lost, no peer row, the credential verifies |
| PeerRuns.PairingCompletes | backend/wavr/api_peers.py:179-288 | a run in which nothing is lost: the code is used up and each Core has a row for the other whose token the other takes |
| AssistantLoop.FindToolCall | backend/wavr/assistant_engine.py:458-482 | the scan returns the first TOOL line's name and its arguments when they are a JSON object, else none, and nothing exactly when there is no such line |
| AssistantLoop.AnswerDropsOnlyPreamble | backend/wavr/assistant_engine.py:485-496 | the answer is the reply from its first ANSWER line on, and nothing after it is lost |
| AssistantLoop.RunAsk | backend/wavr/assistant_engine.py:485-602 | for any model and tools, trace, names, prompts and executions are those of the leading run of tool replies within the budget; the answer is the next reply from its first ANSWER line on, without the marker, or all of it when there is none |
| AssistantLoop.BoundedAndGated | backend/wavr/assistant_engine.py:531-602 | at most `max_steps` executions and one more call; nothing executed outside scope and table |
| AssistantLoop.TraceIsAttempts | backend/wavr/assistant_engine.py:560-590 | trace entry i is the tool of reply i, ok exactly when permitted and returned |
| AssistantLoop.ExecutedExactly | backend/wavr/assistant_engine.py:560-590 | a call was executed exactly when it was permitted |
| AssistantLoop.ObservedExactly | backend/wavr/assistant_engine.py:560-586 | what the model is told of a call: a refusal, the first 4000 characters of the result, a timeout or a failure |
| AssistantLoop.PromptsShowTranscript | backend/wavr/assistant_engine.py:499-517 | every prompt shows exactly the observations made before it |
| AssistantLoop.ForcedExactly | backend/wavr/assistant_engine.py:591-602 | the last answer is forced exactly when every budgeted reply held a TOOL line |
| AssistantLoop.NoEngineWrites | backend/wavr/assistant_engine.py:149-163 | under the scope any engine is given, no run executes the one writing tool |
| AssistantLoop.CloudExactly | backend/wavr/assistant_engine.py:134-146 | an engine is local only through a loopback endpoint of its own |
| AssistantLoop.ScopeExactly | backend/wavr/assistant_engine.py:149-163 | a local engine may use every tool but the writing one, and reaches all the tools of the loop |
| AssistantLoop.ScopeMeetsTable | backend/wavr/assistant_engine.py:149-163 | what a cloud engine is allowed and what the table has |
| CameraUrl.SplitAuthority | backend/wavr/camera_url.py:21-33 | the loop over the delimiters returns the one cut of a URL before its first "/", "?" or "#" after "://" |
| CameraUrl.SplitUnique | backend/wavr/camera_url.py:21-33 | there is one such cut |
| CameraUrl.PartsUnique | backend/wavr/camera_url.py:21-53 | a URL has one reading as scheme, credentials, host and port, and tail |
| CameraUrl.RtspHost | backend/wavr/camera_url.py:36-53 | the host of that reading, ":554" included |
| CameraUrl.HostPortSpelled | backend/wavr/camera_url.py:36-80 | what is read from each way a host and a port are written, brackets, a missing host and a missing port included |
| CameraUrl.RebindRtspHost | backend/wavr/camera_url.py:56-80 | the string surgery replaces the host in that reading and nothing else |
| CameraUrl.UnbracketedIsRebindable | backend/wavr/camera_url.py:56-80 | every URL with a host not in brackets has a host to replace, so the laws below need no assumption about its port |
| CameraUrl.RebindReadsBack | backend/wavr/camera_url.py:56-80 | reading back the host gives the new address; scheme, credentials, port and tail are unchanged |
| CameraUrl.RebindTwice | backend/wavr/camera_url.py:56-80 | rebinding twice is rebinding once to the last address |
| CameraUrl.NotRebindable | backend/wavr/camera_url.py:56-80 | a URL with no host to replace, or a blank new host, leaves the URL as it was |
| CameraUrl.RebindSameExactly | backend/wavr/camera_url.py:56-80 | rebinding to the host already read is the identity exactly when that host is blank, or unbracketed and not read from a hostport whose only colon comes first |
| PercentEncoding.UnquoteQuote | backend/wavr/client_commands.py:158-162 | percent-decoding undoes `quote` on any bytes |
| PercentEncoding.QuoteIsSafe | backend/wavr/client_commands.py:158-162 | only unreserved characters and "%" come out |
| RtspCredentials.CredentialsRecovered | backend/wavr/api_space.py:755-788 | splitting and decoding the new userinfo gives back exactly the username and the password, whatever is in them |
| RtspCredentials.KeepsHostAndTail | backend/wavr/api_space.py:755-788 | scheme, host, port and tail of the masked URL are kept |
| RtspCredentials.SameHostRead | backend/wavr/camera_url.py:36-53 | so `rtsp_host` reads the same host from the masked URL and from the rebuilt one |
| RtspCredentials.KeepsExactly | backend/wavr/api_space.py:779-788 | and they are kept exactly when the tail has no "@" and host and tail hold a "/" or a ":" |
| RtspCredentials.PrefixExactly | backend/wavr/api_space.py:770-776 | only text that begins with rtsp:// or rtsps://, in any case, is rewritten |
| RtspCredentials.WithoutUsername | backend/wavr/api_space.py:770-788 | without a username the old userinfo is dropped and none written |
| ClientCommands.ReadArgs | backend/wavr/client_commands.py:175-195 | the loop in key order stops at the first fault or collects the body and the encoded path values |
| ClientCommands.BuildRequest | backend/wavr/client_commands.py:165-198 | a call becomes the request exactly when nothing is unknown, missing, mistyped or a bad segment, with the verb, the token and a body of exactly the arguments given outside the path; else the first fault in key order |
| ClientCommands.ArgFaultExactly | backend/wavr/client_commands.py:146-195 | when an argument is missing, of the wrong type or no path segment |
| ClientCommands.FirstFaultIsOne | backend/wavr/client_commands.py:172-195 | that first fault is unique, so every implementation reports the same |
| ClientCommands.PathRecovers | backend/wavr/client_commands.py:158-198 | cutting the path at "/" gives one segment per template segment, none empty or a dot-segment, and decoding gives back each argument |
| ClientCommands.PathHasNoQuery | backend/wavr/client_commands.py:158-198 | no argument can add a query or a fragment |
| ClientCommands.RequestInjective | backend/wavr/client_commands.py:165-198 | equal requests of one command come from equal arguments, null counting as absent |
| CommandTable.TableIsWellFormed | backend/wavr/client_commands.py:51-126 | every row of the table has the shape those results rely on |
| CommandTable.RequestFor | backend/wavr/client_commands.py:165-198 | so they hold of every command there is, with no assumption about the call |
| OldestOut.EvictKeepsNewest | backend/wavr/calib_sample.py:61-64 | eviction never removes an entry newer than one it keeps |
| OldestOut.PutStays | backend/wavr/calib_sample.py:59-64 | with a clock that does not go back, the entry just put stays exactly when the cap is not zero |
| OldestOut.PutCapped | backend/wavr/calib_sample.py:58-64 | the assignment and the min-and-pop loop are that eviction |
| OldestOut.EvictedExactly | backend/wavr/calib_sample.py:59-64 | a new key evicts an entry exactly when none is older and every one before it is newer, the clock standing still or not |
| CalibSample.StoreIsRecentCapped | backend/wavr/calib_sample.py:43-86 | in every history with a clock that moves, clears included, the store is a capped most-recent-first list |
| CalibSample.StoreIsMostRecent | backend/wavr/calib_sample.py:43-80 | without clears it is exactly the last valid sample of each of the most recently recorded distinct cameras |
| CalibSample.JustRecordedStays | backend/wavr/calib_sample.py:58-64 | the camera just recorded is there, even when the clock stands still |
| CalibSample.AcceptExactly | backend/wavr/calib_sample.py:43-57 | which readings are taken, and that they are taken as they are |
| CalibSample.TieEvictsJustRecorded | backend/wavr/calib_sample.py:61-64 | in a full store whose instants are all equal, the camera recorded last, when first to enter, is the next one evicted |
| CalibSample.PutAgreesExactly | backend/wavr/calib_sample.py:58-64 | recording agrees with the most-recent-first list exactly when the least recently recorded camera is the one that goes |
| CalibSample.AgreesExactly | backend/wavr/calib_sample.py:43-86 | over a whole history with a clock that does not go back, the store is that list all along exactly when this is so at each recording |
| CalibSample.CalibSampleStore.Record | backend/wavr/calib_sample.py:43-64 | records an accepted reading and drops any other |
| CalibSample.CalibSampleStore.Latest | backend/wavr/calib_sample.py:66-80 | returns the stored sample and its age exactly while it is no older than the cap |
| CalibSession.RunIsStanding | backend/wavr/calib_session.py:72-117 | after any calls, the pairs are the captures standing, each with its own spot, at the one locked size, and the state is what the history says |
| CalibSession.ReadyIsWhole | backend/wavr/calib_session.py:72-92 | a ready walk has every spot captured, at one size |
| CalibSession.CaptureTakenExactly | backend/wavr/calib_session.py:72-92 | a capture is taken exactly while open, with a spot left, at the locked size |
| CalibSession.CaptureThenRetry | backend/wavr/calib_session.py:72-106 | capture then retry restores pairs, index and state |
| CalibSession.NeverReopens | backend/wavr/calib_session.py:94-117 | a solved or aborted walk never walks again |
| CalibSession.LockStays | backend/wavr/calib_session.py:82-106 | the image size once locked stays locked, even when every capture is undone |
| CalibSession.TouchedExactly | backend/wavr/calib_session.py:72-117 | every call not refused counts as use of the session, at its time |
| CalibSession.RefusedFor | backend/wavr/calib_session.py:72-106 | which call is refused for what |
| CalibSession.IndexMatchesExactly | backend/wavr/calib_session.py:108-113 | the index counts the pairs exactly when no abort in the history found captures standing |
| CalibSession.CalibSession.Capture | backend/wavr/calib_session.py:72-92 | the method is one step of that machine, refusals changing nothing |
| CalibSession.CalibSession.RetryCurrent | backend/wavr/calib_session.py:94-106 | likewise for the undo |
| CalibSession.CalibSessionStore.Start | backend/wavr/calib_session.py:132-141 | a new walk replaces the camera's own, evicts only sessions no newer than those kept, and never itself |
| CalibSession.CalibSessionStore.Lookup | backend/wavr/calib_session.py:143-153 | a session is returned exactly while it was used no longer than the TTL ago, and is gone once read after that; others are untouched |
| AwayMonitor.ChangesAlternate | backend/wavr/away.py:44-67 | the house's values alternate and the last one is the closed form of the frames |
| AwayMonitor.VacantFrame | backend/wavr/away.py:44-52 | a frame that leaves all rooms vacant lengthens the run and makes the house away exactly at the grace |
| AwayMonitor.SinkSees | backend/wavr/away.py:54-67 | the retained topic gets every change, each other sink all but the first |
| AwayMonitor.EventsAlternate | backend/wavr/away.py:54-67 | arrived and left strictly alternate and none is sent for the first determination |
| AwayMonitor.AwayMonitor.Handle | backend/wavr/away.py:44-67 | after any frames, house and log are the closed form of the history: away when the trailing vacant run reaches the grace, else home if ever occupied, else undetermined |
| PolygonText.RoundedExactly | backend/wavr/anchors.py:472-473 | four decimals keep a coordinate exactly when it has no fifth, and otherwise to half a unit of the fourth |
| PolygonText.LoadDump | backend/wavr/anchors.py:472-486 | dumping and loading a polygon gives every point, in order, at four decimals |
| PolygonText.LoadDumpExactly | backend/wavr/anchors.py:472-486 | and the same polygon exactly when it has no fifth decimal |
| PolygonText.LoadPolygon | backend/wavr/anchors.py:476-486 | the loop that passes over malformed parts computes that reading |
| Anchors.CleanIsTidy | backend/wavr/anchors.py:132-138 | cleaned text is a normal form, and only tidy text comes through unchanged |
| Anchors.TidyExactly | backend/wavr/anchors.py:132-138 | tidy is: within the limit, no white space at either end, single blanks inside |
| Anchors.InRoomExactly | backend/wavr/anchors.py:205-230 | a point is accepted exactly when the room has fewer than three corners or, along each axis, it is at least minus the slack and at most the slack beyond the distance of some two corners |
| Anchors.RunKeepsInv | backend/wavr/anchors.py:251-410 | after every sequence of writes, rows are well formed and every mapping names an anchor there is |
| Anchors.KindDecidesGeometry | backend/wavr/anchors.py:251-373 | logical: nothing; point: x and y; area: 3 to 64 points; whatever was called before |
| Anchors.ResolvedAreAnchors | backend/wavr/anchors.py:412-425 | an external id resolves to exactly the anchors that list it |
| Anchors.BoundResolvesExactly | backend/wavr/anchors.py:377-425 | an id just bound resolves under the caller's own text exactly when that text was tidy |
| Anchors.UnbindsExactly | backend/wavr/anchors.py:377-410 | unbinding what was just bound, with the same text, removes it exactly when that text was tidy |
| Anchors.BindThenUnbind | backend/wavr/anchors.py:377-410 | binding and unbinding cancel |
| Anchors.DeleteUnbinds | backend/wavr/anchors.py:362-373 | deleting an anchor removes it from every resolution and nothing else |
| Anchors.OthersUntouched | backend/wavr/anchors.py:251-410 | a write about one anchor leaves every other as it was |
| Anchors.CreateReadsBackExactly | backend/wavr/anchors.py:289-300 | a created area reads back as returned exactly when it has at most four decimals |
| AnchorReads.AcceptedExactly | backend/wavr/anchors.py:132-401 | which writes are accepted: names of 1 to 80 characters once tidied, external ids of up to 200, finite coordinates in the room, 3 to 64 corners |
| AnchorReads.RefusedFor | backend/wavr/anchors.py:132-401 | and what the others are refused for, the first thing wrong in the order of the checks |
| AnchorReads.CreatedReadsBack | backend/wavr/anchors.py:251-300 | a created place reads back as drafted: coordinates in their order, corners at four decimals, nothing bound |
| AnchorReads.RenamedReadsBack | backend/wavr/anchors.py:302-311 | a rename changes the name and the time of change alone |
| AnchorReads.MovedReadsBack | backend/wavr/anchors.py:313-333 | a move changes room and level and clears the geometry, nothing else |
| AnchorReads.PlacedReadsBack | backend/wavr/anchors.py:335-360 | a placement makes it a point where it was put, nothing else |
| AnchorReads.BoundReadsBack | backend/wavr/anchors.py:377-401 | a binding adds its tidied external id, the first origin kept |
| AnchorReads.UnboundReadsBack | backend/wavr/anchors.py:403-410 | an unbinding takes out that external id alone |
| Anchors.AnchorStore.Create | backend/wavr/anchors.py:251-300 | the checks in order, then one insert |
| Anchors.AnchorStore.Move | backend/wavr/anchors.py:313-333 | the room changes and the coordinates are cleared |
| Anchors.AnchorStore.Bind | backend/wavr/anchors.py:377-401 | the checks in order, then insert-or-ignore |
| Anchors.AnchorStore.Resolve | backend/wavr/anchors.py:412-425 | every anchor bound to the id, once, in binding order, and no other |
| ConfigExport.ExportAcceptedExactly | backend/wavr/config_export.py:114-202 | a Core takes back its own export exactly when no list is over 500 rows |
| ConfigExport.PickExactly | backend/wavr/config_export.py:107-111 | a row that leaves carries the named, present fields it had, and nothing else |
| ConfigExport.ExportedFields | backend/wavr/config_export.py:83-111 | by name, the fields of each kind of row that leave; of a camera nothing but name, room, level and confidence |
| ConfigExport.SecretsNamedNotCarried | backend/wavr/config_export.py:124-150 | a secret setting's value never leaves, and every secret that had one is named |
| ConfigExport.CheckExactly | backend/wavr/config_export.py:157-202 | a file is taken exactly when it is an object of a version not newer than this one whose lists are absent or of at most 500 rows, and each refusal of the version is named exactly |
| ConfigExport.ListFaultExactly | backend/wavr/config_export.py:193-202 | the list a refusal names is at fault and none before it |
| ConfigExport.AsIntExactly | backend/wavr/config_export.py:181-185 | what a version is read as |
| ConfigImport.SplitIsOne | backend/wavr/config_export.py:307-311 | there is one way to split the anchors in order by whether their room is coming, and it loses none |
| ConfigImport.SplitAnchors | backend/wavr/config_export.py:307-311 | the loop finds it |
| ConfigImport.PlanImport | backend/wavr/config_export.py:260-334 | the plan: rooms replaced and lost, that split, and the rest carried over; or why there is none |
| ConfigImport.PreviewImport | backend/wavr/config_export.py:205-239 | the preview: the same rooms and the counts; or why there is none |
| ConfigImport.RoomsAgreeExactly | backend/wavr/config_export.py:221-303 | preview and plan read the same rooms, except where a list of floors or rooms is null, false or zero |
| ConfigImport.RoomNamesExactly | backend/wavr/config_export.py:301-304 | what is read from a floor plan is exactly the names its rooms have |
| ConfigImport.IncomingExactly | backend/wavr/config_export.py:211-303 | when a file has readable rooms, and when the validator refuses it |
| ConfigImport.ExecutableExactly | backend/wavr/config_export.py:305-334 | what else a plan needs: anchors and cameras that are objects, settings that are one or nothing |
| ConfigImport.PreviewAgreesWithPlan | backend/wavr/config_export.py:205-334 | both report the same rooms, counts and digest, and each existing room is replaced or lost, never both |
| ConfigImport.PlannedPreviewsExactly | backend/wavr/config_export.py:205-334 | a file that plans also previews exactly when it has no such null, false or zero |
| ConfigImport.ExportPlans | backend/wavr/config_export.py:114-334 | a Core's own export always plans past its rooms, and every anchor, camera, node, mapping, provider and setting is accounted for |
| ConfigAudit.Walk | backend/wavr/config_export.py:480-512 | the recursive walk appends what the specification says, in order |
| ConfigAudit.FoundExactly | backend/wavr/config_export.py:480-512 | at any depth, the walk finds exactly the positions whose key names a secret or whose string is shaped like a credential |
| ConfigAudit.Audit | backend/wavr/config_export.py:467-514 | the result is sorted, free of duplicates, and holds exactly the paths of leaks: a credential's shape anywhere in a text, or a secret's name anywhere in a key outside the two allowed, in any case and at any depth |
| ConfigAudit.BadTextExactly | backend/wavr/config_export.py:496-512 | a text is suspicious exactly when one of the three shapes stands somewhere in it, in any case |
| ConfigAudit.BadKeyExactly | backend/wavr/config_export.py:476-491 | a key exactly when one of the eleven words stands somewhere in it, in any case, and it is not one of the two that only name secrets |
| ConfigAudit.PathSpelled | backend/wavr/config_export.py:485-495 | how the path of a leak is written |
| ConfigHandover.ExportAuditsExactly | backend/wavr/config_export.py:114-154 | the audit finds nothing in an export exactly when all it was given and lets leave is clean: time stamp, space, house, the named fields of each row, topology, each setting's name and last value; no name and no prose of the exporter's own is ever found |
| ConfigHandover.HandOver | backend/wavr/api_config_export.py:83-99 | so an export is handed over exactly then, and is refused with the paths of all that is suspicious otherwise |
| ConfigHandover.ExportPlansBack | backend/wavr/config_export.py:260-334 | an export planned on any Space writes its anchors whose room its own floor plan has, names the others, in order; and on the Space it came from loses no room |
| ConfigHandover.CameraComesBack | backend/wavr/config_export.py:327-328 | a camera is planned under its own name and in its own room |

## Left out

- Network, sockets, TLS, ARP frames, subprocesses and mDNS: the wire is a log of packets, the network a set of protocol steps that may be lost.
- The transport of the blocker is wired and takes the `restore` keyword. Without one nothing is sent, and one without the keyword is handed every corrective packet as a plain send.
- SQLite, threads, locks and asyncio scheduling: tables are maps, and a stretch with no await is one step. `stop` of the blocker is two steps, before and after its await.
- HTTP wiring: routers, status codes, authentication and rate limits. A throttled redeem is one flag of the step, and the expiry of a displayed code is a step of its own.
- IPv6 in target validation and in host rebinding: addresses are IPv4, and a new host has no colon.
- Floating point: coordinates, clocks and thresholds are reals. NaN and infinities are modelled where the code tests for them.
- CalibSample.CalibSampleStore.Record: an integer too large for float() raises an error nobody catches; the model has no such number.
- ConfigExport.ExportAcceptedExactly: a version written as text is a sign and digits; the other spellings int() takes are not read.
- Unicode white space and case folding: strip, split and lower are those of ASCII.
- Regular expressions: a reply of the model is a list of lines already told apart as TOOL, ANSWER or other, and a CSS value a list of text and references.
- json.loads, json.dumps, SHA-256, UTF-8, the homography solver and the language model are parameters: size functions, a digest, bytes, a partial function, an oracle.
- CalibRefine.RunHolds: assumes that each walk has at most 200 pairs and that no 200 walked pairs make too large a blob, because otherwise it is false; `PointsFollowExactly` says of each solve exactly when.
- CalibStore.CalibrationStore.SetMount: the fields of a mount arrive validated; `validate_mount` is a list of range checks.
- ArpRuns.EveryPoisonAuthorised: does not say which of several accepted calls a poison comes from.
- DeviceBlocker.ArpBlocker.StopRestore: does not model that a block accepted during the await of `stop` starts a loop that nobody cancels.
- ClientCommands.BuildRequest: the value of a path argument is a string by its declared type; the table has no other kind.
- ConfigImport.PlanImport: settings given as a list of pairs, which Python would turn into a dictionary, count as an uncaught error.
- PolygonText.LoadPolygon: reads optional sign, digits and one point; the other spellings float() takes never occur in stored text. A negative zero is zero.
- Anchors.AnchorStore.Bind: its check and its insert are one step; the code takes its lock twice.
- AwayMonitor.AwayMonitor.Handle: a frame always names its room and its occupancy.
- `result_for` and `transport_failure` of the client commands, role tables, labels, descriptions and recommendation texts: finite case tables.
- `diagnostic_bundle`, `_node_health` and `summarize`: counts over the same documents.
- Node store, fusion engine, UWB, presence, routines and the other routers are not part of this model.

# Verified model of the appliance administration daemon

This project models the stateful parts of the privileged daemon and of its
recovery-name publisher, and proves what they promise: Wi-Fi changes that
either verify or roll back, a rate-limited scan cache, merged access-point
lists, hostname changes that keep Linux and Avahi in step, and a publisher that
never leaks a child process. `dafny verify dfyconfig.toml` checks all of it.

## How the modules fit together

| module | what it models |
|---|---|
| `Transaction` | the checkpointed Wi-Fi transaction as a transition system: any number of `connect` / `activate_profile` calls, NetworkManager's configuration and checkpoint, D-Bus errors with and without effect, cancellation at every `await`, expiry, changes made without the lock, and the clock |
| `TransactionOutcomes` | what the network is when a call ends, which calls commit, and what becomes of changes made without the lock |
| `TransactionEnvironment` | what follows from how each `await` of a call goes: its outcome, its checkpoint, its rollbacks, whether it commits |
| `TransactionCode` | the same calls as the code runs them, step by step, on fields of its own; whatever the environment does, each step is one of `Transaction`, and the one the environment brings about |
| `Activation`, `ActivationWakeups` | the verification loop with its deadline, and its signals, event and property reads |
| `ScanCache`, `ScanCode` | the scan cache and its rate limit as a transition system, and the code of `scan` proved to produce runs of it |
| `ScanWait` | waiting for LastScan to move, with the race between first read and subscription |
| `AccessPoints`, `AccessPointLaws` | grouping, merging and sorting access points; what the resulting list means |
| `Hostnames` | the hostname pattern, lower-casing, `shlex.split` and busctl replies |
| `HostnameTransaction` | `hostname_set` with its compensation, polling and time bounds |
| `RecoveryPublisher` | the reconciliation loop of the publisher script |
| `Nameservers`, `IpcServer` | the DNS list of an IPv4 configuration; one client connection of the daemon |

Events and scripts carry every choice of the environment, so each theorem holds
for all of them. Time is in integer ticks, milliseconds where the source's
constants are used.

## Where the code and its description differ

The model follows the code.

- README.md:167 says that failure rolls back immediately. What a call leaves behind is
  stated exactly (`TransactionOutcomes.OutcomeExact`): its checkpoint stays live unless one of
  its destroy or rollback requests took effect, or it expired. Four ways to fail without going
  back: the checkpoint request takes effect but is answered with an error
  (`TransactionOutcomes.CreateLost`); the interface look-up between the checkpoint and the `try`
  (network.py:516 and 614) fails (`TransactionOutcomes.LookupLost`); the rollback is lost
  (`TransactionOutcomes.RollbackLost`); the destroy takes effect but is answered with an error, and the
  network stays for good (`TransactionOutcomes.FailedYetCommitted`).
- README.md:165-167 says that the daemon verifies the network and then destroys the
  checkpoint. What is committed can be something else in two ways: a checkpoint absorbs the
  orphan of an earlier call, so that an unverified network becomes the state to go back to
  (`Transaction.LaunderedOrphan`); or the network changes between the verification and the
  commit (`Transaction.DriftedCommit`). With a request timeout that is not below the checkpoint
  timeout there is a third: a call can activate its connection when its checkpoint has expired.
  NetworkManager falls back on verified work exactly as long as none of them happens
  (`Transaction.VerifiedExact`).
- `disconnect` and `delete_profile` report success even when a live checkpoint
  is going to undo them (`TransactionOutcomes.UnlockedChangeSurvives`,
  `TransactionOutcomes.UnlockedChangeUndone`).
- README.md:159 says scans are requested no more often than the minimum interval.
  Only completed scans count (`ScanCache.RequestExact`), and rejected ones can follow
  one another without any time passing (`ScanCache.RejectedScansAreNotLimited`). It also says
  that only one scan can run at once: only one is awaited, and a scan whose call has timed out or
  was cancelled may still be running when the next one is requested (`ScanCache.OverlapExact`).
- Two access points of one network with one BSSID: a stronger duplicate is listed
  twice and a weaker one loses the active flag (`AccessPointLaws.DuplicatesMisbehave`).
  Which duplicates do so is stated exactly, and the merge is specified for them too.
- INT and TERM stop all publishers, and the loop goes on. One that arrives while the first loop
  still has keys to look up ends the script, which runs under `set -u`
  (`RecoveryPublisher.Publisher.Round`).

## Model

| member | source | states |
|---|---|---|
| Transaction.RunExclusive | src/appliance_admin/daemon/managers/network.py:491-545 | in every run the calls inside the transaction are exactly the lock's holder, so at most one is inside, whatever the timeouts |
| Transaction.RunInv | src/appliance_admin/daemon/managers/network.py:407-415 | if the server gives up on requests before checkpoints expire (or they never do), a call past checkpoint creation and not yet resolving it holds its own live checkpoint, which outlasts the call's deadline |
| Transaction.RunSettled | src/appliance_admin/daemon/managers/network.py:478-545 | in every run, whatever the timeouts, what NetworkManager is in (no checkpoint live) or would go back to (one live) is the configuration of the latest verified commit, absorption, or deliberate change or activation made with no checkpoint live |
| Transaction.RunVerified | src/appliance_admin/daemon/managers/network.py:593-637 | in every run, whatever the timeouts, in which no absorption loses anything, no commit is of a changed network and no call activates another network once its checkpoint has expired, NetworkManager is in, or falls back on, what the latest committing call found usable, or the latest deliberate change, else the initial configuration |
| Transaction.VerifiedExact | src/appliance_admin/daemon/managers/network.py:409-485 | whatever the timeouts: given that, the next step keeps it exactly when it does not create a checkpoint over a live one whose snapshot differs from the configuration in force, nor commit a network last changed, by a settling activation or without the lock, to something else than its call verified, nor activate another network with no checkpoint live |
| Transaction.RunDestroying | src/appliance_admin/daemon/managers/network.py:483-484 | whatever the timeouts, while a call that has verified its connection still has its checkpoint, nothing but a settling activation and changes without the lock touches the network: the configuration is the last of those, else the one verified |
| Transaction.NeverExposed | src/appliance_admin/daemon/server.py:122-124 | if the server gives up on requests before checkpoints expire (or they never do), no call ever activates a connection with no checkpoint live |
| Transaction.LaunderedOrphan | src/appliance_admin/daemon/managers/network.py:409-414 | with a server that gives up in time, a run with one call cancelled at its request timeout and one failed call that ends with no checkpoint live in a network nobody verified |
| Transaction.DriftedCommit | src/appliance_admin/daemon/managers/network.py:483-485 | one call, nothing absorbed, that is accepted and leaves for good a network nobody verified |
| Transaction.RequestTimeoutExact | src/appliance_admin/daemon/server.py:122-124 | no run destroys an expired checkpoint, and no run without one of those two steps leaves an unverified network, if and only if the request timeout is below the checkpoint timeout or checkpoints never expire (timeout 0) |
| Transaction.CreationsAreDisjoint | src/appliance_admin/daemon/managers/network.py:407-415 | in every interleaving, when a checkpoint is created no call holds one, and the one DESTROY_ALL removes was created by a call that is over |
| Transaction.AcceptedMeansCommitted | src/appliance_admin/daemon/managers/network.py:478-485 | every accepted call destroyed its own live checkpoint after its verification had succeeded |
| Transaction.GoneStaysGone | src/appliance_admin/daemon/managers/network.py:486-489 | a resolved checkpoint never comes back, whatever other calls do |
| Transaction.SecondRollbackIsIdle | src/appliance_admin/daemon/managers/network.py:529-532 | once the first rollback took effect, the second one changes nothing, with any interleaving in between |
| Transaction.TimeoutRestores | src/appliance_admin/daemon/managers/network.py:407-415 | whatever the request timeout: once the checkpoint timeout, if there is one, has passed with no commit, no new checkpoint and no change made without the lock or without a checkpoint, the previous configuration is back, even if the daemon does nothing any more |
| TransactionOutcomes.OutcomeExact | src/appliance_admin/daemon/managers/network.py:478-545 | whatever the timeouts, at the moment a call ends, however it does: its checkpoint is live exactly when it was created, no destroy or rollback request of the call took effect and it has not expired, and else none is live; the previous configuration is in force exactly when nothing has changed it, and not back, since the checkpoint was created, or since its rollback or expiry if that came before any destroy; and the call has committed exactly when its destroy took effect first |
| TransactionOutcomes.CommitExact | src/appliance_admin/daemon/managers/network.py:482-489 | whatever the timeouts, a call commits if it is accepted; one that is not accepted commits exactly when its destroy was carried out, although answered with an error or cut off by cancellation, and its checkpoint had not expired before |
| TransactionOutcomes.RollbacksExact | src/appliance_admin/daemon/managers/network.py:484-538 | a failed call has asked for no rollback if it had not asked for an activation, for two if its verification came to a result, else for one |
| TransactionOutcomes.NeverOutlived | src/appliance_admin/daemon/server.py:122-124 | if the server gives up on requests before checkpoints expire (or they never do), no checkpoint expires under a call on its way to its destroy |
| TransactionOutcomes.LookupLost | src/appliance_admin/daemon/managers/network.py:614-616 | a call can fail uncancelled with its checkpoint live and no rollback asked for |
| TransactionOutcomes.CreateLost | src/appliance_admin/daemon/managers/network.py:407-415 | a call can fail with a live checkpoint whose creation was answered with an error |
| TransactionOutcomes.RollbackLost | src/appliance_admin/daemon/managers/network.py:525-538 | a call can fail with the new network in force, its one rollback lost |
| TransactionOutcomes.FailedYetCommitted | src/appliance_admin/daemon/managers/network.py:484-489 | a call can fail with its network in place for good, its destroy having taken effect |
| TransactionOutcomes.UnlockedChangeSurvives | src/appliance_admin/daemon/managers/network.py:547-553 | in every future in which nobody changes the configuration again, a change made without the lock is in force if and only if no checkpoint was live, or it still is, or it went by a commit or an absorption and not by a rollback or its expiry |
| TransactionOutcomes.UnlockedChangeUndone | src/appliance_admin/daemon/managers/network.py:547-553 | a run in which such a change is made, and a failing call takes it back |
| TransactionEnvironment.OutcomeFollows | src/appliance_admin/daemon/managers/network.py:491-545 | the outcome follows from how the awaits go: accepted only if all go as planned, and then indeed if the server gives up in time; cancelled exactly if the last one is cancelled, and always if that is what happens first |
| TransactionEnvironment.RollbackFollows | src/appliance_admin/daemon/managers/network.py:484-538 | an uncancelled call that fails after asking for its activation has asked for a rollback in its last await; if that takes effect, or after a failed verification or destroy the one before it, no checkpoint is live, and, unless the call has committed, what its checkpoint found is in force, up to later changes without the lock |
| TransactionEnvironment.CheckpointFollows | src/appliance_admin/daemon/managers/network.py:407-415 | the call has a checkpoint exactly if the look-ups succeed and the creation takes effect, whatever the reply |
| TransactionEnvironment.CommitFollows | src/appliance_admin/daemon/managers/network.py:478-489 | with a server that gives up in time, a call commits exactly if all goes as planned up to its verification and the destroy takes effect, whatever the reply and even if it is cancelled meanwhile |
| TransactionEnvironment.ActivationFollows | src/appliance_admin/daemon/managers/network.py:518-523 | the only connection a call activates is the one its activation request is for |
| TransactionCode.Daemon.FinishTransaction | src/appliance_admin/daemon/managers/network.py:478-489 | every path through the `try` is a run, each of its events the one that its await brings about: it returns only when accepted, raises only towards the outer rollback of the same checkpoint, and lets cancellation through |
| TransactionCode.Daemon.Checkpointed | src/appliance_admin/daemon/managers/network.py:516-545 | from the checkpoint on, every path is a run that ends the call, with the events, rollbacks included, that its awaits bring about |
| TransactionCode.Daemon.Locked | src/appliance_admin/daemon/managers/network.py:595-615 | the body of the lock, look-ups and checkpoint creation included, is a run that ends the call, with the events that its awaits bring about |
| TransactionCode.Daemon.Transaction | src/appliance_admin/daemon/managers/network.py:491-545 | whatever the environment does, the call extends the run it found and ends, with the events that its awaits bring about; so the five laws of TransactionEnvironment hold of it, it is accepted only after its own verified commit, and the network it leaves is what its ledger of effective requests says |
| Activation.VerifyActivation | src/appliance_admin/daemon/managers/network.py:417-476 | a failed interface look-up ends it at once; else the verdict is that of the first conclusive iteration; a timeout only after the deadline, and not while the waits up to the signals, with a second for each other wait, leave room for another look; at most signals + ceil(timeout in seconds) iterations; at most a second of waiting in each, none past the deadline and none past a signal; unsubscribed on every exit |
| Activation.LookExact | src/appliance_admin/daemon/managers/network.py:437-466 | in NetworkManager's numbers: usable exactly with device state 100, connection state 2, addresses, gateway, DNS and connectivity outside 1, 2, 3; rejected exactly with device state 120, connection state 4 or, all else in place, connectivity 1, 2 or 3; when a look decides nothing |
| ActivationWakeups.RunCurrent | src/appliance_admin/daemon/managers/network.py:425-437 | in every run each value read since the clear is current, or its being outdated is noticed |
| ActivationWakeups.NoLostWakeup | src/appliance_admin/daemon/managers/network.py:431-437 | in every run, while the loop waits with the event clear and no signal under way, both states it read are NetworkManager's, at once |
| ActivationWakeups.EventExact | src/appliance_admin/daemon/managers/network.py:427-434 | the event is set exactly if a signal has arrived since it was last cleared, so no signal from before an iteration cuts its wait |
| ActivationWakeups.ChangeWakes | src/appliance_admin/daemon/managers/network.py:467-469 | if they are not, then once the messages under way have arrived the event is set, and the wait ends with another iteration |
| ScanWait.RequestScanAndWait | src/appliance_admin/daemon/managers/network.py:349-377 | completes only if LastScan took a new non-negative value, and always if a signal shows one; times out only if neither a signal nor the re-read shows one; each error exactly when its call failed; unsubscribed on every exit |
| ScanWait.RaceTolerated | src/appliance_admin/daemon/managers/network.py:358-375 | whatever the moment of the subscription, a finished scan is seen if and only if there was one, exactly when a finished scan still shows in the re-read, which it does if LastScan only moves forward |
| AccessPoints.ReadAccessPoints | src/appliance_admin/daemon/managers/network.py:305-347 | succeeds exactly when the device, the list and every access point can be read and every named network has a strength of 0 to 100; fails with the error of the first access point that is not so; and returns the merged list of the specification |
| AccessPoints.EntrySnoc | src/appliance_admin/daemon/managers/network.py:332-341 | the loop's three branches compute the specified entry of the network from one more reading |
| AccessPoints.SortOrdered | src/appliance_admin/daemon/managers/network.py:342-347 | the sort puts stronger networks first and keeps ties in the order they were first heard |
| AccessPointLaws.MergedUnique | src/appliance_admin/daemon/managers/network.py:305-347 | the specification determines the list completely |
| AccessPointLaws.StrongestFirst | src/appliance_admin/daemon/managers/network.py:342-347 | the list goes from strong to weak, equally strong networks in the order in which they were first heard |
| AccessPointLaws.GroupInOrder | src/appliance_admin/daemon/managers/network.py:311-332 | the readings of a network are all of its readings, in arrival order |
| AccessPointLaws.MergedMeaning | src/appliance_admin/daemon/managers/network.py:311-347 | with distinct BSSIDs: the group is all readings of that name and that security, where secured means that one of the three sets of flags is set; the group's maximum strength, BSSID and frequency of the first access point reaching it, exactly the group's BSSIDs in arrival order, active if one of the group is |
| AccessPointLaws.OneEntryPerNetwork | src/appliance_admin/daemon/managers/network.py:331-336 | exactly one entry per name and security heard, the security read off the flags |
| AccessPointLaws.OrderIndependent | src/appliance_admin/daemon/managers/network.py:311-347 | permuting the access points leaves the set of network, strength, BSSID set and active flag unchanged |
| AccessPointLaws.AtMostOneActive | src/appliance_admin/daemon/managers/network.py:329-341 | if at most one access point is the active one, at most one entry is active |
| AccessPointLaws.KeptHas | src/appliance_admin/daemon/managers/network.py:335-341 | an access point counts exactly when its BSSID is new to the network or it beats every earlier one |
| AccessPointLaws.AllKeptExact | src/appliance_admin/daemon/managers/network.py:339-340 | all BSSIDs are listed in arrival order exactly when none is passed over |
| AccessPointLaws.DuplicatesExact | src/appliance_admin/daemon/managers/network.py:335-336 | a BSSID is listed twice exactly when a repeated one comes with a new maximum |
| AccessPointLaws.ActiveLostExact | src/appliance_admin/daemon/managers/network.py:339-341 | the active flag is lost exactly when every reading of the active access point is passed over |
| AccessPointLaws.DuplicatesMisbehave | src/appliance_admin/daemon/managers/network.py:335-341 | two readings with one BSSID for which each of the two goes wrong |
| ScanCache.OneScanAtATime | src/appliance_admin/daemon/managers/network.py:390-395 | at most one call awaits a D-Bus scan in every interleaving |
| ScanCache.ScansAccounted | src/appliance_admin/daemon/managers/network.py:390-401 | every scan requested is awaited, has completed, or was given up by its call, and only one of these |
| ScanCache.OverlapExact | src/appliance_admin/daemon/managers/network.py:393-401 | when a scan is requested, the earlier ones that NetworkManager may still be running are exactly those whose calls gave up on them |
| ScanCache.CompletedScansAreSpaced | src/appliance_admin/daemon/managers/network.py:392-396 | completed scans were decided at least the minimum interval apart, forced or not |
| ScanCache.RequestExact | src/appliance_admin/daemon/managers/network.py:392-395 | a scan is requested if and only if the minimum interval has passed since the latest completed one was decided |
| ScanCache.RejectedScansAreNotLimited | src/appliance_admin/daemon/managers/network.py:393-401 | any number of scans can be requested in one instant while they are rejected |
| ScanCache.CachedReplies | src/appliance_admin/daemon/managers/network.py:383-389 | every cached reply is non-empty, equals the latest completed read, and was younger than the cache time, and the call did not force |
| ScanCache.CacheIsLastRead | src/appliance_admin/daemon/managers/network.py:402-405 | in every run the cache is the latest completed read with the time it ended |
| ScanCache.BusyOnlyWithoutCache | src/appliance_admin/daemon/managers/network.py:399-401 | BusyError is raised only on a rejected scan while no read has produced anything |
| ScanCache.RepliesExact | src/appliance_admin/daemon/managers/network.py:383-405 | which call gets which reply, exactly: a backend lost in the look-up, the scan or the read ends the call with that error, a rejected scan with BusyError exactly if nothing is cached, a read with what it read; the cache answers exactly unforced calls that find it non-empty and fresh |
| ScanCode.Scanner.Scan | src/appliance_admin/daemon/managers/network.py:379-389 | answers from the cache exactly when not forced, non-empty and fresh, and is a step of the system |
| ScanCode.Scanner.ScanLocked | src/appliance_admin/daemon/managers/network.py:390-405 | the body of the lock is a run that ends the call and frees the lock, and its reply is exactly the one its awaits, the interval and the cache decide; a fresh reply is what is cached and stamped; errors leave the cache; the request stamp becomes the time of the decision exactly if a scan was due and completed |
| ScanCode.Scanner.RequestIfDue | src/appliance_admin/daemon/managers/network.py:391-401 | which reply ends the call before the read, if any, exactly; the request stamp is written exactly for a completed scan, with the time of the decision |
| Hostnames.PatternAcceptsLabels | src/appliance_admin/models.py:87-92 | the pattern accepts exactly 1 to 63 letters, digits and hyphens without a hyphen at either end |
| Hostnames.LowerExact | src/appliance_admin/daemon/managers/system.py:178 | lower-casing replaces each upper-case letter by the same one of the lower-case alphabet, changes nothing else, and leaves no upper-case letter |
| Hostnames.LowerKeepsLabels | src/appliance_admin/daemon/managers/system.py:177-178 | lower-casing a valid name gives the lower-case form of it, which is valid |
| Hostnames.ParseBusctl | src/appliance_admin/daemon/managers/system.py:88-90 | reading busctl's line back gives the printed text, less trailing dots, lower-cased |
| Hostnames.OtherRepliesRejected | src/appliance_admin/daemon/managers/system.py:88-90 | only a reply of type s with closed quotes is a name |
| Hostnames.DoubleQuotesReadBack | src/appliance_admin/daemon/managers/system.py:88 | shlex.split: double quotes keep any text whose quotes and backslashes are escaped |
| Hostnames.OthersReadBack | src/appliance_admin/daemon/managers/system.py:88 | shlex.split: single quotes keep any other text verbatim, and a backslash the next character; one at the end is an error |
| Hostnames.StripExact | src/appliance_admin/daemon/managers/system.py:90 | exactly all trailing dots go |
| Hostnames.FqdnRoundTrip | src/appliance_admin/daemon/managers/system.py:88-90 | for every valid name and any trailing dots, the line for name.local reads back as the lower-cased name.local |
| HostnameTransaction.Host.Run | src/appliance_admin/daemon/managers/system.py:45-66 | any outcome, with or without effect, within the command's timeout; replies are truthful or unreadable |
| HostnameTransaction.WaitForAvahi | src/appliance_admin/daemon/managers/system.py:80-97 | returns the first name read, just read off a running Avahi; gives up only after the deadline with none read; is interrupted exactly by an exception nobody catches; polls at most 41 times, and ends within 8.1 s |
| HostnameTransaction.PublishName | src/appliance_admin/daemon/managers/system.py:111-120 | true exactly if Avahi takes the name and name.local is the first name then read off it; interrupted exactly by an exception nobody catches |
| HostnameTransaction.RestoreHostname | src/appliance_admin/daemon/managers/system.py:99-121 | attempts both rollbacks even if the first fails, and reports each one exactly if it failed: the command, or for Avahi another first name or none; interrupted exactly by an exception nobody catches |
| HostnameTransaction.Transact | src/appliance_admin/daemon/managers/system.py:186-238 | the commands issued account for the outcome, in order, and their replies decide it: failed on Linux exactly if that command failed, accepted exactly if Avahi then shows the requested name, else failed on mDNS; interrupted exactly by an exception nobody catches; within 56.2 s |
| HostnameTransaction.HostnameSet | src/appliance_admin/daemon/managers/system.py:176-238 | accepted implies the Linux name is the request in lower case, letter by letter, and Avahi was observed running at it; an error saying restored implies both are at the original in lower case; unreadable exactly if the first command failed, interrupted exactly by an exception nobody catches, and otherwise the outcome the replies decide; within 58.2 s |
| HostnameTransaction.AgreementHolds | src/appliance_admin/daemon/managers/system.py:176-238 | over any sequence of calls from agreeing names, Avahi's FQDN is the Linux name plus .local after each call unless a rollback error was reported, or an exception nobody catches was raised, since the last call that vouches for it |
| HostnameTransaction.OnlyReportedErrorsDisagree | src/appliance_admin/daemon/managers/system.py:176-238 | over calls that are not cancelled and meet no other exception nobody catches, the names agree after each unless one of them reported a rollback error |
| HostnameTransaction.SetAll | src/appliance_admin/daemon/managers/system.py:176-238 | the calls of a client, made one after the other on a machine that does what it likes, are such a sequence, each counted as raised exactly if the machine makes one of its commands raise; the names agree after each as stated |
| RecoveryPublisher.AddressOfCidr | scripts/publish-recovery-hostname.sh:50-53 | the address of a listing is what precedes the prefix length |
| RecoveryPublisher.RecoveryNameExact | scripts/publish-recovery-hostname.sh:38-43 | recovery-name mode is the recovery name in any letter case, alone or in the domain local |
| RecoveryPublisher.AddressesExact | scripts/publish-recovery-hostname.sh:49-53 | the active addresses are exactly the non-empty parts of the listed fields before their last slash |
| RecoveryPublisher.Publisher.StopPublisher | scripts/publish-recovery-hostname.sh:18-26 | forgets exactly that address, after its process was killed or found dead and waited for |
| RecoveryPublisher.Publisher.StopAll | scripts/publish-recovery-hostname.sh:28-35 | empties the map and leaves no child unwaited for |
| RecoveryPublisher.Publisher.StopStale | scripts/publish-recovery-hostname.sh:55-60 | undisturbed, removes the publishers whose address is gone and those dead before the first check, each waited for; one that did not die is kept, alive, under its pid; none that died counts as alive; a signal before the last key is looked up empties the map and ends the script |
| RecoveryPublisher.Publisher.Spawn | scripts/publish-recovery-hostname.sh:62-68 | undisturbed, every active address ends with a publisher, existing ones keep their pid, new ones get a new process; after a signal only new publishers of active addresses are left |
| RecoveryPublisher.Publisher.Round | scripts/publish-recovery-hostname.sh:37-71 | in recovery-name mode the map is empty; else, undisturbed, its keys are the active addresses, a publisher that did not die keeps its pid, one that died in the round before, in the sleep or before the first check is replaced, and one that dies later is replaced or known to be dead; with signals between any two commands, all the old publishers are waited for and no child is outside the map; the script ends exactly when a signal takes a key away under the first loop |
| RecoveryPublisher.Conservation | scripts/publish-recovery-hostname.sh:18-33 | processes spawned = processes waited for + map entries, and every live one is in the map |
| RecoveryPublisher.LivePublisherKeepsPid | scripts/publish-recovery-hostname.sh:55-68 | over any number of undisturbed rounds, an address that stays active keeps its pid until that publisher dies on its own |
| RecoveryPublisher.DeadPublisherIsReplaced | scripts/publish-recovery-hostname.sh:55-68 | over any rounds and signals, a publisher found dead, deaths during the sleep included, is out of the map after the next one, for good, while each undisturbed round covers the active addresses |
| RecoveryPublisher.EveryDeathIsNoticed | scripts/publish-recovery-hostname.sh:55-68 | a publisher that dies at any moment of a round is not alive after it, and out of the map for good after the one that follows |
| RecoveryPublisher.Script | scripts/publish-recovery-hostname.sh:35-71 | after any rounds, with signals in and between them and publishers dying as they like, exit leaves no child and every process was waited for; the snapshots taken are a history the laws above apply to; it stops early exactly after a round that loses a key |
| Nameservers.DnsServers | src/appliance_admin/daemon/managers/network.py:218-226 | if some entry of the newer property has an address, exactly those addresses in order; else one quad per word, in order, each reading back as its word; the first oversized word raises |
| Nameservers.QuadRoundTrip | src/appliance_admin/daemon/managers/network.py:224-226 | reading the dotted quad back in little-endian order recovers every 32-bit word |
| Nameservers.LowestByteFirst | src/appliance_admin/daemon/managers/network.py:224-226 | the lowest byte of the word is the first number of the quad |
| Nameservers.DecimalCanonical | src/appliance_admin/daemon/managers/network.py:224-226 | numbers are printed without leading zeros |
| IpcServer.AccessExact | src/appliance_admin/daemon/server.py:74-84 | root and the listed users may always come in, a peer the socket does not identify never, and anybody else exactly as a known member, primary or supplementary, of the socket's group |
| IpcServer.HandleClient | src/appliance_admin/daemon/server.py:86-158 | a handler runs exactly for an authorized peer, a line in time, within the size limit and ended by a newline, a valid request and a known action; one response under the request's own id, each refusal and each ending of the handler under its own code; cancelled at the timeout exactly when the handler takes that long; at most two timeouts in all |

## Left out

- NetworkManager's configuration is one value that a checkpoint captures whole; that a real rollback covers one device and deletes new connections is not modelled further.
- Messages on the one bus connection are taken to be handled in order, so a request in flight when its call is cancelled takes effect then or never.
- Configuration changes that NetworkManager makes by itself while no checkpoint is live.
- A cancellation is always delivered; `asyncio.wait_for` of Python 3.11 can return normally when it is cancelled in the instant its event is set.
- The order in which callers waiting for a lock get it: any waiting call may be next.
- HostnameTransaction.HostnameSet: nothing is promised about overlapping calls, about names changed from outside, or about Avahi renaming itself while nobody watches it.
- HostnameTransaction.HostnameSet: after an interruption only which commands may have been issued is stated; the 58.2 s bound exceeds the default request timeout of 30 s, so a cancelled call can leave either name behind.
- RecoveryPublisher.Publisher.Round: a pid is never reused by another process, and a signal between starting a process and entering it in the map counts as one before the start.
- Transaction.RunVerified: a verification is one moment, that of its last read; a network that changes between the reads of one successful iteration counts as verified in its last state.
- Nameservers.DnsServers: a word over 32 bits raises in the code, and the contract says so; the D-Bus type of the property rules such words out.
- IpcServer.HandleClient: JSON and pydantic validation is a function to an optional request; log lines and failures while writing the response are not modelled.
- Characters beyond ASCII in lower-casing and in SSIDs, and the decoding of SSID bytes.
- D-Bus introspection, proxies, Variant unwrapping and subprocess plumbing appear only as outcomes of steps.
- `status`, `profiles` and `readiness` copy properties field by field.
- `service_*`, `reboot`, `poweroff` and `capabilities` are single commands.
- The web bridge, settings, IPC client, socket permissions, systemd units, and the installation and migration scripts.

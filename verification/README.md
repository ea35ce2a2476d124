# LANKeeper control plane: a verified model

LANKeeper turns a small Linux machine into a router. Its control plane is a web process that edits
`router.yaml`, an agent that runs privileged commands for it, and a handful of protocols in between
that must not strand the operator: a firewall change that reverts itself unless confirmed, an update
that rolls back unless confirmed, a three-message handshake that joins two routers, a restore that
writes everything or nothing. This project models those protocols and the arithmetic under them in
Dafny and proves what they promise, over every input and every run.

Each component follows one pattern. A datatype holds the state the source changes; step functions
say what each operation does to it, with every failure of a command, write or message as an input;
`Run` folds a sequence of events; the theorems quantify over all such sequences. Where the source
updates fields in place there is also a class whose methods have the source's branches and loops,
and each method's `ensures` ties the new state to the step function, or states outright what it
computed. Many theorems compare the code with an independent reference: the settled ruleset and one
trial, the history of failures, nanosecond credit, the grammar of a stamp, the text of a cron field.

| file | models |
|---|---|
| `Firewall.dfy` | apply, confirm, rollback and the watchdog, across restarts |
| `Cidr.dfy`, `TunnelPool.dfy` | CIDR arithmetic, the byte-array successor and the tunnel address search |
| `Vpn.dfy`, `VpnOutcomes.dfy` | the peer list, when each operation on it succeeds and what it leaves |
| `PeerIsolation.dfy`, `SiteToSite.dfy` | what keeps peers apart, the join protocol between routers |
| `AgentPipe.dfy` | the RPC pipe between the web process and the agent |
| `OtaUpdate.dfy` | binary updates, their guard process, confirm and rollback |
| `RateLimiter.dfy`, `LoginGuard.dfy`, `LoginBudget.dfy` | the three login and request throttles |
| `Text.dfy`, `Cron.dfy`, `CronSchedule.dfy`, `CronText.dfy` | the cron dialect, the search for the next minute, whole expressions read back |
| `Ticks.dfy`, `TickCoverage.dfy` | the two tick loops, and which minutes they serve |
| `DnsMirror.dfy` | DNS records mirrored from static leases, lease by lease and rebuilt |
| `Paths.dfy`, `Restore.dfy` | archive member names and the two-phase restore |
| `Secrets.dfy` | encryption of secrets at rest |
| `DnsStamp.dfy` | DNS-over-HTTPS stamps |
| `Core.dfy`, `Arith.dfy` | shared datatypes, powers of two and divisibility |

Taken as parameters: the clock, `nft` (listing, loading, rendering), the cipher (opening undoes
sealing), the MAC (an ack carries what was signed), random keys and nonces, the calendar of a time
zone, `config.Validate`, and the success or failure of every file write, command and message. Tokens
of the rate limiter are exact real numbers.

## Where the code and its promise part

Each of these is proved, with the exact condition under which the promise holds.

- The boot file can describe another ruleset than the kernel holds: a change restored after a restart
  is rendered again from the live configuration when it is confirmed
  (`Firewall.BootFileIsWhatWasConfirmed`, `Firewall.BootFileDriftsAfterRestartAndEdit`).
- The tunnel entry is written with `/32` for an IPv6 pool too, so two peers of such a pool overlap
  (`PeerIsolation.AddKeepsIsolationExactlyWhen`; on a router with the pool fd00::/64,
  `PeerIsolation.SecondWarriorCollides`).
- The subnet check of `AddPeer` and of the invite wizard runs before the lock. An operation whose check has
  gone stale keeps the peers apart if and only if no peer now routes what it claims; two racing adds do
  if and only if their subnets share no address (`PeerIsolation.StaleAddKeepsExactlyWhen`,
  `PeerIsolation.StaleWizardKeepsExactlyWhen`, `PeerIsolation.RacingAddsExactlyWhen`; on a router with the pool
  10.8.0.0/24, `PeerIsolation.RaceHappens`).
- A guard that has copied the backup reverts an update that is confirmed meanwhile, even when every
  command of the confirm succeeds. Over all interleavings the confirm is final if and only if, by its last
  command, the guard neither holds such a copy nor can still make one
  (`OtaUpdate.ConfirmIsFinalExactlyWhen`, `OtaUpdate.RacingGuardRevertsAConfirmedUpdate`); with the guard asleep when
  its timer is stopped it is safe (`OtaUpdate.ConfirmIsSafeOnceStopped`).
- A rollback disarms the guard before it copies. When the stop succeeds and the copy fails, the update is
  installed, unconfirmed and left for good (`OtaUpdate.RollbackIsSafeExactlyWhen`,
  `OtaUpdate.RollbackRevertsExactlyWhen`, `OtaUpdate.FailedRollbackStrandsTheUpdate`).
- The sweeper of the rate limiter is invisible, and the rate bound holds, if and only if the burst is at
  least one and a full bucket refills within the idle window (`RateLimiter.SweeperIsInvisibleExactlyWhen`,
  `RateLimiter.BoundHoldsExactlyWhen`). The constructor takes a burst below one too: then the first request goes
  through, the client is refused as long as its bucket is kept, whatever Retry-After says, and a sweep lets it
  in again (`RateLimiter.EmptyBurstStillGrants`, `RateLimiter.RetryAfterIsEnoughExactlyWhen`,
  `RateLimiter.EmptyBurstIsSeen`).
- A cron step so large that the low end plus the step passes the largest 64-bit integer makes the
  parser panic when no unreadable element comes before it, and nothing else does (`Cron.PanicsExactlyWhen`,
  `Cron.LargestStepPanics`). The parser reads ranges with a step, although the comment on the schedule type says
  they are not supported.
- A backup schedule that matches two minutes in a row loses the second one
  (`Ticks.BackupPassesOverExactlyWhen`, `TickCoverage.BackupServesExactly`); the blocklist schedule does not
  (`Ticks.RefreshPassesNothingOver`, `TickCoverage.RefreshServesEveryMinute`).
- `Next` starts strictly after its argument, although its comment says at-or-after
  (`CronSchedule.NextIsTheLeast`).
- A static lease whose name is taken, or that finds the record list full, is not mirrored
  (`DnsMirror.AddLeaseKeepsExactlyWhen`).
- Nothing refuses a second static lease with the name of another. Its removal drops the record found by that
  name, which is the first lease's (`DnsMirror.RemoveLeaseSparesOthersExactlyWhen`,
  `DnsMirror.RemoveLeaseKeepsExactlyWhen`, `DnsMirror.SecondLeaseTakesTheFirstsRecord`).
- The DNS page offers mirrored records for deletion. Deleting one takes the mirror out of step, and only a
  rebuild brings it back (`DnsMirror.RecordRemovalKeepsExactlyWhen`, `DnsMirror.DeletedMirrorIsRebuilt`).
- A lease removal whose save fails has dropped the lease but not its record: the mirror stays in step if and
  only if the lease had no name (`DnsMirror.RemoveLeaseKeepsExactlyWhen`).
- A secret that happens to start with the ciphertext marker is taken for ciphertext: it is written to disk in
  the clear (`Secrets.NothingIsWrittenInTheClearExactlyWhen`, `Secrets.MarkedPassphraseIsWrittenInTheClear`), and
  it does not survive the load (`Secrets.SaveThenLoadExactlyWhen`).
- On a server pool of prefix length 0 no address is taken for the last one, and the tunnel search, which
  wraps round, goes on for ever when every address is used (`TunnelPool.SearchGoesOnForEver`).
- A file whose name holds two dots in a row, anywhere, is exported and then rejects the whole restore
  (`Restore.ExportRestoresExactlyWhen`).

## Model

| member | source | states |
|---|---|---|
| `Firewall.StepRealises` | internal/services/firewall.go:310-404 | every operation, restart and late watchdog callback takes the machine to the state of the reference: one settled ruleset and at most one trial |
| `Firewall.KernelIsSettledOrOneTrial` | internal/services/firewall.go:155-210 | in every run from a fresh machine the kernel holds the settled ruleset or the one trial; while a trial runs its snapshot is on disk and loads back to exactly the settled ruleset, and its watchdog is armed for its due time |
| `Firewall.TrialOrigin` | internal/services/firewall.go:310-352 | a running trial was loaded by one apply with nothing pending, has been in the kernel ever since, and falls due 30 s after that apply, or at the last start if that is later |
| `Firewall.WatchdogReverts` | internal/netutil/atomic.go:147-177 | when a trial is left alone its own callback puts the settled ruleset back, leaves the boot file and blocks background applies |
| `Firewall.BootFileIsWhatWasConfirmed` | internal/services/firewall.go:354-390 | the boot file is only overwritten on settling a ruleset that was loaded and has been in the kernel since; without a restart it is that very text whatever was edited; it describes the kernel if and only if there was no restart or the configuration still renders to the same rules |
| `Firewall.BootFileDriftsAfterRestartAndEdit` | internal/services/firewall.go:376-390 | apply, restart, edit, confirm leaves a boot file that loads to other rules than the kernel holds |
| `Firewall.BackgroundStaysBlocked` | internal/services/firewall.go:224-248 | from a watchdog rollback until the confirm of a pending change, in every run with restarts and with confirms of nothing, a background apply changes nothing at all |
| `Firewall.AtomicChange.Snapshot` | internal/netutil/atomic.go:41-72 | captures the kernel's listing, an empty one as a comment, so that there is always something to roll back to |
| `Firewall.SnapshotLoadsBack` | internal/netutil/atomic.go:41-72 | the text captured of a ruleset, a blank listing included, loads back behind the flush to that ruleset |
| `Firewall.AtomicChange.Rollback` | internal/netutil/atomic.go:147-177 | stops the timer and puts the captured ruleset back behind a flush; with nothing captured it is refused and the kernel stays |
| `Firewall.FirewallService.constructor` | internal/services/firewall.go:155-181 | a starting process takes up the pending record, with its timer due at the recorded time plus 30 s or now |
| `Firewall.EmptyRecordIsDropped` | internal/services/firewall.go:155-181 | a pending record without a snapshot is dropped at the start and leaves nothing pending |
| `Firewall.FirewallService.ArmWatchdog` | internal/services/firewall.go:190-210 | arms the change's own timer and touches no other |
| `Firewall.FirewallService.Apply` | internal/services/firewall.go:310-352 | the service is in the state the apply step gives, including the refused second apply and the load that fails |
| `Firewall.FirewallService.Confirm` | internal/services/firewall.go:354-390 | settles the trial and writes the boot file as the confirm step does, and is a no-op with nothing pending |
| `Firewall.ConfirmClearsTheRecord` | internal/services/firewall.go:354-390 | a confirm leaves nothing pending, and with no change to confirm touches nothing but the record |
| `Firewall.FirewallService.Rollback` | internal/services/firewall.go:392-404 | the operator's rollback is the rollback step |
| `Firewall.FirewallService.Watchdog` | internal/services/firewall.go:190-210 | a callback acts only for the change that armed it and only once it is due |
| `Firewall.FirewallService.ApplyAndConfirm` | internal/services/firewall.go:239-248 | refused while the rolled-back marker stands, otherwise an apply and a confirm in one |
| `Cidr.ContainsIsRange` | internal/services/vpn_s2s.go:464-482 | masking an address to a prefix length is the same as lying between the two ends of the network |
| `Cidr.BaseContainmentIsOverlap` | internal/services/vpn_s2s.go:464-482 | one base lying in the other network, the test the code makes, holds if and only if the two networks share an address |
| `Cidr.PrivateEndsMeanPrivateBlock` | internal/services/vpn_s2s.go:357-367 | when both ends of a block are private (section 3 of RFC 1918, or fc00::/7), every address of it is |
| `TunnelPool.SuccessorIsPlusOne` | internal/services/vpn_s2s.go:450-459 | the byte-by-byte carry is addition of one, wrapping to zero only at the all-ones address |
| `TunnelPool.NextIP` | internal/services/vpn_s2s.go:450-459 | the in-place loop over the cloned bytes computes that successor and leaves its argument alone |
| `TunnelPool.LowestFree` | internal/services/vpn_s2s.go:419-435 | the lowest address that is neither the network, nor the last, nor used; none exactly when every host address is used |
| `TunnelPool.FirstAround` | internal/services/vpn_s2s.go:419-435 | on a pool of every address, the first unused one after zero, or zero, or none when all are used |
| `TunnelPool.NextTunnelIP` | internal/services/vpn_s2s.go:419-435 | for every pool, at the end of the address space too, the walk ends and returns that address; only a pool of every address, all of them used, is excluded, where the loop does not end |
| `TunnelPool.LookedCountsUp` | internal/services/vpn_s2s.go:419-459 | the search looks at base + 1, base + 2 and so on, wrapping at the end of the address space |
| `TunnelPool.SearchGoesOnForEver` | internal/services/vpn_s2s.go:419-459 | on a pool of every address with all of them used, in every round the address looked at is in the pool and used and so neither exit is taken |
| `Vpn.ClashIsShare` | internal/services/vpn_s2s.go:464-482 | two entries are reported as conflicting exactly when their networks share an address |
| `Vpn.SameSubnetsIsSetEquality` | internal/services/vpn_s2s.go:401-413 | comparing the sorted, deduplicated lists is comparing the sets of networks |
| `Vpn.VPNService.SubnetsConflict` | internal/services/vpn_s2s.go:464-482 | the nested loops find a conflict exactly when some remote entry clashes with a claimed one |
| `Vpn.VPNService.ClaimedSubnets` | internal/services/vpn_s2s.go:376-397 | collects the LANs, VLANs, OpenVPN networks, the server pool and every peer's subnets |
| `Vpn.VPNService.Add` | internal/services/vpn.go:267-336 | the outcome and the peer list are those of checking, then allocating and appending; every refusal leaves the list alone, and a failed save leaves it changed |
| `Vpn.VPNService.Allocate` | internal/services/vpn_s2s.go:439-447 | the tunnel address handed out is the lowest free one of the configured pool |
| `Vpn.VPNService.CreateS2SInvite` | internal/services/vpn_s2s.go:491-547 | a valid request adds a pending peer and yields the invite that names its keys, LANs and expiry; a failed save leaves the peer and yields none |
| `Vpn.VPNService.Consume` | internal/services/vpn_s2s.go:578-624 | an unexpired invite that expects exactly this router's LANs and conflicts with nothing adds the joined peer and yields this router's ack; a failed save leaves the peer and yields none |
| `Vpn.VPNService.Finalize` | internal/services/vpn_s2s.go:644-673 | only a pending, unexpired invite is finalized, by an ack of its name signed with its preshared key, and takes the ack's public key |
| `Vpn.VPNService.Cancel` | internal/services/vpn_s2s.go:716-730 | removes exactly the named pending peer, also when the save then fails |
| `Vpn.VPNService.Remove` | internal/services/vpn.go:397-408 | removes exactly the named peer, also when the save then fails |
| `Vpn.VPNService.GCExpiredInvites` | internal/services/vpn_s2s.go:734-756 | keeps, in order, exactly the peers that are not expired invites and counts the rest |
| `Vpn.SweepKeepsExactlyTheLive` | internal/services/vpn_s2s.go:742-746 | a peer is kept, as often as it was there, if and only if it is not a pending invite past its expiry |
| `Vpn.KeptOfSum` | internal/services/vpn_s2s.go:742-746 | the sweep of two lists after each other is the sweeps after each other, so what is kept stays in order |
| `Vpn.ReapedAreTheRunOuts` | internal/services/vpn_s2s.go:748-755 | the number reported is the number of invites that have run out |
| `VpnOutcomes.SubnetIsInterface` | internal/services/vpn_s2s.go:376-397 | the network derived from an interface address holds exactly the addresses that agree with it on the prefix, a bare IPv4 address standing for its /24 |
| `VpnOutcomes.RemoteIsClaimableExactlyWhen` | internal/services/vpn_s2s.go:337-397 | the check of remote networks passes if and only if every address in them is private and is on no LAN, VLAN, server or OpenVPN network and in no entry of a peer |
| `VpnOutcomes.TunnelIsLowestUnassigned` | internal/services/vpn_s2s.go:415-447 | a new peer gets the lowest host address of the server's network that is neither the server's nor a peer's, and none if and only if all are taken |
| `VpnOutcomes.AddIsDoneExactlyWhen` | internal/services/vpn.go:267-336 | an add succeeds if and only if the networks are claimable, the endpoint and the key pair are good, the name is free and an address is left; otherwise nothing changes |
| `VpnOutcomes.AddedPeer` | internal/services/vpn.go:296-330 | the one peer appended carries the request's name and keys, routes its tunnel address and, site to site, the remote networks |
| `VpnOutcomes.CreateIsDoneExactlyWhen` | internal/services/vpn_s2s.go:491-569 | an invite is issued if and only if name, endpoint and key are good, there is a server key, both sides have a LAN, the networks are claimable and the name is free |
| `VpnOutcomes.CreatedInvite` | internal/services/vpn_s2s.go:506-547 | the pending peer and the token share name, key, networks and an expiry an hour on; the token names this router's key and its LANs |
| `VpnOutcomes.ConsumeIsDoneExactlyWhen` | internal/services/vpn_s2s.go:578-640 | an invite is joined if and only if it has version 2, has not expired, is well formed, expects exactly this router's LANs, claims only private unoccupied addresses and a free name, and there is a server key |
| `VpnOutcomes.JoinedRouter` | internal/services/vpn_s2s.go:594-624 | the joining side registers the inviter's key, preshared key and networks, and acknowledges with its own key under that preshared key |
| `VpnOutcomes.FinalizeIsDoneExactlyWhen` | internal/services/vpn_s2s.go:644-713 | a finalize succeeds if and only if the ack is well formed, bears the name, and the first peer of that name is pending, unexpired and has the ack's key; only that peer's key and flags change |
| `VpnOutcomes.RemoveLeavesTheOthers` | internal/services/vpn.go:397-408 | one peer of the name goes; with distinct names the peers of other names are left in order |
| `VpnOutcomes.CancelLeavesTheOthers` | internal/services/vpn_s2s.go:716-730 | the same for a cancel, which refuses if and only if the first peer of the name is established |
| `PeerIsolation.AddKeeps` | internal/services/vpn.go:267-336 | on an IPv4 pool a new peer's networks are disjoint from every other peer's and its remote subnets are private and clear of the router's own |
| `PeerIsolation.WizardPeerKeeps` | internal/services/vpn_s2s.go:678-686 | the same for a peer added by an invite or a join |
| `PeerIsolation.PeersStayIsolated` | internal/services/vpn_s2s.go:342-397 | after any sequence of adds, invites, joins, finalizes, cancels, removals and sweeps on an IPv4 pool, from any peers that are isolated, no address is routed to two peers, and every remote address is private and outside every network of the router |
| `PeerIsolation.AddKeepsIsolationExactlyWhen` | internal/services/vpn.go:296-335 | an accepted add keeps the peers apart if and only if no peer routes anything in the network of the new tunnel entry, which holds on every IPv4 pool and, on an IPv6 pool of length 32 or more, for the first peer alone |
| `PeerIsolation.ConcurrentAddsNeverShareAnAddress` | internal/services/vpn.go:296-335 | however the locked sections of concurrent adds, joins and removals interleave, no two issued peers share a tunnel address |
| `PeerIsolation.SecondWarriorCollides` | internal/services/vpn_s2s.go:419-435 | on a router with the pool fd00::/64 and no peers two adds succeed one after the other and their routes overlap |
| `PeerIsolation.StaleAddKeepsExactlyWhen` | internal/services/vpn.go:267-336 | an add checked against an earlier peer list, whatever happened since and on any pool, keeps the peers apart if and only if no peer now routes anything in its tunnel entry or its claimed subnets |
| `PeerIsolation.StaleWizardKeepsExactlyWhen` | internal/services/vpn_s2s.go:553-567 | the same for the peer of an invite or a join |
| `PeerIsolation.RacingAddsExactlyWhen` | internal/services/vpn.go:267-336 | two adds checked before either took the lock leave the peers apart if and only if the subnets they claim share no address |
| `PeerIsolation.RacingAddsOverlap` | internal/services/vpn.go:267-295 | two adds of 192.168.5.0/24 on a router with the pool 10.8.0.0/24 pass the check together, both commit, and overlap |
| `PeerIsolation.RaceHappens` | internal/services/vpn.go:267-295 | there are such a router and such requests |
| `SiteToSite.StepKeeps` | internal/services/vpn_s2s.go:491-756 | every step of any router, made-up tokens and replays to any router included, keeps each issued invite, each ack and each peer traceable to the exchange that made it, and no router waits for an answer under a key it has itself joined with |
| `SiteToSite.NoAckAfterExpiry` | internal/services/vpn_s2s.go:582-624 | over all interleavings no ack is made after the expiry of the invite it answers |
| `SiteToSite.FinalizeMeansAgreement` | internal/services/vpn_s2s.go:644-673 | over all interleavings on any number of routers, a successful finalize answers an unexpired invite of that router with an ack another router made for it before its expiry, each side then holds the other's server key and the same preshared key, and each routes exactly the other's announced LANs |
| `SiteToSite.JoinCompletes` | internal/services/vpn_s2s.go:491-673 | from any state, two routers that expect each other's LANs, can claim them and have the name free join in three possible steps, and each ends with one more established peer with the other's key, the one preshared key and the other's LANs |
| `SiteToSite.NamesAreDistinct` | internal/services/vpn_s2s.go:678-689 | over all interleavings no router has two peers of one name |
| `SiteToSite.ClosedInviteIsNotFinalized` | internal/services/vpn_s2s.go:716-730 | after any run, once a peer is removed or its invite cancelled no ack finalizes that name |
| `SiteToSite.ExpiredInviteIsSwept` | internal/services/vpn_s2s.go:734-756 | a sweep after an invite's expiry leaves that router without its pending peer, and every other peer in place |
| `AgentPipe.StepKeeps` | internal/agent/server.go:313-384 | every client and server step keeps at most one request under way on the connection and never revises an answer |
| `AgentPipe.EveryCallGetsItsOwnReply` | internal/agent/client.go:41-89 | in every run of calls, failures, refusals and redials a call that returns a result returns the server's reply to that request, and the operation the server carried out under its id is the one the caller passed; between calls nothing but a refusal can be left to read |
| `AgentPipe.ServedCarries` | internal/agent/server.go:313-348 | whatever the server does to a connection with one request on it, the only reply it can hold is to that request |
| `AgentPipe.ServedIsARun` | internal/agent/server.go:313-384 | whatever the server does during a call is a run of the pipe that leaves the client waiting |
| `AgentPipe.Client.Call` | internal/agent/client.go:41-89 | a call writes a request with the next id and the caller's operation, is a run of the pipe, and returns exactly the frame the server left waiting, which is what that run returned under the id just issued; a reply has a body the server answered with; every failed send or receive leaves no connection |
| `AgentPipe.Client.RoundTrip` | internal/agent/client.go:148-167 | writes the request and returns the first frame the server has left by then; without one the connection is dropped |
| `AgentPipe.Client.Ensure` | internal/agent/client.go:175-190 | reuses the connection that is there and dials only without one |
| `AgentPipe.ReplyWaitsExactlyWhen` | internal/agent/server.go:313-384 | on a served connection a reply waits for a lone request if and only if the server takes it and then answers it before giving up, and it is that answer under the request's id |
| `AgentPipe.CallReturnsExactlyWhen` | internal/agent/client.go:41-89 | a call on a quiet served connection returns if and only if it is not cancelled, is sent and received, and the server answers it; what it returns is that answer |
| `OtaUpdate.StepKeeps` | internal/services/update.go:244-313 | after every single command of apply, confirm, rollback and guard, whatever could restore the backup finds the pre-update binary in it |
| `OtaUpdate.OneOperationAtATime` | internal/services/update.go:474-485 | an operation of the service begins only when none is under way, and a rollback only of a pending update |
| `OtaUpdate.GuardRestoresOrLeaves` | cmd/lankeeper/update_guard.go:36-55 | from every reachable state the guard restores exactly the pre-update binary when record and backup are there, and otherwise leaves everything |
| `OtaUpdate.GuardEndsExactly` | cmd/lankeeper/update_guard.go:36-55 | whatever fails, a woken guard ends asleep; it has restored the backup if and only if there is a record and a backup and its first three commands succeed, and otherwise has changed nothing |
| `OtaUpdate.UnconfirmedUpdateReverts` | internal/services/update.go:273-313 | left alone, through restarts and any scheduling of the guard, an armed update stays on its way to the pre-update binary, and has it back after four moves of the timer and the guard |
| `OtaUpdate.RollbackIsSafeExactlyWhen` | internal/services/update.go:474-514 | with the guard's steps anywhere among a rollback's commands, its copy leaves the pre-update binary installed or still to come if and only if it succeeds, or the guard is armed or under way, or had installed it and the copy did not tear it; otherwise no run left alone ever changes the binary |
| `OtaUpdate.RollbackRevertsExactlyWhen` | internal/services/update.go:474-514 | with the guard armed and asleep, that is if and only if the copy succeeds or the stop fails |
| `OtaUpdate.FailedRollbackStrandsTheUpdate` | internal/services/update.go:474-514 | from a fresh machine, after an apply and a rollback whose copy fails, every run left alone keeps the unconfirmed binary |
| `OtaUpdate.BinaryIsSettledExactlyWhenFinal` | internal/services/update.go:401-421 | in every reachable state at rest the installed binary stays, whatever happens short of a new update, if and only if the state is final |
| `OtaUpdate.GuardSlot` | cmd/lankeeper/update_guard.go:36-55 | between two commands of a confirm or a rollback the guard's steps leave the call standing or cut it short, and change the binary only by the rename |
| `OtaUpdate.EveryInterleavingIsOne` | internal/services/update.go:401-421 | every run of a confirm's three commands among guard and timer events is one of the confirmations the next rows speak of |
| `OtaUpdate.ConfirmIsFinalExactlyWhen` | internal/services/update.go:401-421 | over all interleavings and outcomes, a confirm is final if and only if at its last command no guard holds a copy to install, and the backup is gone, or the record goes and no guard is about to copy |
| `OtaUpdate.ConfirmSettlesExactlyWhen` | internal/services/update.go:401-421 | an update not yet reverted is settled as installed if and only if by the last command the guard has not installed its copy and is not about to, and the drop succeeded, or the clear did with no guard about to copy |
| `OtaUpdate.ConfirmIsSafeOnceStopped` | internal/services/update.go:401-421 | with the guard asleep when the stop succeeds, no guard event matters and the confirm is final if and only if the drop or the clear succeeded |
| `OtaUpdate.RacingGuardRevertsAConfirmedUpdate` | cmd/lankeeper/update_guard.go:59-87 | from a fresh machine, an update applied and confirmed with every command succeeding is reverted by a guard that copied just before the confirm's first command |
| `OtaUpdate.RollbackRestores` | internal/services/update.go:474-514 | a rollback whose commands succeed installs the pre-update binary and leaves nothing to repeat |
| `OtaUpdate.ReplayedRollbackIsRefused` | internal/services/update.go:474-539 | without a record a rollback request changes nothing, now and after any restarts, until a new update |
| `OtaUpdate.Disk.RollbackUnconfirmedUpdate` | cmd/lankeeper/update_guard.go:36-55 | the guard's code, with every command free to fail, and its agreement with the guard of the state machine |
| `OtaUpdate.InstallingIsARun` | internal/services/update.go:371-390 | what installBinary leaves, however its commands turn out, is a run of the machine's single commands |
| `OtaUpdate.RecordingIsARun` | internal/services/update.go:278-301 | the same for the record and the guard, or the way back |
| `OtaUpdate.ConfirmingIsARun` | internal/services/update.go:401-421 | the same for a confirm |
| `OtaUpdate.RollingBackIsARun` | internal/services/update.go:474-514 | the same for a rollback, refused, failed or done |
| `OtaUpdate.UpdateService.InstallBinary` | internal/services/update.go:371-390 | success installs the new binary and keeps the old as backup; a failure with a working restore leaves the old one; the disk is where the machine is |
| `OtaUpdate.UpdateService.ApplyUpdate` | internal/services/update.go:244-313 | success is installed, backed up, recorded and armed; failure arms nothing and never leaves a record without the old binary as backup; disk and process are where the machine is |
| `OtaUpdate.UpdateService.ConfirmUpdate` | internal/services/update.go:401-421 | disarms, drops the backup and clears the record, each only if its command succeeds, as the machine does |
| `OtaUpdate.UpdateService.Rollback` | internal/services/update.go:474-514 | refused with nothing pending; otherwise installs the backup, or keeps the update pending when the copy fails, as the machine does |
| `RateLimiter.TokensFollowCredit` | internal/web/middleware.go:308-335 | real-valued tokens and whole nanoseconds of credit give the same verdicts and the same waits |
| `RateLimiter.AtMostBurstPlusRefills` | internal/web/middleware.go:308-335 | in any interval of length T, after any run, one address gets at most burst + T / refill requests, for a burst of at least one and as long as sweeps cannot drop a bucket that is not full |
| `RateLimiter.BoundHoldsExactlyWhen` | internal/web/middleware.go:252-335 | that bound holds of every interval of every run, sweeps included, if and only if the burst is at least one and a full bucket refills within the idle window |
| `RateLimiter.SweptRunMatches` | internal/web/middleware.go:279-297 | with a burst of at least one, while a full bucket refills within the idle window a run with sweeps gives the verdicts of the run without |
| `RateLimiter.SweeperLeaksWhenNotRoomy` | internal/web/middleware.go:277-297 | with a burst of at least one and otherwise, two whole bursts go through within one idle window, more than the bound allows |
| `RateLimiter.SweeperIsInvisibleExactlyWhen` | internal/web/middleware.go:277-297 | for every limiter that can be constructed, sweeping changes no verdict in any run if and only if the burst is at least one and burst times refill is at most the idle window plus one nanosecond |
| `RateLimiter.EmptyBurstIsSeen` | internal/web/middleware.go:252-297 | with a burst of zero or less a request, a sweep and the request again shows the sweep |
| `RateLimiter.EmptyBurstStillGrants` | internal/web/middleware.go:252-265 | with a burst of zero or less the first request still goes through |
| `RateLimiter.ClientsFollowLimiter` | internal/web/middleware.go:308-335 | in every run the code's bucket of every address stands for its nanosecond credit |
| `RateLimiter.CodeGrantsAtMostBurstPlusRefills` | internal/web/middleware.go:308-335 | the interval bound, under the same conditions, for the requests the code's buckets let through |
| `RateLimiter.CodeSweeperIsInvisibleExactlyWhen` | internal/web/middleware.go:277-297 | the sweeper's exact condition for the verdicts of the code's buckets |
| `RateLimiter.RetryAfterIsEnoughExactlyWhen` | internal/web/middleware.go:349-352 | after any run, a refused client that waits the emitted Retry-After (section 10.2.3 of RFC 9110) is let through if and only if the burst is at least one |
| `RateLimiter.RetryAfterIsTheLeast` | internal/web/middleware.go:349-352 | the seconds emitted are the least whole number, at least one, that covers the wait |
| `RateLimiter.Limits.Admit` | internal/web/middleware.go:308-335 | updates the caller's bucket alone, as the step function says |
| `RateLimiter.Limits.Cleanup` | internal/web/middleware.go:279-297 | the loop drops exactly the buckets that have been idle longer than the window |
| `LoginGuard.ShiftWithGuardIsDoubling` | internal/web/login_guard.go:118-144 | for every failure count from 5 up, the wrapping 64-bit shift with its guard is the minute doubled per failure, capped at 15 minutes |
| `LoginGuard.LockoutsNeverShrink` | internal/web/login_guard.go:118-144 | more failures never earn a shorter lockout |
| `LoginGuard.AnswersDependOnHistoryAlone` | internal/web/login_guard.go:93-144 | after any run with sweeps at any time, every lockout and every remaining wait is determined by the failures in a row and the last of them |
| `LoginGuard.SweeperIsInvisible` | internal/web/login_guard.go:71-89 | taking every sweep out of a run changes no later answer |
| `LoginGuard.Guard.LockedFor` | internal/web/login_guard.go:93-114 | reports the wait left and drops a record that has been quiet for an hour |
| `LoginGuard.Guard.RecordFailure` | internal/web/login_guard.go:118-144 | counts the failure, starting over after an hour of quiet, and sets the lockout |
| `LoginGuard.Guard.Cleanup` | internal/web/login_guard.go:71-89 | the loop drops exactly the records that are forgotten anyway |
| `LoginBudget.SlotsAreSpaced` | internal/web/login_budget.go:48-65 | whatever the clock does, slots granted while the budget is spent are at least 30 s apart and no granted wait is negative or above 30 s |
| `LoginBudget.GrantedExactlyWhen` | internal/web/login_budget.go:48-65 | after every run a check goes through at once while the budget lasts; once it is spent it is granted if and only if the slot 30 s after the last one granted is at most 30 s away, and waits for that slot |
| `LoginBudget.AtMostOnePerSpacing` | internal/web/login_budget.go:48-65 | at most T / 30 s + 1 such checks start in any interval of length T, across unsaturated gaps |
| `LoginBudget.PruneKeepsExactlyTheWindow` | internal/web/login_budget.go:36-42 | pruning an ordered list keeps exactly the failures of the last hour |
| `LoginBudget.KeptFailuresAreTheRecentOnes` | internal/web/login_budget.go:36-80 | after any run the list holds exactly the failures recorded within the hour before the last event |
| `LoginBudget.SpentExactlyAfterThirtyFailures` | internal/web/login_budget.go:48-65 | the budget is spent if and only if 30 failures were recorded in the last hour |
| `LoginBudget.WarnedOnceAnHour` | internal/web/login_budget.go:67-80 | over every run warnings are more than an hour apart, and a failure recorded while the budget is spent finds one logged within the hour |
| `LoginBudget.Ledger.ReserveSlot` | internal/web/login_budget.go:48-65 | prunes, then grants or refuses as the reserve step does |
| `Text.SplitJoin` | internal/services/backup_schedule.go:114-136 | splitting what was joined on a character no part holds gives the parts back |
| `Text.AtoiNumeral` | internal/services/backup_schedule.go:157-189 | reading the numeral of a number gives the number |
| `Cron.AcceptedFieldIsItsText` | internal/services/backup_schedule.go:114-136 | the 64-bit set of an accepted field is not empty, stays in the bounds and holds exactly the values its text denotes |
| `Cron.MakeFieldSet` | internal/services/backup_schedule.go:40-48 | the loop sets exactly the bits of the range |
| `Cron.AddRange` | internal/services/backup_schedule.go:127-130 | the loop sets exactly every step-th bit, and runs over if and only if the low end plus the step passes the largest integer |
| `Cron.ParseField` | internal/services/backup_schedule.go:114-136 | the result is the denoted set, a refusal, or the panic, decided by the first element that cannot be read or runs over |
| `Cron.FieldReadsBack` | internal/services/backup_schedule.go:114-189 | writing any list of stars, numbers and ranges with steps and parsing it gives the set the items stand for, or a panic if and only if some low end plus its step passes the largest integer |
| `Cron.PanicsExactlyWhen` | internal/services/backup_schedule.go:114-189 | for every text, a field panics if and only if its first faulty element reads and overflows, and is refused if and only if that element is unreadable or the text names nothing |
| `Cron.LargestStepPanics` | internal/services/backup_schedule.go:127-130 | a minute field that starts at 1 and steps by the largest integer is such a text |
| `CronSchedule.ParseSchedule` | internal/services/backup_schedule.go:54-112 | aliases, trimming, the five bounded fields in order and the first fault |
| `CronSchedule.AcceptedHasNoBar` | internal/services/backup_schedule.go:54-77 | no accepted expression contains the character that separates it from the location |
| `CronSchedule.ScheduleMeansItsText` | internal/services/backup_schedule.go:212-239 | an accepted schedule matches a minute if and only if its text does, two restricted day fields being joined by or and otherwise by and |
| `CronSchedule.StartIsStrictlyAfter` | internal/services/backup_schedule.go:200-201 | the search starts at the first whole minute strictly after its argument |
| `CronSchedule.NextIsTheLeast` | internal/services/backup_schedule.go:196-210 | the result is the least matching minute strictly after the argument and within 1460 days, and zero if and only if there is none |
| `CronSchedule.Next` | internal/services/backup_schedule.go:196-210 | the minute-by-minute loop computes that result |
| `CronText.ExpressionReadsBack` | internal/services/backup_schedule.go:54-112 | a whole expression written from items is accepted and matches exactly the minutes its items say, with the bounds of each field and the rule for the two day fields spelled out |
| `CronText.NumbersMean` | internal/services/backup_schedule.go:54-112 | five fields that are numbers in bounds or stars match exactly the minutes with those numbers |
| `CronText.NamesMean` | internal/services/backup_schedule.go:54-77 | the names @hourly to @annually match exactly the start of the hour, day, week, month or year |
| `CronText.OutOfBoundsIsRefused` | internal/services/backup_schedule.go:114-155 | a number is accepted if and only if it lies in the bounds of its field |
| `CronText.BlankPieceIsSkipped` | internal/services/backup_schedule.go:114-138 | a blank piece between commas is skipped |
| `CronText.StepBoundIsExact` | internal/services/backup_schedule.go:114-138 | a number with a step panics if and only if their sum passes the largest integer, and otherwise denotes that number alone |
| `CronText.ReadingExactlyWhen` | internal/services/backup_schedule.go:79-112 | five fields are accepted if and only if each is; the first that is not decides between a panic and a refusal |
| `Ticks.SourceNamesItsInputs` | internal/services/backup_schedule.go:322-328 | two accepted schedules with one source text are the same expression in the same location |
| `Ticks.FiresAreDueAndIncrease` | internal/services/backup_schedule.go:333-354 | for both loops, over every run with edits, disables, parse failures and restarts, each fire is for a past or present minute the expression in force matches, and fired minutes strictly increase |
| `Ticks.BackupPassesOverExactlyWhen` | internal/services/backup_schedule.go:333-354 | after a fire a matching minute is passed over if and only if the very next minute matches |
| `Ticks.EveryMinuteIsServedEveryOther` | internal/services/backup_schedule.go:353-354 | a schedule that matches every minute is served every other one |
| `Ticks.RefreshPassesNothingOver` | internal/services/dns_blocklist_schedule.go:40-67 | after a refresh the next plan passes over no matching minute |
| `Ticks.Ticker.SchedulerTick` | internal/services/backup_schedule.go:333-354 | the tick's code is the backup step |
| `Ticks.Ticker.RefreshTick` | internal/services/dns_blocklist_schedule.go:40-67 | the tick's code is the blocklist step |
| `TickCoverage.BackupFiresExactlyWhen` | internal/services/backup_schedule.go:333-354 | under an accepted schedule a tick fires, for the planned minute, if and only if the plan has this source, is not overtaken by the last run and is due; otherwise it keeps the plan in force or makes the first one from now |
| `TickCoverage.RefreshFiresExactlyWhen` | internal/services/dns_blocklist_schedule.go:40-67 | the same for the blocklist, which plans from now after a fire and after a change |
| `TickCoverage.NothingFiresWithoutASchedule` | internal/services/backup_schedule.go:333-343 | what a disabled, empty or refused schedule leaves of the plan |
| `TickCoverage.PlannedMinuteIsServed` | internal/services/backup_schedule.go:333-354 | for both loops, after any run, the first tick that reaches a minute planned and still in force fires for it, and none before |
| `TickCoverage.RefreshServesEveryMinute` | internal/services/dns_blocklist_schedule.go:40-67 | with ticks at most a minute apart and an unchanged expression, the minutes served are exactly those after the first tick that match |
| `TickCoverage.BackupServesExactly` | internal/services/backup_schedule.go:296-354 | with ticks at most a minute apart, an unchanged schedule that keeps matching and no other runs, the minutes served are exactly the matching ones whose predecessor was not served |
| `TickCoverage.SpacedMinutesAreAllServed` | internal/services/backup_schedule.go:333-354 | so a schedule that never matches two minutes in a row is served in full |
| `DnsMirror.FqdnKeepsNamesApart` | internal/services/dhcp.go:42-48 | two names clash, ignoring case, exactly when their hostnames do |
| `DnsMirror.AddLeaseKeepsExactlyWhen` | internal/services/dhcp.go:366-401 | adding a lease keeps the mirrored records equal to those the leases call for if and only if it is refused, has no name, or is saved and finds its name free and room under the cap |
| `DnsMirror.InStepResolvesEveryLease` | internal/services/dhcp.go:366-401 | in step, every named lease has a mirrored record of its name in the system domain with its address, and every mirrored record is one |
| `DnsMirror.LeaseIsAddedExactlyWhen` | internal/services/dhcp.go:366-401 | a lease is appended if and only if it is valid and shares neither its hardware address, ignoring case, nor its IP address with another; otherwise nothing changes, and user records never do |
| `DnsMirror.LeaseIsRemoved` | internal/services/dhcp.go:403-427 | a removal takes exactly the lease at its place and no user record |
| `DnsMirror.LeasesStayApart` | internal/services/dhcp.go:366-427 | over every run no two leases share a hardware or an IP address |
| `DnsMirror.RemoveLeaseKeeps` | internal/services/dhcp.go:403-427 | with distinct names, removing a lease drops its record and no other, and leaves the user's records |
| `DnsMirror.RemoveLeaseSparesOthersExactlyWhen` | internal/services/dhcp.go:403-427 | from any state, every other lease keeps its record if and only if the first mirrored record of the removed lease's name is not the only record of another lease |
| `DnsMirror.RemoveLeaseKeepsExactlyWhen` | internal/services/dhcp.go:403-427 | from any mirrored records that are in step, names shared or not and the save failing or not, a removal keeps them so if and only if the lease has no name, or it is saved and the record found by name and the one at the lease's own place are alike with all between |
| `DnsMirror.RecordRemovalKeepsExactlyWhen` | internal/services/dns.go:818-830 | deleting a record on the DNS page keeps the mirror in step if and only if the record is not a mirrored one |
| `DnsMirror.DeletedMirrorIsRebuilt` | internal/services/dhcp.go:444-481 | after a mirrored record is deleted the list differs from a rebuild, and the rebuild restores the mirrored records |
| `DnsMirror.StepKeepsExactlyWhen` | internal/services/dhcp.go:366-481 | from a mirror in step each lease, record and rebuild operation keeps it if and only if it is admissible |
| `DnsMirror.SecondLeaseTakesTheFirstsRecord` | internal/services/dhcp.go:366-427 | two leases of one name are added and the second removed: the first is left without its record |
| `DnsMirror.SyncIsIdempotent` | internal/services/dhcp.go:444-481 | from any state a rebuild keeps the user's records in order at the front, and rebuilding again changes nothing |
| `DnsMirror.SyncNamesEveryLease` | internal/services/dhcp.go:462-479 | from any state a rebuild leaves every named lease with a record of its name unless the list is full |
| `DnsMirror.SyncAgrees` | internal/services/dhcp.go:444-481 | in step, a rebuild gives the user's records followed by exactly the mirrored ones |
| `DnsMirror.IncrementalAgreesWithRebuild` | internal/services/dhcp.go:366-481 | over every run of lease and record operations, failed saves of a lease included, the mirror is in step after each one if and only if each is admissible, and then the records kept lease by lease are the ones a rebuild would make |
| `DnsMirror.DNSService.AddStaticRecord` | internal/services/dns.go:803-816 | refused when the list holds 500 records or the name, ignoring case; otherwise appended |
| `DnsMirror.DNSService.FindStaticRecordIndexBySource` | internal/services/dns.go:745-754 | the first mirrored record of the name, or -1 |
| `DnsMirror.DHCPService.AddStaticLease` | internal/services/dhcp.go:366-401 | the lease and record lists are those of the add step, also when the save fails in between |
| `DnsMirror.DHCPService.RemoveStaticLease` | internal/services/dhcp.go:403-427 | the same for the remove step |
| `DnsMirror.DHCPService.Strip` | internal/services/dhcp.go:448-465 | the loop that restarts after every removal ends, with exactly the user's records in order |
| `DnsMirror.DHCPService.SyncStaticDNSRecords` | internal/services/dhcp.go:444-481 | the whole method is the rebuild |
| `Paths.SafeNamesAreSteps` | internal/services/backup.go:486-489 | a cleaned relative name without a double dot is a dot or a list of ordinary components |
| `Restore.RestoreRoots` | internal/services/backup.go:213-221 | the table maps each base name to the last directory that has it |
| `Restore.WrittenBelowItsRoot` | internal/services/backup.go:230-252 | a member goes to the root its first component names, followed by its other components, none of which steps out |
| `Restore.ExportRestoresExactlyWhen` | internal/services/backup.go:93-105 | a file exported from a directory is restored to the same path if and only if its name holds no double dot, is not the key's, and no later directory shares the base name |
| `Restore.StagedExactlyWhen` | internal/services/backup.go:417-444 | staging accepts an archive if and only if every member is acceptable and entry count, entry sizes and total stay within the limits, and then holds every member whole and in order |
| `Restore.RestoreIsTwoPhase` | internal/services/backup.go:400-414 | an archive that is torn, rejected or fails validation changes nothing; otherwise its members are written in order until a write fails; it succeeds if and only if the archive is admitted, every write succeeds and the archived key fits; on success the key in use is the archived one, which comes only from an encrypted archive, and before that the key never changes |
| `Restore.InstalledExactly` | internal/services/backup.go:404-412 | after the members are written each path holds what its last file says or what it held before, and exactly the directory members are added |
| `Restore.EveryDirectoryIsMade` | internal/services/backup.go:404-412 | every directory member of a restored archive exists |
| `Restore.EveryWriteIsAWholeMember` | internal/services/backup.go:449-530 | every file that changes holds the whole content of a member that resolves to it, and the validated file, if it changes, passes validation |
| `Restore.EveryWriteIsBelowARoot` | internal/services/backup.go:230-252 | every file that changes lies below the root its member's name starts with |
| `Restore.RouterYamlStaysOrIsValid` | internal/services/backup.go:449-460 | after any restore the router.yaml of the configuration directory is as it was or passes validation |
| `Restore.ExportedFileComesBack` | internal/services/backup.go:400-414 | after a restore that went through, an exported file is back at its path with its content |
| `Restore.ImportBudget.CountEntry` | internal/services/backup.go:317-323 | counts every member and refuses beyond 10000 |
| `Restore.ImportBudget.CountBytes` | internal/services/backup.go:326-335 | refuses a file above 10 MiB or a total above 256 MiB, and otherwise adds it |
| `Restore.BackupService.StageArchive` | internal/services/backup.go:417-444 | the loop accepts exactly the archives within budget, writes nothing and returns their members and key |
| `Restore.BackupService.ValidateStagedConfig` | internal/services/backup.go:449-460 | passes exactly when every staged router.yaml is valid |
| `Restore.BackupService.Import` | internal/services/backup.go:400-414 | the whole method is the two-phase restore |
| `Secrets.FieldListsCoincide` | internal/config/secrets.go:157-174 | the list encryption works from and the order decryption writes in name every secret field once and nothing else |
| `Secrets.OrderDoesNotMatter` | internal/config/secrets.go:237-305 | rewriting the fields along either list gives the same configuration |
| `Secrets.SecretComesBackExactlyWhen` | internal/config/secrets.go:125-152 | one secret survives encryption and decryption if and only if it does not start with the marker |
| `Secrets.LoadAt` | internal/config/secrets.go:237-288 | loading decrypts every field, or without a key clears exactly the ones holding ciphertext |
| `Secrets.WrittenAt` | internal/config/secrets.go:125-134 | a secret is written as the marker and its sealing if and only if it is neither empty nor marked; otherwise it is written as it is; nothing else differs |
| `Secrets.NothingIsWrittenInTheClearExactlyWhen` | internal/config/secrets.go:188-208 | every secret of the written copy is empty or sealed if and only if none starts with the marker |
| `Secrets.MarkedPassphraseIsWrittenInTheClear` | internal/config/secrets.go:125-128 | a passphrase that starts with the marker goes to disk unchanged |
| `Secrets.SaveThenLoadExactlyWhen` | internal/config/secrets.go:188-288 | saving and loading gives the configuration back if and only if no secret starts with the marker |
| `Secrets.SaveFailsExactlyWhen` | internal/config/secrets.go:50-82 | a save fails if and only if there is a secret and the key file cannot be read; a key that is there is kept, and one is made if and only if there is a secret and no key file |
| `Secrets.EarlierSaveStillLoads` | internal/config/secrets.go:50-82 | what was saved once still loads after any later save |
| `Secrets.Config.ClearEncryptedSecrets` | internal/config/secrets.go:310-316 | the loop through the field pointers clears exactly the ciphertext fields |
| `Secrets.Config.DecryptSecretsInPlace` | internal/config/secrets.go:237-305 | the six loops and calls, in the source's order, leave the loaded configuration |
| `Secrets.WithEncryptedSecrets` | internal/config/secrets.go:188-208 | returns the encrypted copy in new arrays, or the configuration itself when there is nothing to encrypt, and leaves the live one and its arrays untouched |
| `DnsStamp.DecodesEveryStamp` | internal/services/doh.go:273-312 | every well-formed stamp, whatever its protocol, properties, hashes and tail, decodes to its host and path |
| `DnsStamp.DecodesExactlyTheStamps` | internal/services/doh.go:273-349 | on arbitrary bytes the decoder answers if and only if they are a stamp, with that stamp's host and path |
| `DnsStamp.RoundTrip` | internal/services/doh.go:397-431 | decoding what was encoded gives the first 127 bytes of the host and of the path |
| `DnsStamp.RoundTripsExactlyWhen` | internal/services/doh.go:397-431 | it gives them back if and only if both have at most 127 bytes and the path starts with a slash |
| `DnsStamp.WriteLP` | internal/services/doh.go:555-566 | appends the length byte and at most 127 bytes |
| `DnsStamp.EncodeStamp` | internal/services/doh.go:416-430 | the appended buffer is the serialisation of a stamp with these fields |
| `DnsStamp.SkipChain` | internal/services/doh.go:333-349 | the loop ends on every input, never reads past the end and stops after the entry without the high bit |
| `DnsStamp.DecodeStamp` | internal/services/doh.go:273-328 | the decoder's code, total on arbitrary bytes |

## Left out

- HTTP handlers, templates, metrics, i18n: user interface and formatting.
- Command execution, rendering of daemon configuration, PPPoE, QoS, storage: foreign effects; only their success or failure appears.
- The agent's command whitelist, path rules and input filters: one-branch checks.
- Cryptography (AES-GCM, scrypt, HMAC, ed25519, TLS, ACME): an invertible cipher and a symbolic MAC stand for it.
- gzip, tar, JSON, YAML and base64 codecs, and the time-zone database: their decoded values are inputs.
- frameReader in the agent's server and its deadlines: byte counting with one branch per call.
- Failed rollbacks and failed state-file writes of the firewall: the code logs them and goes on; the theorems are for writes that succeed.
- Firewall.FirewallService.Apply: does not model the hook that runs after a load and puts the chains other services own back into the kernel.
- Firewall.FirewallService.Rollback: does not model that hook either.
- Firewall.FirewallService.Watchdog: does not model that hook either.
- Firewall.FirewallService.ApplyAndConfirm: taken as one step, although its marker is read outside the lock.
- OtaUpdate.UpdateService.ApplyUpdate: assumes that nothing of an earlier update is left, neither a pending one nor an undecodable record, which the source does not check.
- OtaUpdate.EveryInterleavingIsOne: a crash of the web process between a confirm's commands is a run of the machine but not one of these.
- PeerIsolation.AddKeeps: for IPv4 pools; on IPv6 pools it is false, and AddKeepsIsolationExactlyWhen gives the condition.
- PeerIsolation.PeersStayIsolated: for operations one after another on an IPv4 pool, because of the race and the IPv6 entry shown above.
- SiteToSite.FinalizeMeansAgreement: a failed save is a run in which the token is lost, since the list is changed all the same.
- TunnelPool.NextTunnelIP: excludes a pool of every address with all of them used, where the source's loop never ends.
- Vpn.VPNService.Add: excludes that pool too.
- Vpn.VPNService.Allocate: excludes that pool too.
- VpnOutcomes.TunnelIsLowestUnassigned: for pools of prefix length at least 1; FirstAround gives the order on the others.
- SiteToSite.StepKeeps: keys and nonces that are drawn are new and never empty; an add whose draw fails goes on with an empty key.
- RateLimiter.TokensFollowCredit: tokens are exact reals, so floating-point rounding is not modelled.
- Ticks.FiresAreDueAndIncrease: a panic in the parser is taken as the end of the process, after which the loop starts with no plan; the run a fire starts is one step.
- TickCoverage.BackupServesExactly: for runs of ticks at most a minute apart, since a later tick serves a planned minute late and a plan is for one minute only; a schedule that stops matching within the search horizon, and backups started by hand, are left to BackupFiresExactlyWhen and PlannedMinuteIsServed.
- CronSchedule.StartIsStrictlyAfter: the second of the argument is read in a zone whose offset is a whole number of minutes.
- DnsMirror.IncrementalAgreesWithRebuild: agreement with a rebuild is for admissible runs: named leases find their name free and room, lease changes are saved, and no mirrored record is deleted or added by hand; the system domain is fixed, the saves of a rebuild succeed, and case folding is by character.
- Restore.ExportedFileComesBack: directories are given by clean absolute paths, as the constants of the source are; symbolic links on the live disk are not modelled.
- Secrets.SaveThenLoadExactlyWhen: encryption itself does not fail, and one key is in use between the save and the load.
- S3, SFTP and local upload, release downloads, DNS probes: network clients.

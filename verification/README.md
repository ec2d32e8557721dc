# stunmesh-provisioner: a verified model

stunmesh-provisioner has a controller that publishes one sealed bundle per node on a DHT, and an
agent that fetches its node's bundle and applies it to an OpenWrt router. This project models the
parts of both that are hardest to get right and proves them with Dafny 4.11:

- **The convergent apply.** The agent drives an external store (uci, with a staged and a
  committed copy of each config) by commands that may fail, remembering only `last.json`.
  `Uci`, `InterfaceBatch`, `InterfaceSections` and `BuiltSections` give the commands and what they build;
  `ApplyPlan`, `Convergence`, `NetworkProofs`, `Retry`, `Rebuild`, `Leftovers`, `EmptyName`,
  `NetworkRuns`, `NetworkHistory` and `NetworkChanges` prove that incremental applies refine a
  rebuild, that retries converge, and exactly when an apply ends well over what attempts at other
  bundles left; `Firewall`, `FirewallRuns`, `FirewallHistory` and `FirewallChanges` do the same for
  the shared zone; `World`, `AgentApply`, `SteadyAgent` and `Fetch` are the agent itself, command by
  command, and the invariant of the whole agent over runs in which attempts at any bundles fail
  anywhere.
- **The canonical form.** `Json`, `JsonRoundTrip`, `Utf8`, `Escapes`, `Surrogates`, `Bundle`,
  `Marshal`, `Strict`, `Doubles`, `HtmlSafe` and `CanonicalForm`: printing and parsing undo each
  other in both directions, the two byte scanners that
  decide by backslash parity agree with reading escape by escape, and Equal is equality of content.
  Change detection rests on this (`Diffs`), so the apply does too.
- **Republishing and selection.** `Schedule`, `Box`, `Books`, `Rounds` and `RepublishLoop` are the
  republish loop with its per-namespace due times and its cache of sealed values; `Select` and
  `Freshness` follow a node's files to the bundle its agent selects, `ProxyFreshness` through a
  proxy's cap. `SizeBound` and `BuildBundle` are the way from files to a value that fits.
- **The proxy client.** `Lines`, `LineReader`, `DhtProxy` and `PutGet`: the bounded-buffer line
  reader agrees with plain splitting, every line of a response is accounted for, and what is put is
  got back through JSON, base64 and lines.

`dafny verify dfyconfig.toml` checks all of it. Nothing was executed.

## How to read the model

- A run of commands is a plan: a sequence of steps, each a command or a deletion guarded by
  `uci get`. Methods say which part of their plan ran; the theorems are about plans.
- Every operation of the agent except `uci get` may fail with no effect; which ones do is an
  arbitrary function of their position, so the theorems hold for every pattern of failures.
- `Net` carries `net.SplitHostPort` and `net.ParseCIDR` as arbitrary functions; the line theorems hold
  for every decoding of a line that a `Client` may carry, `DhtProxy.LineValue` being the actual one;
  puts to the DHT go as an arbitrary function of their position says. The clock, the
  files of the tree and the shutdown of the loop are inputs.
- Byte strings are sequences of characters below 256; Go's `int` is modelled with both word sizes
  where it decodes JSON, and plain integers elsewhere (all are validated to be small).
- A box is symbolic: it opens for exactly the two keys that share it.

## Where the code does less than it promises

Each of these is stated as a lemma, with the exact condition under which the code does meet the
property:

- A retry converges on the wanted network unless a forced attempt left staged deletions behind
  that could not be reverted and the retry is unforced: `NetworkHistory.OrdinaryRetryIff`,
  `Rebuild.ForcedLeftoverBreaks`.
- A bundle that was committed but never recorded leaves orphans when another bundle replaces it:
  network sections (`NetworkChanges.WithdrawnPeerStays`, `NetworkChanges.ReplacedBundleOrphans`),
  which no later history deletes unless a bundle names them again
  (`NetworkHistory.UnnamedUntouched`), and members of the zone
  (`FirewallChanges.ReplacedMemberStays`). Exactly when an apply ends well over any leftovers:
  `NetworkChanges.ResumesIff`, `FirewallChanges.EpisodeEndsIff`, `SteadyAgent.FileAfter` (an unforced
  apply does not rewrite a text that equals the recorded one, even if a failed attempt at another
  bundle overwrote the file).
- Firewall changes that `last.json` does not record, staged or committed, are retried safely
  exactly when they neither create nor remove the zone: `FirewallHistory.SameBundleEndsIff` for any
  history of failed attempts at the bundle, `FirewallHistory.RetryAfterCutIff` for one cut at a given step,
  `FirewallRuns.RetryAfterCommitIff` for one past its commit. After a creation has begun the zone
  is taken for an operator's, after a removal has begun every retry is refused.
- `SteadyAgent.RecoveredSteadyIff` puts these conditions together for the whole agent.
- The cache of sealed values ignores the controller key; a value re-put after a rotation opens
  exactly if the key is the old one: `Books.RotationBreaksCache`. A namespace that was out of the
  tree for a round is sealed anew: `Rounds.RecreatedOpens`.
- A put that reaches only some proxies is not cached, so undoing an edit can put an older value
  again and the agents stay on the edit: `Freshness.StaleAfterUndo`, and exactly when,
  `Freshness.EndToEndIff`.
- A proxy client keeps no more values than its cap; the newest is selected exactly if it is among
  them: `ProxyFreshness.CappedSelectionIff`.
- Section names of different interfaces can collide: interface `a` with peer `b_p_c` and interface
  `a_p_b` with peer `c` share one (`InterfaceBatch.UnderscoreCollision`). They can exactly if one
  name is the other followed by `_p`, by `_p_` and anything, or by `_r_` and a number:
  `InterfaceBatch.CollideIff`. The theorems ask only that the names in play be apart, which names
  that do not collide give (`NetworkRuns.UncollidingApart`), names without underscores above all
  (`NetworkRuns.PlainApart`).
- An interface named by the empty string passes validation, but the deletion skips its section.
  Deletion undoes creation exactly if the name is not empty (`Rebuild.DeleteUndoesCreate`), and an
  apply ends in the wanted store exactly if the bundle keeps such an interface once it is on record
  and sets every option it had: `EmptyName.ApplyMirrorsIff`, `NetworkRuns.ApplyFaithfulIff`,
  `SteadyAgent.ApplySteadyIff`. `NetworkRuns.Harmless` is this condition wherever it is asked for.

Canonical is specified for validated bundles only, and there it is exact. On others it passes
numbers through a float64: versions collide exactly if they round to the same one
(`CanonicalForm.VersionsPrintAlikeIff`), as 2^53 and 2^53 + 1 do
(`CanonicalForm.UnvalidatedNumbersCollide`).

The documentation of Parse refuses data after the JSON object. The code lets a closing bracket or
brace pass there, and whatever comes after it; anything else is refused: `CanonicalForm.TrailingIff`.

The project's own README says that the firewall zone is brought back to its default shape after
manual edits. No code does this, and nothing is stated about it.

## Model

| member | source | states |
|---|---|---|
| Fetch.CheckAndApply | cmd/stunmesh-agent/fetch.go:171-204 | One cycle from a selected bundle on: a corrupt last.json fails and runs nothing, a missing one stands for nothing applied; unforced content equal to last.json does nothing; otherwise the apply of the diff succeeds completely, with its calls in order, or is interrupted as a cut of its plans with last.json untouched, and after a single fault, or a refusal alone, each config is committed as a whole or as it was before; without faults it succeeds |
| Fetch.CheckFromRest | cmd/stunmesh-agent/fetch.go:171-204 | From rest: without faults the cycle does not fail; a success leaves the agent at rest with the bundle's content (names apart, the empty one harmless); a single fault before the network commit changes nothing at all, because the reverts undo it |
| Fetch.CycleSteady | cmd/stunmesh-agent/fetch.go:171-204 | From rest, over any failed cycles with any bundles: a cycle that no fault hits is refused nothing and leaves the agent at rest with the bundle's content if and only if what the failed ones left is recoverable for it |
| Fetch.FailureIsTry | cmd/stunmesh-agent/fetch.go:171-204 | What a failed cycle leaves is one of the failed attempts that the recovery theorems quantify over, so they cover every pattern of faults |
| Fetch.AppliedIsSame | cmd/stunmesh-agent/fetch.go:177-188 | After any successful apply, whatever the stores held before, last.json reads back as a state with which every bundle of the same wg and stunmesh compares equal |
| Fetch.ApplyThenCheck | cmd/stunmesh-agent/fetch.go:171-204 | After a cycle that applied a bundle, an unforced cycle with the same content runs no operation and leaves everything as the first left it |
| Fetch.DiffUsable | cmd/stunmesh-agent/fetch_apply.go:75-90 | Whatever the bundle and last.json, the diff is one that the apply can work with: distinct names, content where it creates, a record where it carries one over |
| SteadyAgent.RecoveredSteadyIff | cmd/stunmesh-agent/fetch_apply.go:70-155 | From rest, after any number of failed attempts at any bundles, each stopped at any command, reverted or not, committed or not: the attempt that runs through is refused nothing and leads to rest with exactly the new content if and only if the staged network is resumable for it, the zone is ready for it, and the stunmesh file is written or already holds the text; the three conditions are on what the failed attempts left |
| SteadyAgent.UndoneRecoverable | cmd/stunmesh-agent/fetch_apply.go:70-155 | That holds of every history of attempts, at whatever bundles, that were all undone |
| SteadyAgent.TidyRecoverable | cmd/stunmesh-agent/fetch_apply.go:70-155 | It holds of every history of attempts at the content itself in which no forced attempt left staged network changes to an unforced one, and in which the firewall changes of a creation or removal of the zone were reverted before their commit |
| SteadyAgent.ApplySteadyIff | cmd/stunmesh-agent/fetch_apply.go:75-155 | A successful apply of valid content from rest leads to rest if and only if the bundle keeps an interface with an empty name that it has on record, with every option it had |
| SteadyAgent.ApplySteady | cmd/stunmesh-agent/fetch_apply.go:75-155 | A successful apply from rest leads to rest (the case without failures) |
| SteadyAgent.ApplyUnopposed | cmd/stunmesh-agent/fetch_apply.go:75-155 | From rest, every command of both plans is accepted by uci, whatever content is applied |
| SteadyAgent.RunSteady | cmd/stunmesh-agent/fetch_apply.go:75-155 | The agent is at rest after every run of changing bundles, forced and unforced in any mixture, each applied after any failed attempts, at it or at bundles it replaces, that left something recoverable |
| SteadyAgent.FreshSteady | internal/last/last.go:195-232 | A node without last.json, with only foreign sections in uci, is at rest with nothing recorded |
| SteadyAgent.FileAfter | cmd/stunmesh-agent/fetch_apply.go:530-542 | After the apply the stunmesh file holds the new text if and only if the apply was forced, or the text is empty or differs from the recorded one, or the file held it already: an unchanged text is not rewritten over what a failed attempt at another bundle wrote |
| SteadyAgent.FailedAttemptsConverge | cmd/stunmesh-agent/fetch_apply.go:70-73 | After any number of failed attempts at one content, each failing at any command with its revert done or not, the attempt that runs through is refused nothing and leaves network exactly as one clean attempt would (for an unforced attempt: provided no forced attempt left staged changes) |
| SteadyAgent.RevertedStaysSteady | cmd/stunmesh-agent/fetch_apply.go:78-81 | An attempt that failed before its commits and could revert has changed nothing at all; ApplyDiff shows that it could after any single fault |
| NetworkRuns.ApplyRefinesRebuild | cmd/stunmesh-agent/fetch_apply.go:365-402 | The incremental apply ends in exactly the store that building every interface of the bundle from the foreign sections alone would give (the empty name only where it does no harm, as in the rows below; NetworkRuns.ApplyFaithfulIff says when) |
| NetworkRuns.ApplyFaithful | cmd/stunmesh-agent/fetch_apply.go:75-155 | From a store that last.json describes, last.json describes the new store after a successful apply, and it records exactly the interfaces of the bundle |
| NetworkRuns.ApplyFaithfulIff | cmd/stunmesh-agent/fetch_apply.go:427-444 | It describes the new store if and only if the bundle keeps an interface with an empty name that is on record and sets every option it had; without such a record, always |
| NetworkRuns.NeverRefused | cmd/stunmesh-agent/fetch_apply.go:365-467 | The machine refuses no command of any apply, whatever the bundle, last.json and the store: deletions are guarded, sections are created before they are filled |
| EmptyName.ApplyMirrorsIff | cmd/stunmesh-agent/fetch_apply.go:427-444 | The plan of a diff ends in the mirror of the wanted interfaces if and only if the empty name does no harm, because the deletion skips a section with an empty name |
| NetworkRuns.RunFaithful | cmd/stunmesh-agent/fetch_apply.go:75-155 | The same over every run of successful applies of changing bundles for either forceAll value; the last bundle is what is recorded |
| NetworkRuns.RetryEndsClean | cmd/stunmesh-agent/fetch_apply.go:408-467 | After any history of interrupted attempts at one bundle over one last.json, a complete attempt is never refused and ends where a single clean attempt ends (unforced: no forced attempt left staged changes behind) |
| NetworkRuns.RecordingDescribes | cmd/stunmesh-agent/fetch_apply.go:601-634 | The new last.json records exactly the interfaces of the bundle, each with its content and the section names created for it |
| NetworkRuns.SkippedUnaltered | cmd/stunmesh-agent/fetch_diff.go:171-196 | The diff skips an interface exactly when it is not forced and the interface is wanted with the content it has on record |
| NetworkRuns.UncollidingApart | internal/uci/interface.go:163-209 | Interface names that do not collide pairwise keep the section names of all interfaces of bundle and last.json apart from each other, whatever the interfaces contain; with none of them foreign, the theorems apply |
| NetworkChanges.ResumesIff | cmd/stunmesh-agent/fetch_apply.go:365-467 | On any store whatever, left by attempts at whatever bundles: an apply ends in the wanted store if and only if the foreign sections are there, every other section is named by the bundle or deleted through last.json, what an unforced apply skips is intact, and no section that is created without being deleted first holds an option that the create does not set |
| NetworkChanges.ReplacedBundleOrphans | cmd/stunmesh-agent/fetch_apply.go:107-131 | A bundle whose network commit went through but that never reached last.json is replaced: every section of it that neither the new bundle nor last.json names stays, and the new apply misses its store |
| NetworkChanges.WithdrawnPeerStays | cmd/stunmesh-agent/fetch_apply.go:107-131 | The input: on a fresh node wg0 with one peer is committed and a later step fails; the bundle that has another peer in its place leaves the section of the first |
| NetworkHistory.OrdinaryRetryIff | cmd/stunmesh-agent/fetch_apply.go:365-444 | After any history of interrupted attempts at one bundle, forced ones included, an unforced attempt ends in the wanted store if and only if the interfaces it skips have their sections intact when it starts |
| NetworkHistory.UnnamedUntouched | cmd/stunmesh-agent/fetch_apply.go:365-444 | Over every history of complete and interrupted attempts at changing bundles, a section that neither last.json nor any bundle names is never altered, staged or committed |
| Rebuild.ForcedLeftoverBreaks | cmd/stunmesh-agent/fetch_apply.go:157-167 | The failing family: a forced attempt that stops after deleting the sections of its first, unaltered interface and cannot revert makes the next unforced attempt miss the wanted store |
| Rebuild.MirrorsUnique | cmd/stunmesh-agent/fetch_apply.go:365-402 | There is only one store that holds the foreign sections, the sections of these interfaces and nothing else |
| Rebuild.CreateAdds | internal/uci/interface.go:22-64 | On a store without the interface's names, the create commands are all accepted and add exactly the sections that last.json records for it |
| Rebuild.DeleteUndoesCreate | cmd/stunmesh-agent/fetch_apply.go:427-444 | Deleting the recorded sections of an interface just created gives the original store back if and only if its name is not empty |
| Rebuild.RecordsWanted | cmd/stunmesh-agent/fetch_apply.go:601-622 | The records of a successful apply are those of the wanted interfaces: removed ones dropped, unchanged ones carried over, others from the new content |
| Rebuild.ApplyMirrors | cmd/stunmesh-agent/fetch_apply.go:365-402 | Run on a store that mirrors the record, the plan of a fitting diff is never refused and ends in the store that mirrors the wanted interfaces |
| Retry.RetryConverges | cmd/stunmesh-agent/fetch_apply.go:408-467 | Any two plans that own their steps and complete from partial stores converge after every history of cuts |
| Retry.OrdinaryConvergesIff | cmd/stunmesh-agent/fetch_apply.go:365-388 | A plan for some of the interfaces completes the target from a partial store if and only if the others are intact |
| Convergence.StepKeepsPartial | cmd/stunmesh-agent/fetch_apply.go:408-467 | Every single owned command, from wherever earlier attempts left the store, keeps the invariant: foreign sections kept, nothing unknown, no leftover option outside the recorded sections |
| Convergence.PlanKeepsPartial | cmd/stunmesh-agent/fetch_apply.go:365-388 | So does every plan of owned commands |
| Convergence.AllDone | cmd/stunmesh-agent/fetch_apply.go:365-388 | Once every touched interface is built and its stale sections are gone, the store is the wanted one |
| Convergence.DescribesUnique | cmd/stunmesh-agent/fetch_apply.go:365-388 | The wanted store is unique |
| NetworkProofs.PlanCompletes | cmd/stunmesh-agent/fetch_apply.go:365-388 | A whole plan, run on any store that earlier steps for its interfaces may have produced, is never refused and ends in exactly the wanted state |
| Leftovers.DescribesIffPartial | cmd/stunmesh-agent/fetch_apply.go:365-467 | And it does so only on such a store: the invariant that every command keeps is also necessary |
| NetworkProofs.NetworkPlanSafe | cmd/stunmesh-agent/fetch_apply.go:365-388 | Every command of a diff's plan belongs to an interface the diff acts on, and names only sections recorded or wanted for it |
| NetworkProofs.CreatePlanBuilds | cmd/stunmesh-agent/fetch_apply.go:394-402 | Clearing the list options first, the create commands make exactly the wanted sections over the remains of a partly run create: no list entry twice, no stale option |
| NetworkProofs.DeletePlanDeletes | cmd/stunmesh-agent/fetch_apply.go:427-444 | Deleting recorded sections is never refused, removes exactly those, and tolerates sections already gone |
| NetworkProofs.ClearAll | cmd/stunmesh-agent/fetch_apply.go:408-415 | Clearing list options is never refused, leaves every section in place and none of the listed options |
| NetworkProofs.InterfacePlanDone | cmd/stunmesh-agent/fetch_apply.go:365-388 | One interface's plan, from any partial store, builds it as wanted and leaves nothing of its record behind |
| AgentApply.Agent.ApplyDiff | cmd/stunmesh-agent/fetch_apply.go:75-155 | A success does all of it: both configs committed, stunmesh file and last.json written, and after the commits, position by position: the network reload first; each new and each changed interface brought up once, in the order of the diff; then one firewall reload, certainly if the committed firewall is another one than before and never if nothing of it was edited; then the stunmesh file, exactly if its text is empty or to be rewritten; last.json last. Any failure leaves last.json alone, makes the first few of such calls, and leaves each config as a cut of its plan, the firewall committed only after the network; after a single fault, or a refusal alone, each config is committed as a whole or reverted; without faults it succeeds |
| AgentApply.Agent.RunCommand | cmd/stunmesh-agent/fetch_apply.go:472-479 | A command that fails or that uci refuses has no effect |
| AgentApply.Agent.DeleteIfPresent | cmd/stunmesh-agent/fetch_apply.go:461-467 | Deletes the path if it is there; an absent path is no error; a failing delete changes nothing and is reported |
| AgentApply.Agent.RunBatch | cmd/stunmesh-agent/fetch_apply.go:472-479 | Runs the batch up to the first failure and no further; without faults all of it |
| AgentApply.Agent.ClearListOptions | cmd/stunmesh-agent/fetch_apply.go:408-415 | Runs the guarded deletions of the list options up to the first failure |
| AgentApply.Agent.DeleteSections | cmd/stunmesh-agent/fetch_apply.go:427-444 | Peers, then routes, then the interface, each only if present, up to the first failure |
| ApplyPlan.DeleteInOrder | cmd/stunmesh-agent/fetch_apply.go:427-444 | Position by position: every peer's section before any route's, and the interface's own last of all, if it has a name |
| AgentApply.Agent.CreateInterface | cmd/stunmesh-agent/fetch_apply.go:394-402 | Clears the lists, then runs the create batch, up to the first failure |
| AgentApply.Agent.WriteUCI | cmd/stunmesh-agent/fetch_apply.go:365-388 | Stages the network plan of the diff, interface after interface, up to the first failure; touches staged network only |
| AgentApply.Agent.ManageFirewall | cmd/stunmesh-agent/fetch_apply.go:233-318 | Stages the firewall plan for the diff and the zone it finds, up to the first failure, and returns the state to record and whether anything was staged |
| AgentApply.Agent.SortMembers | cmd/stunmesh-agent/fetch_apply.go:234-252 | Collects who joins the zone, who leaves it, and whether any interface stays |
| AgentApply.Agent.KeepMembers | cmd/stunmesh-agent/fetch_apply.go:310-317 | The recorded members are the interfaces that stay, in the order of the diff |
| AgentApply.StaysMember | cmd/stunmesh-agent/fetch_apply.go:297-315 | An interface that stays is a member that does not leave, or it joins, so the recorded members miss nobody |
| AgentApply.Agent.IfupChanged | cmd/stunmesh-agent/fetch_apply.go:498-508 | ifup runs for the interfaces to bring up in the order of the diff, for the first few of them if it fails |
| AgentApply.BroughtAre | cmd/stunmesh-agent/fetch_apply.go:498-508 | Those are exactly the new and the changed interfaces |
| AgentApply.Agent.ApplyStunmesh | cmd/stunmesh-agent/fetch_apply.go:530-542 | Deletes the file for an empty text, writes a changed one, leaves an unchanged one; a failure changes nothing |
| AgentApply.Agent.BuildState | cmd/stunmesh-agent/fetch_apply.go:601-622 | Builds the records of the diff, with the firewall state and the new text |
| AgentApply.Agent.StageBoth | cmd/stunmesh-agent/fetch_apply.go:78-105 | Stages both configs; if either half fails, what was staged is reverted: after a single fault, or a refusal alone, nothing of it is left in either config |
| AgentApply.Agent.CommitBoth | cmd/stunmesh-agent/fetch_apply.go:107-127 | Commits the network, then the firewall if it changed; after a single fault what is not committed is undone in both configs |
| AgentApply.Agent.ReloadAll | cmd/stunmesh-agent/fetch_apply.go:123-140 | Network reload, ifups, firewall reload if it changed: these calls in this order, up to the first failure |
| AgentApply.FinishOrderly | cmd/stunmesh-agent/fetch_apply.go:123-154 | The calls of the finish are in order, told by their positions: what ApplyDiff promises of them |
| AgentApply.Agent.WriteFiles | cmd/stunmesh-agent/fetch_apply.go:142-154 | The stunmesh file, then last.json, written only if everything before succeeded |
| AgentApply.Agent.Finish | cmd/stunmesh-agent/fetch_apply.go:123-154 | Network reload, ifups, firewall reload if it changed, stunmesh file, last.json: these calls in this order, up to the first failure; last.json is written last and only if everything before succeeded |
| Uci.RunBatch | internal/uci/batch.go:41-72 | Programs for distinct sections, run over any overwritable store, are never refused, make each section afresh and leave the rest of the store alone |
| Uci.RunElsewhere | internal/uci/batch.go:41-72 | A plan leaves alone every section that none of its commands names |
| Uci.FoldOver | internal/uci/batch.go:50-58 | Leftover options that a program does not append to end up below what it writes |
| InterfaceBatch.BuildInterface | internal/uci/interface.go:22-64 | Emits the interface section, then routes, then peers in sorted order, as the batch of its section programs; BuiltSections.BatchTold says what that batch makes |
| BuiltSections.BatchTold | internal/uci/interface.go:22-135 | Run on an empty store, the batch makes exactly these sections: the interface's own, one for each route and one for each peer by their names; each has the type and exactly the options told by the three rows below |
| BuiltSections.ReadIsTold | internal/uci/interface.go:25-52 | The interface section: every option is a free one or one of eight; unless a free option has its name, listen_port and mtu are there exactly if given and read back as the numbers, fwmark reads back in hexadecimal after 0x, ip4table is there exactly if routing_table has an ipv4 and holds it, ip6table likewise for ipv6, addresses hold the list in order; a free option wins |
| BuiltSections.RouteIsTold | internal/uci/interface.go:91-104 | A route section: route or route6 as the CIDR parses, and if it does not parse, route6 exactly if it holds a colon; interface, target, and gateway and metric exactly if given |
| BuiltSections.PeerReadIsTold | internal/uci/interface.go:110-135 | A peer section: endpoint_port exactly if the endpoint splits into host and port; endpoint_host the host of the split, or the endpoint without the brackets around it; route_allowed_ips 0 exactly for an explicit false; the other options exactly if given; a free option wins |
| BuiltSections.HexReads | internal/uci/interface.go:38-40 | The hexadecimal digits of a number read back as the number |
| InterfaceBatch.BuildRoute | internal/uci/interface.go:91-104 | The route section with its fields in order, absent ones left out |
| InterfaceBatch.BuildPeer | internal/uci/interface.go:110-135 | The peer section: endpoint split into host and port, allowed_ips as a list, the interface's route_allowed_ips flag, absent fields left out |
| InterfaceBatch.OptionCommands | internal/uci/interface.go:142-148 | The free options in sorted key order |
| InterfaceBatch.ListOptions | internal/uci/interface.go:79-86 | The list options that the create appends to: the interface's addresses and each peer's allowed_ips |
| InterfaceBatch.RouteSectionNames | internal/uci/interface.go:185-191 | One name per route, numbered from zero |
| InterfaceBatch.PeerSectionNames | internal/uci/interface.go:203-209 | One name per peer, in sorted order |
| InterfaceSections.BuiltIsWanted | internal/uci/interface.go:22-135 | What the create commands build, section by section, is the declared content: every field of the bundle under its uci option, defaults applied, free options on top |
| InterfaceSections.BuiltNames | cmd/stunmesh-agent/fetch_apply.go:628-634 | The sections built are exactly the sections recorded |
| InterfaceSections.AppendsListed | internal/uci/interface.go:66-86 | Every option the create appends to is among the list options that are cleared first |
| InterfaceSections.ListedIff | internal/uci/interface.go:66-86 | And no other: the list options are the interface's addresses and each peer's allowed_ips |
| InterfaceSections.InterfaceFold | internal/uci/interface.go:22-52 | The interface commands, run in order on nothing, give the declared interface options |
| InterfaceSections.PeerFold | internal/uci/interface.go:110-135 | The peer commands, run in order on nothing, give the declared peer options |
| InterfaceSections.RouteFold | internal/uci/interface.go:91-104 | The route commands, run in order on nothing, give the declared route options |
| InterfaceBatch.ProgramsDistinct | internal/uci/interface.go:22-64 | No section is created twice |
| InterfaceBatch.SectionNameInjective | internal/uci/interface.go:163-173 | Section naming is injective over interfaces, routes and peers when interface names contain no underscore |
| InterfaceBatch.CollideIff | internal/uci/interface.go:163-173 | Two interfaces can share a section name if and only if one is named like the other followed by _p, by _p_ and anything, or by _r_ and a number |
| InterfaceBatch.NamesDisjoint | internal/uci/interface.go:163-209 | Interfaces whose names do not collide in this way share no section name, whatever they contain |
| Diffs.ComputeDiff | cmd/stunmesh-agent/fetch_diff.go:149-222 | One entry for every interface of bundle or last.json, in name order: on validated content new exactly without a record, removed exactly if not wanted, unchanged exactly if equal and not forced, with the content and the recorded sections that it needs; the stunmesh text is empty, unchanged exactly if as recorded and not forced, or changed |
| Diffs.DiffIsByContent | cmd/stunmesh-agent/fetch_diff.go:149-222 | On validated content the byte comparison gives the diff by plain equality of content |
| Diffs.InterfaceEqualIsEquality | cmd/stunmesh-agent/fetch_diff.go:257-268 | Two validated interfaces compare equal exactly when they are equal, absent and empty fields kept apart |
| Diffs.SameContent | cmd/stunmesh-agent/fetch_compare.go:23-62 | For every validated bundle and well-formed record: true exactly when the recorded interfaces and stunmesh text are those of the bundle |
| Diffs.SameIsEquality | cmd/stunmesh-agent/fetch_compare.go:23-62 | It is true exactly when the recorded interfaces and text are those of the bundle |
| Diffs.ComparisonsAgree | cmd/stunmesh-agent/fetch_compare.go:23-25 | It is true exactly when the unforced diff has every interface unchanged and the texts are equal: the two comparisons never disagree |
| Diffs.UnchangedIsEquality | cmd/stunmesh-agent/fetch_diff.go:171-196 | The unforced diff has nothing but unchanged entries exactly when recorded and wanted interfaces are equal |
| FirewallRuns.ApplyKeepsFirewall | cmd/stunmesh-agent/fetch_apply.go:233-318 | A successful apply is never refused by uci in its firewall half and keeps the firewall invariant, whatever the diff |
| FirewallChanges.EpisodeEndsIff | cmd/stunmesh-agent/fetch_apply.go:233-318 | After any history of failed attempts at any bundles, cut anywhere, reverted or not, committed or not, the attempt that runs through restores the invariant and commits what is staged if and only if: next to an operator's zone, or with nothing on record, the config is as it was; otherwise zone and forwardings stand, the list is duplicate-free, has every member that stays and none that is neither on record nor wanted (no matter when the zone is to go), and is committed if there is nothing to edit |
| FirewallChanges.ReplacedMemberStays | cmd/stunmesh-agent/fetch_apply.go:285-308 | A bundle with a new interface whose firewall commit went through but that never reached last.json is replaced by one without it: the zone goes on listing the interface |
| FirewallHistory.SameBundleEndsIff | cmd/stunmesh-agent/fetch_apply.go:233-318 | For failures at the bundle itself the condition is that the apply neither creates nor removes the zone, or the zone is an operator's, or the firewall config is as it was |
| FirewallChanges.RunKeepsFirewall | cmd/stunmesh-agent/fetch_apply.go:233-318 | The invariant holds over every run of bundles, each applied after any failed attempts, at it or at bundles it replaces, that meet the condition |
| FirewallHistory.RetryAfterCutIff | cmd/stunmesh-agent/fetch_apply.go:255-308 | After an attempt cut at any step of its firewall plan and not reverted, the next attempt at the bundle, forced or not, restores the invariant if and only if the apply neither creates nor removes the zone, or the zone is an operator's, or nothing was staged |
| FirewallHistory.CutUnfinished | cmd/stunmesh-agent/fetch_apply.go:285-308 | Member edits cut at any step leave a list that is duplicate-free and between the old members and the new |
| FirewallHistory.UnfinishedGood | cmd/stunmesh-agent/fetch_apply.go:233-318 | From any such list the attempt that runs through is not refused and restores the invariant |
| FirewallHistory.OperatorZoneUntouched | cmd/stunmesh-agent/fetch_apply.go:272-283 | Over every history of completed and interrupted attempts at changing bundles, a zone that last.json does not own stays so, and the firewall config, staged and committed, never changes |
| FirewallHistory.OthersUntouched | cmd/stunmesh-agent/fetch_apply.go:233-318 | Firewall sections other than the zone and its three forwardings are never altered, staged or committed, over the same histories |
| FirewallRuns.OwnedIffManaged | internal/last/last.go:116-141 | The invariant says: the zone is owned, and the zone and its three forwardings exist, exactly while some interface is managed; the members are the sorted interface names; the zone's network list is a duplicate-free permutation of them |
| FirewallRuns.RetryAfterCommitIff | cmd/stunmesh-agent/fetch_apply.go:255-283 | A retry over the old last.json after the firewall commit of the same bundle works if and only if that commit neither created nor removed the zone (or the zone is an operator's) |
| FirewallRuns.CreatedUnrecorded | cmd/stunmesh-agent/fetch_apply.go:272-283 | After an unrecorded creation the retry takes the zone for an operator's and orphans it |
| FirewallRuns.TornDownUnrecorded | cmd/stunmesh-agent/fetch_apply.go:255-267 | After an unrecorded removal every retry is refused at the first plain delete |
| FirewallRuns.MembersEdited | cmd/stunmesh-agent/fetch_apply.go:285-308 | Removing and re-adding members gives the wanted list, each once, from any duplicate-free list in between |
| FirewallRuns.EntriesBetween | cmd/stunmesh-agent/fetch_diff.go:149-222 | The diff lies between what is managed and what is wanted, in name order |
| Firewall.KeptIsWanted | cmd/stunmesh-agent/fetch_apply.go:310-317 | The members to record are the wanted interfaces in sorted order |
| Firewall.ManageCases | cmd/stunmesh-agent/fetch_apply.go:233-318 | With no interface left the zone goes exactly if it is owned, and nothing is remembered; with nobody joining or leaving nothing is edited and the record stays; next to an operator's zone nothing is edited and nothing remembered; otherwise something is edited and the zone is owned from then on; and nothing happens at all unless some interface changes |
| Firewall.ChangedPlans | cmd/stunmesh-agent/fetch_apply.go:85-131 | The firewall counts as changed exactly if something of it was staged |
| Firewall.CreateZone | internal/uci/firewall.go:27-88 | From a store without them, the create batches are accepted and add exactly the zone and its three forwardings |
| Firewall.Teardown | internal/uci/firewall.go:97-127 | Deleting the forwardings and the zone is accepted and gives the store before the creation back |
| Firewall.AdditionsList | cmd/stunmesh-agent/fetch_apply.go:296-308 | Adding members by removing each first lists nobody twice |
| CanonicalForm.Parse | internal/bundle/bundle.go:311-343 | Every valid bundle is returned unchanged from its marshalled bytes and from any other printing of its encoding; a printed JSON document gives a valid bundle only if it is that bundle's encoding, so that an unknown key at any level, a null or a number spelled otherwise is refused; whatever passes is a JSON value without unpaired surrogates, followed, after white space, by nothing or by a closing bracket or brace |
| CanonicalForm.ParsedIsEncoding | internal/bundle/bundle.go:311-343 | The converse of the wire round trip: for every document, printed in any style, for either word size, if it parses to a valid bundle it is the encoding of that bundle, key by key and digit by digit |
| CanonicalForm.TrailingIff | internal/bundle/bundle.go:338-340 | A valid bundle followed by anything: an unpaired escape is refused; otherwise, after white space, the end, a closing bracket or a closing brace passes, whatever comes after it, and anything else is refused as trailing data |
| Strict.BundleBack | internal/bundle/bundle.go:326-336 | The one JSON value without nulls and irregular numbers that decodes to a given valid bundle is the bundle's encoding |
| Strict.NumberBack | internal/bundle/bundle.go:379-391 | A number that passes the check is the decimal spelling of its value |
| CanonicalForm.WireRoundTrip | internal/bundle/bundle.go:95-343 | Every valid bundle is returned unchanged, timestamp included, by Parse of its marshalled bytes, with 64-bit and with 32-bit int |
| CanonicalForm.Canonical | internal/bundle/bundle.go:672-700 | The method's decode, rounding to float64, deletion of the timestamp, re-encoding with the shortest digits, trimming and escape rewriting give the canonical printing of the bundle without its timestamp |
| Doubles.SpelledExact | internal/bundle/bundle.go:672-700 | Up to 2^53 an integer passes through the float64 and its shortest spelling unchanged |
| Doubles.SpelledReads | internal/bundle/bundle.go:672-700 | The shortest spelling of any rounded integer reads back as the same float64, so different float64 are spelled differently |
| Doubles.RoundsToNearest | internal/bundle/bundle.go:672-700 | From 2^53 on the float64 of an integer is the nearest multiple of the unit that leaves 53 bits, ties to even |
| Doubles.FewestDigits | internal/bundle/bundle.go:672-700 | No decimal that reads back as the same float64 has more zeros at its end than the printed one |
| Doubles.RoundMonotone | internal/bundle/bundle.go:672-700 | Rounding to a float64 keeps the order of integers |
| CanonicalForm.Equal | internal/bundle/bundle.go:790-800 | Byte equality of the two canonical forms |
| CanonicalForm.EqualIsSameContent | internal/bundle/bundle.go:660-800 | On validated interfaces Equal is true exactly when every field except the timestamp agrees, absent and explicitly empty kept apart at every level |
| CanonicalForm.VersionsPrintAlikeIff | internal/bundle/bundle.go:672-700 | Without validation: bundles that differ in their version have the same canonical form if and only if the two versions round to the same float64 |
| CanonicalForm.CleanIsRawOk | internal/bundle/bundle.go:350-391 | Trees of marshalled bundles pass the null and number check at every depth |
| Marshal.BundleDecodes | internal/bundle/bundle.go:95-343 | Decoding the tree of any bundle whose numbers fit the word size returns the bundle, presence of every field included |
| Marshal.EncodingDecodesIff | internal/bundle/bundle.go:326-336 | The encoding of a bundle decodes to it if and only if every number fits its Go type: 32 or 64 bits for an int, 64 bits for the others |
| HtmlSafe.WireIsSafe | internal/bundle/bundle.go:95-309 | The marshalled bytes of a bundle hold no raw <, > or &, whatever its texts hold |
| JsonRoundTrip.DocumentRoundTrip | internal/bundle/bundle.go:311-343 | Parsing the printing of any well-formed tree, in each of the three styles, returns the tree and nothing more (RFC 8259) |
| JsonRoundTrip.PrintInjective | internal/bundle/bundle.go:672-700 | Printing is injective on well-formed trees |
| JsonRoundTrip.TextRoundTrip | internal/bundle/bundle.go:714-786 | Every string is read back from its encoded pieces, in each style |
| JsonRoundTrip.ControlPrinted | internal/bundle/bundle.go:702-718 | In every style a control character is printed by its short escape, if it has one, and else by its number |
| JsonRoundTrip.ShortReads | internal/bundle/bundle.go:311-343 | Every short escape is read as its character, and no other letter after a backslash is one |
| JsonRoundTrip.PairReads | internal/bundle/bundle.go:393-423 | A high-surrogate escape and the low one after it read as the one character they stand for |
| Escapes.PrintNormalizes | internal/bundle/bundle.go:702-786 | For every document, the parity rewrite of the encoder's output equals the encoder that writes U+2028 and U+2029 raw and DEL as an escape |
| Escapes.TextNormalizes | internal/bundle/bundle.go:702-786 | The same for every string: exactly the genuine escapes are converted, never literal backslash text |
| Escapes.UnescapeLineSeparators | internal/bundle/bundle.go:759-786 | The backslash-parity loop computes the rewrite that reads the text escape by escape from the left |
| Escapes.EscapeRawDel | internal/bundle/bundle.go:729-742 | Every raw DEL byte becomes its escape, everything else stays |
| Escapes.NormalizeEscapes | internal/bundle/bundle.go:702-718 | Of every JSON document in the encoder's spelling it makes the same document in the canonical spelling |
| Escapes.IsRealEscape | internal/bundle/bundle.go:431-437 | True exactly if an even number of backslashes stands directly before |
| Surrogates.DocumentScan | internal/bundle/bundle.go:393-423 | On every well-formed JSON text the scan fails exactly when some string, key or value, has a high-surrogate escape token not directly followed by a low-surrogate one (RFC 8259 section 7) |
| Surrogates.CheckSurrogates | internal/bundle/bundle.go:409-423 | The parity loop computes the scan that reads escape tokens from the left |
| Surrogates.FollowedByLowSurrogate | internal/bundle/bundle.go:445-451 | True exactly if a low-surrogate escape follows |
| Surrogates.ParseHex4 | internal/bundle/bundle.go:455-474 | Accepts exactly four hex digits, of either case, and returns their value |
| Surrogates.HexMeans | internal/bundle/bundle.go:455-474 | The digits accepted are exactly those of the two alphabets 0 to 9, a to f and 0 to 9, A to F, and the value is that of the hexadecimal number |
| Bundle.Validate | internal/bundle/bundle.go:554-658 | Accepts exactly the valid bundles, told condition by condition; a bad header is reported by its first problem in the source's order |
| Bundle.ValidateInterface | internal/bundle/bundle.go:587-655 | Accepts exactly the valid interfaces |
| Bundle.ValidateTable | internal/bundle/bundle.go:520-548 | Accepts exactly non-empty table names without white space and without a leading zero in a number |
| Bundle.ValidatePeers | internal/bundle/bundle.go:624-640 | Accepts exactly if every peer is valid |
| Bundle.ValidateRoutes | internal/bundle/bundle.go:642-655 | Accepts exactly if every route is valid |
| BuildBundle.Build | cmd/stunmesh-provd/build_bundle.go:106-152 | A wg document is built exactly if it is not null, the assembled document spells out a bundle, and that bundle is valid and not too large; what is built is read back unchanged by every agent, on 32 bits as on 64 |
| BuildBundle.EncodingIsBuilt | cmd/stunmesh-provd/build_bundle.go:106-152 | From the encoding of valid interfaces, what is built is the bundle with version 1, the node's namespace and id, the second, these interfaces and the text, exactly if its sealed and encoded form fits 56 KiB |
| BuildBundle.RefusedIffTooLarge | cmd/stunmesh-provd/build_bundle.go:26-41 | A node with valid files is refused exactly when its DHT value would exceed 56 KiB |
| BuildBundle.TrimJsonWhitespace | cmd/stunmesh-provd/build_bundle.go:168-181 | The text without the white space around it, and no more taken off |
| SizeBound.FitsIff | cmd/stunmesh-provd/build_bundle.go:26-41 | For every limit, padded base64 of n + 40 bytes fits if and only if n is at most 3 * (limit / 4) - 40 |
| SizeBound.EncodedLength | cmd/stunmesh-provd/build_bundle.go:30-38 | Four symbols for every three bytes begun (RFC 4648 section 4) |
| SizeBound.EncodeDecode | internal/dhtproxy/dhtproxy.go:353-374 | Standard base64 decoding, which ignores unused bits and line breaks, undoes the encoding, wherever line breaks were put in |
| SizeBound.DecodesIff | internal/dhtproxy/dhtproxy.go:353-374 | A text decodes if and only if, without line breaks, it is whole groups of four symbols with at most two of padding at the end; and encoding what it decodes to gives it back up to the unused bits before the padding |
| SizeBound.BreakIgnored | internal/dhtproxy/dhtproxy.go:353-374 | A line break in a base64 text makes no difference wherever it stands |
| DhtProxy.LineDecodes | internal/dhtproxy/dhtproxy.go:346-374 | A line whose data member holds the base64 of a value decodes to that value, whatever else the object holds and however the JSON is spelled |
| DhtProxy.LineRead | internal/dhtproxy/dhtproxy.go:346-374 | Any line: without JSON it has no value; a document has the value of its member data if that is a text in base64, and no value otherwise |
| PutGet.PutThenGet | internal/dhtproxy/dhtproxy.go:279-444 | A response with one line as posted for each value gives the values back in order up to the cap, the others counted as dropped and none skipped |
| Schedule.WaitBounds | cmd/stunmesh-provd/republish_loop.go:107-174 | Every wait is positive and at most the fallback interval, ends no later than any readable namespace is due, and exactly when one is due or after the fallback |
| Schedule.PublishesSpaced | cmd/stunmesh-provd/republish_loop.go:148-155 | For a namespace readable every round, consecutive publishes are at least the shortest interval in force apart |
| Schedule.NextPublishSpaced | cmd/stunmesh-provd/republish_loop.go:148-155 | The next publish comes in the first round that is at least the interval in force at the last one later, and not before |
| Schedule.RepairedIsPublished | cmd/stunmesh-provd/republish_loop.go:120-128 | A namespace that cannot be read in one round and can be from then on is published in the first round that starts five minutes later or more, and not before |
| Schedule.PublishedWhenDue | cmd/stunmesh-provd/republish_loop.go:148-155 | A readable namespace is published in the first round at or after its due time |
| Schedule.NoDrift | cmd/stunmesh-provd/republish_loop.go:148-174 | With exact sleep and no publish time, publishes of a namespace with a constant interval fall exactly at start + k * interval, none missed, whatever the other namespaces do |
| RepublishLoop.Controller.RunRound | cmd/stunmesh-provd/republish_loop.go:102-174 | One round: publishes the namespaces that are due, sets the new due times and the wait; of the cache it drops exactly what belongs to namespaces no longer in the tree; and it reports that there is nothing to publish exactly if there is no namespace, or some readable one is without nodes and none has any or cannot list them |
| RepublishLoop.Controller.Run | cmd/stunmesh-provd/republish_loop.go:99-176 | Round after round, the loop's cache, due times and puts are those of the rounds in order |
| RepublishLoop.Controller.PublishNodeCached | cmd/stunmesh-provd/republish_loop.go:258-287 | With identity key and content unchanged, told field by field, exactly the cached value is put again and nothing is sealed, else it is sealed anew; caches only after a put that reached every proxy; a failed preparation changes nothing |
| RepublishLoop.Controller.PublishNamespaceCached | cmd/stunmesh-provd/republish_loop.go:220-239 | Every node of the namespace in order; nothing without a node list or a backend |
| RepublishLoop.Controller.PrepareNode | cmd/stunmesh-provd/publish_cmd.go:295-331 | Prepared is the bundle with version 1, the node's namespace and id, the second of the clock and the node's interfaces and text, exactly if every interface is valid, the second is in range and the marshalled, sealed and encoded bundle fits 57344 bytes; every agent reads it back unchanged |
| RepublishLoop.Controller.PutSealed | cmd/stunmesh-provd/publish_cmd.go:376-383 | Records the put for this node only; a success only if every proxy took it |
| RepublishLoop.Controller.PruneCache | cmd/stunmesh-provd/republish_loop.go:202-212 | Drops exactly the entries of namespaces no longer in the tree and leaves the others as they are |
| RepublishLoop.PassIs | cmd/stunmesh-provd/republish_loop.go:107-171 | The round's single pass gives the due times, the wait and the diagnostic of the whole tree |
| Rounds.TurnIsScheduled | cmd/stunmesh-provd/republish_loop.go:148-154 | The namespaces that a round publishes are those that the schedule theorems speak of |
| Rounds.RoundKeepsCache | cmd/stunmesh-provd/republish_loop.go:258-287 | Over every round, with edits, additions, removals and failed preparations or puts, every cached value stays a sealing of its cached bundle for its identity key |
| Rounds.RoundPrunes | cmd/stunmesh-provd/republish_loop.go:163-163 | After a round the cache holds entries of namespaces in the tree only, and every such entry that was there before |
| Rounds.RecreatedOpens | cmd/stunmesh-provd/republish_loop.go:202-212 | After a round without the namespace, whatever the cache held before, what is next put for one of its nodes opens under the controller key then in force |
| Rounds.RunKeepsCache | cmd/stunmesh-provd/republish_loop.go:99-176 | The same over every run of rounds in which the controller key of a namespace changes only while it is out of the tree |
| Books.PutOpens | cmd/stunmesh-provd/republish_loop.go:263-286 | What a round puts for a node, cached or fresh, opens for the node's current identity key to a bundle Equal to the one built this round |
| Books.RotationBreaksCache | cmd/stunmesh-provd/republish_loop.go:263-273 | A cached value re-put after the controller key was replaced opens if and only if the replacement is the key it was sealed with |
| Rounds.RoundFresh | cmd/stunmesh-provd/republish_loop.go:99-176 | A round, whatever puts fail, keeps track of the newest value of every node for every pair of identity and controller key, if what it seals anew gets a later second than everything put for that node before; with all puts delivered the newest is what was sent last |
| Rounds.RunFresh | cmd/stunmesh-provd/republish_loop.go:99-176 | The same over every run of rounds in which the controller key of a namespace changes only while it is out of the tree |
| Box.OpensIff | internal/crypto/crypto.go:110-146 | A box opens for exactly the key pair it was sealed for |
| Select.DecryptAndSelect | cmd/stunmesh-agent/fetch_select.go:73-101 | Selects the usable value with the largest timestamp, the first on a tie, nothing only if no value is usable, and counts every other verdict |
| Select.Check | cmd/stunmesh-agent/fetch_select.go:78-94 | Every valid bundle that the controller sealed for the asker is judged usable, as itself; otherwise the verdict is undecrypted exactly if the value is not sealed for the two keys, unparsed exactly if its text does not parse, and rejected exactly if what it parses to is not valid for the asker |
| Select.CountsAddUp | cmd/stunmesh-agent/fetch_select.go:26-58 | Undecrypted, unparsed, rejected and usable values add up to all values |
| Select.BestUnique | cmd/stunmesh-agent/fetch_select.go:96-98 | The selected position is unique |
| Freshness.EndToEnd | cmd/stunmesh-agent/fetch_select.go:73-101 | With all puts delivered and a later second whenever a node is sealed anew, after any rounds over any edits, the controller key of a namespace changing only while it is out of the tree: if the latest put of a node was for the asker's identity key and the controller key that it expects, then what the asker selects from all values ever put for the node, in any order and mixed with junk, has the content of the files last published |
| Freshness.EndToEndIff | cmd/stunmesh-agent/fetch_select.go:73-101 | Whatever the deliveries: what the asker selects has the content put last if and only if the newest value that was sealed for it and reached some proxy has that content |
| Freshness.StaleAfterUndo | cmd/stunmesh-provd/republish_loop.go:263-286 | The failing input: content is cached, an edit reaches only some proxies and is not cached, the edit is undone; the older value is put again and the agent goes on selecting the edit |
| Freshness.NewestSelectedIff | cmd/stunmesh-agent/fetch_select.go:73-101 | The newest bundle sealed for the asker is selected, as itself, if and only if a value of it is received |
| ProxyFreshness.CappedSelectionIff | internal/dhtproxy/dhtproxy.go:279-374 | Through a proxy: the newest bundle for the asker is selected if and only if a value of it is among the first of the response up to the cap |
| ProxyFreshness.EndToEndThroughProxy | internal/dhtproxy/dhtproxy.go:279-374 | With all puts delivered, the content of the files last published is selected whenever the value put last is among the first up to the cap |
| Freshness.PublishedIsSelected | cmd/stunmesh-agent/fetch_select.go:73-101 | After a round that publishes the node with some files, its agent selects the content of these files |
| Freshness.NodeServed | cmd/stunmesh-provd/publish_cmd.go:295-331 | From directory to agent, with the bundle written out: after any rounds, in a round in which a readable namespace is due, every node in it with valid interfaces, whose bundle fits, is served; the agent with its identity key selects version 1, this namespace and node, these interfaces and this text |
| Freshness.LaterSecondsSuffice | cmd/stunmesh-provd/republish_loop.go:99-176 | A later second for every round is enough for the condition on resealing |
| Freshness.SelectedIsLatest | cmd/stunmesh-agent/fetch_select.go:73-101 | The same for one state of the books: if the latest put was for the asker's two keys, the selection has the content of the bundle built for it |
| Freshness.RoundSends | cmd/stunmesh-provd/republish_loop.go:258-287 | The latest put of a node after a round is for the files and the controller key it has in that round if they make a bundle and its turn has come, and unchanged otherwise |
| Freshness.RunSends | cmd/stunmesh-provd/republish_loop.go:99-176 | Over rounds: the latest put is for the files of the last round that published the node |
| LineReader.ReadLine | internal/dhtproxy/dhtproxy.go:313-344 | Each call returns the next line of plain splitting and whether its content is longer than the limit, for every buffer size, while the working buffer never exceeds limit + 1 + buffer size |
| Lines.LineIsReadAs | internal/dhtproxy/dhtproxy.go:331-344 | What a line is: too long exactly if what stands before its terminator, with or without a carriage return, is longer than the limit; otherwise that, without the white space at either end |
| LineReader.Reader.ReadSlice | internal/dhtproxy/dhtproxy.go:313-329 | bufio.Reader.ReadSlice: up to the newline, or a full buffer, or what is left at the end, losing no byte |
| Lines.SplitJoin | internal/dhtproxy/dhtproxy.go:304-312 | Splitting loses nothing and no piece holds a newline |
| Lines.TrimmedSpace | internal/dhtproxy/dhtproxy.go:339-344 | What trimming leaves has no white space at its ends, and only white space was taken off |
| Lines.SpaceBytesIff | internal/dhtproxy/dhtproxy.go:339-344 | The byte sequences taken for white space are the UTF-8 encodings of exactly the Unicode white space characters |
| Lines.LinesAfterFirst | internal/dhtproxy/dhtproxy.go:304-344 | Reading on after a line gives the lines of the remaining body |
| DhtProxy.ParseValues | internal/dhtproxy/dhtproxy.go:279-302 | An error-free body gives the plain reading of its lines, whatever the buffer size; a broken one gives nothing |
| DhtProxy.Accounting | internal/dhtproxy/dhtproxy.go:346-374 | Values, dropped and skipped add up to the lines that are oversized or not blank; nothing is dropped before the cap is reached |
| DhtProxy.CountLine | internal/dhtproxy/dhtproxy.go:291-296 | One more line: an oversized one is skipped, a blank one ignored, a valid value kept up to the cap and dropped beyond it, anything else skipped |
| DhtProxy.Get | internal/dhtproxy/dhtproxy.go:207-270 | The first proxy with values decides; otherwise the last empty answer, with the failures if there were any; an error if no proxy answered |
| DhtProxy.GetOutcome | internal/dhtproxy/dhtproxy.go:188-270 | Values if some proxy has them; empty without an error exactly if every proxy answered and none has values; an error if all fail |
| DhtProxy.StatusOutcome | internal/dhtproxy/dhtproxy.go:207-270 | Answers that are all 404 give an empty result; an error for lack of answers comes exactly if every proxy is unreachable, has another status or breaks off its body |
| DhtProxy.PutAll | internal/dhtproxy/dhtproxy.go:403-444 | Success exactly if every proxy accepts, partial if some do, failure if none does |
| Text.SortedKeys | internal/uci/interface.go:154-161 | Every key once, in increasing order |
| Text.LessIff | internal/uci/interface.go:154-161 | The order is byte by byte, and a beginning of a string comes before the string |

## Left out

- AgentApply.Agent.DeleteIfPresent: `uci get` fails exactly when the path is absent; a get that fails for another reason skips a deletion in the code and is not modelled.
- NetworkRuns.NeverRefused: `set` with an empty value is accepted and stored; libuci takes it for a delete, which it may refuse. Validated content can hold such a value (a free option, an empty peer name, the host of ":51820").
- Firewall.AdditionsList: a list option stays when its last value is removed; uci removes the option, which no later command of the agent can tell apart.
- CanonicalForm.Parse: duplicate keys and keys that differ in case only, which encoding/json accepts, are outside the tree model (objects are maps), and so is its nesting limit of 10000.
- CanonicalForm.Canonical: numbers of 10^21 and more, which are printed with an exponent, are beyond the 64 bits of every integer of a bundle.
- CanonicalForm.WireRoundTrip: invalid UTF-8 inside strings, which Go replaces, cannot occur in a bundle of text.
- DhtProxy.LineValue: as for Parse, duplicate keys and keys that differ in case only are outside the tree model.
- BuildBundle.Build: YAML conversion and the coercion of fwmark and routing_table before assembly.
- The text of uci command arguments, exit codes and error messages; commands are data here.
- Real files, modes, atomic renames and locks: last.json and the stunmesh file are cells written whole or not at all.
- HTTP, URLs, timeouts and concurrency of the proxy client's puts: each proxy's outcome is an input.
- Key generation, key parsing, curve25519, Poly1305 and SHA-1 of the DHT key: symbolic or not part of this model.
- The embedded stunmesh-go app, the daemon's ticks, signals, flags, `init`, `node add` and `keygen`.

# Verified model of the OpenVPN control plane

This Dafny project models the state machines behind ovpn-admin, a control plane for OpenVPN: the per-client firewall,
the management console, client-config files, the shared route list, admin sessions and second factors, the server
configuration, traffic accounting, and the certificate index. Each module states the part of the program that it models
as methods, functions or a transition system, and proves what that part promises over every input, run or interleaving.

`dafny verify dfyconfig.toml` checks everything. All files stand alone; there are no libraries.

| module | what it is |
|---|---|
| `Ipv4`, `RoutePolicy` | masks, prefixes and reserved addresses (prefix notation of section 3.1 of RFC 4632); the set of destinations that stored routes allow |
| `FirewallChain`, `Firewall`, `FirewallEvents`, `EventQueue` | the iptables chain with first-match meaning and commands that fail; the session bookkeeping and its reconciler; what each event opens and closes; the event queue protocol |
| `ConsoleOwner`, `ConsoleReplies` | the owner of a management connection and its callers; whose reply a caller gets |
| `PendingAuth`, `AuthReplies`, `ClientAccess` | the table of pending authentication blocks; what the console reads in the replies to them; who may connect after each certificate operation |
| `CcdMerge`, `CcdFile`, `CcdText` | merging, rendering and parsing client-config files, as lines and as texts |
| `RouteLimits` | which domain names and exclusions are accepted |
| `CcdRoundTrip`, `CcdHistory`, `CcdDomains`, `CcdIpRoutes` | what survives saves, loads, re-renders and refreshes: destinations, choices, exclusions, domains, IP routes |
| `CcdComments`, `CcdReloads` | what a load makes of merged comments, and when what it hands back is accepted again |
| `CcdPolicy`, `CcdDirectives` | what a client file makes the server push, as OpenVPN reads its text, against what the firewall allows |
| `CommonRoutes` | the store of common routes with its commit path and its DNS refresh |
| `SessionTokens`, `OneTimeCodes` | session epochs and the logout blacklist; time-step codes (section 5.2 of RFC 6238) and backup codes |
| `ServerConfig`, `ServerDirectives` | change categories, the template's dependencies and the commit protocol; which setting stands behind which directive |
| `Traffic` | monthly totals from per-session counters |
| `IndexTxt`, `PkiStore` | the certificate index parser and printer, and the operations that rewrite it |
| `CommandLine`, `Text`, `Wrappers` | how OpenVPN takes a line apart; shared text functions and result types |

Conventions. An external command, file write, resolver, database or crypto call has a nondeterministic outcome; hashing,
encryption and message authentication are parameters or injective. An address text is what the Go parser makes of it: a
dotted quad, an IPv4-mapped spelling, an IPv6 address, or no address. Lengths count characters where the program counts
bytes. Files that the program replaces by renaming keep their old content when a write fails; the certificate index is
written in place, so a failed write leaves anything.

## What the proofs found

- **Firewall.** A delete that reports failure leaves its destination tracked. When the rule is gone all the same, or was
  gone before, the destination is tracked without a rule, and that never changes: no later event inserts it, deletes it or
  forgets its session (`PhantomForever`). Ordinary failures reach such a state: the end of a session keeps the stuck deletes
  of earlier diffs, and the next diff repeats one whose rule the end has removed (`PhantomReached`). Over a whole run,
  whatever failed, bookkeeping and rules are equal at the end exactly when every refused delete of the run left a live rule
  (`ExactRunExactly`, and `EventHandlerLoop` for the controller); a reconcile installs the policy exactly when the tracked
  destinations of the policy were live (`ReconcileInstallsPolicy`) and from equal bookkeeping enforces the stored routes
  (`ReconcileEnforces`).
- **Event queue.** Events of one common name share a slot, as do those of each global kind, and at rest every event was
  handled or a later one about the same was (`NothingIsForgotten`). That fails exactly for a common name equal to one of the
  two fixed keys, which existing clients may have: an event of a user called `__common__` takes the slot of a change of the
  common routes, which is then never handled (`NameHidesCommonChange`).
- **Chain start-up.** FORWARD leads into an incomplete chain at some point exactly when a jump is left after the one delete
  and the flush empties the chain (`ExposedExactly`); two old jumps, or one whose delete has no effect, suffice
  (`ExposedRun`).
- **Logout.** A logout whose blacklist write fails keeps the entry in memory only; repeating it reports success without
  writing, and a restart revives the session. `LogoutEndsSessionExactly` gives the exact condition, which also includes
  the blacklist cap; `RetriedLogoutRevives` and `CappedLogoutIsLost` are the two runs.
- **Login.** A session token holds whole seconds and nothing random, so a login repeats the token of another in the same
  second, and is dead from the start when that one was logged out (`NewSessionAcceptedExactly`, `SameSecondLoginIsDead`).
- **Console.** Replies are untagged. A command gets what the console owed when it was written, followed by its own answer, up
  to the first line that completes it (`RepliesAreDue`); so it gets its own answer in every continuation exactly when nothing
  was owed (`OwnExactlyWhenNothingOwed`). Two things may be owed. One is the late answer to a command that timed out
  (`LateReplyGoesAstray`). The other needs no timeout: the owner's own `client-auth-nt` and `client-deny` commands are
  acknowledged like any other, and such an acknowledgement completes a kill that was accepted before it was read, whatever
  the console then answers to the kill (`AckGoesAstray`). Without timeouts it suffices that a command is accepted with no
  acknowledgement unread, which the owner could count (`RepliesAreOwnWithoutTimeouts`, `OwnExactlyWhenAcksRead`).
- **Client-config files.** A user's exclusion is lost by a save exactly when full tunnel is not in effect at that save or the
  global list holds the same destination (`ExclusionSurvivesExactly`). A user's IP route is lost as such exactly when a
  domain route before it resolves to its destination (`IpRouteSurvivesExactly`), and then a refresh with another answer
  removes the destination (`ShadowedRouteIsLost`). Re-renders are all accepted while descriptions hold no comma and no two
  IP routes share a destination (`RerendersGoThrough`); two that share one may outgrow the limit on descriptions, and then
  every re-render is refused (`JoinedDescriptionsRefused`).
- **Pushed routes.** What a saved file tells the client to route is what the firewall, reading the same text, allows it
  (`ClientRoutesAreAllowed`). With an IPv6 answer for one of the user's domains the two part (`Ipv6AnswerIsNotPushed`).
- **Server configuration.** The three copies disagree exactly when both the write of server.conf and the rollback of the JSON
  fail, and then the configuration reported as failed takes effect at the next restart (`FailedSaveComesBack`).
- **One-time codes.** A spent code is accepted again exactly when some code was accepted since at a time more than two
  steps away, which drops the spent step from the list (`ReplayedExactly`); a clock that falls back by two steps does that
  (`FallingClockReplays`), one that never falls back so far does not (`EachStepOnce`).
- **Certificate index.** A rewrite drops exactly the entries whose flag is not one of the exact letters V, R and E, although
  the parser takes any flag that starts with one (`RewriteKeepsExact`). Rotate and delete act on the first entry of a name.

## Model

| member | source | states |
|---|---|---|
| Ipv4.MaskSizeExact | server_config.go:392-399 | a mask is contiguous with k ones exactly when it is 2^32 - 2^(32-k) |
| Ipv4.ValidateExact | server_config.go:375-404 | a route is valid exactly when its mask is 2^32 - 2^(32-k) and its address, dotted or IPv4-mapped, is a multiple of 2^(32-k) |
| Ipv4.ContainsIsInterval | firewall.go:64-79 | the addresses of a prefix are an aligned interval of 2^(32-k) inside the address space |
| Ipv4.CidrDenotesRoute | firewall.go:64-79 | the prefix computed for a route holds exactly the addresses that the route covers |
| Ipv4.CidrExtensional | firewall.go:64-79 | two canonical prefixes are equal exactly when they hold the same addresses |
| Ipv4.SameCidrIffSameAddresses | firewall.go:424-467 | two routes get one prefix exactly when they cover the same addresses, however they are spelled |
| Ipv4.HostRoute | firewall.go:84-97 | a resolved IPv4 address and the same address with a host mask get the same prefix |
| Ipv4.StaticAddressRange | ccd.go:719-746 | for every prefix length a static address is accepted exactly when it lies strictly between network+1 and broadcast, so /31 and /32 accept none |
| RoutePolicy.ExpandCommonRoutes | common_routes.go:694-717 | the loop over stored routes yields the concatenation of their expansions, in order |
| RoutePolicy.ComputeAllowedCidrs | firewall.go:424-467 | the loops compute the union of the prefixes of own and common routes |
| RoutePolicy.AllowedIsUnionOfRoutes | firewall.go:424-467 | an address is in some allowed prefix exactly when a stored own or common route covers it: nothing lost, nothing added |
| FirewallChain.RemoveKeepsSound | firewall.go:305-320 | removing the first match of an ACCEPT keeps the chain stateful-return, distinct ACCEPTs, DROP, and removes just that rule |
| FirewallChain.InsertKeepsSound | firewall.go:397-411 | inserting a missing ACCEPT at position 2 keeps that shape and adds just that rule |
| FirewallChain.NewConnectionVerdict | firewall.go:196-240 | under first-match evaluation a new packet from the VPN is accepted exactly when a live ACCEPT matches it, and dropped otherwise |
| FirewallChain.InitChain | firewall.go:176-223 | the start-up passes through exactly the tables of its command outcomes, where a delete or flush that reports failure may have had its effect, and reports success as specified |
| FirewallChain.ExposedExactly | firewall.go:182-202 | FORWARD leads to an incomplete chain at some point exactly when the chain was emptied while a jump was left |
| FirewallChain.StartUpResult | firewall.go:176-223 | with no jump left, success ends with one jump into the fresh chain and failure with none |
| FirewallChain.UsualStartUpIsSafe | firewall.go:176-223 | with at most one old jump, which the delete removes, no packet meets an incomplete chain whatever else fails |
| FirewallChain.ExposedRun | firewall.go:182-202 | two runs that end well and in which packets meet an empty chain: two old jumps, and one whose delete had no effect |
| Firewall.Controller.UninstallRulesFor | firewall.go:305-320 | just the rules that the deletes removed are gone, each was live, and a destination is returned as remaining when its delete reported failure; other sessions are untouched |
| Firewall.Controller.ApplyDiff | firewall.go:333-420 | the new bookkeeping and rules are those of the command outcomes: a refused delete stays tracked and pending, a failed insert is not tracked, stuck deletes are repeated, and without a difference no command runs |
| Firewall.Controller.UninstallSession | firewall.go:585-600 | a session is forgotten exactly when no delete is refused; otherwise it tracks the refused ones and keeps the stuck deletes of earlier diffs |
| Firewall.Controller.CloseSession | firewall.go:585-600 | the end of one session is one more move of the run and leaves the other sessions untouched |
| Firewall.Controller.InstallSessionRules | firewall.go:283-297 | registering or reusing a session converges only that session |
| Firewall.Controller.ReconcileLocked | firewall.go:650-715 | with a known snapshot the three passes relate old and new state as one reconcile; with an unknown one nothing changes |
| Firewall.Controller.ReconcileTwice | firewall.go:650-715 | after a reconcile without a failed command a second one runs no command and changes nothing |
| Firewall.Controller.HandleEvent | firewall.go:561-640 | each event changes only the sessions it concerns, keeps the chain complete and every live ACCEPT tracked exactly once |
| Firewall.Controller.EventHandlerLoop | firewall.go:542-557 | those invariants hold over every run of batches of events handled in any order with any command failing; the state is the outcome of its moves, a tracked destination without a rule stays so, without a failed command exact bookkeeping stays exact, and over all moves it is exact exactly when every refused delete left a live rule |
| Firewall.ExactRunExactly | firewall.go:333-420 | over every run from exact bookkeeping, with any failures, bookkeeping equals the live rules exactly when every refused delete left a live rule |
| Firewall.ConvergeExactly | firewall.go:333-420 | after a diff a session tracks exactly its live rules just when what it keeps was live and every refused delete left a live rule |
| Firewall.CloseExactly | firewall.go:585-600 | the same for the end of a session |
| Firewall.EventKeepsExact | firewall.go:561-640 | no event without a failed command makes bookkeeping and rules differ |
| Firewall.PhantomReached | firewall.go:352-370 | five operations from an empty book, in which no refused delete removed anything, end with a destination allowed, tracked and not live, and nothing left for a reconcile to do |
| Firewall.PhantomForever | firewall.go:333-420 | over every further run a tracked destination without a rule is neither inserted nor deleted nor forgotten |
| Firewall.ReconcileInstallsPolicy | firewall.go:650-715 | without failures a reconcile makes the live rules of a session equal its policy exactly when the tracked destinations of the policy were live before |
| Firewall.ReconcileFromExactBookkeeping | firewall.go:650-715 | from a state whose tracked and live rules agree, a reconcile without failures leaves the chain equal to the policy of the connected sessions |
| Firewall.ReconcileEnforces | firewall.go:650-715 | from exact bookkeeping one reconcile without failures accepts a new packet exactly when a connected session of its source address has a stored route to its destination |
| Firewall.EnforcementIsExact | firewall.go:650-715 | in that state a new packet is accepted exactly when a connected session of its source address has a stored route to its destination |
| Firewall.AcceptedOnlyIfTracked | firewall.go:397-420 | in every reachable state a new packet is accepted only for a destination tracked for its source address |
| FirewallEvents.DisconnectEndsExactly | firewall.go:581-601 | a disconnect ends the sessions of its common name at its tunnel address, all of them without one: without a failed command exactly those are forgotten, and all others keep entry and rules whatever fails |
| FirewallEvents.OthersUntouched | firewall.go:561-640 | whatever fails, an event leaves entry and rules of the sessions that it does not concern alone, and a reconcile without a snapshot leaves all alone |
| FirewallEvents.EventOpensExactly | firewall.go:561-715 | from exact bookkeeping and without a failed command, a session reaches after an event the stored routes of its name and the common ones where the event concerns it, nothing where it ends it, and what it reached before otherwise |
| FirewallEvents.VerdictIsLetsThrough | firewall.go:196-240 | a new packet is accepted exactly when the rules of some session on its source address cover its destination |
| FirewallEvents.LiveAreExpressible | firewall.go:397-411 | in every run no session without an IPv4 tunnel address has a rule, and no rule has an IPv6 destination |
| EventQueue.StepKeepsInv | firewall.go:521-557 | every step of pushers and handler keeps: pending events imply a token, a pusher about to send or a handler about to swap, and the latest event of each key is pending, taken or handled |
| EventQueue.QuiescentMeansHandled | firewall.go:521-557 | under every interleaving, once everybody rests, nothing is pending and the last event of each key was handled |
| EventQueue.HandlerNeverStuck | firewall.go:542-557 | while something is pending and no pusher is mid-way the handler has a step |
| EventQueue.PusherNeverStuck | firewall.go:535-538 | a pusher that stored its event can always send |
| EventQueue.SlotIsSubject | firewall.go:521-534 | two events share a slot exactly when they concern one common name or are of one global kind, unless a common name equals a fixed key |
| EventQueue.NothingIsForgotten | firewall.go:521-557 | with such names excluded, at rest every event ever pushed was handled or a later one about the same was |
| EventQueue.NameHidesCommonChange | firewall.go:521-534 | the run in which the event of a user called __common__ takes the slot of a change of the common routes, which is never handled |
| ConsoleOwner.RunKeepsInv | mgmt.go:651-705 | over every interleaving at most one command is outstanding, accepted commands are resolved or outstanding, and results match their records |
| ConsoleOwner.OwnerNeverBlocks | mgmt.go:651-705 | the reply channel of the outstanding command is always empty, so an abandoned caller never blocks the owner |
| ConsoleOwner.ResultsAreFinal | mgmt_broker.go:54-71 | a delivered result is never replaced |
| ConsoleOwner.ResultsAreProper | mgmt.go:679-691 | a caller gets the result of its own command; a reply holds no notification line and ends at its first terminator |
| ConsoleOwner.ReadDeliversExactly | mgmt_broker.go:75-85 | in every reachable state a single-line command completes exactly at a line that begins with SUCCESS: or ERROR:, a longer one at the line that trims to END; other lines are collected and notifications are not |
| ConsoleOwner.AcceptedIsResolved | mgmt_broker.go:54-71 | every accepted command has its result, is the outstanding one, or the loop is gone and its waiting caller sees the closed channel |
| ConsoleReplies.RepliesAreDue | mgmt.go:547-705 | against a console that answers in order and acknowledges the owner's own commands too, a reply is exactly what was owed when the command was written, followed by its own answer, up to the first completing line |
| ConsoleReplies.RepliesAreOwn | mgmt.go:651-705 | a reply is exactly the console's answer to that caller's command whenever the command was written while nothing was owed, whatever timed out and whatever notifications were answered before or after |
| ConsoleReplies.RepliesAreOwnWithoutTimeouts | mgmt.go:547-705 | without command timeouts every reply is the caller's own if every command was accepted with no acknowledgement unread, and an idle owner is owed nothing exactly when its count of unread acknowledgements is zero |
| ConsoleReplies.OwnExactlyWhenAcksRead | mgmt.go:547-705 | in such a run a command accepted now gets its own answer in every continuation exactly when that count is zero |
| ConsoleReplies.OwedLinesGoAstray | mgmt.go:655-705 | from every reachable state that owes lines an accepted command has an in-order continuation in which its reply is not its own |
| ConsoleReplies.OwnExactlyWhenNothingOwed | mgmt.go:651-705 | a command accepted now gets its own answer in every continuation exactly when the console owes nothing |
| ConsoleReplies.LateReplyGoesAstray | mgmt.go:655-705 | a run with an orderly console in which a timeout hands the first command's answer to the second caller |
| ConsoleReplies.AckGoesAstray | mgmt.go:579-617 | a run with an orderly console and no timeout in which the acknowledgement of the owner's deny completes a caller's kill, whatever the answer to the kill is |
| PendingAuth.RepliesToNotifications | mgmt.go:547-617 | only a notification makes the handler write, and one command at most |
| PendingAuth.IsUserAuthorized | mgmt.go:381-404 | a name is authorised exactly when, trimmed, it is a valid existing name whose first index entry has flag V |
| PendingAuth.AuthLoop.RemoveInflight | mgmt.go:531-542 | removal compacts the slice and the renumbered index is exactly its inverse |
| PendingAuth.AuthLoop.OnAsync | mgmt.go:547-617 | one line moves the table and writes its reply with the denial reason as specified, the index stays the inverse and at most 256 blocks are open; a failed write leaves the table and writes nothing |
| PendingAuth.CompactedIndex | mgmt.go:531-542 | deleting a position and renumbering the rest keeps index and slice inverse |
| PendingAuth.SanitizedStaysQuoted | mgmt.go:600-606 | a denial reason cannot leave its quotes or its line |
| PendingAuth.StreamKeepsSound | mgmt.go:513-621 | for every line stream: distinct ids, at most 256 blocks, each block answered at most once and with its own ids |
| PendingAuth.BlocksAnsweredInOrder | mgmt.go:513-621 | streams of non-overlapping blocks within the caps are answered once each, in order, with their own ids, allowed exactly when the common name is authorised |
| AuthReplies.AnswerReads | mgmt.go:591-608 | the console reads client-auth-nt with the ids of the block exactly when the name is authorised, and otherwise client-deny with the ids and the reason as one quoted word |
| AuthReplies.OverloadReads | mgmt.go:563-567 | the overload reply is read as a denial of that block |
| AuthReplies.RepliesTellAnswers | mgmt.go:547-617 | over every stream the lines written tell the recorded answers one by one and in order |
| AuthReplies.BlocksToldInOrder | mgmt.go:513-621 | non-overlapping blocks within the caps get one line each, in order, with their own ids and verdict |
| AuthReplies.BlockIsTold | mgmt.go:579-608 | a block gets one line, with the verdict on the name in its last common_name line |
| AuthReplies.NamelessIsDenied | mgmt.go:382-385 | a block without a common_name line is denied for that reason |
| AuthReplies.HandleLines | mgmt.go:651-690 | while every write succeeds the console receives exactly the replies to the lines, and the table is what they make of it |
| AuthReplies.StartLineOpensBlock | mgmt.go:549-570 | a CONNECT or REAUTH line opens an empty block in place of one of the same client and leaves the others alone; at 256 open blocks it is refused |
| AuthReplies.DisconnectedIsNeverAnswered | mgmt.go:572-578 | a block whose client disconnects before its END is never answered, whatever lines follow |
| AuthReplies.StreamKeepsCapped | mgmt.go:610-616 | no stream makes a block keep more than 256 entries or a value of 4096 characters |
| ClientAccess.RevokedMayNotConnect | mgmt.go:381-404 | after a reported revocation the client is not authorised, however often its name is listed |
| ClientAccess.RestoredMayConnect | mgmt.go:381-404 | after a restore it is authorised exactly when its name is a valid one |
| ClientAccess.RotatedMayConnect | mgmt.go:381-404 | after a rotation too, by the new entry, and the old one no longer has the name |
| ClientAccess.DeletedMayNotConnect | mgmt.go:381-404 | after a deletion whose rewrite went through a name listed once is unknown |
| ClientAccess.ArchivedMayNotConnect | users.go:487-489 | the name under which an old entry is archived never connects |
| ClientAccess.ValidNamesAreSafe | users.go:467-520 | a name that may connect is one index field and one path segment, is not trimmed and cannot be read as an option |
| ClientAccess.ReservedNamesAreInvalid | users.go:483-497 | server, ca and default in any case, names that begin with REVOKED and the two internal file names may not connect |
| ClientAccess.OrdinaryNamesAreValid | users.go:467-520 | every other name of 1 to 63 letters and digits may |
| CcdMerge.MergePushRoutes | ccd.go:416-458 | the loops and the index map compute the merge of all requests |
| CcdMerge.MergeKeys | ccd.go:416-458 | merged lines have unique destinations in the order of their first request |
| CcdMerge.MergeFirst | ccd.go:416-458 | exactly the requested destinations are pushed and a comment begins with the first requester's source |
| CcdMerge.MergeNamesEverySource | ccd.go:424-434 | every source that asked for a destination is named in its comment |
| CcdMerge.MergeExclusions | ccd.go:385-414 | the loops compute the merge of global and user exclusions |
| CcdMerge.ExclusionMarker | ccd.go:385-414 | a merged exclusion carries the user marker first exactly when the user lists it and the global list does not |
| CcdFile.ParseCcd | ccd.go:88-279 | the loop with its entry map and order computes the parse of the lines |
| CcdText.LoadCcd | ccd.go:88-279 | loading a text reads each line as specified and gives the parse of what the lines say |
| CcdText.ReadWritten | ccd.go:67-253 | every line that the template writes is read back as that line, whatever its comment holds |
| CcdText.TextLoadsAsLines | ccd.go:88-279 | a written text splits into its lines and loads as they do |
| CcdText.SavedTextLoads | ccd.go:298-359 | an accepted choice, written to a file and loaded from its text, gives what its rendered lines give: merged descriptions cannot break a line, leave the comment or close the quotes |
| CcdRoundTrip.ValidateCcd | ccd.go:799-874 | a file is accepted exactly when its address, routes and exclusions pass their checks |
| RouteLimits.DomainExactly | common_routes.go:43 | labels of letters and digits make an accepted domain exactly when there are at least two, each of 1 to 63 characters |
| RouteLimits.DashExactly | common_routes.go:43 | a dash may stand inside a label and not at its ends |
| RouteLimits.ExclusionExactly | server_config.go:518-556 | an exclusion is accepted exactly for prefix lengths 1 to 32 with a matching base address |
| RouteLimits.ExclusionLeavesSome | server_config.go:539-547 | no accepted exclusion covers every address, which would cancel the full tunnel |
| CcdRoundTrip.PlainStays | ccd.go:241-253 | a description without reserved markers can never turn a plain route into control state |
| CcdRoundTrip.DomainStays | ccd.go:222-240 | a comment that starts with a domain source is read back as domain segments |
| CcdRoundTrip.MergedLine | ccd.go:204-253 | a merged line counts for its destination on load exactly when the user asked for it |
| CcdRoundTrip.DestinationsSurvive | ccd.go:88-279 | a save and a load keep the set of destinations of the user's own routes, whatever common routes are merged in |
| CcdHistory.SameDestSamePolicy | firewall.go:424-467 | equal destinations mean an equal firewall policy |
| CcdHistory.RerendersKeepDest | ccd.go:460-487 | any number of re-renders, refused and failing ones included, keeps the destinations |
| CcdHistory.RerendersKeepPolicy | ccd.go:460-487 | and keeps the user's firewall policy |
| CcdHistory.CcdStore.ModifyCcd | ccd.go:298-359 | a validated choice is written as its render; otherwise nothing is written and the file is untouched |
| CcdHistory.LoadedFields | ccd.go:256-279 | address, own redirect choice and rendered exclusions come back from a render |
| CcdHistory.LegacyRedirect | ccd.go:256-272 | without a state line a rendered redirect counts as the user's own exactly while the global force is off |
| CcdHistory.StateLineDecides | ccd.go:256-272 | the last state line decides, whatever redirect is rendered |
| CcdHistory.ExclusionSurvivesExactly | ccd.go:194-202 | a user exclusion survives exactly when full tunnel is in effect at the save and no global one has its destination |
| CcdHistory.HistoryShowsIntent | ccd.go:256-359 | over any history from any file, none or a legacy one included, the loaded flag is the recorded choice and the pushed redirect is that or the global force at the last accepted render; without a record the first accepted render fixes it from the pushed redirect |
| CcdHistory.OnlySavesChange | ccd.go:460-487 | once recorded, the choice changes only by the user's own accepted saves |
| CcdIpRoutes.IpRouteLoadedExactly | ccd.go:204-253 | a save and a load keep an IP route exactly when no domain route before it asks for its destination |
| CcdIpRoutes.IpRouteSurvivesExactly | ccd.go:460-487 | over any re-renders and refreshes an IP route stays one exactly under that condition on the saved list |
| CcdIpRoutes.ShadowedRouteIsLost | ccd.go:222-240 | an IP route after a domain that resolves to it: after one load a refresh with another answer removes the destination |
| CcdReloads.LoadedNeat | ccd.go:88-296 | with comma-free descriptions and distinct IP destinations every loaded route passes validation and the list stays so |
| CcdReloads.ReloadAcceptedExactly | ccd.go:460-487 | a re-render of such a file is accepted exactly when it can be written and the static address fits |
| CcdReloads.RerendersGoThrough | ccd.go:460-487 | any number of such re-renders are all accepted, whatever the common routes and globals become |
| CcdReloads.JoinedDescriptionsRefused | ccd.go:424-434 | two IP routes to one destination whose descriptions together pass the limit are accepted once, and every re-render is refused |
| CcdReloads.StoreExpandsNeatly | common_routes.go:694-717 | what a sound store of common routes expands to meets the assumptions of the file theorems |
| CcdPolicy.PushedExactly | ccd.go:416-458 | a rendered file pushes exactly the user's own destinations and those of the common routes, unless address or mask is missing |
| CcdPolicy.PushedIsAllowed | firewall.go:424-467 | the prefixes of the pushed routes are exactly the prefixes that the firewall allows |
| CcdPolicy.FileIsPolicy | firewall.go:424-467 | the same for the client as loaded from the saved file; by address, it is what a stored own or common route covers |
| CcdPolicy.Ipv6AnswerIsNotPushed | firewall.go:84-97 | an IPv6 answer of a user's domain gives an allowed host prefix that no pushed route has |
| CcdDirectives.ServerReads | templates/ccd.tpl:1-24 | from the text of a file OpenVPN pushes exactly what its lines are for, in order: comments, state lines and declarations push nothing |
| CcdDirectives.IfconfigReads | templates/ccd.tpl:1-3 | it reads the static address and its mask |
| CcdDirectives.ClientRoutesAreAllowed | ccd.go:298-359 | after an accepted save the client is told to route exactly the prefixes that the firewall, loading the same text, allows |
| CcdDomains.PersonalDescriptionUnmarked | ccd.go:281-296 | the description handed back holds no reserved marker |
| CcdDomains.DomainsSurvive | ccd.go:122-145 | a save and a load keep the set of declared domains exactly, also of those that resolve to nothing |
| CommonRoutes.Store.Commit | common_routes.go:142-165 | memory is published only after a successful persist, so memory equals the last persisted list |
| CommonRoutes.Store.Create | common_routes.go:518-562 | success appends the validated entry with the IPv4 addresses of one new lookup, none when it failed; refusals write nothing and failures change nothing |
| CommonRoutes.Store.Update | common_routes.go:564-624 | success replaces in place, keeping the addresses while the domain stays and looking them up otherwise; refusals and failures change nothing |
| CommonRoutes.Store.Delete | common_routes.go:626-653 | success removes just the entry |
| CommonRoutes.Store.Import | common_routes.go:390-468 | success appends, line by line, the entry of each valid line whose key is not held yet with the answer of its one lookup; failure changes nothing; every valid line is held |
| CommonRoutes.ImportAdds | common_routes.go:390-468 | every added entry comes from a line, with that line's identifier and answer, and repeats no key |
| CommonRoutes.Store.ResolveSnapshot | ccd.go:512-532 | resolving outside the lock looks up each domain of the snapshot once and records domain and IPv4 answer per route |
| CommonRoutes.Store.CommitRefresh | ccd.go:534-575 | after a late commit a domain route that still has the resolved domain holds exactly the addresses found, every other route is unchanged, and a change is reported exactly when some set of addresses differs |
| CommonRoutes.Store.RefreshOnce | ccd.go:512-585 | a scheduled refresh while nobody edits: each domain route whose lookup answered holds the IPv4 addresses of its answer, everything else is as it was, nothing is written without a domain, and without a reported change every user may reach what was reachable before |
| CommonRoutes.SameAddressesSamePolicy | ccd.go:560-590 | a refresh that reports no change leaves every user's allowed prefixes as they were |
| CommonRoutes.SameKeyExactly | common_routes.go:390-468 | two valid routes count as one in an import exactly when they are the same network or the same domain up to case |
| CommonRoutes.LineValidExactly | common_routes.go:43-105 | an imported line is valid exactly when its network is canonical or its domain is a domain name |
| CommonRoutes.DomainsAreNamed | common_routes.go:43-105 | a stored domain route has a name and neither address nor mask |
| CommonRoutes.Store.RefreshAll | common_routes.go:302-324 | the manual refresh looks up every domain once and replaces exactly the address sets that differ |
| CommonRoutes.Store.Interleave | ccd.go:512-575 | any interleaving of edits with a refresh in flight keeps every promise |
| CommonRoutes.AppendSound | common_routes.go:541-550 | appending a non-duplicate keeps ids, targets and answers sound |
| CommonRoutes.ReplaceSound | common_routes.go:585-613 | replacing an entry that duplicates no other keeps them sound |
| CommonRoutes.RefreshKeepsSound | ccd.go:534-575 | a refresh of any later list keeps it sound, adds, removes, moves and renames nothing, and leaves a route with another domain alone |
| SessionTokens.SessionStore.BumpUserEpoch | auth.go:422-438 | a bump that cannot be persisted is undone, so memory and file agree |
| SessionTokens.SessionStore.SignSession | auth.go:855-868 | a session carries its user, expiry, purpose and current epoch |
| SessionTokens.SessionStore.VerifySessionPayload | auth.go:874-917 | a token is accepted exactly when signed, for a session, unexpired, of the current epoch and not blacklisted |
| SessionTokens.SessionStore.RevokeToken | auth.go:964-1008 | a logout writes exactly for valid sessions below the cap, prunes only expired entries and reports as specified |
| SessionTokens.RunKeepsInv | auth.go:334-438 | over every run epochs in memory and file agree and persisted blacklist entries are in memory or expired |
| SessionTokens.BumpEndsSessions | auth.go:391-438 | a session issued before a successful bump is never accepted after it |
| SessionTokens.SessionLasts | auth.go:874-917 | an accepted session stays accepted until it expires, over any logins, other logouts, failed bumps and restarts, unless it is logged out or its user's epoch is bumped |
| SessionTokens.NewSessionAcceptedExactly | auth.go:855-868 | a new session lasts 12 hours and is accepted exactly when the same token was not logged out before |
| SessionTokens.SameSecondLoginIsDead | auth.go:855-868 | the run in which a login in the second of a logout gets a token that is never accepted |
| SessionTokens.OnlySessionsAreAccepted | auth.go:890-898 | a token of another purpose or without a signature is no session and cannot be logged out |
| SessionTokens.NeverAgainIffDead | auth.go:874-917 | a session is never accepted again in any continuation exactly when it is expired, outdated or on the persisted blacklist |
| SessionTokens.LogoutEndsSessionExactly | auth.go:964-1008 | a logout that reported success ends the session for good except exactly at the cap and when the entry is in memory only |
| SessionTokens.RetriedLogoutRevives | auth.go:964-1008 | the run in which a repeated logout reports success and a restart revives the session |
| SessionTokens.CappedLogoutIsLost | auth.go:985-995 | the run in which the blacklist is filled by as many logins and logouts as it holds and the next logout reports success without ending the session |
| OneTimeCodes.MatchTotpStep | totp.go:390-399 | the step returned is the first of previous, current and next whose code matches |
| OneTimeCodes.PruneTotpSteps | totp.go:403-412 | pruning keeps exactly the steps within two of the current one, in order |
| OneTimeCodes.ConsumeBackupCode | totp.go:544-551 | exactly the first matching hash is removed |
| OneTimeCodes.MfaStore.VerifyAndConsume | totp.go:430-503 | an attempt decides as specified, memory and file agree before and after, and a failed write spends nothing |
| OneTimeCodes.AcceptsStepExactly | totp.go:430-467 | a time-step code is accepted exactly when the second factor is on, the secret can be decrypted, and the first step of the window with that code is unused; the step is then listed |
| OneTimeCodes.AcceptsBackupExactly | totp.go:469-480 | a backup code is accepted exactly when besides that it is no code of the window and matches a stored hash, the first of which is spent |
| OneTimeCodes.SpentStepListedExactly | totp.go:403-412 | a spent step is still listed exactly when every code accepted since was accepted within two steps of it |
| OneTimeCodes.ReplayedExactly | totp.go:390-503 | a spent code whose step matches again is accepted exactly when some code accepted since was more than two steps away |
| OneTimeCodes.EachStepOnce | totp.go:390-503 | no step is accepted twice over any attempts with failing writes, while the clock never falls back by two steps |
| OneTimeCodes.FallingClockReplays | totp.go:403-412 | with a clock that falls back by two steps a code is accepted again |
| OneTimeCodes.UsedListBounded | totp.go:403-412 | whatever the clock does the used list holds at most five distinct steps |
| OneTimeCodes.BackupCodesConserved | totp.go:535-551 | backup logins plus remaining codes equal the codes issued |
| ServerConfig.NoReloadExactly | server_config.go:731-780 | a change needs no reload exactly when every rendered block and the exclusions are unchanged |
| ServerConfig.NoReloadSameBody | server_config.go:731-780 | a change without a reload never touches a field that the template reads |
| ServerConfig.Manager.Apply | server_config.go:931-1064 | one save persists first, then writes server.conf, then memory, and rolls back as specified |
| ServerConfig.SaveKeepsConsistentExactly | server_config.go:931-1064 | JSON, memory and server.conf stay in agreement exactly when it is not a failed write with a failed rollback |
| ServerConfig.OutcomeTellsTheTruth | server_config.go:931-1064 | a refused or failed save leaves what is in effect alone and a successful one puts its choice in effect |
| ServerConfig.OutcomeIsExact | server_config.go:931-1064 | a save is rejected exactly when invalid, fails exactly when one of its writes does, and otherwise reports its kind of change |
| ServerConfig.NothingExactly | server_config.go:931-1064 | a valid save writes nothing exactly when it would change only the time and the author |
| ServerConfig.RunKeepsConsistent | server_config.go:931-1064 | over any run of saves and restarts whose rollbacks succeed the three copies agree |
| ServerConfig.FailedSaveComesBack | server_config.go:993-1001 | after a failed rollback the failed configuration takes effect at the next restart |
| ServerDirectives.NumbersSaid | server_config.go:605-693 | which number stands behind which numeric directive, mssfix and max-clients only when set |
| ServerDirectives.WordsSaid | server_config.go:605-693 | protocol, ciphers with the first as fallback, TLS version, compression if any, and the operator's pushes, each behind its directive |
| ServerDirectives.AddressesSaid | server_config.go:605-693 | the tunnel network with its mask and one push for each DNS server |
| ServerDirectives.SwitchesSaid | server_config.go:605-693 | every fixed directive: most always, the switches exactly when on, one of the two key files by the TLS mode |
| ServerDirectives.VerbatimSaid | server_config.go:690-692 | the operator's lines stand there as they are and no other free text does |
| ServerDirectives.ReloadExactly | server_config.go:731-780 | a change is hard exactly when it alters another block than keepalive, max-clients and verb, or the exclusions; otherwise soft exactly when it alters one of these |
| ServerDirectives.SizeLimits | server_config.go:410-434 | the limits of ports, MTU and MSS |
| ServerDirectives.RateLimits | server_config.go:449-463 | the limits of keepalive, client count and verbosity |
| ServerDirectives.TextChoices | server_config.go:407-448 | the choices of protocols and TLS version |
| ServerDirectives.SecurityChoices | server_config.go:419-460 | the choices of TLS mode, compression and public hostname |
| ServerDirectives.SwitchLimits | server_config.go:484-501 | client-to-client excludes the firewall, password checks exclude Kubernetes |
| ServerDirectives.ListLimits | server_config.go:435-483 | the limits of ciphers, DNS servers, free lines, pushes and exclusions |
| ServerDirectives.DefaultsAreAccepted | server_config.go:211-265 | the defaults, their exclusions aside, are accepted with the firewall on or off |
| Traffic.SessionIdInjective | traffic.go:50-52 | a session id names one connection |
| Traffic.Accountant.Update | traffic.go:226-314 | with successful writes one poll moves rows, live baselines and stored baselines as specified |
| Traffic.Accountant.LoadSessions | traffic.go:200-215 | with successful writes a restart resumes from the same baselines |
| Traffic.NamelessAreUnbilled | traffic.go:219-224 | connections without a common name, or called UNDEF, are never billed |
| Traffic.FirstSightingBilled | traffic.go:248-256 | the first sighting of anyone else bills its counters, received and sent apart, in its month |
| Traffic.BaselinesAreOwn | traffic.go:248-264 | the baseline of a session depends on its own sightings only, so concurrent sessions of a name do not interfere |
| Traffic.BilledIsMetered | traffic.go:226-314 | over any polls, months and restarts a user's total, over all months or in one, is the sum over sessions of first counter plus positive growth |
| Traffic.BilledTelescopes | traffic.go:248-264 | with monotone counters and no reappearing id that total is the sum of the last counters |
| Traffic.PollIsEvents | traffic.go:226-314 | a poll is its sightings followed by a sweep, so the statements about events hold of polls |
| Traffic.RepeatedPollAddsNothing | traffic.go:226-314 | repeating a poll adds nothing, also across a month change |
| IndexTxt.IndexTxtParser | app.go:540-581 | the loop computes the entries of the text |
| IndexTxt.RenderIndexTxt | app.go:583-599 | the loop computes the text of the entries |
| IndexTxt.ValidLineMeans | app.go:540-581 | which column of a valid or expired line is which field |
| IndexTxt.RevokedLineMeans | app.go:540-581 | and of a revoked one, with the date in the third |
| PkiStore.IdentityIsName | app.go:540-581 | the identity of a client's entry is its common name |
| IndexTxt.RewriteKeepsExact | app.go:540-599 | parsing a render of parsed entries keeps every V, R and E entry in order and drops exactly the others |
| IndexTxt.RoundTripExact | app.go:540-599 | parsing a render gives the entries back exactly when all have whitespace-free fields and an exact flag |
| PkiStore.FilesystemStore.RevokeClient | store_filesystem.go:114-146 | success means the client's serial is in the revocation list; only entries of the name differ; when no command fails and the name is unique it succeeds |
| PkiStore.FilesystemStore.UnrevokeClient | store_filesystem.go:148-228 | success flips just the target's entry and its serial is not in the list; when no command fails it succeeds |
| PkiStore.FilesystemStore.RotateClient | store_filesystem.go:234-323 | success puts the new entry in the old one's place, the old one revoked and renamed at the end, others unchanged, and the old serial in the list; when no command fails and the name is known it succeeds |
| PkiStore.FilesystemStore.DeleteClient | store_filesystem.go:325-390 | success means the old serial is in the list, and a successful rewrite alters only entries of the name and loses no serial; when no command fails and the name is unique it succeeds |
| PkiStore.RetireParses | store_filesystem.go:241-265 | writing back a retired entry and reading it again changes that entry and nothing else |

## Left out

- HTTP handlers, routing, cookies, logging, metrics, the readiness endpoint, the frontend and JSON text: presentation.
- Backslash escapes in the lines that OpenVPN reads: none of the words that the program writes itself contains one.
- Kubernetes, X.509, easyrsa, SQLite, DNS, sockets and the template engine: represented by their effects, which may fail.
- Ipv4.StaticAddressRange: the loop over four bytes is stated on the 32-bit number, including the increment that wraps inside the last byte.
- Firewall.Controller.HandleEvent: the stored routes do not change while one event is handled, and tunnel addresses are parsed values, not texts.
- Firewall.Controller.UninstallRulesFor: destinations are sets, so the order of commands within one diff is not modelled.
- EventQueue.StepKeepsInv: events share a key per common name, so a later event of a name replaces an earlier one of another tunnel address; the queue keeps the latest only, as the program does.
- The chain clean-up at shutdown, the self-heal loop and the parser of console events for the firewall: single steps over the modelled operations.
- PendingAuth.AuthLoop.OnAsync: the welcome banner, reconnection and the supervisor's back-off are not modelled.
- CcdText.SavedTextLoads: the spelling of an address is a parameter: one field without quotes and comment signs that reads back as that address.
- CcdHistory.CcdStore.ModifyCcd: a failed save leaves the file as it was, which holds for the Kubernetes store; the filesystem store may truncate it.
- CcdDomains.DomainsSurvive: states the set of domains only. Descriptions and the addresses under each domain may move between routes that share a destination, because sources are joined with commas and compared as substrings.
- CcdReloads.RerendersGoThrough: needs comma-free descriptions; a comma in a common description leaks fragments into a coinciding personal route at every re-render.
- CommonRoutes.Store.Create: the time and error text of the last lookup are not stored; identifiers are fresh numbers.
- CommonRoutes.Store.Import: the parser of import lines is not modelled; it hands over routes.
- CcdHistory.HistoryShowsIntent: refreshes of a user's domains are stated per answer set, not as the loop over all users.
- SessionTokens.SessionStore.VerifySessionPayload: the check that the admin still exists, and the cookie, are outside.
- SessionTokens.RunKeepsInv: assumes that the clock does not go back; if it did, the clamped expiry of a blacklist entry could end before its token's.
- OneTimeCodes.MfaStore.VerifyAndConsume: enrolment, the enrolled-users marker and the in-memory store without a file are not modelled.
- ServerConfig.Manager.Apply: the reload signal after a committed save, and whether it is delivered, are not modelled.
- Traffic.Accountant.Update: 64-bit overflow and the import of the old JSON store are not modelled; a failed database write voids the statement from then on.
- PkiStore.FilesystemStore.DeleteClient: key, certificate and request files are not modelled; the result of the index rewrite is reported separately because the program only logs its failure.
- The login rate limiter, trusted proxies, the openvpn-user tool and the other username rules: single-branch checks.

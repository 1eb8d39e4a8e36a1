# ADP-OS: verified model

A Dafny model of five parts of ADP-OS that carry state or rewrite text, with proofs of
what they guarantee. `dafny verify dfyconfig.toml` checks everything.

| part | files |
|---|---|
| sandbox allocation (deer-flow adapter) | `RuntimeRegistry.dfy`, `SandboxProvider.dfy` (the classes, one caller at a time); `Allocator.dfy`, `AllocatorProgress.dfy`, `AllocatorState.dfy`, `AllocatorTheorems.dfy`, `AllocatorOrder.dfy`, `AllocatorWarm.dfy` (any number of threads) |
| token lifecycle (REST auth) | `Tokens.dfy`, `TokenTheorems.dfy`, `TokenAnswers.dfy` (values and runs); `AuthServer.dfy` (the store and handlers updating in place) |
| global command registration | `CommandRegistration.dfy`, `RegistrationTheorems.dfy` |
| file transfer and search limits | `Base64.dfy`, `Shell.dfy`, `FileTransfer.dfy` (transfer); `GrepCommand.dfy`, `SearchLimits.dfy` (the adapter's grep); `VmSearch.dfy` (the tool server's glob and grep) |
| command-line rebuilding | `CommandLine.dfy` |

`Basics.dfy` holds result types, decimal text, splitting and stripping.

How the parts are modelled:

- **Allocation.** The registry, pool and provider are classes whose methods are proved against
  functions on values (`Serve`, `Acquired`, `Released`, `Warmed`). Concurrency is a state machine:
  each thread stands at a point of the code between two lock operations, that point fixes which of the
  four locks it holds, and a run is any interleaving of calls and steps with any answers from the
  command-line tool. `RunsAreSequential` connects the layers: every interleaving answers what one order
  of whole calls on the functions above answers to the same replies of that tool, so what is proved of
  those holds of the threads (`ColdAcquiresAgreeInterleaved`, `GetsAgreeInterleaved`). `RoundIsWarmed`
  does so for the warm rounds, whose pool additions fall between the calls.
- **Tokens.** Login and refresh have no `await` between check and update, so each is one atomic step.
  The others depend on `get_current_user`, a plain function that runs in a worker thread before the
  handler: admitting the token and acting for it are two steps, with anything in between. A token is
  its payload, tagged in the history with the login or admin issue it descends from, and carries what
  that issue asked for (`TokensAreAsAsked`). Expiry is
  rejection on or after `exp` (section 4.1.4 of RFC 7519); time never goes back.
- **Registration.** Full-path resolution, case folding and the directory tests are functions of a
  `Host`, so the results hold for every such host. Where a result needs path normalisation to be
  idempotent, it asks so only of the strings actually normalised twice (`GoodRoot`, `GoodEnv`).
- **File transfer and search.** Commands and their output are text. The remote side reads a command as
  the shell does (quoting, pipes, redirections) before running it on its files, which several paths may
  lead to and which may fail to open or fail half-way. Filename patterns are answered by the machine:
  which entries of its directory match a word. Search output is split at newlines on this side; the tool
  server's connection translates line ends and strips the whole output before that.
  Base64 follows section 4 of RFC 4648 and quoting section 2.2 of the POSIX Shell Command Language.
- **Command line.** The text built by the router is read back by a reader of PowerShell arguments with
  single-quoted literals as in section 2.3.5.2 of the PowerShell Language Specification, where four
  typographic quotes count as single quotes too.

Promises the code does not meet for all inputs are stated with their exact condition:

- A registry `set` or `remove` whose reload raises OSError saves a map without all the other keys
  (`WriteKeepsOthersIff`, `UnreadableWriteLosesMapping`).
- `shutdown` calls `release` while holding the same non-reentrant lock: it returns exactly when no
  handle is cached, otherwise it and every later provider call hang (`ShutdownReturnsIff`, `JamIsForever`).
- `warm` is called safe to repeat, but a second completed round appends the same names again, so
  exclusivity is per round (`SecondRoundRepeatsIff`).
- A revoked token is not stopped at once: requests admitted before still act (`RevokedTokenActsIff`).
- Uninstalling from the checkout that installed is refused for a drive root, whose normal form means
  another directory when normalised again (`InstallThenUninstallIff`, `DriveRootIsRefused`). An uninstall
  also changes things its decision does not name (`UnnamedChangeIff`).
- A file named `-` can be uploaded but not downloaded, where `-` is standard input
  (`UploadThenDownloadIff`, `DashIsStandardInput`). An overwrite that fails half-way has lost the old
  content (`BrokenWriteKeepsIff`).
- grep answers the first matches exactly when their paths have no colon, no newline and no leading white
  space (`ReadBackIff` in `SearchLimits`, `GrepFindsFirstMatchesIff`, `MisreadSearches`). White space at the
  end of a matched line is lost in any case, so lines come back whole exactly when none ends in it
  (`ReadBackWholeIff`). A search of one file instead of a directory is never answered right
  (`FileOperandIsMisread`), and a search path that begins with a dash is read as an option
  (`GrepCommandIff`, `DashPathIsAnOption`).
- Where grep takes a file for binary it prints no more of it, and its notice goes to the discarded standard
  error. Counting these lines too, the answer and the flag are right exactly when the first matches are all
  shown, and one more whenever there are more (`BinarySearchIff`, `CappedBinarySearchIff`,
  `BinaryMatchVanishes`, `BinaryMatchHidesTruncation`).
- grep's `--include` pattern is quoted twice, which leaves it unquoted: it arrives exactly when it holds no
  special character and no directory entry matches it, or by the accident that the only match is a file
  with the clause's own name (`IncludeClauseIff`, `StarArrives`, `StarIsExpanded`, `SemicolonSplitsClause`).
- The tool server's glob and grep answer the lines they found exactly when none is blank, none kept holds a
  carriage return, the first does not begin with white space and the last, unless cut off, does not end
  with it (`VmAnswerIff`, `HeadThenSortIsGenuine`, `HeadKeepsFirstIff`); found paths must also hold no newline
  (`GlobListsAllIff`, `TrailingSpaceIsLost`, `CarriageReturnBreaks`).
- Arguments come back through PowerShell exactly when no quoted one holds a typographic single quote
  and no switch ends in a newline, which the pattern's `$` lets through (`ReadBackIff` in `CommandLine`,
  `NewlineSwitchIsLost`, `TypographicQuoteIsLost`).

## Model

| member | source | states |
|---|---|---|
| RuntimeRegistry.ThreadRuntimeRegistry.Load | extensions/deer_flow/registry.py:43-52 | the in-memory copy becomes the file's content; empty when missing, malformed or unreadable |
| RuntimeRegistry.ThreadRuntimeRegistry.Get | extensions/deer_flow/registry.py:63-83 | answers as one shared map with the default rule, whatever the copy held before; the file is untouched |
| RuntimeRegistry.ThreadRuntimeRegistry.Set | extensions/deer_flow/registry.py:85-90 | file and copy become the shared map with the key recorded |
| RuntimeRegistry.ThreadRuntimeRegistry.Remove | extensions/deer_flow/registry.py:92-97 | file and copy become the shared map without the key |
| RuntimeRegistry.ObjectsShareOneMap | extensions/deer_flow/registry.py:43-97 | any calls spread over any number of registry objects on one file answer exactly as one shared map, and the file ends as that map |
| RuntimeRegistry.StaleCopiesAreInvisible | extensions/deer_flow/registry.py:43-97 | no call sequence can tell two sets of in-memory copies apart |
| RuntimeRegistry.LastWordIsAnswered | extensions/deer_flow/registry.py:63-97 | after any readable calls by any objects on a new file, a thread runs where the last call that wrote about it said; after a removal or none, at its own id, or "agent" without one |
| RuntimeRegistry.WriteKeepsOthersIff | extensions/deer_flow/registry.py:45-97 | a set or remove keeps every other thread's resolution exactly when its reload succeeded or no other key was mapped away from its default |
| RuntimeRegistry.UnreadableWriteLosesMapping | extensions/deer_flow/registry.py:45-97 | a concrete mapping lost that way, by set and by remove |
| SandboxProvider.PoolNameInjective | extensions/deer_flow/registry.py:142-143 | different pool indices have different runtime names |
| SandboxProvider.WarmedExactly | extensions/deer_flow/registry.py:156-170 | a warm round adds exactly the VMs that started with an address, each once |
| SandboxProvider.SecondRoundRepeatsIff | extensions/deer_flow/registry.py:148-164 | two completed rounds, each with its own answers, repeat a VM exactly when some VM came up in both; one round never does |
| SandboxProvider.VMPool.Warm | extensions/deer_flow/registry.py:145-171 | appends one round's entries, or nothing when pooling is off or another thread is warming |
| SandboxProvider.VMPool.Acquire | extensions/deer_flow/registry.py:173-187 | the oldest entry leaves the pool; it is returned only if its VM runs |
| SandboxProvider.AcquireAnswersIff | extensions/deer_flow/deerflow_adp_sandbox.py:122-157 | exactly when an acquire answers a running pool VM, the thread's own runtime (status or start answered ok, and reachable), the start error (both answered no) or the reachability error |
| SandboxProvider.DeerFlowADPSandboxProvider.Acquire | extensions/deer_flow/deerflow_adp_sandbox.py:111-157 | pool first, else the thread's own resolution; exactly what is recorded, returned or raised on every answer; handles untouched |
| SandboxProvider.DeerFlowADPSandboxProvider.Get | extensions/deer_flow/deerflow_adp_sandbox.py:159-194 | the cached handle, or a new one cached under its id, or an error without an address; every handle ever made stays cached-and-open or closed once |
| SandboxProvider.DeerFlowADPSandboxProvider.Release | extensions/deer_flow/deerflow_adp_sandbox.py:196-219 | closes exactly the cached handle once, and the registry loses precisely the keys mapped to the id |
| SandboxProvider.ResolutionMovesIff | extensions/deer_flow/deerflow_adp_sandbox.py:122-219 | a call moves what a thread resolves to exactly when that thread's own acquire took a pool VM of another name, or a runtime it was mapped to away from its default is released |
| SandboxProvider.ColdAcquiresAgree | extensions/deer_flow/deerflow_adp_sandbox.py:134-157 | as long as a thread's own acquires record no pool VM, all its successful ones return the same id until that id is released, across warm rounds, failed starts, SSH timeouts and other threads' calls |
| Allocator.StepGains | extensions/deer_flow/registry.py:152-154 | a step gains only the lock it waited for, or the warm lock when nobody held it |
| Allocator.ExclusiveKept | extensions/deer_flow/registry.py:37-41 | no two threads ever hold the same lock |
| AllocatorProgress.NoOtherDeadlock | extensions/deer_flow/deerflow_adp_sandbox.py:122-219 | some thread can step, or all calls returned, or a shutdown waits for its own lock with everyone unfinished behind it |
| AllocatorProgress.StepsShrink | extensions/deer_flow/deerflow_adp_sandbox.py:122-219 | every step lists a release's keys or shortens the remaining work |
| AllocatorProgress.NoEndlessRun | extensions/deer_flow/deerflow_adp_sandbox.py:122-257 | no schedule without new calls goes on for ever: one of its steps is not possible, shutdowns included |
| AllocatorProgress.CallsCanFinish | extensions/deer_flow/deerflow_adp_sandbox.py:122-219 | from any state without a shutdown all unfinished calls can run to their end |
| AllocatorProgress.JamIsForever | extensions/deer_flow/deerflow_adp_sandbox.py:252-259 | once shutdown waits for its own lock it never moves, and no thread waiting for that lock ever does |
| AllocatorProgress.ShutdownReturnsIff | extensions/deer_flow/deerflow_adp_sandbox.py:252-259 | a shutdown holding the lock can return exactly when no handle is cached |
| AllocatorState.InvKept | extensions/deer_flow/registry.py:43-187 | one step of any thread keeps lock exclusion, pool history, handle counts and what each locked call knows |
| AllocatorState.RunKeepsInv | extensions/deer_flow/registry.py:43-187 | the same over every run |
| AllocatorState.OutsidersTouchNothing | extensions/deer_flow/deerflow_adp_sandbox.py:122-219 | only a thread holding or taking the provider lock changes the registry, the handles or the list of pops |
| AllocatorTheorems.NeverDeadlocks | extensions/deer_flow/deerflow_adp_sandbox.py:122-219 | every reachable state with an unfinished acquire, get, release or warm has a step, and all calls can finish |
| AllocatorTheorems.OnlyShutdownJams | extensions/deer_flow/deerflow_adp_sandbox.py:252-259 | with shutdown calls, a state without steps is all done or jammed by a shutdown, and conversely |
| AllocatorTheorems.PoolIsConserved | extensions/deer_flow/registry.py:142-187 | entries appended are those popped followed by those pooled (FIFO), each name at most once per warm round begun; nothing popped stays undecided |
| AllocatorTheorems.OneRoundIsExclusive | extensions/deer_flow/registry.py:142-187 | with one warm round no pool VM is popped twice or both popped and pooled |
| AllocatorTheorems.HandlesAreCachedOrClosed | extensions/deer_flow/deerflow_adp_sandbox.py:165-206 | every handle made is the cached one of its id and open, or was closed exactly once |
| AllocatorTheorems.LockedCallsAreAtomic | extensions/deer_flow/deerflow_adp_sandbox.py:122-219 | whatever runs beside it, a locked call leaves the registry as it would alone |
| AllocatorTheorems.ColdAcquireMovesNobody | extensions/deer_flow/deerflow_adp_sandbox.py:134-157 | an acquire that got no pool VM, even one that raised, changes no thread's resolution |
| AllocatorOrder.RunsAreSequential | extensions/deer_flow/deerflow_adp_sandbox.py:122-219 | for every interleaving, one order of whole acquires, gets, releases and pool additions, each given the replies its own steps met, gives the same answers and handles in the order the calls returned; the registry file, pool and handle cache are the same when nobody holds the provider lock, and each pool VM found running was answered to one caller |
| AllocatorOrder.LockedAcquireIsSequential | extensions/deer_flow/deerflow_adp_sandbox.py:122-157 | an acquire about to return asked, answers and records what it does alone, given the replies it met, after the calls that returned before it, on the pool those leave |
| AllocatorOrder.ColdAcquiresAgreeInterleaved | extensions/deer_flow/deerflow_adp_sandbox.py:122-219 | in every interleaving, until a thread's acquire gets a pool VM or its runtime is released, all its successful acquires return the same id |
| AllocatorOrder.GetsAgreeInterleaved | extensions/deer_flow/deerflow_adp_sandbox.py:159-194 | in every interleaving, until an id is released, all successful gets of it return the same handle |
| AllocatorWarm.RoundIsWarmed | extensions/deer_flow/registry.py:152-171 | in every interleaving a finished round started every index once, asked exactly those that started for their address, and added one entry for each that answered one, in order |
| AllocatorWarm.EntriesCameUp | extensions/deer_flow/registry.py:156-170 | in every interleaving every entry ever pooled was added by a round in which that VM was answered as started, and then the entry's non-empty address |
| AllocatorWarm.WarmBeginsIff | extensions/deer_flow/registry.py:145-155 | a call of warm begins a round exactly when there is a pool and nobody is warming it |
| Tokens.StepKeepsInv | cli/api/auth.py:118-274 | every handler keeps ids distinct, old refresh tokens of a chain consumed, roles and scopes matched, expiry at lifetime |
| Tokens.RunKeepsInv | cli/api/server.py:130-255 | the same over every run |
| Tokens.GoodIsNewest | cli/api/server.py:195-229 | an unconsumed refresh token means every other one of its chain is consumed |
| TokenTheorems.OneRedeemablePerIssue | cli/api/server.py:195-229 | at most the newest refresh token of a chain is redeemable; redeemable ones never outnumber logins plus admin issues |
| TokenTheorems.AcceptedAtMostOnce | cli/api/auth.py:243-274 | each refresh id is accepted at most once in any run |
| TokenTheorems.SubjectCutOffIsFinal | cli/api/auth.py:302-319 | after revoking a subject, every token of it is rejected in every later state without a new issue for it; no refresh chain escapes |
| TokenTheorems.CutOffSparesOthers | cli/api/auth.py:302-319 | the verdict on every other subject's tokens is unchanged |
| TokenTheorems.SecondCutOffCountsZero | cli/api/auth.py:302-319 | repeating it with no new issue reports 0 |
| TokenTheorems.RevokedIdIsFinal | cli/api/auth.py:254-265 | a token whose id was revoked, by its holder or an admin, is rejected in every later state |
| TokenTheorems.RevokedTokenActsIff | cli/api/dependencies.py:32-81 | after a revocation at most the requests admitted before act for the token, and some can exactly when there are any |
| TokenTheorems.DeadChainTailIsBounded | cli/api/auth.py:60-61 | a chain without a redeemable refresh token has no accepted token 3600 seconds later, for every earlier schedule of refreshes |
| TokenTheorems.ChainStays | cli/api/server.py:219-229 | an issued token stays in its chain over every run |
| TokenTheorems.RevokedRefreshTailIsBounded | cli/api/auth.py:254-265 | when a chain's redeemable refresh token is revoked by id, no token of the chain is accepted 3600 seconds later |
| TokenTheorems.OwnRevokeSparesRefresh | cli/api/server.py:251-255 | a holder's own revoke ends its access token, while in every reachable state every redeemable refresh token, of its chain too, stays redeemable |
| TokenTheorems.ChainsKeepPayload | cli/api/server.py:219-229 | all tokens of a chain share subject, role and scopes, so no sequence of refreshes widens them |
| TokenTheorems.NoKeyNoTokens | cli/api/server.py:132-137 | from a start without tokens, a run without a login by a registered key never has one, whatever else is called |
| TokenTheorems.RoleMatchesScopes | cli/api/dependencies.py:88-147 | every reachable token is admin exactly when it holds admin:*; both tests of require_admin agree; require_scope passes admins or holders of all scopes asked for |
| TokenAnswers.TokensAreAsAsked | cli/api/server.py:130-229 | in every run each token descends from one login or admin issue, with the subject and role that asked for and the scopes it asked for, or all of the role's if none |
| TokenAnswers.NarrowTokensStayNarrow | cli/api/server.py:148-158 | a user token passes for a set of scopes exactly when its issue asked for all of them, through any refreshes |
| TokenAnswers.DefaultsOfRoles | cli/api/server.py:100-106 | what each role may do when no scopes are asked for |
| TokenAnswers.LoginAnswersIff | cli/api/server.py:130-178 | exactly when a login is unauthorized, a bad request or answered with tokens; an error changes nothing |
| TokenAnswers.AdminIssueAnswersIff | cli/api/admin_routes.py:42-76 | exactly when an admin issue is forbidden, a bad request or answered with tokens |
| TokenAnswers.AdminRevokeAnswersIff | cli/api/admin_routes.py:99-120 | revocations by admins only; any other changes nothing |
| TokenAnswers.CutOffCountIsExact | cli/api/auth.py:302-319 | the count answered is the number of the subject's tokens not revoked before |
| TokenAnswers.RefreshAnswersIff | cli/api/server.py:195-217 | exactly the redeemable refresh tokens are answered with tokens; otherwise nothing changes |
| TokenAnswers.AnsweredAreAdded | cli/api/server.py:160-238 | the two tokens answered are the two added, an access and a refresh one, live and with their lifetimes |
| TokenAnswers.AnsweredTokensWork | cli/api/server.py:160-238 | answered tokens are accepted exactly until they expire, in every later run that does not revoke their id or subject nor redeem them |
| TokenAnswers.NeverRefused | cli/api/server.py:195-238 | a client that presents the refresh token answered last, in time and not revoked, is never refused, whatever others do |
| TokenAnswers.RevokedRefreshIsConsumed | cli/api/auth.py:254-265 | in every reachable state a revoked refresh token counts as used |
| AuthServer.AuthStore.RevokeToken | cli/api/auth.py:254-265 | the id is revoked, and consumed exactly when an issued refresh token has it |
| AuthServer.AuthStore.RevokeTokenBySub | cli/api/auth.py:302-319 | all ids of the subject revoked, its refresh ids consumed, and the count is the growth of the revoked set |
| AuthServer.Server.LoginHandler | cli/api/server.py:130-178 | the whole effect and answer of login, error answers included |
| AuthServer.Server.RefreshHandler | cli/api/server.py:195-238 | the whole effect and answer of refresh rotation |
| AuthServer.Server.GetCurrentUser | cli/api/dependencies.py:32-81 | admits exactly the access tokens that decode |
| AuthServer.Server.RevokeHandler | cli/api/server.py:251-255 | the whole effect and answer of revoking the caller's token, once admitted |
| AuthServer.Server.AdminIssueHandler | cli/api/admin_routes.py:42-76 | the whole effect and answer of an admin issue, once admitted |
| AuthServer.Server.AdminRevokeHandler | cli/api/admin_routes.py:99-105 | the whole effect and answer of revoking by id, once admitted |
| AuthServer.Server.AdminRevokeSubHandler | cli/api/admin_routes.py:114-120 | the whole effect and answer of revoking by subject, once admitted |
| CommandRegistration.Computer.AddPathEntry | scripts/adpos-registration.ps1:306-318 | both PATH strings gain the bin directory unless listed |
| CommandRegistration.Computer.RemovePathEntry | scripts/adpos-registration.ps1:320-340 | both PATH strings keep exactly the other non-blank entries |
| CommandRegistration.Computer.Install | scripts/adpos-registration.ps1:342-433 | the whole new environment and outcome, prompt and refusals included |
| CommandRegistration.Computer.UninstallRegistration | scripts/adpos-registration.ps1:435-498 | the whole new environment and outcome, refusals included |
| RegistrationTheorems.EntriesOfJoin | scripts/adpos-registration.ps1:326-331 | joining kept entries and splitting again gives them back |
| RegistrationTheorems.RemoveKeepsOthers | scripts/adpos-registration.ps1:320-340 | removal keeps every other non-blank entry in order |
| RegistrationTheorems.AddAppends | scripts/adpos-registration.ps1:306-318 | adding appends one entry exactly when the directory is not listed, and then it is |
| RegistrationTheorems.InstallTwiceIsOnce | scripts/adpos-registration.ps1:342-433 | a second install from the same checkout, under any flags, changes nothing |
| RegistrationTheorems.InstallGives | scripts/adpos-registration.ps1:382-420 | a registered install leaves our shim, the checkout as user and process home and owner, and both PATH strings listing the bin directory behind their earlier entries |
| RegistrationTheorems.InstallAnswersIff | scripts/adpos-registration.ps1:342-380 | exactly when an install throws, is skipped or registers |
| RegistrationTheorems.UninstallAnswersIff | scripts/adpos-registration.ps1:435-460 | exactly when an uninstall throws or removes |
| RegistrationTheorems.OwnerIsLookedUp | scripts/adpos-registration.ps1:79-131 | the owner is the user home, else the machine home, else the first PATH entry that is a checkout, else none |
| RegistrationTheorems.NormalFormIs | scripts/adpos-registration.ps1:28-40 | a normal form is the full path, or the text where there is none, without its trailing slashes |
| RegistrationTheorems.InstallThenUninstallIff | scripts/adpos-registration.ps1:342-498 | leaves no shim and no user or process home, and the PATH entries are the original non-blank ones in order minus the bin directory, exactly when the registered home is recognised or force is used; otherwise nothing changes |
| RegistrationTheorems.InstallThenUninstall | scripts/adpos-registration.ps1:342-498 | so for every root that normalises stably, without force |
| RegistrationTheorems.DriveRootIsRefused | scripts/adpos-registration.ps1:242-268 | a concrete drive root from which the uninstall is refused |
| RegistrationTheorems.DecisionNamesEffects | scripts/adpos-registration.ps1:230-304 | the pure uninstall decision names exactly the shim, user PATH entries and homes the uninstall changes; a refusal changes nothing |
| RegistrationTheorems.RemovalKeepsIff | scripts/adpos-registration.ps1:320-340 | removal leaves a PATH string alone exactly when it lists no bin directory and no blank entry |
| RegistrationTheorems.UnnamedChangeIff | scripts/adpos-registration.ps1:320-485 | an uninstall changes more than the decision names exactly when it rewrites a user PATH for blank entries only, changes the process PATH, or removes an empty bin directory |
| RegistrationTheorems.OutsiderActsIff | scripts/adpos-registration.ps1:171-270 | another checkout gets past the owner exactly by force or an accepted prompt |
| RegistrationTheorems.OutsiderChangesNothing | scripts/adpos-registration.ps1:363-380 | otherwise its step changes nothing |
| RegistrationTheorems.OwnerKeepsBinding | scripts/adpos-registration.ps1:79-131 | over any run of such steps by any checkouts in any processes the owner stays the owner unless it uninstalls |
| RegistrationTheorems.OutsidersLeaveNoTrace | scripts/adpos-registration.ps1:448-458 | a run without steps of the owner leaves everything outside the process as it was |
| Base64.DecodeEncode | extensions/deer_flow/sandbox.py:109-112 | decoding undoes encoding for every byte string |
| Base64.GroupIsStandard | extensions/deer_flow/sandbox.py:109-112 | three bytes as one 24-bit number are written as its four base-64 digits in the standard alphabet, with padding for missing bytes |
| Base64.UnwrapWrap | extensions/deer_flow/sandbox.py:66-67 | removing line ends undoes the 76-column wrapping |
| Shell.LexQuoted | extensions/deer_flow/sandbox.py:60-63 | the shell reads a quoted text as one word with exactly that text |
| Shell.SpacedTokens | extensions/deer_flow/sandbox.py:112-113 | a command of spaced pieces is read as exactly the tokens meant, for all quoted texts |
| GrepCommand.IncludeClauseIff | extensions/deer_flow/sandbox.py:173-175 | for every directory, grep gets --include with the glob's text exactly when the glob holds no special character and no entry matches it, or it leaves a pattern whose only match is a file with that very name |
| GrepCommand.ClauseIsRead | extensions/deer_flow/sandbox.py:173-175 | for every glob, the shell reads the clause as the word the glob itself stands for once its quoting characters are taken out, or not as one word |
| GrepCommand.LexMisled | extensions/deer_flow/sandbox.py:173-175 | once a quoting character of the glob has vanished, whatever follows, the clause never becomes the glob's text again |
| GrepCommand.StarArrives | extensions/deer_flow/sandbox.py:173-175 | the glob *.py arrives when nothing in the directory matches the clause |
| GrepCommand.StarIsExpanded | extensions/deer_flow/sandbox.py:173-175 | and does not when some other file does |
| GrepCommand.SemicolonSplitsClause | extensions/deer_flow/sandbox.py:173-175 | a concrete glob that arrives in no directory |
| GrepCommand.GrepCommandIff | extensions/deer_flow/sandbox.py:164-181 | for every pattern and every glob that arrives, shell and grep read the whole command as the search meant (recursive with numbers, ignoring case unless case-sensitive, fixed strings if literal, and nothing else) exactly when the search path does not begin with a dash |
| GrepCommand.DashPathIsAnOption | extensions/deer_flow/sandbox.py:164-181 | a concrete search path that is read as an option |
| FileTransfer.UploadRuns | extensions/deer_flow/sandbox.py:109-115 | the upload command text writes or appends exactly the content to exactly the file, or what came before a failure |
| FileTransfer.DownloadRuns | extensions/deer_flow/sandbox.py:58-73 | the download command text brings back exactly the file's bytes, standard input for the path -, or an error |
| FileTransfer.UploadThenDownloadIff | extensions/deer_flow/sandbox.py:58-73 | bytes that went up come back by every path to the file exactly when that is not -, or standard input happens to hold them; no other file changes |
| FileTransfer.DashIsStandardInput | extensions/deer_flow/sandbox.py:60-63 | a file named - goes up, but downloading - answers standard input |
| FileTransfer.WriteThenAppend | extensions/deer_flow/sandbox.py:103-115 | writing then appending, by whatever paths to one file, leaves the concatenation, and it comes back under the same condition |
| FileTransfer.BrokenWriteKeepsIff | extensions/deer_flow/sandbox.py:111-115 | a write that fails half-way keeps the old content exactly when it appends or had already written it again |
| FileTransfer.ADPSSHSandbox.WriteFile | extensions/deer_flow/sandbox.py:103-115 | the remote files after a write or append, failures to open and half-way included |
| FileTransfer.ADPSSHSandbox.UpdateFile | extensions/deer_flow/sandbox.py:212-219 | the file holds exactly the content when it returns, failures to open and half-way included |
| FileTransfer.ADPSSHSandbox.DownloadFile | extensions/deer_flow/sandbox.py:58-73 | exactly the file's bytes, standard input for the path -, or an error, and no file changes |
| SearchLimits.CappedSearchIsExact | extensions/deer_flow/sandbox.py:180-206 | capping each file at max + 1 and keeping max is keeping the first max of the uncapped output, with the exact truncation flag |
| SearchLimits.ReadBackIff | extensions/deer_flow/sandbox.py:184-206 | for any lines printed with their path, the first max matches, up to white space at the end of their lines, and the flag are answered exactly if and only if these have no colon, newline or leading white space in their paths |
| SearchLimits.AnsweredPathsAreReadable | extensions/deer_flow/sandbox.py:185-196 | whatever was printed, no other path is ever answered |
| SearchLimits.LinesAreRead | extensions/deer_flow/sandbox.py:186-204 | what any line is read as: path up to the first colon, number and text; a lone colon without a number is a text on line 0, none is no match, two without a number are an error |
| SearchLimits.ReadBackWholeIff | extensions/deer_flow/sandbox.py:184-206 | the matches come back with their whole lines exactly when, besides, none of these ends in white space |
| SearchLimits.BinarySearchIff | extensions/deer_flow/sandbox.py:177-206 | counting selected lines of binary files, which grep does not print, the answer and flag are right exactly when the first max are shown, and one more whenever more were selected |
| SearchLimits.CappedBinarySearchIff | extensions/deer_flow/sandbox.py:177-206 | the same with the per-file cap |
| SearchLimits.BinaryMatchVanishes | extensions/deer_flow/sandbox.py:180-184 | a search whose only match is in a binary file answers nothing and no truncation |
| SearchLimits.BinaryMatchHidesTruncation | extensions/deer_flow/sandbox.py:180-206 | a full answer with one more match in a binary file is not flagged as truncated |
| SearchLimits.FileOperandIsMisread | extensions/deer_flow/sandbox.py:178-206 | a search of a single file, where grep prints no path, is never answered right, whatever matches there are |
| SearchLimits.MisreadSearches | extensions/deer_flow/sandbox.py:185-196 | two concrete searches that are misread: a colon and a newline in a path |
| SearchLimits.Grep | extensions/deer_flow/sandbox.py:184-206 | from the text printed, the matches of the first max non-blank lines in order, or an error on a bad line number |
| SearchLimits.GrepFindsFirstMatchesIff | extensions/deer_flow/sandbox.py:180-206 | with the per-file cap on what grep selects, the same condition decides whether the first max matches there are and the flag are answered |
| VmSearch.AnswerFromWorth | cli/mcp/core.py:291-303 | translating line ends and stripping the whole output keeps the lines with text but for white space before the first and after the last |
| VmSearch.VmAnswerIff | cli/mcp/vm_tools.py:147-156 | at most max + 1 printed lines are answered as they are, with the right flag, exactly when undisturbed: none blank, none kept with a carriage return, no white space before the first or after an uncut last |
| VmSearch.HeadThenSortIsGenuine | cli/mcp/vm_tools.py:139-156 | the first max lines of head and sort, with the right flag, are answered exactly when undisturbed; then they are lines find printed, none more often, and as many as there should be |
| VmSearch.HeadKeepsFirstIff | cli/mcp/vm_tools.py:194-211 | without the sort, the first max lines grep printed and the flag are answered exactly when undisturbed |
| VmSearch.GlobListsAllIff | cli/mcp/vm_tools.py:139-156 | when head cuts nothing off, exactly the found paths are answered if and only if none holds a newline and the sorted paths are undisturbed |
| VmSearch.TrailingSpaceIsLost | cli/mcp/core.py:301-303 | a concrete path whose trailing space is lost |
| VmSearch.CarriageReturnBreaks | cli/mcp/core.py:291-303 | any path with a carriage return between two texts is answered as its first part, with a flag that tells of more |
| CommandLine.BuildCommandText | cli/adp.ps1:166-182 | the loop builds the joined command text of the path and the alias-resolved arguments |
| CommandLine.LiteralReadsBack | cli/adp.ps1:160-164 | a quoted argument without typographic quotes is read as itself and reading stops at its end |
| CommandLine.ReadBackIff | cli/adp.ps1:166-184 | path and arguments come back in order, switches bare and the rest verbatim, exactly when no quoted one holds a typographic quote and no switch ends in a newline |
| CommandLine.MeantIsGiven | cli/adp.ps1:52-63 | --help-prereqs in any case of its ASCII letters is given as the bare switch -HelpPrereqs, every other argument as itself, bare exactly when one or two dashes, a letter and name characters |
| CommandLine.CalledAsGivenIff | cli/adp.ps1:52-184 | the callee gets the path and every argument in order, as it should be given, exactly when no path or quoted argument holds a typographic quote and no switch ends in a newline |
| CommandLine.OrdinaryArgumentsComeBack | cli/adp.ps1:52-63 | arguments whose only quote is the apostrophe, with no newline-ended switch, always come back |
| CommandLine.NewlineSwitchIsLost | cli/adp.ps1:175-176 | a concrete switch with a final newline that does not come back |
| CommandLine.TypographicQuoteIsLost | cli/adp.ps1:163-163 | a concrete argument that does not come back with any of the four typographic quotes in it |

## Left out

- JWT encoding, signatures, secrets and HTTP: only issued payloads decode, and new ids are never repeated; restart loss of the store is out.
- RuntimeRegistry.ThreadRuntimeRegistry.Load: a file that is not UTF-8 text (load() raises) or whose JSON is not an object of strings is left out; the registry itself never writes one.
- VmSearch.HeadKeepsFirstIff: speaks of the lines grep prints; a path with a newline is several of them.
- GrepCommand.IncludeClauseIff: globs with a backquote, an opening brace, or a dollar sign that may begin an expansion or quoting are left out, since their value depends on variables, commands or which shell runs them.
- Registry writes that fail half-way, and read faults inside provider calls: the registry methods take the read answer, the provider passes success.
- Two registry objects on one file used at the same moment: their locks are per object and promise nothing across objects; calls are taken one at a time.
- The SSH wait of acquire is one step with an answer: its polling loop is bounded by a timeout.
- What the texts "running" and "reachable" in status output mean, the address regex, and stopping a VM: answers of the command-line tool.
- The SSH connection behind a handle: closing is counted, not performed.
- Case folding beyond a per-character function, and linguistic string comparison in PowerShell's switch statement: alias matching lowers ASCII letters only.
- The uninstall fallback embedded in the shim file: a second implementation in batch text; the shim is modelled as ours, foreign or absent.
- Bin directories containing a semicolon: such a directory cannot be a PATH entry.
- Text encoding: written text stands as its UTF-8 bytes; paths and globs stand as text without NUL, and the machine answers how a file behaves.
- Paths that lead to devices or pipes: a file holds what was written to it. A download of `-` whose standard input never ends does not return.
- Newline translation in the `ssh` fallback of the adapter's connection: there printed text stands as the paramiko connection gives it.
- Undecodable bytes in printed text, and shell options that change how unmatched patterns are read.
- GNU grep before 3.5, which announces binary files on standard output.
- Shell syntax the commands do not use (variable expansion, command substitution, braces, `||`): the reader rejects it, so `adp_file_upload_impl` with its `$(dirname ...)` and the error branch of `adp_file_download_impl` are not modelled; `adp_file_write_impl` builds the same text as `write_file`.
- int() on anything but decimal digits: signs, underscores and other digits read as an error, which grep's own line numbers never are.
- Negative search limits, `sandbox.glob` and `list_dir`: limits are at least 0.
- Turkish and Azeri cultures, where matching without regard to case relates other letters than I, i, the dotted I and the Kelvin sign.
- PowerShell text other than quoted and switch-shaped arguments: the reader answers that it is not one such command.
- Platform, workspace, runtime and sync endpoints, installers, localisation and VM provisioning: wiring around processes that would add only easy members.

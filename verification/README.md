# Verified model of the suSSHi gateway

suSSHi is an SSH gateway: a client authenticates at the gateway, the gateway authenticates at the target
(directly or through a proxy), and the session runs through it. This project models the gateway's and the
proxy's hand-written state machines and codecs in Dafny and proves what they keep over every run. What the
outside world may do - the target, the client, its agent, the Chef server, sockets, disk and clock - is
a script of arbitrary answers or a function parameter, so a theorem about a run is a theorem about every
behaviour of the world.

| file | component |
|---|---|
| `TargetAuth.dfy` | authentication against the target: the preference-ordered dispatcher and its methods |
| `ClientAuth.dfy` | authentication of the client: the multi-factor sets, the handlers, the concluding replies |
| `Conclusion.dfy` | what the client is told over a whole session |
| `Agent.dfy`, `AgentTalk.dfy` | the agent state machine driven by callbacks, and one exchange with the agent |
| `CidrParser.dfy`, `Cidr.dfy`, `CidrMatch.dfy` | the IPv6 network parser, what its results mean, the masked comparison |
| `Embryonic.dfy` | the leases of not yet authenticated children in the proxy |
| `Relay.dfy` | the proxy's relay loop |
| `Scp.dfy`, `ScpSession.dfy` | the SCP inspector on one channel, and on all channels of a session |
| `LogEnc.dfy` | encrypted session logs: writer, decryptor, search for the key sidecar |
| `Base64.dfy`, `Paseto.dfy`, `Memcrypt.dfy` | Base64 in four spellings, PASETO v4.public verification, sealed secrets |
| `LoginString.dfy` | the login string between gateway and proxy |
| `Eyeballs.dfy` | sequential Happy Eyeballs and the connect loops |
| `Bytes.dfy`, `Text.dfy` | byte strings; decimal numbers, splitting and searching as the C libraries do |

Code that changes fields or buffers is a class or a method over an array, proved against a specification:
either a function of the old state, about which the laws are then proved, or a ghost trace that must obey
rules stated event by event (`TargetAuth.Rule`, `Agent.Rule`), from which the claims over whole runs are
derived.

## Where the code differs from what it promises

These are results of the proofs. The model follows the code; each point is a lemma or an exact condition.

- The agent machine returns `false` when polling fails before a session channel is open. As a result code
  this is success, so the dispatcher would take the target for authenticated (`Agent.Machine.ClientReady`,
  `Agent.SuccessWithoutKey`).
- `agent_atomicio` documents a transparent retry on try again; every such answer moves the position two bytes
  back (`AgentTalk.Channel.ReadFully` states both directions).
- The IPv6 parser lays `head::tail` out over the groups the prefix asks for, not over eight, and where more
  are written than that the shift runs over groups of the prefix. `Cidr.PrefixIsDenoted` says for which
  networks the result is right; `Cidr.BeyondThePrefix` and `Cidr.GroupsBeyondThePrefix` show how it is wrong.
  A ninth group with a colon is taken for prefix length zero (`Cidr.OverlongIff`), and a colon in front of the
  prefix length is ignored (`Cidr.TrailingColon`).
- A proxy child frees its slot by number, whoever holds it by then. A child that authenticates after its
  grace time can free its successor's slot, and two live leases then share one (`Embryonic.LateFree`).
  `Embryonic.InvariantIff` is the exact condition, and `Embryonic.GuardIsExact` the look at the slot that
  decides it.
- Only the first login string is parsed. After a failed lookup the next request is answered as if its string
  were fine, and the session keeps the first host without any address (`LoginString.OkAfterRefusalIff`,
  `LoginString.UnresolvedThenAuthenticated`). Any host whose name starts with "bastion" selects the bastion
  (`LoginString.ParsesPrinted`).
- The log decryptor does not look behind a full final chunk, so bytes appended there go unnoticed
  (`LogEnc.AppendedUnnoticed`). This concerns files of another encoder only: the gateway's own writer never
  ends with a full chunk, and of its files only the one written is accepted (`LogEnc.WriteLog`).
- The flag that lets an SCP file be counted is one for the session, not one for each channel. When a file begins
  on one channel during a file of another, files are lost or counted twice (`ScpSession.LaterFileIsLost`,
  `ScpSession.FirstFileCountsTwice`); `ScpSession.FileCountsIff` is the exact condition for one file and
  `ScpSession.SessionIsCounted` the sessions that are counted right. Logs are not affected
  (`ScpSession.TreeIsLogged`).
- The SCP inspector logs the first word of a name with white space (`Scp.LoggedIsSent`), and an `E` line
  restores the directory exactly when it was entered from a named one by a name without a slash
  (`Scp.LeaveUndoesEnter`).
- A shell login needs one method only: in shell mode the lists of preferred and required methods in Chef's
  session context are not read (`ClientAuth.Engine.LoadContext`, `ClientAuth.Engine.HandleRequest`).

One property rests on the callers, not on the function that has it: the client's authentication is concluded
by a function that would send a partial success after a full one if it were called in that order
(`ClientAuth.SafeIffOrdered`). Over a whole session it never is (`Conclusion.SuccessIsNeverTakenBack`).

## Model

| member | source | states |
|---|---|---|
| `TargetAuth.Session.Authenticate` | src/susshid/auth-target.c:167-231 | over any target and client: the trace is lawful, a stored password goes out at most once, the password method runs at most twice, at most four passwords go out through it, publickey and ssh-agent run at most once; success is a target that needs no credentials or a last method that succeeded, a success is never reported as failure, and while both ends stay connected a failure means that nothing was left to try |
| `TargetAuth.Session.Dispatch` | src/susshid/auth-target.c:246-345 | true is returned exactly when the last event of the run is the success of a method; every event of the run obeys the rules, whatever the replies; while both ends stay connected, false is returned between methods only when no preferred method is enabled and offered, or the last one ended neither with a success nor with a failure |
| `TargetAuth.Session.Select` | src/susshid/auth-target.c:270-286 | the method kept or found is the one the preference rule chooses; none is found only when no preferred method is enabled and offered |
| `TargetAuth.Session.Run` | src/susshid/auth-target.c:288-291 | a method that returns leaves a trace ending in its own result, with flags and passwords as the rules demand; one that does not return is still running in the trace |
| `TargetAuth.StartedIsBest` | src/susshid/auth-target.c:264-286 | at every start the method is enabled and offered, and is the last one again or the first eligible one of the preference list |
| `TargetAuth.DisabledForGood` | src/susshid/auth-target.c:274-279 | a method that was disabled never starts again |
| `TargetAuth.OnlyOnce` | src/susshid/auth-target.c:452-455 | publickey, ssh-agent and hostbased start at most once in any run |
| `TargetAuth.AtMostTwice` | src/susshid/auth-target.c:1001-1082 | the password method starts at most twice in any run |
| `TargetAuth.NothingAfterAgent` | src/susshid/auth-target.c:518-525 | once ssh-agent has started it is the last method of the run, and afterwards nothing is enabled |
| `TargetAuth.ConcludedMeansAgent` | src/susshid/auth-target.c:510-525 | after the client was told of full success no method starts and no partial conclusion is asked for |
| `TargetAuth.NoDialogAfterFailure` | src/susshid/auth-target.c:1222-1250 | when an automatic password failed and the profile forbids to continue, neither keyboard-interactive nor password starts again |
| `TargetAuth.SignedWasAccepted` | src/susshid/auth-target.c:387-450 | the key used to sign is one whose unsigned offer the target accepted, and no key is offered after it |
| `TargetAuth.SuccessIsTheTargets` | src/susshid/auth-target.c:293-300 | a reported success ends the run, and unless the method was ssh-agent the target itself had answered success |
| `TargetAuth.RequestsAreSends` | src/susshid/auth-target.c:613-718 | requests of the password method are stored or dialog passwords, so the two bounds add up |
| `TargetAuth.RuleAt` | src/susshid/auth-target.c:246-345 | every event of a lawful trace was permitted by the events before it |
| `TargetAuth.FailureGoesOn` | src/susshid/auth-target.c:302-342 | a method that ended, if the run goes on, ended denied, partial or in error, and what follows at once is a new list of the target's methods |
| `TargetAuth.EnabledShrinks` | src/susshid/auth-target.c:518-525 | the set of enabled methods only shrinks |
| `TargetAuth.FirstProbe` | src/susshid/auth-target.c:363-460 | no key is offered to the target before publickey has started |
| `TargetAuth.Session.AuthenticatePublickey` | src/susshid/auth-target.c:363-460 | every key that can be loaded is offered in order until one is accepted, all of them if none is; the accepted one is used to sign and the result is the target's verdict on it, and the method disables itself |
| `TargetAuth.Session.AuthenticateHostbased` | src/susshid/auth-target.c:472-477 | always denied, and disabled |
| `TargetAuth.Session.AuthenticateSshAgent` | src/susshid/auth-target.c:496-528 | the client is told of full success before anything else happens, and nothing is left enabled |
| `TargetAuth.Session.AuthenticateInteractive` | src/susshid/auth-target.c:549-818 | for any prompts and answers: answers go to the target only after the client was asked, success is the target's verdict, a refused fresh request disables the method, no password outlives its use, and while both ends stay connected it ends only with the target's success or refusal, an error on a fresh request, or a client that no longer answers |
| `TargetAuth.Session.HandlePrompts` | src/susshid/auth-target.c:597-718 | a usable password answers a single password prompt; otherwise the client is asked and the password is kept; in every other case the password is erased, the source falls back to the dialog and, without permission to continue, a failure leaves no dialog method |
| `TargetAuth.Session.ForwardAnswers` | src/susshid/auth-target.c:771-787 | the answers go out once and the verdict on them is recorded |
| `TargetAuth.Session.AskClient` | src/susshid/auth-target.c:725-752 | the client is asked only after its own authentication is concluded; the target's last verdict stands |
| `TargetAuth.Session.KbdIntOrPassword` | src/susshid/auth-target.c:896-976 | passwords of the user go out until one is accepted or three have been tried, success is the target's verdict, and no stored password is sent |
| `TargetAuth.Session.AuthenticatePassword` | src/susshid/auth-target.c:1001-1082 | a password at hand is sent once, the result is the target's verdict on it, and it is erased; otherwise, in dialog mode, the user is asked up to three times, after which the method is disabled |
| `TargetAuth.Session.ContinueOrAbort` | src/susshid/auth-target.c:1222-1250 | a failure without permission to continue disables both dialog methods and nothing else |
| `ClientAuth.Engine.Start` | src/susshid/auth-client.c:80-95 | a client is let in only authenticated, after turns that all passed - login accepted, in time and, outside remote commands, proxy reached, no broken attempt and not too many failures - and whose attempts earned everything the first request's context requires; for a shell login nothing is required |
| `ClientAuth.Engine.Dispatch` | src/susshid/auth-client.c:232-465 | true exactly with authentication, by turns that all passed and earned what the first request's context requires, every success proven by a turn; the session ends only at a turn that fails or leaves nothing allowed, false comes only from time-out, disconnect or openid-connect, and a run without end has passed every turn without earning enough |
| `ClientAuth.Engine.HandleRequest` | src/susshid/auth-client.c:284-409 | the succeeded set grows by exactly what the attempt proves; the session ends if and only if the login is refused or, outside remote commands, the proxy is not reached, the context does not come, the attempt breaks, there were too many failures, or nothing is left allowed; in shell mode nothing is required |
| `ClientAuth.Engine.HandleAttempt` | src/susshid/auth-client.c:331-362 | dispatch of one attempt: the succeeded set grows by exactly what was proven, the allowed set loses exactly what was used up, and a partial success is answered exactly when something required is still open |
| `ClientAuth.Engine.HandlePassword` | src/susshid/auth-client.c:684-739 | success exactly for a non-empty password Chef accepts; required methods stay reachable exactly unless Chef faults while keyboard-interactive is still owed |
| `ClientAuth.Engine.HandleInteractive` | src/susshid/auth-client.c:762-831 | a request is answered with a prompt, a response of the wrong shape ends the session, and success is exactly Chef's acceptance |
| `ClientAuth.Engine.HandlePublickey` | src/susshid/auth-client.c:855-1002 | success exactly for a verified signature of a known key; an unsigned offer is accepted exactly for a known key with a permitted algorithm, and one of the Chef remote user lifts the restriction of algorithms for good |
| `ClientAuth.Engine.Judge` | src/susshid/auth-client.c:705-730 | accepting adds keyboard-interactive to the succeeded methods, a fault withdraws both password-based methods, a refusal changes nothing |
| `ClientAuth.Engine.ProcessResponse` | src/susshid/auth-client.c:484-543 | authenticated exactly when something succeeded and nothing required is missing, a partial success otherwise |
| `ClientAuth.Engine.LoadContext` | src/susshid/chef.c:783-853 | the context is taken once: a non-empty required list replaces what was allowed, a preferred list does so otherwise, and everything required is allowed; in shell mode no list is read and nothing is required |
| `ClientAuth.Engine.AddPreferred` | src/susshid/auth-client.c:150-180 | each name allows exactly its kinds; an unknown name allows nothing and is reported |
| `ClientAuth.Engine.AddRequired` | src/susshid/auth-client.c:195-213 | each of the three names requires exactly its kind; others require nothing and are reported |
| `ClientAuth.RequiredIsAllowed` | src/susshid/chef.c:833-853 | whatever the lists are, every required method is allowed after loading |
| `ClientAuth.RequiredIsPreferred` | src/susshid/auth-client.c:150-213 | for every list of names the kinds required are among the kinds allowed |
| `ClientAuth.EachReplyOnce` | src/susshid/auth-client.c:602-661 | over any interleaving of conclusions and session changes at most one full and one partial success are sent |
| `ClientAuth.RepliesAreDue` | src/susshid/auth-client.c:602-661 | an unasked full success only for an authenticated client in shell mode or after the target's success; a partial one never during an open keyboard-interactive exchange, never twice, and exactly when a dialog method is left - a disconnect otherwise |
| `ClientAuth.SafeIffOrdered` | src/susshid/auth-client.c:602-661 | for any order of calls, over all runs whose changes take back neither an authentication nor the shell mode: a client told of full success is never told less afterwards exactly when no unsuccessful call follows a successful one |
| `ClientAuth.OrderedIsSafe` | src/susshid/auth-client.c:602-661 | one direction for the single run: calls in that order, interleaved with such changes in any way, never send less after a full success |
| `ClientAuth.SuccessThenPartial` | src/susshid/auth-client.c:602-661 | the other: to every order of calls with an unsuccessful one after a successful one there is a run that sends a partial success after the full one |
| `Conclusion.SuccessIsNeverTakenBack` | src/susshid/master-loop.c:709-746 | over a whole session - host key dialogs, any lawful authentication against the target, the login - and whatever such changes around it: a client told of full success, at most once, is never told less afterwards |
| `Conclusion.AskedInOrder` | src/susshid/auth-target.c:496-528 | in every lawful trace no unsuccessful conclusion is asked for after a successful one |
| `ClientAuth.Engine.Finish` | src/susshid/auth-client.c:603-661 | the method computes the conclusion the two laws above are proved about |
| `Agent.Machine.ClientReady` | src/susshid/auth-pubkey-agent.c:1746-1907 | the result is success exactly when the session was replayed - or when a poll failed before the client had opened a session channel, where the C code returns false, which is the success code; every script that goes well - channels open, identities come, the target accepts one of them after the agent has signed - ends in the replay of exactly what was recorded; and an error after identities were listed, while no poll fails, means that all of them were tried |
| `Agent.SuccessWithoutKey` | src/susshid/auth-pubkey-agent.c:1798-1806 | the failing family, concretely: the first poll fails and success is returned without any key |
| `Agent.SecondKeyWins` | src/susshid/auth-pubkey-agent.c:1746-1907 | a script that goes well, concretely: the first identity is denied, the second accepted, the session replayed |
| `Agent.NoneLeftOut` | src/susshid/auth-pubkey-agent.c:1243-1258 | in every lawful trace each identity gone through was offered, unless its blob could not be imported |
| `Agent.ReplayMeansAccepted` | src/susshid/auth-pubkey-agent.c:1890-1897 | in every run, whatever the callbacks do, the replay comes only after the target accepted a key it had been offered unsigned and the agent then signed; nothing follows it |
| `Agent.Machine.AwaitSession` | src/susshid/auth-pubkey-agent.c:1795-1810 | a session channel must come by the fourth poll, else the session ends; returns early exactly on the failing family |
| `Agent.Machine.RunSession` | src/susshid/auth-pubkey-agent.c:1820-1897 | the event loop keeps the trace lawful and succeeds exactly with the replay; it does so on every script that goes well, and errs while no poll fails only with every listed identity tried; otherwise the session is ended |
| `Agent.Machine.Act` | src/susshid/auth-pubkey-agent.c:1832-1881 | every state has its action, and where it leads is stated for each |
| `Agent.Machine.AuthenticateTarget` | src/susshid/auth-pubkey-agent.c:1232-1325 | offers the identities in order, each once, and ends with one that the target accepted or with none left and none it would accept unsigned |
| `Agent.OfferedInOrder` | src/susshid/auth-pubkey-agent.c:1240-1258 | in every lawful trace two identities of one listing were offered in the order of the listing |
| `Agent.Machine.SignAndSend` | src/susshid/auth-pubkey-agent.c:1283-1312 | an accepted signed key leads to the closing state and to nothing else |
| `Agent.Machine.RequestChannel` | src/susshid/auth-pubkey-agent.c:898-925 | no agent channel is asked for without the client's request for forwarding; with it one is, and the machine moves on exactly when it opens |
| `Agent.Machine.RequestIdentities` | src/susshid/auth-pubkey-agent.c:938-986 | an answer with no identities ends the session; up to 1023 are taken as they are, more are an error |
| `Agent.Machine.CloseAgentChannel` | src/susshid/auth-pubkey-agent.c:1846-1865 | the close callback is armed only after an accepted key |
| `Agent.Machine.Fire` | src/susshid/auth-pubkey-agent.c:439-813 | each callback redirects the machine as stated case by case and records what it brought; only the agent channel's close, once armed, completes the machine |
| `Agent.DataIsKept` | src/susshid/auth-pubkey-agent.c:471-483 | the data replayed is all the client sent, in order |
| `Agent.EnvsAreKept` | src/susshid/auth-pubkey-agent.c:609-629 | the environment replayed is the first twenty variables requested |
| `Agent.ForwardsAreKept` | src/susshid/auth-pubkey-agent.c:372-421 | the forwards replayed are the first twenty among those Chef allowed |
| `AgentTalk.Channel.Talk` | src/susshid/auth-pubkey-agent.c:828-883 | on success two bytes too many went over the channel for every try-again answer; the request went out behind its length and the reply is the announced number of bytes, in order, exactly when there was none; at most 256 KiB |
| `AgentTalk.Channel.ReadFully` | src/susshid/auth-pubkey-agent.c:333-351 | a full count means the bytes read are in the buffer, complete and in order, exactly when the channel never answered try again; each such answer makes two bytes too many be read |
| `AgentTalk.Channel.WriteFully` | src/susshid/auth-pubkey-agent.c:333-351 | the same for writing |
| `AgentTalk.WireRoundTrip` | src/susshid/auth-pubkey-agent.c:289-316 | the 32-bit encoding and decoding are inverse both ways |
| `AgentTalk.PutU32` | src/susshid/auth-pubkey-agent.c:309-316 | exactly the first four bytes of the buffer become the number in network order |
| `Cidr.ParsesText` | src/shared/cidr.c:163-281 | for every network of at most eight groups in any spelling ("::" anywhere, dotted quad, any case, any prefix length): the parser lays out exactly the bytes of its groups |
| `Cidr.OutcomeOf` | src/shared/cidr.c:240-281 | for every network of at most eight groups, the parser's answer: refused without "::" unless the number of groups is exact, and with it where the groups just fill the prefix; undefined where the groups behind "::" exceed the prefix; else head, gap and tail, or the overrun |
| `Cidr.PrefixIsDenoted` | src/shared/cidr.c:242-281 | for every network of at most eight groups: accepted with the first bits of the address denoted if and only if it is Textbook - the right number of groups, and groups behind "::" that are clear inside the prefix where there are fewer, or repeat what they overwrite where there are more |
| `Cidr.ParsedIsDenoted` | src/shared/cidr.c:119-146 | the same for membership: the addresses in the parsed network are those that share the first bits of the address denoted, if and only if the network is Textbook |
| `Cidr.ShiftLays` | src/shared/cidr.c:256-268 | the in-place shift into a gap moves the tail to the end and leaves zeros |
| `Cidr.ShiftOverruns` | src/shared/cidr.c:256-268 | where more is written than the prefix asks for the shift runs over its own source: byte by byte, what stands in the prefix then |
| `Cidr.BeyondThePrefix` | src/shared/cidr.c:242-273 | when the prefix ends in front of "::", the groups behind it replace the last ones of the prefix; right exactly when they are equal |
| `Cidr.OverlongIff` | src/shared/cidr.c:211-216 | for every text: with nine groups that end in a colon, "::" among them or not and anything behind them, it is taken for a network of prefix length zero, with which every address agrees; no other text is, unless it ends in "/0" |
| `Cidr.TooManyGroups` | src/shared/cidr.c:204-239 | every network of more than eight groups is refused, or taken for prefix length zero exactly when its ninth group has a colon behind it |
| `Cidr.NotRefusedMeans` | src/shared/cidr.c:163-281 | every text that is not refused, nor one of too many groups, is groups of at most four digits with at most one "::" and an ending, and is laid out as that |
| `Cidr.TrailingColon` | src/shared/cidr.c:204-232 | a colon in front of the prefix length is ignored |
| `Cidr.GroupsBeyondThePrefix` | src/shared/cidr.c:242-273 | a concrete text of that kind |
| `Cidr.MatchCidr` | src/shared/cidr.c:49-83 | families must agree; IPv6 is the bit-prefix test on the parsed prefix whatever the unwritten bytes hold; IPv4 also wants zero host bits in the network |
| `Cidr.QuadOctets` | src/shared/cidr.c:297-338 | every canonical dotted quad, with or without prefix length, is read as its four octets |
| `Cidr.PrefixLengthIff` | src/shared/cidr.c:352-380 | the prefix lengths accepted are exactly the decimals up to 128 without leading zeros, read as their value |
| `CidrMatch.Match6IsPrefixTest` | src/shared/cidr.c:120-146 | for every length 0 to 128 and either byte order, the word, memcmp and mask form is the bit-prefix test |
| `CidrMatch.RestIsIgnored` | src/shared/cidr.c:120-146 | the IPv6 result never depends on bytes behind the prefix, which the parser leaves unwritten |
| `CidrMatch.Match4IsPrefixTest` | src/shared/cidr.c:96-107 | the IPv4 result is the bit-prefix test and that the network's host bits are zero |
| `CidrMatch.MaskedWord` | src/shared/cidr.c:139-144 | one masked word compares exactly the first bits of that word |
| `CidrMatch.BytesAreBits` | src/shared/cidr.c:134-138 | equal bytes are equal bits |
| `CidrParser.InetNetPton` | src/shared/cidr.c:163-281 | the in-place parser computes the recursive reading of its text that the theorems are about |
| `CidrParser.ScanText` | src/shared/cidr.c:182-232 | the scanning loop over pointers and accumulators, against the reading by recursion |
| `CidrParser.ShiftUp` | src/shared/cidr.c:262-267 | the shift loop in the buffer, against its step-by-step definition |
| `CidrParser.LayOut` | src/shared/cidr.c:240-281 | group count, the two refusals, the shift and the copy of the prefix |
| `CidrParser.GetV4` | src/shared/cidr.c:297-338 | the dotted-quad loop, against its definition |
| `CidrParser.GetBits` | src/shared/cidr.c:352-380 | the prefix-length loop, against its definition |
| `Embryonic.InvariantIff` | src/susshi-proxyd/master-loop.c:127-188 | over every run of claims, sweeps and frees, in or after the grace time: the lease invariant holds all along exactly when no child ever frees a slot on which another holds a live lease |
| `Embryonic.LeasesAreExclusive` | src/susshi-proxyd/master-loop.c:127-188 | while that is so no two live leases share a slot, and a claim never takes a slot leased less than the grace time ago and not freed |
| `Embryonic.LoadIsExact` | src/susshi-proxyd/master-loop.c:221-240 | while that is so the slots counted as taken are exactly those of the live leases, never more than the maximum |
| `Embryonic.FreeKeepsIff` | src/susshi-proxyd/master-loop.c:183-188 | a free keeps the lease invariant exactly when no other live lease has its slot |
| `Embryonic.MayFreeIffTimely` | src/susshi-proxyd/master-loop.c:183-188 | an exact look before the free: the slot is nobody else's exactly when it holds the child's own timestamp or one past the grace time |
| `Embryonic.GuardIsExact` | src/susshi-proxyd/master-loop.c:183-188 | over every run in which each child frees at most once, the frees are timely exactly when each of them would pass that look, which the code does not take |
| `Embryonic.LateFree` | src/susshi-proxyd/master-loop.c:569-596 | without that look a late free makes two live leases share a slot: a concrete run |
| `Embryonic.StepKeeps` | src/susshi-proxyd/master-loop.c:127-188 | claims and sweeps always keep the lease invariant, a free exactly when it is timely |
| `Embryonic.DropIsLinear` | src/susshi-proxyd/master-loop.c:145-153 | the threshold is the straight line from the rate at the start load to 100 at full load, rounded down |
| `Embryonic.DropCurve` | src/susshi-proxyd/master-loop.c:150-153 | it lies between rate and 100, never falls with load, and is 100 at full load |
| `Embryonic.RefusedShare` | src/susshi-proxyd/master-loop.c:153-160 | of the hundred draws as many are refused as the threshold says |
| `Embryonic.RefusedIff` | src/susshi-proxyd/master-loop.c:127-174 | a claim is refused exactly when the curve drops it or every slot is taken; at or below the start load it always succeeds |
| `Embryonic.SlotTable.NewSlot` | src/susshi-proxyd/master-loop.c:127-174 | a claim sweeps, decides by the curve, and takes the first free slot only |
| `Embryonic.SlotTable.CurrentEmbryonics` | src/susshi-proxyd/master-loop.c:221-240 | expired stamps are cleared, others untouched, and the counter is the number of slots taken |
| `Embryonic.SlotTable.FreeSlot` | src/susshi-proxyd/master-loop.c:183-188 | frees exactly the given slot |
| `Embryonic.SlotTable.constructor` | src/susshi-proxyd/master-loop.c:98-119 | every slot starts free |
| `Relay.FifoConservation` | src/susshi-proxyd/session-loop.c:126-255 | for every run: what went out is a prefix of what came in, the rest is exactly what is buffered (or lost when a buffer cannot grow, which closes that side), and nothing goes to the gateway before it was heard |
| `Relay.EverythingArrives` | src/susshi-proxyd/session-loop.c:182-255 | every run from what the world offers alone: in the turns gone through all that is offered is received, as much is sent as each sink takes of what is stored by then (to the gateway once heard), and each side closes exactly by a receive that ends or cannot be stored, or by taking nothing of what is there |
| `Relay.LoopIsSound` | src/susshi-proxyd/session-loop.c:182-255 | conservation is kept from any sound state over any run |
| `Relay.HeardMeansReceived` | src/susshi-proxyd/session-loop.c:233-240 | the flag that releases data to the gateway is raised only by a successful receive from it |
| `Relay.RunsCompose` | src/susshi-proxyd/session-loop.c:182-255 | a relay that has not stopped continues from where it is |
| `Relay.ProxySession.SessionLoop` | src/susshi-proxyd/session-loop.c:126-255 | the loop over two buffers computes the run the laws are about |
| `Relay.ProxySession.ReadTarget` | src/susshi-proxyd/session-loop.c:51-80 | one receive from the target, stored or closing |
| `Relay.ProxySession.ReadGateway` | src/susshi-proxyd/session-loop.c:233-240 | one receive from the gateway, which also releases the other direction |
| `Relay.ProxySession.WriteGateway` | src/susshi-proxyd/session-loop.c:93-113 | one send: exactly what was taken leaves the buffer |
| `Relay.ProxySession.WriteTarget` | src/susshi-proxyd/session-loop.c:93-113 | the same towards the target |
| `Scp.EntryIsTransferred` | src/susshid/inspect-scp.c:86-182 | on a channel that has the report to itself, for every directory tree into a named directory, the contents cut into packets anyhow: exactly the headers and ends are logged in order, with the first word of each name, each non-empty file counts once with its full length, no content byte acts as a command, directory name and depth come back |
| `Scp.AllTransferred` | src/susshid/inspect-scp.c:86-182 | the same for any sequence of entries |
| `Scp.FileIsTransferred` | src/susshid/inspect-scp.c:91-137 | one file on one channel, in any directory, the unnamed one included |
| `ScpSession.ChannelsAreIndependent` | src/susshid/inspect-scp.c:48-215 | any number of channels, interleaved anyhow: read-ahead, directory, depth and log of each are what its own packets alone make of them |
| `ScpSession.TreeIsLogged` | src/susshid/inspect-scp.c:86-182 | so a tree is logged and skipped in full and name and depth come back under any interleaving |
| `ScpSession.ReportIsSum` | src/susshid/inspect-scp.c:91-106 | under any interleaving the session's report grows by what its channels count, file by file |
| `ScpSession.FileCountsIff` | src/susshid/inspect-scp.c:91-135 | under any interleaving a file is counted once with its full length exactly when the flag all channels share is up at its first content packet and down at the others; that is, when the last the others did to it was not to lower it before the first, and not to raise it between two (with empty packets: a single one finds the flag up, with no content before it) |
| `ScpSession.CountedAsIfAlone` | src/susshid/inspect-scp.c:91-106 | while no channel touches the flag during another's file, each counts what it would count alone |
| `ScpSession.SessionIsCounted` | src/susshid/inspect-scp.c:86-182 | then, with every channel sending its trees, the report grows by exactly the non-empty files of all of them with their full lengths |
| `ScpSession.LaterFileIsLost` | src/susshid/inspect-scp.c:91-135 | two files of which the second begins before the content of the first: only the first is counted, whatever they are |
| `ScpSession.FirstFileCountsTwice` | src/susshid/inspect-scp.c:91-135 | two files of which the second begins within the content of the first: the first is counted twice, with its length and with what was missing, the second never |
| `ScpSession.ChannelTable.InspectData` | src/susshid/inspect-scp.c:48-72 | one packet of one channel object, which shares the report object with the others, against the step the laws are about |
| `Scp.ContentIsSkipped` | src/susshid/inspect-scp.c:91-116 | content and trailing NUL, cut anywhere, are never read as commands and use the read-ahead up |
| `Scp.LeaveUndoesEnter` | src/susshid/inspect-scp.c:139-158 | leaving a directory undoes entering it exactly when it was entered from a named directory and its name has no slash |
| `Scp.ScanHeaderOf` | src/susshid/inspect-scp.c:129-141 | a printed header is read back with the first word of its name, and not at all if the name has none |
| `Scp.LoggedIsSent` | src/susshid/inspect-scp.c:129-141 | the name logged is the name sent exactly when it has no white space and at most 1023 characters |
| `Scp.OksAreInvisible` | src/susshid/inspect-scp.c:184-203 | acknowledgements of the sink may be interleaved anywhere |
| `Scp.TimesAreLogged` | src/susshid/inspect-scp.c:160-168 | time stamps are logged as sent, modification before access, and nothing else changes |
| `Scp.MessageIsLogged` | src/susshid/inspect-scp.c:170-180 | a message of the source is logged with its level and text |
| `Scp.RefusalIsLogged` | src/susshid/inspect-scp.c:184-200 | a warning or fatal reply is logged with its level and text, cancels the expected file and changes nothing else |
| `Scp.Channel.InspectData` | src/susshid/inspect-scp.c:48-215 | one packet of either side, against the pure inspector |
| `Scp.Channel.SourceData` | src/susshid/inspect-scp.c:86-116 | the read-ahead and the jump into the command loop |
| `Scp.Channel.ReadMessages` | src/susshid/inspect-scp.c:120-181 | the command loop with its walking pointer |
| `Scp.Channel.SinkData` | src/susshid/inspect-scp.c:184-212 | replies of the sink |
| `Scp.Channel.CountFile` | src/susshid/inspect-scp.c:94-106 | tests and clears the flag of the session; counts for the right direction |
| `LogEnc.AcceptsExactly` | src/shared/log-enc.c:394-456 | on any file at all success is reported exactly for the file written, or that file with bytes behind a full final chunk; then the output is the whole plaintext, and a prefix of it otherwise |
| `LogEnc.AppendedUnnoticed` | src/shared/log-enc.c:421-446 | bytes behind a full final chunk are accepted, whatever they are |
| `LogEnc.TruncationIsNoticed` | src/shared/log-enc.c:394-456 | a file cut off anywhere is refused, and what was written is a prefix of the plaintext, even when the disk fails |
| `LogEnc.WriteLog` | src/susshid/log-session-enc.c:204-334 | writing any pieces and closing leaves a file that decrypts to the pieces joined, and on a reliable disk no other file is accepted in its place |
| `LogEnc.LoopMeans` | src/shared/log-enc.c:421-446 | the chunk loop from any chunk on: a prefix is written, and success is exactly an acceptable rest |
| `LogEnc.DecryptFile` | src/shared/log-enc.c:394-456 | the reading loop computes the decryption the laws are about |
| `LogEnc.Writer.Write` | src/susshid/log-session-enc.c:281-306 | appends, and sends out one full chunk whenever the buffer is full |
| `LogEnc.Writer.Finalize` | src/susshid/log-session-enc.c:318-333 | the file is framed as documented, holds exactly what was written, and its final chunk is never a full one |
| `LogEnc.Writer.FlushChunk` | src/susshid/log-session-enc.c:254-266 | one chunk goes out and the buffer is empty |
| `LogEnc.FindSidecar` | src/shared/log-enc.c:474-526 | the sidecar is the one present at the last cut of the last path component; directory dots are never cut, and the channel suffix comes after every extension |
| `LogEnc.StripExtensions` | src/shared/log-enc.c:491-501 | extensions are tried one by one from the last; without a find the bare name is left |
| `LogEnc.CutsInName` | src/shared/log-enc.c:503-522 | in a bare name only the last dash is a cut, exactly when digits and only digits follow |
| `Base64.RoundTrip` | src/shared/base64.c:48-212 | every non-empty byte string comes back from each of its four spellings |
| `Base64.DecodeOfEncode` | src/shared/base64.c:48-76 | block decoding inverts block encoding up to the padding zeros |
| `Base64.DecodedLength` | src/shared/base64.c:174-212 | a success has exactly the length its text encodes; the empty text, and only it, is fatal |
| `Base64.SpellingsDiffer` | src/shared/base64.c:48-212 | no two byte strings share a spelling |
| `Base64.EncodedShape` | src/shared/base64.c:48-76 | length a multiple of four, pads exactly as the length asks and only at the end |
| `Base64.SymbolsAreTheAlphabet` | src/shared/base64.c:48-76 | the symbols are those of RFC 4648 in their order, and nothing but them and the pad has a value |
| `Base64.TripleIsItsBits` | src/shared/base64.c:48-76 | four symbols hold the 24 bits of three bytes, highest first |
| `Base64.Normalize` | src/shared/base64.c:101-149 | accepted exactly by the three conditions on length and pads; the result is the standard padded text |
| `Base64.Unbase64` | src/shared/base64.c:174-212 | normalise, decode, drop the pads: the decoding the laws are about |
| `Paseto.VerifiedIff` | src/shared/paseto.c:86-171 | a message is returned exactly for tokens whose payload decodes to it followed by a signature valid over the encoding of header, message, footer, empty |
| `Paseto.IssuedTokenVerifies` | src/shared/paseto.c:86-171 | an issued token verifies to its message exactly when its signature does |
| `Paseto.OnlySignedMessagesVerify` | src/shared/paseto.c:158-171 | with a key that signed only such encodings, a verified message was signed, with its footer |
| `Paseto.PaeInjective` | src/shared/paseto.c:134-151 | no two lists of pieces share an encoding |
| `Paseto.SignedInjective` | src/shared/paseto.c:134-151 | a signed text stands for one message and one footer |
| `Paseto.Le64Injective` | src/shared/paseto.c:53-61 | eight little-endian bytes determine the length |
| `Paseto.LowestFirst` | src/shared/paseto.c:53-61 | the byte at each place counts its power of 256, the lowest first |
| `Paseto.WriteLe64` | src/shared/paseto.c:53-61 | the shifting loop writes the eight bytes and nothing else |
| `Paseto.BuildPae` | src/shared/paseto.c:134-151 | the moving pointer fills exactly the buffer, with the encoding |
| `Paseto.SplitInvertsText` | src/shared/paseto.c:103-118 | splitting a token and joining its parts are inverse |
| `Paseto.Verify` | src/shared/paseto.c:87-171 | split, decode, encode and check: the verification the laws are about |
| `Memcrypt.DecryptInvertsEncrypt` | src/shared/memcrypt.c:125-310 | with a lawful cipher decryption gives the plaintext up to its first NUL, hence the whole of it exactly when it has none |
| `Memcrypt.OnlyEncryptedTextsDecrypt` | src/shared/memcrypt.c:223-310 | with a cipher that opens only what was sealed, a decrypted text was encrypted, whatever spelling it arrives in |
| `Memcrypt.EncryptBstring` | src/shared/memcrypt.c:172-187 | IV, tag and ciphertext are assembled in this order and encoded |
| `Memcrypt.DecryptBstring` | src/shared/memcrypt.c:223-310 | short blobs are refused, the parts are cut where encryption put them, and a failed tag gives nothing |
| `Memcrypt.Store.Key` | src/shared/memcrypt.c:92-109 | the key is determined by pool and seed, full length, printable, hence without NULs |
| `Memcrypt.Store.constructor` | src/shared/memcrypt.c:47-60 | the pool holds printable characters only |
| `LoginString.ParsesPrinted` | src/susshi-proxyd/session.c:102-211 | for every unique id, and every name or address, bare or bracketed, with or without port: id, lower-cased host, port (22 if none) and idle time come back; a bare host starting with "bastion" selects the bastion instead of a lookup |
| `LoginString.LocatesTarget` | src/susshi-proxyd/session.c:155-195 | host and port come back exactly when a text without a bare port of its own does not hold just one colon |
| `LoginString.ParsesBastionLogin` | src/susshid/connect-proxy.c:180-192 | the gateway's bastion string selects the bastion at its address and port, whatever resolution says |
| `LoginString.ParsesScannerLogin` | src/susshid/chef-remote.c:585-589 | the scanner's string selects the remote mode and hides the id - unless its host starts with "bastion" |
| `LoginString.OkAfterRefusalIff` | src/susshi-proxyd/auth-gateway.c:88-171 | over any exchange with a fresh proxy: a request is answered Ok after a refusal exactly when the first lookup failed and another request follows, every other refusal ends the process; an authenticated session has no address exactly when that lookup failed |
| `LoginString.FirstDecides` | src/susshi-proxyd/auth-gateway.c:88-171 | over any exchange, the answers and the final session are decided by the first login string alone |
| `LoginString.EndsAt` | src/susshi-proxyd/auth-gateway.c:88-171 | every exchange: it ends at the first request with an accepted key, the first request not counting after a failed lookup, or at a time-out or missing message before; a first string refused otherwise ends the process; each request up to there is answered, all but the first by Ok |
| `LoginString.AuthenticatedIff` | src/susshi-proxyd/auth-gateway.c:115-168 | the gateway is authenticated if and only if a request with an accepted key comes in time, after the first one if its lookup failed, and the first string was not refused |
| `LoginString.UnresolvedThenAuthenticated` | src/susshi-proxyd/auth-gateway.c:146-150 | at a resolver that knows no host: any login string of the gateway, then any string at all, ends authenticated for the first host with no address |
| `LoginString.ProxySession.GatewayAuthDispatch` | src/susshi-proxyd/auth-gateway.c:88-171 | the message loop computes the exchange the laws are about |
| `LoginString.ProxySession.StoreSplitLoginString` | src/susshi-proxyd/session.c:103-211 | the field-filling parser computes the parse the laws are about, in the order of its error returns |
| `LoginString.ProxySession.IdentifyLogin` | src/susshi-proxyd/session.c:111-153 | split, mode, id, idle time |
| `LoginString.ProxySession.LocateTarget` | src/susshi-proxyd/session.c:163-195 | brackets, port, range check, lower case |
| `LoginString.ProxySession.constructor` | src/susshi-proxyd/session.c:48-61 | a fresh session targets port 22 |
| `Eyeballs.Selector.SelectInOrder` | src/susshid/connect-target.c:47-78 | with a fixed family the k-th call returns the k-th stop of the walk, and -1 forever after the last |
| `Eyeballs.OrderIsAWalk` | src/susshid/connect-target.c:47-78 | the walk visits every address once, preferred ones ascending before all others ascending |
| `Eyeballs.NextStop` | src/susshi-proxyd/connect-target.c:45-74 | the next stop is the one unused address that precedes every other |
| `Eyeballs.Selector.SelectNext` | src/susshid/connect-proxy.c:586-615 | takes the first unused address of the walk and marks only it, or reports -1 exactly when none is left |
| `Eyeballs.Selector.Connect` | src/susshi-proxyd/connect-target.c:84-186 | the connect loop ends within one round more than there are addresses, succeeds exactly when some unused address answers, at the first of the walk that does, having used exactly those before it |

## Left out

- TargetAuth.Session.Dispatch: a run in which the process ends inside a call is covered up to that call; what a run does is bound from both sides by its last event, but a script that is used up exactly when false is returned is not told from a call that found no reply; messages to the user, logging, report fields and the disconnect text are not modelled, nor is the mask `available_target_auth_methods`, which only feeds that text.
- TargetAuth.Session.FinishClient: which methods are offered to the client meanwhile (`susshi_client_auth_enable_method` and its siblings) and the time-outs of its session are not modelled here.
- TargetAuth.Session.AuthenticateInteractive: prompts and answers are relayed by number; their texts matter only for the password prompt test. The preserved, static and one-time password sources behave alike and are one constructor.
- TargetAuth.Session.AuthenticatePublickey: context identities and the gateway's own are one number of keys; importing a key is an answer of the script.
- ClientAuth.Engine.Dispatch: the bit masks are sets of the four kinds the code ever puts in them; the grace time is an answer of the script, and the proxy connection is reduced to its success.
- Agent.Machine.ClientReady: replaying the recorded requests on the target is one step that succeeds or ends the session; window sizes and channel bookkeeping are not modelled. A close of any agent channel counts once the callback was armed.
- Agent.Machine.AuthenticateTarget: an identity is its place in the agent's list. When a key blob cannot be imported the C code leaves its comment unread and takes that for the next key (src/susshid/auth-pubkey-agent.c:1245-1249); what is offered at each place is not modelled.
- AgentTalk.Channel.Talk: sizes are 64 bits wide. A channel that answers zero bytes forever is a run that does not end.
- Cidr.ParsesText: dotted quads with missing octets are in the parser model but outside the theorems about networks.
- Cidr.OutcomeOf: where the shift would write in front of its buffer the C code's behaviour is undefined, and the model answers `Undefined`.
- Cidr.MatchCidr: the library conversions `inet_pton` and the IPv4 `inet_net_pton` are parameters.
- Relay.FifoConservation: sockets, the initial pause, signal handlers and the end of the session are answers of the script or not modelled.
- Embryonic.InvariantIff: a sweep and a claim are atomic steps; the SIGCHLD handler inside a claim, the mode without a daemon (where nothing is counted) and the detaching of shared memory are not modelled.
- Scp.EntryIsTransferred: numbers are unbounded where the C library would saturate, characters are bytes of a machine whose `char` is signed, and `sscanf` reads no further than the packet. A name of white space only is not taken for a header at all (`Scp.ScanHeaderOf`) and is outside the trees of the theorem. Time stamps and messages of the source are in the model but not in the theorem's sessions.
- ScpSession.SessionIsCounted: the channels of a run are open from its start; closing one is not modelled.
- LogEnc.AcceptsExactly: the secretstream is ideal, the n-th pull accepts the n-th pushed chunk under the right header and nothing else; key recovery from the sidecar and wrong keys are not modelled. Reads are short only at the end of the file.
- LogEnc.FindSidecar: paths longer than the C buffers are not modelled.
- Base64.Unbase64: `EVP_DecodeBlock` is the RFC 4648 block decoding; its tolerance for surrounding white space is not modelled. An allocation of size zero is the outcome `Fatal`.
- Paseto.Verify: the signature check is a predicate on text and signature; allocation failures are not modelled.
- Memcrypt.EncryptBstring: the key is a parameter; that a missing one is derived is `Memcrypt.Store.Key`.
- Memcrypt.DecryptInvertsEncrypt: AES-GCM is a pair of functions with the round-trip law; failures inside the library and the random source are not modelled, and wiping of memory is not either.
- LoginString.ParsesPrinted: name resolution is a function of host and port. The regular expressions are character classes, with the closing newline PCRE2 allows before the end.
- LoginString.ProxySession.GatewayAuthDispatch: time, messages and whether a key is accepted are answers of the script; the replies on the wire are not modelled.
- Conclusion.SuccessIsNeverTakenBack: that nothing in the session takes back what is authenticated, or leaves the shell mode, is a hypothesis on the changes between the calls; the code has no assignment that does.
- Eyeballs.Selector.Connect: one loop stands for three; every address is tried at most once, so whether an attempt succeeds is a function of the address; what else the loops do around it is not modelled.
- The susshid session and master loops, the channel and SFTP inspectors, Chef's HTTP and JSON, configuration loading, hooks, reports, the monitor daemon and the command-line tools: not modelled; they move data between the parts above and the outside, and hold little state of their own.
- Cryptographic strength, memory wiping and the quality of randomness.

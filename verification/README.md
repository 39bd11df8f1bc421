# Symfony CLI: a verified model of its protocols

A Dafny 4.11 model of the parts of the Symfony CLI that follow a protocol or keep an
invariant over unbounded inputs or runs, with proofs. `dafny verify dfyconfig.toml` checks it.

| files | what they model |
|---|---|
| `FcgiWire`, `FcgiStream`, `FcgiClient`, `FcgiRequest`, `FcgiReader` | the FastCGI client: records, name/value pairs, the buffered stream writer, one Responder request, the response reader (FastCGI Specification 1.0, sections 3.3, 3.4, 5.1 to 5.3, 5.5, 6.2 and 8) |
| `Runner`, `RunnerCases`, `RunnerBoot`, `RunnerRestart` | the supervision loop of `Runner.Run` with its pid file as a machine; what each case of its selects does and when it is ready; what first boot proves of a command; when a command is started again |
| `RunnerLoop` | that loop as code, proved to follow the machine |
| `ComposeGate` | the Docker Compose worker, its hooks, and the wait group that holds back the other workers |
| `Handshake` | `Background` and `NotifyForeground` around the status file |
| `DetachedStart` | parent and detached runner together |
| `ProxyRouting`, `ProxyConfig` | the proxy's domain table, its edits, and the certificate cache |
| `Routes` | ordered decoding of the routes and the two default-route searches |
| `PhpEnv` | the generated PHP env file |
| `GitOutput` | the indenting writer for git's output |
| `Basics` | shared helpers |

Code that computes a value is a function. Code that changes things step by step is a class or
a method with loops, proved against such a function; the laws are lemmas about the functions.
Ranging over a Go map is a loop that picks any remaining key, and the order it took is a ghost
result, so each statement holds for every order.

The concurrent parts (`Runner`, `ComposeGate`, `Handshake`, `DetachedStart`) are step
functions. A run is any sequence of choices by the scheduler and the environment; a choice
that is not possible in a state changes nothing. Two of them are also given as the loop the
source has: `RunnerLoop.Supervisor.Run` is `Runner.Run` from its `for` on, with its phases in
order and its selects as blocking points, and `Handshake.Reexec.Background` is the `for` and
`select` of `Background`. Neither has a program counter. Each is proved to pass, for every
schedule, through a run of its machine, so what is proved of all runs is proved of the loop.
The gate and the combined start are machines only: their code is hooks and goroutines.

## Assumptions

- A pid is not given to two processes, `Timer.Stop` leaves no tick behind (the module asks for
  a Go version where that holds), and a child whose exit status is available has been reaped.
- Nobody but the runner writes its pid file, and nobody but parent and child touches the status
  file. A file event may be dropped, delayed, repeated or coalesced, but never tells of
  something that did not happen. Writing the status file is one step.
- The FastCGI transport takes some number of bytes and then fails for good.

## What the code does less than it says

- A parameter name longer than 65492 bytes makes `writePairs` panic on a negative slice bound
  (`FcgiRequest.WritePairs`).
- `Do` reports a failed write only for BEGIN_REQUEST and for PARAMS records flushed before the
  last pair; a later loss goes unreported (`FcgiRequest.Do`).
- The comments on the looping modes promise a restart after an error
  (local/runner.go:48-49). The code restarts if and only if `AlwaysRestartOnExit` is set
  (`RunnerRestart.FailureRestartsIff`; a run that stops is `RunnerRestart.LoopingFailureStops`).
- First boot lets a command through that failed within its two seconds if the timer case of the
  select is taken while the failing status is ready too, and then the parent reports success
  over a dead command (`RunnerBoot.FailureLetThrough`, `DetachedStart.DeadCommandReportedUp`;
  the exact condition is `RunnerBoot.EarlyFailurePassesIff`).
- A detached runner that restarts automatically removes its pid file and never writes it again
  (`Runner.DetachedPidFile`; a run is `Runner.DetachedFileLost`).
- A successful Docker Compose exit that loses the race against a file change is drained: the
  gate stays closed and `--wait` is passed again (`ComposeGate.DrainedSuccessIsLost`; the exact
  condition is `ComposeGate.WaitIffDrained`).
- If the status file cannot be read, a child that did report may be killed
  (`Handshake.UnreadableFileKills`; the exact condition is `Handshake.TimedOutIff`).
- Wildcards of other forms than "*." and a suffix can tie, and then map order decides
  (`ProxyRouting.TiedWildcards`; the exact condition is `ProxyRouting.OrderIrrelevantIff`).
- `Config.reload` of a file without domains leaves a nil map, and `AddDirDomains` and
  `ReplaceDirDomains` on that `Config` would panic (`ProxyConfig.Config.SetDomains`,
  `ProxyConfig.Config.AddDirDomains`). This is of the type's methods, not of a path the program
  takes: only the proxy server watches its `Config` (local/proxy/proxy.go:318), and edits are
  made on freshly loaded ones.
- A rejected domain name leaves the edits made before it in memory but not in the file
  (`ProxyConfig.Config.ReplaceDirDomains`).

## Model

| member | source | states |
|---|---|---|
| FcgiWire.RecordRoundTrip | local/fcgi_client/fcgiclient.go:87-93 | a section 3.3 parser gets type, id, content and padding back if and only if the content length fits 16 bits |
| FcgiWire.HeaderLayout | local/fcgi_client/fcgiclient.go:87-93 | the eight header bytes of a record as section 3.3 lays them out, followed by the content and fewer than eight bytes of padding |
| FcgiWire.RecordAligned | local/fcgi_client/fcgiclient.go:92 | every record is a multiple of eight bytes, for every content length |
| FcgiWire.SizeRoundTrip | local/fcgi_client/fcgiclient.go:236-244 | a section 3.4 decoder gets a length back if and only if it is below 2^31 |
| FcgiWire.PairRoundTrip | local/fcgi_client/fcgiclient.go:214-230 | a name/value pair is decoded back, whatever follows it |
| FcgiWire.EncodeParses | local/fcgi_client/fcgiclient.go:180-196 | any list of records that fit is parsed back record by record |
| FcgiStream.PutExtends | local/fcgi_client/fcgiclient.go:261-288 | a buffered write of any size adds exactly its bytes to the stream and only non-empty records of at most 65500 bytes |
| FcgiStream.PutFull | local/fcgi_client/fcgiclient.go:267-288 | a buffered write sends only full records of 65500 bytes, except for the end of a write that bypasses the buffer |
| FcgiStream.ReadFromExtends | local/fcgi_client/fcgiclient.go:337-340 | so does reading a source into the buffer, for every choice of read sizes, empty reads included: what is added is a prefix of the data, all of it unless a hundred reads in a row come empty |
| FcgiStream.ReadFromFull | local/fcgi_client/fcgiclient.go:337-340 | reading a source sends only full records of 65500 bytes |
| FcgiStream.GivesUp | local/fcgi_client/fcgiclient.go:337-340 | a hundred empty reads in a row end the reading there, with the rest of the data unread |
| FcgiStream.PutPairsHolds | local/fcgi_client/fcgiclient.go:203-231 | after any number of pairs the flushed records and the buffer each hold whole pairs, together exactly those put, in order, over-long values cut |
| FcgiStream.ParamsDecode | local/fcgi_client/fcgiclient.go:203-234 | PARAMS records are non-empty, each decodes on its own, and their concatenation decodes to the same pairs |
| FcgiStream.ParamsAsMap | local/fcgi_client/fcgiclient.go:207-213 | for every iteration order the decoded pairs are the parameter map, a value kept whole if it and its name fit 65492 bytes and else cut to its first 65492 - len(name) |
| FcgiStream.StdinIsBody | local/fcgi_client/fcgiclient.go:337-341 | however the body arrives, STDIN records are non-empty, bounded and concatenate to what is read of it, a prefix, and the whole unless its source stalls |
| FcgiStream.RequestAccepted | local/fcgi_client/fcgiclient.go:326-345 | the bytes of a request are accepted by a Responder written from the specification: one id, BEGIN_REQUEST (1) with role 1, PARAMS (4), empty PARAMS, STDIN (5), empty STDIN, nothing left over |
| FcgiClient.EncodeSize | local/fcgi_client/fcgiclient.go:236-244 | writes the encoded length into the scratch buffer at an offset and leaves what is before it |
| FcgiClient.Client.WriteRecord | local/fcgi_client/fcgiclient.go:180-196 | the wire grows by the framed record, cut where the transport stops; the result tells whether it was cut |
| FcgiClient.Client.WriteBeginRequest | local/fcgi_client/fcgiclient.go:198-201 | sends a BEGIN_REQUEST record with role and flags in section 5.1 layout |
| FcgiClient.StreamWriter.Write | local/fcgi_client/fcgiclient.go:274-288 | splits into records of at most 65500 bytes, stopping at the first refusal; the count is exactly that of the bytes in records accepted whole |
| FcgiClient.StreamWriter.Close | local/fcgi_client/fcgiclient.go:290-293 | sends one empty record |
| FcgiClient.BufWriter.Write | local/fcgi_client/fcgiclient.go:261-265 | the buffered writer follows the stream function; the wire is its records, cut where the transport stops; what fits is only copied |
| FcgiClient.BufWriter.Flush | local/fcgi_client/fcgiclient.go:253-258 | flushing sends the buffer as one record, or nothing when it is empty |
| FcgiClient.BufWriter.ReadAll | local/fcgi_client/fcgiclient.go:337-340 | reading a source into the writer follows the stream function, and succeeds exactly when nothing was refused and nothing left unread |
| FcgiClient.BufWriter.Close | local/fcgi_client/fcgiclient.go:253-258 | flushes and ends the stream with an empty record, also after a refused write |
| FcgiRequest.WritePairs | local/fcgi_client/fcgiclient.go:203-234 | every entry of the map is sent, in some order; reports a failure exactly when a record flushed inside the loop was refused; with a name over 65492 bytes it panics unless refused first, the wire then holding exactly the records flushed for the entries visited |
| FcgiRequest.PutNext | local/fcgi_client/fcgiclient.go:208-230 | one pair: flushes first when it would not fit, then buffers it whole, and the count stays the number of buffered bytes |
| FcgiRequest.RequestCarries | local/fcgi_client/fcgiclient.go:326-345 | the request bytes carry the parameter map and the body to a receiver that follows the specification |
| FcgiRequest.Do | local/fcgi_client/fcgiclient.go:326-345 | the wire holds a prefix of one well-formed request for this map and body, all of it if the transport took every byte; states exactly when an error is returned, and what is on the wire when it panics |
| FcgiReader.FramedContents | local/fcgi_client/fcgiclient.go:100-123 | records of any type but END_REQUEST, with any padding, are worth their contents in order |
| FcgiReader.ResponseContents | local/fcgi_client/fcgiclient.go:100-123 | a response ended by END_REQUEST, or by the transport, is worth exactly its contents and ends with EOF |
| FcgiReader.FrameNext | local/fcgi_client/fcgiclient.go:108-111 | END_REQUEST ends the stream at its header and leaves its body unread |
| FcgiReader.CutRecord | local/fcgi_client/fcgiclient.go:100-119 | a record cut off by the end of the transport, anywhere in its header, content or padding, is an error and delivers nothing; only END_REQUEST (3) is whole with its header |
| FcgiReader.FaultyContents | local/fcgi_client/fcgiclient.go:100-119 | whole records followed by a cut record, a cut header or a header of another version are worth their contents and that error, never EOF |
| FcgiReader.StreamReader.ReadRecord | local/fcgi_client/fcgiclient.go:100-123 | what one record read consumes and returns, for well-formed, truncated and wrong-version input |
| FcgiReader.StreamReader.Read | local/fcgi_client/fcgiclient.go:300-322 | takes its bytes off the front of what is pending, makes progress, and returns EOF exactly with an empty buffer at END_REQUEST or the end of the transport |
| FcgiReader.StreamReader.ReadWith | local/fcgi_client/fcgiclient.go:300-322 | for every sequence of buffer sizes nothing is lost or repeated, and enough reads reach the end |
| FcgiReader.ReadResponse | local/fcgi_client/fcgiclient.go:300-322 | a response framed by any peer, read with buffers of any sizes, enough of them, gives exactly its contents and then EOF, whatever follows END_REQUEST |
| FcgiReader.ReadFaulty | local/fcgi_client/fcgiclient.go:300-322 | such a response, read with buffers of any sizes, enough of them, gives the contents of its whole records and then the error |
| Runner.InvStep | local/runner.go:170-294 | every step keeps the invariant on control, children, timer and pid file |
| Runner.OneChild | local/runner.go:176-180 | in every run at most one child is alive and at most one status pending, never both, and none of either at the loop head |
| Runner.SettledOnce | local/runner.go:189-200 | no exit status is decided on twice, the re-sent first-boot status included |
| Runner.SettledBeforeNextLaunch | local/runner.go:229-237 | between two launches the first command's status is decided on, exactly once, drained ones included |
| Runner.SettledAs | local/runner.go:180-237 | the status decided on is the one the command exited with, carried through the re-sending of first boot |
| Runner.TimerUnarmed | local/runner.go:165-204 | the shared timer is unarmed at the loop head and whenever the main select or the drain is entered |
| Runner.BackoffRespected | local/runner.go:260-287 | after a failing exit with automatic restart no command starts for five seconds unless a restart request was taken meanwhile |
| RunnerCases.SignalEnds | local/runner.go:221-228 | in every mode a signal taken ends the run, as signalled in the main select and as stopped in the backoff: no launch and no change of the pid file follows |
| RunnerCases.SignalReady | local/runner.go:221-278 | in both selects the signal case is ready if and only if a signal has been delivered |
| RunnerCases.FirstBootIff | local/runner.go:160-219 | first boot lasts, in the looping modes only, until the pid file is first written |
| RunnerCases.LaunchDecides | local/runner.go:170-188 | a command that cannot be built or started ends the run with that error and starts nothing; one that starts is alone, and gets its two seconds exactly before the first pid file of a looping mode |
| RunnerCases.BootExitDecides | local/runner.go:189-200 | the status received in first boot is the command's; a failure ends the run as failed early, a success is kept for later and the pid file is next |
| RunnerCases.ReliefReady | local/runner.go:183-203 | the timer case of first boot is ready if and only if two seconds have passed since the launch |
| RunnerCases.PublishDecides | local/runner.go:206-219 | when the pid file must be written, by mode and history; a file naming a process in use and a failed write each end the run and leave it; otherwise it names the command or the runner |
| RunnerCases.ExitReady | local/runner.go:180-237 | an exit not received yet can be received wherever the runner waits for its command |
| RunnerCases.ExitDecides | local/runner.go:237-291 | for every mode and setting, whether the command's exit ends the run and with which result, restarts it at once or after five seconds, and when the pid file goes |
| RunnerCases.RestartAnswered | local/runner.go:229-235 | after a restart request is taken the runner waits for its command's exit alone, drops that status without hook or result, and is due to launch |
| RunnerCases.BackoffReady | local/runner.go:273-283 | the timer case of the backoff is ready if and only if five seconds have passed since the failure, and leads to a launch |
| RunnerCases.SettingsKept | local/runner.go:63-65 | without a success hook `AlwaysRestartOnExit` and the hooks stay as given for the whole run |
| RunnerRestart.LaunchesOnce | local/runner.go:160-161 | in mode once with nothing watched a run launches at most one command |
| RunnerRestart.OnceOutcome | local/runner.go:222-257 | such a run, once over, was ended by a signal with the status not looked at, or by that command's status: failed if it failed, failed to remove the pid file, or stopped with the pid file gone |
| RunnerRestart.RestartOnlyOnRequest | local/runner.go:229-291 | in every mode, without `AlwaysRestartOnExit` and a success hook, a restart request was taken between any two launches |
| RunnerRestart.FailureRestartsIff | local/runner.go:260-290 | after a failing exit in a looping mode some continuation launches again if and only if `AlwaysRestartOnExit` is set; otherwise the run is over |
| RunnerRestart.LoopingFailureStops | local/runner.go:46-50 | an attached run whose command fails after first boot and is never started again, against the comment |
| RunnerBoot.FirstBootPassed | local/runner.go:182-204 | when first boot is passed the command has exited successfully, or two seconds are over and it is alive or has a failing status nobody has looked at |
| RunnerBoot.EarlyFailurePassesIff | local/runner.go:189-203 | a command that fails within its two seconds is let through if and only if the timer case is taken while the failing status is ready |
| RunnerBoot.FailureLetThrough | local/runner.go:189-203 | such a run, in either looping mode, with the pid file written over a dead command |
| Runner.AttachedPidFile | local/pid/pidfile.go:341-361 | in attached mode, after the first write no later one is refused, and the file holds the current command whenever the runner waits for it |
| Runner.CmdIsLatest | local/runner.go:206-213 | the command recorded is the most recently started one |
| Runner.FailedEarlyWritesNothing | local/runner.go:190-194 | a run that fails in first boot never writes the pid file and leaves what was there |
| Runner.DetachedPidFile | local/runner.go:209-267 | in detached mode the file names the runner if and only if no automatic restart has removed it, and is gone for good otherwise |
| Runner.DetachedFileLost | local/runner.go:260-267 | a detached run that restarts its command and goes on without a pid file |
| RunnerLoop.Supervisor.Run | local/runner.go:170-294 | the loop, phase by phase and with no program counter, passes for every schedule through a run of the machine, and returns the result that run ends with |
| ComposeGate.HookStep | commands/local_server_start.go:362-390 | each step keeps counter, build hook, success hook and restart flag in agreement |
| ComposeGate.DependantsAfterExit | commands/local_server_start.go:326-394 | no dependant starts before a Compose process has exited successfully |
| ComposeGate.GateOpenIff | commands/local_server_start.go:371-394 | the wait group is open, and a dependant can start, if and only if Compose has exited successfully and the main select has received that status |
| ComposeGate.DoneOnce | commands/local_server_start.go:371-390 | `dockerWg.Done` fires at most once |
| ComposeGate.WaitIffDrained | commands/local_server_start.go:365-387 | a launch passes `--wait` if and only if every successful exit of Compose before it was drained for a restart |
| ComposeGate.WaitUntilUp | commands/local_server_start.go:365-387 | with nothing watched, if and only if Compose has not exited successfully before it |
| ComposeGate.OneRelaunch | commands/local_server_start.go:374-387 | Compose is relaunched on exit exactly when its success is handled, so at most once |
| ComposeGate.DrainedSuccessIsLost | local/runner.go:229-235 | a run in which Compose has exited successfully, the gate is closed and `--wait` is passed again |
| Handshake.BackgroundMeansUp | reexec/reexec.go:162-178 | `Background` returns nil only after the child has removed the status file |
| Handshake.WaitEndsIff | reexec/reexec.go:149-190 | the wait ends at a step if and only if a signal could not be sent on, the removal is noticed by event or tick, the child's exit is taken, or a tick comes with nothing heard of the child |
| Handshake.TickDecides | reexec/reexec.go:173-187 | a tick that can read the file leaves, waits or kills exactly by whether the file was removed and whether a status was written before it |
| Handshake.FirstTickAfterRemoval | reexec/reexec.go:177-178 | the first tick handled after the removal returns nil |
| Handshake.AliveIffHeard | reexec/reexec.go:162-181 | while the parent waits it takes the child for alive if and only if a write event or a poll has told it of one |
| Handshake.TimedOutIff | reexec/reexec.go:173-187 | a tick kills the child if and only if the file was not removed, nothing was heard before, and this poll does not find a status |
| Handshake.TimedOutUnheard | reexec/reexec.go:182-186 | in any run, a child killed for a time-out was killed by a tick before which nothing was heard of it, and before which it had written nothing if that tick could read |
| Handshake.UpIsFinal | reexec/reexec.go:192-210 | after UP no call of `NotifyForeground` recreates or rewrites the file |
| Handshake.ChildUntilUp | reexec/reexec.go:192-210 | the child can report if and only if it has not said it is up |
| Handshake.StatusIsTheChilds | reexec/reexec.go:128-172 | an exit status passed on by the parent is the one the child died with |
| Handshake.StatusPassedOn | reexec/reexec.go:171-172 | taking the child's exit ends the wait at once and passes on the status the child died with |
| Handshake.DeathIsNoticed | reexec/reexec.go:128-172 | from the child's death on that case is ready as long as the parent waits |
| Handshake.FileIsLastReport | reexec/reexec.go:192-210 | while the parent waits the file holds the child's last report, empty before the first, and is gone after the removal |
| Handshake.LeavesNoFile | reexec/reexec.go:93-98 | however `Background` returned, no status file is left and the child never makes another |
| Handshake.UnreadableFileKills | reexec/reexec.go:177-186 | a run in which a child that reported is killed because the poll could not read |
| Handshake.Reexec.Background | reexec/reexec.go:149-190 | the for and select loop, against a child that moves whenever it blocks, passes for every schedule through a run of the machine, and returns the outcome that run ends with |
| DetachedStart.BackgroundMeansPassed | local/runner.go:182-217 | when the parent reports success the runner has started a command, written its own pid and passed first boot: the command had exited successfully, or two seconds were over and it was alive or had a failing status nobody had looked at |
| DetachedStart.FailureNeverReportedUp | local/runner.go:190-194 | a run that ended as failed early is never reported as gone to the background |
| DetachedStart.EndsAsItsLoop | local/runner.go:170-294 | the child process ends with its loop, successfully after a stop and with an error after any failure |
| DetachedStart.FailurePassedOn | reexec/reexec.go:171-172 | after a failed first boot a parent that takes the child's status returns an error |
| DetachedStart.StartIsReported | local/runner.go:185-187 | the first start is in the status file as "started" if the report gets through |
| DetachedStart.PassingIsReported | local/runner.go:214-217 | passing first boot removes the status file if the report gets through, and the parent's next tick reports success |
| DetachedStart.EarlyFailureUpOnlyByTimer | local/runner.go:189-217 | a command that failed within its two seconds is reported up only if the timer case was taken while its status was ready |
| DetachedStart.DeadCommandReportedUp | local/runner.go:189-217 | a run in which the command fails at once and the parent reports success |
| ProxyRouting.NormalForm | local/proxy/config.go:273-304 | the normal form ends with the TLD and its stripped form is a key of the table or the unmatched host |
| ProxyRouting.NormalizesIff | local/proxy/config.go:273-297 | the names a domain can be normalised to, over all key orders, are exactly the host's if it is a key, else those of the longest matching wildcards, else the host's |
| ProxyRouting.TldStripped | local/proxy/config.go:299-304 | a name is cut before the dot of its TLD, and left alone if it does not end with one |
| ProxyRouting.MatchesIff | local/proxy/config.go:280-286 | a key matches if and only if it has a star and the host ends with the key's unstarred form |
| ProxyRouting.UnstarEach | local/proxy/config.go:285 | every "*." of a key, wherever it is, stands for "." |
| ProxyRouting.UnstarRest | local/proxy/config.go:285 | a key without "*." stands for itself |
| ProxyRouting.NormalizeIdempotent | local/proxy/config.go:273-297 | normalising twice changes nothing, even with another key order the second time |
| ProxyRouting.RouteMeetsSpec | local/proxy/config.go:143-147 | for any table the lookup gives the exact key's directory, else that of a longest matching wildcard, else none |
| ProxyRouting.LongestCanWin | local/proxy/config.go:280-292 | each longest match wins for some key order |
| ProxyRouting.OrderIrrelevantIff | local/proxy/config.go:280-292 | the directory is independent of key order if and only if the host is a key or all longest matches share a directory |
| ProxyRouting.SameLengthSameKey | local/proxy/config.go:284-290 | two matching wildcards "*." plus star-free suffix of equal length are one key |
| ProxyRouting.ProperRoutes | local/proxy/config.go:143-147 | with wildcards "*." plus star-free suffix the lookup is, in any key order, the host's own directory, else that of the longest suffix in the table the host ends with after a dot, else none; plain keys serve only themselves |
| ProxyRouting.TiedWildcards | local/proxy/config.go:280-292 | a table and two orders with different answers |
| ProxyRouting.ListedRoutesBack | local/proxy/config.go:149-159 | every listed name, wildcard names included, routes back to its directory |
| ProxyConfig.ReplaceOwns | local/proxy/config.go:184-199 | after a replacement the directory owns exactly the names given and others lose only those |
| ProxyConfig.Config.NormalizeDomain | local/proxy/config.go:273-297 | the loop over the map computes the normal form for the order it took |
| ProxyConfig.Config.GetDir | local/proxy/config.go:143-147 | the directory returned meets the specification, and is the one served where wildcards are proper |
| ProxyConfig.Config.GetDomains | local/proxy/config.go:149-159 | lists each domain of the directory once, nothing else, and each routes back |
| ProxyConfig.Config.ReplaceDirDomains | local/proxy/config.go:184-199 | new table, saved file, and the outcome for good names, the first bad name, a failed save and a nil map |
| ProxyConfig.Config.AddDirDomains | local/proxy/config.go:201-211 | the same for adding; once saved the directory owns its names and the added ones, and others lose only those |
| ProxyConfig.Config.RemoveDirDomains | local/proxy/config.go:213-223 | the same for removing, which a nil map survives; once saved every directory owns its names but the removed ones |
| ProxyConfig.Config.SetDomains | local/proxy/config.go:178-182 | a reload without domains leaves the map nil |
| ProxyConfig.CertStore.GetCertificate | local/proxy/cert_store.go:48-62 | the certificate is for the name as normalised now; what is cached, created, evicted and when it fails |
| ProxyConfig.CertStore.Session | local/proxy/cert_store.go:48-62 | over any sequence of lookups, evictions and half-done reloads there is one reply per operation; each lookup gets a certificate for the server name as normalised by the configuration in force at that operation, the cached one if there is one, and none only when none is cached and creation fails |
| ProxyConfig.TldInForce | local/proxy/config.go:239-252 | the TLD in force is that of the last reload of it |
| ProxyConfig.DomainsInForce | local/proxy/config.go:239-252 | the table in force is that of the last reload of it, empty if the file had no domains |
| Routes.SkipExact | envs/url.go:78-97 | skipping consumes exactly the tokens of one value, of any depth |
| Routes.Decoder.SkipValue | envs/url.go:78-97 | the recursive loop follows the skipping function, errors included |
| Routes.Unmarshal | envs/url.go:35-76 | one entry per top-level key in document order, each the decoded value of the last member with its key, carrying that key; fails exactly on a non-object or a value that does not decode |
| Routes.CollectKeys | envs/url.go:52-64 | the keys are the members' keys in order and the whole object is consumed |
| Routes.Filter | envs/remote.go:270-286 | selects exactly the eligible routes in document order |
| Routes.ProjectDefault | envs/remote.go:270-319 | the eligible route with the least priority class, then position; none exactly when none is eligible |
| Routes.ApplicationDefault | envs/remote.go:344-391 | the same among the routes of the application |
| Routes.BestIsUnique | envs/remote.go:292-318 | there is only one such route |
| Routes.BestByWish | envs/remote.go:270-319 | the route chosen is the first upstream route with a valid URL that meets the dearest wish any such route meets, the ten wishes being spelt out with their patterns |
| Routes.DefaultsAgreeIff | envs/remote.go:270-391 | the two searches agree if and only if no other application's route precedes all own ones, in particular when there is no other application |
| PhpEnv.QuotedRoundTrip | local/php/php_server.go:59 | an escaped string in single quotes reads back, backslashes and quotes in any run |
| PhpEnv.EscapeMeans | local/php/php_server.go:59 | backslashes and single quotes get a backslash in front, every other character stays |
| PhpEnv.FileRoundTrip | local/php/php_server.go:225-228 | the printed file reads back as the entries, in any order |
| PhpEnv.EnvFile | local/php/php_server.go:212-228 | the file is the PHP opening tag and one `$_ENV` line per entry, in some order, and reads back as the environment with the generated variables on top |
| GitOutput.CutAnywhere | git/exec.go:78-115 | cutting the input anywhere changes neither the output nor what is kept |
| GitOutput.KeptIsTail | git/exec.go:96-102 | what is kept is the input after its last CR or LF |
| GitOutput.LinePrinted | git/exec.go:104-113 | a line ended by CR or LF is printed behind two spaces, an empty one as it is |
| GitOutput.NothingLost | git/exec.go:104-113 | taking the indents off the output and appending what is kept gives the input back |
| GitOutput.Writer.Scan | git/exec.go:87-115 | prints the complete lines of the buffer and keeps the rest |
| GitOutput.Writer.WriteChunks | git/exec.go:78-85 | any split of the input into writes gives the result of one write |

## Left out

- FcgiClient.BufWriter.ReadAll: the read after the last byte reports the end of the source, so empty reads between the last byte and the end are not modelled; no byte depends on them.
- FcgiClient.BufWriter.Write: also stands for `WriteString`, which differs only for a string that does not fit an empty buffer; `writePairs` never writes one.
- RunnerLoop.Supervisor.Run: starts at the loop; opening the log, watching files and the choice between parent and child before it are not modelled.
- RunnerCases.SignalEnds: the error of forwarding a signal is not told apart from its success in the result; `DetachedStart` tells them apart in the child's exit status.
- Handshake.Reexec.Background: starts at the loop; a kill that fails is not told apart from one that succeeds.
- `ComposeGate` and `DetachedStart` model the workers' goroutines and the pair of processes on values, as moves of a machine; the hooks themselves are code in `RunnerLoop.Supervisor`.
- GitOutput.Writer.Write: the underlying output never fails.
- Time is a logical clock in `Runner` and absent from `Handshake`, whose ticks come at any time.
- Sockets, TLS, HTTP proxying, header parsing and multipart bodies (`Request`, `Post`, `PostFile`, `extractStatus`): library work with little state of its own.
- `Config.Dirs`, `GetReachableDomains`, `Load`, `Watch` and the JSON files: easy members beside those modelled.
- JSON, base64, URL and certificate libraries: routes start from the JSON tree and its tokens, and decoding one route and validating one URL are parameters.
- PHP turns a key made of digits into an integer index; keys are strings here.
- Exclusion between two processes on one pid file: check and write are separate steps in the code.
- Windows-specific paths, log humanising, toolbar rewriting, Composer and PHP discovery, cloud commands and generated tables.

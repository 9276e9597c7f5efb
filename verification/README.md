# Mail proxy, region statistics, upgrade agent and update manager: a verified model

The repository deploys a monitoring platform. Five of its Python programs hold real state: an SMTP
channel with two proxies (`smtpd.py`), the per-table statistics of an HBase collector
(`hbase_regionserver_info.py`), the agent that upgrades a host (`uagent.py`), and the manager that
publishes per-host configuration packages together with its polling daemon (`update_manager.py`,
`um_daemon.py`). This project models them in Dafny and proves what they promise, over every input,
every run and every reachable state.

`dafny verify dfyconfig.toml` checks the whole project.

## How the model is built

Every object or loop that changes state is a class or a method with the fields, branches and early
returns of the original, proved equal to a specification function; the results are lemmas about
those functions, over whole runs. Network, signatures, archives, the clock and the database are
parameters that may answer anything.

| file | what it holds |
|---|---|
| `Text.dfy`, `Wrappers.dfy` | Python's find, split, join, strip, case and decimal conversion; Option |
| `SmtpChannel.dfy` | the channel: parsing, commands, the DATA mode, the object |
| `SmtpRuns.dfy` | runs of the channel, read back from the transcript the client sees |
| `SmtpWire.dfy` | framing by terminator, transparency (section 4.5.2 of RFC 821), whole sessions |
| `SmtpProxy.dfy` | the trace header of PureProxy, the recipient partition of MailmanProxy |
| `Samples.dfy` | running mean, minimum and maximum; the emitted delta and dev |
| `TableStats.dfy` | the nested dictionaries, cycles, saves and restarts |
| `StatsReport.dfy` | what send_metrics emits, conservation, the TableStats object |
| `Versions.dfy` | version numbers: parser, printer, order, ranges |
| `UAgent.dfy`, `UpgradeRuns.dfy` | one attempt, run(), sequences of runs |
| `UpgradeFaults.dfy` | inputs on which the upgrade fails its purpose |
| `UpdateManager.dfy` | keys, paths, the fetcher, install.conf |
| `UmDaemon.dfy` | the polling windows |
| `VersionJson.dfy` | the text of version.json, written, cut off and read |
| `Release.dfy` | the published version.json read by the agent |
| `Delivery.dfy` | daemon and fetcher together: no change is missed |
| `Packager.dfy` | packaging and copying the files of one host |
| `Publishing.dfy` | rounds of fetching, packaging, copying and reloading: what is published |
| `Rollout.dfy` | an agent that asks between the rounds: what it installs |

## Findings

- An empty DATA section, sent as a lone dot directly after the 354 reply, does not end there: the
  channel waits for CR LF, dot, CR LF, and the CR LF before the dot was consumed with the command.
  A data section is framed as sent, whatever follows, exactly when it has a line
  (`SmtpWire.FramedIffNonEmpty`). After an empty one, a second lone dot delivers the empty message,
  and anything else up to the next terminator becomes its text (`SmtpWire.EmptySection`); so a whole
  next session is swallowed (`SmtpWire.NextSessionSwallowed`).
- The shipped `uagent.conf` uses plain http base URLs (template/umanager/config/uagent.conf:9),
  and `download_file` refuses everything but https. With such bases `run()` can only return
  ERR_DOWNLOAD_FAILED (`UAgent.PlainHttpNeverUpgrades`).
- VersionFile catches ValueError only. JSON that is no object, a version or upgradeFrom that is no
  string, and an upgradeFrom that is a version without a dash raise other exceptions; so does a
  packageFile that is no string, once the checks have passed. They leave `upgrade_once` and `run()`,
  and the later locations are never tried. When that happens is exact for the file, the attempt and the
  run (`UAgent.ReadRaisesIff`, `UAgent.AttemptRaisesIff`, `UAgent.RunRaisesIff`);
  `UpgradeFaults.OneBadFileStopsTheRun`, with the files of `UpgradeFaults.BadFiles`, has runs that end
  so although every other location would have upgraded.
- Downloads are stored under the last component of their URL. A package whose path ends in
  version.json, such as ../download/version.json, is stored over its release and then installed in its
  place, with OK. The served release is what gets installed exactly when its package path ends
  otherwise (`UAgent.ServedInstalledIff`); the results about installed versions have that as their
  condition. With a package that is no JSON the agent can never upgrade again
  (`UpgradeFaults.PackageReplacesRelease`).
- The agent reads only the first 1024 characters of a version.json. What packager publishes is
  well-formed for the agent exactly when no component is negative (the minus sign is taken for the
  dash of the range) and the file has at most 1025 characters, the last being a newline
  (`Release.PublishedAcceptedIff`); with a Content-Length the download already fails at 1025
  (`Release.PublishedUpgradesIff`).
- `generate_key` tells a host from all others exactly when its org, sys and name have no underscore
  (`UpdateManager.KeyIsOwnIff`). The version kept for a host is its own maximum exactly when no
  version counted under its key is above all of its own (`UpdateManager.HostMaximumIff`);
  `UpdateManager.WrongVersionKept` is a fetch where it is not.
- A written configuration file named install.conf replaces the copy list of its host. The list is
  complete exactly when that did not happen or the file is, text for text, the list up to its own line
  (`UpdateManager.InstallConfCompleteIff`); `UpdateManager.LinesLost` is a fetch that loses a line. Read back line by line, a list gives the
  file names and paths it was made from exactly when no file name contains a colon and a space
  (`UpdateManager.ReadBackIff`).
- A save of the statistics that dies after opening the state file loses the previous state across a
  restart, although the running process keeps it (`TableStats.RestartKeepsPrev`).
- The polling windows leave no gap even when the database clock jumps back (`UmDaemon.NoGap`). They
  also make up for a change that becomes visible late, by exactly 130 s (`UmDaemon.ToleratedIff`).
- The daemon reloads the manager module after each iteration, which clears VERSIONS and PLATFORMS. Only
  without a reload do the releases of a host rise (`Publishing.BuildsRise`). An agent that did not ask
  between two windows misses a higher release of the first (`Rollout.UnaskedIsLost`, with versions 5 and
  3 in `UpgradeFaults.HigherReleaseLost`). An agent that took the first answers WARN_VERSION_SAME to the
  second and never installs its changes, although they were published (`Rollout.LowerIsIgnored`,
  `UpgradeFaults.LowerChangeIgnored`).
- packager makes the package before it looks up the version and the platform, its exceptions are
  swallowed, and deployer copies what is there. So an item without a platform, a CMDB error or a failed
  signature puts a new package under an old version.json or an old signature. A host can upgrade exactly
  when the last round that began a package for it completed the release
  (`Publishing.CoherentIffOffered`, `Rollout.AskedIff`); `UpgradeFaults.PackageSpoiled` has a release that
  then fails with ERR_BAD_CHECKSUM.
- Such a failure, or an answer of the alert daemon that does not parse, still counts as a successful
  iteration. The window advances, and a change outside the overlap is never published again
  (`UpgradeFaults.ChangeLost`).
- A package has the files of its own window only. So a change is installed exactly when the agent asks
  while the package of a round with the change is still there and complete, and its release fits and is
  higher than everything the agent has had (`Rollout.ChangeInstalledIff`). A change published with a
  lower or equal version is not.

## Model

| member | source | states |
|---|---|---|
| SmtpChannel.HandleValid | template/supervisord/altenv/bin/smtpd.py:143-273 | every found_terminator call keeps the invariant: the terminator matches the mode, DATA mode implies recipients, recipients imply a sender, and no stored address is empty |
| SmtpChannel.SMTPChannel.constructor | template/supervisord/altenv/bin/smtpd.py:109-132 | a new channel is in COMMAND mode with the CR LF terminator, no transaction, and has sent its banner |
| SmtpChannel.SMTPChannel.CollectIncomingData | template/supervisord/altenv/bin/smtpd.py:139-140 | the bytes are appended to the pending line and nothing else changes |
| SmtpChannel.SMTPChannel.FoundTerminator | template/supervisord/altenv/bin/smtpd.py:143-189 | the object's whole new state, its replies and its process_message call are those of the specification, also when process_message raises |
| SmtpChannel.SMTPChannel.CallCommand | template/supervisord/altenv/bin/smtpd.py:149-164 | the dispatch on the command word, with 502 for an unknown one |
| SmtpChannel.SMTPChannel.UnstuffLines | template/supervisord/altenv/bin/smtpd.py:171-176 | the loop takes one leading dot off every line that has one and keeps the others |
| SmtpChannel.SMTPChannel.ReadMessage | template/supervisord/altenv/bin/smtpd.py:169-177 | the text of the message is the lines, each without one leading dot, joined with newline |
| SmtpChannel.SMTPChannel.SubmitMessage | template/supervisord/altenv/bin/smtpd.py:169-189 | one process_message call with the stored sender and recipients, then a clean transaction, or everything kept and the channel closed when it raises |
| SmtpChannel.SMTPChannel.SmtpHelo | template/supervisord/altenv/bin/smtpd.py:192-200 | greeting set once, with the 501 and 503 cases |
| SmtpChannel.SMTPChannel.SmtpMail | template/supervisord/altenv/bin/smtpd.py:227-238 | sender set only from a non-empty address and only when none is open |
| SmtpChannel.SMTPChannel.SmtpRcpt | template/supervisord/altenv/bin/smtpd.py:240-251 | recipient appended only under an open sender |
| SmtpChannel.SMTPChannel.SmtpRset | template/supervisord/altenv/bin/smtpd.py:253-262 | transaction dropped, greeting kept |
| SmtpChannel.SMTPChannel.SmtpData | template/supervisord/altenv/bin/smtpd.py:264-273 | DATA mode and its terminator, only with recipients and without an argument |
| SmtpRuns.RunCorrect | template/supervisord/altenv/bin/smtpd.py:143-273 | from any channel that holds what its transcript says, every later entry is correct and the channel keeps holding it |
| SmtpRuns.EveryEntryCorrect | template/supervisord/altenv/bin/smtpd.py:143-273 | in every run, each process_message call gets the sender of the one MAIL answered 250 since the last accepted RSET or completed delivery, exactly the recipients answered 250 since then, in order, and the unstuffed text; and the reply to every command is the one that its line and the transcript before it call for (MAIL 250 iff no transaction is open, RCPT iff one is, DATA 354 iff it has a recipient, HELO once and past RSET, each 5xx by its condition) |
| SmtpRuns.SentFor | template/supervisord/altenv/bin/smtpd.py:186-189 | the client is told 250 Ok after a message for which process_message returned None or an empty text, that text otherwise, and nothing when it raised |
| SmtpRuns.RunReplies | template/supervisord/altenv/bin/smtpd.py:143-189 | in every run each found_terminator call is answered by exactly one reply, unless process_message raised, which is then the last call and the only thing that closes the connection |
| SmtpRuns.ClosingIffQuit | template/supervisord/altenv/bin/smtpd.py:208-211 | the channel is set to close after its output exactly when the client sent QUIT |
| SmtpRuns.ChunkingIrrelevant | template/supervisord/altenv/bin/smtpd.py:139-146 | two runs that hand over the same lines behave the same, however the bytes were cut into collect_incoming_data calls |
| SmtpWire.FirstMatchIsTheEnd | template/supervisord/altenv/bin/smtpd.py:272-273 | for any non-empty list of lines without CR LF, stuffed and joined with CR LF, the first match of the DATA terminator is exactly at the end, whatever follows |
| SmtpWire.UnstuffStuff | template/supervisord/altenv/bin/smtpd.py:169-177 | split, strip and join give back the original lines joined with newline |
| SmtpWire.FramedIffNonEmpty | template/supervisord/altenv/bin/smtpd.py:272-273 | the first terminator match ends exactly where a data section (section 4.5.2 of RFC 821) ends, for every continuation, if and only if the section has at least one line |
| SmtpWire.EmptySection | template/supervisord/altenv/bin/smtpd.py:143-189 | what a channel does with any bytes after an empty data section: the empty message for a second lone dot, otherwise one message with everything up to the next terminator, or nothing yet |
| SmtpWire.NextSessionSwallowed | template/supervisord/altenv/bin/smtpd.py:143-189 | after an empty data section a whole well-formed session becomes the text of the message that was to be empty, and its own message is never submitted |
| SmtpWire.SessionDelivered | template/supervisord/altenv/bin/smtpd.py:143-273 | a well-formed session on the wire is accepted command by command and calls the server once with its sender, recipients in order and lines, whatever bytes follow |
| SmtpWire.SessionReplies | template/supervisord/altenv/bin/smtpd.py:143-273 | what the client of such a session reads: 250 Ok for the sender and for each recipient, 354 for DATA, then 250 Ok or what the server returned |
| SmtpWire.GreetingDelivered | template/supervisord/altenv/bin/smtpd.py:192-200 | the first HELO with a name is answered with the host name and the name is kept |
| SmtpWire.CommandWords | template/supervisord/altenv/bin/smtpd.py:152-159 | the seven commands are recognised in any case, and no other word is one |
| SmtpWire.AddressForms | template/supervisord/altenv/bin/smtpd.py:214-225 | after FROM: or TO: in any case, white space and one pair of angle brackets around the address are taken off, except from <> itself |
| SmtpWire.SessionsDelivered | template/supervisord/altenv/bin/smtpd.py:143-273 | any number of sessions on one connection are delivered one for one, nothing is left over and the channel is ready again |
| SmtpWire.FeedIsRun | template/supervisord/altenv/bin/smtpd.py:139-189 | every fed byte stream is one of the runs of the channel, so the run theorems hold for it |
| SmtpProxy.AddPeer | template/supervisord/altenv/bin/smtpd.py:346-355 | the loop stops at the first empty line or the end, and the X-Peer line goes there |
| SmtpProxy.PeerLineInserted | template/supervisord/altenv/bin/smtpd.py:346-355 | the new text has exactly one more line, the X-Peer line at the header's end, and deleting it gives back the original text |
| SmtpProxy.BodyUnchanged | template/supervisord/altenv/bin/smtpd.py:346-355 | with a header block and a body the bytes before and after the new line are unchanged |
| SmtpProxy.ListTargetIff | template/supervisord/altenv/bin/smtpd.py:396-415 | a recipient is for list l with command c exactly when its lower-cased local part is l-c (or l alone), l has no dash and exists, and c is one of the six documented commands |
| SmtpProxy.JobsAreSelected | template/supervisord/altenv/bin/smtpd.py:394-415 | the collected jobs are the list recipients in order, each with its list and command |
| SmtpProxy.Partition | template/supervisord/altenv/bin/smtpd.py:394-420 | the shared recipient list ends as the order-preserving filter of the non-list recipients, and the jobs are the list recipients in order |
| SmtpProxy.RemovalIsFilter | template/supervisord/altenv/bin/smtpd.py:416-420 | removing each list recipient by first occurrence, duplicates included, never fails and leaves exactly the others in order |
| SmtpProxy.PartitionKeepsAll | template/supervisord/altenv/bin/smtpd.py:394-420 | listed and remaining recipients together are the original multiset |
| SmtpProxy.RecipientList.Remove | template/supervisord/altenv/bin/smtpd.py:419-420 | list.remove takes out the first occurrence |
| Samples.FoldExact | template/agent/agent/collectors/builtin/hbase_regionserver_info.py:178-196 | the running datapoint is the exact count, mean, minimum and maximum of its samples |
| Samples.MeanBetween | template/agent/agent/collectors/builtin/hbase_regionserver_info.py:185-188 | min <= avg <= max |
| Samples.OrderIrrelevant | template/agent/agent/collectors/builtin/hbase_regionserver_info.py:178-196 | permuting the samples does not change the datapoint |
| Samples.DeltaIsLargestDeviation | template/agent/agent/collectors/builtin/hbase_regionserver_info.py:208-210 | the emitted delta is the largest absolute deviation of any sample from the mean and lies between half the range and the range |
| Samples.DevExact | template/agent/agent/collectors/builtin/hbase_regionserver_info.py:212-216 | the emitted dev times the mean is the delta when the mean is above 0.001 and some sample deviates from it by more than the threshold, and otherwise the dev is 0 |
| Samples.DevBounded | template/agent/agent/collectors/builtin/hbase_regionserver_info.py:212-216 | for n non-negative samples the emitted dev is between 0 and max(1, n-1) |
| TableStats.TablesExact | template/agent/agent/collectors/builtin/hbase_regionserver_info.py:169-196 | after any interleaving of add_stat calls in a cycle, a pair has a datapoint exactly when it was reported, and it is exact for the values add_state returned for it |
| TableStats.CallOrderIrrelevant | template/agent/agent/collectors/builtin/hbase_regionserver_info.py:169-196 | reordering the calls of a cycle leaves every datapoint unchanged |
| TableStats.CurrExact | template/agent/agent/collectors/builtin/hbase_regionserver_info.py:251-285 | add_stat records the last raw value of every region of a counter and never alters prev_state |
| TableStats.CyclesExact | template/agent/agent/collectors/builtin/hbase_regionserver_info.py:232-242 | in every run of cycles, whatever saves fail, curr_state holds the last raw values since the last successful save and prev_state those it covered |
| TableStats.PrevIsLastCycle | template/agent/agent/collectors/builtin/hbase_regionserver_info.py:232-242 | when the saves succeed, prev_state is exactly the last raw value per region of the cycle before |
| TableStats.RestartKeepsPrev | template/agent/agent/collectors/builtin/hbase_regionserver_info.py:235-249 | a restart reads back the same prev_state, unless a save died after opening the file since the last good one: then it starts empty |
| StatsReport.Conservation | template/agent/agent/collectors/builtin/hbase_regionserver_info.py:198-231 | the n Cnt values of one report of a counter add up to n times the running average built from the deltas, with curr_state empty at cycle start, each region reported once, and whole values for regions the previous cycle did not have |
| StatsReport.CycleConserves | template/agent/agent/collectors/builtin/hbase_regionserver_info.py:169-231 | of everything send_metrics emits in a cycle, the Cnt values for a counter add up to the changes add_stat was called with, one per call, beside one delta and one dev |
| StatsReport.RunConserves | template/agent/agent/collectors/builtin/hbase_regionserver_info.py:169-249 | in every run, after a cycle that was saved, the next emitted Cnt values of a counter add up to the changes of its regions since the raw values that save covered |
| StatsReport.CycleReports | template/agent/agent/collectors/builtin/hbase_regionserver_info.py:198-231 | send_metrics emits for each pair called in the cycle first the largest deviation of its samples from their mean, then the same in units of the mean or 0, and more only for a metric named ...Count that prev_state knows |
| StatsReport.RunSamples | template/agent/agent/collectors/builtin/hbase_regionserver_info.py:251-285 | after a saved cycle those samples are, for a counter, the changes since the raw values that save covered, and for any other metric the values themselves |
| StatsReport.RunCounts | template/agent/agent/collectors/builtin/hbase_regionserver_info.py:218-229 | each region called for a counter has a Cnt line with the host of that call and the change since that save |
| StatsReport.TableStatsObject.constructor | template/agent/agent/collectors/builtin/hbase_regionserver_info.py:159-167 | a new object starts from the state file, or empty when it cannot be read |
| StatsReport.TableStatsObject.AddState | template/agent/agent/collectors/builtin/hbase_regionserver_info.py:251-285 | returns the change since the previous cycle for a known region, and records the raw value |
| StatsReport.TableStatsObject.AddStat | template/agent/agent/collectors/builtin/hbase_regionserver_info.py:169-196 | the object's whole new state after one call |
| StatsReport.TableStatsObject.CountRegions | template/agent/agent/collectors/builtin/hbase_regionserver_info.py:223-229 | one Cnt line per region, in some order of the dictionary, each with its value |
| StatsReport.TableStatsObject.SendPair | template/agent/agent/collectors/builtin/hbase_regionserver_info.py:202-231 | delta, dev, and one Cnt per region exactly when both states know the counter |
| StatsReport.TableStatsObject.SendPairs | template/agent/agent/collectors/builtin/hbase_regionserver_info.py:199-231 | every pair is reported exactly once and nothing else is emitted, in any dictionary order |
| StatsReport.TableStatsObject.SaveState | template/agent/agent/collectors/builtin/hbase_regionserver_info.py:235-242 | the state and the file after a save that succeeds, fails to open, or fails to write |
| StatsReport.TableStatsObject.SendMetrics | template/agent/agent/collectors/builtin/hbase_regionserver_info.py:198-233 | the reports, then the save, then empty tables |
| Versions.ParsePrint | template/umanager/bin/uagent.py:57-136 | parsing the printed form gives back the version, negative components included |
| Versions.ParseReads | template/umanager/bin/uagent.py:57-77 | any string: a ValueError exactly when one of its first four dot-separated parts is neither empty nor a number; else each component is that number, or 0 for the first and sys.maxsize for the others |
| Versions.TruncatedFills | template/umanager/bin/uagent.py:57-77 | a string of one to four components reads as those filled up with sys.maxsize |
| Versions.EmptyVersion | template/umanager/bin/uagent.py:57-77 | the empty string reads as major 0, filled up with sys.maxsize |
| Versions.TruncatedIsAbove | template/umanager/bin/uagent.py:57-77 | a truncated string lies above every ordinary version with its prefix, and below exactly those with a larger prefix |
| Versions.CmpIsLexicographic | template/umanager/bin/uagent.py:139-149 | cmp is the lexicographic order of the four components |
| Versions.TotalOrder | template/umanager/bin/uagent.py:139-167 | the six operators agree with one total order |
| Versions.RangePartition | template/umanager/bin/uagent.py:124-133 | for any range text whose first two dash-separated parts are versions, every version is below, in or beyond it, exactly one of the three, if and only if the range is ordered |
| Versions.RangeAnswers | template/umanager/bin/uagent.py:124-133 | a range includes its lower end and excludes its upper one, from which on a version is beyond it, in the lexicographic order |
| Versions.RangeRaises | template/umanager/bin/uagent.py:124-133 | when in_range and beyond_range raise an IndexError or a ValueError |
| Versions.ShortRange | template/umanager/bin/uagent.py:57-77 | the ends of a range of shortened versions, such as 1.0-2.0, are both filled up with sys.maxsize |
| UAgent.ReadRaisesIff | template/umanager/bin/uagent.py:57-62 | VersionFile lets an exception escape exactly for JSON that is no object, for a version that is no string, and, once past the version, for an upgradeFrom that is no string or a version without a dash |
| UAgent.ChecksPassIff | template/umanager/bin/uagent.py:468-496 | the checks pass exactly for a signed, well-formed release with upgrade_min <= old < upgrade_max <= new |
| UAgent.ChecksByVersion | template/umanager/bin/uagent.py:489-496 | for two well-formed files, WARN_VERSION_SAME exactly from the new version on, WARN_OLD_VERSION_NOT_IN_RANGE exactly below it outside the range, and the checks pass exactly in the range |
| UAgent.ChecksByFile | template/umanager/bin/uagent.py:468-487 | for all other files, which code says which file is missing, unsigned or unusable |
| UAgent.AttemptOkIff | template/umanager/bin/uagent.py:449-531 | an attempt ends with OK if and only if the release is served over https and signed, is an allowed upgrade, and names a package that arrives under a file name, matches its checksum and signature, unpacks and installs; what is installed then |
| UAgent.OpeningCodes | template/umanager/bin/uagent.py:455-463 | without the two opening files an attempt ends with ERR_BAD_SERVER_URL over http, else with the code of the first of the two that fails, and changes nothing |
| UAgent.PackageCodes | template/umanager/bin/uagent.py:498-526 | the exit code of the package part is that of its first failing stage, for any package path |
| UAgent.NoFileName | template/umanager/bin/uagent.py:347-350 | a package path that ends in nothing, a dot or two dots is never installed |
| UAgent.AttemptRaisesIff | template/umanager/bin/uagent.py:170-193 | an attempt ends with an exception exactly when both version.json files are there, the served one over https and signed, and reading one of them raises, or the served one passes all checks and its packageFile is no string |
| UAgent.AttemptSafe | template/umanager/bin/uagent.py:336-390 | an attempt changes version.json only on OK, only over https, only for a served allowed upgrade, and then to the served file or the package stored over it |
| UAgent.ServedInstalledIff | template/umanager/bin/uagent.py:498-529 | an installable release is itself installed, whatever its package holds, exactly when the package is not stored as version.json |
| UAgent.UpgradeRaises | template/umanager/bin/uagent.py:489-496 | every upgrade strictly raises the version |
| UAgent.RunRefinesFirstSuccess | template/umanager/bin/uagent.py:555-592 | the attempts are a prefix of the ordered candidates, all but the last fail, failures change nothing, OK is returned exactly when some attempt succeeds, the exception leaves exactly when some attempt raises it, ERR_DOWNLOAD_FAILED exactly after all were tried and failed |
| UAgent.RunStops | template/umanager/bin/uagent.py:555-592 | the result and the installed file of a run are those of the first location that does not fail, and nothing after it is tried |
| UAgent.LocationsInOrder | template/umanager/bin/uagent.py:555-587 | at each base URL in turn the locations tried are base/singles/org/sys/host, base/singles/org/sys/platform, base/offhour/platform exactly when it is off hours then, and base/latest/platform |
| UAgent.RunInstalls | template/umanager/bin/uagent.py:555-592 | a release that can be installed is installed, with OK, when every location before it fails |
| UAgent.HostFirst | template/umanager/bin/uagent.py:557-562 | so what the first server has under the id of the host itself is installed, whatever the other locations have |
| UAgent.RunRaisesIff | template/umanager/bin/uagent.py:555-592 | run() ends with the exception exactly when some location's attempt does and every earlier location fails |
| UAgent.RunSafe | template/umanager/bin/uagent.py:533-592 | after run() the installed file is what a location left that served an allowed upgrade over https, or the old one |
| UAgent.RunInstallsServed | template/umanager/bin/uagent.py:533-592 | when no served release has its package stored over it, the installed file after run() is an allowed upgrade that some location served, or the old one |
| UAgent.PlainHttpNeverUpgrades | template/umanager/bin/uagent.py:336-341 | with plain http bases run() always returns ERR_DOWNLOAD_FAILED and changes nothing |
| UAgent.Agent.AttemptUpgrade | template/umanager/bin/uagent.py:449-531 | the early returns of upgrade_once and the installed file afterwards |
| UAgent.Agent.InstallPackage | template/umanager/bin/uagent.py:498-526 | the package stages and the first failing exit code |
| UAgent.Agent.TryBase | template/umanager/bin/uagent.py:555-587 | host, platform, off-hour if the clock says so, latest, stopping at the first that does not fail |
| UAgent.Agent.RunAgent | template/umanager/bin/uagent.py:533-592 | the loops of run() make exactly the first-success attempts over all base URLs |
| UpgradeRuns.EveryStepGood | template/umanager/bin/uagent.py:449-592 | over any sequence of run() calls the installed file changes only on OK, every change comes over https from a location that served an allowed upgrade, and is that upgrade when no package is stored over its release |
| UpgradeRuns.InstalledChain | template/umanager/bin/uagent.py:449-592 | against arbitrary servers that store no package over its release, a later installed file is the same or carries a strictly higher version |
| UpgradeRuns.Convergence | template/umanager/bin/uagent.py:489-531 | run() returns OK at most once per published version above the installed one, never when that one is unreadable |
| UpgradeRuns.Settles | template/umanager/bin/uagent.py:533-592 | against a fixed world no run upgrades after as many runs as there are such versions |
| UpgradeFaults.BadFiles | template/umanager/bin/uagent.py:177-189 | an upgradeFrom of 1.0.0.0, JSON that is no object, and a version that is a number all raise |
| UpgradeFaults.OneBadFileStopsTheRun | template/umanager/bin/uagent.py:533-592 | for every configuration with https bases and every file that raises, that file at the first location ends the run with the exception although all later locations would have upgraded |
| UpgradeFaults.PackageReplacesRelease | template/umanager/bin/uagent.py:348-350 | for every configuration with https bases, the package ../download/version.json is installed with OK in the place of its release, and no later run changes it |
| UpgradeFaults.UnreadableStays | template/umanager/bin/uagent.py:478-487 | an agent whose version.json cannot be read keeps it through any sequence of runs |
| UpdateManager.KeyInjective | template/umanager/bin/update_manager.py:69-70 | keys are equal exactly for equal hosts when org and sys contain no underscore |
| UpdateManager.OneEntry | template/umanager/bin/update_manager.py:323-340 | one item leaves its version and its platform under org_sys_name, and nothing else |
| UpdateManager.KeyIsOwnIff | template/umanager/bin/update_manager.py:69-70 | no other host has the key of a host if and only if its org, sys and name contain no underscore |
| UpdateManager.FilePathInjective | template/umanager/bin/update_manager.py:221-228 | files of different hosts or names have different paths when ids are single path components other than . and .. |
| UpdateManager.KeysFold | template/umanager/bin/update_manager.py:319-340 | across any fetcher calls since module load, VERSIONS is the maximum configVersion and PLATFORMS the first platform of the items counted under a key |
| UpdateManager.FetchesFold | template/umanager/bin/update_manager.py:319-340 | these are the maximum and the first of a host's own items when no other host's item was counted under its key |
| UpdateManager.NoUnderscoreOwns | template/umanager/bin/update_manager.py:69-70 | so they are whatever was fetched for a host without underscores |
| UpdateManager.HostMaximumIff | template/umanager/bin/update_manager.py:326-333 | the version kept for a host is its own maximum exactly when no version counted under its key is above all of its own |
| UpdateManager.WrongVersionKept | template/umanager/bin/update_manager.py:326-333 | a fetch with version 9 of one host and 3 of another with the same key keeps 9 for the second |
| UpdateManager.InstallConfExact | template/umanager/bin/update_manager.py:217-246 | after fetcher, from any earlier state, a host's install.conf is one header and one line per item of that host with a fullPath, in fetch order, whatever fails later for an item; after an item of the host whose own written file is install.conf, that file and the lines of the later items |
| UpdateManager.InstallConfCompleteIff | template/umanager/bin/update_manager.py:217-246 | it is the complete list exactly when no such item is there or the last one's file is, text for text, the list up to its line |
| UpdateManager.LinesLost | template/umanager/bin/update_manager.py:233-255 | a file named install.conf fetched between two others loses the line of the first |
| UpdateManager.OneLine | template/umanager/bin/update_manager.py:217-231 | after a fetch of one item of a host with path dir/f the file TMP/org/sys/name/install.conf is the [copy] header and the line f: dir/f |
| UpdateManager.ReadBackIff | template/umanager/bin/update_manager.py:217-231 | cutting the lines of a list at their first colon and space gives the file name and the full path of each item of the host, in fetch order, if and only if no file name contains a colon and a space |
| UpdateManager.ConfigFilesExact | template/umanager/bin/update_manager.py:233-255 | every other file in the directory of a host holds what the last of its items of that name wrote, among those with a version, a platform and service filebeat or collector; without one there is no such file |
| UpdateManager.Manager.InstallConf | template/umanager/bin/update_manager.py:217-231 | directory created, header once, one line appended; only the directory when fullPath is missing |
| UpdateManager.Manager.HandleItem | template/umanager/bin/update_manager.py:319-349 | one item of the loop, ending where a key is missing |
| UpdateManager.Manager.Fetcher | template/umanager/bin/update_manager.py:310-349 | the whole new state of one fetcher call |
| VersionJson.CutObjectReads | template/umanager/bin/uagent.py:176-177 | a printed object of plain strings, cut off after any number of characters, is read back if all but its last newline is there, and otherwise has no closing brace outside its strings |
| Release.TextReads | template/umanager/bin/uagent.py:176-191 | a written version.json reads as itself when all but its last newline is among the first 1024 characters, and is no JSON otherwise |
| Release.PublishedLines | template/umanager/bin/update_manager.py:198-205 | the file line by line: version, platform, checksum, a range from 1.0.0.0 to that same version, and agent.tar.gz |
| Release.PublishedSize | template/umanager/bin/update_manager.py:198-205 | the file has 128 characters more than the platform, the checksum and twice the version |
| Release.PublishedAcceptedIff | template/umanager/bin/update_manager.py:196-205 | what packager writes is read by the agent with all attributes and a valid range if and only if no component is negative and the file has at most 1025 characters |
| Release.PublishedUpgradesIff | template/umanager/bin/uagent.py:357-364 | an attempt on a location serving a published release V upgrades to it exactly when its platform is the agent's, V has no negative component, the file is at most 1024 characters long (1025 without a Content-Length) and the installed v has 1.0.0.0 <= v < V |
| Release.FetchedIsPublished | template/umanager/bin/update_manager.py:156-205 | after any fetcher calls whose last had an item of the host, packager writes a release with the largest fetched configVersion as build and the first fetched platform |
| Release.FetchedReachesAgent | template/umanager/bin/update_manager.py:156-215 | an attempt of any agent on the location of that release ends as for that version and platform |
| UmDaemon.MainLoop | template/umanager/bin/um_daemon.py:88-119 | the loop's counters, lastHourDateTime and successful windows over any mix of successes and failures |
| UmDaemon.FailedKeeps | template/umanager/bin/um_daemon.py:101-119 | an iteration in which the manager cannot be built, the clock cannot be read, or run() raises or returns another code than 0 leaves lastHourDateTime alone and opens no window |
| UmDaemon.SuccessOpens | template/umanager/bin/um_daemon.py:101-113 | one in which run() returns 0 opens the window from lastHourDateTime minus 128 s to the clock, and moves lastHourDateTime to 1 s before the clock, whether or not the reload works |
| UmDaemon.WindowsExact | template/umanager/bin/um_daemon.py:88-119 | in any run there is one window for each iteration whose run() returned 0, ending at its clock; the first starts one day and 128 s before the start, each other 129 s before the end of the one before it |
| UmDaemon.FailuresIrrelevant | template/umanager/bin/um_daemon.py:117-119 | two runs with the same clocks in those iterations ask for the same windows, whatever failed between them |
| UmDaemon.NoLagGap | template/umanager/bin/um_daemon.py:89-108 | for any clock readings and failures, every instant from the start minus one day and 128 s lies in a successful window that ends a lag of up to 130 s after it, as soon as any window ends then |
| UmDaemon.NoGap | template/umanager/bin/um_daemon.py:89-108 | in particular the successful windows cover every instant up to the latest toTime |
| UmDaemon.ToleratedIff | template/umanager/bin/um_daemon.py:102-108 | 130 s is exactly the lag that every run makes up for |
| UmDaemon.ExactCoverage | template/umanager/bin/um_daemon.py:89-108 | with a clock that never goes back the covered instants are exactly those |
| UmDaemon.Overlap | template/umanager/bin/um_daemon.py:102-108 | with such a clock consecutive successful windows share at least 129 s |
| Delivery.EveryChangeDelivered | template/umanager/bin/um_daemon.py:88-119 | every configuration change that the alert daemon shows within 130 s, and before the latest successful toTime, is fetched by a successful iteration, which gives its host's key at least that version and the host's install.conf its line, reload or not |
| Packager.HostDirectory.Pack | template/umanager/bin/update_manager.py:163-215 | the files of a host after packager, whichever of its calls raises or silently fails |
| Packager.PackLeaves | template/umanager/bin/update_manager.py:156-215 | a package is there once it was begun, a version.json for the numbers of the CMDB and the kept version and platform once all these are there, a signature of each exactly when its signing was reached and worked, and of nothing else |
| Packager.HostDirectory.CopyFrom | template/umanager/bin/update_manager.py:351-359 | the published files after the copy: new ones replace old ones, the others stay |
| Publishing.RoundLeaves | template/umanager/bin/update_manager.py:156-215 | after any rounds, reloaded or not, a host's directory holds nothing, a complete release with the largest configVersion kept as build and the first platform kept, or the package without a complete release |
| Publishing.CoherentIffOffered | template/umanager/bin/update_manager.py:351-368 | after any rounds the published files are those of one complete release if and only if the last round that began a package completed it, when packages differ in their checksums |
| Publishing.BuildsRise | template/umanager/bin/um_daemon.py:110-119 | without a reload between two rounds, the build of a release is never lower than that of the one before |
| Rollout.AskedIff | template/umanager/bin/uagent.py:449-531 | an agent that asks then upgrades if and only if such a release is there, is for its platform, can be read and is higher than what it has; otherwise it keeps its file |
| Rollout.OtherPackage | template/umanager/bin/uagent.py:509-512 | another package under a release that the agent would take ends the attempt with ERR_BAD_CHECKSUM |
| Rollout.AgentHasHighest | template/umanager/bin/update_manager.py:362-368 | over any rounds, whatever fails in them, the agent's version is the highest of its own and of the fitting releases that were complete when it asked |
| Rollout.HighestIsMaximum | template/umanager/bin/uagent.py:489-496 | that is its own version or such a release, and no such release is higher |
| Rollout.TakenIff | template/umanager/bin/uagent.py:489-496 | an agent that asks after a round has the release on offer then if it fits and is higher than all it has had, and the very same file otherwise |
| Rollout.NothingReleased | template/umanager/bin/update_manager.py:214-215 | while no round completes a release of the host, the agent keeps its file |
| Rollout.SpoiledIsLost | template/umanager/bin/update_manager.py:185-197 | a release is lost for an agent that did not ask before a later round began a package and did not complete it |
| Rollout.UnaskedIsLost | template/umanager/bin/um_daemon.py:110-113 | an agent that asks only after the second of two rounds ends with the release of the second, whatever the first was |
| UpgradeFaults.HigherReleaseLost | template/umanager/bin/um_daemon.py:102-113 | with version 5 in a first window and 3 in a second, an agent at 1.0.0.0 that asks only after the second ends with 2.0.0.3 |
| UpgradeFaults.PackageSpoiled | template/umanager/bin/update_manager.py:185-197 | a window with version 5, then one with an item without a platform: the second package lies under the first version.json, the attempt ends with ERR_BAD_CHECKSUM and the agent stays at 1.0.0.0 |
| Rollout.InstallsIff | template/umanager/bin/uagent.py:498-529 | the attempt after round j installs the package of round k if and only if no later round began one, round k completed its release, and that fits and is higher than everything the agent has had |
| Rollout.ChangeInstalledIff | template/umanager/bin/update_manager.py:310-368 | a change is ever installed if and only if that holds for a round whose items have it and some attempt |
| Rollout.LowerIsIgnored | template/umanager/bin/uagent.py:489-491 | a release that is not higher than the one taken before is not installed, nor a change that only its package has |
| UpgradeFaults.LowerChangeIgnored | template/umanager/bin/uagent.py:489-491 | with version 5 in a first window and 3 in a second, an agent that asks after both keeps 2.0.0.5; the second package is complete and is never installed |
| Rollout.ChangeReachesAgent | template/umanager/bin/update_manager.py:310-368 | a change is installed when one window that has it was parsed in a round whose release fits and is higher than everything the agent has had, and the agent asks right after: its file is then that release, whose build is at least the configVersion |
| Rollout.EveryChangeReachesAgent | template/umanager/bin/um_daemon.py:88-119 | so every change shown within 130 s is installed by an agent for which the windows with the change went so |
| UpgradeFaults.ChangeLost | template/umanager/bin/update_manager.py:72-83 | the CMDB fails, or the answer does not parse, in the first window, the only one with a change: in every run that goes on from there, with a clock that goes forward, the agent never gets it |

## Left out

- Sockets, asyncore and asynchat: a channel is fed frame by frame, the bytes before the first terminator; an exception from process_message closes the channel.
- The recipient list shared between channel and proxy: the proxy's removals are modelled on their own list object, the channel keeps a value; the channel drops its list after the call, or is closed.
- DebuggingServer, smtplib delivery, the Mailman library and the privilege switch at start-up.
- The texts of replies are names of a datatype, with the text in a comment.
- Floating-point rounding and the conversion of metric strings: values are reals, int() truncates.
- Metric and table names on the queue: the `.delta`, `.dev` and `Cnt` spellings and the cleaning of table names are formatting.
- A partly written state file is one that load_state cannot read.
- HBase page scraping, the regular expressions and the shell output.
- The clock behind is_offhour, which is a parameter for each base URL, and the ids that run() falls back to when its configuration cannot be read.
- copy_configs.py: its ConfigParser also cuts a line at a colon without a space or at an equals sign, and lower-cases the names it reads.
- HTTP, gpg, SHA-256, tar and subprocess calls: oracles that answer anything. The copy of version.json is atomic, unpacking stays inside its directory, and the install script does not rewrite version.json.
- Whether a package path with a slash leads to a file is an oracle; a plain name is looked up in the download directory.
- The size limit in the download loop: callers pass it as a configuration string, so its bound does not hold as used.
- Paths are compared as text: the results about paths exclude ids that are . or .., and links are not modelled.
- getUpdatedConfig: the alert daemon is a function of the window. `Delivery` assumes that its answers parse; in `Rollout` a round has the items that did. The separate answers for each token are not modelled.
- Instants are whole seconds, as the database clock gives them.
- JSON syntax: json.loads is an oracle that gives no JSON, JSON that is no object, or an object. `Release.ReadText` says what it gives for objects of plain strings and for texts that never close their object, and nothing about other texts. The results about published files take a platform and a checksum of printable ASCII without quotes and backslashes.
- JSON nested deeper than the interpreter's recursion limit, and files that cannot be read.
- Publishing.RoundLeaves: no configuration file of a host is itself named like one of the four published files.
- Rollout.AgentHasHighest: the agent asks its own location only, and nothing but the published files decides an attempt.
- configVersion is a number: strings that int() or long() reject are not modelled.
- The bodies of filebeat and collector files, their permissions, and the deployer.
- packager's loop over directories, its install.conf trailer, the install script and the cleanup: per host, the four published files are modelled. Writing and copying a file is atomic, and a checksum stands for the package.
- The ZooKeeper lock, MySQL access, signals, sleeping: iterations are outcomes and clock readings.
- Shell scripts, container files, SQL and service configuration.

# Spyre health checker: a verified model

The health checker runs on a Kubernetes node and tells clients which Spyre accelerator cards are
healthy. Information flows through it in one direction, and the model follows it:

1. **Sensors.** The lspci parser reads the output of `lspci -vvvnn` (`LspciStanzas`, `LspciHeader`,
   `LspciDetails`, `Lspci`). The card management client asks a sidecar about every slot that lspci found
   (`Cardmgmt`). The RAS reporter watches pods, scans the logs of failing Spyre containers, and
   remembers each PCI address that a hardware error was logged for (`RasLog`, `LogText`, `RasWatcher`,
   `PodFilter`, `RasCalls`).
2. **Merge.** `Merge` folds the reports into one entry per PCI address by priority, with the rule that a
   healthy report does not replace an unhealthy one (`Merging`, `Reporters`, `LostErrors`).
3. **Publish.** `Vitals` checks the driver of each merged device and publishes the result as a snapshot
   (`HealthCheck`, `Collecting`, `Verdicts`).
4. **Streams.** `UpdateHealths` hands each snapshot over an unbuffered channel to one of the stream
   handlers, which turn it into a message (`UpdateChannel`, `HealthStreams`).

`Pipeline` puts the four parts into one state machine whose steps interleave freely and proves what a
client can rely on over whole runs. `StreamRuns` proves what each stream sends in such a run,
`ChannelRuns` that what holds of the channel alone holds in it, and `FirstStates` gives one such run.
`Devices`, `Text`, `PciAddress`, `Unions` and `Options` hold the shared vocabulary; `AddressAgreement`
shows that logs and lspci name a device by the same key.

Objects that the program updates in place are classes here (`Vitals`, `HealthServer`, `RasReporter`,
`DeviceInfo`), and slices that are shared between goroutines are arrays, so that the contracts also say
which slices are never written to. What the program asks of the outside world (lspci's output, the
sidecar's replies, the Kubernetes API, access to a driver path, whether a send succeeds) is a parameter
about which nothing is assumed. The order in which Go walks a map is left open: results that depend on it
are stated as `Lists`, that is, each entry exactly once in some order.

## Main results

- `Pipeline.RasErrorsStick`: in every run, once a message on a stream shows a RAS error, every later
  message on that stream shows the device in error. `RecordedIsSeen` and `PublishedIsSeen` say this for
  every stream, from the first snapshot merged after the error was recorded; `ShownRasErrorsAreBlamed`
  traces each such error to a log line, and `ErrorsReachClients` shows that every log line that can cause
  an error does cause one in some run.
- `UpdateChannel.Conservation`: each submitted update is dropped at the flag check, in flight, or received by
  exactly one handler, and handlers receive in order of submission. `UpdateChannel.DroppedIff` says which
  ones are dropped, `ChannelRuns.Projection` carries this to runs of the pipeline, and
  `StreamRuns.StreamTells` says what the messages made from the received ones contain.
- `Verdicts.NodeEntry` and `Verdicts.ClientVerdict`: what is published, and what a client is told, for any
  lspci output, even one that prints an address twice, any sidecar replies and any RAS errors.
- `StreamRuns.ClientReceives` and `StreamRuns.MissingIsTold`: the contents of every message of every run as a
  client receives them, with the devices that are reported as removed.
- `LogText.LogGives`: the addresses that a log yields, in terms of the characters of the log.
- `PodFilter.HandledIff`, `EventFetches` and `EventGives`: which pods are scanned, which logs are fetched, and
  what they contribute.
- `RasCalls.NoCallAfterDenialIff`: when the watcher stops calling the Kubernetes API after a denied call.
- `Lspci.ParseByLines` and `Lspci.RoundTrip`: what the parser reports for any text at all, and that it
  inverts printing for any list of devices with any bodies.
- `Merging.MergeClosedForm`: the winner of the merge for any reporter order and any duplicates.
- `HealthStreams.HistoryCovers` with the contract of `RegisterWithDevices`: the contents of every message of
  a tracking stream in terms of the whole history.
- `RasLog.TextExact`, `RasLog.WindowSound` and `RasWatcher.Provenance`: which addresses a log yields, what a
  truncated log can miss, and where a recorded address comes from over all watches.

## Where the code and its documentation differ

The model follows the code.

- `docs/reporters.md:28-31` says that an error reported by any reporter persists until restart. The merge
  starts from an empty map on every call (`internal/reporter/reporter.go:42`), so an error outlives an update
  exactly when the update fails, the error is reported anew and strikes, or the driver check fails
  (`HealthCheck.ErrorOutlivesIff`). `LostErrors.ErrorForgotten` gives answers of a node for which every
  source's error about a card is forgotten by the next update. Only RAS errors persist.
- `docs/reporters.md:26` and `enhancements/reporter-framework.md:123` say that no reporter can clear another
  one's error. This depends on the order in which reporters are enabled: it holds exactly when their
  priorities strictly ascend (`Reporters.NoErrorLostIffAscending`, and `LostErrors.NoErrorLostOnNodesIff` in
  terms of what lspci prints and the sidecar replies; `Reporters.AscendingOrders`). With `cardmgmt,lspci`
  (`Reporters.ReverseEnabled`) an lspci error is dropped if the card management service says healthy.
- `docs/reporters.md:33-35` promises that the results of the other reporters survive the failure of one.
  `Merge` does return them, but `UpdateStates` throws them away and keeps the old snapshot
  (`internal/healthcheck/healthcheck.go:87-90`, `HealthCheck.Vitals.UpdateStates`). The reports are published
  exactly when no reporter failed, or the old snapshot has their addresses already
  (`HealthCheck.ReportsPublishedIff`); `LostErrors.ReportLost` is a node whose healthy card is not published
  because the sidecar is not connected.
- `enhancements/ras-watcher-reporter.md:87-92` says that no API call is made after a permission failure. A
  failure to read a log sets the flag, but the flag is looked at only when the current watch has ended
  (`internal/reporter/ras.go:130-133`). No call follows a denied one exactly when no further container of
  the pod is selected and no later event of the watch has a claim to look up or a log to fetch
  (`RasCalls.NoCallAfterDenialIff`, and `RasCalls.NoCallAfterDenialInRunIff` for whole runs);
  `RasCalls.DenialIsNotTheEnd` is a watch in which the log of a second pod is fetched and scanned.
- `enhancements/ras-watcher-reporter.md:40-45` knows neither the namespace filter nor resource claims;
  the code has both (`internal/reporter/ras.go:207-217`).
- `docs/health-indicators.md:37-38` excludes revisions other than `01`; the code excludes revision `01`
  (`internal/reporter/lspci.go:211`, `Lspci.Wanted`).
- The code of the two readers of addresses differs in case: lspci addresses may be upper case and keep
  their case, log addresses must be lower case. The two meet exactly for lower-case addresses
  (`AddressAgreement.MeetsIffLowerCase`).
- The states of the first message of a tracking stream are not added to the tracking map
  (`pkg/server/server.go:261-262`), so a device may vanish between the first message and the second
  (`HealthStreams.FirstStatesKeptIff`; `FirstStates.FirstStatesVanishInRun` is such a run); from then on
  none does (`HealthStreams.NothingVanishes`, `StreamRuns.NothingVanishesInRuns`).
- All stream handlers share one `streaming` flag, and each lowers it when it ends. The flag is up exactly
  when no handler has ended since the last one started (`UpdateChannel.FlagExact`), an update is dropped
  exactly when it is down (`UpdateChannel.DroppedIff`), and so an update passes a live stream by exactly
  when another stream has ended since the last start (`UpdateChannel.PassesLiveStreamIff`;
  `UpdateChannel.UpdatePassesLiveStream` is an example). A single stream is passed by nothing while it is
  live (`ChannelRuns.OneStreamReceives`). The flag is right in all states of a run exactly
  when no stream ends while another is live (`UpdateChannel.FlagTellsIffNoOverlap`).

## Model

| member | source | states |
|---|---|---|
| Devices.ListValues | internal/reporter/reporter.go:63-66 | walking the merged map in any order lists each entry exactly once in a new slice |
| Merging.StampAll | internal/reporter/reporter.go:27-32 | stamping replaces source and priority of every entry in place and nothing else |
| Merging.InsertAll | internal/reporter/reporter.go:51-60 | the inner loop continues the fold of all entries of earlier reporters with those of one more |
| Merging.Merge | internal/reporter/reporter.go:41-72 | the result is new, lists the fold of the successful reporters' entries, and an error is returned exactly when a reporter failed |
| Merging.BestIsCollected | internal/reporter/reporter.go:51-60 | what the merge holds for an address is an entry some reporter gave for that address |
| Merging.BestIsHeld | internal/reporter/reporter.go:42-60 | the merge treats each address on its own: its result depends only on that address's entries in order |
| Merging.WinnerIsUnique | internal/reporter/reporter.go:34-40 | at most one entry can be the winner that the closed form describes |
| Merging.HeldWins | internal/reporter/reporter.go:51-60 | the entry held after any list of entries is the winner; it is unhealthy exactly when some unhealthy entry outranks all before it |
| Merging.MergeClosedForm | internal/reporter/reporter.go:41-66 | exactly the reported addresses are merged; if some unhealthy entry outranks all earlier ones the winner is the first of highest priority among the unhealthy, otherwise among all |
| Merging.ErrorKeptIff | internal/reporter/reporter.go:38-39 | a reported error survives the merge if and only if some unhealthy entry outranks every earlier entry |
| Merging.AscendingVerdict | internal/reporter/reporter.go:51-60 | with ascending priorities the merged state is ONLINE exactly when every entry for the address is |
| Merging.HeldGroup | internal/reporter/reporter.go:51-60 | entries of one higher priority take the place of what is held exactly if that is ONLINE or one of them is not |
| HealthCheck.UpdateDriverStatus | internal/healthcheck/healthcheck.go:73-83 | in place, every non-pseudo device without an accessible driver becomes IN_ERROR and nothing else changes |
| HealthCheck.PublishedEntry | internal/healthcheck/healthcheck.go:73-96 | every published entry has the address, type, source and priority of the report that wins; its state is the winner's, or IN_ERROR if the winner's source is not "pseudo" and the driver is not accessible |
| HealthCheck.CheckedLists | internal/healthcheck/healthcheck.go:73-83 | the driver check of a listing of the merged map lists the checked map: no entry is added, lost or doubled |
| HealthCheck.Vitals.constructor | internal/healthcheck/healthcheck.go:33-36 | vitals start with an empty snapshot |
| HealthCheck.Vitals.GetVitalStates | internal/healthcheck/healthcheck.go:39-43 | the published slice itself is handed out |
| HealthCheck.Vitals.UpdateStates | internal/healthcheck/healthcheck.go:86-96 | success publishes a new slice listing the checked merge; failure of any reporter keeps the old one; no slice handed out earlier is written to |
| HealthCheck.RunTicker | cmd/health-checker/main.go:203-213 | over any number of ticks each submitted snapshot is the checked merge of its tick, or the one before if the tick failed, and all keep their contents |
| HealthCheck.ErrorOutlivesIff | internal/reporter/reporter.go:41-60 | a published error outlives an update if and only if the update fails, an error strikes anew, or the winning report is not a pseudo one and the driver is inaccessible |
| HealthCheck.ReportsPublishedIff | internal/healthcheck/healthcheck.go:86-96 | the addresses that successful reporters list are published if and only if no reporter failed or the old snapshot has them all |
| LostErrors.ReportLost | internal/healthcheck/healthcheck.go:87-90 | a node whose lspci output shows a healthy card that is not published, because the sidecar is not connected |
| LostErrors.CardTextParses | internal/reporter/lspci.go:240-275 | for every full address there are lspci outputs that report a card there, healthy or in error |
| LostErrors.CardTextLiteral | internal/reporter/lspci.go:123-126 | these outputs are "ADDRESS Spyre [1014:06a7] (rev 02)" and the same with rev ff |
| LostErrors.ErrorForgotten | internal/reporter/reporter.go:42 | for every hardware configuration and every card: lspci outputs and sidecar replies of two updates by which the card is published in error and then ONLINE |
| LostErrors.NoErrorLostOnNodesIff | cmd/health-checker/main.go:46-76 | on nodes where lspci prints each address once, a configuration never loses an error of a given card, whatever lspci prints and the sidecar replies, if and only if its reporters are in strictly ascending priority |
| Reporters.BuildReporters | cmd/health-checker/main.go:41-77 | the loop builds the named reporters in order, lspci if none is named, pseudo alone in pseudo mode, and RAS last in every case and nowhere else |
| Reporters.ChosenExact | cmd/health-checker/main.go:46-70 | exactly the names "lspci" and "cardmgmt", apart from white space around them, stand for reporters, in their order |
| Reporters.EnabledOne | cmd/health-checker/main.go:41-77 | the single name "cardmgmt" enables cardmgmt and RAS; "lspci" and every other single name enable lspci and RAS; pseudo mode enables pseudo and RAS |
| Reporters.SpacesIgnored | cmd/health-checker/main.go:48-49 | white space around the names changes nothing |
| Reporters.EntryReporter | internal/reporter/reporter.go:25-32 | each entry that reaches the merge carries the name and the priority of a reporter that lists it |
| Reporters.BeforeRas | pkg/types/types.go:16-20 | every entry of the reporters before RAS has a lower priority than RAS |
| Reporters.RasDominates | internal/reporter/reporter.go:51-60 | every address in the RAS map comes out of the merge as the RAS entry, whatever the other reporters say and however they fail |
| Reporters.RasOnlyIfRecorded | internal/reporter/ras.go:113-122 | an entry that names RAS as its source stands for a recorded error |
| Reporters.NoErrorLostIffAscending | internal/reporter/reporter.go:38-40 | for each address, a configuration whose reporters list no address twice never loses a reported error, whatever they list, if and only if they are in strictly ascending priority |
| Reporters.ReverseEnabled | cmd/health-checker/main.go:46-76 | the list "cardmgmt,lspci" enables cardmgmt, lspci and RAS, which is not ascending |
| Reporters.AscendingOrders | cmd/health-checker/main.go:46-76 | exactly lspci, cardmgmt, and lspci before cardmgmt give ascending reporters; pseudo mode always does |
| Reporters.BothEnabled | cmd/health-checker/main.go:46-76 | the list "lspci,cardmgmt" enables lspci, cardmgmt and RAS in this order |
| Reporters.StruckIff | internal/reporter/reporter.go:51-60 | in an ascending configuration some entry strikes if and only if the first entry of some report is unhealthy, whatever entries follow it there |
| Reporters.MergedVerdict | internal/reporter/reporter.go:51-60 | in an ascending hardware configuration the merged state is ONLINE exactly when the first entry of each successful report for the address is, also when a report lists it twice |
| Reporters.ExactVerdict | internal/healthcheck/healthcheck.go:73-96 | a published address is ONLINE if and only if its driver is accessible and the first entry for it in each report is ONLINE |
| Reporters.FirstsAreAll | internal/reporter/reporter.go:51-60 | where no report lists an address twice, this means that no report has an entry for it that is not ONLINE |
| Reporters.PublishedIffListed | internal/reporter/reporter.go:51-66 | an address is published if and only if some successful reporter lists it |
| Reporters.PseudoTransparent | internal/healthcheck/healthcheck.go:70-83 | in pseudo mode the driver check changes nothing, whatever it answers, because each entry is pseudo or already a RAS error |
| Cardmgmt.CollectForSlots | internal/reporter/cardmgmt_client.go:103-125 | exactly the slots answered without error give a state, in slot order, ONLINE exactly for "healthy"; the errors kept are those of the first slots that have them |
| Cardmgmt.AnswersIff | internal/reporter/cardmgmt_client.go:136-163 | a slot is answered exactly by a reply without an error or with one whose code is empty; it is then ONLINE for the health "healthy" and IN_ERROR for any other |
| Cardmgmt.Collect | cmd/health-checker/main.go:54-69 | fails exactly when discovery or the connection fails; otherwise lists the answered slots, stamped, without duplicates if discovery has none |
| Collecting.CollectLspci | internal/reporter/lspci.go:39-61 | fails exactly when lspci does; otherwise exactly the parsed devices, stamped |
| Collecting.CollectCardmgmt | cmd/health-checker/main.go:54-69 | fails exactly when lspci does or a needed sidecar is not connected; otherwise exactly the answered slots of the devices that lspci finds |
| Collecting.CollectFrom | pkg/types/types.go:22-31 | for given answers of the node each reporter reports exactly what those answers or the RAS map say |
| Collecting.CollectsOutcome | pkg/types/types.go:22-31 | such a report carries the reporter's name and priority, and RAS and pseudo never fail |
| Collecting.CollectAll | internal/reporter/reporter.go:45-50 | the reporters' collections, in order |
| Collecting.Update | internal/healthcheck/healthcheck.go:86-96 | from the enabled names and the node's answers to the snapshot: the checked merge of the reports, every recorded RAS error shown as RAS reported it, and on failure the old snapshot |
| Verdicts.NodeFailsIff | internal/reporter/reporter.go:45-50 | with lspci and cardmgmt enabled an update fails if and only if lspci fails for either, or a needed sidecar is not connected |
| Verdicts.NodeVerdict | cmd/health-checker/main.go:46-76 | for any lspci outputs and sidecar replies: an address is published if and only if lspci prints it, the sidecar answers for it or a RAS error is recorded; it is ONLINE if and only if its driver is accessible, the first device that lspci prints there is healthy, the first answer of the sidecar for it is, and no RAS error is recorded |
| Verdicts.NodeEntry | internal/healthcheck/healthcheck.go:86-96 | the published entry: ONLINE as `NodeVerdict` has it and IN_ERROR otherwise; from RAS if recorded, from the sidecar if it answers and lspci is not worse, from lspci otherwise; a PF unless it is lspci's, then of the type that lspci prints first |
| Verdicts.ClientVerdict | pkg/server/server.go:211-219 | what the first message after an update tells a client about an address: something exactly if a source knows it, and then that state and type |
| Verdicts.SlotAnswersIff | internal/reporter/cardmgmt_client.go:136-163 | the sidecar answers for an address exactly when the reply for a slot that lspci prints it at has a health and no error with a code |
| Lspci.ParsedDevice | internal/reporter/lspci.go:250-266 | a parsed device is a PF or a VF, and ONLINE or IN_ERROR |
| Verdicts.ClearedWhenDistinct | cmd/health-checker/main.go:46-76 | where lspci prints each address once, this means that lspci and the sidecar never call it anything but healthy |
| LspciStanzas.SplitByBlankLines | internal/reporter/lspci.go:103-113 | the loop keeps the pieces that are not white space, in order |
| LspciStanzas.BlankLineIff | internal/reporter/lspci.go:104 | a blank line consists of spaces and tabs, and perhaps a carriage return after them |
| LspciStanzas.SeparatorAtLineEnd | internal/reporter/lspci.go:104 | the separator pattern matches at a line end exactly when the next line is blank and finished, and then takes all blank lines that follow |
| LspciStanzas.PartsAreGroups | internal/reporter/lspci.go:103-113 | splitting any text at the separator pattern is grouping its lines at blank lines |
| LspciHeader.PrintParse | internal/reporter/lspci.go:117-141 | every header line of the grammar is read back with its address, ids and revision, whatever its description contains |
| LspciHeader.ParseSound | internal/reporter/lspci.go:117-141 | whenever the parser succeeds the line is one of the grammar with the captured parts |
| LspciHeader.ParseIffPrinted | internal/reporter/lspci.go:117-141 | a line parses to given captures if and only if it is written from a header with those parts |
| LspciHeader.GrammarIff | internal/reporter/lspci.go:117-129 | the grammar of a header in its characters |
| LspciDetails.TokensExact | internal/reporter/lspci.go:147 | the left-to-right matches of the token pattern contain a flag and sign exactly when the line has it anywhere |
| LspciDetails.TokensApart | internal/reporter/lspci.go:147 | error tokens never overlap, so no match hides another |
| LspciDetails.WrittenTokens | internal/reporter/lspci.go:147 | the tokens PERR, SERR, TAbort and MAbort with either sign are found wherever they stand in a line |
| LspciDetails.DeviceInfo.ReportTokens | internal/reporter/lspci.go:165-183 | present is the disjunction over all tokens of the line, enabled over those with a plus |
| LspciDetails.DeviceInfo.ParseStatus | internal/reporter/lspci.go:164-189 | error tokens count on status lines only, and a power state is taken only if there is none yet |
| LspciDetails.DeviceInfo.ParseDetails | internal/reporter/lspci.go:159-202 | over all lines the flags are disjunctions, the power state is the first match, the fatal flag and the driver are the last; address, ids and revision stay |
| LspciDetails.SeenIsReported | internal/reporter/lspci.go:164-183 | the flags gathered line by line are those of some status line |
| LspciDetails.FirstValueFound | internal/reporter/lspci.go:184-188 | keeping a value once it is set finds the first match |
| LspciDetails.LastValueFound | internal/reporter/lspci.go:191-200 | overwriting a value finds the last match |
| Lspci.ParseDeviceStanza | internal/reporter/lspci.go:206-224 | address, ids and revision come from the header line alone; the record stays zero without a header or with revision 01 |
| Lspci.ParseStanza | internal/reporter/lspci.go:243-272 | the device of a stanza depends on its header line only, although the body fills the record that is compared with the zero record |
| Lspci.ParseLspci | internal/reporter/lspci.go:240-275 | the loop gives the devices of the kept stanzas' header lines, in order |
| Lspci.ParseByLines | internal/reporter/lspci.go:240-275 | for any text: the devices of exactly those lines that are the first non-white line at the start or after a blank line |
| Lspci.StanzaConservation | internal/reporter/lspci.go:103-113 | splitting keeps every line that is not white space, in order, up to carriage returns at its end |
| Lspci.PrintedHeads | internal/reporter/lspci.go:226-275 | printed stanzas with any first lines are parsed to what their first lines say |
| Lspci.RoundTrip | internal/reporter/lspci.go:206-275 | printing and parsing yields exactly the devices of the two Spyre ids with a revision other than 01, in order, PF or VF by id, IN_ERROR exactly for revision ff in either case |
| Lspci.HeaderBeginsStanza | internal/reporter/lspci.go:123-129 | every one-line header may begin a printed stanza |
| Lspci.BodyIndependence | internal/reporter/lspci.go:206-275 | other bodies and other blank lines never change the result, whatever the first lines are |
| PciAddress.MatchPciComplete | internal/reporter/lspci.go:119 | an address is matched whole, whatever text follows |
| PciAddress.PciIffChars | internal/reporter/lspci.go:119 | an address is hh:hh.o or hhhh:hh:hh.o, character by character; the log pattern takes lower case only |
| PciAddress.NormaliseIdentifies | internal/reporter/ras.go:385-390 | normalisation gives 12 characters, is idempotent, and identifies exactly the addresses of equal domain, bus, device and function |
| AddressAgreement.SameKey | internal/reporter/ras.go:380-391 | a log line naming a lower-case address gives the key under which lspci reports it |
| AddressAgreement.SenIsLowerCase | internal/reporter/ras.go:35-37 | an address taken from a log is full and lower case |
| AddressAgreement.MeetsIffLowerCase | internal/reporter/lspci.go:119 | some log line can meet an lspci address if and only if lspci prints it in lower case |
| RasLog.ExtractsLeftmost | internal/reporter/ras.go:380-391 | the address of a line is that of the leftmost match |
| RasLog.ExtractsNothing | internal/reporter/ras.go:380-384 | a line yields no address exactly when the pattern matches nowhere |
| RasLog.LastPciExact | internal/reporter/ras.go:354-360 | the carried address is that of the nearest address line |
| RasLog.ScanExact | internal/reporter/ras.go:353-366 | the scan records exactly the addresses whose line is the nearest address line at or before some RAS error line |
| RasLog.TextExact | internal/reporter/ras.go:353-372 | the same over the lines of a log |
| RasLog.ScanConcat | internal/reporter/ras.go:353-366 | scanning a concatenation is scanning the parts with the last address carried over |
| RasLog.CarryMatters | internal/reporter/ras.go:354-365 | an address in force at the start is recorded in addition exactly if an error line precedes all address lines |
| RasLog.RecordedWithinExact | internal/reporter/ras.go:353-366 | what a window stands for is exactly what its error lines blame in the whole log |
| RasLog.WindowSound | internal/reporter/ras.go:320-328 | a window records a subset of the whole log, misses at most the address in force at the cut, and misses nothing if and only if no error line is orphaned, no address was in force, or another error line of the window blames it |
| RasLog.TailSound | internal/reporter/ras.go:353-366 | the same, with the same exact condition, for the text of a log tail, also when the scanner stops at a line that is too long |
| LogText.ScannerReadsLines | internal/reporter/ras.go:353-356 | the scanner gives back the lines of a text, ended by a newline or by a carriage return and a newline, if each is shorter than 65536 bytes |
| LogText.ScannerStopsAtLongLine | internal/reporter/ras.go:353-356 | at the first line of 65536 bytes or more the scan ends; exactly the lines before it come out |
| LogText.RasErrorIff | internal/reporter/ras.go:370-372 | a RAS error line holds both markers, anywhere |
| LogText.ExtractIff | internal/reporter/ras.go:380-391 | a line carries p exactly when its first marker with a lower-case address after it names p, with domain 0000 if none is written |
| LogText.LogGives | internal/reporter/ras.go:336-366 | a fetched log contributes exactly the addresses p for which some line holds both error markers and the last line up to it with a marked address carries p, in terms of the characters of the log |
| LogText.CutLogGives | internal/reporter/ras.go:336-366 | with a line that is too long the same holds of the lines before it |
| Text.ByteLengthExact | internal/reporter/ras.go:355 | a character counts one to four bytes towards the limit, by its code point |
| RasWatcher.RasReporter.constructor | internal/reporter/ras.go:75-82 | the reporter starts with no errors, enabled and unrestricted |
| RasWatcher.RasReporter.SetAllowedNamespaces | internal/reporter/ras.go:87-97 | the allowed set is that of the trimmed names; an empty list lifts the restriction |
| RasWatcher.RasReporter.Collect | internal/reporter/ras.go:113-122 | a new slice lists each recorded error once, stamped; the map is not changed |
| RasWatcher.RasReporter.AddRasError | internal/reporter/ras.go:149-157 | exactly one address is added and each entry stays IN_ERROR |
| RasWatcher.RasReporter.ScanMarks | internal/reporter/ras.go:353-366 | the loop adds exactly the recorded addresses of the scan |
| RasWatcher.RasReporter.ScanContainerLog | internal/reporter/ras.go:336-348 | one log is fetched; only a permission failure disables; only a log that was read adds addresses |
| RasWatcher.RasReporter.CrashLoopingContainers | internal/reporter/ras.go:303-309 | the names of the containers that wait in a crash loop |
| RasWatcher.RasReporter.FetchAndScanLogs | internal/reporter/ras.go:302-331 | fetches exactly the logs of the selected containers, of the previous run for crash-looping ones, adds exactly what they give, and disables exactly on a denied one |
| RasWatcher.RasReporter.UsesSpyreDraClaim | internal/reporter/ras.go:223-261 | true exactly when some readable claim of the pod has an allocated Spyre device; claims are read up to the first such one |
| RasWatcher.RasReporter.SkipPod | internal/reporter/ras.go:207-217 | a pod is skipped exactly when it is not failing, not in an allowed namespace, or not using Spyre; claims are read only if the first two do not decide and no resource prefix matches |
| PodFilter.HandledIff | internal/reporter/ras.go:184-288 | logs are fetched exactly for an added or modified pod that is "Failed" or has a status waiting in "CrashLoopBackOff", is in an allowed namespace, and requests an "ibm.com/spyre_" resource or has a readable claim of driver "spyre.ibm.com" |
| PodFilter.ClaimNamesIff | internal/reporter/ras.go:223-239 | the claims are those named in the spec, those named in the status, and the extended one unless its name is empty |
| PodFilter.EventFetches | internal/reporter/ras.go:302-331 | exactly the logs of the containers of a handled pod that failed or that wait in a crash loop themselves are fetched, from the previous run exactly if they wait |
| PodFilter.EventGives | internal/reporter/ras.go:302-366 | an event contributes exactly what the logs fetched for it give |
| PodFilter.CrashLoopIsScanned | internal/reporter/ras.go:278-331 | for a running pod whose container waits in a crash loop exactly the log of the previous run is fetched and gives the addresses |
| RasWatcher.RasReporter.HandleEvent | internal/reporter/ras.go:184-198 | one event adds, disables and calls exactly as its pod and its logs say |
| RasWatcher.RasReporter.HandleEvents | internal/reporter/ras.go:180-199 | all events of a watch are handled, with all their calls, also after a denied log |
| RasWatcher.RasReporter.WatchPods | internal/reporter/ras.go:166-200 | one watch is opened; a denied one disables, a failed one does nothing more |
| RasWatcher.RasReporter.Start | internal/reporter/ras.go:127-145 | over any sequence of watches the map only grows, by exactly what the watches give; the calls are exactly those of the watches; disabled never resets; no watch starts after it is set or the process stops, and the loop ends for no other reason |
| RasCalls.ClaimsReadUpToSpyre | internal/reporter/ras.go:244-261 | the claims that are read are the first ones, in order, and none after the first Spyre one |
| RasCalls.LogCallsStop | internal/reporter/ras.go:311-330 | within a pod no call follows a denied log if and only if no container is selected after the denied one |
| RasCalls.EventCallsStop | internal/reporter/ras.go:184-198 | which events make calls, which meet a denial, and which stop at it |
| RasCalls.NoCallAfterDenialIff | internal/reporter/ras.go:166-200 | a watch disables the reporter exactly when a call is denied, and no call follows a denied one if and only if nothing is selected after it in its pod and no later event has a claim to look up or a log to fetch |
| RasCalls.NoCallAfterDenialInRunIff | internal/reporter/ras.go:127-145 | over a whole run no call follows a denied one if and only if that holds for the last watch |
| RasCalls.DenialIsNotTheEnd | internal/reporter/ras.go:130-133 | a watch with two failed pods in which the first log is denied and the second is fetched and scanned |
| RasWatcher.LogProvenance | internal/reporter/ras.go:302-366 | what one container contributes is what its selected log blames |
| RasWatcher.EventProvenance | internal/reporter/ras.go:166-217 | what one event contributes comes from a handled pod's selected container |
| RasWatcher.Provenance | internal/reporter/ras.go:127-217 | an address is recorded over a run of watches if and only if some handled event of a failing Spyre pod in an allowed namespace has a selected container whose log blames it |
| UpdateChannel.ConservedByStep | pkg/server/server.go:223-240 | each step of a handler or of the sender keeps every update in exactly one place |
| UpdateChannel.Conservation | pkg/server/server.go:342-348 | in every reachable state each submitted update is dropped, in flight, or received by exactly one handler |
| UpdateChannel.ReceivedAreSubmitted | pkg/server/server.go:275-303 | a handler's updates are an in-order subsequence of the submitted ones |
| UpdateChannel.FlagIsSound | pkg/server/server.go:221-222 | the flag is never up without a live stream |
| UpdateChannel.FlagTellsIffNoOverlap | pkg/server/server.go:264-266 | the flag tells in all states whether a stream is live if and only if no stream ends while another is live |
| UpdateChannel.FlagExact | pkg/server/server.go:221-222 | in every state the flag is up if and only if no handler has ended since the last one started |
| UpdateChannel.LiveExact | pkg/server/server.go:221-222 | a stream is live if and only if it has started and not ended |
| UpdateChannel.DroppedIff | pkg/server/server.go:342-348 | an update is dropped for good if and only if a handler has ended since the last one started, or none has started, when the flag is looked at |
| UpdateChannel.PassesLiveStreamIff | pkg/server/server.go:342-348 | an update is dropped although a stream is live if and only if some stream has started and not ended but another has ended since the last start |
| UpdateChannel.UpdatePassesLiveStream | pkg/server/server.go:342-348 | a run in which an update is dropped although a stream is live |
| ChannelRuns.Projection | pkg/server/server.go:211-305 | the channel part of every run of the pipeline is a run of the channel, step by step |
| ChannelRuns.ReturnedIsReceived | pkg/server/server.go:342-348 | in every run an update for which UpdateHealths has returned was dropped, or received by exactly one stream |
| ChannelRuns.DroppedInRunIff | pkg/server/server.go:342-348 | in every run an update is dropped for good if and only if the flag is down when it is looked at |
| ChannelRuns.OneStreamReceives | pkg/server/server.go:211-242 | in every run with one stream an update that has returned was received by it if and only if it was live when the flag was looked at |
| ChannelRuns.AlwaysInStep | pkg/server/server.go:218-222 | in every run a waiting stream is live and a closed one is not; a plain stream raises the flag only after its first message, a tracking stream before |
| ChannelRuns.PeriodicUpdatesSubmit | cmd/health-checker/main.go:203-213 | in every run each periodic update submits exactly one snapshot, whether it succeeds or fails |
| ChannelRuns.AlwaysSilentAtStart | cmd/health-checker/main.go:192-199 | in every run nothing is submitted while the server is created, nor before the first update of main has succeeded or the ticker runs |
| HealthStreams.CheckForRemovedDevices | pkg/server/server.go:308-340 | the states unchanged, then one REMOVED entry for each tracked address they lack; a new slice unless nothing is tracked; the input is not written to |
| HealthStreams.HealthServer.RegisterForEvents | pkg/server/server.go:211-242 | message 0 is the published snapshot, message k the k-th received update, until the first failed send; the flag is down afterwards if it was raised |
| HealthStreams.HealthServer.RegisterWithDevices | pkg/server/server.go:244-305 | the messages form the history that starts from the client's list, until the first failed send; the flag is down afterwards |
| HealthStreams.HealthServer.SendUpdates | pkg/server/server.go:268-303 | the loop's messages and tracking map follow the updates one by one |
| HealthStreams.HealthServer.HandleUpdate | pkg/server/server.go:284-293 | an update is compared with the map before its addresses are added |
| HealthStreams.HealthServer.ReadInitial | pkg/server/server.go:249-258 | the lookup set holds the addresses of the client's devices that have an ID |
| HealthStreams.HealthServer.AddStates | pkg/server/server.go:287-293 | the tracking map grows by exactly the update's addresses |
| HealthStreams.HistoryCovers | pkg/server/server.go:250-293 | message k covers exactly the client's list and the addresses of the first k updates; message 0 covers the list and the first states |
| HealthStreams.NothingVanishes | pkg/server/server.go:285-297 | from message 1 on the addresses of a stream only grow |
| HealthStreams.FirstStatesKeptIff | pkg/server/server.go:261-262 | no address of message 0 vanishes if and only if the first states are on the client's list or in the first update |
| FirstStates.FirstStatesVanishInRun | pkg/server/server.go:261-262 | for every configuration and any two addresses, a run of the pipeline in which a client that names one of them sees the other in message 0 and finds it in message 1 neither listed nor removed |
| HealthStreams.DistinctMessages | pkg/server/server.go:323-339 | an update without repetition gives a message with exactly one entry per tracked address |
| HealthStreams.RemovedMeansMissing | pkg/server/server.go:328-337 | a device is marked REMOVED if and only if it is tracked and missing |
| HealthStreams.MissingArrivesRemoved | pkg/server/server.go:328-337 | a client receives a tracked device that the states lack as REMOVED without a type, and as nothing else |
| HealthStreams.ReceivedEntry | pkg/server/server.go:394-400 | a client receives each state with its address, type and state, and after them only REMOVED devices |
| HealthStreams.TrackedExact | pkg/server/server.go:250-293 | the tracked addresses are those of the client's list and of all updates so far |
| Pipeline.MergeIsFaithful | internal/healthcheck/healthcheck.go:86-96 | a snapshot shows exactly the recorded RAS errors as RAS errors and shows nothing else for them |
| Pipeline.ScanKeepsRecorded | internal/reporter/ras.go:353-366 | scanning a further line keeps the RAS map equal to what the logs read so far record |
| Pipeline.UpdateStepKeeps | cmd/health-checker/main.go:192-213 | merging, publishing, failing and reading keep the invariant |
| Pipeline.SubmitStepKeeps | pkg/server/server.go:342-348 | submitting keeps the invariant: what is in flight is the newest snapshot |
| Pipeline.StreamStepKeeps | pkg/server/server.go:211-305 | opening, flagging, sending, receiving and leaving keep the invariant: messages never go back to an older snapshot |
| Pipeline.Reachable | cmd/health-checker/main.go:148-213 | the invariant holds in every state of every run, for every interleaving and every reporter configuration |
| Pipeline.RasErrorsStick | pkg/server/server.go:211-305 | once a message on a stream shows an address as a RAS error, every later message on it shows that address, and only in error |
| Pipeline.ShownRasErrorsAreBlamed | internal/reporter/ras.go:353-366 | whatever a stream shows as a RAS error is blamed by a line of a scanned log |
| Pipeline.PublishedIsSeen | pkg/server/server.go:211-305 | a published RAS error is in every message made from its snapshot or a later one, and in every message of every stream opened afterwards |
| Pipeline.LaterStreamsSeeIt | pkg/server/server.go:211-305 | a shown RAS error is in every message of every stream opened later |
| Pipeline.RecordedIsPublished | cmd/health-checker/main.go:203-213 | every snapshot whose merge comes after an error was recorded contains it |
| Pipeline.RecordedIsSeen | pkg/server/server.go:211-305 | a recorded RAS error is in every message, on any stream, that is made from a snapshot merged afterwards |
| Pipeline.ErrorsReachClients | cmd/health-checker/main.go:187-213 | for every configuration, every log line that names a device in a RAS error is shown to a client in some run |
| StreamRuns.StepKeepsLinks | pkg/server/server.go:223-303 | each step keeps the link between a stream's messages, its inbox, its tracking map and the published snapshots |
| StreamRuns.StreamTells | pkg/server/server.go:211-305 | in every run message k of a stream is made from the k-th update its handler received; plain messages are the snapshots, tracking messages form the history from the client's list |
| StreamRuns.NothingVanishesInRuns | pkg/server/server.go:285-297 | in every run no address vanishes from a tracking stream after message 1 |
| StreamRuns.MessagesDistinct | pkg/server/server.go:323-339 | in every run no message of any stream has an address twice |
| StreamRuns.MessageCount | pkg/server/server.go:285-297 | in every run message k of a tracking stream has exactly one entry for each address tracked by then |
| StreamRuns.MessageMadeFrom | pkg/server/server.go:211-305 | in every run message k is made from the snapshot it names and from the addresses tracked before it |
| StreamRuns.ClientReceives | pkg/server/server.go:394-400 | in every run the client of any stream receives the devices of the snapshot with their types and states, and after them only REMOVED devices that the snapshot lacks |
| StreamRuns.MissingIsTold | pkg/server/server.go:328-337 | in every run a tracked device that the snapshot of a message lacks reaches the client as REMOVED, and as nothing else |

## Left out

- TLS, certificates, gRPC transport, HTTP probes, the metrics server, sockets and client authorisation: library plumbing.
- Kubernetes calls, running lspci, `os.Stat` with its time limit and the sidecar's RPCs: parameters with arbitrary answers.
- Liveness of `UpdateHealths`: the flag check and the blocking send are not atomic and the receiver may leave in between, so delivery is not claimed; a blocked sender stays in flight.
- The behaviour after `Stop` has closed the channel: no update is submitted afterwards.
- Prometheus gauges, logging, flags, `ParseInterval`, the watcher's back-off delay and the debug output: thin wrappers.
- The static tables of pseudo devices: the pseudo reporter lists arbitrary devices.
- The log tail request itself: which lines Kubernetes returns is open, and `RasLog.WindowSound` covers every window.
- `CardManagement`, `SimplifiedDevice`, the client binary, and the default reporter that `NewVitals` adds when given none.
- A general regular expression engine: the fixed patterns have matchers of their own.
- Invalid UTF-8 and runes outside Dafny's characters: texts are sequences of characters, and only the scanner's limit counts bytes.
- The texts of errors of reporters: an error is only present or absent.
- Reads that fail in the middle of a log or a stanza: a text is scanned up to its end or to a line that is too long.
- RasWatcher.RasReporter.ScanMarks: takes what the lines carry, extracted beforehand, instead of extracting it inside the loop.
- RasWatcher.RasReporter.Start: runs against the sequence of watches that will happen; handling one event is atomic there, while `Pipeline` interleaves single lines with everything else.
- HealthStreams.HealthServer.RegisterForEvents: runs against the updates that its handler will receive; who receives which update is the subject of `UpdateChannel` and `StreamRuns`.
- HealthStreams.HealthServer.RegisterWithDevices: as `RegisterForEvents`; the tracking map is a set passed from step to step rather than a map that is updated in place.
- Pipeline.RasErrorsStick: RAS errors only, since errors of other reporters do not persist.

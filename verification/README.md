# A model of the device-management server's algorithms and small protocols

The server manages a fleet of tablets and kiosks. This project models the parts of it whose correctness
does not follow from reading one function body, and proves what they promise: the kiosk wildcard matcher,
the bounded history of published agent builds, the replay of screen transitions into spans, the block-cached
reader over an object store and the resumable download, the APK signing-block parser, three concurrent
registries (adb tunnels, telemetry loops, the cluster's events and owner table), the access evaluator and its
two-question editor, the sliding-window counters, the folding of alerts into messages and problems, the keyset
paging of a remote table, and the hardware families learned from serials.

Code that loops or updates fields is written as methods and classes and proved against a function or a
predicate; what is promised is then proved of that function, over every input, every run or every
interleaving. A lock-protected region is one atomic step, and a step may happen whenever its guard holds, so
every interleaving of the goroutines is a run.

| file | what it holds |
|---|---|
| `Glob.dfy` | the wildcard matcher, its language, and exactly when the two agree |
| `PublishHistory.dfy` | slots and the capped, deduplicated publish history |
| `HostAppSpans.dfy` | transitions replayed into spans that tile a window |
| `BlockCache.dfy`, `CacheFill.dfy` | random access through 8 MiB blocks; resumable fill of a local file |
| `Signer.dfy`, `SignerAnswers.dfy` | the APK parser, a writer, and parsing undoing writing; what it answers for any bytes |
| `AdbTunnel.dfy`, `AdbTunnelGaps.dfy` | the tunnel manager as a step system; where it keeps less than it says |
| `TelemetryLoops.dfy`, `Cluster.dfy`, `Owners.dfy` | telemetry loops, the copies' events, and the table of socket owners |
| `Access.dfy`, `AccessMeaning.dfy`, `Targets.dfy`, `GroupSends.dfy` | decisions, what they come to on the stored fields, bulk targets, group sends |
| `AccessSimple.dfy`, `FormMeaning.dfy` | the two-question editor; which forms and policies it refuses |
| `SlidingWindow.dfy` | pruned lists of times |
| `AlertFold.dfy`, `AlertMeaning.dfy` | alerts folded into messages; causes, and who must be folded |
| `ProblemFold.dfy`, `ProblemMeaning.dfy`, `OutageMeaning.dfy`, `OutageFolds.dfy`, `ProblemOrder.dfy` | alerts folded into problems, and what that keeps |
| `Paging.dfy` | reading a table a page at a time |
| `SerialFamilies.dfy`, `SampleGroups.dfy`, `FamilyOrder.dfy` | hardware families, which samples make one, and what order shows in them |
| `Grouping.dfy`, `StableSort.dfy`, `SortedLists.dfy`, `Wrappers.dfy` | shared lists, groups and orders |

## What the proofs found

Each of these is a statement that does not hold of the code as it stands. The code is modelled as it is; a
lemma gives the exact condition under which the statement holds, or a run on which it fails.

- The wildcard matcher compares for equality before it looks for `*`, so a `*` in the text can be taken for a
  literal. It decides a text for every pattern exactly when the text has no `*` before its last character
  (`Glob.ExactIffStarOnlyLast`); it never says yes wrongly (`Glob.Exact`).
- A ranged GET whose body stops early is accepted, and the rest of the block is zeros. A body of k bytes is right
  for every block of its length exactly when it is all of it (`BlockCache.ShortBodyIsRightIff`), and a network
  shows every object as it is exactly when each of its requests fails, delivers nothing or delivers as much as a
  whole block (`BlockCache.ShowsEveryObjectIff`). `BlockCache.ShortRead` is a read that succeeds with a byte that is not the
  object's.
- A downloaded file is the object exactly when the part file found at the start was a head of it
  (`CacheFill.PublishedIsObjectIff`); a stale part file of the right length is published unread
  (`CacheFill.StalePartPublished`). Bytes of the 200th attempt are never published by the call that fetched
  them (`CacheFill.PublishesIff`).
- Two `Open` calls for one device that both find the old session leave two live sessions, one of which no
  device entry names (`AdbTunnelGaps.TwoOpensTwoLive`, from the empty manager `AdbTunnelGaps.TwoOpensRun`). The
  second half of `Open` breaks "one live session per device" exactly when a live session of the device is
  registered at that moment (`AdbTunnelGaps.RegisterKeepsOneLiveIff`).
- An accepted device leg can be piped exactly when serve is still waiting for one
  (`AdbTunnelGaps.AcceptedLegCanBePipedIff`); a later one is told it is attached and is never piped
  (`AdbTunnelGaps.LegNeverPiped`, `AdbTunnelGaps.LateLegRun`).
- A telemetry loop that is superseded does not always "stop at once", as `internal/api/handlers.go:330-331` has it:
  it pushes at most once after that unless it is held up between setting its timer and waiting on it for longer than
  the timer runs (`TelemetryLoops.NotHeldUpPushesOnce`), and once more for each time it is
  (`TelemetryLoops.AtMostOneLatePush`); held up n times it can push n + 1 times (`TelemetryLoops.HeldUpRun`).
- Presence that arrives between a refresh's query and its publication is overwritten. The published set has lost
  nothing exactly when the query's answer already said of each device what its last presence event says
  (`Cluster.RefreshAround`, `Cluster.KnownIff`); `Cluster.PresenceLost` is a device that came online and is not seen.
- Close ends every stream except those registered after its snapshot, each of which may be piping when the session
  is gone (`AdbTunnelGaps.CloseMissesIff`, `AdbTunnelGaps.MissedStreamRun`).
- The minute resync does not put a lost disconnect right, though `internal/cluster/cluster.go:281-282` says it
  heals a dropped or failed write: it puts this copy's rows right exactly when each already stands for a socket it
  holds (`Owners.ResyncHealsIff`), and a stale row survives any number of resyncs (`Owners.StaleRowSurvivesResync`).
- The batched owner write differs from the changes applied in order exactly when a device came and went
  between two writes while another copy's row stood (`Owners.BatchIsInOrderIff`, `Owners.CameAndWentTable`).
- The list shortcut for users who see everywhere agrees with the per-device decision except for a role that is
  not one of the known ones and holds a grant everywhere: it is listed a fleet of which it may see nothing
  (`Access.VisibleIsDecisionIff`, `Access.KnownRolesMayView`, `Access.ListedButNotAllowed`).
- On a device a team member's level and role decide alone (`AccessMeaning.LevelsOpen`): the device's state, which
  `internal/dashboard/access.go:118-120` says decides where remote control goes, is never asked.
- A rule made from "everything my role can" is meant to name the sensitive actions the role holds by default
  (`internal/dashboard/access_simple.go:29-30`). It does so exactly for the roles other than operator, engineer and
  Field, who hold remote control and do not get it named (`FormMeaning.ExtrasAreDefaultsIff`).
- The two-question form keeps the answers about actions and expiry exactly when it says every device, names a
  place that parses, or asked for no more than looking and no end (`AccessSimple.AnswerKeptIff`,
  `AccessSimple.AnswerLost`); it keeps the note exactly when some rule was stored or the note is blank
  (`AccessSimple.NoteKeptIff`).
- A send left as a group is read again at delivery. The decision would let every later member through exactly when
  the role may do the action and, in every device state, a grant of that state or of everywhere suffices
  (`GroupSends.GroupStaysAllowedIff`); `GroupSends.LaterMemberRefused` is a send and a later member it refuses.
- A restaurant's outage is not marked as having something new when a further device drops after the others were
  acknowledged, though its own comment says "something new has opened since"
  (`OutageMeaning.NewSymptomMissedIff`, `OutageMeaning.NewSymptomMissed`).
- The order of the problems list depends on Go's map order exactly when two outages tie on severity and start
  (`ProblemOrder.WalkShowsIff`, `ProblemOrder.TieHappens`).
- Which family an unknown serial is given to depends on Go's map order exactly when two families fit it equally well
  (`FamilyOrder.WalkShowsIff`, `FamilyOrder.TwoModelsOneScheme`).
- Samples with one group key are of one maker and model exactly when the makers' names are as long as each other,
  and so when none holds a bar (`SampleGroups.SameGroupIff`); `SampleGroups.MakersRunTogether` is a pair that is not.
- Paging returns the whole table exactly when every id is positive (`Paging.WholeTableIff`).

## Model

| member | source | states |
|---|---|---|
| Glob.GlobMatchLoop | internal/config/config.go:650-673 | the single-saved-star loop ends, never accepts a text outside the pattern's language, and decides the language on every text with no `*` before its last character |
| Glob.Sound | internal/config/config.go:650-673 | a yes from any point of the loop means the rest of the text is in the language of the rest of the pattern there or from the saved star |
| Glob.NewStarSubsumes | internal/config/config.go:657-660 | once a new star is met, whatever backtracking to an earlier star could still match, the new one matches too |
| Glob.Complete | internal/config/config.go:650-673 | while the rest matches there or from a later retry of the saved star, the loop will say yes |
| Glob.Exact | internal/config/config.go:650-673 | sound for every pattern and text, complete for texts without an early `*` |
| Glob.Incomplete | internal/config/config.go:654-656 | for every text with an early `*`, a pattern that matches it and is refused |
| Glob.ExactIffStarOnlyLast | internal/config/config.go:650-673 | the matcher decides every pattern on a text if and only if the text has no `*` before its last character |
| Glob.StarInTextRefused | internal/config/config.go:654-656 | one refused match, written out |
| Glob.Config.KioskAppAllowed | internal/config/config.go:633-646 | for every package: admitted exactly when the list is empty or the matcher lets it through some non-blank trimmed entry; for names with no early `*` that is the entries' languages |
| Glob.TrimMeaning | internal/config/config.go:639-642 | an entry is read from its first to its last character that is not blank |
| PublishHistory.TrailMeaning | internal/config/config.go:1089-1100 | the untruncated history holds each SHA's latest publish, latest first, and nothing else |
| PublishHistory.PublishCapped | internal/config/config.go:1089-1100 | publishing onto the truncated history and truncating is publishing onto the whole one and truncating |
| PublishHistory.PushHistory | internal/config/config.go:1089-1100 | the rebuilding loop puts the new build first, drops its SHA's old entry and cuts at 12 |
| PublishHistory.Config.SetAgentAPKSlot | internal/config/config.go:1061-1105 | the whole new state of both layouts after one publish |
| PublishHistory.Config.AgentAPKSlot | internal/config/config.go:1037-1058 | what a slot reads back, from either layout, and that an empty SHA reads as nothing |
| PublishHistory.Config.AgentAPKHistory | internal/config/config.go:1108-1115 | the slot's history, under the same key that publishing wrote |
| PublishHistory.CappedHistoryIsHeadOfTrail | internal/config/config.go:1061-1115 | after any sequence of publishes a slot's history is the first 12 entries of the history that never truncates |
| PublishHistory.HistoryBounded | internal/config/config.go:1061-1115 | no SHA twice, at most 12 entries, in every reachable configuration |
| PublishHistory.ReadsBackLast | internal/config/config.go:1037-1105 | a slot reads back field for field what it was last given, whatever was published to the others |
| PublishHistory.SlotsApart | internal/config/config.go:1037-1115 | "" and "dpc" are one slot, and a publish to one slot leaves every other as it was |
| HostAppSpans.ReadingsMeaning | internal/api/testdata_hostapp.go:69-103 | the replayed reading at an instant is the value most recently set at or before it |
| HostAppSpans.ShownMeaning | internal/api/testdata_hostapp.go:52-106 | at each instant of a span, which of the five states it shows, by when the device went quiet and the last value of each key: quiet first, then no report, then a dark screen, then the app |
| HostAppSpans.HostAppSpans | internal/api/testdata_hostapp.go:68-129 | the spans tile the window, neighbours differ, every instant of a span is in the replayed state (offline after the cut), totals are per state, and their sum is within the spans' rounding of the window's seconds |
| HostAppSpans.Replay | internal/api/testdata_hostapp.go:69-106 | the event loop with its clamping and merging keeps the tiling and the agreement up to the point it has reached |
| HostAppSpans.Total | internal/api/testdata_hostapp.go:108-128 | seconds per span and per state, and a percentage between 0 and 100 exactly when there are known seconds |
| HostAppSpans.Between | internal/api/testdata_hostapp.go:89-105 | between two transitions of an ordered list the shown state stands still |
| HostAppSpans.RoundingLoss | internal/api/testdata_hostapp.go:109-120 | rounding n spans down loses less than n seconds in all |
| HostAppSpans.OnlyOneTiling | internal/api/testdata_hostapp.go:68-129 | tilings that agree with one state and have different neighbours are equal: the output is determined by the replay |
| HostAppSpans.NowIsLastState | internal/api/testdata_hostapp.go:131-137 | "now" is the state at the window's last instant and since is when it last changed |
| BlockCache.ShortBodyIsRightIff | internal/apkstore/apkstore.go:247-250 | a body of k bytes, accepted for any k above 0, is right for every block of its length if and only if it is all of it |
| BlockCache.ShowsEveryObjectIff | internal/apkstore/apkstore.go:226-261 | for any network: it shows every object as it is if and only if each request fails, delivers nothing, or delivers at least a block |
| BlockCache.ShortRead | internal/apkstore/apkstore.go:263-287 | an object, a short body and a read that succeeds with a wrong byte |
| BlockCache.NextPart | internal/apkstore/apkstore.go:271-285 | bytes read so far continued with the bytes from where they end still read as the flat object, across the block boundary |
| BlockCache.S3ReaderAt.Insert | internal/apkstore/apkstore.go:251-259 | the insertion region keeps every cached block right and the cache at 17 blocks or fewer, whatever happened since the lookup |
| BlockCache.S3ReaderAt.Block | internal/apkstore/apkstore.go:226-261 | a block is the cached one, or exactly what its one request delivered, padded; it reads as its part of the object when the transfer was whole |
| BlockCache.S3ReaderAt.ReadAt | internal/apkstore/apkstore.go:263-287 | reads like a flat byte array: min(len, size-off) bytes, EOF exactly when that is fewer than asked, the bytes that the transfers showed (the object's own when none was cut short), nothing else in the buffer touched, failure only on a refused request, whatever is cached |
| CacheFill.OnlyGrows | internal/apkstore/apkstore.go:110-166 | under any transfer faults the part file only grows, by the object's bytes at their own offsets, and only a file at least as long as the object is published |
| CacheFill.PrefixStaysPrefix | internal/apkstore/apkstore.go:110-166 | a part file that is a head of the object stays one, and is published only as the whole object |
| CacheFill.PublishedIsObjectIff | internal/apkstore/apkstore.go:110-166 | the published file is the object if and only if the part file found was a head of it |
| CacheFill.StalePartPublished | internal/apkstore/apkstore.go:124-130 | a stale part file of the right length is published as it stands |
| CacheFill.PublishesIff | internal/apkstore/apkstore.go:123-165 | for any network: a call publishes exactly when by some attempt nothing has aborted it and what it found with what came reaches the object's length |
| CacheFill.UnabortedPublishesIff | internal/apkstore/apkstore.go:123-165 | a call no fault aborts publishes exactly when what it found and its first 199 attempts reach the object's length |
| CacheFill.StopsWithAll | internal/apkstore/apkstore.go:123-165 | a call that stops short leaves everything that came, the last attempt's bytes included |
| CacheFill.Store.EnsureCached | internal/apkstore/apkstore.go:99-166 | for a key neither cached nor being filled, nil exactly when the size is known and positive, some attempt finds enough and the rename works; then the file is in place. Otherwise nil, and neither the part file nor the final one moves |
| CacheFill.Store.Download | internal/apkstore/apkstore.go:110-166 | succeeds exactly when the size is known and positive, some attempt finds enough and the rename works; the final file changes only by publishing, and is the object exactly when the part file was a head of it; what else is left is what the attempts leave |
| Signer.Lp | internal/apkstore/signer.go:132-142 | a length-prefixed field is returned exactly when it fits, and is the bytes after its prefix; the 32-bit sum cannot wrap below 4 GiB |
| Signer.LastIndex | internal/apkstore/signer.go:155-158 | the place found holds the end-record signature and no later place does |
| Signer.ValuesFit | internal/apkstore/signer.go:88-97 | every value the pair loop stores is at most 16 MiB, which is what keeps the field sums from wrapping |
| Signer.CentralDirOffset | internal/apkstore/signer.go:146-160 | on any file, the offset in the last end record of the searched tail, or "not a ZIP", unless the latest request failed |
| Signer.ReadPairs | internal/apkstore/signer.go:88-97 | the pair loop ends on arbitrary bytes and collects each id's last value or refuses the pair |
| Signer.ReadBlock | internal/apkstore/signer.go:69-87 | the pairs of the block that ends at the central directory, with every size and magic check, every read in range, unless the latest request failed |
| Signer.FirstCertFromReaderAt | internal/apkstore/signer.go:64-104 | through the block cache, on any file: the parser's answer on the bytes the transfers showed, the file's own when none was cut short; a read error only when the latest request failed or delivered nothing |
| Signer.LeInverse | internal/apkstore/signer.go:74-96 | little-endian decoding undoes encoding at every width used |
| Signer.FirstCertificateOfWritten | internal/apkstore/signer.go:108-130 | down the nesting of a written v2 or v3 value, the first signer's first certificate |
| Signer.ValuesOfWritten | internal/apkstore/signer.go:88-97 | parsing printed pairs gives the pairs, the last of equal ids winning |
| Signer.DirectoryFound | internal/apkstore/signer.go:146-160 | the end record of a written file is the one found |
| Signer.BlockFound | internal/apkstore/signer.go:69-87 | the block written before the directory is the one read |
| Signer.V3Preferred | internal/apkstore/signer.go:64-104 | a written file with a v3 value gives its first signer's first v3 certificate, whatever v2 says |
| Signer.V2WithoutV3 | internal/apkstore/signer.go:64-104 | a written file without a v3 value gives its v2 certificate |
| Signer.NeitherScheme | internal/apkstore/signer.go:98-103 | a written file with neither is reported as unsigned |
| SignerAnswers.DirectoryIff | internal/apkstore/signer.go:146-160 | for any bytes: the offset is that of the last signature, and the file is refused exactly when it has none or no room for a record |
| SignerAnswers.BlockIs | internal/apkstore/signer.go:69-87 | for any file and offset: each refusal in order, or the bytes of the pairs, by the file's own bytes and the unsigned size |
| SignerAnswers.NoMagicUnsigned | internal/apkstore/signer.go:64-78 | a file without the magic before its directory is unsigned, whatever else it holds |
| SignerAnswers.CertificateIff | internal/apkstore/signer.go:108-142 | for any bytes: a certificate is found exactly when the bytes nest as a writer's do down to it |
| TelemetryLoops.EveryRunKeeps | internal/api/handlers.go:287-343 | the registry's invariant over every run of connects, waits, pushes and exits |
| TelemetryLoops.OneLiveLoopPerDevice | internal/api/handlers.go:287-299 | a device has at most one loop that is not cancelled, and the map names it |
| TelemetryLoops.AtMostOneLatePush | internal/api/handlers.go:325-342 | over every run a cancelled loop pushes at most once more, plus once for each time it was held up past its interval before its wait looked |
| TelemetryLoops.NotHeldUpPushesOnce | internal/api/handlers.go:325-342 | over every run in which a loop is never held up so, it pushes at most once after it is cancelled |
| TelemetryLoops.HeldUpRun | internal/api/handlers.go:325-342 | for every n, a run from the start in which a cancelled loop is held up n times and pushes n + 1 times: the bound is reached |
| TelemetryLoops.SeenDonePushesNothing | internal/api/handlers.go:330-335 | over every run: a superseded loop that sees so in its wait never pushes again and is on its way out for good |
| TelemetryLoops.TimerMayWin | internal/api/handlers.go:333-342 | over every run: where a superseded loop could see so in its wait, its timer may be taken instead, and it pushes once |
| TelemetryLoops.FailedPushIsLast | internal/api/handlers.go:338-341 | over every run: a failed push is a loop's last |
| TelemetryLoops.UnwokenPushesNothing | internal/api/handlers.go:325-342 | over every run: a cancelled loop that is not about to push pushes only if its timer fires in the wait it was in, or it is held up |
| TelemetryLoops.LatestConnectionServed | internal/api/handlers.go:287-343 | the latest connection's loop keeps running and keeps its entry until one of its own pushes fails |
| TelemetryLoops.OnlyOwnExitRemoves | internal/api/handlers.go:306-316 | a superseded loop's exit never removes its replacement |
| TelemetryLoops.NothingLeaks | internal/api/handlers.go:306-316 | when every loop has ended the map is empty |
| TelemetryLoops.Handler.StartTelemetryRequestLoop | internal/api/handlers.go:287-299 | the region under the mutex is the modelled connect step |
| TelemetryLoops.Handler.Exit | internal/api/handlers.go:309-316 | the deferred exit is the modelled release and removal |
| AdbTunnel.EveryRunKeeps | internal/adbtunnel/manager.go:158-211 | over every interleaving: map entries are sessions filed under their own device, ports of live sessions differ, streams are sound |
| AdbTunnel.ClosedIsGone | internal/adbtunnel/manager.go:314-323 | a fully closed session is in neither map and stays closed |
| AdbTunnel.StreamOnce | internal/adbtunnel/manager.go:449-548 | a stream is finished at most once and pipes at most one leg, and is finished when serve has left |
| AdbTunnel.DoneIff | internal/adbtunnel/manager.go:449-548 | over every run a stream's channel is closed if and only if Close finished it, the device's side ended or serve left, in any order and however often |
| AdbTunnel.NoLegUnoffered | internal/adbtunnel/manager.go:470-481 | over every run a stream pipes nothing unless the device's leg for it was accepted |
| AdbTunnel.CloseFinishesWhatItSaw | internal/adbtunnel/manager.go:405-418 | whatever happens in between, every stream registered before the snapshot of its session's Close is finished by the time the session has left the maps |
| AdbTunnel.StreamCanEnd | internal/adbtunnel/manager.go:449-548 | from every state of a stream some run lets serve leave, its channel closed once |
| AdbTunnel.SessionCanClose | internal/adbtunnel/manager.go:405-418 | from every state of a session some run closes it for good |
| AdbTunnelGaps.CloseMissesIff | internal/adbtunnel/manager.go:405-418 | a stream can be piping, unfinished, when its session is gone if and only if it was registered after the snapshot |
| AdbTunnelGaps.MissedStreamRun | internal/adbtunnel/manager.go:405-480 | a run from the empty manager that leaves a stream piping after its session is gone |
| AdbTunnelGaps.LegNeverPiped | internal/adbtunnel/manager.go:449-540 | once serve is past its wait no leg is ever piped again, over every later run |
| AdbTunnelGaps.AcceptedLegCanBePipedIff | internal/adbtunnel/manager.go:274-279 | an accepted leg can still be piped by some run if and only if serve is waiting |
| AdbTunnelGaps.LateLegRun | internal/adbtunnel/manager.go:261-280 | a run from the empty manager to a leg that is accepted and never piped |
| AdbTunnelGaps.RegisterKeepsOneLiveIff | internal/adbtunnel/manager.go:169-193 | the second half of Open keeps one live session per device exactly when none is registered at that moment |
| AdbTunnelGaps.TwoOpensTwoLive | internal/adbtunnel/manager.go:169-193 | a run of two interleaved Opens that ends with two live sessions of one device |
| AdbTunnelGaps.TwoOpensRun | internal/adbtunnel/manager.go:169-193 | the same from the empty manager |
| AdbTunnelGaps.TurnsKeepOneLive | internal/adbtunnel/manager.go:158-193 | when Opens of a device take turns, at most one session per device is ever live |
| AdbTunnel.Manager.OpenFirst | internal/adbtunnel/manager.go:167-193 | the first region of Open is the modelled step, or nothing when no port is free |
| AdbTunnel.Manager.OpenSecond | internal/adbtunnel/manager.go:173-189 | the second region of Open registers over whatever the entry has become, or gives up when no port is free |
| AdbTunnel.Manager.Remove | internal/adbtunnel/manager.go:314-323 | the last region of Close is the modelled step |
| AdbTunnel.Manager.AttachDevice | internal/adbtunnel/manager.go:261-280 | a leg is accepted exactly when the session is the device's, the stream is listed and no leg lies in its channel |
| AdbTunnel.Listen | internal/adbtunnel/manager.go:197-211 | the wrapping scan finds a free port of the range exactly when there is one |
| Cluster.SendBatch | internal/cluster/cluster.go:213-227 | a gathered batch goes out in order in as few notifications as can hold it |
| Cluster.SendEvents | internal/cluster/cluster.go:201-229 | for any batching, the notifications concatenate to the queue in order, 1 to 90 events each |
| Cluster.LastPresenceDecides | internal/cluster/cluster.go:365-398 | a device is remote exactly when its last presence event says so, or it has none and was remote |
| Cluster.Member.NoteRemote | internal/cluster/cluster.go:262-279 | copy-on-write: the new set, and no published map is ever changed |
| Cluster.Member.Refresh | internal/cluster/cluster.go:246-258 | the publishing half of a refresh: the set is replaced by what the query answered, or kept on error |
| Cluster.RefreshAround | internal/cluster/cluster.go:246-279 | notifications between a refresh's query and its publication are overwritten; the set is what they make of the answer if and only if the answer already knew each device's last presence |
| Cluster.KnownIff | internal/cluster/cluster.go:246-279 | presence events leave a set as it is if and only if it says of every device what its last presence event says |
| Cluster.PresenceLost | internal/cluster/cluster.go:246-279 | a refresh that forgets a device whose coming online it was told of |
| Cluster.Member.Deliver | internal/cluster/cluster.go:393-398 | one event's effect on the set and what reaches the hub |
| Cluster.Member.HandleEvs | internal/cluster/cluster.go:365-391 | a received notification applies its events one at a time, in order |
| Cluster.Member.HandleAll | internal/cluster/cluster.go:365-391 | handling the chunks is applying every event singly |
| Cluster.SendAndReceive | internal/cluster/cluster.go:201-398 | from one copy's queue to another copy's set, any batching and chunking gives what the single events give |
| Owners.HearAll | internal/cluster/cluster.go:283-302 | changes heard one at a time leave the last of each device to be written |
| Owners.OwnerWriter.Flush | internal/cluster/cluster.go:283-316 | the flushed sets are disjoint, cover the pending changes and split them by their last state, in any map order; the write they make is the modelled step |
| Owners.BatchIsInOrderIff | internal/db/cluster.go:35-51 | the batched write equals the changes written in order if and only if no device came and went over another copy's row |
| Owners.InOrder | internal/db/cluster.go:35-51 | one device's row under writes in order, without recursion |
| Owners.ResyncHealsIff | internal/cluster/cluster.go:317-323 | the resync makes this copy's rows exactly its sockets if and only if every such row already stood for one |
| Owners.NeverClaimsOthers | internal/cluster/cluster.go:283-326 | over every run in which each change is heard and each flush lands, whatever other copies write: a device with no socket here and nothing left to write is never this copy's row |
| Owners.UndisturbedIsRight | internal/cluster/cluster.go:283-326 | over every such run in which other copies take only devices without a socket here, the rows are exactly the sockets after a flush |
| Owners.StaleRowStays | internal/cluster/cluster.go:303-323 | a row whose disconnect was lost stands through every flush and resync |
| Owners.StaleRowSurvivesResync | internal/cluster/cluster.go:281-323 | a run that loses a disconnect, and any number of resyncs that do not put it right |
| Owners.CameAndWentTable | internal/db/cluster.go:35-51 | a table and two changes on which the batch and the single writes differ |
| Access.DeviceLevel | internal/dashboard/access.go:269-284 | the level, and the first grant of the highest rank as its reason |
| Access.BestIsMaximum | internal/dashboard/access.go:241-284 | the level is the maximum over unexpired covering grants |
| AccessMeaning.OneGrantReaches | internal/dashboard/access.go:241-284 | for each kind of grant, on which devices it gives its level, by the device's own fields, until it ends |
| AccessMeaning.LevelIsBestSingle | internal/dashboard/access.go:269-284 | with several grants the level is the best any one of them would give |
| Access.MoreGrantsNeverLower | internal/dashboard/access.go:269-284 | adding grants never lowers it; order and repetition do not matter |
| Access.ExpiryNeverRaises | internal/db/access_levels.go:115-125 | time passing never raises it |
| Access.ActingNeedsSeeing | internal/dashboard/access.go:475-515 | whoever may do something on a device may see it, for every role |
| Access.MoreGrantsNeverRevoke | internal/dashboard/access.go:475-515 | a device-level decision is monotone in the grants |
| Access.VisibleIsDecisionIff | internal/dashboard/access.go:540-756 | the list shortcut equals the full decision on every device exactly when the user is unrestricted, the role's ceiling holds "view", or the user does not see everywhere |
| Access.ListedButNotAllowed | internal/dashboard/access.go:540-756 | a user of an unknown role with a grant everywhere is listed a device it may not see |
| Access.KnownRolesMayView | internal/dashboard/access.go:78-112 | only an unknown role lacks "view" |
| AccessMeaning.RolesNest | internal/dashboard/access.go:78-111 | each role's ceiling is the one below it and the actions it adds |
| AccessMeaning.LevelsOpen | internal/dashboard/access.go:164-194 | the actions each level opens to a team member on a device, within the role; nothing else counts |
| AccessMeaning.CustomerDecisionIff | internal/dashboard/access.go:447-515 | an owner or staff account acts on a device exactly when it is at a venue and in service (or being set up, to look), a rule shows it and none hides it, and the role may |
| AccessMeaning.FleetDecisionIff | internal/dashboard/access.go:475-515 | who may do what without a device |
| Access.EverywhereCovers | internal/dashboard/access.go:287-295 | who sees everywhere has at least the view level on every device, loaded or not |
| Access.VisibleIDs | internal/dashboard/access.go:554-595 | no filter, or exactly the loaded devices the user may see, sorted |
| Access.EnforceCommandTargets | internal/dashboard/access.go:657-715 | a restricted user's send never widens |
| Access.EveryTargetPasses | internal/dashboard/access.go:657-715 | every device a send reaches now, listed or through a group, passes the decision and was asked for |
| Access.EngineerAllOrNothing | internal/dashboard/access.go:1150-1178 | an engineer's send goes to every device or to none |
| GroupSends.GroupStaysAllowedIff | internal/dashboard/access.go:683-690 | a send left as a group is allowed on every later member, in any scope, if and only if in every device state an unexpired grant of the state or of everywhere reaches the action's level |
| GroupSends.LaterMemberRefused | internal/dashboard/access.go:683-690 | a send left as a group, and a later member the decision refuses |
| Access.GroupOnlyForWholeFleet | internal/dashboard/access.go:673-701 | a group is left a group only for a sender no device is hidden from |
| Targets.FilterDevices | internal/dashboard/access.go:521-532 | the devices that pass, in order, with how many were dropped; none dropped means the list itself |
| Targets.KeptIsSublist | internal/dashboard/access.go:521-532 | what is kept stands in the request's order at exactly the places that pass |
| Targets.EngineerVenueCount | internal/dashboard/access.go:1150-1161 | zero exactly when no device is above an engineer's level |
| Targets.Enforce | internal/dashboard/access.go:657-715 | the whole policy of a send, for any resolved list: when refused, with what error, what is sent and as what |
| AccessSimple.ReadPlaces | internal/dashboard/access_simple.go:287-300 | the form's loops store one rule per distinct text that parses, in order |
| AccessSimple.ReadRules | internal/dashboard/access_simple.go:142-166 | the loop over stored rules accepts exactly the policies the two questions can express, and collects their places and profile |
| AccessSimple.CompareActions | internal/dashboard/access_simple.go:42-56 | sorting copies and comparing place by place answers whether the lists hold the same names equally often |
| AccessSimple.SameActionsSameSet | internal/dashboard/access_simple.go:42-56 | lists that compare equal denote the same actions |
| AccessSimple.NamedActionsDenoted | internal/dashboard/access_simple.go:166-184 | whichever name the editor shows (role, profile or custom) denotes the stored actions |
| AccessSimple.ReadsBackWhatWasStored | internal/dashboard/access_simple.go:230-301 | every accepted form is read back: the same answer and places, and when a rule was stored the same expiry, note and actions |
| AccessSimple.AnswerKeptIff | internal/dashboard/access_simple.go:230-301 | for every accepted form: actions and expiry are read back if and only if it says every device, names a place that parses, or asked only to look without an end |
| AccessSimple.AnswerLost | internal/dashboard/access_simple.go:230-301 | a form that asks for restarts and names no place reads back as look only |
| AccessSimple.NoteKeptIff | internal/dashboard/access_simple.go:273-301 | the note is read back if and only if a rule was stored to hold it or it is blank |
| AccessSimple.CustomActionsShape | internal/dashboard/access_simple.go:259-268 | a custom list holds "view", names each known action once and never "*" |
| FormMeaning.FormRefusedIff | internal/dashboard/access_simple.go:230-275 | each refusal of a form, if and only if, from the form, the role and the profiles |
| FormMeaning.NoteIsCut | internal/dashboard/access_simple.go:273-276 | a note is kept trimmed and up to its 200th character |
| FormMeaning.SimpleIff | internal/dashboard/access_simple.go:109-166 | a stored policy is within the two questions exactly when, from everything, each rule only repeats the role, or, from nothing, all rules say one thing |
| FormMeaning.ExtrasAreDefaultsIff | internal/dashboard/access_simple.go:28-40 | the actions named with the role are those it holds without a rule, except for an operator, an engineer and Field |
| FormMeaning.LookOnlyMeaning | internal/dashboard/access_simple.go:100-108 | a policy without rules is shown as a built-in profile that only looks, if there is one |
| FormMeaning.NameMeaning | internal/dashboard/access_simple.go:167-184 | which name the stored actions are shown under |
| SlidingWindow.TimeLists.Note | internal/api/device_key.go:63-78 | the answer is the number of the key's events inside the window over its whole history |
| SlidingWindow.PruningKeepsLater | internal/api/device_key.go:66-72 | pruning at one call never changes a later answer |
| SlidingWindow.CountIsFresh | internal/api/device_key.go:63-78 | the pruned list's length is the count by definition |
| SlidingWindow.NoteKeyClaimMiss | internal/api/device_key.go:63-78 | refused claims in the last quarter hour, this one included |
| SlidingWindow.RecoverLostKey | internal/api/device_identity.go:252-274 | automatic resets in the window, earlier ones only |
| SlidingWindow.SocketPeers.NoteSocketPeer | internal/api/device_identity.go:121-141 | moves between addresses in the last ten minutes, counted only while the device is connected elsewhere |
| AlertFold.BuildProblemMessages | internal/alerts/problems.go:130-215 | the messages are the outages in name order, then the other devices in the order they appeared, whatever map walk was taken; no alert is lost or repeated and no device is named twice |
| AlertFold.EachDeviceOnce | internal/alerts/problems.go:130-215 | each device with an alert is in exactly one message |
| AlertFold.NoAlertLostOrRepeated | internal/alerts/problems.go:130-215 | over all messages every alert is listed exactly as often as it was notified |
| AlertFold.MessageMeaning | internal/alerts/problems.go:160-213 | a severity is the worst of its start and its alerts; an outage names at least two devices, all of that restaurant and offline |
| AlertFold.MapOrderDoesNotShow | internal/alerts/problems.go:153-159 | the output does not depend on the order a map is walked in |
| SortedLists.OneSortedList | internal/alerts/problems.go:153-159 | however its members are met, they sort to one list |
| AlertFold.OfflineExplainsTheRest | internal/alerts/problems.go:33-105 | once a device is offline, further stale readings do not change the cause |
| AlertMeaning.FirstTurnNamesCause | internal/alerts/problems.go:38-105 | the cause is that of the open type whose turn comes first, but for weak Wi-Fi before an offline device and slow charging with a low battery |
| AlertMeaning.SeverityShows | internal/alerts/problems.go:160-213 | a message is critical exactly when an alert of it is, and information exactly when it is a device's and all are |
| AlertMeaning.OutageMessageIff | internal/alerts/problems.go:139-185 | a restaurant has a message exactly when two of its devices went offline, and it names exactly those that did |
| AlertFold.WorstIsMaximum | internal/alerts/problems.go:166-170 | the loop's severity is the maximum of its start and its members, and one of them |
| ProblemFold.BuildProblems | internal/dashboard/alert_problems.go:62-172 | the returned list is that of some walk over the restaurants: device problems, their outages, stably sorted |
| ProblemFold.BuildDevice | internal/dashboard/alert_problems.go:174-236 | one device's problem: worst, earliest, acknowledged, new, snoozed, held back, first note, symptoms |
| ProblemFold.CountSymptoms | internal/dashboard/alert_problems.go:208-214 | the symptom list with its index map is one entry per name, counts added up |
| ProblemFold.FoldOutages | internal/dashboard/alert_problems.go:92-158 | for any walk, one outage per restaurant with at least two such devices, and exactly those devices marked as folded |
| ProblemFold.FoldOutage | internal/dashboard/alert_problems.go:104-157 | one restaurant's outage from its devices' positions |
| ProblemMeaning.EveryAlertOnce | internal/dashboard/alert_problems.go:62-172 | every active alert is a member exactly once, and every device in exactly one problem |
| ProblemMeaning.SymptomsCountEverything | internal/dashboard/alert_problems.go:208-214 | the symptoms count every occurrence once, under distinct names |
| ProblemMeaning.PartsAndRest | internal/dashboard/alert_problems.go:91-163 | the outages' devices and the rest are all the devices |
| OutageMeaning.OutageReadsAsOneFold | internal/dashboard/alert_problems.go:100-158 | an outage has the severity, start, note, acknowledgement and after-hours mark that one fold over all its devices' alerts would give |
| OutageMeaning.NewSymptomMissedIff | internal/dashboard/alert_problems.go:135-137 | a part-acknowledged outage is not marked as new exactly when no single device mixes, one is wholly acknowledged and another wholly open |
| OutageMeaning.NewSymptomMissed | internal/dashboard/alert_problems.go:62-172 | two active offline alerts of one restaurant, one acknowledged: the page lists their one outage, and does not mark it |
| OutageMeaning.EachProblem | internal/dashboard/alert_problems.go:62-172 | every listed problem is the outage of all the offline, unsnoozed devices of its restaurant, or one device's that is in no outage |
| OutageFolds.OneProblemIff | internal/dashboard/alert_problems.go:70-86 | two active alerts are one problem's exactly when they have one device, or none and one serial |
| OutageFolds.MustBeFolded | internal/dashboard/alert_problems.go:91-158 | two devices of a restaurant that went offline, not all muted: whatever is listed under the key of one is that restaurant's outage and holds both |
| OutageFolds.OutageIsListed | internal/dashboard/alert_problems.go:91-158 | and that outage is listed |
| OutageFolds.FoldedIff | internal/dashboard/alert_problems.go:91-163 | a device is in a listed outage if and only if another of its restaurant went offline with it |
| ProblemOrder.WorstThenNewest | internal/dashboard/alert_problems.go:164-170 | no problem is listed before a worse one, or before one as bad that is newer, and every walk lists the same problems |
| ProblemOrder.NoTieOneOrder | internal/dashboard/alert_problems.go:92-172 | without ties between outages every walk gives the same list |
| ProblemOrder.TieShows | internal/dashboard/alert_problems.go:92-172 | a tie gives a walk that lists them the other way round |
| ProblemOrder.WalkShowsIff | internal/dashboard/alert_problems.go:92-172 | the list is the same for every walk if and only if no two outages tie |
| ProblemOrder.TieHappens | internal/dashboard/alert_problems.go:62-172 | four active alerts whose two outages tie, and two walks that list them differently |
| StableSort.SortIsStable | internal/dashboard/alert_problems.go:164-170 | the ordering sorts, keeps every problem and keeps ties as they came |
| StableSort.OneStableOrder | internal/dashboard/alert_problems.go:164-170 | those promises leave exactly one list |
| Paging.QueryAll | internal/aiobackend/aiobackend.go:164-184 | the loop ends whatever the server answers, with the read defined page by page |
| Paging.WholeTableIff | internal/aiobackend/aiobackend.go:164-184 | an unchanging table is returned whole, once and in order exactly when its ids are positive, with one query more than there are full pages |
| Paging.GrowsAndMissesNothing | internal/aiobackend/aiobackend.go:164-184 | however the table changes between queries: ids strictly increase, every row was in the table at one of this read's queries, a row whose id was in the table at each of them is not missed whatever became of its fields, and only a failed query fails the read |
| SerialFamilies.CommonPrefixLoop | internal/dashboard/app_classify.go:71-77 | the counting loop finds the longest common prefix |
| SerialFamilies.FoldedIsLongest | internal/dashboard/app_classify.go:124-127 | the folded prefix is a prefix of every member and every common prefix is one of it |
| SerialFamilies.Learn | internal/dashboard/app_classify.go:106-145 | for any map order, the modal length (longer of equals), the prefix or nothing, the commonest class (first of equals) |
| SerialFamilies.BuildFamilies | internal/dashboard/app_classify.go:83-147 | one lesson per group of usable samples, in any map order |
| SampleGroups.CountsIff | internal/dashboard/app_classify.go:67-93 | a sample counts exactly when its serial is not made up and its model not blank; one that does not changes nothing |
| SampleGroups.SameGroupIff | internal/dashboard/app_classify.go:94-97 | two samples are one group exactly when maker, bar and model read as one text, blanks around them and case aside; such samples are of one maker and model exactly when the makers are as long as each other |
| SampleGroups.MakersRunTogether | internal/dashboard/app_classify.go:94 | two makers with bars that share a group |
| SampleGroups.TitleMeaning | internal/dashboard/app_classify.go:97 | a family's title is the trimmed maker and model with one blank between |
| SerialFamilies.LessMeaning | internal/dashboard/app_classify.go:138-143 | among classes as common the first by text: the first character that differs decides, and a text precedes its continuations |
| SerialFamilies.MatchFamily | internal/dashboard/app_classify.go:150-159 | the first family with the longest prefix that fits, or none when none fits |
| SerialFamilies.PrefixMeaning | internal/dashboard/app_classify.go:106-137 | a family's prefix fits every member of its length; of two or more it is their longest common prefix, of one its first half |
| SerialFamilies.NothingTaughtIff | internal/dashboard/app_classify.go:124-137 | a group teaches nothing exactly when its modal serials share fewer than four characters, or its only one is shorter than that |
| SerialFamilies.OrderDoesNotShow | internal/dashboard/app_classify.go:106-145 | what one group teaches does not depend on the order of its samples or of the maps of lengths and classes, but for the spelling of the title |
| FamilyOrder.SameFamilies | internal/dashboard/app_classify.go:83-147 | reordered samples and any walks learn the same families, each as often, title aside |
| FamilyOrder.WalkShowsIff | internal/dashboard/app_classify.go:105-159 | every walk gives a serial the same answer if and only if no two families fit it equally well |
| FamilyOrder.TwoModelsOneScheme | internal/dashboard/app_classify.go:83-159 | two samples and a serial that two walks give to different families |
| SerialFamilies.MembersAreRecognised | internal/dashboard/app_classify.go:83-159 | every member of its group's modal length is matched, by a prefix at least as long as its own family's |

## Left out

- HostAppSpans.RoundingLoss: instants are integers counting nanoseconds and a duration never overflows, where the original saturates a difference of times at about 292 years.
- BlockCache.S3ReaderAt.ReadAt: what becomes of each request is a given sequence; offsets are not negative (the original reports EOF beyond the size and would index a block before the first), the object does not change while it is read, and its stored size is its length.
- BlockCache.S3ReaderAt.Block: one call is proved as its two locked regions with the fetch between them; calls by other readers in between are covered by the regions' own contracts, not by a proved interleaving.
- CacheFill.Store.EnsureCached: the size from the first HEAD is the object's length, and the local disk fails only in the modelled places (opening, writing, renaming).
- Signer.FirstCertFromReaderAt: X.509 parsing and the SHA-256 of the certificate are outside; a failed network read is one error whatever its text.
- AdbTunnel.EveryRunKeeps: session, stream and open ids are fresh, a leg may be offered at any time after its stream exists (a superset of what the device does), and time limits only decide when a step may happen. Session allow-lists and byte counters are not modelled.
- Owners.ResyncHealsIff: another copy's writes are a step that sets one row; the hourly sweep and a copy's leaving are not modelled, so a stale row is followed only while its copy is alive.
- Cluster.RefreshAround: the notifications a refresh overlaps are handled between its query and its publication; the query itself is one answer of the database.
- Cluster.SendAndReceive: no event is dropped by a full queue and none is lost by the database; the forwarding of frames and pings is not modelled.
- Owners.BatchIsInOrderIff: the two statements of the owner write are modelled as their effect on one table, with no other copy writing in between.
- Access.VisibleIsDecisionIff: one decision at one instant; the memoised scopes and grants are the ones loaded. The reasons and texts of a decision, and the branches for hiding one device kind (which the code has switched off), are left out.
- Access.ExpiryNeverRaises: setup visits and scopes are held fixed while the clock moves.
- AccessSimple.ReadsBackWhatWasStored: the parsing of a place's text is a parameter; the page's option lists and the warning texts are left out.
- SlidingWindow.TimeLists.Note: the clock never goes back between calls, and each call reads it once. The daily ceiling on automatic key resets is off, as the code has it.
- AlertFold.BuildProblemMessages: titles, texts and times of messages are left out; restaurants are numbered in the order of their names.
- ProblemFold.BuildProblems: a key is a device, a serial or an alert, and the three never coincide as texts; times are later than Go's zero time; the clock is read once per call; titles, links, search text, assignee names, the latest snooze end and the one-tap marks are left out.
- Paging.QueryAll: rows are answered in id order and at most one page at a time, as the query asks; the query text is a parameter.
- SerialFamilies.BuildFamilies: trimming and lower-casing are those of ASCII, and serials are bytes; which productions and known devices are tried before a family is left out.
- Glob.Config.KioskAppAllowed: blanks are the ASCII ones.
- PublishHistory.Config.SetAgentAPKSlot: saving the file, its errors, and the older setters of the hosted build's single fields are left out; the time of a publish is given.
- The database and its SQL beyond the owner table, the WebSocket hub, HTTP handlers, templates, JSON and the JavaScript pickers are not modelled.
- Wall-clock liveness (reaper periods, dial timeouts, tickers) is not modelled: time only allows steps, it never forces one.
- The roles page, the explanation of effective levels and the preview of a simple policy would add only easy members.

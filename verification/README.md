# BoronDNS release and benchmark tooling: a verified model

BoronDNS ships with Python tools that decide whether a measurement counts, whether a campaign is complete and
whether a release step may run. This project models the ones with the most state and branching and proves what
they promise.

- `DnsNames`, `Responses`, `Reachability`: the benchmark probe's DNS name codec and response parser. `NameForms` and
  `MessageForms` are grammars of names and messages on octets, and the proofs that these are what is decoded and accepted.
- `QuerySampling`, `Residues`: deterministic query samples and the stride that orders them.
- `Checksums`: the Internet checksum of the fixture client.
- `Packages`: the dependency walk of the licence inventory.
- `Numerals`, `SoakLedger`, `SoakSampler`, `ProcessDetails`: the validator of collected campaigns.
- `MacroText`, `MacroScanner`, `MacroClose`: the scanner that finds where a logging macro closes, a grammar of the text
  it scans, and that they agree.
- `PortLoads`, `PortSelection`, `PortRepair`: source ports chosen and repaired for balanced worker load.
- `Supervisor`: the process supervisor of release commands, as a state machine against an arbitrary environment.
  `SupervisorDuties`: what its runs bring about.
- `LockBroker`: any number of campaign lock brokers against a kernel and a file system that changes under them.
  `LockService`: what a broker does for those who start it.
- `Options`, `Wire`, `Sequences`, `Sorting`: shared definitions.

Loops are methods proved against specification functions and predicates; the laws are lemmas about those. The two
protocols are step functions, and their main theorems hold of every run, with program and environment steps in any
order. `None` stands for every error the scripts raise. Inductions are written out: automatic induction is off.

Four properties turned out otherwise than expected. Each has an input that shows it and its exact condition.

- A decoded name is compared as dotted text. A response that holds the queried text as one label is accepted
  (`DottedLabelAccepted`); its labels are the queried ones exactly when that text has no dot (`DottedLabelConfuses`,
  `TextMatchMeansLabelMatch`).
- A failed soak row is told from a passed one by the text of its exit status. A ledger with `00` is accepted
  (`FailureWithZeroStatusAccepted`), exactly when the text is two or more zeros (`FailureWithZeroStatus`).
- The macro scanner takes the tick of a lifetime for a quote (`LifetimeExample`), and so reads code as a literal or the
  other way round; the answer is the close of the text as it reads it (`FindIsLeastBalance`). Whatever the text really
  holds, the true close is found exactly when, up to there, the parentheses missed balance and never so many are missed
  that the count comes to zero (`TrueCloseFound`). What stands behind the close does no harm (`CloseIgnoresRest`). Two
  instances: a tick that no later unescaped tick ends (`TailHidesClose`), and two ticks read as one literal
  (`TickPairHidesClose`).
- The lock of a killed broker can outlive its name (`KillMayBreakNesting`), and only that of a killed one
  (`LockInsideName`).

## Model

| member | source | states |
|---|---|---|
| `DnsNames.EncodeName` | scripts/physical-benchmark-workload.py:75-90 | Succeeds exactly on the root and on names whose stripped text has only valid labels and at most 253 characters; the result is the length-prefixed labels and a zero octet |
| `DnsNames.DecodeName` | scripts/physical-benchmark-workload.py:142-173 | The loop with its set of visited offsets gives the same answer, on every packet and offset, as a decoder without that set |
| `DnsNames.DecodeExact` | scripts/physical-benchmark-workload.py:142-173 | Decoding succeeds exactly when a chain of labels and backward pointers reaches a zero octet within 255 expanded octets; name and resume offset are those of the chain |
| `DnsNames.CompleteUnique` | scripts/physical-benchmark-workload.py:147-173 | From one offset at most one chain reaches a zero octet |
| `DnsNames.RevisitNeverEnds` | scripts/physical-benchmark-workload.py:148-150 | A chain that returns to an offset never reaches a zero octet, so rejecting revisits loses no name |
| `DnsNames.ExpandIgnoresWire` | scripts/physical-benchmark-workload.py:142-173 | Two successful expansions of one offset agree however much of the length budget was spent before |
| `DnsNames.ExpandEnd` | scripts/physical-benchmark-workload.py:158-165 | The resume offset is past the start and inside the packet |
| `DnsNames.RoundTrip` | scripts/physical-benchmark-workload.py:75-173 | An encoded name, with any octets before and after it, decodes to its lower-cased text with one trailing dot, ending right after it |
| `DnsNames.JoinInjective` | scripts/physical-benchmark-workload.py:165 | Dot-free labels can be read back from their dotted text |
| `DnsNames.TextMatchMeansLabelMatch` | scripts/physical-benchmark-workload.py:195 | Where the text comparison accepts, the labels agree up to case if and only if no received label contains a dot |
| `DnsNames.StripsExactly` | scripts/physical-benchmark-workload.py:78 | The dots stripped are all those at the end of the name, and nothing else |
| `DnsNames.LowerIgnoresCase` | scripts/physical-benchmark-workload.py:165 | Two names are lower-cased alike exactly when they differ in the case of letters only |
| `DnsNames.EncodedDecodes` | scripts/physical-benchmark-workload.py:75-173 | An encoded name decodes where it lies, in any packet |
| `NameForms.DecodesWhatLies` | scripts/physical-benchmark-workload.py:142-173 | Decoding gives exactly the names of at most 255 octets that lie in the packet as length-prefixed labels, two-octet pointers back and a zero octet |
| `NameForms.FormUnique` | scripts/physical-benchmark-workload.py:142-173 | At an offset lies one such form at most |
| `NameForms.PointerMeansTarget` | scripts/physical-benchmark-workload.py:152-161 | A pointer to offset t is the octets 0xC0 + t / 256 and t % 256; it decodes exactly when t does, to the same name, and reading resumes behind it |
| `NameForms.MalformedRefused` | scripts/physical-benchmark-workload.py:148-168 | Pointers into the header or not backwards, length octets from 0x40 to 0xBF, and names that are cut off are refused |
| `NameForms.CompressedRoundTrip` | scripts/physical-benchmark-workload.py:75-173 | Labels followed by a pointer decode to these labels in front of the name pointed to, exactly when that decodes and both fit in 255 octets |
| `Responses.CheckOptions` | scripts/physical-benchmark-workload.py:221-228 | Accepts EDNS data exactly when it can be cut into whole options |
| `Responses.OptionsTileStep` | scripts/physical-benchmark-workload.py:221-228 | Options tile an interval exactly when the first fits and the rest are tiled |
| `Responses.WalkRecords` | scripts/physical-benchmark-workload.py:193-233 | Succeeds exactly when the counted records fill the packet with each OPT allowed where it stands; keeps exactly the answer records and the extended code |
| `Responses.ChainUnique` | scripts/physical-benchmark-workload.py:197-231 | A packet is cut into records in at most one way |
| `Responses.EachOctetOnce` | scripts/physical-benchmark-workload.py:197-231 | Octets between the question and the end of the chain are in exactly one record |
| `Responses.AcceptedTiles` | scripts/physical-benchmark-workload.py:197-233 | Every octet after the question of an accepted packet is in exactly one record |
| `Responses.OptAtMostOnce` | scripts/physical-benchmark-workload.py:217-221 | At most one OPT, in the additional section, owned by the root, holding whole options; the extended code is its own |
| `Responses.AliasEdges` | scripts/physical-benchmark-workload.py:234-237 | The alias dictionary has an edge exactly for each CNAME answer of class IN |
| `Responses.ChainsAreReachability` | scripts/physical-benchmark-workload.py:234-244 | Being reached in the dictionary is being the end of a chain of CNAME answers |
| `Responses.HasRequestedAnswer` | scripts/physical-benchmark-workload.py:234-248 | True exactly when an IN answer of the asked type (or any type for ANY) is owned by the end of an alias chain from the question, cycles included |
| `Responses.ParseResponse` | scripts/physical-benchmark-workload.py:176-256 | Accepts exactly the packets that answer the query and are filled by their records; each reported field, the name of the response code included, is what the only such division says |
| `Responses.DottedLabelAccepted` | scripts/physical-benchmark-workload.py:176-192 | A response whose question holds the queried text as one label is accepted |
| `Responses.DottedLabelConfuses` | scripts/physical-benchmark-workload.py:165-192 | The labels of that accepted response are the queried ones exactly when the queried text has no dot |
| `Responses.RcodeNamesDiffer` | scripts/physical-benchmark-workload.py:57-64 | The reported name determines the response code |
| `Responses.EchoedQuestionMatches` | scripts/physical-benchmark-workload.py:281-285 | A server that copies the probe's question passes the question check whatever records follow |
| `Responses.EchoWithoutRecordsAccepted` | scripts/physical-benchmark-workload.py:190-256 | A copied question under a matching header with no counted records is accepted and has no answer |
| `MessageForms.HeaderExactly` | scripts/physical-benchmark-workload.py:179-189 | The header check on octets: identifier, first flag octet 0x80, 0x81, 0x84 or 0x85, question count 0 1 |
| `MessageForms.QuestionExactly` | scripts/physical-benchmark-workload.py:190-196 | The question check on octets: the queried name, then type and class IN |
| `MessageForms.RecordReads` | scripts/physical-benchmark-workload.py:200-216 | A record that lies in the packet, its owner followed by type, class, time to live, length and data, is read exactly when the data fits the type, and read as what it is |
| `MessageForms.ReadRecordLies` | scripts/physical-benchmark-workload.py:200-216 | A record is read only where one lies |
| `MessageForms.OptionsExactly` | scripts/physical-benchmark-workload.py:221-228 | EDNS data is accepted exactly when it is written as code, length and that many octets, over and over |
| `MessageForms.AcceptedExactly` | scripts/physical-benchmark-workload.py:176-233 | A packet is accepted exactly when it is a header, a question and as many records as counted, one behind the other to the last octet, with OPT where it is allowed |
| `MessageForms.ReportMeans` | scripts/physical-benchmark-workload.py:245-256 | Each reported field on the octets of the message: AA bit, response code with the upper octet of the OPT time to live, answer count, alias chains, length |
| `MessageForms.OrdinaryCodes` | scripts/physical-benchmark-workload.py:57-64 | The names of the ordinary response codes, and of 16, belong to these codes alone |
| `MessageForms.EchoBegins` | scripts/physical-benchmark-workload.py:281-285 | A header and the probe's own question begin a response to it |
| `MessageForms.AnswerAccepted` | scripts/physical-benchmark-workload.py:176-256 | A response with one answer of the queried type, its owner a pointer to the question, is accepted and answers it |
| `MessageForms.AliasAnswerAccepted` | scripts/physical-benchmark-workload.py:176-256 | A response with an alias of the queried name and an answer owned by its target is accepted and answers it |
| `MessageForms.AliasRecordFits` | scripts/physical-benchmark-workload.py:200-213 | An alias record on octets: a pointer to the question, type 5, class IN, and one name as data |
| `MessageForms.OptAccepted` | scripts/physical-benchmark-workload.py:217-228 | A response with an OPT record of whole options is accepted, and its upper response code is the first octet of the time to live |
| `Reachability.Follow` | scripts/physical-benchmark-workload.py:238-244 | The worklist returns exactly the nodes joined to the start by a path, on every graph |
| `Reachability.PushUnmarked` | scripts/physical-benchmark-workload.py:241-244 | Pushes and marks exactly the targets not marked yet, keeping the waiting list free of repeats |
| `Packages.ResolveRoots` | scripts/package-third-party-notices.py:28-37 | Succeeds exactly when every root names one workspace package, and lists those packages |
| `Packages.OneMatch` | scripts/package-third-party-notices.py:30-35 | One match means there is a unique workspace package of that name |
| `Packages.Walk` | scripts/package-third-party-notices.py:38-46 | Fails exactly when a reached identity has no node; otherwise returns exactly the identities reached through non-development dependencies |
| `Packages.SelectedPackages` | scripts/package-third-party-notices.py:25-47 | Fails exactly on a missing or ambiguous root or a release package without node or entry; otherwise returns exactly the packages of the release |
| `Packages.ShippedTargets` | scripts/package-third-party-notices.py:44-46 | Holds exactly the targets of dependencies with a kind other than dev |
| `Packages.PackagesById` | scripts/package-third-party-notices.py:26 | Every entry is a listed package under its own id, and every listed id has one |
| `Packages.LaterPackageWins` | scripts/package-third-party-notices.py:26 | Of entries with one id the last is kept |
| `Packages.LaterNodeWins` | scripts/package-third-party-notices.py:27 | So it is with nodes |
| `Packages.LocalExactly` | scripts/package-third-party-notices.py:30-32 | A package is the workspace's own when its source is missing or empty |
| `Packages.LeftOutExactly` | scripts/package-third-party-notices.py:45 | A dependency is left out exactly when all its kinds are dev |
| `QuerySampling.SampledPairs` | scripts/generate-boron-gen-query-trace.py:34-64 | min(count, zones * names) different pairs of the grid, taken as they come up: corners and centre, then the stride with the least coprime step |
| `QuerySampling.TakeEdges` | scripts/generate-boron-gen-query-trace.py:39-51 | The corners and the centre without repeats, or as many of them as are wanted, in order |
| `QuerySampling.FindStep` | scripts/generate-boron-gen-query-trace.py:52-54 | The loop ends at the step the order uses |
| `QuerySampling.Stride` | scripts/generate-boron-gen-query-trace.py:55-64 | Continues the order with the pairs the stride visits until there are exactly enough |
| `QuerySampling.NextCoprime` | scripts/generate-boron-gen-query-trace.py:53-54 | The search ends at the least step from the start on that is coprime to the total |
| `QuerySampling.OrderIsPermutation` | scripts/generate-boron-gen-query-trace.py:34-64 | The order holds each pair of the grid exactly once |
| `QuerySampling.SamplesNest` | scripts/generate-boron-gen-query-trace.py:34-64 | A larger sample extends a smaller one |
| `QuerySampling.SampleTakes` | scripts/generate-boron-gen-query-trace.py:39-64 | Every sample is the candidates at rising places, and each candidate passed over was taken before |
| `QuerySampling.CornersFirst` | scripts/generate-boron-gen-query-trace.py:39-51 | A sample begins with (0, 0) and, if it has two pairs, the opposite corner |
| `QuerySampling.CornersAndCentre` | scripts/generate-boron-gen-query-trace.py:39-51 | A sample of five pairs or more holds the four corners and the centre |
| `QuerySampling.SampleIndexIs` | scripts/physical-benchmark-workload.py:122-126 | A sample index is the greatest that is not past its share of the way |
| `Residues.StrideInjective` | scripts/generate-boron-gen-query-trace.py:57 | Within one round a coprime stride leaves different residues |
| `Residues.StrideSurjective` | scripts/generate-boron-gen-query-trace.py:56-63 | One round of a coprime stride meets every residue, so the loop finds enough pairs |
| `Residues.GcdGreatest` | scripts/generate-boron-gen-query-trace.py:53 | Euclid's result is divided by every common divisor |
| `Residues.GcdDividesBoth` | scripts/generate-boron-gen-query-trace.py:53 | Euclid's result divides both numbers |
| `QuerySampling.SampleIndexGrows` | scripts/physical-benchmark-workload.py:122-126 | Consecutive sample indices are strictly increasing, so the set loses none |
| `QuerySampling.SampleIndicesSpread` | scripts/physical-benchmark-workload.py:121-127 | Exactly min(32, count) increasing indices from the first query to the last |
| `QuerySampling.KeepSelected` | scripts/physical-benchmark-workload.py:128-132 | One pass keeps exactly the selected queries, in order, with their indices |
| `QuerySampling.SelectSamples` | scripts/physical-benchmark-workload.py:118-132 | Fails exactly on an empty database; otherwise the k-th sample is the query at the k-th index |
| `Checksums.Checksum` | scripts/xdp-group-fixture-client.py:17-23 | The loop computes the complement of the folded word sum, odd lengths padded |
| `Checksums.FoldStep` | scripts/xdp-group-fixture-client.py:21-22 | Folding the high half into the low half keeps the folded value and makes it smaller |
| `Checksums.PaddingKeeps` | scripts/xdp-group-fixture-client.py:18-19 | The padding octet does not change the sum |
| `Checksums.VerifiesExactly` | scripts/xdp-group-fixture-client.py:71-73 | Data verifies exactly when its words, not all zero, sum to a multiple of 65535 |
| `Checksums.InsertedVerifies` | scripts/xdp-group-fixture-client.py:54-56 | A checksum written into its zeroed word makes the data verify, at any word and for any length |
| `Checksums.SingleWordDamage` | scripts/xdp-group-fixture-client.py:71-73 | Damage to one word of verifying data passes exactly when it exchanges 0 and 65535 and the words are not all zero |
| `Checksums.BuildHeader` | scripts/xdp-group-fixture-client.py:54-56 | The header sent verifies, carries the given length and addresses, and differs from the blank one only in its checksum |
| `SoakLedger.VerifySoakResults` | scripts/validate-collected-campaign.py:947-1050 | Accepts exactly the ledgers whose every row is the next attempt of the next step and whose directories are those of the rows; the summary counts them |
| `SoakLedger.AcceptedExactly` | scripts/validate-collected-campaign.py:947-1029 | A ledger is accepted exactly when a campaign that goes from scenario to scenario, cycle to cycle, and retries what failed, can have written it |
| `SoakLedger.AttemptsOfStep` | scripts/validate-collected-campaign.py:982-983 | The rows before a row in its step are attempts 1, 2, ... of the same cycle and scenario, all failed or interrupted |
| `SoakLedger.CountedGrows` | scripts/validate-collected-campaign.py:1021-1029 | Settling a step moves the counters to the next one, and a whole round of scenarios completes a cycle |
| `Numerals.ReadsBack` | scripts/validate-collected-campaign.py:978-984 | Reading a number's decimal text gives the number |
| `Numerals.LeadingZero` | scripts/validate-collected-campaign.py:978-984 | Zeros in front do not change the number |
| `Numerals.DigitsExactly` | scripts/validate-collected-campaign.py:978-984 | Text parses exactly when all of it is digits, and to zero exactly when all of it is zeros |
| `SoakLedger.SettledCount` | scripts/validate-collected-campaign.py:1022-1029 | The passed and skipped rows are those of the complete cycles and fewer than one cycle more |
| `SoakLedger.OnePartialCycle` | scripts/validate-collected-campaign.py:976-1029 | No row is of a cycle after the one under way, and the scenarios settled in that one are exactly the first of the plan |
| `SoakLedger.FailureWithZeroStatusAccepted` | scripts/validate-collected-campaign.py:947-1050 | A whole ledger that is accepted though its row failed with exit status 00 |
| `SoakLedger.FourDigits` | scripts/validate-collected-campaign.py:1039-1042 | The directory names that fit are those of attempts with at most four digits |
| `SoakLedger.FewRetries` | scripts/validate-collected-campaign.py:1039-1042 | Four-digit directory names bound the retries of a step |
| `SoakLedger.RowsDistinct` | scripts/validate-collected-campaign.py:1003-1005 | No two rows of an accepted ledger describe the same attempt |
| `SoakLedger.OneDirPerRow` | scripts/validate-collected-campaign.py:1030-1049 | Rows and attempt directories correspond one to one |
| `SoakLedger.CompleteCycles` | scripts/validate-collected-campaign.py:1022-1029 | Every scenario of every complete cycle has exactly one passed or skipped row |
| `SoakLedger.SettledStepUnique` | scripts/validate-collected-campaign.py:1022-1029 | A step is settled at most once |
| `SoakLedger.FindSettledStep` | scripts/validate-collected-campaign.py:1022-1029 | The k-th settled row belongs to scenario k mod n of cycle k div n |
| `SoakLedger.InTimeOrder` | scripts/validate-collected-campaign.py:1000-1002 | A later row starts no earlier than an earlier one ends |
| `SoakLedger.TotalRunTime` | scripts/validate-collected-campaign.py:990-1002 | Runs do not overlap and together take no longer than the window and its allowance |
| `SoakLedger.FailureWithZeroStatus` | scripts/validate-collected-campaign.py:984-989 | A failing row is accepted with exit status zero exactly when the text is two or more zeros |
| `SoakSampler.VerifySoakSampler` | scripts/validate-collected-campaign.py:1053-1135 | Accepts exactly the histories in which every attempt is sound, picks up from the one before it, and the last one alone succeeds past the deadline |
| `SoakSampler.OnlyLastSucceeds` | scripts/validate-collected-campaign.py:1107-1135 | An attempt succeeded exactly when it is the last |
| `SoakSampler.SamplesSteady` | scripts/validate-collected-campaign.py:1090-1101 | Over all attempts together samples never go back and are at most interval + 4 apart |
| `SoakSampler.SamplesInOrder` | scripts/validate-collected-campaign.py:1090-1101 | Samples of the whole history are in time order |
| `SoakSampler.EveryInstantSampled` | scripts/validate-collected-campaign.py:1053-1135 | Every instant of the campaign is followed by a sample within interval + 4 seconds |
| `SoakSampler.RegularExactly` | scripts/validate-collected-campaign.py:1090-1096 | A regular attempt is accepted exactly when it starts within two seconds, its gap is at most interval + 2, and it samples up to the deadline |
| `SoakSampler.PickedUpExactly` | scripts/validate-collected-campaign.py:1097-1101 | After a failed attempt the next is accepted exactly when it starts no earlier and at most interval + 2 after the last sample |
| `ProcessDetails.IndexHosts` | scripts/validate-collected-campaign.py:337-346 | Accepts exactly different host keys within the unit count, and indexes them by position |
| `ProcessDetails.GatherProcesses` | scripts/validate-collected-campaign.py:348-374 | Accepts exactly well-formed rows with a host, no repeated process and host order; gathers each host's rows in order |
| `ProcessDetails.VerifyFuzzProcessDetails` | scripts/validate-collected-campaign.py:330-386 | Accepts exactly the tables whose rows are in order and whose host columns equal the aggregates of their rows |
| `ProcessDetails.GroupIsBlock` | scripts/validate-collected-campaign.py:371-374 | Rows of one host that stand together are its group |
| `ProcessDetails.Partition` | scripts/validate-collected-campaign.py:348-374 | The groups in host order are the process table, exactly |
| `ProcessDetails.Conservation` | scripts/validate-collected-campaign.py:376-386 | Host columns add up to the whole table; CPU within half a hundredth for each host |
| `ProcessDetails.AcceptedExactly` | scripts/validate-collected-campaign.py:330-386 | Tables are accepted exactly when they are host samples with the process rows of each, one host after the other |
| `ProcessDetails.HundredthsUnique` | scripts/validate-collected-campaign.py:382-384 | No other number of hundredths is as near, half rounding up |
| `ProcessDetails.HundredthsClose` | scripts/validate-collected-campaign.py:382-384 | Rounding moves a sum by at most half a hundredth, and by half only upwards |
| `MacroScanner.FindMacroClose` | scripts/audit-log-fields.py:43-118 | The loop over five flags is a scan over one mode and a depth |
| `MacroClose.FindIsLeastBalance` | scripts/audit-log-fields.py:43-118 | For every reading of the text as code, literals and comments, the answer from an opening parenthesis is the least position where the parentheses of the code balance |
| `MacroClose.FindOnEveryText` | scripts/audit-log-fields.py:43-118 | So on every text and from every opening parenthesis, since every text has a reading |
| `MacroClose.EveryTextHasReading` | scripts/audit-log-fields.py:52-116 | Every text is pieces of code, literals and comments, and at most one literal or comment that is never ended |
| `MacroClose.ReadingUnique` | scripts/audit-log-fields.py:52-116 | And in one way only |
| `MacroClose.ScanIsCounting` | scripts/audit-log-fields.py:110-116 | Scanning a reading is counting the parentheses of its code, from any depth |
| `MacroClose.TailNeverCloses` | scripts/audit-log-fields.py:56-109 | In a literal or comment that is never ended nothing closes |
| `MacroClose.CommentIsBody` | scripts/audit-log-fields.py:62-72 | Comments nested to any depth are left where the grammar ends them |
| `MacroClose.CommentUnique` | scripts/audit-log-fields.py:62-72 | A comment ends in one place, and its nesting is determined |
| `MacroClose.TrueCloseFound` | scripts/audit-log-fields.py:43-118 | Whatever the text really holds, in which a call closes at some place: that close is found exactly when up to there the scanner's count misses nothing, and before it never comes to zero |
| `MacroClose.CloseIgnoresRest` | scripts/audit-log-fields.py:43-118 | A call read rightly up to its close is closed there, and only there, whatever follows |
| `MacroClose.TailHidesClose` | scripts/audit-log-fields.py:84-109 | A tick that no later unescaped tick ends, like every opening never ended, hides the close exactly when it stands in front of it; then nothing is found |
| `MacroClose.TickPairHidesClose` | scripts/audit-log-fields.py:84-109 | Two ticks that open no literal, with none unescaped between them and all else read rightly, hide the close exactly when it stands between them, or behind them and the parentheses between them do not balance |
| `MacroClose.LifetimeExample` | scripts/audit-log-fields.py:84-109 | The call ('a), read with a lifetime, closes at its last character, and nothing is found |
| `MacroScanner.AnswerIgnoresRest` | scripts/audit-log-fields.py:43-118 | Text after the answer does not matter |
| `MacroScanner.CloseShifts` | scripts/audit-log-fields.py:43-118 | Text before the start only shifts the answer |
| `MacroScanner.PassesPrefix` | scripts/audit-log-fields.py:53-54 | How a prefix is scanned depends on what follows only through its first character |
| `MacroScanner.ReplacePiece` | scripts/audit-log-fields.py:43-118 | Exchanging a literal or comment for another that starts alike moves the answer by the difference in length |
| `MacroScanner.QuotedSteppedOver` | scripts/audit-log-fields.py:74-92 | A string or character literal whose inner quotes are escaped is stepped over |
| `MacroScanner.LineSteppedOver` | scripts/audit-log-fields.py:56-60 | A line comment is stepped over with its newline |
| `MacroScanner.BlockSteppedOver` | scripts/audit-log-fields.py:62-72 | A block comment is stepped over with everything nested in it |
| `MacroScanner.FlatIsBlockBody` | scripts/audit-log-fields.py:62-72 | Text without comment marks is a comment body |
| `MacroScanner.StepOver` | scripts/audit-log-fields.py:43-118 | A scan that comes to a literal or comment in code goes on behind it |
| `PortLoads.WeightedScore` | scripts/select-boron-gun-source-ports.py:423-436 | Largest load, spread and sum of squares over the workers reached, as sets define them |
| `PortLoads.CountLoads` | scripts/select-boron-gun-source-ports.py:429-432 | The counter holds each reached worker once with its weighted load |
| `PortLoads.LoadUnordered` | scripts/select-boron-gun-source-ports.py:430-432 | A load does not depend on the order of the ports |
| `PortLoads.ScoreUnordered` | scripts/select-boron-gun-source-ports.py:423-436 | Nor does the score |
| `PortLoads.ScoreMeans` | scripts/select-boron-gun-source-ports.py:433-436 | The first number is the load of the heaviest worker reached, the second its distance to the lightest |
| `PortLoads.LoadConserved` | scripts/select-boron-gun-source-ports.py:429-432 | The loads of the workers add up to the weights of the ports' queues |
| `PortLoads.UnweightedTotal` | scripts/select-boron-gun-source-ports.py:429-432 | Without weights every port counts once |
| `PortSelection.GroupPorts` | scripts/select-boron-gun-source-ports.py:229-234 | Each queue lists exactly its candidates, by worker and port |
| `PortSelection.PickPort` | scripts/select-boron-gun-source-ports.py:263-272 | The pick comes before every other candidate of the queue in the key order |
| `PortSelection.GreedyStart` | scripts/select-boron-gun-source-ports.py:260-274 | Every pick of a start is greedy for the loads of the picks before it |
| `PortSelection.GreedyUnique` | scripts/select-boron-gun-source-ports.py:260-274 | A greedy start is determined by its queues |
| `PortSelection.GreedyIsLeastLoaded` | scripts/select-boron-gun-source-ports.py:263-272 | A greedy pick is on the least loaded worker; of several the least, and of its ports |
| `PortSelection.StartsAre` | scripts/select-boron-gun-source-ports.py:244-256 | The starts are the weight order and one for each seed from 0 to 255, with the seed's 32-bit hash |
| `PortSelection.BestStart` | scripts/select-boron-gun-source-ports.py:258-282 | No one of the 257 starts scores better than the one kept, and those before it score worse |
| `PortSelection.StartsByWeight` | scripts/select-boron-gun-source-ports.py:289-292 | A start's queues come by falling weight, so the stable sort by weight changes nothing |
| `PortSelection.Improve` | scripts/select-boron-gun-source-ports.py:288-307 | Finds a better single substitution, or there is none |
| `PortSelection.LocalSearch` | scripts/select-boron-gun-source-ports.py:284-307 | Ends, no worse than its start, where no single substitution is better |
| `PortSelection.ListByQueue` | scripts/select-boron-gun-source-ports.py:309 | The same ports, one per queue, by rising queue |
| `PortSelection.SelectWeightedPorts` | scripts/select-boron-gun-source-ports.py:223-309 | Fails exactly when the count is negative or above the number of queues; the result has that many ports of different queues, is no worse than any start, and no single substitution improves it |
| `PortSelection.SelectionDetermined` | scripts/select-boron-gun-source-ports.py:223-309 | The selection is determined by its inputs |
| `PortSelection.SearchUnique` | scripts/select-boron-gun-source-ports.py:284-307 | Two searches from one start take the same turns: the first queue with a better port gets the first one |
| `PortRepair.TargetLoads` | scripts/select-boron-gun-source-ports.py:407-420 | The loads of the workers under repair, in order |
| `PortRepair.Judge` | scripts/select-boron-gun-source-ports.py:353-395 | Ranks exactly the swaps that qualify, by the loads and changes they lead to |
| `PortRepair.QualifiesExactly` | scripts/select-boron-gun-source-ports.py:349-384 | The filters only save work: a swap qualifies exactly when it stays in its queue and improves what the repair is for |
| `PortRepair.LexMeans` | scripts/select-boron-gun-source-ports.py:380-384 | Of two load tuples the first difference decides |
| `PortRepair.BeforeIsTupleOrder` | scripts/select-boron-gun-source-ports.py:385-396 | Ranks are compared as the script's tuples |
| `PortRepair.ReplacedCounts` | scripts/select-boron-gun-source-ports.py:385-387 | The replacement count is the number of queues whose port differs |
| `PortRepair.MovedByOne` | scripts/select-boron-gun-source-ports.py:388 | A swap changes the distance moved by what it changes in its own queue |
| `PortRepair.MovedSelf` | scripts/select-boron-gun-source-ports.py:388 | And the original ports have not moved |
| `PortRepair.BeforeTotal` | scripts/select-boron-gun-source-ports.py:389-396 | Ranks of different ports are never equal, so the dictionary in the tuple is never compared |
| `PortRepair.SwapsDiffer` | scripts/select-boron-gun-source-ports.py:351-358 | Different swaps of a round have different ports |
| `PortRepair.BestSwap` | scripts/select-boron-gun-source-ports.py:345-397 | The swap found ranks before every other that qualifies; none is found only when none qualifies |
| `PortRepair.RepairSelection` | scripts/select-boron-gun-source-ports.py:338-402 | At most the allowed number of best swaps; it stops earlier only when no swap qualifies |
| `PortRepair.StepLowers` | scripts/select-boron-gun-source-ports.py:380-384 | Each swap lowers the loads under repair, or the score when none are |
| `PortRepair.RepairLowers` | scripts/select-boron-gun-source-ports.py:380-402 | So does the whole repair |
| `PortRepair.RepairReplacesFew` | scripts/select-boron-gun-source-ports.py:385-402 | After k swaps at most k queues have another port than originally |
| `PortRepair.RepairDetermined` | scripts/select-boron-gun-source-ports.py:312-404 | The repair is determined by the ports, workers and allowance, whatever order the ports are listed in |
| `PortRepair.TrailsAgree` | scripts/select-boron-gun-source-ports.py:343-402 | Every round has one best swap, so two repairs of one job agree step by step |
| `PortRepair.CheckExisting` | scripts/select-boron-gun-source-ports.py:329-336 | Accepts exactly calibrated ports of different queues |
| `PortRepair.RepairExistingPorts` | scripts/select-boron-gun-source-ports.py:312-404 | Fails exactly on an empty list or allowance, an uncalibrated port or a shared queue; otherwise the result is a trail of best swaps from the original |
| `PortRepair.RepairResult` | scripts/select-boron-gun-source-ports.py:312-404 | One port for each original queue in order, few of them new, better if any is |
| `Supervisor.NextKeepsConsistent` | scripts/release-api-supervisor.py:240-319 | Every program and environment step keeps the program's variables true of the process group |
| `Supervisor.NextKeepsRecord` | scripts/release-api-supervisor.py:189-214 | Every step keeps the bounds on calls, clock and signals |
| `Supervisor.RunKeeps` | scripts/release-api-supervisor.py:240-319 | So every state of every run has them |
| `Supervisor.ExitIsTruthful` | scripts/release-api-supervisor.py:264-319 | An exit code other than 125 means nothing was spawned, or the leader is reaped and its group empty, then and ever after, with descriptors closed and signals restored |
| `Supervisor.ExitCodeMeans` | scripts/release-api-supervisor.py:264-319 | Every exit code has its reason in the run: 124 the deadline, 128 and a signal that this cancel signal was pending, 125 one of these or members left behind, or it is the reaped leader's own code |
| `Supervisor.UndisturbedExit` | scripts/release-api-supervisor.py:285-319 | With no cancel signal, before the deadline and with no members left behind, it is the command's own code |
| `Supervisor.OwnCodePassedOn` | scripts/release-api-supervisor.py:285-319 | A command that exits by itself, its SIGCHLD pending or read, has its own code passed on once thirteen steps are taken, with no signal sent |
| `Supervisor.RunTakes` | scripts/release-api-supervisor.py:240-319 | Every run has a sequence of program and environment steps |
| `Supervisor.CallReturns` | scripts/release-api-supervisor.py:189-214 | Whatever the environment does, a call has returned by the time the program has taken a bounded number of steps in it |
| `Supervisor.ProgramEnds` | scripts/release-api-supervisor.py:240-319 | In every run, once the deadline has passed or a cancel signal is pending, the program is done after the steps of two such calls and sixteen more, whatever the environment does, and until then it can always take the next |
| `Supervisor.CallIsBounded` | scripts/release-api-supervisor.py:189-214 | In every run a call returns within the grace period, the reap window and two sleeps, plus delays outside the program |
| `Supervisor.StopProgress` | scripts/release-api-supervisor.py:189-214 | Every program step of a call lowers its measure |
| `Supervisor.EnvironmentKeepsMeasure` | scripts/release-api-supervisor.py:189-214 | The environment never raises it |
| `Supervisor.StopsGently` | scripts/release-api-supervisor.py:189-214 | At most two calls of terminate_and_reap, and every SIGKILL at least the grace period after a SIGTERM of its own call |
| `Supervisor.SpawnNeedsToken` | scripts/release-api-supervisor.py:240-280 | With an authority descriptor the command starts only after a read that found exactly the token line |
| `Supervisor.SpawnedMeansCleared` | scripts/release-api-supervisor.py:240-280 | A leader exists only after such a read |
| `Supervisor.ObservedExactly` | scripts/release-api-supervisor.py:249-250 | Reading one octet more than the line finds it exactly when the file is that line |
| `Supervisor.WaitNeverBlocks` | scripts/release-api-supervisor.py:173-187 | waitpid is only reached with a leader to reap, and readiness seen by the event loop is always reapable |
| `Supervisor.QuietForGood` | scripts/release-api-supervisor.py:309-319 | After the program is done with nothing left, nothing comes back |
| `SupervisorDuties.CallOutcome` | scripts/release-api-supervisor.py:189-214 | A call goes on until the group is settled, which gives the exit code it was made for, or until its SIGKILL is five seconds ago, which gives 125 |
| `SupervisorDuties.CancelObeyed` | scripts/release-api-supervisor.py:285-291 | A cancel signal pending at the poll: SIGTERM is sent, the program ends, and the code is 128 and a cancel signal that was pending, or 125 if the reap window runs out |
| `SupervisorDuties.DeadlineObeyed` | scripts/release-api-supervisor.py:292-294 | The deadline passed at the poll: the same with 124, unless a cancel signal comes first |
| `SupervisorDuties.LeftoversStopped` | scripts/release-api-supervisor.py:295-304 | Members the leader leaves behind are stopped, and the code is 125 |
| `SupervisorDuties.OutlivedGraceIsKilled` | scripts/release-api-supervisor.py:195-207 | A call that outlives its grace period sends SIGKILL |
| `SupervisorDuties.KillsEveryTurn` | scripts/release-api-supervisor.py:208-213 | From then on it sends one in at most six of its steps, and nothing else |
| `SupervisorDuties.CallSettles` | scripts/release-api-supervisor.py:201-213 | Once nothing of the command runs, the next turn of a call ends it, with no further signal |
| `SupervisorDuties.NothingLeftUnfought` | scripts/release-api-supervisor.py:309-319 | However the program ends, nothing is left of the command or its group had SIGKILL and the reap window; descriptors are closed and signals restored |
| `SupervisorDuties.WaitingObeys` | scripts/release-api-supervisor.py:256-262 | While it waits for the authority, a cancel signal or the deadline ends the program with 128 and that signal or 124, and nothing is started |
| `SupervisorDuties.WaitsForToken` | scripts/release-api-supervisor.py:248-262 | With an empty authority file, no cancel signal and time left it goes on waiting |
| `SupervisorDuties.AuthorityStarts` | scripts/release-api-supervisor.py:249-280 | The exact token, or none needed, starts the command; only a failing spawn keeps it from that, and is raised |
| `SupervisorDuties.BadTokenRefused` | scripts/release-api-supervisor.py:254-255 | Any other content is refused with an exception, and nothing is ever started |
| `SupervisorDuties.NeverInheritsAuthority` | scripts/release-api-supervisor.py:251-253 | The command is never started with the authority descriptor open |
| `LockBroker.NextKeeps` | scripts/campaign-lock-helper.py:81-247 | Every step of every broker and of the environment keeps holdings and kernel in agreement |
| `LockBroker.NeverTwoInForce` | scripts/campaign-lock-helper.py:118-241 | At no time of any run are two brokers of one user, root and namespace announced and not releasing |
| `LockBroker.NamesExclude` | scripts/campaign-lock-helper.py:122-130 | Brokers whose names collide never hold them together |
| `LockBroker.NameTakenExactly` | scripts/campaign-lock-helper.py:118-130 | A name is taken exactly while a broker that has not closed it holds it |
| `LockBroker.LockInsideName` | scripts/campaign-lock-helper.py:185-247 | At no time of any run is a lock held without the name, but by a killed broker |
| `LockBroker.KillMayBreakNesting` | scripts/campaign-lock-helper.py:185-247 | Every run in which a broker holds its lock can go on to free the name of that broker, killed, before its lock |
| `LockBroker.LockIntervalInsideName` | scripts/campaign-lock-helper.py:185-247 | From locking to unlocking, on every exit path but a kill, a failing print included, lock and name are held without a break |
| `LockBroker.AliveIsFresh` | scripts/campaign-lock-helper.py:69-78 | Since the ping it answers, and in this order, the broker found path and descriptor of its directory and then of its file unchanged, each at its own time, and did nothing else |
| `LockBroker.AnnounceIsFresh` | scripts/campaign-lock-helper.py:188-207 | Before locked the same checks held, with lock and name already held |
| `LockBroker.FreeLockIsTaken` | scripts/campaign-lock-helper.py:118-207 | With name and lock free and directory and file in order, an undisturbed broker announces its lock |
| `LockBroker.TakenNameIsRefused` | scripts/campaign-lock-helper.py:126-130 | With the name taken it ends, leaving the kernel as it was |
| `LockService.ServesUnlessRefused` | scripts/campaign-lock-helper.py:118-241 | In every run a broker neither refused nor killed announces its lock after fifteen steps of its own and answers one ping in every six more, lock and name held, whatever the others do |
| `LockService.PingAnswered` | scripts/campaign-lock-helper.py:216-241 | A ping is answered: six steps later the broker waits again, one pong on, with lock and name |
| `LockService.RefusedReleases` | scripts/campaign-lock-helper.py:59-247 | What refuses a broker, from a taken name to a changed path, the end of its input, an invalid request and the deadline, ends its announcements and pongs; seven steps later it is gone and holds nothing |
| `LockService.GoneHoldsNothing` | scripts/campaign-lock-helper.py:242-247 | A broker that is gone, killed or not, has no name and no lock in the kernel |
| `LockService.DirRecorded` | scripts/campaign-lock-helper.py:147-154 | The directory identity compared with later is that of the descriptor when it was found private and the user's own |
| `LockService.FileRecorded` | scripts/campaign-lock-helper.py:172-176 | The file identity is that of the descriptor once its mode was set |

## Left out

- The Rust crates of the server, the generators and the load tools.
- Sockets, files, clocks, child processes and ctypes calls: what they answer is an arbitrary input.
- Error messages and which of several errors is reported: every error is `None`.
- Command lines, JSON and TSV parsing, and the `queries` text format.
- Responses.ParseResponse: the queried name is given as the octets of its lower-cased text, as `queries` leaves it.
- The rest of the fixture client's receive loop, and the UDP header with its zero checksum.
- License texts and their rendering in the notices script; `SelectedPackages` returns a set where the script
  returns a list in set order.
- QuerySampling.SampledPairs: zones, names and count are positive, as the script's argument parser demands.
- SoakLedger.VerifySoakResults: timestamps are parsed epochs, paths are the cycle, scenario and attempt they spell,
  and the evidence on disk is one truth value per row; links and stray entries in the attempt tree are not modelled.
- SoakSampler.VerifySoakSampler: well-formed metadata and process tables are truth values of an attempt.
- ProcessDetails.GatherProcesses: the column patterns and the timestamp of a row are one truth value.
- ProcessDetails.VerifyFuzzProcessDetails: CPU sums are exact reals, without the decimal context's 28 digits.
- The fuzz host and soak host checks of the validator, which repeat these shapes.
- PortLoads.WeightedScore: queue weights are non-negative, being packet totals.
- The unweighted, requester-only and exact-server port selections.
- PortSelection.Improve: visits queues in selection order; `StartsByWeight` shows the script's sort gives that order.
- MacroScanner.FindMacroClose: raw strings are read as the script reads them, not as Rust does; `TrueCloseFound` says
  when that does no harm.
- Supervisor.ExitIsTruthful: says nothing of an escaped exception, which the shell sees as exit status 1, nor of
  descendants that left the process group; process identifiers are not reused.
- The supervisor and the broker are step functions on values, so that their steps can interleave with the
  environment's; nested functions and the finally blocks are places in the program.
- The supervisor's and broker's argument checks and test hooks.
- LockBroker.NeverTwoInForce: SHA-256 is an arbitrary function of user, root and namespace; equal keys collide, and
  different keys may.
- The shell side of the lock protocol and the benchmark comparison scripts.

# OpenAppFilter, modelled and proved

A Dafny model of the parts of OpenAppFilter whose behaviour is hard to see from one function:
the kernel's pattern matcher, JSON code, TLS server-name scan, verdict cache, client and connection
tables and traffic counters; the daemon's per-device time limits, schedules, configuration migration
and visit sessions; and the traffic collector's roll-up tables. Code that changes things step by step is
a class or a method with loops, proved against a specification function; the laws are lemmas about
those functions, mostly over whole runs.

`dafny verify dfyconfig.toml` checks everything.

## Where to start

| module | what it is about | main results |
|---|---|---|
| `Regex`, `RegexLanguage` | `compile` and the backtracking matcher | `MatchHere`, `MatchDecidesLanguage`, `PlainPatternIsSubstring` |
| `Json`, `JsonGrammar`, `JsonRoundTrip`, `JsonMinify`, `JsonBackslash`, `JsonSurvival`, `JsonCode` | the integer-only JSON printer, parser and in-place minifier | `ParsesIff`, `RoundTripsIff`, `SurvivesIff`, `MinifiedIsCompactIff`, `MinifyInPlace` |
| `Sni` | the ClientHello scan | `Flow.ScanHello`, `FindServerName` |
| `ConnMark`, `Gateway` | the connection mark and the gateway hook | `SettledVerdictIsCurrent`, `SettledIff`, `FirstDecision`, `KnownAppIsKeptOverRuns` |
| `ClientTable`, `SplitTime`, `SplitProtocol`, `SplitMinutes`, `SplitDaemon` | per-device time limits from the daemon to the packet verdict | `DroppedIffOutOfTime`, `MinutesOverRuns`, `SyncedMeaning`, `NobodyBlockedWhenOff` |
| `Accounting` | two-second samples, reports and daily totals | `BytesAreConserved`, `MinutesAtMostTwiceBusy` |
| `Traffic`, `MapSums` | counter deltas, snapshots, calendar tables | `ColumnMeaning`, `RollUpsAgree`, `DeltasAgreeIff`, `NextDeltasAgreeIff`, `RecordedAtMostTruth` |
| `Conntrack` | the connection table and its incremental sweep | `IdleIsFreedIn51Sweeps`, `FreshIsNeverFreed` |
| `Schedule` | the dynamic allow/deny cycle | `CycleOverRuns`, `FullCycles` |
| `Texts`, `TimeText`, `Migration`, `MigrationLimits`, `TimeConfig` | stored schedules, their old and new format | `MigrationKeepsConfigIff`, `MigratedFitsIff`, `MigrationIsFinal` |
| `Visits`, `VisitList` | visit sessions and their linked lists | `SessionsStayApart`, `RecordsAreGroups`, `ExpiryKeepsExactly` |

## Findings

Laws that one might expect and that the code does not keep everywhere, each with the exact condition under
which it holds and a case in which it fails.

- A value survives printing and parsing exactly when none of its numbers is negative, the smallest one
  excepted: the sign is read and dropped (`RoundTripsIff`, `MinusOneComesBackAsOne`).
- Minifying hides the end of a string that ends in a backslash, and the minifier then takes strings for bare
  text and the other way round until it finds back. A value survives print, minify and parse exactly when no
  string it meets that way has a blank or a slash before its first quote (`SurvivesIff`); such a string next to
  a blank one always loses the blank (`TrailingBackslashBreaksMinify`). The minified text is the compact text
  exactly when only the very last string may end so (`MinifiedIsCompactIff`), and in any context exactly when
  none does (`MinifyIsTransparentIff`).
- Classification never clears an old drop bit, so a feature with an id outside (1000, 32000) can leave
  a later classification with a wrong cached decision, which stays wrong until the next recheck
  (`ClassifiedCoherentIff`, `StaleBitMisleads`, `StaleDropBit`).
- A missing `split_time` option loads as -1: the check then blocks clients while the kernel's split mode is
  off, and a tick ends in order only if it reloads or nobody is out of time (`OddSwitchBreaksIt`,
  `OddSwitchExample`).
- The noon reset clears the morning minutes of the first device only, because its time stamp is shared by all
  of them (`NoonResetsAllIff`, `LaterNoonPassesClearNobody`, `NoonMissesSecondDevice`); the verdicts do not
  depend on it (`CheckedMeaning`).
- Kilobytes travel as a 32-bit number, so a report is exact only below 2^41 bytes (`WireIsExactIff`,
  `LargePeriodArrivesNegative`).
- A device that leaves the collector's list with bytes in its snapshot, one that comes back to it, or a counter
  that fell breaks the agreement of device rows and daily row, unless the bytes of those that left and those
  that came back cancel out (`DeltasAgreeIff`, `NextDeltasAgreeIff`, `DroppedDeviceExample`,
  `ReturningDeviceExample`).
- Migrating a schedule keeps it exactly when every time fits its 15 characters and the new list the
  1023-character buffer (`MigrationKeepsConfigIff`, `MigratedFitsIff`); otherwise it changes the stored times and can
  change verdicts (`LongTimeIsChanged`, `LongTimeChangesVerdict`) or outgrows the loader (`FortyWeekEntriesOverflow`). It does not happen at all
  outside manual mode (`OtherModesStayOld`).

## Model

| member | source | states |
|---|---|---|
| `Regex.InList` | oaf/src/regexp.c:41-49 | membership of a character in a class, read backwards for a negated class |
| `Regex.MatchOne` | oaf/src/regexp.c:159-162 | whether one node accepts one character |
| `Regex.MatchStar` | oaf/src/regexp.c:166-173 | the lazy star answers whether some run of fitting characters is followed by a text the rest accepts |
| `Regex.MatchStarLongest` | oaf/src/regexp.c:175-185 | the greedy star gives the same answer as the lazy one |
| `Regex.MatchPlus` | oaf/src/regexp.c:187-195 | the lazy plus answers whether some non-empty run is followed by a text the rest accepts |
| `Regex.MatchPlusLongest` | oaf/src/regexp.c:197-208 | the greedy plus gives the same answer as the lazy one |
| `Regex.MatchQues` | oaf/src/regexp.c:210-221 | the optional node answers whether zero or one fitting character is followed by a text the rest accepts |
| `Regex.LongestRun` | oaf/src/regexp.c:178-179 | the run found is the longest prefix that fits |
| `Regex.BlockedRun` | oaf/src/regexp.c:168-172 | no longer run can be accepted past a character that does not fit, so stopping there is safe |
| `Regex.MatchHere` | oaf/src/regexp.c:230-242 | the matcher terminates and decides the acceptance relation of the node list, under either strategy |
| `Regex.CreateList` | oaf/src/regexp.c:33-39 | the buffer of a range holds exactly its characters in order |
| `Regex.CompileClass` | oaf/src/regexp.c:113-140 | the class scanner yields the class members and the text behind the bracket, or reports a malformed class |
| `Regex.CompileFirst` | oaf/src/regexp.c:69-144 | one turn of the compiler yields the node of the first construct and the remaining pattern |
| `Regex.Compile` | oaf/src/regexp.c:61-157 | the loop builds the node list that the turn-by-turn specification describes |
| `Regex.RegexpMatch` | oaf/src/regexp.c:250-273 | 1 exactly when a search with the compiled list succeeds, 0 when it fails, -1 without a list |
| `RegexLanguage.CompileWellFormed` | oaf/src/regexp.c:61-157 | every well-formed pattern compiles to exactly the nodes of its pieces and anchors |
| `RegexLanguage.RefusedPatterns` | oaf/src/regexp.c:61-157 | an empty pattern, a class that is never closed and one that starts with a dash give no program |
| `RegexLanguage.AcceptsMeaning` | oaf/src/regexp.c:230-242 | a node list accepts a text exactly when the text starts with a word of the pattern's language, all of it under a final `$` |
| `RegexLanguage.MatchDecidesLanguage` | oaf/src/regexp.c:250-273 | for every well-formed pattern and text the search succeeds exactly when the declarative language says so |
| `RegexLanguage.PlainPatternIsSubstring` | oaf/src/regexp.c:250-273 | a pattern without metacharacters matches exactly the texts that contain it |
| `Regex.MatchBothWays` | oaf/src/regexp.c:223-228 | lazy and greedy matching give the same result on every pattern the compiler accepts |
| `JsonCode.PrintString` | oaf/src/cJSON.c:192-222 | the quoted text is written and fits the length computed beforehand |
| `JsonCode.PrintValue` | oaf/src/cJSON.c:266-280 | every value whose nested texts hold no `%` is rendered and fits its buffer with the terminator |
| `JsonCode.PrintArray` | oaf/src/cJSON.c:311-332 | the running length always covers what the array printer writes, for items without `%` |
| `JsonCode.PutMember` | oaf/src/cJSON.c:385-391 | one member line is written in order within the buffer |
| `JsonCode.PrintObject` | oaf/src/cJSON.c:370-398 | the running length always covers what the object printer writes, for keys and values without `%` |
| `JsonCode.SkipText` | oaf/src/cJSON.c:235-235 | blanks are skipped up to the first other character; running into the terminator is flagged |
| `JsonCode.ReadNumber` | oaf/src/cJSON.c:119-129 | the digit loop computes the value modulo 2^32 and leaves the rest |
| `JsonCode.ReadString` | oaf/src/cJSON.c:144-189 | the copy loop undoes the escapes |
| `JsonCode.ReadValue` | oaf/src/cJSON.c:251-263 | the reader decides keywords, strings, numbers, arrays and objects like the grammar functions |
| `JsonCode.ReadArray` | oaf/src/cJSON.c:283-308 | the item loop parses the array that the grammar describes |
| `JsonCode.ReadMember` | oaf/src/cJSON.c:345-350 | key, colon and value of one member |
| `JsonCode.ReadObject` | oaf/src/cJSON.c:335-367 | the member loop parses the object that the grammar describes |
| `JsonGrammar.ParsesIff` | oaf/src/cJSON.c:235-367 | a text parses to v and leaves s exactly when it is blanks, some spelling of v and s, with any blanks at every place the grammar allows them |
| `JsonGrammar.ValueParses` | oaf/src/cJSON.c:119-367 | every spelling of a value, built from tokens and blanks, is read as that value and leaves what follows |
| `JsonGrammar.ValueSpells` | oaf/src/cJSON.c:119-367 | conversely whatever is read is such a spelling of the value it gave |
| `JsonGrammar.BlanksAroundAnItem` | oaf/src/cJSON.c:283-308 | blanks behind the opening bracket and behind the item change nothing |
| `JsonGrammar.Wrap32Meaning` | oaf/src/cJSON.c:119-129 | the number read is the one of 32 signed bits that is congruent to the digits modulo 2^32 |
| `JsonGrammar.HexMeaning` | oaf/src/cJSON.c:167-177 | both spellings of each hexadecimal digit have its value |
| `JsonGrammar.NoHexMeaning` | oaf/src/cJSON.c:167-177 | exactly the digits and the letters a to f in either case are hexadecimal |
| `JsonGrammar.QuadMeaning` | oaf/src/cJSON.c:167-177 | four digits are one number of base 16, the first one highest |
| `JsonGrammar.Utf8Meaning` | oaf/src/cJSON.c:167-177 | the one to three bytes written for a code decode to it, and only the first is no continuation byte |
| `JsonRoundTrip.QuoteParses` | oaf/src/cJSON.c:144-222 | parsing undoes quoting for every printable text |
| `JsonRoundTrip.PrintedLayout` | oaf/src/cJSON.c:311-398 | the printed text of an object with one list of two, character by character |
| `JsonRoundTrip.RoundTrip` | oaf/src/cJSON.c:251-398 | a rendered value followed by any text parses back to the value without its signs and leaves that text, in either layout |
| `JsonRoundTrip.ParsePrint` | oaf/src/cJSON.c:238-248 | parse(print(v)) is v with every number replaced by its magnitude in 32 bits, for every tree of ints and printable texts |
| `JsonRoundTrip.RoundTripsIff` | oaf/src/cJSON.c:119-139 | parse(print(v)) = v exactly when every number in v is non-negative or the smallest int |
| `JsonRoundTrip.MinusOneComesBackAsOne` | oaf/src/cJSON.c:119-139 | a concrete value that loses its sign |
| `JsonMinify.SkipLine` | oaf/src/cJSON.c:401-411 | a line comment is skipped to its end |
| `JsonMinify.SkipBlock` | oaf/src/cJSON.c:413-424 | a block comment is skipped to its end |
| `JsonMinify.MinifyString` | oaf/src/cJSON.c:426-446 | a string is copied down to its closing quote |
| `JsonMinify.MinifyTurn` | oaf/src/cJSON.c:450-491 | one turn moves both cursors as the specification consumes and emits |
| `JsonMinify.MinifyInPlace` | oaf/src/cJSON.c:448-494 | the buffer ends up holding the minified text; the write cursor never overtakes the read cursor |
| `JsonMinify.MinifyRender` | oaf/src/cJSON.c:448-494 | minifying the printed form of a value without trailing backslashes gives its compact form |
| `JsonMinify.LayoutVanishes` | oaf/src/cJSON.c:461-466 | a blank, tab, carriage return or newline in front is removed |
| `JsonMinify.LineCommentVanishes` | oaf/src/cJSON.c:401-411 | a line comment is removed with its newline, or up to the end of the text |
| `JsonMinify.BlockCommentVanishes` | oaf/src/cJSON.c:413-424 | a block comment is removed up to its first closing mark, or up to the end of the text |
| `JsonMinify.LoneSlashVanishes` | oaf/src/cJSON.c:468-479 | a slash that opens no comment is removed alone |
| `JsonMinify.ParseMinifyPrint` | oaf/src/cJSON.c:448-494 | parse(minify(print(v))) is v without its signs when no string ends in a backslash, and v itself exactly when there is no sign to lose |
| `JsonBackslash.TrailingBackslashBreaksMinify` | oaf/src/cJSON.c:426-446 | for every text that ends in a backslash, the array of it and a blank text comes back with the blank gone |
| `JsonBackslash.MinifyIsTransparentIff` | oaf/src/cJSON.c:448-494 | with any text behind it, a printed value loses its layout and nothing else exactly when no string in it ends in a backslash |
| `JsonBackslash.MinifiedIsCompactIff` | oaf/src/cJSON.c:448-494 | with nothing behind it, exactly when no string ends in a backslash except one behind which only closing brackets follow |
| `JsonBackslash.TransparentComesBack` | oaf/src/cJSON.c:448-494 | such values parse back without their signs, and unchanged exactly when there is no sign to lose |
| `JsonBackslash.QuoteIsTransparentIff` | oaf/src/cJSON.c:426-446 | a quoted text is copied unchanged in every context exactly when it does not end in a backslash |
| `JsonSurvival.PairSurvivesIff` | oaf/src/cJSON.c:426-446 | two texts survive exactly when the first does not end in a backslash or the second has no blank or slash before its first quote |
| `JsonSurvival.SurvivesIff` | oaf/src/cJSON.c:251-494 | for every value, print, minify and parse give it back without its signs exactly when no string that the minifier meets astray has a blank or slash before its first quote |
| `JsonSurvival.ValueBack` | oaf/src/cJSON.c:251-494 | if the minifier eats nothing of a value, what it leaves parses back to it, wherever layout was kept |
| `JsonSurvival.ValueLoses` | oaf/src/cJSON.c:251-494 | if it eats some of a value, what it leaves parses to something else or not at all |
| `Sni.Flow.CheckDomain` | oaf/src/app_filter.c:663-677 | exactly the slices of domain characters pass |
| `Sni.Flow.ScanHello` | oaf/src/app_filter.c:679-733 | the reported slice lies inside the payload, is 5 to 64 domain characters and is the leftmost candidate; without one the carry-over flag is set |
| `Sni.CandidateMeaning` | oaf/src/app_filter.c:700-730 | a candidate is two zero bytes, a zero and a non-zero byte, a length of 5 to 64 and that many letters, digits, dots, dashes or colons, before the last byte |
| `Sni.ServerNameIsCandidate` | oaf/src/app_filter.c:708-730 | a server name extension in the layout of section 3 of RFC 6066 that ends before the last byte is a candidate |
| `Sni.FindServerName` | oaf/src/app_filter.c:679-733 | a hello with such an extension always gives a host at or before it |
| `ConnMark.ZeroMark` | oaf/src/app_filter.c:1525-1525 | a zero mark is the one without application and flags |
| `ConnMark.BitLayout` | oaf/src/app_filter.c:1117-1122 | the flags are the three highest bits and the application the low sixteen |
| `ConnMark.SetDrop` | oaf/src/app_filter.c:1556-1556 | sets the drop flag and no other field |
| `ConnMark.ClearDrop` | oaf/src/app_filter.c:1554-1554 | clears the drop flag and no other field |
| `ConnMark.SetHello` | oaf/src/app_filter.c:1619-1619 | sets the client-hello flag and no other field |
| `ConnMark.ClearHello` | oaf/src/app_filter.c:1622-1622 | clears the client-hello flag and no other field |
| `ConnMark.SetIgnore` | oaf/src/app_filter.c:1642-1642 | sets the ignore flag and no other field |
| `ConnMark.SetApp` | oaf/src/app_filter.c:1640-1640 | replaces the application id and no other field |
| `Gateway.Conn.Hook` | oaf/src/app_filter.c:1493-1615 | the hook's verdict, new mark and whether it inspected the payload, branch by branch |
| `Gateway.Conn.Inspect` | oaf/src/app_filter.c:1615-1668 | classification, rule check and the mark it leaves |
| `Gateway.SplitDecision` | oaf/src/app_filter.c:1493-1521 | with split time on, a device in time passes and one out of time is dropped when all apps are filtered |
| `Gateway.CachedDecision` | oaf/src/app_filter.c:1548-1580 | a known application is dropped by the rule lists while they are younger than 30 seconds, and by its cached bit afterwards |
| `Gateway.UninspectedDecision` | oaf/src/app_filter.c:1581-1615 | the payload of an unknown application is inspected exactly for readable packets of accounted connections up to the 64th packet; any other passes untouched |
| `Gateway.FirstDecision` | oaf/src/app_filter.c:1615-1668 | a first classification is dropped exactly when the filter is on, the application is listed and the device is managed, in both user modes, and the mark it leaves |
| `Gateway.QuicDecision` | oaf/src/app_filter.c:1525-1615 | a QUIC packet of a managed device is dropped and its connection marked; one so marked stays dropped; an unmanaged device gets the inspection |
| `Gateway.AllAppsDecision` | oaf/src/app_filter.c:1525-1668 | with all apps filtered a cached drop stays, a new connection is dropped exactly when its device is managed, and a known application only within the window |
| `Gateway.KnownAppIsKept` | oaf/src/app_filter.c:1548-1580 | a mark with a known id keeps it and the packet is not inspected, in every mode |
| `Gateway.KnownAppIsKeptOverRuns` | oaf/src/app_filter.c:1525-1580 | the same over every run of packets and configuration changes |
| `Gateway.StepKeepsInv` | oaf/src/app_filter.c:1255-1274 | every packet, rule change and switch keeps the cache invariant, for every feature id and mark, and a settled packet gets the current verdict |
| `Gateway.SettledVerdictIsCurrent` | oaf/src/app_filter.c:1525-1668 | in specified-apps mode, over every run from any mark, a settled packet has a known application and is dropped exactly when the switch is on, the application is listed and the device is outside the whitelist or, in manual user mode, in the user list |
| `Gateway.SettledIff` | oaf/src/app_filter.c:1548-1668 | a packet settles a connection exactly when it was settled, comes within 30 seconds after the latest change with a known application, or is classified with the filter on and without a leftover drop bit against the rules |
| `Gateway.KnownIdsLeaveNoStaleBit` | oaf/src/app_filter.c:1640-1668 | over every run of a new connection whose features have known ids, a drop bit comes with a known id, so no classification finds a leftover one |
| `Gateway.ClassifiedCoherentIff` | oaf/src/app_filter.c:1640-1668 | a new cache entry is right exactly when the drop bit was clear or the rules ask for a drop |
| `Gateway.StaleBitSurvives` | oaf/src/app_filter.c:1640-1668 | where that condition fails, classification leaves a decision against the rules |
| `Gateway.StaleBitMisleads` | oaf/src/app_filter.c:1548-1580 | from then on, until a rule change or a packet inside the window, every packet with the filter on is dropped against the rules |
| `Gateway.StaleDropBit` | oaf/src/app_filter.c:1640-1668 | a run in which a leftover drop bit contradicts the rules |
| `ClientTable.Table.Find` | oaf/src/af_client.c:105-119 | the bucket search finds exactly the known clients |
| `ClientTable.Table.FindOrAdd` | oaf/src/af_client.c:121-129 | an unknown device is added unblocked, nobody else changes |
| `ClientTable.Table.Write` | oaf/src/af_log.c:35-91 | the command handler: what each text does to the blocked flags, and which texts are refused |
| `ClientTable.TrimMeaning` | oaf/src/af_log.c:51-53 | exactly the newlines and carriage returns at the end are cut |
| `ClientTable.Table.Clear` | oaf/src/af_log.c:55-66 | every client of every bucket is unblocked |
| `ClientTable.Table.SetFlag` | oaf/src/af_log.c:77-90 | exactly the client with this address takes the flag |
| `ClientTable.Table.Remove` | oaf/src/af_client.c:199-222 | an expired client leaves the table, nobody else changes |
| `SplitTime.ExecSigned` | oaf/src/af_log.c:68-90 | a `+MAC` or `-MAC` command reaches exactly the client its text addresses |
| `SplitTime.TargetMeaning` | oaf/src/af_log.c:68-90 | an address of 17 to 254 characters is looked up, any other is refused, and a trailing line end makes no difference |
| `SplitTime.SyncedMeaning` | open-app-filter/src/oaf_split.c:116-148 | after a sync a kernel client is blocked exactly when some selected, blocked node has its address, whatever the kernel held before |
| `SplitTime.CheckedMeaning` | open-app-filter/src/oaf_split.c:23-106 | the check marks exactly the selected devices whose minutes of the current half day have reached its positive limit on an enabled day, in order, and leaves addresses, choices and those minutes alone |
| `SplitTime.NoonResetsAllIff` | open-app-filter/src/appfilter_user.c:905-921 | a noon pass clears every morning exactly when those behind the first device are empty; in a minute already marked it clears nobody's |
| `SplitTime.NoonResetMeaning` | open-app-filter/src/appfilter_user.c:896-921 | a pass outside 12:00 changes no minutes, the first one at 12:00 clears the morning of the first device, and every pass leaves its time as the mark |
| `SplitTime.LaterNoonPassesClearNobody` | open-app-filter/src/appfilter_user.c:957-970 | all passes of the noon minute together clear no more than the first one |
| `SplitTime.NoonMissesSecondDevice` | open-app-filter/src/appfilter_user.c:905-921 | two devices of which the second keeps its morning minutes |
| `SplitTime.MarkedAfterCheck` | open-app-filter/src/oaf_split.c:23-106 | a client is addressed by a marked node exactly when one of its devices is out of time |
| `SplitDaemon.Daemon.Sync` | open-app-filter/src/oaf_split.c:116-148 | the loop replays `clear` and one command per marked node into the kernel table |
| `SplitDaemon.Daemon.CheckNoon` | open-app-filter/src/appfilter_user.c:896-970 | the noon pass over all nodes resets the first one only |
| `SplitDaemon.Daemon.UnblockAll` | open-app-filter/src/oaf_split.c:36-65 | without a limit every node loses its flag |
| `SplitDaemon.Daemon.JudgeNodes` | open-app-filter/src/oaf_split.c:70-100 | every selected node is judged by its own minutes; the result says whether anyone is over |
| `SplitDaemon.Daemon.CheckPeriodLimit` | open-app-filter/src/oaf_split.c:23-106 | the whole check: node flags, kernel flags and return value |
| `SplitDaemon.Daemon.ResetOne` | open-app-filter/src/oaf_split.c:156-190 | one device is cleared on both sides, or nothing happens if it is unknown |
| `SplitDaemon.Daemon.ResetAll` | open-app-filter/src/appfilter_user.c:924-939 | everyone's minutes are cleared |
| `SplitProtocol.EnableAfterCheck` | open-app-filter/src/main.c:667-674 | the global switch is on exactly when some selected device is out of time |
| `SplitProtocol.DroppedIffOutOfTime` | oaf/src/app_filter.c:1493-1521 | after each check any packet of a known client is dropped exactly when its device is out of time |
| `SplitProtocol.OthersUsageIsInvisible` | oaf/src/app_filter.c:1493-1521 | what other devices used never changes a client's verdict |
| `SplitProtocol.ClearOneMeaning` | open-app-filter/src/oaf_split.c:156-190 | clearing one device unblocks it on both sides and changes no other device |
| `SplitProtocol.ClearAllUnblocks` | open-app-filter/src/appfilter_user.c:924-939 | clearing everyone and checking leaves no kernel client blocked |
| `SplitProtocol.ReloadMakesReady` | open-app-filter/src/main.c:688-701 | a configuration reload establishes the law whatever the kernel held before |
| `SplitProtocol.TickMakesReady` | open-app-filter/src/main.c:795-831 | every tick ends with the law in force |
| `SplitProtocol.TickEnforces` | open-app-filter/src/main.c:795-831 | with split time and all apps on, a client is blocked after a tenth tick exactly when its device is out of time at that check; between checks nothing changes |
| `SplitProtocol.ReloadTakesOver` | open-app-filter/src/main.c:688-701 | a reload takes the stored configuration, and its modes reach the kernel |
| `SplitMinutes.MinutesOverRuns` | open-app-filter/src/main.c:787-831 | over every run the minutes of a device in each half day are those reported since its latest clear, new day, expiry or noon reset |
| `SplitMinutes.TickMinutes` | open-app-filter/src/main.c:787-831 | a tick keeps both counters of a device, except that a sixtieth tick of a new day or an expiry clears them and a noon pass that resets the device its morning |
| `SplitMinutes.EventMinutes` | open-app-filter/src/appfilter_ubus.c:2437-2476 | every event adds exactly the minute it reports, clears what it wipes and leaves every other counter alone |
| `SplitMinutes.CountedMinutes` | open-app-filter/src/appfilter_netlink.c:131-148 | a minute is added to the half day and the device that used it and to nothing else |
| `SplitMinutes.SeenMinutes` | open-app-filter/src/appfilter_user.c:80-105 | new devices start with no minutes and change nobody's |
| `SplitMinutes.ClearOneMinutes` | open-app-filter/src/oaf_split.c:156-190 | clearing one device clears its two counters only |
| `SplitMinutes.PassMinutes` | open-app-filter/src/appfilter_user.c:896-970 | a noon pass clears mornings only, and only of the device it resets |
| `SplitMinutes.StatusMinutes` | open-app-filter/src/main.c:552-676 | the periodic check changes minutes by its noon pass only |
| `SplitMinutes.SharedBudget` | open-app-filter/src/main.c:562-666 | without the split, the switch is on exactly when the selected devices together have used up the positive limit of the half day on an enabled day |
| `SplitMinutes.OtherModes` | open-app-filter/src/main.c:552-676 | the switch is off when the filter is, follows the schedule in the two schedule modes and is off in unknown modes |
| `SplitProtocol.NextKeepsInv` | open-app-filter/src/appfilter_ubus.c:2437-2476 | ticks, clears, configuration edits, minute reports and clients that come and go keep the invariant |
| `SplitProtocol.NobodyBlockedWhenOff` | open-app-filter/src/main.c:795-831 | at the end of every tick of every run, split mode off in the kernel means nobody is blocked |
| `SplitProtocol.OddSwitchBreaksIt` | open-app-filter/src/main.c:795-831 | with a switch value other than 0 and 1 the law holds at the end of a tick exactly when the tick reloads, or nobody is out of time at its last check, or it has none and nobody was blocked |
| `SplitProtocol.OddSwitchBlocksIff` | open-app-filter/src/main.c:560-562 | a check under such a value leaves nobody blocked exactly when nobody is out of time, whatever was blocked before |
| `SplitProtocol.OddSwitchExample` | open-app-filter/src/main.c:560-562 | a state with the option missing in which a check blocks a client while split mode is off |
| `SplitProtocol.InsertKeepsOrder` | open-app-filter/src/appfilter_user.c:80-105 | a new node at the head of its chain keeps the table in the order of its slots |
| `SplitProtocol.InsertAtHead` | open-app-filter/src/appfilter_user.c:80-105 | a new node stands behind the lower slots and before everyone of its own |
| `SplitProtocol.SlotMeaning` | open-app-filter/src/appfilter_user.c:40-50 | the slot is the base 31 number of the first 32 characters modulo 64 |
| `Accounting.Client.CountUp` | oaf/src/af_client.c:450-451 | an upstream packet adds its length and one packet |
| `Accounting.Client.CountDown` | oaf/src/af_client.c:527-528 | a downstream packet adds its length and one packet |
| `Accounting.Client.UpdateStatus` | oaf/src/af_client.c:334-366 | a sample moves both meters and the activity window |
| `Accounting.Client.TimerHandler` | oaf/src/af_client.c:576-601 | a due report carries the old period and clears it before the new sample is taken |
| `Accounting.Device.Receive` | open-app-filter/src/appfilter_netlink.c:131-164 | a report credits whole kilobytes and one active minute to the half day |
| `Accounting.WireIsExactIff` | oaf/src/af_client.c:284-286 | the kilobytes that arrive are those of the period exactly below 2^41 bytes |
| `Accounting.WireMeaning` | oaf/src/af_client.c:284-286 | any period arrives as the signed 32-bit number congruent to its whole kilobytes modulo 2^32 |
| `Accounting.LargePeriodArrivesNegative` | oaf/src/af_client.c:284-286 | a concrete period that arrives wrong |
| `Accounting.RunConserves` | oaf/src/af_client.c:334-353 | base line, pending period, credit and slack always add up to the last sample |
| `Accounting.BytesAreConserved` | open-app-filter/src/appfilter_netlink.c:158-164 | credited bytes never exceed counted bytes; without loss the gap is at most 1023 per report |
| `Accounting.ActiveIffBusyIn31` | oaf/src/af_client.c:354-365 | active exactly when one of the last 31 ticks was busy |
| `Accounting.ReportsEvery30` | oaf/src/af_client.c:593-600 | reports fall exactly after every 30 ticks |
| `Accounting.CountedMinuteWasBusy` | open-app-filter/src/appfilter_netlink.c:131-148 | each counted minute has a busy tick among the 31 before its report |
| `Accounting.MinutesAtMostTwiceBusy` | open-app-filter/src/appfilter_netlink.c:131-148 | counted minutes are at most twice the busy ticks, over every run |
| `Accounting.Exchange` | oaf/src/af_client.c:576-601 | one tick of the two objects is one step of the run models above |
| `Traffic.RecordedAtMostTruth` | open-app-filter/files/ucode/traffic.uc:109-114 | recorded deltas never exceed the true bytes, however a counter grows and restarts |
| `Traffic.NoRestartIsExact` | open-app-filter/files/ucode/traffic.uc:109-114 | a counter that never restarts is recorded exactly |
| `Traffic.RestartIsRecorded` | open-app-filter/files/ucode/traffic.uc:109-114 | what one sample records after a restart: the bytes since, or too little once they pass the old value |
| `Traffic.ColumnMeaning` | open-app-filter/files/ucode/traffic.uc:158-186 | the items are one for each device with a usable address that is online or has bytes, in the order of the list, with its upload or download bytes under its hardware address or its first network address |
| `Traffic.ColumnSums` | open-app-filter/files/ucode/traffic.uc:177-185 | the items of a column add up to the upload or download bytes of those devices |
| `Traffic.DailyRowOfCollection` | open-app-filter/files/ucode/traffic.uc:203-229 | a collection raises the daily row by the growth of the bytes of its column |
| `Traffic.RowsOfCollection` | open-app-filter/files/ucode/traffic.uc:203-229 | a collection raises exactly the rows of its minute, day, month and year, by the same amount |
| `Traffic.DeviceRowsOfCollection` | open-app-filter/files/ucode/traffic.uc:232-255 | every device of the list gets the growth of its own counter in its row of the day |
| `Traffic.DeviceDeltasAddUp` | open-app-filter/files/ucode/traffic.uc:158-265 | if no snapshotted device drops out and no counter falls, device deltas add up to the global delta and the next snapshot is balanced |
| `Traffic.DeltasAgreeIff` | open-app-filter/files/ucode/traffic.uc:203-241 | for every device list and every snapshot, the deltas add up exactly when the lost snapshots are what the rows exceed the global snapshot by, or, once the global counter has fallen, exactly when nothing was kept |
| `Traffic.BalancedDeltasAgreeIff` | open-app-filter/files/ucode/traffic.uc:203-241 | with a balanced snapshot, exactly when no device with bytes in its snapshot dropped out or fell |
| `Traffic.DroppedDevicesIff` | open-app-filter/files/ucode/traffic.uc:203-241 | while no counter falls, exactly when the rows of the listed devices add up to the global snapshot |
| `Traffic.NextDeltasAgreeIff` | open-app-filter/files/ucode/traffic.uc:203-265 | after any collection, exactly when the devices that left the list and those that came back have the same bytes in their snapshots |
| `Traffic.ReturningDeviceBreaksTheSum` | open-app-filter/files/ucode/traffic.uc:203-265 | whenever a device with bytes in its snapshot comes back while nobody leaves, the two deltas differ |
| `Traffic.ReturningDeviceExample` | open-app-filter/files/ucode/traffic.uc:203-265 | a device drops out and comes back: one byte against eight |
| `Traffic.UpsertRollsUp` | open-app-filter/files/ucode/traffic.uc:221-229 | adding one amount to a row and to the row above keeps the sums |
| `Traffic.PostDevicesRollsUp` | open-app-filter/files/ucode/traffic.uc:232-255 | the device rows of a date grow by the sum of the device deltas |
| `Traffic.RollUpsAgree` | verify_traffic.sh:37-108 | over every sequence of collections minutes add up to days, days to months, months to years |
| `Traffic.DeviceRowsAgree` | open-app-filter/files/ucode/traffic.uc:232-265 | over every steady run the device deltas add up at every collection and the device rows of each date to its daily row |
| `Traffic.DeltasAgreeOverRunsIff` | open-app-filter/files/ucode/traffic.uc:158-265 | over every run of collections the deltas add up throughout exactly when that condition holds throughout |
| `Traffic.RowsStayInStepIff` | open-app-filter/files/ucode/traffic.uc:221-255 | one collection keeps device rows and daily rows in step exactly when its deltas add up |
| `Traffic.RowsFollowDeltas` | open-app-filter/files/ucode/traffic.uc:221-265 | over every run whose deltas add up the device rows of each date add up to its daily row |
| `Traffic.EmptyBooksAgree` | open-app-filter/files/ucode/traffic.uc:188-202 | an empty database satisfies what those runs start from |
| `Traffic.DroppedDeviceBreaksTheSum` | open-app-filter/files/ucode/traffic.uc:203-241 | from a balanced snapshot, whenever a device with bytes in its snapshot drops out while another goes on counting, the two deltas differ |
| `Traffic.DroppedDeviceExample` | open-app-filter/files/ucode/traffic.uc:203-241 | two devices, one drops out: one byte against six |
| `Traffic.Ledger.Collect` | open-app-filter/files/ucode/traffic.uc:151-265 | one collection: snapshot, calendar rows and device rows; an empty list changes nothing |
| `Traffic.Ledger.Gather` | open-app-filter/files/ucode/traffic.uc:158-186 | exactly the devices with a usable address that are online or have traffic take part, in order, each under its hardware address or its first network address |
| `Conntrack.Table.Find` | oaf/src/af_conntrack.c:82-98 | the bucket search is the map lookup |
| `Conntrack.Table.Touch` | oaf/src/af_conntrack.c:54-109 | find-or-add with a refresh is the map update, for any hash |
| `Conntrack.Table.CleanTimeout` | oaf/src/af_conntrack.c:121-152 | one sweep removes exactly the stale entries of its buckets and moves the cursor |
| `Conntrack.CleanBucket` | oaf/src/af_conntrack.c:133-141 | one bucket keeps its live entries in order |
| `Conntrack.CursorStaysGood` | oaf/src/af_conntrack.c:121-152 | the cursor is always a multiple of 5 at most 250 |
| `Conntrack.FreedAfterWait` | oaf/src/af_conntrack.c:121-152 | how many sweeps pass before a bucket is visited |
| `Conntrack.IdleIsFreedIn51Sweeps` | oaf/src/af_conntrack.c:121-152 | an idle connection is gone after 51 further sweeps, whatever else happens |
| `Conntrack.FiftySweepsAreNotEnough` | oaf/src/af_conntrack.c:121-152 | the bound is tight |
| `Conntrack.FreshIsNeverFreed` | oaf/src/af_conntrack.c:121-152 | a connection used within the timeout is never freed |
| `Schedule.Daemon.Update` | open-app-filter/src/main.c:508-549 | one update moves the cycle, starts it over outside the window, and does nothing in other modes |
| `Schedule.StepAdvances` | open-app-filter/src/main.c:534-547 | inside the window the closed form moves on by one position |
| `Schedule.CycleOverRuns` | open-app-filter/src/main.c:508-549 | after every run filter and both counters are those of position n modulo allow + deny, n counted from the last reading outside the window |
| `Schedule.OnePeriod` | open-app-filter/src/main.c:534-547 | any whole period, wherever it starts, filters in exactly the denied ticks |
| `Schedule.FullCycles` | open-app-filter/src/main.c:534-547 | k full cycles hold exactly k times the denied ticks |
| `TimeText.NextToken` | open-app-filter/src/main.c:203-209 | one `strtok_r` call gives the next non-empty piece |
| `TimeText.TokensSplit` | open-app-filter/src/main.c:203-209 | a separator splits a text into the tokens of what stands before and behind it |
| `TimeText.TokensOfPiece` | open-app-filter/src/main.c:203-209 | a text without separators is one token, the empty one none |
| `TimeText.TwoDigits` | open-app-filter/src/main.c:122-130 | a time of day is written as two digits, a colon and two digits |
| `TimeText.ReadIntMeaning` | open-app-filter/src/main.c:258-261 | blanks, an optional sign and digits are read as that number |
| `TimeText.ReadIntNeedsDigit` | open-app-filter/src/main.c:258-261 | without a digit nothing is read |
| `TimeText.TokensOfJoin` | open-app-filter/src/appfilter_config.c:193-201 | joined pieces come back as the tokens |
| `TimeText.TimeReadsIff` | open-app-filter/src/main.c:122-130 | a written time reads back as the same one exactly when it fits its 15 characters |
| `TimeText.RangeReadsIff` | open-app-filter/src/main.c:258-261 | the same for a start and an end time |
| `Migration.DaysRead` | open-app-filter/src/main.c:85-100 | written weekdays read back as the same days, with either separator |
| `Migration.MarkMeaning` | open-app-filter/src/main.c:239-251 | the days marked are those already marked and those listed |
| `Migration.LoadOneMeaning` | open-app-filter/src/main.c:223-270 | an entry with a semicolon has the days before it, one without the global days; an unreadable time gives no entry |
| `Migration.EntryReads` | open-app-filter/src/main.c:223-251 | a written entry is recognised as new and splits into its days and its time |
| `Migration.LoadOfWrite` | open-app-filter/src/main.c:77-137 | a manual configuration that is written can be loaded and is the same, exactly when every time fits its buffer and the list fits the loader's |
| `Migration.ManualMeaning` | open-app-filter/src/main.c:474-501 | the manual verdict is yes exactly when an entry of that weekday covers the minute, both ends included |
| `Migration.MigrationKeepsConfigIff` | open-app-filter/src/main.c:396-402 | the migrated store can be loaded and gives the same configuration exactly when nothing was old, or every time and the written list fit their buffers |
| `Migration.MigrationKeepsVerdict` | open-app-filter/src/main.c:474-501 | then the manual verdict stays the same on every weekday at every minute |
| `Migration.MigrationIsFinal` | open-app-filter/src/main.c:396-402 | if the list fits, the second load reports no old entry and migrating again changes nothing |
| `Migration.OtherModesStayOld` | open-app-filter/src/main.c:102-140 | outside manual mode the old entries stay |
| `Migration.MigratedFitsIff` | open-app-filter/src/main.c:163-201 | for every manual store that fits, the migrated one fits exactly when nothing was old or its entries with their days written out take at most 1023 characters |
| `Migration.WrittenFitsIff` | open-app-filter/src/main.c:102-137 | what is written fits the loader exactly when the list takes at most 1023 characters and 64 entries |
| `MigrationLimits.FortyWeekEntriesOverflow` | open-app-filter/src/main.c:163-200 | forty whole-week entries fit and no longer fit after migration |
| `MigrationLimits.LongTimeIsChanged` | open-app-filter/src/main.c:122-130 | every old entry with a time longer than 15 characters is changed although both stores fit |
| `MigrationLimits.LongTimeChangesVerdict` | open-app-filter/src/main.c:122-130 | a store whose verdict at midnight the migration turns from no to yes |
| `TimeConfig.FindChar` | open-app-filter/src/main.c:224-224 | the first semicolon, or none |
| `TimeConfig.MarkTokens` | open-app-filter/src/main.c:239-251 | exactly the listed days are marked |
| `TimeConfig.JoinList` | open-app-filter/src/appfilter_config.c:193-201 | the list elements with separators between them |
| `TimeConfig.BuildDays` | open-app-filter/src/main.c:85-99 | the numbers of the marked days with separators between them |
| `TimeConfig.LoadToken` | open-app-filter/src/main.c:214-270 | one entry: own or global days, and its time; an unreadable time is dropped |
| `TimeConfig.LoadList` | open-app-filter/src/main.c:204-270 | the token loop loads every entry in order and notices old ones |
| `TimeConfig.WriteList` | open-app-filter/src/main.c:102-137 | the list loop writes every entry in order |
| `TimeConfig.Settings.LoadFrom` | open-app-filter/src/main.c:163-277 | the loader fills the configuration and reports old entries |
| `TimeConfig.Settings.WriteTo` | open-app-filter/src/main.c:77-137 | what is written back |
| `TimeConfig.Settings.LoadAndMigrate` | open-app-filter/src/main.c:396-402 | a load writes back exactly when an old entry was seen |
| `TimeConfig.Settings.CheckManual` | open-app-filter/src/main.c:474-501 | true exactly when some entry covers the weekday and the minute |
| `Visits.ExpiryKeepsExactly` | open-app-filter/src/appfilter_user.c:718-797 | expiry keeps exactly the records at most a day old that are at most an hour old or at least five minutes long, in order |
| `Visits.ReportedMeaning` | open-app-filter/src/appfilter_netlink.c:196-214 | a report moves the end of one record of its app less than 300 s old and keeps its start, or, if there is none, puts a new record in front |
| `Visits.ReportStaysApart` | open-app-filter/src/appfilter_netlink.c:196-214 | a report keeps the sessions disjoint and ordered |
| `Visits.ExpiryKeepsSessions` | open-app-filter/src/appfilter_user.c:718-797 | so does an expiry round |
| `Visits.SessionsStayApart` | open-app-filter/src/appfilter_netlink.c:196-214 | over every run on a clock that never goes back, records of one app are disjoint, at least 300 s apart and newest first |
| `Visits.ReportedSpans` | open-app-filter/src/appfilter_netlink.c:196-214 | a report extends the groups of its own app and leaves every other app alone |
| `Visits.RecordsAreGroups` | open-app-filter/src/appfilter_netlink.c:196-214 | over every run of reports and expiry rounds the records of an app are the groups of its own moments with gaps under 300 s, as far as expiry keeps them |
| `VisitList.Chain.FindOpen` | open-app-filter/src/appfilter_netlink.c:197-203 | the list walk stops at the first record the report continues |
| `VisitList.Chain.AddNode` | open-app-filter/src/appfilter_user.c:57-68 | the new node becomes the head of a well-linked list |
| `VisitList.Chain.Report` | open-app-filter/src/appfilter_netlink.c:194-214 | the pointer code continues or starts a record as specified |
| `VisitList.Chain.CheckExpire` | open-app-filter/src/appfilter_user.c:718-752 | exactly the records past their time are flagged, the links stay |
| `VisitList.Chain.Flush` | open-app-filter/src/appfilter_user.c:754-797 | walking with `prev` and `next` unlinks exactly the flagged nodes and keeps the others linked in order |
| `VisitList.Chain.ExpireRound` | open-app-filter/src/main.c:804-805 | both passes together |
| `VisitList.Chain.Unlink` | open-app-filter/src/appfilter_user.c:772-784 | one node leaves the list, the links skip it |

## Left out

- Netfilter, socket buffers, netlink, timers, sysctl and ubus registration, locks and allocation failures; each handler is one atomic step and writes to `/proc` succeed.
- Bypass mode of the hook. The laws of the verdict cache over runs are those of specified-apps mode; in all-apps mode a cached drop is returned before rules are looked at again (`AllAppsDecision`).
- The hook's records of visited applications and addresses, TCP resets and logging; the branch at oaf/src/app_filter.c:1649-1651 cannot be reached and is not modelled.
- Gateway.Conn.Hook: works on the fields of the mark instead of its 32 bits; that each bit operation is that field update is what `ConnMark` proves. Ids above 65535 are not modelled.
- Rule table, whitelist and user list are sets; feature matching is a parameter that yields a feature or none.
- Regex: patterns outside the documented syntax (a quantifier without an atom, a descending range, an unclosed class), and characters above 127, whose order depends on the signedness of `char`. `\d` is the ten digits, and DOT, class and quantifier nodes carry no character of their own.
- JSON: strings with `%` (printed text is reused as a format string) and non-hexadecimal digits after `\u`. Buffers are texts with a computed size, and item lists are sequences.
- JsonCode.PrintString: characters above 127 are written as they are, as where `char` is unsigned; where it is signed the C code drops them.
- The daemon's device table is one sequence in the order its chains are walked, a new node at the head of its chain; the pointers of those chains and of the kernel's bucket lists are not modelled (visit lists are).
- SplitProtocol.NobodyBlockedWhenOff: the answers of the other schedules, the devices seen, picked and expired and every reading of the clock are inputs of a tick.
- The text-to-address scanner of the kernel is a parameter.
- The shared status fields for used and remaining time, which are display only.
- Conntrack: jiffies do not wrap around; the refresh of the time of last use by the caller is part of `Touch`.
- Accounting: the 64-bit kernel counters do not wrap; a client's counters start from zero or from any balanced moment after a daily reset.
- Traffic: SQLite itself, retention deletes, backup and restore, the lock file; one ledger is one of the two columns. Retention deletes would remove rows from the sums.
- Migration: numbers are unbounded where the C code would overflow an `int`, and weekday numbers outside 0 to 6 in the global list, which the C code writes out of bounds, are outside `Fits`.
- Mode 2 daily limits are an input of the time-limit modules; their text format is not parsed.
- Visits: application statistics, the feature-list check after an update and the top-five display. One chain stands for one hash slot of one device.

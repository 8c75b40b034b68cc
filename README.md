# EnergyPlus core logic, modelled in Dafny

This project models the self-contained, sequential logic inside EnergyPlus, the building energy
simulation engine, and proves properties of that logic. Each Dafny module follows one source file.
All the modules are verified together.

- **CsvParser** (`csv_parser.dfy`) is the single-pass decoder of schedule files (`Schedule:File`).
  - It covers token classification, whitespace skipping, row skipping, the header and column-count discovery.
  - Each data line is decoded into per-column value lists.
  - Ragged rows and out-of-range columns are recorded as errors.
- **ScheduleManager** is split over six modules:
  - `schedule_data.dfy`: the day types, the schedule records, the moment a lookup resolves to and the timestep index.
  - `schedule_intervals.dfy`: the "Until: HH:MM" fields of a day schedule, which fill a 1440-minute day.
  - `schedule_day_types.dfy`: the "For:" day-type keywords.
  - `schedule_year.dfy`: the day ranges of a Schedule:Year.
  - `schedule_summaries.dfy`: minimum/maximum, value search and annual hours over the day/week/year structure.
  - `schedule_manager.dfy`: the registry class, with its add, clear, lookup and caching operations.
- **HVACInterfaceManager** (`hvac_interface.dfy`): the in-place right rotation of a convergence-log array.
- **HVACManager** (`hvac_manager.dfy`): the zone-inlet convergence logs and the monotonic-trend scans over them.
  - It also covers the air-loop flag rules and the number of adaptive system time steps.
- **ExternalInterface** (`external_interface.dfy`): the co-simulation helpers.
  - These are `ParseString`, `trim`, the start time in seconds and the char-array round trip.
  - It also covers the choice of interface mode.
- **IdfParser** (`idf_parser.dfy`): ASCII upper-casing.
- **HybridModel** (`hybrid_model.dfy`): which unknown the inverse zone model solves for, and the measurement period.
- **WaterUse** (`water_use.dfy`): the hot/cold split at the tap, the connection sums and the plant cut.
  - It also covers the drain temperature and the heat-recovery iteration cap.
- **ExteriorEnergyUse** (`exterior_energy_use.dfy`): exterior lights and equipment per zone time step.
- **ExhaustAirSystemManager** (`exhaust_air_system.dfy`): the zone exhaust control, its sizing and the zone totals.
- **FaultsManager** (`faults_manager.dfy`): fault counting, the schedule-driven fault factors, the faulty chiller supply-water-temperature sensor and the coil SAT sensor lookup.

Code that updates state in place is modelled imperatively:
- Objects whose fields the source updates are classes with `modifies` clauses.
- Loops are methods with invariants, proved against specification functions.

Pure arithmetic and selection rules are functions with lemmas.

Pointers between schedules are modelled as positions in the registry's lists, which the source also keeps as `Num`. The value -1 marks a missing reference.

Floating-point quantities are modelled as `real`.

## Model

| member | source | states |
|---|---|---|
| CsvParser.WhitespaceEnd | src/EnergyPlus/InputProcessing/CsvParser.cc:363-373 | eat_whitespace stops at the end of the text or at the first character it may not skip, never before where it started |
| CsvParser.WhitespaceSkipped | src/EnergyPlus/InputProcessing/CsvParser.cc:363-373 | every character eat_whitespace passes over is a carriage return, or a space or tab that is not the delimiter; never a line feed |
| CsvParser.NewlinesUnchanged | src/EnergyPlus/InputProcessing/CsvParser.cc:313-333 | the line number the parser keeps does not change over a stretch without line feeds |
| CsvParser.NewlinesMonotone | src/EnergyPlus/InputProcessing/CsvParser.cc:313-333 | the line number never decreases as the index moves forward |
| CsvParser.AtForward | src/EnergyPlus/InputProcessing/CsvParser.cc:351-355 | moving the index forward inside a line moves the index into the line by the same amount and keeps the line number and beginning |
| CsvParser.AtBack | src/EnergyPlus/InputProcessing/CsvParser.cc:289-292 | moving the index back inside a line (as parse_value does after a number) moves the index into the line back by the same amount |
| CsvParser.AtWithin | src/EnergyPlus/InputProcessing/CsvParser.cc:265-268 | any position of a line-feed-free stretch is on the same line, at its distance from the line's beginning |
| CsvParser.AtNewline | src/EnergyPlus/InputProcessing/CsvParser.cc:325-329 | passing a line feed adds one to the line number, resets the index into the line to 0 and begins the line just after the line feed |
| CsvParser.LineEndFrom | src/EnergyPlus/InputProcessing/CsvParser.cc:115-129 | the first line feed at or after a position, or the end of the text |
| CsvParser.LineEndFirst | src/EnergyPlus/InputProcessing/CsvParser.cc:115-129 | no line feed lies between a position and its line end |
| CsvParser.SkipKeepsLine | src/EnergyPlus/InputProcessing/CsvParser.cc:115-128 | skipped whitespace changes neither the delimiter count of find_number_columns nor its previous token |
| CsvParser.SingleLineWithoutLineFeedLosesColumn | src/EnergyPlus/InputProcessing/CsvParser.cc:115-128 | as written, "1,2" without a final line feed counts 1 column; the corrected count is 2 |
| CsvParser.CountsAgreeBeforeLastLine | src/EnergyPlus/InputProcessing/CsvParser.cc:115-128 | on any line that a line feed ends, the corrected column count equals the count as written |
| CsvParser.ValueEnd | src/EnergyPlus/InputProcessing/CsvParser.cc:251-263 | parse_value's scan ends at the end of the text or at the first delimiter, line feed or carriage return |
| CsvParser.ValueWithinLine | src/EnergyPlus/InputProcessing/CsvParser.cc:251-263 | the text of a value holds no delimiter, line feed or carriage return |
| CsvParser.RTrim | src/EnergyPlus/InputProcessing/CsvParser.cc:335-349 | rtrim gives a prefix of its input, drops only spaces and tabs, leaves no trailing blank, and empties an all-blank input |
| CsvParser.ParsedValue | src/EnergyPlus/InputProcessing/CsvParser.cc:270-297 | parse_value's decoding never consumes more than the value's text and consumes at least one character of a non-empty text |
| CsvParser.ParsedValueShape | src/EnergyPlus/InputProcessing/CsvParser.cc:279-297 | a number is followed only by spaces in its text; a string is the whole text with its trailing blanks removed |
| CsvParser.TrailingTabKeepsText | src/EnergyPlus/InputProcessing/CsvParser.cc:281-294 | a number followed by a tab is not a number: the value is the trimmed text "12" |
| CsvParser.NatToString | src/EnergyPlus/InputProcessing/CsvParser.cc:229-232 | the decimal text of a count is non-empty and made of digits |
| CsvParser.MismatchMessageText | src/EnergyPlus/InputProcessing/CsvParser.cc:229-232 | the ragged-row message for line 3 of a three-column file holding two values reads "CsvParser - Line 3 - Expected 3 columns, got 2. Error in following line." |
| CsvParser.FirstLineBreak | src/EnergyPlus/InputProcessing/CsvParser.cc:224 | find_first_of("\r\n"): the first line break at or after the line's beginning, None when there is none |
| CsvParser.LineText | src/EnergyPlus/InputProcessing/CsvParser.cc:224-228 | the offending line quoted in the error holds no line break (empty when none follows) |
| CsvParser.TotalValuesAppend | src/EnergyPlus/InputProcessing/CsvParser.cc:241-242 | appending a value to a column adds one to the number of values held |
| CsvParser.NextLine | src/EnergyPlus/InputProcessing/CsvParser.cc:235 | the position after a line is never before it, and strictly after it inside the text |
| CsvParser.LineEndSame | src/EnergyPlus/InputProcessing/CsvParser.cc:115-129 | positions on the same line share the same line end |
| CsvParser.NthLineStart | src/EnergyPlus/InputProcessing/CsvParser.cc:87-102 | where skip_rows stops after n line feeds: never before the start, never past the end |
| CsvParser.NthLineSameLine | src/EnergyPlus/InputProcessing/CsvParser.cc:87-102 | two positions on the same line reach the same place after m line feeds |
| CsvParser.NthLinePassed | src/EnergyPlus/InputProcessing/CsvParser.cc:95-99 | passing one line feed leaves one fewer row to skip |
| CsvParser.NthLineAtEnd | src/EnergyPlus/InputProcessing/CsvParser.cc:93-94 | at the end of the text no rows are left to skip |
| CsvParser.ValueAt | src/EnergyPlus/InputProcessing/CsvParser.cc:247-298 | a value always consumes at least one character and never passes the end of its text |
| CsvParser.ItemsStepEnd | src/EnergyPlus/InputProcessing/CsvParser.cc:219-236 | a line end or the end of the text ends the line's items, and the line end is consumed |
| CsvParser.ItemsStepDelimiter | src/EnergyPlus/InputProcessing/CsvParser.cc:237-239 | a delimiter is a column separator and the line goes on after it |
| CsvParser.ValueAtDecodes | src/EnergyPlus/InputProcessing/CsvParser.cc:265-297 | a value is the decoding of the text from its start to the value's end |
| CsvParser.ItemsStepValue | src/EnergyPlus/InputProcessing/CsvParser.cc:240-243 | a value is decoded and the line goes on after what the decoding consumed |
| CsvParser.ValuesOfCons | src/EnergyPlus/InputProcessing/CsvParser.cc:237-243 | the values of a line are those of its items in order, separators left out |
| CsvParser.PlaceAddsValues | src/EnergyPlus/InputProcessing/CsvParser.cc:208-245 | parse_line keeps the columns, only appends to each, and adds exactly as many values as the line holds |
| CsvParser.ValueBeyondColumnsFails | src/EnergyPlus/InputProcessing/CsvParser.cc:241 | a value after a delimiter on a one-column file is the out-of-range failure of columns.at |
| CsvParser.LineStartOf | src/EnergyPlus/InputProcessing/CsvParser.cc:216 | the beginning of the line holding a position is at or before it |
| CsvParser.AtLineStart | src/EnergyPlus/InputProcessing/CsvParser.cc:325-329 | the beginning of line the parser keeps is just after the last line feed before the index |
| CsvParser.EmptyColumns | src/EnergyPlus/InputProcessing/CsvParser.cc:172-176 | parse_csv creates exactly n empty columns |
| CsvParser.ParseLinesErrors | src/EnergyPlus/InputProcessing/CsvParser.cc:221-234 | parsing the data lines records no error, or exactly two: the message (not continued), then the offending line (continued) |
| CsvParser.ParseLinesExtends | src/EnergyPlus/InputProcessing/CsvParser.cc:160-186 | parsing the data lines keeps the column count and only appends to the columns |
| CsvParser.HeaderOnlyWithOneRowSkipped | src/EnergyPlus/InputProcessing/CsvParser.cc:142 | unless exactly one row is to be skipped the decoded header is empty |
| CsvParser.CsvParser.constructor | src/EnergyPlus/InputProcessing/CsvParser.cc:57-65 | a new parser has no errors |
| CsvParser.CsvParser.EatWhitespace | src/EnergyPlus/InputProcessing/CsvParser.cc:363-373 | eat_whitespace stops where WhitespaceEnd says and keeps the index into the line in step |
| CsvParser.CsvParser.NextToken | src/EnergyPlus/InputProcessing/CsvParser.cc:313-333 | next_token: FILE_END exactly at the end of the text (nothing consumed), DELIMITER, LINE_END (line number up by one, new line begun, index into line 0) or VALUE, each consuming one character |
| CsvParser.CsvParser.LookAhead | src/EnergyPlus/InputProcessing/CsvParser.cc:300-311 | look_ahead answers the next token and leaves every counter as it was |
| CsvParser.CsvParser.FindNumberColumns | src/EnergyPlus/InputProcessing/CsvParser.cc:104-136 | find_number_columns (corrected at the end of the text) answers the column count of the line and puts the counters back |
| CsvParser.CsvParser.SkipRows | src/EnergyPlus/InputProcessing/CsvParser.cc:87-102 | skip_rows consumes exactly rows_to_skip line ends, or the whole text when fewer remain or the count is not positive |
| CsvParser.CsvParser.ParseValue | src/EnergyPlus/InputProcessing/CsvParser.cc:247-298 | parse_value answers the decoded value and the position after what it consumed |
| CsvParser.CsvParser.ScanValue | src/EnergyPlus/InputProcessing/CsvParser.cc:251-263 | the scan stops at the value's end |
| CsvParser.CsvParser.DecodeValue | src/EnergyPlus/InputProcessing/CsvParser.cc:270-297 | the decoding of one value's text, consuming between 1 and all of its characters |
| CsvParser.CsvParser.ParseHeader | src/EnergyPlus/InputProcessing/CsvParser.cc:191-206 | parse_header appends the line's values to the header, drops delimiters and consumes the line end |
| CsvParser.CsvParser.ParseLine | src/EnergyPlus/InputProcessing/CsvParser.cc:208-245 | parse_line places each value in the column its delimiters select (out of range past the last), and a count different from the column count clears success and appends the two errors |
| CsvParser.CsvParser.PlaceLine | src/EnergyPlus/InputProcessing/CsvParser.cc:218-244 | the loop of parse_line places and counts the line's values and stops before its line end |
| CsvParser.CsvParser.PassSeparator | src/EnergyPlus/InputProcessing/CsvParser.cc:237-239 | a delimiter inside a line is consumed as one separator item, and the rest of the line is what follows it |
| CsvParser.CsvParser.PassValue | src/EnergyPlus/InputProcessing/CsvParser.cc:240-242 | a value inside a line is parsed as the next value item, and the rest of the line is what follows it |
| CsvParser.CsvParser.ParseCsv | src/EnergyPlus/InputProcessing/CsvParser.cc:138-189 | (corrected) parse_csv gives the document, success flag and errors DecodeSpec describes, with the column count of the corrected find_number_columns |
| CsvParser.CsvParser.ParseDataLines | src/EnergyPlus/InputProcessing/CsvParser.cc:160-186 | the data lines are parsed until the text ends or a line fails; success holds exactly when no error was recorded |
| CsvParser.CsvParser.SkipPreamble | src/EnergyPlus/InputProcessing/CsvParser.cc:146-156 | a leading byte order mark EF BB BF moves the index by 3; with more than one row to skip, skip_rows then runs |
| CsvParser.CsvParser.FirstRow | src/EnergyPlus/InputProcessing/CsvParser.cc:164-178 | (corrected) the header is read only when there is one, then one empty column is made per column of the next line (counted by the corrected find_number_columns), which is left unconsumed |
| CsvParser.CsvParser.Decode | src/EnergyPlus/InputProcessing/CsvParser.cc:67-85 | (corrected) decode: an empty text records "CSV File is empty", fails and gives null; otherwise the result, success flag and errors are those DecodeSpec gives, with the corrected column count |
| ExternalInterface.Find | src/EnergyPlus/ExternalInterface.cc:360 | str.find(';', iSta): the first index at or after the start holding the character, or none exactly when no later character is it |
| ExternalInterface.Piece | src/EnergyPlus/ExternalInterface.cc:358-366 | one element of ParseString: reading resumes at or after where it started and never past the end |
| ExternalInterface.SplitFrom | src/EnergyPlus/ExternalInterface.cc:358-367 | ParseString's loop yields exactly nEle elements |
| ExternalInterface.ParseString | src/EnergyPlus/ExternalInterface.cc:339-368 | ParseString fills nEle elements, those SplitFrom reads from the start of the string |
| ExternalInterface.ReadElement | src/EnergyPlus/ExternalInterface.cc:358-365 | one pass of ParseString's loop yields exactly the element and the next start that Piece defines |
| ExternalInterface.JoinTerminated | src/EnergyPlus/ExternalInterface.cc:339-368 | a ';'-terminated list is longer than its first piece |
| ExternalInterface.MapUpper | src/EnergyPlus/ExternalInterface.cc:366 | upper-casing a list keeps its length |
| ExternalInterface.LastPiece | src/EnergyPlus/ExternalInterface.cc:362-366 | without a further ';' the element is the rest of the string without its last character, upper-cased, and the element after it is empty |
| ExternalInterface.SkipFrom | src/EnergyPlus/ExternalInterface.cc:358-365 | where reading resumes after n elements lies between the start and the end |
| ExternalInterface.PieceAt | src/EnergyPlus/ExternalInterface.cc:359-366 | a ';'-free piece followed by ';' is read as that piece upper-cased, and reading resumes after the ';' |
| ExternalInterface.SplitJoinedAt | src/EnergyPlus/ExternalInterface.cc:358-367 | a ';'-terminated list anywhere in a string is read back as its pieces upper-cased, and reading resumes right after it |
| ExternalInterface.ParseJoined | src/EnergyPlus/ExternalInterface.cc:339-368 | ParseString of a ';'-terminated list returns exactly its pieces upper-cased |
| ExternalInterface.SplitPrefix | src/EnergyPlus/ExternalInterface.cc:358-367 | reading n + m elements is reading n, then m from where the first n stopped |
| ExternalInterface.ParseUnterminatedLast | src/EnergyPlus/ExternalInterface.cc:362-366 | an unterminated last piece loses its final character, and an element asked for beyond the text is empty |
| ExternalInterface.OccursAtStart | src/EnergyPlus/ExternalInterface.cc:358-367 | a string starts with each of its prefixes |
| ExternalInterface.LastPieceAfter | src/EnergyPlus/ExternalInterface.cc:362-366 | after a ';'-terminated list, an unterminated piece is read without its final character, then an empty element |
| ExternalInterface.Trim | src/EnergyPlus/ExternalInterface.cc:1690-1695 | trim strips leading and trailing spaces only: the result is a slice with only spaces around it, beginning and ending with a non-space; an empty or all-space string is the failing substr(npos) |
| ExternalInterface.FirstNotSpace | src/EnergyPlus/ExternalInterface.cc:1692 | find_first_not_of(' '): the first non-space at or after a position, none exactly when all are spaces |
| ExternalInterface.LastNotSpace | src/EnergyPlus/ExternalInterface.cc:1693 | find_last_not_of(' '): the last non-space, none exactly when all are spaces |
| ExternalInterface.TrimIdempotent | src/EnergyPlus/ExternalInterface.cc:1690-1695 | trimming a trimmed string changes nothing |
| ExternalInterface.TrimPadded | src/EnergyPlus/ExternalInterface.cc:1690-1695 | spaces added on either side of a trimmed text are removed again |
| ExternalInterface.CumDays | src/EnergyPlus/ExternalInterface.cc:1710-1793 | the cumulative days before a month lie in 0 .. 335 (0 for a month outside 1 .. 12) |
| ExternalInterface.CumDaysAreMonthSums | src/EnergyPlus/ExternalInterface.cc:1710-1793 | each table entry is the sum of the lengths of the months before it |
| ExternalInterface.LeapOffset | src/EnergyPlus/ExternalInterface.cc:1710-1793 | the leap-year table is the ordinary one plus a day from March on |
| ExternalInterface.StartTimeWithinYear | src/EnergyPlus/ExternalInterface.cc:1795-1797 | for a date of the year the start of the hour, in seconds, lies inside the year |
| ExternalInterface.StartTimeSteps | src/EnergyPlus/ExternalInterface.cc:1795-1797 | the next hour starts 3600 seconds later and the next day 86400 seconds later |
| ExternalInterface.CharArrayFromString | src/EnergyPlus/ExternalInterface.cc:2363-2367 | getCharArrayFromString keeps the length: no terminating NUL |
| ExternalInterface.StringFromCharArray | src/EnergyPlus/ExternalInterface.cc:2369-2373 | getStringFromCharArray gives the characters before the first NUL |
| ExternalInterface.CString | src/EnergyPlus/ExternalInterface.cc:2372 | a C string is the NUL-free prefix up to the first NUL |
| ExternalInterface.CharArrayRoundTrip | src/EnergyPlus/ExternalInterface.cc:2363-2373 | a string without NUL survives the round trip through a char array |
| ExternalInterface.CharArrayTruncatesAtNul | src/EnergyPlus/ExternalInterface.cc:2363-2373 | with an embedded NUL the round trip keeps only the text before it |
| ExternalInterface.SelectMode | src/EnergyPlus/ExternalInterface.cc:207-251 | BCVTB exactly when one BCVTB and no FMU export; FMU export exactly when no BCVTB and one export; FMU import exactly when one import and no export; an error for a clashing pair or more than one of a kind |
| ExternalInterface.SelectModeConsistent | src/EnergyPlus/ExternalInterface.cc:207-251 | no error exactly when every count is at most one and no clashing pair exists; then the active interfaces exclude each other |
| ExternalInterface.ExternalInterfaceData.GetExternalInterfaceInput | src/EnergyPlus/ExternalInterface.cc:161-258 | the counters grow by the number of objects of each kind, and the mode is selected from the totals |
| ExternalInterface.ExternalInterfaceData.CountInterfaces | src/EnergyPlus/ExternalInterface.cc:163-183 | each counter grows by the number of objects whose first field names its kind, case-insensitively |
| ExternalInterface.ExternalInterfaceData.SelectInterfaceMode | src/EnergyPlus/ExternalInterface.cc:207-251 | the flags SelectMode selects are set, the others keep their values, and errors are raised as SelectMode says |
| ExternalInterface.CountKind | src/EnergyPlus/ExternalInterface.cc:176-182 | the count of objects of a kind is at most the number of objects |
| ExternalInterface.CountKindSnoc | src/EnergyPlus/ExternalInterface.cc:176-182 | one more object adds one to its own kind's count |
| HVACInterfaceManager.RotatedRight | src/EnergyPlus/HVACInterfaceManager.hh:143-150 | the reference rotation keeps the length |
| HVACInterfaceManager.RotatedLeft | src/EnergyPlus/HVACInterfaceManager.hh:143-150 | the inverse rotation keeps the length |
| HVACInterfaceManager.RShift1 | src/EnergyPlus/HVACInterfaceManager.hh:143-150 | rshift1 leaves the array rotated right by one: slot 0 holds the old last element and every other slot the old element before it |
| HVACInterfaceManager.RotatedRightIsPermutation | src/EnergyPlus/HVACInterfaceManager.hh:143-150 | a rotation keeps every element with its multiplicity |
| HVACInterfaceManager.RotatedLeftUndoesRight | src/EnergyPlus/HVACInterfaceManager.hh:143-150 | rotating left undoes rshift1 |
| HVACInterfaceManager.RotatedRightN | src/EnergyPlus/HVACInterfaceManager.hh:143-150 | k rotations keep the length |
| HVACInterfaceManager.RotatedRightNSplit | src/EnergyPlus/HVACInterfaceManager.hh:143-150 | after k rotations the last k elements lead, in their order, followed by the rest |
| HVACInterfaceManager.FullCircle | src/EnergyPlus/HVACInterfaceManager.hh:143-150 | as many rotations as the array is long restore it |
| HVACInterfaceManager.HVACInterfaceManagerData.constructor | src/EnergyPlus/HVACInterfaceManager.hh:154-159 | the set-up flag starts false, the common-pipe list empty, the scratch array ConvergLogStackDepth long |
| HVACInterfaceManager.HVACInterfaceManagerData.ClearState | src/EnergyPlus/HVACInterfaceManager.hh:169-173 | clear_state sets CommonPipeSetupFinished to false and empties PlantCommonPipe |
| HVACManager.PushedFront | src/EnergyPlus/HVACManager.cc:2915-2919 | one push keeps the log's depth |
| HVACManager.PushIsRotationThenSet | src/EnergyPlus/HVACManager.cc:2915-2919 | a push is rshift1 followed by writing the new value into slot 0 |
| HVACManager.PushAll | src/EnergyPlus/HVACManager.cc:2904-2934 | any number of pushes keeps the log's depth |
| HVACManager.PushAllContents | src/EnergyPlus/HVACManager.cc:2904-2934 | after up to depth pushes the log holds the pushed values newest first, then the oldest surviving entries in their order |
| HVACManager.PushFrontLog | src/EnergyPlus/HVACManager.cc:2915-2919 | one log pushed in place through a copy: the node value in slot 0, slot k the old slot k-1, the oldest dropped |
| HVACManager.InletNodeLog.constructor | src/EnergyPlus/HVACManager.cc:2904-2934 | a new inlet node record has three distinct logs of depth ConvergLogStackDepth |
| HVACManager.UpdateZoneInletConvergenceLog | src/EnergyPlus/HVACManager.cc:2904-2934 | every zone inlet node pushes its node's humidity ratio, mass flow rate and temperature onto its three logs, and no other log changes |
| HVACManager.PushNodeValues | src/EnergyPlus/HVACManager.cc:2912-2931 | one inlet node's three pushes, each of the value its node holds |
| HVACManager.MonotonicDecreaseFound | src/EnergyPlus/HVACManager.cc:1079-1086 | the decrease flag survives exactly when history[k-1] <= history[k] for every k |
| HVACManager.MonotonicIncreaseFound | src/EnergyPlus/HVACManager.cc:1096-1103 | the increase flag survives exactly when history[k-1] >= history[k] for every k |
| HVACManager.FallingPushesAreFlagged | src/EnergyPlus/HVACManager.cc:1079-1086 | a full log of pushes that never rose over time is found monotonically decreasing |
| HVACManager.ReverseAt | src/EnergyPlus/HVACManager.cc:2904-2934 | position k of the reversed pushes is the k-th newest push |
| HVACManager.ResolveLockoutFlags | src/EnergyPlus/HVACManager.cc:2044-2053 | EconoLockout is set exactly on the loops with an active economizer and a compressor or heating lockout request, other fields and loops unchanged; SimAir becomes true when any such loop exists and is never cleared |
| HVACManager.ResetHVACControl | src/EnergyPlus/HVACManager.cc:2068-2074 | with no primary air system nothing changes; otherwise every loop's NightVent and LoopFlowRateSet are false and every ReqSupplyFrac is 1 |
| HVACManager.ResetTerminalUnitFlowLimits | src/EnergyPlus/HVACManager.cc:1892-1907 | every cooled or heated terminal-unit inlet node gets MaxAvail = Max and MinAvail = Min; every other node is unchanged |
| HVACManager.SetAnyContFan | src/EnergyPlus/HVACManager.cc:2803-2813 | AnyContFan is true for a non-unitary loop, the cycling-fan schedule's maximum above 0 for a unitary loop with one, false otherwise |
| HVACManager.SetZonalSystemOnly | src/EnergyPlus/HVACManager.cc:2814-2829 | a zone with no air-loop inlet and as many inlets as exhausts becomes zonal-only; others keep their flag |
| HVACManager.SetFanOperation | src/EnergyPlus/HVACManager.cc:2876-2882 | a loop with a cycling-fan schedule becomes Cycling when the schedule's value is 0, Continuous otherwise |
| HVACManager.SetNoHeatToReturnAir | src/EnergyPlus/HVACManager.cc:2883-2901 | a controlled zone gets NoHeatToReturnAir true, false exactly when it is not zonal-only and a continuous-fan air loop feeds one of its inlets; uncontrolled zones are left alone |
| HVACManager.SetHeatToReturnAirFlag | src/EnergyPlus/HVACManager.cc:2782-2902 | nothing happens before the air loops were simulated once; the one-time pass sets AnyContFan and ZonalSystemOnly and clears the one-time flag; every call then sets the fan operation and NoHeatToReturnAir |
| HVACManager.FirstPassNoHeatRule | src/EnergyPlus/HVACManager.cc:2814-2829 | a zone marked zonal-only on the first pass is never fed by an air loop, so the zonal-only test never hides a continuous-fan loop |
| HVACManager.AdaptSysTimeStep | src/EnergyPlus/HVACManager.cc:302-319 | when the zone temperature change exceeds the limit (not at kick-off) the count N is at most LimitNumSysSteps and at least 2 unless capped there, the step is max(zone step / N, MinTimeStepSys) (the previous step, clamped, when N is not positive), the step in seconds is 3600 times it, and the history and shortening flags flip; otherwise N = 1 and nothing else changes |
| HVACManager.NoFewerStepsSuffice | src/EnergyPlus/HVACManager.cc:305-306 | N never exceeds LimitNumSysSteps and N - 1 steps would leave a change per step of at least the limit; with PerStepChangeBelowLimit, N = min(least sufficient count, LimitNumSysSteps), which is min(int(change / limit + 1), LimitNumSysSteps) |
| HVACManager.PerStepChangeBelowLimit | src/EnergyPlus/HVACManager.cc:305-306 | unless the count hits LimitNumSysSteps, the change per system step stays below the limit |
| HVACManager.StepsTileZoneStep | src/EnergyPlus/HVACManager.cc:308-311 | when the even split is at least MinTimeStepSys the N system steps add up to the zone step |
| IdfParser.UpperChar | src/EnergyPlus/InputProcessing/IdfParser.hh:145 | a lower-case letter becomes its upper-case letter (code minus 32); every other character is kept |
| IdfParser.XorCaseBitLowers | src/EnergyPlus/InputProcessing/IdfParser.hh:145 | c ^ 0x20 on 'a' .. 'z' is subtracting 32 |
| IdfParser.ToUpper | src/EnergyPlus/InputProcessing/IdfParser.hh:140-148 | upper-casing keeps the length |
| IdfParser.ConvertToUpper | src/EnergyPlus/InputProcessing/IdfParser.hh:140-148 | convertToUpper keeps the length and maps every character on its own, giving ToUpper |
| IdfParser.ToUpperHasNoLower | src/EnergyPlus/InputProcessing/IdfParser.hh:140-148 | no lower-case letter survives |
| IdfParser.ToUpperIdempotent | src/EnergyPlus/InputProcessing/IdfParser.hh:140-148 | upper-casing twice is upper-casing once |
| IdfParser.ToUpperAppend | src/EnergyPlus/InputProcessing/IdfParser.hh:140-148 | upper-casing distributes over concatenation |
| IdfParser.ToUpperFixedPoint | src/EnergyPlus/InputProcessing/IdfParser.hh:140-148 | a string is its own upper case exactly when it holds no lower-case letter |
| HybridModel.SourceFlags | src/EnergyPlus/HybridModel.cc:182-226 | at most one measurement source is chosen; temperature only when thermal mass is not also requested, humidity ratio only without temperature, CO2 only without either |
| HybridModel.SelectCalcFlags | src/EnergyPlus/HybridModel.cc:151-266 | thermal mass is computed exactly when requested with a measured temperature; infiltration and people count each use at most one source, never temperature alongside thermal mass, and only when requested |
| HybridModel.HybridInputErrors | src/EnergyPlus/HybridModel.cc:161-245 | an error is raised exactly when two options are both Yes, thermal mass lacks a measured temperature, or infiltration or people count lacks every measurement |
| HybridModel.InfiltrationSourceChosen | src/EnergyPlus/HybridModel.cc:182-226 | infiltration requested with some measurement and no thermal mass always enables one infiltration calculation |
| HybridModel.ValidInputSolvesOneUnknown | src/EnergyPlus/HybridModel.cc:159-266 | an input without errors asks for at most one unknown, and some calculation is enabled exactly when one option is Yes |
| HybridModel.HybridDayOfYear | src/EnergyPlus/HybridModel.cc:364-389 | the day of year adds the cumulative month offset, and a month outside 1..12 adds nothing |
| HybridModel.HybridDayOfYearIsCalendarDay | src/EnergyPlus/HybridModel.cc:371 | the offset table equals the days before each month of a non-leap year, so every valid date lands in 1..365 |
| HybridModel.ChooseSource | src/EnergyPlus/HybridModel.cc:228-266 | the scenario's flags are SourceFlags, and the missing-measurement error is raised exactly when the calculation is requested without any measurement |
| HybridModel.ChooseCalculations | src/EnergyPlus/HybridModel.cc:151-266 | the seven flags set step by step equal SelectCalcFlags, and ErrorsFound equals HybridInputErrors |
| HybridModel.HybridModelZone.constructor | src/EnergyPlus/HybridModel.hh:95-109 | a new zone has every calculation flag off, no supply-air terms and day-of-year range 0 to 0 |
| HybridModel.HybridModelZone.SetCalculationFlags | src/EnergyPlus/HybridModel.cc:151-390 | the zone's flags are SelectCalcFlags, FlagHybridModel is their disjunction, supply-air terms are included exactly under the three measured-supply conditions, and the day-of-year range is set only when some calculation is enabled |
| FaultsManager.SumPositiveIffSomeCount | src/EnergyPlus/FaultsManager.cc:287-291 | the total number of fault objects is positive exactly when some fault type has an object, which is what AnyFaultsInModel records |
| FaultsManager.SumPrefixAtMost | src/EnergyPlus/FaultsManager.cc:244-251 | the economizer count (the first five types) never exceeds the total fault count |
| FaultsManager.FaultsManagerData.CheckAndCountFaults | src/EnergyPlus/FaultsManager.cc:239-294 | on a second call nothing changes; on the first, NumFaults is the sum over all sixteen types, NumFaultyEconomizer the sum over the first five, each other type keeps its own count, AnyFaultsInModel holds exactly when some type has an object, and the run-once flag is set |
| FaultsManager.FaultFac | src/EnergyPlus/FaultsManager.cc:1840-1846 | the fault factor is 0 whenever the availability schedule is not positive |
| FaultsManager.CalFaultOffsetAct | src/EnergyPlus/FaultsManager.cc:1830-1851 | the actual offset is 0 while the fault is unavailable and the full nominal offset when available without a severity schedule |
| FaultsManager.OffsetActWithinNominal | src/EnergyPlus/FaultsManager.cc:1830-1851 | with a severity in 0..1 the actual offset keeps the nominal offset's sign and never exceeds it in magnitude |
| FaultsManager.ReducedFactor | src/EnergyPlus/FaultsManager.cc:1875-1878 | the reduction factor never exceeds 1, is 1 when the fault factor is not positive, is nominal/factor when that is below 1 and 1 when it is not: min(nominal/factor, 1) |
| FaultsManager.CalFoulingFactor | src/EnergyPlus/FaultsManager.cc:1853-1880 | the fouling factor never exceeds 1 and is 1 while the fault is unavailable |
| FaultsManager.CalFaultyTowerFoulingFactor | src/EnergyPlus/FaultsManager.cc:1882-1908 | the tower UA reduction factor never exceeds 1 and is 1 while the fault is unavailable |
| FaultsManager.MoreSevereFoulsMore | src/EnergyPlus/FaultsManager.cc:1875 | a larger fault factor never gives a larger fouling factor, for a non-negative nominal factor |
| FaultsManager.FaultFraction | src/EnergyPlus/FaultsManager.cc:1910-1927 | the fraction is the severity value while available and 0 otherwise; it is the fault factor FaultFac with the severity schedule present, and lies in [0, 1] for a severity in [0, 1] |
| FaultsManager.FanCurveWithinFivePercent | src/EnergyPlus/FaultsManager.cc:1988-2002 | for a positive design pressure rise the curve covers the rated point exactly when its value is strictly within 5% of the design rise, and then it is positive |
| FaultsManager.VariableFlowGuardAdmitsZeroDivisor | src/EnergyPlus/FaultsManager.cc:1975-1977 | the variable-flow guard as written admits an inlet temperature equal to the fault-free outlet temperature, the divisor of the flow recomputation |
| FaultsManager.CalFaultChillerSWT | src/EnergyPlus/FaultsManager.cc:1929-1986 | the faulty outlet temperature is the fault-free one minus the offset; constant flow keeps the flow and recomputes the load, variable flow recomputes the flow from the fault-free load; both are 0 when the guard fails |
| FaultsManager.PositiveOffsetRaisesLoad | src/EnergyPlus/FaultsManager.cc:1975-1978 | under the corrected guard, a positive offset and load give a positive recomputed flow and a faulty load larger than the fault-free one |
| FaultsManager.SetFaultyCoilSATSensor | src/EnergyPlus/FaultsManager.cc:2004-2020 | the flag is set exactly when some fault names the coil's type and name, and the index is then the first such fault (1-based), else 0 |
| WaterUse.HotFlowRate | src/EnergyPlus/WaterUse.cc:1009-1135 | the hot share of a positive total flow lies between 0 and the total; it is 0 when the target is within EPSILON of the cold temperature, and the whole total when the target is at or above the hot temperature or the hot water is not EPSILON warmer than the cold |
| WaterUse.ProportionWithin | src/EnergyPlus/WaterUse.cc:1131 | the proportional mix total*(target-cold)/(hot-cold) lies between 0 and the total when 0 < target-cold < hot-cold |
| WaterUse.EquipmentFlowRates | src/EnergyPlus/WaterUse.cc:963-1146 | the equipment's total flow and target temperature follow its schedules, hot plus cold flow equals the total, the supply temperatures are the ones given, and the drain values are untouched |
| WaterUse.SplitWithinTotal | src/EnergyPlus/WaterUse.cc:1009-1140 | with a positive total flow and hot control both the hot and the cold flow lie between 0 and the total |
| WaterUse.NoHotWithoutControl | src/EnergyPlus/WaterUse.cc:1141-1145 | without a positive total flow or without hot control all the flow is cold and the mixed temperature is the target |
| WaterUse.MixedTempMeetsTarget | src/EnergyPlus/WaterUse.cc:1125-1138 | when the target lies strictly between the cold and hot temperatures (more than EPSILON above cold) the mixed temperature equals the target |
| WaterUse.CalcEquipmentFlowRates | src/EnergyPlus/WaterUse.cc:963-1146 | the computed equipment state is EquipmentFlowRates of the old state and the current conditions |
| WaterUse.HotShare | src/EnergyPlus/WaterUse.cc:1009-1135 | the branch-by-branch hot flow equals HotFlowRate |
| WaterUse.Requested | src/EnergyPlus/WaterUse.cc:1281-1288 | each equipment of the list is replaced by its requested flows, position by position |
| WaterUse.SumOfFrame | src/EnergyPlus/WaterUse.cc:1281-1288 | a connection's sum only depends on the equipment the connection lists |
| WaterUse.HotCutSums | src/EnergyPlus/WaterUse.cc:1309-1315 | cutting every listed equipment's hot flow by a fraction scales the hot sum by that fraction and keeps the total sum |
| WaterUse.SumOfSplit | src/EnergyPlus/WaterUse.cc:1288-1290 | when each equipment's hot and cold flows add to its total, the connection's hot and cold sums add to its total sum |
| WaterUse.DrainHeatAbove | src/EnergyPlus/WaterUse.cc:1350-1359 | when every drain temperature is at least lo, the summed drain heat is at least lo times the summed drain flow |
| WaterUse.DrainHeatBelow | src/EnergyPlus/WaterUse.cc:1350-1359 | when every drain temperature is at most hi, the summed drain heat is at most hi times the summed drain flow |
| WaterUse.DrainVolumeAsWrittenIsNotAVolume | src/EnergyPlus/WaterUse.cc:1367 | the drain volume flow as written multiplies the mass flow by the density, so 1 kg/s at 1000 kg/m3 gives 1000 instead of 0.001 |
| WaterUse.VolFlowRate | src/EnergyPlus/WaterUse.cc:1331 | a volume flow (the cold request to a tank, the corrected drain volume) times the density gives back the mass flow, and it is non-negative for a non-negative mass flow |
| WaterUse.PlantCutAsWrittenDisagreesWithEquipment | src/EnergyPlus/WaterUse.cc:1302-1323 | after a plant cut as written the connection's hot flow stays at the request (1.0) while its equipment's hot flows add up to the granted 0.5 |
| WaterUse.HotCut | src/EnergyPlus/WaterUse.cc:1312-1314 | a cut equipment's hot flow is scaled by the fraction, its cold flow makes up the rest of the unchanged total, and the drain is untouched |
| WaterUse.PlantCutMatchesGrant | src/EnergyPlus/WaterUse.cc:1302-1323 | after the cut the equipment's hot flows add up to the granted flow, the total is kept, and the cold sum grows by what the hot sum lost |
| WaterUse.DrainTempWithinDrains | src/EnergyPlus/WaterUse.cc:1361-1365 | with a positive drain flow the connection's drain temperature lies between the lowest and the highest equipment drain temperature |
| WaterUse.HeatRecoveryIterations | src/EnergyPlus/WaterUse.cc:244-262 | the loop runs between 1 and MaxIterations+1 passes; it converges exactly when the last error is below the tolerance, every earlier error was not, and it gives up only after MaxIterations+1 passes |
| WaterUse.WaterConnection.SumEquipmentFlows | src/EnergyPlus/WaterUse.cc:1278-1288 | every listed equipment gets its requested flows, unlisted equipment is untouched, and the returned sums are the connection's cold and hot sums |
| WaterUse.WaterConnection.CutHotFlows | src/EnergyPlus/WaterUse.cc:1309-1322 | every listed equipment is cut by the fraction, unlisted equipment is untouched, and the hot sum becomes the granted flow |
| WaterUse.WaterConnection.CalcConnectionsFlowRates | src/EnergyPlus/WaterUse.cc:1268-1339 | (corrected) every listed equipment gets its requested flows (uncut on the first HVAC iteration), unlisted equipment is untouched; the connection's cold and total flows are the sums over its equipment and the total is the requested total; on a plant connection the hot flow is the plant's answer on the first iteration and whenever something was requested, and the equipment hot sum otherwise; with a supply tank the cold flow is requested from the tank as a volume and the tank's answer is recorded |
| WaterUse.WaterConnection.CutForPlantSupply | src/EnergyPlus/WaterUse.cc:1292-1327 | on the first HVAC iteration of a plant connection the hot flow becomes the plant's answer and the equipment is untouched; on a later iteration with a positive request the hot flow becomes the plant's flow and stays the equipment sum; each equipment's total and the total sum are kept and unlisted equipment is untouched |
| WaterUse.WaterConnection.RequestFromTank | src/EnergyPlus/WaterUse.cc:1329-1339 | with a supply tank the cold volume flow is VolFlowRate of the cold mass flow and is the request returned to the tank, the tank's available volume is recorded and converted back to a mass (the cold mass flow when the tank gives all that was asked); without a tank nothing changes and nothing is requested |
| WaterUse.WaterConnection.DrainEquipment | src/EnergyPlus/WaterUse.cc:1349-1359 | every listed equipment becomes EquipmentDrain of its old state, unlisted equipment is untouched, and the returned sums are the connection's drain flow and drain heat |
| WaterUse.WaterConnection.CalcConnectionsDrainTemp | src/EnergyPlus/WaterUse.cc:1342-1368 | every listed equipment computes its drain (EquipmentDrain), unlisted equipment is untouched, the drain flow is the equipment sum, the drain temperature is the flow-weighted mean (the hot temperature without flow), and the drain volume is VolFlowRate of the drain flow |
| WaterUse.Gains | src/EnergyPlus/WaterUse.cc:1160-1201 | outside a zone or without flow no gain is made; no sensible gain without a sensible-fraction schedule; no latent gain without a latent-fraction schedule, and then the moisture fields keep their old values; each energy is its rate times the system time step, and the moisture rate is the moisture mass per time step |
| WaterUse.EquipmentDrain | src/EnergyPlus/WaterUse.cc:1148-1213 | only the drain fields and the gains change; the gains are Gains; outside a zone or without flow the drain flow is the total and the drain temperature the mixed temperature; in a zone with flow the drain flow plus the moisture evaporated is the total |
| WaterUse.DrainHeatBalance | src/EnergyPlus/WaterUse.cc:1204-1211 | in a zone with flow and a non-zero drain, the heat the drain carries plus the sensible and latent gains equals the heat of the water used |
| WaterUse.MoistureWithinFlow | src/EnergyPlus/WaterUse.cc:1186-1204 | with a latent fraction in [0, 1] and zone air that can still take up water, the moisture evaporated and the drain flow both lie between 0 and the total flow |
| WaterUse.CalcGains | src/EnergyPlus/WaterUse.cc:1160-1201 | the gains computed branch by branch are Gains |
| WaterUse.CalcEquipmentDrainTemp | src/EnergyPlus/WaterUse.cc:1148-1213 | the equipment state computed branch by branch is EquipmentDrain of the old state |
| WaterUse.Drained | src/EnergyPlus/WaterUse.cc:1351-1356 | each equipment of the list is replaced by its drained state, position by position |
| ExteriorEnergyUse.TruncToInt | src/EnergyPlus/ExteriorEnergyUse.cc:160 | the conversion to `int` truncates toward zero: the result is the whole part of the value, on the same side of zero |
| ExteriorEnergyUse.AsWrittenAcceptsNegativeFraction | src/EnergyPlus/ExteriorEnergyUse.cc:160-165 | the minimum check as written rejects exactly the minima at or below -1, so a schedule with minimum -0.5 passes |
| ExteriorEnergyUse.ExteriorLightsConfig | src/EnergyPlus/ExteriorEnergyUse.cc:154-182 | a blank control field or "ScheduleNameOnly" gives schedule-only control and "AstronomicalClock" the astronomical clock; any other keyword leaves the light's prior mode; the subcategory is the fourth field when present and "General" otherwise, and an error is found exactly for a blank or unknown schedule or a negative schedule minimum |
| ExteriorEnergyUse.DemandLimitCapsPower | src/EnergyPlus/ExteriorEnergyUse.cc:465-471 | without an EMS override a demand-managed light never draws more than its demand limit |
| ExteriorEnergyUse.EmsOverridesDemandLimit | src/EnergyPlus/ExteriorEnergyUse.cc:473-474 | the EMS power override is applied after the demand cap, so it can exceed the demand limit |
| ExteriorEnergyUse.CurrentUseIsPowerTimesStep | src/EnergyPlus/ExteriorEnergyUse.cc:476-477 | a light's energy over the step is its final power times the zone time step in seconds |
| ExteriorEnergyUse.AstroClockDarkWhileSunUp | src/EnergyPlus/ExteriorEnergyUse.cc:448-453 | an astronomical-clock light draws nothing while the sun is up, unless EMS overrides it or a negative demand limit caps it below zero |
| ExteriorEnergyUse.AcceptedScheduleGivesNonNegativeUse | src/EnergyPlus/ExteriorEnergyUse.cc:154-165 | a light whose schedule passed the corrected minimum check, with a non-negative design level, never reports negative power or energy |
| ExteriorEnergyUse.SumsGatheredOnlyInWeatherRuns | src/EnergyPlus/ExteriorEnergyUse.cc:480-492 | the tabular sums are left unchanged during warm-up, without output reporting, or outside a weather run period |
| ExteriorEnergyUse.ReportLight | src/EnergyPlus/ExteriorEnergyUse.cc:438-492 | the step-by-step report of one light equals ReportedLight |
| ExteriorEnergyUse.ReportedEquipment | src/EnergyPlus/ExteriorEnergyUse.cc:495-500 | equipment keeps its design level, its energy is power times the step, and a zero schedule value gives no power and no energy |
| ExteriorEnergyUse.ReportExteriorEnergyUse | src/EnergyPlus/ExteriorEnergyUse.cc:429-501 | every light becomes ReportedLight of its old state and every equipment ReportedEquipment of its old state |
| ExhaustAirSystemManager.NonNegative | src/EnergyPlus/ExhaustAirSystemManager.cc:581-586 | a negative schedule value is reset to 0 and a non-negative one is kept |
| ExhaustAirSystemManager.MinFlowFraction | src/EnergyPlus/ExhaustAirSystemManager.cc:589-599 | the minimum flow fraction is never negative |
| ExhaustAirSystemManager.AsWrittenIgnoresExhaustFraction | src/EnergyPlus/ExhaustAirSystemManager.cc:578-588 | as written, an exhaust fraction schedule of 1.0 with no minimum-fraction schedule yields a flow fraction of 0 |
| ExhaustAirSystemManager.ScheduledFraction | src/EnergyPlus/ExhaustAirSystemManager.cc:578-603 | (corrected) the scheduled fraction is the larger of the clipped exhaust fraction and the minimum fraction: never below either of them (so never negative), and equal to one of them |
| ExhaustAirSystemManager.FlowFraction | src/EnergyPlus/ExhaustAirSystemManager.cc:577-616 | (corrected) an unavailable control has fraction 0; a zone colder than its limit falls back to the minimum fraction; otherwise the corrected scheduled fraction applies; never negative |
| ExhaustAirSystemManager.DefaultScheduleRunsAtDesignFlow | src/EnergyPlus/ExhaustAirSystemManager.cc:447-452 | with the exhaust fraction at its default 1.0 and no minimum or temperature-limit schedule an available control runs at the full fraction 1.0 |
| ExhaustAirSystemManager.ExhaustMassFlow | src/EnergyPlus/ExhaustAirSystemManager.cc:570-627 | (corrected) an unavailable control exhausts nothing; otherwise the flow is the supply or design flow times the corrected fraction |
| ExhaustAirSystemManager.SupplyFlowRate | src/EnergyPlus/ExhaustAirSystemManager.cc:619-623 | the supply flow is the sum of the supply nodes' mass flows |
| ExhaustAirSystemManager.ComputeExhaustFlows | src/EnergyPlus/ExhaustAirSystemManager.cc:570-639 | (corrected) the mass flow is ExhaustMassFlow, balanced plus unbalanced flow equal it, and the balanced part is the balanced fraction of it, or 0 without that schedule |
| ExhaustAirSystemManager.CalcZoneHVACExhaustControl | src/EnergyPlus/ExhaustAirSystemManager.cc:549-666 | (corrected) a non-negative flow ratio scales the previous flows and the inlet flow; otherwise the inlet flow is recomputed as ExhaustMassFlow and split: the balanced flow is the mass flow times the balanced fraction (0 without that schedule) and the unbalanced flow the rest; the outlet copies the inlet (the same node may be both), and no other node or control changes |
| ExhaustAirSystemManager.SizeExhaustControlFlow | src/EnergyPlus/ExhaustAirSystemManager.cc:711-728 | the design flow is the sum of the supply nodes' maximum flows under FollowSupply and the zone's minimum outdoor air otherwise; other controls are untouched |
| ExhaustAirSystemManager.UpdateZoneExhaustControl | src/EnergyPlus/ExhaustAirSystemManager.cc:730-738 | each zone's exhaust grows by the total flow of its controls and its balanced exhaust by their balanced flow |
| ExhaustAirSystemManager.BalancedWithinTotal | src/EnergyPlus/ExhaustAirSystemManager.cc:734-736 | with non-negative unbalanced flows a zone's added balanced exhaust never exceeds its added total exhaust |
| ScheduleData.DayTypeIndex | src/EnergyPlus/ScheduleManager.hh:72-89 | every day type has a number in 0 .. Num-1, and only Unused has 0 |
| ScheduleData.DayTypeOf | src/EnergyPlus/ScheduleManager.hh:72-89 | a number names a day type exactly when it lies in 0 .. Num-1 (Invalid and Num name none) |
| ScheduleData.DayTypeRoundTrip | src/EnergyPlus/ScheduleManager.hh:72-89 | day types and their numbers convert both ways without loss |
| ScheduleData.CurrentVal | src/EnergyPlus/ScheduleManager.hh:273-276 | the current value is the EMS value while EMS actuates the schedule and the schedule's own value otherwise; the contract of ScheduleManager.ScheduleManagerData.HrTsVal shows that a lookup agrees with it for an EMS-actuated detailed schedule and for a constant schedule without EMS |
| ScheduleData.MomentFacts | src/EnergyPlus/ScheduleManager.cc:2428-2446 | the looked-up hour stays in 1..24 and the day in 1..366; daylight saving at hour 24 moves the lookup to hour 1 of the next day (day 366 wraps to day 1), and otherwise the hour is shifted by the DST indicator on the same day |
| ScheduleData.EffectiveTs | src/EnergyPlus/ScheduleManager.cc:2451-2452 | an unspecified (zero or negative) timestep stands for the last timestep of the hour; a positive one is kept; a timestep at most the number per hour becomes a valid one (1 .. timesteps per hour) |
| ScheduleData.TsIndexRoundTrip | src/EnergyPlus/ScheduleManager.cc:2454 | the position (hr-1)*TS + (ts-1) lies inside the day's values and no two hour/timestep pairs share it |
| ScheduleData.TsIndexOnto | src/EnergyPlus/ScheduleManager.cc:2454 | every position of the day's values is the position of some hour and timestep |
| ScheduleData.SampleMinuteInTimestep | src/EnergyPlus/ScheduleManager.cc:207-215 | when the timesteps divide the hour, the minute a timestep samples lies inside that timestep, and the hour's last timestep samples its last minute |
| ScheduleData.SeqMinMaxBounds | src/EnergyPlus/ScheduleManager.cc:3150-3166 | the minimum and maximum of a day's values bound every value and are themselves values of the day |
| ScheduleData.SeqMinMaxLast | src/EnergyPlus/ScheduleManager.cc:3156-3162 | the last value lies between the minimum and the maximum |
| ScheduleIntervals.IsMinuteMultipleOfTimestep | src/EnergyPlus/ScheduleManager.cc:2965-2972 | a minute passes exactly when it is a whole multiple of the timestep length (minute 0 always passes) |
| ScheduleIntervals.TimestepMultipleExamples | tst/EnergyPlus/unit/ScheduleManager.unit.cc:74-94 | 0 and 45 are multiples of 15, 22 and 53 are not; 48 is a multiple of 12 and 22 is not |
| ScheduleIntervals.Fill | src/EnergyPlus/ScheduleManager.cc:2784-2842 | filling keeps the length, writes the value at every position from the start to the end inclusive, and leaves every other position as it was |
| ScheduleIntervals.FieldStep | src/EnergyPlus/ScheduleManager.cc:2696-2850 | processing one Until field keeps the number of minutes and never clears an error already found |
| ScheduleIntervals.ProcessedDayAsWritten | src/EnergyPlus/ScheduleManager.cc:2644-2863 | the day as the code fills it has a value and a set flag for each of the 1440 minutes |
| ScheduleIntervals.ProcessedDay | src/EnergyPlus/ScheduleManager.cc:2679-2694 | the corrected day has 1440 minutes; a count mismatch between times and values is an error that leaves every minute 0 and unset; a day without error has every minute set |
| ScheduleIntervals.FillMinutes | src/EnergyPlus/ScheduleManager.cc:2784-2842 | the minutes from the start to the end of an interval get its value and are marked set, and no other minute changes |
| ScheduleIntervals.AnySetBetween | src/EnergyPlus/ScheduleManager.cc:2766-2775 | the overlap scan reports a clash exactly when some minute of the interval is already set |
| ScheduleIntervals.ApplyField | src/EnergyPlus/ScheduleManager.cc:2696-2850 | one Until field applied to the arrays leaves the cursor, minutes, set flags, error and stop exactly as the corrected FieldStep says |
| ScheduleIntervals.ProcessIntervalFields | src/EnergyPlus/ScheduleManager.cc:2644-2863 | the minute values, set flags and error the method leaves are exactly ProcessedDay of the fields, without linear interpolation |
| ScheduleIntervalsFacts.FirstUntilAtOrAfter | src/EnergyPlus/ScheduleManager.cc:2696-2850 | the index of the first field at or after a minute lies between the starting field and the number of fields |
| ScheduleIntervalsFacts.StepWithoutError | src/EnergyPlus/ScheduleManager.cc:2715-2850 | a field accepted without error has a valid time that does not end before the cursor, moves the cursor just past its end, and fills exactly the minutes from the cursor to its end with its value |
| ScheduleIntervalsFacts.StepAccepts | src/EnergyPlus/ScheduleManager.cc:2715-2850 | a valid field that does not end before the cursor is accepted and moves the cursor just past its end |
| ScheduleIntervalsFacts.AcceptedDayIsWellFormed | src/EnergyPlus/ScheduleManager.cc:2644-2863 | an accepted day has as many values as times, valid times in ascending order with the last at 24:00, and each minute holds the value of the first field whose time is at or after it |
| ScheduleIntervalsFacts.WellFormedDayAccepted | src/EnergyPlus/ScheduleManager.cc:2644-2863 | conversely, every well-formed day with one value per time is accepted |
| ScheduleIntervalsFacts.HourSixtyAsWrittenDropsInterval | src/EnergyPlus/ScheduleManager.cc:2715-2735 | as written, "Until 08:00, Until 10:60, Until 24:00" with values 1, 2, 3 is accepted, and 09:00 gets 3: the 10:60 field leaves the interval end at its previous value, so its value is lost |
| ScheduleIntervalsFacts.HourSixtyRejected | src/EnergyPlus/ScheduleManager.cc:2715-2720 | corrected: a field naming minute 60 makes the day an error |
| ScheduleIntervalsFacts.BackwardUntilAsWrittenOverwrites | src/EnergyPlus/ScheduleManager.cc:2751-2795 | as written, "Until 10:30, Until 10:15, Until 24:00" is accepted without error and 10:20 ends up with the third value instead of the first |
| ScheduleIntervalsFacts.BackwardUntilRejected | src/EnergyPlus/ScheduleManager.cc:2751-2795 | corrected: a field ending before an earlier one makes the day an error |
| ScheduleDayTypes.KeywordDays | src/EnergyPlus/ScheduleManager.cc:2995-3138 | each keyword assigns day types that are valid day-type numbers, none listed twice |
| ScheduleDayTypes.AddDays | src/EnergyPlus/ScheduleManager.cc:2995-3130 | counting one keyword adds one to exactly its day types |
| ScheduleDayTypes.Counts | src/EnergyPlus/ScheduleManager.cc:2995-3130 | the per-day-type tally of the keywords mentioned has one entry per day type |
| ScheduleDayTypes.DayTypesAfter | src/EnergyPlus/ScheduleManager.cc:2974-3148 | one "For" field never releases a day type: this schedule's day types stay its own, taken ones stay taken, and each of this schedule's day types is recorded as taken |
| ScheduleDayTypes.HasWord | src/EnergyPlus/ScheduleManager.cc:2995 | the substring search reports whether the field contains the keyword |
| ScheduleDayTypes.AssignDays | src/EnergyPlus/ScheduleManager.cc:3003-3011 | when the field mentions the keyword its day types become this schedule's and taken, and the block reports whether any was already taken; otherwise nothing changes |
| ScheduleDayTypes.AssignStep | src/EnergyPlus/ScheduleManager.cc:2995-3130 | the j-th keyword block extends the tally and the duplicate and found flags by that keyword |
| ScheduleDayTypes.AssignKeywords | src/EnergyPlus/ScheduleManager.cc:2995-3130 | after all keyword blocks, the arrays and the duplicate flag agree with the tally of every mentioned keyword, and a valid keyword was found exactly when one is mentioned |
| ScheduleDayTypes.TakeOtherDays | src/EnergyPlus/ScheduleManager.cc:3131-3138 | ALLOTHERDAY gives this schedule every day type not yet taken and marks every day type taken |
| ScheduleDayTypes.ProcessForDayTypes | src/EnergyPlus/ScheduleManager.cc:2974-3148 | the arrays and the error the method leaves are exactly DayTypesAfter of the field and the old arrays |
| ScheduleDayTypesFacts.CountsAtLeast | src/EnergyPlus/ScheduleManager.cc:2995-3130 | a mentioned keyword counts each of its day types at least once |
| ScheduleDayTypesFacts.CountsTwice | src/EnergyPlus/ScheduleManager.cc:2995-3130 | two mentioned keywords sharing a day type count it at least twice |
| ScheduleDayTypesFacts.CountsWitness | src/EnergyPlus/ScheduleManager.cc:2995-3130 | a day type is counted only when some mentioned keyword gives it |
| ScheduleDayTypesFacts.NewDayTypes | src/EnergyPlus/ScheduleManager.cc:2974-3138 | after a field, a day type is this schedule's exactly when it already was, some mentioned keyword gives it, or ALLOTHERDAY is mentioned and it was free |
| ScheduleDayTypesFacts.ReassignmentIsError | src/EnergyPlus/ScheduleManager.cc:3140-3143 | naming a day type that an earlier field took is a duplicate-assignment error |
| ScheduleDayTypesFacts.OverlapIsError | src/EnergyPlus/ScheduleManager.cc:3140-3143 | two keywords of one field that give the same day type are a duplicate-assignment error |
| ScheduleDayTypesFacts.NoDayTypeIsError | src/EnergyPlus/ScheduleManager.cc:3144-3147 | a field naming no day type is an error and changes neither array |
| ScheduleDayTypesFacts.AcceptedTakesOnlyFree | src/EnergyPlus/ScheduleManager.cc:2974-3148 | a field accepted without error gives this schedule no day type that was already taken |
| ScheduleYear.Ranges | src/EnergyPlus/ScheduleManager.cc:1107-1120 | an unknown week schedule is skipped without consuming dates, so there are at most as many ranges as fields and range k uses the k-th pair of dates |
| ScheduleYear.MarkDays | src/EnergyPlus/ScheduleManager.cc:1123-1126 | every day from the start to the end gains one count and gets the week schedule; no other day changes |
| ScheduleYear.MarkRange | src/EnergyPlus/ScheduleManager.cc:1121-1136 | a range adds one count and its week schedule to exactly the days it covers, wrapping through day 366 to day 1 when it starts after it ends |
| ScheduleYear.LayRanges | src/EnergyPlus/ScheduleManager.cc:1107-1137 | after the loop each day's count is the number of ranges covering it and its week schedule is that of the last covering range; the error flag records an unknown week schedule |
| ScheduleYear.AddRange | src/EnergyPlus/ScheduleManager.cc:1121-1136 | laying one more range of a found week schedule keeps every day's count equal to the number of ranges covering it and its week schedule equal to the last range covering it |
| ScheduleYear.LayStep | src/EnergyPlus/ScheduleManager.cc:1108-1119 | a week name that is not found adds no range and marks the input as erroneous; a found one adds the range read from the next four numbers |
| ScheduleYear.ProcessYearSchedule | src/EnergyPlus/ScheduleManager.cc:1102-1157 | the error flag is YearErrors (unknown week, missing or overlapping day, 29 February copied from 28 February when uncovered) and every day's week schedule is the last covering range's |
| ScheduleYearFacts.RangesOfKnownWeeks | src/EnergyPlus/ScheduleManager.cc:1107-1120 | when every week schedule is known, range k is the k-th week over the k-th pair of dates |
| ScheduleYearFacts.CountZeroIff | src/EnergyPlus/ScheduleManager.cc:1146-1150 | a day's count is 0 exactly when no range covers it, the missing-days condition |
| ScheduleYearFacts.UniqueCover | src/EnergyPlus/ScheduleManager.cc:1146-1155 | a count of one names the single covering range, and the day takes its week schedule |
| ScheduleYearFacts.CountOfUnique | src/EnergyPlus/ScheduleManager.cc:1146-1155 | a day covered by a single range has count one |
| ScheduleYearFacts.AcceptedYearCoversEachDayOnce | src/EnergyPlus/ScheduleManager.cc:1102-1157 | an accepted year has only known week schedules and covers every day exactly once (29 February through 28 February when uncovered), and each day gets that range's week schedule |
| ScheduleYearFacts.WellCoveredYearAccepted | src/EnergyPlus/ScheduleManager.cc:1102-1157 | conversely, known weeks covering every day once (29 February at most once) are accepted |
| ScheduleYearFacts.WrappedRangeCoversYear | src/EnergyPlus/ScheduleManager.cc:1128-1136 | one range running from day 100 round to day 99 covers the whole year without error |
| ScheduleSummaries.SettledDay | src/EnergyPlus/ScheduleManager.cc:3150-3166 | caching a day's minimum and maximum changes only those fields and the cached flag, never changes what the day's minimum and maximum are, and leaves an already cached day as it is |
| ScheduleSummaries.DayMinMax | src/EnergyPlus/ScheduleManager.cc:3156-3163 | the scan returns the least and the greatest value of the day; each bounds every value and each is one of the values |
| ScheduleSummaries.SetDayMinMax | src/EnergyPlus/ScheduleManager.cc:3150-3166 | only day schedule d changes, and it becomes its settled version |
| ScheduleSummaries.WeekLos | src/EnergyPlus/ScheduleManager.cc:3172-3187 | a week contributes one minimum per day type 1 .. 12 |
| ScheduleSummaries.WeekHis | src/EnergyPlus/ScheduleManager.cc:3172-3187 | a week contributes one maximum per day type 1 .. 12 |
| ScheduleSummaries.WeekLosAgree | src/EnergyPlus/ScheduleManager.cc:3172-3187 | day lists that agree on every day's minimum and maximum give every week the same minima and maxima, so caching days on the way does not change the week's result |
| ScheduleSummaries.SettledByStep | src/EnergyPlus/ScheduleManager.cc:3181-3185 | settling the day schedule of one more day type extends the settled prefix by that day type |
| ScheduleSummaries.SettledBySkip | src/EnergyPlus/ScheduleManager.cc:3182 | a day type naming the same day schedule as the one before it needs no new settling |
| ScheduleSummaries.WeekMinMaxStep | src/EnergyPlus/ScheduleManager.cc:3180-3187 | one pass of the day-type loop extends the running minimum and maximum to one more day type and settles its day schedule |
| ScheduleSummaries.WeekMinMax | src/EnergyPlus/ScheduleManager.cc:3168-3190 | the week's minimum and maximum are the least and greatest of its day types' minima and maxima, and every day schedule it names is settled on the way |
| ScheduleSummaries.SettledWeek | src/EnergyPlus/ScheduleManager.cc:3168-3190 | settling a week changes only its minimum, maximum and cached flag, and a filled week gets the minimum and maximum over its day types |
| ScheduleSummaries.SetWeekMinMax | src/EnergyPlus/ScheduleManager.cc:3197-3198 | only week w changes, to its settled version; its day schedules are settled unless the week was already cached, in which case no day changes |
| ScheduleSummaries.YearLos | src/EnergyPlus/ScheduleManager.cc:3203-3213 | the year contributes one week minimum per filled day slot |
| ScheduleSummaries.YearHis | src/EnergyPlus/ScheduleManager.cc:3203-3213 | the year contributes one week maximum per filled day slot |
| ScheduleSummaries.YearWalkedKeeps | src/EnergyPlus/ScheduleManager.cc:3192-3216 | walking the year keeps every day's minimum and maximum and every week's day schedules |
| ScheduleSummaries.YearWalkWeeks | src/EnergyPlus/ScheduleManager.cc:3207-3210 | settling the week of one more slot against the current lists gives the same as against the initial ones, and exactly the weeks named so far are settled |
| ScheduleSummaries.YearWalkDays | src/EnergyPlus/ScheduleManager.cc:3209 | after one more slot, a day schedule is settled exactly when some week named so far touches it |
| ScheduleSummaries.YearWalkSame | src/EnergyPlus/ScheduleManager.cc:3206-3207 | an empty slot 366, or a slot naming the same week as the one before it, settles nothing new |
| ScheduleSummaries.WalkSlot | src/EnergyPlus/ScheduleManager.cc:3205-3213 | walking one slot extends the walk by one slot and gives that slot's week its minimum and maximum |
| ScheduleSummaries.YearMinMaxStep | src/EnergyPlus/ScheduleManager.cc:3204-3214 | one pass of the slot loop extends the running minimum and maximum to one more slot |
| ScheduleSummaries.YearWalkStep | src/EnergyPlus/ScheduleManager.cc:3205-3208 | a skipped slot settles no new week; any other slot leaves its week with its own minimum and maximum settled |
| ScheduleSummaries.YearBoundsSkip | src/EnergyPlus/ScheduleManager.cc:3206-3207 | an empty day 366 or a repeat of the previous week leaves the running bounds equal to the bounds over the slots counted so far |
| ScheduleSummaries.YearBoundsNew | src/EnergyPlus/ScheduleManager.cc:3208-3211 | a slot naming a new week lowers the running minimum to that week's minimum when smaller and raises the maximum to its maximum when larger |
| ScheduleSummaries.YearMinMaxFirst | src/EnergyPlus/ScheduleManager.cc:3196-3199 | slot 1's week settles first, and its minimum and maximum start the search |
| ScheduleSummaries.YearMinMax | src/EnergyPlus/ScheduleManager.cc:3192-3216 | the schedule's minimum and maximum are the least and greatest of the minima and maxima of the weeks of all filled day slots, and every week and day they name is settled |
| ScheduleSummaries.YearWalkedHonest | src/EnergyPlus/ScheduleManager.cc:3192-3216 | when the caches were honest before the walk they are honest after it |
| ScheduleSummaries.WeekBoundsValues | src/EnergyPlus/ScheduleManager.cc:3168-3190 | a week's minimum and maximum bound every value of every day type's day schedule |
| ScheduleSummaries.YearBoundsWeeks | src/EnergyPlus/ScheduleManager.cc:3192-3216 | the schedule's minimum and maximum bound the minimum and maximum of every filled slot's week |
| ScheduleSummaries.YearMinMaxBoundValues | src/EnergyPlus/ScheduleManager.cc:3192-3216 | the schedule's minimum and maximum bound every value of every day schedule any slot's week names |
| ScheduleSummaries.WeekMinAttained | src/EnergyPlus/ScheduleManager.cc:3168-3190 | a week's minimum is a value some day type's day schedule actually holds |
| ScheduleSummaries.YearMinAttained | src/EnergyPlus/ScheduleManager.cc:3192-3216 | the schedule's minimum is a value some day slot, day type and timestep actually holds |
| ScheduleSummaries.DayHasVal | src/EnergyPlus/ScheduleManager.cc:3325-3327 | the scan of one day finds the value exactly when the day holds it |
| ScheduleSummaries.HasVal | src/EnergyPlus/ScheduleManager.cc:3304-3334 | the detailed schedule has the value exactly when some timestep of some day type of some slot's week holds it; skipping weeks and days already scanned loses nothing |
| ScheduleSummaries.PositiveCount | src/EnergyPlus/ScheduleManager.cc:3658-3662 | the number of values above zero is at most the number of values |
| ScheduleSummaries.PositiveCountExtremes | src/EnergyPlus/ScheduleManager.cc:3658-3662 | no value counts exactly when none is above zero, and all count exactly when all are |
| ScheduleSummaries.WeekdayOf | src/EnergyPlus/ScheduleManager.cc:3664-3665 | the day type of each day of the year stays within Sunday .. Saturday |
| ScheduleSummaries.WeekdayNext | src/EnergyPlus/ScheduleManager.cc:3664-3665 | after Saturday comes Sunday, and after any other day the next day type |
| ScheduleSummaries.WeekdayPeriod | src/EnergyPlus/ScheduleManager.cc:3664-3665 | the day types repeat every seven days, so day 365 of the year has the first day's type |
| ScheduleSummaries.CalendarSlot | src/EnergyPlus/ScheduleManager.cc:1636 | a leap year reads each day's own slot; another year never reads slot 60 (29 February), and every day of the year reads a slot in 1 .. 366 |
| ScheduleSummaries.CalendarSlots | src/EnergyPlus/ScheduleManager.cc:1636 | a year reads as many day slots as it has days |
| ScheduleSummaries.AsWrittenSlots | src/EnergyPlus/ScheduleManager.cc:3648-3656 | as written, the loop reads as many day slots as the year has days |
| ScheduleSummaries.HoursOfValsCount | src/EnergyPlus/ScheduleManager.cc:3658-3662 | a day adds the timestep length once per value above zero |
| ScheduleSummaries.AddHoursAbove | src/EnergyPlus/ScheduleManager.cc:3658-3662 | the inner loop adds the day's hours above zero to the running total |
| ScheduleSummaries.AnnualHoursGreaterThan1Percent | src/EnergyPlus/ScheduleManager.cc:3639-3669 | a start day outside Sunday .. Saturday gives no hours; otherwise the total is the hours above zero over the year's days, each day reading its own date's slot on its own day type (corrected slot numbering) |
| ScheduleSummaries.HoursAboveAgree | src/EnergyPlus/ScheduleManager.cc:3639-3669 | schedules that agree on every slot read get the same annual hours |
| ScheduleSummaries.AsWrittenIgnoresDecember31 | src/EnergyPlus/ScheduleManager.cc:3648-3656 | as written, a year without 29 February reads slot 60 and never slot 366 (31 December), so two schedules differing only in 31 December's week get the same hours |
| ScheduleSummaries.CalendarSlotsReadEachDate | src/EnergyPlus/ScheduleManager.cc:1636 | the corrected slots increase; a leap year reads every slot 1 .. 366, another year every slot but 60, and 31 December reads slot 366 |
| ScheduleSummaries.CalendarIgnoresLeapDaySlot | src/EnergyPlus/ScheduleManager.cc:1636 | with the corrected slots, the week of 29 February has no effect in a year without it |
| ScheduleSummaries.ConstantAnnualHours | src/EnergyPlus/ScheduleManager.cc:3672-3682 | a start day outside Sunday .. Saturday gives 0; otherwise the hours are positive exactly when the constant value is above zero |
| ScheduleSummaries.HoursOfValsAllPositive | src/EnergyPlus/ScheduleManager.cc:3658-3662 | a day whose values are all above zero adds one timestep length per value |
| ScheduleSummaries.HoursAboveAllPositive | src/EnergyPlus/ScheduleManager.cc:3639-3669 | when every day read is above zero throughout and its timesteps make 24 hours, every day adds 24 hours |
| ScheduleSummaries.DetailedAgreesWithConstant | src/EnergyPlus/ScheduleManager.cc:3639-3682 | a detailed schedule above zero at every timestep gets the same annual hours as a constant schedule above zero: 24 per day of the year |
| ScheduleManager.FillTimesteps | src/EnergyPlus/ScheduleManager.cc:2637-2641 | every one of the day's 24 × timesteps-per-hour values becomes the given value |
| ScheduleManager.SampleAtTimestep | src/EnergyPlus/ScheduleManager.cc:207-215 | timestep ts of hour hr lies in the day's value list and is sampled at the last minute of that timestep, which lies in the day's minute list |
| ScheduleManager.SampledDay | src/EnergyPlus/ScheduleManager.cc:207-215 | sampling a day gives one value per timestep of the day |
| ScheduleManager.SampledDayReadsOwnMinutes | src/EnergyPlus/ScheduleManager.cc:207-215 | every timestep takes the value of one of its own minutes, and the last timestep of each hour takes the value of that hour's last minute |
| ScheduleManager.SampledConstantDay | src/EnergyPlus/ScheduleManager.cc:207-215 | a day whose minutes all hold one value samples to that value at every timestep |
| ScheduleManager.SampleStep | src/EnergyPlus/ScheduleManager.cc:210-213 | one pass of the inner loop fills position k with its sampled value, keeps the earlier ones and adds the new value to the running sum |
| ScheduleManager.SampleHour | src/EnergyPlus/ScheduleManager.cc:208-215 | one pass of the outer loop fills the hour's timesteps with their sampled values, keeps the earlier ones and adds them to the running sum |
| ScheduleManager.SampleMinutes | src/EnergyPlus/ScheduleManager.cc:207-215 | the loops give exactly the sampled day, and the amount added is the sum of its values |
| ScheduleManager.ScheduleManagerData.ClearedIsValid | src/EnergyPlus/ScheduleManager.hh:499-518 | the empty registry satisfies the registry's invariant |
| ScheduleManager.ScheduleManagerData.constructor | src/EnergyPlus/ScheduleManager.hh:499-518 | a new registry has every list and map empty and the flags at their initial values |
| ScheduleManager.ScheduleManagerData.ClearState | src/EnergyPlus/ScheduleManager.hh:530-558 | clearing empties every list and map, resets the flags and leaves a well-formed registry |
| ScheduleManager.ScheduleManagerData.AddSchedule | src/EnergyPlus/ScheduleManager.cc:219-246 | the new schedule is appended with the next number, and its upper-cased name maps to that number; nothing else changes |
| ScheduleManager.ScheduleManagerData.AddScheduleConstant | src/EnergyPlus/ScheduleManager.cc:219-231 | a constant schedule with value 0 is appended with the next number and registered under its upper-cased name |
| ScheduleManager.ScheduleManagerData.AddScheduleDetailed | src/EnergyPlus/ScheduleManager.cc:233-246 | a year schedule with every day slot empty is appended with the next number and registered under its upper-cased name |
| ScheduleManager.ScheduleManagerData.AddDaySchedule | src/EnergyPlus/ScheduleManager.cc:248-263 | a day schedule of 24 × timesteps-per-hour zero values is appended with the next number and registered under its upper-cased name |
| ScheduleManager.ScheduleManagerData.AddWeekSchedule | src/EnergyPlus/ScheduleManager.cc:265-277 | a week schedule with every day-type slot empty is appended with the next number and registered under its upper-cased name |
| ScheduleManager.ScheduleManagerData.InitConstantScheduleData | src/EnergyPlus/ScheduleManager.cc:279-292 | on an empty list, "Constant-0.0" becomes schedule 0 with value 0 and "Constant-1.0" schedule 1 with value 1, both marked used and registered by name |
| ScheduleManager.ScheduleManagerData.MarkWeekUsed | src/EnergyPlus/ScheduleManager.cc:2533-2540 | the week is marked used, and exactly the day schedules it names for day types 1 .. 12 are marked used as well |
| ScheduleManager.ScheduleManagerData.GetDaySchedule | src/EnergyPlus/ScheduleManager.cc:2550-2570 | an unknown name gives no schedule and changes nothing; a known one gives its number and marks only that day schedule used |
| ScheduleManager.ScheduleManagerData.GetWeekSchedule | src/EnergyPlus/ScheduleManager.cc:2522-2542 | an unknown name gives none and changes nothing; a known one gives its number, and only its first lookup marks the week and the day schedules it names used |
| ScheduleManager.ScheduleManagerData.GetSchedule | src/EnergyPlus/ScheduleManager.cc:2474-2514 | an unknown name gives none and changes nothing; a known one gives its number and marks it used; a constant or already used schedule changes no week or day schedule, and the first lookup of a detailed one marks every week its day slots reach and the day schedules of each such week that was not yet used |
| ScheduleManager.ScheduleManagerData.MarkReachedWeeks | src/EnergyPlus/ScheduleManager.cc:2500-2510 | after the loop over day slots 1 .. 366, a week is used exactly when it was before or some slot names it, and a day schedule is used exactly when it was before or a newly reached week names it |
| ScheduleManager.ScheduleManagerData.GetScheduleNum | src/EnergyPlus/ScheduleManager.cc:2516-2520 | a known name gives the schedule's number, an unknown one gives -1 |
| ScheduleManager.ScheduleManagerData.ExternalInterfaceSetSchedule | src/EnergyPlus/ScheduleManager.cc:2617-2642 | every timestep value of day schedule n becomes the given value and nothing else changes |
| ScheduleManager.ScheduleManagerData.DayOn | src/EnergyPlus/ScheduleManager.cc:2450-2451 | the day schedule picked for a day slot and a day type is empty or a valid day schedule |
| ScheduleManager.ScheduleManagerData.HrTsVal | src/EnergyPlus/ScheduleManager.cc:2410-2462 | a constant schedule answers its current value and an EMS-actuated one its EMS value, which is CurrentVal for a detailed schedule under EMS and for a constant one without EMS; otherwise the lookup fails exactly when the hour is past 24 |
| ScheduleManager.ScheduleManagerData.HrTsValOfFilledDay | src/EnergyPlus/ScheduleManager.cc:2410-2457 | a lookup that lands on a day whose timesteps all hold one value, as the external interface leaves it, answers that value |
| ScheduleManager.ScheduleManagerData.HrTsValOrdinaryDay | src/EnergyPlus/ScheduleManager.cc:2431-2456 | with no daylight saving in force and no holiday, the lookup reads today's week at today's weekday, at hour hr and timestep ts, or at the hour's last timestep when ts is 0 or less |
| ScheduleManager.ScheduleManagerData.HrTsValDaylightRollover | src/EnergyPlus/ScheduleManager.cc:2431-2448 | with daylight saving in force, hour 24 is read as hour 1 of the next day slot, slot 1 after slot 366, with tomorrow's weekday or holiday |
| ScheduleManager.ScheduleManagerData.PopulateFromMinuteVals | src/EnergyPlus/ScheduleManager.cc:189-217 | only day schedule d changes: its values become the sampled day, and their sum is added to its running sum |
| ScheduleManager.ScheduleManagerData.DaySetMinMaxVals | src/EnergyPlus/ScheduleManager.cc:3150-3166 | day schedule d caches the least and the greatest of its values, and nothing else changes |
| ScheduleManager.ScheduleManagerData.WeekSetMinMaxVals | src/EnergyPlus/ScheduleManager.cc:3168-3190 | week w caches the least and the greatest value over its day types 1 .. 12, and exactly the day schedules it names that were not cached get cached |
| ScheduleManager.ScheduleManagerData.ScheduleSetMinMaxVals | src/EnergyPlus/ScheduleManager.cc:3192-3216 | a constant schedule's minimum and maximum become its current value; a detailed one's become the least and greatest over the weeks of its day slots, and the weeks and days reached get cached on the way |
| ScheduleManager.ScheduleManagerData.GetMinVal | src/EnergyPlus/ScheduleManager.cc:102-106 | the answer is the cached minimum, left as it was when already cached, and otherwise the constant's value or the least value over the year |
| ScheduleManager.ScheduleManagerData.GetMaxVal | src/EnergyPlus/ScheduleManager.cc:108-112 | the answer is the cached maximum, left as it was when already cached, and otherwise the constant's value or the greatest value over the year |
| ScheduleManager.ScheduleManagerData.ScheduleHasVal | src/EnergyPlus/ScheduleManager.cc:3298-3334 | a constant schedule has a value exactly when it is its current value; a detailed one exactly when some timestep of some day type of some week of day slots 1 .. 366 holds it |
| ScheduleManager.ScheduleManagerData.AnnualHours | src/EnergyPlus/ScheduleManager.cc:3639-3682 | (corrected) a start day outside Sunday .. Saturday gives 0; otherwise a constant schedule gives the constant's hours and a detailed one the hours above zero over the calendar's days, each day reading its own date's slot |

## Left out

- Number conversion: `fast_float` inside `CsvParser::parse_value` and `Util::ProcessNumber` are not modelled.
  - The parser object carries a `numberLength` oracle instead: how many leading characters the number parser accepts.
  - A number cell keeps the text that was accepted, not the double.
- CsvParser.hh is not part of this model. The parser's fields are taken from their use in CsvParser.cc.
- `CsvParser.CsvParser.Decode` requires one of the delimiters the schedule input offers (comma, tab, space, semicolon). It does not model a line feed or carriage return used as a delimiter.
- On an empty first line, the source reads an uninitialised previous token when counting columns. The model reads it as "not a delimiter".
- Two loops are restructured without changing behaviour:
  - parse_csv's `while (check_first_row)` loop is split into `SkipPreamble`, `FirstRow` and `ParseDataLines`;
  - parse_line's loop is split into `PlaceLine` and the end-of-line check in `ParseLine`.
  - the delimiter and value steps of parse_header and parse_line are the methods `PassSeparator` and `PassValue`, and the body of ParseString's loop is `ReadElement`.
- `DecodeHHMMField` (the text-to-hour/minute conversion and its own messages) is not modelled. The interval fields arrive as decoded (hour, minute, value) triples, and `isMinuteMultipleOfTimestep` is modelled separately.
- `Util::makeUPPER` is not part of this model. Name keys use the ASCII upper-casing of `IdfParser::convertToUpper`.
- The Linear and Average interpolation branches of `ProcessIntervalFields` and `populateFromMinuteVals` are left out, because they are floating-point averaging and ramps. Only the no-interpolation branches are modelled.
- `DaySchedule` fields `interpolation` and the schedule type, and the constant schedule's `tsVals`/`getDayVals`, are not modelled.
- `ProcessIntervalFields` fills minutes differently in the model:
  - The source fills the first, middle and last hour of an interval in three loops. The model fills the same minutes through their absolute positions.
  - The source's first-hour loop also writes minute 60 of that hour. That is the next hour's minute 0, which lies inside the interval and gets the same value, so nothing observable changes.
- `ProcessForDayTypes` tests each keyword in its own `if`. The model runs one loop over a table of the same keywords, in the same order, with the same assignments and errors.
- `General::OrdinalDay` (a month and day to a day of a leap year) is not modelled.
  - `ScheduleYear.ProcessYearSchedule` receives the ordinal days, two per week schedule.
  - `ScheduleYear.Ranges` requires those ordinals to be present.
- Warnings and severe messages (`ShowWarningError`, `ShowSevereError`, `ShowContinueError`) are not modelled; each error branch sets the model's error flag instead.
  - `ErrorsFound` is sticky in the source (it is only ever set to true). The model returns the flag of one call.
- File and JSON input, external files (`UniqueProcessedExternalFiles`), the `.eio` schedule report and EMS actuator setup are left out. They are I/O or registration with other modules.
- The FLT_EPSILON comparisons of `checkMinMaxVals` are left out.
- The calendar and the time step are set outside the modelled files, so they arrive as inputs:
  - timesteps per hour: a constant of the registry;
  - daylight-saving indicator, day of year, weekday and holiday for today and tomorrow: an `Env` parameter;
  - the zone time step (`TimeStepZone`): a parameter.
- Preconditions for crashes and fatal errors:
  - `ScheduleManager.ScheduleManagerData.HrTsVal` requires that the week and day schedules it dereferences exist. The source would dereference a null pointer there, and the fatal error for an hour past 24 is modelled as `None`.
  - `ScheduleManager.ScheduleManagerData.GetSchedule` requires that a not-yet-used week of a not-yet-used detailed schedule names a day schedule for every day type. The source dereferences each of them. `GetScheduleNum` has the same requirement.
  - `ScheduleManager.ScheduleManagerData.GetMinVal`, `GetMaxVal` and `ScheduleSetMinMaxVals` require the week and day schedules a detailed schedule walks through to exist. Day slot 366 may be empty, as in the source.
  - `ScheduleManager.ScheduleManagerData.ScheduleHasVal` and `ScheduleManager.ScheduleManagerData.AnnualHours` require the same of the day slots they read.
- ScheduleManager.ScheduleManagerData.ExternalInterfaceSetSchedule: as in the source, it does not reset the day's cached minimum and maximum or its running sum.
- ExternalInterface.hh is not part of this model. Neither are the socket, FMU and XML library calls (`establishclientsocket`, `fmiEPlus*`, `getepvariables`), which are foreign code and network plumbing.
- HVACManager: `ManageHVAC` and `SimHVAC` are modelled only for the adaptive time-step rule; the rest sequences other managers.
  - Node, air-loop and zone arrays are reduced to the fields these rules read and write.
  - `ConvergLogStackDepth` lives in DataConvergParams.hh, which is not part of this model; it is taken as 10.
- HVACInterfaceManager: `PlantCommonPipe` is reduced to an empty-or-allocated list, since its contents are not read by the modelled code.
- FaultsManager.hh and WaterUse.hh are not part of this model. The constructors of `FaultsManager.FaultsManagerData` and `WaterUse.WaterConnection` take their initial values from the use of the fields in the .cc files, and they have no row above.
- `CheckAndReadFaults` reads fault objects from the input; only its counting and one-time flag are modelled.
- ExteriorEnergyUse.ExteriorLightsConfig: the default control mode an Exterior:Lights object has before its input is read comes from ExteriorEnergyUse.hh, which is not part of this model; it is the parameter `priorMode`, which an unrecognised control keyword leaves in place.
- ExternalInterface.ExternalInterfaceData.GetExternalInterfaceInput: the fatal error that ends the run once an input error was found (ExternalInterface.cc:260-262) and the stop that follows are not modelled; the method returns with `errorsFound` set.
- WaterUse: the psychrometric and property routines (`Psychrometrics::CPHW`, the water density from `calcH2ODensity`) are parameters. So are the zone multipliers and schedule values.
  - The zone air seen by `CalcEquipmentDrainTemp` (`ZoneAir`: the mean air temperature, the water the zone air can still take up, and the latent heat of vaporisation) arrives already computed; the psychrometric functions that produce it (`PsyWFnTdbRhPb`, `PsyRhoAirFnPbTdbW`, `PsyHfgAirFnWTdb`) are not part of this model.
  - The plant's answer to `SetComponentFlowRate` is the parameter `plantHotFlow`; the plant loop itself is not modelled.
  - The supply tank is reduced to its available volume (a parameter) and the request handed back to the caller; `WaterStorage` is not modelled.
- ExteriorEnergyUse and ExhaustAirSystemManager: schedule values, the sun-up flag and node states are parameters, read once per call as the source reads them.
- ExteriorEnergyUse: of the input checks of GetExteriorEnergyUseInput only those of Exterior:Lights are modelled; the fuel and water equipment objects repeat the same schedule checks (ExteriorEnergyUse.cc:328 and 376), including the `int` truncation listed under Findings.
- Floating point: all quantities are `real`. Rounding, NaN and the order of summation are not modelled.

## Findings

| source | as written | input that shows it | evidently intended | confidence | as-written member | corrected member |
|---|---|---|---|---|---|---|
| src/EnergyPlus/ExhaustAirSystemManager.cc:579-580 | the exhaust flow fraction is read only when a minimum-fraction schedule exists (the guard tests `minExhFlowFracSched` but reads `exhaustFlowFractionSched`) | available, exhaust-fraction schedule value 1.0, no minimum-fraction schedule: the fraction stays 0 and no air is exhausted | read the exhaust flow fraction whenever its own schedule exists | high, not executed | ExhaustAirSystemManager.AsWrittenIgnoresExhaustFraction | ExhaustAirSystemManager.ScheduledFraction |
| src/EnergyPlus/ExteriorEnergyUse.cc:160-165 | the schedule minimum is stored in an `int`, which truncates toward zero before the "negative schedule" check; the same truncation occurs for exterior fuel equipment (line 328) and exterior water equipment (line 376), whose input checks are not part of this model | a schedule whose minimum is -0.5: the minimum truncates to 0 and the object is accepted | compare the real minimum against 0 | high, not executed | ExteriorEnergyUse.AsWrittenAcceptsNegativeFraction | ExteriorEnergyUse.ExteriorLightsConfig |
| src/EnergyPlus/ScheduleManager.cc:2715-2735 | an "Until" minute of 60 passes validation (only minutes above 60 are rejected), but neither branch sets the interval's end, so the previous end is reused and the interval's value is lost | "Until: 08:00, 1; Until: 10:60, 2; Until: 24:00, 3": minute 09:00 gets 3 | reject minute 60, or read HH:60 as (HH+1):00 | high, not executed | ScheduleIntervalsFacts.HourSixtyAsWrittenDropsInterval | ScheduleIntervalsFacts.HourSixtyRejected |
| src/EnergyPlus/ScheduleManager.cc:2751-2795 | a same-hour interval that ends before the cursor is neither an overlap nor a zero-length interval; the fill loop runs zero times and the cursor moves backwards without an error | "Until: 10:30, 1; Until: 10:15, 2; Until: 24:00, 3" is accepted, and minute 10:20 gets 3 instead of 1 | report an overlap when an interval ends before the cursor | high, not executed | ScheduleIntervalsFacts.BackwardUntilAsWrittenOverwrites | ScheduleIntervalsFacts.BackwardUntilRejected |
| src/EnergyPlus/WaterUse.cc:1367 | the drain volume flow rate is the drain mass flow rate times the water density | 1 kg/s at 1000 kg/m³ gives 1000 m³/s instead of 0.001 m³/s | divide by the density, as line 1331 does for the cold volume flow rate | high, not executed | WaterUse.DrainVolumeAsWrittenIsNotAVolume | WaterUse.VolFlowRate |
| src/EnergyPlus/FaultsManager.cc:1975-1977 | the variable-flow guard of CalFaultChillerSWT admits an inlet temperature equal to the fault-free outlet temperature, which makes the divisor zero | inlet 7, fault-free outlet 7, offset 1: the faulty outlet is 6, the guard passes (7 > 6), and the faulty flow divides by 7 - 7 | also require the inlet to be above the fault-free outlet; the corrected guard then also gives zero flow when faulty outlet < inlet < fault-free outlet, where the source computes a negative flow | medium, not executed | FaultsManager.VariableFlowGuardAdmitsZeroDivisor | FaultsManager.CalFaultChillerSWT |
| src/EnergyPlus/WaterUse.cc:1302-1323 | when the plant supplies less hot water than requested, each equipment's hot flow is cut, but the connection's own hot mass flow rate stays at the request | request 1.0 kg/s, plant grants 0.5 kg/s: the equipment sum to 0.5 while the connection reports 1.0 | set the connection's hot flow to the granted flow | medium, not executed | WaterUse.PlantCutAsWrittenDisagreesWithEquipment | WaterUse.WaterConnection.CutForPlantSupply |
| src/EnergyPlus/InputProcessing/CsvParser.cc:110-133 | find_number_columns adds the final column only at a line end, not at the end of the file | "1,2" with no final line feed gives 1 column, and the second value then fails in `columns.at` | count the last column at the end of the file too | high, not executed | CsvParser.SingleLineWithoutLineFeedLosesColumn | CsvParser.CsvParser.FindNumberColumns |
| src/EnergyPlus/ScheduleManager.cc:3648-3668 | in a non-leap year the loop reads day slots 1 .. 365 of the 366-slot leap-year layout, so it reads 29 February (slot 60) and never 31 December (slot 366) | two schedules that differ only in the week of 31 December give the same annual hours | skip slot 60 in a non-leap year, so that every calendar date is read once | high, not executed | ScheduleSummaries.AsWrittenIgnoresDecember31 | ScheduleSummaries.CalendarSlotsReadEachDate |

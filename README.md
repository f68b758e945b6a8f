# match-statistics, modelled in Dafny

match-statistics is a small web app for recording a football match. Before the
match, the two line-ups are imported from a Catalan federation match report
(`fcf.cat/acta`). A serverless endpoint, `/api/scrape-lineup`, fetches that
page and extracts the players. During the match, a reducer holds the match
state: teams, events, clock and half. Around it sit a control page (start,
pause, resume, switch half, end, reset), an event recorder (team, event type,
then one or two player clicks), a reverse-order event log, per-team
statistics, the `MM:SS` clock and a CSV export.

This project models the decision logic behind those screens and the endpoint,
and proves what the code promises about it:

- `Types`: the shared records (`Player`, `Team`, `MatchEvent`, `MatchState`,
  and the scraped line-up records). Also the id-keyed player map that the
  export and the log both fill with `Map.set`, where the later player wins.
- `JsString`, `JsNumber`: the JavaScript built-ins the code relies on, written
  out over `seq<char>`:
  - `trim` uses the ECMAScript white-space set;
  - `includes`, `String(n)`, `padStart`, `join` and `split` on one character;
  - `Number.parseInt(s, 10)`, with NaN, and truthiness.
- `Options`: the present values of a sequence of options, with their count
  and the position each value comes from. The row filter and the team-name
  filter of the endpoint are both stated through it.
- `MatchContext`: the reducer as a total function, with the `Date.now()`
  reading as a parameter. There are frame lemmas for every action, an
  invariant over runs (the half stays 1 or 2), append-only events, and reset.
- `MatchControl`: `getPhase` and the `isFinished` override. The page is a
  class whose handlers are fixed dispatch sequences.
- `EventRecorder`: the three-field selection machine as a class. Its player
  click returns the event it dispatches.
- `MatchExport`, `EventLog`, `MatchStats`, `MatchTimer`: the CSV text and its
  read-back, the log lines, the counts, and the clock text.
- `ScrapeDocument`, `ScrapeExtract`, `ScrapeLineup`: the endpoint.
  - The page is the text the HTML selectors would yield: the team-name spans,
    and per table the header text and each row's number and name cells.
  - The extraction loops are methods, proved against the functions
    `AcceptedRows` and `BuildTeams`.
  - The handler is one function of the request and the fetch outcome.
- `LineupImporter`: the import form as a class. It models the URL checks, the
  `loading` and `error` flags, and the handling of the request's outcome.

The extraction is modelled as written, as in api/scrape-lineup.ts:94. The slot
`Math.floor(teams.length / 2) * 2 + teams.length % 2` is always
`teams.length`, so each accepted row opens a new one-player team. A page
therefore succeeds only when exactly two rows are accepted in the whole
document. The comment above the slot (api/scrape-lineup.ts:93, "Find or
create team for this player") and the answer's `homeTeam`/`awayTeam` pair
suggest that rows were meant to be grouped into two teams. The expression does
not do that, and the model follows the expression (`ScrapeExtract.SlotIsLength`,
`ScrapeLineup.PageOutcome`).

## Model

| member | source | states |
|---|---|---|
| Types.PlayerIndex | src/features/match-control/components/MatchExport.tsx:39-40 | every key of the filled player map maps to a player carrying that id |
| Types.PlayerIndexSpec | src/features/match-control/components/MatchExport.tsx:39-40 | an id is a key exactly when some listed player has it, and it maps to the last such player |
| Types.PlayerIndexLaterWins | src/features/match-control/components/MatchExport.tsx:39-40 | filling from `a` then `b` leaves every player of `b` in the map, whatever `a` holds |
| MatchContext.InitialState | src/shared/context/MatchContext.tsx:18-26 | no teams, no events, stopped, no start time, 0 ms, first half; `ResetIdempotent` shows every RESET_MATCH returns it |
| MatchContext.Reduce | src/shared/context/MatchContext.tsx:29-75 | the reducer: each action's effect and its frame are stated by the frame lemmas below, the clock independence by `ClockOnlyForStart`, the half invariant by `ReducePreservesHalf` |
| MatchContext.Run | src/shared/context/MatchContext.tsx:88 | the provider's state after dispatching actions in order; stated by `RunPreservesHalf`, `RunAppendsEvents` and `RunAfterReset` |
| MatchContext.SetTeamFrames | src/shared/context/MatchContext.tsx:31-35 | SET_HOME_TEAM changes only `homeTeam`, SET_AWAY_TEAM only `awayTeam` |
| MatchContext.StartMatchFrame | src/shared/context/MatchContext.tsx:37-42 | START_MATCH sets `isPlaying` and `startTime` to the clock reading; events, time, half and teams are unchanged |
| MatchContext.PauseEndResumeFrames | src/shared/context/MatchContext.tsx:44-51 | PAUSE_MATCH and END_MATCH give the same state, only `isPlaying` false; RESUME_MATCH only sets `isPlaying` |
| MatchContext.AddEventAppends | src/shared/context/MatchContext.tsx:53-57 | ADD_EVENT grows the list by one, keeps the old events as a prefix, puts the payload last and changes nothing else |
| MatchContext.UpdateTimeFrame | src/shared/context/MatchContext.tsx:59-60 | UPDATE_TIME changes only `elapsedTime` |
| MatchContext.SwitchHalfToggles | src/shared/context/MatchContext.tsx:62-67 | SWITCH_HALF toggles the half 1/2, zeroes the clock and nothing else; twice restores the half |
| MatchContext.ResetIdempotent | src/shared/context/MatchContext.tsx:69-70 | RESET_MATCH gives the initial state from any state, so repeating it changes nothing |
| MatchContext.ClockOnlyForStart | src/shared/context/MatchContext.tsx:29-75 | every action except START_MATCH gives the same state whatever the clock reads |
| MatchContext.ReducePreservesHalf | src/shared/context/MatchContext.tsx:29-75 | every action keeps `currentHalf` in {1, 2} |
| MatchContext.RunPreservesHalf | src/shared/context/MatchContext.tsx:29-75 | every sequence of actions from a state with half 1 or 2 keeps it in {1, 2} |
| MatchContext.RunAppendsEvents | src/shared/context/MatchContext.tsx:53-57 | without RESET_MATCH, a run's events are the old events followed by exactly the ADD_EVENT payloads in order |
| MatchContext.RunAfterReset | src/shared/context/MatchContext.tsx:69-70 | a RESET_MATCH anywhere in a run makes everything before it irrelevant |
| MatchControl.GetPhase | src/features/match-control/components/MatchControlPage.tsx:14-19 | the derived phase is never `finished` |
| MatchControl.PhaseOf | src/features/match-control/components/MatchControlPage.tsx:25-27 | the phase is `finished` exactly when `isFinished` is set |
| MatchControl.PhaseCases | src/features/match-control/components/MatchControlPage.tsx:14-19 | unfinished: `playing` iff started and playing; `paused` iff started, stopped and time > 0; `pre-match` iff not started, or stopped at time <= 0 |
| MatchControl.MatchControlPage.constructor | src/features/match-control/components/MatchControlPage.tsx:21-23 | the page starts over the provider's state with `isFinished` false |
| MatchControl.MatchControlPage.HandleStart | src/features/match-control/components/MatchControlPage.tsx:29-31 | dispatches START_MATCH; an unfinished page is then `playing` |
| MatchControl.MatchControlPage.HandlePause | src/features/match-control/components/MatchControlPage.tsx:33-35 | dispatches PAUSE_MATCH; a started match is then `paused` or, at time 0, `pre-match` |
| MatchControl.MatchControlPage.HandleResume | src/features/match-control/components/MatchControlPage.tsx:37-39 | dispatches RESUME_MATCH; a started match is then `playing` |
| MatchControl.MatchControlPage.HandleSwitchHalf | src/features/match-control/components/MatchControlPage.tsx:41-44 | pause then SWITCH_HALF: stopped, clock 0, half toggled, phase `pre-match` unless finished |
| MatchControl.MatchControlPage.HandleEnd | src/features/match-control/components/MatchControlPage.tsx:46-49 | dispatches END_MATCH and sets `isFinished`: stopped and `finished` |
| MatchControl.MatchControlPage.HandleReset | src/features/match-control/components/MatchControlPage.tsx:51-55 | the state is the initial state, `isFinished` is cleared, the phase is `pre-match` |
| MatchControl.SwitchHalfPhase | src/features/match-control/components/MatchControlPage.tsx:41-44 | from any state, the switch-half sequence lands in `pre-match` unless finished |
| EventRecorder.FindPlayer | src/features/match-control/components/EventRecorder.tsx:105 | `find` gives the first player with the id, and none exactly when no player has it |
| EventRecorder.EventRecorder.constructor | src/features/match-control/components/EventRecorder.tsx:67-69 | starts on the home team with nothing selected |
| EventRecorder.EventRecorder.SelectTeam | src/features/match-control/components/EventRecorder.tsx:115-131 | switching team clears the event selection and the leaving player |
| EventRecorder.EventRecorder.HandleEventSelect | src/features/match-control/components/EventRecorder.tsx:98-101 | choosing the selected type deselects it, otherwise selects it; the leaving player is cleared either way |
| EventRecorder.EventRecorder.HandlePlayerSelect | src/features/match-control/components/EventRecorder.tsx:76-96 | nothing selected: no event, no change. First substitution click: only records the leaving player. Otherwise one event with the type, `elapsedTime`, the team id and the right player fields; then both selections clear |
| EventRecorder.EventRecorder.SubstitutionLabel | src/features/match-control/components/EventRecorder.tsx:103-107 | the "select leaving player" prompt appears exactly while no leaving player is recorded; once one is, the prompt is `Sale: `, the first matching player's name (or `?` when no player has the id), then the "select entering player" text |
| EventRecorder.SubstitutionTakesTwoClicks | src/features/match-control/components/EventRecorder.tsx:79-91 | a substitution emits nothing on the first click and one event (leaving, entering) on the second |
| EventRecorder.OtherEventTakesOneClick | src/features/match-control/components/EventRecorder.tsx:84-95 | any other type emits its event on one click, with the clicked player and no second player |
| EventRecorder.ReselectingDeselects | src/features/match-control/components/EventRecorder.tsx:98-101 | choosing a type twice leaves nothing selected, so a click emits nothing |
| MatchExport.FormatMinute | src/features/match-control/components/MatchExport.tsx:24-26 | the minute label; stated by `FormatMinuteSpec`, `FormatMinuteExample` and, for the CSV read-back, `FormatMinutePlain` |
| MatchExport.FormatMinutePlain | src/features/match-control/components/MatchExport.tsx:24-26 | the minute label holds no double quote and no line break |
| MatchExport.EventLabel | src/features/match-control/components/MatchExport.tsx:5-12 | `EVENT_LABELS`; stated by `EventLabelsDistinct` and `EventLabelPlain` |
| MatchExport.EventLabelsDistinct | src/features/match-control/components/MatchExport.tsx:5-12 | distinct event types get distinct labels |
| MatchExport.EventLabelPlain | src/features/match-control/components/MatchExport.tsx:5-12 | no label holds a double quote or a line break |
| MatchExport.FormatMinuteSpec | src/features/match-control/components/MatchExport.tsx:24-26 | the label is decimal digits then `'`, and the digits are the whole minutes |
| MatchExport.FormatMinuteExample | src/features/match-control/components/MatchExport.tsx:24-26 | 2640000 ms is `44'` |
| MatchExport.BuildMaps | src/features/match-control/components/MatchExport.tsx:33-40 | the loops fill the player map home then away, and the team-name map home then away |
| MatchExport.AwayWinsCollision | src/features/match-control/components/MatchExport.tsx:39-40 | on an id shared by a home and an away player, the away player is kept |
| MatchExport.CsvFields | src/features/match-control/components/MatchExport.tsx:56-69 | seven values; an unknown player empties name and number, an unknown team the team, an absent, empty or unknown second player the last two |
| MatchExport.QuoteAll | src/features/match-control/components/MatchExport.tsx:70 | every value is wrapped in double quotes with no escaping |
| MatchExport.CsvRowRoundTrip | src/features/match-control/components/MatchExport.tsx:61-71 | a line of quoted values joined by commas reads back as those values when none holds a double quote |
| MatchExport.EventRowRoundTrip | src/features/match-control/components/MatchExport.tsx:56-72 | with plain names, an event's line has no line break and reads back as its seven values |
| MatchExport.CsvRow | src/features/match-control/components/MatchExport.tsx:70-71 | quoting then joining by commas; its read-back is `CsvRowRoundTrip` |
| MatchExport.EventRows | src/features/match-control/components/MatchExport.tsx:56-72 | one line per event; `EventRowsRoundTrip` reads each back as its event's values |
| MatchExport.EventRowsRoundTrip | src/features/match-control/components/MatchExport.tsx:56-72 | with plain names, line k has no line break and reads back as the values of event k |
| MatchExport.ExportCsv | src/features/match-control/components/MatchExport.tsx:54-74 | the CSV text; its read-back is `ExportCsvRoundTrip` |
| MatchExport.ExportCsvRoundTrip | src/features/match-control/components/MatchExport.tsx:54-74 | the file splits into events + 1 lines: the header, then each event's line in event order, reading back as its values |
| MatchExport.CsvFieldsExample | src/features/match-control/components/MatchExport.tsx:56-69 | a goal at 44 minutes by Smith, number 10, for `Home` gives `44'`, `Gol`, `Smith`, `10`, `Home` and two empty values |
| MatchExport.CsvRowExample | src/features/match-control/components/MatchExport.tsx:70-71 | three values become `"44'","Gol",""` |
| EventLog.EventIcon | src/features/match-control/components/EventLog.tsx:5-12 | `EVENT_ICONS`; stated by `EventIconsDistinct` |
| EventLog.EventIconsDistinct | src/features/match-control/components/EventLog.tsx:5-12 | distinct event types get distinct icons |
| EventLog.PlayerLabel | src/features/match-control/components/EventLog.tsx:29 | the label is never empty and never `?`, so a known player is told apart from an unknown one |
| EventLog.LabelIndex | src/features/match-control/components/EventLog.tsx:28-35 | no player label is `?` |
| EventLog.TeamNameIndex | src/features/match-control/components/EventLog.tsx:26-33 | each present team's id maps to its name, with the away team winning a shared id; no other key |
| EventLog.BuildLabels | src/features/match-control/components/EventLog.tsx:23-37 | the loops fill the label map from home then away players, and the team-name map as above |
| EventLog.LabelIndexSpec | src/features/match-control/components/EventLog.tsx:26-37 | an id has a label exactly when some player has it, and the label is that of the last such player |
| EventLog.LogLineOf | src/features/match-control/components/EventLog.tsx:45-64 | the arrow form appears exactly for a substitution whose second id is non-empty and known; unknown ids show `?`, and only then; the icon is the type's icon |
| EventLog.LogLines | src/features/match-control/components/EventLog.tsx:44-64 | one line per event, line k being the log line of event k |
| EventLog.ReversedLines | src/features/match-control/components/EventLog.tsx:39-44 | the log lines of the reversed events are newest first: line k is the log line of event n-1-k |
| EventLog.Reverse | src/features/match-control/components/EventLog.tsx:39 | the copy has the same length with entry k being entry n-1-k |
| EventLog.RenderLog | src/features/match-control/components/EventLog.tsx:21-67 | nothing is shown exactly when there are no events; otherwise line k is the log line of the (n-1-k)-th event |
| EventLog.LogMinute | src/features/match-control/components/EventLog.tsx:14-16 | the log's minute is digits then `'`, the digits being the whole minutes |
| MatchStats.Filter | src/features/match-control/components/MatchStats.tsx:17 | every kept event is from the list and matches both type and team |
| MatchStats.CountByTeam | src/features/match-control/components/MatchStats.tsx:16-17 | the count is at most the number of events |
| MatchStats.CountIsMatchingPositions | src/features/match-control/components/MatchStats.tsx:16-17 | the count equals the number of positions holding an event of that type and team |
| MatchStats.CountAppend | src/features/match-control/components/MatchStats.tsx:16-17 | appending an event raises its own (type, team) count by one and leaves every other count unchanged |
| MatchStats.StatRowsCoverEveryType | src/features/match-control/components/MatchStats.tsx:7-14 | every event type has a row, and no type has two |
| MatchStats.StatRowsSumToTeamTotal | src/features/match-control/components/MatchStats.tsx:7-14 | the six rows' counts for a team sum to that team's number of events |
| MatchStats.HomeAwayWithinType | src/features/match-control/components/MatchStats.tsx:48-50 | with distinct ids, home plus away for a type is at most the events of that type |
| MatchStats.StatLines | src/features/match-control/components/MatchStats.tsx:48-57 | one line per row, in row order, with the row caption and the home and away counts |
| MatchTimer.FormatTime | src/features/match-control/hooks/useMatchTimer.ts:4-9 | `formatTime`; stated by `FormatTimeRoundTrip` and the examples below |
| MatchTimer.JsRem | src/features/match-control/hooks/useMatchTimer.ts:7 | the truncating `%` agrees with the mathematical remainder for non-negative operands |
| MatchTimer.FormatTimeRoundTrip | src/features/match-control/hooks/useMatchTimer.ts:4-9 | the text is two `:`-separated decimals; the seconds have exactly two digits and are below 60; minutes * 60 + seconds is the whole seconds; minutes have at least two digits and are never cut |
| MatchTimer.FormatTimeZero | src/features/match-control/hooks/useMatchTimer.ts:8 | 0 ms is `00:00` |
| MatchTimer.FormatTimeOneMinuteOneSecond | src/features/match-control/hooks/useMatchTimer.ts:8 | 61000 ms is `01:01` |
| MatchTimer.FormatTimeHundredMinutes | src/features/match-control/hooks/useMatchTimer.ts:8 | 6000000 ms is `100:00`: padding does not truncate |
| MatchTimer.FormatTimeNegative | src/features/match-control/hooks/useMatchTimer.ts:4-9 | -1000 ms is `-1:-1`, the truncating remainder |
| MatchTimer.UseMatchTimer | src/features/match-control/hooks/useMatchTimer.ts:31-36 | `hasStarted` iff `startTime` is set; the clock text is `formatTime(elapsedTime)`; half and playing are passed through |
| JsNumber.ParseInt | api/scrape-lineup.ts:87 | `Number.parseInt(s, 10)`; stated by `ParseIntRoundTrip`, `ParseIntPrefix`, `ParseIntLetters`, `SignWithoutDigits` and the examples below |
| JsNumber.DigitPrefix | api/scrape-lineup.ts:87 | the longest run of digits at the start of the text |
| JsNumber.ParseIntPrefix | api/scrape-lineup.ts:87 | the decimal form of an integer, followed by non-digit text, parses back to that integer |
| JsNumber.ParseIntRoundTrip | api/scrape-lineup.ts:87 | the decimal form of any integer parses back to it |
| JsNumber.ParseIntLetters | api/scrape-lineup.ts:87 | text whose first character is not white space, a sign or a digit, such as `abc`, is NaN |
| JsNumber.SignWithoutDigits | api/scrape-lineup.ts:87 | a sign not followed by a digit is NaN |
| JsNumber.ParseIntDigitsThenText | api/scrape-lineup.ts:87 | `7a` is 7 |
| JsNumber.ParseIntMinusZero | api/scrape-lineup.ts:87 | `-0` is the falsy zero |
| ScrapeDocument.JerseyNumber | api/scrape-lineup.ts:86-87 | an empty number text is 0 |
| ScrapeDocument.TableKind | api/scrape-lineup.ts:73-79 | a table counts exactly when its trimmed header is `Titulars` or `Suplents`, and is the starters' table exactly for `Titulars` |
| ScrapeDocument.RowEntry | api/scrape-lineup.ts:86-92 | a row gives an entry exactly when accepted: the parsed number and the trimmed name, non-empty and non-zero |
| ScrapeDocument.RowAcceptance | api/scrape-lineup.ts:86-92 | empty number text, NaN, zero and a blank name each reject a row; acceptance is exactly a non-empty name with a non-zero parsed number |
| ScrapeDocument.AcceptedIn | api/scrape-lineup.ts:82-110 | a table yields at most one entry per row; exactly which entries, in which order, is stated by `AcceptedInCount`, `AcceptedInAt` and `AcceptedInFrom` |
| ScrapeDocument.AcceptedInIsSomes | api/scrape-lineup.ts:82-110 | the table's entries are the present `RowEntry` values of its rows, in row order |
| ScrapeDocument.AcceptedBeforeMembers | api/scrape-lineup.ts:92 | a position counts as accepted exactly when its row passes the `name && number` test |
| ScrapeDocument.AcceptedInCount | api/scrape-lineup.ts:82-110 | the number of entries equals the number of accepted rows |
| ScrapeDocument.AcceptedInAt | api/scrape-lineup.ts:82-110 | each accepted row j gives an entry, at the position after one entry per accepted row before j, and it is that row's entry: nothing is lost and row order is kept |
| ScrapeDocument.AcceptedInFrom | api/scrape-lineup.ts:82-110 | each entry k is the entry of the accepted row with exactly k accepted rows before it: nothing is invented |
| ScrapeDocument.AcceptedInShape | api/scrape-lineup.ts:82-110 | every entry of a table has its starter flag, a non-empty name and a non-zero number |
| ScrapeDocument.TeamNamesOf | api/scrape-lineup.ts:57-63 | the team names are trimmed and non-empty, at most one per span; which names, in which order, is stated by `TeamNamesCount`, `TeamNamesAt` and `TeamNamesFrom` |
| ScrapeDocument.SpanName | api/scrape-lineup.ts:60-61 | a span gives a name exactly when its trimmed text is non-empty, and the name is that trimmed text |
| ScrapeDocument.TeamNamesIsSomes | api/scrape-lineup.ts:57-63 | the team names are the present span names, in document order |
| ScrapeDocument.NamedBeforeMembers | api/scrape-lineup.ts:61 | a position counts exactly when its span's trimmed text is non-empty |
| ScrapeDocument.TeamNamesCount | api/scrape-lineup.ts:57-63 | there are exactly as many names as non-blank spans |
| ScrapeDocument.TeamNamesAt | api/scrape-lineup.ts:57-63 | every non-blank span's trimmed text is a name, placed after one name per non-blank span before it |
| ScrapeDocument.TeamNamesFrom | api/scrape-lineup.ts:57-63 | every name k is the trimmed text of the non-blank span with exactly k non-blank spans before it |
| ScrapeDocument.TableEntries | api/scrape-lineup.ts:69-111 | a player table's accepted entries with its starter flag, none for another table; stated by `SkippedTable` and the `AcceptedIn` lemmas |
| ScrapeDocument.AcceptedRows | api/scrape-lineup.ts:69-111 | the entries of all tables in document order; stated by `AcceptedRowsShape`; `ExtractTeams` builds the teams of exactly these entries |
| ScrapeDocument.AcceptedRowsShape | api/scrape-lineup.ts:69-111 | every accepted entry of the page has a non-empty name and a non-zero number |
| ScrapeDocument.SkippedTable | api/scrape-lineup.ts:76-79 | a table with another header contributes nothing, whatever its rows |
| ScrapeExtract.SlotIsLength | api/scrape-lineup.ts:94 | the computed slot `floor(n / 2) * 2 + n % 2` is `n`, the current team count |
| ScrapeExtract.TeamName | api/scrape-lineup.ts:98 | the k-th collected name when there is one and it is non-empty, otherwise `Equipo <k+1>`; stated by `BuildTeamsShape` |
| ScrapeExtract.PlayerFor | api/scrape-lineup.ts:103-108 | the pushed player; stated by `PlayerForShape` |
| ScrapeExtract.TeamFor | api/scrape-lineup.ts:96-108 | the one-player team an entry opens; stated by `ScrapeLineup.TeamForShape` |
| ScrapeExtract.PlayerForShape | api/scrape-lineup.ts:103-108 | the player keeps the entry's number, trimmed name and starter flag, and its id starts `<team>-<number>-` |
| ScrapeExtract.BuildTeams | api/scrape-lineup.ts:94-108 | there are as many teams as accepted rows |
| ScrapeExtract.BuildTeamsShape | api/scrape-lineup.ts:94-108 | team k is named `teamNames[k]` or `Equipo k+1` and holds exactly the k-th accepted row's player |
| ScrapeExtract.BuildTeamsAppend | api/scrape-lineup.ts:94-108 | one more accepted row appends one team and leaves the others alone |
| ScrapeExtract.CollectTeamNames | api/scrape-lineup.ts:57-63 | the header loop pushes exactly the trimmed, non-empty span texts in order |
| ScrapeExtract.ExtractTeams | api/scrape-lineup.ts:66-111 | the table loop leaves the teams built from all accepted rows of all player tables in document order |
| ScrapeExtract.ReadHeader | api/scrape-lineup.ts:73-79 | the header test agrees with `TableKind`, and a skipped table has no entries |
| ScrapeExtract.ExtractTable | api/scrape-lineup.ts:82-110 | the row loop extends the teams by the table's accepted rows in order |
| ScrapeExtract.TakeRow | api/scrape-lineup.ts:83-109 | one row adds its team when accepted and nothing otherwise |
| ScrapeExtract.ReadRow | api/scrape-lineup.ts:86-92 | the trimmed cells and the `name && number` test give the row's entry |
| ScrapeExtract.PushPlayer | api/scrape-lineup.ts:94-108 | the push opens the team at the slot and adds the player, so the teams are those of one more entry |
| ScrapeLineup.Gate | api/scrape-lineup.ts:28-45 | the request reaches the fetch exactly for a POST whose `url` is a non-empty string containing `fcf.cat/acta`; every other answer is 200, 400, 405 or 500 |
| ScrapeLineup.TeamsResponse | api/scrape-lineup.ts:113-124 | 200 with teams 0 and 1 exactly when two teams were built; otherwise 500 naming the count |
| ScrapeLineup.Respond | api/scrape-lineup.ts:22-131 | the handler's answer; stated by `GateIgnoresFetch`, `GateOrder`, `FetchFailure`, `PageOutcome` and `SuccessShape` |
| ScrapeLineup.Handle | api/scrape-lineup.ts:22-131 | the handler's answer is `Respond` of the request and the fetch outcome |
| ScrapeLineup.GateIgnoresFetch | api/scrape-lineup.ts:28-48 | a request answered by the gate gets the same answer whatever the fetch would give |
| ScrapeLineup.GateOrder | api/scrape-lineup.ts:28-45 | OPTIONS gives 200, another non-POST 405, a missing or empty url 400, and a foreign url 400 with its own message |
| ScrapeLineup.FetchFailure | api/scrape-lineup.ts:49-51 | past the gate, a non-ok fetch gives 500 with `Failed to fetch: <statusText>` |
| ScrapeLineup.PageOutcome | api/scrape-lineup.ts:113-124 | past the gate, the answer is 200 exactly when two rows are accepted, with the first row's team as home and the second's as away; else 500 with the count |
| ScrapeLineup.TeamForShape | api/scrape-lineup.ts:96-108 | the team of an accepted entry holds one player with a non-zero number, a name and the `<team>-<number>-` id prefix |
| ScrapeLineup.SuccessShape | api/scrape-lineup.ts:113-124 | a successful answer has one player per team, with non-zero numbers, names and ids starting `0-<number>-` and `1-<number>-` |
| LineupImporter.ValidationError | src/features/lineup/components/LineupImporter.tsx:15-23 | empty-URL error iff the trimmed URL is empty; domain error iff non-empty without `fcf.cat/acta`; no error iff non-empty with it |
| LineupImporter.ImportDisabled | src/features/lineup/components/LineupImporter.tsx:67 | an enabled button never produces the empty-URL error |
| LineupImporter.StatusMessage | src/features/lineup/components/LineupImporter.tsx:38 | the thrown message for a failed status; stated by `StatusMessageShape` |
| LineupImporter.StatusMessageShape | src/features/lineup/components/LineupImporter.tsx:37-39 | the message starts `Error `, the status parses back from what follows, and it ends with the status text |
| LineupImporter.Settle | src/features/lineup/components/LineupImporter.tsx:28-45 | data reaches `onImported` exactly for an ok response with a JSON body; otherwise the message follows the thrown value, the fallback being used for a non-Error |
| LineupImporter.Importer.constructor | src/features/lineup/components/LineupImporter.tsx:10-12 | an empty URL, not loading, no error |
| LineupImporter.Importer.SetUrl | src/features/lineup/components/LineupImporter.tsx:57 | typing changes only the URL |
| LineupImporter.Importer.HandleImport | src/features/lineup/components/LineupImporter.tsx:14-26 | the request is sent exactly when the URL passes; sending sets `loading` and clears the error; a refusal sets its error and leaves `loading` |
| LineupImporter.Importer.Complete | src/features/lineup/components/LineupImporter.tsx:28-47 | `loading` ends false on every outcome; the data is delivered or its message stored |
| LineupImporter.ImportOnce | src/features/lineup/components/LineupImporter.tsx:14-47 | from a fresh form, a refused URL shows its error and never loads; a sent one ends not loading, delivering the data with no error or showing the failure |
| LineupImporter.AcceptedUrlPassesGate | src/features/lineup/components/LineupImporter.tsx:20-23 | a URL the form sends passes the endpoint's gate when posted as `url` |
| LineupImporter.BlankUrlRefusedByForm | src/features/lineup/components/LineupImporter.tsx:15-18 | a URL of white space is refused by the form as empty, and by the endpoint only for the missing report path |

## Left out

- The CORS headers, the Vercel response object and `console.error` (api/scrape-lineup.ts:24-26, 126): output side effects. The handler's answer is a `Response` value.
- `fetch` and `response.text()` in the endpoint, and the request in the import form: network I/O. Their outcome is an input: `Fetch` in the endpoint, `Outcome` in the form.
- cheerio and the CSS selectors: a foreign library. A page is the text those selectors yield.
- The `Error al procesar la página` fallback (api/scrape-lineup.ts:128) cannot occur in the model. Every failure the model represents (an unreadable body, a rejected fetch, a failed status) carries an `Error` message.
- A `url` field that is present but not a string is folded into `Fields(None)`. It gets the same 400 answer as a missing one.
- `Date.now()` and `Math.random()` in player ids become `stamp(k)`, and `crypto.randomUUID()` in events becomes `eventId`. They are parameters; the model makes no uniqueness claim about ids.
- The recurring timer in `useMatchTimer` (`setInterval`/`clearInterval`, useMatchTimer.ts:15-29): scheduling. UPDATE_TIME is modelled as an action.
- MatchTimer.FormatTimeRoundTrip: stated only for non-negative elapsed times, because a clock that ran backwards gives signed parts. `FormatTimeNegative` shows one such case.
- MatchExport.FormatMinuteSpec: stated only for non-negative timestamps, which is what the recorder stores (`elapsedTime`).
- EventLog.LogMinute: likewise only for non-negative timestamps.
- MatchExport.ExportCsvRoundTrip: requires names without double quotes or line breaks. The export does not escape them, so such names break the read-back.
- The JSON export and the Blob download in MatchExport.tsx: file output.
- The StatBar widths (MatchStats.tsx:20-35): floating-point percentages.
- Rendering and styling: Button, Card, App, the MatchTimer display, LineupPage, LineupManual and main.tsx.
- The `matchActions` creators (MatchContext.tsx:103-126) each build one `MatchContext.Action` constructor with its payload. The datatype is that mapping, so no separate function is given.
- `MatchContext`'s context plumbing (`createContext`, `useMatch` and its error outside a provider): React wiring.
- Numbers are unbounded integers. `Number.parseInt` loses precision above 2^53, and fractional millisecond times are not modelled.
- The body of `response.json()` in the form is taken to be line-up data when it parses. Its shape is not checked, since the code does not check it either.
- `onBackToLineup` in the reset handler: navigation between screens.

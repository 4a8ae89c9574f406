# Planning poker: a Dafny model of the room state machine and its helpers

This project models the core of a planning-poker web application in Dafny:

- the server-side room store and the reducer that applies socket events to a
  room (join, leave, vote, reveal, new round, timer start/stop, rename, story);
- the consensus rule and the card decks;
- the aggregates on the results card: average, median, consensus badge, vote
  and confidence tallies and the order of the vote distribution;
- the browser's recent-rooms list;
- the round timer's countdown and its `m:ss` display;
- the avatar initials and the guarded name change in the user menu.

One Dafny module stands for each source file: `Route`, `Types`, `SocketEvents`
(the event datatype), `ResultsTable`, `Storage`, `TimerDisplay` and `UserMenu`.
`Numerals` holds decimal parsing and printing and `Wrappers` holds `Option`.
State that the source updates in place is a class:
- `Route.RoomStore` owns the map from room id to room;
- `Storage.RecentRoomsStore` owns the stored list and user name;
- `TimerDisplay.Display` holds the countdown state;
- `UserMenu.Menu` holds the dialog state.

Each of these classes has a method per handler. The pure computations are
functions, and lemmas state their properties. The tallies in the results
card are loop methods proved against counting functions.

A method and the function it is proved against are kept apart on purpose. The
function is the specification, and the method's `ensures` ties the two:
- `Route.RoomStore.Post` mutates the stored room case by case, and its result
  is `Apply` of the old room;
- `Storage.RecentRoomsStore.GetRecentRooms` is the handler, and `RecentRooms`
  is the reading it is proved against;
- `TimerDisplay.Display.Render` computes the shown text and warning, and its
  results are `FormatTime` and `ShowsWarning` of the current state.

Several contracts only describe one step, and their rows below say so. They cover the cases of the reducer
(`JoinAddsOnlyNewIds`, `FlagEvents`, `StoryAndUnknownEvents`) and the functions
`Votes`, `Entries`, `ToUpper`, `Tick` and `Sync`. They document the frame of
each step. The properties the source promises are carried by these lemmas and
methods:
- `ConsensusRule`, `ConsensusIgnoresOrder`;
- `TallyOfCounts` with `VoteCounts`, `ConfidenceCounts`;
- `SortDistribution` with `ComparatorMatchesRank`, `QuestionMarkListedLast`;
- `MedianBetweenMinAndMax`, `AverageBetweenMinAndMax`;
- `UniqueIdsOverAnyEvents`, `WithoutParticipantConcat`, `RoomStore.Post`;
- `RecentRoomShape`, `RecentRoomIdempotent`, `WithoutRoomConcat`;
- `CountdownCompletesOnce`, `TicksNeverRaise`, `FormatTimeRoundTrip`;
- `WordStartsSplit`, `InitialsAreWordStarts`, `TrimShape`, `SavedNamesAreClean`.

The timer's effect lists `onComplete` among its dependencies
(components/room/timer-display.tsx:34). The room page passes `handleRevealVotes`,
a function created afresh on every render (app/room/[id]/page.tsx:212). So
every render of the page re-runs the effect, even when `isActive` and
`duration` are unchanged. `TimerDisplay.Display.SetProps` models one such
re-run: it clears the old interval and, while the timer is active, starts a new
one, keeping the time shown.

Votes are strings. A vote counts as a number when it is a non-empty string of
ASCII digits; every numeric card in the decks is such a string.

The reducer applies a `vote-cast` event even after the votes are revealed, and
also for a spectator. The distribution orders non-numeric labels as 0, not
alphabetically.

## Model

| member | source | states |
|---|---|---|
| SocketEvents.TypeName | lib/socket-events.ts:1-10 | the type string of an event; for an event a client can send, it is one of the nine known types exactly when the event is not `Unknown` |
| Route.Apply | app/api/socket/route.ts:36-75 | the reducer: one case per event type, the unknown type returning the room as it was; no contract of its own, its properties are the lemmas JoinAddsOnlyNewIds to ApplyKeepsUniqueIds below |
| Route.ApplyAll | app/api/socket/route.ts:36-77 | a sequence of events applied one after another; no contract of its own, its property is UniqueIdsOverAnyEvents |
| Route.WithoutParticipant | app/api/socket/route.ts:44 | no participant with the id remains; a participant stays exactly when its id differs; the list never grows |
| Route.WithoutParticipantConcat | app/api/socket/route.ts:44 | removing by id distributes over concatenation, so the participants kept stay in their original order with none dropped or repeated |
| Route.CastVote | app/api/socket/route.ts:46-49 | same length; the matching entries get the new vote and confidence; all others are unchanged |
| Route.Rename | app/api/socket/route.ts:65-69 | same length; the matching entries get the new name; all others are unchanged |
| Route.ClearVotes | app/api/socket/route.ts:56 | same length; every entry loses its vote and confidence and keeps everything else |
| Route.JoinAddsOnlyNewIds | app/api/socket/route.ts:37-42 | a step statement, not a property (the properties are in the lemmas listed before this table): a known id changes nothing; a new id is appended at the end with no vote |
| Route.RejoinIsNoOp | app/api/socket/route.ts:37-42 | joining a second time with the same id, under any name, is a no-op |
| Route.LeaveRemovesEveryMatch | app/api/socket/route.ts:43-45 | every participant with the id is gone; the others stay; flags and story are unchanged; an unknown id changes nothing |
| Route.VoteTouchesOnlyVoter | app/api/socket/route.ts:46-50 | only the voter's vote and confidence change; length, order, the other participants, flags and story are kept |
| Route.RenameTouchesOnlyNamed | app/api/socket/route.ts:65-69 | only the named participant's name changes; everything else is kept |
| Route.UnknownUserIsNoOp | app/api/socket/route.ts:46-49 | a vote or a rename for an id nobody has leaves the room unchanged |
| Route.FlagEvents | app/api/socket/route.ts:51-64 | a step statement, not a property (the properties are in the lemmas listed before this table): reveal sets the revealed flag to the payload and always stops the timer; timer start and stop set only the timer flag |
| Route.NewRoundClearsVotes | app/api/socket/route.ts:55-58 | every vote and confidence is cleared and votes are hidden; ids, names, spectator flags, order, timer and story are kept |
| Route.StoryAndUnknownEvents | app/api/socket/route.ts:70-75 | a step statement, not a property (the properties are in the lemmas listed before this table): a story update sets only the story; an unknown event type changes nothing |
| Route.WithoutParticipantKeepsUniqueIds | app/api/socket/route.ts:44 | removing by id keeps ids unique |
| Route.ApplyKeepsUniqueIds | app/api/socket/route.ts:36-75 | every event keeps participant ids unique |
| Route.UniqueIdsOverAnyEvents | app/api/socket/route.ts:36-77 | participant ids stay unique over any sequence of events |
| Route.RoomStore.constructor | app/api/socket/route.ts:4 | the store starts empty |
| Route.Missing | app/api/socket/route.ts:9 | a room id or event counts as missing when absent or empty; a helper of Get and Post with no contract of its own |
| Route.LookupOrDefault | app/api/socket/route.ts:13-17 | the stored room, or the default room for an unseen id; a helper of Get and Post with no contract of its own |
| Route.RoomStore.Get | app/api/socket/route.ts:6-20 | a missing or empty id is a 400 "Room ID required"; a known room is returned; an unknown one yields the default room and is not stored |
| Route.RoomStore.Post | app/api/socket/route.ts:22-80 | a missing id or event is a 400 "Room ID and event required" and changes nothing; otherwise the room (or the default) has the event applied and is stored under its id, every other room is untouched, and a warning is produced exactly for an unknown event type |
| Numerals.ParseNat | lib/types.ts:77 | a value is produced exactly for non-empty all-digit strings |
| Numerals.NatToString | components/room/timer-display.tsx:46 | digits only, denoting the number, no leading zero, and one digit exactly below 10 |
| Types.IsNumericVote | lib/types.ts:77 | a vote is numeric when it is not "?" and is a numeral; no contract of its own |
| Types.NumericValues | lib/types.ts:77 | the numeric votes are never more than the votes; order and multiplicity are fixed by NumericValuesConcat and NumericValuesSingle |
| Types.NumericValuesConcat | lib/types.ts:77 | filtering distributes over concatenation: the numbers kept are in vote order, each numeric vote contributing once |
| Types.NumericValuesSingle | lib/types.ts:77 | one vote yields its number when it is numeric and nothing otherwise |
| Types.NumericValuesMembers | lib/types.ts:77 | some numeric value exists exactly when some vote is numeric, and the values are exactly the numbers the numeric votes spell |
| Types.MaxOf | lib/types.ts:86 | the maximum is one of the values and no value exceeds it |
| Types.MinOf | lib/types.ts:85 | the minimum is one of the values and no value is below it |
| Types.CheckConsensus | lib/types.ts:73-89 | `checkConsensus`; no contract of its own, its properties are ConsensusRule and the lemmas below |
| Types.ConsensusRule | lib/types.ts:73-89 | consensus holds exactly when there is a vote and either every pair of numeric votes is within 2 (if any is numeric) or all votes are equal |
| Types.ConsensusIgnoresOrder | lib/types.ts:77-88 | any reordering of the votes gives the same answer |
| Types.IdenticalVotesAgree | lib/types.ts:73-88 | a non-empty list of identical votes (a single vote included) reaches consensus |
| Types.ConsensusOnEqualNumbers | lib/types.ts:84-88 | ["5","5","5"] reaches consensus |
| Types.ConsensusOnCloseNumbers | lib/types.ts:84-88 | ["1","2","3"] reaches consensus |
| Types.NoConsensusOnSpreadNumbers | lib/types.ts:84-88 | ["1","2","5"] does not |
| Types.ConsensusOnLabels | lib/types.ts:73-82 | [] does not; ["XS","XS"] and ["?","?"] do; ["XS","S"] does not |
| Types.DeckValues | lib/types.ts:51-64 | the cards of each deck in order; no contract of its own, its properties are the deck lemmas below |
| Types.FibonacciDeckWellFormed | lib/types.ts:52-55 | the Fibonacci deck has distinct cards, ends with "?" and its numbers ascend strictly |
| Types.TShirtDeckWellFormed | lib/types.ts:56-59 | the T-shirt deck has distinct cards and ends with "?" |
| Types.PowersOfTwoDeckWellFormed | lib/types.ts:60-63 | the powers-of-2 deck has distinct cards, ends with "?" and its numbers ascend strictly |
| Types.DecksWellFormed | lib/types.ts:51-64 | every deck is well formed |
| ResultsTable.NumericVotes | components/room/results-table.tsx:18-19 | the votes without "?" and non-numerals, as numbers; no contract of its own, its properties are NumericValuesMembers, NumericValuesConcat and NumericValuesSingle |
| ResultsTable.Average | components/room/results-table.tsx:21 | sum over count, or 0 for no numbers; no contract of its own, its properties are AverageBetweenMinAndMax and AverageExample |
| ResultsTable.Votes | components/room/results-table.tsx:32 | a step statement, not a property (the properties are in the lemmas listed before this table): one vote per result, in order |
| ResultsTable.AverageBetweenMinAndMax | components/room/results-table.tsx:21 | with some numeric votes, the average lies between their minimum and maximum |
| ResultsTable.AverageExample | components/room/results-table.tsx:21 | the votes 1, 2, 3 average 2 |
| ResultsTable.Median | components/room/results-table.tsx:23-30 | 0 for no numbers, otherwise the middle of the ascending copy; no contract of its own, its properties are the median lemmas below |
| ResultsTable.Middle | components/room/results-table.tsx:27-28 | the middle element, or the mean of the two middle elements; no contract of its own, its property is MedianOfSorted |
| ResultsTable.SortAscending | components/room/results-table.tsx:26 | the sorted copy is ascending and a permutation of the votes |
| ResultsTable.SortedUnique | components/room/results-table.tsx:26 | two ascending permutations of the same values are equal, so the sorted copy is determined |
| ResultsTable.MedianOfSorted | components/room/results-table.tsx:26-28 | on sorted values the median is the middle value, or the mean of the two middle values for an even count |
| ResultsTable.MedianIgnoresOrder | components/room/results-table.tsx:23-30 | the median does not depend on the order of the votes |
| ResultsTable.MedianBetweenMinAndMax | components/room/results-table.tsx:23-30 | with some numeric votes, the median lies between their minimum and maximum |
| ResultsTable.NumericExampleVotes | components/room/results-table.tsx:18-19 | "1","2","3","5" are read as 1, 2, 3, 5 |
| ResultsTable.MedianExample | components/room/results-table.tsx:23-30 | the median of "1","2","3","5" is 2.5 |
| ResultsTable.TallyOf | components/room/results-table.tsx:34-40 | the vote tally built one vote at a time; no contract of its own, its properties are TallyOfCounts |
| ResultsTable.KeysOf | components/room/results-table.tsx:34-40 | the tally's keys in insertion order; no contract of its own, its properties are KeysOfDistinct |
| ResultsTable.TallyOfCounts | components/room/results-table.tsx:34-40 | the tally has a key exactly for each cast vote, holding how often it was cast, and its counts add up to the number of votes |
| ResultsTable.KeysOfDistinct | components/room/results-table.tsx:34-40 | the keys are exactly the cast votes, each once |
| ResultsTable.VoteCounts | components/room/results-table.tsx:34-40 | one key per distinct vote; each count is the vote's multiplicity and at least 1; the counts add up to the number of results; the key order has no repeats |
| ResultsTable.CountConfidence | components/room/results-table.tsx:42-50 | how many results carry a given confidence; no contract of its own, its property is ConfidenceCounts |
| ResultsTable.CountWithConfidence | components/room/results-table.tsx:42-50 | how many results carry any confidence; no contract of its own, its property is ConfidenceCounts |
| ResultsTable.ConfidenceCounts | components/room/results-table.tsx:42-50 | a level is a key exactly when some result has it; each count is that level's number of results; the counts add up to the results that carry a confidence |
| ResultsTable.NumberOrZero | components/room/results-table.tsx:118 | a numeral's value, or 0 for anything else; no contract of its own |
| ResultsTable.CompareVotes | components/room/results-table.tsx:115-119 | the sort comparator; no contract of its own, its properties are ComparatorMatchesRank and RankTransitive |
| ResultsTable.ComparatorMatchesRank | components/room/results-table.tsx:115-119 | for any two keys not both "?", the comparator puts a no later than b exactly when b is "?", or neither is "?" and a's number (0 for labels) is at most b's; and when it puts a strictly first, b is not also no later than a |
| ResultsTable.RankTransitive | components/room/results-table.tsx:115-119 | the display order is transitive |
| ResultsTable.SortDistribution | components/room/results-table.tsx:114-119 | the distribution comes out in display order and is a permutation of the entries |
| ResultsTable.UnsureSortsLast | components/room/results-table.tsx:116-117 | in display order, a "?" entry forces the last entry to be "?" |
| ResultsTable.QuestionMarkListedLast | components/room/results-table.tsx:114-119 | when "?" was voted, it is the last distribution entry |
| ResultsTable.DistributionByValue | components/room/results-table.tsx:114-119 | ?, 5, 13 are listed as 5, 13, ? |
| ResultsTable.DistributionLabelsAsZero | components/room/results-table.tsx:118 | a label sorts as 0, so "XS" comes before "1" |
| ResultsTable.Entries | components/room/results-table.tsx:114 | a step statement, not a property (the properties are in the lemmas listed before this table): one (vote, count) pair per key, in key order |
| ResultsTable.DistributionCounts | components/room/results-table.tsx:114-126 | every listed count is the vote's multiplicity and at least 1 |
| ResultsTable.DistributionCoversVotes | components/room/results-table.tsx:114-126 | a vote is listed exactly when someone cast it |
| ResultsTable.DistributionKeysDistinct | components/room/results-table.tsx:114-126 | no vote is listed twice |
| ResultsTable.UnsureInsertedLast | components/room/results-table.tsx:116-117 | a "?" entry inserted into a sorted list without "?" lands at the end |
| ResultsTable.Distribution | components/room/results-table.tsx:114-126 | the distribution is in display order, lists each cast vote exactly once with its multiplicity, and nothing else |
| ResultsTable.Render | components/room/results-table.tsx:13-140 | nothing is shown exactly when there are no results. Otherwise the card shows: the consensus badge over all votes ("?" included); average and median over the numeric votes, each shown only when requested and some vote is numeric; the confidence tally, shown when non-empty; and a sorted, complete, repeat-free distribution |
| Storage.WithoutRoom | lib/storage.ts:16 | no entry with the id remains; exactly the other entries stay; the list never grows; order and multiplicity are fixed by WithoutRoomConcat and WithoutRoomSingle |
| Storage.WithoutRoomConcat | lib/storage.ts:16 | filtering distributes over concatenation, so the rooms kept stay in their old order with none dropped or repeated |
| Storage.WithoutRoomSingle | lib/storage.ts:16 | one room is kept exactly when its id differs |
| Storage.Take | lib/storage.ts:17 | the result is the first min(n, length) entries |
| Storage.WithRecentRoom | lib/storage.ts:16-17 | the visited room in front of the others, cut to five; no contract of its own, its properties are RecentRoomShape and RecentRoomIdempotent |
| Storage.RecentRoomShape | lib/storage.ts:14-19 | after a visit the list holds 1 to 5 rooms; the visited room comes first and is the only entry with its id; the rest is a prefix of the old list without that id, in the old order |
| Storage.RecentRoomIdempotent | lib/storage.ts:16-17 | adding the same room twice gives the same list as adding it once |
| Storage.WithRoomUpdate | lib/storage.ts:23 | same length and order; matching entries are merged with the update; others are unchanged |
| Storage.Merge | lib/storage.ts:23 | the spread of an update over a room; no contract of its own, its property is MergeOverrides |
| Storage.MergeOverrides | lib/storage.ts:23 | present update fields win; absent ones keep the stored value; an empty update changes nothing |
| Storage.UpdateUnknownRoom | lib/storage.ts:21-25 | updating an id that is not in the list leaves it unchanged |
| Storage.RecentRoomsStore.constructor | lib/storage.ts:8-12 | a fresh browser storage: no room list and no user name stored |
| Storage.RecentRoomsStore.RecentRooms | lib/storage.ts:8-12 | the stored list, or the empty list when nothing is stored |
| Storage.RecentRoomsStore.GetRecentRooms | lib/storage.ts:8-12 | a step statement, not a property (the properties are in the lemmas listed before this table): returns the stored list, or the empty list |
| Storage.RecentRoomsStore.AddRecentRoom | lib/storage.ts:14-19 | stores the old list with the room moved to the front and cut to five; the user name is kept |
| Storage.RecentRoomsStore.UpdateRecentRoom | lib/storage.ts:21-25 | stores the old list with the matching entries merged; the length and the user name are kept |
| Storage.RecentRoomsStore.GetUserName | lib/storage.ts:27-30 | returns the stored name, if any |
| Storage.RecentRoomsStore.SetUserName | lib/storage.ts:32-34 | stores the name and keeps the room list |
| TimerDisplay.Tick | components/room/timer-display.tsx:23-30 | a step statement, not a property (the properties are in the lemmas listed before this table): with no interval nothing changes; at 1 second or less the countdown shows 0, stops and reports completion once; otherwise one second is taken off |
| TimerDisplay.Sync | components/room/timer-display.tsx:16-34 | a step statement, not a property (the properties are in the lemmas listed before this table): an inactive timer shows the full duration and has no interval; an active one (re)starts its interval and keeps the time shown |
| TimerDisplay.Ticks | components/room/timer-display.tsx:22-31 | n firings of the interval in a row; no contract of its own, its properties are the countdown lemmas below |
| TimerDisplay.StoppedStaysPut | components/room/timer-display.tsx:25 | once the interval is cleared, no later tick changes anything |
| TimerDisplay.CountdownCompletesOnce | components/room/timer-display.tsx:22-30 | from d ≥ 1 seconds, tick n < d shows d − n, and from tick d on the timer shows 0, is stopped and has reported completion exactly once |
| TimerDisplay.TicksNeverRaise | components/room/timer-display.tsx:23-30 | ticking never raises the time shown and reports completion at most once |
| TimerDisplay.ResetRestoresDuration | components/room/timer-display.tsx:17-20 | after the timer is switched off it shows the full duration, however many ticks follow |
| TimerDisplay.FormatTime | components/room/timer-display.tsx:46 | whole minutes, ":" and the seconds padded to two digits; no contract of its own, its properties are FormatTimeRoundTrip and FormatTimeExamples |
| TimerDisplay.PadStart | components/room/timer-display.tsx:46 | the result has the requested width (or the string's own length), ends with the string and is padded with the pad character |
| TimerDisplay.SecondsField | components/room/timer-display.tsx:46 | the seconds field is exactly two digits and reads back as the seconds |
| TimerDisplay.FormatTimeRoundTrip | components/room/timer-display.tsx:46 | the text shown reads back as minutes × 60 + seconds, i.e. it determines the time left |
| TimerDisplay.FormatTimeExamples | components/room/timer-display.tsx:46 | 65 seconds show as "1:05" and 600 as "10:00" |
| TimerDisplay.ShowsWarning | components/room/timer-display.tsx:36-37 | active with under a quarter of a non-zero duration left; no contract of its own, its property is WarningStaysOn |
| TimerDisplay.WarningStaysOn | components/room/timer-display.tsx:36-37 | once the low-time warning is on, a tick keeps it on |
| TimerDisplay.Display.constructor | components/room/timer-display.tsx:13-14 | the countdown starts at the duration, then the effect runs once |
| TimerDisplay.Display.SetProps | components/room/timer-display.tsx:16-34 | new props re-run the effect: the state becomes the synced state of the old one |
| TimerDisplay.Display.OnInterval | components/room/timer-display.tsx:22-31 | one interval firing is one tick of the countdown; the props are kept |
| TimerDisplay.Display.Render | components/room/timer-display.tsx:36-46 | a step statement, not a property (the properties are in the lemmas listed before this table): the text is the m:ss form of the time left; the warning is on exactly when active and under a quarter of a non-zero duration is left |
| UserMenu.SplitOnSpace | components/room/user-menu.tsx:38 | at least one word and no word contains a space |
| UserMenu.SplitJoinRoundTrip | components/room/user-menu.tsx:38 | joining the words with single spaces gives back the name |
| UserMenu.FirstChars | components/room/user-menu.tsx:39-40 | at most one character per word |
| UserMenu.UpperAscii | components/room/user-menu.tsx:41 | a lower-case ASCII letter becomes its capital; any other character is kept; the result is never lower-case |
| UserMenu.ToUpper | components/room/user-menu.tsx:41 | a step statement, not a property (the properties are in the lemmas listed before this table): same length; each character is upper-cased |
| UserMenu.GetInitials | components/room/user-menu.tsx:36-43 | at most two characters, none a lower-case ASCII letter |
| UserMenu.WordStarts | components/room/user-menu.tsx:37-40 | the non-space characters at the start of the name or right after a space; contains no space; the reference that WordStartsSplit ties the initials to |
| UserMenu.WordStartsSplit | components/room/user-menu.tsx:37-40 | the first characters of the split words are exactly the non-space characters at the start of the name or right after a space |
| UserMenu.InitialsAreWordStarts | components/room/user-menu.tsx:36-43 | the initials are the first two word starts, in order, upper-cased |
| UserMenu.InitialsHaveNoSpace | components/room/user-menu.tsx:36-43 | the initials contain no space |
| UserMenu.InitialsExamples | components/room/user-menu.tsx:36-43 | "" gives "" and "al" gives "A" |
| UserMenu.InitialsSkipEmptyWords | components/room/user-menu.tsx:38-40 | "a  b" gives "AB": the empty word adds nothing |
| UserMenu.InitialsKeepTwo | components/room/user-menu.tsx:42 | "a b c" gives "AB" |
| UserMenu.LeadingSpace | components/room/user-menu.tsx:46 | counts exactly the white space at the start |
| UserMenu.TrailingSpace | components/room/user-menu.tsx:46 | counts exactly the white space at the end |
| UserMenu.TrimStart | components/room/user-menu.tsx:46 | the name without its leading white space; no contract of its own, its properties are LeadingSpace and TrimShape |
| UserMenu.TrimEnd | components/room/user-menu.tsx:46 | the name without its trailing white space; no contract of its own, its properties are TrailingSpace and TrimShape |
| UserMenu.Trim | components/room/user-menu.tsx:46 | `trim()`; no contract of its own, its properties are TrimShape, TrimBlank and TrimIdempotent |
| UserMenu.TrimShape | components/room/user-menu.tsx:46 | the trimmed name is a contiguous piece of the name with only white space cut on either side and none left at its ends |
| UserMenu.TrimBlank | components/room/user-menu.tsx:46 | trimming gives "" exactly when the name is all white space |
| UserMenu.TrimIdempotent | components/room/user-menu.tsx:46 | trimming twice is trimming once |
| UserMenu.SavedNamesAreClean | components/room/user-menu.tsx:45-50 | every name handed on is already trimmed and not blank |
| UserMenu.Menu.constructor | components/room/user-menu.tsx:33-34 | the dialog starts closed with the current name typed in |
| UserMenu.Menu.SaveDisabled | components/room/user-menu.tsx:111 | the save button is disabled exactly when the typed name is all white space |
| UserMenu.Menu.OpenEditDialog | components/room/user-menu.tsx:72 | opens the dialog and changes nothing else |
| UserMenu.Menu.CloseEditDialog | components/room/user-menu.tsx:108 | closes the dialog and changes nothing else |
| UserMenu.Menu.TypeName | components/room/user-menu.tsx:96 | replaces the typed name and changes nothing else |
| UserMenu.Menu.HandleSaveName | components/room/user-menu.tsx:45-50 | a name that is not blank is handed on trimmed and closes the dialog; a blank one changes nothing and the dialog stays as it was |
| UserMenu.Menu.Initials | components/room/user-menu.tsx:59 | the avatar shows the initials of the current user name |

## Left out

- HTTP and JSON plumbing of the route handlers: requests arrive already decoded as an optional room id and an optional event, and responses are a `Response` datatype.
- Concurrency: the handlers run one at a time. The lost update between reading and storing a room under concurrent requests is not modelled.
- The polling socket provider, the fetch calls and React rendering are not part of this model; the interval is a method call per second.
- JavaScript number parsing: `Number` and `parseFloat` accept "", white space, decimals, signs, exponents and prefixes such as "5abc". Here a vote is numeric only when it is a non-empty digit string. In particular the source counts an empty vote string as the number 0 in the consensus rule; the model does not.
- Floating point: average and median are exact `real`s. `toFixed(1)` rounding and the percentage widths of the bars are not modelled.
- `localStorage` and `JSON.parse` are replaced by fields holding decoded values, and the server-side (no window) branch of the storage readers is not modelled.
- Unicode: upper-casing covers ASCII letters only, and strings are sequences of code points rather than UTF-16 units, so the initials of names with characters outside the Basic Multilingual Plane, or whose upper case is longer (such as "ß"), differ.
- The confidence level in a vote event is typed as low, medium or high. The source's event type allows any string.
- Timer durations and times are natural numbers; negative durations are not modelled, and the duration carried by a timer-started event is ignored, as in the source.
- The order of object keys: JavaScript lists integer-like keys first when iterating over the vote tally. The model keeps first-cast order, which affects only the order of entries that the distribution sort ranks as equal.
- The moderator, room settings and share dialogs, the QR service and random room ids are outside the modelled core.
- UserMenu.Menu.HandleSaveName: the call to `onNameChange` is modelled as appending to a list of handed-on names; what the parent does with the name is not part of this model.

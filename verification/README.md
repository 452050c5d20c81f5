# Raffle-o-matic in Dafny

A model of the PRO3 raffle: the drawing engine of `src/main.ts` and its JavaScript twin
`main.js`, the line parsers of `src/models.ts`, the winners-history fold of
`src/v1loaders.ts`, and the award-registry builder of `src/converter.ts`.

- `common.dfy` — `Option`, JavaScript's `filter`, subsequences, sums, and a stable insertion
  sort that stands for `Array.prototype.sort`.
- `text.dfy` — the string operations the parsers use: `split` on one character, `trim`, the
  whitespace-and-quote strip, removal of a trailing `(...)`, and indexing past the end of a
  split line (`undefined`).
- `models.dfy` — the records (`Car`, `RaceResult`, `PrizeDescriptor`, `Prize`, `PrizeWinner`,
  `PrizeAward`, `RoundResults`) and the four `parse...FromLine` functions.
- `eligibility.dfy` — `hasSticker`, the Toyo cooldown window `hasWonToyo`, and
  `getCandidates`. A `Variant` value (`MainTs` or `MainJs`) selects between the two
  implementations where they differ.
- `catalog.dfy` — `loadPrizes` without the file reading: drive counts per race, the
  expansion of sponsor lines into prizes, the Toyo payout table `setToyoAmounts`, and the
  Fisher–Yates `randomize`.
- `drawing.dfy` — one drawing round `draw`, and the round loop that repeats it.
- `v1loader.dfy` — `loadV1Winners`: the fold that groups first-generation winners by race
  number, and the last race.
- `converter.dfy` — the registry builder: the awards of each winner row, `upsertEventRecord`,
  `upsertRaceRecord`, filing each row, and the final sorting and counting pass.

`Math.random` becomes a choice of any index in the stated range (`0 <= j <= i` in the
shuffle, `0 <= winnerIndex < |candidates|` in the draw). `Draw` returns the chosen indices
as ghost `picks`, and every property of a round or of the raffle is proved for all choices.

The registry's record list is changed in place, so `AwardRegistry` is a class with a
`records` field. The records themselves are values, and a record the source returns by
reference is an index here.

Where the code and its written description differ, the model follows the code:

- The round loop of `src/main.ts` runs while `round < 5`, so at most four rounds.
- Race prizes go to races 1 to the number of distinct races with drives. They do not go to
  the race identifiers themselves.
- A race with more than 60 drives finds no entry in the 61-entry payout table. Its Toyo
  amount is `undefined`, not 600.
- `src/main.ts` gives a weekend prize the per-race amount; `main.js` gives it the per-weekend
  amount.

## Model

| member | source | states |
|---|---|---|
| Common.Filter | src/main.ts:198-203 | `Array.prototype.filter`: every kept element passes the test, every passing element is kept, and the result is an in-order subsequence |
| Common.FilterCount | src/main.ts:198-203 | each element occurs in the result exactly as often as in the input when it passes the test, and not at all otherwise |
| Common.SortBy | src/converter.ts:124 | `sort` with a comparator: the result has the input's length and multiset (stability, which the insertion order gives, is not stated as a contract) |
| Common.SortByApply | src/converter.ts:124 | sorting permutes the elements, so the multiset of any value computed from each element is unchanged |
| Common.SortBySorted | src/converter.ts:120-127 | the sorted list is ordered whenever the comparator is a strict order |
| Common.SortBySum | src/converter.ts:118-130 | sorting a list does not change any sum over its elements, so the award count survives the sort |
| Text.Split | src/models.ts:22 | `split(",")`: never empty; one part exactly when the separator is absent; no part holds the separator; joining the parts gives back the line |
| Text.SplitJoin | src/models.ts:22 | round trip: splitting the join of separator-free parts gives back the parts |
| Text.Column | src/models.ts:24-35 | `values[k]` is `undefined` past the end of the split line, and the column otherwise |
| Text.Trim | src/models.ts:24-25 | `trim`: removes exactly the leading and trailing JavaScript whitespace and keeps the rest as a contiguous slice |
| Text.TrimIdempotent | src/models.ts:126 | trimming a trimmed string changes nothing |
| Text.StripQuotes | src/models.ts:50 | the two `replace` calls remove exactly the leading and trailing run of whitespace and double quotes |
| Text.StrippedIsUnique | src/models.ts:50 | a string has only one stripped form, so the strip is well defined |
| Text.RemoveParenSuffix | src/models.ts:126 | `replace(/\(.*\)$/, "")` gives a prefix; the string is unchanged iff the pattern matches nowhere; otherwise it is cut at the leftmost match |
| Text.CleanWinnerColumn | src/models.ts:126 | a cleaned column is the trimmed column with a trailing `(...)` removed, trimmed again |
| Models.ParseCarFromLine | src/models.ts:20-38 | fails iff the line has no comma; number and driver are trimmed columns 0 and 1; the all-stickers flag (column 2) and each sponsor flag (columns 3 to 11) is true iff its raw column exists and is non-empty, with RoR in column 9 and Redline in column 10 |
| Models.StrippedColumns | src/models.ts:50 | one stripped column per split column |
| Models.ParseRaceResultFromLine | src/models.ts:49-61 | raceId is the argument; driver, number, class and gap are stripped columns 0, 3, 4 and 5, each `undefined` iff its column is missing |
| Models.TrimmedColumns | src/models.ts:82 | one trimmed column per split column |
| Models.ParsePrizeDescriptorFromLine | src/models.ts:81-93 | columns 0, 1, 3, 4, 5, 6 and 7 fill sponsor, type, perRace, perRaceCount, weekend, perWeekendCount and perWeekend; column 2 is ignored |
| Models.CleanedColumns | src/models.ts:126 | one cleaned column per split column |
| Models.RaceNumberColumn | src/models.ts:133 | the number after the first space of column 1 when that column is non-empty, else the current race number |
| Models.WinnerFromColumns | src/models.ts:131-144 | event from column 0, sponsors from columns 2 to 10, with Redline in column 8 and RoR in column 9 |
| Models.ParsePrizeWinnerFromLine | src/models.ts:125-145 | `null` iff every cleaned column is empty, otherwise the record of the cleaned columns |
| Eligibility.CarField | src/main.ts:206-210 | `car[sponsorName]` read as a truth value: it can be true only for one of the roster object's own keys, which are the `Car` fields (src/models.ts:3-16) for `src/main.ts` and the eight sponsor keys and `number` of the object literal (main.js:51-53) for `main.js` |
| Eligibility.CarFieldVariants | main.js:51-53 | the two roster objects read the commonly spelled sponsors alike, and the `main.js` object never yields an Alpinestars or ProFormance sticker |
| Eligibility.HasSticker | main.js:158-162 | `hasSticker` is true only for a car on the roster whose object has a truthy own key named after the sponsor |
| Eligibility.UnknownCarHasNoSticker | main.js:158-162 | a car number missing from the roster has no sticker, in either implementation, and the lookup never fails |
| Eligibility.HasWonToyo | src/main.ts:212-225 | the nested scan with early return answers true exactly when some record in the window names the driver as Toyo winner (main.js:164-177 is the same) |
| Eligibility.CooldownWindow | src/main.ts:215-224 | false for a history shorter than 2; otherwise the window is indices max(1, n-9) to n-1, never index 0 |
| Eligibility.CooldownLastsNineRaces | src/main.ts:213-224 | a single Toyo win at race index `won` bars the driver exactly while the history has at most `won + 9` entries |
| Eligibility.Candidates | src/main.ts:197-204 | exactly the drives meeting all five conditions (race, sticker, not won this round, no prior award from this sponsor, no Toyo cooldown), in drive order |
| Eligibility.CandidatesCount | src/main.ts:197-204 | an eligible drive is a candidate as many times as it occurs among the drives, so a duplicated results line keeps its extra chance; an ineligible one never is |
| Eligibility.CandidatesShrink | src/main.ts:201 | more winners in a round can only remove candidates, and a prize with none keeps none |
| Catalog.RaceCounts | src/main.ts:110-114 | the keys are exactly the races with a drive, each mapped to its number of drives |
| Catalog.WeekendPrize | src/main.ts:133-136 | a weekend prize has race 0 and so passes every race filter |
| Catalog.PushCopies | src/main.ts:128-131 | the inner push loop appends `count` copies, none when `count` is not positive |
| Catalog.PushRacePrizes | src/main.ts:127-132 | the race loop appends, for races 1 to raceCount in order, `perRaceCount` prizes each |
| Catalog.ExpandPrizes | src/main.ts:120-138 | the nested loops build the catalog: each sponsor line's race prizes, then its weekend prizes, in line order |
| Catalog.RacePrizesLength | src/main.ts:127-132 | one line yields raceCount times perRaceCount race prizes |
| Catalog.RacePrizesCount | src/main.ts:127-132 | each race 1 to raceCount gets exactly perRaceCount prizes and no other race gets any |
| Catalog.RacePrizesRaces | src/main.ts:127-132 | every race prize belongs to one of races 1 to raceCount |
| Catalog.DescriptorSize | main.js:90-94 | one sponsor line yields raceCount × perRaceCount + perWeekendCount prizes |
| Catalog.DescriptorCounts | main.js:90-94 | per line, perRaceCount prizes for each race 1 to raceCount and perWeekendCount weekend prizes |
| Catalog.DescriptorShapes | main.js:90-94 | every prize of a line carries its sponsor and type and is a race prize at the per-race amount for a race 1 to raceCount, or the line's weekend prize |
| Catalog.ExpansionSize | src/main.ts:120-138 | the catalog holds raceCount times the sum of per-race counts plus the sum of weekend counts |
| Catalog.ToyoTier | src/main.ts:151-153 | `countTable[count]` is defined exactly for counts 0 to 60 |
| Catalog.TableFollowsSchedule | src/main.ts:150-151 | the table follows the written schedule (0-2 → 0, 3-5 → 85, 6-10 → 175, 11-15 → 265, 16-20 → 355, 21-24 → 440, 25-30 → 550, 31+ → 600) for every count it covers; counts above 60 find no entry |
| Catalog.TierFor | src/main.ts:151-153 | `countTable[raceCounts[prize.raceId]]`: defined exactly when the prize's race has a drive count of at most 60 (never for a `main.js` weekend prize, which has no race), and then the schedule amount for that count |
| Catalog.WithToyoAmount | src/main.ts:152-154 | only a Toyo prize changes, only in its amount, and it gets the tier of its race's drive count |
| Catalog.SetToyoAmounts | src/main.ts:149-155 | the `forEach` leaves every cell as `WithToyoAmount` of its old value |
| Catalog.ToyoPayout | src/main.ts:150-153 | a Toyo race prize of a race with at most 60 drives is paid by the schedule; every other prize is untouched |
| Catalog.Randomize | src/main.ts:46-53 | whatever indices are drawn, the shuffled array is a permutation of its old contents |
| Catalog.LoadPrizes | src/main.ts:109-147 | a fresh array holding exactly the multiset of the expanded catalog with Toyo amounts set |
| Drawing.Draw | src/main.ts:233-251 | the reduce with its accumulators computes the round's specification for the indices it drew, one per prize |
| Drawing.DrawOneShape | src/main.ts:238-248 | each prize is either set aside, or gets exactly one award appended for it |
| Drawing.DrawConserves | src/main.ts:236-250 | awards plus set-aside prizes number the prizes, and together they hold exactly the prizes' multiset |
| Drawing.DrawOneConserves | src/main.ts:238-248 | one reduce step adds its prize either to the awards or to the set-aside list, and nowhere else |
| Drawing.DrawKeepsOrder | src/main.ts:236-250 | the awarded prizes keep the order of the prizes |
| Drawing.DrawKeepsUnawardedOrder | src/main.ts:238-243 | the set-aside prizes are an in-order subsequence of the prizes |
| Drawing.DrawWinnersWereCandidates | src/main.ts:237-247 | each winner was a candidate for its prize against the prior awards and the winners drawn before it |
| Drawing.DrawUnawardedExhausted | src/main.ts:237-243 | each set-aside prize has no candidate at the end of the round |
| Drawing.DrawTurn | src/main.ts:238-248 | at its own turn, the `k`-th prize is set aside exactly when it has no candidate against the prior awards and the winners drawn before it; otherwise one of those candidates wins it and earlier results stay as they were |
| Drawing.DrawDistinctWinners | main.js:185-203 | no driver wins twice in one round |
| Drawing.DrawRespectsPrior | src/main.ts:202 | no award pairs a driver with a sponsor that already awarded them in an earlier round |
| Drawing.RoundAwardsValid | src/main.ts:198-203 | every award of a round goes to a drive of the prize's race, in a car with the sticker, not in Toyo cooldown |
| Drawing.RoundKeepsPrizes | src/main.ts:363-365 | the loop body moves drawn prizes from unawarded to awarded without loss or duplication |
| Drawing.RoundKeepsValid | src/main.ts:363-364 | appending a round's awards keeps every award valid |
| Drawing.RoundNoSponsorRepeat | src/main.ts:202 | appending a round's awards keeps "no driver has two awards from one sponsor" |
| Drawing.RoundPreserves | src/main.ts:363-365 | one loop body keeps the raffle invariant and only appends to `awarded` |
| Drawing.RoundsPreserve | src/main.ts:358-367 | any number of rounds keeps the invariant |
| Drawing.RunRound | main.js:301-304 | appends draw's awards to `awarded` and replaces `unawarded` with draw's leftovers, keeping the total count |
| Drawing.RunRaffle | src/main.ts:358-367 | at most four rounds; a round is drawn only while something is left unawarded, and fewer than four rounds means nothing is left; afterwards prizes are conserved, no driver has two awards from one sponsor, and every award is valid |
| V1Loader.FileWinner | src/v1loaders.ts:42-48 | the winner is appended to its race's list (created if absent), the existing keys keep their order as a prefix, every other race is untouched, and distinct keys stay distinct |
| V1Loader.Step | src/v1loaders.ts:11-49 | lines 0-1 and empty lines, and a `skip` result, change nothing; a race name only renames; an empty race name throws; a winner sets the race number and name and is filed |
| V1Loader.FoldStaysFailed | src/v1loaders.ts:27-34 | once a line has thrown, the whole load has thrown |
| V1Loader.FoldGroupsByRace | src/v1loaders.ts:9-50 | the map's keys are exactly the race numbers found, each once, and each list is that race's winners in line order |
| V1Loader.GroupedSnoc | src/v1loaders.ts:42-48 | filing one more winner keeps the map a grouping of the winners found so far |
| V1Loader.LastRace | src/v1loaders.ts:56 | the max-reduce from 0 is at least 0 and every key, and is 0 or a key |
| V1Loader.LoadV1Winners | src/v1loaders.ts:5-58 | the loop computes the fold's result, or `None` when a line throws |
| Converter.AwardsOfSound | src/converter.ts:70-104 | every award comes from a non-empty sponsor field and carries its driver, sponsor name and placeholder |
| Converter.AwardsOfComplete | src/converter.ts:70-104 | every non-empty sponsor field gives its award |
| Converter.AwardsOfOrdered | src/converter.ts:70-104 | the awards follow the fixed sponsor order, each sponsor at most once |
| Converter.PushColumnAward | src/converter.ts:70-72 | one `if (winner.X) awards.push(...)` appends an award iff the field is non-empty |
| Converter.BuildAwards | src/converter.ts:68-104 | the nine pushes give the row's awards |
| Converter.UpsertEvent | src/converter.ts:137-153 | the returned record exists and has the name |
| Converter.UpsertEventFinds | src/converter.ts:139-152 | with a matching record, the records are unchanged and the first match is returned; otherwise exactly one empty record with the name is appended and returned |
| Converter.UpsertRace | src/converter.ts:155-172 | the returned event and race exist |
| Converter.UpsertRaceFinds | src/converter.ts:156-171 | the race has the number and belongs to the named event; an existing match is returned unchanged; otherwise one race stamped `now` with no awards is appended to that event; no other event changes |
| Converter.UpsertEventIndex | src/converter.ts:139-152 | afterwards the name finds the returned record and every other name finds what it found before |
| Converter.UpsertRaceIndex | src/converter.ts:158-171 | afterwards the number finds the returned race and every other number finds what it found before |
| Converter.FileRow | src/converter.ts:106-114 | filing a row keeps every event's name and adds at most one event, named after the row |
| Converter.FileWeekendRow | src/converter.ts:106-110 | a "Weekend" row's awards go to its event's weekend awards; no other weekend list and no race changes |
| Converter.FileRaceRow | src/converter.ts:111-114 | any other row's awards go to the race record of its event and race number; no weekend list and no other race changes |
| Converter.RaceRowKeepsWeekend | src/converter.ts:111-114 | a race row changes no weekend awards |
| Converter.RaceRowAwards | src/converter.ts:111-114 | a race row extends exactly its own race's awards |
| Converter.UpsertEventTotal | src/converter.ts:145-152 | finding or creating an event adds no award |
| Converter.UpsertRaceTotal | src/converter.ts:164-171 | finding or creating a race adds no award |
| Converter.FileRowTotal | src/converter.ts:106-114 | filing a row adds exactly its awards to the total |
| Converter.BuildTotal | src/converter.ts:58-116 | after all rows the registry holds exactly as many awards as the rows yield |
| Converter.BuildGroupsAwards | src/converter.ts:58-116 | each event's weekend awards are the awards of its "Weekend" rows, and each race's awards those of its other rows, in row order |
| Converter.WithSortedAwards | src/converter.ts:127 | sorting a race's awards keeps its timestamp, number and awards multiset |
| Converter.SortedRaces | src/converter.ts:124-128 | an event keeps its number of races |
| Converter.PostProcessed | src/converter.ts:118-130 | the final pass keeps the number of events |
| Converter.PostProcessOrders | src/converter.ts:118-130 | each event keeps its name and its weekend awards (as a multiset), its races are in ascending race number, and under a strict collation its weekend and race awards are in driver order |
| Converter.ByDriverStrict | src/converter.ts:120 | ordering awards by a strict order on driver names is a strict order |
| Converter.PostProcessKeepsTotal | src/converter.ts:118-130 | the final pass neither adds nor removes an award |
| Converter.SortedRacesPermutes | src/converter.ts:124-128 | sorting an event's races only reorders them: each race keeps its stamp, its number and its own awards (as a multiset) |
| Converter.UpsertEventDistinct | src/converter.ts:145-150 | creating an event adds one with no races, so no event gets two races with one number |
| Converter.UpsertRaceDistinct | src/converter.ts:158-169 | a race is appended only when its number is absent from the event, so race numbers stay distinct |
| Converter.FileRowDistinct | src/converter.ts:106-114 | filing a row keeps every event's race numbers distinct |
| Converter.BuildDistinct | src/converter.ts:58-116 | in the built registry no event has two races with one number |
| Converter.SortedRaceAwards | src/converter.ts:124-127 | with distinct race numbers, the race a number finds after the sort holds the same awards (as a multiset) as the race it found before |
| Converter.PostProcessedRaceAwards | src/converter.ts:106-130 | after the final pass the awards of race `raceId` of an event are, as a multiset, exactly those of its non-"Weekend" rows for that race |
| Converter.SortedEventCount | src/converter.ts:119-130 | one event's award count survives its sorting |
| Converter.PostProcessedWeekendAwards | src/converter.ts:106-120 | after the final pass an event's weekend awards are, as a multiset, exactly those of its "Weekend" rows |
| Converter.SortEventRaces | src/converter.ts:124-129 | sorts the races and their awards and counts the races' awards |
| Converter.SortEventRecord | src/converter.ts:119-129 | sorts one event and counts all its awards |
| Converter.AwardRegistry.constructor | src/v2models.ts:11-15 | an empty registry stamped with the user and the creation time |
| Converter.AwardRegistry.UpsertEventRecord | src/converter.ts:137-153 | the scan with early return and the push have exactly `UpsertEvent`'s effect; the stamps are untouched |
| Converter.AwardRegistry.UpsertRaceRecord | src/converter.ts:155-172 | the scan and push have exactly `UpsertRace`'s effect; the stamps are untouched |
| Converter.AwardRegistry.FileWinnerRow | src/converter.ts:68-114 | one iteration of the inner loop files one row |
| Converter.AwardRegistry.FileWinnerRows | src/converter.ts:63-115 | the inner loop files a race's rows in order after the rows already filed |
| Converter.AwardRegistry.PostProcess | src/converter.ts:118-130 | the final pass leaves the sorted records, and `totalAwardCount` equals the total both before and after |
| Converter.Convert | src/converter.ts:55-130 | a fresh registry stamped with the user and clock, holding every row of `winners.values()` filed in order and then sorted; the count equals the awards the rows yield |

## Left out

- File reading and writing, argument parsing, the `process.exit` calls, and all console output. The loaders of cars, results and winners in `src/main.ts` and `main.js`, and `validateCarsAndDrives`, `groupResults`, `presentResults`, `summarizeRaffle` and `recordWinners`, are not part of this model. Inputs are already-split lines or sequences.
- The distribution of `Math.random`. Only the range of the chosen index is modelled.
- `Number`, `parseInt` and `Boolean` coercions. The first two are function parameters; `Boolean` of a column is "present and non-empty".
- `localeCompare`. It is the collation parameter `before`; driver order is proved only when `before` is a strict order.
- The clock. `new Date()` values are the parameters `now` and `clock`.
- Catalog.DescriptorShapes: amounts are integers in both variants. `main.js` (lines 89-94) never converts them and keeps the trimmed column string, or `undefined` on a short line, while the model stores the converted number `Some(toNumber(column))`. `src/main.ts` uses `Number`, which can give a fraction such as 12.5 that an integer cannot hold. Only the displayed amount is affected: the per-race and per-weekend counts coerce the same way in both.
- Catalog.RaceCounts: follows the plain-object lookup of `main.js`. `src/main.ts` reads its `Map` with brackets, which finds no entry, so as written every count is 1 and the race count is 0.
- Eligibility.HasSticker: follows the plain-object lookup of `main.js`. `src/main.ts` reads its `Map` of cars with brackets, which as written finds no car.
- Catalog.TierFor: same lookup choice as the two lines above for the drive counts.
- Eligibility.HasWonToyo: the history is a dense list of lists of records. The source's history can have a hole where a race number was skipped (src/main.ts:95, main.js:69), and src/main.ts:97 can push a `null` record for a line of empty cells once a race number is known. On either inside the window `hasWonToyo` throws a `TypeError` (at `previousWinners[i].length` or `record.Toyo`); the model has no such inputs and always answers.
- Property names a JavaScript object inherits, such as `constructor`, are not modelled. `hasSticker` is false for them here.
- `main.js` round loop: its condition `unawarded.length || round > 5` never stops on the round number. Only its body (`RunRound`) is modelled.
- Drawing.RunRaffle: models `src/main.ts` only, for the reason in the line above.
- `PrizeDescriptor.races` is declared but never set, so it is not a field here.
- The `loadRace` filter, the gap to "DNS" and the class check, is not modelled. The engine takes the drives as given.
- Converter.Convert: a winner list or row that is `undefined` inside the map cannot occur in this model. Only a key without a list is skipped.
- Reference aliasing in the converter is not modelled: a returned record is an index into `records`.
- Catalog.SetToyoAmounts: the prize objects are replaced by array cells, since each is referenced only from that array.
- The line parser of `./v1models` is a function parameter; its own parsing is not part of this model.

# WorkoutTrack in Dafny

A verified model of the core of WorkoutTrack, a weight-training log. The
model covers:

- the server's in-memory store, the `MemStorage` class: workouts, the
  exercise catalogue, workout/exercise links ("workout exercises") and the
  sets logged against each link;
- the store's queries: one workout with details, statistics and exercise
  progress;
- four route handlers whose logic goes beyond calling the store: the
  default link order, adding a set and accruing volume, the `timeframe`
  query default, and the server-side CSV export;
- the client's CSV export helper;
- the client's history view: filtering, newest-first ordering, paging and
  titles;
- the client's workout logger: the form, custom exercises, starting and
  finishing a workout, submitting a set, the timer text and the session
  summary.

Modules, file by file:

| file | module | models |
|---|---|---|
| `wrappers.dfy` | `Wrappers` | `Option` |
| `seqs.dfy` | `Seqs` | the array primitives the code relies on (`filter`, `find`, `reduce`, stable `sort`, `join`, `new Set`) |
| `text.dfy` | `Text` | number and date texts (`toString`, decimal columns, `toISOString().split('T')[0]`, `padStart`, `toLowerCase`) |
| `tables.dfy` | `Tables` | a JavaScript `Map`: insertion-ordered keys, `set`, `delete`, `values()` |
| `schema.dfy` | `Schema` | the records of `shared/schema.ts` and the workout-with-details shape |
| `join.dfy` | `Join` | how `getWorkout` joins a workout with its links, exercises and sets |
| `stats.dfy` | `Stats` | `getWorkoutStats` as a function |
| `progress.dfy` | `Progress` | `getExerciseProgress` as a function, both as written and as intended |
| `storage.dfy` | `Storage` | the `MemStorage` class and the loops of its queries |
| `routes.dfy` | `Routes` | the route handlers listed above |
| `csv_export.dfy` | `ClientCsv` | `exportToCSV` / `exportWorkoutsToCSV`, plus a CSV reader used to state round trips |
| `history.dfy` | `History` | the history view's computations |
| `workout_logger.dfy` | `WorkoutLogger` | the workout logger's computations and its calls to the server |

Representation choices:

- **Ids.** `randomUUID()` becomes a counter, `nextId`. Every id is fresh
  across all four maps. A ghost sequence `issued` records, for each id,
  which kind of record it was issued for.
- **Weights and volumes.** These are `decimal(…, 2)` columns. They are
  modelled as integer hundredths. `parseFloat` of such a column is exact
  in that unit.
- **Timestamps.** Timestamps are integer milliseconds. The ISO day of a
  timestamp is `t / 86400000`. The current time is a parameter wherever
  the code reads the clock.
- **Maps.** A `Map` keeps insertion order. `Map.set` on an existing key
  keeps that key's position, and `Map.delete` removes it. `Tables.Table`
  models exactly this, and `values()` lists the rows in key order.
- **Sorting.** `Array.prototype.sort` is stable. `Seqs.SortBy` is a stable
  insertion sort on an integer key. Descending sorts use the negated key.

The table declaration and the in-memory store disagree in one place, and
the model follows the store. `shared/schema.ts:12` gives the
`total_volume` column the default `"0"`. But that default is applied only by
a database. `MemStorage.createWorkout` (`server/storage.ts:83-88`) stores
`{...insertWorkout, id}` as it is, so a workout created without a volume has
none (`undefined`). That is why `Workout.totalVolume` is an `Option`, and
every reader applies the code's own `|| "0"`.

## Model

| member | source | states |
|---|---|---|
| Seqs.Filter | server/storage.ts:94-95 | `Array.filter`: the result is no longer than the input (members and multiplicities in `FilterMembers`) |
| Seqs.FilterMembers | server/storage.ts:94-95 | an element is kept iff it is in the input and satisfies the predicate; each kept value keeps its multiplicity, the others drop to zero |
| Seqs.FilterAppend | server/storage.ts:94-95 | filtering distributes over concatenation |
| Seqs.Find | client/src/components/workout-logger.tsx:150 | `Array.find`: the index of the first element satisfying the predicate, or none when no element does |
| Seqs.SumAppend | server/storage.ts:209 | `reduce` with `+` distributes over concatenation |
| Seqs.Distinct | client/src/components/history.tsx:73-75 | `Array.from(new Set(…))`: the same members as the input, without duplicates |
| Seqs.DistinctCount | client/src/components/history.tsx:66 | the length of the de-duplicated list is the number of distinct values |
| Seqs.InsertBySorted | server/storage.ts:96 | inserting into a list sorted by the key keeps it sorted |
| Seqs.SortBy | server/storage.ts:96 | `sort` by an integer key: a permutation of the input, sorted by the key |
| Seqs.SortByMembers | server/storage.ts:96 | sorting keeps exactly the input's members |
| Seqs.SortByStable | server/storage.ts:96 | stability: the elements sharing a key keep their input order |
| Seqs.JoinCons | server/routes.ts:189 | `join` puts the separator between consecutive parts |
| Seqs.JoinExcludes | server/routes.ts:189 | a character absent from the parts and from the separator is absent from the joined text |
| Seqs.JoinCount | server/routes.ts:189 | a character occurs in the joined text as often as in the parts, plus once per separator when it is the separator |
| Text.NatText | client/src/components/workout-logger.tsx:214-216 | the decimal text of a natural number is a non-empty run of digits |
| Text.ParseNatText | client/src/components/workout-logger.tsx:216 | reading the digits of `n.toString()` back gives `n` |
| Text.IntTextRoundTrip | server/routes.ts:180-182 | `toString` of an integer reads back as the same integer |
| Text.DecimalRoundTrip | shared/schema.ts:35 | the shortest decimal text of an amount in hundredths, trailing zeros dropped as `String(x)` drops them ("135.5", "100"), reads back as the same amount |
| Text.DecimalWhole | server/routes.ts:183 | a whole number of units prints like the integer |
| Text.NotNumeric | server/routes.ts:180-183 | a number's text holds no character other than digits, signs and the point |
| Text.IndexOf | client/src/components/workout-logger.tsx:216 | the first position of a character, or the length when the character is absent |
| Text.PadStart | client/src/components/workout-logger.tsx:216 | `padStart`: at least `width` long, with the original text at the end |
| Text.PadStartDigits | client/src/components/workout-logger.tsx:216 | padding digits with `'0'` keeps them digits |
| Text.CivilFromDays | server/routes.ts:176 | the calendar date of a day number is a date the Gregorian calendar has (month in 1..12, day within its month) and `DaysFromCivil` maps it back to the same day number |
| Text.CivilRoundTrip | server/routes.ts:176 | every valid calendar date is the date of its own day number, so dates and day numbers correspond one to one |
| Text.IsoDateNumeric | server/routes.ts:176 | the ISO date text holds only digits and `-` |
| Text.LowerEqual | server/storage.ts:152-155 | two texts are equal once lower-cased iff they match letter by letter, ignoring case |
| Tables.Get | server/storage.ts:144-146 | `Map.get`: a value iff the key is present, and then the stored value |
| Tables.Values | server/storage.ts:116-122 | `Map.values()`: one value per key, in key order |
| Tables.Put | server/storage.ts:86 | `Map.set`: a new key goes last, an existing key keeps its place, the row becomes the value |
| Tables.Delete | server/storage.ts:133-135 | `Map.delete`: the key is gone, the other keys stay |
| Tables.Without | server/storage.ts:133-135 | removing a key from the order keeps the other keys and their distinctness |
| Tables.PutNewValues | server/storage.ts:86 | setting a new key appends its value to `values()` |
| Tables.PutExistingValues | server/storage.ts:124-131 | setting an existing key replaces its value in place in `values()` |
| Tables.ValuesMembers | server/storage.ts:116-122 | `values()` lists exactly the stored values |
| Schema.SetsOfEntry | server/routes.ts:174-185 | one CSV record per set of an entry, in the entry's order |
| Schema.SetsOfEntriesCount | server/routes.ts:173-186 | a workout's exercises give as many records as they have sets in total |
| Schema.SetsOfEntriesMembers | server/routes.ts:173-186 | every record of a workout pairs the workout with one of its exercises and one of that exercise's sets |
| Schema.LoggedSetsCount | server/routes.ts:172-187 | the export loops visit `sum of sets` records |
| Schema.LoggedSetsMembers | server/routes.ts:172-187 | every visited record comes from a workout, one of its exercises and one of that exercise's sets |
| Schema.SetsOfEntriesHas | server/routes.ts:173-186 | every set of every exercise of a workout is visited |
| Schema.LoggedSetsHas | server/routes.ts:172-187 | every set of every workout is visited |
| Schema.SetsOfEntriesAppend | server/routes.ts:173-186 | the records of a workout's exercises follow the exercises' order |
| Schema.LoggedSetsAppend | server/routes.ts:172-187 | the records follow the workouts' order |
| Join.LinksOfWorkout | server/storage.ts:94-95 | a workout's links are exactly the stored links naming that workout |
| Join.SetsOfLink | server/storage.ts:101-103 | a link's sets are exactly the stored sets naming it, ordered by set number (a permutation of the filter) |
| Join.LinksOf | server/storage.ts:98-110 | one entry per link, in the same order |
| Join.DetailsStable | server/storage.ts:94-96 | in a workout's details, the links sharing an `order` keep their insertion order |
| Stats.Cutoff | server/storage.ts:200-206 | `week` cuts at 7 days before now, `month` at 30 days, anything else keeps everything |
| Stats.Kept | server/storage.ts:198-206 | a workout is kept iff it starts at or after the cutoff, or there is no cutoff |
| Stats.KeptAll | server/storage.ts:198 | a timeframe other than `week` and `month` keeps the whole list |
| Stats.AverageMinutes | server/storage.ts:210-211 | no workouts give 0; otherwise `Math.round` of the mean duration in minutes, rounding halves up |
| Stats.Tally | server/storage.ts:223-224 | counting one more body part keeps a valid map |
| Stats.CountTable | server/storage.ts:214-227 | the body-part map has exactly the counted parts, and each count is that part's number of occurrences |
| Stats.CountTableOrder | server/storage.ts:214-227 | the map lists body parts in order of first occurrence |
| Stats.Entries | server/storage.ts:229-230 | `entries().map(...)`: one `{bodyPart, count}` per key, in key order |
| Stats.DistributionCounts | server/storage.ts:229-231 | each distribution entry is a counted part with its true count; every counted part appears; one entry per distinct part |
| Stats.DistributionSorted | server/storage.ts:231 | the distribution is in non-increasing count order |
| Stats.CountTableTotal | server/storage.ts:214-227 | the counts add up to the number of counted links |
| Stats.DistributionTotal | server/storage.ts:214-231 | the distribution's counts add up to the number of counted links |
| Seqs.SortBySum | server/storage.ts:231 | sorting does not change a sum |
| Stats.CountAppend | server/storage.ts:223-224 | counting one more part is one `Map.set` of count + 1 |
| Progress.LinksOfExercise | server/storage.ts:245-246 | the exercise's links are exactly the stored links naming it |
| Progress.SessionSets | server/storage.ts:254-255 | as written, a link whose id is not a key of the sets map gets no sets; as intended, a link gets all its sets; every set returned names the link |
| Progress.HeaviestWeight | server/storage.ts:258 | `Math.max` over the session's weights: at least every weight, and equal to one of them |
| Progress.RunningMax | server/storage.ts:249-261 | the running maximum starts at 0 and stays non-negative |
| Progress.RunningMaxBounds | server/storage.ts:261 | the running maximum bounds every point's weight and is 0 or one of them |
| Progress.Result | server/storage.ts:241-281 | the exercise id and name are passed through; `maxWeight` bounds every point; `totalVolume` is the sum of the points' volumes; the points are sorted by day and are a permutation of the sessions found |
| Progress.PointsAreSessions | server/storage.ts:252-270 | every point is the session of one of the exercise's links |
| Progress.SessionsArePoints | server/storage.ts:252-270 | every link with a session contributes its point |
| Progress.PointVolumes | server/storage.ts:258-259 | a point's weight is its session's heaviest set and its volume the sum of weight × reps |
| Progress.PointsStepCases | server/storage.ts:257-269 | a point is added iff the workout exists and the link has sets |
| Progress.AsWrittenPointsEmpty | server/storage.ts:254 | as written, links whose ids are not set ids contribute no point at all |
| Progress.IntendedSessionCounted | server/storage.ts:252-270 | as intended, a stored workout's link with any set yields a point, and its weight is at least that set's |
| Storage.MergeWorkout | server/storage.ts:124-131 | `{...workout, ...updates}`: the id is kept; each field given in the patch wins, each absent field stays |
| Storage.MergeSet | server/storage.ts:182-189 | the same spread for sets |
| Storage.CountBodyParts | server/storage.ts:214-227 | the counting loops build exactly the body-part counts of the kept workouts' stored exercises |
| Storage.SeededRows | server/storage.ts:63-81 | the ten default exercises get consecutive fresh ids in list order, each with its name, body part and category |
| Storage.SeededValid | server/storage.ts:63-81 | the seeded map is a valid ordered map |
| Storage.SeedExercises | server/storage.ts:77-80 | the seeding loop builds exactly the seeded map |
| Storage.SessionPoint | server/storage.ts:253-269 | one turn of the progress loop computes the session's point, or none |
| Storage.BuildProgress | server/storage.ts:248-279 | the progress loop's data, running maximum and running total, then the sort, equal the progress function |
| Storage.LinksNameGrows | server/storage.ts:157-162 | issuing more ids keeps every link naming a workout id |
| Storage.StoreWorkout | server/storage.ts:83-88 | storing a workout under the next id keeps the store's invariant |
| Storage.StoreExercise | server/storage.ts:137-142 | storing an exercise under the next id keeps the store's invariant |
| Storage.StoreLink | server/storage.ts:157-162 | storing a link under the next id keeps the store's invariant |
| Storage.StoreSet | server/storage.ts:169-174 | storing a set under the next id keeps the store's invariant |
| Storage.MemStorage.constructor | server/storage.ts:55-61 | empty workouts, links and sets; the ten default exercises in list order under distinct ids |
| Storage.MemStorage.InitializeDefaultExercises | server/storage.ts:63-81 | adds exactly the seeded catalogue and changes nothing else |
| Storage.MemStorage.CreateWorkout | server/storage.ts:83-88 | the workout is the insert record under a fresh id, stored last; the other maps are unchanged |
| Storage.MemStorage.GetWorkout | server/storage.ts:90-114 | a result iff the workout is stored, and then the workout joined with its links (by order), exercises and sets (by set number) |
| Storage.MemStorage.GetAllWorkouts | server/storage.ts:116-122 | one detailed workout per stored workout, in insertion order |
| Storage.MemStorage.UpdateWorkout | server/storage.ts:124-131 | a missing id changes nothing and yields nothing; otherwise the merged workout replaces the old one in place |
| Storage.MemStorage.DeleteWorkout | server/storage.ts:133-135 | the result says whether the id was stored; afterwards it is not; links and sets are left as they are |
| Storage.MemStorage.CreateExercise | server/storage.ts:137-142 | the exercise is the insert record under a fresh id, stored last |
| Storage.MemStorage.GetExercise | server/storage.ts:144-146 | the stored exercise iff the id is a key |
| Storage.MemStorage.GetAllExercises | server/storage.ts:148-150 | exactly the stored exercises, one per key |
| Storage.MemStorage.GetExercisesByBodyPart | server/storage.ts:152-155 | exactly the exercises whose body part equals the query, ignoring case |
| Storage.MemStorage.AddExerciseToWorkout | server/storage.ts:157-162 | the link is the insert record under a fresh id, stored last |
| Storage.MemStorage.GetWorkoutExercises | server/storage.ts:164-167 | exactly the stored links naming the given workout id |
| Storage.MemStorage.AddSet | server/storage.ts:169-174 | the set is the insert record under a fresh id, stored last |
| Storage.MemStorage.GetSetsByWorkoutExercise | server/storage.ts:176-180 | exactly the link's sets, by non-decreasing set number |
| Storage.MemStorage.UpdateSet | server/storage.ts:182-189 | a missing id changes nothing; otherwise the merged set replaces the old one in place |
| Storage.MemStorage.DeleteSet | server/storage.ts:191-193 | the result says whether the id was stored; afterwards it is not |
| Storage.MemStorage.GetWorkoutStats | server/storage.ts:195-239 | the statistics of the stored workouts for the timeframe and the current time |
| Storage.MemStorage.LinkIdsAreNotSetIds | server/storage.ts:254 | no link id is ever a key of the sets map, so the progress guard is always false |
| Storage.MemStorage.GetExerciseProgress | server/storage.ts:241-281 | none iff the exercise is unknown; as written, a known exercise always gets empty progress data and zero maximum and total |
| Storage.MemStorage.IntendedExerciseProgress | server/storage.ts:241-281 | the corrected query: none iff the exercise is unknown, otherwise the progress computed from every link's own sets |
| Storage.MemStorage.LinkIdNamesNoWorkout | server/routes.ts:119-121 | looking up links by a link id used as a workout id finds none |
| Routes.LinkOrder | server/routes.ts:100 | the `order` default: a given non-zero order is kept; a missing or zero order becomes 1 |
| Routes.LinkExercise | server/routes.ts:95-107 | stores the link with the defaulted order under a fresh id and nothing else |
| Routes.AsWrittenTarget | server/routes.ts:119-121 | the as-written lookup targets the link id itself as a workout id, and only when some link names a workout with that id |
| Routes.Target | server/routes.ts:119-121 | the intended target is the workout the link names, iff the link exists |
| Routes.WithVolume | server/routes.ts:123-127 | the workout's volume grows by the set's volume, the rest is unchanged |
| Routes.MergeVolume | server/routes.ts:124-127 | the `updateWorkout` patch with `current + new` is exactly the volume increase |
| Routes.Accrue | server/routes.ts:120-128 | only the target workout changes; the map keeps its keys and order |
| Routes.AccrueTotal | server/routes.ts:120-128 | the summed stored volume grows by the set's volume iff the target exists |
| Routes.AccrueTarget | server/routes.ts:123-127 | the target's volume grows by the set's volume and nothing else of it changes |
| Routes.AddVolume | server/routes.ts:121-127 | the volume update touches only the workouts map, as `Accrue` says |
| Routes.AddSetAsWritten | server/routes.ts:110-138 | stores the set; the volume goes to the workout whose id equals the set's link id, if some link names such a workout; a set posted to a stored link never changes any workout |
| Routes.AddSet | server/routes.ts:110-138 | stores the set; the link's workout, if stored, gains the set's volume, and the total volume grows by exactly that |
| Routes.PostSet | server/routes.ts:110-138 | `POST /api/workout-exercises/:id/sets` against either handler: the set is stored under a fresh id, exercises and links stay, and the volume accrues to the handler's target; the handler as written changes no workout for a stored link |
| Routes.Timeframe | server/routes.ts:143 | a missing or empty query means `all`; anything else is passed through |
| Routes.TimeframeKeepsAll | server/routes.ts:143 | without `week` or `month` every workout counts |
| Routes.GetStats | server/routes.ts:141-149 | the statistics for the defaulted timeframe |
| Routes.NumberCellsRoundTrip | server/routes.ts:180-183 | the set number, weight, reps and volume cells read back as the stored numbers, volume = weight × reps |
| Routes.CsvRow | server/routes.ts:175-184 | eight cells, as many as the header |
| Routes.CsvRows | server/routes.ts:172-187 | one row per visited set, in visiting order |
| Routes.Lines | server/routes.ts:189 | one line per row, the cells joined by commas |
| Routes.CsvExportFails | server/routes.ts:164-196 | the export fails iff some workout has an exercise that is not in the catalogue and that exercise has sets |
| Routes.CsvRowColumns | server/routes.ts:175-189 | a line has 7 commas plus those inside the workout name, exercise name and body part: the server does not quote |
| Routes.LinesNewlines | server/routes.ts:189 | the data rows contain newlines only where the names do |
| Routes.CsvExportLines | server/routes.ts:169-189 | the file holds one newline per set plus those inside names |
| Routes.BuildCsv | server/routes.ts:166-189 | the triple loop and the final join compute the CSV function |
| Routes.ExportCsv | server/routes.ts:164-196 | the CSV of all stored workouts |
| ClientCsv.LookupFirst | client/src/lib/csv-export.ts:12 | a missing key reads as absent; otherwise the value of its first occurrence |
| ClientCsv.ExportToCsv | client/src/lib/csv-export.ts:2 | no file iff the data is empty |
| ClientCsv.Lines | client/src/lib/csv-export.ts:8-20 | a header line plus one line per record |
| ClientCsv.ReadQuotedEscaped | client/src/lib/csv-export.ts:14-15 | a quoted field with doubled quotes reads back as the original text |
| ClientCsv.ParseField | client/src/lib/csv-export.ts:13-17 | an escaped cell followed by a comma or the end reads back as the original value |
| ClientCsv.ParseJoined | client/src/lib/csv-export.ts:11-18 | a line of escaped cells splits back into the values |
| ClientCsv.SplitJoined | client/src/lib/csv-export.ts:20 | lines without newlines, joined by `\n`, split back into the same lines |
| ClientCsv.DoubleQuotesExcludes | client/src/lib/csv-export.ts:15 | doubling quotes adds no other character |
| ClientCsv.CellEscapes | client/src/lib/csv-export.ts:12-17 | every cell is the escape of its plain text |
| ClientCsv.LineRoundTrip | client/src/lib/csv-export.ts:10-18 | a data line reads back as the record's texts under the headers |
| ClientCsv.MissingKeyEmpty | client/src/lib/csv-export.ts:12-17 | a header the record lacks gives an empty cell |
| ClientCsv.LineExcludes | client/src/lib/csv-export.ts:10-18 | a record without newlines gives a line without newlines |
| ClientCsv.ExportRoundTrip | client/src/lib/csv-export.ts:1-20 | reading the file back gives the headers of the first record and each record's texts under them |
| ClientCsv.LinesExclude | client/src/lib/csv-export.ts:8-20 | no line contains a newline when no key or value does |
| ClientCsv.LinesRoundTrip | client/src/lib/csv-export.ts:8-19 | the lines read back as the header row and one row per record |
| ClientCsv.SetRecordKeys | client/src/lib/csv-export.ts:43-52 | every set record has the eight keys in the same order |
| ClientCsv.ExportWorkoutsToCsv | client/src/lib/csv-export.ts:37-58 | the nested `forEach` loops compute the export function |
| ClientCsv.WorkoutsCsvCases | client/src/lib/csv-export.ts:37-58 | throws iff an exercise with sets is missing from the catalogue, exactly when the server export fails; no file iff there are no sets |
| ClientCsv.LookupUnique | client/src/lib/csv-export.ts:12 | a key's first occurrence is the value read |
| ClientCsv.TextsOwnKeys | client/src/lib/csv-export.ts:5-12 | with distinct keys, the texts under the record's own keys are its values in order |
| ClientCsv.SetTexts | client/src/lib/csv-export.ts:43-52 | a set record's texts are the server's CSV row for the same set |
| ClientCsv.WorkoutsCsvRoundTrip | client/src/lib/csv-export.ts:37-58 | when names have no newlines, the client file reads back as the client header and exactly the server's data rows |
| ClientCsv.RecordKeysPlain | client/src/lib/csv-export.ts:43-52 | the record keys need no quoting and hold no newline |
| ClientCsv.RecordsTable | client/src/lib/csv-export.ts:40-55 | the records' table is the header plus the server's rows |
| History.MatchesCategoryFound | client/src/components/history.tsx:27-32 | a match means the filter is `upper` or `lower` and some entry, with every earlier entry resolved, has that category |
| History.MatchesCategoryOf | client/src/components/history.tsx:27-32 | such an entry makes the workout match |
| History.MatchesCategoryStored | client/src/components/history.tsx:28-29 | with every exercise resolved, the category test never throws |
| History.MatchesCategoryThrows | client/src/components/history.tsx:29 | the category test throws only on an unresolved exercise |
| History.KeepSpec | client/src/components/history.tsx:23-34 | kept iff on or after the date filter and in the selected category (`all` keeps every workout); a throw needs a category filter and a missing exercise |
| History.FilteredWorkoutsThrows | client/src/components/history.tsx:23-35 | the list fails only under a category filter when some workout has a missing exercise |
| History.FilteredWorkoutsStored | client/src/components/history.tsx:23-35 | with all exercises resolved, the list is always computed |
| History.FilteredWorkoutsSpec | client/src/components/history.tsx:23-35 | exactly the kept workouts, each at most as often as in the input, newest first |
| History.OtherCategoryKeepsNothing | client/src/components/history.tsx:30-31 | a filter other than `upper` or `lower` matches nothing |
| History.OtherCategoryEmpty | client/src/components/history.tsx:23-35 | an unknown category filter shows no workouts |
| History.TotalPages | client/src/components/history.tsx:37 | `Math.ceil(n / 10)`: enough pages for all items, with no empty page at the end |
| History.PageItems | client/src/components/history.tsx:38-39 | at most ten items, the consecutive items from the page's start index |
| History.PageOfItem | client/src/components/history.tsx:37-39 | every item is on exactly one page, page `k / 10 + 1`, at position `k % 10` |
| History.PagesPrefix | client/src/components/history.tsx:38-39 | the first `p` pages together are the first `10p` items |
| History.PagesCover | client/src/components/history.tsx:37-39 | all pages together are the whole list, in order |
| History.RangeLabelShown | client/src/components/history.tsx:215 | the "Showing a-b" label names exactly the items on the page |
| History.PageButtons | client/src/components/history.tsx:221-229 | Previous never goes below 1; Next never goes past the last page; each moves by one when it can |
| History.FormatDurationSpec | client/src/components/history.tsx:59-63 | no or zero duration shows "N/A"; otherwise "<m> min" with `m` the whole minutes |
| History.UniqueBodyParts | client/src/components/history.tsx:73-75 | exactly the entries' body parts, each once |
| History.WorkoutTitleCases | client/src/components/history.tsx:65-71 | "Empty Workout" iff no exercises; one part names it; more than three is "Full Body Workout"; two or three are joined by " & "; every title ends in " Workout" |
| History.TotalSetsCount | client/src/components/history.tsx:128 | the set total is the number of logged sets |
| WorkoutLogger.FormatTimeRoundTrip | client/src/components/workout-logger.tsx:213-217 | `m:ss`: two digits after the colon, below 60, and minutes × 60 + seconds is the input |
| WorkoutLogger.SecondsText | client/src/components/workout-logger.tsx:216 | the padded seconds are two digits that read back as the seconds |
| WorkoutLogger.DefaultFormNeedsChoices | client/src/components/workout-logger.tsx:18-69 | the default form is rejected; choosing an exercise and a non-empty body part makes it valid |
| WorkoutLogger.CustomCategory | client/src/components/workout-logger.tsx:204 | `upper` iff the body part is Chest, Back, Shoulders or Arms, else `lower` |
| WorkoutLogger.CustomExercise | client/src/components/workout-logger.tsx:200-211 | nothing iff the name or body part is empty; otherwise a custom exercise with that name and body part |
| WorkoutLogger.CustomCategoryFilters | client/src/components/workout-logger.tsx:204 | a custom exercise shows under the history's `upper` filter iff its part is an upper body part, and under `lower` otherwise |
| WorkoutLogger.HandleCustomExercise | client/src/components/workout-logger.tsx:200-211 | stores the custom exercise under a fresh id, or changes nothing when a field is empty |
| WorkoutLogger.StartNewWorkout | client/src/components/workout-logger.tsx:73-79 | stores a workout named "Workout - <date>" starting now, with volume 0 |
| WorkoutLogger.FinishWorkout | client/src/components/workout-logger.tsx:119-128 | without a current workout nothing changes; otherwise its end time and duration are set |
| WorkoutLogger.SentWeight | client/src/components/workout-logger.tsx:170-181 | the weight sent as text is stored as the same weight |
| WorkoutLogger.SubmitToEntry | client/src/components/workout-logger.tsx:174-184 | an existing entry gets set number `sets + 1` with the form's weight and reps; the links stay; the workouts change only as the server's handler accrues the set's volume, and with the handler as written they do not change at all |
| WorkoutLogger.SubmitToNewLink | client/src/components/workout-logger.tsx:156-173 | a new link at the given position, then set number 1 on it; the new link is stored, so with the handler as written no workout's volume changes, and with the corrected handler the link's workout gains the set's volume |
| WorkoutLogger.SendSet | client/src/components/workout-logger.tsx:154-185 | the first entry for the exercise gets the next set number and no link is created; with no such entry a link at position `entries + 1` is created and gets set number 1; the set carries the form's weight and reps; with the handler as written no workout's volume changes |
| WorkoutLogger.Submit | client/src/components/workout-logger.tsx:146-198 | nothing happens iff there is no current workout or the exercise is not in the catalogue; otherwise the set is stored, on the first entry for the exercise or on a new link at position `entries + 1`; with the server's handler as written no workout's volume changes, while the corrected handler adds the set's volume to its workout |
| WorkoutLogger.SessionStatsSpec | client/src/components/workout-logger.tsx:219-229 | zeros without a workout; otherwise the number of exercises, the number of sets and the stored volume (0 when missing) |

## Left out

- HTTP plumbing: Express routing, request parsing and status codes. Also left out are the handlers that only forward to the store. The JSON and zod validation of request bodies is not modelled: bodies arrive as typed values.
- Concurrency: every `await` on the in-memory store is modelled as an immediate call. Interleaved requests are not modelled.
- The `IStorage` interface and the database-backed storage. They are not part of this model.
- `randomUUID`: modelled as a counter. Only freshness matters to the code.
- Floating point. Weights are exact hundredths. `parseFloat(...) * reps`, its `toString`, and `parseFloat(totalVolume)` are exact in that unit. Rounding of binary floats is not modelled.
- Text rendering of numbers. The store keeps a set's weight as the text the client sent (`weight.toString()`); the model keeps the amount that text denotes. `Text.DecimalText` prints an amount as `toString` prints an exact hundredth, trailing zeros dropped ("135.5", "100"), and `WorkoutLogger.SentWeight` states that it reads back as the same weight. Texts that denote the same amount, such as "2.50" and "2.5" from another client, are not told apart.
- Text.Lower: lower-cases the ASCII letters only. The full Unicode case mapping of `toLowerCase` is not modelled.
- Volumes in CSV cells and progress points are kept as integer hundredths, not `Number`s.
- Dates. Only the ISO day is modelled. `toLocaleDateString` in the workout name is a parameter. `new Date(string)` parsing is not modelled.
- History.Keep: the history date filter compares the ISO date text with the filter text. The model compares day numbers, which agrees for 4-digit years.
- The clock. `now`, the session time and the date label are parameters. The timer hooks are not modelled.
- WorkoutLogger.FormatTime: takes `seconds: nat`. The session timer counts up from 0, so negative or fractional seconds do not occur.
- WorkoutLogger.Submit: the form's `exerciseId` string is an `Option<Id>`. The empty string is `None`.
- WorkoutLogger.Submit: failures of `apiRequest` and the toasts are not modelled. Neither is the form reset or the rest timer after a set.
- React state and query caching. `currentWorkout` is passed in as the last fetched details.
- Browser download: `Blob`, `createObjectURL` and the link click. `ExportWorkoutsToCsv` returns the file text instead.
- UI layout, badge colours, icons and the loading and empty-state messages. This covers Previous/Next being disabled on the first and last page: the model states only the page each button sets.
- History.FilteredWorkouts: a workout with an unresolved exercise throws in the category test. The model returns `None` for the whole list, which is how a throw inside `filter` ends the render.
- History.UniqueBodyParts: requires every entry's exercise to be resolved. `map` reads each `we.exercise.bodyPart`, and the code throws otherwise.
- Storage.MemStorage.DeleteWorkout: leaves the links and sets of the deleted workout in place, as the code does.

## Findings

| source | as written | input that shows it | evidently intended | confidence | as-written member | corrected member |
|---|---|---|---|---|---|---|
| server/routes.ts:119-121 | `getWorkoutExercises(setData.workoutExerciseId)` looks up links whose *workout* id equals the set's *link* id, then updates the workout named by the first of them | any set posted to an existing link: no workout has the link's id, so no workout's `totalVolume` changes | read the link by its id and add the set's volume to the link's workout | high (not executed) | Routes.AddSetAsWritten, Storage.MemStorage.LinkIdNamesNoWorkout, WorkoutLogger.Submit | Routes.AddSet, Routes.PostSet |
| server/storage.ts:254 | `this.sets.has(we.id)` tests whether a *link* id is a key of the sets map before collecting the link's sets | any exercise with logged sets: link ids and set ids are distinct fresh ids, so every session is skipped and the progress data is empty | collect the sets whose `workoutExerciseId` is the link's id | high (not executed) | Progress.AsWrittenPointsEmpty, Storage.MemStorage.LinkIdsAreNotSetIds | Progress.IntendedSessionCounted, Storage.MemStorage.IntendedExerciseProgress |

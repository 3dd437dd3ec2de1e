/**
 * The HTTP handlers that do more than pass a request to the store: linking an
 * exercise to a workout (default `order`), adding a set (and accruing its
 * volume onto a workout), the statistics timeframe default, and the CSV
 * export of every logged set.
 *
 * A handler that fails with status 500 returns `None`.
 */
module Routes {
  import opened Wrappers
  import opened Schema
  import opened Tables
  import Seqs
  import Text
  import Join
  import Stats
  import Storage

  // ---------------------------------------------------------------------
  // POST /api/workouts/:workoutId/exercises

  /** `req.body.order || 1`: a missing or zero order becomes 1, any other is kept. */
  function LinkOrder(order: Option<int>): (r: int)
    ensures r != 0
    ensures order.Some? && order.value != 0 ==> r == order.value
    ensures order.None? || order.value == 0 ==> r == 1
  {
    if order.None? || order.value == 0 then 1 else order.value
  }

  /** Links the exercise to the workout at the requested or default position. */
  method LinkExercise(store: Storage.MemStorage, workoutId: Id, exerciseId: Id, order: Option<int>)
    returns (r: WorkoutExercise)
    requires store.Valid()
    modifies store
    ensures store.Valid()
    ensures old(store.LinksNameWorkouts()) && workoutId < |old(store.issued)| && old(store.issued)[workoutId] == Storage.WorkoutKind
      ==> store.LinksNameWorkouts()
    ensures r.id == old(store.nextId)
    ensures r == WorkoutExercise(r.id, workoutId, exerciseId, LinkOrder(order))
    ensures store.links == old(store.links).Put(r.id, r)
    ensures store.workouts == old(store.workouts) && store.exercises == old(store.exercises) && store.sets == old(store.sets)
    ensures store.issued == old(store.issued) + [Storage.LinkKind]
  {
    r := store.AddExerciseToWorkout(InsertWorkoutExercise(workoutId, exerciseId, LinkOrder(order)));
  }

  // ---------------------------------------------------------------------
  // POST /api/workout-exercises/:workoutExerciseId/sets

  /** The fields of the request body. */
  datatype SetBody = SetBody(setNumber: int, weight: int, reps: int, restTime: Option<int>)

  function SetData(linkId: Id, body: SetBody): InsertSet
  {
    InsertSet(linkId, body.setNumber, body.weight, body.reps, body.restTime)
  }

  /**
   * The workout whose volume the handler adds to, found as the source finds
   * it: `getWorkoutExercises(<link id>)`, the links whose WORKOUT id is the
   * link id, then the first one's workout.
   */
  function AsWrittenTarget(links: seq<WorkoutExercise>, linkId: Id): (target: Option<Id>)
    ensures target.Some? ==> target.value == linkId
    ensures target.Some? <==> exists l :: l in links && l.workoutId == linkId
  {
    var found := Join.LinksOfWorkout(links, linkId);
    if found != [] then
      assert found[0] in found;
      Some(found[0].workoutId)
    else None
  }

  /** The workout of the link the set was added to, which is what the volume belongs to. */
  function Target(links: Table<Id, WorkoutExercise>, linkId: Id): (target: Option<Id>)
    ensures target.Some? <==> linkId in links.rows
    ensures target.Some? ==> target.value == links.rows[linkId].workoutId
  {
    if linkId in links.rows then Some(links.rows[linkId].workoutId) else None
  }

  /** `w` with `volume` added to its total (an absent total counts as 0). */
  function WithVolume(w: Workout, volume: int): (r: Workout)
    ensures Stats.StoredVolume(r) == Stats.StoredVolume(w) + volume
    ensures r.(totalVolume := w.totalVolume) == w
  {
    w.(totalVolume := Some(Stats.StoredVolume(w) + volume))
  }

  /** The patch the handler sends adds `volume` to the stored total. */
  lemma MergeVolume(w: Workout, current: int, volume: int)
    requires current == Stats.StoredVolume(w)
    ensures Storage.MergeWorkout(w, WorkoutPatch(None, None, None, None, Some(Some(current + volume)), None))
         == WithVolume(w, volume)
  {
  }

  /** The workouts after adding `volume` to the target's total, if the target is stored. */
  function Accrue(workouts: Table<Id, Workout>, target: Option<Id>, volume: int): (r: Table<Id, Workout>)
    requires workouts.Valid()
    ensures r.Valid() && r.order == workouts.order
    ensures forall id :: id in r.rows <==> id in workouts.rows
    ensures forall id :: id in workouts.rows && target != Some(id) ==> r.rows[id] == workouts.rows[id]
  {
    if target.Some? && target.value in workouts.rows then
      workouts.Put(target.value, WithVolume(workouts.rows[target.value], volume))
    else workouts
  }

  /** The stored volume of all workouts together grows by exactly `volume` when the target is stored. */
  lemma AccrueTotal(workouts: Table<Id, Workout>, target: Option<Id>, volume: int)
    requires workouts.Valid()
    ensures Seqs.Sum(Accrue(workouts, target, volume).Values(), Stats.StoredVolume)
         == Seqs.Sum(workouts.Values(), Stats.StoredVolume) + (if target.Some? && target.value in workouts.rows then volume else 0)
  {
    if target.Some? && target.value in workouts.rows {
      var id := target.value;
      var w := WithVolume(workouts.rows[id], volume);
      var i :| 0 <= i < |workouts.order| && workouts.order[i] == id;
      Tables.PutExistingValues(workouts, id, w);
      assert workouts.Put(id, w).Values() == workouts.Values()[i := w];
      Seqs.SumUpdate(workouts.Values(), i, w, Stats.StoredVolume);
    }
  }

  /** The target's total is the old total plus `volume`; nothing else about it changes. */
  lemma AccrueTarget(workouts: Table<Id, Workout>, id: Id, volume: int)
    requires workouts.Valid() && id in workouts.rows
    ensures Stats.StoredVolume(Accrue(workouts, Some(id), volume).rows[id]) == Stats.StoredVolume(workouts.rows[id]) + volume
    ensures Accrue(workouts, Some(id), volume).rows[id].(totalVolume := workouts.rows[id].totalVolume) == workouts.rows[id]
  {
  }

  /**
   * `getWorkout(id)`, then, if it is stored, `updateWorkout` with its total
   * volume raised by `volume` (an absent total counts as 0).  Only the
   * workout's own fields are read, so the stored row stands for the joined
   * workout.
   */
  method AddVolume(store: Storage.MemStorage, id: Id, volume: int)
    requires store.Valid()
    modifies store
    ensures store.Valid()
    ensures old(store.LinksNameWorkouts()) ==> store.LinksNameWorkouts()
    ensures store.workouts == Accrue(old(store.workouts), Some(id), volume)
    ensures store.exercises == old(store.exercises) && store.links == old(store.links) && store.sets == old(store.sets)
    ensures store.issued == old(store.issued)
  {
    var workout := store.workouts.Get(id);
    if workout.Some? {
      var w := workout.value;
      var currentVolume := w.totalVolume.GetOr(0);
      MergeVolume(w, currentVolume, volume);
      var _ := store.UpdateWorkout(w.id, WorkoutPatch(None, None, None, None, Some(Some(currentVolume + volume)), None));
    }
  }

  /**
   * The handler as written: stores the set, then looks the link up by
   * workout id and accrues onto that workout if it finds one.
   */
  method AddSetAsWritten(store: Storage.MemStorage, linkId: Id, body: SetBody) returns (r: WorkoutSet)
    requires store.Valid()
    modifies store
    ensures store.Valid()
    ensures old(store.LinksNameWorkouts()) ==> store.LinksNameWorkouts()
    ensures r.id == old(store.nextId) && r == Storage.NewSet(r.id, SetData(linkId, body))
    ensures store.sets == old(store.sets).Put(r.id, r)
    ensures store.exercises == old(store.exercises) && store.links == old(store.links)
    ensures store.workouts == Accrue(old(store.workouts), AsWrittenTarget(old(store.links.Values()), linkId), SetVolume(r))
    ensures linkId in old(store.links.rows) ==> store.workouts == old(store.workouts)
  {
    ghost var target := AsWrittenTarget(store.links.Values(), linkId);
    var setData := SetData(linkId, body);
    r := store.AddSet(setData);
    var found := store.GetWorkoutExercises(setData.workoutExerciseId);
    if |found| > 0 {
      assert target == Some(found[0].workoutId);
      AddVolume(store, found[0].workoutId, setData.weight * setData.reps);
    }
  }

  /** The handler with the lookup it evidently means: the workout of the link the set was added to. */
  method AddSet(store: Storage.MemStorage, linkId: Id, body: SetBody) returns (r: WorkoutSet)
    requires store.Valid()
    modifies store
    ensures store.Valid()
    ensures old(store.LinksNameWorkouts()) ==> store.LinksNameWorkouts()
    ensures r.id == old(store.nextId) && r == Storage.NewSet(r.id, SetData(linkId, body))
    ensures store.sets == old(store.sets).Put(r.id, r)
    ensures store.exercises == old(store.exercises) && store.links == old(store.links)
    ensures store.workouts == Accrue(old(store.workouts), Target(old(store.links), linkId), SetVolume(r))
    ensures Seqs.Sum(store.workouts.Values(), Stats.StoredVolume)
         == Seqs.Sum(old(store.workouts.Values()), Stats.StoredVolume)
            + (if linkId in old(store.links.rows) && old(store.links.rows[linkId].workoutId) in old(store.workouts.rows)
               then SetVolume(r) else 0)
  {
    ghost var target := Target(store.links, linkId);
    var setData := SetData(linkId, body);
    r := store.AddSet(setData);
    var link := store.links.Get(linkId);
    if link.Some? {
      AddVolume(store, link.value.workoutId, setData.weight * setData.reps);
    }
    AccrueTotal(old(store.workouts), target, SetVolume(r));
  }

  /** Which add-set handler the server runs: the one in the source, or the one it evidently means. */
  datatype Handler = AsWritten | Corrected

  /** The workout a handler adds the set's volume to. */
  function SetTarget(handler: Handler, links: Table<Id, WorkoutExercise>, linkId: Id): (target: Option<Id>)
    requires links.Valid()
    ensures handler == Corrected ==> target == Target(links, linkId)
    ensures handler == AsWritten ==> target == AsWrittenTarget(links.Values(), linkId)
  {
    if handler == AsWritten then AsWrittenTarget(links.Values(), linkId) else Target(links, linkId)
  }

  /**
   * `POST /api/workout-exercises/:workoutExerciseId/sets` as the given
   * handler runs it.  As written, a set posted to a stored link never
   * changes a workout.
   */
  method PostSet(store: Storage.MemStorage, handler: Handler, linkId: Id, body: SetBody) returns (r: WorkoutSet)
    requires store.Valid()
    modifies store
    ensures store.Valid()
    ensures old(store.LinksNameWorkouts()) ==> store.LinksNameWorkouts()
    ensures r.id == old(store.nextId) && r == Storage.NewSet(r.id, SetData(linkId, body))
    ensures store.sets == old(store.sets).Put(r.id, r)
    ensures store.exercises == old(store.exercises) && store.links == old(store.links)
    ensures store.workouts == Accrue(old(store.workouts), SetTarget(handler, old(store.links), linkId), SetVolume(r))
    ensures handler == AsWritten && linkId in old(store.links.rows) ==> store.workouts == old(store.workouts)
  {
    if handler == AsWritten {
      r := AddSetAsWritten(store, linkId, body);
    } else {
      r := AddSet(store, linkId, body);
    }
  }

  // ---------------------------------------------------------------------
  // GET /api/stats

  /** `req.query.timeframe || 'all'`. */
  function Timeframe(query: Option<string>): (t: string)
    ensures query.Some? && query.value != "" ==> t == query.value
    ensures query.None? || query.value == "" ==> t == "all"
  {
    if query.None? || query.value == "" then "all" else query.value
  }

  /** Any query other than `week` or `month` (including none) counts every workout. */
  lemma TimeframeKeepsAll(query: Option<string>, ws: seq<Workout>, now: int)
    requires query != Some("week") && query != Some("month")
    ensures Stats.Kept(ws, Timeframe(query), now) == ws
  {
    Stats.KeptAll(ws, Timeframe(query), now);
  }

  method GetStats(store: Storage.MemStorage, query: Option<string>, now: int) returns (st: WorkoutStats)
    requires store.Valid()
    ensures st == Stats.Compute(store.workouts.Values(), store.links.Values(), store.exercises, Timeframe(query), now)
  {
    st := store.GetWorkoutStats(Timeframe(query), now);
  }

  // ---------------------------------------------------------------------
  // GET /api/export/csv

  const CsvHeader: seq<string> := ["Date", "Workout", "Exercise", "Body Part", "Set", "Weight", "Reps", "Volume"]

  /** The last four cells: set number, weight, reps and weight × reps, as text. */
  function NumberCells(s: WorkoutSet): (cells: seq<string>)
    ensures |cells| == 4
  {
    [Text.IntText(s.setNumber), Text.DecimalText(s.weight), Text.IntText(s.reps), Text.DecimalText(SetVolume(s))]
  }

  /** The first four cells: the workout's day, the workout's name, the exercise's name and body part. */
  function LeadCells(x: LoggedSet): (cells: seq<string>)
    requires Resolved(x)
    ensures |cells| == 4
  {
    [Text.IsoDate(DayOf(x.workout.startTime)), x.workout.name, x.entry.exercise.value.name, x.entry.exercise.value.bodyPart]
  }

  /** One data row, in the order of the header. */
  function CsvRow(x: LoggedSet): (row: seq<string>)
    requires Resolved(x)
    ensures |row| == |CsvHeader|
  {
    LeadCells(x) + NumberCells(x.workoutSet)
  }

  function CsvRows(xs: seq<LoggedSet>): (rows: seq<seq<string>>)
    requires forall x :: x in xs ==> Resolved(x)
    ensures |rows| == |xs| && forall n :: 0 <= n < |xs| ==> rows[n] == CsvRow(xs[n])
  {
    seq(|xs|, n requires 0 <= n < |xs| => CsvRow(xs[n]))
  }

  /** `rows.map(row => row.join(','))`. */
  function Lines(rows: seq<seq<string>>): (lines: seq<string>)
    ensures |lines| == |rows| && forall n :: 0 <= n < |rows| ==> lines[n] == Seqs.Join(rows[n], ",")
  {
    seq(|rows|, n requires 0 <= n < |rows| => Seqs.Join(rows[n], ","))
  }

  /** The response body: the header and one row per set, or `None` (status 500). */
  function CsvExport(ws: seq<WorkoutWithDetails>): Option<string>
  {
    var xs := LoggedSets(ws);
    if AllResolved(xs) then Some(Seqs.Join(Lines([CsvHeader] + CsvRows(xs)), "\n")) else None
  }

  /** The export fails exactly when some workout has sets under an exercise that is not stored. */
  lemma CsvExportFails(ws: seq<WorkoutWithDetails>)
    ensures CsvExport(ws).None? <==>
      exists w, e :: w in ws && e in w.exercises && e.exercise.None? && e.sets != []
  {
    LoggedSetsMembers(ws);
    if exists w, e :: w in ws && e in w.exercises && e.exercise.None? && e.sets != [] {
      var w, e :| w in ws && e in w.exercises && e.exercise.None? && e.sets != [];
      var i :| 0 <= i < |ws| && ws[i] == w;
      var j :| 0 <= j < |w.exercises| && w.exercises[j] == e;
      LoggedSetsHas(ws, i, j, 0);
      assert !Resolved(LoggedSet(w.workout, e, e.sets[0]));
    }
  }

  /** The number cells read back as the set's number, weight, reps and weight × reps. */
  lemma NumberCellsRoundTrip(s: WorkoutSet)
    ensures Text.ParseInt(NumberCells(s)[0]) == s.setNumber
    ensures Text.ParseDecimal(NumberCells(s)[1]) == s.weight
    ensures Text.ParseInt(NumberCells(s)[2]) == s.reps
    ensures Text.ParseDecimal(NumberCells(s)[3]) == s.weight * s.reps
  {
    Text.IntTextRoundTrip(s.setNumber);
    Text.IntTextRoundTrip(s.reps);
    Text.DecimalRoundTrip(s.weight);
    Text.DecimalRoundTrip(s.weight * s.reps);
  }

  /** How often `c` occurs in a row: only the names can hold it. */
  lemma CsvRowCount(x: LoggedSet, c: char)
    requires Resolved(x)
    requires !('0' <= c <= '9') && c != '-' && c != '+' && c != '.'
    ensures Seqs.CountIn(CsvRow(x), c)
         == multiset(x.workout.name)[c] + multiset(x.entry.exercise.value.name)[c] + multiset(x.entry.exercise.value.bodyPart)[c]
  {
    LeadCellsCount(x, c);
    NumberCellsCount(x.workoutSet, c);
    Seqs.CountInAppend(LeadCells(x), NumberCells(x.workoutSet), c);
  }

  lemma NumberCellsCount(s: WorkoutSet, c: char)
    requires !('0' <= c <= '9') && c != '-' && c != '+' && c != '.'
    ensures Seqs.CountIn(NumberCells(s), c) == 0
  {
    var numbers := NumberCells(s);
    Text.IntTextNumeric(s.setNumber);
    Text.DecimalTextNumeric(s.weight);
    Text.IntTextNumeric(s.reps);
    Text.DecimalTextNumeric(SetVolume(s));
    forall i | 0 <= i < 4
      ensures c !in numbers[i]
    {
      Text.NotNumeric(numbers[i], c);
    }
    Seqs.CountInNone(numbers, c);
  }

  lemma LeadCellsCount(x: LoggedSet, c: char)
    requires Resolved(x)
    requires !('0' <= c <= '9') && c != '-' && c != '+' && c != '.'
    ensures Seqs.CountIn(LeadCells(x), c)
         == multiset(x.workout.name)[c] + multiset(x.entry.exercise.value.name)[c] + multiset(x.entry.exercise.value.bodyPart)[c]
  {
    var lead := LeadCells(x);
    Text.IsoDateNumeric(DayOf(x.workout.startTime));
    Text.NotNumeric(lead[0], c);
    Seqs.CountInFour(lead[0], lead[1], lead[2], lead[3], c);
  }

  /**
   * A row whose names hold no comma has exactly seven commas: the cells are
   * not quoted, so a comma in a name adds a column.
   */
  lemma CsvRowColumns(x: LoggedSet)
    requires Resolved(x)
    ensures multiset(Seqs.Join(CsvRow(x), ","))[','] ==
      7 + multiset(x.workout.name)[','] + multiset(x.entry.exercise.value.name)[','] + multiset(x.entry.exercise.value.bodyPart)[',']
  {
    CsvRowCount(x, ',');
    Seqs.JoinCount(CsvRow(x), ',', ',');
  }

  /** The newlines inside the names the rows copy. */
  ghost function NewlinesInNames(xs: seq<LoggedSet>): nat
    requires forall x :: x in xs ==> Resolved(x)
  {
    if xs == [] then 0
    else
      var x := xs[|xs| - 1];
      assert x in xs && Resolved(x);
      NewlinesInNames(xs[..|xs| - 1])
        + multiset(x.workout.name)['\n'] + multiset(x.entry.exercise.value.name)['\n'] + multiset(x.entry.exercise.value.bodyPart)['\n']
  }

  lemma {:induction false} LinesNewlines(xs: seq<LoggedSet>)
    requires forall x :: x in xs ==> Resolved(x)
    ensures Seqs.CountIn(Lines(CsvRows(xs)), '\n') == NewlinesInNames(xs)
  {
    if xs != [] {
      var n := |xs| - 1;
      assert Lines(CsvRows(xs))[..n] == Lines(CsvRows(xs[..n]));
      LinesNewlines(xs[..n]);
      CsvRowCount(xs[n], '\n');
      Seqs.JoinCount(CsvRow(xs[n]), ',', '\n');
    }
  }

  lemma LinesCons(head: seq<string>, rows: seq<seq<string>>)
    ensures Lines([head] + rows) == [Seqs.Join(head, ",")] + Lines(rows)
  {
    var a, b := Lines([head] + rows), [Seqs.Join(head, ",")] + Lines(rows);
    forall n | 0 <= n < |a|
      ensures a[n] == b[n]
    {
      if n > 0 {
        assert ([head] + rows)[n] == rows[n - 1];
      }
    }
  }

  lemma HeaderFree()
    ensures forall i :: 0 <= i < |CsvHeader| ==> '\n' !in CsvHeader[i]
  {
  }

  /** Joining parts that do not hold `c` with a separator other than `c` gives a text without `c`. */
  lemma JoinFree(parts: seq<string>, sep: char, c: char)
    requires sep != c && forall i :: 0 <= i < |parts| ==> c !in parts[i]
    ensures multiset(Seqs.Join(parts, [sep]))[c] == 0
  {
    if parts != [] {
      Seqs.JoinCount(parts, sep, c);
      Seqs.CountInNone(parts, c);
    }
  }

  lemma {:induction false} CountInCons(head: string, tail: seq<string>, c: char)
    ensures Seqs.CountIn([head] + tail, c) == multiset(head)[c] + Seqs.CountIn(tail, c)
  {
    Seqs.CountInAppend([head], tail, c);
    assert [head][..0] == [];
  }

  /**
   * The export is the header line and one line per set: it holds one newline
   * per set of every workout, plus any inside the names it copies.
   */
  lemma CsvExportLines(ws: seq<WorkoutWithDetails>)
    requires CsvExport(ws).Some?
    ensures multiset(CsvExport(ws).value)['\n'] == Seqs.Sum(ws, TotalSets) + NewlinesInNames(LoggedSets(ws))
  {
    var xs := LoggedSets(ws);
    var rows := CsvRows(xs);
    var lines := Lines([CsvHeader] + rows);
    LinesCons(CsvHeader, rows);
    Seqs.JoinCount(lines, '\n', '\n');
    HeaderFree();
    JoinFree(CsvHeader, ',', '\n');
    CountInCons(Seqs.Join(CsvHeader, ","), Lines(rows), '\n');
    LinesNewlines(xs);
    LoggedSetsCount(ws);
  }

  /** One more set of a resolved entry adds its row at the end. */
  lemma RowsStep(done: seq<LoggedSet>, w: Workout, e: ExerciseEntry, k: nat)
    requires k < |e.sets| && e.exercise.Some?
    requires AllResolved(done + SetsOfEntry(w, e)[..k])
    ensures AllResolved(done + SetsOfEntry(w, e)[..k + 1])
    ensures CsvRows(done + SetsOfEntry(w, e)[..k + 1]) == CsvRows(done + SetsOfEntry(w, e)[..k]) + [CsvRow(LoggedSet(w, e, e.sets[k]))]
  {
    var x := LoggedSet(w, e, e.sets[k]);
    assert done + SetsOfEntry(w, e)[..k + 1] == (done + SetsOfEntry(w, e)[..k]) + [x];
    RowsSnoc(done + SetsOfEntry(w, e)[..k], x);
  }

  lemma RowsSnoc(xs: seq<LoggedSet>, x: LoggedSet)
    requires AllResolved(xs) && Resolved(x)
    ensures AllResolved(xs + [x]) && CsvRows(xs + [x]) == CsvRows(xs) + [CsvRow(x)]
  {
    assert forall y :: y in xs + [x] ==> y in xs || y == x;
    var r, r' := CsvRows(xs + [x]), CsvRows(xs) + [CsvRow(x)];
    forall n | 0 <= n < |r|
      ensures r[n] == r'[n]
    {
      if n < |xs| {
        assert (xs + [x])[n] == xs[n];
      }
    }
  }

  /** The handler's loops, workout by workout, exercise by exercise, set by set, then the join. */
  method BuildCsv(workouts: seq<WorkoutWithDetails>) returns (r: Option<string>)
    ensures r == CsvExport(workouts)
  {
    var csvData: seq<seq<string>> := [CsvHeader];
    for i := 0 to |workouts|
      invariant AllResolved(LoggedSets(workouts[..i])) && csvData == [CsvHeader] + CsvRows(LoggedSets(workouts[..i]))
    {
      var workout := workouts[i];
      ghost var before := LoggedSets(workouts[..i]);
      for j := 0 to |workout.exercises|
        invariant AllResolved(before + SetsOfEntries(workout.workout, workout.exercises[..j]))
        invariant csvData == [CsvHeader] + CsvRows(before + SetsOfEntries(workout.workout, workout.exercises[..j]))
      {
        var exercise := workout.exercises[j];
        ghost var done := before + SetsOfEntries(workout.workout, workout.exercises[..j]);
        for k := 0 to |exercise.sets|
          invariant AllResolved(done + SetsOfEntry(workout.workout, exercise)[..k])
          invariant csvData == [CsvHeader] + CsvRows(done + SetsOfEntry(workout.workout, exercise)[..k])
        {
          if exercise.exercise.None? {
            LoggedSetsHas(workouts, i, j, k);
            return None;
          }
          var x := LoggedSet(workout.workout, exercise, exercise.sets[k]);
          RowsStep(done, workout.workout, exercise, k);
          csvData := csvData + [CsvRow(x)];
        }
        SetsOfEntriesDone(before, workout.workout, workout.exercises, j);
      }
      LoggedSetsStep(workouts, i);
      assert workout.exercises[..|workout.exercises|] == workout.exercises;
    }
    assert workouts[..|workouts|] == workouts;
    r := Some(Seqs.Join(Lines(csvData), "\n"));
  }

  /** `GET /api/export/csv`: every stored workout, joined, flattened to rows. */
  method ExportCsv(store: Storage.MemStorage) returns (r: Option<string>)
    requires store.Valid()
    ensures r == CsvExport(store.GetAllWorkouts())
  {
    var workouts := store.GetAllWorkouts();
    r := BuildCsv(workouts);
  }
}

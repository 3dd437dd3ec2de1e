/**
 * The records the store keeps and the shapes the API returns (workouts,
 * exercises, workout-exercise links, sets; a workout with its exercises and
 * their sets; exercise progress; statistics).
 *
 * Ids are natural numbers handed out by the store.  Decimal columns (a set's
 * weight, a workout's total volume) are kept in hundredths, the scale of the
 * `decimal(…, 2)` columns.  Instants are milliseconds since the epoch.  A
 * nullable or optional column is an `Option`, with `None` for null or absent.
 */
module Schema {
  import opened Wrappers
  import Seqs

  type Id = nat

  datatype Workout = Workout(
    id: Id, name: string, startTime: int, endTime: Option<int>,
    duration: Option<int>, totalVolume: Option<int>, notes: Option<string>)

  datatype InsertWorkout = InsertWorkout(
    name: string, startTime: int, endTime: Option<int>,
    duration: Option<int>, totalVolume: Option<int>, notes: Option<string>)

  /**
   * A partial update: `None` leaves a field alone; `Some(v)` replaces it.  A
   * nullable field takes `Some(None)` for an explicit null.
   */
  datatype WorkoutPatch = WorkoutPatch(
    name: Option<string>, startTime: Option<int>, endTime: Option<Option<int>>,
    duration: Option<Option<int>>, totalVolume: Option<Option<int>>, notes: Option<Option<string>>)

  datatype Exercise = Exercise(id: Id, name: string, bodyPart: string, category: string, isCustom: Option<bool>)

  datatype InsertExercise = InsertExercise(name: string, bodyPart: string, category: string, isCustom: Option<bool>)

  /** The link between a workout and an exercise, with its position in the workout. */
  datatype WorkoutExercise = WorkoutExercise(id: Id, workoutId: Id, exerciseId: Id, order: int)

  datatype InsertWorkoutExercise = InsertWorkoutExercise(workoutId: Id, exerciseId: Id, order: int)

  datatype WorkoutSet = WorkoutSet(
    id: Id, workoutExerciseId: Id, setNumber: int, weight: int, reps: int, restTime: Option<int>)

  datatype InsertSet = InsertSet(workoutExerciseId: Id, setNumber: int, weight: int, reps: int, restTime: Option<int>)

  datatype SetPatch = SetPatch(
    workoutExerciseId: Option<Id>, setNumber: Option<int>, weight: Option<int>,
    reps: Option<int>, restTime: Option<Option<int>>)

  /**
   * One exercise of a workout as `getWorkout` returns it: the link row, the
   * exercise it names (`None` when that exercise is not stored, which the
   * source passes on as `undefined`) and the link's sets.
   */
  datatype ExerciseEntry = ExerciseEntry(link: WorkoutExercise, exercise: Option<Exercise>, sets: seq<WorkoutSet>)

  datatype WorkoutWithDetails = WorkoutWithDetails(workout: Workout, exercises: seq<ExerciseEntry>)

  /** One point of an exercise's progress series; `day` counts days since 1970-01-01. */
  datatype ProgressPoint = ProgressPoint(day: int, weight: int, volume: int)

  datatype ExerciseProgress = ExerciseProgress(
    exerciseId: Id, exerciseName: string, maxWeight: int, totalVolume: int, progressData: seq<ProgressPoint>)

  datatype BodyPartCount = BodyPartCount(bodyPart: string, count: nat)

  datatype WorkoutStats = WorkoutStats(
    totalWorkouts: nat, totalVolume: int, avgDuration: int, bodyPartDistribution: seq<BodyPartCount>)

  const MillisPerDay := 86400000

  /** The UTC day of an instant (the date part of `toISOString()`). */
  function DayOf(t: int): int
  {
    t / MillisPerDay
  }

  /** Weight × reps of one set, in hundredths. */
  function SetVolume(s: WorkoutSet): int
  {
    s.weight * s.reps
  }

  function SetCount(e: ExerciseEntry): int
  {
    |e.sets|
  }

  /** A set together with the workout and exercise entry it belongs to. */
  datatype LoggedSet = LoggedSet(workout: Workout, entry: ExerciseEntry, workoutSet: WorkoutSet)

  /** The set's entry names a stored exercise (else `exercise.exercise.name` throws). */
  predicate Resolved(x: LoggedSet)
  {
    x.entry.exercise.Some?
  }

  predicate AllResolved(xs: seq<LoggedSet>)
  {
    forall x :: x in xs ==> Resolved(x)
  }

  /** The sets of one entry, in the entry's order. */
  function SetsOfEntry(w: Workout, e: ExerciseEntry): (r: seq<LoggedSet>)
    ensures |r| == |e.sets|
    ensures forall i :: 0 <= i < |r| ==> r[i] == LoggedSet(w, e, e.sets[i])
  {
    seq(|e.sets|, i requires 0 <= i < |e.sets| => LoggedSet(w, e, e.sets[i]))
  }

  /** The sets of a workout's entries, entry by entry. */
  function SetsOfEntries(w: Workout, es: seq<ExerciseEntry>): seq<LoggedSet>
  {
    if es == [] then [] else SetsOfEntries(w, es[..|es| - 1]) + SetsOfEntry(w, es[|es| - 1])
  }

  /** Every set of every workout: workout by workout, exercise by exercise, set by set. */
  function LoggedSets(ws: seq<WorkoutWithDetails>): seq<LoggedSet>
  {
    if ws == [] then []
    else LoggedSets(ws[..|ws| - 1]) + SetsOfEntries(ws[|ws| - 1].workout, ws[|ws| - 1].exercises)
  }

  /** The number of sets of a workout (`exercises.reduce((sum, we) => sum + we.sets.length, 0)`). */
  function TotalSets(w: WorkoutWithDetails): int
  {
    Seqs.Sum(w.exercises, SetCount)
  }

  /** Flattening a workout yields exactly as many sets as its total. */
  lemma {:induction false} SetsOfEntriesCount(w: Workout, es: seq<ExerciseEntry>)
    ensures |SetsOfEntries(w, es)| == Seqs.Sum(es, SetCount)
  {
    if es != [] {
      SetsOfEntriesCount(w, es[..|es| - 1]);
    }
  }

  /** Every flattened set belongs to one of the workout's entries. */
  lemma {:induction false} SetsOfEntriesMembers(w: Workout, es: seq<ExerciseEntry>)
    ensures forall x :: x in SetsOfEntries(w, es) ==>
      x.workout == w && x.entry in es && x.workoutSet in x.entry.sets
  {
    if es != [] {
      var init := es[..|es| - 1];
      SetsOfEntriesMembers(w, init);
      assert forall e :: e in init ==> e in es;
    }
  }

  /** The flattened list of all workouts has one item per set of every workout. */
  lemma {:induction false} LoggedSetsCount(ws: seq<WorkoutWithDetails>)
    ensures |LoggedSets(ws)| == Seqs.Sum(ws, TotalSets)
  {
    if ws != [] {
      LoggedSetsCount(ws[..|ws| - 1]);
      SetsOfEntriesCount(ws[|ws| - 1].workout, ws[|ws| - 1].exercises);
    }
  }
  /** Every flattened set comes from a set of an entry of one of the workouts. */
  lemma {:induction false} LoggedSetsMembers(ws: seq<WorkoutWithDetails>)
    ensures forall x :: x in LoggedSets(ws) ==>
      exists w :: w in ws && x.workout == w.workout && x.entry in w.exercises && x.workoutSet in x.entry.sets
  {
    if ws != [] {
      var init, last := ws[..|ws| - 1], ws[|ws| - 1];
      LoggedSetsMembers(init);
      SetsOfEntriesMembers(last.workout, last.exercises);
      assert forall w :: w in init ==> w in ws;
    }
  }

  /** The `k`-th set of the `j`-th entry is among the flattened sets of the entries. */
  lemma {:induction false} SetsOfEntriesHas(w: Workout, es: seq<ExerciseEntry>, j: nat, k: nat)
    requires j < |es| && k < |es[j].sets|
    ensures LoggedSet(w, es[j], es[j].sets[k]) in SetsOfEntries(w, es)
  {
    var n := |es| - 1;
    if j < n {
      SetsOfEntriesHas(w, es[..n], j, k);
    } else {
      assert SetsOfEntry(w, es[n])[k] == LoggedSet(w, es[j], es[j].sets[k]);
    }
  }

  /** The `k`-th set of the `j`-th entry of the `i`-th workout is among the flattened sets. */
  lemma {:induction false} LoggedSetsHas(ws: seq<WorkoutWithDetails>, i: nat, j: nat, k: nat)
    requires i < |ws| && j < |ws[i].exercises| && k < |ws[i].exercises[j].sets|
    ensures LoggedSet(ws[i].workout, ws[i].exercises[j], ws[i].exercises[j].sets[k]) in LoggedSets(ws)
  {
    var n := |ws| - 1;
    if i < n {
      LoggedSetsHas(ws[..n], i, j, k);
    } else {
      SetsOfEntriesHas(ws[i].workout, ws[i].exercises, j, k);
    }
  }

  /** One more entry adds its sets at the end. */
  lemma SetsOfEntriesStep(w: Workout, es: seq<ExerciseEntry>, j: nat)
    requires j < |es|
    ensures SetsOfEntries(w, es[..j + 1]) == SetsOfEntries(w, es[..j]) + SetsOfEntry(w, es[j])
  {
    assert es[..j + 1][..j] == es[..j];
  }

  /** All the sets of the `j`-th entry, after those before it, are the sets of the first `j + 1` entries. */
  lemma SetsOfEntriesDone(before: seq<LoggedSet>, w: Workout, es: seq<ExerciseEntry>, j: nat)
    requires j < |es|
    ensures before + SetsOfEntries(w, es[..j]) + SetsOfEntry(w, es[j])[..|es[j].sets|]
         == before + SetsOfEntries(w, es[..j + 1])
  {
    SetsOfEntriesStep(w, es, j);
    assert SetsOfEntry(w, es[j])[..|es[j].sets|] == SetsOfEntry(w, es[j]);
  }

  /** One more workout adds the sets of its entries at the end. */
  lemma LoggedSetsStep(ws: seq<WorkoutWithDetails>, i: nat)
    requires i < |ws|
    ensures LoggedSets(ws[..i + 1]) == LoggedSets(ws[..i]) + SetsOfEntries(ws[i].workout, ws[i].exercises)
  {
    assert ws[..i + 1][..i] == ws[..i];
  }

  /** Flattening the entries of a concatenation flattens each part. */
  lemma {:induction false} SetsOfEntriesAppend(w: Workout, a: seq<ExerciseEntry>, b: seq<ExerciseEntry>)
    ensures SetsOfEntries(w, a + b) == SetsOfEntries(w, a) + SetsOfEntries(w, b)
  {
    if b != [] {
      var n := |b| - 1;
      assert (a + b)[..|a + b| - 1] == a + b[..n];
      SetsOfEntriesAppend(w, a, b[..n]);
    } else {
      assert a + b == a;
    }
  }

  /** Flattening a concatenation of workouts flattens each part. */
  lemma {:induction false} LoggedSetsAppend(a: seq<WorkoutWithDetails>, b: seq<WorkoutWithDetails>)
    ensures LoggedSets(a + b) == LoggedSets(a) + LoggedSets(b)
  {
    if b != [] {
      var n := |b| - 1;
      assert (a + b)[..|a + b| - 1] == a + b[..n];
      LoggedSetsAppend(a, b[..n]);
    } else {
      assert a + b == a;
    }
  }
}

/**
 * `MemStorage`: the in-memory store of workouts, exercises, workout-exercise
 * links and sets, each a JavaScript `Map` from id to record, with its create,
 * read, update and delete operations, the joined view of a workout, the
 * statistics and the progress of an exercise.
 *
 * Fresh ids come from a counter standing for `randomUUID`: no id is handed
 * out twice, whichever collection it is for.  The ghost sequence `issued`
 * records, for each id handed out so far, the collection it was handed out for.
 */
module Storage {
  import opened Wrappers
  import opened Schema
  import opened Tables
  import Seqs
  import Text
  import Join
  import Stats
  import Progress

  datatype Kind = WorkoutKind | ExerciseKind | LinkKind | SetKind

  /** The exercises a new store starts with. */
  const DefaultExercises: seq<InsertExercise> := [
    InsertExercise("Bench Press", "Chest", "upper", Some(false)),
    InsertExercise("Squat", "Legs", "lower", Some(false)),
    InsertExercise("Deadlift", "Back", "lower", Some(false)),
    InsertExercise("Overhead Press", "Shoulders", "upper", Some(false)),
    InsertExercise("Barbell Row", "Back", "upper", Some(false)),
    InsertExercise("Pull-ups", "Back", "upper", Some(false)),
    InsertExercise("Dips", "Chest", "upper", Some(false)),
    InsertExercise("Bicep Curls", "Arms", "upper", Some(false)),
    InsertExercise("Tricep Extensions", "Arms", "upper", Some(false)),
    InsertExercise("Lunges", "Legs", "lower", Some(false))
  ]

  /** `{ ...insert, id }` for each kind of record. */
  function NewWorkout(id: Id, w: InsertWorkout): Workout
  {
    Workout(id, w.name, w.startTime, w.endTime, w.duration, w.totalVolume, w.notes)
  }

  function NewExercise(id: Id, e: InsertExercise): Exercise
  {
    Exercise(id, e.name, e.bodyPart, e.category, e.isCustom)
  }

  function NewLink(id: Id, l: InsertWorkoutExercise): WorkoutExercise
  {
    WorkoutExercise(id, l.workoutId, l.exerciseId, l.order)
  }

  function NewSet(id: Id, s: InsertSet): WorkoutSet
  {
    WorkoutSet(id, s.workoutExerciseId, s.setNumber, s.weight, s.reps, s.restTime)
  }

  /** `{ ...existing, ...patch }`: supplied fields replace, the rest and the id stay. */
  function MergeWorkout(w: Workout, p: WorkoutPatch): (r: Workout)
    ensures r.id == w.id
    ensures r.name == (if p.name.Some? then p.name.value else w.name)
    ensures r.startTime == (if p.startTime.Some? then p.startTime.value else w.startTime)
    ensures r.endTime == (if p.endTime.Some? then p.endTime.value else w.endTime)
    ensures r.duration == (if p.duration.Some? then p.duration.value else w.duration)
    ensures r.totalVolume == (if p.totalVolume.Some? then p.totalVolume.value else w.totalVolume)
    ensures r.notes == (if p.notes.Some? then p.notes.value else w.notes)
  {
    Workout(w.id, p.name.GetOr(w.name), p.startTime.GetOr(w.startTime), p.endTime.GetOr(w.endTime),
            p.duration.GetOr(w.duration), p.totalVolume.GetOr(w.totalVolume), p.notes.GetOr(w.notes))
  }

  function MergeSet(s: WorkoutSet, p: SetPatch): (r: WorkoutSet)
    ensures r.id == s.id
    ensures r.workoutExerciseId == (if p.workoutExerciseId.Some? then p.workoutExerciseId.value else s.workoutExerciseId)
    ensures r.setNumber == (if p.setNumber.Some? then p.setNumber.value else s.setNumber)
    ensures r.weight == (if p.weight.Some? then p.weight.value else s.weight)
    ensures r.reps == (if p.reps.Some? then p.reps.value else s.reps)
    ensures r.restTime == (if p.restTime.Some? then p.restTime.value else s.restTime)
  {
    WorkoutSet(s.id, p.workoutExerciseId.GetOr(s.workoutExerciseId), p.setNumber.GetOr(s.setNumber),
               p.weight.GetOr(s.weight), p.reps.GetOr(s.reps), p.restTime.GetOr(s.restTime))
  }

  function ByBodyPart(bodyPart: string): Exercise -> bool
  {
    (e: Exercise) => Text.Lower(e.bodyPart) == Text.Lower(bodyPart)
  }

  /**
   * The counting loops of `getWorkoutStats`: for each kept workout, for each
   * of its links, count the body part of the link's exercise if it is stored.
   */
  method CountBodyParts(kept: seq<Workout>, links: seq<WorkoutExercise>, exercises: Table<Id, Exercise>)
    returns (counts: Table<string, nat>)
    ensures counts == Stats.CountTable(Stats.BodyPartsOf(kept, links, exercises))
  {
    counts := Tables.Empty();
    var i := 0;
    while i < |kept|
      invariant 0 <= i <= |kept|
      invariant counts == Stats.CountTable(Stats.BodyPartsOf(kept[..i], links, exercises))
    {
      ghost var done := Stats.BodyPartsOf(kept[..i], links, exercises);
      var wl := Join.LinksOfWorkout(links, kept[i].id);
      var j := 0;
      assert done + Stats.BodyPartsOfLinks(wl[..0], exercises) == done;
      while j < |wl|
        invariant 0 <= j <= |wl|
        invariant counts == Stats.CountTable(done + Stats.BodyPartsOfLinks(wl[..j], exercises))
      {
        var exercise := exercises.Get(wl[j].exerciseId);
        Stats.CountLinkStep(done, wl, j, exercises);
        if exercise.Some? {
          counts := Stats.Tally(counts, exercise.value.bodyPart);
        }
        j := j + 1;
      }
      assert wl[..j] == wl;
      Stats.BodyPartsStep(kept, i, links, exercises);
      i := i + 1;
    }
    assert kept[..i] == kept;
  }

  /** The exercise map after storing the first `n` defaults under the ids `start`, `start + 1`, and so on. */
  function Seeded(start: Id, n: nat): (t: Table<Id, Exercise>)
    requires n <= |DefaultExercises|
  {
    if n == 0 then Table([], map[])
    else
      var prev, id := Seeded(start, n - 1), start + n - 1;
      Table(prev.order + [id], prev.rows[id := NewExercise(id, DefaultExercises[n - 1])])
  }

  /** The seeded map lists the ids `start` to `start + n - 1` in turn, the `k`-th default under `start + k`. */
  lemma SeededRows(start: Id, n: nat)
    requires n <= |DefaultExercises|
    ensures Seeded(start, n).order == seq(n, k => start + k)
    ensures forall id :: id in Seeded(start, n).rows <==> start <= id < start + n
    ensures forall id :: id in Seeded(start, n).rows ==> Seeded(start, n).rows[id] == NewExercise(id, DefaultExercises[id - start])
  {
    SeededOrder(start, n);
    SeededKeys(start, n);
    SeededValues(start, n);
  }

  lemma {:induction false} SeededOrder(start: Id, n: nat)
    requires n <= |DefaultExercises|
    ensures Seeded(start, n).order == seq(n, k => start + k)
  {
    if n > 0 {
      SeededOrder(start, n - 1);
      assert seq(n - 1, k => start + k) + [start + n - 1] == seq(n, k => start + k);
    }
  }

  lemma {:induction false} SeededKeys(start: Id, n: nat)
    requires n <= |DefaultExercises|
    ensures forall id :: id in Seeded(start, n).rows <==> start <= id < start + n
  {
    if n > 0 {
      SeededKeys(start, n - 1);
    }
  }

  lemma {:induction false} SeededValues(start: Id, n: nat)
    requires n <= |DefaultExercises|
    ensures forall id :: id in Seeded(start, n).rows && start <= id < start + n ==>
      Seeded(start, n).rows[id] == NewExercise(id, DefaultExercises[id - start])
  {
    if n > 0 {
      SeededKeys(start, n - 1);
      SeededValues(start, n - 1);
    }
  }

  /** The seeded map is a well-formed table. */
  lemma SeededValid(start: Id, n: nat)
    requires n <= |DefaultExercises|
    ensures Seeded(start, n).Valid()
  {
    SeededRows(start, n);
    var t := Seeded(start, n);
    forall id | start <= id < start + n
      ensures id in t.order
    {
      assert t.order[id - start] == id;
    }
  }

  /** Seeding under the next ids files each default under an id newly handed out for an exercise. */
  lemma SeedIssued(before: seq<Kind>, n: nat)
    requires n <= |DefaultExercises|
    ensures Seeded(|before|, n).Valid()
    ensures forall id :: id in Seeded(|before|, n).rows ==>
      |before| <= id < |before + Issued(n, ExerciseKind)| && (before + Issued(n, ExerciseKind))[id] == ExerciseKind
      && Seeded(|before|, n).rows[id].id == id
  {
    SeededRows(|before|, n);
    SeededValid(|before|, n);
  }

  /** `n` ids handed out for `kind`. */
  function Issued(n: nat, kind: Kind): (r: seq<Kind>)
    ensures |r| == n && forall i :: 0 <= i < n ==> r[i] == kind
  {
    seq(n, _ => kind)
  }

  /** The `forEach` of `initializeDefaultExercises`: each default, in turn, under the next id. */
  method SeedExercises(start: Id) returns (ex: Table<Id, Exercise>)
    ensures ex == Seeded(start, |DefaultExercises|)
  {
    ex := Tables.Empty();
    var i := 0;
    while i < |DefaultExercises|
      invariant 0 <= i <= |DefaultExercises|
      invariant ex == Seeded(start, i)
    {
      var id := start + i;
      SeededRows(start, i);
      SeededValid(start, i);
      ex := ex.Put(id, NewExercise(id, DefaultExercises[i]));
      i := i + 1;
    }
  }

  /**
   * One turn of the loop in `getExerciseProgress`: the link's sets (as
   * written, only when the sets map has a key equal to the link's id) and, if
   * the workout is stored and there are sets, the point of that session.
   */
  method SessionPoint(we: WorkoutExercise, workouts: Table<Id, Workout>, sets: Table<Id, WorkoutSet>, guard: Progress.Guard)
    returns (point: Option<ProgressPoint>)
    requires sets.Valid()
    ensures point == Progress.Session(we, workouts, sets, guard)
  {
    var workout := workouts.Get(we.workoutId);
    var mine := if guard == Progress.AsWritten && we.id !in sets.rows then [] else Seqs.Filter(sets.Values(), Join.OfLink(we.id));
    assert mine == Progress.SessionSets(we, sets, guard);
    if workout.Some? && |mine| > 0 {
      var sessionMaxWeight := Progress.HeaviestWeight(mine);
      var sessionVolume := Seqs.Sum(mine, SetVolume);
      point := Some(ProgressPoint(DayOf(workout.value.startTime), sessionMaxWeight, sessionVolume));
    } else {
      point := None;
    }
  }

  /**
   * The body of `getExerciseProgress` once the exercise is found: walk the
   * exercise's links, keep the running maximum and total, then sort the
   * points by day.
   */
  method BuildProgress(exerciseId: Id, exercise: Exercise, ls: seq<WorkoutExercise>,
                       workouts: Table<Id, Workout>, sets: Table<Id, WorkoutSet>, guard: Progress.Guard)
    returns (r: ExerciseProgress)
    requires sets.Valid()
    ensures r == Progress.Result(exerciseId, exercise, ls, workouts, sets, guard)
  {
    var progressData: seq<ProgressPoint> := [];
    var maxWeight := 0;
    var totalVolume := 0;
    var i := 0;
    while i < |ls|
      invariant 0 <= i <= |ls|
      invariant progressData == Progress.Points(ls[..i], workouts, sets, guard)
      invariant maxWeight == Progress.RunningMax(progressData)
      invariant totalVolume == Seqs.Sum(progressData, Progress.PointVolume)
    {
      var point := SessionPoint(ls[i], workouts, sets, guard);
      Progress.PointsStep(ls, i, workouts, sets, guard);
      if point.Some? {
        Progress.RunningStep(progressData, point.value);
        maxWeight := if maxWeight >= point.value.weight then maxWeight else point.value.weight;
        totalVolume := totalVolume + point.value.volume;
        progressData := progressData + [point.value];
      }
      i := i + 1;
    }
    assert ls[..i] == ls;
    r := ExerciseProgress(exerciseId, exercise.name, maxWeight, totalVolume, Seqs.SortBy(progressData, Progress.PointDay));
  }

  /** Every link names, as its workout, an id handed out for a workout. */
  ghost predicate LinksName(links: map<Id, WorkoutExercise>, issued: seq<Kind>)
  {
    forall id :: id in links ==> links[id].workoutId < |issued| && issued[links[id].workoutId] == WorkoutKind
  }

  /** Handing out more ids keeps every link's workout id handed out for a workout. */
  lemma LinksNameGrows(links: map<Id, WorkoutExercise>, before: seq<Kind>, more: seq<Kind>)
    ensures LinksName(links, before) ==> LinksName(links, before + more)
  {
  }

  /** A new link to a workout id keeps every link's workout id handed out for a workout. */
  lemma LinksNamePut(links: map<Id, WorkoutExercise>, issued: seq<Kind>, id: Id, l: WorkoutExercise)
    requires l.workoutId < |issued| && issued[l.workoutId] == WorkoutKind
    ensures LinksName(links, issued) ==> LinksName(links[id := l], issued)
  {
  }

  /** Every record is stored under its own id, an id handed out for its collection. */
  ghost predicate Stored(workouts: Table<Id, Workout>, exercises: Table<Id, Exercise>, links: Table<Id, WorkoutExercise>,
                         sets: Table<Id, WorkoutSet>, nextId: Id, issued: seq<Kind>)
  {
    && workouts.Valid() && exercises.Valid() && links.Valid() && sets.Valid()
    && |issued| == nextId
    && (forall id :: id in workouts.rows ==> id < |issued| && issued[id] == WorkoutKind && workouts.rows[id].id == id)
    && (forall id :: id in exercises.rows ==> id < |issued| && issued[id] == ExerciseKind && exercises.rows[id].id == id)
    && (forall id :: id in links.rows ==> id < |issued| && issued[id] == LinkKind && links.rows[id].id == id)
    && (forall id :: id in sets.rows ==> id < |issued| && issued[id] == SetKind && sets.rows[id].id == id)
  }

  /** Filing a new workout under the next id keeps the store well formed. */
  lemma StoreWorkout(workouts: Table<Id, Workout>, exercises: Table<Id, Exercise>, links: Table<Id, WorkoutExercise>,
                     sets: Table<Id, WorkoutSet>, issued: seq<Kind>, w: Workout)
    requires Stored(workouts, exercises, links, sets, |issued|, issued) && w.id == |issued|
    ensures Stored(workouts.Put(w.id, w), exercises, links, sets, |issued| + 1, issued + [WorkoutKind])
  {
  }

  /** Filing a new exercise under the next id keeps the store well formed. */
  lemma StoreExercise(workouts: Table<Id, Workout>, exercises: Table<Id, Exercise>, links: Table<Id, WorkoutExercise>,
                      sets: Table<Id, WorkoutSet>, issued: seq<Kind>, e: Exercise)
    requires Stored(workouts, exercises, links, sets, |issued|, issued) && e.id == |issued|
    ensures Stored(workouts, exercises.Put(e.id, e), links, sets, |issued| + 1, issued + [ExerciseKind])
  {
  }

  /** Filing a new link under the next id keeps the store well formed. */
  lemma StoreLink(workouts: Table<Id, Workout>, exercises: Table<Id, Exercise>, links: Table<Id, WorkoutExercise>,
                  sets: Table<Id, WorkoutSet>, issued: seq<Kind>, l: WorkoutExercise)
    requires Stored(workouts, exercises, links, sets, |issued|, issued) && l.id == |issued|
    ensures Stored(workouts, exercises, links.Put(l.id, l), sets, |issued| + 1, issued + [LinkKind])
  {
  }

  /** Filing a new set under the next id keeps the store well formed. */
  lemma StoreSet(workouts: Table<Id, Workout>, exercises: Table<Id, Exercise>, links: Table<Id, WorkoutExercise>,
                 sets: Table<Id, WorkoutSet>, issued: seq<Kind>, s: WorkoutSet)
    requires Stored(workouts, exercises, links, sets, |issued|, issued) && s.id == |issued|
    ensures Stored(workouts, exercises, links, sets.Put(s.id, s), |issued| + 1, issued + [SetKind])
  {
  }

  class MemStorage {
    var workouts: Table<Id, Workout>
    var exercises: Table<Id, Exercise>
    var links: Table<Id, WorkoutExercise>
    var sets: Table<Id, WorkoutSet>
    var nextId: Id
    ghost var issued: seq<Kind>

    /** Every record is stored under its own id, an id handed out for its collection. */
    ghost predicate Valid()
      reads this
    {
      Stored(workouts, exercises, links, sets, nextId, issued)
    }

    /**
     * Every link names, as its workout, an id handed out for a workout.  The
     * client only links exercises to workouts it created; the store does not
     * check it.
     */
    ghost predicate LinksNameWorkouts()
      reads this
    {
      LinksName(links.rows, issued)
    }

    constructor ()
      ensures Valid() && LinksNameWorkouts()
      ensures workouts.rows == map[] && links.rows == map[] && sets.rows == map[]
      ensures |exercises.order| == |DefaultExercises|
      ensures forall i :: 0 <= i < |DefaultExercises| ==>
        exercises.Values()[i] == NewExercise(exercises.order[i], DefaultExercises[i])
      ensures forall i, j :: 0 <= i < j < |exercises.order| ==> exercises.order[i] != exercises.order[j]
    {
      workouts := Tables.Empty();
      exercises := Tables.Empty();
      links := Tables.Empty();
      sets := Tables.Empty();
      nextId := 0;
      issued := [];
      new;
      InitializeDefaultExercises();
      SeededRows(0, |DefaultExercises|);
    }

    /** Adds the default exercises under fresh ids, in their listed order. */
    method InitializeDefaultExercises()
      requires Valid() && exercises.order == []
      modifies this
      ensures Valid()
      ensures old(LinksNameWorkouts()) ==> LinksNameWorkouts()
      ensures workouts == old(workouts) && links == old(links) && sets == old(sets)
      ensures exercises == Seeded(old(nextId), |DefaultExercises|)
      ensures issued == old(issued) + Issued(|DefaultExercises|, ExerciseKind)
    {
      var start := nextId;
      exercises := SeedExercises(start);
      SeedIssued(issued, |DefaultExercises|);
      LinksNameGrows(links.rows, issued, Issued(|DefaultExercises|, ExerciseKind));
      nextId := start + |DefaultExercises|;
      issued := issued + Issued(|DefaultExercises|, ExerciseKind);
    }

    /** A workout with the supplied fields under a fresh id. */
    method CreateWorkout(w: InsertWorkout) returns (r: Workout)
      requires Valid()
      modifies this
      ensures Valid()
      ensures old(LinksNameWorkouts()) ==> LinksNameWorkouts()
      ensures r.id == old(nextId) && r == NewWorkout(r.id, w)
      ensures workouts == old(workouts).Put(r.id, r) && r.id !in old(workouts.rows)
      ensures issued == old(issued) + [WorkoutKind]
      ensures exercises == old(exercises) && links == old(links) && sets == old(sets)
    {
      var id := nextId;
      r := NewWorkout(id, w);
      StoreWorkout(workouts, exercises, links, sets, issued, r);
      LinksNameGrows(links.rows, issued, [WorkoutKind]);
      nextId, issued, workouts := id + 1, issued + [WorkoutKind], workouts.Put(id, r);
    }

    /** `getWorkout`: nothing for an unknown id, else the workout joined with its exercises and sets. */
    function GetWorkout(id: Id): (r: Option<WorkoutWithDetails>)
      reads this
      requires Valid()
      ensures r.Some? <==> id in workouts.rows
      ensures r.Some? ==> r.value == Join.Details(workouts.rows[id], links.Values(), exercises, sets.Values())
    {
      if id in workouts.rows then Some(Join.Details(workouts.rows[id], links.Values(), exercises, sets.Values())) else None
    }

    /** `getAllWorkouts`: every stored workout, joined, in insertion order; none is dropped. */
    function GetAllWorkouts(): (r: seq<WorkoutWithDetails>)
      reads this
      requires Valid()
      ensures |r| == |workouts.order|
      ensures forall i :: 0 <= i < |r| ==> GetWorkout(workouts.order[i]) == Some(r[i])
    {
      var wv, lv, ex, sv := workouts.Values(), links.Values(), exercises, sets.Values();
      seq(|wv|, i requires 0 <= i < |wv| => Join.Details(wv[i], lv, ex, sv))
    }

    /** `updateWorkout`: nothing for an unknown id, else the patch merged into the stored workout. */
    method UpdateWorkout(id: Id, patch: WorkoutPatch) returns (r: Option<Workout>)
      requires Valid()
      modifies this
      ensures Valid()
      ensures old(LinksNameWorkouts()) ==> LinksNameWorkouts()
      ensures id !in old(workouts.rows) ==> r == None && workouts == old(workouts)
      ensures id in old(workouts.rows) ==>
        r == Some(MergeWorkout(old(workouts.rows[id]), patch)) && workouts == old(workouts).Put(id, r.value)
      ensures exercises == old(exercises) && links == old(links) && sets == old(sets)
      ensures nextId == old(nextId) && issued == old(issued)
    {
      var existing := workouts.Get(id);
      if existing.None? {
        return None;
      }
      var updated := MergeWorkout(existing.value, patch);
      workouts := workouts.Put(id, updated);
      r := Some(updated);
    }

    /** `deleteWorkout`: whether the id was stored; its links and sets stay (no cascade). */
    method DeleteWorkout(id: Id) returns (deleted: bool)
      requires Valid()
      modifies this
      ensures Valid()
      ensures old(LinksNameWorkouts()) ==> LinksNameWorkouts()
      ensures deleted == (id in old(workouts.rows))
      ensures workouts == old(workouts).Delete(id) && id !in workouts.rows
      ensures exercises == old(exercises) && links == old(links) && sets == old(sets)
      ensures nextId == old(nextId) && issued == old(issued)
    {
      deleted := id in workouts.rows;
      workouts := workouts.Delete(id);
    }

    /** An exercise with the supplied fields under a fresh id. */
    method CreateExercise(e: InsertExercise) returns (r: Exercise)
      requires Valid()
      modifies this
      ensures Valid()
      ensures old(LinksNameWorkouts()) ==> LinksNameWorkouts()
      ensures r.id == old(nextId) && r == NewExercise(r.id, e)
      ensures exercises == old(exercises).Put(r.id, r) && r.id !in old(exercises.rows)
      ensures issued == old(issued) + [ExerciseKind]
      ensures workouts == old(workouts) && links == old(links) && sets == old(sets)
    {
      var id := nextId;
      r := NewExercise(id, e);
      StoreExercise(workouts, exercises, links, sets, issued, r);
      LinksNameGrows(links.rows, issued, [ExerciseKind]);
      nextId, issued, exercises := id + 1, issued + [ExerciseKind], exercises.Put(id, r);
    }

    function GetExercise(id: Id): (r: Option<Exercise>)
      reads this
      requires Valid()
      ensures r.Some? <==> id in exercises.rows
      ensures r.Some? ==> r.value == exercises.rows[id] && r.value.id == id
    {
      exercises.Get(id)
    }

    /** Every stored exercise, in insertion order. */
    function GetAllExercises(): (r: seq<Exercise>)
      reads this
      requires Valid()
      ensures |r| == |exercises.order|
      ensures forall e :: e in r <==> e in exercises.rows.Values
    {
      var r := exercises.Values();
      Tables.ValuesMembers(exercises);
      r
    }

    /** The exercises whose body part equals the argument up to ASCII case, in insertion order. */
    function GetExercisesByBodyPart(bodyPart: string): (r: seq<Exercise>)
      reads this
      requires Valid()
      ensures forall e :: e in r <==> e in GetAllExercises() && Text.Lower(e.bodyPart) == Text.Lower(bodyPart)
    {
      Seqs.FilterMembers(GetAllExercises(), ByBodyPart(bodyPart));
      Seqs.Filter(GetAllExercises(), ByBodyPart(bodyPart))
    }

    /** A link with the supplied fields under a fresh id. */
    method AddExerciseToWorkout(l: InsertWorkoutExercise) returns (r: WorkoutExercise)
      requires Valid()
      modifies this
      ensures Valid()
      ensures old(LinksNameWorkouts()) && l.workoutId < |old(issued)| && old(issued)[l.workoutId] == WorkoutKind
        ==> LinksNameWorkouts()
      ensures r.id == old(nextId) && r == NewLink(r.id, l)
      ensures links == old(links).Put(r.id, r) && r.id !in old(links.rows)
      ensures issued == old(issued) + [LinkKind]
      ensures workouts == old(workouts) && exercises == old(exercises) && sets == old(sets)
    {
      var id := nextId;
      r := NewLink(id, l);
      StoreLink(workouts, exercises, links, sets, issued, r);
      LinksNameGrows(links.rows, issued, [LinkKind]);
      if l.workoutId < |issued| && issued[l.workoutId] == WorkoutKind {
        LinksNamePut(links.rows, issued + [LinkKind], id, r);
      }
      nextId, issued, links := id + 1, issued + [LinkKind], links.Put(id, r);
    }

    /** `getWorkoutExercises`: the links whose `workoutId` is the argument, in insertion order. */
    function GetWorkoutExercises(workoutId: Id): (r: seq<WorkoutExercise>)
      reads this
      requires Valid()
      ensures forall l :: l in r <==> l in links.rows.Values && l.workoutId == workoutId
    {
      var vs := links.Values();
      Tables.ValuesMembers(links);
      Join.LinksOfWorkout(vs, workoutId)
    }

    /** A set with the supplied fields under a fresh id. */
    method AddSet(s: InsertSet) returns (r: WorkoutSet)
      requires Valid()
      modifies this
      ensures Valid()
      ensures old(LinksNameWorkouts()) ==> LinksNameWorkouts()
      ensures r.id == old(nextId) && r == NewSet(r.id, s)
      ensures sets == old(sets).Put(r.id, r) && r.id !in old(sets.rows)
      ensures issued == old(issued) + [SetKind]
      ensures workouts == old(workouts) && exercises == old(exercises) && links == old(links)
    {
      var id := nextId;
      r := NewSet(id, s);
      StoreSet(workouts, exercises, links, sets, issued, r);
      LinksNameGrows(links.rows, issued, [SetKind]);
      nextId, issued, sets := id + 1, issued + [SetKind], sets.Put(id, r);
    }

    /** `getSetsByWorkoutExercise`: the sets of the link, sorted by set number. */
    function GetSetsByWorkoutExercise(linkId: Id): (r: seq<WorkoutSet>)
      reads this
      requires Valid()
      ensures forall s :: s in r <==> s in sets.rows.Values && s.workoutExerciseId == linkId
      ensures forall i, j :: 0 <= i < j < |r| ==> r[i].setNumber <= r[j].setNumber
    {
      Tables.ValuesMembers(sets);
      Join.SetsOfLink(sets.Values(), linkId)
    }

    /** `updateSet`: nothing for an unknown id, else the patch merged into the stored set. */
    method UpdateSet(id: Id, patch: SetPatch) returns (r: Option<WorkoutSet>)
      requires Valid()
      modifies this
      ensures Valid()
      ensures old(LinksNameWorkouts()) ==> LinksNameWorkouts()
      ensures id !in old(sets.rows) ==> r == None && sets == old(sets)
      ensures id in old(sets.rows) ==>
        r == Some(MergeSet(old(sets.rows[id]), patch)) && sets == old(sets).Put(id, r.value)
      ensures workouts == old(workouts) && exercises == old(exercises) && links == old(links)
      ensures nextId == old(nextId) && issued == old(issued)
    {
      var existing := sets.Get(id);
      if existing.None? {
        return None;
      }
      var updated := MergeSet(existing.value, patch);
      sets := sets.Put(id, updated);
      r := Some(updated);
    }

    /** `deleteSet`: whether the id was stored. */
    method DeleteSet(id: Id) returns (deleted: bool)
      requires Valid()
      modifies this
      ensures Valid()
      ensures old(LinksNameWorkouts()) ==> LinksNameWorkouts()
      ensures deleted == (id in old(sets.rows))
      ensures sets == old(sets).Delete(id) && id !in sets.rows
      ensures workouts == old(workouts) && exercises == old(exercises) && links == old(links)
      ensures nextId == old(nextId) && issued == old(issued)
    {
      deleted := id in sets.rows;
      sets := sets.Delete(id);
    }

    /**
     * `getWorkoutStats`: the count, total volume, rounded average duration and
     * body-part histogram of the workouts the timeframe keeps.  `now` is the
     * current time.
     */
    method GetWorkoutStats(timeframe: string, now: int) returns (st: WorkoutStats)
      requires Valid()
      ensures st == Stats.Compute(workouts.Values(), links.Values(), exercises, timeframe, now)
    {
      var kept := Stats.Kept(workouts.Values(), timeframe, now);
      var totalWorkouts := |kept|;
      var totalVolume := Seqs.Sum(kept, Stats.StoredVolume);
      var counts := CountBodyParts(kept, links.Values(), exercises);
      st := WorkoutStats(
        totalWorkouts,
        totalVolume,
        Stats.AverageMinutes(Seqs.Sum(kept, Stats.DurationOrZero), totalWorkouts),
        Seqs.SortBy(Stats.Entries(counts), Stats.NegCount));
    }

    /** No link id is the key of a set: ids are never shared between collections. */
    lemma LinkIdsAreNotSetIds()
      requires Valid()
      ensures forall l :: l in links.Values() ==> l.id !in sets.rows
    {
      forall l | l in links.Values()
        ensures l.id !in sets.rows
      {
        var i :| 0 <= i < |links.order| && links.Values()[i] == l;
        assert links.order[i] in links.rows;
      }
    }

    /**
     * `getExerciseProgress`: nothing for an unknown exercise, else the
     * progress built with the source's guard.  Since no link id is a set id,
     * that guard never passes and the series is always empty.
     */
    method GetExerciseProgress(exerciseId: Id) returns (r: Option<ExerciseProgress>)
      requires Valid()
      ensures r.None? <==> exerciseId !in exercises.rows
      ensures r.Some? ==> r.value == Progress.Result(exerciseId, exercises.rows[exerciseId],
        Progress.LinksOfExercise(links.Values(), exerciseId), workouts, sets, Progress.AsWritten)
      ensures r.Some? ==> r.value.progressData == [] && r.value.maxWeight == 0 && r.value.totalVolume == 0
    {
      var exercise := exercises.Get(exerciseId);
      if exercise.None? {
        return None;
      }
      var ls := Progress.LinksOfExercise(links.Values(), exerciseId);
      var progress := BuildProgress(exerciseId, exercise.value, ls, workouts, sets, Progress.AsWritten);
      r := Some(progress);
      LinkIdsAreNotSetIds();
      Progress.AsWrittenPointsEmpty(ls, workouts, sets);
    }

    /**
     * `getExerciseProgress` with the guard corrected to collect each link's
     * sets by `workoutExerciseId`: every session of the exercise that has a
     * stored workout and at least one set becomes a point.
     */
    method IntendedExerciseProgress(exerciseId: Id) returns (r: Option<ExerciseProgress>)
      requires Valid()
      ensures r.None? <==> exerciseId !in exercises.rows
      ensures r.Some? ==> r.value == Progress.Result(exerciseId, exercises.rows[exerciseId],
        Progress.LinksOfExercise(links.Values(), exerciseId), workouts, sets, Progress.Intended)
    {
      var exercise := exercises.Get(exerciseId);
      if exercise.None? {
        return None;
      }
      var ls := Progress.LinksOfExercise(links.Values(), exerciseId);
      var progress := BuildProgress(exerciseId, exercise.value, ls, workouts, sets, Progress.Intended);
      r := Some(progress);
    }

    /**
     * A link id never names the workout of any link, so looking links up by
     * `workoutId == <link id>` (as the add-set handler does) finds nothing.
     */
    lemma LinkIdNamesNoWorkout(linkId: Id)
      requires Valid() && LinksNameWorkouts()
      requires linkId in links.rows
      ensures Join.LinksOfWorkout(links.Values(), linkId) == []
    {
      var lv := links.Values();
      forall i | 0 <= i < |lv|
        ensures !Join.InWorkout(linkId)(lv[i])
      {
        assert links.order[i] in links.rows;
      }
      Seqs.FilterNone(lv, Join.InWorkout(linkId));
    }
  }
}

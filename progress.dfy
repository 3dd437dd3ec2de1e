/**
 * What `getExerciseProgress` computes for one exercise: for each link to the
 * exercise whose workout is stored and which has sets, a point with the
 * workout's day, the heaviest weight and the volume of those sets; the running
 * maximum and running total over the points; the points sorted by day.
 *
 * The source decides whether a link has sets with `this.sets.has(we.id)`,
 * which asks the sets map for a key equal to the LINK's id.  `AsWritten`
 * models that guard; `Intended` drops it and keeps the sets whose
 * `workoutExerciseId` is the link's id, which is what the line goes on to do.
 */
module Progress {
  import opened Wrappers
  import opened Schema
  import opened Tables
  import Seqs
  import Join

  datatype Guard = AsWritten | Intended

  function OfExercise(exerciseId: Id): WorkoutExercise -> bool
  {
    (l: WorkoutExercise) => l.exerciseId == exerciseId
  }

  /** The links to an exercise, in insertion order. */
  function LinksOfExercise(links: seq<WorkoutExercise>, exerciseId: Id): (r: seq<WorkoutExercise>)
    ensures forall l :: l in r <==> l in links && l.exerciseId == exerciseId
  {
    Seqs.FilterMembers(links, OfExercise(exerciseId));
    Seqs.Filter(links, OfExercise(exerciseId))
  }

  /** The sets the loop looks at for one link. */
  function SessionSets(we: WorkoutExercise, sets: Table<Id, WorkoutSet>, guard: Guard): (r: seq<WorkoutSet>)
    requires sets.Valid()
    ensures guard == AsWritten && we.id !in sets.rows ==> r == []
    ensures forall s :: s in r ==> s in sets.rows.Values && s.workoutExerciseId == we.id
    ensures guard == Intended ==> forall s :: s in sets.rows.Values && s.workoutExerciseId == we.id ==> s in r
  {
    var vs := sets.Values();
    Seqs.FilterMembers(vs, Join.OfLink(we.id));
    Tables.ValuesMembers(sets);
    if guard == AsWritten && we.id !in sets.rows then [] else Seqs.Filter(vs, Join.OfLink(we.id))
  }

  /** `Math.max(...sets.map(s => s.weight))` for a non-empty list. */
  function HeaviestWeight(ss: seq<WorkoutSet>): (m: int)
    requires ss != []
    ensures forall s :: s in ss ==> s.weight <= m
    ensures exists s :: s in ss && s.weight == m
  {
    if |ss| == 1 then ss[0].weight
    else
      var init, last := ss[..|ss| - 1], ss[|ss| - 1];
      assert ss == init + [last];
      var m := HeaviestWeight(init);
      if last.weight > m then last.weight else m
  }

  /** The point one link contributes, if its workout is stored and it has sets. */
  function Session(we: WorkoutExercise, workouts: Table<Id, Workout>, sets: Table<Id, WorkoutSet>, guard: Guard)
    : Option<ProgressPoint>
    requires sets.Valid()
  {
    var ss := SessionSets(we, sets, guard);
    if we.workoutId in workouts.rows && ss != [] then
      Some(ProgressPoint(DayOf(workouts.rows[we.workoutId].startTime), HeaviestWeight(ss), Seqs.Sum(ss, SetVolume)))
    else None
  }

  /** The points in the order of the links (`progressData` before it is sorted). */
  function Points(ls: seq<WorkoutExercise>, workouts: Table<Id, Workout>, sets: Table<Id, WorkoutSet>, guard: Guard)
    : seq<ProgressPoint>
    requires sets.Valid()
  {
    if ls == [] then []
    else
      var s := Session(ls[|ls| - 1], workouts, sets, guard);
      Points(ls[..|ls| - 1], workouts, sets, guard) + (if s.Some? then [s.value] else [])
  }

  /** `maxWeight` after the loop: the running maximum, starting from 0. */
  function RunningMax(ps: seq<ProgressPoint>): (m: int)
    ensures m >= 0
  {
    if ps == [] then 0
    else
      var m := RunningMax(ps[..|ps| - 1]);
      if ps[|ps| - 1].weight > m then ps[|ps| - 1].weight else m
  }

  /** The running maximum bounds every weight and is either 0 or one of them. */
  lemma {:induction false} RunningMaxBounds(ps: seq<ProgressPoint>)
    ensures forall p :: p in ps ==> p.weight <= RunningMax(ps)
    ensures RunningMax(ps) == 0 || exists p :: p in ps && p.weight == RunningMax(ps)
  {
    if ps != [] {
      var init, last := ps[..|ps| - 1], ps[|ps| - 1];
      assert ps == init + [last];
      RunningMaxBounds(init);
    }
  }

  function PointVolume(p: ProgressPoint): int
  {
    p.volume
  }

  function PointDay(p: ProgressPoint): int
  {
    p.day
  }

  /** The progress of an exercise from its links, as `getExerciseProgress` returns it. */
  function Result(exerciseId: Id, exercise: Exercise, ls: seq<WorkoutExercise>,
                  workouts: Table<Id, Workout>, sets: Table<Id, WorkoutSet>, guard: Guard): (r: ExerciseProgress)
    requires sets.Valid()
    ensures r.exerciseId == exerciseId && r.exerciseName == exercise.name
    ensures r.maxWeight >= 0 && forall p :: p in r.progressData ==> p.weight <= r.maxWeight
    ensures forall i, j :: 0 <= i < j < |r.progressData| ==> r.progressData[i].day <= r.progressData[j].day
    ensures multiset(r.progressData) == multiset(Points(ls, workouts, sets, guard))
    ensures r.totalVolume == Seqs.Sum(r.progressData, PointVolume)
  {
    var ps := Points(ls, workouts, sets, guard);
    var sorted := Seqs.SortBy(ps, PointDay);
    RunningMaxBounds(ps);
    Seqs.SortByMembers(ps, PointDay);
    assert forall i, j :: 0 <= i < j < |sorted| ==> PointDay(sorted[i]) <= PointDay(sorted[j]);
    var total := Seqs.Sum(ps, PointVolume);
    Seqs.SortBySum(ps, PointDay, PointVolume);
    assert total == Seqs.Sum(sorted, PointVolume);
    ExerciseProgress(exerciseId, exercise.name, RunningMax(ps), total, sorted)
  }

  /** One more link adds its session's point, if any, at the end. */
  lemma PointsStep(ls: seq<WorkoutExercise>, i: nat, workouts: Table<Id, Workout>, sets: Table<Id, WorkoutSet>, guard: Guard)
    requires sets.Valid() && i < |ls|
    ensures Points(ls[..i + 1], workouts, sets, guard)
         == Points(ls[..i], workouts, sets, guard)
            + (if Session(ls[i], workouts, sets, guard).Some? then [Session(ls[i], workouts, sets, guard).value] else [])
  {
    assert ls[..i + 1][..i] == ls[..i];
  }

  /** The same step, spelled out the way the loop of `getExerciseProgress` takes it. */
  lemma PointsStepCases(ls: seq<WorkoutExercise>, i: nat, workouts: Table<Id, Workout>, sets: Table<Id, WorkoutSet>, guard: Guard)
    requires sets.Valid() && i < |ls|
    ensures var ss := SessionSets(ls[i], sets, guard);
      if ls[i].workoutId in workouts.rows && ss != [] then
        Points(ls[..i + 1], workouts, sets, guard) == Points(ls[..i], workouts, sets, guard)
          + [ProgressPoint(DayOf(workouts.rows[ls[i].workoutId].startTime), HeaviestWeight(ss), Seqs.Sum(ss, SetVolume))]
      else
        Points(ls[..i + 1], workouts, sets, guard) == Points(ls[..i], workouts, sets, guard)
  {
    PointsStep(ls, i, workouts, sets, guard);
  }

  /** The running maximum and total after one more point. */
  lemma RunningStep(ps: seq<ProgressPoint>, p: ProgressPoint)
    ensures RunningMax(ps + [p]) == if RunningMax(ps) >= p.weight then RunningMax(ps) else p.weight
    ensures Seqs.Sum(ps + [p], PointVolume) == Seqs.Sum(ps, PointVolume) + p.volume
  {
    assert (ps + [p])[..|ps|] == ps;
  }

  /** Every point is a session of one of the links: its day, heaviest weight and volume. */
  lemma {:induction false} PointsAreSessions(ls: seq<WorkoutExercise>, workouts: Table<Id, Workout>,
                                             sets: Table<Id, WorkoutSet>, guard: Guard)
    requires sets.Valid()
    ensures forall p :: p in Points(ls, workouts, sets, guard) ==>
      exists l :: l in ls && Session(l, workouts, sets, guard) == Some(p)
  {
    if ls != [] {
      var init := ls[..|ls| - 1];
      PointsAreSessions(init, workouts, sets, guard);
      assert forall l :: l in init ==> l in ls;
    }
  }

  /** Every link with a stored workout and sets contributes its point. */
  lemma {:induction false} SessionsArePoints(ls: seq<WorkoutExercise>, workouts: Table<Id, Workout>,
                                             sets: Table<Id, WorkoutSet>, guard: Guard)
    requires sets.Valid()
    ensures forall l :: l in ls && Session(l, workouts, sets, guard).Some? ==>
      Session(l, workouts, sets, guard).value in Points(ls, workouts, sets, guard)
  {
    if ls != [] {
      var init, last := ls[..|ls| - 1], ls[|ls| - 1];
      SessionsArePoints(init, workouts, sets, guard);
      var ps, s := Points(ls, workouts, sets, guard), Session(last, workouts, sets, guard);
      assert ps == Points(init, workouts, sets, guard) + (if s.Some? then [s.value] else []);
      assert forall l :: l in ls ==> l in init || l == last by {
        assert ls == init + [last];
      }
    }
  }

  /** The total volume is the sum of every set volume of every session. */
  lemma PointVolumes(ls: seq<WorkoutExercise>, workouts: Table<Id, Workout>, sets: Table<Id, WorkoutSet>, guard: Guard)
    requires sets.Valid()
    ensures forall p :: p in Points(ls, workouts, sets, guard) ==>
      exists l :: l in ls && SessionSets(l, sets, guard) != [] &&
        p.volume == Seqs.Sum(SessionSets(l, sets, guard), SetVolume) &&
        p.weight == HeaviestWeight(SessionSets(l, sets, guard))
  {
    PointsAreSessions(ls, workouts, sets, guard);
  }

  /**
   * As written, a link contributes nothing unless the SETS map has a key
   * equal to the link's id; when no link id is a set id, the series is empty.
   */
  lemma {:induction false} AsWrittenPointsEmpty(ls: seq<WorkoutExercise>, workouts: Table<Id, Workout>, sets: Table<Id, WorkoutSet>)
    requires sets.Valid()
    requires forall i :: 0 <= i < |ls| ==> ls[i].id !in sets.rows
    ensures Points(ls, workouts, sets, AsWritten) == []
  {
    if ls != [] {
      AsWrittenPointsEmpty(ls[..|ls| - 1], workouts, sets);
    }
  }

  /** With the guard dropped, a link with a stored workout and a set contributes a point. */
  lemma IntendedSessionCounted(ls: seq<WorkoutExercise>, workouts: Table<Id, Workout>, sets: Table<Id, WorkoutSet>,
                               l: WorkoutExercise, s: WorkoutSet)
    requires sets.Valid()
    requires l in ls && l.workoutId in workouts.rows
    requires s in sets.rows.Values && s.workoutExerciseId == l.id
    ensures Session(l, workouts, sets, Intended).Some?
    ensures Session(l, workouts, sets, Intended).value in Points(ls, workouts, sets, Intended)
    ensures Session(l, workouts, sets, Intended).value.weight >= s.weight
  {
    SessionsArePoints(ls, workouts, sets, Intended);
  }
}

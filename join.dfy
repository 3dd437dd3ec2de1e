/**
 * The read pipelines of the store: the links of a workout, the sets of a
 * link sorted by set number, and `getWorkout`'s join of a workout with its
 * exercises sorted by `order`, each carrying its exercise and its sets.
 * They work on the stored rows in insertion order (`Array.from(map.values())`).
 */
module Join {
  import opened Wrappers
  import opened Schema
  import opened Tables
  import Seqs

  function InWorkout(workoutId: Id): WorkoutExercise -> bool
  {
    (l: WorkoutExercise) => l.workoutId == workoutId
  }

  function OfLink(linkId: Id): WorkoutSet -> bool
  {
    (s: WorkoutSet) => s.workoutExerciseId == linkId
  }

  function OrderKey(l: WorkoutExercise): int
  {
    l.order
  }

  function SetNumberKey(s: WorkoutSet): int
  {
    s.setNumber
  }

  /** The links whose `workoutId` is the given id, in insertion order (`getWorkoutExercises`). */
  function LinksOfWorkout(links: seq<WorkoutExercise>, workoutId: Id): (r: seq<WorkoutExercise>)
    ensures forall l :: l in r <==> l in links && l.workoutId == workoutId
  {
    Seqs.FilterMembers(links, InWorkout(workoutId));
    Seqs.Filter(links, InWorkout(workoutId))
  }

  /** The sets of a link sorted by set number (`getSetsByWorkoutExercise`). */
  function SetsOfLink(sets: seq<WorkoutSet>, linkId: Id): (r: seq<WorkoutSet>)
    ensures forall s :: s in r <==> s in sets && s.workoutExerciseId == linkId
    ensures forall i, j :: 0 <= i < j < |r| ==> r[i].setNumber <= r[j].setNumber
    ensures multiset(r) == multiset(Seqs.Filter(sets, OfLink(linkId)))
  {
    var mine := Seqs.Filter(sets, OfLink(linkId));
    Seqs.FilterMembers(sets, OfLink(linkId));
    Seqs.SortByMembers(mine, SetNumberKey);
    Seqs.SortBy(mine, SetNumberKey)
  }

  /** One exercise entry of a workout: the link, its exercise if stored, its sets. */
  function Entry(link: WorkoutExercise, exercises: Table<Id, Exercise>, sets: seq<WorkoutSet>): ExerciseEntry
  {
    ExerciseEntry(link, exercises.Get(link.exerciseId), SetsOfLink(sets, link.id))
  }

  function LinksOf(es: seq<ExerciseEntry>): (r: seq<WorkoutExercise>)
    ensures |r| == |es| && forall i :: 0 <= i < |es| ==> r[i] == es[i].link
  {
    seq(|es|, i requires 0 <= i < |es| => es[i].link)
  }

  /**
   * `getWorkout` for a stored workout: its links sorted by `order` (ties keep
   * insertion order), each joined with its exercise and its sets.
   */
  function Details(w: Workout, links: seq<WorkoutExercise>, exercises: Table<Id, Exercise>, sets: seq<WorkoutSet>)
    : (r: WorkoutWithDetails)
    ensures r.workout == w
    ensures forall l :: l in LinksOf(r.exercises) <==> l in links && l.workoutId == w.id
    ensures forall i, j :: 0 <= i < j < |r.exercises| ==> r.exercises[i].link.order <= r.exercises[j].link.order
    ensures forall e :: e in r.exercises ==>
      && e.exercise == exercises.Get(e.link.exerciseId)
      && (forall s :: s in e.sets <==> s in sets && s.workoutExerciseId == e.link.id)
      && (forall i, j :: 0 <= i < j < |e.sets| ==> e.sets[i].setNumber <= e.sets[j].setNumber)
  {
    var ordered := Seqs.SortBy(LinksOfWorkout(links, w.id), OrderKey);
    Seqs.SortByMembers(LinksOfWorkout(links, w.id), OrderKey);
    var r := WorkoutWithDetails(w, seq(|ordered|, i requires 0 <= i < |ordered| => Entry(ordered[i], exercises, sets)));
    assert LinksOf(r.exercises) == ordered;
    r
  }

  /**
   * Links with the same `order` appear in the order they were added: the sort
   * in `getWorkout` is stable.
   */
  lemma DetailsStable(w: Workout, links: seq<WorkoutExercise>, exercises: Table<Id, Exercise>, sets: seq<WorkoutSet>, order: int)
    ensures Seqs.Filter(LinksOf(Details(w, links, exercises, sets).exercises), Seqs.HasKey(OrderKey, order))
         == Seqs.Filter(LinksOfWorkout(links, w.id), Seqs.HasKey(OrderKey, order))
  {
    var ordered := Seqs.SortBy(LinksOfWorkout(links, w.id), OrderKey);
    assert LinksOf(Details(w, links, exercises, sets).exercises) == ordered;
    Seqs.SortByStable(LinksOfWorkout(links, w.id), OrderKey, order);
  }
}

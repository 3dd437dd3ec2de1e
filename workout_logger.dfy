/**
 * The logic of the workout logger screen: the clock text of the session and
 * rest timers, the add-set form's validation, the category a custom exercise
 * gets, the session summary, and the requests the screen sends to the server
 * when a workout is started, a set is submitted, a custom exercise is
 * created and a workout is finished.
 *
 * The server side of each request is the handler or store method it reaches.
 * What the screen knows is passed in: the id of the current workout, the
 * exercise catalogue and the current workout as last fetched (`None` while it
 * is not loaded), the clock, and the locale date label.
 */
module WorkoutLogger {
  import opened Wrappers
  import opened Schema
  import Seqs
  import Text
  import Storage
  import Routes
  import History

  // ---------------------------------------------------------------------
  // Timer text

  /** `formatTime`: whole minutes, a colon, and the seconds padded to two digits. */
  function FormatTime(seconds: nat): string
  {
    Text.NatText(seconds / 60) + ":" + Text.PadStart(Text.NatText(seconds % 60), 2, '0')
  }

  /** The seconds part of the clock: two digits that read back as the remainder. */
  lemma SecondsText(secs: nat)
    requires secs < 60
    ensures var p := Text.PadStart(Text.NatText(secs), 2, '0');
      |p| == 2 && Text.AllDigits(p) && Text.ParseNat(p) == secs
  {
    var t := Text.NatText(secs);
    Text.ParseNatText(secs);
    Text.PadStartDigits(t, 2, '0');
    if secs < 10 {
      var p := Text.PadStart(t, 2, '0');
      assert p == ['0'] + t;
      assert p[..1] == "0";
    } else {
      assert t == Text.NatText(secs / 10) + [Text.Digit(secs % 10)];
    }
  }

  /** Text of the form `digits:rest` splits at its first colon into the digits and the rest. */
  lemma SplitAtColon(mins: string, secs: string)
    requires Text.AllDigits(mins)
    ensures var r := mins + ":" + secs;
      Text.IndexOf(r, ':') == |mins| && r[..|mins|] == mins && r[|mins| + 1..] == secs
  {
    var r := mins + ":" + secs;
    assert r == mins + (":" + secs);
    assert ':' !in mins by {
      forall i | 0 <= i < |mins| ensures mins[i] != ':' {
        assert '0' <= mins[i] <= '9';
      }
    }
    Text.IndexOfPrefix(mins, ":" + secs, ':');
  }

  /**
   * The clock text reads back as the time it shows: the part before the
   * colon is the minutes, the two digits after it the seconds below 60, and
   * minutes * 60 + seconds is the timer value.
   */
  lemma FormatTimeRoundTrip(seconds: nat)
    ensures var r := FormatTime(seconds);
      var i := Text.IndexOf(r, ':');
      i < |r| && |r| == i + 3 && Text.AllDigits(r[..i]) && Text.AllDigits(r[i + 1..]) &&
      Text.ParseNat(r[i + 1..]) < 60 &&
      Text.ParseNat(r[..i]) * 60 + Text.ParseNat(r[i + 1..]) == seconds
  {
    var m, sec := seconds / 60, seconds % 60;
    var mins, secs := Text.NatText(m), Text.PadStart(Text.NatText(sec), 2, '0');
    SplitAtColon(mins, secs);
    Text.ParseNatText(m);
    SecondsText(sec);
  }

  // ---------------------------------------------------------------------
  // The add-set form

  /**
   * The form's values once coerced: the selected exercise (`None` while none
   * is selected, the empty string), the body part, the weight in hundredths
   * and the repetitions.
   */
  datatype AddSetForm = AddSetForm(exerciseId: Option<Id>, bodyPart: string, weight: int, reps: int)

  /** The form's values before anything is chosen. */
  const DefaultForm := AddSetForm(None, "", 0, 1)

  /** `addSetSchema`: an exercise and a body part chosen, weight at least 0, at least one repetition. */
  predicate Accepts(f: AddSetForm)
  {
    f.exerciseId.Some? && |f.bodyPart| >= 1 && f.weight >= 0 && f.reps >= 1
  }

  /**
   * The untouched form is refused, and choosing an exercise and a body part
   * is all it takes to make it acceptable.
   */
  lemma DefaultFormNeedsChoices(id: Id, bodyPart: string)
    ensures !Accepts(DefaultForm)
    ensures Accepts(DefaultForm.(exerciseId := Some(id), bodyPart := bodyPart)) <==> bodyPart != ""
  {
  }

  // ---------------------------------------------------------------------
  // Custom exercises

  const UpperBodyParts := ["Chest", "Back", "Shoulders", "Arms"]

  /** The category of a custom exercise: "upper" for the upper-body parts, else "lower". */
  function CustomCategory(bodyPart: string): (category: string)
    ensures category == "upper" <==> bodyPart in UpperBodyParts
    ensures category == "upper" || category == "lower"
  {
    if bodyPart in UpperBodyParts then "upper" else "lower"
  }

  /** The exercise `handleCustomExercise` asks for; nothing without a name and a body part. */
  function CustomExercise(name: string, bodyPart: string): (r: Option<InsertExercise>)
    ensures r.None? <==> name == "" || bodyPart == ""
    ensures r.Some? ==> r.value.name == name && r.value.bodyPart == bodyPart && r.value.isCustom == Some(true)
  {
    if name == "" || bodyPart == "" then None
    else Some(InsertExercise(name, bodyPart, CustomCategory(bodyPart), Some(true)))
  }

  /**
   * A workout whose only exercise is a custom one passes the history list's
   * "upper" filter exactly when the exercise works an upper-body part, and
   * its "lower" filter exactly otherwise.
   */
  lemma CustomCategoryFilters(w: WorkoutWithDetails, e: Exercise)
    requires |w.exercises| == 1 && w.exercises[0].exercise == Some(e)
    requires e.category == CustomCategory(e.bodyPart)
    ensures History.Keep(None, "upper", w) == Some(true) <==> e.bodyPart in UpperBodyParts
    ensures History.Keep(None, "lower", w) == Some(true) <==> e.bodyPart !in UpperBodyParts
  {
    var es := w.exercises;
    assert es[1..] == [];
    assert History.MatchesCategory("upper", es) == Some(e.category == "upper");
    assert History.MatchesCategory("lower", es) == Some(e.category == "lower");
  }

  /** Creates the custom exercise, if the name and body part are filled in. */
  method HandleCustomExercise(store: Storage.MemStorage, name: string, bodyPart: string) returns (r: Option<Exercise>)
    requires store.Valid()
    modifies store
    ensures store.Valid()
    ensures old(store.LinksNameWorkouts()) ==> store.LinksNameWorkouts()
    ensures r.None? <==> name == "" || bodyPart == ""
    ensures r.None? ==> unchanged(store)
    ensures r.Some? ==>
      r.value == Exercise(old(store.nextId), name, bodyPart, CustomCategory(bodyPart), Some(true)) &&
      store.exercises == old(store.exercises).Put(r.value.id, r.value) &&
      store.workouts == old(store.workouts) && store.links == old(store.links) && store.sets == old(store.sets)
  {
    var request := CustomExercise(name, bodyPart);
    if request.None? {
      return None;
    }
    var created := store.CreateExercise(request.value);
    r := Some(created);
  }

  // ---------------------------------------------------------------------
  // Starting and finishing a workout

  /** Starts a workout named after the day, beginning now, with a total volume of 0. */
  method StartNewWorkout(store: Storage.MemStorage, now: int, dateLabel: string) returns (w: Workout)
    requires store.Valid()
    modifies store
    ensures store.Valid()
    ensures old(store.LinksNameWorkouts()) ==> store.LinksNameWorkouts()
    ensures w == Workout(old(store.nextId), "Workout - " + dateLabel, now, None, None, Some(0), None)
    ensures store.workouts == old(store.workouts).Put(w.id, w)
    ensures store.exercises == old(store.exercises) && store.links == old(store.links) && store.sets == old(store.sets)
  {
    w := store.CreateWorkout(InsertWorkout("Workout - " + dateLabel, now, None, None, Some(0), None));
  }

  /** Records the end time and the session timer on the current workout; nothing without one. */
  method FinishWorkout(store: Storage.MemStorage, currentWorkoutId: Option<Id>, now: int, sessionTime: int)
    returns (r: Option<Workout>)
    requires store.Valid()
    modifies store
    ensures store.Valid()
    ensures old(store.LinksNameWorkouts()) ==> store.LinksNameWorkouts()
    ensures currentWorkoutId.None? ==> r.None? && unchanged(store)
    ensures currentWorkoutId.Some? && currentWorkoutId.value !in old(store.workouts.rows) ==>
      r.None? && store.workouts == old(store.workouts)
    ensures currentWorkoutId.Some? && currentWorkoutId.value in old(store.workouts.rows) ==>
      var before := old(store.workouts.rows[currentWorkoutId.value]);
      r == Some(before.(endTime := Some(now), duration := Some(sessionTime)))
      && store.workouts == old(store.workouts).Put(currentWorkoutId.value, r.value)
    ensures store.exercises == old(store.exercises) && store.links == old(store.links) && store.sets == old(store.sets)
  {
    if currentWorkoutId.None? {
      return None;
    }
    r := store.UpdateWorkout(currentWorkoutId.value, WorkoutPatch(None, None, Some(Some(now)), Some(Some(sessionTime)), None, None));
  }

  // ---------------------------------------------------------------------
  // Submitting a set

  function HasId(id: Id): Exercise -> bool
  {
    (e: Exercise) => e.id == id
  }

  function OfExercise(exerciseId: Id): ExerciseEntry -> bool
  {
    (e: ExerciseEntry) => e.link.exerciseId == exerciseId
  }

  /** The entries of the current workout as last fetched (none while it is not loaded). */
  function Entries(currentWorkout: Option<WorkoutWithDetails>): seq<ExerciseEntry>
  {
    if currentWorkout.Some? then currentWorkout.value.exercises else []
  }

  /** What submitting the form led to: nothing, or the set stored and the link created for it, if any. */
  datatype Submission = Ignored | Added(newLink: Option<WorkoutExercise>, workoutSet: WorkoutSet)

  /** The weight the server stores: the form's number sent as `toString()` text and read back. */
  function SentWeight(weight: int): (stored: int)
    ensures stored == weight
  {
    Text.DecimalRoundTrip(weight);
    Text.ParseDecimal(Text.DecimalText(weight))
  }

  /** The set goes to an entry the workout already has, as its next set. */
  method SubmitToEntry(store: Storage.MemStorage, handler: Routes.Handler, entry: ExerciseEntry, form: AddSetForm)
    returns (s: WorkoutSet)
    requires store.Valid()
    modifies store
    ensures store.Valid()
    ensures s == WorkoutSet(old(store.nextId), entry.link.id, |entry.sets| + 1, form.weight, form.reps, None)
    ensures store.sets == old(store.sets).Put(s.id, s)
    ensures store.workouts == Routes.Accrue(old(store.workouts), Routes.SetTarget(handler, store.links, s.workoutExerciseId), SetVolume(s))
    ensures handler == Routes.AsWritten && s.workoutExerciseId in store.links.rows ==> store.workouts == old(store.workouts)
    ensures store.exercises == old(store.exercises) && store.links == old(store.links)
  {
    s := Routes.PostSet(store, handler, entry.link.id, Routes.SetBody(|entry.sets| + 1, SentWeight(form.weight), form.reps, None));
  }

  /** The exercise is linked to the workout at position `order`, and set number 1 goes to the new link. */
  method SubmitToNewLink(store: Storage.MemStorage, handler: Routes.Handler, workoutId: Id, exerciseId: Id, order: int,
                         form: AddSetForm)
    returns (link: WorkoutExercise, s: WorkoutSet)
    requires store.Valid() && order != 0
    modifies store
    ensures store.Valid()
    ensures link == WorkoutExercise(old(store.nextId), workoutId, exerciseId, order)
    ensures store.links == old(store.links).Put(link.id, link)
    ensures s == WorkoutSet(old(store.nextId) + 1, link.id, 1, form.weight, form.reps, None)
    ensures store.sets == old(store.sets).Put(s.id, s)
    ensures store.workouts == Routes.Accrue(old(store.workouts), Routes.SetTarget(handler, store.links, s.workoutExerciseId), SetVolume(s))
    ensures s.workoutExerciseId in store.links.rows
    ensures handler == Routes.AsWritten ==> store.workouts == old(store.workouts)
    ensures store.exercises == old(store.exercises)
  {
    link := Routes.LinkExercise(store, workoutId, exerciseId, Some(order));
    s := Routes.PostSet(store, handler, link.id, Routes.SetBody(1, SentWeight(form.weight), form.reps, None));
  }

  /**
   * The requests `onSubmit` sends once the workout and the exercise are
   * known: a set on the first entry for the exercise, or a new link at the
   * next position and set number 1 on it.
   */
  method SendSet(store: Storage.MemStorage, handler: Routes.Handler, workoutId: Id, entries: seq<ExerciseEntry>,
                 exerciseId: Id, form: AddSetForm) returns (r: Submission)
    requires store.Valid()
    modifies store
    ensures store.Valid()
    ensures r.Added?
    ensures r.workoutSet.weight == form.weight && r.workoutSet.reps == form.reps && r.workoutSet.restTime == None
    ensures store.sets == old(store.sets).Put(r.workoutSet.id, r.workoutSet)
    ensures store.workouts == Routes.Accrue(old(store.workouts), Routes.SetTarget(handler, store.links, r.workoutSet.workoutExerciseId),
                                            SetVolume(r.workoutSet))
    ensures store.exercises == old(store.exercises)
    ensures handler == Routes.AsWritten && r.workoutSet.workoutExerciseId in store.links.rows ==>
      store.workouts == old(store.workouts)
    ensures Seqs.Find(entries, OfExercise(exerciseId)).Some? ==>
      var entry := entries[Seqs.Find(entries, OfExercise(exerciseId)).value];
      r.newLink.None? && store.links == old(store.links) &&
      r.workoutSet.id == old(store.nextId) &&
      r.workoutSet.workoutExerciseId == entry.link.id && r.workoutSet.setNumber == |entry.sets| + 1
    ensures Seqs.Find(entries, OfExercise(exerciseId)).None? ==>
      r.newLink == Some(WorkoutExercise(old(store.nextId), workoutId, exerciseId, |entries| + 1)) &&
      store.links == old(store.links).Put(old(store.nextId), r.newLink.value) &&
      r.workoutSet.id == old(store.nextId) + 1 &&
      r.workoutSet.workoutExerciseId == old(store.nextId) && r.workoutSet.setNumber == 1 &&
      (handler == Routes.AsWritten ==> store.workouts == old(store.workouts))
  {
    var existing := Seqs.Find(entries, OfExercise(exerciseId));
    if existing.None? {
      var link, s := SubmitToNewLink(store, handler, workoutId, exerciseId, |entries| + 1, form);
      r := Added(Some(link), s);
    } else {
      var s := SubmitToEntry(store, handler, entries[existing.value], form);
      r := Added(None, s);
    }
  }

  /**
   * `onSubmit`, against a server running `handler`.  Without a current
   * workout, or for an exercise missing from the catalogue, nothing is sent.
   * If the current workout already has an entry for the exercise, the first
   * such entry gets the next set number; otherwise the exercise is linked to
   * the current workout at the next position, and set number 1 is added to
   * the new link.  The weight travels as text and is read back by the
   * server.  With the handler as written, a set that reaches a stored link
   * leaves every workout's volume as it was.
   */
  method Submit(store: Storage.MemStorage, handler: Routes.Handler, currentWorkoutId: Option<Id>, catalogue: seq<Exercise>,
                currentWorkout: Option<WorkoutWithDetails>, form: AddSetForm) returns (r: Submission)
    requires store.Valid() && Accepts(form)
    modifies store
    ensures store.Valid()
    ensures r.Ignored? <==> currentWorkoutId.None? || Seqs.Find(catalogue, HasId(form.exerciseId.value)).None?
    ensures r.Ignored? ==> unchanged(store)
    ensures r.Added? ==>
      r.workoutSet.weight == form.weight && r.workoutSet.reps == form.reps && r.workoutSet.restTime == None &&
      store.sets == old(store.sets).Put(r.workoutSet.id, r.workoutSet) &&
      store.workouts == Routes.Accrue(old(store.workouts), Routes.SetTarget(handler, store.links, r.workoutSet.workoutExerciseId),
                                      SetVolume(r.workoutSet)) &&
      store.exercises == old(store.exercises)
    ensures r.Added? && handler == Routes.AsWritten && r.workoutSet.workoutExerciseId in store.links.rows ==>
      store.workouts == old(store.workouts)
    ensures r.Added? && Seqs.Find(Entries(currentWorkout), OfExercise(form.exerciseId.value)).Some? ==>
      var entry := Entries(currentWorkout)[Seqs.Find(Entries(currentWorkout), OfExercise(form.exerciseId.value)).value];
      r.newLink.None? && store.links == old(store.links) &&
      r.workoutSet.id == old(store.nextId) &&
      r.workoutSet.workoutExerciseId == entry.link.id && r.workoutSet.setNumber == |entry.sets| + 1
    ensures r.Added? && Seqs.Find(Entries(currentWorkout), OfExercise(form.exerciseId.value)).None? ==>
      r.newLink == Some(WorkoutExercise(old(store.nextId), currentWorkoutId.value, form.exerciseId.value,
                                        |Entries(currentWorkout)| + 1)) &&
      store.links == old(store.links).Put(old(store.nextId), r.newLink.value) &&
      r.workoutSet.id == old(store.nextId) + 1 &&
      r.workoutSet.workoutExerciseId == old(store.nextId) && r.workoutSet.setNumber == 1 &&
      (handler == Routes.AsWritten ==> store.workouts == old(store.workouts))
  {
    if currentWorkoutId.None? {
      return Ignored;
    }
    var exerciseId := form.exerciseId.value;
    var exercise := Seqs.Find(catalogue, HasId(exerciseId));
    if exercise.None? {
      return Ignored;
    }
    r := SendSet(store, handler, currentWorkoutId.value, Entries(currentWorkout), exerciseId, form);
  }

  // ---------------------------------------------------------------------
  // Session summary

  datatype SessionStats = SessionStats(exercises: int, sets: int, volume: int)

  /** `calculateSessionStats`: the current workout's entry count, set count and stored total volume. */
  function CalculateSessionStats(currentWorkout: Option<WorkoutWithDetails>): SessionStats
  {
    if currentWorkout.None? then SessionStats(0, 0, 0)
    else
      var w := currentWorkout.value;
      SessionStats(|w.exercises|, TotalSets(w), w.workout.totalVolume.GetOr(0))
  }

  /**
   * All zeros without a current workout; otherwise one exercise per entry,
   * one set per logged set of the workout, and the stored total volume (0
   * when absent).
   */
  lemma SessionStatsSpec(currentWorkout: Option<WorkoutWithDetails>)
    ensures currentWorkout.None? ==> CalculateSessionStats(currentWorkout) == SessionStats(0, 0, 0)
    ensures currentWorkout.Some? ==>
      var w, st := currentWorkout.value, CalculateSessionStats(currentWorkout);
      st.exercises == |w.exercises| &&
      st.sets == |SetsOfEntries(w.workout, w.exercises)| &&
      st.volume == (if w.workout.totalVolume.Some? then w.workout.totalVolume.value else 0)
  {
    if currentWorkout.Some? {
      SetsOfEntriesCount(currentWorkout.value.workout, currentWorkout.value.exercises);
    }
  }
}

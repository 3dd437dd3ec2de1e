/**
 * What `getWorkoutStats` computes: the workouts of a timeframe, their count,
 * total volume and average duration in whole minutes, and the histogram of
 * the body parts of their exercises, largest count first.
 */
module Stats {
  import opened Wrappers
  import opened Schema
  import opened Tables
  import Seqs
  import Join

  const WeekMillis := 7 * 24 * 60 * 60 * 1000
  const MonthMillis := 30 * 24 * 60 * 60 * 1000

  /** The earliest start time a timeframe keeps; `None` keeps every workout. */
  function Cutoff(timeframe: string, now: int): (c: Option<int>)
    ensures timeframe == "week" ==> c == Some(now - WeekMillis)
    ensures timeframe == "month" ==> c == Some(now - MonthMillis)
    ensures timeframe != "week" && timeframe != "month" ==> c == None
  {
    if timeframe == "week" then Some(now - WeekMillis)
    else if timeframe == "month" then Some(now - MonthMillis)
    else None
  }

  function InTimeframe(timeframe: string, now: int): Workout -> bool
  {
    (w: Workout) => Cutoff(timeframe, now).None? || w.startTime >= Cutoff(timeframe, now).value
  }

  /** The workouts a timeframe keeps, in insertion order. */
  function Kept(ws: seq<Workout>, timeframe: string, now: int): (r: seq<Workout>)
    ensures forall w :: w in r <==> w in ws && (Cutoff(timeframe, now).None? || w.startTime >= Cutoff(timeframe, now).value)
  {
    Seqs.FilterMembers(ws, InTimeframe(timeframe, now));
    Seqs.Filter(ws, InTimeframe(timeframe, now))
  }

  /** A timeframe other than `week` or `month` keeps every workout, in order. */
  lemma {:induction false} KeptAll(ws: seq<Workout>, timeframe: string, now: int)
    requires timeframe != "week" && timeframe != "month"
    ensures Kept(ws, timeframe, now) == ws
  {
    if ws != [] {
      KeptAll(ws[..|ws| - 1], timeframe, now);
      assert ws == ws[..|ws| - 1] + [ws[|ws| - 1]];
    }
  }

  /** `parseFloat(w.totalVolume || "0")`. */
  function StoredVolume(w: Workout): int
  {
    w.totalVolume.GetOr(0)
  }

  /** `w.duration || 0`. */
  function DurationOrZero(w: Workout): int
  {
    w.duration.GetOr(0)
  }

  /**
   * `Math.round(total / n / 60)` with `0` for no workouts: the nearest whole
   * number of minutes to the average duration, halves rounded up.
   */
  function AverageMinutes(total: int, n: nat): (m: int)
    ensures n == 0 ==> m == 0
    ensures n > 0 ==> 120 * n * m <= 2 * total + 60 * n < 120 * n * m + 120 * n
  {
    if n == 0 then 0
    else
      var d := 120 * n;
      var q := (2 * total + 60 * n) / d;
      assert d * q <= 2 * total + 60 * n < d * q + d;
      q
  }

  /** The body parts of the links whose exercise is stored, one per link. */
  function BodyPartsOfLinks(ls: seq<WorkoutExercise>, exercises: Table<Id, Exercise>): seq<string>
  {
    if ls == [] then []
    else
      var last := ls[|ls| - 1];
      BodyPartsOfLinks(ls[..|ls| - 1], exercises)
        + (if last.exerciseId in exercises.rows then [exercises.rows[last.exerciseId].bodyPart] else [])
  }

  /** The body parts of every resolvable link of every given workout, workout by workout. */
  function BodyPartsOf(ws: seq<Workout>, links: seq<WorkoutExercise>, exercises: Table<Id, Exercise>): seq<string>
  {
    if ws == [] then []
    else
      var last := ws[|ws| - 1];
      BodyPartsOf(ws[..|ws| - 1], links, exercises) + BodyPartsOfLinks(Join.LinksOfWorkout(links, last.id), exercises)
  }

  /** `bodyPartCounts.set(bodyPart, (bodyPartCounts.get(bodyPart) || 0) + 1)`. */
  function Tally(t: Table<string, nat>, bodyPart: string): (u: Table<string, nat>)
    requires t.Valid()
    ensures u.Valid()
  {
    t.Put(bodyPart, t.Get(bodyPart).GetOr(0) + 1)
  }

  /** The `bodyPartCounts` map after counting `parts` one by one. */
  function CountTable(parts: seq<string>): (t: Table<string, nat>)
    ensures t.Valid()
    ensures forall k :: k in t.rows <==> k in parts
    ensures forall k :: k in t.rows ==> t.rows[k] == multiset(parts)[k]
  {
    if parts == [] then Tables.Empty()
    else
      var init, last := parts[..|parts| - 1], parts[|parts| - 1];
      assert parts == init + [last];
      Tally(CountTable(init), last)
  }

  /** The counts are kept in the order in which body parts were first seen. */
  lemma {:induction false} CountTableOrder(parts: seq<string>)
    ensures CountTable(parts).order == Seqs.Distinct(parts)
  {
    if parts != [] {
      var init := parts[..|parts| - 1];
      CountTableOrder(init);
    }
  }

  function NegCount(b: BodyPartCount): int
  {
    -(b.count as int)
  }

  function Count(b: BodyPartCount): int
  {
    b.count
  }

  /** `Array.from(bodyPartCounts.entries()).map(([bodyPart, count]) => ({ bodyPart, count }))`. */
  function Entries(t: Table<string, nat>): (r: seq<BodyPartCount>)
    requires t.Valid()
    ensures |r| == |t.order|
    ensures forall i :: 0 <= i < |r| ==> r[i] == BodyPartCount(t.order[i], t.rows[t.order[i]])
  {
    seq(|t.order|, i requires 0 <= i < |t.order| => BodyPartCount(t.order[i], t.rows[t.order[i]]))
  }

  /** The histogram sorted by count, largest first (`sort((a, b) => b.count - a.count)`). */
  function Distribution(parts: seq<string>): seq<BodyPartCount>
  {
    Seqs.SortBy(Entries(CountTable(parts)), NegCount)
  }

  /** The histogram has one entry per distinct body part, carrying how often it occurs. */
  lemma DistributionCounts(parts: seq<string>)
    ensures forall b :: b in Distribution(parts) ==> b.bodyPart in parts && b.count == multiset(parts)[b.bodyPart]
    ensures forall p :: p in parts ==> exists b :: b in Distribution(parts) && b.bodyPart == p
    ensures |Distribution(parts)| == |Seqs.Distinct(parts)|
  {
    var t := CountTable(parts);
    var es := Entries(t);
    Seqs.SortByMembers(es, NegCount);
    CountTableOrder(parts);
    forall p | p in parts
      ensures exists b :: b in Distribution(parts) && b.bodyPart == p
    {
      var i :| 0 <= i < |t.order| && t.order[i] == p;
      assert es[i] in Distribution(parts);
    }
  }

  /** Counts never increase along the histogram. */
  lemma DistributionSorted(parts: seq<string>)
    ensures forall i, j :: 0 <= i < j < |Distribution(parts)| ==>
      Distribution(parts)[i].count >= Distribution(parts)[j].count
  {
    var d := Distribution(parts);
    assert Seqs.SortedBy(d, NegCount);
    forall i, j | 0 <= i < j < |d|
      ensures d[i].count >= d[j].count
    {
      assert NegCount(d[i]) <= NegCount(d[j]);
    }
  }

  /** Counting a body part already seen raises its entry in place. */
  lemma EntriesPutExisting(t: Table<string, nat>, k: string, c: nat) returns (i: nat)
    requires t.Valid() && k in t.rows
    ensures i < |t.order| && t.order[i] == k
    ensures Entries(t.Put(k, c)) == Entries(t)[i := BodyPartCount(k, c)]
  {
    i :| 0 <= i < |t.order| && t.order[i] == k;
  }

  /** Counting a new body part appends its entry. */
  lemma EntriesPutNew(t: Table<string, nat>, k: string, c: nat)
    requires t.Valid() && k !in t.rows
    ensures Entries(t.Put(k, c)) == Entries(t) + [BodyPartCount(k, c)]
  {
    assert forall j :: 0 <= j < |t.order| ==> t.order[j] != k;
  }

  /** The counts of the table add up to the number of body parts counted. */
  lemma {:induction false} CountTableTotal(parts: seq<string>)
    ensures Seqs.Sum(Entries(CountTable(parts)), Count) == |parts|
  {
    if parts != [] {
      var init := parts[..|parts| - 1];
      CountTableTotal(init);
      TallySum(CountTable(init), parts[|parts| - 1]);
    }
  }

  /** Counting one more body part adds one to the total of the counts. */
  lemma TallySum(t: Table<string, nat>, bodyPart: string)
    requires t.Valid()
    ensures Seqs.Sum(Entries(Tally(t, bodyPart)), Count) == Seqs.Sum(Entries(t), Count) + 1
  {
    if bodyPart in t.rows {
      TallySumExisting(t, bodyPart);
    } else {
      TallySumNew(t, bodyPart);
    }
  }

  lemma TallySumExisting(t: Table<string, nat>, bodyPart: string)
    requires t.Valid() && bodyPart in t.rows
    ensures Seqs.Sum(Entries(Tally(t, bodyPart)), Count) == Seqs.Sum(Entries(t), Count) + 1
  {
    var c := t.rows[bodyPart] + 1;
    assert Tally(t, bodyPart) == t.Put(bodyPart, c);
    var i := EntriesPutExisting(t, bodyPart, c);
    assert Count(Entries(t)[i]) == c - 1;
    Seqs.SumUpdate(Entries(t), i, BodyPartCount(bodyPart, c), Count);
  }

  lemma TallySumNew(t: Table<string, nat>, bodyPart: string)
    requires t.Valid() && bodyPart !in t.rows
    ensures Seqs.Sum(Entries(Tally(t, bodyPart)), Count) == Seqs.Sum(Entries(t), Count) + 1
  {
    assert Tally(t, bodyPart) == t.Put(bodyPart, 1);
    EntriesPutNew(t, bodyPart, 1);
    var es := Entries(t) + [BodyPartCount(bodyPart, 1)];
    assert es[..|Entries(t)|] == Entries(t);
  }

  /** The histogram's counts add up to the number of resolvable links counted. */
  lemma DistributionTotal(parts: seq<string>)
    ensures Seqs.Sum(Distribution(parts), Count) == |parts|
  {
    CountTableTotal(parts);
    Seqs.SortBySum(Entries(CountTable(parts)), NegCount, Count);
  }

  /** Counting one more body part. */
  lemma CountAppend(parts: seq<string>, x: string)
    ensures CountTable(parts + [x]) == Tally(CountTable(parts), x)
  {
    assert (parts + [x])[..|parts|] == parts;
  }

  /** One more link adds its body part if its exercise is stored. */
  lemma BodyPartsOfLinksStep(wl: seq<WorkoutExercise>, j: nat, exercises: Table<Id, Exercise>)
    requires j < |wl|
    ensures BodyPartsOfLinks(wl[..j + 1], exercises)
         == BodyPartsOfLinks(wl[..j], exercises)
            + (if wl[j].exerciseId in exercises.rows then [exercises.rows[wl[j].exerciseId].bodyPart] else [])
  {
    assert wl[..j + 1][..j] == wl[..j];
  }

  /** Counting one more link: its body part is counted if its exercise is stored. */
  lemma CountLinkStep(done: seq<string>, wl: seq<WorkoutExercise>, j: nat, exercises: Table<Id, Exercise>)
    requires j < |wl|
    ensures var before := CountTable(done + BodyPartsOfLinks(wl[..j], exercises));
      CountTable(done + BodyPartsOfLinks(wl[..j + 1], exercises))
        == if wl[j].exerciseId in exercises.rows then Tally(before, exercises.rows[wl[j].exerciseId].bodyPart) else before
  {
    BodyPartsOfLinksStep(wl, j, exercises);
    var parts := done + BodyPartsOfLinks(wl[..j], exercises);
    if wl[j].exerciseId in exercises.rows {
      var bp := exercises.rows[wl[j].exerciseId].bodyPart;
      assert done + BodyPartsOfLinks(wl[..j + 1], exercises) == parts + [bp];
      CountAppend(parts, bp);
    } else {
      assert done + BodyPartsOfLinks(wl[..j + 1], exercises) == parts;
    }
  }

  /** Counting one more workout adds the body parts of its links. */
  lemma BodyPartsStep(kept: seq<Workout>, i: nat, links: seq<WorkoutExercise>, exercises: Table<Id, Exercise>)
    requires i < |kept|
    ensures BodyPartsOf(kept[..i + 1], links, exercises)
         == BodyPartsOf(kept[..i], links, exercises) + BodyPartsOfLinks(Join.LinksOfWorkout(links, kept[i].id), exercises)
  {
    assert kept[..i + 1][..i] == kept[..i];
  }

  /** The statistics of the given stored workouts, links and exercises. */
  function Compute(ws: seq<Workout>, links: seq<WorkoutExercise>, exercises: Table<Id, Exercise>, timeframe: string, now: int)
    : WorkoutStats
  {
    var kept := Kept(ws, timeframe, now);
    WorkoutStats(
      |kept|,
      Seqs.Sum(kept, StoredVolume),
      AverageMinutes(Seqs.Sum(kept, DurationOrZero), |kept|),
      Distribution(BodyPartsOf(kept, links, exercises)))
  }
}

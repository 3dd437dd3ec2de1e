/**
 * The logic of the workout history list: which workouts the date and
 * body-part filters keep, newest first; how the list is cut into pages of
 * ten and how the page buttons move; and the texts shown for each workout
 * (its title from the distinct body parts, its duration in minutes).
 *
 * The date filter is the day chosen in the date input (`None` when the input
 * is empty); a workout's date is the UTC day of its start time.
 */
module History {
  import opened Wrappers
  import opened Schema
  import Seqs
  import Text

  const ItemsPerPage := 10

  /**
   * Whether the body-part filter keeps a workout, reading its entries from
   * the left as `some` does; `None` when it reaches an entry without a stored
   * exercise before a match (reading `category` of `undefined` throws).
   */
  function MatchesCategory(filter: string, es: seq<ExerciseEntry>): Option<bool>
  {
    if es == [] then Some(false)
    else if es[0].exercise.None? then None
    else
      var category := es[0].exercise.value.category;
      if (filter == "upper" && category == "upper") || (filter == "lower" && category == "lower") then Some(true)
      else MatchesCategory(filter, es[1..])
  }

  /**
   * Whether a workout passes both filters; `None` when testing it throws.
   * Both tests are evaluated before they are combined.
   */
  function Keep(dateFilter: Option<int>, categoryFilter: string, w: WorkoutWithDetails): Option<bool>
  {
    var matchesDate := dateFilter.None? || DayOf(w.workout.startTime) >= dateFilter.value;
    var matchesBodyPart := if categoryFilter == "all" then Some(true) else MatchesCategory(categoryFilter, w.exercises);
    if matchesBodyPart.None? then None else Some(matchesDate && matchesBodyPart.value)
  }

  function Kept(dateFilter: Option<int>, categoryFilter: string): WorkoutWithDetails -> bool
  {
    w => Keep(dateFilter, categoryFilter, w) == Some(true)
  }

  function NewestFirst(w: WorkoutWithDetails): int
  {
    -w.workout.startTime
  }

  /**
   * `filteredWorkouts`: the workouts both filters keep, sorted by start time,
   * newest first, with ties in their original order; `None` when the filter
   * throws on some workout.
   */
  function FilteredWorkouts(ws: seq<WorkoutWithDetails>, dateFilter: Option<int>, categoryFilter: string)
    : Option<seq<WorkoutWithDetails>>
  {
    if forall i :: 0 <= i < |ws| ==> Keep(dateFilter, categoryFilter, ws[i]).Some? then
      Some(Seqs.SortBy(Seqs.Filter(ws, Kept(dateFilter, categoryFilter)), NewestFirst))
    else None
  }

  /** The entry names a stored exercise of the given category. */
  predicate HasCategory(e: ExerciseEntry, category: string)
  {
    e.exercise.Some? && e.exercise.value.category == category
  }

  /** Every entry before the `k`-th names a stored exercise. */
  predicate StoredBefore(es: seq<ExerciseEntry>, k: int)
    requires k <= |es|
  {
    forall m :: 0 <= m < k ==> es[m].exercise.Some?
  }

  /** A match is an entry of the filter's category with only stored exercises before it. */
  lemma {:induction false} MatchesCategoryFound(filter: string, es: seq<ExerciseEntry>)
    requires MatchesCategory(filter, es) == Some(true)
    ensures filter == "upper" || filter == "lower"
    ensures exists k :: 0 <= k < |es| && HasCategory(es[k], filter) && StoredBefore(es, k)
  {
    var category := es[0].exercise.value.category;
    if (filter == "upper" && category == "upper") || (filter == "lower" && category == "lower") {
      assert HasCategory(es[0], filter) && StoredBefore(es, 0);
    } else {
      var rest := es[1..];
      MatchesCategoryFound(filter, rest);
      var k :| 0 <= k < |rest| && HasCategory(rest[k], filter) && StoredBefore(rest, k);
      assert es[k + 1] == rest[k];
      forall m | 0 <= m < k + 1 ensures es[m].exercise.Some? {
        if m > 0 {
          assert es[m] == rest[m - 1];
        }
      }
    }
  }

  /** Conversely, such an entry is matched, unless an earlier one matches first. */
  lemma {:induction false} MatchesCategoryOf(filter: string, es: seq<ExerciseEntry>, k: nat)
    requires filter == "upper" || filter == "lower"
    requires k < |es| && HasCategory(es[k], filter) && StoredBefore(es, k)
    ensures MatchesCategory(filter, es) == Some(true)
  {
    if k > 0 && es[0].exercise.value.category != filter {
      var rest := es[1..];
      assert rest[k - 1] == es[k];
      forall m | 0 <= m < k - 1 ensures rest[m].exercise.Some? {
        assert rest[m] == es[m + 1];
      }
      MatchesCategoryOf(filter, rest, k - 1);
    }
  }

  /** With every exercise stored the body-part test never throws. */
  lemma {:induction false} MatchesCategoryStored(filter: string, es: seq<ExerciseEntry>)
    requires StoredBefore(es, |es|)
    ensures MatchesCategory(filter, es).Some?
  {
    if es != [] {
      var rest := es[1..];
      forall m | 0 <= m < |rest| ensures rest[m].exercise.Some? {
        assert rest[m] == es[m + 1];
      }
      MatchesCategoryStored(filter, rest);
    }
  }

  /** The body-part test throws only on an entry without a stored exercise. */
  lemma {:induction false} MatchesCategoryThrows(filter: string, es: seq<ExerciseEntry>)
    requires MatchesCategory(filter, es).None?
    ensures exists k :: 0 <= k < |es| && es[k].exercise.None?
  {
    if es[0].exercise.Some? {
      MatchesCategoryThrows(filter, es[1..]);
      var k :| 0 <= k < |es[1..]| && es[1..][k].exercise.None?;
      assert es[k + 1] == es[1..][k];
    }
  }

  /**
   * A workout is kept exactly when the date filter is empty or its day is on
   * or after the chosen day, and the body-part filter is "all" or one of its
   * exercises (all stored up to that one) has the chosen category "upper" or
   * "lower"; the test throws only on an entry without a stored exercise, and
   * never for the filter "all".
   */
  lemma KeepSpec(dateFilter: Option<int>, categoryFilter: string, w: WorkoutWithDetails)
    ensures Keep(dateFilter, categoryFilter, w) == Some(true) <==>
      (dateFilter.None? || DayOf(w.workout.startTime) >= dateFilter.value) &&
      (categoryFilter == "all" ||
       ((categoryFilter == "upper" || categoryFilter == "lower") &&
        exists k :: 0 <= k < |w.exercises| && HasCategory(w.exercises[k], categoryFilter) && StoredBefore(w.exercises, k)))
    ensures Keep(dateFilter, categoryFilter, w).None? ==>
      categoryFilter != "all" && exists k :: 0 <= k < |w.exercises| && w.exercises[k].exercise.None?
  {
    var es := w.exercises;
    if categoryFilter != "all" {
      if MatchesCategory(categoryFilter, es) == Some(true) {
        MatchesCategoryFound(categoryFilter, es);
      }
      if (categoryFilter == "upper" || categoryFilter == "lower") &&
         exists k :: 0 <= k < |es| && HasCategory(es[k], categoryFilter) && StoredBefore(es, k) {
        var k :| 0 <= k < |es| && HasCategory(es[k], categoryFilter) && StoredBefore(es, k);
        MatchesCategoryOf(categoryFilter, es, k);
      }
      if MatchesCategory(categoryFilter, es).None? {
        MatchesCategoryThrows(categoryFilter, es);
      }
    }
  }

  /** The filter throws only when the body-part filter is not "all" and some entry has no stored exercise. */
  lemma FilteredWorkoutsThrows(ws: seq<WorkoutWithDetails>, dateFilter: Option<int>, categoryFilter: string)
    requires FilteredWorkouts(ws, dateFilter, categoryFilter).None?
    ensures categoryFilter != "all"
    ensures exists i, k :: 0 <= i < |ws| && 0 <= k < |ws[i].exercises| && ws[i].exercises[k].exercise.None?
  {
    var i :| 0 <= i < |ws| && Keep(dateFilter, categoryFilter, ws[i]).None?;
    KeepSpec(dateFilter, categoryFilter, ws[i]);
  }

  /** With every exercise of every workout stored, the filter never throws. */
  lemma FilteredWorkoutsStored(ws: seq<WorkoutWithDetails>, dateFilter: Option<int>, categoryFilter: string)
    requires forall i :: 0 <= i < |ws| ==> StoredBefore(ws[i].exercises, |ws[i].exercises|)
    ensures FilteredWorkouts(ws, dateFilter, categoryFilter).Some?
  {
    forall i | 0 <= i < |ws| ensures Keep(dateFilter, categoryFilter, ws[i]).Some? {
      MatchesCategoryStored(categoryFilter, ws[i].exercises);
    }
  }

  /**
   * The filtered list holds exactly the kept workouts, each at most as often
   * as in the input, sorted newest first.
   */
  lemma FilteredWorkoutsSpec(ws: seq<WorkoutWithDetails>, dateFilter: Option<int>, categoryFilter: string)
    requires FilteredWorkouts(ws, dateFilter, categoryFilter).Some?
    ensures var r := FilteredWorkouts(ws, dateFilter, categoryFilter).value;
      (forall w :: w in r <==> w in ws && Keep(dateFilter, categoryFilter, w) == Some(true)) &&
      multiset(r) <= multiset(ws) &&
      forall i, j :: 0 <= i < j < |r| ==> r[i].workout.startTime >= r[j].workout.startTime
  {
    var p := Kept(dateFilter, categoryFilter);
    var f := Seqs.Filter(ws, p);
    var r := Seqs.SortBy(f, NewestFirst);
    Seqs.FilterMembers(ws, p);
    Seqs.SortByMembers(f, NewestFirst);
    assert multiset(f) <= multiset(ws) by {
      forall x ensures multiset(f)[x] <= multiset(ws)[x] {
      }
    }
    forall i, j | 0 <= i < j < |r|
      ensures r[i].workout.startTime >= r[j].workout.startTime
    {
      assert NewestFirst(r[i]) <= NewestFirst(r[j]);
    }
  }

  /** A body-part filter other than "all", "upper" and "lower" keeps nothing. */
  lemma {:induction false} OtherCategoryKeepsNothing(filter: string, es: seq<ExerciseEntry>)
    requires filter != "upper" && filter != "lower"
    ensures MatchesCategory(filter, es) != Some(true)
  {
    if es != [] && es[0].exercise.Some? {
      OtherCategoryKeepsNothing(filter, es[1..]);
    }
  }

  lemma OtherCategoryEmpty(ws: seq<WorkoutWithDetails>, dateFilter: Option<int>, categoryFilter: string)
    requires categoryFilter != "all" && categoryFilter != "upper" && categoryFilter != "lower"
    requires FilteredWorkouts(ws, dateFilter, categoryFilter).Some?
    ensures FilteredWorkouts(ws, dateFilter, categoryFilter).value == []
  {
    var p := Kept(dateFilter, categoryFilter);
    forall i | 0 <= i < |ws| ensures !p(ws[i]) {
      OtherCategoryKeepsNothing(categoryFilter, ws[i].exercises);
    }
    Seqs.FilterNone(ws, p);
  }

  /** `Math.ceil(n / itemsPerPage)`. */
  function TotalPages(n: nat): (pages: nat)
    ensures pages * ItemsPerPage >= n
    ensures pages == 0 || (pages - 1) * ItemsPerPage < n
  {
    (n + ItemsPerPage - 1) / ItemsPerPage
  }

  /** `(currentPage - 1) * itemsPerPage`. */
  function StartIndex(page: int): int
  {
    (page - 1) * ItemsPerPage
  }

  /** `slice(start, end)` for `0 <= start`: both ends are cut down to the length. */
  function Slice<T>(s: seq<T>, start: nat, end: nat): seq<T>
  {
    var e := if end < |s| then end else |s|;
    var b := if start < e then start else e;
    s[b..e]
  }

  /** The workouts shown on a page (the page counter never drops below 1). */
  function PageItems<T>(s: seq<T>, page: int): (r: seq<T>)
    requires page >= 1
    ensures |r| <= ItemsPerPage
    ensures r == [] || StartIndex(page) + |r| <= |s|
    ensures forall k :: 0 <= k < |r| ==> r[k] == s[StartIndex(page) + k]
  {
    Slice(s, StartIndex(page), StartIndex(page) + ItemsPerPage)
  }

  /** The `k`-th workout is the `k % 10`-th item of page `k / 10 + 1`, and no other page covers it. */
  lemma PageOfItem<T>(s: seq<T>, k: nat)
    requires k < |s|
    ensures var page := k / ItemsPerPage + 1;
      1 <= page <= TotalPages(|s|) &&
      k % ItemsPerPage < |PageItems(s, page)| && PageItems(s, page)[k % ItemsPerPage] == s[k]
    ensures forall page :: StartIndex(page) <= k < StartIndex(page) + ItemsPerPage ==> page == k / ItemsPerPage + 1
  {
    var page := k / ItemsPerPage + 1;
    assert StartIndex(page) == k - k % ItemsPerPage;
    forall p | StartIndex(p) <= k < StartIndex(p) + ItemsPerPage
      ensures p == page
    {
    }
  }

  /** Pages 1 to `pages`, one after the other. */
  function Pages<T>(s: seq<T>, pages: nat): seq<T>
  {
    if pages == 0 then [] else Pages(s, pages - 1) + PageItems(s, pages)
  }

  /** The first `pages` pages hold the first `10 * pages` items. */
  lemma {:induction false} PagesPrefix<T>(s: seq<T>, pages: nat)
    ensures Pages(s, pages) == Slice(s, 0, pages * ItemsPerPage)
  {
    if pages > 0 {
      PagesPrefix(s, pages - 1);
      var a, b := (pages - 1) * ItemsPerPage, pages * ItemsPerPage;
      if b <= |s| {
        assert s[..b] == s[..a] + s[a..b];
      } else if a <= |s| {
        assert s[..|s|] == s[..a] + s[a..];
      }
    }
  }

  /** Paging through all the pages shows every workout once, in order. */
  lemma PagesCover<T>(s: seq<T>)
    ensures Pages(s, TotalPages(|s|)) == s
  {
    PagesPrefix(s, TotalPages(|s|));
  }

  /** "Showing first-last of n": the numbers the range label shows for a page. */
  function RangeLabel(n: nat, page: int): (int, int)
  {
    var start := StartIndex(page);
    (start + 1, if start + ItemsPerPage < n then start + ItemsPerPage else n)
  }

  /**
   * For a page within range the label counts exactly the workouts shown: it
   * names positions `first` to `last`, one-based, of the filtered list.
   */
  lemma RangeLabelShown<T>(s: seq<T>, page: int)
    requires 1 <= page <= TotalPages(|s|)
    ensures var (first, last) := RangeLabel(|s|, page);
      1 <= first <= last <= |s| && last - first + 1 == |PageItems(s, page)| &&
      PageItems(s, page) == s[first - 1..last]
  {
  }

  /** `Math.max(1, currentPage - 1)`. */
  function Previous(page: int): int
  {
    if page - 1 > 1 then page - 1 else 1
  }

  /** `Math.min(totalPages, currentPage + 1)`. */
  function Next(page: int, totalPages: int): int
  {
    if page + 1 < totalPages then page + 1 else totalPages
  }

  /**
   * The buttons keep the page within `[1, totalPages]`: "Previous" never goes
   * below 1 and moves back one page from any later page, "Next" never passes
   * the last page and moves on one page from any earlier page.  The buttons
   * are shown only when there is more than one page.
   */
  lemma PageButtons(page: int, totalPages: int)
    requires totalPages > 1 && 1 <= page
    ensures 1 <= Previous(page) && (page > 1 ==> Previous(page) == page - 1) && (page == 1 ==> Previous(page) == 1)
    ensures 1 <= Next(page, totalPages) <= totalPages
    ensures page < totalPages ==> Next(page, totalPages) == page + 1
    ensures page <= totalPages ==> Previous(page) <= totalPages
  {
  }

  /** `formatDuration`: "N/A" for a missing or zero duration, else whole minutes. */
  function FormatDuration(duration: Option<int>): string
  {
    if duration.None? || duration.value == 0 then "N/A"
    else Text.IntText(duration.value / 60) + " min"
  }

  /**
   * The duration text is "N/A" exactly when the duration is missing or zero;
   * otherwise it is a number followed by " min", and that number is the
   * duration in whole minutes, rounded down.
   */
  lemma FormatDurationSpec(duration: Option<int>)
    ensures FormatDuration(duration) == "N/A" <==> duration.None? || duration.value == 0
    ensures duration.Some? && duration.value != 0 ==>
      var r := FormatDuration(duration);
      |r| > 4 && r[|r| - 4..] == " min" &&
      var minutes := Text.ParseInt(r[..|r| - 4]);
      minutes * 60 <= duration.value < minutes * 60 + 60
  {
    if duration.Some? && duration.value != 0 {
      var r := FormatDuration(duration);
      var t := Text.IntText(duration.value / 60);
      assert r[..|r| - 4] == t;
      Text.IntTextRoundTrip(duration.value / 60);
    }
  }

  /** Every entry of the workout names a stored exercise (else reading its body part throws). */
  predicate AllStored(w: WorkoutWithDetails)
  {
    forall k :: 0 <= k < |w.exercises| ==> w.exercises[k].exercise.Some?
  }

  /** The body part of each entry, in entry order. */
  function EntryBodyParts(w: WorkoutWithDetails): (r: seq<string>)
    requires AllStored(w)
    ensures |r| == |w.exercises|
    ensures forall k :: 0 <= k < |r| ==> r[k] == w.exercises[k].exercise.value.bodyPart
  {
    seq(|w.exercises|, k requires 0 <= k < |w.exercises| => w.exercises[k].exercise.value.bodyPart)
  }

  /** `getUniqueBodyParts`: the distinct body parts in first-occurrence order. */
  function UniqueBodyParts(w: WorkoutWithDetails): (r: seq<string>)
    requires AllStored(w)
    ensures forall p :: p in r <==> exists k :: 0 <= k < |w.exercises| && w.exercises[k].exercise.value.bodyPart == p
    ensures Seqs.NoDuplicates(r)
  {
    var parts := EntryBodyParts(w);
    assert forall p :: p in parts <==> exists k :: 0 <= k < |w.exercises| && parts[k] == p;
    Seqs.Distinct(parts)
  }

  /** `getWorkoutTitle`. */
  function WorkoutTitle(w: WorkoutWithDetails): string
    requires AllStored(w)
  {
    var parts := UniqueBodyParts(w);
    if |parts| == 0 then "Empty Workout"
    else if |parts| == 1 then parts[0] + " Workout"
    else if |parts| > 3 then "Full Body Workout"
    else Seqs.Join(parts, " & ") + " Workout"
  }

  /**
   * The title by the number of distinct body parts: "Empty Workout" for a
   * workout without exercises, "<part> Workout" when every exercise works the
   * same part, "Full Body Workout" for more than three parts, and otherwise
   * the parts joined by " & "; every title ends in " Workout".
   */
  lemma WorkoutTitleCases(w: WorkoutWithDetails)
    requires AllStored(w)
    ensures var title, parts := WorkoutTitle(w), set k | 0 <= k < |w.exercises| :: w.exercises[k].exercise.value.bodyPart;
      (|w.exercises| == 0 <==> title == "Empty Workout" && |parts| == 0) &&
      (|parts| == 1 ==> exists p :: p in parts && title == p + " Workout") &&
      (|parts| > 3 ==> title == "Full Body Workout") &&
      (2 <= |parts| <= 3 ==> title == Seqs.Join(UniqueBodyParts(w), " & ") + " Workout") &&
      |title| >= 8 && title[|title| - 8..] == " Workout"
  {
    var entryParts := EntryBodyParts(w);
    var parts := set k | 0 <= k < |w.exercises| :: w.exercises[k].exercise.value.bodyPart;
    assert parts == set x | x in entryParts by {
      forall x ensures x in parts <==> x in entryParts {
        if x in entryParts {
          var k :| 0 <= k < |entryParts| && entryParts[k] == x;
          assert w.exercises[k].exercise.value.bodyPart == x;
        }
      }
    }
    Seqs.DistinctCount(entryParts);
    var unique := UniqueBodyParts(w);
    if |unique| == 1 {
      assert unique[0] in parts;
    }
  }

  /** `totalSets`: the workout shows as many sets as it has in all its entries. */
  lemma TotalSetsCount(w: WorkoutWithDetails)
    ensures TotalSets(w) == |SetsOfEntries(w.workout, w.exercises)|
    ensures TotalSets(w) >= 0
  {
    SetsOfEntriesCount(w.workout, w.exercises);
  }
}

/**
 * Choosing session chairs from a conference roster.
 *
 * Every roster row is a participant with three areas of expertise and the
 * slot (date, start, end) of the session in which they give a talk. A query
 * narrows the roster stage by stage: by primary expertise, optionally by
 * secondary and then tertiary expertise, and finally by dropping everyone
 * who talks in the session that needs a chair. All comparisons are exact
 * string equality.
 *
 * A table is a `seq<Row>`; a selection from it is a subsequence, and the
 * union of two selections from one table is the disjunction of their
 * masks (the rows of either, each once, in table order). The original
 * joins selections with the data-frame `+`, which adds cell values; the
 * model gives `+` the meaning of that union.
 */
module ChairSelection {
  import opened Wrappers
  import opened Sequences

  /** One participant: the six columns the query reads. */
  datatype Row = Row(
    area1: string,         // area_of_expertise_1, the primary area
    area2: string,         // area_of_expertise_2, the secondary area
    area3: string,         // area_of_expertise_3, the tertiary area
    sessionDate: string,   // session_date of the participant's own talk
    sessionStart: string,  // session_start
    sessionEnd: string     // session_end
  )

  /** Which of the three expertise columns a stage compares against. */
  datatype Level = Primary | Secondary | Tertiary

  function AreaOf(r: Row, level: Level): string
  {
    match level
    case Primary => r.area1
    case Secondary => r.area2
    case Tertiary => r.area3
  }

  /**
   * The requested values for one expertise column. The original accepts a
   * single string or a list of strings; a single string is the one-element
   * list here. Indexing `[0]` in the original makes an empty list an error,
   * so every query list is non-empty.
   */
  type Areas = seq<string>

  /** A query: the expertise requested, the session that needs a chair, and the output mode. */
  datatype Query = Query(
    area1: Areas,
    area2: Option<Areas>,
    area3: Option<Areas>,
    date: string,
    startTime: string,
    endTime: string,
    mode: string
  )

  predicate ValidQuery(q: Query)
  {
    |q.area1| > 0 &&
    (q.area2.Some? ==> |q.area2.value| > 0) &&
    (q.area3.Some? ==> |q.area3.value| > 0)
  }

  // ---------------------------------------------------------------------
  // Expertise stages
  // ---------------------------------------------------------------------

  /** The boolean column `area_data == value`: one entry per row of `rows`. */
  function AreaMask(rows: seq<Row>, level: Level, value: string): (mask: Mask)
    ensures |mask| == |rows|
    ensures forall k :: 0 <= k < |rows| ==> (mask[k] <==> AreaOf(rows[k], level) == value)
  {
    seq(|rows|, k requires 0 <= k < |rows| => AreaOf(rows[k], level) == value)
  }

  /** The rows whose expertise at `level` is exactly `value`, in table order. */
  function Matching(rows: seq<Row>, level: Level, value: string): (kept: seq<Row>)
    ensures IsSubsequence(kept, rows)
    ensures forall x :: x in kept <==> x in rows && AreaOf(x, level) == value
    ensures forall x :: multiset(kept)[x] == if AreaOf(x, level) == value then multiset(rows)[x] else 0
  {
    Filter(rows, r => AreaOf(r, level) == value)
  }

  /**
   * The rows whose expertise at `level` is any one of `values`, in table
   * order; a row matching several values is kept once, as often as it
   * occurs in `rows`.
   */
  function MatchingAny(rows: seq<Row>, level: Level, values: Areas): (kept: seq<Row>)
    ensures IsSubsequence(kept, rows)
    ensures forall x :: x in kept <==> x in rows && AreaOf(x, level) in values
    ensures forall x :: multiset(kept)[x] == if AreaOf(x, level) in values then multiset(rows)[x] else 0
  {
    Filter(rows, r => AreaOf(r, level) in values)
  }

  /** With a single value, matching any of the list is matching that value. */
  lemma MatchingAnySingle(rows: seq<Row>, level: Level, value: string)
    ensures MatchingAny(rows, level, [value]) == Matching(rows, level, value)
  {
    FilterExtensional(rows, r => AreaOf(r, level) in [value], r => AreaOf(r, level) == value);
  }

  /**
   * Adding a value to the list adds exactly the rows matching it: the
   * result is the union of the two selections, in which a row that matches
   * both is counted once and not twice.
   */
  lemma MatchingAnyIsUnion(rows: seq<Row>, level: Level, values: Areas, value: string)
    ensures forall x :: x in MatchingAny(rows, level, values + [value]) <==>
      x in MatchingAny(rows, level, values) || x in Matching(rows, level, value)
    ensures forall x :: (multiset(MatchingAny(rows, level, values + [value]))[x] ==
      Max(multiset(MatchingAny(rows, level, values))[x], multiset(Matching(rows, level, value))[x]))
  {
  }

  function Max(a: nat, b: nat): nat
  {
    if a < b then b else a
  }

  /**
   * A row survives a list of values iff it survives one of the values on
   * its own.
   */
  lemma MatchingAnyMembership(rows: seq<Row>, level: Level, values: Areas, x: Row)
    ensures x in MatchingAny(rows, level, values) <==>
      exists i :: 0 <= i < |values| && x in Matching(rows, level, values[i])
  {
  }

  /** The condition of an optional stage: none when no values are given. */
  predicate InAreas(r: Row, level: Level, values: Option<Areas>)
  {
    values.Some? ==> AreaOf(r, level) in values.value
  }

  /**
   * One optional expertise stage: with no values the previous selection
   * passes through unchanged, otherwise it is narrowed to the rows matching
   * one of the values.
   */
  function Narrow(rows: seq<Row>, level: Level, values: Option<Areas>): (kept: seq<Row>)
    ensures IsSubsequence(kept, rows)
    ensures values.None? ==> kept == rows
    ensures values.Some? ==> forall x :: x in kept <==> x in rows && AreaOf(x, level) in values.value
    ensures values.Some? ==> forall x ::
      multiset(kept)[x] == if AreaOf(x, level) in values.value then multiset(rows)[x] else 0
  {
    match values
    case None => SubsequenceReflexive(rows); rows
    case Some(vs) => MatchingAny(rows, level, vs)
  }

  /**
   * Narrowing a selection by one column's values, as each expertise stage
   * of the original does: a single value is one comparison, a list starts
   * from its first value's rows and adds the rows of each further value.
   * The accumulated frame is a mask over `rows`, and adding a value's rows
   * is the disjunction with that value's mask.
   */
  method NarrowBy(rows: seq<Row>, level: Level, values: Areas) returns (kept: seq<Row>)
    requires |values| > 0
    ensures kept == MatchingAny(rows, level, values)
  {
    if |values| == 1 {
      kept := Matching(rows, level, values[0]);
      MatchingAnySingle(rows, level, values[0]);
      assert values == [values[0]];
    } else {
      var selected := AreaMask(rows, level, values[0]);
      for i := 1 to |values|
        invariant |selected| == |rows|
        invariant forall k :: 0 <= k < |rows| ==> (selected[k] <==> AreaOf(rows[k], level) in values[..i])
      {
        selected := Union(selected, AreaMask(rows, level, values[i]));
        assert values[..i + 1] == values[..i] + [values[i]];
      }
      assert values[..|values|] == values;
      kept := Select(rows, selected);
      SelectIsFilter(rows, selected, r => AreaOf(r, level) in values);
    }
  }

  // ---------------------------------------------------------------------
  // Schedule conflict
  // ---------------------------------------------------------------------

  /**
   * A row may chair the session on `date` from `start` to `end` unless its
   * own talk is on that date and starts at `start` or ends at `end`.
   */
  predicate FreeDuring(r: Row, date: string, start: string, end: string): (free: bool)
    ensures free <==> (r.sessionDate != date ||
      (r.sessionDate == date && r.sessionStart != start && r.sessionEnd != end))
    ensures r.sessionDate == date && (r.sessionStart == start || r.sessionEnd == end) ==> !free
  {
    r.sessionDate != date || (r.sessionStart != start && r.sessionEnd != end)
  }

  /** The rows whose talk is on another date than `date`. */
  function OffDate(rows: seq<Row>, date: string): (kept: seq<Row>)
    ensures IsSubsequence(kept, rows)
    ensures forall x :: x in kept <==> x in rows && x.sessionDate != date
    ensures forall x :: multiset(kept)[x] == if x.sessionDate != date then multiset(rows)[x] else 0
  {
    Filter(rows, (r: Row) => r.sessionDate != date)
  }

  /** The rows whose talk is on `date` but neither starts at `start` nor ends at `end`. */
  function OnDateFree(rows: seq<Row>, date: string, start: string, end: string): (kept: seq<Row>)
    ensures IsSubsequence(kept, rows)
    ensures forall x :: x in kept <==>
      x in rows && x.sessionDate == date && x.sessionStart != start && x.sessionEnd != end
    ensures forall x :: (multiset(kept)[x] ==
      if x.sessionDate == date && x.sessionStart != start && x.sessionEnd != end then multiset(rows)[x] else 0)
  {
    Filter(rows, (r: Row) => r.sessionDate == date && r.sessionStart != start && r.sessionEnd != end)
  }

  /**
   * The rows that may chair the session: the off-date rows together with
   * the free on-date rows, in table order.
   */
  function ExcludeSession(rows: seq<Row>, date: string, start: string, end: string): (kept: seq<Row>)
    ensures IsSubsequence(kept, rows)
    ensures forall x :: x in rows && x.sessionDate != date ==> x in kept
    ensures forall x :: x in rows && x.sessionDate == date ==>
      (x in kept <==> x.sessionStart != start && x.sessionEnd != end)
    ensures forall x :: x in kept ==> x in rows
    ensures forall x :: multiset(kept)[x] == if FreeDuring(x, date, start, end) then multiset(rows)[x] else 0
  {
    Filter(rows, r => FreeDuring(r, date, start, end))
  }

  /**
   * The off-date and free on-date parts share no row, and joining them
   * gives the excluded-session result with no row lost and none twice.
   */
  lemma ExclusionSplits(rows: seq<Row>, date: string, start: string, end: string)
    ensures forall x :: !(x in OffDate(rows, date) && x in OnDateFree(rows, date, start, end))
    ensures multiset(ExcludeSession(rows, date, start, end)) ==
      multiset(OffDate(rows, date)) + multiset(OnDateFree(rows, date, start, end))
  {
    var off := (r: Row) => r.sessionDate != date;
    var on := (r: Row) => r.sessionDate == date && r.sessionStart != start && r.sessionEnd != end;
    FilterDisjointUnion(rows, off, on);
    FilterExtensional(rows, x => off(x) || on(x), r => FreeDuring(r, date, start, end));
  }

  /** Excluding the same session a second time removes nothing more. */
  lemma ExclusionIdempotent(rows: seq<Row>, date: string, start: string, end: string)
    ensures ExcludeSession(ExcludeSession(rows, date, start, end), date, start, end) ==
      ExcludeSession(rows, date, start, end)
  {
    FilterIdempotent(rows, r => FreeDuring(r, date, start, end));
  }

  // ---------------------------------------------------------------------
  // The whole query
  // ---------------------------------------------------------------------

  /** Everything a row must satisfy to be offered as chair for `q`. */
  predicate Eligible(q: Query, r: Row)
  {
    AreaOf(r, Primary) in q.area1 &&
    InAreas(r, Secondary, q.area2) &&
    InAreas(r, Tertiary, q.area3) &&
    FreeDuring(r, q.date, q.startTime, q.endTime)
  }

  /**
   * The candidate chairs for `q`: the four stages applied in turn. The
   * result is a subsequence of the roster holding exactly its eligible rows.
   */
  function Candidates(roster: seq<Row>, q: Query): (chairs: seq<Row>)
    ensures IsSubsequence(chairs, roster)
    ensures forall x :: x in chairs <==> x in roster && Eligible(q, x)
  {
    var byPrimary := MatchingAny(roster, Primary, q.area1);
    var bySecondary := Narrow(byPrimary, Secondary, q.area2);
    var byTertiary := Narrow(bySecondary, Tertiary, q.area3);
    var chairs := ExcludeSession(byTertiary, q.date, q.startTime, q.endTime);
    SubsequenceTransitive(bySecondary, byPrimary, roster);
    SubsequenceTransitive(byTertiary, bySecondary, roster);
    SubsequenceTransitive(chairs, byTertiary, roster);
    chairs
  }

  /**
   * The staged query is one filter of the roster by eligibility: the
   * chairs come in roster order and each eligible row appears as often as
   * it does in the roster.
   */
  lemma CandidatesIsFilter(roster: seq<Row>, q: Query)
    ensures Candidates(roster, q) == Filter(roster, r => Eligible(q, r))
  {
    var p1 := (r: Row) => AreaOf(r, Primary) in q.area1;
    var p2 := (r: Row) => InAreas(r, Secondary, q.area2);
    var p3 := (r: Row) => InAreas(r, Tertiary, q.area3);
    var p4 := (r: Row) => FreeDuring(r, q.date, q.startTime, q.endTime);
    var p12 := (r: Row) => p1(r) && p2(r);
    var p123 := (r: Row) => p12(r) && p3(r);
    var s1 := Filter(roster, p1);
    var s2 := Filter(s1, p2);
    var s3 := Filter(s2, p3);
    NarrowIsFilter(s1, Secondary, q.area2);
    NarrowIsFilter(s2, Tertiary, q.area3);
    assert Candidates(roster, q) == Filter(s3, p4);
    FilterThen(roster, p1, p2, p12);
    FilterThen(roster, p12, p3, p123);
    FilterThen(roster, p123, p4, r => Eligible(q, r));
  }

  /** An optional stage is the filter by its optional condition. */
  lemma NarrowIsFilter(rows: seq<Row>, level: Level, values: Option<Areas>)
    ensures Narrow(rows, level, values) == Filter(rows, r => InAreas(r, level, values))
  {
    match values {
      case None =>
        FilterKeepsAll(rows, r => InAreas(r, level, values));
      case Some(vs) =>
        FilterExtensional(rows, r => AreaOf(r, level) in vs, r => InAreas(r, level, values));
    }
  }

  /** What a query returns: every candidate, one candidate, or nothing. */
  datatype Outcome = AllRows(rows: seq<Row>) | OneRow(row: Row) | NoOutput

  /** Drawing a random candidate from an empty selection fails. */
  datatype SelectionError = EmptyCandidatePool

  /**
   * The query of the original, stage by stage. In mode "all" the result is
   * the whole candidate selection; in mode "random" it is one candidate,
   * picked by a choice the model leaves open, and an error when there is
   * no candidate; any other mode returns nothing.
   */
  method SelectChair(roster: seq<Row>, q: Query) returns (out: Result<Outcome, SelectionError>)
    requires ValidQuery(q)
    ensures q.mode == "all" ==> out == Success(AllRows(Candidates(roster, q)))
    ensures q.mode == "random" ==> (out.Failure? <==> Candidates(roster, q) == [])
    ensures q.mode == "random" && out.Success? ==>
      out.value.OneRow? && out.value.row in Candidates(roster, q)
    ensures q.mode != "all" && q.mode != "random" ==> out == Success(NoOutput)
  {
    var selected := NarrowBy(roster, Primary, q.area1);
    var selectedNew := selected;
    if q.area2.Some? {
      selectedNew := NarrowBy(selected, Secondary, q.area2.value);
    }
    var selectedAll := selectedNew;
    if q.area3.Some? {
      selectedAll := NarrowBy(selectedNew, Tertiary, q.area3.value);
    }
    selectedAll := ExcludeSession(selectedAll, q.date, q.startTime, q.endTime);
    assert selectedAll == Candidates(roster, q);

    if q.mode == "all" {
      out := Success(AllRows(selectedAll));
    } else if q.mode == "random" {
      if |selectedAll| == 0 {
        out := Failure(EmptyCandidatePool);
      } else {
        var i :| 0 <= i < |selectedAll|;
        out := Success(OneRow(selectedAll[i]));
      }
    } else {
      out := Success(NoOutput);
    }
  }

  // ---------------------------------------------------------------------
  // Two rosters worked through
  // ---------------------------------------------------------------------

  /** Someone talking in exactly the session to be chaired is not offered. */
  lemma BookedSpeakerExcluded()
    ensures
      var p1 := Row("stars", "", "", "2020-01-01", "10:00", "11:00");
      var p2 := Row("stars", "", "", "2020-02-02", "09:00", "10:00");
      Candidates([p1, p2], Query(["stars"], None, None, "2020-01-01", "10:00", "11:00", "all")) == [p2]
  {
  }

  /** A talk on the same date at another time does not exclude its speaker. */
  lemma OtherSlotSameDateKept()
    ensures
      var p1 := Row("stars", "", "", "2020-01-01", "10:00", "11:00");
      var p2 := Row("stars", "", "", "2020-02-02", "09:00", "10:00");
      Candidates([p1, p2], Query(["stars"], None, None, "2020-01-01", "08:00", "09:00", "all")) == [p1, p2]
  {
    var p1 := Row("stars", "", "", "2020-01-01", "10:00", "11:00");
    var p2 := Row("stars", "", "", "2020-02-02", "09:00", "10:00");
    var q := Query(["stars"], None, None, "2020-01-01", "08:00", "09:00", "all");
    assert Eligible(q, p1) && Eligible(q, p2);
    CandidatesIsFilter([p1, p2], q);
    assert [p1, p2][1..] == [p2] && [p2][1..] == [];
    assert Filter([p2], r => Eligible(q, r)) == [p2];
    assert Filter([p1, p2], r => Eligible(q, r)) == [p1, p2];
  }
}

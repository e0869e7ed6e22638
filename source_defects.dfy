/**
 * Two expertise stages of the original as they are written, next to the
 * corrected stage `ChairSelection.NarrowBy`. Both read the data-frame `+`
 * as the union of selections, so that each shows one defect on its own.
 */
module SourceDefects {
  import opened Wrappers
  import opened Sequences
  import opened ChairSelection

  /**
   * The primary stage for a list of values as written: every further
   * value's rows are taken from the selection built so far instead of from
   * the roster. Those rows already have the first value as their primary
   * area, so the later values never add a row.
   */
  method NarrowPrimaryAsWritten(roster: seq<Row>, values: Areas) returns (kept: seq<Row>)
    requires |values| >= 2
    ensures kept == Matching(roster, Primary, values[0])
  {
    var selected := AreaMask(roster, Primary, values[0]);
    for i := 1 to |values|
      invariant selected == AreaMask(roster, Primary, values[0])
    {
      var added := Within(selected, AreaMask(roster, Primary, values[i]));
      selected := Union(selected, added);
    }
    kept := Select(roster, selected);
    SelectIsFilter(roster, selected, r => AreaOf(r, Primary) == values[0]);
  }

  /** A roster row whose primary area is the second requested value is lost as written. */
  lemma PrimaryAsWrittenDropsRow()
    ensures var r := Row("b", "x", "y", "2020-01-01", "10:00", "11:00");
      r !in Matching([r], Primary, "a") && r in MatchingAny([r], Primary, ["a", "b"])
  {
  }

  /** The error the tertiary loop raises when no secondary values were given. */
  datatype Fault = SecondaryNotSubscriptable

  /**
   * The tertiary stage for a list of values as written: after the first
   * tertiary value, the loop runs over the secondary values from the second
   * on, so the remaining tertiary values are never compared; without
   * secondary values the loop cannot start and the query fails.
   */
  method NarrowTertiaryAsWritten(rows: seq<Row>, area2: Option<Areas>, area3: Areas)
    returns (out: Result<seq<Row>, Fault>)
    requires |area3| >= 2
    ensures area2.None? ==> out == Failure(SecondaryNotSubscriptable)
    ensures area2.Some? ==> out == Success(MatchingAny(rows, Tertiary, [area3[0]] + Tail(area2.value)))
  {
    var selected := AreaMask(rows, Tertiary, area3[0]);
    if area2.None? {
      return Failure(SecondaryNotSubscriptable);
    }
    var rest := Tail(area2.value);
    for i := 0 to |rest|
      invariant |selected| == |rows|
      invariant forall k :: 0 <= k < |rows| ==>
        (selected[k] <==> AreaOf(rows[k], Tertiary) in [area3[0]] + rest[..i])
    {
      selected := Union(selected, AreaMask(rows, Tertiary, rest[i]));
      assert rest[..i + 1] == rest[..i] + [rest[i]];
    }
    assert rest[..|rest|] == rest;
    var kept := Select(rows, selected);
    SelectIsFilter(rows, selected, r => AreaOf(r, Tertiary) in [area3[0]] + rest);
    out := Success(kept);
  }

  /** A list without its first element; slicing an empty list gives the empty list. */
  function Tail(values: Areas): (rest: Areas)
    ensures |values| > 0 ==> values == [values[0]] + rest
    ensures |values| == 0 ==> rest == []
  {
    if |values| > 0 then values[1..] else []
  }

  /** A row whose tertiary area is the second requested value is lost as written. */
  lemma TertiaryAsWrittenDropsRow()
    ensures var r := Row("a", "x", "t2", "2020-01-01", "10:00", "11:00");
      r !in MatchingAny([r], Tertiary, ["t1"] + Tail(["x"])) &&
      r in MatchingAny([r], Tertiary, ["t1", "t2"])
  {
  }
}

/**
 * The part of the command line that shapes the query: the optional
 * secondary and tertiary areas default to the string "None", which stands
 * for "not given", and every given area is a single string.
 */
module CommandLine {
  import opened Wrappers
  import opened Sequences
  import opened ChairSelection

  /** The default value of `--area2` and `--area3`. */
  const AbsentArea := "None"

  /** An optional area as the tool reads it: the sentinel is absent, anything else is itself. */
  function OptionalArea(arg: string): (area: Option<string>)
    ensures area.None? <==> arg == AbsentArea
    ensures area.Some? ==> area.value == arg
  {
    if arg == AbsentArea then None else Some(arg)
  }

  /** How an optional area is written on the command line. */
  function AreaArgument(area: Option<string>): (arg: string)
    ensures area.None? ==> arg == AbsentArea
    ensures area.Some? ==> arg == area.value
  {
    match area
    case None => AbsentArea
    case Some(v) => v
  }

  /** Reading an argument and writing it back gives the argument. */
  lemma AreaArgumentRoundTrip(arg: string)
    ensures AreaArgument(OptionalArea(arg)) == arg
  {
  }

  /** Every area other than the sentinel itself survives writing and reading. */
  lemma OptionalAreaRoundTrip(area: Option<string>)
    ensures OptionalArea(AreaArgument(area)) == area <==> area != Some(AbsentArea)
  {
  }

  /** The parsed arguments, as strings. */
  datatype Arguments = Arguments(
    filename: string,
    area1: string,
    date: string,
    startTime: string,
    endTime: string,
    mode: string,
    area2: string,
    area3: string
  )

  function AreasOf(area: Option<string>): (values: Option<Areas>)
    ensures values.None? <==> area.None?
    ensures values.Some? ==> values.value == [area.value]
  {
    match area
    case None => None
    case Some(v) => Some([v])
  }

  /**
   * The query the tool runs for its arguments: one primary area, the
   * secondary and tertiary areas unless they are the sentinel, the
   * session and the mode as given.
   */
  function ToQuery(args: Arguments): (q: Query)
    ensures ValidQuery(q)
    ensures q.area1 == [args.area1]
    ensures q.area2.None? <==> args.area2 == AbsentArea
    ensures q.area2.Some? ==> q.area2.value == [args.area2]
    ensures q.area3.None? <==> args.area3 == AbsentArea
    ensures q.area3.Some? ==> q.area3.value == [args.area3]
    ensures q.date == args.date && q.startTime == args.startTime && q.endTime == args.endTime
    ensures q.mode == args.mode
  {
    Query([args.area1], AreasOf(OptionalArea(args.area2)), AreasOf(OptionalArea(args.area3)),
          args.date, args.startTime, args.endTime, args.mode)
  }

  /**
   * With both optional areas left at their default, the tool offers the
   * rows of the primary area that are free during the session, in roster
   * order.
   */
  lemma DefaultAreasUsePrimaryOnly(roster: seq<Row>, args: Arguments)
    requires args.area2 == AbsentArea && args.area3 == AbsentArea
    ensures Candidates(roster, ToQuery(args)) ==
      ExcludeSession(Matching(roster, Primary, args.area1), args.date, args.startTime, args.endTime)
  {
    MatchingAnySingle(roster, Primary, args.area1);
  }
}

# Conference session chair selection — a Dafny model

This project models the query at the heart of the AAS session-chair tool
(`aas_chair_selection.py`). The tool reads a roster of conference participants.
Each participant has a primary, a secondary and a tertiary area of expertise, and
the date, start and end of the session in which they give their own talk. The
tool proposes chairs for one session:

1. keep the participants whose primary area is one of the requested values;
2. if secondary areas are requested, narrow to those whose secondary area is one of
   them; then do the same for tertiary areas;
3. drop everyone whose own talk clashes with the session to be chaired: a talk on the
   same date that starts at the session's start or ends at its end;
4. return every remaining participant (mode `"all"`), or one of them (mode `"random"`).
   Any other mode returns nothing.

All comparisons are exact string equality.

Files:

- `wrappers.dfy`: `Option` and `Result`.
- `sequences.dfy`: order-preserving filtering (`Filter`) and selection by a boolean
  mask (`Select`, `Union`, `Within`). A mask is the boolean column a data-frame is
  indexed with. The module also defines the subsequence relation and the lemmas that
  join filters (composition, idempotence, disjoint union).
- `selection.dfy`: the roster `Row`, the `Query`, and the stages. Each stage is a pure
  function, and `Candidates` is the whole pipeline. `NarrowBy` is the loop that
  accumulates the per-value matches of one expertise column. `SelectChair` is the
  query as the tool runs it; its random pick is a nondeterministic choice.
- `command_line.dfy`: the `"None"` sentinel of the optional areas, and how the
  command-line arguments become a query.
- `source_defects.dfy`: two expertise stages exactly as the code is written, with the
  inputs on which they differ from the corrected stages (see "Findings").

How the model reads the code:

- A table is a `seq<Row>`. A selection from it is a subsequence, in table order.
- The code joins two selections with the data-frame `+` or `+=` (lines 87, 96, 107
  and 118). That operator adds cell values. The model reads it as the union of the
  two selections: the rows of either, each once, in table order. For selections from
  the same table, this is the disjunction of their masks.
- Lines 73-79 read the columns from a name `f` that is defined nowhere. The model
  reads them from the roster that is passed in.
- On line 87, each further primary value's rows are taken from the selection built so
  far, not from the roster. The corrected stage takes them from the roster.
- On line 106, the tertiary loop runs over `area2[1:]`, not `area3[1:]`. The
  corrected stage uses the tertiary values.
- The docstring (lines 50-63) excludes candidates "who give a talk in that session"
  without saying how a talk's times are compared with the session's. One reading
  excludes an on-date talk only when both its start and its end match. The code
  (lines 114-116) keeps an on-date row only when both differ, so a match of either one
  excludes it. The model follows the code.

## Model

| member | source | states |
|---|---|---|
| `ChairSelection.AreaMask` | aas_chair_selection.py:82-83 | the boolean column `area_data == value`: one entry per row, true exactly where the row's area at that level equals the value |
| `Sequences.Select` | aas_chair_selection.py:83 | indexing a table with a boolean mask: a subsequence of the table, and a row is in it iff some position holding it has a true mask entry |
| `Sequences.Union` | aas_chair_selection.py:86-87 | the model's reading of the data-frame `+`/`+=` (lines 87, 96, 107, 118) for two selections from one table: a row position is selected iff either mask selects it |
| `Sequences.SelectUnion` | aas_chair_selection.py:86-87 | selecting by the union of two masks gives exactly the rows of either selection |
| `Sequences.Within` | aas_chair_selection.py:87 | re-selecting from an existing selection (`df_selected[...]`): a row position is selected iff both masks select it |
| `Sequences.SelectWithin` | aas_chair_selection.py:87 | a selection taken within another selection holds only rows of that selection |
| `ChairSelection.Matching` | aas_chair_selection.py:82-83 | the rows whose area at one level equals the single requested value: a subsequence of the input holding exactly those rows, each as often as in the input |
| `ChairSelection.MatchingAny` | aas_chair_selection.py:84-87 | with a list of values, a row survives iff its area equals one of them; the result keeps table order, and each surviving row appears as often as in the input, never summed |
| `ChairSelection.MatchingAnySingle` | aas_chair_selection.py:82-87 | a one-element list selects exactly what the single-value comparison selects |
| `ChairSelection.MatchingAnyIsUnion` | aas_chair_selection.py:86-87 | adding a value to the list adds exactly that value's rows; the occurrence count is the maximum of the two selections, i.e. a union and not a sum |
| `ChairSelection.MatchingAnyMembership` | aas_chair_selection.py:84-87 | a row survives the list iff it survives one of its values on its own |
| `ChairSelection.NarrowBy` | aas_chair_selection.py:82-87 | the single-value branch and the accumulating loop over the remaining values together compute exactly `MatchingAny` of the stage input |
| `ChairSelection.Narrow` | aas_chair_selection.py:89-109 | an optional stage with no values passes its input through unchanged; with values it narrows to the matching rows, each as often as in the input; either way its output is a subsequence of its input |
| `ChairSelection.NarrowIsFilter` | aas_chair_selection.py:89-109 | an optional stage is one filter by its optional condition |
| `ChairSelection.FreeDuring` | aas_chair_selection.py:113-116 | a row is kept iff it is off the excluded date or on it with start and end both different (the disjunction of the two masks); an on-date row whose start or end matches is not kept |
| `ChairSelection.OffDate` | aas_chair_selection.py:113 | exactly the rows whose talk is on another date, in order, each as often as in the input |
| `ChairSelection.OnDateFree` | aas_chair_selection.py:114-116 | exactly the rows on the excluded date whose start and end both differ from the session's, in order, each as often as in the input |
| `ChairSelection.ExcludeSession` | aas_chair_selection.py:113-118 | a row on another date is never excluded; a row on the date is kept iff its start and end both differ; nothing is added, and each kept row appears as often as in the input |
| `ChairSelection.ExclusionSplits` | aas_chair_selection.py:113-118 | the off-date and on-date parts share no row, and together they are the result with no row lost or doubled |
| `ChairSelection.ExclusionIdempotent` | aas_chair_selection.py:113-118 | excluding the same session twice equals excluding it once |
| `ChairSelection.Candidates` | aas_chair_selection.py:82-118 | the result of the four stages is a subsequence of the roster; a roster row is in it iff it matches every requested area and is free during the session |
| `ChairSelection.CandidatesIsFilter` | aas_chair_selection.py:82-118 | the staged query equals one filter of the roster by eligibility, so order and multiplicity are those of the roster |
| `ChairSelection.SelectChair` | aas_chair_selection.py:8-124 | mode "all" returns exactly the candidates, a function of the inputs; mode "random" returns one candidate, and fails iff there is none; any other mode returns nothing |
| `ChairSelection.BookedSpeakerExcluded` | aas_chair_selection.py:113-121 | a participant speaking in exactly the session to be chaired is not offered; another at a different date is |
| `ChairSelection.OtherSlotSameDateKept` | aas_chair_selection.py:113-121 | a talk on the same date in another slot does not exclude its speaker |
| `CommandLine.OptionalArea` | aas_chair_selection.py:196-200 | the string "None" maps to absent, and every other string maps to itself |
| `CommandLine.AreaArgument` | aas_chair_selection.py:187-191 | an absent optional area is written as the default "None"; a given area is written as itself |
| `CommandLine.AreaArgumentRoundTrip` | aas_chair_selection.py:187-200 | writing back a read optional area gives the original argument |
| `CommandLine.OptionalAreaRoundTrip` | aas_chair_selection.py:187-200 | reading back a written optional area gives it back iff it is not the sentinel itself |
| `CommandLine.ToQuery` | aas_chair_selection.py:142-145 | the query has one primary area; secondary and tertiary areas are absent exactly when given as "None"; session and mode are passed as given; the query is well formed |
| `CommandLine.DefaultAreasUsePrimaryOnly` | aas_chair_selection.py:187-191 | with both optional areas left at their default, the tool offers the free rows of the primary area, in roster order |
| `SourceDefects.NarrowPrimaryAsWritten` | aas_chair_selection.py:84-87 | as written, a list of primary values selects only the rows of its first value |
| `SourceDefects.PrimaryAsWrittenDropsRow` | aas_chair_selection.py:86-87 | a row matching the second primary value is lost as written and kept by the corrected stage |
| `SourceDefects.NarrowTertiaryAsWritten` | aas_chair_selection.py:104-107 | as written, a list of tertiary values compares the first tertiary value and the secondary values after the first; with no secondary values it fails |
| `SourceDefects.Tail` | aas_chair_selection.py:106 | the slice `area2[1:]` of a list: the list without its first element, and empty for an empty list |
| `SourceDefects.TertiaryAsWrittenDropsRow` | aas_chair_selection.py:106-107 | a row matching the second tertiary value is lost as written and kept by the corrected stage |

## Left out

- `read_data` (aas_chair_selection.py:128-131): reading the CSV file is I/O. Shifting the row labels by 2 only affects display. The roster is a parameter.
- `main`, `parser` and printing (aas_chair_selection.py:133-194, 205-207): argument parsing and output are I/O. Only the sentinel mapping and the shape of the query are modelled, in `CommandLine`.
- `CommandLine.ToQuery`: the code reassigns the fields of the parsed-arguments object in place (lines 196-200). The model computes the query as a new value instead.
- `ChairSelection.SelectChair`: the pick in mode "random" is uniformly random over the candidates' row labels (lines 123-124). The model states only that the pick is one of the candidates, not its distribution.
- Data-frame details: the candidates' row labels, missing (NaN) cells and display format are not modelled. Rows are plain string records, and the result is the sequence of selected rows.
- Column alignment: on lines 87, 91, 94, 96, 102, 105, 107 and 113-116, the code selects from an already-narrowed frame with a column of the full roster, which pandas aligns by row label. The model compares each row of the narrowed selection directly.
- The type test `np.size(...) == 1`: the model represents a single value as a one-element list, and `MatchingAnySingle` shows the two branches agree. An empty list raises an index error in the code, so `ValidQuery` requires every given list to be non-empty.
- `SourceDefects.NarrowTertiaryAsWritten`: the secondary values are always a list. If the secondary value is a plain string, the code's `area2[1:]` iterates its characters, and that case is not modelled.
- The literal behaviour of `f` on lines 73-79 is not modelled: as written, every call raises a name error.
- The literal behaviour of the data-frame `+` is not modelled. Adding two selections aligns them by row label. A row present in only one of them gets missing cells, and a row in both gets concatenated strings.

## Findings

| source | as written | input that shows it | evidently intended | confidence | as-written member | corrected member |
|---|---|---|---|---|---|---|
| aas_chair_selection.py:87 | each further primary value's rows are taken from `df_selected`, whose rows all carry the first value, so no row is ever added | roster `[Row("b", …)]`, primary values `["a", "b"]`: the row is not selected | rows of the roster whose primary area is any listed value | high; not executed | `SourceDefects.NarrowPrimaryAsWritten`, `SourceDefects.PrimaryAsWrittenDropsRow` | `ChairSelection.NarrowBy` |
| aas_chair_selection.py:106 | the tertiary loop iterates over `area2[1:]`, so tertiary values after the first are never compared | roster `[Row("a", "x", "t2", …)]`, secondary `["x"]`, tertiary `["t1", "t2"]`: the row is not selected | rows whose tertiary area is any listed tertiary value | high; not executed | `SourceDefects.NarrowTertiaryAsWritten`, `SourceDefects.TertiaryAsWrittenDropsRow` | `ChairSelection.NarrowBy` |

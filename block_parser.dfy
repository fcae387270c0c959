/** The block parser of `upload_file`: one pass over the sheet's rows that
    splits them into activity blocks at marker rows, collects one entry per
    data row, flushes blocks at the next marker, at a 'Total' row and at the
    end of the sheet, then concatenates the blocks and drops incomplete rows.

    `Parse` states what the pass computes, as functions of the rows read so
    far; `ParseRows` is the loop itself, proved to compute `Parse`. */
module BlockParser {
  import opened Results
  import opened Text
  import opened Durations
  import opened Records

  // ---------------------------------------------------------------------
  // Rows

  /** Column 0 of a row: a null cell, a text cell, or a cell of another type
      (number, date) with `text` its `str()` rendering. */
  datatype FirstCell = Empty | Text(text: string) | Other(text: string)

  /** A column read with `row[k]`: Missing when the sheet has no such column
      (the KeyError the loop catches). */
  datatype Column<T> = Missing | Present(cell: T)

  /** A duration cell as `pd.to_timedelta` decodes it: null (NaT), an elapsed
      number of seconds, or text it cannot parse (it raises). */
  datatype DurationCell = Blank | Elapsed(seconds: int) | Malformed

  /** The three cells of a row the parser looks at: index 0, 2 and 6. */
  datatype Row = Row(first: FirstCell, start: Column<Option<Date>>, duration: Column<DurationCell>)

  /** Why a parse ends without a table. */
  datatype ParseError =
    | NoBlocks           // `pd.concat([])`: no block was ever flushed
    | MalformedDuration  // `pd.to_timedelta` raised on a data row
    | NonTextMarker      // a non-text cell 0 matched the pattern; `.split()` raised

  /** Column 0 is not null and its text holds an activity code. */
  predicate IsMarker(r: Row)
    ensures IsMarker(r) <==> !r.first.Empty? && exists i :: CodeAt(r.first.text, i)
  {
    !r.first.Empty? && HasActivityCode(r.first.text)
  }

  /** The registry key of a marker row: the first token of its text. */
  function Key(r: Row): string
    requires !r.first.Empty?
  {
    FirstToken(r.first.text)
  }

  const HEADER := "Started By"
  const TOTAL := "Total"

  /** What the loop does with a row, rules tried in the source's order. */
  datatype RowKind = Skipped | Marker | Header | TotalRow | Data

  function Classify(r: Row, collecting: bool): (k: RowKind)
    ensures k == Marker <==> IsMarker(r)
    ensures k == Skipped <==> r.first.Empty? || (!collecting && !IsMarker(r))
    ensures k == Header ==> collecting && r.first == Text(HEADER)
    ensures k == TotalRow ==> collecting && Contains(r.first.text, TOTAL)
    ensures k == Data ==> collecting && !r.first.Empty? && r.first != Text(HEADER)
                          && !Contains(r.first.text, TOTAL)
  {
    if r.first.Empty? then Skipped
    else if HasActivityCode(r.first.text) then Marker
    else if collecting && r.first == Text(HEADER) then Header
    else if collecting && Contains(r.first.text, TOTAL) then TotalRow
    else if collecting then Data
    else Skipped
  }

  // ---------------------------------------------------------------------
  // The state after a prefix of the rows

  ghost function Init(rows: seq<Row>): seq<Row>
    requires rows != []
  {
    rows[..|rows| - 1]
  }

  ghost function Last(rows: seq<Row>): Row
    requires rows != []
  {
    rows[|rows| - 1]
  }

  /** `is_collecting`: some marker row has been read. */
  ghost predicate Collecting(rows: seq<Row>)
  {
    rows != [] && (Collecting(Init(rows)) || IsMarker(Last(rows)))
  }

  /** `activity_dict`: each marker key mapped to the label it resolved to. */
  ghost function Registry(rows: seq<Row>): map<string, string>
  {
    if rows == [] then map[]
    else
      var reg := Registry(Init(rows));
      var r := Last(rows);
      if IsMarker(r) then
        var resolved := if Key(r) in reg then reg[Key(r)] else r.first.text;
        reg[Key(r) := resolved]
      else reg
  }

  /** `current_activity`: the label the latest marker resolved to ("" before
      the first marker, where the source holds None and never reads it). */
  ghost function Activity(rows: seq<Row>): string
  {
    if rows == [] then ""
    else if IsMarker(Last(rows)) then
      var reg := Registry(rows);
      assert Key(Last(rows)) in reg;
      reg[Key(Last(rows))]
    else Activity(Init(rows))
  }

  /** The entry row r contributes after `prefix`: a data row whose columns 2
      and 6 both exist and whose duration decodes. */
  ghost function RowEntry(prefix: seq<Row>, r: Row): seq<Entry>
  {
    if Classify(r, Collecting(prefix)) == Data && r.start.Present? && r.duration.Present? then
      match r.duration.cell
      case Blank => [Entry(Activity(prefix), r.start.cell, None, None)]
      case Elapsed(s) => [Entry(Activity(prefix), r.start.cell, Some(s), Some(Hundredths(s)))]
      case Malformed => []
    else []
  }

  /** All entries the data rows produce, in file order. */
  ghost function Entries(rows: seq<Row>): seq<Entry>
  {
    if rows == [] then [] else Entries(Init(rows)) + RowEntry(Init(rows), Last(rows))
  }

  /** Some 'Total' row was read while collecting. */
  ghost predicate HasTotal(rows: seq<Row>)
  {
    rows != [] && (HasTotal(Init(rows)) || Classify(Last(rows), Collecting(Init(rows))) == TotalRow)
  }

  /** The exception row r raises after `prefix`, if any. */
  ghost function RowFault(prefix: seq<Row>, r: Row): Option<ParseError>
  {
    match Classify(r, Collecting(prefix))
    case Marker => if r.first.Other? then Some(NonTextMarker) else None
    case Data =>
      if r.start.Present? && r.duration.Present? && r.duration.cell.Malformed?
      then Some(MalformedDuration) else None
    case _ => None
  }

  /** The first exception the rows raise, if any. */
  ghost function Fault(rows: seq<Row>): Option<ParseError>
  {
    if rows == [] then None
    else if Fault(Init(rows)).Some? then Fault(Init(rows))
    else RowFault(Init(rows), Last(rows))
  }

  /** The outcome of the whole parse: the first exception, else `NoBlocks`
      when no block was ever flushed, else the complete entries in order. */
  ghost function Parse(rows: seq<Row>): Result<seq<Record>, ParseError>
  {
    if Fault(rows).Some? then Err(Fault(rows).value)
    else if !HasTotal(rows) && Entries(rows) == [] then Err(NoBlocks)
    else Ok(DropMissing(Entries(rows)))
  }

  /** How each part of the state after p + [r] follows from the state after p. */
  lemma Step(p: seq<Row>, r: Row)
    ensures Collecting(p + [r]) == (Collecting(p) || IsMarker(r))
    ensures Registry(p + [r]) == if IsMarker(r) then
                                   Registry(p)[Key(r) := if Key(r) in Registry(p) then Registry(p)[Key(r)]
                                                         else r.first.text]
                                 else Registry(p)
    ensures Activity(p + [r]) == if IsMarker(r) then Registry(p + [r])[Key(r)] else Activity(p)
    ensures Entries(p + [r]) == Entries(p) + RowEntry(p, r)
    ensures HasTotal(p + [r]) == (HasTotal(p) || Classify(r, Collecting(p)) == TotalRow)
    ensures Fault(p + [r]) == if Fault(p).Some? then Fault(p) else RowFault(p, r)
  {
    PushInit(p, r);
  }

  /** The first exception ends the parse: nothing after it is read. */
  lemma {:induction false} FaultPersists(p: seq<Row>, q: seq<Row>)
    requires Fault(p).Some?
    ensures Fault(p + q) == Fault(p)
    decreases |q|
  {
    if q == [] {
      AppendEmpty(p);
    } else {
      AppendInit(p, q);
      FaultPersists(p, Init(q));
    }
  }

  /** A row that raises decides the outcome of the whole parse. */
  lemma FaultAt(rows: seq<Row>, i: nat)
    requires i < |rows| && Fault(rows[..i]) == None && RowFault(rows[..i], rows[i]).Some?
    ensures Fault(rows) == RowFault(rows[..i], rows[i])
  {
    Step(rows[..i], rows[i]);
    SplitAt(rows, i);
    FaultPersists(rows[..i] + [rows[i]], rows[i + 1..]);
  }

  // Shapes of sequences, stated generically so that the solver reasons about
  // them without unfolding the row datatype.

  lemma SplitAt<T>(s: seq<T>, i: nat)
    requires i < |s|
    ensures s[..i + 1] == s[..i] + [s[i]]
    ensures s == s[..i] + [s[i]] + s[i + 1..]
  {
  }

  lemma AppendEmpty<T>(p: seq<T>)
    ensures p + [] == p
  {
  }

  lemma AppendInit<T>(p: seq<T>, q: seq<T>)
    requires q != []
    ensures (p + q)[..|p + q| - 1] == p + q[..|q| - 1]
    ensures (p + q)[|p + q| - 1] == q[|q| - 1]
  {
  }

  lemma InitIndex<T>(s: seq<T>)
    requires s != []
    ensures forall i :: 0 <= i < |s| - 1 ==> s[..|s| - 1][i] == s[i]
  {
  }

  lemma InitPrefix<T>(s: seq<T>, n: nat)
    requires n < |s|
    ensures s[..|s| - 1][..n] == s[..n]
  {
  }

  lemma SplitLast<T>(a: seq<T>, s: seq<T>)
    requires s != []
    ensures a + s == (a + s[..|s| - 1]) + [s[|s| - 1]]
  {
  }

  lemma PrefixAll<T>(s: seq<T>)
    ensures s[..|s|] == s
  {
  }

  lemma PushInit<T>(p: seq<T>, r: T)
    ensures (p + [r])[..|p|] == p && (p + [r])[|p|] == r
  {
  }

  // ---------------------------------------------------------------------
  // The loop

  /** The block-parsing loop and the concatenation and `dropna` after it. */
  method ParseRows(rows: seq<Row>) returns (res: Result<seq<Record>, ParseError>)
    ensures res == Parse(rows)
  {
    var allResults: seq<seq<Entry>> := [];
    var currentActivity := "";
    var isCollecting := false;
    var blockData: seq<Entry> := [];
    var activityDict: map<string, string> := map[];
    var i := 0;
    while i < |rows|
      invariant 0 <= i <= |rows|
      invariant Fault(rows[..i]) == None
      invariant isCollecting == Collecting(rows[..i])
      invariant !isCollecting ==> blockData == []
      invariant activityDict == Registry(rows[..i])
      invariant currentActivity == Activity(rows[..i])
      invariant Flatten(allResults) + blockData == Entries(rows[..i])
      invariant HasTotal(rows[..i]) ==> allResults != []
      invariant allResults != [] ==> HasTotal(rows[..i]) || |Flatten(allResults)| > 0
    {
      var row := rows[i];
      SplitAt(rows, i);
      Step(rows[..i], row);
      match Classify(row, isCollecting) {
      case Skipped =>
      case Marker =>
        if row.first.Other? {
          FaultAt(rows, i);
          return Err(NonTextMarker);
        }
        var activityKey := FirstToken(row.first.text);
        currentActivity := if activityKey in activityDict then activityDict[activityKey] else row.first.text;
        activityDict := activityDict[activityKey := currentActivity];
        if isCollecting && blockData != [] {
          FlattenPush(allResults, blockData);
          allResults := allResults + [blockData];
        }
        blockData := [];
        isCollecting := true;
      case Header =>
      case TotalRow =>
        FlattenPush(allResults, blockData);
        allResults := allResults + [blockData];
        blockData := [];
      case Data =>
        if row.start.Present? && row.duration.Present? {
          match row.duration.cell
          case Malformed =>
            FaultAt(rows, i);
            return Err(MalformedDuration);
          case Blank =>
            blockData := blockData + [Entry(currentActivity, row.start.cell, None, None)];
          case Elapsed(s) =>
            var decimal := Hundredths(s);
            blockData := blockData + [Entry(currentActivity, row.start.cell, Some(s), Some(decimal))];
        }
      }
      i := i + 1;
    }
    PrefixAll(rows);
    if blockData != [] {
      FlattenPush(allResults, blockData);
      allResults := allResults + [blockData];
    }
    assert Flatten(allResults) == Entries(rows);
    if allResults == [] {
      assert !HasTotal(rows) && Entries(rows) == [];
      return Err(NoBlocks);
    }
    assert HasTotal(rows) || Entries(rows) != [];
    res := Ok(DropMissing(Flatten(allResults)));
  }
}

/** The `/filter` handler's core: choose the table rows whose start date lies
    in an inclusive range, and refuse to export an empty selection. */
module DateFilter {
  import opened Results
  import opened Records

  /** A range end as the form delivers it: an empty or absent field, text the
      date parser rejects, or a parsed date. */
  datatype Boundary = Blank | Unparsable | Parsed(at: Date)

  datatype FilterError =
    | MissingField       // some form field was empty: "Por favor, preencha todos os campos."
    | InvalidDate        // `pd.to_datetime` raised on a boundary
    | EmptyFilterResult  // no row lies in the range

  predicate InRange(r: Record, lo: Date, hi: Date)
  {
    lo <= r.start <= hi
  }

  /** The boolean-mask selection `df[(df.start >= lo) & (df.start <= hi)]`:
      the rows in range, in table order. */
  function Select(table: seq<Record>, lo: Date, hi: Date): (rs: seq<Record>)
    ensures |rs| <= |table|
    ensures forall r :: r in rs <==> r in table && InRange(r, lo, hi)
  {
    if table == [] then []
    else
      var rest := Select(table[1..], lo, hi);
      assert forall r :: r in table <==> r == table[0] || r in table[1..];
      if InRange(table[0], lo, hi) then [table[0]] + rest else rest
  }

  /** Selection keeps the relative order of rows: it distributes over
      concatenation, so the result is the in-range rows of each part in turn. */
  lemma {:induction false} SelectAppend(a: seq<Record>, b: seq<Record>, lo: Date, hi: Date)
    ensures Select(a + b, lo, hi) == Select(a, lo, hi) + Select(b, lo, hi)
  {
    if a == [] {
      assert a + b == b;
    } else {
      assert (a + b)[1..] == a[1..] + b;
      SelectAppend(a[1..], b, lo, hi);
    }
  }

  /** A single row is kept exactly when it is in range. */
  lemma SelectSingle(r: Record, lo: Date, hi: Date)
    ensures Select([r], lo, hi) == if InRange(r, lo, hi) then [r] else []
  {
    assert [r][1..] == [];
  }

  /** A table with no row in range selects nothing. */
  lemma {:induction false} SelectNone(table: seq<Record>, lo: Date, hi: Date)
    requires forall r :: r in table ==> !InRange(r, lo, hi)
    ensures Select(table, lo, hi) == []
  {
    if table != [] {
      assert table[0] in table;
      SelectNone(table[1..], lo, hi);
    }
  }

  /** `filter_data` from the form fields to the rows it exports: a blank
      field is refused first, then an unparsable boundary, then an empty
      selection. */
  function FilterByDateRange(table: seq<Record>, start: Boundary, end: Boundary): (res: Result<seq<Record>, FilterError>)
    ensures start.Blank? || end.Blank? <==> res == Err(MissingField)
    ensures res.Ok? <==> start.Parsed? && end.Parsed? && Select(table, start.at, end.at) != []
    ensures res.Ok? ==> res.value != [] && res.value == Select(table, start.at, end.at)
    ensures res == Err(InvalidDate) <==>
              !start.Blank? && !end.Blank? && (start.Unparsable? || end.Unparsable?)
    ensures res == Err(EmptyFilterResult) <==>
              start.Parsed? && end.Parsed? && Select(table, start.at, end.at) == []
  {
    if start.Blank? || end.Blank? then Err(MissingField)
    else if start.Unparsable? || end.Unparsable? then Err(InvalidDate)
    else
      var rows := Select(table, start.at, end.at);
      if rows == [] then Err(EmptyFilterResult) else Ok(rows)
  }

  /** A range whose start is after its end selects nothing, so it is reported
      as empty, whatever the table. */
  lemma ReversedRangeIsEmpty(table: seq<Record>, lo: Date, hi: Date)
    requires hi < lo
    ensures FilterByDateRange(table, Parsed(lo), Parsed(hi)) == Err(EmptyFilterResult)
  {
    SelectNone(table, lo, hi);
  }

  /** A table row in the range, ends included, makes the filter succeed and
      is exported, and every exported row is in the range. */
  lemma InRangeRowIsExported(table: seq<Record>, lo: Date, hi: Date, r: Record)
    requires r in table && InRange(r, lo, hi)
    ensures FilterByDateRange(table, Parsed(lo), Parsed(hi)) == Ok(Select(table, lo, hi))
    ensures r in FilterByDateRange(table, Parsed(lo), Parsed(hi)).value
    ensures forall x :: x in FilterByDateRange(table, Parsed(lo), Parsed(hi)).value ==> InRange(x, lo, hi)
  {
    assert r in Select(table, lo, hi);
  }

  /** One row dated 5 January 2024: the range 1..10 January keeps it, and a
      range starting 1 February is reported empty. The instants are written
      as yyyymmdd integers, which order them as the dates. */
  lemma FilterExample()
    ensures FilterByDateRange([Record("EC-1 Foo", 20240105, 14400, 400)], Parsed(20240101), Parsed(20240110))
         == Ok([Record("EC-1 Foo", 20240105, 14400, 400)])
    ensures FilterByDateRange([Record("EC-1 Foo", 20240105, 14400, 400)], Parsed(20240201), Parsed(20240210))
         == Err(EmptyFilterResult)
  {
    var t := [Record("EC-1 Foo", 20240105, 14400, 400)];
    SelectSingle(t[0], 20240101, 20240110);
    SelectSingle(t[0], 20240201, 20240210);
  }
}

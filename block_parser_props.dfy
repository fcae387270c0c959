/** Properties of the block parser: the registry is first-seen-wins, every
    entry carries the label of the latest marker as first registered, rows
    that are not data rows add nothing, and entries accumulate in file order. */
module BlockParserProps {
  import opened Results
  import opened Text
  import opened Durations
  import opened Records
  import opened BlockParser

  // ---------------------------------------------------------------------
  // Index views of the latest marker and of the first marker with a key

  /** Index of the latest marker row, or -1 when there is none. */
  ghost function LatestMarker(rows: seq<Row>): (j: int)
    ensures -1 <= j < |rows|
    ensures j >= 0 ==> IsMarker(rows[j])
    ensures forall i :: j < i < |rows| ==> !IsMarker(rows[i])
  {
    if rows == [] then -1
    else if IsMarker(Last(rows)) then |rows| - 1
    else
      InitIndex(rows);
      LatestMarker(Init(rows))
  }

  /** Index of the first marker row whose key is k, or -1 when there is none. */
  ghost function FirstWithKey(rows: seq<Row>, k: string): (f: int)
    ensures -1 <= f < |rows|
    ensures f >= 0 ==> IsMarker(rows[f]) && Key(rows[f]) == k
    ensures forall i :: 0 <= i < |rows| && (f < 0 || i < f) && IsMarker(rows[i]) ==> Key(rows[i]) != k
  {
    if rows == [] then -1
    else
      InitIndex(rows);
      var f := FirstWithKey(Init(rows), k);
      if f >= 0 then f
      else if IsMarker(Last(rows)) && Key(Last(rows)) == k then |rows| - 1
      else -1
  }

  /** The loop is collecting exactly when some marker row has been read. */
  lemma {:induction false} CollectingIff(rows: seq<Row>)
    ensures Collecting(rows) <==> LatestMarker(rows) >= 0
  {
    if rows != [] && !IsMarker(Last(rows)) {
      CollectingIff(Init(rows));
    }
  }

  /** A 'Total' row has been seen exactly when some row was classified as
      one, given the collecting flag of the rows before it. */
  lemma {:induction false} HasTotalIff(rows: seq<Row>)
    ensures HasTotal(rows) <==>
              exists i :: 0 <= i < |rows| && Classify(rows[i], Collecting(rows[..i])) == TotalRow
  {
    if rows != [] {
      var p := Init(rows);
      HasTotalIff(p);
      InitIndex(rows);
      forall i | 0 <= i < |p| ensures p[..i] == rows[..i] { InitPrefix(rows, i); }
      assert rows[..|p|] == p;
    }
  }

  // ---------------------------------------------------------------------
  // The activity registry

  /** Once a key is registered, later rows never change its label. */
  lemma {:induction false} RegistryKeeps(p: seq<Row>, q: seq<Row>, k: string)
    requires k in Registry(p)
    ensures k in Registry(p + q) && Registry(p + q)[k] == Registry(p)[k]
    decreases |q|
  {
    if q == [] {
      AppendEmpty(p);
    } else {
      SplitLast(p, q);
      RegistryKeeps(p, Init(q), k);
      Step(p + Init(q), Last(q));
    }
  }

  /** A key no marker row carries is not registered. */
  lemma {:induction false} RegistryAbsent(rows: seq<Row>, k: string)
    requires forall i :: 0 <= i < |rows| && IsMarker(rows[i]) ==> Key(rows[i]) != k
    ensures k !in Registry(rows)
  {
    if rows != [] {
      InitIndex(rows);
      RegistryAbsent(Init(rows), k);
    }
  }

  /** First-seen-wins: the label of a key is the full text of the first marker
      row that carries it. */
  lemma RegistryFirstSeen(rows: seq<Row>, j: nat)
    requires j < |rows| && IsMarker(rows[j])
    requires forall i :: 0 <= i < j && IsMarker(rows[i]) ==> Key(rows[i]) != Key(rows[j])
    ensures Key(rows[j]) in Registry(rows)
    ensures Registry(rows)[Key(rows[j])] == rows[j].first.text
  {
    var k := Key(rows[j]);
    RegistryAbsent(rows[..j], k);
    SplitAt(rows, j);
    Step(rows[..j], rows[j]);
    RegistryKeeps(rows[..j + 1], rows[j + 1..], k);
  }

  /** Two markers with the same key resolve to the same label, that of the
      first, whatever text the second one carries. */
  lemma SameKeySameActivity(p: seq<Row>, m1: Row, q: seq<Row>, m2: Row)
    requires IsMarker(m1) && IsMarker(m2) && Key(m1) == Key(m2)
    ensures Activity(p + [m1] + q + [m2]) == Activity(p + [m1])
  {
    Step(p, m1);
    RegistryKeeps(p + [m1], q, Key(m1));
    Step(p + [m1] + q, m2);
  }

  /** `current_activity` is the text of the first marker row that has the key
      of the latest marker row. */
  lemma {:induction false} ActivityOfLatestMarker(rows: seq<Row>)
    ensures var j := LatestMarker(rows);
            j >= 0 ==>
              var f := FirstWithKey(rows, Key(rows[j]));
              0 <= f <= j && Activity(rows) == rows[f].first.text
  {
    var j := LatestMarker(rows);
    if j >= 0 {
      var k := Key(rows[j]);
      var f := FirstWithKey(rows, k);
      if IsMarker(Last(rows)) {
        RegistryFirstSeen(rows, f);
      } else {
        InitIndex(rows);
        ActivityOfLatestMarker(Init(rows));
        assert FirstWithKey(Init(rows), k) >= 0;
      }
    }
  }

  /** Every entry's Activity is the label of the latest marker row before its
      data row, as first registered for that marker's key. */
  lemma EntryActivity(rows: seq<Row>, i: nat)
    requires i < |rows| && RowEntry(rows[..i], rows[i]) != []
    ensures var p := rows[..i];
            var j := LatestMarker(p);
            && 0 <= j
            && var f := FirstWithKey(p, Key(p[j]));
               0 <= f <= j && RowEntry(p, rows[i])[0].activity == p[f].first.text
  {
    CollectingIff(rows[..i]);
    ActivityOfLatestMarker(rows[..i]);
  }

  // ---------------------------------------------------------------------
  // Rows that add nothing

  /** A row that is not a marker and contributes no entry leaves the state
      seen by every later row as it was. */
  lemma {:induction false} Invisible(p: seq<Row>, r: Row, s: seq<Row>)
    requires !IsMarker(r) && RowEntry(p, r) == []
    ensures Collecting(p + [r] + s) == Collecting(p + s)
    ensures Registry(p + [r] + s) == Registry(p + s)
    ensures Activity(p + [r] + s) == Activity(p + s)
    ensures Entries(p + [r] + s) == Entries(p + s)
    ensures RowFault(p, r) == None ==> Fault(p + [r] + s) == Fault(p + s)
    ensures Classify(r, Collecting(p)) != TotalRow ==> HasTotal(p + [r] + s) == HasTotal(p + s)
    decreases |s|
  {
    Step(p, r);
    if s == [] {
      AppendEmpty(p + [r]);
      AppendEmpty(p);
    } else {
      Invisible(p, r, Init(s));
      SplitLast(p + [r], s);
      SplitLast(p, s);
      Step(p + [r] + Init(s), Last(s));
      Step(p + Init(s), Last(s));
    }
  }

  /** A row with a null cell 0, a non-marker row before the first marker, a
      'Started By' row, and a data row lacking column 2 or 6 change nothing in
      the outcome of the parse. */
  lemma IgnoredRow(p: seq<Row>, r: Row, s: seq<Row>)
    requires || r.first.Empty?
             || (!IsMarker(r) && !Collecting(p))
             || (!IsMarker(r) && r.first == Text(HEADER))
             || (Classify(r, Collecting(p)) == Data && (r.start.Missing? || r.duration.Missing?))
    ensures Parse(p + [r] + s) == Parse(p + s)
  {
    var kind := Classify(r, Collecting(p));
    assert kind == Skipped || kind == Header || kind == Data;
    assert RowEntry(p, r) == [] && RowFault(p, r) == None;
    Invisible(p, r, s);
  }

  /** A 'Total' row adds no entry; it only flushes the pending block. */
  lemma TotalRowAddsNothing(p: seq<Row>, r: Row, s: seq<Row>)
    requires !r.first.Empty? && !IsMarker(r) && Contains(r.first.text, TOTAL)
    ensures Entries(p + [r] + s) == Entries(p + s)
  {
    Invisible(p, r, s);
  }

  // ---------------------------------------------------------------------
  // Order

  /** Entries only accumulate: those of a prefix of the rows start the entries
      of all the rows. */
  lemma {:induction false} EntriesGrow(rows: seq<Row>, n: nat)
    requires n <= |rows|
    ensures Entries(rows[..n]) <= Entries(rows)
    decreases |rows|
  {
    if n == |rows| {
      PrefixAll(rows);
    } else {
      InitPrefix(rows, n);
      EntriesGrow(Init(rows), n);
    }
  }

  /** Before any marker nothing is collected, flushed or raised. */
  lemma {:induction false} NoMarkerNoState(rows: seq<Row>)
    requires forall i :: 0 <= i < |rows| ==> !IsMarker(rows[i])
    ensures !Collecting(rows) && Entries(rows) == [] && !HasTotal(rows) && Fault(rows) == None
  {
    if rows != [] {
      InitIndex(rows);
      NoMarkerNoState(Init(rows));
    }
  }

  /** A sheet without any marker row ends in `NoBlocks`: `pd.concat` is
      given no block and raises. */
  lemma NoMarkerNoBlocks(rows: seq<Row>)
    requires forall i :: 0 <= i < |rows| ==> !IsMarker(rows[i])
    ensures Parse(rows) == Err(NoBlocks)
  {
    NoMarkerNoState(rows);
  }

  /** A 'Total' row flushes even an empty block, so a marker followed only
      by a 'Total' row gives an empty table rather than `NoBlocks`. */
  lemma EmptyBlockWithTotal()
    ensures Parse([Row(Text("A-1"), Missing, Missing), Row(Text("Total"), Missing, Missing)]) == Ok([])
  {
    var m := Row(Text("A-1"), Missing, Missing);
    var t := Row(Text("Total"), Missing, Missing);
    assert CodeAt("A-1", 0);
    assert OccursAt("Total", TOTAL, 0);
    assert [] + [m] == [m] && [m] + [t] == [m, t];
    Step([], m);
    Step([m], t);
    assert Classify(t, true) == TotalRow;
  }

  // ---------------------------------------------------------------------
  // The Decimal column

  /** Every entry's Decimal column is present exactly when its Duration is,
      and is then the duration in hundredths of an hour. */
  lemma {:induction false} EntriesDecimal(rows: seq<Row>)
    ensures forall e :: e in Entries(rows) ==>
              (e.duration.Some? <==> e.hours.Some?)
              && (e.duration.Some? ==> e.hours.value == Hundredths(e.duration.value))
  {
    if rows != [] {
      EntriesDecimal(Init(rows));
    }
  }

  /** Every record of a successful parse carries, in its Decimal column, its
      duration in hours rounded half to even to two places. */
  lemma ParsedDecimal(rows: seq<Row>)
    requires Parse(rows).Ok?
    ensures forall r :: r in Parse(rows).value ==> RoundsHalfEven(r.duration, 36, r.hours)
  {
    EntriesDecimal(rows);
    forall r | r in Parse(rows).value
      ensures RoundsHalfEven(r.duration, 36, r.hours)
    {
      var e :| e in Entries(rows) && Complete(e) && ToRecord(e) == r;
    }
  }

  // ---------------------------------------------------------------------
  // Worked examples

  /** A marker row followed by one data row: collecting, with the data row's
      single entry labelled by the marker text, and no fault. */
  lemma MarkerThenData(code: string, name: string, date: Date, seconds: int)
    requires HasActivityCode(code)
    requires !HasActivityCode(name) && name != HEADER && !Contains(name, TOTAL)
    ensures var m := Row(Text(code), Missing, Missing);
            var d := Row(Text(name), Present(Some(date)), Present(Elapsed(seconds)));
            Collecting([m, d]) && Fault([m, d]) == None && !HasTotal([m, d])
            && Entries([m, d]) == [Entry(code, Some(date), Some(seconds), Some(Hundredths(seconds)))]
  {
    var m := Row(Text(code), Missing, Missing);
    var d := Row(Text(name), Present(Some(date)), Present(Elapsed(seconds)));
    assert [] + [m] == [m] && [m] + [d] == [m, d];
    Step([], m);
    assert Collecting([m]) && Activity([m]) == code;
    Step([m], d);
    assert Classify(d, true) == Data;
  }

  /** A marker row, one data row, and optionally a 'Total' row: one record,
      labelled with the marker's full text. The block is flushed whether or
      not the 'Total' row closes it. */
  lemma SingleBlock(code: string, name: string, date: Date, seconds: int, total: string)
    requires HasActivityCode(code)
    requires !HasActivityCode(name) && name != HEADER && !Contains(name, TOTAL)
    requires !HasActivityCode(total) && total != HEADER && Contains(total, TOTAL)
    ensures var m := Row(Text(code), Missing, Missing);
            var d := Row(Text(name), Present(Some(date)), Present(Elapsed(seconds)));
            var t := Row(Text(total), Missing, Missing);
            var expected := Ok([Record(code, date, seconds, Hundredths(seconds))]);
            Parse([m, d]) == expected && Parse([m, d, t]) == expected
  {
    var m := Row(Text(code), Missing, Missing);
    var d := Row(Text(name), Present(Some(date)), Present(Elapsed(seconds)));
    var t := Row(Text(total), Missing, Missing);
    var e := Entry(code, Some(date), Some(seconds), Some(Hundredths(seconds)));
    MarkerThenData(code, name, date, seconds);
    assert [m, d] + [t] == [m, d, t];
    DropMissingSingle(e);
    assert Parse([m, d]) == Ok(DropMissing([e]));
    Step([m, d], t);
    assert Classify(t, true) == TotalRow;
    assert Entries([m, d, t]) == [e] && Fault([m, d, t]) == None;
    assert Parse([m, d, t]) == Ok(DropMissing([e]));
  }

  /** "EC-1 Foo", a data row of 04:00:00 dated 2024-01-05, "Total": one record
      of 4.00 hours labelled "EC-1 Foo". */
  lemma OneBlockExample()
    ensures var m := Row(Text("EC-1 Foo"), Missing, Missing);
            var d := Row(Text("Alice"), Present(Some(20240105)), Present(Elapsed(4 * 3600)));
            var t := Row(Text("Total"), Missing, Missing);
            Parse([m, d, t]) == Ok([Record("EC-1 Foo", 20240105, 4 * 3600, 400)])
  {
    assert CodeAt("EC-1 Foo", 1);
    assert OccursAt("Total", TOTAL, 0);
    HundredthsExamples();
    SingleBlock("EC-1 Foo", "Alice", 20240105, 4 * 3600, "Total");
  }
}

/** The record table the parser assembles: one entry per captured data row
    with the columns 'Activity', 'Start Date', 'Duration', 'Decimal', and the
    `dropna` step that keeps only the entries with every column present. */
module Records {
  import opened Results

  /** A start date or date-time, as an instant on a totally ordered time line;
      range boundaries are instants of the same kind and compare exactly. */
  type Date = int

  /** One row of `block_data`: a missing start date or duration is None
      (NaN / NaT in the data frame), and so is the decimal of a missing
      duration. The duration is its decoded length in seconds. */
  datatype Entry = Entry(activity: string, start: Option<Date>, duration: Option<int>, hours: Option<int>)

  /** A row of the table after `dropna`: every column present. */
  datatype Record = Record(activity: string, start: Date, duration: int, hours: int)

  predicate Complete(e: Entry)
  {
    e.start.Some? && e.duration.Some? && e.hours.Some?
  }

  function ToRecord(e: Entry): Record
    requires Complete(e)
  {
    Record(e.activity, e.start.value, e.duration.value, e.hours.value)
  }

  /** `final_df.dropna()`: the complete entries, as records, in their order. */
  function DropMissing(es: seq<Entry>): (rs: seq<Record>)
    ensures |rs| <= |es|
    ensures forall e :: e in es && Complete(e) ==> ToRecord(e) in rs
    ensures forall r :: r in rs ==> exists e :: e in es && Complete(e) && ToRecord(e) == r
  {
    if es == [] then []
    else
      var rest := DropMissing(es[1..]);
      assert forall e :: e in es[1..] ==> e in es;
      if Complete(es[0]) then [ToRecord(es[0])] + rest else rest
  }

  /** Dropping rows keeps the survivors in their relative order: it distributes
      over concatenation. */
  lemma {:induction false} DropMissingAppend(a: seq<Entry>, b: seq<Entry>)
    ensures DropMissing(a + b) == DropMissing(a) + DropMissing(b)
  {
    if a != [] {
      assert (a + b)[1..] == a[1..] + b;
      DropMissingAppend(a[1..], b);
    } else {
      assert a + b == b;
    }
  }

  /** An entry survives `dropna` exactly when all its columns are present. */
  lemma DropMissingSingle(e: Entry)
    ensures DropMissing([e]) == if Complete(e) then [ToRecord(e)] else []
  {
    assert [e][1..] == [];
  }

  /** `pd.concat(all_results)`, the blocks' entries in block order. */
  function Flatten(blocks: seq<seq<Entry>>): seq<Entry>
  {
    if blocks == [] then [] else Flatten(blocks[..|blocks| - 1]) + blocks[|blocks| - 1]
  }

  lemma FlattenPush(blocks: seq<seq<Entry>>, b: seq<Entry>)
    ensures Flatten(blocks + [b]) == Flatten(blocks) + b
  {
    assert (blocks + [b])[..|blocks|] == blocks;
  }

  /** No entry is lost or invented by the concatenation: an entry is in it
      exactly when it is in one of the blocks. */
  lemma {:induction false} FlattenMembers(blocks: seq<seq<Entry>>, e: Entry)
    ensures e in Flatten(blocks) <==> exists k :: 0 <= k < |blocks| && e in blocks[k]
  {
    if blocks != [] {
      var init := blocks[..|blocks| - 1];
      FlattenMembers(init, e);
      assert forall k :: 0 <= k < |init| ==> init[k] == blocks[k];
    }
  }
}

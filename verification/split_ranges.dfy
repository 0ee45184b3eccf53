/** `split_ranges_by_space`: from a content range address and the raw cells
    of its ref and name columns, one range address and one label per
    distinct (name, ref) group. */
module SplitRanges {
  import opened Optional
  import opened ForwardFill
  import opened RangeAddress
  import opened Grouping

  /** The ways the function fails. `split_ranges_by_space` has no error
      handling of its own; these are the points where it stops. */
  datatype SplitError =
    | RowTokenCount(found: nat)     // not two row numbers: `top` is unbound
    | MissingLeadingValue           // an empty first cell survives the fill
    | ColumnTokenCount(found: nat)  // not two column labels: `left` is unbound

  datatype Output = Output(ranges: seq<string>, labels: seq<string>)

  /** The first cell of each grouping column is present (or there are no
      rows at all), so the fill leaves no cell empty. */
  predicate LeadingPresent(refCells: seq<Option<string>>, nameCells: seq<Option<string>>): (b: bool)
    requires |refCells| == |nameCells|
    ensures b <==> AllPresent(Fill(nameCells)) && AllPresent(Fill(refCells))
  {
    if |nameCells| == 0 then true
    else
      FillCompletes(nameCells);
      FillCompletes(refCells);
      nameCells[0].Some? && refCells[0].Some?
  }

  /** The filled (name, ref) key of every row. */
  function RowKeys(refCells: seq<Option<string>>, nameCells: seq<Option<string>>): (keys: seq<Key>)
    requires |refCells| == |nameCells| && LeadingPresent(refCells, nameCells)
    ensures |keys| == |nameCells|
    ensures forall r :: 0 <= r < |keys| ==>
      Fill(nameCells)[r] == Some(keys[r].name) && Fill(refCells)[r] == Some(keys[r].ref)
  {
    if |nameCells| == 0 then []
    else
      FillCompletes(nameCells);
      FillCompletes(refCells);
      Keys(Present(Fill(nameCells)), Present(Fill(refCells)))
  }

  /** The row spans of the groups, in first-appearance order. */
  function RowSpans(refCells: seq<Option<string>>, nameCells: seq<Option<string>>): (spans: seq<Span>)
    requires |refCells| == |nameCells| && LeadingPresent(refCells, nameCells)
    ensures |spans| <= |nameCells|
    ensures forall i :: 0 <= i < |spans| ==> spans[i].start <= spans[i].end < |nameCells|
  {
    Spans(RowKeys(refCells, nameCells))
  }

  /** The address of every span, rows shifted by the range's top row. */
  function RangesOf(left: string, right: string, top: nat, spans: seq<Span>): (ranges: seq<string>)
    ensures |ranges| == |spans|
    ensures forall i :: 0 <= i < |spans| ==>
      ranges[i] == FormatRange(left, right, top + spans[i].start, top + spans[i].end)
  {
    seq(|spans|, i requires 0 <= i < |spans| =>
      FormatRange(left, right, top + spans[i].start, top + spans[i].end))
  }

  /** What `split_ranges_by_space` returns or where it stops. */
  function Split(address: string, refCells: seq<Option<string>>, nameCells: seq<Option<string>>)
    : (r: Result<Output, SplitError>)
    requires |refCells| == |nameCells|
    ensures r.Failure? <==>
      || |Tokens(address, Digits)| != 2
      || !LeadingPresent(refCells, nameCells)
      || (|nameCells| > 0 && |Tokens(address, Letters)| != 2)
    ensures |Tokens(address, Digits)| != 2 ==>
      r == Failure(RowTokenCount(|Tokens(address, Digits)|))
    ensures |Tokens(address, Digits)| == 2 && !LeadingPresent(refCells, nameCells) ==>
      r == Failure(MissingLeadingValue)
    ensures (&& |Tokens(address, Digits)| == 2 && LeadingPresent(refCells, nameCells)
             && |nameCells| > 0 && |Tokens(address, Letters)| != 2) ==>
      r == Failure(ColumnTokenCount(|Tokens(address, Letters)|))
    ensures r.Success? ==> |r.value.ranges| == |r.value.labels| <= |nameCells|
    ensures r.Success? && |nameCells| == 0 ==> r.value == Output([], [])
  {
    match TwoTokens(address, Digits)
    case None => Failure(RowTokenCount(|Tokens(address, Digits)|))
    case Some(rows) =>
      if !LeadingPresent(refCells, nameCells) then Failure(MissingLeadingValue)
      else
        var keys := RowKeys(refCells, nameCells);
        match TwoTokens(address, Letters)
        case None =>
          if keys == [] then Success(Output([], []))
          else Failure(ColumnTokenCount(|Tokens(address, Letters)|))
        case Some(cols) =>
          var top := DecimalValue(rows.first);
          Success(Output(RangesOf(cols.first, cols.second, top, Spans(keys)), Labels(keys)))
  }

  /** The function itself: scan the address, fill both columns, pair them,
      collect one span and label per distinct key, then format the ranges. */
  method SplitRangesBySpace(address: string, refCells: seq<Option<string>>, nameCells: seq<Option<string>>)
    returns (result: Result<Output, SplitError>)
    requires |refCells| == |nameCells|
    ensures result == Split(address, refCells, nameCells)
  {
    var rows := TwoTokens(address, Digits);
    var cols := TwoTokens(address, Letters);
    if rows.None? {
      return Failure(RowTokenCount(|Tokens(address, Digits)|));
    }
    var refs := Fill(refCells);
    var names := Fill(nameCells);
    if |names| > 0 && (names[0].None? || refs[0].None?) {
      return Failure(MissingLeadingValue);
    }
    var keys := RowKeys(refCells, nameCells);
    var spans, labels := CollectSpans(keys);
    if cols.None? {
      if |spans| > 0 {
        return Failure(ColumnTokenCount(|Tokens(address, Letters)|));
      }
      return Success(Output([], labels));
    }
    var top := DecimalValue(rows.value.first);
    var ranges := RangesOf(cols.value.first, cols.value.second, top, spans);
    return Success(Output(ranges, labels));
  }

  /** A successful split of at least one row scanned two row numbers and two
      column labels, and returns the formatted spans and the labels of the
      distinct keys. */
  lemma SplitSuccess(address: string, refCells: seq<Option<string>>, nameCells: seq<Option<string>>)
    requires |refCells| == |nameCells| && |nameCells| > 0
    requires Split(address, refCells, nameCells).Success?
    ensures |Tokens(address, Letters)| == 2 && |Tokens(address, Digits)| == 2
    ensures LeadingPresent(refCells, nameCells)
    ensures Split(address, refCells, nameCells).value
         == Output(RangesOf(Tokens(address, Letters)[0], Tokens(address, Letters)[1],
                            DecimalValue(Tokens(address, Digits)[0]), RowSpans(refCells, nameCells)),
                   Labels(RowKeys(refCells, nameCells)))
  {
  }

  /** Output `i` is labelled by the `i`-th distinct key. */
  lemma SplitLabelIs(address: string, refCells: seq<Option<string>>, nameCells: seq<Option<string>>, i: nat)
    requires |refCells| == |nameCells|
    requires Split(address, refCells, nameCells).Success?
    requires i < |Split(address, refCells, nameCells).value.ranges|
    ensures LeadingPresent(refCells, nameCells)
    ensures i < |RowSpans(refCells, nameCells)|
    ensures Split(address, refCells, nameCells).value.labels[i]
         == Label(Distinct(RowKeys(refCells, nameCells))[i])
  {
    SplitSuccess(address, refCells, nameCells);
  }

  /** Output `i` belongs to one group: its label is `name + "_" + ref` of the
      filled cells at `start`, the group's first row, and at `end`, its last
      row, and no row outside `start..end` has that group. */
  lemma SplitOutputGroup(address: string, refCells: seq<Option<string>>, nameCells: seq<Option<string>>, i: nat)
    returns (start: nat, end: nat, name: string, ref: string)
    requires |refCells| == |nameCells|
    requires Split(address, refCells, nameCells).Success?
    requires i < |Split(address, refCells, nameCells).value.ranges|
    ensures start == RowSpans(refCells, nameCells)[i].start && end == RowSpans(refCells, nameCells)[i].end
    ensures start <= end < |nameCells|
    ensures Fill(nameCells)[start] == Fill(nameCells)[end] == Some(name)
    ensures Fill(refCells)[start] == Fill(refCells)[end] == Some(ref)
    ensures forall r :: 0 <= r < |nameCells| && (r < start || end < r) ==>
      Fill(nameCells)[r] != Some(name) || Fill(refCells)[r] != Some(ref)
    ensures Split(address, refCells, nameCells).value.labels[i] == name + "_" + ref
  {
    SplitLabelIs(address, refCells, nameCells, i);
    var keys := RowKeys(refCells, nameCells);
    var sp, k := Spans(keys)[i], Distinct(keys)[i];
    SpanBounds(keys, i);
    start, end, name, ref := sp.start, sp.end, k.name, k.ref;
    forall r | 0 <= r < |nameCells| && (r < start || end < r)
      ensures Fill(nameCells)[r] != Some(name) || Fill(refCells)[r] != Some(ref)
    {
      assert keys[r] != k;
    }
  }

  /** Every formatted span scans back into its two row numbers and the two
      column labels it was formatted with. */
  lemma RangesScanBack(left: string, right: string, top: nat, spans: seq<Span>, i: nat)
    requires IsToken(left, Letters) && IsToken(right, Letters)
    requires i < |spans|
    ensures var range := RangesOf(left, right, top, spans)[i];
      && Tokens(range, Letters) == [left, right]
      && |Tokens(range, Digits)| == 2
      && DecimalValue(Tokens(range, Digits)[0]) == top + spans[i].start
      && DecimalValue(Tokens(range, Digits)[1]) == top + spans[i].end
  {
    FormatRangeParses(left, right, top + spans[i].start, top + spans[i].end);
  }

  /** Output `i` is the address of the rows `top + start .. top + end` of the
      input's own columns, and scanning it again yields exactly those two row
      numbers and those two column labels. */
  lemma SplitOutputScansBack(address: string, refCells: seq<Option<string>>, nameCells: seq<Option<string>>, i: nat)
    requires |refCells| == |nameCells|
    requires Split(address, refCells, nameCells).Success?
    requires i < |Split(address, refCells, nameCells).value.ranges|
    ensures |Tokens(address, Digits)| == 2 && LeadingPresent(refCells, nameCells)
    ensures i < |RowSpans(refCells, nameCells)|
    ensures var range := Split(address, refCells, nameCells).value.ranges[i];
      && Tokens(range, Letters) == Tokens(address, Letters)
      && |Tokens(range, Digits)| == 2
      && DecimalValue(Tokens(range, Digits)[0])
         == DecimalValue(Tokens(address, Digits)[0]) + RowSpans(refCells, nameCells)[i].start
      && DecimalValue(Tokens(range, Digits)[1])
         == DecimalValue(Tokens(address, Digits)[0]) + RowSpans(refCells, nameCells)[i].end
  {
    SplitSuccess(address, refCells, nameCells);
    var letters, digits := Tokens(address, Letters), Tokens(address, Digits);
    RangesScanBack(letters[0], letters[1], DecimalValue(digits[0]), RowSpans(refCells, nameCells), i);
    assert letters == [letters[0], letters[1]];
  }

  /** As many ranges and labels come out as there are distinct filled
      (name, ref) pairs. */
  lemma SplitCountsGroups(address: string, refCells: seq<Option<string>>, nameCells: seq<Option<string>>)
    requires |refCells| == |nameCells|
    requires Split(address, refCells, nameCells).Success?
    ensures |Split(address, refCells, nameCells).value.labels| == |Elements(RowKeys(refCells, nameCells))|
  {
    DistinctCount(RowKeys(refCells, nameCells));
  }

  /** Output spans start on strictly increasing rows. */
  lemma SplitStartsIncrease(address: string, refCells: seq<Option<string>>, nameCells: seq<Option<string>>, i: nat, j: nat)
    requires |refCells| == |nameCells|
    requires Split(address, refCells, nameCells).Success?
    requires i < j < |Split(address, refCells, nameCells).value.ranges|
    ensures RowSpans(refCells, nameCells)[i].start < RowSpans(refCells, nameCells)[j].start
  {
    SpanStartsIncrease(RowKeys(refCells, nameCells), i, j);
  }

  /** When every group occupies one block of rows, each row of the content
      range lies in the span of exactly one output. */
  lemma SplitTilesContiguousGroups(refCells: seq<Option<string>>, nameCells: seq<Option<string>>, r: nat)
    returns (i: nat)
    requires |refCells| == |nameCells| && LeadingPresent(refCells, nameCells)
    requires Contiguous(RowKeys(refCells, nameCells))
    requires r < |nameCells|
    ensures i < |RowSpans(refCells, nameCells)|
    ensures RowSpans(refCells, nameCells)[i].start <= r <= RowSpans(refCells, nameCells)[i].end
    ensures forall j :: 0 <= j < |RowSpans(refCells, nameCells)| ==>
      (RowSpans(refCells, nameCells)[j].start <= r <= RowSpans(refCells, nameCells)[j].end ==> j == i)
  {
    var keys := RowKeys(refCells, nameCells);
    DistinctNoDuplicates(keys);
    i := SpansCoverRows(keys, r);
    forall j | 0 <= j < |Spans(keys)| && Spans(keys)[j].start <= r <= Spans(keys)[j].end
      ensures j == i
    {
      ContiguousSpansPartition(keys, r, j);
    }
  }
}

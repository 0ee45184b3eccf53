/** Forward fill of a column of cells: every missing cell takes the value of
    the nearest present cell above it, as pandas' `Series.ffill` does. */
module ForwardFill {
  import opened Optional

  /** One linear pass carrying the last value seen; `carry` is what a missing
      cell receives before any present cell has been met. */
  function FillFrom<T>(xs: seq<Option<T>>, carry: Option<T>): (r: seq<Option<T>>)
    ensures |r| == |xs|
    ensures forall i :: 0 <= i < |xs| && xs[i].Some? ==> r[i] == xs[i]
    ensures forall i :: 0 < i < |xs| && xs[i].None? ==> r[i] == r[i - 1]
    ensures |xs| > 0 && xs[0].None? ==> r[0] == carry
  {
    if xs == [] then []
    else
      var v := if xs[0].Some? then xs[0] else carry;
      [v] + FillFrom(xs[1..], v)
  }

  /** `ffill`: present cells are kept, a missing cell repeats the filled cell
      above it, and a missing first cell stays missing. These three facts
      determine the result. */
  function Fill<T>(xs: seq<Option<T>>): (r: seq<Option<T>>)
    ensures |r| == |xs|
    ensures forall i :: 0 <= i < |xs| && xs[i].Some? ==> r[i] == xs[i]
    ensures forall i :: 0 < i < |xs| && xs[i].None? ==> r[i] == r[i - 1]
    ensures |xs| > 0 && xs[0].None? ==> r[0].None?
  {
    FillFrom(xs, None)
  }

  /** The filled cell at row `i` is the cell at the nearest present row
      `j <= i`; when there is none (`j == -1`) it stays missing. */
  lemma {:induction false} FillSource<T>(xs: seq<Option<T>>, i: nat) returns (j: int)
    requires i < |xs|
    ensures -1 <= j <= i
    ensures forall k :: j < k <= i ==> xs[k].None?
    ensures 0 <= j ==> xs[j].Some? && Fill(xs)[i] == xs[j]
    ensures j == -1 <==> Fill(xs)[i].None?
  {
    if xs[i].Some? {
      j := i;
    } else if i == 0 {
      j := -1;
    } else {
      j := FillSource(xs, i - 1);
    }
  }

  /** A present first cell leaves no cell missing after the fill, and a
      missing first cell stays missing: `Fill` completes a column exactly
      when its first cell is present. */
  lemma {:induction false} FillCompletes<T>(xs: seq<Option<T>>)
    requires |xs| > 0
    ensures AllPresent(Fill(xs)) <==> xs[0].Some?
  {
    if xs[0].Some? {
      forall i | 0 <= i < |xs| ensures Fill(xs)[i].Some? {
        var j := FillSource(xs, i);
      }
    }
  }

  /** Filling a column that has no missing cell returns it unchanged. */
  lemma FillComplete<T>(xs: seq<Option<T>>)
    requires AllPresent(xs)
    ensures Fill(xs) == xs
  {
  }

  /** Filling twice is filling once. */
  lemma {:induction false} FillIdempotent<T>(xs: seq<Option<T>>)
    ensures Fill(Fill(xs)) == Fill(xs)
  {
    var r := Fill(xs);
    var r2 := Fill(r);
    forall i | 0 <= i < |xs| ensures r2[i] == r[i] {
      FillTwiceAt(xs, i);
    }
  }

  lemma {:induction false} FillTwiceAt<T>(xs: seq<Option<T>>, i: nat)
    requires i < |xs|
    ensures Fill(Fill(xs))[i] == Fill(xs)[i]
  {
    if Fill(xs)[i].None? && i > 0 {
      FillTwiceAt(xs, i - 1);
    }
  }
}

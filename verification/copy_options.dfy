/** The paste behaviours of a copy, with the numeric codes of Excel's
    `XlPasteType` enumeration that the automation interface expects. */
module CopyOptions {
  import opened Optional

  datatype PasteType =
    | PasteAll                          // everything
    | PasteAllExceptBorders             // everything except borders
    | PasteAllMergingConditionalFormats // everything, merging conditional formats
    | PasteAllUsingSourceTheme          // everything, using the source theme
    | PasteColumnWidths                 // column widths
    | PasteComments                     // comments
    | PasteFormats                      // formats
    | PasteFormulas                     // formulas
    | PasteFormulasAndNumberFormats     // formulas and number formats
    | PasteValidation                   // validations
    | PasteValues                       // values
    | PasteValuesAndNumberFormats       // values and number formats

  /** The twelve behaviours, in declaration order. */
  const AllPasteTypes: seq<PasteType> := [
    PasteAll, PasteAllExceptBorders, PasteAllMergingConditionalFormats,
    PasteAllUsingSourceTheme, PasteColumnWidths, PasteComments, PasteFormats,
    PasteFormulas, PasteFormulasAndNumberFormats, PasteValidation, PasteValues,
    PasteValuesAndNumberFormats]

  /** The member's `.value`: its `XlPasteType` code. */
  function Code(p: PasteType): int {
    match p
    case PasteAll => -4104
    case PasteAllExceptBorders => 7
    case PasteAllMergingConditionalFormats => 14
    case PasteAllUsingSourceTheme => 13
    case PasteColumnWidths => 8
    case PasteComments => -4144
    case PasteFormats => -4122
    case PasteFormulas => -4123
    case PasteFormulasAndNumberFormats => 11
    case PasteValidation => 6
    case PasteValues => -4163
    case PasteValuesAndNumberFormats => 12
  }

  /** Lookup by value, `CopyOptions(code)`: the member with that code, or
      `None` where the enumeration would reject the value. */
  function FromCode(c: int): (p: Option<PasteType>)
    ensures p.Some? ==> Code(p.value) == c
  {
    if c == -4104 then Some(PasteAll)
    else if c == 7 then Some(PasteAllExceptBorders)
    else if c == 14 then Some(PasteAllMergingConditionalFormats)
    else if c == 13 then Some(PasteAllUsingSourceTheme)
    else if c == 8 then Some(PasteColumnWidths)
    else if c == -4144 then Some(PasteComments)
    else if c == -4122 then Some(PasteFormats)
    else if c == -4123 then Some(PasteFormulas)
    else if c == 11 then Some(PasteFormulasAndNumberFormats)
    else if c == 6 then Some(PasteValidation)
    else if c == -4163 then Some(PasteValues)
    else if c == 12 then Some(PasteValuesAndNumberFormats)
    else None
  }

  /** Looking a member up by its own code finds that member. */
  lemma CodeRoundTrip(p: PasteType)
    ensures FromCode(Code(p)) == Some(p)
  {
  }

  /** No two behaviours share a code. */
  lemma CodesDistinct(p: PasteType, q: PasteType)
    requires Code(p) == Code(q)
    ensures p == q
  {
    CodeRoundTrip(p);
    CodeRoundTrip(q);
  }

  /** The list names every behaviour once: twelve of them, codes pairwise
      distinct. */
  lemma TwelvePasteTypes(p: PasteType)
    ensures |AllPasteTypes| == 12 && p in AllPasteTypes
    ensures forall i, j :: 0 <= i < j < |AllPasteTypes| ==> Code(AllPasteTypes[i]) != Code(AllPasteTypes[j])
  {
  }
}

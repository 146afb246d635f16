/** The colour constants and `ParseColor` of models/constants/color. */
module Color {
  import opened Wrappers
  import opened Seqs
  import opened Strings

  const RED: string := "red"
  const BLUE: string := "blue"
  const GREEN: string := "green"
  const YELLOW: string := "yellow"

  const ALLColors: seq<string> := [RED, BLUE, GREEN, YELLOW]

  /** Go's `(Color, error)` pair: a colour together with an optional error message. */
  datatype Parsed = Parsed(color: string, err: Option<string>)

  /**
   * Lower-cases the input and accepts exactly the four colour names; any
   * other input yields the empty colour together with an error.
   */
  function ParseColor(colorStr: string): (r: Parsed)
    ensures r.err.None? <==> ToLower(colorStr) in ALLColors
    ensures r.err.None? ==> r.color == ToLower(colorStr)
    ensures r.err.Some? ==> r.color == "" && r.err.value == "invalid color: " + ToLower(colorStr)
  {
    var s := ToLower(colorStr);
    if s == "red" then Parsed(RED, None)
    else if s == "blue" then Parsed(BLUE, None)
    else if s == "green" then Parsed(GREEN, None)
    else if s == "yellow" then Parsed(YELLOW, None)
    else Parsed("", Some("invalid color: " + s))
  }

  /** `ALLColors` holds four distinct lower-case names. */
  lemma AllColorsDistinct()
    ensures |ALLColors| == 4 && Distinct(ALLColors)
    ensures forall c | c in ALLColors :: c != "" && IsLower(c)
  {
  }

  /** Every successful parse is one of the four colours. */
  lemma ParseColorInAllColors(s: string)
    ensures ParseColor(s).err.None? ==> ParseColor(s).color in ALLColors
  {
  }

  /** Inputs that agree up to letter case parse to the same result. */
  lemma ParseColorCaseInsensitive(a: string, b: string)
    requires ToLower(a) == ToLower(b)
    ensures ParseColor(a) == ParseColor(b)
  {
  }

  /** Round trip: the name of each colour parses back to that colour. */
  lemma ParseColorRoundTrip(c: string)
    requires c in ALLColors
    ensures ParseColor(c) == Parsed(c, None)
  {
  }

  /** Mixed-case spellings of a colour name parse to that colour. */
  lemma ParseColorExamples()
    ensures ParseColor("RED") == Parsed(RED, None)
    ensures ParseColor("Red") == Parsed(RED, None)
    ensures ParseColor("bLuE") == Parsed(BLUE, None)
    ensures ParseColor("purple").err.Some? && ParseColor("purple").color == ""
    ensures ParseColor("").err.Some?
  {
    assert ToLower("RED") == "red";
    assert ToLower("Red") == "red";
    assert ToLower("bLuE") == "blue";
    ToLowerFixesLower("purple");
  }
}

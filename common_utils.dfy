/**
 * CommonUtils.parseUnitSizeToPixel (src/util/CommonUtils.js): a CSS-like
 * size such as "12pt" becomes a pixel count. `parseFloat` is left abstract:
 * it is passed in as a function from the text to the number it reads.
 */
module CommonUtils {
  import Wrappers

  /** The result: the text itself when it is too short, otherwise a number. */
  datatype PixelSize = Verbatim(text: string) | Pixels(value: real)

  /** The units the parser knows, in the order it tries them. */
  datatype Unit = Pt | Pc | Mm | Cm | In | Px

  const UNITS: seq<Unit> := [Pt, Pc, Mm, Cm, In, Px]

  function Suffix(u: Unit): (s: string)
    ensures |s| == 2
  {
    match u
    case Pt => "pt"
    case Pc => "pc"
    case Mm => "mm"
    case Cm => "cm"
    case In => "in"
    case Px => "px"
  }

  /** Pixels per unit. */
  function Factor(u: Unit): real
  {
    match u
    case Pt => 1.25
    case Pc => 15.0
    case Mm => 3.543307
    case Cm => 35.43307
    case In => 90.0
    case Px => 1.0
  }

  /** `sub` occurs in `s` starting at position `i`. */
  predicate OccursAt(s: string, sub: string, i: int)
  {
    0 <= i && i + |sub| <= |s| && s[i..i + |sub|] == sub
  }

  /** String.prototype.indexOf from position `from`: the first start of `sub`, or -1. */
  function IndexOfFrom(s: string, sub: string, from: nat): (r: int)
    ensures r == -1 || (from <= r && OccursAt(s, sub, r))
    ensures forall i :: from <= i && (r == -1 || i < r) ==> !OccursAt(s, sub, i)
    decreases |s| - from
  {
    if from + |sub| > |s| then -1
    else if s[from..from + |sub|] == sub then from
    else IndexOfFrom(s, sub, from + 1)
  }

  /** String.prototype.indexOf. */
  function IndexOf(s: string, sub: string): int
  {
    IndexOfFrom(s, sub, 0)
  }

  /** parseUnitSizeToPixel, test for test. */
  function ParseUnitSizeToPixel(text: string, parseFloat: string -> real): PixelSize
  {
    var len := |text| - 2;
    if len < 0 then Verbatim(text)
    else if IndexOf(text, "pt") == len then Pixels(parseFloat(text[..len]) * 1.25)
    else if IndexOf(text, "pc") == len then Pixels(parseFloat(text[..len]) * 15.0)
    else if IndexOf(text, "mm") == len then Pixels(parseFloat(text[..len]) * 3.543307)
    else if IndexOf(text, "cm") == len then Pixels(parseFloat(text[..len]) * 35.43307)
    else if IndexOf(text, "in") == len then Pixels(parseFloat(text[..len]) * 90.0)
    else if IndexOf(text, "px") == len then Pixels(parseFloat(text[..len]))
    else Pixels(parseFloat(text))
  }

  /** The unit is the text's last two characters and occurs nowhere earlier in it. */
  predicate SoleSuffix(text: string, u: Unit)
  {
    && OccursAt(text, Suffix(u), |text| - 2)
    && forall i :: 0 <= i < |text| - 2 ==> !OccursAt(text, Suffix(u), i)
  }

  /** indexOf(unit) == length - 2 exactly when the unit ends the text and occurs nowhere before. */
  lemma IndexOfIsLastPosition(text: string, u: Unit)
    requires |text| >= 2
    ensures IndexOf(text, Suffix(u)) == |text| - 2 <==> SoleSuffix(text, u)
  {
  }

  /** Two different units cannot both be the sole suffix, so the order of the tests does not matter. */
  lemma AtMostOneUnit(text: string, u: Unit, w: Unit)
    requires SoleSuffix(text, u) && SoleSuffix(text, w)
    ensures u == w
  {
    assert Suffix(u) == text[|text| - 2..] == Suffix(w);
  }

  /** Exactly one outcome of the if-chain: the unit found, if any. */
  function SoleUnit(text: string): (r: Wrappers.Option<Unit>)
    ensures r.Some? ==> SoleSuffix(text, r.value)
    ensures r.None? ==> forall u :: !SoleSuffix(text, u)
  {
    if SoleSuffix(text, Pt) then Wrappers.Some(Pt)
    else if SoleSuffix(text, Pc) then Wrappers.Some(Pc)
    else if SoleSuffix(text, Mm) then Wrappers.Some(Mm)
    else if SoleSuffix(text, Cm) then Wrappers.Some(Cm)
    else if SoleSuffix(text, In) then Wrappers.Some(In)
    else if SoleSuffix(text, Px) then Wrappers.Some(Px)
    else NoSoleUnit(text); Wrappers.None
  }

  lemma NoSoleUnit(text: string)
    requires !SoleSuffix(text, Pt) && !SoleSuffix(text, Pc) && !SoleSuffix(text, Mm)
    requires !SoleSuffix(text, Cm) && !SoleSuffix(text, In) && !SoleSuffix(text, Px)
    ensures forall u :: !SoleSuffix(text, u)
  {
    forall u: Unit
      ensures !SoleSuffix(text, u)
    {
      match u
      case Pt =>
      case Pc =>
      case Mm =>
      case Cm =>
      case In =>
      case Px =>
    }
  }

  /**
   * The whole behaviour: text shorter than two characters is returned as is;
   * otherwise, if some unit is the sole suffix, the text before it is read and
   * scaled by that unit's factor; otherwise the whole text is read.
   */
  lemma ParseUnitSizeToPixelMeaning(text: string, parseFloat: string -> real, u: Unit)
    ensures |text| < 2 ==> ParseUnitSizeToPixel(text, parseFloat) == Verbatim(text)
    ensures SoleSuffix(text, u) ==>
      ParseUnitSizeToPixel(text, parseFloat) == Pixels(parseFloat(text[..|text| - 2]) * Factor(u))
    ensures |text| >= 2 && SoleUnit(text).None? ==>
      ParseUnitSizeToPixel(text, parseFloat) == Pixels(parseFloat(text))
  {
    if |text| >= 2 {
      IndexOfIsLastPosition(text, Pt);
      IndexOfIsLastPosition(text, Pc);
      IndexOfIsLastPosition(text, Mm);
      IndexOfIsLastPosition(text, Cm);
      IndexOfIsLastPosition(text, In);
      IndexOfIsLastPosition(text, Px);
      var found := SoleUnit(text);
      if SoleSuffix(text, u) {
        AtMostOneUnit(text, u, found.value);
      }
    }
  }

  /** "12pt" is 15 pixels; "ptpt" falls through to parseFloat of the whole text. */
  lemma ParseUnitSizeExamples(parseFloat: string -> real)
    requires parseFloat("12") == 12.0
    ensures ParseUnitSizeToPixel("12pt", parseFloat) == Pixels(15.0)
    ensures ParseUnitSizeToPixel("ptpt", parseFloat) == Pixels(parseFloat("ptpt"))
    ensures ParseUnitSizeToPixel("7", parseFloat) == Verbatim("7")
  {
    assert "12pt"[..2] == "12";
    assert "12pt"[2..4] == "pt";
    assert "ptpt"[0..2] == "pt";
    assert "ptpt"[0..2] == "pt";
    assert IndexOf("ptpt", "pt") == 0;
    assert "ptpt"[0..2] != "pc" && "ptpt"[1..3] != "pc" && "ptpt"[2..4] != "pc";
  }
}

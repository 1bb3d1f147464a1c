/**
 * The `Config` record of the ray tracer: image size and output file name,
 * with their defaults and the `ToString` description.
 */
module ConfigRecord {
  import opened Wrappers
  import opened Strings
  import opened Integers

  const DefaultOutputFileName := "output.pfm"

  /**
   * The value held by a `Config` object. `outputFileName` is a C# string
   * reference, so it may be null (`None`).
   */
  datatype ConfigValue = ConfigValue(imageWidth: Int32, imageHeight: Int32, outputFileName: Option<string>)

  /** A freshly constructed `Config`: C#'s zero for the integers, "output.pfm" for the name. */
  const Default := ConfigValue(0, 0, Some(DefaultOutputFileName))

  /** How string interpolation shows a string reference: null shows as nothing, like the empty name. */
  function Shown(s: Option<string>): (r: string)
    ensures s.Some? ==> r == s.value
    ensures r == [] <==> s == None || s == Some([])
  {
    match s
    case None => ""
    case Some(text) => text
  }

  const WidthLabel := "imageWidth: "
  const HeightLabel := ", imageHeight: "
  const OutputLabel := ", outputFileName: "

  /** The text `Config.ToString` produces for the given field values: the width label first, the file name last. */
  function Describe(c: ConfigValue): (s: string)
    ensures WidthLabel <= s
    ensures |Shown(c.outputFileName)| <= |s| && s[|s| - |Shown(c.outputFileName)|..] == Shown(c.outputFileName)
  {
    WidthLabel + FormatInt(c.imageWidth) + HeightLabel + FormatInt(c.imageHeight) + OutputLabel + Shown(c.outputFileName)
  }

  /**
   * Splits `tag + text + rest` where `text` is the part before the first
   * comma after the label and `rest` starts at that comma.
   */
  function LabelledField(s: string, tag: string): Option<(string, string)>
  {
    if tag <= s && ',' in s[|tag|..] then
      var r := s[|tag|..];
      var i := IndexOf(r, ',');
      Some((r[..i], r[i..]))
    else None
  }

  /**
   * Reads a description back: the width numeral runs up to the first comma
   * after the width label, the height numeral up to the next comma, and the
   * file name is everything after the output label. Only numerals spelled
   * as `ToString` spells them are accepted.
   */
  function ParseDescription(s: string): Option<(int, int, string)>
  {
    match LabelledField(s, WidthLabel)
    case None => None
    case Some((widthText, r1)) =>
      match LabelledField(r1, HeightLabel)
      case None => None
      case Some((heightText, r2)) =>
        if OutputLabel <= r2 then
          match (DecimalValue(widthText), DecimalValue(heightText))
          case (Some(w), Some(h)) =>
            if widthText == FormatInt(w) && heightText == FormatInt(h) then Some((w, h, r2[|OutputLabel|..]))
            else None
          case _ => None
        else None
  }

  /** The first `c` of `a + b` is in `b` when `a` has none. */
  lemma {:induction false} IndexOfAfter(a: string, b: string, c: char)
    requires c !in a && c in b
    ensures c in a + b && IndexOf(a + b, c) == |a| + IndexOf(b, c)
  {
    if a != [] {
      assert (a + b)[1..] == a[1..] + b;
      IndexOfAfter(a[1..], b, c);
    } else {
      assert a + b == b;
    }
  }

  /** A comma-free `text` after its label is read back up to the comma that follows it. */
  lemma LabelledFieldOf(tag: string, text: string, rest: string)
    requires ',' !in text && rest != [] && rest[0] == ','
    ensures LabelledField(tag + text + rest, tag) == Some((text, rest))
  {
    var s := tag + text + rest;
    assert s[|tag|..] == text + rest;
    IndexOfAfter(text, rest, ',');
    assert (text + rest)[..|text|] == text;
    assert (text + rest)[|text|..] == rest;
  }

  /** A field that `LabelledField` finds sits between its label and the rest of the text. */
  lemma LabelledFieldSplits(s: string, tag: string, text: string, rest: string)
    requires LabelledField(s, tag) == Some((text, rest))
    ensures s == tag + text + rest
  {
    var r := s[|tag|..];
    var i := IndexOf(r, ',');
    assert text == r[..i] && rest == r[i..];
    calc {
      s;
      s[..|tag|] + s[|tag|..];
      tag + (r[..i] + r[i..]);
      tag + text + rest;
    }
  }

  /**
   * A description is determined by what `ParseDescription` reads from it:
   * the only text read back as `(w, h, f)` is the one `ToString` writes.
   */
  lemma ParseDescriptionDetermines(s: string, w: int, h: int, f: string)
    requires ParseDescription(s) == Some((w, h, f))
    ensures s == WidthLabel + FormatInt(w) + HeightLabel + FormatInt(h) + OutputLabel + f
  {
    var (widthText, r1) := LabelledField(s, WidthLabel).value;
    var (heightText, r2) := LabelledField(r1, HeightLabel).value;
    DescriptionParts(s, widthText, r1, heightText, r2);
    Regroup(s, widthText, heightText, w, h, f);
  }

  /** The pieces between the labels of a description, as `ParseDescription` finds them. */
  lemma DescriptionParts(s: string, widthText: string, r1: string, heightText: string, r2: string)
    requires LabelledField(s, WidthLabel) == Some((widthText, r1))
    requires LabelledField(r1, HeightLabel) == Some((heightText, r2))
    requires OutputLabel <= r2
    ensures s == WidthLabel + widthText + HeightLabel + heightText + OutputLabel + r2[|OutputLabel|..]
  {
    var name := r2[|OutputLabel|..];
    assert r2 == OutputLabel + name by {
      assert r2 == r2[..|OutputLabel|] + r2[|OutputLabel|..];
    }
    LabelledFieldSplits(r1, HeightLabel, heightText, r2);
    LabelledFieldSplits(s, WidthLabel, widthText, r1);
    JoinPieces(s, r1, r2, widthText, heightText, name);
  }

  /** The three labelled pieces of a description, put back together. */
  lemma JoinPieces(s: string, r1: string, r2: string, widthText: string, heightText: string, f: string)
    requires s == WidthLabel + widthText + r1 && r1 == HeightLabel + heightText + r2 && r2 == OutputLabel + f
    ensures s == WidthLabel + widthText + HeightLabel + heightText + OutputLabel + f
  {
  }

  /** Replacing the numerals of a description by equal text. */
  lemma Regroup(s: string, widthText: string, heightText: string, w: int, h: int, f: string)
    requires widthText == FormatInt(w) && heightText == FormatInt(h)
    requires s == WidthLabel + widthText + HeightLabel + heightText + OutputLabel + f
    ensures s == WidthLabel + FormatInt(w) + HeightLabel + FormatInt(h) + OutputLabel + f
  {
  }

  /** The description determines all three fields: `ParseDescription` inverts `Describe`. */
  lemma DescribeRoundTrip(c: ConfigValue)
    ensures ParseDescription(Describe(c)) ==
      Some((c.imageWidth as int, c.imageHeight as int, Shown(c.outputFileName)))
  {
    var w, h, f := FormatInt(c.imageWidth), FormatInt(c.imageHeight), Shown(c.outputFileName);
    var r2 := OutputLabel + f;
    var r1 := HeightLabel + h + r2;
    assert Describe(c) == WidthLabel + w + r1;
    LabelledFieldOf(WidthLabel, w, r1);
    LabelledFieldOf(HeightLabel, h, r2);
    assert r2[|OutputLabel|..] == f;
    DecimalValueOfFormat(c.imageWidth);
    DecimalValueOfFormat(c.imageHeight);
  }

  /** The C# `Config` class: a mutable record the parser fills in field by field. */
  class Config {
    var imageWidth: Int32
    var imageHeight: Int32
    var outputFileName: Option<string>

    constructor ()
      ensures Value() == Default
    {
      imageWidth := 0;
      imageHeight := 0;
      outputFileName := Some(DefaultOutputFileName);
    }

    function Value(): ConfigValue
      reads this
    {
      ConfigValue(imageWidth, imageHeight, outputFileName)
    }

    /** "imageWidth: W, imageHeight: H, outputFileName: F", from which W, H and F can be read back. */
    function ToString(): (s: string)
      reads this
      ensures WidthLabel <= s
      ensures ParseDescription(s) == Some((imageWidth as int, imageHeight as int, Shown(outputFileName)))
    {
      DescribeRoundTrip(Value());
      Describe(Value())
    }
  }
}

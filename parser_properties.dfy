/**
 * What the configuration parser promises, stated against definitions that
 * do not follow the loop: each field comes from the last well-formed line
 * with its key, an exception comes from the first line whose number does
 * not parse, and the null check at the end can never fire.
 */
module ParserProperties {
  import opened Wrappers
  import opened Exceptions
  import opened Strings
  import opened Integers
  import opened ConfigRecord
  import opened CommandLineParser

  /**
   * The trimmed key and value of a line with exactly one colon: the text
   * before the colon and the text after it.
   */
  function Entry(line: string): Option<(string, string)>
  {
    if Count(line, ':') == 1 then
      CountZero(line, ':');
      var i := IndexOf(line, ':');
      Some((Trim(line[..i]), Trim(line[i + 1..])))
    else None
  }

  /** The value of the last entry with `key`, if there is one. */
  function LastValue(lines: seq<string>, key: string): Option<string>
  {
    if lines == [] then None
    else
      var e := Entry(lines[|lines| - 1]);
      if e.Some? && e.value.0 == key then Some(e.value.1) else LastValue(lines[..|lines| - 1], key)
  }

  /** The exception a line raises: a numeric entry whose value `int.Parse` rejects. */
  function LineError(line: string): Option<Exception>
  {
    match Entry(line)
    case None => None
    case Some((key, value)) =>
      if (key == WidthKey || key == HeightKey) && ParseInt32(value).Failure? then Some(ParseInt32(value).error)
      else None
  }

  /** The exception raised by the first line that raises one. */
  function FirstError(lines: seq<string>): Option<Exception>
  {
    if lines == [] then None
    else if LineError(lines[0]).Some? then LineError(lines[0])
    else FirstError(lines[1..])
  }

  /** The number a numeric field ends with: its last value, or 0 when there is none. */
  function NumberOr0(value: Option<string>): Int32
  {
    match value
    case None => 0
    case Some(text) => if ParseInt32(text).Success? then ParseInt32(text).value else 0
  }

  /** The record the last entry of each key describes, defaults for keys that never appear. */
  function Expected(lines: seq<string>): ConfigValue
  {
    ConfigValue(
      NumberOr0(LastValue(lines, WidthKey)),
      NumberOr0(LastValue(lines, HeightKey)),
      Some(match LastValue(lines, OutputKey) case None => DefaultOutputFileName case Some(v) => v))
  }

  /** A line takes effect exactly through its entry: splitting on ':' finds the same key and value. */
  lemma ApplyLineEntry(c: ConfigValue, line: string)
    ensures ApplyLine(c, line) ==
      match Entry(line)
      case None => Success(c)
      case Some((key, value)) => Assign(c, key, value)
  {
    SplitTwo(line, ':');
  }

  /** Whitespace around the key and around the value is ignored. */
  lemma PaddedLine(c: ConfigValue, p1: string, key: string, p2: string, p3: string, value: string, p4: string)
    requires AllWhiteSpace(p1) && AllWhiteSpace(p2) && AllWhiteSpace(p3) && AllWhiteSpace(p4)
    requires IsTrimmed(key) && IsTrimmed(value) && ':' !in key && ':' !in value
    ensures ApplyLine(c, p1 + key + p2 + ":" + p3 + value + p4) == Assign(c, key, value)
  {
    var before, after := p1 + key + p2, p3 + value + p4;
    var line := before + [':'] + after;
    assert p1 + key + p2 + ":" + p3 + value + p4 == line;
    assert ':' !in p1 && ':' !in p2 && ':' !in p3 && ':' !in p4;
    assert ':' !in before && ':' !in after;
    SplitJoin([before, after], ':');
    assert Join([before, after], ':') == line;
    TrimPadded(p1, key, p2);
    TrimPadded(p3, value, p4);
  }

  /** A width line sets the width to its number, whatever white space surrounds key and value. */
  lemma PaddedWidthLine(c: ConfigValue, n: Int32, p1: string, p2: string, p3: string, p4: string)
    requires AllWhiteSpace(p1) && AllWhiteSpace(p2) && AllWhiteSpace(p3) && AllWhiteSpace(p4)
    ensures ApplyLine(c, p1 + WidthKey + p2 + ":" + p3 + FormatInt(n) + p4) == Success(c.(imageWidth := n))
  {
    PaddedLine(c, p1, WidthKey, p2, p3, FormatInt(n), p4);
    ParseFormatted(n, "", "");
    assert "" + FormatInt(n) + "" == FormatInt(n);
  }

  /**
   * `"  image_width :  640 "` sets the width to 640. The line is a parameter
   * fixed by `requires` so that the verifier meets the literal only as one
   * equation, instead of unfolding it in every goal of the proof.
   */
  lemma PaddedWidthExample(c: ConfigValue, line: string)
    requires line == "  image_width :  640 "
    ensures ApplyLine(c, line) == Success(c.(imageWidth := 640))
  {
    Format640();
    assert line == "  " + WidthKey + " " + ":" + "  " + FormatInt(640) + " ";
    PaddedWidthLine(c, 640, "  ", " ", "  ", " ");
  }

  /** The text of the number 640. */
  lemma Format640()
    ensures FormatInt(640) == "640"
  {
    assert FormatNat(64) == FormatNat(6) + "4";
  }

  /**
   * A Windows path has a second colon, so `output_path: C:\out.pfm` is
   * ignored. The line is a parameter for the same reason as above.
   */
  lemma DriveLetterPathIgnored(c: ConfigValue, line: string)
    requires line == "output_path: C:\\out.pfm"
    ensures ApplyLine(c, line) == Success(c)
  {
    var before, after := "output_path: C", "\\out.pfm";
    assert line == before + ":" + after;
    CountAppend(before + ":", after, ':');
    CountAppend(before, ":", ':');
    CountZero(after, ':');
    CountZero(before, ':');
  }

  /**
   * A numeric key accepts every 32-bit number, negative and zero included,
   * and rejects an empty value and an out-of-range one; the output key
   * accepts any text, the empty text included.
   */
  lemma NumericValues(c: ConfigValue, n: int)
    ensures Assign(c, WidthKey, FormatInt(n)) ==
      if MinInt32 <= n <= MaxInt32 then Success(c.(imageWidth := n)) else Failure(OverflowException)
    ensures Assign(c, HeightKey, FormatInt(n)) ==
      if MinInt32 <= n <= MaxInt32 then Success(c.(imageHeight := n)) else Failure(OverflowException)
    ensures Assign(c, WidthKey, "") == Failure(FormatException)
    ensures Assign(c, HeightKey, "") == Failure(FormatException)
    ensures Assign(c, OutputKey, "") == Success(c.(outputFileName := Some("")))
  {
  }

  lemma {:induction false} FirstErrorSnoc(lines: seq<string>, line: string)
    ensures FirstError(lines + [line]) ==
      if FirstError(lines).Some? then FirstError(lines) else LineError(line)
  {
    if lines == [] {
      assert [] + [line] == [line];
      assert [line][1..] == [];
    } else {
      var all := lines + [line];
      assert all[0] == lines[0];
      assert all[1..] == lines[1..] + [line];
      FirstErrorSnoc(lines[1..], line);
    }
  }

  /** The step of the main theorem: one more line moves the expected record as `ApplyLine` does. */
  lemma ApplyLineExpected(lines: seq<string>, line: string)
    ensures ApplyLine(Expected(lines), line) ==
      match LineError(line)
      case Some(e) => Failure(e)
      case None => Success(Expected(lines + [line]))
  {
    var all := lines + [line];
    assert all[..|all| - 1] == lines && all[|all| - 1] == line;
    ApplyLineEntry(Expected(lines), line);
  }

  /**
   * The loop's outcome, without the loop: the exception of the first line
   * that raises one; otherwise each field holds the value of the last line
   * with its key, or its default when no line has that key.
   */
  lemma {:induction false} ParseLinesCharacterized(lines: seq<string>)
    ensures ParseLines(lines) ==
      match FirstError(lines)
      case Some(e) => Failure(e)
      case None => Success(Expected(lines))
  {
    if lines != [] {
      var prefix, line := lines[..|lines| - 1], lines[|lines| - 1];
      assert lines == prefix + [line];
      ParseLinesCharacterized(prefix);
      FirstErrorSnoc(prefix, line);
      if FirstError(prefix).None? {
        ApplyLineExpected(prefix, line);
      }
    }
  }

  /** No exception is raised if and only if no line raises one. */
  lemma {:induction false} FirstErrorNone(lines: seq<string>)
    ensures FirstError(lines).None? <==> forall i :: 0 <= i < |lines| ==> LineError(lines[i]).None?
  {
    if lines != [] {
      var rest := lines[1..];
      FirstErrorNone(rest);
      var head := LineError(lines[0]);
      assert FirstError(lines) == if head.Some? then head else FirstError(rest);
      if FirstError(lines).None? {
        forall i | 0 <= i < |lines| ensures LineError(lines[i]).None? {
          if i > 0 {
            assert lines[i] == rest[i - 1];
          }
        }
      } else if LineError(lines[0]).None? {
        var k :| 0 <= k < |rest| && LineError(rest[k]).Some?;
        assert lines[k + 1] == rest[k];
      }
    }
  }

  /** A key that appears in no well-formed line keeps its default, and only then. */
  lemma {:induction false} LastValueNone(lines: seq<string>, key: string)
    ensures LastValue(lines, key).None? <==>
      forall i :: 0 <= i < |lines| ==> Entry(lines[i]).None? || Entry(lines[i]).value.0 != key
  {
    if lines != [] {
      var prefix := lines[..|lines| - 1];
      LastValueNone(prefix, key);
      assert forall i :: 0 <= i < |prefix| ==> prefix[i] == lines[i];
    }
  }

  /**
   * `ParseConfigFile` on readable lines: it fails exactly when some line
   * has a width or height that is not a 32-bit number, with the first such
   * line's exception, and never with "Invalid config file"; otherwise it
   * returns the record `Expected` describes.
   */
  lemma ConfigFromLinesCharacterized(lines: seq<string>)
    ensures ConfigFromLines(lines) ==
      match FirstError(lines)
      case Some(e) => Failure(e)
      case None => Success(Expected(lines))
    ensures ConfigFromLines(lines).Failure? <==> exists i :: 0 <= i < |lines| && LineError(lines[i]).Some?
    ensures ConfigFromLines(lines) != Failure(InvalidConfigFile)
  {
    ParseLinesCharacterized(lines);
    FirstErrorNone(lines);
  }

  /** A file in which no line has exactly one colon gives the default record. */
  lemma NoEntriesGiveDefault(lines: seq<string>)
    requires forall i :: 0 <= i < |lines| ==> Entry(lines[i]).None?
    ensures ConfigFromLines(lines) == Success(Default)
  {
    ConfigFromLinesCharacterized(lines);
    LastValueNone(lines, WidthKey);
    LastValueNone(lines, HeightKey);
    LastValueNone(lines, OutputKey);
  }
}

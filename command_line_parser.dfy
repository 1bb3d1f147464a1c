/**
 * `CommandLineParser`: reads the ray tracer's configuration from the file
 * named by the only command-line argument. Each line of the form
 * `key: value` (exactly one colon) sets the field its trimmed key names;
 * every other line is ignored.
 */
module CommandLineParser {
  import opened Wrappers
  import opened Exceptions
  import opened Strings
  import opened Integers
  import opened ConfigRecord

  /** The files `File.ReadAllLines` can read, by name, as their lines. */
  type FileSystem = map<string, seq<string>>

  const WidthKey := "image_width"
  const HeightKey := "image_height"
  const OutputKey := "output_path"

  // ---------------------------------------------------------------------
  // The loop of ParseConfigFile, one line at a time, on record values.
  // ---------------------------------------------------------------------

  /**
   * The dispatch on a trimmed key: each known key sets its own field and
   * no other; the two numeric keys go through `int.Parse`, which may throw.
   */
  function Assign(c: ConfigValue, key: string, value: string): (r: Result<ConfigValue, Exception>)
    ensures r.Success? ==> key == WidthKey || r.value.imageWidth == c.imageWidth
    ensures r.Success? ==> key == HeightKey || r.value.imageHeight == c.imageHeight
    ensures r.Success? ==> key == OutputKey || r.value.outputFileName == c.outputFileName
    ensures r.Failure? <==> (key == WidthKey || key == HeightKey) && ParseInt32(value).Failure?
    ensures r.Failure? ==> ParseInt32(value) == Failure(r.error)
  {
    if key == WidthKey then
      match ParseInt32(value)
      case Success(n) => Success(c.(imageWidth := n))
      case Failure(e) => Failure(e)
    else if key == HeightKey then
      match ParseInt32(value)
      case Success(n) => Success(c.(imageHeight := n))
      case Failure(e) => Failure(e)
    else if key == OutputKey then
      Success(c.(outputFileName := Some(value)))
    else
      Success(c)
  }

  /**
   * One iteration of the loop: a line that does not split into exactly two
   * parts on ':' leaves the record as it is.
   */
  function ApplyLine(c: ConfigValue, line: string): (r: Result<ConfigValue, Exception>)
    ensures Count(line, ':') != 1 ==> r == Success(c)
  {
    var parts := Split(line, ':');
    if |parts| == 2 then Assign(c, Trim(parts[0]), Trim(parts[1])) else Success(c)
  }

  /**
   * The record after the loop has run over `lines`, or the exception that
   * stopped it. The loop never sets the file name to null, and only
   * `int.Parse` throws.
   */
  function ParseLines(lines: seq<string>): (r: Result<ConfigValue, Exception>)
    ensures r.Success? ==> r.value.outputFileName.Some?
    ensures r.Failure? ==> r.error == FormatException || r.error == OverflowException
  {
    if lines == [] then Success(Default)
    else
      match ParseLines(lines[..|lines| - 1])
      case Failure(e) => Failure(e)
      case Success(c) => ApplyLine(c, lines[|lines| - 1])
  }

  /**
   * What `ParseConfigFile` returns for a file with these lines, null check
   * included. The null check never fires: the result is the loop's.
   */
  function ConfigFromLines(lines: seq<string>): (r: Result<ConfigValue, Exception>)
    ensures r == ParseLines(lines)
    ensures r != Failure(InvalidConfigFile)
  {
    match ParseLines(lines)
    case Failure(e) => Failure(e)
    case Success(c) => if c.outputFileName == None then Failure(InvalidConfigFile) else Success(c)
  }

  /**
   * What `ParseConfigFile` returns for a file name: a missing file throws
   * `FileNotFoundException` for that name; a file that can be read gives
   * the loop's result over its lines.
   */
  function ConfigFromFile(files: FileSystem, fileName: string): (r: Result<ConfigValue, Exception>)
    ensures fileName !in files <==> r == Failure(FileNotFoundException(fileName))
    ensures fileName in files ==> r == ParseLines(files[fileName])
  {
    if fileName in files then ConfigFromLines(files[fileName])
    else Failure(FileNotFoundException(fileName))
  }

  /** A result object holds exactly the value, or the same exception, as a specification result. */
  predicate Agrees(r: Result<Config, Exception>, s: Result<ConfigValue, Exception>)
    reads if r.Success? then {r.value} else {}
  {
    match r
    case Success(cfg) => s == Success(cfg.Value())
    case Failure(e) => s == Failure(e)
  }

  /** Once the loop has stopped with an exception, later lines do not matter. */
  lemma {:induction false} FailurePersists(lines: seq<string>, k: nat, e: Exception)
    requires k <= |lines| && ParseLines(lines[..k]) == Failure(e)
    ensures ParseLines(lines) == Failure(e)
    decreases |lines| - k
  {
    if k < |lines| {
      var next := lines[..k + 1];
      assert next[..|next| - 1] == lines[..k];
      FailurePersists(lines, k + 1, e);
    } else {
      assert lines[..k] == lines;
    }
  }

  // ---------------------------------------------------------------------
  // The methods of CommandLineParser, on a Config object.
  // ---------------------------------------------------------------------

  /**
   * The body of the `foreach` in `ParseConfigFile`: applies one line to
   * `cfg` in place, or returns the exception `int.Parse` throws.
   */
  method ApplyLineTo(cfg: Config, line: string) returns (thrown: Option<Exception>)
    modifies cfg
    ensures ApplyLine(old(cfg.Value()), line) ==
      if thrown.Some? then Failure(thrown.value) else Success(cfg.Value())
    ensures thrown.Some? ==> cfg.Value() == old(cfg.Value())
  {
    var parts := Split(line, ':');
    if |parts| == 2 {
      var key := Trim(parts[0]);
      var value := Trim(parts[1]);
      if key == WidthKey {
        var n := ParseInt32(value);
        if n.Failure? {
          return Some(n.error);
        }
        cfg.imageWidth := n.value;
      } else if key == HeightKey {
        var n := ParseInt32(value);
        if n.Failure? {
          return Some(n.error);
        }
        cfg.imageHeight := n.value;
      } else if key == OutputKey {
        cfg.outputFileName := Some(value);
      }
    }
    return None;
  }

  /**
   * `ParseConfigFile(fileName)`: reads the lines of the file and updates a
   * fresh `Config` in place, line by line, as `ApplyLine` describes.
   */
  method ParseConfigFile(files: FileSystem, fileName: string) returns (r: Result<Config, Exception>)
    ensures Agrees(r, ConfigFromFile(files, fileName))
    ensures r.Success? ==> fresh(r.value)
  {
    if fileName !in files {
      return Failure(FileNotFoundException(fileName));
    }
    var cfg := new Config();
    var lines := files[fileName];
    for i := 0 to |lines|
      invariant ParseLines(lines[..i]) == Success(cfg.Value())
    {
      assert lines[..i + 1][..i] == lines[..i];
      var thrown := ApplyLineTo(cfg, lines[i]);
      if thrown.Some? {
        FailurePersists(lines, i + 1, thrown.value);
        return Failure(thrown.value);
      }
    }
    assert lines[..|lines|] == lines;
    if cfg.outputFileName == None {
      return Failure(InvalidConfigFile);
    }
    return Success(cfg);
  }

  /** `ParseCommandLine(args)`: exactly one argument, the name of the configuration file. */
  method ParseCommandLine(files: FileSystem, args: seq<string>) returns (r: Result<Config, Exception>)
    ensures |args| != 1 ==> r == Failure(InvalidNumberOfArguments)
    ensures |args| == 1 ==> Agrees(r, ConfigFromFile(files, args[0]))
  {
    if |args| != 1 {
      return Failure(InvalidNumberOfArguments);
    }
    r := ParseConfigFile(files, args[0]);
  }
}

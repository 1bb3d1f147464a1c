# rt004 configuration parser, modelled in Dafny

The ray tracer rt004 starts by reading its configuration. `CommandLineParser.ParseCommandLine`
insists on exactly one command-line argument, the name of a configuration file.
`CommandLineParser.ParseConfigFile` reads that file line by line and fills a fresh `Config`
object in place. A line counts only when splitting it on `':'` yields exactly two parts. Its
trimmed key then selects a field: `image_width`, `image_height` (both through `int.Parse`) or
`output_path`. Later lines overwrite earlier ones, and any other line is ignored. `Config.ToString`
describes the record as `imageWidth: W, imageHeight: H, outputFileName: F`.

The project has seven modules in six files:

- `Wrappers` (`wrappers.dfy`): `Option` and `Result`. `Exceptions`, in the same file, lists the exceptions that can escape the parser.
- `Strings` (`strings.dfy`): `String.Split(char)`, `Trim()`, and `Join` as the inverse of `Split`.
- `Integers` (`integers.dfy`): `int.Parse(string)` as `ParseInt32`, and `int.ToString()` as `FormatInt`.
- `ConfigRecord` (`config_record.dfy`): the `Config` class and its value `ConfigValue`. It also holds `ToString` and a reader `ParseDescription` that inverts it.
- `CommandLineParser` (`command_line_parser.dfy`): the two parser methods. The `foreach` loop is written as a Dafny `for` loop that updates a `Config` object. It is proved against `ParseLines`, a function of the lines read so far.
- `ParserProperties` (`parser_properties.dfy`): what the parser promises, stated against definitions that do not follow the loop. `Entry` gives a line's key and value. `LastValue` gives the last value of a key. `FirstError` gives the first line that throws. `Expected` is the record those describe.

Assumptions:

- The file system is a parameter: a map from file names to the lines `File.ReadAllLines` would return. A name not in the map throws `FileNotFoundException`.
- `Trim()` removes TAB, LF, VT, FF, CR and SPACE (U+0009 to U+000D and U+0020). Nothing else counts as white space.
- `int.Parse` behaves as under the invariant culture. It skips the same white space at both ends. It then needs an optional `+` or `-` and at least one ASCII digit. Any other text throws `FormatException`. A numeral outside [-2147483648, 2147483647] throws `OverflowException`.
- `int.ToString()` behaves as under the invariant culture: it writes `-` followed by the digits, with no leading zeros.
- A C# string field can be null. `outputFileName` is therefore an `Option<string>`, with `None` standing for null. This is what lets the model show that the null check at the end of `ParseConfigFile` can never fire. String interpolation shows null as empty text.

## Model

| member | source | states |
|---|---|---|
| `Strings.Split` | src/rt004/Program.cs:30 | `line.Split(':')` has one more part than the line has colons, and no part contains a colon |
| `Strings.JoinSplit` | src/rt004/Program.cs:30 | joining the parts with the separator gives back the line: splitting loses nothing |
| `Strings.SplitJoin` | src/rt004/Program.cs:30 | splitting a join of colon-free parts gives back exactly those parts |
| `Strings.SplitTwo` | src/rt004/Program.cs:30-31 | `parts.Length == 2` holds exactly when the line has one colon; the two parts are then the text before and after it |
| `Strings.Trim` | src/rt004/Program.cs:33-34 | the trimmed key or value has no white space at either end |
| `Strings.TrimDecompose` | src/rt004/Program.cs:33-34 | the original text is the trimmed text with white space added on each side |
| `Strings.TrimPadded` | src/rt004/Program.cs:33-34 | trimming white space + t + white space gives back exactly t when t has no white space at its ends |
| `Strings.TrimIdempotent` | src/rt004/Program.cs:34-37 | trimming a value that is already trimmed changes nothing (the value is trimmed before `int.Parse` trims it again) |
| `Integers.FormatNat` | src/rt004/Program.cs:15 | the decimal digits of a number are at least one digit, start with `0` only when they are exactly "0", and read back as that number |
| `Integers.FormatInt` | src/rt004/Program.cs:15 | the text of a number is non-empty, has no white space at either end, and contains no comma and no colon |
| `Integers.FormatIntCanonical` | src/rt004/Program.cs:15 | `ToString` writes `-` exactly for negative numbers, followed by the digits of the magnitude with no leading zero ("0" for zero); no `+` and no padding |
| `Integers.DecimalValueOfFormat` | src/rt004/Program.cs:15 | a number's text, signed or not, reads back as that number |
| `Integers.ParseInt32` | src/rt004/Program.cs:37 | `int.Parse` either returns a 32-bit value or throws `FormatException` or `OverflowException`, nothing else |
| `Integers.ParseFormatted` | src/rt004/Program.cs:37 | `int.Parse` reads back every 32-bit number (negative and zero included) surrounded by any white space; out-of-range numbers throw `OverflowException` |
| `Integers.ParseBlank` | src/rt004/Program.cs:37 | an empty or all-white-space value throws `FormatException` |
| `Integers.ParseForeignChar` | src/rt004/Program.cs:37 | a character other than a digit or sign inside the trimmed value throws `FormatException` |
| `ConfigRecord.Config.constructor` | src/rt004/Program.cs:8-10 | a new `Config` holds the constant record `Default`: width 0, height 0 and output file name "output.pfm" |
| `ConfigRecord.Shown` | src/rt004/Program.cs:15 | interpolation shows a file name as itself, and shows nothing exactly for null and for the empty name |
| `ConfigRecord.Describe` | src/rt004/Program.cs:15 | the description starts with the width label and ends with the file name as shown |
| `ConfigRecord.Config.ToString` | src/rt004/Program.cs:13-16 | the description starts with "imageWidth: ", and reading it back gives the width, the height and the file name (null shown as empty) |
| `ConfigRecord.ParseDescriptionDetermines` | src/rt004/Program.cs:15 | the only text read back as width W, height H and name F is exactly `imageWidth: W, imageHeight: H, outputFileName: F` with W and H as `ToString` writes them; with `Config.ToString`'s round trip this fixes the description character by character |
| `ConfigRecord.DescribeRoundTrip` | src/rt004/Program.cs:15 | `ParseDescription` inverts the description format for every width, height and file name, even names containing commas |
| `CommandLineParser.Assign` | src/rt004/Program.cs:35-46 | each known key changes only its own field; only a width or height value that `int.Parse` rejects throws, and with `int.Parse`'s exception |
| `CommandLineParser.ApplyLine` | src/rt004/Program.cs:30-47 | a line that does not have exactly one colon leaves the record unchanged |
| `CommandLineParser.ParseLines` | src/rt004/Program.cs:28-47 | the loop over the lines, from a fresh record: it never leaves the file name null, and the only exceptions it throws are `int.Parse`'s `FormatException` and `OverflowException` |
| `CommandLineParser.ConfigFromLines` | src/rt004/Program.cs:24-53 | the null check after the loop never fires: the result is the loop's result, and never the "Invalid config file" exception |
| `CommandLineParser.ConfigFromFile` | src/rt004/Program.cs:22-54 | a name the file map does not hold (a missing file) throws `FileNotFoundException` for that name, and only then; a file the map holds gives the loop's result over its lines |
| `CommandLineParser.FailurePersists` | src/rt004/Program.cs:28-47 | once a line has thrown, the later lines do not matter: the whole parse throws the same exception |
| `CommandLineParser.ApplyLineTo` | src/rt004/Program.cs:30-46 | the loop body updates the object's fields exactly as `ApplyLine` updates the record, or reports the exception `int.Parse` throws and leaves the object as it was |
| `CommandLineParser.ParseConfigFile` | src/rt004/Program.cs:22-54 | the returned object is a newly allocated `Config` holding exactly the record `ConfigFromFile` describes, or the method throws the same exception (file not found, `int.Parse` errors, the null check) |
| `CommandLineParser.ParseCommandLine` | src/rt004/Program.cs:56-64 | any argument count other than one throws "Invalid number of arguments"; with one argument the result is that of `ParseConfigFile` on it |
| `ParserProperties.ApplyLineEntry` | src/rt004/Program.cs:30-34 | splitting on ':' and trimming the two parts finds the same key and value as cutting the line at its only colon |
| `ParserProperties.PaddedLine` | src/rt004/Program.cs:33-34 | white space around the key and around the value is ignored |
| `ParserProperties.PaddedWidthLine` | src/rt004/Program.cs:33-37 | a width line with any white space around key and value sets the width to its 32-bit number |
| `ParserProperties.PaddedWidthExample` | src/rt004/Program.cs:33-37 | `"  image_width :  640 "` sets the width to 640 and changes nothing else |
| `ParserProperties.DriveLetterPathIgnored` | src/rt004/Program.cs:30-31 | `output_path: C:\out.pfm` has two colons and is ignored |
| `ParserProperties.NumericValues` | src/rt004/Program.cs:37-45 | the numeric keys accept every 32-bit number, with no range check, so negative and zero sizes pass; they reject empty and out-of-range values; `output_path` accepts the empty name |
| `ParserProperties.ApplyLineExpected` | src/rt004/Program.cs:28-47 | one more line moves the last-write record exactly as the loop step does, or throws that line's exception |
| `ParserProperties.ParseLinesCharacterized` | src/rt004/Program.cs:28-47 | the loop throws the exception of the first line that throws; otherwise each field holds the value of the last line with its key, or its default |
| `ParserProperties.FirstErrorNone` | src/rt004/Program.cs:28-47 | no exception is thrown if and only if no single line throws one |
| `ParserProperties.LastValueNone` | src/rt004/Program.cs:28-47 | a key has no last value if and only if no line with exactly one colon has that key |
| `ParserProperties.ConfigFromLinesCharacterized` | src/rt004/Program.cs:28-52 | for the lines of a file that could be read, the parse fails if and only if some line with exactly one colon has the trimmed key `image_width` or `image_height` and a value `int.Parse` rejects, and then with the first such line's exception; otherwise it gives the last-write record; it never throws "Invalid config file" |
| `ParserProperties.NoEntriesGiveDefault` | src/rt004/Program.cs:8-10 | a file in which no line has exactly one colon yields the defaults 0, 0, "output.pfm" |

## Left out

- `File.ReadAllLines` (src/rt004/Program.cs:26) is file I/O. Its only failure modelled is a missing file. A file's lines are whatever the file-system map holds. Other I/O exceptions are not modelled: an empty or invalid path, access denied, other read errors. Neither is how bytes are decoded and cut into lines.
- Integers.ParseInt32: `int.Parse` is modelled with the invariant culture only. It does not model other cultures' signs or digit sets, trailing NUL characters, or the other `NumberStyles`.
- Strings.Trim: `Trim()` is modelled with the six ASCII white-space characters only. The Unicode white space that .NET also strips (such as U+00A0 and U+2028) is kept in the model.
- CommandLineParser.ApplyLineTo: is the body of the `foreach` loop, kept as its own method so that the loop invariant of `ParseConfigFile` depends only on its two-state contract. Its contract states the object's whole new state, on the exception path too.
- `Program.Main` (src/rt004/Program.cs:69-125) is left out. Its circle-drawing loops use `Math.Sqrt`, floating point and `FloatImage`, which is not part of this model. `SavePFM` is file output and `Console.WriteLine` is logging.
- `Solids.cs`, `Camera.cs`, `BRDF.cs` and `Light.cs` are floating-point geometry and shading: normalisation, `Math.Sqrt`, `Math.Tan`, `Math.Pow` and float tolerances. A model over unbounded reals would not match their rounding, so they are left out.

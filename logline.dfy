/**
 * What both writers put in their buffers: one rendered line per `log` call, and what
 * a flush writes: the buffered lines joined by "\n" with a final "\n".
 */
module LogLine {
  import opened Options
  import Strings
  import Dates

  /** The seven severities of the host logging framework. */
  datatype Level = Trace | Debug | Info | Notice | Warning | Error | Critical

  /** The default severity symbol (`getSign(of:)`): one fixed token per level. */
  function GetSign(level: Level): (sign: string)
    ensures |sign| > 0
  {
    match level
    case Trace => "\U{1F7E3}"
    case Debug => "\U{26AA}\U{FE0F}"
    case Info => "\U{1F7E2}"
    case Notice => "\U{1F535}"
    case Warning => "\U{1F7E1}"
    case Error => "\U{1F534}"
    case Critical => "\U{26AB}\U{FE0F}"
  }

  /** Distinct levels get distinct symbols, so the level can be read back from a line. */
  lemma GetSignInjective(a: Level, b: Level)
    ensures GetSign(a) == GetSign(b) ==> a == b
  {
  }

  /** A message: a literal text, or a template with the descriptions of its arguments. */
  datatype Message = Regular(text: string) | Templated(template: string, arguments: seq<string>)

  /**
   * The rendering configuration, resolved once at construction: the severity symbol
   * mapping, the timestamp formatter and the template converter.
   */
  datatype Renderer = Renderer(
    stringifyLevel: Level -> string,
    formatTimestamp: Dates.Instant -> string,
    convertTemplate: (string, seq<string>) -> string)

  /** `convert(_:)`: a literal is used as is, a template goes through the converter. */
  function Convert(r: Renderer, m: Message): string
  {
    match m
    case Regular(text) => text
    case Templated(template, arguments) => r.convertTemplate(template, arguments)
  }

  /** The source tag used when the caller gives none. */
  const UnknownSource: string := "#unknown"

  /** One log line: `<date> [<sign>][<source>] <message> [<function> line:<line>]`. */
  function Render(r: Renderer, level: Level, message: Message, source: Option<string>,
                  functionName: string, line: nat, now: Dates.Instant): string
  {
    r.formatTimestamp(now) + " [" + r.stringifyLevel(level) + "][" + source.GetOr(UnknownSource) + "] "
    + Convert(r, message) + " [" + functionName + " line:" + Strings.NatToString(line) + "]"
  }

  /** A `log` call without a source is rendered as one whose source is "#unknown". */
  lemma RenderDefaultsSource(r: Renderer, level: Level, message: Message, functionName: string,
                             line: nat, now: Dates.Instant)
    ensures Render(r, level, message, None, functionName, line, now) ==
            Render(r, level, message, Some("#unknown"), functionName, line, now)
  {
  }

  /**
   * A rendered line is a single line whenever its variable parts are: the line number
   * is written in decimal digits, and the fixed parts hold no "\n".
   */
  lemma RenderSingleLine(r: Renderer, level: Level, message: Message, source: Option<string>,
                         functionName: string, line: nat, now: Dates.Instant)
    requires SingleLine(r.formatTimestamp(now)) && SingleLine(r.stringifyLevel(level))
    requires SingleLine(source.GetOr(UnknownSource)) && SingleLine(Convert(r, message))
    requires SingleLine(functionName)
    ensures SingleLine(Render(r, level, message, source, functionName, line, now))
  {
    var digits := Strings.NatToString(line);
    assert SingleLine(digits) by {
      forall i | 0 <= i < |digits| ensures digits[i] != '\n' {
        assert Strings.IsDigit(digits[i]);
      }
    }
    forall a: string, b: string ensures SingleLine(a + b) <==> SingleLine(a) && SingleLine(b) {
      SingleLineConcat(a, b);
    }
  }

  /** A concatenation is a single line exactly when both of its parts are. */
  lemma SingleLineConcat(a: string, b: string)
    ensures SingleLine(a + b) <==> SingleLine(a) && SingleLine(b)
  {
    if SingleLine(a) && SingleLine(b) {
      forall i | 0 <= i < |a + b| ensures (a + b)[i] != '\n' {
        if i >= |a| {
          assert (a + b)[i] == b[i - |a|];
        }
      }
    }
    if SingleLine(a + b) {
      forall i | 0 <= i < |a| ensures a[i] != '\n' {
        assert (a + b)[i] == a[i];
      }
      forall i | 0 <= i < |b| ensures b[i] != '\n' {
        assert (a + b)[|a| + i] == b[i];
      }
    }
  }

  /** What one flush appends: the buffered lines joined by "\n", then a final "\n". */
  function Batch(lines: seq<string>): string {
    Strings.Join(lines, "\n") + "\n"
  }

  /** Each line followed by its own "\n", in order. */
  function Lines(lines: seq<string>): string {
    if lines == [] then "" else lines[0] + "\n" + Lines(lines[1..])
  }

  /** A batch is its lines, each terminated by "\n", in buffer order. */
  lemma {:induction false} BatchIsLines(lines: seq<string>)
    requires lines != []
    ensures Batch(lines) == Lines(lines)
  {
    if |lines| == 1 {
      assert lines[1..] == [];
    } else {
      BatchIsLines(lines[1..]);
    }
  }

  /** Writing two runs of lines one after the other writes the runs' concatenation. */
  lemma {:induction false} LinesAppend(a: seq<string>, b: seq<string>)
    ensures Lines(a + b) == Lines(a) + Lines(b)
  {
    if a == [] {
      assert a + b == b;
    } else {
      assert (a + b)[0] == a[0];
      assert (a + b)[1..] == a[1..] + b;
      LinesAppend(a[1..], b);
    }
  }

  /** Two successive batches together are the batch of all their lines. */
  lemma BatchAppend(a: seq<string>, b: seq<string>)
    requires a != [] && b != []
    ensures Batch(a) + Batch(b) == Batch(a + b)
  {
    BatchIsLines(a);
    BatchIsLines(b);
    BatchIsLines(a + b);
    LinesAppend(a, b);
  }

  predicate SingleLine(s: string) {
    forall i | 0 <= i < |s| :: s[i] != '\n'
  }

  /** Reads a file's text back as lines: the pieces between "\n"s. */
  function SplitLines(s: string): seq<string>
    decreases |s|
  {
    if s == [] then []
    else
      var k := Strings.IndexOf(s, '\n');
      if k == |s| then [s] else [s[..k]] + SplitLines(s[k + 1..])
  }

  /** Lines that hold no "\n" are read back from what was written, in order. */
  lemma {:induction false} SplitLinesOfLines(lines: seq<string>)
    requires forall i | 0 <= i < |lines| :: SingleLine(lines[i])
    ensures SplitLines(Lines(lines)) == lines
  {
    if lines != [] {
      SplitLinesCons(lines[0], Lines(lines[1..]));
      SplitLinesOfLines(lines[1..]);
      assert lines == [lines[0]] + lines[1..];
    }
  }

  /** A flushed batch of single lines is read back as exactly those lines, in order. */
  lemma BatchReadBack(lines: seq<string>)
    requires lines != []
    requires forall i | 0 <= i < |lines| :: SingleLine(lines[i])
    ensures SplitLines(Batch(lines)) == lines
  {
    BatchIsLines(lines);
    SplitLinesOfLines(lines);
  }

  /** A line without "\n", then "\n", is read back as that line followed by the rest. */
  lemma SplitLinesCons(line: string, rest: string)
    requires SingleLine(line)
    ensures SplitLines(line + "\n" + rest) == [line] + SplitLines(rest)
  {
    var s := line + "\n" + rest;
    Strings.IndexOfAfter(line, '\n', rest);
    assert s[..|line|] == line;
    assert s[|line| + 1..] == rest;
  }
}

/** The elevation conversion of convert_elevations: the input is read line by
    line, each line yields latitude, longitude and elevation, the geoid
    correction at that point is added to the elevation, and the line is
    written back with its first two tokens unchanged. The first malformed line
    or the first point without geoid data stops the run; what was written
    before it stays written. */
module Elevations {
  import opened Wrappers
  import opened TextLines

  // ---------------------------------------------------------------------
  // Doubles
  // ---------------------------------------------------------------------

  /** A double as far as the conversion can tell them apart: a finite value,
      an infinity or not-a-number. */
  datatype Double = Finite(value: real) | Infinity(negative: bool) | NaN

  /** IEEE addition on those classes (rounding and overflow of finite sums
      are not modelled). */
  function Add(a: Double, b: Double): (r: Double)
    ensures r.NaN? <==> a.NaN? || b.NaN? || (a.Infinity? && b.Infinity? && a.negative != b.negative)
    ensures r.Infinity? <==> !r.NaN? && (a.Infinity? || b.Infinity?)
    ensures r.Infinity? ==> (a.Infinity? && r == a) || (b.Infinity? && r == b)
    ensures a.Finite? && b.Finite? ==> r == Finite(a.value + b.value)
  {
    match (a, b)
    case (NaN, _) => NaN
    case (_, NaN) => NaN
    case (Infinity(x), Infinity(y)) => if x == y then a else NaN
    case (Infinity(_), Finite(_)) => a
    case (Finite(_), Infinity(_)) => b
    case (Finite(x), Finite(y)) => Finite(x + y)
  }

  // ---------------------------------------------------------------------
  // Collaborators
  // ---------------------------------------------------------------------

  /** How numbers are read from and written to text (operator>> and
      operator<< for double). `read` is applied to text that does not start
      with white space; it yields the number at the front of the text and the
      unread rest, or None when no number can be read there. */
  datatype NumberText = NumberText(read: string -> Option<(real, string)>, write: Double -> string)

  /** The geoid grid, seen through the two GridLib calls the conversion
      makes: model_pos_to_grid_pos over the grid's view, and get_elevation at
      a grid position (NaN where the grid has no data). */
  datatype Grid<!P> = Grid(modelToGrid: (real, real, real) -> P, elevationAt: P -> Double)

  // ---------------------------------------------------------------------
  // White space and tokens
  // ---------------------------------------------------------------------

  /** White space in the C locale. */
  predicate IsSpace(c: char) {
    c == ' ' || c == '\t' || c == '\n' || c == '\U{000B}' || c == '\U{000C}' || c == '\r'
  }

  /** The index of the first character of `s` at or after `i` that is not
      white space, or |s| when there is none. */
  function SpaceEnd(s: string, i: nat): (j: nat)
    requires i <= |s|
    ensures i <= j <= |s|
    ensures forall m :: i <= m < j ==> IsSpace(s[m])
    ensures j < |s| ==> !IsSpace(s[j])
    decreases |s| - i
  {
    if i == |s| || !IsSpace(s[i]) then i else SpaceEnd(s, i + 1)
  }

  /** The text with its leading white space skipped. */
  function TrimLeft(s: string): (r: string)
    ensures |r| <= |s|
    ensures forall k :: 0 <= k < |r| ==> r[k] == s[|s| - |r| + k]
    ensures r == [] || !IsSpace(r[0])
    ensures forall k :: 0 <= k < |s| - |r| ==> IsSpace(s[k])
  {
    s[SpaceEnd(s, 0)..]
  }

  /** The index of the first white-space character of `t` at or after `i`,
      or |t| when there is none. */
  function TokenEnd(t: string, i: nat): (j: nat)
    requires i <= |t|
    ensures i <= j <= |t|
    ensures forall m :: i <= m < j ==> !IsSpace(t[m])
    ensures j < |t| ==> IsSpace(t[j])
    decreases |t| - i
  {
    if i == |t| || IsSpace(t[i]) then i else TokenEnd(t, i + 1)
  }

  /** The length of the run of non-white-space characters at the front of `t`. */
  function TokenLength(t: string): (k: nat)
    ensures k <= |t|
    ensures forall i :: 0 <= i < k ==> !IsSpace(t[i])
    ensures k < |t| ==> IsSpace(t[k])
  {
    TokenEnd(t, 0)
  }

  /** One extraction of a word (operator>> for std::string): skip white
      space, take the following non-white-space run. Yields the word (empty
      when only white space is left) and the unread rest. */
  function Word(s: string): (r: (string, string))
    ensures r.0 != [] || r.1 == []
    ensures forall k :: 0 <= k < |r.0| ==> !IsSpace(r.0[k])
    ensures r.1 == [] || IsSpace(r.1[0])
    ensures |r.0| + |r.1| <= |s|
    ensures r.0 + r.1 == TrimLeft(s)
  {
    var t := TrimLeft(s);
    var k := TokenLength(t);
    (t[..k], t[k..])
  }

  /** All white-space-delimited tokens of `s`, in order. */
  function Words(s: string): (ws: seq<string>)
    ensures forall i :: 0 <= i < |ws| ==> ws[i] != []
    decreases |s|
  {
    var t := TrimLeft(s);
    if t == [] then []
    else
      var k := TokenLength(t);
      [t[..k]] + Words(t[k..])
  }

  /** One extraction of a number (operator>> for double): skip white space,
      then read a number from the front of what follows. */
  function ReadNumber(nt: NumberText, s: string): (r: Option<(real, string)>)
    ensures (forall k :: 0 <= k < |s| ==> IsSpace(s[k])) ==> r.None?
    ensures s != [] && !IsSpace(s[0]) ==> r == nt.read(s)
  {
    var t := TrimLeft(s);
    if t == [] then None else nt.read(t)
  }

  // ---------------------------------------------------------------------
  // One line
  // ---------------------------------------------------------------------

  /** The three numbers of a coordinate line. */
  datatype Fields = Fields(lat: real, lon: real, elevation: real)

  /** Three successive number extractions from the line; whatever follows
      the third number is not looked at. */
  function ParseLine(nt: NumberText, line: string): (r: Option<Fields>)
    ensures (forall k :: 0 <= k < |line| ==> IsSpace(line[k])) ==> r.None?
    ensures r.Some? ==> ReadNumber(nt, line).Some? && r.value.lat == ReadNumber(nt, line).value.0
  {
    match ReadNumber(nt, line)
    case None => None
    case Some((lat, r1)) =>
      match ReadNumber(nt, r1)
      case None => None
      case Some((lon, r2)) =>
        match ReadNumber(nt, r2)
        case None => None
        case Some((elevation, _)) => Some(Fields(lat, lon, elevation))
  }

  /** The geoid correction at the line's point: the grid position is
      computed from (longitude, latitude, 0), longitude first. */
  function Correction<P>(grid: Grid<P>, f: Fields): Double {
    grid.elevationAt(grid.modelToGrid(f.lon, f.lat, 0.0))
  }

  /** The converted elevation: the correction added to the input elevation. */
  function Converted<P>(grid: Grid<P>, f: Fields): (r: Double)
    ensures r.NaN? <==> Correction(grid, f).NaN?
    ensures r.Infinity? <==> Correction(grid, f).Infinity?
    ensures r.Infinity? ==> r == Correction(grid, f)
    ensures r.Finite? ==> r.value == f.elevation + Correction(grid, f).value
  {
    Add(Finite(f.elevation), Correction(grid, f))
  }

  /** The first two words of the line, each followed by one space: the line
      is read again from its start and its first two words are echoed as
      they were written. */
  function EchoPrefix(line: string): string {
    var (latText, r) := Word(line);
    var (lonText, _) := Word(r);
    latText + " " + lonText + " "
  }

  /** Why a line stops the run. */
  datatype Fault = InvalidFormat | NoGeoidData

  /** The conversion of one line: the output record, or the reason the run
      stops at this line. Only not-a-number stops it: an infinite correction
      yields an infinite elevation that is written like any other. */
  function ConvertLine<P>(grid: Grid<P>, nt: NumberText, line: string): (r: Result<string, Fault>)
    ensures r == Failure(InvalidFormat) <==> ParseLine(nt, line).None?
    ensures r == Failure(NoGeoidData) <==>
              ParseLine(nt, line).Some? && Correction(grid, ParseLine(nt, line).value).NaN?
    ensures r.Success? ==>
              ParseLine(nt, line).Some? && !Correction(grid, ParseLine(nt, line).value).NaN? &&
              r.value == EchoPrefix(line) + nt.write(Converted(grid, ParseLine(nt, line).value)) + "\n"
  {
    match ParseLine(nt, line)
    case None => Failure(InvalidFormat)
    case Some(f) =>
      var elevation := Converted(grid, f);
      if elevation.NaN? then Failure(NoGeoidData)
      else Success(EchoPrefix(line) + nt.write(elevation) + "\n")
  }

  /** A line of white space only (an empty line included) is malformed. */
  lemma BlankLineIsInvalid<P>(grid: Grid<P>, nt: NumberText, line: string)
    requires forall k :: 0 <= k < |line| ==> IsSpace(line[k])
    ensures ConvertLine(grid, nt, line) == Failure(InvalidFormat)
  {
  }

  /** A reader that reads whole tokens: it takes the white-space-delimited
      token at the front of the text, and `parse` decides whether that token
      is a number. */
  function ReadToken(parse: string -> Option<real>, t: string): Option<(real, string)> {
    var k := TokenLength(t);
    match parse(t[..k])
    case None => None
    case Some(v) => Some((v, t[k..]))
  }

  ghost predicate ReadsWholeTokens(nt: NumberText, parse: string -> Option<real>) {
    forall t :: nt.read(t) == ReadToken(parse, t)
  }

  /** Extracting a word yields the first token and leaves the others. */
  lemma WordTakesFirstToken(s: string)
    ensures Words(s) == [] ==> Word(s).0 == [] && Words(Word(s).1) == []
    ensures Words(s) != [] ==> Word(s).0 == Words(s)[0] && Words(Word(s).1) == Words(s)[1..]
  {
    var t := TrimLeft(s);
    var k := TokenLength(t);
    if t != [] {
      assert Words(s) == [t[..k]] + Words(t[k..]);
    } else {
      assert TrimLeft(t[k..]) == [];
    }
  }

  /** With a reader of whole tokens, a number extraction is the parse of the
      first token, and it leaves the remaining tokens. */
  lemma ReadNumberByTokens(nt: NumberText, parse: string -> Option<real>, s: string)
    requires ReadsWholeTokens(nt, parse)
    ensures Words(s) == [] ==> ReadNumber(nt, s).None?
    ensures Words(s) != [] ==>
              (ReadNumber(nt, s).Some? <==> parse(Words(s)[0]).Some?)
    ensures ReadNumber(nt, s).Some? ==>
              ReadNumber(nt, s).value.0 == parse(Words(s)[0]).value &&
              Words(ReadNumber(nt, s).value.1) == Words(s)[1..]
  {
    WordTakesFirstToken(s);
    var t := TrimLeft(s);
    if t != [] {
      assert nt.read(t) == ReadToken(parse, t);
    }
  }

  lemma EchoTwoTokens(line: string)
    requires |Words(line)| >= 2
    ensures EchoPrefix(line) == Words(line)[0] + " " + Words(line)[1] + " "
  {
    var r1 := Word(line).1;
    WordTakesFirstToken(line);
    WordTakesFirstToken(r1);
    assert Word(r1).0 == Words(r1)[0] == Words(line)[1];
  }

  lemma SpacedEmpty(a: string, b: string)
    requires b == []
    ensures a + " " + b + " " == a + "  "
  {
    assert a + " " + b == a + " ";
  }

  lemma EchoOneToken(line: string)
    requires |Words(line)| == 1
    ensures EchoPrefix(line) == Words(line)[0] + "  "
  {
    var r1 := Word(line).1;
    WordTakesFirstToken(line);
    WordTakesFirstToken(r1);
    var w1 := Word(line).0;
    var w2 := Word(r1).0;
    assert w1 == Words(line)[0];
    assert Words(r1) == Words(line)[1..] == [];
    assert w2 == [];
    assert EchoPrefix(line) == w1 + " " + w2 + " ";
    SpacedEmpty(w1, w2);
  }

  lemma EchoNoToken(line: string)
    requires Words(line) == []
    ensures EchoPrefix(line) == "  "
  {
    WordTakesFirstToken(line);
    WordTakesFirstToken(Word(line).1);
  }

  /** The echo is the line's first two tokens, each followed by one space,
      whatever reader the numbers were read with. With one token only, the
      second word is empty; with none, both are. */
  lemma EchoIsFirstTwoWords(line: string)
    ensures |Words(line)| >= 2 ==> EchoPrefix(line) == Words(line)[0] + " " + Words(line)[1] + " "
    ensures |Words(line)| == 1 ==> EchoPrefix(line) == Words(line)[0] + "  "
    ensures Words(line) == [] ==> EchoPrefix(line) == "  "
  {
    if |Words(line)| >= 2 {
      EchoTwoTokens(line);
    } else if |Words(line)| == 1 {
      EchoOneToken(line);
    } else {
      EchoNoToken(line);
    }
  }

  /** With a reader of whole tokens, a line is well formed exactly when its
      first three tokens are numbers; tokens after the third are ignored,
      and the two tokens echoed are the very tokens read as latitude and
      longitude. */
  lemma {:induction false} ParseLineByTokens(nt: NumberText, parse: string -> Option<real>, line: string)
    requires ReadsWholeTokens(nt, parse)
    ensures ParseLine(nt, line).Some? <==>
              |Words(line)| >= 3 && parse(Words(line)[0]).Some? &&
              parse(Words(line)[1]).Some? && parse(Words(line)[2]).Some?
    ensures ParseLine(nt, line).Some? ==>
              ParseLine(nt, line).value ==
                Fields(parse(Words(line)[0]).value, parse(Words(line)[1]).value, parse(Words(line)[2]).value) &&
              EchoPrefix(line) == Words(line)[0] + " " + Words(line)[1] + " "
  {
    var ws := Words(line);
    ReadNumberByTokens(nt, parse, line);
    WordTakesFirstToken(line);
    if ReadNumber(nt, line).Some? {
      var r1 := ReadNumber(nt, line).value.1;
      assert Words(r1) == ws[1..];
      ReadNumberByTokens(nt, parse, r1);
      WordTakesFirstToken(Word(line).1);
      if ReadNumber(nt, r1).Some? {
        var r2 := ReadNumber(nt, r1).value.1;
        assert Words(r2) == ws[2..];
        ReadNumberByTokens(nt, parse, r2);
      }
    }
  }

  // ---------------------------------------------------------------------
  // Line numbers in messages
  // ---------------------------------------------------------------------

  function DigitChar(d: nat): (c: char)
    requires d < 10
    ensures '0' <= c <= '9'
  {
    ('0' as int + d) as char
  }

  predicate IsDigits(s: string) {
    forall k :: 0 <= k < |s| ==> '0' <= s[k] <= '9'
  }

  /** The decimal text of `n` (std::to_string). */
  function NatToDecimal(n: nat): (s: string)
    ensures |s| >= 1 && IsDigits(s)
    ensures s[0] == '0' ==> n == 0 && |s| == 1
    decreases n
  {
    if n < 10 then [DigitChar(n)] else NatToDecimal(n / 10) + [DigitChar(n % 10)]
  }

  /** The number a string of decimal digits stands for. */
  function DecimalValue(s: string): nat
    requires IsDigits(s)
  {
    if s == [] then 0 else DecimalValue(s[..|s| - 1]) * 10 + (s[|s| - 1] as int - '0' as int)
  }

  /** The decimal text of a line number reads back as that number. */
  lemma {:induction false} DecimalRoundTrip(n: nat)
    ensures DecimalValue(NatToDecimal(n)) == n
    decreases n
  {
    var s := NatToDecimal(n);
    if n >= 10 {
      DecimalRoundTrip(n / 10);
      assert s[..|s| - 1] == NatToDecimal(n / 10);
    }
  }

  /** A run-stopping error: its reason and the 1-based number of its line. */
  datatype Error = Error(fault: Fault, line: nat)

  const InvalidFormatText: string := "Invalid input format on line "
  const NoGeoidDataText: string := "No geoid data for point on line "

  /** The diagnostic of an error; it names the reason and cites the line. */
  function Message(e: Error): (m: string)
    ensures e.fault == InvalidFormat ==>
              |InvalidFormatText| < |m| && m[..|InvalidFormatText|] == InvalidFormatText &&
              IsDigits(m[|InvalidFormatText|..]) && DecimalValue(m[|InvalidFormatText|..]) == e.line &&
              (m[|InvalidFormatText|] == '0' ==> |m| == |InvalidFormatText| + 1)
    ensures e.fault == NoGeoidData ==>
              |NoGeoidDataText| < |m| - 1 && m[..|NoGeoidDataText|] == NoGeoidDataText && m[|m| - 1] == '.' &&
              IsDigits(m[|NoGeoidDataText|..|m| - 1]) && DecimalValue(m[|NoGeoidDataText|..|m| - 1]) == e.line &&
              (m[|NoGeoidDataText|] == '0' ==> |m| == |NoGeoidDataText| + 2)
  {
    DecimalRoundTrip(e.line);
    var number := NatToDecimal(e.line);
    match e.fault
    case InvalidFormat =>
      var m := InvalidFormatText + number;
      assert m[|InvalidFormatText|..] == number;
      assert m[|InvalidFormatText|] == number[0];
      m
    case NoGeoidData =>
      var m := NoGeoidDataText + number + ".";
      assert m[|NoGeoidDataText|..|m| - 1] == number;
      assert m[|NoGeoidDataText|] == number[0];
      m
  }

  // ---------------------------------------------------------------------
  // The run
  // ---------------------------------------------------------------------

  /** The conversion of one line, as the run sees it. */
  type LineStep = string -> Result<string, Fault>

  /** The per-line conversion against a grid and a number format. */
  function StepOf<P>(grid: Grid<P>, nt: NumberText): LineStep {
    line => ConvertLine(grid, nt, line)
  }

  /** What a run produces: the output records written, in order, and the
      error that stopped it, if any. */
  datatype Conversion = Conversion(output: seq<string>, error: Option<Error>)

  /** `out` written before what `c` writes. */
  function Prepend(out: seq<string>, c: Conversion): Conversion {
    Conversion(out + c.output, c.error)
  }

  /** Writing nothing first changes nothing. */
  lemma PrependNothing(c: Conversion)
    ensures Prepend([], c) == c
  {
    assert [] + c.output == c.output;
  }

  /** The run over `lines`, the first of which has number `first`: one
      record per line until a line fails, whose number the error cites. */
  function Convert(step: LineStep, lines: seq<string>, first: nat): (r: Conversion)
    ensures r.error.None? ==> |r.output| == |lines|
    ensures r.error.Some? ==> |r.output| < |lines| && r.error.value.line == first + |r.output|
    decreases |lines|
  {
    if lines == [] then Conversion([], None)
    else
      match step(lines[0])
      case Failure(fault) => Conversion([], Some(Error(fault, first)))
      case Success(record) => Prepend([record], Convert(step, lines[1..], first + 1))
  }

  /** The run over an input text, numbering its lines from 1. */
  function ConvertText<P>(grid: Grid<P>, nt: NumberText, input: string): (c: Conversion)
    ensures input == [] ==> c == Conversion([], None)
    ensures c.error.None? ==> |c.output| == |Lines(input)|
    ensures c.error.Some? ==> c.error.value.line == |c.output| + 1 && c.error.value.line <= |Lines(input)|
  {
    Convert(StepOf(grid, nt), Lines(input), 1)
  }

  /** Fail fast: the k-th record written is the conversion of the k-th line;
      the run stops exactly at the first line that does not convert, for
      that line's reason; with no error, every line converted. */
  lemma {:induction false} ConvertFailFast(step: LineStep, lines: seq<string>, first: nat)
    ensures var r := Convert(step, lines, first);
            forall k :: 0 <= k < |r.output| ==> step(lines[k]) == Success(r.output[k])
    ensures var r := Convert(step, lines, first);
            r.error.Some? ==> step(lines[|r.output|]) == Failure(r.error.value.fault)
    ensures Convert(step, lines, first).error.None? <==>
              forall k :: 0 <= k < |lines| ==> step(lines[k]).Success?
    decreases |lines|
  {
    if lines != [] && step(lines[0]).Success? {
      var r := Convert(step, lines, first);
      var tail := Convert(step, lines[1..], first + 1);
      ConvertFailFast(step, lines[1..], first + 1);
      assert r.output == [step(lines[0]).value] + tail.output;
      forall k | 0 <= k < |r.output|
        ensures step(lines[k]) == Success(r.output[k])
      {
        if k > 0 {
          assert lines[k] == lines[1..][k - 1];
        }
      }
      if tail.error.Some? {
        assert lines[|r.output|] == lines[1..][|tail.output|];
      }
      if forall k :: 0 <= k < |lines| ==> step(lines[k]).Success? {
        forall k | 0 <= k < |lines[1..]|
          ensures step(lines[1..][k]).Success?
        {
          assert lines[1..][k] == lines[k + 1];
        }
      }
    }
  }

  /** Output is streamed: a run over `a + b` writes what the run over `a`
      writes; if that run stopped, nothing of `b` is looked at, otherwise
      the run continues over `b` with the line numbers following on. */
  lemma {:induction false} ConvertAppend(step: LineStep, a: seq<string>, b: seq<string>, first: nat)
    ensures Convert(step, a + b, first) ==
              if Convert(step, a, first).error.Some? then Convert(step, a, first)
              else Prepend(Convert(step, a, first).output, Convert(step, b, first + |a|))
    decreases |a|
  {
    if a == [] {
      assert a + b == b;
    } else {
      assert (a + b)[0] == a[0];
      assert (a + b)[1..] == a[1..] + b;
      ConvertAppend(step, a[1..], b, first + 1);
    }
  }

  /** N lines that convert followed by one that does not: exactly the N
      records are written and the error cites line N + 1 (counted from
      `first`), whatever follows. */
  lemma ValidLinesThenFailure(step: LineStep, good: seq<string>, bad: string, rest: seq<string>, first: nat)
    requires forall k :: 0 <= k < |good| ==> step(good[k]).Success?
    requires step(bad).Failure?
    ensures var r := Convert(step, good + [bad] + rest, first);
            |r.output| == |good| &&
            (forall k :: 0 <= k < |good| ==> step(good[k]) == Success(r.output[k])) &&
            r.error == Some(Error(step(bad).error, first + |good|))
  {
    ConvertFailFast(step, good, first);
    ConvertAppend(step, good, [bad] + rest, first);
    assert good + [bad] + rest == good + ([bad] + rest);
    assert ([bad] + rest)[0] == bad;
  }

  /** The run over a non-empty list of lines, seen from its first line: a
      failure stops the run there, a success writes one record and the run
      goes on with the other lines and the next line number. */
  lemma ConvertHead(step: LineStep, out: seq<string>, lines: seq<string>, n: nat)
    requires lines != []
    ensures step(lines[0]).Failure? ==>
              Prepend(out, Convert(step, lines, n)) == Conversion(out, Some(Error(step(lines[0]).error, n)))
    ensures step(lines[0]).Success? ==>
              Prepend(out, Convert(step, lines, n)) ==
                Prepend(out + [step(lines[0]).value], Convert(step, lines[1..], n + 1))
  {
    if step(lines[0]).Failure? {
      assert out + [] == out;
    } else {
      var tail := Convert(step, lines[1..], n + 1);
      assert out + ([step(lines[0]).value] + tail.output) == (out + [step(lines[0]).value]) + tail.output;
    }
  }

  /** One turn of the conversion loop: after `out` has been written, the
      run over a text converts its first line; a failure stops the run at
      that line, a record is written and the run goes on with the rest of
      the text and the next line number. */
  lemma ConvertFirstLine(step: LineStep, out: seq<string>, t: string, n: nat)
    requires t != []
    ensures step(FirstLine(t)).Failure? ==>
              Prepend(out, Convert(step, Lines(t), n)) == Conversion(out, Some(Error(step(FirstLine(t)).error, n)))
    ensures step(FirstLine(t)).Success? ==>
              Prepend(out, Convert(step, Lines(t), n)) ==
                Prepend(out + [step(FirstLine(t)).value], Convert(step, Lines(AfterFirstLine(t)), n + 1))
  {
    LinesHeadTail(t);
    ConvertHead(step, out, Lines(t), n);
  }

  /** Skipping white space stops at the first character that is not. */
  lemma TrimLeftAfterSpaces(spaces: string, s: string)
    requires forall m :: 0 <= m < |spaces| ==> IsSpace(spaces[m])
    requires s == [] || !IsSpace(s[0])
    ensures TrimLeft(spaces + s) == s
  {
    var t := spaces + s;
    assert forall m :: 0 <= m < |spaces| ==> IsSpace(t[m]);
    assert s != [] ==> t[|spaces|] == s[0] && !IsSpace(t[|spaces|]);
    assert SpaceEnd(t, 0) == |spaces|;
    assert t[|spaces|..] == s;
  }

  /** A word followed by white space is extracted whole. */
  lemma WordBeforeSpace(w: string, rest: string)
    requires w != [] && forall m :: 0 <= m < |w| ==> !IsSpace(w[m])
    requires rest != [] && IsSpace(rest[0])
    ensures Word(w + rest) == (w, rest)
  {
    var t := w + rest;
    TrimLeftAfterSpaces([], t);
    assert [] + t == t;
    assert TrimLeft(t) == t;
    assert forall m :: 0 <= m < |w| ==> !IsSpace(t[m]);
    assert t[|w|] == rest[0] && IsSpace(t[|w|]);
    assert TokenLength(t) == |w|;
    assert t[..|w|] == w && t[|w|..] == rest;
  }

  /** A text holding one line converts as that line, numbered 1. */
  lemma SingleLineText<P>(grid: Grid<P>, nt: NumberText, line: string)
    requires NoNewline(line)
    ensures ConvertText(grid, nt, line + "\n") ==
              match ConvertLine(grid, nt, line)
              case Failure(fault) => Conversion([], Some(Error(fault, 1)))
              case Success(record) => Conversion([record], None)
  {
    var t := line + "\n";
    LineEndAtNewline(line, "", 0);
    assert t == line + "\n" + "";
    assert t[..|line|] == line;
    LinesHeadTail(t);
    assert AfterFirstLine(t) == [];
    assert Lines(t) == [line];
  }

  /** The echo of a line whose first two words are each followed by white
      space: the two words, each followed by one space. */
  lemma EchoTwoWords(a: string, b: string, rest: string)
    requires a != [] && forall m :: 0 <= m < |a| ==> !IsSpace(a[m])
    requires b != [] && forall m :: 0 <= m < |b| ==> !IsSpace(b[m])
    requires rest != [] && IsSpace(rest[0])
    ensures EchoPrefix(a + (" " + (b + rest))) == a + " " + b + " "
  {
    WordBeforeSpace(a, " " + (b + rest));
    TrimLeftAfterSpaces(" ", b + rest);
    WordBeforeSpace(b, rest);
  }

  lemma WorkedEcho()
    ensures EchoPrefix("59.9 10.7 100.0") == "59.9 10.7 "
  {
    assert "59.9 10.7 100.0" == "59.9" + (" " + ("10.7" + " 100.0"));
    assert "59.9 10.7 " == "59.9" + " " + "10.7" + " ";
    EchoTwoWords("59.9", "10.7", " 100.0");
  }

  /** Extraction after white space reads from the first character that is not. */
  lemma ReadNumberAfterSpaces(nt: NumberText, spaces: string, s: string)
    requires forall m :: 0 <= m < |spaces| ==> IsSpace(spaces[m])
    requires s != [] && !IsSpace(s[0])
    ensures ReadNumber(nt, spaces + s) == nt.read(s)
  {
    TrimLeftAfterSpaces(spaces, s);
  }

  /** Three numbers separated by single spaces are read in turn. */
  lemma ParseThreeNumbers(nt: NumberText, a: string, b: string, c: string, x: real, y: real, z: real)
    requires a != [] && !IsSpace(a[0]) && b != [] && !IsSpace(b[0]) && c != [] && !IsSpace(c[0])
    requires nt.read(a + (" " + (b + (" " + c)))) == Some((x, " " + (b + (" " + c))))
    requires nt.read(b + (" " + c)) == Some((y, " " + c))
    requires nt.read(c) == Some((z, ""))
    ensures ParseLine(nt, a + (" " + (b + (" " + c)))) == Some(Fields(x, y, z))
  {
    var line := a + (" " + (b + (" " + c)));
    ReadNumberAfterSpaces(nt, [], line);
    assert [] + line == line;
    ReadNumberAfterSpaces(nt, " ", b + (" " + c));
    ReadNumberAfterSpaces(nt, " ", c);
  }

  lemma WorkedParse(nt: NumberText)
    requires nt.read("59.9 10.7 100.0") == Some((59.9, " 10.7 100.0"))
    requires nt.read("10.7 100.0") == Some((10.7, " 100.0"))
    requires nt.read("100.0") == Some((100.0, ""))
    ensures ParseLine(nt, "59.9 10.7 100.0") == Some(Fields(59.9, 10.7, 100.0))
  {
    assert "59.9 10.7 100.0" == "59.9" + (" " + ("10.7" + (" " + "100.0")));
    assert " 10.7 100.0" == " " + ("10.7" + (" " + "100.0"));
    assert "10.7 100.0" == "10.7" + (" " + "100.0");
    assert " 100.0" == " " + "100.0";
    ParseThreeNumbers(nt, "59.9", "10.7", "100.0", 59.9, 10.7, 100.0);
  }

  lemma WorkedLine<P>(grid: Grid<P>, nt: NumberText)
    requires nt.read("59.9 10.7 100.0") == Some((59.9, " 10.7 100.0"))
    requires nt.read("10.7 100.0") == Some((10.7, " 100.0"))
    requires nt.read("100.0") == Some((100.0, ""))
    requires grid.elevationAt(grid.modelToGrid(10.7, 59.9, 0.0)) == Finite(41.3)
    ensures ConvertLine(grid, nt, "59.9 10.7 100.0") == Success("59.9 10.7 " + nt.write(Finite(141.3)) + "\n")
  {
    var f := Fields(59.9, 10.7, 100.0);
    WorkedParse(nt);
    WorkedEcho();
    assert Correction(grid, f) == Finite(41.3);
    assert Converted(grid, f) == Finite(141.3);
  }

  /** A worked case: the line "59.9 10.7 100.0" where the grid holds a
      correction of 41.3 is written back as "59.9 10.7 " followed by the
      text of 141.3. */
  lemma WorkedExample<P>(grid: Grid<P>, nt: NumberText)
    requires nt.read("59.9 10.7 100.0") == Some((59.9, " 10.7 100.0"))
    requires nt.read("10.7 100.0") == Some((10.7, " 100.0"))
    requires nt.read("100.0") == Some((100.0, ""))
    requires grid.elevationAt(grid.modelToGrid(10.7, 59.9, 0.0)) == Finite(41.3)
    ensures ConvertText(grid, nt, "59.9 10.7 100.0\n") ==
              Conversion(["59.9 10.7 " + nt.write(Finite(141.3)) + "\n"], None)
  {
    var line := "59.9 10.7 100.0";
    assert line + "\n" == "59.9 10.7 100.0\n";
    assert forall i :: 0 <= i < |line| ==> line[i] != '\n';
    SingleLineText(grid, nt, line);
    WorkedLine(grid, nt);
  }

  /** The conversion loop: reads the input one line at a time, numbering
      lines from 1, and appends one record per line until the input ends or
      a line stops the run. */
  method ConvertElevations<P>(grid: Grid<P>, nt: NumberText, input: string)
    returns (output: seq<string>, error: Option<Error>)
    ensures Conversion(output, error) == ConvertText(grid, nt, input)
  {
    ghost var step := StepOf(grid, nt);
    ghost var whole := Convert(step, Lines(input), 1);
    assert whole == ConvertText(grid, nt, input);
    var lineNo: nat := 0;
    var rest := input;
    output := [];
    assert whole == Convert(step, Lines(rest), lineNo + 1);
    PrependNothing(whole);
    while rest != []
      invariant whole == Prepend(output, Convert(step, Lines(rest), lineNo + 1))
      decreases |rest|
    {
      var line := FirstLine(rest);
      ConvertFirstLine(step, output, rest, lineNo + 1);
      lineNo := lineNo + 1;
      var r := ConvertLine(grid, nt, line);
      assert step(line) == r;
      if r.Failure? {
        return output, Some(Error(r.error, lineNo));
      }
      output := output + [r.value];
      rest := AfterFirstLine(rest);
    }
    error := None;
  }
}

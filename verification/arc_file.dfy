/** Reading arcs from a text file (arcs_app.py, App.parse_line and the line
    loop of App.load_from_file).

    A line describes one arc as `x y r start end [color]`, separated by commas
    when the line holds a comma and by whitespace otherwise. Python's
    `float()` is a parameter `toReal`, a partial map from text to numbers;
    which colour names the canvas accepts is a parameter `knownColor`. */
module ArcFile {
  import opened Wrappers
  import Text
  import Lists
  import Arcs

  /** Why a line was refused. `NotANumber(i)` names the first of the five
      numeric fields (0 = x, ..., 4 = end angle) that `float()` rejects. */
  datatype ParseError =
    | TooFewFields
    | NotANumber(field: nat)
    | NonPositiveRadius
    | AngleOutOfRange

  /** The tuple `(x, y, r, a1, a2, color)` that parse_line returns. */
  datatype Record = Record(x: real, y: real, r: real, a1: real, a2: real, color: string)

  /** What parse_line does with one line: returns None, returns a record, or
      raises. */
  datatype LineResult = Skip | Row(record: Record) | Bad(error: ParseError)

  /** An empty line, or one whose first non-blank character is `#`. */
  predicate IsBlank(line: string) {
    Text.Strip(line) == [] || Text.Strip(line)[0] == '#'
  }

  /** `line.split(",") if "," in line else line.split()` */
  function Fields(line: string): seq<string> {
    if ',' in line then Text.Split(line, ',') else Text.Words(line)
  }

  predicate InRange(angle: real) {
    0.0 <= angle <= 360.0
  }

  /** The five numeric fields all convert. */
  predicate AllNumbers(parts: seq<string>, toReal: string -> Option<real>) {
    |parts| >= 5 && forall i :: 0 <= i < 5 ==> toReal(parts[i]).Some?
  }

  /** The value of numeric field i. */
  function Number(parts: seq<string>, i: nat, toReal: string -> Option<real>): real
    requires AllNumbers(parts, toReal) && i < 5
  {
    toReal(parts[i]).value
  }

  /** A line with these fields is accepted: five numbers, a positive radius
      and both angles in [0, 360]. */
  predicate Acceptable(parts: seq<string>, toReal: string -> Option<real>) {
    AllNumbers(parts, toReal)
    && Number(parts, 2, toReal) > 0.0
    && InRange(Number(parts, 3, toReal))
    && InRange(Number(parts, 4, toReal))
  }

  /** The record an acceptable line stands for: the five numbers as read,
      and the sixth field as colour, or black when there is none. */
  predicate Describes(rec: Record, parts: seq<string>, toReal: string -> Option<real>)
    requires AllNumbers(parts, toReal)
  {
    rec.x == Number(parts, 0, toReal) && rec.y == Number(parts, 1, toReal)
    && rec.r == Number(parts, 2, toReal)
    && rec.a1 == Number(parts, 3, toReal) && rec.a2 == Number(parts, 4, toReal)
    && rec.color == (if |parts| >= 6 then parts[5] else "black")
  }

  /** The first numeric field at or after i that does not convert, or 5. */
  function FirstNonNumber(parts: seq<string>, i: nat, toReal: string -> Option<real>): (k: nat)
    requires |parts| >= 5 && i <= 5
    ensures i <= k <= 5
    ensures forall j :: i <= j < k ==> toReal(parts[j]).Some?
    ensures k < 5 ==> toReal(parts[k]).None?
    decreases 5 - i
  {
    if i == 5 || toReal(parts[i]).None? then i
    else FirstNonNumber(parts, i + 1, toReal)
  }

  /** The checks of parse_line on the fields of a line with at least five of
      them, in the order the source makes them: convert the five numbers,
      then test the radius, then the two angles. */
  function CheckFields(parts: seq<string>, toReal: string -> Option<real>): (res: LineResult)
    requires |parts| >= 5
    ensures !res.Skip? && res != Bad(TooFewFields)
    ensures res.Row? <==> Acceptable(parts, toReal)
    ensures res.Row? ==> Describes(res.record, parts, toReal)
    ensures res.Bad? && res.error.NotANumber? ==>
              res.error.field < 5 && toReal(parts[res.error.field]).None?
              && forall j :: 0 <= j < res.error.field ==> toReal(parts[j]).Some?
    ensures res == Bad(NonPositiveRadius) ==>
              AllNumbers(parts, toReal) && Number(parts, 2, toReal) <= 0.0
    ensures res == Bad(AngleOutOfRange) ==>
              AllNumbers(parts, toReal) && Number(parts, 2, toReal) > 0.0
              && !(InRange(Number(parts, 3, toReal)) && InRange(Number(parts, 4, toReal)))
  {
    if FirstNonNumber(parts, 0, toReal) < 5 then Bad(NotANumber(FirstNonNumber(parts, 0, toReal)))
    else if toReal(parts[2]).value <= 0.0 then Bad(NonPositiveRadius)
    else if !InRange(toReal(parts[3]).value) || !InRange(toReal(parts[4]).value) then Bad(AngleOutOfRange)
    else Row(Record(toReal(parts[0]).value, toReal(parts[1]).value, toReal(parts[2]).value,
                    toReal(parts[3]).value, toReal(parts[4]).value,
                    if |parts| >= 6 then parts[5] else "black"))
  }

  /** `parse_line(line)`: blank lines and comments are skipped, not refused;
      a line with fewer than five fields is refused; otherwise the fields are
      checked. A line is accepted exactly when it is not blank and its fields
      are acceptable, and then the record echoes its fields. */
  function ParseLine(line: string, toReal: string -> Option<real>): (res: LineResult)
    ensures res.Skip? <==> IsBlank(line)
    ensures res == Bad(TooFewFields) <==> !IsBlank(line) && |Fields(Text.Strip(line))| < 5
    ensures res.Row? <==> !IsBlank(line) && Acceptable(Fields(Text.Strip(line)), toReal)
    ensures res.Row? ==> Describes(res.record, Fields(Text.Strip(line)), toReal)
    ensures !IsBlank(line) && |Fields(Text.Strip(line))| >= 5 ==>
              res == CheckFields(Fields(Text.Strip(line)), toReal)
  {
    if IsBlank(line) then Skip
    else if |Fields(Text.Strip(line))| < 5 then Bad(TooFewFields)
    else CheckFields(Fields(Text.Strip(line)), toReal)
  }

  // ---------------------------------------------------------------------
  // Writing a line that parse_line reads back
  // ---------------------------------------------------------------------

  lemma {:induction false} JoinSix(p: seq<string>, sep: char)
    requires |p| == 6
    ensures Text.Join(p, sep)
         == p[0] + [sep] + p[1] + [sep] + p[2] + [sep] + p[3] + [sep] + p[4] + [sep] + p[5]
  {
    assert Text.Join(p[5..], sep) == p[5];
    assert Text.Join(p[4..], sep) == p[4] + [sep] + p[5] by {
      assert p[4..][1..] == p[5..];
    }
    assert Text.Join(p[3..], sep) == p[3] + [sep] + Text.Join(p[4..], sep) by {
      assert p[3..][1..] == p[4..];
    }
    assert Text.Join(p[2..], sep) == p[2] + [sep] + Text.Join(p[3..], sep) by {
      assert p[2..][1..] == p[3..];
    }
    assert Text.Join(p[1..], sep) == p[1] + [sep] + Text.Join(p[2..], sep) by {
      assert p[1..][1..] == p[2..];
    }
  }

  /** The comma-separated line for a record, given the texts of its five
      numbers. */
  function FormatLine(numbers: seq<string>, color: string): string
    requires |numbers| == 5
  {
    Text.Join(numbers + [color], ',')
  }

  /** The ends of the joined line are the ends of its first and last
      pieces, and it holds a comma after the first piece. */
  lemma {:induction false} FormatLineEnds(numbers: seq<string>, color: string)
    requires |numbers| == 5 && numbers[0] != []
    ensures FormatLine(numbers, color) != []
    ensures FormatLine(numbers, color)[0] == numbers[0][0]
    ensures FormatLine(numbers, color)[|FormatLine(numbers, color)| - 1]
         == if color == [] then ',' else color[|color| - 1]
    ensures ',' in FormatLine(numbers, color)
  {
    var p := numbers + [color];
    JoinSix(p, ',');
    assert p[0] == numbers[0] && p[5] == color;
    var line := FormatLine(numbers, color);
    assert line[|numbers[0]|] == ',';
  }

  /** A line written from comma-free pieces, starting and ending with
      something other than whitespace, is not blank and splits back into its
      pieces. */
  lemma {:induction false} FormatLineFields(numbers: seq<string>, color: string)
    requires |numbers| == 5
    requires forall i :: 0 <= i < 5 ==> numbers[i] != [] && ',' !in numbers[i]
    requires !Text.IsSpace(numbers[0][0]) && numbers[0][0] != '#'
    requires ',' !in color
    requires color != [] ==> !Text.IsSpace(color[|color| - 1])
    ensures !IsBlank(FormatLine(numbers, color))
    ensures Fields(Text.Strip(FormatLine(numbers, color))) == numbers + [color]
  {
    var p := numbers + [color];
    var line := FormatLine(numbers, color);
    FormatLineEnds(numbers, color);
    Text.StripUnchanged(line);
    forall i | 0 <= i < |p|
      ensures ',' !in p[i]
    {
      if i < 5 {
        assert p[i] == numbers[i];
      }
    }
    Text.SplitJoin(p, ',');
  }

  /** Five number texts that float() reads as the values of a valid record,
      followed by its colour, are acceptable fields that describe it. */
  lemma {:induction false} PiecesDescribe(rec: Record, numbers: seq<string>,
                                          toReal: string -> Option<real>)
    requires |numbers| == 5
    requires toReal(numbers[0]) == Some(rec.x) && toReal(numbers[1]) == Some(rec.y)
    requires toReal(numbers[2]) == Some(rec.r)
    requires toReal(numbers[3]) == Some(rec.a1) && toReal(numbers[4]) == Some(rec.a2)
    requires rec.r > 0.0 && InRange(rec.a1) && InRange(rec.a2)
    ensures Acceptable(numbers + [rec.color], toReal)
    ensures Describes(rec, numbers + [rec.color], toReal)
  {
    var p := numbers + [rec.color];
    assert p[0] == numbers[0] && p[1] == numbers[1] && p[2] == numbers[2];
    assert p[3] == numbers[3] && p[4] == numbers[4] && p[5] == rec.color;
  }

  /** Writing a valid record as `x,y,r,a1,a2,color`, with number texts that
      float() reads back, yields a line parse_line returns the record for. */
  lemma {:induction false} FormatThenParse(rec: Record, numbers: seq<string>,
                                           toReal: string -> Option<real>)
    requires |numbers| == 5
    requires forall i :: 0 <= i < 5 ==> numbers[i] != [] && ',' !in numbers[i]
    requires !Text.IsSpace(numbers[0][0]) && numbers[0][0] != '#'
    requires ',' !in rec.color
    requires rec.color != [] ==> !Text.IsSpace(rec.color[|rec.color| - 1])
    requires toReal(numbers[0]) == Some(rec.x) && toReal(numbers[1]) == Some(rec.y)
    requires toReal(numbers[2]) == Some(rec.r)
    requires toReal(numbers[3]) == Some(rec.a1) && toReal(numbers[4]) == Some(rec.a2)
    requires rec.r > 0.0 && InRange(rec.a1) && InRange(rec.a2)
    ensures ParseLine(FormatLine(numbers, rec.color), toReal) == Row(rec)
  {
    FormatLineFields(numbers, rec.color);
    PiecesDescribe(rec, numbers, toReal);
    ParseAcceptable(FormatLine(numbers, rec.color), numbers + [rec.color], rec, toReal);
  }

  /** The whitespace-separated line for a record: `x y r a1 a2 color`. */
  function SpacedLine(numbers: seq<string>, color: string): string
    requires |numbers| == 5
  {
    Text.Join(numbers + [color], ' ')
  }

  /** The ends of a six-piece join with non-empty outer pieces are the ends
      of those pieces. */
  lemma {:induction false} JoinSixEnds(p: seq<string>, sep: char)
    requires |p| == 6 && p[0] != [] && p[5] != []
    ensures Text.Join(p, sep) != []
    ensures Text.Join(p, sep)[0] == p[0][0]
    ensures Text.Join(p, sep)[|Text.Join(p, sep)| - 1] == p[5][|p[5]| - 1]
  {
    JoinSix(p, sep);
  }

  /** A line written from whitespace-free, comma-free, non-empty pieces is not
      blank, holds no comma, and so is split on whitespace back into its
      pieces. */
  lemma {:induction false} SpacedLineFields(numbers: seq<string>, color: string)
    requires |numbers| == 5
    requires forall i :: 0 <= i < 5 ==>
               numbers[i] != [] && Text.NoSpace(numbers[i]) && ',' !in numbers[i]
    requires numbers[0][0] != '#'
    requires color != [] && Text.NoSpace(color) && ',' !in color
    ensures !IsBlank(SpacedLine(numbers, color))
    ensures Fields(Text.Strip(SpacedLine(numbers, color))) == numbers + [color]
  {
    var p := numbers + [color];
    var line := SpacedLine(numbers, color);
    forall i | 0 <= i < |p|
      ensures p[i] != [] && Text.NoSpace(p[i]) && ',' !in p[i]
    {
      if i < 5 {
        assert p[i] == numbers[i];
      }
    }
    JoinSixEnds(p, ' ');
    assert !Text.IsSpace(numbers[0][0]);
    assert !Text.IsSpace(color[|color| - 1]);
    Text.StripUnchanged(line);
    Text.JoinAvoids(p, ' ', ',');
    Text.WordsJoin(p);
  }

  /** Writing a valid record as `x y r a1 a2 color`, with number texts that
      float() reads back and a colour name without whitespace or commas,
      yields a line parse_line returns the record for. */
  lemma {:induction false} SpacedThenParse(rec: Record, numbers: seq<string>,
                                           toReal: string -> Option<real>)
    requires |numbers| == 5
    requires forall i :: 0 <= i < 5 ==>
               numbers[i] != [] && Text.NoSpace(numbers[i]) && ',' !in numbers[i]
    requires numbers[0][0] != '#'
    requires rec.color != [] && Text.NoSpace(rec.color) && ',' !in rec.color
    requires toReal(numbers[0]) == Some(rec.x) && toReal(numbers[1]) == Some(rec.y)
    requires toReal(numbers[2]) == Some(rec.r)
    requires toReal(numbers[3]) == Some(rec.a1) && toReal(numbers[4]) == Some(rec.a2)
    requires rec.r > 0.0 && InRange(rec.a1) && InRange(rec.a2)
    ensures ParseLine(SpacedLine(numbers, rec.color), toReal) == Row(rec)
  {
    SpacedLineFields(numbers, rec.color);
    PiecesDescribe(rec, numbers, toReal);
    ParseAcceptable(SpacedLine(numbers, rec.color), numbers + [rec.color], rec, toReal);
  }

  /** A line that is not blank, whose fields are acceptable and describe a
      record, parses to that record. */
  lemma {:induction false} ParseAcceptable(line: string, p: seq<string>, rec: Record,
                                           toReal: string -> Option<real>)
    requires !IsBlank(line) && Fields(Text.Strip(line)) == p
    requires Acceptable(p, toReal) && Describes(rec, p, toReal)
    ensures ParseLine(line, toReal) == Row(rec)
  {
  }

  // ---------------------------------------------------------------------
  // load_from_file: the line loop
  // ---------------------------------------------------------------------

  /** A refused line: parse_line raised, or drawing the arc failed because
      the canvas does not know the colour. */
  datatype RowError = Parse(error: ParseError) | UnknownColor(color: string)

  /** The message shown for a refused line, with its 1-based number. */
  datatype Report = Report(lineNo: nat, error: RowError)

  /** What the loop body does with one line. */
  datatype Outcome = Skipped | Kept(arc: Arcs.Arc) | Failed(error: RowError)

  /** The loop body: skip, build and keep the arc, or report the failure. */
  function LineOutcome(line: string, toReal: string -> Option<real>,
                       knownColor: string -> bool): (o: Outcome)
    ensures o.Skipped? <==> IsBlank(line)
    ensures o.Kept? <==> ParseLine(line, toReal).Row? && knownColor(ParseLine(line, toReal).record.color)
    ensures o.Kept? ==> (o.arc.cx == ParseLine(line, toReal).record.x
                     && o.arc.cy == ParseLine(line, toReal).record.y
                     && o.arc.radius == ParseLine(line, toReal).record.r
                     && o.arc.startAngle == ParseLine(line, toReal).record.a1
                     && o.arc.endAngle == ParseLine(line, toReal).record.a2
                     && o.arc.color == ParseLine(line, toReal).record.color
                     && 0.0 < o.arc.extent <= 360.0)
    ensures o.Kept? ==> o.arc.extent == Arcs.Extent(o.arc.startAngle, o.arc.endAngle)
    ensures o.Failed? && o.error.Parse? ==> ParseLine(line, toReal) == Bad(o.error.error)
    ensures o.Failed? && o.error.UnknownColor? ==>
              ParseLine(line, toReal).Row? && o.error.color == ParseLine(line, toReal).record.color
  {
    match ParseLine(line, toReal)
    case Skip => Skipped
    case Bad(e) => Failed(Parse(e))
    case Row(rec) =>
      if knownColor(rec.color)
      then Kept(Arcs.NewArc(rec.x, rec.y, rec.r, rec.a1, rec.a2, rec.color))
      else Failed(UnknownColor(rec.color))
  }

  /** The arcs kept and the failures reported so far. */
  datatype Loaded = Loaded(arcs: seq<Arcs.Arc>, errors: seq<Report>)

  /** One pass of the loop, for line number lineNo. */
  function Step(acc: Loaded, lineNo: nat, o: Outcome): Loaded {
    match o
    case Skipped => acc
    case Kept(a) => acc.(arcs := acc.arcs + [a])
    case Failed(e) => acc.(errors := acc.errors + [Report(lineNo, e)])
  }

  /** The loop run over the outcomes of lines 1, 2, ..., starting from no
      arcs. */
  function Collect(os: seq<Outcome>): Loaded
    decreases |os|
  {
    if os == [] then Loaded([], [])
    else Step(Collect(os[..|os| - 1]), |os|, os[|os| - 1])
  }

  /** The outcome of every line of a file, in order. */
  function Outcomes(lines: seq<string>, toReal: string -> Option<real>,
                    knownColor: string -> bool): seq<Outcome>
  {
    Lists.Map((line: string) => LineOutcome(line, toReal, knownColor), lines)
  }

  /** The line loop of load_from_file over the lines of a file. */
  function Load(lines: seq<string>, toReal: string -> Option<real>,
                knownColor: string -> bool): Loaded
  {
    Collect(Outcomes(lines, toReal, knownColor))
  }

  /** Report line numbers moved down by k lines. */
  function Shift(rs: seq<Report>, k: nat): (out: seq<Report>)
    ensures |out| == |rs|
    ensures forall i :: 0 <= i < |rs| ==> out[i] == Report(rs[i].lineNo + k, rs[i].error)
  {
    seq(|rs|, i requires 0 <= i < |rs| => Report(rs[i].lineNo + k, rs[i].error))
  }

  /** Lines are handled independently: the outcomes of a + b are those of a
      and then those of b, and collecting them keeps a's arcs and then b's,
      and reports a's failures and then b's, numbered after a. A failing line
      never stops the lines after it. */
  lemma {:induction false} CollectAppend(a: seq<Outcome>, b: seq<Outcome>)
    ensures Collect(a + b).arcs == Collect(a).arcs + Collect(b).arcs
    ensures Collect(a + b).errors == Collect(a).errors + Shift(Collect(b).errors, |a|)
    decreases |b|
  {
    if b == [] {
      assert a + b == a;
    } else {
      var front := b[..|b| - 1];
      var o := b[|b| - 1];
      CollectAppend(a, front);
      assert (a + b)[..|a + b| - 1] == a + front;
      assert (a + b)[|a + b| - 1] == o;
      var ca := Collect(a);
      var cf := Collect(front);
      if o.Kept? {
        Lists.AppendAssoc(ca.arcs, cf.arcs, [o.arc]);
      } else if o.Failed? {
        assert Shift(cf.errors + [Report(|b|, o.error)], |a|)
            == Shift(cf.errors, |a|) + [Report(|a| + |b|, o.error)];
        Lists.AppendAssoc(ca.errors, Shift(cf.errors, |a|), [Report(|a| + |b|, o.error)]);
      }
    }
  }

  /** Loading a + b keeps a's arcs and then b's, and reports a's failures and
      then b's, numbered after a. */
  lemma {:induction false} LoadAppend(a: seq<string>, b: seq<string>,
                                      toReal: string -> Option<real>, knownColor: string -> bool)
    ensures Load(a + b, toReal, knownColor).arcs
         == Load(a, toReal, knownColor).arcs + Load(b, toReal, knownColor).arcs
    ensures Load(a + b, toReal, knownColor).errors
         == Load(a, toReal, knownColor).errors + Shift(Load(b, toReal, knownColor).errors, |a|)
  {
    Lists.MapAppend((line: string) => LineOutcome(line, toReal, knownColor), a, b);
    CollectAppend(Outcomes(a, toReal, knownColor), Outcomes(b, toReal, knownColor));
  }

  /** Every report names a line, in increasing order, and carries that
      line's failure. */
  lemma {:induction false} CollectReportsFailures(os: seq<Outcome>)
    ensures forall k :: 0 <= k < |Collect(os).errors| ==>
              1 <= Collect(os).errors[k].lineNo <= |os|
              && os[Collect(os).errors[k].lineNo - 1] == Failed(Collect(os).errors[k].error)
    ensures forall k, m :: 0 <= k < m < |Collect(os).errors| ==>
              Collect(os).errors[k].lineNo < Collect(os).errors[m].lineNo
    decreases |os|
  {
    if os != [] {
      var front := os[..|os| - 1];
      CollectReportsFailures(front);
      var ef := Collect(front).errors;
      assert forall k :: 0 <= k < |ef| ==> os[ef[k].lineNo - 1] == front[ef[k].lineNo - 1];
    }
  }

  /** Every failing line is reported, with its number. */
  lemma {:induction false} CollectReportsEveryFailure(os: seq<Outcome>)
    ensures forall i :: 0 <= i < |os| && os[i].Failed? ==> Report(i + 1, os[i].error) in Collect(os).errors
    decreases |os|
  {
    if os != [] {
      var front := os[..|os| - 1];
      CollectReportsEveryFailure(front);
      forall i | 0 <= i < |os| && os[i].Failed?
        ensures Report(i + 1, os[i].error) in Collect(os).errors
      {
        if i < |front| {
          assert os[i] == front[i];
        }
      }
    }
  }

  /** Every kept line contributes its arc, and every arc comes from a kept
      line. */
  lemma {:induction false} CollectKeepsArcs(os: seq<Outcome>)
    ensures forall i :: 0 <= i < |os| && os[i].Kept? ==> os[i].arc in Collect(os).arcs
    ensures forall a :: a in Collect(os).arcs ==> Kept(a) in os
    decreases |os|
  {
    if os != [] {
      var front := os[..|os| - 1];
      CollectKeepsArcs(front);
      forall i | 0 <= i < |os| && os[i].Kept?
        ensures os[i].arc in Collect(os).arcs
      {
        if i < |front| {
          assert os[i] == front[i];
        }
      }
      forall a | a in Collect(os).arcs
        ensures Kept(a) in os
      {
        if a in Collect(front).arcs {
          assert Kept(a) in front;
        }
      }
    }
  }

  /** Every line that is not skipped gives either an arc or a report. */
  lemma {:induction false} CollectAccountsEveryLine(os: seq<Outcome>)
    ensures |Collect(os).arcs| + |Collect(os).errors| == |Lists.Keep((o: Outcome) => !o.Skipped?, os)|
    decreases |os|
  {
    if os != [] {
      CollectAccountsEveryLine(os[..|os| - 1]);
    }
  }

  /** The loop of load_from_file, counting lines from 1 as it goes. */
  method LoadLines(lines: seq<string>, toReal: string -> Option<real>,
                   knownColor: string -> bool) returns (arcs: seq<Arcs.Arc>, errors: seq<Report>)
    ensures Loaded(arcs, errors) == Load(lines, toReal, knownColor)
    ensures |arcs| + |errors| <= |lines|
  {
    arcs := [];
    errors := [];
    var lineNo := 0;
    ghost var os := Outcomes(lines, toReal, knownColor);
    while lineNo < |lines|
      invariant 0 <= lineNo <= |lines|
      invariant Loaded(arcs, errors) == Collect(os[..lineNo])
      invariant |arcs| + |errors| <= lineNo
    {
      var raw := lines[lineNo];
      assert os[..lineNo + 1][..lineNo] == os[..lineNo];
      assert os[lineNo] == LineOutcome(raw, toReal, knownColor);
      lineNo := lineNo + 1;
      match LineOutcome(raw, toReal, knownColor)
      case Skipped =>
      case Kept(a) =>
        arcs := arcs + [a];
      case Failed(e) =>
        errors := errors + [Report(lineNo, e)];
    }
    assert os[..lineNo] == os;
  }
}

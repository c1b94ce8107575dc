/** Positions of the Language Server Protocol: a line and a column in UTF-16 code units,
    against offsets in characters. A line ends only at a newline character. */
module LspPosition {

  datatype Position = Position(line: nat, character: nat)

  /** The UTF-16 code units of a character. */
  function Units(c: char): nat {
    if c as int > 0xFFFF then 2 else 1
  }

  /** The code units of `text[start..end]`. */
  function Width(text: string, start: nat, end: nat): nat
    requires start <= end <= |text|
    decreases end
  {
    if start == end then 0 else Width(text, start, end - 1) + Units(text[end - 1])
  }

  /** How many lines end before `offset`. */
  function LineOf(text: string, offset: nat): nat
    requires offset <= |text|
  {
    if offset == 0 then 0 else LineOf(text, offset - 1) + if text[offset - 1] == '\n' then 1 else 0
  }

  /** Where the line around `offset` starts: behind the last newline before it. */
  function LineStart(text: string, offset: nat): (r: nat)
    requires offset <= |text|
    ensures r <= offset
    ensures forall i :: r <= i < offset ==> text[i] != '\n'
    ensures r > 0 ==> text[r - 1] == '\n'
  {
    if offset == 0 || text[offset - 1] == '\n' then offset else LineStart(text, offset - 1)
  }

  /** The starts of the lines that begin at or before `n`. */
  function StartsTo(text: string, n: nat): (r: seq<nat>)
    requires n <= |text|
    ensures |r| == LineOf(text, n) + 1
    ensures r[|r| - 1] == LineStart(text, n)
    ensures forall i :: 0 <= i < |r| ==> r[i] <= n
  {
    if n == 0 then [0] else StartsTo(text, n - 1) + if text[n - 1] == '\n' then [n] else []
  }

  method Starts(text: string) returns (result: seq<nat>)
    ensures result == StartsTo(text, |text|)
  {
    result := [0];
    for index := 0 to |text|
      invariant result == StartsTo(text, index)
    {
      if text[index] == '\n' {
        result := result + [index + 1];
      }
    }
  }

  function Utf16Column(text: string, offset: nat): nat
    requires offset <= |text|
  {
    Width(text, LineStart(text, offset), offset)
  }

  function PositionOf(text: string, offset: nat): Position
    requires offset <= |text|
  {
    Position(LineOf(text, offset), Utf16Column(text, offset))
  }

  /** How far the loop of `offset_at` walks from `index`. */
  function Walk(text: string, index: nat, remaining: int): (r: nat)
    requires index <= |text|
    ensures index <= r <= |text|
    decreases |text| - index
  {
    if index < |text| && text[index] != '\n' && remaining > 0 then Walk(text, index + 1, remaining - Units(text[index]))
    else index
  }

  function Offset(text: string, line: int, character: int): (r: nat)
    ensures r <= |text|
  {
    if line < 0 || line > LineOf(text, |text|) then 0 else Walk(text, StartsTo(text, |text|)[line], character)
  }

  method OffsetAt(text: string, line: int, character: int) returns (index: nat)
    ensures index == Offset(text, line, character)
  {
    var lineStarts := Starts(text);
    if line < 0 || line >= |lineStarts| {
      return 0;
    }
    index := lineStarts[line];
    var remaining := character;
    while index < |text| && text[index] != '\n' && remaining > 0
      invariant index <= |text| && Walk(text, index, remaining) == Offset(text, line, character)
    {
      remaining := remaining - Units(text[index]);
      index := index + 1;
    }
  }

  // ---- Lines ----

  lemma {:induction false} StartsPrefix(text: string, o: nat, n: nat)
    requires o <= n <= |text|
    ensures StartsTo(text, o) <= StartsTo(text, n)
  {
    if o < n {
      StartsPrefix(text, o, n - 1);
    }
  }

  /** The recorded start of an offset's line is where that line starts. */
  lemma StartOfLine(text: string, o: nat)
    requires o <= |text|
    ensures LineOf(text, o) <= LineOf(text, |text|)
    ensures StartsTo(text, |text|)[LineOf(text, o)] == LineStart(text, o)
  {
    StartsPrefix(text, o, |text|);
  }

  /** Line `line` consists of the offsets from its start to its newline, or the end of the text. */
  ghost predicate OnLine(text: string, line: nat, o: nat) {
    o <= |text| && LineOf(text, o) == line
  }

  lemma {:induction false} LineOfMonotone(text: string, a: nat, b: nat)
    requires a <= b <= |text|
    ensures LineOf(text, a) <= LineOf(text, b)
    ensures LineOf(text, a) == LineOf(text, b) <==> forall i :: a <= i < b ==> text[i] != '\n'
  {
    if a < b {
      LineOfMonotone(text, a, b - 1);
    }
  }

  lemma {:induction false} StartsOnLine(text: string, n: nat, line: nat)
    requires n <= |text| && line <= LineOf(text, n)
    ensures OnLine(text, line, StartsTo(text, n)[line])
    ensures LineStart(text, StartsTo(text, n)[line]) == StartsTo(text, n)[line]
  {
    if n > 0 && line <= LineOf(text, n - 1) {
      StartsOnLine(text, n - 1, line);
    }
  }

  lemma OnLineStart(text: string, line: nat, o: nat)
    requires OnLine(text, line, o)
    ensures line <= LineOf(text, |text|)
    ensures StartsTo(text, |text|)[line] == LineStart(text, o) <= o
  {
    LineOfMonotone(text, o, |text|);
    StartOfLine(text, o);
  }

  // ---- Columns ----

  lemma {:induction false} WidthFirst(text: string, start: nat, end: nat)
    requires start < end <= |text|
    ensures Width(text, start, end) == Units(text[start]) + Width(text, start + 1, end)
  {
    if start + 1 < end {
      WidthFirst(text, start, end - 1);
    }
  }

  lemma {:induction false} WidthMonotone(text: string, start: nat, a: nat, b: nat)
    requires start <= a <= b <= |text|
    ensures Width(text, start, a) <= Width(text, start, b)
    ensures a < b ==> Width(text, start, a) < Width(text, start, b)
  {
    if a < b {
      WidthMonotone(text, start, a, b - 1);
    }
  }

  /** The walk stops at the first offset that is wide enough, or at the end of the line. */
  lemma {:induction false} WalkStops(text: string, index: nat, remaining: int)
    requires index <= |text|
    ensures var r := Walk(text, index, remaining);
      && (forall i :: index <= i < r ==> text[i] != '\n')
      && (forall m :: index <= m < r ==> Width(text, index, m) < remaining)
      && (r == |text| || text[r] == '\n' || Width(text, index, r) >= remaining)
    decreases |text| - index
  {
    var r := Walk(text, index, remaining);
    if index < r {
      WalkStops(text, index + 1, remaining - Units(text[index]));
      WidthFirst(text, index, r);
      forall m | index < m < r ensures Width(text, index, m) < remaining {
        WidthFirst(text, index, m);
      }
    }
  }

  /** `r` is the least offset of the line whose column is at least `character`, or the end
      of the line when the line is too short. */
  ghost predicate Least(text: string, line: nat, character: int, r: nat) {
    && OnLine(text, line, r)
    && (forall o: nat :: OnLine(text, line, o) && o < r ==> Utf16Column(text, o) < character)
    && (Utf16Column(text, r) >= character || forall o: nat :: OnLine(text, line, o) ==> o <= r)
  }

  /** The end of a line is behind all of its offsets. */
  lemma LineEnds(text: string, line: nat, r: nat)
    requires OnLine(text, line, r) && (r == |text| || text[r] == '\n')
    ensures forall o: nat :: OnLine(text, line, o) ==> o <= r
  {
    forall o: nat | OnLine(text, line, o) ensures o <= r {
      if r < o {
        LineOfMonotone(text, r, o);
      }
    }
  }

  lemma WalkIsLeast(text: string, line: nat, s: nat, character: int)
    requires OnLine(text, line, s) && LineStart(text, s) == s
    ensures Least(text, line, character, Walk(text, s, character))
  {
    var r := Walk(text, s, character);
    WalkStops(text, s, character);
    LineOfMonotone(text, s, r);
    forall o: nat | OnLine(text, line, o) ensures LineStart(text, o) == s {
      OnLineStart(text, line, o);
      OnLineStart(text, line, s);
    }
    if r == |text| || text[r] == '\n' {
      LineEnds(text, line, r);
    }
  }

  /** What `offset_at` returns for a line of the text; every other line gives 0. */
  lemma OffsetIsLeast(text: string, line: int, character: int)
    ensures 0 <= line <= LineOf(text, |text|) ==> Least(text, line, character, Offset(text, line, character))
    ensures !(0 <= line <= LineOf(text, |text|)) ==> Offset(text, line, character) == 0
  {
    if 0 <= line <= LineOf(text, |text|) {
      StartsOnLine(text, |text|, line);
      WalkIsLeast(text, line, StartsTo(text, |text|)[line], character);
    }
  }

  /** Every offset survives the trip through its protocol position. */
  lemma RoundTrip(text: string, o: nat)
    requires o <= |text|
    ensures Offset(text, PositionOf(text, o).line, PositionOf(text, o).character) == o
  {
    var p := PositionOf(text, o);
    LineOfMonotone(text, o, |text|);
    OffsetIsLeast(text, p.line, p.character);
    forall m: nat | OnLine(text, p.line, m) && m < o ensures Utf16Column(text, m) < p.character {
      OnLineStart(text, p.line, m);
      OnLineStart(text, p.line, o);
      WidthMonotone(text, LineStart(text, o), m, o);
    }
    assert Least(text, p.line, p.character, o);
  }

  /** Positions and offsets have the same order: by line, then by column. */
  lemma Monotone(text: string, line: nat, character: int, other: nat, beyond: int)
    requires line <= other <= LineOf(text, |text|)
    ensures line < other ==> Offset(text, line, character) < Offset(text, other, beyond)
    ensures line == other && character <= beyond ==> Offset(text, line, character) <= Offset(text, other, beyond)
  {
    var a, b := Offset(text, line, character), Offset(text, other, beyond);
    OffsetIsLeast(text, line, character);
    OffsetIsLeast(text, other, beyond);
    if b < a {
      LineOfMonotone(text, b, a);
    }
  }

  /** A requested column comes back exactly when the line has an offset with that column:
      the second half of a surrogate pair and columns behind the line do not. */
  lemma ColumnExact(text: string, line: nat, character: nat)
    requires line <= LineOf(text, |text|)
    ensures PositionOf(text, Offset(text, line, character)) == Position(line, character)
            <==> exists o: nat :: OnLine(text, line, o) && Utf16Column(text, o) == character
  {
    var r := Offset(text, line, character);
    OffsetIsLeast(text, line, character);
    if o: nat :| OnLine(text, line, o) && Utf16Column(text, o) == character {
      RoundTrip(text, o);
    }
  }

  /** A column inside a surrogate pair is rounded up to behind the pair. */
  lemma RoundsUp(text: string, o: nat)
    requires o < |text| && Units(text[o]) == 2
    ensures var p := PositionOf(text, o);
      Offset(text, p.line, p.character + 1) == o + 1 && PositionOf(text, o + 1) == Position(p.line, p.character + 2)
  {
    var p := PositionOf(text, o);
    assert LineOf(text, o + 1) == p.line;
    LineOfMonotone(text, o, |text|);
    OffsetIsLeast(text, p.line, p.character + 1);
    forall m: nat | OnLine(text, p.line, m) && m < o + 1 ensures Utf16Column(text, m) < p.character + 1 {
      OnLineStart(text, p.line, m);
      OnLineStart(text, p.line, o);
      WidthMonotone(text, LineStart(text, o), m, o);
    }
    assert Least(text, p.line, p.character + 1, o + 1);
  }
}

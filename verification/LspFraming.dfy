/** The base protocol of the Language Server Protocol: messages framed by a Content-Length
    header on a byte stream, and requests matched to their answers by id. A byte is written
    as the character with its code. */
module LspFraming {
  import opened Text
  import opened Wrappers

  // ---- Text ----

  predicate Ascii(s: string) {
    forall i :: 0 <= i < |s| ==> s[i] < '\U{80}'
  }

  function LowerChar(c: char): char {
    if 'A' <= c <= 'Z' then (c as int + 32) as char else c
  }

  function Lower(s: string): string {
    seq(|s|, i requires 0 <= i < |s| => LowerChar(s[i]))
  }

  // ---- Decimal numbers ----

  predicate Digit(c: char) {
    '0' <= c <= '9'
  }

  function Decimal(n: nat): (r: string)
    ensures r != []
    ensures forall i :: 0 <= i < |r| ==> Digit(r[i])
  {
    if n < 10 then [('0' as int + n) as char] else Decimal(n / 10) + [('0' as int + n % 10) as char]
  }

  /** Digits with single underscores between them, as Python's `int` reads them. */
  function ParseDigits(s: string): Option<nat> {
    if s == [] || !Digit(s[|s| - 1]) then None
    else
      var digit := s[|s| - 1] as int - '0' as int;
      var front := s[..|s| - 1];
      if front == [] then Some(digit)
      else
        match ParseDigits(if front[|front| - 1] == '_' then front[..|front| - 1] else front)
        case None => None
        case Some(n) => Some(10 * n + digit)
  }

  function Signed(digits: Option<nat>, sign: int): Option<int> {
    match digits
    case None => None
    case Some(n) => Some(sign * n)
  }

  function ParseInt(s: string): Option<int> {
    if s != [] && s[0] == '-' then Signed(ParseDigits(s[1..]), -1)
    else if s != [] && s[0] == '+' then Signed(ParseDigits(s[1..]), 1)
    else Signed(ParseDigits(s), 1)
  }

  lemma {:induction false} DecimalParses(n: nat)
    ensures ParseDigits(Decimal(n)) == Some(n) && ParseInt(Decimal(n)) == Some(n)
  {
    var s := Decimal(n);
    if n >= 10 {
      DecimalParses(n / 10);
      assert s[..|s| - 1] == Decimal(n / 10);
      assert Digit(Decimal(n / 10)[|Decimal(n / 10)| - 1]);
    }
    assert Digit(s[0]);
  }

  // ---- Reading one message ----

  datatype Failure = Closed | NotAscii | NoColon | NoLength | BadLength | NotJson | ServerError(text: string)

  /** `readline`: up to and with the next newline, or all that is left. */
  function LineLength(input: string): (r: nat)
    ensures r <= |input|
    ensures r == 0 <==> input == []
  {
    var i := IndexOf(input, '\n');
    if i < |input| then i + 1 else i
  }

  /** A header block: the last value of every lower-case key, and what follows the blank line. */
  function Headers(input: string, headers: map<string, string>): (r: Result<(map<string, string>, string), Failure>)
    ensures r.Ok? ==> |r.value.1| < |input|
    decreases |input|
  {
    var n := LineLength(input);
    if n == 0 then Err(Closed)
    else if !Ascii(input[..n]) then Err(NotAscii)
    else
      var line := Strip(input[..n]);
      if line == [] then Ok((headers, input[n..]))
      else
        var colon := IndexOf(line, ':');
        if colon == |line| then Err(NoColon)
        else Headers(input[n..], headers[Lower(line[..colon]) := Strip(line[colon + 1..])])
  }

  /** `read(n)`: at most `n` bytes; -1 asks for everything, and less is refused. */
  function Body(input: string, n: int): Result<(string, string), Failure> {
    if n < -1 then Err(BadLength)
    else if n == -1 || n >= |input| then Ok((input, []))
    else Ok((input[..n], input[n..]))
  }

  /** One message body, and what is left of the stream. */
  function ReadSpec(input: string): Result<(string, string), Failure> {
    match Headers(input, map[])
    case Err(e) => Err(e)
    case Ok((headers, rest)) =>
      if "content-length" !in headers then Err(NoLength)
      else
        match ParseInt(headers["content-length"])
        case None => Err(BadLength)
        case Some(n) => Body(rest, n)
  }

  function Frame(body: string): string {
    "Content-Length: " + Decimal(|body|) + "\r\n\r\n" + body
  }

  function Frames(bodies: seq<string>): string {
    if bodies == [] then [] else Frame(bodies[0]) + Frames(bodies[1..])
  }

  // ---- A framed message is read back ----

  lemma StripHeader(value: string)
    requires value != [] && forall i :: 0 <= i < |value| ==> Digit(value[i])
    ensures Strip("Content-Length: " + value + "\r\n") == "Content-Length: " + value
    ensures Strip(" " + value) == value
  {
    var line := "Content-Length: " + value;
    assert StripLeft(line + "\r\n") == line + "\r\n";
    assert (line + "\r\n")[..|line| + 1] == line + "\r";
    assert (line + "\r")[..|line|] == line;
    assert Digit(line[|line| - 1]);
    assert StripRight(line + "\r\n") == StripRight(line + "\r") == StripRight(line) == line;
    assert (" " + value)[1..] == value;
    assert Digit(value[0]) && Digit(value[|value| - 1]);
    assert StripLeft(" " + value) == StripLeft(value) == value;
  }

  /** One header line, whatever stands behind it. */
  lemma HeaderStep(text: string, key: string, value: string, rest: string, headers: map<string, string>)
    requires Ascii(text) && forall i :: 0 <= i < |text| ==> text[i] != '\n'
    requires Strip(text + "\n") == key + ":" + value && forall i :: 0 <= i < |key| ==> key[i] != ':'
    ensures Headers(text + "\n" + rest, headers) == Headers(rest, headers[Lower(key) := Strip(value)])
  {
    var input, line := text + "\n" + rest, key + ":" + value;
    IndexOfAt(text, '\n', rest);
    IndexOfAt(key, ':', value);
    assert input[..|text| + 1] == text + "\n" && input[|text| + 1..] == rest;
    assert line[..|key|] == key && line[|key| + 1..] == value;
    assert forall i :: 0 <= i < |text| + 1 ==> input[i] < '\U{80}';
  }

  lemma HeaderShape(head: string, value: string, rest: string)
    ensures (head + value + "\r") + "\n" == head + value + "\r\n"
    ensures (head + value + "\r") + "\n" + ("\r\n" + rest) == head + value + "\r\n\r\n" + rest
  {}

  lemma KeyShape(value: string)
    requires forall i :: 0 <= i < |value| ==> Digit(value[i])
    ensures "Content-Length" + ":" + (" " + value) == "Content-Length: " + value
    ensures Lower("Content-Length") == "content-length"
    ensures var text := "Content-Length: " + value + "\r";
      Ascii(text) && forall i :: 0 <= i < |text| ==> text[i] != '\n'
  {}

  lemma HeaderLine(value: string, rest: string)
    requires value != [] && forall i :: 0 <= i < |value| ==> Digit(value[i])
    ensures Headers("Content-Length: " + value + "\r\n\r\n" + rest, map[]) == Ok((map["content-length" := value], rest))
  {
    StripHeader(value);
    HeaderShape("Content-Length: ", value, rest);
    KeyShape(value);
    HeaderStep("Content-Length: " + value + "\r", "Content-Length", " " + value, "\r\n" + rest, map[]);
    BlankLine(rest, map["content-length" := value]);
  }

  lemma BlankLine(rest: string, headers: map<string, string>)
    ensures Headers("\r\n" + rest, headers) == Ok((headers, rest))
  {
    var input := "\r\n" + rest;
    assert input == "\r" + ['\n'] + rest;
    IndexOfAt("\r", '\n', rest);
    assert input[..2] == "\r\n" && input[2..] == rest;
    assert "\r\n"[1..] == "\n" && "\n"[1..] == "";
    assert StripLeft("\r\n") == StripLeft("\n") == "";
  }

  lemma Regroup(head: string, value: string, blank: string, body: string, rest: string)
    ensures (head + value + blank + body) + rest == head + value + blank + (body + rest)
  {}

  lemma BodyCut(body: string, rest: string)
    ensures Body(body + rest, |body|) == Ok((body, rest))
  {
    assert (body + rest)[..|body|] == body && (body + rest)[|body|..] == rest;
    assert rest == [] ==> body + rest == body;
  }

  /** Whatever follows it on the stream, a framed body is read back and nothing more is consumed. */
  lemma ReadsFrame(body: string, rest: string)
    ensures ReadSpec(Frame(body) + rest) == Ok((body, rest))
  {
    var value := Decimal(|body|);
    DecimalParses(|body|);
    HeaderLine(value, body + rest);
    Regroup("Content-Length: ", value, "\r\n\r\n", body, rest);
    assert ReadSpec(Frame(body) + rest) == Body(body + rest, |body|);
    BodyCut(body, rest);
  }

  /** Framing keeps message boundaries: a stream of frames can be cut in one way only. */
  lemma {:induction false} FramesInjective(a: seq<string>, b: seq<string>)
    requires Frames(a) == Frames(b)
    ensures a == b
  {
    assert a != [] ==> Frames(a) != [];
    assert b != [] ==> Frames(b) != [];
    if a != [] {
      ReadsFrame(a[0], Frames(a[1..]));
      ReadsFrame(b[0], Frames(b[1..]));
      FramesInjective(a[1..], b[1..]);
      assert a == [a[0]] + a[1..] && b == [b[0]] + b[1..];
    }
  }

  /** `n` messages, one after the other. */
  function ReadMany(input: string, n: nat): Result<(seq<string>, string), Failure>
    decreases n
  {
    if n == 0 then Ok(([], input))
    else
      match ReadSpec(input)
      case Err(e) => Err(e)
      case Ok((body, rest)) =>
        match ReadMany(rest, n - 1)
        case Err(e) => Err(e)
        case Ok((bodies, left)) => Ok(([body] + bodies, left))
  }

  lemma FramesFirst(bodies: seq<string>, rest: string)
    requires bodies != []
    ensures Frames(bodies) + rest == Frame(bodies[0]) + (Frames(bodies[1..]) + rest)
  {}

  lemma ReadsOneMore(body: string, tail: string, bodies: seq<string>, rest: string)
    requires ReadMany(tail, |bodies|) == Ok((bodies, rest))
    ensures ReadMany(Frame(body) + tail, |bodies| + 1) == Ok(([body] + bodies, rest))
  {
    ReadsFrame(body, tail);
  }

  /** Concatenated frames are read back in order, and the stream is left just behind them. */
  lemma {:induction false} ReadsAll(bodies: seq<string>, rest: string)
    ensures ReadMany(Frames(bodies) + rest, |bodies|) == Ok((bodies, rest))
  {
    if bodies == [] {
      assert Frames(bodies) + rest == rest;
    } else {
      var first, others := bodies[0], bodies[1..];
      ReadsAll(others, rest);
      ReadsOneMore(first, Frames(others) + rest, others, rest);
      FramesFirst(bodies, rest);
      assert bodies == [first] + others;
    }
  }
}

/** The client side of a language server session: which answer a request returns. */
module LspClient {
  import opened LspFraming
  import opened Text
  import opened Wrappers

  datatype Id = NoId | Number(n: int) | Text(text: string)

  datatype Message = Message(id: Id, error: Option<string>, result: string)

  function Outcome(message: Message): Result<string, Failure> {
    if message.error.Some? then Err(ServerError(message.error.value)) else Ok(message.result)
  }

  /** One message off the stream: a body that is not JSON is an error too. */
  function Next(input: string, decode: string -> Option<Message>): Result<(Message, string), Failure> {
    match ReadSpec(input)
    case Err(e) => Err(e)
    case Ok((body, rest)) => if decode(body).Some? then Ok((decode(body).value, rest)) else Err(NotJson)
  }

  lemma NextShorter(input: string, decode: string -> Option<Message>)
    ensures Next(input, decode).Ok? ==> |Next(input, decode).value.1| < |input|
  {}

  /** What a request with this id returns, and what it leaves on the stream. */
  function Await(input: string, decode: string -> Option<Message>, id: nat):
    Result<(Result<string, Failure>, string), Failure>
    decreases |input|
  {
    match Next(input, decode)
    case Err(e) => Err(e)
    case Ok((message, rest)) =>
      if message.id == Number(id) then Ok((Outcome(message), rest))
      else
        NextShorter(input, decode);
        Await(rest, decode, id)
  }

  class Client {
    /** `json.dumps` of a request and `json.loads` of a message. */
    const encode: (nat, string, string) -> string
    const decode: string -> Option<Message>
    var nextId: nat
    var output: string
    var input: string

    constructor (encode: (nat, string, string) -> string, decode: string -> Option<Message>)
      ensures this.encode == encode && this.decode == decode
      ensures nextId == 1 && output == [] && input == []
    {
      this.encode, this.decode := encode, decode;
      nextId, output, input := 1, [], [];
    }

    method Write(body: string)
      modifies this`output
      ensures output == old(output) + Frame(body)
    {
      output := output + Frame(body);
    }

    method ReadLine() returns (line: string)
      modifies this`input
      ensures old(input) == line + input && |line| == LineLength(old(input))
    {
      var n := LineLength(input);
      line := input[..n];
      input := input[n..];
    }

    /** Headers line by line, then as many bytes as the length header says. */
    method Read() returns (r: Result<Message, Failure>)
      modifies this`input
      ensures match Next(old(input), decode)
              case Ok((message, rest)) => r == Ok(message) && input == rest
              case Err(e) => r == Err(e)
    {
      var headers: map<string, string> := map[];
      while true
        invariant Headers(input, headers) == Headers(old(input), map[])
        decreases |input|
      {
        ghost var before := input;
        var line := ReadLine();
        assert line == before[..|line|] && input == before[|line|..];
        if line == [] {
          return Err(Closed);
        }
        if !Ascii(line) {
          return Err(NotAscii);
        }
        line := Strip(line);
        if line == [] {
          break;
        }
        var colon := IndexOf(line, ':');
        if colon == |line| {
          return Err(NoColon);
        }
        headers := headers[Lower(line[..colon]) := Strip(line[colon + 1..])];
      }
      if "content-length" !in headers {
        return Err(NoLength);
      }
      var length := ParseInt(headers["content-length"]);
      if length.None? {
        return Err(BadLength);
      }
      var body := Body(input, length.value);
      if body.Err? {
        return Err(body.error);
      }
      input := body.value.1;
      var message := decode(body.value.0);
      return if message.Some? then Ok(message.value) else Err(NotJson);
    }

    /** Sends a request under a fresh id and discards messages until one carries that id.
        `arrives` is what the server sends in the meantime. */
    method Request(name: string, params: string, arrives: string) returns (r: Result<string, Failure>)
      modifies this
      ensures nextId == old(nextId) + 1
      ensures output == old(output) + Frame(encode(old(nextId), name, params))
      ensures match Await(old(input) + arrives, decode, old(nextId))
              case Ok((outcome, rest)) => r == outcome && input == rest
              case Err(e) => r == Err(e)
    {
      var id := nextId;
      nextId := nextId + 1;
      Write(encode(id, name, params));
      input := input + arrives;
      while true
        invariant Await(input, decode, id) == Await(old(input) + arrives, decode, id)
        invariant nextId == id + 1 && output == old(output) + Frame(encode(id, name, params))
        decreases |input|
      {
        NextShorter(input, decode);
        var message := Read();
        if message.Err? {
          return Err(message.error);
        }
        if message.value.id != Number(id) {
          continue;
        }
        return Outcome(message.value);
      }
    }
  }

  // ---- Which message that is ----

  ghost predicate Decodes(bodies: seq<string>, decode: string -> Option<Message>) {
    forall i :: 0 <= i < |bodies| ==> decode(bodies[i]).Some?
  }

  function MessageAt(bodies: seq<string>, decode: string -> Option<Message>, i: nat): Message
    requires i < |bodies| && decode(bodies[i]).Some?
  {
    decode(bodies[i]).value
  }

  ghost predicate Carries(bodies: seq<string>, decode: string -> Option<Message>, i: nat, id: nat) {
    i < |bodies| && decode(bodies[i]).Some? && decode(bodies[i]).value.id == Number(id)
  }

  /** A request returns the first message that carries its id, and leaves what follows it. */
  lemma {:induction false} FirstWithId(bodies: seq<string>, rest: string, decode: string -> Option<Message>, id: nat,
                                       k: nat)
    requires Decodes(bodies, decode) && Carries(bodies, decode, k, id)
    requires forall i :: 0 <= i < k ==> !Carries(bodies, decode, i, id)
    ensures Await(Frames(bodies) + rest, decode, id)
            == Ok((Outcome(MessageAt(bodies, decode, k)), Frames(bodies[k + 1..]) + rest))
  {
    assert Frames(bodies) + rest == Frame(bodies[0]) + (Frames(bodies[1..]) + rest);
    ReadsFrame(bodies[0], Frames(bodies[1..]) + rest);
    if k > 0 {
      assert !Carries(bodies, decode, 0, id);
      forall i | 0 <= i < k - 1 ensures !Carries(bodies[1..], decode, i, id) {
        assert !Carries(bodies, decode, i + 1, id);
      }
      assert bodies[1..][k..] == bodies[k + 1..];
      FirstWithId(bodies[1..], rest, decode, id, k - 1);
    }
  }

  /** Without such a message a request runs to the end of the stream. */
  lemma {:induction false} NoneWithId(bodies: seq<string>, decode: string -> Option<Message>, id: nat)
    requires Decodes(bodies, decode) && forall i :: 0 <= i < |bodies| ==> !Carries(bodies, decode, i, id)
    ensures Await(Frames(bodies), decode, id) == Err(Closed)
  {
    if bodies != [] {
      ReadsFrame(bodies[0], Frames(bodies[1..]));
      assert !Carries(bodies, decode, 0, id);
      forall i | 0 <= i < |bodies| - 1 ensures !Carries(bodies[1..], decode, i, id) {
        assert !Carries(bodies, decode, i + 1, id);
      }
      NoneWithId(bodies[1..], decode, id);
    }
  }

  /** The server's answer, the `k`-th message, is the one a request takes exactly when no
      message before it carries the same id: a request of the server's own under that id
      would be taken for the answer. */
  lemma AnswerTaken(bodies: seq<string>, decode: string -> Option<Message>, id: nat, k: nat)
    requires Decodes(bodies, decode) && Carries(bodies, decode, k, id)
    ensures Await(Frames(bodies), decode, id) == Ok((Outcome(MessageAt(bodies, decode, k)), Frames(bodies[k + 1..])))
            <==> forall i :: 0 <= i < k ==> !Carries(bodies, decode, i, id)
  {
    var first := FirstCarrier(bodies, decode, id, k);
    var answer := (Outcome(MessageAt(bodies, decode, first)), Frames(bodies[first + 1..]));
    assert Await(Frames(bodies), decode, id) == Ok(answer) by {
      FirstWithId(bodies, [], decode, id, first);
      NothingBehind(bodies);
      NothingBehind(bodies[first + 1..]);
    }
    if Frames(bodies[first + 1..]) == Frames(bodies[k + 1..]) {
      FramesInjective(bodies[first + 1..], bodies[k + 1..]);
    }
  }

  lemma NothingBehind(bodies: seq<string>)
    ensures Frames(bodies) + [] == Frames(bodies)
  {}

  lemma {:induction false} FirstCarrier(bodies: seq<string>, decode: string -> Option<Message>, id: nat, k: nat)
    returns (first: nat)
    requires Carries(bodies, decode, k, id)
    ensures first <= k && Carries(bodies, decode, first, id)
    ensures forall i :: 0 <= i < first ==> !Carries(bodies, decode, i, id)
  {
    first := k;
    if i :| 0 <= i < k && Carries(bodies, decode, i, id) {
      first := FirstCarrier(bodies, decode, id, i);
    }
  }

  // ---- A whole session ----

  /** After the `i`-th request the server sends `served[i]`, in which exactly one message
      carries that request's id; it never uses the id of a later request. */
  ghost predicate Honest(served: seq<seq<string>>, decode: string -> Option<Message>, first: nat, answers: seq<nat>) {
    && |answers| == |served|
    && (forall i :: 0 <= i < |served| ==> Decodes(served[i], decode))
    && (forall i :: 0 <= i < |served| ==> Answered(served[i], decode, first + i, answers[i]))
    && (forall i :: 0 <= i < |served| ==> NoneUsed(served[i], decode, first + i + 1, first + |served|))
  }

  ghost predicate Answered(bodies: seq<string>, decode: string -> Option<Message>, id: nat, k: nat) {
    Carries(bodies, decode, k, id) && forall i :: 0 <= i < |bodies| && i != k ==> !Carries(bodies, decode, i, id)
  }

  ghost predicate NoneUsed(bodies: seq<string>, decode: string -> Option<Message>, from: nat, to: nat) {
    forall id: nat :: from <= id < to ==> Unused(bodies, decode, id)
  }

  ghost predicate Unused(bodies: seq<string>, decode: string -> Option<Message>, id: nat) {
    forall i :: 0 <= i < |bodies| ==> !Carries(bodies, decode, i, id)
  }

  lemma {:induction false} FramesConcat(a: seq<string>, b: seq<string>)
    ensures Frames(a + b) == Frames(a) + Frames(b)
  {
    if a == [] {
      assert a + b == b;
    } else {
      assert (a + b)[1..] == a[1..] + b;
      FramesConcat(a[1..], b);
    }
  }

  lemma FirstBehind(left: seq<string>, bodies: seq<string>, decode: string -> Option<Message>, id: nat, k: nat)
    requires Decodes(left, decode) && Decodes(bodies, decode)
    requires Unused(left, decode, id) && Answered(bodies, decode, id, k)
    ensures Decodes(left + bodies, decode) && Carries(left + bodies, decode, |left| + k, id)
    ensures forall i :: 0 <= i < |left| + k ==> !Carries(left + bodies, decode, i, id)
  {
    var all := left + bodies;
    forall i | 0 <= i < |left| + k ensures !Carries(all, decode, i, id) {
      if i < |left| {
        assert !Carries(left, decode, i, id);
      } else {
        assert !Carries(bodies, decode, i - |left|, id);
      }
    }
  }

  /** One request of a session: messages left over from earlier requests do not get in its way. */
  lemma RequestAnswered(left: seq<string>, bodies: seq<string>, decode: string -> Option<Message>, id: nat, k: nat)
    requires Decodes(left, decode) && Decodes(bodies, decode)
    requires Unused(left, decode, id) && Answered(bodies, decode, id, k)
    ensures Await(Frames(left) + Frames(bodies), decode, id)
            == Ok((Outcome(MessageAt(bodies, decode, k)), Frames(bodies[k + 1..])))
  {
    var all, n := left + bodies, |left| + k;
    FirstBehind(left, bodies, decode, id, k);
    FirstWithId(all, [], decode, id, n);
    FramesConcat(left, bodies);
    assert all[n] == bodies[k] && all[n + 1..] == bodies[k + 1..];
    NothingBehind(all);
    NothingBehind(bodies[k + 1..]);
  }

  /** `r` is what message `k` says. */
  ghost predicate Returned(r: Result<string, Failure>, bodies: seq<string>, decode: string -> Option<Message>, k: nat) {
    k < |bodies| && decode(bodies[k]).Some? && r == Outcome(decode(bodies[k]).value)
  }

  method Exchange(client: Client, request: (string, string), bodies: seq<string>, ghost left: seq<string>, ghost k: nat)
    returns (r: Result<string, Failure>)
    requires client.input == Frames(left) && Decodes(left, client.decode) && Decodes(bodies, client.decode)
    requires Unused(left, client.decode, client.nextId) && Answered(bodies, client.decode, client.nextId, k)
    modifies client
    ensures Returned(r, bodies, client.decode, k) && client.input == Frames(bodies[k + 1..])
    ensures client.nextId == old(client.nextId) + 1
    ensures client.output == old(client.output) + Frame(client.encode(old(client.nextId), request.0, request.1))
  {
    RequestAnswered(left, bodies, client.decode, client.nextId, k);
    r := client.Request(request.0, request.1, Frames(bodies));
  }

  /** The bodies of the first `n` requests: consecutive ids, in the order of the calls. */
  function Sent(encode: (nat, string, string) -> string, first: nat, requests: seq<(string, string)>,
                n: nat): seq<string>
    requires n <= |requests|
  {
    if n == 0 then []
    else Sent(encode, first, requests, n - 1) + [encode(first + n - 1, requests[n - 1].0, requests[n - 1].1)]
  }

  lemma SendNext(output: string, encode: (nat, string, string) -> string, first: nat, requests: seq<(string, string)>,
                 i: nat)
    requires i < |requests|
    ensures output + Frames(Sent(encode, first, requests, i)) + Frame(encode(first + i, requests[i].0, requests[i].1))
            == output + Frames(Sent(encode, first, requests, i + 1))
  {
    var sent, body := Sent(encode, first, requests, i), encode(first + i, requests[i].0, requests[i].1);
    var frames, frame := Frames(sent), Frame(body);
    assert Frames(Sent(encode, first, requests, i + 1)) == frames + frame by {
      assert Sent(encode, first, requests, i + 1) == sent + [body];
      FramesConcat(sent, [body]);
      assert [body][1..] == [] && Frames([body]) == frame + [] == frame;
    }
    assert output + frames + frame == output + (frames + frame);
  }

  lemma LeftOver(served: seq<seq<string>>, decode: string -> Option<Message>, first: nat, answers: seq<nat>, i: nat)
    requires Honest(served, decode, first, answers) && i < |served|
    ensures Answered(served[i], decode, first + i, answers[i]) && Decodes(served[i], decode)
    ensures var left := served[i][answers[i] + 1..];
      Decodes(left, decode) && NoneUsed(left, decode, first + i + 1, first + |served|)
  {
    assert Answered(served[i], decode, first + i, answers[i]) && Decodes(served[i], decode);
    var left := served[i][answers[i] + 1..];
    forall id: nat | first + i + 1 <= id < first + |served| ensures Unused(left, decode, id) {
      assert Unused(served[i], decode, id);
      UnusedTail(served[i], decode, id, answers[i] + 1);
    }
  }

  lemma UnusedTail(bodies: seq<string>, decode: string -> Option<Message>, id: nat, n: nat)
    requires n <= |bodies| && Unused(bodies, decode, id)
    ensures Unused(bodies[n..], decode, id)
  {
    forall m | 0 <= m < |bodies| - n ensures !Carries(bodies[n..], decode, m, id) {
      var i := n + m;
      assert !Carries(bodies, decode, i, id);
    }
  }

  /** `i` requests of the session have been answered, and `left` is still unread. */
  ghost predicate Talking(client: Client, requests: seq<(string, string)>, first: nat, i: nat, output: string,
                          left: seq<string>)
    requires i <= |requests|
    reads client
  {
    && client.nextId == first + i && client.input == Frames(left)
    && Decodes(left, client.decode) && NoneUsed(left, client.decode, first + i, first + |requests|)
    && client.output == output + Frames(Sent(client.encode, first, requests, i))
  }

  method ConverseOnce(client: Client, requests: seq<(string, string)>, served: seq<seq<string>>, i: nat,
                      ghost answers: seq<nat>, ghost first: nat, ghost output: string, ghost left: seq<string>)
    returns (r: Result<string, Failure>)
    requires i < |requests| == |served| && Honest(served, client.decode, first, answers)
    requires Talking(client, requests, first, i, output, left)
    modifies client
    ensures Returned(r, served[i], client.decode, answers[i])
    ensures Talking(client, requests, first, i + 1, output, served[i][answers[i] + 1..])
  {
    LeftOver(served, client.decode, first, answers, i);
    SendNext(output, client.encode, first, requests, i);
    assert Unused(left, client.decode, first + i);
    ghost var rest := served[i][answers[i] + 1..];
    assert NoneUsed(rest, client.decode, first + (i + 1), first + |requests|);
    r := Exchange(client, requests[i], served[i], left, answers[i]);
  }

  /** Against an honest server every request returns the answer to its own id, and the ids
      are the consecutive ones from `nextId` on. */
  method Converse(client: Client, requests: seq<(string, string)>, served: seq<seq<string>>, ghost answers: seq<nat>)
    returns (results: seq<Result<string, Failure>>)
    requires |requests| == |served| && client.input == [] && Honest(served, client.decode, client.nextId, answers)
    modifies client
    ensures |results| == |requests| && client.nextId == old(client.nextId) + |requests|
    ensures forall i :: 0 <= i < |requests| ==> Returned(results[i], served[i], client.decode, answers[i])
    ensures client.output == old(client.output) + Frames(Sent(client.encode, old(client.nextId), requests, |requests|))
  {
    results := [];
    ghost var first, output, left: seq<string> := client.nextId, client.output, [];
    for i := 0 to |requests|
      invariant |results| == i && Talking(client, requests, first, i, output, left)
      invariant forall j :: 0 <= j < i ==> Returned(results[j], served[j], client.decode, answers[j])
    {
      var r := ConverseOnce(client, requests, served, i, answers, first, output, left);
      results := results + [r];
      left := served[i][answers[i] + 1..];
    }
  }
}

/** A way to write the messages that is as faithful as the results about runs ask for. */
module IpcWire {
  import opened Text
  import opened IpcFraming
  import opened IpcRequests

  function Unary(n: nat): Bytes {
    if n == 0 then [0] else [1] + Unary(n - 1)
  }

  function TakeUnary(b: Bytes): (taken: Option<(nat, Bytes)>)
    ensures taken.Some? ==> |taken.value.1| < |b|
  {
    if b == [] then None
    else if b[0] == 0 then Some((0, b[1..]))
    else
      var more := TakeUnary(b[1..]);
      if more.None? then None else Some((more.value.0 + 1, more.value.1))
  }

  lemma {:induction false} TakesUnary(n: nat, rest: Bytes)
    ensures TakeUnary(Unary(n) + rest) == Some((n, rest))
  {
    if n == 0 {
      assert ([0] + rest)[1..] == rest;
    } else {
      assert (Unary(n) + rest)[1..] == Unary(n - 1) + rest;
      TakesUnary(n - 1, rest);
    }
  }

  function Chars(s: string): Bytes {
    if s == [] then Unary(0) else Unary(1 + s[0] as int) + Chars(s[1..])
  }

  predicate IsChar(n: int) {
    0 <= n < 0xD800 || 0xE000 <= n < 0x11_0000
  }

  function TakeChars(b: Bytes): Option<(string, Bytes)>
    decreases |b|
  {
    var first := TakeUnary(b);
    if first.None? then None
    else if first.value.0 == 0 then Some(("", first.value.1))
    else if !IsChar(first.value.0 - 1) then None
    else
      var more := TakeChars(first.value.1);
      if more.None? then None else Some(([(first.value.0 - 1) as char] + more.value.0, more.value.1))
  }

  lemma {:induction false} TakesChars(s: string, rest: Bytes)
    ensures TakeChars(Chars(s) + rest) == Some((s, rest))
  {
    if s == [] {
      TakesUnary(0, rest);
    } else {
      assert Chars(s) + rest == Unary(1 + s[0] as int) + (Chars(s[1..]) + rest);
      TakesUnary(1 + s[0] as int, Chars(s[1..]) + rest);
      TakesChars(s[1..], rest);
      assert [s[0]] + s[1..] == s;
    }
  }

  // ----- The two messages -----

  function WriteRequest(r: Request): Bytes {
    Unary(r.id) + Chars(r.body)
  }

  function TakeRequest(b: Bytes): Option<(Request, Bytes)> {
    var id := TakeUnary(b);
    if id.None? then None
    else
      var body := TakeChars(id.value.1);
      if body.None? then None else Some((Request(id.value.0, body.value.0), body.value.1))
  }

  lemma TakesRequest(r: Request, rest: Bytes)
    ensures TakeRequest(WriteRequest(r) + rest) == Some((r, rest))
  {
    assert WriteRequest(r) + rest == Unary(r.id) + (Chars(r.body) + rest);
    TakesUnary(r.id, Chars(r.body) + rest);
    TakesChars(r.body, rest);
  }

  function WriteResponse(r: Response): Bytes {
    Unary(if r.id.None? then 0 else 1 + r.id.value)
    + (Unary(if r.verdict.Result? then 0 else 1) + Chars(if r.verdict.Result? then r.verdict.value else r.verdict.error))
  }

  function TakeResponse(b: Bytes): Option<(Response, Bytes)> {
    var id := TakeUnary(b);
    if id.None? then None
    else
      var kind := TakeUnary(id.value.1);
      if kind.None? then None
      else
        var text := TakeChars(kind.value.1);
        if text.None? then None
        else
          Some((Response(if id.value.0 == 0 then None else Some(id.value.0 - 1),
                         if kind.value.0 == 0 then Result(text.value.0) else Error(text.value.0)), text.value.1))
  }

  lemma TakesResponse(r: Response, rest: Bytes)
    ensures TakeResponse(WriteResponse(r) + rest) == Some((r, rest))
  {
    hide Unary, Chars, TakeUnary, TakeChars;
    var id := if r.id.None? then 0 else 1 + r.id.value;
    var kind := if r.verdict.Result? then 0 else 1;
    var text := if r.verdict.Result? then r.verdict.value else r.verdict.error;
    assert WriteResponse(r) + rest == Unary(id) + (Unary(kind) + (Chars(text) + rest));
    TakesUnary(id, Unary(kind) + (Chars(text) + rest));
    TakesUnary(kind, Chars(text) + rest);
    TakesChars(text, rest);
  }

  // ----- Both together -----

  function ParseRequest(b: Bytes): Option<Request> {
    var taken := TakeRequest(b);
    if taken.Some? && WriteRequest(taken.value.0) == b then Some(taken.value.0) else None
  }

  function ParseResponse(b: Bytes): Option<Response> {
    var taken := TakeResponse(b);
    if taken.Some? && WriteResponse(taken.value.0) == b then Some(taken.value.0) else None
  }

  const WIRE := Wire(WriteRequest, ParseRequest, WriteResponse, ParseResponse, (body: string) => false)

  /** The results about runs are about something: a faithful wire exists. */
  lemma FaithfulWireExists()
    ensures WIRE.Faithful()
  {
    forall r: Request ensures ParseRequest(WriteRequest(r)) == Some(r)
                           && forall k: nat :: k < |WriteRequest(r)| ==> ParseRequest(WriteRequest(r)[..k]) == None {
      ParsesRequest(r);
    }
    forall r: Response ensures ParseResponse(WriteResponse(r)) == Some(r)
                            && forall k: nat :: k < |WriteResponse(r)| ==> ParseResponse(WriteResponse(r)[..k]) == None {
      ParsesResponse(r);
    }
  }

  lemma ParsesRequest(r: Request)
    ensures ParseRequest(WriteRequest(r)) == Some(r)
    ensures forall k: nat :: k < |WriteRequest(r)| ==> ParseRequest(WriteRequest(r)[..k]) == None
  {
    hide WriteRequest, TakeRequest;
    var whole := WriteRequest(r);
    assert whole + [] == whole;
    TakesRequest(r, []);
    forall k: nat | k < |whole| ensures ParseRequest(whole[..k]) == None {
      if ParseRequest(whole[..k]).Some? {
        assert whole == whole[..k] + whole[k..];
        TakesRequest(ParseRequest(whole[..k]).value, whole[k..]);
      }
    }
  }

  lemma ParsesResponse(r: Response)
    ensures ParseResponse(WriteResponse(r)) == Some(r)
    ensures forall k: nat :: k < |WriteResponse(r)| ==> ParseResponse(WriteResponse(r)[..k]) == None
  {
    hide WriteResponse, TakeResponse;
    var whole := WriteResponse(r);
    assert whole + [] == whole;
    TakesResponse(r, []);
    forall k: nat | k < |whole| ensures ParseResponse(whole[..k]) == None {
      if ParseResponse(whole[..k]).Some? {
        assert whole == whole[..k] + whole[k..];
        TakesResponse(ParseResponse(whole[..k]).value, whole[k..]);
      }
    }
  }
}

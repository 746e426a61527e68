/**
 The control-plane wire format (internal/vsockd/protocol.go) and the request
 loop that runs on it (internal/vsockd/server.go).
 */
module Frames {
  import opened Common

  const MAX_FRAME: nat := 10485760   // 10 MiB

  // --------------------------------------------------------------- one frame

  /** Big-endian 32-bit length. */
  function Be32(n: nat): (r: bytes)
    requires n < 0x1_0000_0000
    ensures |r| == 4
  {
    [n / 0x100_0000, n / 0x1_0000 % 0x100, n / 0x100 % 0x100, n % 0x100]
  }

  function FromBe32(s: bytes): (n: nat)
    requires |s| == 4
    ensures n < 0x1_0000_0000
  {
    var a: int, b: int, c: int, d: int := s[0], s[1], s[2], s[3];
    a * 0x100_0000 + b * 0x1_0000 + c * 0x100 + d
  }

  lemma Be32RoundTrip(n: nat)
    requires n < 0x1_0000_0000
    ensures FromBe32(Be32(n)) == n
  {
    var a, b, c := n / 0x100, n / 0x1_0000, n / 0x100_0000;
    assert a == n / 0x100 && b == a / 0x100 && c == b / 0x100;
    assert n == a * 0x100 + n % 0x100 && a == b * 0x100 + a % 0x100 && b == c * 0x100 + b % 0x100;
  }

  /** What WriteFrame puts on the wire; the length is taken modulo 2^32. */
  function Encode(payload: bytes): bytes {
    var length := Uint32(|payload|);
    Be32(length) + (if length > 0 then payload else [])
  }

  datatype FrameRead = Frame(payload: bytes, rest: bytes) | Eof | Truncated | TooBig

  /** ReadFrame on the bytes still to come, which end there. */
  function Decode(s: bytes): FrameRead {
    if s == [] then Eof
    else if |s| < 4 then Truncated
    else
      var length := FromBe32(s[..4]);
      if length > MAX_FRAME then TooBig
      else if |s| - 4 < length then Truncated
      else Frame(s[4..4 + length], s[4 + length..])
  }

  /** The receiving side of a connection: the bytes still to come. */
  class Stream {
    var data: bytes

    constructor (initial: bytes)
      ensures data == initial
    {
      data := initial;
    }

    /** io.ReadFull of `n` bytes: all of them, or whatever is left when the stream ends first. */
    method ReadFull(n: nat) returns (got: bytes, full: bool)
      modifies this
      ensures full <==> n <= |old(data)|
      ensures got + data == old(data) && (if full then |got| == n else data == [])
    {
      if n <= |data| {
        got, full := data[..n], true;
        data := data[n..];
      } else {
        got, full := data, false;
        data := [];
      }
    }

    /** Reading consumes exactly the frame it returns, and the length alone of one it refuses. */
    method ReadFrame() returns (r: FrameRead)
      modifies this
      ensures r == Decode(old(data))
      ensures data == match r case Frame(_, rest) => rest case TooBig => old(data)[4..] case _ => []
    {
      ghost var before := data;
      var header, full := ReadFull(4);
      if !full {
        return if header == [] then Eof else Truncated;
      }
      assert before[..4] == header && before[4..] == data;
      var length := FromBe32(header);
      if length > MAX_FRAME {
        return TooBig;
      }
      var payload: bytes := [];
      if length > 0 {
        payload, full := ReadFull(length);
        if !full {
          return Truncated;
        }
      }
      assert before[4..4 + length] == payload && before[4 + length..] == data;
      return Frame(payload, data);
    }
  }

  /** A payload within the limit comes back whole, with nothing of what follows touched. */
  lemma FrameRoundTrip(payload: bytes, rest: bytes)
    requires |payload| <= MAX_FRAME
    ensures Decode(Encode(payload) + rest) == Frame(payload, rest)
  {
    DecodeEncoded(payload, rest);
    assert payload[..|payload|] == payload && payload[|payload|..] + rest == rest;
  }

  /** Reading a written frame of any size sees only its length modulo 2^32. */
  lemma DecodeEncoded(payload: bytes, rest: bytes)
    ensures var n := Uint32(|payload|);
      Decode(Encode(payload) + rest) ==
        if n > MAX_FRAME then TooBig
        else if n == 0 then Frame([], rest)
        else Frame(payload[..n], payload[n..] + rest)
  {
    var n := Uint32(|payload|);
    var body := if n > 0 then payload else [];
    var s := Encode(payload) + rest;
    Be32RoundTrip(n);
    assert s == Be32(n) + (body + rest);
    assert s[..4] == Be32(n) && s[4..] == body + rest;
    assert s[4..4 + n] == (body + rest)[..n] && s[4 + n..] == (body + rest)[n..];
    if n > 0 {
      assert (body + rest)[..n] == payload[..n] && (body + rest)[n..] == payload[n..] + rest;
    }
  }

  /**
   The limit is exact: the writer accepts anything, and a frame comes back if and
   only if it is within the limit. Below 4 GiB a larger one is refused; from there
   on its length wraps, and when the wrapped length is within the limit the reader
   returns a shorter payload than was sent.
   */
  lemma OversizeRefused(payload: bytes, rest: bytes)
    ensures Decode(Encode(payload) + rest) == Frame(payload, rest) <==> |payload| <= 10 * 1024 * 1024
    ensures MAX_FRAME < |payload| < TWO_32 ==> Decode(Encode(payload) + rest) == TooBig
    ensures |payload| >= TWO_32 && Uint32(|payload|) <= MAX_FRAME ==>
      var r := Decode(Encode(payload) + rest); r.Frame? && r.payload < payload
  {
    DecodeEncoded(payload, rest);
  }

  /** In particular 4 GiB of payload are written as an empty frame. */
  lemma FourGibReadsEmpty(payload: bytes, rest: bytes)
    requires |payload| == TWO_32
    ensures Encode(payload) == [0, 0, 0, 0] && Decode(Encode(payload) + rest) == Frame([], rest)
  {
    DecodeEncoded(payload, rest);
  }

  // ------------------------------------------------------------- many frames

  function EncodeAll(ps: seq<bytes>): bytes {
    if ps == [] then [] else Encode(ps[0]) + EncodeAll(ps[1..])
  }

  /** Everything a reader gets from a finite stream: payloads, then why it stopped. */
  datatype Session = Session(payloads: seq<bytes>, end: FrameRead)

  function ReadAll(s: bytes): Session
    decreases |s|
  {
    match Decode(s)
    case Frame(p, rest) => var more := ReadAll(rest); Session([p] + more.payloads, more.end)
    case other => Session([], other)
  }

  ghost predicate AllFit(ps: seq<bytes>) {
    forall i :: 0 <= i < |ps| ==> |ps[i]| <= MAX_FRAME
  }

  /** How many whole frames the first `k` bytes of the stream hold. */
  function WholeFrames(ps: seq<bytes>, k: nat): (n: nat)
    ensures n <= |ps|
  {
    if ps == [] || k < |Encode(ps[0])| then 0 else 1 + WholeFrames(ps[1..], k - |Encode(ps[0])|)
  }

  lemma ReadOne(p: bytes, rest: bytes)
    requires |p| <= MAX_FRAME
    ensures ReadAll(Encode(p) + rest) == Session([p] + ReadAll(rest).payloads, ReadAll(rest).end)
  {
    FrameRoundTrip(p, rest);
  }

  /** A frame cut short is never mistaken for a payload. */
  lemma CutFrame(p: bytes, k: nat)
    requires |p| <= MAX_FRAME && k < |Encode(p)|
    ensures Decode(Encode(p)[..k]) == if k == 0 then Eof else Truncated
  {
    var s := Encode(p);
    if k >= 4 {
      Be32RoundTrip(|p|);
      assert s[..k][..4] == Be32(|p|);
    }
  }

  /** A cut after the first frame is a cut of the frames behind it. */
  lemma CutLater(p: bytes, tail: bytes, k: nat)
    requires |p| <= MAX_FRAME && |Encode(p)| <= k <= |Encode(p)| + |tail|
    ensures ReadAll((Encode(p) + tail)[..k]) ==
      var more := ReadAll(tail[..k - |Encode(p)|]); Session([p] + more.payloads, more.end)
  {
    var j := k - |Encode(p)|;
    assert (Encode(p) + tail)[..k] == Encode(p) + tail[..j];
    ReadOne(p, tail[..j]);
  }

  lemma EncodeCons(ps: seq<bytes>, n: nat)
    requires ps != [] && n < |ps|
    ensures ps[..n + 1] == [ps[0]] + ps[1..][..n]
    ensures |EncodeAll(ps[..n + 1])| == |Encode(ps[0])| + |EncodeAll(ps[1..][..n])|
  {
  }

  /**
   Cutting a stream of frames anywhere gives exactly the frames that are whole
   before the cut, then a clean end at a frame boundary and an error elsewhere.
   */
  lemma {:induction false} CutStream(ps: seq<bytes>, k: nat)
    requires AllFit(ps) && k <= |EncodeAll(ps)|
    ensures var n := WholeFrames(ps, k);
      && |EncodeAll(ps[..n])| <= k
      && ReadAll(EncodeAll(ps)[..k]) == Session(ps[..n], if |EncodeAll(ps[..n])| == k then Eof else Truncated)
    decreases |ps|
  {
    assert ps[..0] == [] && EncodeAll([]) == [];
    if ps == [] {
      assert EncodeAll(ps)[..k] == [];
    } else if k < |Encode(ps[0])| {
      assert EncodeAll(ps)[..k] == Encode(ps[0])[..k];
      CutFrame(ps[0], k);
    } else {
      var j := k - |Encode(ps[0])|;
      CutStream(ps[1..], j);
      CutLater(ps[0], EncodeAll(ps[1..]), k);
      EncodeCons(ps, WholeFrames(ps[1..], j));
    }
  }

  /** Uncut, the whole sequence comes back, then a clean end. */
  lemma StreamRoundTrip(ps: seq<bytes>)
    requires AllFit(ps)
    ensures ReadAll(EncodeAll(ps)) == Session(ps, Eof)
  {
    var s := EncodeAll(ps);
    CutStream(ps, |s|);
    assert s[..|s|] == s;
    WholeStream(ps);
    assert ps[..|ps|] == ps;
  }

  lemma {:induction false} WholeStream(ps: seq<bytes>)
    ensures WholeFrames(ps, |EncodeAll(ps)|) == |ps|
  {
    if ps != [] {
      WholeStream(ps[1..]);
    }
  }

  // ---------------------------------------------------------- the request loop

  datatype Request = Request(id: string, command: string, body: bytes)

  datatype Response = Response(id: string, success: bool, body: bytes)

  predicate IsTrace(r: Request) {
    r.command == "trace" || r.command == "stream_exec" || r.command == "execsnoop"
  }

  /**
   What the loop is given from outside: JSON decoding of requests, the command
   dispatcher, JSON encoding of responses (which may fail), and the two
   error replies. `idOf` is the id a client reads in a reply.
   */
  datatype Service = Service(
    decode: bytes -> Option<Request>,
    dispatch: Request -> Response,
    encode: Response -> Option<bytes>,
    encodingFailed: string -> bytes,
    invalidJson: bytes -> bytes,
    idOf: bytes -> string)

  /** Dispatching keeps the request's id, and replies carry the id of what they encode. */
  ghost predicate KeepsIds(v: Service) {
    && (forall r: Request :: v.dispatch(r).id == r.id)
    && (forall r: Response :: v.encode(r).Some? ==> v.idOf(v.encode(r).value) == r.id)
    && (forall id: string :: v.idOf(v.encodingFailed(id)) == id)
    && (forall p: bytes :: v.idOf(v.invalidJson(p)) == "")
  }

  predicate TracePayload(v: Service, payload: bytes) {
    v.decode(payload).Some? && IsTrace(v.decode(payload).value)
  }

  /** The reply to one payload that is not a trace request. */
  function Reply(v: Service, payload: bytes): bytes {
    match v.decode(payload)
    case None => v.invalidJson(payload)
    case Some(r) =>
      match v.encode(v.dispatch(r))
      case Some(b) => b
      case None => v.encodingFailed(r.id)
  }

  /** The replies to the payloads of one connection, up to a trace request. */
  function Replies(v: Service, payloads: seq<bytes>): seq<bytes>
    decreases |payloads|
  {
    if payloads == [] || TracePayload(v, payloads[0]) then []
    else [Reply(v, payloads[0])] + Replies(v, payloads[1..])
  }

  /** The replies to what a stream holds. */
  function Answers(v: Service, s: bytes): seq<bytes> {
    Replies(v, ReadAll(s).payloads)
  }

  lemma AnswersStep(v: Service, s: bytes)
    ensures Answers(v, s) ==
      match Decode(s)
      case Frame(p, rest) => if TracePayload(v, p) then [] else [Reply(v, p)] + Answers(v, rest)
      case _ => []
  {
  }

  lemma {:induction false} EncodeAllSnoc(ps: seq<bytes>, p: bytes)
    ensures EncodeAll(ps + [p]) == EncodeAll(ps) + Encode(p)
    decreases |ps|
  {
    var all := ps + [p];
    if ps == [] {
      assert all == [p] && all[1..] == [];
      assert EncodeAll([]) == [];
    } else {
      assert all[0] == ps[0] && all[1..] == ps[1..] + [p];
      EncodeAllSnoc(ps[1..], p);
    }
  }

  lemma Shift(sent: seq<bytes>, reply: bytes, more: seq<bytes>)
    ensures sent + ([reply] + more) == (sent + [reply]) + more
    ensures sent + [] == sent
  {
  }

  function Cut(s: bytes, k: nat): (r: bytes)
    ensures |r| <= k && r <= s
  {
    if |s| <= k then s else s[..k]
  }

  lemma CutAppend(s: bytes, t: bytes, k: nat)
    ensures Cut(Cut(s, k) + t, k) == Cut(s + t, k)
    ensures |s| >= k ==> Cut(s + t, k) == Cut(s, k)
  {
  }

  /** The sending side of a connection that breaks once `capacity` bytes are through. */
  class Sink {
    var data: bytes
    const capacity: nat

    constructor (capacity: nat)
      ensures data == [] && this.capacity == capacity
    {
      data, this.capacity := [], capacity;
    }

    method Write(s: bytes) returns (ok: bool)
      modifies this
      ensures data == Cut(old(data) + s, capacity)
      ensures ok <==> |old(data)| + |s| <= capacity
    {
      ok := |data| + |s| <= capacity;
      data := Cut(data + s, capacity);
    }

    /** A failed header ends the call; what got through stays on the wire. */
    method WriteFrame(payload: bytes) returns (ok: bool)
      modifies this
      ensures data == Cut(old(data) + Encode(payload), capacity)
      ensures ok <==> |old(data)| + |Encode(payload)| <= capacity
    {
      var length := Uint32(|payload|);
      var header := Be32(length);
      ghost var before := data;
      ok := Write(header);
      if length > 0 {
        assert before + Encode(payload) == (before + header) + payload;
        CutAppend(before + header, payload, capacity);
        if ok {
          ok := Write(payload);
        }
      }
    }
  }

  lemma {:induction false} EncodeAllConcat(a: seq<bytes>, b: seq<bytes>)
    ensures EncodeAll(a + b) == EncodeAll(a) + EncodeAll(b)
    decreases |a|
  {
    if a == [] {
      assert a + b == b;
    } else {
      assert (a + b)[0] == a[0] && (a + b)[1..] == a[1..] + b;
      EncodeAllConcat(a[1..], b);
    }
  }

  lemma FullSink(sent: seq<bytes>, more: seq<bytes>, k: nat)
    requires |EncodeAll(sent)| >= k
    ensures Cut(EncodeAll(sent + more), k) == Cut(EncodeAll(sent), k)
  {
    EncodeAllConcat(sent, more);
    CutAppend(EncodeAll(sent), EncodeAll(more), k);
  }

  /**
   handleConnection, up to the hand-over of a trace request, on a connection that
   takes `capacity` bytes before its writes fail. A failed reply ends the loop; a
   failed reply to invalid JSON does not.
   */
  method HandleConnection(v: Service, input: bytes, capacity: nat) returns (output: bytes)
    ensures output == Cut(EncodeAll(Replies(v, ReadAll(input).payloads)), capacity)
  {
    var conn := new Stream(input);
    var out := new Sink(capacity);
    ghost var sent: seq<bytes> := [];
    while true
      invariant fresh(conn) && fresh(out) && out.capacity == capacity
      invariant out.data == Cut(EncodeAll(sent), capacity)
      invariant Answers(v, input) == sent + Answers(v, conn.data)
      decreases |conn.data|
    {
      AnswersStep(v, conn.data);
      var frame := conn.ReadFrame();
      if !frame.Frame? || TracePayload(v, frame.payload) {
        Shift(sent, [], []);
        return out.data;
      }
      var reply := Reply(v, frame.payload);
      EncodeAllSnoc(sent, reply);
      CutAppend(EncodeAll(sent), Encode(reply), capacity);
      Shift(sent, reply, Answers(v, conn.data));
      sent := sent + [reply];
      var ok := out.WriteFrame(reply);
      if !ok && v.decode(frame.payload).Some? {
        FullSink(sent, Answers(v, conn.data), capacity);
        return out.data;
      }
    }
  }

  /** The id a reply to this payload must carry: empty when the payload is not a request. */
  function IdFor(v: Service, payload: bytes): string {
    match v.decode(payload)
    case None => ""
    case Some(r) => r.id
  }

  /**
   What a payload must be answered with: text that is no request with the error
   for it, a request with the encoding of its dispatched response, or with the
   error that carries its id when that response does not encode.
   */
  ghost predicate Answered(v: Service, payload: bytes, reply: bytes) {
    match v.decode(payload)
    case None => reply == v.invalidJson(payload)
    case Some(r) =>
      && (forall b :: v.encode(v.dispatch(r)) == Some(b) ==> reply == b)
      && (v.encode(v.dispatch(r)) == None ==> reply == v.encodingFailed(r.id))
  }

  /** One reply per payload in order, the k-th with the k-th id, stopping exactly at the first trace request. */
  lemma {:induction false} RepliesInOrder(v: Service, payloads: seq<bytes>)
    requires KeepsIds(v)
    ensures var rs := Replies(v, payloads);
      && |rs| <= |payloads|
      && (forall k :: 0 <= k < |rs| ==> v.idOf(rs[k]) == IdFor(v, payloads[k]) && !TracePayload(v, payloads[k]))
      && (|rs| < |payloads| ==> TracePayload(v, payloads[|rs|]))
    ensures forall k :: 0 <= k < |Replies(v, payloads)| ==> Answered(v, payloads[k], Replies(v, payloads)[k])
    ensures forall p :: TracePayload(v, p) <==>
      v.decode(p).Some? && v.decode(p).value.command in {"trace", "stream_exec", "execsnoop"}
    decreases |payloads|
  {
    if payloads != [] && !TracePayload(v, payloads[0]) {
      RepliesInOrder(v, payloads[1..]);
    }
  }

  /**
   End to end: a client that sends the given requests over a connection that
   breaks anywhere reads, all within the frame limit, a prefix of the replies,
   the k-th with the k-th id, and never a wrong one; unbroken, it reads all of
   them, up to a trace request.
   */
  lemma ConnectionAnswersInOrder(v: Service, requests: seq<bytes>, capacity: nat)
    requires KeepsIds(v) && AllFit(requests) && AllFit(Replies(v, requests))
    ensures var sent := EncodeAll(Replies(v, ReadAll(EncodeAll(requests)).payloads));
      var got := ReadAll(Cut(sent, capacity));
      && (got.end == Eof || got.end == Truncated) && |got.payloads| <= |requests|
      && (forall k :: 0 <= k < |got.payloads| ==> v.idOf(got.payloads[k]) == IdFor(v, requests[k]))
      && (capacity >= |sent| && |got.payloads| < |requests| ==> TracePayload(v, requests[|got.payloads|]))
  {
    StreamRoundTrip(requests);
    RepliesInOrder(v, requests);
    var rs := Replies(v, requests);
    var sent := EncodeAll(rs);
    if capacity >= |sent| {
      StreamRoundTrip(rs);
    } else {
      CutStream(rs, capacity);
      assert Cut(sent, capacity) == sent[..capacity];
    }
  }
}

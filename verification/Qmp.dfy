/**
 The QMP client (internal/qmp/client.go): responses are picked out of a line
 stream in which QEMU interleaves asynchronous events. JSON decoding is given.
 */
module Qmp {
  import opened Common
  import opened Strings

  type Json = string

  /** A line decoded as qmpResponse; an absent and a null `return` are both None. */
  datatype Message = Message(ret: Option<Json>, error: Option<string>, event: string)

  type Decoder = string -> Option<Message>

  /** strings.Contains. */
  predicate Contains(s: string, part: string) {
    exists i :: 0 <= i <= |s| && part <= s[i..]
  }

  /** The textual test by which readLine drops events. */
  predicate LooksLikeEvent(line: string) {
    Contains(line, "\"event\":") && !Contains(line, "\"return\":") && !Contains(line, "\"error\":")
  }

  /** The structural test by which Execute drops the events that got through. */
  predicate IsEvent(m: Message) {
    m.event != "" && m.ret.None? && m.error.None?
  }

  datatype Reply = Returned(value: Option<Json>) | Failed(error: string) | BadJson | Closed

  function ReplyOf(m: Message): Reply {
    match m.error
    case Some(e) => Failed(e)
    case None => Returned(m.ret)
  }

  /** What one call yields and the lines it leaves. */
  datatype Outcome = Outcome(reply: Reply, rest: seq<string>)

  /** readLine: the next line that is neither blank nor textually an event. */
  function NextLine(lines: seq<string>): Option<(string, seq<string>)>
    decreases |lines|
  {
    if lines == [] then None
    else
      var line := TrimSpace(lines[0]);
      if line == "" || LooksLikeEvent(line) then NextLine(lines[1..]) else Some((line, lines[1..]))
  }

  lemma {:induction false} NextLineShrinks(lines: seq<string>)
    ensures NextLine(lines).Some? ==> |NextLine(lines).value.1| < |lines|
    decreases |lines|
  {
    if lines != [] {
      NextLineShrinks(lines[1..]);
    }
  }

  /** Execute, once its command has been written. */
  function Await(decode: Decoder, lines: seq<string>): Outcome
    decreases |lines|
  {
    match NextLine(lines)
    case None => Outcome(Closed, [])
    case Some((line, rest)) =>
      NextLineShrinks(lines);
      match decode(line)
      case None => Outcome(BadJson, rest)
      case Some(m) => if IsEvent(m) then Await(decode, rest) else Outcome(ReplyOf(m), rest)
  }

  /** handshake; `greets` tells whether a line decodes as a greeting. */
  function Greet(greets: string -> bool, decode: Decoder, lines: seq<string>): (bool, seq<string>) {
    match NextLine(lines)
    case None => (false, [])
    case Some((line, rest)) =>
      if !greets(line) then (false, rest)
      else
        var first := Await(decode, rest);
        (first.reply.Returned?, first.rest)
  }

  /** The client's buffered reader. */
  class Client {
    var pending: seq<string>

    constructor (lines: seq<string>)
      ensures pending == lines
    {
      pending := lines;
    }

    method ReadLine() returns (r: Option<string>)
      modifies this
      ensures NextLine(old(pending)) == None ==> r == None && pending == []
      ensures NextLine(old(pending)).Some? ==>
        r == Some(NextLine(old(pending)).value.0) && pending == NextLine(old(pending)).value.1
    {
      while pending != []
        invariant NextLine(old(pending)) == NextLine(pending)
        decreases |pending|
      {
        var line := TrimSpace(pending[0]);
        pending := pending[1..];
        if line != "" && !LooksLikeEvent(line) {
          return Some(line);
        }
      }
      return None;
    }

    method Execute(decode: Decoder) returns (reply: Reply)
      modifies this
      ensures Outcome(reply, pending) == Await(decode, old(pending))
    {
      while true
        invariant Await(decode, old(pending)) == Await(decode, pending)
        decreases |pending|
      {
        NextLineShrinks(pending);
        var line := ReadLine();
        if line.None? {
          return Closed;
        }
        var m := decode(line.value);
        if m.None? {
          return BadJson;
        }
        if !IsEvent(m.value) {
          return ReplyOf(m.value);
        }
      }
    }

    /** handshake: the greeting, then the response to qmp_capabilities. */
    method Handshake(greets: string -> bool, decode: Decoder) returns (ok: bool)
      modifies this
      ensures (ok, pending) == Greet(greets, decode, old(pending))
    {
      var line := ReadLine();
      if line.None? || !greets(line.value) {
        return false;
      }
      var reply := Execute(decode);
      return reply.Returned?;
    }
  }

  // -------------------------------------------------------------- the protocol

  /** A line that answers no command: blank, or an event, whatever its text mentions. */
  ghost predicate Noise(decode: Decoder, line: string) {
    var t := TrimSpace(line);
    t == "" ||
    match decode(t)
    case None => false
    case Some(m) => m.event != "" && m.ret.None? && m.error.None?
  }

  /** A line that answers a command. */
  ghost predicate IsResponse(decode: Decoder, line: string) {
    var t := TrimSpace(line);
    t != "" &&
    match decode(t)
    case None => false
    case Some(m) => m.event == "" || m.ret.Some? || m.error.Some?
  }

  /** The response spells its key the way QEMU does, directly followed by a colon. */
  ghost predicate SpellsKey(line: string) {
    Contains(TrimSpace(line), "\"return\":") || Contains(TrimSpace(line), "\"error\":")
  }

  /** Noise is skipped, by the text or by the structure. */
  lemma {:induction false} NoiseIsSkipped(decode: Decoder, noise: seq<string>, rest: seq<string>)
    requires forall i :: 0 <= i < |noise| ==> Noise(decode, noise[i])
    ensures Await(decode, noise + rest) == Await(decode, rest)
    decreases |noise|
  {
    if noise == [] {
      assert noise + rest == rest;
    } else {
      var all := noise + rest;
      assert all[0] == noise[0] && all[1..] == noise[1..] + rest;
      NoiseIsSkipped(decode, noise[1..], rest);
      SkipOne(decode, all);
    }
  }

  lemma SkipOne(decode: Decoder, lines: seq<string>)
    requires lines != [] && Noise(decode, lines[0])
    ensures Await(decode, lines) == Await(decode, lines[1..])
  {
  }

  /**
   A response at the head of the stream is what Execute returns, if and only
   if its text does not look like an event; otherwise it is lost.
   */
  lemma ResponseIsTaken(decode: Decoder, line: string, rest: seq<string>)
    requires IsResponse(decode, line)
    ensures !LooksLikeEvent(TrimSpace(line)) ==>
      Await(decode, [line] + rest) == Outcome(ReplyOf(decode(TrimSpace(line)).value), rest)
    ensures LooksLikeEvent(TrimSpace(line)) ==> Await(decode, [line] + rest) == Await(decode, rest)
    ensures SpellsKey(line) ==> !LooksLikeEvent(TrimSpace(line))
  {
  }

  const AMBIGUOUS := "{\"return\" : {\"event\": 0}}"

  /**
   A lost response: its key is spelled with a blank before the colon and its
   value mentions an event, so its command hangs until the stream closes.
   */
  lemma ResponseLost()
    ensures var decode := line => Some(Message(Some("{\"event\": 0}"), None, ""));
      IsResponse(decode, AMBIGUOUS) && Await(decode, [AMBIGUOUS]) == Outcome(Closed, [])
  {
    var decode: Decoder := line => Some(Message(Some("{\"event\": 0}"), None, ""));
    TrimNothing(AMBIGUOUS);
    AmbiguousText(AMBIGUOUS);
    ResponseIsTaken(decode, AMBIGUOUS, []);
    assert [AMBIGUOUS] + [] == [AMBIGUOUS];
  }

  /** Its only colon right after a quote belongs to the event key. */
  lemma AmbiguousColons(line: string, j: nat)
    requires line == AMBIGUOUS && 2 <= j < |line| && line[j] == ':' && line[j - 1] == '"'
    ensures line[j - 2] == 't'
  {
  }

  lemma AmbiguousLacks(line: string, part: string)
    requires line == AMBIGUOUS
    requires |part| > 3 && part[|part| - 2] == '"' && part[|part| - 1] == ':' && part[|part| - 3] != 't'
    ensures !Contains(line, part)
  {
    forall i | 0 <= i <= |line| && part <= line[i..]
      ensures false
    {
      var j := i + |part| - 1;
      assert line[i..][|part| - 1] == line[j] && line[i..][|part| - 2] == line[j - 1];
      assert line[i..][|part| - 3] == line[j - 2];
      AmbiguousColons(line, j);
    }
  }

  lemma AmbiguousText(line: string)
    requires line == AMBIGUOUS
    ensures LooksLikeEvent(line)
  {
    AmbiguousLacks(line, "\"return\":");
    AmbiguousLacks(line, "\"error\":");
    assert line == "{\"return\" : {" + "\"event\":" + " 0}}";
    ContainsMiddle("{\"return\" : {", "\"event\":", " 0}}");
  }

  lemma ContainsMiddle(a: string, part: string, b: string)
    ensures Contains(a + part + b, part)
  {
    var s := a + part + b;
    assert s[|a|..] == part + b;
  }

  /** One command's worth of the stream: any noise, then the response. */
  datatype Turn = Turn(noise: seq<string>, response: string)

  ghost predicate ValidTurn(decode: Decoder, t: Turn) {
    (forall i :: 0 <= i < |t.noise| ==> Noise(decode, t.noise[i])) && IsResponse(decode, t.response)
  }

  ghost predicate AllValid(decode: Decoder, turns: seq<Turn>) {
    forall i :: 0 <= i < |turns| ==> ValidTurn(decode, turns[i])
  }

  /** The response's text is not taken for an event: it mentions none, or spells a key of a response. */
  predicate Recognised(t: Turn) {
    var text := TrimSpace(t.response);
    !Contains(text, "\"event\":") || Contains(text, "\"return\":") || Contains(text, "\"error\":")
  }

  ghost predicate AllRecognised(turns: seq<Turn>) {
    forall i :: 0 <= i < |turns| ==> Recognised(turns[i])
  }

  function StreamOf(turns: seq<Turn>, tail: seq<string>): seq<string> {
    if turns == [] then tail else turns[0].noise + ([turns[0].response] + StreamOf(turns[1..], tail))
  }

  /** The outcomes of `n` commands in a row, and the lines left. */
  datatype Answers = Answers(replies: seq<Reply>, rest: seq<string>)

  function AwaitMany(decode: Decoder, lines: seq<string>, n: nat): (a: Answers)
    ensures |a.replies| == n
    decreases n
  {
    if n == 0 then Answers([], lines)
    else
      var first := Await(decode, lines);
      var more := AwaitMany(decode, first.rest, n - 1);
      Answers([first.reply] + more.replies, more.rest)
  }

  /** What a response must be reported as, on its decoded fields: its error if it has one, else its return value. */
  function ReplyTo(decode: Decoder, line: string): Reply {
    match decode(TrimSpace(line))
    case None => BadJson
    case Some(m) => if m.error.Some? then Failed(m.error.value) else Returned(m.ret)
  }

  ghost function RepliesTo(decode: Decoder, turns: seq<Turn>): (rs: seq<Reply>)
    ensures |rs| == |turns| && forall i :: 0 <= i < |turns| ==> rs[i] == ReplyTo(decode, turns[i].response)
  {
    seq(|turns|, i requires 0 <= i < |turns| => ReplyTo(decode, turns[i].response))
  }

  lemma TurnTaken(decode: Decoder, t: Turn, rest: seq<string>)
    requires ValidTurn(decode, t)
    ensures Await(decode, t.noise + ([t.response] + rest)) ==
      if Recognised(t) then Outcome(ReplyTo(decode, t.response), rest) else Await(decode, rest)
  {
    NoiseIsSkipped(decode, t.noise, [t.response] + rest);
    ResponseIsTaken(decode, t.response, rest);
  }

  function Prepended(rs: seq<Reply>, a: Answers): Answers {
    Answers(rs + a.replies, a.rest)
  }

  lemma ConsReplies(decode: Decoder, t: Turn, k: seq<Turn>, a: Answers)
    ensures Prepended([ReplyTo(decode, t.response)], Prepended(RepliesTo(decode, k), a))
      == Prepended(RepliesTo(decode, [t] + k), a)
  {
  }

  lemma AwaitTurn(decode: Decoder, t: Turn, lines: seq<string>, n: nat)
    requires ValidTurn(decode, t)
    ensures var all, after := t.noise + ([t.response] + lines), AwaitMany(decode, lines, n);
      if Recognised(t)
      then AwaitMany(decode, all, n + 1) == Prepended([ReplyTo(decode, t.response)], after)
      else n > 0 ==> AwaitMany(decode, all, n) == after
  {
    TurnTaken(decode, t, lines);
  }

  lemma TurnPrepends(decode: Decoder, t: Turn, lines: seq<string>, n: nat, k: seq<Turn>, a: Answers)
    requires ValidTurn(decode, t) && Recognised(t)
    requires AwaitMany(decode, lines, n) == Prepended(RepliesTo(decode, k), a)
    ensures AwaitMany(decode, t.noise + ([t.response] + lines), n + 1) == Prepended(RepliesTo(decode, [t] + k), a)
  {
    AwaitTurn(decode, t, lines, n);
    ConsReplies(decode, t, k, a);
  }

  /** With every response recognised, one command per turn leaves exactly the tail. */
  lemma {:induction false} AllTaken(decode: Decoder, turns: seq<Turn>, tail: seq<string>)
    requires AllValid(decode, turns) && AllRecognised(turns)
    ensures AwaitMany(decode, StreamOf(turns, tail), |turns|) == Answers(RepliesTo(decode, turns), tail)
    decreases |turns|
  {
    if turns != [] {
      var t, rest := turns[0], turns[1..];
      AllTaken(decode, rest, tail);
      TurnPrepends(decode, t, StreamOf(rest, tail), |rest|, rest, Answers([], tail));
      assert [t] + rest == turns;
    }
  }

  lemma {:induction false} AwaitConsumes(decode: Decoder, lines: seq<string>)
    ensures lines == [] ==> Await(decode, lines) == Outcome(Closed, [])
    ensures lines != [] ==> |Await(decode, lines).rest| < |lines|
    decreases |lines|
  {
    NextLineShrinks(lines);
    if NextLine(lines).Some? {
      AwaitConsumes(decode, NextLine(lines).value.1);
    }
  }

  /** Some command met the end of the stream, or ate into the tail. */
  ghost predicate OverRan(a: Answers, tail: seq<string>) {
    |a.rest| < |tail| || Closed in a.replies
  }

  lemma {:induction false} TooMany(decode: Decoder, lines: seq<string>, n: nat)
    requires n > 0
    ensures var a := AwaitMany(decode, lines, n); |a.rest| <= |lines| && OverRan(a, lines)
    decreases n
  {
    AwaitConsumes(decode, lines);
    if n > 1 {
      TooMany(decode, Await(decode, lines).rest, n - 1);
    }
    if lines == [] {
      assert AwaitMany(decode, lines, n).replies[0] == Closed;
    }
  }

  lemma PrependedOverRan(r: Reply, a: Answers, tail: seq<string>)
    requires OverRan(a, tail)
    ensures OverRan(Prepended([r], a), tail)
  {
  }

  /** With more commands than recognised responses, the last ones run over the end. */
  lemma {:induction false} LostResponse(decode: Decoder, turns: seq<Turn>, tail: seq<string>, n: nat)
    requires AllValid(decode, turns)
    requires n > |turns| || (n == |turns| && !AllRecognised(turns))
    ensures OverRan(AwaitMany(decode, StreamOf(turns, tail), n), tail)
    decreases |turns|
  {
    if turns == [] {
      TooMany(decode, tail, n);
    } else {
      var t, rest := turns[0], turns[1..];
      var lines := StreamOf(rest, tail);
      if Recognised(t) {
        LostResponse(decode, rest, tail, n - 1);
        AwaitTurn(decode, t, lines, n - 1);
        PrependedOverRan(ReplyTo(decode, t.response), AwaitMany(decode, lines, n - 1), tail);
      } else {
        LostResponse(decode, rest, tail, n);
        AwaitTurn(decode, t, lines, n);
      }
    }
  }

  /**
   For every stream with one response per command and any events between them,
   each Execute returns its own response and the rest of the stream is left
   alone, if and only if no response's text looks like an event.
   */
  lemma ResponsesInOrder(decode: Decoder, turns: seq<Turn>, tail: seq<string>)
    requires AllValid(decode, turns)
    ensures AwaitMany(decode, StreamOf(turns, tail), |turns|) == Answers(RepliesTo(decode, turns), tail)
      <==> AllRecognised(turns)
    ensures AllRecognised(turns) ==>
      forall i, m :: 0 <= i < |turns| && decode(TrimSpace(turns[i].response)) == Some(m) ==>
        AwaitMany(decode, StreamOf(turns, tail), |turns|).replies[i]
          == if m.error.Some? then Failed(m.error.value) else Returned(m.ret)
  {
    if AllRecognised(turns) {
      AllTaken(decode, turns, tail);
    } else {
      LostResponse(decode, turns, tail, |turns|);
      assert Closed !in RepliesTo(decode, turns);
    }
  }

  /** A line readLine drops by its text alone. */
  ghost predicate Dropped(line: string) {
    var text := TrimSpace(line);
    text == "" ||
    (Contains(text, "\"event\":") && !Contains(text, "\"return\":") && !Contains(text, "\"error\":"))
  }

  lemma {:induction false} DroppedSkipped(before: seq<string>, lines: seq<string>)
    requires forall i :: 0 <= i < |before| ==> Dropped(before[i])
    ensures NextLine(before + lines) == NextLine(lines)
    decreases |before|
  {
    var all := before + lines;
    if before == [] {
      assert all == lines;
    } else {
      assert all[0] == before[0] && all[1..] == before[1..] + lines;
      DroppedSkipped(before[1..], lines);
    }
  }

  /**
   A whole session: after any dropped lines the greeting is read, the handshake
   succeeds if and only if it is a greeting and qmp_capabilities did not fail, and
   the caller's commands then get the responses that follow, in order.
   */
  lemma HandshakeThenInOrder(greets: string -> bool, decode: Decoder, before: seq<string>, greeting: string,
                             turns: seq<Turn>, tail: seq<string>)
    requires (forall i :: 0 <= i < |before| ==> Dropped(before[i])) && !Dropped(greeting)
    requires turns != [] && AllValid(decode, turns) && AllRecognised(turns)
    ensures decode(TrimSpace(turns[0].response)).Some?
    ensures var (ok, rest) := Greet(greets, decode, before + ([greeting] + StreamOf(turns, tail)));
      && (ok <==> greets(TrimSpace(greeting)) && decode(TrimSpace(turns[0].response)).value.error.None?)
      && (ok ==> AwaitMany(decode, rest, |turns| - 1) == Answers(RepliesTo(decode, turns[1..]), tail))
  {
    var s := [greeting] + StreamOf(turns, tail);
    DroppedSkipped(before, s);
    assert s[0] == greeting && s[1..] == StreamOf(turns, tail);
    TurnTaken(decode, turns[0], StreamOf(turns[1..], tail));
    AllTaken(decode, turns[1..], tail);
  }
}

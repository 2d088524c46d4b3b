/**
 The buffered socket reader of triage/server.py: what it returns does not depend on how the
 stream is cut into receives, and only an unbounded read that meets the deadline loses bytes.
 */
module Readers {
  import opened Models

  type Byte = b: int | 0 <= b < 256

  const NEWLINE: Byte := 10

  /** One receive: a non-empty chunk, or the deadline. Nothing left means the peer closed. */
  datatype Receive = Data(bytes: seq<Byte>) | Deadline

  /** The bytes that arrive before the deadline or the end. */
  function Arriving(pending: seq<Receive>): seq<Byte> {
    if pending == [] || pending[0].Deadline? then [] else pending[0].bytes + Arriving(pending[1..])
  }

  predicate MeetsDeadline(pending: seq<Receive>) {
    exists i :: 0 <= i < |pending| && pending[i].Deadline?
  }

  /** No chunk is empty, as an empty one means the end of the stream. */
  predicate Proper(pending: seq<Receive>) {
    forall i | 0 <= i < |pending| && pending[i].Data? :: pending[i].bytes != []
  }

  // ---- what a call returns, from the bytes alone ----

  function NewlineIn(bytes: seq<Byte>, bound: nat): (at: Option<nat>)
    requires bound <= |bytes|
    ensures at.Some? ==> at.value < bound && bytes[at.value] == NEWLINE && NEWLINE !in bytes[..at.value]
    ensures at.None? ==> NEWLINE !in bytes[..bound]
  {
    if bound == 0 then None
    else if bytes[0] == NEWLINE then Some(0)
    else
      assert bytes[..bound] == [bytes[0]] + bytes[1..][..bound - 1];
      match NewlineIn(bytes[1..], bound - 1)
      case None => None
      case Some(k) =>
        assert bytes[..k + 1] == [bytes[0]] + bytes[1..][..k];
        Some(k + 1)
  }

  function Bounded(n: nat, limit: int): nat { if limit < 0 || n < limit then n else limit }

  /** A line with its newline, or as much as the limit or the stream allows. */
  function LineLength(bytes: seq<Byte>, limit: int): (n: nat)
    ensures n <= |bytes|
  {
    var bound := Bounded(|bytes|, limit);
    var at := NewlineIn(bytes, bound);
    if at.Some? then at.value + 1 else bound
  }

  function ReadLength(bytes: seq<Byte>, size: int): (n: nat)
    ensures n <= |bytes|
  {
    if size < 0 || |bytes| < size then |bytes| else size
  }

  lemma {:induction false} NewlineIsLocal(a: seq<Byte>, b: seq<Byte>, bound: nat)
    requires bound <= |a| && bound <= |b| && a[..bound] == b[..bound]
    ensures NewlineIn(a, bound) == NewlineIn(b, bound)
  {
    if bound > 0 {
      assert a[..bound][0] == b[..bound][0];
      assert a[1..][..bound - 1] == a[..bound][1..] && b[1..][..bound - 1] == b[..bound][1..];
      NewlineIsLocal(a[1..], b[1..], bound - 1);
    }
  }

  lemma {:induction false} NewlineStaysFirst(bytes: seq<Byte>, bound: nat, wider: nat)
    requires bound <= wider <= |bytes| && NewlineIn(bytes, bound).Some?
    ensures NewlineIn(bytes, wider) == NewlineIn(bytes, bound)
  {
    if bytes[0] != NEWLINE { NewlineStaysFirst(bytes[1..], bound - 1, wider - 1); }
  }

  /** Whether the bytes alone settle the line, whatever arrives after them. */
  predicate Decided(bytes: seq<Byte>, limit: int) {
    NewlineIn(bytes, Bounded(|bytes|, limit)).Some? || (limit >= 0 && |bytes| >= limit)
  }

  /** A longer stream returns the same line once the shorter one decides it. */
  lemma LineDecided(bytes: seq<Byte>, more: seq<Byte>, limit: int)
    requires Decided(bytes, limit)
    ensures Decided(bytes + more, limit) && LineLength(bytes + more, limit) == LineLength(bytes, limit)
  {
    hide NewlineIn;
    var bound, all := Bounded(|bytes|, limit), bytes + more;
    NewlineIsLocal(bytes, all, bound);
    if NewlineIn(bytes, bound).Some? { NewlineStaysFirst(all, bound, Bounded(|all|, limit)); }
  }

  /** A returned line has its newline at the end or not at all, and without one it is the limit or the whole stream. */
  lemma LineShape(bytes: seq<Byte>, limit: int)
    ensures var line := bytes[..LineLength(bytes, limit)];
            && (line == [] || NEWLINE !in line[..|line| - 1])
            && (line == [] || line[|line| - 1] != NEWLINE ==> line == bytes || |line| == limit)
            && (limit >= 0 ==> |line| <= limit)
  {
    hide NewlineIn;
    var n := LineLength(bytes, limit);
    if n > 0 { assert bytes[..n][..n - 1] == bytes[..n - 1]; }
  }

  /** A bounded read returns as many bytes as it asked for, or all there are; an unbounded one returns all. */
  lemma TakeShape(bytes: seq<Byte>, size: int)
    ensures var taken := bytes[..ReadLength(bytes, size)];
            && (size >= 0 ==> |taken| <= size && (|taken| == size || taken == bytes))
            && (size < 0 ==> taken == bytes)
  {
    assert bytes[..|bytes|] == bytes;
  }

  // ---- calls, with and without a deadline ahead ----

  datatype Call = Line(limit: int) | Take(size: int)

  function AnswerLength(bytes: seq<Byte>, call: Call): (n: nat)
    ensures n <= |bytes|
  {
    match call case Line(limit) => LineLength(bytes, limit) case Take(size) => ReadLength(bytes, size)
  }

  /** A call meets the deadline when the bytes before it do not settle its answer. */
  predicate TimesOut(bytes: seq<Byte>, deadline: bool, call: Call) {
    deadline && match call case Line(limit) => !Decided(bytes, limit) case Take(size) => size < 0 || |bytes| < size
  }

  datatype Outcome = Outcome(answer: Option<seq<Byte>>, left: seq<Byte>)

  /** The answer of a call and the bytes left for later ones, from the bytes before the deadline or the end. */
  function OutcomeOf(bytes: seq<Byte>, deadline: bool, call: Call): Outcome {
    if TimesOut(bytes, deadline, call) then Outcome(None, if call.Take? && call.size < 0 then [] else bytes)
    else
      var n := AnswerLength(bytes, call);
      Outcome(Some(bytes[..n]), bytes[n..])
  }

  function Returned(o: Outcome): seq<Byte> { if o.answer.Some? then o.answer.value else [] }

  /** An unbounded read that meets the deadline after something arrived. */
  predicate Loses(bytes: seq<Byte>, deadline: bool, call: Call) {
    deadline && call.Take? && call.size < 0 && bytes != []
  }

  /** One call keeps every byte exactly when it is not such a read. */
  lemma CallKeepsBytes(bytes: seq<Byte>, deadline: bool, call: Call)
    ensures var o := OutcomeOf(bytes, deadline, call);
            && (Returned(o) + o.left == bytes <==> !Loses(bytes, deadline, call))
            && (Loses(bytes, deadline, call) ==> o == Outcome(None, []))
  {
    hide LineLength, Decided;
  }

  /** A byte, then the deadline: an unbounded read raises and the byte is gone, a bounded one keeps it. */
  lemma LosingStream()
    ensures var pending := [Data([65]), Deadline];
            && Proper(pending) && Arriving(pending) == [65] && MeetsDeadline(pending)
            && OutcomeOf(Arriving(pending), MeetsDeadline(pending), Take(-1)) == Outcome(None, [])
            && OutcomeOf(Arriving(pending), MeetsDeadline(pending), Take(2)) == Outcome(None, [65])
  {
    var pending := [Data([65]), Deadline];
    assert pending[1].Deadline?;
    assert pending[1..][0].Deadline?;
  }

  /** A sequence of calls on one connection. */
  function Answers(bytes: seq<Byte>, deadline: bool, calls: seq<Call>): seq<Option<seq<Byte>>>
    decreases |calls|
  {
    if calls == [] then [] else
      var o := OutcomeOf(bytes, deadline, calls[0]);
      [o.answer] + Answers(o.left, deadline, calls[1..])
  }

  function Left(bytes: seq<Byte>, deadline: bool, calls: seq<Call>): seq<Byte>
    decreases |calls|
  {
    if calls == [] then bytes else Left(OutcomeOf(bytes, deadline, calls[0]).left, deadline, calls[1..])
  }

  function Joined(answers: seq<Option<seq<Byte>>>): seq<Byte> {
    if answers == [] then [] else (if answers[0].Some? then answers[0].value else []) + Joined(answers[1..])
  }

  predicate SomeCallLoses(bytes: seq<Byte>, deadline: bool, calls: seq<Call>)
    decreases |calls|
  {
    calls != [] &&
    (Loses(bytes, deadline, calls[0]) || SomeCallLoses(OutcomeOf(bytes, deadline, calls[0]).left, deadline, calls[1..]))
  }

  lemma {:induction false} AnswersNeverGrow(bytes: seq<Byte>, deadline: bool, calls: seq<Call>)
    ensures |Joined(Answers(bytes, deadline, calls))| + |Left(bytes, deadline, calls)| <= |bytes|
    decreases |calls|
  {
    hide OutcomeOf, Loses;
    if calls != [] {
      var o := OutcomeOf(bytes, deadline, calls[0]);
      AnswersNeverGrow(o.left, deadline, calls[1..]);
      OutcomeFits(bytes, deadline, calls[0]);
      assert Answers(bytes, deadline, calls)[1..] == Answers(o.left, deadline, calls[1..]);
    }
  }

  lemma OutcomeFits(bytes: seq<Byte>, deadline: bool, call: Call)
    ensures var o := OutcomeOf(bytes, deadline, call); |Returned(o)| + |o.left| <= |bytes|
  {
    hide AnswerLength, TimesOut;
  }

  /** Whatever is asked for, what was returned and what is left are the stream, unless some call loses bytes. */
  lemma {:induction false} AnswersConserve(bytes: seq<Byte>, deadline: bool, calls: seq<Call>)
    ensures Joined(Answers(bytes, deadline, calls)) + Left(bytes, deadline, calls) == bytes <==>
              !SomeCallLoses(bytes, deadline, calls)
    decreases |calls|
  {
    hide OutcomeOf, Loses;
    if calls != [] {
      var o := OutcomeOf(bytes, deadline, calls[0]);
      var answers, rest := Answers(o.left, deadline, calls[1..]), Left(o.left, deadline, calls[1..]);
      CallKeepsBytes(bytes, deadline, calls[0]);
      AnswersConserve(o.left, deadline, calls[1..]);
      AnswersNeverGrow(o.left, deadline, calls[1..]);
      assert Answers(bytes, deadline, calls)[1..] == answers;
      assert Joined(Answers(bytes, deadline, calls)) == Returned(o) + Joined(answers);
      if Loses(bytes, deadline, calls[0]) {
        assert |Joined(answers)| + |rest| == 0;
      } else {
        PrefixCancels(Returned(o), Joined(answers) + rest, o.left);
        assert Returned(o) + Joined(answers) + rest == Returned(o) + (Joined(answers) + rest);
      }
    }
  }

  lemma PrefixCancels(a: seq<Byte>, b: seq<Byte>, c: seq<Byte>)
    ensures a + b == a + c <==> b == c
  {
    assert (a + b)[|a|..] == b && (a + c)[|a|..] == c;
  }

  class DeadlineReader {
    var buffer: seq<Byte>
    var pending: seq<Receive>

    constructor (connection: seq<Receive>)
      ensures buffer == [] && pending == connection
    {
      buffer, pending := [], connection;
    }

    /** Everything that a caller can still get before the deadline. */
    function Ahead(): seq<Byte>
      reads this
    {
      buffer + Arriving(pending)
    }

    /** `_recv`: the next chunk, nothing at the end of the stream, or the deadline. */
    method Recv() returns (chunk: Option<seq<Byte>>)
      requires Proper(pending)
      modifies this`pending
      ensures Proper(pending) && MeetsDeadline(pending) == MeetsDeadline(old(pending))
      ensures chunk.None? ==> pending == old(pending) && MeetsDeadline(pending) && Arriving(pending) == []
      ensures chunk.Some? ==> chunk.value + Arriving(pending) == Arriving(old(pending))
      ensures chunk == Some([]) ==> Arriving(pending) == [] && !MeetsDeadline(pending)
      ensures chunk.Some? && chunk.value != [] ==> |pending| < |old(pending)|
    {
      if pending == [] {
        return Some([]);
      }
      if pending[0].Deadline? {
        return None;
      }
      LaterDeadline(pending);
      chunk := Some(pending[0].bytes);
      pending := pending[1..];
    }

    /** `readline`: a line of the stream; when the deadline comes first, nothing is lost. */
    method ReadLine(limit: int) returns (line: Option<seq<Byte>>)
      requires Proper(pending)
      modifies this
      ensures Proper(pending)
      ensures MeetsDeadline(pending) == MeetsDeadline(old(pending))
      ensures Outcome(line, Ahead()) == OutcomeOf(old(Ahead()), MeetsDeadline(old(pending)), Line(limit))
    {
      hide MeetsDeadline, Arriving, Proper, OutcomeOf, LineLength;
      ghost var all, deadline := Ahead(), MeetsDeadline(pending);
      while true
        invariant Proper(pending) && Ahead() == all && MeetsDeadline(pending) == deadline
        decreases |pending|
      {
        var bounded := Bounded(|buffer|, limit);
        var newline := NewlineIn(buffer, bounded);
        if newline.Some? {
          var end := newline.value + 1;
          DecidedLine(buffer, Arriving(pending), deadline, limit);
          line := Some(buffer[..end]);
          buffer := buffer[end..];
          return;
        }
        if limit >= 0 && |buffer| >= limit {
          DecidedLine(buffer, Arriving(pending), deadline, limit);
          line := Some(buffer[..limit]);
          buffer := buffer[limit..];
          return;
        }
        var chunk := Recv();
        if chunk.None? {
          assert all == buffer;
          OpenLine(buffer, deadline, limit);
          return None;
        }
        if chunk.value == [] {
          assert all == buffer;
          OpenLine(buffer, deadline, limit);
          line := Some(buffer);
          buffer := [];
          return;
        }
        buffer := buffer + chunk.value;
      }
    }

    /** `read`: only an unbounded one that meets the deadline drops what had arrived. */
    method Read(size: int) returns (bytes: Option<seq<Byte>>)
      requires Proper(pending)
      modifies this
      ensures Proper(pending) && MeetsDeadline(pending) == MeetsDeadline(old(pending))
      ensures Outcome(bytes, Ahead()) == OutcomeOf(old(Ahead()), MeetsDeadline(old(pending)), Take(size))
    {
      hide MeetsDeadline, Arriving, Proper;
      if size < 0 {
        bytes := ReadToEnd();
        return;
      }
      ghost var all, deadline := Ahead(), MeetsDeadline(pending);
      while |buffer| < size
        invariant Proper(pending) && Ahead() == all && MeetsDeadline(pending) == deadline
        decreases |pending|
      {
        var chunk := Recv();
        if chunk.None? {
          assert all == buffer;
          return None;
        }
        if chunk.value == [] {
          assert all == buffer;
          break;
        }
        buffer := buffer + chunk.value;
      }
      var n := if size < |buffer| then size else |buffer|;
      bytes := Some(buffer[..n]);
      buffer := buffer[n..];
      assert Ahead() == all[n..] && bytes.value == all[..n];
    }

    /** The unbounded read: it empties the buffer first, so a deadline drops what had arrived. */
    method ReadToEnd() returns (bytes: Option<seq<Byte>>)
      requires Proper(pending)
      modifies this
      ensures Proper(pending) && MeetsDeadline(pending) == MeetsDeadline(old(pending))
      ensures Outcome(bytes, Ahead()) == OutcomeOf(old(Ahead()), MeetsDeadline(old(pending)), Take(-1))
    {
      hide MeetsDeadline, Arriving, Proper;
      ghost var all, deadline := Ahead(), MeetsDeadline(pending);
      var chunks := buffer;
      buffer := [];
      while true
        invariant Proper(pending) && buffer == [] && MeetsDeadline(pending) == deadline
        invariant chunks + Arriving(pending) == all
        decreases |pending|
      {
        var chunk := Recv();
        if chunk.None? {
          return None;
        }
        if chunk.value == [] {
          assert chunks == all;
          return Some(chunks);
        }
        chunks := chunks + chunk.value;
      }
    }
  }

  /** A decided line is answered from what has arrived, whatever follows. */
  lemma DecidedLine(bytes: seq<Byte>, more: seq<Byte>, deadline: bool, limit: int)
    requires Decided(bytes, limit)
    ensures var n := LineLength(bytes, limit);
            && OutcomeOf(bytes + more, deadline, Line(limit)) == Outcome(Some(bytes[..n]), bytes[n..] + more)
            && (NewlineIn(bytes, Bounded(|bytes|, limit)).None? ==> n == limit)
            && (var at := NewlineIn(bytes, Bounded(|bytes|, limit)); at.Some? ==> n == at.value + 1)
  {
    hide NewlineIn;
    LineDecided(bytes, more, limit);
    var n := LineLength(bytes, limit);
    assert (bytes + more)[..n] == bytes[..n] && (bytes + more)[n..] == bytes[n..] + more;
  }

  /** An open line is the rest of the stream, or nothing yet. */
  lemma OpenLine(bytes: seq<Byte>, deadline: bool, limit: int)
    requires !Decided(bytes, limit)
    ensures OutcomeOf(bytes, deadline, Line(limit)) ==
            if deadline then Outcome(None, bytes) else Outcome(Some(bytes), [])
  {
    hide NewlineIn;
    assert bytes[..|bytes|] == bytes && bytes[|bytes|..] == [];
  }

  lemma LaterDeadline(pending: seq<Receive>)
    requires pending != [] && pending[0].Data?
    ensures MeetsDeadline(pending[1..]) == MeetsDeadline(pending)
  {
    if MeetsDeadline(pending[1..]) {
      var i :| 0 <= i < |pending[1..]| && pending[1..][i].Deadline?;
      assert pending[i + 1].Deadline?;
    }
    if MeetsDeadline(pending) {
      var i :| 0 <= i < |pending| && pending[i].Deadline?;
      assert pending[1..][i - 1].Deadline?;
    }
  }
}

/** The framing of websocket commands: each ends with the byte 0x06, and the input buffer is
    searched as a C string. */
module Framing {

  import opened Bytes

  const END: Byte := 6

  /** encodeWebSocketCommand. */
  function Frame(payload: seq<Byte>): seq<Byte> {
    payload + [END]
  }

  /** Where strchr(data, 0x06) stops: at the first end mark or NUL, or at the length. */
  function Stop(data: seq<Byte>): (n: nat)
    ensures n <= |data| && forall i :: 0 <= i < n ==> data[i] != END && data[i] != 0
    ensures n < |data| ==> data[n] == END || data[n] == 0
  {
    if data == [] || data[0] == END || data[0] == 0 then 0 else 1 + Stop(data[1..])
  }

  /** The commands taken off the buffer, and what stays on it. */
  function Extract(data: seq<Byte>): (seq<seq<Byte>>, seq<Byte>)
    decreases |data|
  {
    var n := Stop(data);
    if n < |data| && data[n] == END then
      var (more, rest) := Extract(data[n + 1..]);
      ([data[..n]] + more, rest)
    else ([], data)
  }

  class Connection {
    var input: seq<Byte>

    constructor ()
      ensures input == []
    {
      input := [];
    }

    /** New data arrives and processWebSocketCommands runs. */
    method Receive(chunk: seq<Byte>) returns (commands: seq<seq<Byte>>)
      modifies this
      ensures commands == Extract(old(input) + chunk).0 && input == Extract(old(input) + chunk).1
    {
      hide Extract, Stop;
      input := input + chunk;
      commands := [];
      ghost var all := input;
      assert [] + Extract(all).0 == Extract(all).0;
      while true
        invariant commands + Extract(input).0 == Extract(all).0 && Extract(input).1 == Extract(all).1
        decreases |input|
      {
        var end := FindEnd(input);
        if end < |input| && input[end] == END {
          ExtractNext(commands, input);
          commands := commands + [input[..end]];
          input := input[end + 1..];
        } else {
          ExtractNone(commands, input);
          break;
        }
      }
    }
  }

  lemma ExtractNext(done: seq<seq<Byte>>, data: seq<Byte>)
    requires Stop(data) < |data| && data[Stop(data)] == END
    ensures var n := Stop(data);
            && done + Extract(data).0 == done + [data[..n]] + Extract(data[n + 1..]).0
            && Extract(data).1 == Extract(data[n + 1..]).1
  {
    hide Stop, Extract;
    ExtractOne(data);
    Regroup(done, data[..Stop(data)], Extract(data[Stop(data) + 1..]).0);
  }

  lemma {:induction false} ExtractOne(data: seq<Byte>)
    requires Stop(data) < |data| && data[Stop(data)] == END
    ensures var n := Stop(data);
            Extract(data).0 == [data[..n]] + Extract(data[n + 1..]).0 && Extract(data).1 == Extract(data[n + 1..]).1
  {
  }

  lemma Regroup<T>(done: seq<T>, x: T, more: seq<T>)
    ensures done + ([x] + more) == done + [x] + more
  {
  }

  lemma ExtractNone(done: seq<seq<Byte>>, data: seq<Byte>)
    requires Stop(data) == |data| || data[Stop(data)] != END
    ensures done + Extract(data).0 == done && Extract(data).1 == data
  {
    hide Stop;
  }

  /** strchr over the C string the buffer holds. */
  method FindEnd(data: seq<Byte>) returns (n: nat)
    ensures n == Stop(data)
  {
    n := 0;
    while n < |data| && data[n] != END && data[n] != 0
      invariant n <= |data| && Stop(data) == n + Stop(data[n..])
    {
      assert data[n..][1..] == data[n + 1..];
      n := n + 1;
    }
  }

  // ----- Chunks -----

  lemma {:induction false} StopEarly(a: seq<Byte>, b: seq<Byte>)
    ensures Stop(a) < |a| ==> Stop(a + b) == Stop(a)
  {
    if a != [] && a[0] != END && a[0] != 0 {
      assert (a + b)[1..] == a[1..] + b;
      StopEarly(a[1..], b);
    }
  }

  /** What arrives later can be extracted from what the first part left. */
  lemma {:induction false} ExtractInTwo(a: seq<Byte>, b: seq<Byte>)
    ensures var (first, rest) := Extract(a);
            var (second, end) := Extract(rest + b);
            Extract(a + b) == (first + second, end)
    decreases |a|
  {
    hide Stop, Extract;
    var n := Stop(a);
    if n < |a| && a[n] == END {
      StopEarly(a, b);
      var ab, tail := a + b, a[n + 1..];
      assert ab[..n] == a[..n] && ab[n + 1..] == tail + b;
      ExtractOne(a);
      ExtractOne(ab);
      ExtractInTwo(tail, b);
      var (more, rest) := Extract(tail);
      var (second, end) := Extract(rest + b);
      Regroup([], a[..n], more + second);
      assert [a[..n]] + (more + second) == [a[..n]] + more + second;
    } else {
      ExtractNone([], a);
      var (second, end) := Extract(a + b);
      assert [] + second == second && [] + Extract(a).0 == Extract(a).0;
    }
  }

  function Concat(chunks: seq<seq<Byte>>): seq<Byte> {
    if chunks == [] then [] else chunks[0] + Concat(chunks[1..])
  }

  /** A connection that receives chunk after chunk. */
  function ReceiveAll(buffer: seq<Byte>, chunks: seq<seq<Byte>>): (seq<seq<Byte>>, seq<Byte>)
    decreases |chunks|
  {
    if chunks == [] then Extract(buffer) else
      var (first, rest) := Extract(buffer + chunks[0]);
      var (more, end) := ReceiveAll(rest, chunks[1..]);
      (first + more, end)
  }

  lemma {:induction false} ChunksAreOne(buffer: seq<Byte>, chunks: seq<seq<Byte>>)
    ensures ReceiveAll(buffer, chunks) == Extract(buffer + Concat(chunks))
    decreases |chunks|
  {
    hide Stop, Extract;
    if chunks == [] {
      assert buffer + [] == buffer;
    } else {
      var (first, rest) := Extract(buffer + chunks[0]);
      ChunksAreOne(rest, chunks[1..]);
      ExtractInTwo(buffer + chunks[0], Concat(chunks[1..]));
      assert buffer + chunks[0] + Concat(chunks[1..]) == buffer + Concat(chunks);
    }
  }

  // ----- Round trips -----

  predicate Sendable(payload: seq<Byte>) {
    END !in payload && 0 !in payload
  }

  function Frames(payloads: seq<seq<Byte>>): seq<Byte> {
    if payloads == [] then [] else Frame(payloads[0]) + Frames(payloads[1..])
  }

  lemma {:induction false} StopAtEnd(p: seq<Byte>, rest: seq<Byte>)
    requires Sendable(p)
    ensures Stop(p + [END] + rest) == |p|
  {
    var data := p + [END] + rest;
    if p != [] {
      assert data[1..] == p[1..] + [END] + rest;
      StopAtEnd(p[1..], rest);
    }
  }

  /** Without the bytes 6 and 0 in it, a payload is framed by a 6 behind it, taken off when the 6 has
      arrived and kept until then; a 0 before the 6 keeps everything. */
  lemma FrameMeans(p: seq<Byte>, rest: seq<Byte>)
    requires 6 !in p && 0 !in p
    ensures Frame(p) == p + [6]
    ensures Extract(p + [6] + rest) == ([p] + Extract(rest).0, Extract(rest).1)
    ensures Extract(p) == ([], p) && Extract(p + [0] + rest) == ([], p + [0] + rest)
  {
    var data, blocked := p + [6] + rest, p + [0] + rest;
    StopAtEnd(p, rest);
    assert data[..|p|] == p && data[|p| + 1..] == rest;
    var n := Stop(blocked);
    assert n <= |p| by { assert blocked[|p|] == 0; }
    assert forall i :: 0 <= i < |p| ==> blocked[i] == p[i] && p[i] in p;
  }

  predicate AllSendable(payloads: seq<seq<Byte>>) {
    forall i :: 0 <= i < |payloads| ==> Sendable(payloads[i])
  }

  /** No command can be taken off: the first end mark, if there is one, is behind a NUL. */
  predicate Unfinished(data: seq<Byte>) {
    Stop(data) < |data| ==> data[Stop(data)] != END
  }

  lemma FirstFrame(p: seq<Byte>, more: seq<seq<Byte>>, rest: seq<Byte>)
    ensures Frames([p] + more) + rest == p + [END] + (Frames(more) + rest)
    ensures AllSendable([p] + more) <==> Sendable(p) && AllSendable(more)
  {
    var all := [p] + more;
    assert all[1..] == more;
    if AllSendable(all) {
      assert Sendable(all[0]);
      forall i | 0 <= i < |more| ensures Sendable(more[i]) { assert Sendable(all[i + 1]); }
    }
  }

  lemma NoFrames(data: seq<Byte>)
    ensures Frames([]) + data == data && AllSendable([])
  {
  }

  /** Nothing is lost or made up: commands and remainder, framed again, are the input. Every command
      taken off could have been sent, and no command is left. */
  lemma {:induction false} ExtractedIsSendable(data: seq<Byte>)
    ensures AllSendable(Extract(data).0) && Unfinished(Extract(data).1)
    ensures Frames(Extract(data).0) + Extract(data).1 == data
    decreases |data|
  {
    hide Stop, Frames, AllSendable;
    var n := Stop(data);
    if n < |data| && data[n] == END {
      var (more, rest) := Extract(data[n + 1..]);
      ExtractedIsSendable(data[n + 1..]);
      FirstFrame(data[..n], more, rest);
      assert data == data[..n] + [END] + data[n + 1..];
    } else {
      NoFrames(data);
    }
  }

  lemma {:induction false} SendablesAreExtracted(payloads: seq<seq<Byte>>, tail: seq<Byte>)
    requires AllSendable(payloads) && Unfinished(tail)
    ensures Extract(Frames(payloads) + tail) == (payloads, tail)
    decreases |payloads|
  {
    hide Stop, Frames, AllSendable;
    if payloads == [] {
      NoFrames(tail);
    } else {
      var p, rest := payloads[0], Frames(payloads[1..]) + tail;
      var data := Frames(payloads) + tail;
      assert payloads == [p] + payloads[1..];
      FirstFrame(p, payloads[1..], tail);
      StopAtEnd(p, rest);
      SendablesAreExtracted(payloads[1..], tail);
      assert data[..|p|] == p && data[|p| + 1..] == rest;
    }
  }

  /** Frames come out as the payloads that went in, and what follows stays, exactly when every payload has
      neither mark nor NUL and what follows holds no whole command. */
  lemma FramesRoundTrip(payloads: seq<seq<Byte>>, tail: seq<Byte>)
    ensures Extract(Frames(payloads) + tail) == (payloads, tail) <==> AllSendable(payloads) && Unfinished(tail)
  {
    hide Extract, Frames, AllSendable, Unfinished;
    ExtractedIsSendable(Frames(payloads) + tail);
    if AllSendable(payloads) && Unfinished(tail) { SendablesAreExtracted(payloads, tail); }
  }

  /** Cut anywhere, the frames are received whole, under the same condition. */
  lemma ChunkedRoundTrip(payloads: seq<seq<Byte>>, tail: seq<Byte>, chunks: seq<seq<Byte>>)
    requires Concat(chunks) == Frames(payloads) + tail
    ensures ReceiveAll([], chunks) == (payloads, tail) <==> AllSendable(payloads) && Unfinished(tail)
  {
    ChunksAreOne([], chunks);
    assert [] + Concat(chunks) == Concat(chunks);
    FramesRoundTrip(payloads, tail);
  }

  /** A single frame is received as sent exactly when the payload has neither mark nor NUL. */
  lemma SendableIsNeeded(p: seq<Byte>)
    ensures Extract(Frame(p)) == ([p], []) <==> Sendable(p)
  {
    FramesRoundTrip([p], []);
    assert Frames([p]) == Frame(p) + Frames([]) && Frames([p]) + [] == Frame(p);
  }

  /** A NUL before the first end mark blocks the connection: nothing that arrives later is taken off. */
  lemma NulBlocks(a: seq<Byte>, b: seq<Byte>)
    requires Stop(a) < |a| && a[Stop(a)] == 0
    ensures Extract(a + b) == ([], a + b)
  {
    StopEarly(a, b);
  }

  lemma NulBlocksChunks(buffer: seq<Byte>, chunks: seq<seq<Byte>>)
    requires Stop(buffer) < |buffer| && buffer[Stop(buffer)] == 0
    ensures ReceiveAll(buffer, chunks) == ([], buffer + Concat(chunks))
  {
    ChunksAreOne(buffer, chunks);
    NulBlocks(buffer, Concat(chunks));
  }
}

/** The socket of the synchronous client, driven by an arbitrary script of what the operating
    system does, and the loops that read from it and write to it. */
module Sockets {
  import opened ParserModel

  /** A boost error code: clear, end of file (also a timeout), a cancelled operation, or errno. */
  datatype ErrorCode = NoError | Eof | Aborted | System(errno: int)

  const EINTR: int := 4

  /** One `poll` and `recv`: bytes that are there (none: closed or timed out), or a failure. */
  datatype RecvEvent = Arrived(data: string) | RecvFails(errno: int)

  /** One `poll` and `send`: how many bytes the system takes (none: timed out), or a failure. */
  datatype SendEvent = Takes(n: nat) | SendFails(errno: int)

  /** The bytes still to come before the first end of file, timeout or failure. */
  function Stream(events: seq<RecvEvent>): string {
    if events == [] then ""
    else
      match events[0]
      case Arrived(data) => if data == "" then "" else data + Stream(events[1..])
      case RecvFails(errno) => if errno == EINTR then Stream(events[1..]) else ""
  }

  /** How the stream ends: the error code reported there, and what the system does after that. */
  datatype End = End(ec: ErrorCode, later: seq<RecvEvent>)

  function Ending(events: seq<RecvEvent>): (r: End)
    ensures r.ec != NoError
  {
    if events == [] then End(Eof, [])
    else
      match events[0]
      case Arrived(data) => if data == "" then End(Eof, events[1..]) else Ending(events[1..])
      case RecvFails(errno) => if errno == EINTR then Ending(events[1..]) else End(System(errno), events[1..])
  }

  function Least(a: nat, b: nat): nat {
    if a <= b then a else b
  }

  /** How many bytes the system takes before the first timeout or failure; interrupts do not
      count as one. */
  function Capacity(events: seq<SendEvent>): nat {
    if events == [] then 0
    else
      match events[0]
      case Takes(n) => if n == 0 then 0 else n + Capacity(events[1..])
      case SendFails(errno) => if errno == EINTR then Capacity(events[1..]) else 0
  }

  /** That timeout or failure: the error code reported for it, and what the system does after it. */
  datatype Halt = Halt(ec: ErrorCode, later: seq<SendEvent>)

  function Halting(events: seq<SendEvent>): (r: Halt)
    ensures r.ec != NoError
  {
    if events == [] then Halt(Eof, [])
    else
      match events[0]
      case Takes(n) => if n == 0 then Halt(Eof, events[1..]) else Halting(events[1..])
      case SendFails(errno) => if errno == EINTR then Halting(events[1..]) else Halt(System(errno), events[1..])
  }

  /** What is left when `n` bytes have been sent: an event that could take more than were left of
      the buffer is used up. */
  function Unused(events: seq<SendEvent>, n: nat): seq<SendEvent>
    requires n <= Capacity(events)
  {
    if n == 0 then events
    else if events[0].Takes? && n > events[0].n then Unused(events[1..], n - events[0].n)
    else if events[0].Takes? then events[1..]
    else Unused(events[1..], n)
  }

  /** Whether the system takes all of the buffers, sent one after the other. */
  predicate TakesAll(events: seq<SendEvent>, buffers: seq<string>)
    decreases |buffers|
  {
    buffers == []
    || (|buffers[0]| <= Capacity(events) && TakesAll(Unused(events, |buffers[0]|), buffers[1..]))
  }

  /** How many of their bytes it takes. */
  function TakenOf(events: seq<SendEvent>, buffers: seq<string>): (n: nat)
    ensures n <= |Flatten(buffers)|
    ensures n == |Flatten(buffers)| <==> TakesAll(events, buffers)
    decreases |buffers|
  {
    if buffers == [] then 0
    else if |buffers[0]| <= Capacity(events) then
      |buffers[0]| + TakenOf(Unused(events, |buffers[0]|), buffers[1..])
    else Capacity(events)
  }

  /** What is left when it has taken all of them. */
  function UnusedOf(events: seq<SendEvent>, buffers: seq<string>): seq<SendEvent>
    requires TakesAll(events, buffers)
    decreases |buffers|
  {
    if buffers == [] then events else UnusedOf(Unused(events, |buffers[0]|), buffers[1..])
  }

  /** The timeout or failure that keeps it from taking all of them. */
  function HaltingOf(events: seq<SendEvent>, buffers: seq<string>): (r: Halt)
    ensures r.ec != NoError
    decreases |buffers|
  {
    if buffers != [] && |buffers[0]| <= Capacity(events) then
      HaltingOf(Unused(events, |buffers[0]|), buffers[1..])
    else Halting(events)
  }

  lemma TakesNothing(events: seq<SendEvent>)
    ensures TakesAll(events, []) && TakenOf(events, []) == 0 && UnusedOf(events, []) == events
  {
  }

  /** The buffers are sent one after the other. */
  lemma TakesNext(events: seq<SendEvent>, buffers: seq<string>, i: nat)
    requires i < |buffers|
    ensures var b, more := buffers[i], buffers[i + 1..];
            if |b| <= Capacity(events) then
              && TakenOf(events, buffers[i..]) == |b| + TakenOf(Unused(events, |b|), more)
              && TakesAll(events, buffers[i..]) == TakesAll(Unused(events, |b|), more)
              && HaltingOf(events, buffers[i..]) == HaltingOf(Unused(events, |b|), more)
              && (TakesAll(events, buffers[i..]) ==>
                    UnusedOf(events, buffers[i..]) == UnusedOf(Unused(events, |b|), more))
            else
              && TakenOf(events, buffers[i..]) == Capacity(events) && !TakesAll(events, buffers[i..])
              && HaltingOf(events, buffers[i..]) == Halting(events)
  {
    assert buffers[i..][1..] == buffers[i + 1..];
  }

  /** EINTR is 4: the system is asked again, for reading and for writing. */
  lemma InterruptsAreRetried(data: string, n: nat, incoming: seq<RecvEvent>, outgoing: seq<SendEvent>)
    requires data != ""
    ensures Stream([RecvFails(4), Arrived(data)] + incoming) == data + Stream(incoming)
    ensures Ending([RecvFails(4), Arrived(data)] + incoming) == Ending(incoming)
    ensures n > 0 ==> Capacity([SendFails(4), Takes(n)] + outgoing) == n + Capacity(outgoing)
    ensures Halting([SendFails(4), Takes(n)] + outgoing) == if n == 0 then Halt(Eof, outgoing) else Halting(outgoing)
  {
    var recvs, sends := [RecvFails(4), Arrived(data)] + incoming, [SendFails(4), Takes(n)] + outgoing;
    assert recvs[1..] == [Arrived(data)] + incoming && recvs[1..][1..] == incoming;
    assert sends[1..] == [Takes(n)] + outgoing && sends[1..][1..] == outgoing;
  }

  /** Any other failure ends the stream or the sending. */
  lemma FailuresEnd(errno: int, incoming: seq<RecvEvent>, outgoing: seq<SendEvent>)
    requires errno != 4
    ensures Stream([RecvFails(errno)] + incoming) == "" && Capacity([SendFails(errno)] + outgoing) == 0
    ensures Ending([RecvFails(errno)] + incoming) == End(System(errno), incoming)
    ensures Halting([SendFails(errno)] + outgoing) == Halt(System(errno), outgoing)
  {
    assert ([RecvFails(errno)] + incoming)[1..] == incoming;
    assert ([SendFails(errno)] + outgoing)[1..] == outgoing;
  }

  class Socket {
    var incoming: seq<RecvEvent>
    var outgoing: seq<SendEvent>
    var sent: string

    constructor (incoming: seq<RecvEvent>, outgoing: seq<SendEvent>)
      ensures this.incoming == incoming && this.outgoing == outgoing && sent == ""
    {
      this.incoming := incoming;
      this.outgoing := outgoing;
      sent := "";
    }

    /** One attempt to read: negative with `errno` on failure, 0 at the end of the stream,
        otherwise the number of bytes put at the front of the buffer. */
    method Recv(buffer: array<char>) returns (result: int, errno: int)
      requires buffer.Length > 0
      modifies this`incoming, buffer
      ensures result <= buffer.Length && |incoming| <= |old(incoming)|
      ensures result > 0 ==> buffer[..result] + Stream(incoming) == old(Stream(incoming))
      ensures result == 0 ==> old(Stream(incoming)) == "" && old(Ending(incoming)) == End(Eof, incoming)
      ensures result < 0 ==> |incoming| < |old(incoming)|
      ensures result < 0 && errno == EINTR ==> Stream(incoming) == old(Stream(incoming))
      ensures result > 0 || (result < 0 && errno == EINTR) ==> Ending(incoming) == old(Ending(incoming))
      ensures result < 0 && errno != EINTR ==>
                old(Stream(incoming)) == "" && old(Ending(incoming)) == End(System(errno), incoming)
    {
      result, errno := 0, 0;
      if incoming == [] {
        return;
      }
      var event := incoming[0];
      match event
      case RecvFails(code) =>
        incoming := incoming[1..];
        result, errno := -1, code;
      case Arrived(data) =>
        result := Least(|data|, buffer.Length);
        forall i | 0 <= i < result {
          buffer[i] := data[i];
        }
        ghost var later := incoming[1..];
        incoming := if result < |data| then [Arrived(data[result..])] + incoming[1..] else incoming[1..];
        assert buffer[..result] == data[..result];
        if result < |data| {
          assert incoming[1..] == later;
          assert data[..result] + (data[result..] + Stream(later)) == data + Stream(later);
        } else {
          assert data[..result] == data;
        }
    }

    /** One attempt to write a non-empty buffer. */
    method Transmit(data: string) returns (result: int, errno: int)
      requires data != ""
      modifies this`outgoing, this`sent
      ensures result <= |data| && |outgoing| <= |old(outgoing)|
      ensures result == 0 ==> old(Capacity(outgoing)) == 0 && old(Halting(outgoing)) == Halt(Eof, outgoing)
      ensures result < 0 && errno != EINTR ==>
                old(Capacity(outgoing)) == 0 && old(Halting(outgoing)) == Halt(System(errno), outgoing)
      ensures result < 0 && errno == EINTR ==> old(outgoing) == [SendFails(EINTR)] + outgoing
      ensures result > 0 ==>
                && old(outgoing) != [] && outgoing == old(outgoing)[1..]
                && old(outgoing)[0].Takes? && result == Least(old(outgoing)[0].n, |data|)
      ensures sent == old(sent) + data[..if result > 0 then result else 0]
      ensures result != 0 ==> |outgoing| < |old(outgoing)|
    {
      result, errno := 0, 0;
      if outgoing == [] {
        return;
      }
      var event := outgoing[0];
      outgoing := outgoing[1..];
      match event
      case SendFails(code) =>
        result, errno := -1, code;
      case Takes(n) =>
        result := Least(n, |data|);
        sent := sent + data[..result];
    }
  }

  /** Reads at least one byte unless the stream is over; the error code is left alone on success,
      and what is behind the end of the stream is untouched until the end has been reported. */
  method SocketReadSome(socket: Socket, buffer: array<char>, ec0: ErrorCode) returns (bytesRecv: nat, ec: ErrorCode)
    requires buffer.Length > 0
    modifies socket`incoming, buffer
    ensures bytesRecv <= buffer.Length
    ensures old(Stream(socket.incoming)) != "" ==>
              && bytesRecv > 0 && ec == ec0
              && buffer[..bytesRecv] + Stream(socket.incoming) == old(Stream(socket.incoming))
              && Ending(socket.incoming) == old(Ending(socket.incoming))
    ensures old(Stream(socket.incoming)) == "" ==>
              bytesRecv == 0 && End(ec, socket.incoming) == old(Ending(socket.incoming))
  {
    bytesRecv, ec := 0, ec0;
    while true
      invariant bytesRecv == 0 && ec == ec0
      invariant Stream(socket.incoming) == old(Stream(socket.incoming))
      invariant Ending(socket.incoming) == old(Ending(socket.incoming))
      decreases |socket.incoming|
    {
      var result, errno := socket.Recv(buffer);
      if result < 0 {
        if errno == EINTR {
          continue;
        } else {
          ec := System(errno);
          break;
        }
      } else if result == 0 {
        ec := Eof;
        break;
      } else {
        bytesRecv := bytesRecv + result;
        break;
      }
    }
  }

  /** Sends one buffer: as many bytes as the system takes before the first timeout or failure that
      is no interrupt. All of it is sent exactly when the capacity suffices, and then the error
      code is left alone; otherwise that timeout or failure is reported. */
  method SocketWrite(socket: Socket, buffer: string, ec0: ErrorCode) returns (bytesSend: nat, ec: ErrorCode)
    modifies socket`outgoing, socket`sent
    ensures bytesSend == Least(|buffer|, Capacity(old(socket.outgoing)))
    ensures socket.sent == old(socket.sent) + buffer[..bytesSend]
    ensures bytesSend == |buffer| ==> ec == ec0 && socket.outgoing == Unused(old(socket.outgoing), |buffer|)
    ensures bytesSend < |buffer| ==> Halt(ec, socket.outgoing) == Halting(old(socket.outgoing))
  {
    bytesSend, ec := 0, ec0;
    ghost var events := socket.outgoing;
    while bytesSend < |buffer|
      invariant bytesSend <= |buffer| && ec == ec0
      invariant socket.sent == old(socket.sent) + buffer[..bytesSend]
      invariant Progress(events, socket.outgoing, bytesSend, |buffer|)
      decreases |socket.outgoing|
    {
      ghost var before := socket.outgoing;
      var result, errno := socket.Transmit(buffer[bytesSend..]);
      if result < 0 {
        if errno == EINTR {
          continue;
        } else {
          ec := System(errno);
          break;
        }
      } else if result == 0 {
        ec := Eof;
        break;
      } else {
        assert buffer[..bytesSend] + buffer[bytesSend..][..result] == buffer[..bytesSend + result];
        bytesSend := bytesSend + result;
      }
    }
  }

  /** `done` of `size` bytes have been sent, and `rest` of the script `events` is left: what it
      still has to give decides the whole. */
  ghost predicate Progress(events: seq<SendEvent>, rest: seq<SendEvent>, done: nat, size: nat) {
    && done <= size && done <= Capacity(events)
    && (done < size ==>
          && Capacity(events) == done + Capacity(rest) && Halting(events) == Halting(rest)
          && forall n {:trigger Unused(events, n)} :: done < n <= size && n <= Capacity(events) ==>
               Unused(events, n) == Unused(rest, n - done))
    && (done == size ==> rest == Unused(events, size))
  }

  lemma {:induction false} FlattenAppend(a: seq<string>, b: seq<string>)
    ensures Flatten(a + b) == Flatten(a) + Flatten(b)
  {
    if a == [] {
      assert a + b == b;
    } else {
      assert (a + b)[1..] == a[1..] + b;
      FlattenAppend(a[1..], b);
    }
  }

  lemma NothingFlattened()
    ensures Flatten([]) == ""
  {
  }

  /** `n` bytes of the i-th buffer behind those of the ones before it. */
  lemma SentSoFar(buffers: seq<string>, i: nat, n: nat)
    requires i < |buffers| && n <= |buffers[i]|
    ensures var all, before := Flatten(buffers), |Flatten(buffers[..i])|;
            && before + n <= |all| && all[..before + n] == all[..before] + buffers[i][..n]
            && |Flatten(buffers[..i + 1])| == before + |buffers[i]|
  {
    hide Flatten;
    FlattenSplit(buffers, i);
    var first := Flatten(buffers[..i]);
    assert Flatten(buffers)[..|first|] == first;
  }

  lemma FlattenSplit(buffers: seq<string>, i: nat)
    requires i < |buffers|
    ensures Flatten(buffers) == Flatten(buffers[..i]) + buffers[i] + Flatten(buffers[i + 1..])
    ensures Flatten(buffers[..i + 1]) == Flatten(buffers[..i]) + buffers[i]
  {
    assert buffers == buffers[..i] + buffers[i..];
    assert buffers[..i + 1] == buffers[..i] + [buffers[i]];
    FlattenAppend(buffers[..i], buffers[i..]);
    FlattenAppend(buffers[..i], [buffers[i]]);
  }

  /** Sends a list of buffers. With a clear error code at the start, exactly the bytes that the
      system takes are sent, and a timeout or failure is reported exactly when it does not take
      all of them; with a stale one nothing behind the first buffer is sent. */
  method SocketWriteAll(socket: Socket, buffers: seq<string>, ec0: ErrorCode) returns (bytesSend: nat, ec: ErrorCode)
    modifies socket`outgoing, socket`sent
    ensures bytesSend <= |Flatten(buffers)| && socket.sent == old(socket.sent) + Flatten(buffers)[..bytesSend]
    ensures ec0 == NoError ==>
              && bytesSend == TakenOf(old(socket.outgoing), buffers)
              && (TakesAll(old(socket.outgoing), buffers) ==>
                    ec == NoError && socket.outgoing == UnusedOf(old(socket.outgoing), buffers))
              && (!TakesAll(old(socket.outgoing), buffers) ==>
                    Halt(ec, socket.outgoing) == HaltingOf(old(socket.outgoing), buffers))
    ensures ec0 != NoError ==>
              && bytesSend == (if buffers == [] then 0 else Least(|buffers[0]|, Capacity(old(socket.outgoing))))
              && ec == (if buffers == [] || bytesSend == |buffers[0]| then ec0 else Halting(old(socket.outgoing)).ec)
  {
    hide Capacity, Halting, Unused, TakesAll, TakenOf, HaltingOf, UnusedOf, Flatten;
    bytesSend, ec := 0, ec0;
    ghost var events := socket.outgoing;
    assert buffers[..0] == [] && buffers[0..] == buffers && Flatten([]) == "" by { NothingFlattened(); }
    for i := 0 to |buffers|
      invariant ec == ec0 && (i > 0 ==> ec0 == NoError)
      invariant bytesSend == |Flatten(buffers[..i])| <= |Flatten(buffers)|
      invariant socket.sent == old(socket.sent) + Flatten(buffers)[..bytesSend]
      invariant i == 0 ==> bytesSend == 0 && socket.outgoing == events
      invariant TakenOf(events, buffers) == bytesSend + TakenOf(socket.outgoing, buffers[i..])
      invariant TakesAll(events, buffers) == TakesAll(socket.outgoing, buffers[i..])
      invariant HaltingOf(events, buffers) == HaltingOf(socket.outgoing, buffers[i..])
      invariant TakesAll(events, buffers) ==>
                  UnusedOf(events, buffers) == UnusedOf(socket.outgoing, buffers[i..])
    {
      TakesNext(socket.outgoing, buffers, i);
      var n;
      n, ec := SocketWrite(socket, buffers[i], ec);
      SentSoFar(buffers, i, n);
      bytesSend := bytesSend + n;
      if ec != NoError {
        return;
      }
    }
    TakesNothing(socket.outgoing);
    assert buffers[|buffers|..] == [];
    assert buffers[..|buffers|] == buffers;
  }
}

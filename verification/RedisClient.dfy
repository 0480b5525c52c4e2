/** The client object with its real fields. The asynchronous methods are proved to do what
    `AsyncModel` says; the synchronous ones are specified by the bytes they send and consume. */
module RedisClients {
  import opened Resp
  import opened ParserModel
  import opened RedisParsers
  import opened Decoder
  import opened RoundTrip
  import opened Streams
  import opened Commands
  import opened Sockets
  import opened AsyncModel
  import opened Sessions

  const BUFFER_SIZE: nat := 4096

  class RedisClientImpl {
    const socket: Socket
    const redisParser: RedisParser
    const buf: array<char>
    /** What each reply handler calls back when it runs. */
    const react: React
    var bufSize: nat
    var subscribeSeq: nat
    var handlers: seq<Callback>
    var dataWrited: seq<string>
    var dataQueued: seq<string>
    var msgHandlers: Multimap<(nat, Callback)>
    var singleShotMsgHandlers: Multimap<Callback>
    var state: ConnState
    /** Callbacks posted to the strand and not yet run. */
    var strand: seq<Task>
    ghost var net: Net
    ghost var log: Log

    ghost function View(): Client
      reads this, redisParser
    {
      Client(state, redisParser.View(), handlers, dataWrited, dataQueued, msgHandlers, singleShotMsgHandlers,
             subscribeSeq, strand, net, log)
    }

    ghost predicate Valid()
      reads this, redisParser
    {
      redisParser.Valid() && buf.Length == BUFFER_SIZE && bufSize <= BUFFER_SIZE
    }

    /** A client that has not been connected yet. */
    static ghost function Disconnected(parser: Parser): Client {
      Client(Unconnected, parser, [], [], [], map[], map[], 0, [], Net([], 0, 0),
             Log([], [], [], [], [], [], [], 0, false, false))
    }

    constructor (socket: Socket, react: React)
      ensures Valid() && this.socket == socket && this.react == react && fresh(buf) && fresh(redisParser)
      ensures bufSize == 0 && buf.Length == 4096 && redisParser.View().Idle()
      ensures View() == Disconnected(redisParser.View())
    {
      this.socket := socket;
      this.react := react;
      redisParser := new RedisParser();
      buf := new char[BUFFER_SIZE];
      bufSize, subscribeSeq := 0, 0;
      handlers, dataWrited, dataQueued, strand := [], [], [], [];
      msgHandlers, singleShotMsgHandlers := map[], map[];
      state := Unconnected;
      net := Net([], 0, 0);
      log := Log([], [], [], [], [], [], [], 0, false, false);
    }

    method ErrorHandler(e: Diagnostic)
      modifies this`log
      ensures log == old(log).(errors := old(log).errors + [e])
    {
      log := log.(errors := log.errors + [e]);
    }

    /** `processMessage`: starts the next `async_read_some`. */
    method ProcessMessage()
      modifies this`net
      ensures net == old(net).(pendingReads := old(net).pendingReads + 1)
    {
      net := net.(pendingReads := net.pendingReads + 1);
    }

    /** `connect`, up to the start of `async_connect`. The overload for local sockets, unlike the
        one for TCP, does not give a closed client a new parser. In any other state the user's
        handler is called at once, with no error. */
    method Connect(tcp: bool, handler: OnConnect)
      requires Valid()
      modifies this`state, this`strand, this`log, this`msgHandlers, this`singleShotMsgHandlers, this`subscribeSeq,
               redisParser
      ensures Valid()
      ensures old(state) in {Unconnected, Closed} ==>
                View() == old(View()).(state := Connecting, parser := redisParser.View())
      ensures old(state) !in {Unconnected, Closed} ==> View() == PerformAll(old(View()), handler(NoError))
      ensures old(state) == Closed && tcp ==> redisParser.View() == Parser([], Data(0, "", Nil, [], []))
      ensures !(old(state) == Closed && tcp) ==> redisParser.View() == old(redisParser.View())
    {
      hide PerformAll;
      if state == Closed && tcp {
        redisParser.Reset();
      }
      if state == Unconnected || state == Closed {
        state := Connecting;
      } else {
        PerformCalls(handler(NoError));
      }
    }

    /** The completion of `async_connect`: the user's handler runs before the first read starts. */
    method HandleAsyncConnect(ec: ErrorCode, handler: OnConnect)
      modifies this`state, this`net, this`strand, this`log, this`msgHandlers, this`singleShotMsgHandlers,
               this`subscribeSeq
      ensures ec == NoError ==>
                View() == PerformAll(
                  old(View()).(state := Connected, net := old(net).(pendingReads := old(net).pendingReads + 1)),
                  handler(ec))
      ensures ec == NoError && redisParser.View().Idle()
              && old(View()).(state := Unconnected) == Disconnected(old(redisParser.View())) ==>
                JustConnected(old(View()).(state := Connected, net := Net([], 0, 1)))
      ensures ec != NoError ==> View() == PerformAll(old(View()).(state := Unconnected), handler(ec))
    {
      hide PerformAll;
      if ec == NoError {
        state := Connected;
        ghost var c := View();
        PerformCalls(handler(ec));
        ProcessMessage();
        CallsIgnoreReads(c, net, handler(ec));
      } else {
        state := Unconnected;
        PerformCalls(handler(ec));
      }
    }

    /** Calls do not look at the reads. */
    static lemma {:induction false} CallsIgnoreReads(c: Client, net: Net, calls: seq<Call>)
      ensures PerformAll(c.(net := net), calls) == PerformAll(c, calls).(net := net)
      decreases |calls|
    {
      hide Perform;
      if calls != [] {
        CallIgnoresReads(c, net, calls[0]);
        CallsIgnoreReads(Perform(c, calls[0]), net, calls[1..]);
      }
    }

    static lemma CallIgnoresReads(c: Client, net: Net, call: Call)
      ensures Perform(c.(net := net), call) == Perform(c, call).(net := net)
    {
      hide Wire;
    }

    /** Calls made at once are a run of so many events. */
    static lemma {:induction false} CallsAreEvents(react: React, c: Client, calls: seq<Call>)
      requires c.parser.Valid()
      ensures Exec(react, c, Users(calls)) == PerformAll(c, calls)
      decreases |calls|
    {
      hide Perform;
      if calls != [] {
        var last := |calls| - 1;
        var before := calls[..last];
        assert Users(calls)[..last] == Users(before) && calls == before + [calls[last]];
        CallsAreEvents(react, c, before);
        LastCall(c, before, calls[last]);
      }
    }

    static lemma {:induction false} LastCall(c: Client, calls: seq<Call>, call: Call)
      ensures PerformAll(c, calls + [call]) == Perform(PerformAll(c, calls), call)
      decreases |calls|
    {
      hide Perform;
      if calls == [] {
        assert (calls + [call])[1..] == [];
        assert PerformAll(Perform(c, call), []) == Perform(c, call);
      } else {
        assert (calls + [call])[1..] == calls[1..] + [call];
        LastCall(Perform(c, calls[0]), calls[1..], call);
      }
    }

    /** A new client that connects starts a run: with the calls of the user's connect handler, from
        a client that is just connected. */
    static method ConnectNew(socket: Socket, react: React, tcp: bool, handler: OnConnect)
      returns (client: RedisClientImpl, ghost c0: Client)
      ensures fresh(client) && client.Valid() && JustConnected(c0)
      ensures client.View() == Exec(react, c0, Users(handler(NoError)))
    {
      client := new RedisClientImpl(socket, react);
      client.Connect(tcp, handler);
      c0 := client.View().(state := Connected, net := Net([], 0, 1));
      client.HandleAsyncConnect(NoError, handler);
      CallsAreEvents(react, c0, handler(NoError));
    }

    // ---- User calls ----

    /** `post` of `doAsyncCommand` with the printed command. */
    method PostCommand(items: Command, handler: Callback, kind: Kind)
      modifies this`strand, this`log
      ensures View() == Post(old(View()), items, handler, kind)
    {
      var buff := MakeCommand(items);
      var request := Request(buff, handler, kind);
      strand := strand + [Send(request)];
      log := log.(issued := log.issued + [request]);
    }

    /** `command` of the public class, behind `stateValid`; `publish` is this call with the
        words PUBLISH, channel and message. */
    method ExecuteCommand(cmd: string, args: Command, handler: Callback)
      modifies this`strand, this`log
      ensures View() == Perform(old(View()), Execute(cmd, args, handler))
    {
      if state == Connected {
        PostCommand([cmd] + args, handler, Ordinary);
      } else {
        ErrorHandler(InvalidState);
      }
    }

    /** Records, for the specification, how much had been answered when subscribed mode was entered. */
    method SetSubscribed()
      modifies this`state, this`log
      ensures View() == EnterSubscribed(old(View()))
    {
      log := log.(answeredBefore := if state == Connected then |log.called| else log.answeredBefore);
      state := Subscribed;
    }

    method SubscribeChannel(pattern: bool, channel: string, msgHandler: Callback, handler: Callback) returns (id: nat)
      modifies this`strand, this`log, this`state, this`msgHandlers, this`subscribeSeq
      ensures View() == Perform(old(View()), Subscribe(pattern, channel, msgHandler, handler))
      ensures id == HandleOf(old(View()))
    {
      hide Post;
      if state == Connected || state == Subscribed {
        SetSubscribed();
        PostCommand([SubscribeWord(pattern), channel], handler, Subscribing);
        msgHandlers := Insert(msgHandlers, channel, (subscribeSeq, msgHandler));
        id := subscribeSeq;
        log := log.(ids := log.ids + [id], history := log.history + [Added(pattern, channel, id, msgHandler)]);
        subscribeSeq := subscribeSeq + 1;
      } else {
        ErrorHandler(InvalidState);
        id := 0;
      }
    }

    method SingleShotSubscribe(pattern: bool, channel: string, msgHandler: Callback, handler: Callback)
      modifies this`strand, this`log, this`state, this`singleShotMsgHandlers
      ensures View() == Perform(old(View()), SingleShot(pattern, channel, msgHandler, handler))
    {
      if state == Connected || state == Subscribed {
        SetSubscribed();
        PostCommand([SubscribeWord(pattern), channel], handler, Subscribing);
        singleShotMsgHandlers := Insert(singleShotMsgHandlers, channel, msgHandler);
        log := log.(history := log.history + [Armed(pattern, channel, msgHandler)]);
      } else {
        ErrorHandler(InvalidState);
      }
    }

    /** The erase-while-iterating loop over the entries of one key. */
    method EraseHandle(entries: seq<(nat, Callback)>, id: nat) returns (kept: seq<(nat, Callback)>)
      ensures kept == Without(entries, id)
    {
      kept := entries;
      var it := 0;
      while it != |kept|
        invariant it <= |kept|
        invariant Without(entries, id) == kept[..it] + Without(kept[it..], id)
        decreases |kept| - it
      {
        WithoutFirst(kept, it, id);
        if kept[it].0 == id {
          kept := kept[..it] + kept[it + 1..];
        } else {
          it := it + 1;
        }
      }
    }

    static lemma WithoutFirst(kept: seq<(nat, Callback)>, it: nat, id: nat)
      requires it < |kept|
      ensures kept[it].0 == id ==>
                var next := kept[..it] + kept[it + 1..];
                kept[..it] + Without(kept[it..], id) == next[..it] + Without(next[it..], id)
      ensures kept[it].0 != id ==> kept[..it] + Without(kept[it..], id) == kept[..it + 1] + Without(kept[it + 1..], id)
    {
      assert kept[it..][1..] == kept[it + 1..];
      if kept[it].0 == id {
        var next := kept[..it] + kept[it + 1..];
        assert next[it..] == kept[it + 1..] && next[..it] == kept[..it];
      } else {
        assert kept[..it] + ([kept[it]] + Without(kept[it + 1..], id)) == kept[..it + 1] + Without(kept[it + 1..], id);
      }
    }

    method UnsubscribeChannel(pattern: bool, id: nat, channel: string, handler: Callback)
      modifies this`strand, this`log, this`msgHandlers
      ensures View() == Perform(old(View()), Unsubscribe(pattern, id, channel, handler))
    {
      if state == Connected || state == Subscribed {
        if channel in msgHandlers {
          var kept := EraseHandle(msgHandlers[channel], id);
          msgHandlers := msgHandlers[channel := kept];
        }
        PostCommand([UnsubscribeWord(pattern), channel], handler, Unsubscribing);
        log := log.(history := log.history + [Removed(channel, id)]);
      } else {
        ErrorHandler(InvalidState);
      }
    }

    method PerformCall(call: Call)
      modifies this`strand, this`log, this`state, this`msgHandlers, this`singleShotMsgHandlers, this`subscribeSeq
      ensures View() == Perform(old(View()), call)
    {
      match call
      case Execute(cmd, args, handler) => ExecuteCommand(cmd, args, handler);
      case Subscribe(pattern, channel, msgHandler, handler) =>
        var _ := SubscribeChannel(pattern, channel, msgHandler, handler);
      case SingleShot(pattern, channel, msgHandler, handler) =>
        SingleShotSubscribe(pattern, channel, msgHandler, handler);
      case Unsubscribe(pattern, id, channel, handler) => UnsubscribeChannel(pattern, id, channel, handler);
    }

    // ---- Writing ----

    method AsyncWriteDone(ec: ErrorCode)
      modifies this`dataWrited, this`dataQueued, this`net, this`log
      ensures View() == AsyncWrite(old(View()), ec)
    {
      dataWrited := [];
      if ec != NoError {
        log := log.(writeFailed := true);
        ErrorHandler(IoError(ec));
        return;
      }
      if dataQueued != [] {
        dataQueued, dataWrited := dataWrited, dataQueued;
        net := net.(wire := net.wire + dataWrited, inFlight := net.inFlight + 1);
      }
    }

    method StartCommand(request: Request)
      modifies this`handlers, this`dataWrited, this`dataQueued, this`net, this`log
      ensures View() == DoAsyncCommand(old(View()), request)
    {
      handlers := handlers + [request.handler];
      dataQueued := dataQueued + [request.buff];
      if dataWrited == [] {
        AsyncWriteDone(NoError);
      }
    }

    /** The strand runs the callback at its front. */
    method RunTask()
      requires strand != []
      modifies this`strand, this`handlers, this`dataWrited, this`dataQueued, this`net, this`log
      ensures View() == RunFront(old(View()))
    {
      var task := strand[0];
      strand := strand[1..];
      match task
      case Send(request) => StartCommand(request);
      case Notify(h, payload) => log := log.(notified := log.notified + [(h, payload)]);
    }

    // ---- Messages ----

    /** A pushed message: one single-shot handler, then every ordinary one, is posted. The kind
        of message is only remembered. */
    method PostMessage(ghost pattern: bool, key: string, payload: string)
      modifies this`strand, this`singleShotMsgHandlers, this`log
      ensures View() == Dispatch(old(View()), pattern, key, payload)
    {
      ghost var shots := Under(singleShotMsgHandlers, key);
      if key in singleShotMsgHandlers && singleShotMsgHandlers[key] != [] {
        var waiting := singleShotMsgHandlers[key];
        strand := strand + [Notify(waiting[0], payload)];
        singleShotMsgHandlers := singleShotMsgHandlers[key := waiting[1..]];
      }
      var entries := Under(msgHandlers, key);
      ghost var posting := Posting(|log.history|, pattern, key, payload, Oldest(shots), entries);
      log := log.(postings := log.postings + [posting]);
      ghost var c1, before := View(), strand;
      assert Notices(entries[..0], payload) == [];
      for i := 0 to |entries|
        invariant View() == c1.(strand := before + Notices(entries[..i], payload))
      {
        strand := strand + [Notify(entries[i].1, payload)];
        assert Notices(entries[..i + 1], payload)
               == Notices(entries[..i], payload) + [Notify(entries[i].1, payload)];
      }
      assert entries[..|entries|] == entries;
    }

    /** `handlers.front()(v); handlers.pop();` */
    method CallFront(v: RedisValue)
      requires handlers != []
      modifies this`handlers, this`strand, this`log, this`state, this`msgHandlers, this`singleShotMsgHandlers,
               this`subscribeSeq
      ensures View() == Answer(react, old(View()), v)
    {
      hide PerformAll;
      var h := handlers[0];
      log := log.(called := log.called + [(h, v)]);
      PerformCalls(react(h, v));
      handlers := handlers[1..];
    }

    /** A handler of the user runs and calls the client. */
    method PerformCalls(calls: seq<Call>)
      modifies this`strand, this`log, this`state, this`msgHandlers, this`singleShotMsgHandlers, this`subscribeSeq
      ensures View() == PerformAll(old(View()), calls)
    {
      hide Perform;
      ghost var c0 := View();
      var i := 0;
      assert calls[0..] == calls;
      while i < |calls|
        invariant i <= |calls|
        invariant PerformAll(View(), calls[i..]) == PerformAll(c0, calls)
      {
        assert calls[i..][1..] == calls[i + 1..];
        PerformCall(calls[i]);
        i := i + 1;
      }
    }

    method DoProcessMessage(v: RedisValue)
      modifies this`handlers, this`strand, this`log, this`state, this`msgHandlers, this`singleShotMsgHandlers,
               this`subscribeSeq
      ensures View() == Process(react, old(View()), v)
    {
      hide Answer, Dispatch;
      if state == Subscribed {
        var result := v.ToArray();
        var resultSize := |result|;
        if resultSize >= 3 {
          var command := result[0];
          var queueName := result[if resultSize == 3 then 1 else 2];
          var value := result[if resultSize == 3 then 2 else 3];
          var pattern := if resultSize == 4 then result[1] else queueName;
          var cmd := command.ToByteArray();
          if cmd == MESSAGE || cmd == PMESSAGE {
            PostMessage(cmd == PMESSAGE, pattern.ToByteArray(), value.ToByteArray());
          } else if handlers != [] && IsAckWord(cmd) {
            CallFront(v);
          } else {
            ErrorHandler(InvalidCommand(cmd));
          }
        } else {
          ErrorHandler(ProtocolError);
        }
      } else {
        if handlers != [] {
          CallFront(v);
        } else {
          ErrorHandler(UnexpectedMessage(v));
        }
      }
    }

    /** The completion of a read: `size` bytes are at the front of the buffer. */
    method AsyncReadDone(ec: ErrorCode, size: nat)
      requires Valid() && size <= BUFFER_SIZE
      modifies this`handlers, this`strand, this`log, this`state, this`msgHandlers, this`singleShotMsgHandlers,
               this`subscribeSeq, this`net, redisParser
      ensures Valid()
      ensures View() == if ec != NoError || size == 0 then ReadFailed(old(View()), ec)
                        else AsyncRead(react, old(View()), old(buf[..size]))
    {
      hide ProcessAll, Drain;
      if ec != NoError || size == 0 {
        log := log.(readStopped := true);
        if ec != Aborted {
          ErrorHandler(IoError(ec));
        }
        return;
      }
      ghost var v0 := View();
      ghost var done;
      var result;
      result, done := ReadLoop(size);
      ProcessAllIgnoresParser(react, v0, redisParser.View(), done);
      StopReading(result);
    }

    /** The loop over the bytes of one read: every completed value is processed at once. */
    method ReadLoop(size: nat) returns (result: Outcome, ghost done: seq<RedisValue>)
      requires Valid() && size <= BUFFER_SIZE
      modifies this`handlers, this`strand, this`log, this`state, this`msgHandlers, this`singleShotMsgHandlers,
               this`subscribeSeq, redisParser
      ensures Valid()
      ensures Drain(old(redisParser.View()), old(buf[..size])) == Drained(done, result, redisParser.View())
      ensures View() == ProcessAll(react, old(View()), done).(parser := redisParser.View())
    {
      hide Process, ProcessAll, Drain, Parse;
      ghost var v0, rest := View(), buf[..size];
      ghost var whole := Drain(v0.parser, rest);
      done := [];
      var pos := 0;
      NothingProcessed(react, v0, whole);
      while pos < size
        invariant pos <= size && rest == buf[pos..size] && Valid()
        invariant whole == Joined(Drained(done, Incompleted, v0.parser), Drain(redisParser.View(), rest))
        invariant View() == ProcessAll(react, v0, done).(parser := redisParser.View())
      {
        JoinedStep(whole, done, v0.parser, redisParser.View(), rest);
        var consumed;
        consumed, result := redisParser.ParseChunk(buf[pos..size]);
        if result == Completed {
          var v := redisParser.Result();
          ProcessedStep(react, v0, redisParser.View(), done, v);
          DoProcessMessage(v);
          done := done + [v];
          rest := rest[consumed..];
        } else {
          return;
        }
        pos := pos + consumed;
      }
      result := Incompleted;
      DrainNothing(redisParser.View());
      assert done + [] == done;
    }

    /** The read loop is left: the next read is started when more bytes are needed. */
    method StopReading(result: Outcome)
      modifies this`net, this`log
      ensures View() == EndRead(old(View()), result)
    {
      if result == Error {
        log := log.(readStopped := true);
        ErrorHandler(ParserError);
      } else if result == Undefined {
        log := log.(readStopped := true);
      } else {
        ProcessMessage();
      }
    }

    static lemma NothingProcessed(react: React, c: Client, whole: Drained)
      ensures ProcessAll(react, c, []).(parser := c.parser) == c
      ensures whole == Joined(Drained([], Incompleted, c.parser), whole)
    {
      assert [] + whole.values == whole.values;
    }

    /** One more value: the client after it, whatever parser it then has. */
    static lemma ProcessedStep(react: React, v0: Client, q: Parser, done: seq<RedisValue>, v: RedisValue)
      ensures Process(react, ProcessAll(react, v0, done).(parser := q), v)
              == ProcessAll(react, v0, done + [v]).(parser := q)
    {
      hide Process, ProcessAll;
      ProcessIgnoresParser(react, ProcessAll(react, v0, done), q, v);
      ProcessAllAppend(react, v0, done, v);
    }

    // ---- The synchronous side ----

    /** The bytes received but not parsed, and those the socket still delivers before it fails. */
    ghost function Pending(): string
      requires Valid()
      reads this, redisParser, buf, socket
    {
      buf[..bufSize] + Stream(socket.incoming)
    }

    /** The loop over the buffered bytes. `pos` is not reset after the remaining bytes were moved
        to the front; the loop still ends after one turn, because a chunk that does not complete
        a value is consumed completely. */
    method ParseBuffer() returns (result: Outcome)
      requires Valid() && bufSize > 0
      modifies this`bufSize, buf, redisParser
      ensures Valid()
      ensures var f := Parse(old(redisParser.View()), old(buf[..bufSize]));
              && result == f.outcome && redisParser.View() == f.p
              && buf[..bufSize] == old(buf[..bufSize])[f.consumed..]
              && (result == Incompleted ==> bufSize == 0)
    {
      hide Parse;
      ghost var bytes, p0 := buf[..bufSize], redisParser.View();
      var pos := 0;
      result := Incompleted;
      while pos < bufSize
        invariant Valid()
        invariant if pos == 0 then bufSize > 0 && redisParser.View() == p0 && buf[..bufSize] == bytes
                  else
                    && bufSize == 0 && result == Incompleted
                    && Parse(p0, bytes) == Parsed(|bytes|, Incompleted, redisParser.View())
        decreases bufSize
      {
        var consumed;
        assert buf[pos..bufSize] == bytes;
        consumed, result := redisParser.ParseChunk(buf[pos..bufSize]);
        pos := pos + consumed;
        forall i | 0 <= i < bufSize - pos {
          buf[i] := buf[pos + i];
        }
        bufSize := bufSize - pos;
        assert buf[..bufSize] == bytes[pos..];
        if result == Incompleted {
          continue;
        }
        return;
      }
      assert bytes[|bytes|..] == "";
    }

    /** Reads from the socket when nothing is buffered, and gives up when the error code is set
        after that read. */
    method FillBuffer(ec0: ErrorCode) returns (ec: ErrorCode, gaveUp: bool)
      requires Valid()
      modifies this`bufSize, buf, socket`incoming
      ensures Valid() && (!gaveUp ==> bufSize > 0 && ec == ec0)
      ensures old(Pending()) != "" ==>
                && Pending() == old(Pending()) && ec == ec0
                && Ending(socket.incoming) == old(Ending(socket.incoming))
                && (gaveUp <==> old(bufSize) == 0 && ec0 != NoError)
      ensures old(Pending()) == "" ==>
                gaveUp && bufSize == 0 && End(ec, socket.incoming) == old(Ending(socket.incoming))
      ensures old(bufSize) > 0 ==> bufSize == old(bufSize) && buf[..bufSize] == old(buf[..bufSize])
    {
      ec, gaveUp := ec0, false;
      if bufSize == 0 {
        var n;
        n, ec := SocketReadSome(socket, buf, ec);
        bufSize := n;
        gaveUp := ec != NoError;
      }
    }

    /** What is returned once the parser has come to an end. */
    method Conclude(result: Outcome) returns (r: RedisValue)
      requires Valid()
      modifies this`log, redisParser
      ensures Valid()
      ensures result == Completed ==>
                r == old(redisParser.redisValue) && redisParser.View() == Taken(old(redisParser.View()))
      ensures result != Completed ==> r == Nil && redisParser.View() == old(redisParser.View())
      ensures log == if result == Error then old(log).(errors := old(log).errors + [ParserError]) else old(log)
    {
      r := Nil;
      if result == Completed {
        r := redisParser.Result();
      } else if result == Error {
        ErrorHandler(ParserError);
      }
    }

    /** The bytes that a call started with this error code may parse: with a stale one, nothing
        that is still to be received. */
    ghost function Available(ec0: ErrorCode): string
      requires Valid()
      reads this, redisParser, buf, socket
    {
      if ec0 == NoError then Pending() else buf[..bufSize]
    }

    /** How the call leaves the stream when it gives up behind the bytes it may parse: at the end
        of the stream it reports how that ended; before it, which takes a stale error code, it
        loses nothing. */
    ghost predicate GivenUp(ec0: ErrorCode, ec: ErrorCode, rest: string, end: End)
      requires Valid()
      reads this, redisParser, buf, socket
    {
      if rest == "" then bufSize == 0 && End(ec, socket.incoming) == end
      else ec0 != NoError && ec == ec0 && Pending() == rest && Ending(socket.incoming) == end
    }

    /** Reads one reply. Whatever the parser has read before, the bytes available decide the
        result: the first value in them is returned and exactly its bytes are gone; a malformed
        one is reported, gives nil and is gone up to the offending byte; if they hold no
        complete value, all of them have been parsed and the call gives up. */
    method SyncReadResponse(ec0: ErrorCode) returns (r: RedisValue, ec: ErrorCode)
      requires Valid()
      modifies this`bufSize, this`log, buf, redisParser, socket`incoming
      ensures Valid()
      ensures var pending, available := old(Pending()), old(Available(ec0));
              var f, end := First(old(redisParser.View()), available), old(Ending(socket.incoming));
              && (f.outcome == Completed ==>
                    && ec == ec0 && r == f.p.d.redisValue && redisParser.View() == Taken(f.p) && log == old(log)
                    && Pending() == pending[f.consumed..] && Ending(socket.incoming) == end)
              && (f.outcome == Error ==>
                    && ec == ec0 && r == Nil && redisParser.View() == f.p
                    && log == old(log).(errors := old(log).errors + [ParserError])
                    && Pending() == pending[f.consumed..] && Ending(socket.incoming) == end)
              && (f.outcome == Incompleted ==>
                    && ec != NoError && r == Nil && redisParser.View() == f.p && log == old(log)
                    && GivenUp(ec0, ec, pending[|available|..], end))
    {
      hide Parse, First, Taken, Stream, Ending;
      ghost var p0, pending, pre, available := redisParser.View(), Pending(), "", Available(ec0);
      ghost var end := Ending(socket.incoming);
      ec := ec0;
      NothingRead(p0);
      while true
        invariant Valid() && ec == ec0 && log == old(log) && Ending(socket.incoming) == end
        invariant pending == pre + Pending()
        invariant First(p0, pre) == Parsed(|pre|, Incompleted, redisParser.View())
        invariant ec0 == NoError || (pre == "" && buf[..bufSize] == available) || (pre == available && bufSize == 0)
        decreases |Pending()|
      {
        ghost var was, left := pre, Pending();
        var gaveUp, result;
        ec, gaveUp, result, pre := ReadMore(ec, p0, pre);
        if gaveUp {
          Behind(pending, was, left);
          assert was == available;
          r := Nil;
          return;
        }
        if result != Incompleted {
          assert pre == available || ec0 == NoError by { Regroup(was, available, ""); }
          r := Conclude(result);
          return;
        }
      }
    }

    /** One turn: what is buffered, or else what the socket delivers next, is parsed. `p0` is
        the parser at the start and `pre` what was parsed since. */
    method ReadMore(ec0: ErrorCode, ghost p0: Parser, ghost pre: string)
      returns (ec: ErrorCode, gaveUp: bool, result: Outcome, ghost pre': string)
      requires Valid() && p0.Valid() && First(p0, pre) == Parsed(|pre|, Incompleted, redisParser.View())
      modifies this`bufSize, buf, redisParser, socket`incoming
      ensures Valid()
      ensures gaveUp <==> old(bufSize) == 0 && (ec0 != NoError || old(Pending()) == "")
      ensures gaveUp ==>
                && ec != NoError && redisParser.View() == old(redisParser.View()) && pre' == pre
                && GivenUp(ec0, ec, old(Pending()), old(Ending(socket.incoming)))
      ensures !gaveUp ==>
                && ec == ec0 && Ending(socket.incoming) == old(Ending(socket.incoming)) && pre < pre'
                && (ec0 != NoError ==> pre' == pre + old(buf[..bufSize]))
      ensures !gaveUp && result == Incompleted ==>
                && bufSize == 0 && pre' + Pending() == pre + old(Pending())
                && First(p0, pre') == Parsed(|pre'|, Incompleted, redisParser.View())
      ensures !gaveUp && result != Incompleted ==>
                var f := First(p0, pre');
                && f == First(p0, pre + old(Pending())) && f.outcome == result && f.p == redisParser.View()
                && Pending() == (pre + old(Pending()))[f.consumed..]
    {
      hide Parse, First, Stream, Ending;
      result, pre' := Incompleted, pre;
      ec, gaveUp := FillBuffer(ec0);
      if !gaveUp {
        result, pre' := ReadPiece(p0, pre);
      }
    }

    /** What is buffered is parsed. */
    method ReadPiece(ghost p0: Parser, ghost pre: string) returns (result: Outcome, ghost pre': string)
      requires Valid() && p0.Valid() && First(p0, pre) == Parsed(|pre|, Incompleted, redisParser.View())
      requires bufSize > 0
      modifies this`bufSize, buf, redisParser
      ensures Valid() && pre' == pre + old(buf[..bufSize]) && pre < pre'
      ensures result == Incompleted ==>
                && bufSize == 0 && pre' + Pending() == pre + old(Pending())
                && First(p0, pre') == Parsed(|pre'|, Incompleted, redisParser.View())
      ensures result != Incompleted ==>
                var f := First(p0, pre');
                && f == First(p0, pre + old(Pending())) && f.outcome == result && f.p == redisParser.View()
                && Pending() == (pre + old(Pending()))[f.consumed..]
    {
      hide Parse, First, Stream;
      ghost var mid, later := buf[..bufSize], Stream(socket.incoming);
      PieceParsed(p0, pre, mid, later);
      result := ParseBuffer();
      pre' := pre + mid;
    }

    /** What parsing one more piece says about all that was parsed and all that is pending. */
    static lemma PieceParsed(p0: Parser, pre: string, mid: string, later: string)
      requires p0.Valid() && First(p0, pre).outcome == Incompleted && First(p0, pre).consumed == |pre| && mid != ""
      ensures pre + (mid + later) == (pre + mid) + later
      ensures var f := Parse(First(p0, pre).p, mid);
              if f.outcome == Incompleted then First(p0, pre + mid) == Parsed(|pre| + |mid|, Incompleted, f.p)
              else
                && First(p0, pre + mid) == f.After(|pre|) == First(p0, pre + (mid + later))
                && (pre + (mid + later))[|pre| + f.consumed..] == mid[f.consumed..] + later
    {
      hide Parse, First;
      Regroup(pre, mid, later);
      Regroup(pre, mid, "");
      FirstJoins(p0, pre, mid, later);
      FirstJoins(p0, pre, mid, "");
    }

    static lemma Regroup(a: string, b: string, c: string)
      ensures a + (b + c) == a + b + c
      ensures a + b + "" == a + b
    {
    }

    static lemma Behind(whole: string, a: string, b: string)
      requires whole == a + b
      ensures whole[|a|..] == b && (b == "" ==> whole == a)
    {
    }

    static lemma NothingRead(p: Parser)
      requires p.Valid()
      ensures First(p, "") == Parsed(0, Incompleted, p)
    {
    }

    /** What decides the replies to the commands that follow. */
    ghost function SessionView(): Session
      requires Valid()
      reads this, redisParser, buf, socket
    {
      Session(redisParser.View(), Pending(), Ending(socket.incoming))
    }

    /** One command. As much of it is sent as the system takes. If that is not all, or the error
        code was set before, an error is reported and no reply is read; otherwise the first reply
        pending is returned and used up, a malformed one is reported and gives nil, or an error
        is reported because there is no complete one. */
    method DoSyncCommand(command: Command, ec0: ErrorCode) returns (r: RedisValue, ec: ErrorCode)
      requires Valid()
      modifies this`bufSize, this`log, buf, redisParser, socket
      ensures Valid()
      ensures socket.sent
              == old(socket.sent) + Wire(command)[..Least(|Wire(command)|, Capacity(old(socket.outgoing)))]
      ensures if Capacity(old(socket.outgoing)) >= |Wire(command)| then
                socket.outgoing == Unused(old(socket.outgoing), |Wire(command)|) && (ec0 != NoError ==> ec == ec0)
              else Halt(ec, socket.outgoing) == Halting(old(socket.outgoing))
      ensures ec0 != NoError || Capacity(old(socket.outgoing)) < |Wire(command)| ==>
                && ec != NoError && r == Nil && log == old(log)
                && Pending() == old(Pending()) && redisParser.View() == old(redisParser.View())
                && SessionView() == old(SessionView())
      ensures ec0 == NoError && Capacity(old(socket.outgoing)) >= |Wire(command)| ==>
                var f, end := First(old(redisParser.View()), old(Pending())), old(Ending(socket.incoming));
                && (f.outcome == Completed ==>
                      && ec == NoError && r == f.p.d.redisValue && redisParser.View() == Taken(f.p) && log == old(log)
                      && Pending() == old(Pending())[f.consumed..] && Ending(socket.incoming) == end)
                && (f.outcome == Error ==>
                      && ec == NoError && r == Nil && redisParser.View() == f.p
                      && log == old(log).(errors := old(log).errors + [ParserError])
                      && Pending() == old(Pending())[f.consumed..] && Ending(socket.incoming) == end)
                && (f.outcome == Incompleted ==>
                      && r == Nil && redisParser.View() == f.p && log == old(log)
                      && bufSize == 0 && End(ec, socket.incoming) == end)
                && (f.outcome != Undefined ==>
                      && SessionView() == AfterCommand(old(SessionView())).0
                      && AfterCommand(old(SessionView())).1 == (if ec == NoError then Got(r) else NoValue(ec)))
    {
      hide Wire, Parse, First, Taken, Stream, Ending, Capacity, Halting, Unused;
      var data := MakeCommand(command);
      var n;
      ghost var pending := Pending();
      n, ec := SocketWrite(socket, data, ec0);
      assert Pending() == pending && Available(NoError) == pending;
      assert n == |data| ==> data[..n] == data;
      if ec != NoError {
        r := Nil;
        return;
      }
      assert pending[|pending|..] == "";
      r, ec := SyncReadResponse(ec);
    }

    /** Pipelined commands. As much of them is sent as the system takes. If that is not all, or the
        error code was set before, an error is reported and no reply is read; otherwise the
        replies pending are read one by one, as many as there were commands: they are returned
        in order with nil for each malformed one, and the bytes behind them stay pending; or the
        stream ends before, and that is reported. */
    method DoSyncPipeline(commands: seq<Command>, ec0: ErrorCode) returns (r: RedisValue, ec: ErrorCode)
      requires Valid()
      modifies this`bufSize, this`log, buf, redisParser, socket
      ensures Valid() && Transmitted(commands, ec0, ec, old(socket.sent), old(socket.outgoing))
      ensures old(socket.sent) <= socket.sent <= old(socket.sent) + WireAll(commands)
      ensures ec0 != NoError || !TakesAll(old(socket.outgoing), WireList(commands)) ==>
                && ec != NoError && r == Nil && log == old(log)
                && Pending() == old(Pending()) && redisParser.View() == old(redisParser.View())
                && SessionView() == old(SessionView())
      ensures ec0 == NoError && TakesAll(old(socket.outgoing), WireList(commands)) ==>
                Responded(FirstMany(old(redisParser.View()), old(Pending()), |commands|),
                          old(Pending()), old(Ending(socket.incoming)), old(log), r, ec)
    {
      hide Wire, FirstMany, Stream, Ending, Responded, Capacity, Halting, TakesAll, TakenOf, UnusedOf, HaltingOf;
      var data := MakeCommands(commands);
      FlattenWires(commands);
      var n;
      ghost var pending := Pending();
      n, ec := SocketWriteAll(socket, data, ec0);
      assert Pending() == pending;
      if ec != NoError {
        r := Nil;
        return;
      }
      assert Flatten(data)[..n] == Flatten(data);
      r, ec := ReadResponses(|commands|);
    }

    /** What a pipeline leaves behind on the sending side: exactly the bytes the system takes are
        sent, all of them in one piece behind each other when it takes every command; otherwise
        the timeout or failure that stopped it is reported. With a stale error code nothing
        behind the first command is sent. */
    ghost predicate Transmitted(commands: seq<Command>, ec0: ErrorCode, ec: ErrorCode,
                                sent: string, events: seq<SendEvent>)
      reads socket
    {
      var data, first := WireAll(commands), if commands == [] then 0 else |Wire(commands[0])|;
      if ec0 != NoError then
        && first <= |data| && socket.sent == sent + data[..Least(first, Capacity(events))]
        && ec == (if first <= Capacity(events) then ec0 else Halting(events).ec)
      else if TakesAll(events, WireList(commands)) then
        socket.sent == sent + data && socket.outgoing == UnusedOf(events, WireList(commands))
      else
        && TakenOf(events, WireList(commands)) < |data|
        && socket.sent == sent + data[..TakenOf(events, WireList(commands))]
        && Halt(ec, socket.outgoing) == HaltingOf(events, WireList(commands))
    }

    /** The state after the responses `a` of a pipeline have been read: from `pending`, with the
        stream ending in `end` and the log `before`. Nothing is said about an undefined header. */
    ghost predicate Responded(a: Responses, pending: string, end: End, before: Log, r: RedisValue, ec: ErrorCode)
      requires Valid() && a.consumed <= |pending|
      reads this, redisParser, buf, socket
    {
      && (a.outcome == Completed ==>
            && ec == NoError && r == Array(a.values)
            && Pending() == pending[a.consumed..] && Ending(socket.incoming) == end)
      && (a.outcome == Incompleted ==> r == Nil && bufSize == 0 && End(ec, socket.incoming) == end)
      && (a.outcome != Undefined ==> redisParser.View() == a.p && log == Reported(before, a.errors))
    }

    /** The log with so many parser errors more. */
    static ghost function Reported(before: Log, errors: nat): Log {
      before.(errors := before.errors + seq(errors, i => ParserError))
    }

    /** The loop over the replies of a pipeline. */
    method ReadResponses(count: nat) returns (r: RedisValue, ec: ErrorCode)
      requires Valid()
      modifies this`bufSize, this`log, buf, redisParser, socket`incoming
      ensures Valid()
      ensures Responded(FirstMany(old(redisParser.View()), old(Pending()), count),
                        old(Pending()), old(Ending(socket.incoming)), old(log), r, ec)
    {
      hide First, FirstMany, Stream, Ending, Reported, Halfway;
      ghost var pending, end := Pending(), Ending(socket.incoming);
      ghost var a := FirstMany(redisParser.View(), pending, count);
      ghost var used: nat, errors: nat := 0, 0;
      ec := NoError;
      var responses := [];
      StartOfResponses(a, count, pending);
      for i := 0 to count
        invariant Valid() && ec == NoError && |responses| == i
        invariant a.outcome != Undefined ==> Halfway(a, count - i, responses, used, errors, pending, end, old(log))
      {
        var response;
        response, ec, used, errors :=
          ReadNext(ec, a, count - i, responses, used, errors, pending, end, old(log));
        responses := responses + [response];
        if ec != NoError {
          r := Nil;
          return;
        }
      }
      r := Array(responses);
      if a.outcome != Undefined {
        EndOfResponses(a, responses, used, errors, pending, end, old(log));
      }
    }

    /** The responses `a` are those in `read`, which used up `used` bytes and were malformed
        `errors` times, followed by `count` more that are still pending. */
    ghost predicate Halfway(a: Responses, count: nat, read: seq<RedisValue>, used: nat, errors: nat,
                            pending: string, end: End, before: Log)
      requires Valid()
      reads this, redisParser, buf, socket
    {
      && a == Appended(read, used, errors, FirstMany(redisParser.View(), Pending(), count))
      && used <= |pending| && Pending() == pending[used..]
      && Ending(socket.incoming) == end && log == Reported(before, errors)
    }

    lemma StartOfResponses(a: Responses, count: nat, pending: string)
      requires Valid() && pending == Pending() && a == FirstMany(redisParser.View(), pending, count)
      ensures Halfway(a, count, [], 0, 0, pending, Ending(socket.incoming), log)
    {
      hide FirstMany, Stream, Ending;
      NothingResponded(a, log, pending);
    }

    lemma EndOfResponses(a: Responses, read: seq<RedisValue>, used: nat, errors: nat,
                         pending: string, end: End, before: Log)
      requires Valid() && a.consumed <= |pending| && Halfway(a, 0, read, used, errors, pending, end, before)
      ensures Responded(a, pending, end, before, Array(read), NoError)
    {
      hide Stream, Ending, Reported;
      assert FirstMany(redisParser.View(), Pending(), 0) == Responses([], Completed, 0, 0, redisParser.View());
      assert read + [] == read;
    }

    /** One more response of a pipeline. */
    method ReadNext(ec0: ErrorCode, ghost a: Responses, ghost count: nat, ghost read: seq<RedisValue>,
                    ghost used: nat, ghost errors: nat, ghost pending: string, ghost end: End, ghost before: Log)
      returns (response: RedisValue, ec: ErrorCode, ghost used': nat, ghost errors': nat)
      requires Valid() && ec0 == NoError && count > 0 && a.consumed <= |pending|
      requires a.outcome != Undefined ==> Halfway(a, count, read, used, errors, pending, end, before)
      modifies this`bufSize, this`log, buf, redisParser, socket`incoming
      ensures Valid()
      ensures a.outcome != Undefined && ec == NoError ==>
                Halfway(a, count - 1, read + [response], used', errors', pending, end, before)
      ensures a.outcome != Undefined && ec != NoError ==> Responded(a, pending, end, before, Nil, ec)
    {
      hide First, FirstMany, Stream, Ending, Taken;
      ghost var p, s := redisParser.View(), Pending();
      ghost var f := First(p, s);
      FirstManyStep(p, s, count, read, used, errors);
      response, ec := SyncReadResponse(ec0);
      used', errors' := used + f.consumed, if f.outcome == Error then errors + 1 else errors;
    }

    static lemma NothingResponded(a: Responses, before: Log, pending: string)
      ensures a == Appended([], 0, 0, a) && Reported(before, 0) == before && pending[0..] == pending
    {
    }
  }

  /** `Pipeline`: collects commands and runs them in one go. */
  class Pipeline {
    const client: RedisClientImpl
    var commands: seq<Command>

    constructor (client: RedisClientImpl)
      ensures this.client == client && commands == []
    {
      this.client := client;
      commands := [];
    }

    method AddCommand(cmd: string, args: Command)
      modifies this`commands
      ensures commands == old(commands) + [[cmd] + args]
    {
      var items := [cmd] + args;
      commands := commands + [items];
    }

    /** `finish`, through `RedisSyncClient::pipelined`, which checks the state first. A connected
        client sends as much of the commands as the system takes. If that is all of them, with a
        clear error code, it reads as many replies: well-formed ones are returned in order and
        the bytes behind them stay pending; when the stream ends within them, that is reported. */
    method Finish(ec0: ErrorCode) returns (r: RedisValue, ec: ErrorCode)
      requires client.Valid()
      modifies this`commands, client`bufSize, client`log, client.buf, client.redisParser, client.socket
      ensures client.Valid() && commands == []
      ensures client.state != Connected ==>
                && r == Nil && ec == ec0 && client.SessionView() == old(client.SessionView())
                && client.socket.sent == old(client.socket.sent)
                && client.socket.outgoing == old(client.socket.outgoing)
                && client.log == old(client.log).(errors := old(client.log).errors + [InvalidState])
      ensures client.state == Connected ==>
                && client.Transmitted(
                     old(commands), ec0, ec, old(client.socket.sent), old(client.socket.outgoing))
                && old(client.socket.sent) <= client.socket.sent
                && client.socket.sent <= old(client.socket.sent) + WireAll(old(commands))
      ensures client.state == Connected
              && (ec0 != NoError || !TakesAll(old(client.socket.outgoing), WireList(old(commands)))) ==>
                && ec != NoError && r == Nil && client.log == old(client.log)
                && client.SessionView() == old(client.SessionView())
      ensures client.state == Connected
              && ec0 == NoError && TakesAll(old(client.socket.outgoing), WireList(old(commands))) ==>
                && client.socket.sent == old(client.socket.sent) + WireAll(old(commands))
                && client.Responded(
                     FirstMany(old(client.redisParser.View()), old(client.Pending()), |old(commands)|),
                     old(client.Pending()), old(Ending(client.socket.incoming)), old(client.log), r, ec)
      ensures client.state == Connected && old(client.redisParser.View()).Idle()
              && ec0 == NoError && TakesAll(old(client.socket.outgoing), WireList(old(commands))) ==>
                && (forall rs: seq<Reply>, rest: string ::
                      AllSendable(rs) && |rs| == |old(commands)| && old(client.Pending()) == EncodeAll(rs) + rest ==>
                        && ec == NoError && r.Array? && |r.elems| == |rs|
                        && (forall i :: 0 <= i < |rs| ==> r.elems[i] == Meaning(rs[i]))
                        && client.Pending() == rest)
                && (forall rs: seq<Reply>, n: nat ::
                      && AllSendable(rs) && n <= |EncodeAll(rs)| && Whole(rs, n) < |old(commands)|
                      && old(client.Pending()) == EncodeAll(rs)[..n] ==>
                        && r == Nil && client.bufSize == 0 && client.log == old(client.log)
                        && End(ec, client.socket.incoming) == old(Ending(client.socket.incoming)))
    {
      hide WireAll, DecodeMany, EncodeAll, Encode, FirstMany, Stream, Ending, Whole, TakesAll, Meaning;
      var all := commands;
      commands := [];
      if client.state == Connected {
        ghost var p, pending := client.redisParser.View(), client.Pending();
        if p.Idle() {
          forall rs: seq<Reply>, rest: string | AllSendable(rs) && |rs| == |all| && pending == EncodeAll(rs) + rest
            ensures FirstMany(p, pending, |all|).outcome == Completed
            ensures FirstMany(p, pending, |all|).values == Meanings(rs)
            ensures pending[FirstMany(p, pending, |all|).consumed..] == rest
          {
            DecodeManyEncode(rs, rest);
            FirstManyIsDecoded(p, pending, |all|);
          }
          forall rs: seq<Reply>, n: nat |
            AllSendable(rs) && n <= |EncodeAll(rs)| && Whole(rs, n) < |all| && pending == EncodeAll(rs)[..n]
            ensures FirstMany(p, pending, |all|).outcome == Incompleted
            ensures FirstMany(p, pending, |all|).errors == 0
          {
            FirstManyShort(p, rs, n, |all|);
          }
        }
        r, ec := client.DoSyncPipeline(all, ec0);
      } else {
        client.ErrorHandler(InvalidState);
        r, ec := Nil, ec0;
      }
    }
  }
}

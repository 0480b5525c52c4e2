/** The asynchronous client as a state machine: what each user call and each callback of the
    I/O service does to the client. Callbacks are atomic; the strand is a FIFO of tasks. */
module AsyncModel {
  import opened Resp
  import opened ParserModel
  import opened Streams
  import opened Commands
  import opened Sockets

  /** A std::function stored by the client, identified by a number. */
  type Callback = nat

  datatype ConnState = Unconnected | Connecting | Connected | Subscribed | Closed

  /** What a request asks for; recorded for the specification, no operation looks at it. */
  datatype Kind = Ordinary | Subscribing | Unsubscribing

  datatype Request = Request(buff: string, handler: Callback, kind: Kind)

  datatype Task = Send(request: Request) | Notify(msgHandler: Callback, payload: string)

  /** The calls of the public interface; `pattern` selects psubscribe and punsubscribe. */
  datatype Call =
    | Execute(cmd: string, args: Command, handler: Callback)
    | Subscribe(pattern: bool, channel: string, msgHandler: Callback, handler: Callback)
    | SingleShot(pattern: bool, channel: string, msgHandler: Callback, handler: Callback)
    | Unsubscribe(pattern: bool, id: nat, channel: string, handler: Callback)

  /** What the user's connect handler calls when it is invoked with an error code. */
  type OnConnect = ErrorCode -> seq<Call>

  /** What a reply handler calls when it is invoked with a value. */
  type React = (Callback, RedisValue) -> seq<Call>

  /** What reaches `errorHandler`. */
  datatype Diagnostic =
    | InvalidState
    | UnexpectedMessage(v: RedisValue)
    | ProtocolError
    | InvalidCommand(cmd: string)
    | ParserError
    | IoError(ec: ErrorCode)

  /** The socket as the client uses it: every buffer handed to `async_write`, how many writes
      have not completed, and how many reads are waiting. */
  datatype Net = Net(wire: seq<string>, inFlight: nat, pendingReads: nat)

  /** What a call did to the stored message handlers; `pattern` tells psubscribe from subscribe. */
  datatype Change =
    | Added(pattern: bool, channel: string, id: nat, msgHandler: Callback)
    | Armed(pattern: bool, channel: string, msgHandler: Callback)
    | Removed(channel: string, id: nat)

  /** One pushed message, posted after the first `at` changes: whether it was a `pmessage`, the
      key it looked up, its payload, and the single-shot and ordinary handlers posted with it. */
  datatype Posting = Posting(
    at: nat,
    pattern: bool,
    key: string,
    payload: string,
    shots: seq<Callback>,
    entries: seq<(nat, Callback)>)

  /** What happened so far, in order. `answeredBefore` is the number of reply handlers that had
      been called when subscribed mode was entered; `ids` are the handles given out;
      `notified` are the message handlers that the strand has run. */
  datatype Log = Log(
    issued: seq<Request>,
    called: seq<(Callback, RedisValue)>,
    notified: seq<(Callback, string)>,
    errors: seq<Diagnostic>,
    ids: seq<nat>,
    history: seq<Change>,
    postings: seq<Posting>,
    answeredBefore: nat,
    writeFailed: bool,
    readStopped: bool)

  /** A std::multimap: under each key the entries in insertion order. */
  type Multimap<T> = map<string, seq<T>>

  function Under<T>(m: Multimap<T>, key: string): seq<T> {
    if key in m then m[key] else []
  }

  function Insert<T>(m: Multimap<T>, key: string, entry: T): Multimap<T> {
    m[key := Under(m, key) + [entry]]
  }

  datatype Client = Client(
    state: ConnState,
    parser: Parser,
    handlers: seq<Callback>,
    dataWrited: seq<string>,
    dataQueued: seq<string>,
    msgHandlers: Multimap<(nat, Callback)>,
    singleShotMsgHandlers: Multimap<Callback>,
    subscribeSeq: nat,
    strand: seq<Task>,
    net: Net,
    log: Log)
  {
    function Report(e: Diagnostic): Client {
      this.(log := log.(errors := log.errors + [e]))
    }

    predicate Ready() {
      state in {Connected, Subscribed}
    }

    /** Some ordinary command had not been answered when the first subscription was made. */
    ghost predicate Raced() {
      state == Subscribed
      && exists k :: log.answeredBefore <= k < |log.issued| && log.issued[k].kind == Ordinary
    }
  }

  // ---- User calls ----

  /** `makeCommand` and `post` of `doAsyncCommand`. */
  function Post(c: Client, items: Command, handler: Callback, kind: Kind): Client {
    var request := Request(Wire(items), handler, kind);
    c.(strand := c.strand + [Send(request)], log := c.log.(issued := c.log.issued + [request]))
  }

  function SubscribeWord(pattern: bool): string {
    if pattern then "psubscribe" else "subscribe"
  }

  function UnsubscribeWord(pattern: bool): string {
    if pattern then "punsubscribe" else "unsubscribe"
  }

  /** `state = Subscribed`. */
  function EnterSubscribed(c: Client): Client {
    var answered := if c.state == Connected then |c.log.called| else c.log.answeredBefore;
    c.(state := Subscribed, log := c.log.(answeredBefore := answered))
  }

  /** The entries without the one that has this id; order kept. */
  function Without<T(!new)>(entries: seq<(nat, T)>, id: nat): (r: seq<(nat, T)>)
    ensures forall e :: e in r <==> e in entries && e.0 != id
  {
    if entries == [] then []
    else if entries[0].0 == id then Without(entries[1..], id)
    else [entries[0]] + Without(entries[1..], id)
  }

  ghost function Perform(c: Client, call: Call): (r: Client)
    ensures r.handlers == c.handlers && r.parser == c.parser && r.net == c.net
  {
    match call
    case Execute(cmd, args, handler) =>
      if c.state == Connected then Post(c, [cmd] + args, handler, Ordinary) else c.Report(InvalidState)
    case Subscribe(pattern, channel, msgHandler, handler) =>
      if !c.Ready() then c.Report(InvalidState) else
      var c1 := Post(EnterSubscribed(c), [SubscribeWord(pattern), channel], handler, Subscribing);
      c1.(msgHandlers := Insert(c.msgHandlers, channel, (c.subscribeSeq, msgHandler)),
          subscribeSeq := c.subscribeSeq + 1,
          log := c1.log.(ids := c1.log.ids + [c.subscribeSeq],
                         history := c1.log.history + [Added(pattern, channel, c.subscribeSeq, msgHandler)]))
    case SingleShot(pattern, channel, msgHandler, handler) =>
      if !c.Ready() then c.Report(InvalidState) else
      var c1 := Post(EnterSubscribed(c), [SubscribeWord(pattern), channel], handler, Subscribing);
      c1.(singleShotMsgHandlers := Insert(c.singleShotMsgHandlers, channel, msgHandler),
          log := c1.log.(history := c1.log.history + [Armed(pattern, channel, msgHandler)]))
    case Unsubscribe(pattern, id, channel, handler) =>
      if !c.Ready() then c.Report(InvalidState) else
      var c1 := Post(c, [UnsubscribeWord(pattern), channel], handler, Unsubscribing);
      var kept := if channel in c.msgHandlers then c.msgHandlers[channel := Without(c.msgHandlers[channel], id)]
                  else c.msgHandlers;
      c1.(msgHandlers := kept, log := c1.log.(history := c1.log.history + [Removed(channel, id)]))
  }

  /** What a subscription returns as its handle. */
  function HandleOf(c: Client): nat {
    if c.Ready() then c.subscribeSeq else 0
  }

  ghost function PerformAll(c: Client, calls: seq<Call>): (r: Client)
    ensures r.handlers == c.handlers && r.parser == c.parser && r.net == c.net
    decreases |calls|
  {
    if calls == [] then c else PerformAll(Perform(c, calls[0]), calls[1..])
  }

  // ---- Writing ----

  /** `asyncWrite`: also called directly, with no error, when nothing is being written. */
  function AsyncWrite(c: Client, ec: ErrorCode): Client {
    var c1 := c.(dataWrited := []);
    if ec != NoError then
      c1.(log := c.log.(writeFailed := true)).Report(IoError(ec))
    else if c.dataQueued != [] then
      c1.(dataWrited := c.dataQueued, dataQueued := [],
          net := c.net.(wire := c.net.wire + c.dataQueued, inFlight := c.net.inFlight + 1))
    else c1
  }

  function DoAsyncCommand(c: Client, request: Request): Client {
    var c1 := c.(handlers := c.handlers + [request.handler], dataQueued := c.dataQueued + [request.buff]);
    if c1.dataWrited == [] then AsyncWrite(c1, NoError) else c1
  }

  // ---- Messages ----

  const MESSAGE := "message"
  const PMESSAGE := "pmessage"

  predicate IsAckWord(word: string) {
    word == "subscribe" || word == "unsubscribe" || word == "psubscribe" || word == "punsubscribe"
  }

  predicate IsPushWord(word: string) {
    word == MESSAGE || word == PMESSAGE
  }

  /** A pushed message, and the acknowledgement of a subscription or unsubscription. */
  predicate IsPush(v: RedisValue) {
    |v.ToArray()| >= 3 && IsPushWord(v.ToArray()[0].ToByteArray())
  }

  predicate IsAck(v: RedisValue) {
    |v.ToArray()| >= 3 && IsAckWord(v.ToArray()[0].ToByteArray())
  }

  /** The key under which a pushed message looks up its handlers, and its payload. */
  function PushKey(result: seq<RedisValue>): string
    requires |result| >= 3
  {
    (if |result| == 3 || |result| == 4 then result[1] else result[2]).ToByteArray()
  }

  function PushPayload(result: seq<RedisValue>): string
    requires |result| >= 3
  {
    result[if |result| == 3 then 2 else 3].ToByteArray()
  }

  function Notices(entries: seq<(nat, Callback)>, payload: string): (r: seq<Task>)
    ensures |r| == |entries|
    ensures forall i :: 0 <= i < |r| ==> r[i] == Notify(entries[i].1, payload)
  {
    seq(|entries|, i requires 0 <= i < |entries| => Notify(entries[i].1, payload))
  }

  /** The first entry, if there is one. */
  function Oldest<T>(entries: seq<T>): seq<T> {
    if entries == [] then [] else [entries[0]]
  }

  /** Posts one single-shot handler of the key, if any is left, and then every ordinary one. */
  function Dispatch(c: Client, pattern: bool, key: string, payload: string): Client {
    var shots, entries := Under(c.singleShotMsgHandlers, key), Under(c.msgHandlers, key);
    var c1 :=
      if shots == [] then c
      else c.(strand := c.strand + [Notify(shots[0], payload)],
              singleShotMsgHandlers := c.singleShotMsgHandlers[key := shots[1..]]);
    var posting := Posting(|c.log.history|, pattern, key, payload, Oldest(shots), entries);
    c1.(strand := c1.strand + Notices(entries, payload), log := c.log.(postings := c.log.postings + [posting]))
  }

  /** The oldest waiting handler is called with the value, calls back into the client as it
      likes, and is then removed. */
  ghost function Answer(react: React, c: Client, v: RedisValue): (r: Client)
    requires c.handlers != []
    ensures r.handlers == c.handlers[1..] && r.parser == c.parser && r.net == c.net
  {
    var h := c.handlers[0];
    var c1 := PerformAll(c.(log := c.log.(called := c.log.called + [(h, v)])), react(h, v));
    c1.(handlers := c1.handlers[1..])
  }

  ghost function Process(react: React, c: Client, v: RedisValue): (r: Client)
    ensures r.parser == c.parser && r.net == c.net
  {
    if c.state == Subscribed then
      var result := v.ToArray();
      if |result| < 3 then c.Report(ProtocolError) else
      var cmd := result[0].ToByteArray();
      if IsPushWord(cmd) then Dispatch(c, cmd == PMESSAGE, PushKey(result), PushPayload(result))
      else if c.handlers != [] && IsAckWord(cmd) then Answer(react, c, v)
      else c.Report(InvalidCommand(cmd))
    else if c.handlers != [] then Answer(react, c, v)
    else c.Report(UnexpectedMessage(v))
  }

  ghost function ProcessAll(react: React, c: Client, vs: seq<RedisValue>): (r: Client)
    ensures r.parser == c.parser && r.net == c.net
    decreases |vs|
  {
    if vs == [] then c else ProcessAll(react, Process(react, c, vs[0]), vs[1..])
  }

  /** The read loop is left: the next read is started unless the parser failed. */
  function EndRead(c: Client, outcome: Outcome): (r: Client)
    ensures r.parser == c.parser
  {
    if outcome == Error then c.(log := c.log.(readStopped := true)).Report(ParserError)
    else if outcome == Undefined then c.(log := c.log.(readStopped := true))
    else c.(net := c.net.(pendingReads := c.net.pendingReads + 1))
  }

  /** `asyncRead` with a piece of the stream: every value completed in it is processed. */
  ghost function AsyncRead(react: React, c: Client, chunk: string): (r: Client)
    requires c.parser.Valid()
    ensures r.parser.Valid()
  {
    var r := Drain(c.parser, chunk);
    EndRead(ProcessAll(react, c.(parser := r.p), r.values), r.outcome)
  }

  ghost function ReadFailed(c: Client, ec: ErrorCode): Client {
    var c1 := c.(log := c.log.(readStopped := true));
    if ec != Aborted then c1.Report(IoError(ec)) else c1
  }

  // ---- Runs ----

  datatype Event =
    | User(call: Call)
    | RunTask
    | WriteDone(ec: ErrorCode)
    | Readable(chunk: string)
    | ReadError(ec: ErrorCode)

  function RunFront(c: Client): Client
    requires c.strand != []
  {
    var c1 := c.(strand := c.strand[1..]);
    match c.strand[0]
    case Send(request) => DoAsyncCommand(c1, request)
    case Notify(h, payload) => c1.(log := c.log.(notified := c.log.notified + [(h, payload)]))
  }

  /** One event; an event that cannot happen in this state changes nothing. */
  ghost function Occur(react: React, c: Client, e: Event): (r: Client)
    requires c.parser.Valid()
    ensures r.parser.Valid()
  {
    match e
    case User(call) => Perform(c, call)
    case RunTask => if c.strand == [] then c else RunFront(c)
    case WriteDone(ec) =>
      if c.net.inFlight == 0 then c else AsyncWrite(c.(net := c.net.(inFlight := c.net.inFlight - 1)), ec)
    case Readable(chunk) =>
      if c.net.pendingReads == 0 || chunk == "" then c
      else AsyncRead(react, c.(net := c.net.(pendingReads := c.net.pendingReads - 1)), chunk)
    case ReadError(ec) =>
      if c.net.pendingReads == 0 then c
      else ReadFailed(c.(net := c.net.(pendingReads := c.net.pendingReads - 1)), ec)
  }

  /** The client after a list of events. */
  ghost function Exec(react: React, c: Client, es: seq<Event>): (r: Client)
    requires c.parser.Valid()
    ensures r.parser.Valid()
    decreases |es|
  {
    if es == [] then c else
    var last := |es| - 1;
    var before := Exec(react, c, es[..last]);
    Occur(react, before, es[last])
  }

  /** The client when the connection has been established and the first read started. */
  ghost predicate JustConnected(c: Client) {
    && c.state == Connected && c.parser.Idle() && c.handlers == [] && c.strand == []
    && c.dataWrited == [] && c.dataQueued == []
    && c.msgHandlers == map[] && c.singleShotMsgHandlers == map[] && c.subscribeSeq == 0
    && c.net == Net([], 0, 1)
    && c.log == Log([], [], [], [], [], [], [], 0, false, false)
  }

  /** Calls as events. */
  function Users(calls: seq<Call>): (es: seq<Event>)
    ensures |es| == |calls|
  {
    seq(|calls|, i requires 0 <= i < |calls| => User(calls[i]))
  }

  // ---- How processing composes ----

  lemma {:induction false} ProcessAllAppend(react: React, c: Client, a: seq<RedisValue>, v: RedisValue)
    ensures ProcessAll(react, c, a + [v]) == Process(react, ProcessAll(react, c, a), v)
    decreases |a|
  {
    hide Process;
    if a == [] {
      assert (a + [v])[1..] == [];
      assert ProcessAll(react, Process(react, c, v), []) == Process(react, c, v);
    } else {
      assert (a + [v])[1..] == a[1..] + [v];
      ProcessAllAppend(react, Process(react, c, a[0]), a[1..], v);
    }
  }

  /** Processing does not look at the parser. */
  lemma ProcessIgnoresParser(react: React, c: Client, q: Parser, v: RedisValue)
    ensures Process(react, c.(parser := q), v) == Process(react, c, v).(parser := q)
  {
    hide PerformAll;
    if c.handlers != [] {
      var h := c.handlers[0];
      PerformAllIgnoresParser(c.(log := c.log.(called := c.log.called + [(h, v)])), q, react(h, v));
    }
  }

  lemma {:induction false} PerformAllIgnoresParser(c: Client, q: Parser, calls: seq<Call>)
    ensures PerformAll(c.(parser := q), calls) == PerformAll(c, calls).(parser := q)
    decreases |calls|
  {
    hide Perform;
    if calls != [] {
      PerformIgnoresParser(c, q, calls[0]);
      PerformAllIgnoresParser(Perform(c, calls[0]), q, calls[1..]);
    }
  }

  lemma PerformIgnoresParser(c: Client, q: Parser, call: Call)
    ensures Perform(c.(parser := q), call) == Perform(c, call).(parser := q)
  {
    hide Wire;
  }

  lemma {:induction false} ProcessAllIgnoresParser(react: React, c: Client, q: Parser, vs: seq<RedisValue>)
    ensures ProcessAll(react, c.(parser := q), vs) == ProcessAll(react, c, vs).(parser := q)
    decreases |vs|
  {
    hide Process;
    if vs != [] {
      ProcessIgnoresParser(react, c, q, vs[0]);
      ProcessAllIgnoresParser(react, Process(react, c, vs[0]), q, vs[1..]);
    }
  }
}

/** Concrete families of runs: the hypotheses of the main results are met by real runs, and
    what is said to go wrong does go wrong in a run. */
module AsyncExamples {
  import opened Resp
  import opened Streams
  import opened Sockets
  import opened AsyncModel
  import opened AsyncMessages
  import opened AsyncInvariants
  import opened AsyncMatching
  import opened AsyncResults

  lemma NoEvents(react: React, c: Client, out: seq<Sent>)
    requires c.parser.Valid()
    ensures Exec(react, c, []) == c && Orderly(react, c, [], out) && Input([]) == ""
  {
  }

  lemma OneMoreEvent(react: React, c: Client, es: seq<Event>, e: Event, out: seq<Sent>)
    requires c.parser.Valid()
    ensures Exec(react, c, es + [e]) == Occur(react, Exec(react, c, es), e)
    ensures Input(es + [e]) == Input(es) + (if e.Readable? then e.chunk else "")
    ensures Orderly(react, c, es + [e], out) <==>
              && Orderly(react, c, es, out) && !e.ReadError? && (e.WriteDone? ==> e.ec == NoError)
              && (e.Readable? ==>
                    && e.chunk != "" && Input(es + [e]) <= EncodeAll(Replies(out))
                    && Causal(Exec(react, c, es), out, |Input(es + [e])|))
  {
    hide Occur, EncodeAll, Causal;
    assert (es + [e])[..|es|] == es;
  }

  /** At the end of an orderly run without input, everything the server sends arrives at once. */
  lemma LastRead(react: React, c0: Client, es: seq<Event>, out: seq<Sent>)
    requires JustConnected(c0) && AllSendable(Replies(out)) && out != []
    requires Orderly(react, c0, es, out) && Input(es) == ""
    requires var c := Exec(react, c0, es);
             |Answers(out, |out|)| <= |c.net.wire| && c.net.pendingReads == 1 && c.parser == c0.parser
    ensures var s := EncodeAll(Replies(out));
            var c := Exec(react, c0, es);
            && Orderly(react, c0, es + [Readable(s)], out) && Input(es + [Readable(s)]) == s
            && Whole(Replies(out), |s|) == |out|
            && var q := c.(net := c.net.(pendingReads := 0), parser := Drain(c.parser, s).p);
               var r := Exec(react, c0, es + [Readable(s)]);
               r.log == ProcessAll(react, q, Meanings(Replies(out))).log
               && r.strand == ProcessAll(react, q, Meanings(Replies(out))).strand
               && r.state == ProcessAll(react, q, Meanings(Replies(out))).state
  {
    hide Exec, Orderly, Drain, Encode, EncodeAll, Whole, ProcessAll, Input, AllSendable, Meanings;
    var s, c, rs := EncodeAll(Replies(out)), Exec(react, c0, es), Replies(out);
    assert "" + s == s && s[..|s|] == s && out[..|out|] == out;
    assert Causal(c, out, |s|);
    OneMoreEvent(react, c0, es, Readable(s), out);
    DrainReplies(c0.parser, rs, |s|);
    WholeOfAll(rs);
    assert rs[..|rs|] == rs;
  }

  // ---- One command and its reply ----

  /** A command is issued, the strand starts its write, and its reply arrives even before the
      write has completed. */
  lemma CommandAndReply(react: React, c0: Client, cmd: string, args: Commands.Command, h: Callback, r: Reply)
    requires JustConnected(c0) && Sendable(r) && react(h, Meaning(r)) == []
    ensures var es := [User(Execute(cmd, args, h)), RunTask, Readable(EncodeAll([r]))];
            var out := [Answering(r)];
            var c := Exec(react, c0, es);
            && Orderly(react, c0, es, out) && Served(out, c.log.issued) && !c.Raced()
            && Input(es) == EncodeAll(Replies(out)) && c.log.called == [(h, Meaning(r))]
  {
    hide Occur, Exec, Orderly, Encode, EncodeAll, Input, Meaning, Drain, ProcessAll;
    var out, call := [Answering(r)], User(Execute(cmd, args, h));
    NoEvents(react, c0, out);
    OneMoreEvent(react, c0, [], call, out);
    OneMoreEvent(react, c0, [] + [call], RunTask, out);
    var es := [] + [call] + [RunTask];
    CommandIsHandedOver(react, c0, cmd, args, h);
    assert Replies(out) == [r] && |Answers(out, 1)| == 1;
    LastRead(react, c0, es, out);
    assert Meanings([r]) == [Meaning(r)];
    var c := Exec(react, c0, es);
    var q := c.(net := c.net.(pendingReads := 0), parser := Drain(c.parser, EncodeAll([r])).p);
    OneValue(react, q, Meaning(r));
    OnlyAnswer(react, q, Meaning(r));
    assert [call, RunTask, Readable(EncodeAll([r]))] == es + [Readable(EncodeAll([r]))];
  }

  lemma CommandIsHandedOver(react: React, c0: Client, cmd: string, args: Commands.Command, h: Callback)
    requires JustConnected(c0)
    ensures var c := Occur(react, Occur(react, c0, User(Execute(cmd, args, h))), RunTask);
            var request := Request(Commands.Wire([cmd] + args), h, Ordinary);
            && c.state == Connected && c.handlers == [h] && c.net == Net([request.buff], 1, 1)
            && c.parser == c0.parser && c.log.issued == [request] && c.log.called == []
  {
    hide Commands.Wire;
  }

  lemma OneValue(react: React, c: Client, v: RedisValue)
    ensures ProcessAll(react, c, [v]) == Process(react, c, v)
  {
    hide Process;
    assert [v][1..] == [];
    assert ProcessAll(react, Process(react, c, v), []) == Process(react, c, v);
  }

  /** A handler that calls nothing. */
  lemma OnlyAnswer(react: React, c: Client, v: RedisValue)
    requires c.handlers != [] && react(c.handlers[0], v) == [] && (c.state == Subscribed ==> IsAck(v))
    ensures Process(react, c, v) == Taking(c, v)
  {
    AnswerIsTaking(react, c, v);
  }

  // ---- Two requests in a row ----

  /** The client behind two calls, once the strand has run both and the first write is done. */
  ghost function HandedOver(c: Client, q1: Request, q2: Request): Client {
    c.(strand := [], handlers := [q1.handler, q2.handler], dataWrited := [q2.buff],
       net := Net([q1.buff, q2.buff], 1, 1))
  }

  lemma TwoTasks(react: React, c: Client, q1: Request, q2: Request)
    requires c.parser.Valid() && c.strand == [Send(q1), Send(q2)] && c.handlers == []
    requires c.dataWrited == [] && c.dataQueued == [] && c.net == Net([], 0, 1)
    ensures Occur(react, Occur(react, Occur(react, c, RunTask), RunTask), WriteDone(NoError)) == HandedOver(c, q1, q2)
  {
    var c1 := c.(strand := [Send(q2)], handlers := [q1.handler], dataWrited := [q1.buff], net := Net([q1.buff], 1, 1));
    FirstTask(react, c, q1, q2);
    var c2 := c1.(strand := [], handlers := [q1.handler, q2.handler], dataQueued := [q2.buff]);
    SecondTask(react, c1, q2);
    assert [q1.buff] + [q2.buff] == [q1.buff, q2.buff];
  }

  lemma FirstTask(react: React, c: Client, q1: Request, q2: Request)
    requires c.parser.Valid() && c.strand == [Send(q1), Send(q2)] && c.handlers == []
    requires c.dataWrited == [] && c.dataQueued == [] && c.net == Net([], 0, 1)
    ensures Occur(react, c, RunTask)
            == c.(strand := [Send(q2)], handlers := [q1.handler], dataWrited := [q1.buff], net := Net([q1.buff], 1, 1))
  {
    assert c.strand[1..] == [Send(q2)];
    assert [] + [q1.buff] == [q1.buff] && [] + [q1.handler] == [q1.handler];
  }

  lemma SecondTask(react: React, c: Client, q: Request)
    requires c.parser.Valid() && c.strand == [Send(q)] && |c.handlers| == 1
    requires |c.dataWrited| == 1 && c.dataQueued == []
    ensures Occur(react, c, RunTask)
            == c.(strand := [], handlers := [c.handlers[0], q.handler], dataQueued := [q.buff])
  {
    assert c.strand[1..] == [];
    assert c.handlers + [q.handler] == [c.handlers[0], q.handler] && [] + [q.buff] == [q.buff];
  }

  /** The request a call issues. */
  function RequestOf(call: Call): Request {
    var kind := match call
      case Execute(_, _, _) => Ordinary
      case Subscribe(_, _, _, _) => Subscribing
      case SingleShot(_, _, _, _) => Subscribing
      case Unsubscribe(_, _, _, _) => Unsubscribing;
    Request(Commands.Wire(Words(call)), call.handler, kind)
  }

  lemma CallIssues(c: Client, call: Call)
    requires c.state == Connected || (c.state == Subscribed && !call.Execute?)
    ensures var r := Perform(c, call);
            && r.strand == c.strand + [Send(RequestOf(call))] && r.log.issued == c.log.issued + [RequestOf(call)]
            && r.handlers == c.handlers && r.dataWrited == c.dataWrited && r.dataQueued == c.dataQueued
            && r.net == c.net && r.parser == c.parser
            && r.log.called == c.log.called && r.log.postings == c.log.postings
            && (c.log.called == [] && c.log.answeredBefore == 0 ==> r.log.answeredBefore == 0)
            && r.state == (if call.Subscribe? || call.SingleShot? then Subscribed else c.state)
  {
    hide Commands.Wire;
  }

  /** Two calls, the strand and a completed write: both requests are with the server. */
  lemma TwoRequests(react: React, c0: Client, call1: Call, call2: Call, out: seq<Sent>)
    requires JustConnected(c0) && !call1.Unsubscribe? && call2.Subscribe?
    ensures var es := [User(call1), User(call2), RunTask, RunTask, WriteDone(NoError)];
            var c := Perform(Perform(c0, call1), call2);
            && Orderly(react, c0, es, out) && Input(es) == ""
            && Exec(react, c0, es) == HandedOver(c, RequestOf(call1), RequestOf(call2))
            && c.log.issued == [RequestOf(call1), RequestOf(call2)] && c.log.called == []
            && c.log.postings == [] && c.log.answeredBefore == 0
            && c.state == Subscribed && c.parser == c0.parser
  {
    hide Perform, Occur, Exec, Orderly, Input, Commands.Wire, RequestOf;
    var c1 := Perform(c0, call1);
    CallIssues(c0, call1);
    CallIssues(c1, call2);
    var q1, q2 := RequestOf(call1), RequestOf(call2);
    var c := Perform(c1, call2);
    assert c.strand == [Send(q1), Send(q2)];
    TwoTasks(react, c, q1, q2);
    UserCalls(react, c0, call1);
    UserCalls(react, c1, call2);
    FiveEvents(react, c0, User(call1), User(call2), out);
  }

  lemma UserCalls(react: React, c: Client, call: Call)
    requires c.parser.Valid()
    ensures Occur(react, c, User(call)) == Perform(c, call)
  {
    hide Perform;
  }

  lemma FiveEvents(react: React, c0: Client, e1: Event, e2: Event, out: seq<Sent>)
    requires c0.parser.Valid() && e1.User? && e2.User?
    ensures var es := [e1, e2, RunTask, RunTask, WriteDone(NoError)];
            var c := Occur(react, Occur(react, c0, e1), e2);
            && Orderly(react, c0, es, out) && Input(es) == ""
            && Exec(react, c0, es) == Occur(react, Occur(react, Occur(react, c, RunTask), RunTask), WriteDone(NoError))
  {
    hide Occur, Exec, Orderly, Input;
    NoEvents(react, c0, out);
    OneMoreEvent(react, c0, [], e1, out);
    OneMoreEvent(react, c0, [e1], e2, out);
    OneMoreEvent(react, c0, [e1, e2], RunTask, out);
    OneMoreEvent(react, c0, [e1, e2, RunTask], RunTask, out);
    OneMoreEvent(react, c0, [e1, e2, RunTask, RunTask], WriteDone(NoError), out);
    assert [] + [e1] == [e1] && [e1] + [e2] == [e1, e2] && [e1, e2] + [RunTask] == [e1, e2, RunTask];
    assert [e1, e2, RunTask] + [RunTask] == [e1, e2, RunTask, RunTask];
    assert [e1, e2, RunTask, RunTask] + [WriteDone(NoError)] == [e1, e2, RunTask, RunTask, WriteDone(NoError)];
  }

  /** Two calls, and then everything the server sends arrives at once. */
  function Script(call1: Call, call2: Call, out: seq<Sent>): seq<Event> {
    [User(call1), User(call2), RunTask, RunTask, WriteDone(NoError), Readable(EncodeAll(Replies(out)))]
  }

  /** The client `q` that processes it. */
  lemma ScriptRuns(react: React, c0: Client, call1: Call, call2: Call, out: seq<Sent>) returns (q: Client)
    requires JustConnected(c0) && !call1.Unsubscribe? && call2.Subscribe?
    requires AllSendable(Replies(out)) && out != [] && |Answers(out, |out|)| <= 2
    ensures var es, s := Script(call1, call2, out), EncodeAll(Replies(out));
            && Orderly(react, c0, es, out) && Input(es) == s && Whole(Replies(out), |s|) == |out|
            && Exec(react, c0, es).log == ProcessAll(react, q, Meanings(Replies(out))).log
            && Exec(react, c0, es).strand == ProcessAll(react, q, Meanings(Replies(out))).strand
            && Exec(react, c0, es).state == ProcessAll(react, q, Meanings(Replies(out))).state
    ensures var c := Perform(Perform(c0, call1), call2);
            && q.state == Subscribed && q.handlers == [call1.handler, call2.handler] && q.strand == []
            && q.msgHandlers == c.msgHandlers && q.singleShotMsgHandlers == c.singleShotMsgHandlers && q.log == c.log
            && q.log.called == [] && q.log.postings == [] && q.log.answeredBefore == 0
            && q.log.issued == [RequestOf(call1), RequestOf(call2)]
  {
    hide Exec, Orderly, Encode, EncodeAll, Input, Drain, ProcessAll, Perform, AllSendable, Answers, RequestOf, Whole;
    var es := [User(call1), User(call2), RunTask, RunTask, WriteDone(NoError)];
    TwoRequests(react, c0, call1, call2, out);
    RequestHandlers(call1);
    RequestHandlers(call2);
    LastRead(react, c0, es, out);
    var c, s := Exec(react, c0, es), EncodeAll(Replies(out));
    q := c.(net := c.net.(pendingReads := 0), parser := Drain(c.parser, s).p);
    assert es + [Readable(s)] == Script(call1, call2, out);
  }

  lemma RequestHandlers(call: Call)
    ensures RequestOf(call).handler == call.handler
  {
    hide Commands.Wire;
  }

  /** Two answers, and behind them only messages. */
  lemma TwoAnswers(r1: Reply, r2: Reply, more: seq<Sent>)
    requires forall i :: 0 <= i < |more| ==> more[i].Pushing?
    ensures var out := [Answering(r1), Answering(r2)] + more;
            && |Answers(out, 0)| == 0 && |Answers(out, 1)| == 1
            && forall n :: 2 <= n <= |out| ==> |Answers(out, n)| == 2
  {
    hide Meaning;
    var out := [Answering(r1), Answering(r2)] + more;
    for n := 2 to |out|
      invariant forall j :: 2 <= j <= n ==> |Answers(out, j)| == 2
    {
      assert out[n] == more[n - 2];
    }
  }

  /** The second request is a subscription: behind its answer messages may follow. */
  lemma TwoServed(r1: Reply, r2: Reply, more: seq<Sent>, all: seq<Request>)
    requires |all| == 2 && all[1].kind == Subscribing
    requires forall i :: 0 <= i < |more| ==> more[i].Pushing? && IsPush(Meaning(more[i].r))
    ensures Served([Answering(r1), Answering(r2)] + more, all)
  {
    hide Meaning, IsPush, Answers;
    var out := [Answering(r1), Answering(r2)] + more;
    TwoAnswers(r1, r2, more);
    forall i | 2 <= i < |out|
      ensures out[i].Pushing? && IsPush(Meaning(out[i].r)) && |Answers(out, i)| == 2
    {
      assert out[i] == more[i - 2];
    }
  }

  lemma TwoValues(react: React, c: Client, v1: RedisValue, v2: RedisValue, vs: seq<RedisValue>)
    ensures ProcessAll(react, c, [v1, v2] + vs)
            == ProcessAll(react, Process(react, Process(react, c, v1), v2), vs)
  {
    hide Process;
    assert ([v1, v2] + vs)[1..] == [v2] + vs && ([v2] + vs)[1..] == vs;
    assert ProcessAll(react, Process(react, c, v1), [v2] + vs)
           == ProcessAll(react, Process(react, Process(react, c, v1), v2), vs);
  }

  // ---- Lost answers ----

  /** A command and right behind it a first subscription: the server answers both, everything is
      read, and the only handler called is that of the command, with the acknowledgement of
      the subscription. */
  lemma SubscribingTooEarly(react: React, c0: Client, command: Call, subscription: Call, r: Reply, ack: Reply)
    requires JustConnected(c0) && command.Execute? && subscription.Subscribe?
    requires Sendable(r) && Sendable(ack) && !IsAck(Meaning(r)) && IsAck(Meaning(ack))
    requires react(command.handler, Meaning(ack)) == []
    ensures var out := [Answering(r), Answering(ack)];
            var es := Script(command, subscription, out);
            var c := Exec(react, c0, es);
            && Orderly(react, c0, es, out) && Served(out, c.log.issued)
            && Input(es) == EncodeAll(Replies(out)) && |Answers(out, |out|)| == |c.log.issued|
            && c.Raced() && c.log.called == [(command.handler, Meaning(ack))]
  {
    hide Exec, Meaning, IsAck, Served, Orderly, Input, EncodeAll, Answers;
    FirstAnswerIsLost(react, c0, command, subscription, r, ack);
    var c := Exec(react, c0, Script(command, subscription, [Answering(r), Answering(ack)]));
    assert c.log.issued[0].kind == Ordinary;
  }

  /** Two subscriptions of which the server refuses the first and acknowledges the second: no
      command was overtaken, and yet the handler of the first is called with the acknowledgement
      of the second, which has no answer left. */
  lemma RefusedSubscription(react: React, c0: Client, first: Call, second: Call, refusal: Reply, ack: Reply)
    requires JustConnected(c0) && first.Subscribe? && second.Subscribe?
    requires Sendable(refusal) && refusal.Failure? && Sendable(ack) && IsAck(Meaning(ack))
    requires react(first.handler, Meaning(ack)) == []
    ensures var out := [Answering(refusal), Answering(ack)];
            var es := Script(first, second, out);
            var c := Exec(react, c0, es);
            && Orderly(react, c0, es, out) && Served(out, c.log.issued)
            && Input(es) == EncodeAll(Replies(out)) && |Answers(out, |out|)| == |c.log.issued|
            && !c.Raced() && c.log.called == [(first.handler, Meaning(ack))]
  {
    hide Exec, Meaning, IsAck, Served, Orderly, Input, EncodeAll, Answers;
    FailureIsNoAck(refusal);
    FirstAnswerIsLost(react, c0, first, second, refusal, ack);
  }

  lemma FailureIsNoAck(r: Reply)
    requires r.Failure?
    ensures !IsAck(Meaning(r))
  {
  }

  lemma FirstAnswerIsLost(react: React, c0: Client, call1: Call, call2: Call, r: Reply, ack: Reply)
    requires JustConnected(c0) && !call1.Unsubscribe? && call2.Subscribe?
    requires Sendable(r) && Sendable(ack) && !IsAck(Meaning(r)) && IsAck(Meaning(ack))
    requires react(call1.handler, Meaning(ack)) == []
    ensures var out := [Answering(r), Answering(ack)];
            var es := Script(call1, call2, out);
            var c := Exec(react, c0, es);
            && Orderly(react, c0, es, out) && Served(out, c.log.issued)
            && Input(es) == EncodeAll(Replies(out)) && |Answers(out, |out|)| == 2
            && c.state == Subscribed && c.log.answeredBefore == 0
            && c.log.issued == [RequestOf(call1), RequestOf(call2)]
            && c.log.called == [(call1.handler, Meaning(ack))]
  {
    hide Exec, Orderly, EncodeAll, Input, Meaning, ProcessAll, Perform, Process, IsAck, Served, Answers, RequestOf;
    var out := [Answering(r), Answering(ack)];
    assert Replies(out) == [r, ack] && out + [] == out;
    TwoAnswers(r, ack, []);
    var q := ScriptRuns(react, c0, call1, call2, out);
    RequestKind(call2);
    TwoServed(r, ack, [], q.log.issued);
    SecondAnswerOnly(react, q, Meaning(r), Meaning(ack));
    assert Meanings([r, ack]) == [Meaning(r), Meaning(ack)];
  }

  lemma RequestKind(call: Call)
    ensures call.Subscribe? ==> RequestOf(call).kind == Subscribing
  {
    hide Commands.Wire;
  }

  lemma SecondAnswerOnly(react: React, c: Client, v: RedisValue, ack: RedisValue)
    requires c.state == Subscribed && |c.handlers| == 2 && c.log.called == []
    requires !IsAck(v) && IsAck(ack) && react(c.handlers[0], ack) == []
    ensures var r := ProcessAll(react, c, [v, ack]);
            && r.log.called == [(c.handlers[0], ack)] && r.log.issued == c.log.issued
            && r.state == Subscribed && r.log.answeredBefore == c.log.answeredBefore
  {
    hide Process, IsAck;
    TwoValues(react, c, v, ack, []);
    assert [v, ack] + [] == [v, ack];
    MissedReply(react, c, v);
    OnlyAnswer(react, Process(react, c, v), ack);
  }

  // ---- One text for a channel and a pattern ----

  /** A message that a pattern subscription matched, as Redis pushes it. */
  function PatternPush(pattern: string, channel: string, payload: string): Reply {
    Multi([BulkString("pmessage"), BulkString(pattern), BulkString(channel), BulkString(payload)])
  }

  /** A channel and a pattern with the same text are subscribed to, both subscriptions are
      acknowledged, and a message matches the pattern: the handler of the channel is posted with
      it as well, although only that of the pattern is meant. */
  lemma MessageCrossesKinds(react: React, c0: Client, plain: Call, wild: Call, a1: Reply, a2: Reply,
                            channel: string, payload: string)
    requires JustConnected(c0) && plain.Subscribe? && wild.Subscribe?
    requires !plain.pattern && wild.pattern && plain.channel == wild.channel
    requires Sendable(a1) && Sendable(a2) && Sendable(PatternPush(wild.channel, channel, payload))
    requires IsAck(Meaning(a1)) && IsAck(Meaning(a2))
    requires react(plain.handler, Meaning(a1)) == [] && react(wild.handler, Meaning(a2)) == []
    ensures var key := wild.channel;
            var out := [Answering(a1), Answering(a2), Pushing(PatternPush(key, channel, payload))];
            var es := Script(plain, wild, out);
            var c := Exec(react, c0, es);
            && Orderly(react, c0, es, out) && Served(out, c.log.issued) && !c.Raced()
            && Notified(c.strand) == [(plain.msgHandler, payload), (wild.msgHandler, payload)]
            && Intended(c.log.history, [], key, true) == [Subscriber(true, wild.msgHandler)]
  {
    hide Exec, Orderly, Encode, EncodeAll, Input, Meaning, ProcessAll, Perform, Process, IsAck, Commands.Wire, Served;
    hide Answers, Intended, IsPush, Notified, Message, RequestOf, Client.Raced;
    var key, push := wild.channel, PatternPush(wild.channel, channel, payload);
    var out := [Answering(a1), Answering(a2), Pushing(push)];
    assert [Answering(a1), Answering(a2)] + [Pushing(push)] == out && Replies(out) == [a1, a2, push];
    TwoAnswers(a1, a2, [Pushing(push)]);
    var q := ScriptRuns(react, c0, plain, wild, out);
    BothStored(c0, plain, wild);
    PushMeans(key, channel, payload);
    RequestKind(wild);
    TwoServed(a1, a2, [Pushing(push)], q.log.issued);
    SubscriptionsDoNotRace(Exec(react, c0, Script(plain, wild, out)), plain, wild);
    assert Meanings([a1, a2, push]) == [Meaning(a1), Meaning(a2)] + [Meaning(push)];
    CrossingIsProcessed(react, q, Meaning(a1), Meaning(a2), key, channel, payload);
  }

  lemma SubscriptionsDoNotRace(c: Client, call1: Call, call2: Call)
    requires call1.Subscribe? && call2.Subscribe?
    ensures c.log.issued == [RequestOf(call1), RequestOf(call2)] ==> !c.Raced()
  {
    hide RequestOf;
    RequestKind(call1);
    RequestKind(call2);
  }

  lemma PushMeans(pattern: string, channel: string, payload: string)
    ensures var v := Meaning(PatternPush(pattern, channel, payload));
            v == Message(true, pattern, channel, payload) && IsPush(v)
  {
    var r := PatternPush(pattern, channel, payload);
    var vs := Meanings(r.items);
    assert vs == [Str("pmessage", false), Str(pattern, false), Str(channel, false), Str(payload, false)];
  }

  lemma BothStored(c0: Client, plain: Call, wild: Call)
    requires JustConnected(c0) && plain.Subscribe? && wild.Subscribe?
    requires !plain.pattern && wild.pattern && plain.channel == wild.channel
    ensures var c := Perform(Perform(c0, plain), wild);
            && Under(c.msgHandlers, wild.channel) == [(0, plain.msgHandler), (1, wild.msgHandler)]
            && Under(c.singleShotMsgHandlers, wild.channel) == []
            && Intended(c.log.history, [], wild.channel, true) == [Subscriber(true, wild.msgHandler)]
  {
    hide Commands.Wire, Intended;
    var c1 := Perform(c0, plain);
    var x1, x2 := Added(false, wild.channel, 0, plain.msgHandler), Added(true, wild.channel, 1, wild.msgHandler);
    assert c1.log.history == [x1];
    assert Perform(c1, wild).log.history == [x1, x2];
    TwoKindsIntended(wild.channel, plain.msgHandler, wild.msgHandler);
  }

  lemma TwoKindsIntended(key: string, h1: Callback, h2: Callback)
    ensures Intended([Added(false, key, 0, h1), Added(true, key, 1, h2)], [], key, true) == [Subscriber(true, h2)]
  {
    var x1, x2 := Added(false, key, 0, h1), Added(true, key, 1, h2);
    assert [] + [x1] == [x1] && [x1] + [x2] == [x1, x2];
    OneMoreChange([], x1, key);
    OneMoreChange([x1], x2, key);
    var live := Live([x1, x2], key);
    assert live == [(0, Subscriber(false, h1)), (1, Subscriber(true, h2))];
    assert Owners(live) == [Subscriber(false, h1), Subscriber(true, h2)];
    var owners := [Subscriber(false, h1)] + [Subscriber(true, h2)];
    assert Owners(live) == owners && owners[1..] == [Subscriber(true, h2)];
    OwnIsAll([Subscriber(true, h2)], true);
    assert Own(owners, true) == [Subscriber(true, h2)];
    assert Waiting([x1, x2], [], key) == [];
  }

  lemma CrossingIsProcessed(react: React, c: Client, v1: RedisValue, v2: RedisValue,
                            key: string, channel: string, payload: string)
    requires c.state == Subscribed && |c.handlers| == 2 && c.strand == []
    requires IsAck(v1) && IsAck(v2) && react(c.handlers[0], v1) == [] && react(c.handlers[1], v2) == []
    requires |Under(c.msgHandlers, key)| == 2 && Under(c.singleShotMsgHandlers, key) == []
    ensures var push := Message(true, key, channel, payload);
            var r, entries := ProcessAll(react, c, [v1, v2] + [push]), Under(c.msgHandlers, key);
            && Notified(r.strand) == [(entries[0].1, payload), (entries[1].1, payload)]
            && r.log.issued == c.log.issued && r.log.history == c.log.history
            && r.log.answeredBefore == c.log.answeredBefore
  {
    hide Process, IsAck, Notified, Under, Message;
    var push := Message(true, key, channel, payload);
    TwoValues(react, c, v1, v2, [push]);
    OnlyAnswer(react, c, v1);
    var c1 := Taking(c, v1);
    OnlyAnswer(react, c1, v2);
    var c2 := Taking(c1, v2);
    OneValue(react, c2, push);
    MessageIsDispatched(react, c2, true, key, channel, payload);
    TwoNotices(c2, key, payload);
  }

  lemma TwoNotices(c: Client, key: string, payload: string)
    requires c.strand == [] && |Under(c.msgHandlers, key)| == 2 && Under(c.singleShotMsgHandlers, key) == []
    ensures var r, entries := Dispatch(c, true, key, payload), Under(c.msgHandlers, key);
            Notified(r.strand) == [(entries[0].1, payload), (entries[1].1, payload)]
  {
    NoticesNotify(Under(c.msgHandlers, key), payload);
    assert [] + Notices(Under(c.msgHandlers, key), payload) == Notices(Under(c.msgHandlers, key), payload);
  }
}

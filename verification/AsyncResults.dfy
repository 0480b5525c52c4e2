/** The main results about runs of the asynchronous client. */
module AsyncResults {
  import opened Resp
  import opened ParserModel
  import opened Streams
  import opened AsyncModel
  import opened AsyncMessages
  import opened Sockets
  import opened AsyncInvariants
  import opened AsyncMatching
  import Decoder
  import RoundTrip

  // ---- Requests ----

  /** The words a call of the interface sends to the server. */
  function Words(call: Call): Commands.Command {
    match call
    case Execute(cmd, args, _) => [cmd] + args
    case Subscribe(pattern, channel, _, _) => [if pattern then "psubscribe" else "subscribe", channel]
    case SingleShot(pattern, channel, _, _) => [if pattern then "psubscribe" else "subscribe", channel]
    case Unsubscribe(pattern, _, channel, _) => [if pattern then "punsubscribe" else "unsubscribe", channel]
  }

  /** What it changes in the stored message handlers when the next handle is `id`. */
  function ChangesOf(call: Call, id: nat): seq<Change> {
    match call
    case Execute(_, _, _) => []
    case Subscribe(pattern, channel, msgHandler, _) => [Added(pattern, channel, id, msgHandler)]
    case SingleShot(pattern, channel, msgHandler, _) => [Armed(pattern, channel, msgHandler)]
    case Unsubscribe(_, removed, channel, _) => [Removed(channel, removed)]
  }

  /** A call is accepted exactly in the states that allow it: ordinary commands only while
      connected, the others also in subscribed mode. An accepted call issues one request, last
      in order, whose bytes a RESP reader decodes as exactly the words of the call, and which
      carries the call's handler, and it is remembered with what it changes; a refused call
      issues none and is reported. */
  lemma CallsReachTheWire(c: Client, call: Call)
    requires Commands.Storable(Words(call))
    ensures var r := Perform(c, call);
            var accepted := c.state == Connected || (c.state == Subscribed && !call.Execute?);
            && (accepted ==>
                  && |r.log.issued| == |c.log.issued| + 1 && c.log.issued <= r.log.issued
                  && r.log.errors == c.log.errors
                  && r.log.history == c.log.history + ChangesOf(call, c.subscribeSeq)
                  && var q := r.log.issued[|c.log.issued|];
                     && q.handler == call.handler && r.strand == c.strand + [Send(q)]
                     && var d := Decoder.Decode(q.buff);
                        && d.Value? && d.n == |q.buff| && |d.v.ToArray()| == |Words(call)|
                        && forall i :: 0 <= i < |Words(call)| ==> d.v.ToArray()[i] == Str(Words(call)[i], false))
            && (!accepted ==> r == c.Report(InvalidState))
  {
    hide Decoder.Decode, Commands.Wire;
    var items := Words(call);
    CommandDecodes(items);
    match call
    case Execute(_, _, _) =>
    case Subscribe(_, _, _, _) =>
    case SingleShot(_, _, _, _) =>
    case Unsubscribe(_, _, _, _) =>
  }

  lemma CommandDecodes(items: Commands.Command)
    requires Commands.Storable(items)
    ensures var s := Commands.Wire(items);
            var d := Decoder.Decode(s);
            && d.Value? && d.n == |s| && |d.v.ToArray()| == |items|
            && forall i :: 0 <= i < |items| ==> d.v.ToArray()[i] == Str(items[i], false)
  {
    hide Decoder.Decode, Encode;
    var r := Multi(Commands.Bulks(items));
    Commands.CommandIsSendable(items);
    RoundTrip.DecodeEncode(r, "");
    assert Encode(r) + "" == Encode(r);
  }

  // ---- Matching ----

  /** Take any run in which writes succeed, the server answers in order and no sooner than it was
      asked and pushes messages only behind the answer to a subscription, its bytes arrive in
      pieces cut anywhere, and handlers call back as they like. The
      k-th answer received so far has gone to the handler of the k-th request and to no other if
      and only if every answer since the first subscription looks like an acknowledgement.
      Then no message was found unexpected either. Nothing is assumed about the answers: they
      may be refusals, and ordinary replies of any shape. */
  lemma RepliesReachTheirHandlers(react: React, c0: Client, es: seq<Event>, out: seq<Sent>)
    requires JustConnected(c0) && AllSendable(Replies(out)) && Orderly(react, c0, es, out)
    requires var r := Exec(react, c0, es); Served(out, r.log.issued)
    ensures var r, vs := Exec(react, c0, es), Answers(out, Whole(Replies(out), |Input(es)|));
            && |vs| <= |r.log.issued| && !r.log.readStopped
            && (r.log.called == Paired(r.log.issued, vs) <==> Acknowledged(r, vs))
            && (Acknowledged(r, vs) ==> NoMessageErrors(r.log.errors))
    ensures |Input(es)| == |EncodeAll(Replies(out))| ==> Whole(Replies(out), |Input(es)|) == |out|
  {
    hide Exec, Served, Orderly, Encode, EncodeAll, Acknowledged, Unmistaken, Inv, Answers;
    RunInStep(react, c0, es, out, Exec(react, c0, es).log.issued);
    WholeOfAll(Replies(out));
  }

  /** Without subscriptions nothing has to be assumed about the replies: as long as only
      ordinary commands are issued, every reply reaches the handler of its command. */
  lemma OrdinaryRepliesReachTheirHandlers(react: React, c0: Client, es: seq<Event>, out: seq<Sent>)
    requires JustConnected(c0) && AllSendable(Replies(out)) && Orderly(react, c0, es, out)
    requires forall i :: 0 <= i < |out| ==> out[i].Answering?
    requires forall q :: q in Exec(react, c0, es).log.issued ==> q.kind == Ordinary
    ensures var r, vs := Exec(react, c0, es), Answers(out, Whole(Replies(out), |Input(es)|));
            && |vs| <= |r.log.issued| && r.log.called == Paired(r.log.issued, vs)
            && NoMessageErrors(r.log.errors)
  {
    hide Exec, Orderly, Encode, EncodeAll, Answers, Fifo, DoubleBuffer, Handles, Messages;
    JustConnectedInv(c0);
    ExecKeeps(react, c0, es);
    RepliesReachTheirHandlers(react, c0, es, out);
  }

  /** A subscription or unsubscription that had not been answered when subscribed mode was entered
      was refused: its answer does not look like an acknowledgement. */
  ghost predicate Refused(c: Client, vs: seq<RedisValue>)
    requires |vs| <= |c.log.issued|
  {
    c.state == Subscribed
    && exists k :: c.log.answeredBefore <= k < |vs| && c.log.issued[k].kind != Ordinary && !IsAck(vs[k])
  }

  /** The same condition in terms of the requests. Take any such run in which every request has
      been answered in what was read and no ordinary command got a reply that looks like an
      acknowledgement: the answers have gone to their handlers if and only if the first
      subscription was not made with an ordinary command outstanding, be it on the strand,
      queued, in flight or waiting for its reply, and no subscription or unsubscription was
      refused in subscribed mode. Any refused subscription counts. */
  lemma MatchedUnlessRacedOrRefused(react: React, c0: Client, es: seq<Event>, out: seq<Sent>)
    requires JustConnected(c0) && AllSendable(Replies(out)) && Orderly(react, c0, es, out)
    requires var r, vs := Exec(react, c0, es), Answers(out, Whole(Replies(out), |Input(es)|));
             && Served(out, r.log.issued) && |vs| == |r.log.issued|
             && forall k :: 0 <= k < |vs| && r.log.issued[k].kind == Ordinary ==> !IsAck(vs[k])
    ensures var r, vs := Exec(react, c0, es), Answers(out, Whole(Replies(out), |Input(es)|));
            && (r.log.called == Paired(r.log.issued, vs) <==> !r.Raced() && !Refused(r, vs))
            && ((forall k :: 0 <= k < |vs| && r.log.issued[k].kind == Unsubscribing ==> IsAck(vs[k])) ==>
                  (r.log.called == Paired(r.log.issued, vs) <==>
                     && !r.Raced()
                     && forall k :: 0 <= k < |vs| && r.log.issued[k].kind == Subscribing ==> IsAck(vs[k])))
  {
    hide Exec, Served, Orderly, IsAck, Answers, Encode, EncodeAll, Inv;
    JustConnectedInv(c0);
    ExecKeeps(react, c0, es);
    RepliesReachTheirHandlers(react, c0, es, out);
    InvModes(Exec(react, c0, es));
    AcknowledgedMeans(Exec(react, c0, es), Answers(out, Whole(Replies(out), |Input(es)|)));
  }

  lemma InvModes(c: Client)
    requires Inv(c)
    ensures Modes(c)
  {
  }

  lemma AcknowledgedMeans(c: Client, vs: seq<RedisValue>)
    requires Modes(c) && |vs| == |c.log.issued|
    requires forall k :: 0 <= k < |vs| && c.log.issued[k].kind == Ordinary ==> !IsAck(vs[k])
    ensures Acknowledged(c, vs) <==> !c.Raced() && !Refused(c, vs)
    ensures (forall k :: 0 <= k < |vs| && c.log.issued[k].kind == Unsubscribing ==> IsAck(vs[k])) ==>
            (Refused(c, vs) <==>
             exists k :: 0 <= k < |vs| && c.log.issued[k].kind == Subscribing && !IsAck(vs[k]))
  {
    hide IsAck;
  }

  /** In subscribed mode the oldest handler gets a value exactly when the value is an
      acknowledgement. */
  lemma SubscribedAnswersOnlyAcks(react: React, c: Client, v: RedisValue)
    requires c.state == Subscribed && c.handlers != []
    ensures Process(react, c, v).log.called == c.log.called + [(c.handlers[0], v)] <==> IsAck(v)
  {
    hide PerformAll;
    AnswerIsTaking(react, c, v);
    PerformAllEffects(Taking(c, v), react(c.handlers[0], v));
  }

  /** With a command waiting for its reply, its handler would get whatever reply comes next;
      once a subscription is made it gets it if and only if it looks like an acknowledgement. */
  lemma SubscribingDecidesTheNextReply(react: React, c: Client, call: Call, v: RedisValue)
    requires c.state == Connected && c.handlers != [] && (call.Subscribe? || call.SingleShot?)
    ensures Process(react, c, v).log.called == c.log.called + [(c.handlers[0], v)]
    ensures var c1 := Perform(c, call);
            Process(react, c1, v).log.called == c.log.called + [(c.handlers[0], v)] <==> IsAck(v)
  {
    hide PerformAll, Process;
    AnswerMatches(react, c, v);
    PerformEffects(c, call);
    SubscribedAnswersOnlyAcks(react, Perform(c, call), v);
  }

  /** What a race does: with a command waiting for its reply, a subscription is made, and the
      reply, if it does not look like an acknowledgement, is passed to no reply handler, although
      it would have been passed to the right one before; the handler waiting for it is then
      called with the acknowledgement of the subscription. A reply that looks like a pushed
      message is posted to the message handlers under its key, any other is reported. */
  lemma RaceMisroutes(react: React, c: Client, call: Call, reply: RedisValue, ack: RedisValue)
    requires c.state == Connected && c.handlers != [] && (call.Subscribe? || call.SingleShot?)
    requires !IsAck(reply) && IsAck(ack)
    ensures Process(react, c, reply).log.called == c.log.called + [(c.handlers[0], reply)]
    ensures var c1 := Process(react, Perform(c, call), reply);
            && c1.handlers == c.handlers && c1.log.called == c.log.called
            && (if IsPush(reply) then
                  |c1.log.postings| == |c.log.postings| + 1 && c1.log.errors == Perform(c, call).log.errors
                else
                  c1.log.postings == c.log.postings && |c1.log.errors| == |Perform(c, call).log.errors| + 1)
            && Process(react, c1, ack).log.called == c.log.called + [(c.handlers[0], ack)]
  {
    hide PerformAll, Perform, Process, IsAck;
    SubscribingDecidesTheNextReply(react, c, call, reply);
    PerformEffects(c, call);
    SubscribingEnters(c, call);
    MissedReply(react, Perform(c, call), reply);
    MissedReplyIsReported(react, Perform(c, call), reply);
    AnswerMatches(react, Process(react, Perform(c, call), reply), ack);
  }

  lemma SubscribingEnters(c: Client, call: Call)
    requires c.Ready() && (call.Subscribe? || call.SingleShot?)
    ensures Perform(c, call).state == Subscribed
  {
    hide Commands.Wire;
  }

  /** In subscribed mode a value that is no acknowledgement is passed to no reply handler. */
  lemma MissedReply(react: React, c: Client, v: RedisValue)
    requires c.state == Subscribed && !IsAck(v)
    ensures var r := Process(react, c, v);
            && r.state == Subscribed && r.handlers == c.handlers && r.log.called == c.log.called
            && r.log.issued == c.log.issued && r.log.answeredBefore == c.log.answeredBefore
  {
    hide PerformAll;
  }

  /** It is posted if it looks like a message, and reported otherwise. */
  lemma MissedReplyIsReported(react: React, c: Client, v: RedisValue)
    requires c.state == Subscribed && !IsAck(v)
    ensures var r := Process(react, c, v);
            if IsPush(v) then |r.log.postings| == |c.log.postings| + 1 && r.log.errors == c.log.errors
            else r.log.postings == c.log.postings && |r.log.errors| == |c.log.errors| + 1
  {
    hide PerformAll;
  }

  // ---- Messages ----

  /** Every handler in the list is called with the payload. */
  function Addressed(callbacks: seq<Callback>, payload: string): seq<(Callback, string)> {
    seq(|callbacks|, i requires 0 <= i < |callbacks| => (callbacks[i], payload))
  }

  /** Over every run, with any failures: the message handlers that have run, followed by those
      on the strand, are exactly the postings, one after the other, and each posting called the
      oldest single shot waiting under the key of its message and every subscription live under
      that key at that moment, oldest first, with the payload. */
  lemma MessagesReachTheirHandlers(react: React, c0: Client, es: seq<Event>)
    requires JustConnected(c0)
    ensures var r := Exec(react, c0, es);
            && r.log.notified + Notified(r.strand) == Posted(r.log.postings)
            && forall i :: 0 <= i < |r.log.postings| ==>
                 var m := r.log.postings[i];
                 && m.at <= |r.log.history|
                 && CallsOf(m) == Addressed(
                      Callbacks(Recipients(r.log.history[..m.at], r.log.postings[..i], m.key)), m.payload)
  {
    hide Exec, Recipients, CallsOf, Fifo, DoubleBuffer, Modes, Handles, Faithful;
    JustConnectedInv(c0);
    ExecKeeps(react, c0, es);
    var r := Exec(react, c0, es);
    forall i | 0 <= i < |r.log.postings|
      ensures var m := r.log.postings[i];
              && m.at <= |r.log.history|
              && CallsOf(m) == Addressed(
                   Callbacks(Recipients(r.log.history[..m.at], r.log.postings[..i], m.key)), m.payload)
    {
      FaithfulCalls(r.log.history, r.log.postings, i);
    }
  }

  lemma FaithfulCalls(history: seq<Change>, postings: seq<Posting>, i: nat)
    requires i < |postings| && Faithful(history, postings, i)
    ensures var m := postings[i];
            && m.at <= |history|
            && CallsOf(m) == Addressed(Callbacks(Recipients(history[..m.at], postings[..i], m.key)), m.payload)
  {
    hide Live, Waiting;
  }

  /** In the same runs, the messages posted are the messages pushed by the server in what was
      read if and only if no answer since the first subscription looked like one. Then the i-th
      has been addressed, with its payload, to those then stored under its key, and nothing else
      has been posted. */
  lemma PushesReachTheirHandlers(react: React, c0: Client, es: seq<Event>, out: seq<Sent>)
    requires JustConnected(c0) && AllSendable(Replies(out)) && Orderly(react, c0, es, out)
    requires var r := Exec(react, c0, es); Served(out, r.log.issued)
    ensures var r, w := Exec(react, c0, es), Whole(Replies(out), |Input(es)|);
            PushesOf(r.log.postings) == Pushes(out, w) <==> Unmistaken(r, Answers(out, w))
    ensures Unmistaken(Exec(react, c0, es), Answers(out, Whole(Replies(out), |Input(es)|))) ==>
            var r := Exec(react, c0, es);
            var pushes := Pushes(out, Whole(Replies(out), |Input(es)|));
            && |r.log.postings| == |pushes| && r.log.notified + Notified(r.strand) == Posted(r.log.postings)
            && forall i :: 0 <= i < |pushes| ==>
                 var m := r.log.postings[i];
                 && m.at <= |r.log.history| && m.pattern == pushes[i].pattern
                 && CallsOf(m) == Addressed(
                      Callbacks(Recipients(r.log.history[..m.at], r.log.postings[..i], pushes[i].key)),
                      pushes[i].payload)
  {
    hide Exec, Served, Orderly, Encode, EncodeAll, Pushes, Recipients, CallsOf, Posted, Notified, Answers, Unmistaken;
    hide Acknowledged, Inv;
    RunInStep(react, c0, es, out, Exec(react, c0, es).log.issued);
    MessagesReachTheirHandlers(react, c0, es);
    var r := Exec(react, c0, es);
    var sent := PushesOf(r.log.postings);
    assert forall i :: 0 <= i < |sent| ==>
             sent[i].key == r.log.postings[i].key && sent[i].payload == r.log.postings[i].payload;
  }

  /** Channel and pattern subscriptions share their keys, so a message under a text that is
      used as both reaches handlers of the other kind. Over every run, a posting reaches exactly
      those it is meant for if and only if, at its moment, every subscription made under its key
      and not taken back was of its kind, and so was the oldest single shot waiting there. A
      text that was only ever used as one of the two is enough. */
  lemma MessagesStayInTheirKind(react: React, c0: Client, es: seq<Event>, i: nat)
    requires JustConnected(c0) && i < |Exec(react, c0, es).log.postings|
    ensures var r := Exec(react, c0, es);
            var m := r.log.postings[i];
            && m.at <= |r.log.history|
            && var h, ps := r.log.history[..m.at], r.log.postings[..i];
               && (Recipients(h, ps, m.key) == Intended(h, ps, m.key, m.pattern) <==>
                     && (forall i: nat, id: nat, owner ::
                           Standing(h, i, m.key, id, owner) ==> owner.pattern == m.pattern)
                     && (var w := Waiting(h, ps, m.key); w == [] || w[0].pattern == m.pattern))
               && ((forall e :: e in h && !e.Removed? && e.channel == m.key ==> e.pattern == m.pattern) ==>
                     Recipients(h, ps, m.key) == Intended(h, ps, m.key, m.pattern))
  {
    hide Exec, Recipients, Intended, Standing, Waiting, CallsOf;
    MessagesReachTheirHandlers(react, c0, es);
    var r := Exec(react, c0, es);
    var m := r.log.postings[i];
    var h, ps := r.log.history[..m.at], r.log.postings[..i];
    ReachesTheIntended(h, ps, m.key, m.pattern);
    KindsUnderKey(h, ps, m.key, m.pattern);
    if forall e :: e in h && !e.Removed? && e.channel == m.key ==> e.pattern == m.pattern {
      RecipientsCameFromCalls(h, ps, m.key, m.pattern);
    }
  }

  // ---- Modes, word by word ----

  /** In subscribed mode the first of at least three elements decides. The words of a message
      dispatch it: its key is the element behind the word, but the one after that when there
      are more than four elements; its payload is the third element of three and the fourth of
      more. The four words of an acknowledgement call the oldest handler, if one is waiting.
      Every other word is reported. */
  lemma SubscribedMode(react: React, c: Client, word: string, error: bool, more: seq<RedisValue>)
    requires c.state == Subscribed && |more| >= 2
    ensures var v := Array([Str(word, error)] + more);
            var r := Process(react, c, v);
            if word == "message" || word == "pmessage" then
              var key, payload := more[if |more| <= 3 then 0 else 1], more[if |more| == 2 then 1 else 2];
              r == Dispatch(c, word == "pmessage", if key.Str? then key.bytes else "",
                            if payload.Str? then payload.bytes else "")
            else if c.handlers != []
                    && (word == "subscribe" || word == "unsubscribe" || word == "psubscribe" || word == "punsubscribe")
            then
              r.log.called == c.log.called + [(c.handlers[0], v)] && r.handlers == c.handlers[1..]
            else
              r == c.Report(InvalidCommand(word))
  {
    hide Dispatch, PerformAll;
    var v := Array([Str(word, error)] + more);
    if c.handlers != [] {
      AnswerIsTaking(react, c, v);
      PerformAllEffects(Taking(c, v), react(c.handlers[0], v));
    }
  }

  /** The answer to each of the four requests: the word, a channel or nil, and a count. */
  lemma AcknowledgementsAreAnswered(react: React, c: Client, word: string, channel: RedisValue, count: int)
    requires c.state == Subscribed && c.handlers != []
    requires word == "subscribe" || word == "unsubscribe" || word == "psubscribe" || word == "punsubscribe"
    ensures var v := Array([Str(word, false), channel, Int(count)]);
            IsAck(v) && !IsPush(v) && Process(react, c, v).log.called == c.log.called + [(c.handlers[0], v)]
  {
    hide Process;
    assert [Str(word, false)] + [channel, Int(count)] == [Str(word, false), channel, Int(count)];
    SubscribedMode(react, c, word, false, [channel, Int(count)]);
  }

  /** Anything shorter, or not an array, is a protocol error; a first element that is no string
      counts as the empty word. */
  lemma SubscribedModeRejects(react: React, c: Client, v: RedisValue)
    requires c.state == Subscribed
    ensures !v.Array? || |v.elems| < 3 ==> Process(react, c, v) == c.Report(ProtocolError)
    ensures v.Array? && |v.elems| >= 3 && !v.elems[0].Str? ==> Process(react, c, v) == c.Report(InvalidCommand(""))
  {
    hide Answer, Dispatch;
  }

  /** In any other mode every value goes to the oldest handler, whatever it looks like. */
  lemma OtherModes(react: React, c: Client, v: RedisValue)
    requires c.state != Subscribed
    ensures var r := Process(react, c, v);
            if c.handlers != [] then
              r.log.called == c.log.called + [(c.handlers[0], v)] && r.handlers == c.handlers[1..]
            else r == c.Report(UnexpectedMessage(v))
  {
    hide PerformAll;
    if c.handlers != [] {
      AnswerIsTaking(react, c, v);
      PerformAllEffects(Taking(c, v), react(c.handlers[0], v));
    }
  }

  // ---- Failures ----

  /** Every failed read but a cancelled one is reported, and so is every failed write; neither
      starts another. */
  lemma FailuresAreReported(react: React, c: Client, ec: ErrorCode)
    requires c.parser.Valid()
    ensures c.net.pendingReads > 0 ==>
              var r := Occur(react, c, ReadError(ec));
              && r.log.errors == c.log.errors + (if ec == Aborted then [] else [IoError(ec)])
              && r.net.pendingReads == c.net.pendingReads - 1 && r.log.readStopped
              && r.log.called == c.log.called && r.handlers == c.handlers && r.strand == c.strand
    ensures c.net.inFlight > 0 && ec != NoError ==>
              var r := Occur(react, c, WriteDone(ec));
              && r.log.errors == c.log.errors + [IoError(ec)]
              && r.net.inFlight == c.net.inFlight - 1 && r.net.wire == c.net.wire
              && r.dataWrited == [] && r.dataQueued == c.dataQueued && r.handlers == c.handlers
  {
  }

  /** A malformed reply ends the reading behind the replies in front of it, and is the last thing
      reported; otherwise the next read is started. */
  lemma MalformedReplyStopsReading(react: React, c: Client, chunk: string)
    requires c.parser.Valid() && c.net.pendingReads > 0 && chunk != ""
    ensures var d, r := Drain(c.parser, chunk), Occur(react, c, Readable(chunk));
            var done := ProcessAll(
              react, c.(parser := d.p, net := c.net.(pendingReads := c.net.pendingReads - 1)), d.values);
            && (d.outcome == Error ==>
                  r.log.errors == done.log.errors + [ParserError] && r.net.pendingReads == c.net.pendingReads - 1
                  && r.log.readStopped && r.log.called == done.log.called)
            && (d.outcome == Incompleted ==>
                  r.log == done.log && r.net.pendingReads == c.net.pendingReads)
  {
    hide ProcessAll, Drain;
  }

  /** Over every run: once a read has failed or a reply was malformed, nothing that arrives is
      processed any more, whatever happens. */
  lemma StoppedForGood(react: React, c0: Client, es: seq<Event>, more: seq<Event>)
    requires JustConnected(c0) && Exec(react, c0, es).log.readStopped
    ensures var r, r' := Exec(react, c0, es), Exec(react, Exec(react, c0, es), more);
            && r'.log.called == r.log.called && r'.log.postings == r.log.postings
            && r'.parser == r.parser && r'.log.readStopped
  {
    hide Exec, Tables;
    JustConnectedInv(c0);
    ExecKeeps(react, c0, es);
    NoReadsNoReplies(react, Exec(react, c0, es), more);
  }

  lemma {:induction false} NoReadsNoReplies(react: React, c: Client, es: seq<Event>)
    requires c.parser.Valid() && c.net.pendingReads == 0
    ensures var r := Exec(react, c, es);
            && r.log.called == c.log.called && r.log.postings == c.log.postings && r.parser == c.parser
            && r.net.pendingReads == 0 && r.log.readStopped == c.log.readStopped
    decreases |es|
  {
    hide Occur;
    if es != [] {
      var last := |es| - 1;
      NoReadsNoReplies(react, c, es[..last]);
      NoReadNoReply(react, Exec(react, c, es[..last]), es[last]);
    }
  }

  lemma NoReadNoReply(react: React, c: Client, e: Event)
    requires c.parser.Valid() && c.net.pendingReads == 0
    ensures var r := Occur(react, c, e);
            && r.log.called == c.log.called && r.log.postings == c.log.postings && r.parser == c.parser
            && r.net.pendingReads == 0 && r.log.readStopped == c.log.readStopped
  {
    hide Perform, AsyncRead;
    if e.User? {
      PerformEffects(c, e.call);
      PerformKeepsReads(c, e.call);
    }
  }

  // ---- Writing ----

  ghost predicate WritesSucceed(es: seq<Event>) {
    forall e :: e in es && e.WriteDone? ==> e.ec == NoError
  }

  /** In every state of every run, with any failures: at most one write is in flight and its
      buffers are the untouched `dataWrited`; the buffers handed over and then those queued are
      those of the first requests issued, in order, so none is lost. As long as no write
      fails, nothing waits in `dataQueued` without a write in flight, and once the strand is
      empty and no write is in flight, every request has been handed over. */
  lemma WritesAreOrdered(react: React, c0: Client, es: seq<Event>)
    requires JustConnected(c0)
    ensures var r := Exec(react, c0, es);
            && r.net.inFlight <= 1 && (r.net.inFlight == 0 <==> r.dataWrited == [])
            && r.net.wire + r.dataQueued <= Buffers(r.log.issued)
            && (r.strand == [] ==> r.net.wire + r.dataQueued == Buffers(r.log.issued))
            && (WritesSucceed(es) && r.net.inFlight == 0 ==> r.dataQueued == [])
            && (WritesSucceed(es) && r.net.inFlight == 0 && r.strand == [] ==> r.net.wire == Buffers(r.log.issued))
  {
    hide Exec, Modes, Handles, Messages;
    JustConnectedInv(c0);
    ExecKeeps(react, c0, es);
    if WritesSucceed(es) {
      NoWriteFails(react, c0, es);
    }
    var r := Exec(react, c0, es);
    var e := Executed(r);
    assert Buffers(r.log.issued[..e]) == Buffers(r.log.issued)[..e];
    assert r.strand == [] ==> r.log.issued[..e] == r.log.issued;
  }

  lemma {:induction false} NoWriteFails(react: React, c0: Client, es: seq<Event>)
    requires c0.parser.Valid() && !c0.log.writeFailed && WritesSucceed(es)
    ensures !Exec(react, c0, es).log.writeFailed
    decreases |es|
  {
    hide Occur;
    if es != [] {
      var last := |es| - 1;
      NoWriteFails(react, c0, es[..last]);
      OccurWriteFailed(react, Exec(react, c0, es[..last]), es[last]);
    }
  }

  lemma OccurWriteFailed(react: React, c: Client, e: Event)
    requires c.parser.Valid() && !c.log.writeFailed && (e.WriteDone? ==> e.ec == NoError)
    ensures !Occur(react, c, e).log.writeFailed
  {
    hide Perform, Drain, ProcessAll;
    if e.User? {
      PerformEffects(c, e.call);
    } else if e.Readable? && c.net.pendingReads > 0 {
      var c1 := c.(net := c.net.(pendingReads := c.net.pendingReads - 1), parser := Drain(c.parser, e.chunk).p);
      ProcessAllWriteFailed(react, c1, Drain(c.parser, e.chunk).values);
    }
  }

  lemma {:induction false} ProcessAllWriteFailed(react: React, c: Client, vs: seq<RedisValue>)
    ensures ProcessAll(react, c, vs).log.writeFailed == c.log.writeFailed
    decreases |vs|
  {
    hide Process;
    if vs != [] {
      ProcessWriteFailed(react, c, vs[0]);
      ProcessAllWriteFailed(react, Process(react, c, vs[0]), vs[1..]);
    }
  }

  lemma ProcessWriteFailed(react: React, c: Client, v: RedisValue)
    ensures Process(react, c, v).log.writeFailed == c.log.writeFailed
  {
    hide Answer, PerformAll;
    if c.handlers != [] {
      AnswerIsTaking(react, c, v);
      PerformAllEffects(Taking(c, v), react(c.handlers[0], v));
    }
  }

  // ---- Subscriptions ----

  /** The handles given out are distinct, every stored entry carries one of them, and no two
      stored entries share one. */
  ghost predicate UniqueHandles(c: Client) {
    && (forall i, j :: 0 <= i < j < |c.log.ids| ==> c.log.ids[i] != c.log.ids[j])
    && (forall k, e :: k in c.msgHandlers && e in c.msgHandlers[k] ==> e.0 in c.log.ids)
    && (forall k :: k in c.msgHandlers ==> Distinct(c.msgHandlers[k]))
    && (forall k, k', e, e' ::
          && k in c.msgHandlers && e in c.msgHandlers[k]
          && k' in c.msgHandlers && e' in c.msgHandlers[k'] && e.0 == e'.0
          ==> k == k' && e == e')
  }

  /** Over every run, with any failures. */
  lemma HandlesAreUnique(react: React, c0: Client, es: seq<Event>)
    requires JustConnected(c0)
    ensures UniqueHandles(Exec(react, c0, es))
  {
    hide Exec, UniqueHandles, Fifo, DoubleBuffer, Modes, Handles, Messages;
    JustConnectedInv(c0);
    ExecKeeps(react, c0, es);
    HandlesMakeUnique(Exec(react, c0, es));
  }

  lemma HandlesMakeUnique(c: Client)
    requires Handles(c)
    ensures UniqueHandles(c)
  {
    forall k, e | k in c.msgHandlers && e in c.msgHandlers[k]
      ensures e.0 in c.log.ids
    {
      assert c.log.ids[e.0] == e.0;
    }
  }

  /** A subscription returns a new handle exactly when it is accepted. That handle then identifies
      its entry. A refused one returns 0 and stores nothing. */
  lemma ReturnedHandles(c: Client, call: Call)
    requires Handles(c) && call.Subscribe?
    ensures var id, r := HandleOf(c), Perform(c, call);
            && (c.Ready() <==> id !in c.log.ids && id in r.log.ids)
            && (c.Ready() ==>
                  && (id, call.msgHandler) in Under(r.msgHandlers, call.channel)
                  && forall k, e :: k in r.msgHandlers && e in r.msgHandlers[k] && e.0 == id ==>
                       k == call.channel && e.1 == call.msgHandler)
            && (!c.Ready() ==> id == 0 && r.msgHandlers == c.msgHandlers && r.log.ids == c.log.ids)
  {
    hide Commands.Wire;
    var id, r := HandleOf(c), Perform(c, call);
    if c.Ready() {
      assert r.log.ids[|c.log.ids|] == id;
      var entries := r.msgHandlers[call.channel];
      assert entries[|entries| - 1] == (id, call.msgHandler);
    }
  }

  /** But 0 is also the first handle given out: unsubscribing with the handle of a refused
      subscription removes the entry of a later accepted one with the same channel. */
  lemma RefusedHandleErases(c: Client, c0: Client, call: Call, handler: Callback)
    requires !c.Ready() && JustConnected(c0) && call.Subscribe?
    ensures HandleOf(c) == HandleOf(c0)
    ensures var stored := Perform(c0, call);
            var r := Perform(stored, Unsubscribe(call.pattern, HandleOf(c), call.channel, handler));
            && Under(stored.msgHandlers, call.channel) == [(0, call.msgHandler)]
            && Under(r.msgHandlers, call.channel) == []
  {
    hide Commands.Wire;
    var entries := [(0, call.msgHandler)];
    assert Without(entries, 0) == [] by {
      assert entries[1..] == [];
    }
  }

  /** Over every run, with any failures, and for every key: the single-shot handlers ever stored
      are those posted, each once and in order of registration, followed by those still
      waiting; and the ordinary handlers stored are those of the live subscriptions, in order. */
  lemma TablesFollowTheCalls(react: React, c0: Client, es: seq<Event>, key: string)
    requires JustConnected(c0)
    ensures var r := Exec(react, c0, es);
            && Callbacks(ShotsOf(r.log.history, key))
               == Fired(r.log.postings, key) + Under(r.singleShotMsgHandlers, key)
            && Under(r.msgHandlers, key) == Plain(Live(r.log.history, key))
  {
    hide Exec;
    JustConnectedInv(c0);
    ExecKeeps(react, c0, es);
  }

  /** No entry with this handle is stored under any channel, and none has been posted since the
      first `n` postings. */
  ghost predicate Absent(c: Client, id: nat, n: nat) {
    && id < c.subscribeSeq && n <= |c.log.postings|
    && (forall k, e :: k in c.msgHandlers && e in c.msgHandlers[k] ==> e.0 != id)
    && (forall i, e :: n <= i < |c.log.postings| && e in c.log.postings[i].entries ==> e.0 != id)
  }

  lemma PerformKeepsAbsent(c: Client, call: Call, id: nat, n: nat)
    requires Absent(c, id, n)
    ensures Absent(Perform(c, call), id, n)
  {
    hide Commands.Wire;
  }

  lemma {:induction false} PerformAllKeepsAbsent(c: Client, calls: seq<Call>, id: nat, n: nat)
    requires Absent(c, id, n)
    ensures Absent(PerformAll(c, calls), id, n)
    decreases |calls|
  {
    hide Perform, Absent;
    if calls != [] {
      PerformKeepsAbsent(c, calls[0], id, n);
      PerformAllKeepsAbsent(Perform(c, calls[0]), calls[1..], id, n);
    }
  }

  lemma DispatchKeepsAbsent(c: Client, pattern: bool, key: string, payload: string, id: nat, n: nat)
    requires Absent(c, id, n)
    ensures Absent(Dispatch(c, pattern, key, payload), id, n)
  {
    hide Notices;
  }

  lemma ProcessKeepsAbsent(react: React, c: Client, v: RedisValue, id: nat, n: nat)
    requires Absent(c, id, n)
    ensures Absent(Process(react, c, v), id, n)
  {
    hide Answer, Dispatch, PerformAll, Absent;
    var r, result := Process(react, c, v), v.ToArray();
    if c.handlers != [] {
      AbsentFrame(c, Taking(c, v), id, n);
      AnswerIsTaking(react, c, v);
      PerformAllKeepsAbsent(Taking(c, v), react(c.handlers[0], v), id, n);
    }
    if |result| >= 3 {
      DispatchKeepsAbsent(c, result[0].ToByteArray() == PMESSAGE, PushKey(result), PushPayload(result), id, n);
    }
    if r.msgHandlers == c.msgHandlers && r.subscribeSeq == c.subscribeSeq && r.log.postings == c.log.postings {
      AbsentFrame(c, r, id, n);
    }
  }

  lemma {:induction false} ProcessAllKeepsAbsent(react: React, c: Client, vs: seq<RedisValue>, id: nat, n: nat)
    requires Absent(c, id, n)
    ensures Absent(ProcessAll(react, c, vs), id, n)
    decreases |vs|
  {
    hide Process, Absent;
    if vs != [] {
      ProcessKeepsAbsent(react, c, vs[0], id, n);
      ProcessAllKeepsAbsent(react, Process(react, c, vs[0]), vs[1..], id, n);
    }
  }

  lemma AbsentFrame(c: Client, r: Client, id: nat, n: nat)
    requires Absent(c, id, n) && r.msgHandlers == c.msgHandlers && r.subscribeSeq == c.subscribeSeq
    requires r.log.postings == c.log.postings
    ensures Absent(r, id, n)
  {
  }

  lemma ReadKeepsAbsent(react: React, c: Client, chunk: string, id: nat, n: nat)
    requires c.parser.Valid() && Absent(c, id, n)
    ensures Absent(AsyncRead(react, c, chunk), id, n)
  {
    hide Drain, ProcessAll, Absent;
    var d := Drain(c.parser, chunk);
    AbsentFrame(c, c.(parser := d.p), id, n);
    ProcessAllKeepsAbsent(react, c.(parser := d.p), d.values, id, n);
    AbsentFrame(ProcessAll(react, c.(parser := d.p), d.values), AsyncRead(react, c, chunk), id, n);
  }

  lemma OccurKeepsAbsent(react: React, c: Client, e: Event, id: nat, n: nat)
    requires c.parser.Valid() && Absent(c, id, n)
    ensures Absent(Occur(react, c, e), id, n)
  {
    hide Perform, AsyncRead, Absent;
    var r := Occur(react, c, e);
    if e.User? {
      PerformKeepsAbsent(c, e.call, id, n);
    } else if e.Readable? && c.net.pendingReads > 0 && e.chunk != "" {
      var c1 := c.(net := c.net.(pendingReads := c.net.pendingReads - 1));
      AbsentFrame(c, c1, id, n);
      ReadKeepsAbsent(react, c1, e.chunk, id, n);
    } else {
      AbsentFrame(c, r, id, n);
    }
  }

  lemma {:induction false} ExecKeepsAbsent(react: React, c: Client, es: seq<Event>, id: nat, n: nat)
    requires c.parser.Valid() && Absent(c, id, n)
    ensures Absent(Exec(react, c, es), id, n)
    decreases |es|
  {
    hide Occur, Absent;
    if es != [] {
      var last := |es| - 1;
      ExecKeepsAbsent(react, c, es[..last], id, n);
      OccurKeepsAbsent(react, Exec(react, c, es[..last]), es[last], id, n);
    }
  }

  /** Unsubscribing with a handle and its own channel removes the entry for good: whatever
      happens later, with any failures, it is not stored again and no message received from
      then on is posted to it, because handles are never reused. Calls that were already posted
      stay on the strand. */
  lemma UnsubscribedForGood(react: React, c: Client, id: nat, channel: string, h: Callback, call: Call,
                            es: seq<Event>)
    requires Inv(c) && channel in c.msgHandlers && (id, h) in c.msgHandlers[channel]
    requires call.Unsubscribe? && call.id == id && call.channel == channel
    ensures Absent(Exec(react, Perform(c, call), es), id, |c.log.postings|)
  {
    hide Commands.Wire, Exec;
    var r, n := Perform(c, call), |c.log.postings|;
    assert Absent(r, id, n);
    ExecKeepsAbsent(react, r, es, id, n);
  }
}

/** When replies reach the handlers of their own commands, in every orderly run. */
module AsyncMatching {
  import opened Resp
  import opened ParserModel
  import opened Streams
  import opened AsyncModel
  import opened AsyncMessages
  import opened Sockets
  import opened AsyncInvariants

  /** What a server puts on the connection: the reply to its next unanswered request, or a
      message pushed to a subscriber. */
  datatype Sent = Answering(r: Reply) | Pushing(r: Reply)

  function Replies(out: seq<Sent>): (rs: seq<Reply>)
    ensures |rs| == |out| && forall i :: 0 <= i < |out| ==> rs[i] == out[i].r
  {
    seq(|out|, i requires 0 <= i < |out| => out[i].r)
  }

  /** The values of the answers among the first `n` things sent. */
  function Answers(out: seq<Sent>, n: nat): (vs: seq<RedisValue>)
    requires n <= |out|
    ensures |vs| <= n
  {
    if n == 0 then []
    else Answers(out, n - 1) + (if out[n - 1].Answering? then [Meaning(out[n - 1].r)] else [])
  }

  /** A pushed message, read as the client reads it. */
  datatype Push = Push(pattern: bool, key: string, payload: string)

  function PushOf(v: RedisValue): Push
    requires IsPush(v)
  {
    Push(v.ToArray()[0].ToByteArray() == PMESSAGE, PushKey(v.ToArray()), PushPayload(v.ToArray()))
  }

  /** The messages pushed among the first `n` things sent. */
  function Pushes(out: seq<Sent>, n: nat): seq<Push>
    requires n <= |out|
  {
    if n == 0 then [] else
    var before, v := Pushes(out, n - 1), Meaning(out[n - 1].r);
    if out[n - 1].Pushing? && IsPush(v) then before + [PushOf(v)] else before
  }

  /** The messages that were posted. */
  function PushesOf(postings: seq<Posting>): (r: seq<Push>)
    ensures |r| == |postings|
  {
    seq(|postings|, i requires 0 <= i < |postings| => Push(postings[i].pattern, postings[i].key, postings[i].payload))
  }

  lemma {:induction false} AnswersGrow(out: seq<Sent>, m: nat, n: nat)
    requires m <= n <= |out|
    ensures |Answers(out, m)| <= |Answers(out, n)|
    decreases n
  {
    if m < n {
      AnswersGrow(out, m, n - 1);
    }
  }

  /** A Redis server pushes messages only behind the answer to some subscription. `all` are the
      requests of the whole run. Nothing is assumed about what the answers look like. */
  ghost predicate Served(out: seq<Sent>, all: seq<Request>) {
    forall i {:trigger out[i]} :: 0 <= i < |out| && out[i].Pushing? ==>
      var k := |Answers(out, i)|;
      IsPush(Meaning(out[i].r)) && exists j :: 0 <= j < k && j < |all| && all[j].kind == Subscribing
  }

  /** The first `n` bytes sent by the server answer no more requests than it was handed. */
  ghost predicate Causal(c: Client, out: seq<Sent>, n: nat) {
    exists m :: 0 <= m <= |out| && n <= |EncodeAll(Replies(out[..m]))| && |Answers(out, m)| <= |c.net.wire|
  }

  /** The bytes read in a run. */
  function Input(es: seq<Event>): string {
    if es == [] then ""
    else Input(es[..|es| - 1]) + (if es[|es| - 1].Readable? then es[|es| - 1].chunk else "")
  }

  /** Writes succeed, and every read delivers, in non-empty pieces cut anywhere, the next bytes
      of what the server sent. */
  ghost predicate Orderly(react: React, c: Client, es: seq<Event>, out: seq<Sent>)
    requires c.parser.Valid()
    decreases |es|
  {
    es == [] ||
    (var last := |es| - 1;
     var before := es[..last];
     && Orderly(react, c, before, out)
     && (match es[last]
         case WriteDone(ec) => ec == NoError
         case ReadError(_) => false
         case Readable(chunk) =>
           && chunk != ""
           && Input(es) <= EncodeAll(Replies(out))
           && Causal(Exec(react, c, before), out, |Input(es)|)
         case _ => true))
  }

  /** The first |vs| requests, each with the handler it was issued with and its value. */
  function Paired(issued: seq<Request>, vs: seq<RedisValue>): (r: seq<(Callback, RedisValue)>)
    requires |vs| <= |issued|
    ensures |r| == |vs|
  {
    seq(|vs|, i requires 0 <= i < |vs| => (issued[i].handler, vs[i]))
  }

  /** Nothing was reported about a message. */
  ghost predicate NoMessageErrors(errors: seq<Diagnostic>) {
    forall e :: e in errors ==> e == InvalidState
  }

  /** The log only grows, and subscribed mode is never left. */
  ghost predicate Grows(c: Client, r: Client) {
    && c.log.issued <= r.log.issued
    && (c.state == Subscribed ==> r.state == Subscribed && r.log.answeredBefore == c.log.answeredBefore)
  }

  /** What calls of the interface leave alone, and what they remember. */
  ghost predicate OnlyCalls(c: Client, r: Client) {
    && Grows(c, r) && r.log.called == c.log.called && r.log.writeFailed == c.log.writeFailed
    && r.log.postings == c.log.postings && (NoMessageErrors(c.log.errors) ==> NoMessageErrors(r.log.errors))
    && (if r.state == c.state then r.log.answeredBefore == c.log.answeredBefore
        else c.state == Connected && r.state == Subscribed && r.log.answeredBefore == |c.log.called|)
  }

  /** Every answer since the first subscription looks like an acknowledgement. */
  ghost predicate Acknowledged(c: Client, vs: seq<RedisValue>) {
    c.state == Subscribed ==> forall k :: c.log.answeredBefore <= k < |vs| ==> IsAck(vs[k])
  }

  /** No answer since the first subscription looks like a pushed message. */
  ghost predicate Unmistaken(c: Client, vs: seq<RedisValue>) {
    c.state == Subscribed ==> forall k :: c.log.answeredBefore <= k < |vs| ==> !IsPush(vs[k])
  }

  lemma {:induction false} PerformAllEffects(c: Client, calls: seq<Call>)
    ensures OnlyCalls(c, PerformAll(c, calls))
    decreases |calls|
  {
    hide Perform;
    if calls != [] {
      PerformEffects(c, calls[0]);
      PerformAllEffects(Perform(c, calls[0]), calls[1..]);
    }
  }

  lemma PerformEffects(c: Client, call: Call)
    ensures OnlyCalls(c, Perform(c, call))
  {
    hide Commands.Wire, Without;
    match call
    case Execute(_, _, _) =>
    case Subscribe(_, _, _, _) =>
    case SingleShot(_, _, _, _) =>
    case Unsubscribe(_, _, _, _) =>
  }

  lemma ProcessGrows(react: React, c: Client, v: RedisValue)
    ensures Grows(c, Process(react, c, v))
  {
    hide Answer, PerformAll;
    if c.handlers != [] {
      AnswerIsTaking(react, c, v);
      PerformAllEffects(Taking(c, v), react(c.handlers[0], v));
    }
  }

  lemma {:induction false} ProcessAllGrows(react: React, c: Client, vs: seq<RedisValue>)
    ensures Grows(c, ProcessAll(react, c, vs))
    decreases |vs|
  {
    hide Process;
    if vs != [] {
      ProcessGrows(react, c, vs[0]);
      ProcessAllGrows(react, Process(react, c, vs[0]), vs[1..]);
    }
  }

  /** What is known of a client that was given the first `w` things: their answers have gone to
      the handlers of their own requests exactly when those since the first subscription were
      acknowledgements, and exactly the messages pushed among them have been posted unless one
      of those answers looked like a message. */
  ghost predicate Matched(c: Client, out: seq<Sent>, w: nat)
    requires w <= |out|
  {
    var vs := Answers(out, w);
    && c.log.answeredBefore <= |vs| <= |c.log.issued|
    && (Acknowledged(c, vs) <==> c.log.called == Paired(c.log.issued, vs))
    && (Acknowledged(c, vs) ==> NoMessageErrors(c.log.errors))
    && (Unmistaken(c, vs) ==> PushesOf(c.log.postings) == Pushes(out, w))
    && |c.log.postings| >= |Pushes(out, w)|
    && (!Unmistaken(c, vs) ==> |c.log.postings| > |Pushes(out, w)|)
  }

  /** The next thing the server sent is handled as what it is: an answer goes to the handler of
      its own request unless it is lost as Matched says, a pushed message to none. */
  lemma ProcessMatches(react: React, c: Client, out: seq<Sent>, w: nat, all: seq<Request>)
    requires Tables(c) && w < |out| && Matched(c, out, w) && Served(out, all)
    requires |Answers(out, w + 1)| <= Executed(c) && c.log.issued <= all
    ensures var r := Process(react, c, Meaning(out[w].r));
            Matched(r, out, w + 1) && Executed(r) == Executed(c) && r.log.writeFailed == c.log.writeFailed
  {
    hide Process, Tables, IsAck, IsPush, Meaning, Served, Executed, Matched;
    var v := Meaning(out[w].r);
    ProcessKeeps(react, c, v);
    ProcessEffects(react, c, v);
    ExecutedStays(c, Process(react, c, v));
    ExecutedBounds(c);
    if out[w].Pushing? {
      NextSent(out, w, all);
      var j :| 0 <= j < |Answers(out, w)| && j < |all| && all[j].kind == Subscribing;
      assert c.log.issued[j] == all[j] by { AnswersGrow(out, w, w + 1); }
      SubscribedBy(c, j);
      PushMatches(react, c, out, w);
    } else if c.state == Connected {
      ConnectedAnswer(react, c, out, w);
    } else {
      StateIsReady(c);
      SubscribedAnswer(react, c, out, w);
    }
  }

  /** How many reply handlers have been called or wait does not depend on the value. */
  lemma ProcessEffects(react: React, c: Client, v: RedisValue)
    ensures var r := Process(react, c, v);
            && Grows(c, r) && r.log.writeFailed == c.log.writeFailed
            && |r.log.called| + |r.handlers| == |c.log.called| + |c.handlers|
  {
    hide Answer, PerformAll;
    if c.handlers != [] {
      AnswerIsTaking(react, c, v);
      PerformAllEffects(Taking(c, v), react(c.handlers[0], v));
    }
  }

  lemma ExecutedBounds(c: Client)
    requires Tables(c)
    ensures Executed(c) == |c.log.called| + |c.handlers| <= |c.log.issued|
  {
  }

  lemma StateIsReady(c: Client)
    requires Tables(c)
    ensures c.state in {Connected, Subscribed}
  {
  }

  /** Values that have all gone to their handlers were acknowledgements since the first
      subscription, and an acknowledgement is no message. */
  lemma MatchedAnswersAreAcks(c: Client, vs: seq<RedisValue>)
    requires Tables(c) && |vs| <= |c.log.issued| && c.log.called == Paired(c.log.issued, vs)
    ensures Acknowledged(c, vs) && Unmistaken(c, vs) && c.log.answeredBefore <= |vs|
  {
    hide Fifo, DoubleBuffer, Handles, Messages;
    forall k | c.state == Subscribed && c.log.answeredBefore <= k < |vs|
      ensures IsAck(vs[k]) && !IsPush(vs[k])
    {
      assert c.log.called[k].1 == vs[k];
    }
  }

  /** An answer in connected mode. */
  lemma ConnectedAnswer(react: React, c: Client, out: seq<Sent>, w: nat)
    requires c.state == Connected && w < |out| && Matched(c, out, w) && out[w].Answering?
    requires Tables(c) && Tables(Process(react, c, Meaning(out[w].r))) && |Answers(out, w)| < Executed(c)
    ensures Matched(Process(react, c, Meaning(out[w].r)), out, w + 1)
  {
    hide Process, Tables, IsAck, IsPush, Meaning, Executed;
    var v := Meaning(out[w].r);
    OldestWaiting(c);
    AnswerMatches(react, c, v);
    var r := Process(react, c, v);
    OneMorePaired(c, r, out, w);
    MatchedAnswersAreAcks(r, Answers(out, w + 1));
    assert Pushes(out, w + 1) == Pushes(out, w);
  }

  /** An answer in subscribed mode. */
  lemma SubscribedAnswer(react: React, c: Client, out: seq<Sent>, w: nat)
    requires c.state == Subscribed && w < |out| && Matched(c, out, w) && out[w].Answering?
    requires Tables(c) && Tables(Process(react, c, Meaning(out[w].r))) && |Answers(out, w)| < Executed(c)
    ensures Matched(Process(react, c, Meaning(out[w].r)), out, w + 1)
  {
    hide Process, Tables, IsAck, IsPush, Meaning, Executed;
    var v, vs := Meaning(out[w].r), Answers(out, w);
    var r, vs' := Process(react, c, v), Answers(out, w + 1);
    assert vs' == vs + [v] && Pushes(out, w + 1) == Pushes(out, w);
    ProcessEffects(react, c, v);
    ExecutedBounds(c);
    OneMoreValue(c, r, vs, v);
    SubscribedPostings(react, c, v);
    if Acknowledged(c, vs) && IsAck(v) {
      OldestWaiting(c);
      AnswerMatches(react, c, v);
      OneMorePaired(c, r, out, w);
    } else if r.log.called == Paired(r.log.issued, vs') {
      MatchedAnswersAreAcks(r, vs');
    }
  }

  lemma OneMoreValue(c: Client, r: Client, vs: seq<RedisValue>, v: RedisValue)
    requires c.state == r.state == Subscribed && c.log.answeredBefore == r.log.answeredBefore <= |vs|
    ensures Acknowledged(r, vs + [v]) <==> Acknowledged(c, vs) && IsAck(v)
    ensures Unmistaken(r, vs + [v]) <==> Unmistaken(c, vs) && !IsPush(v)
  {
    hide IsAck, IsPush;
    var vs' := vs + [v];
    assert vs'[|vs|] == v && forall k :: 0 <= k < |vs| ==> vs'[k] == vs[k];
  }

  /** In subscribed mode exactly the values that look like messages are posted. */
  lemma SubscribedPostings(react: React, c: Client, v: RedisValue)
    requires c.state == Subscribed
    ensures var r := Process(react, c, v).log.postings;
            if IsPush(v) then |r| == |c.log.postings| + 1 else r == c.log.postings
  {
    hide Answer, PerformAll;
    if c.handlers != [] {
      AnswerIsTaking(react, c, v);
      PerformAllEffects(Taking(c, v), react(c.handlers[0], v));
    }
  }

  lemma SubscribedBy(c: Client, j: nat)
    requires Tables(c) && j < |c.log.issued| && c.log.issued[j].kind == Subscribing
    ensures c.state == Subscribed
  {
  }

  /** A client that has executed more requests than were answered has a handler waiting, that of
      the next request. */
  lemma OldestWaiting(c: Client)
    requires Tables(c) && |c.log.called| < Executed(c)
    ensures c.handlers != [] && |c.log.called| < |c.log.issued|
    ensures c.handlers[0] == c.log.issued[|c.log.called|].handler
  {
  }

  lemma ExecutedStays(c: Client, r: Client)
    requires Tables(c) && Tables(r) && |r.log.called| + |r.handlers| == |c.log.called| + |c.handlers|
    ensures Executed(r) == Executed(c)
  {
  }

  lemma OneMorePaired(c: Client, r: Client, out: seq<Sent>, w: nat)
    requires w < |out| && out[w].Answering? && c.handlers != []
    requires |Answers(out, w)| <= |c.log.issued| && c.log.called == Paired(c.log.issued, Answers(out, w))
    requires |c.log.called| < |c.log.issued| && c.handlers[0] == c.log.issued[|c.log.called|].handler
    requires c.log.issued <= r.log.issued
    requires r.log.called == c.log.called + [(c.handlers[0], Meaning(out[w].r))]
    ensures |Answers(out, w + 1)| <= |r.log.issued| && r.log.called == Paired(r.log.issued, Answers(out, w + 1))
  {
    hide Meaning;
    var vs := Answers(out, w + 1);
    assert Paired(r.log.issued, vs) == Paired(c.log.issued, Answers(out, w)) + [(c.handlers[0], Meaning(out[w].r))];
  }

  lemma NextSent(out: seq<Sent>, w: nat, all: seq<Request>)
    requires Served(out, all) && w < |out| && out[w].Pushing?
    ensures IsPush(Meaning(out[w].r))
    ensures exists j :: 0 <= j < |Answers(out, w)| && j < |all| && all[j].kind == Subscribing
  {
  }

  /** A pushed message is posted and touches nothing else of the matching. */
  lemma PushMatches(react: React, c: Client, out: seq<Sent>, w: nat)
    requires w < |out| && Matched(c, out, w) && out[w].Pushing? && IsPush(Meaning(out[w].r)) && c.state == Subscribed
    ensures Matched(Process(react, c, Meaning(out[w].r)), out, w + 1)
  {
    hide Meaning, Process, Under, Notices, IsPush, PushKey, PushPayload;
    var v := Meaning(out[w].r);
    PushIsDispatched(react, c, v);
    var r, push := Process(react, c, v), PushOf(v);
    assert Pushes(out, w + 1) == Pushes(out, w) + [push];
    assert r.log.postings == c.log.postings + [r.log.postings[|c.log.postings|]];
    assert PushesOf(r.log.postings) == PushesOf(c.log.postings) + [push];
    assert Answers(out, w + 1) == Answers(out, w);
    hide IsAck, Answers, Pushes;
    assert Acknowledged(r, Answers(out, w)) <==> Acknowledged(c, Answers(out, w));
    assert Unmistaken(r, Answers(out, w)) <==> Unmistaken(c, Answers(out, w));
  }

  lemma AnswerMatches(react: React, c: Client, v: RedisValue)
    requires c.handlers != [] && (c.state == Subscribed ==> IsAck(v))
    ensures var r := Process(react, c, v);
            && r.log.called == c.log.called + [(c.handlers[0], v)] && r.handlers == c.handlers[1..]
            && Grows(c, r) && r.log.writeFailed == c.log.writeFailed && r.log.postings == c.log.postings
            && (NoMessageErrors(c.log.errors) ==> NoMessageErrors(r.log.errors))
  {
    hide PerformAll;
    AnswerIsTaking(react, c, v);
    PerformAllEffects(Taking(c, v), react(c.handlers[0], v));
  }

  /** A whole piece of the stream. */
  lemma {:induction false} SegmentMatches(react: React, c: Client, out: seq<Sent>, w: nat, w': nat, all: seq<Request>)
    requires w <= w' <= |out| && Tables(c) && Matched(c, out, w) && Served(out, all)
    requires |Answers(out, w')| <= Executed(c)
    requires ProcessAll(react, c, Meanings(Replies(out)[w..w'])).log.issued <= all
    ensures var r := ProcessAll(react, c, Meanings(Replies(out)[w..w']));
            Matched(r, out, w') && r.log.writeFailed == c.log.writeFailed
    decreases w' - w
  {
    hide Tables, Process, Matched, Served, Meaning, Answers;
    var rs := Replies(out)[w..w'];
    if w < w' {
      var v := Meaning(out[w].r);
      var c1 := Process(react, c, v);
      assert rs[1..] == Replies(out)[w + 1..w'];
      assert Meanings(rs) == [v] + Meanings(rs[1..]);
      ProcessGrows(react, c, v);
      ProcessAllGrows(react, c1, Meanings(rs[1..]));
      AnswersGrow(out, w + 1, w');
      ProcessMatches(react, c, out, w, all);
      ProcessKeeps(react, c, v);
      SegmentMatches(react, c1, out, w + 1, w', all);
    }
  }

  // ---- Whole runs ----

  lemma JustConnectedInv(c: Client)
    requires JustConnected(c)
    ensures Inv(c)
  {
    hide Fifo, DoubleBuffer, Modes, Handles, Messages;
    JustConnectedQueues(c);
    JustConnectedTables(c);
  }

  lemma JustConnectedQueues(c: Client)
    requires JustConnected(c)
    ensures Fifo(c) && DoubleBuffer(c)
  {
    assert Sends(c.strand) == [] && c.log.issued == [];
    assert Executed(c) == 0 && Fifo(c);
    hide Fifo, Executed, Sends;
    assert c.net.wire + c.dataQueued == [] && Buffers([]) == [];
  }

  lemma JustConnectedTables(c: Client)
    requires JustConnected(c)
    ensures Modes(c) && Handles(c) && Messages(c)
  {
  }

  /** Events that are not reads leave the matching alone. */
  lemma OtherEvents(react: React, c: Client, e: Event)
    requires c.parser.Valid() && !e.Readable? && !e.ReadError? && (e.WriteDone? ==> e.ec == NoError)
    ensures var r := Occur(react, c, e);
            OnlyCalls(c, r) && r.parser == c.parser && r.log.readStopped == c.log.readStopped
  {
    hide Perform;
    if e.User? {
      PerformEffects(c, e.call);
      PerformKeepsReads(c, e.call);
    }
  }

  lemma OccurGrows(react: React, c: Client, e: Event)
    requires c.parser.Valid()
    ensures Grows(c, Occur(react, c, e))
  {
    hide ProcessAll, Drain, Perform;
    if e.User? {
      PerformEffects(c, e.call);
    } else if e.Readable? && c.net.pendingReads > 0 {
      var c1 := c.(net := c.net.(pendingReads := c.net.pendingReads - 1), parser := Drain(c.parser, e.chunk).p);
      ProcessAllGrows(react, c1, Drain(c.parser, e.chunk).values);
    }
  }

  /** What holds between events: the values read so far are exactly those of the complete
      replies, and they have gone where Matched says. */
  ghost predicate InStep(c0: Client, c: Client, out: seq<Sent>, n: nat)
    requires c0.parser.Valid()
  {
    && Inv(c) && !c.log.writeFailed && !c.log.readStopped
    && n <= |EncodeAll(Replies(out))|
    && Matched(c, out, Whole(Replies(out), n))
    && Drain(c0.parser, EncodeAll(Replies(out))[..n]).p == c.parser
  }

  /** A server that answers no more than it was handed cannot outrun the waiting handlers. */
  lemma EnoughExecuted(c: Client, out: seq<Sent>, n: nat)
    requires Tables(c) && Causal(c, out, n)
    ensures |Answers(out, Whole(Replies(out), n))| <= Executed(c)
  {
    hide Answers, Encode, EncodeAll, Whole, Modes, Handles, Messages;
    var m :| 0 <= m <= |out| && n <= |EncodeAll(Replies(out[..m]))| && |Answers(out, m)| <= |c.net.wire|;
    var rs, first := Replies(out), Replies(out[..m]);
    assert rs == first + rs[m..];
    WholeIgnoresLater(first, rs[m..], n);
    AnswersGrow(out, Whole(rs, n), m);
  }

  lemma PieceValues(rs: seq<Reply>, w: nat, w': nat, vs: seq<RedisValue>)
    requires w <= w' <= |rs| && Meanings(rs[..w]) + vs == Meanings(rs[..w'])
    ensures vs == Meanings(rs[w..w'])
  {
    var all := Meanings(rs[..w']);
    assert |vs| == w' - w;
    assert forall i :: 0 <= i < |vs| ==> vs[i] == all[w + i];
  }

  /** Calls made between two replies change nothing about what has been matched. */
  lemma MatchedFrame(c: Client, r: Client, out: seq<Sent>, w: nat)
    requires w <= |out| && Matched(c, out, w) && OnlyCalls(c, r) && Tables(r)
    ensures Matched(r, out, w)
  {
    hide Tables, IsAck, IsPush, Pushes;
    var vs := Answers(out, w);
    assert Paired(r.log.issued, vs) == Paired(c.log.issued, vs);
    if c.state == Connected {
      MatchedAnswersAreAcks(r, vs);
    } else {
      assert Acknowledged(r, vs) <==> Acknowledged(c, vs);
      assert Unmistaken(r, vs) <==> Unmistaken(c, vs);
    }
  }

  /** The values a piece completes are those of the replies it completes. */
  lemma PieceOfStream(p: Parser, q: Parser, rs: seq<Reply>, s: string, n: nat, n': nat)
    requires p.Idle() && AllSendable(rs) && s == EncodeAll(rs) && n <= n' <= |s|
    requires q.Valid() && q == Drain(p, s[..n]).p
    ensures Whole(rs, n) <= Whole(rs, n')
    ensures var r := Drain(q, s[n..n']);
            && r.values == Meanings(rs[Whole(rs, n)..Whole(rs, n')])
            && r.outcome == Incompleted && r.p == Drain(p, s[..n']).p
  {
    hide Drain, Encode, EncodeAll, AllSendable, Whole;
    assert s[..n'] == s[..n] + s[n..n'];
    DrainReplies(p, rs, n);
    DrainReplies(p, rs, n');
    DrainJoins(p, s[..n], s[n..n']);
    WholeGrows(rs, n, n');
    PieceValues(rs, Whole(rs, n), Whole(rs, n'), Drain(q, s[n..n']).values);
  }

  /** A piece of the stream keeps the client in step. */
  lemma ReadableInStep(react: React, c0: Client, c: Client, out: seq<Sent>, n: nat, chunk: string, all: seq<Request>)
    requires c0.parser.Idle() && InStep(c0, c, out, n) && AllSendable(Replies(out)) && Served(out, all)
    requires chunk != "" && EncodeAll(Replies(out))[..n] + chunk <= EncodeAll(Replies(out))
    requires Causal(c, out, n + |chunk|)
    requires Occur(react, c, Readable(chunk)).log.issued <= all
    ensures InStep(c0, Occur(react, c, Readable(chunk)), out, n + |chunk|)
  {
    hide Tables, Matched, Served, ProcessAll, Drain, EncodeAll, Answers, AllSendable, Whole, Causal;
    var rs, n' := Replies(out), n + |chunk|;
    assert EncodeAll(rs)[n..n'] == chunk;
    PieceOfStream(c0.parser, c.parser, rs, EncodeAll(rs), n, n');
    EnoughExecuted(c, out, n');
    var c1 := c.(net := c.net.(pendingReads := 0), parser := Drain(c.parser, chunk).p);
    ReadFrame(c, c1);
    MatchedKept(c, c1, out, Whole(rs, n));
    SegmentMatches(react, c1, out, Whole(rs, n), Whole(rs, n'), all);
    ProcessAllKeepsReads(react, c1, Drain(c.parser, chunk).values);
    OccurKeeps(react, c, Readable(chunk));
    var c2 := ProcessAll(react, c1, Drain(c.parser, chunk).values);
    MatchedKept(c2, Occur(react, c, Readable(chunk)), out, Whole(rs, n'));
  }

  lemma MatchedKept(c: Client, r: Client, out: seq<Sent>, w: nat)
    requires w <= |out| && Matched(c, out, w) && r.log == c.log && r.state == c.state
    ensures Matched(r, out, w)
  {
    hide Answers, Pushes, IsAck, IsPush;
    var vs := Answers(out, w);
    assert Acknowledged(r, vs) <==> Acknowledged(c, vs);
    assert Unmistaken(r, vs) <==> Unmistaken(c, vs);
  }

  /** Every orderly run stays in step. */
  lemma {:induction false} RunInStep(react: React, c0: Client, es: seq<Event>, out: seq<Sent>, all: seq<Request>)
    requires JustConnected(c0) && AllSendable(Replies(out)) && Served(out, all)
    requires Orderly(react, c0, es, out)
    requires Exec(react, c0, es).log.issued <= all
    ensures InStep(c0, Exec(react, c0, es), out, |Input(es)|)
    ensures EncodeAll(Replies(out))[..|Input(es)|] == Input(es)
    decreases |es|
  {
    hide Tables, Matched, Served, Occur, Drain, Encode, EncodeAll, Answers, Causal;
    if es == [] {
      JustConnectedInv(c0);
      StartInStep(c0, out);
    } else {
      var last := |es| - 1;
      var before, e := es[..last], es[last];
      var c := Exec(react, c0, before);
      OccurGrows(react, c, e);
      RunInStep(react, c0, before, out, all);
      var n := |Input(before)|;
      if e.Readable? {
        assert Input(es) == Input(before) + e.chunk;
        ReadableInStep(react, c0, c, out, n, e.chunk, all);
      } else {
        assert Input(es) == Input(before);
        OtherInStep(react, c0, c, e, out, n);
      }
    }
  }

  lemma OtherInStep(react: React, c0: Client, c: Client, e: Event, out: seq<Sent>, n: nat)
    requires c0.parser.Valid() && InStep(c0, c, out, n)
    requires !e.Readable? && !e.ReadError? && (e.WriteDone? ==> e.ec == NoError)
    ensures InStep(c0, Occur(react, c, e), out, n)
  {
    hide Tables, Matched, Occur, Drain, EncodeAll, Answers;
    var r := Occur(react, c, e);
    OtherEvents(react, c, e);
    OccurKeeps(react, c, e);
    MatchedFrame(c, r, out, Whole(Replies(out), n));
  }

  lemma StartInStep(c0: Client, out: seq<Sent>)
    requires JustConnected(c0)
    ensures InStep(c0, c0, out, 0)
  {
    hide EncodeAll, Encode, Drain, Inv;
    JustConnectedInv(c0);
    assert EncodeAll(Replies(out))[..0] == "";
    DrainNothing(c0.parser);
    assert Whole(Replies(out), 0) == 0;
  }
}

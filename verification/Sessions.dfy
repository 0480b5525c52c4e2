/** Successive synchronous commands over one connection: which reply each of them returns. */
module Sessions {
  import opened Resp
  import opened ParserModel
  import opened RoundTrip
  import opened Sockets
  import opened Streams

  /** What decides the replies to come: the parser, the bytes pending before the stream ends, and
      how it ends. */
  datatype Session = Session(p: Parser, pending: string, end: End)

  /** What a command returns: a value, or nil and an error code. */
  datatype Received = Got(v: RedisValue) | NoValue(ec: ErrorCode)

  function Opened(p: Parser, buffered: string, events: seq<RecvEvent>): Session {
    Session(p, buffered + Stream(events), Ending(events))
  }

  /** One command that was sent completely, with a clear error code before it. A malformed reply
      is returned as nil. */
  function AfterCommand(s: Session): (r: (Session, Received))
    requires s.p.Valid()
    ensures r.0.p.Valid()
  {
    var f := First(s.p, s.pending);
    if f.outcome == Completed then
      (Session(Taken(f.p), s.pending[f.consumed..], s.end), Got(f.p.d.redisValue))
    else if f.outcome == Error then
      (Session(f.p, s.pending[f.consumed..], s.end), Got(Nil))
    else
      (Opened(f.p, "", s.end.later), NoValue(s.end.ec))
  }

  /** `n` commands, each with a clear error code, whatever became of those before it. */
  function Results(s: Session, n: nat): (r: seq<Received>)
    requires s.p.Valid()
    ensures |r| == n
    decreases n
  {
    if n == 0 then [] else [AfterCommand(s).1] + Results(AfterCommand(s).0, n - 1)
  }

  function Successes(got: seq<Received>): (n: nat)
    ensures n <= |got|
    ensures n == |got| <==> forall i :: 0 <= i < |got| ==> got[i].Got?
  {
    if got == [] then 0 else (if got[0].Got? then 1 else 0) + Successes(got[1..])
  }

  /** Every byte that ever arrives, whatever fails in between. */
  function Bytes(events: seq<RecvEvent>): string {
    if events == [] then ""
    else (if events[0].Arrived? then events[0].data else "") + Bytes(events[1..])
  }

  lemma {:induction false} BytesSplit(events: seq<RecvEvent>)
    ensures Bytes(events) == Stream(events) + Bytes(Ending(events).later)
  {
    if events != [] {
      BytesSplit(events[1..]);
    }
  }

  /** `rs` are the replies not returned yet; `pre` is what has been parsed of the first one since
      the parser was the idle `p0`. */
  ghost predicate Stage(s: Session, p0: Parser, pre: string, rs: seq<Reply>) {
    && s.p.Valid() && p0.Idle() && First(p0, pre) == Parsed(|pre|, Incompleted, s.p)
    && pre + s.pending + Bytes(s.end.later) == EncodeAll(rs)
  }

  lemma OpenedStage(p: Parser, p0: Parser, pre: string, events: seq<RecvEvent>, rs: seq<Reply>)
    requires p.Valid() && p0.Idle() && First(p0, pre) == Parsed(|pre|, Incompleted, p)
    requires pre + Bytes(events) == EncodeAll(rs)
    ensures Stage(Opened(p, "", events), p0, pre, rs)
  {
    hide First, EncodeAll, Stream, Ending, Bytes;
    BytesSplit(events);
    assert pre + (Stream(events) + Bytes(Ending(events).later)) == pre + Stream(events) + Bytes(Ending(events).later);
    assert "" + Stream(events) == Stream(events);
  }

  /** One command returns the next reply, or it fails and the next reply is still to come. */
  lemma OneCommand(s: Session, p0: Parser, pre: string, rs: seq<Reply>) returns (p0': Parser, pre': string)
    requires Stage(s, p0, pre, rs) && AllSendable(rs)
    ensures var (s', r) := AfterCommand(s);
            if r.Got? then rs != [] && r.v == Meaning(rs[0]) && Stage(s', p0', pre', rs[1..])
            else Stage(s', p0', pre', rs)
  {
    hide First, EncodeAll, Encode, Meaning, Parse, AllSendable;
    var f, later := First(s.p, s.pending), Bytes(s.end.later);
    NothingFirst(s.p);
    if s.pending == "" {
      p0', pre' := p0, pre;
      assert pre + "" + later == pre + later;
      OpenedStage(f.p, p0, pre, s.end.later, rs);
    } else {
      FirstIsParse(s.p, s.pending);
      FirstJoins(p0, pre, s.pending, later);
      if f.outcome == Incompleted {
        p0', pre' := p0, pre + s.pending;
        OpenedStage(f.p, p0, pre', s.end.later, rs);
      } else {
        p0' := ReplyCompletes(s, p0, pre, rs);
        pre' := "";
      }
    }
  }

  /** The parser has read the next reply to its end. */
  lemma ReplyCompletes(s: Session, p0: Parser, pre: string, rs: seq<Reply>) returns (p0': Parser)
    requires Stage(s, p0, pre, rs) && AllSendable(rs) && s.pending != ""
    requires var f := First(s.p, s.pending);
             f.outcome != Incompleted && First(p0, pre + s.pending + Bytes(s.end.later)) == f.After(|pre|)
    ensures AfterCommand(s).1.Got? && rs != [] && AfterCommand(s).1.v == Meaning(rs[0])
    ensures Stage(AfterCommand(s).0, p0', "", rs[1..])
  {
    hide First, Encode, Meaning, Parse, AllSendable, Bytes;
    var f, later := First(s.p, s.pending), Bytes(s.end.later);
    var whole := pre + s.pending + later;
    assert rs != [] by {
      assert whole != "";
    }
    AllSendableParts(rs);
    assert whole == Encode(rs[0]) + EncodeAll(rs[1..]);
    ReplyRoundTrip(p0, rs[0], EncodeAll(rs[1..]));
    FirstIsParse(p0, whole);
    assert f.outcome == Completed;
    p0' := Taken(f.p);
    NothingFirst(p0');
    Remaining(pre, s.pending, later, f.consumed, Encode(rs[0]), EncodeAll(rs[1..]));
    assert "" + s.pending[f.consumed..] + later == s.pending[f.consumed..] + later;
  }

  lemma Remaining(pre: string, pending: string, later: string, k: nat, first: string, others: string)
    requires pre + pending + later == first + others && k <= |pending| && |first| == |pre| + k
    ensures pending[k..] + later == others
  {
    assert others == (first + others)[|first|..];
    assert (pre + pending + later)[|pre| + k..] == pending[k..] + later;
  }

  lemma AllSendableParts(rs: seq<Reply>)
    requires AllSendable(rs) && rs != []
    ensures Sendable(rs[0]) && AllSendable(rs[1..])
  {
  }

  lemma FirstIsParse(p: Parser, s: string)
    requires p.Valid() && s != ""
    ensures First(p, s) == Parse(p, s)
  {
    hide Parse;
  }

  lemma NothingFirst(p: Parser)
    requires p.Valid()
    ensures First(p, "") == Parsed(0, Incompleted, p)
  {
  }

  /** Every value is that of the reply behind those returned before it. */
  ghost predicate InOrder(got: seq<Received>, rs: seq<Reply>) {
    forall k :: 0 <= k < |got| && got[k].Got? ==>
      var i := Successes(got[..k]); i < |rs| && got[k].v == Meaning(rs[i])
  }

  lemma NothingInOrder(rs: seq<Reply>)
    ensures InOrder([], rs)
  {
  }

  lemma InOrderStep(r: Received, rest: seq<Received>, rs: seq<Reply>, rs': seq<Reply>)
    requires InOrder(rest, rs')
    requires if r.Got? then rs != [] && r.v == Meaning(rs[0]) && rs' == rs[1..] else rs' == rs
    ensures InOrder([r] + rest, rs)
  {
    hide Meaning;
    var got := [r] + rest;
    forall k | 0 <= k < |got| && got[k].Got?
      ensures var i := Successes(got[..k]); i < |rs| && got[k].v == Meaning(rs[i])
    {
      if k > 0 {
        assert rest[k - 1] == got[k];
        assert got[..k] == [r] + rest[..k - 1] && got[..k][1..] == rest[..k - 1];
      }
    }
  }

  lemma {:induction false} ResultsInStage(s: Session, p0: Parser, pre: string, rs: seq<Reply>, n: nat)
    requires Stage(s, p0, pre, rs) && AllSendable(rs)
    ensures InOrder(Results(s, n), rs)
    decreases n
  {
    hide AfterCommand, Stage, Meaning, AllSendable, EncodeAll, InOrder;
    StageIsValid(s, p0, pre, rs);
    if n == 0 {
      NothingInOrder(rs);
    } else {
      var p0', pre' := OneCommand(s, p0, pre, rs);
      var (s', r) := AfterCommand(s);
      var rs' := if r.Got? then rs[1..] else rs;
      assert AllSendable(rs') by { AllSendableRest(rs, rs'); }
      StageIsValid(s', p0', pre', rs');
      ResultsInStage(s', p0', pre', rs', n - 1);
      InOrderStep(r, Results(s', n - 1), rs, rs');
    }
  }

  lemma StageIsValid(s: Session, p0: Parser, pre: string, rs: seq<Reply>)
    requires Stage(s, p0, pre, rs)
    ensures s.p.Valid()
  {
  }

  lemma AllSendableRest(rs: seq<Reply>, rs': seq<Reply>)
    requires AllSendable(rs) && (rs' == rs || (rs != [] && rs' == rs[1..]))
    ensures AllSendable(rs')
  {
  }

  /** The server answers in order and its bytes arrive in any pieces, with timeouts and failures
      anywhere, within a reply or between two. A command that returns a value returns the reply
      behind those returned before it. So the k-th command returns the k-th reply if and only
      if none before it ended in an error; after each that did, all replies are late by one. */
  lemma RepliesLagBehindErrors(p: Parser, events: seq<RecvEvent>, rs: seq<Reply>, n: nat, k: nat)
    requires p.Idle() && AllSendable(rs) && Bytes(events) == EncodeAll(rs) && k < n
    ensures var got := Results(Opened(p, "", events), n);
            var i := Successes(got[..k]);
            && (got[k].Got? ==> i < |rs| && got[k].v == Meaning(rs[i]))
            && (i == k <==> forall j :: 0 <= j < k ==> got[j].Got?)
  {
    hide First, EncodeAll, Stage, Results, Meaning, AllSendable;
    NothingFirst(p);
    assert "" + Bytes(events) == Bytes(events);
    OpenedStage(p, p, "", events, rs);
    ResultsInStage(Opened(p, "", events), p, "", rs, n);
    var got := Results(Opened(p, "", events), n);
    assert forall j :: 0 <= j < k ==> got[..k][j] == got[j];
  }

  /** For instance, after a first command that timed out, the second one returns its reply. */
  lemma LateReply(p: Parser, r: Reply)
    requires p.Idle() && Sendable(r)
    ensures Results(Opened(p, "", [Arrived(""), Arrived(Encode(r))]), 2) == [NoValue(Eof), Got(Meaning(r))]
  {
    hide First, Encode, Meaning, Parse;
    var s := Opened(p, "", [Arrived(""), Arrived(Encode(r))]);
    NothingFirst(p);
    assert [Arrived(""), Arrived(Encode(r))][1..] == [Arrived(Encode(r))];
    assert s == Session(p, "", End(Eof, [Arrived(Encode(r))]));
    var s' := AfterCommand(s).0;
    assert [Arrived(Encode(r))][1..] == [];
    assert Stream([Arrived(Encode(r))]) == Encode(r) + "";
    assert s'.p == p && s'.pending == Encode(r) + "";
    ReplyRoundTrip(p, r, "");
    FirstIsParse(p, Encode(r) + "");
    assert Results(s, 2) == [AfterCommand(s).1] + ([AfterCommand(s').1] + []);
  }
}

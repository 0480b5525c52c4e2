/** What a read loop gets out of a byte stream that arrives in pieces. */
module Streams {
  import opened Resp
  import opened ParserModel
  import opened RoundTrip
  import Decoder

  /** The values completed in a piece of the stream, why the loop stopped (Incompleted: it
      waits for more bytes), and the parser then. */
  datatype Drained = Drained(values: seq<RedisValue>, outcome: Outcome, p: Parser)

  /** One piece of the stream; `parse` is never called with an empty range. */
  function Drain(p: Parser, s: string): (r: Drained)
    requires p.Valid()
    ensures r.p.Valid()
    ensures r.outcome != Completed
    decreases |s|
  {
    if s == "" then Drained([], Incompleted, p)
    else
      var r := Parse(p, s);
      if r.outcome == Completed then
        var rest := Drain(Taken(r.p), s[r.consumed..]);
        rest.(values := [r.p.d.redisValue] + rest.values)
      else Drained([], r.outcome, r.p)
  }

  function Joined(a: Drained, b: Drained): Drained {
    b.(values := a.values + b.values)
  }

  /** Two pieces give the values, the outcome and the parser of their concatenation. */
  lemma {:induction false} DrainJoins(p: Parser, a: string, b: string)
    requires p.Valid() && Drain(p, a).outcome == Incompleted
    ensures Drain(p, a + b) == Joined(Drain(p, a), Drain(Drain(p, a).p, b))
    decreases |a|
  {
    hide Parse, Drain;
    if a == "" {
      assert a + b == b;
      DrainNothing(p);
    } else {
      var r := Parse(p, a);
      DrainStep(p, a);
      if r.outcome == Completed {
        var q, rest := Taken(r.p), a[r.consumed..];
        ParseStops(p, a, b);
        DrainStep(p, a + b);
        assert (a + b)[r.consumed..] == rest + b;
        DrainJoins(q, rest, b);
        var v, x, y := r.p.d.redisValue, Drain(q, rest), Drain(Drain(q, rest).p, b);
        assert [v] + (x.values + y.values) == ([v] + x.values) + y.values;
      } else {
        DrainStraddling(p, a, b);
      }
    }
  }

  lemma DrainStep(p: Parser, s: string)
    requires p.Valid() && s != ""
    ensures var r := Parse(p, s);
            Drain(p, s) == if r.outcome != Completed then Drained([], r.outcome, r.p)
                           else Joined(Drained([r.p.d.redisValue], Incompleted, p), Drain(Taken(r.p), s[r.consumed..]))
  {
    hide Parse;
  }

  /** One more turn of the read loop, seen from all that was read. */
  lemma JoinedStep(whole: Drained, done: seq<RedisValue>, p0: Parser, p: Parser, s: string)
    requires p.Valid() && s != ""
    requires whole == Joined(Drained(done, Incompleted, p0), Drain(p, s))
    ensures var r := Parse(p, s);
            if r.outcome == Completed then
              whole == Joined(Drained(done + [r.p.d.redisValue], Incompleted, p0), Drain(Taken(r.p), s[r.consumed..]))
            else whole == Drained(done, r.outcome, r.p)
  {
    hide Drain, Parse;
    var r := Parse(p, s);
    DrainStep(p, s);
    if r.outcome == Completed {
      var v, rest := r.p.d.redisValue, Drain(Taken(r.p), s[r.consumed..]).values;
      assert done + ([v] + rest) == (done + [v]) + rest;
    } else {
      assert done + [] == done;
    }
  }

  lemma DrainNothing(p: Parser)
    requires p.Valid()
    ensures Drain(p, "") == Drained([], Incompleted, p)
  {
  }

  /** A value that begins in one piece and ends in the next. */
  lemma DrainStraddling(p: Parser, a: string, b: string)
    requires p.Valid() && a != "" && Parse(p, a).outcome == Incompleted
    ensures Drain(p, a + b) == Drain(Parse(p, a).p, b)
  {
    hide Parse;
    if b == "" {
      assert a + b == a;
    } else {
      ChunksJoin(p, a, b);
      var whole, rest := Parse(p, a + b), Parse(Parse(p, a).p, b);
      assert (a + b)[whole.consumed..] == b[rest.consumed..];
    }
  }

  /** The pieces one after another, as long as the loop asks for more. */
  function DrainAll(p: Parser, pieces: seq<string>): (r: Drained)
    requires p.Valid()
    ensures r.p.Valid()
    decreases |pieces|
  {
    if pieces == [] then Drained([], Incompleted, p)
    else
      var r := Drain(p, pieces[0]);
      if r.outcome != Incompleted then r else Joined(r, DrainAll(r.p, pieces[1..]))
  }

  /** A loop that stopped with an error stops there whatever follows. */
  lemma {:induction false} DrainStops(p: Parser, a: string, b: string)
    requires p.Valid() && Drain(p, a).outcome != Incompleted
    ensures Drain(p, a + b) == Drain(p, a)
    decreases |a|
  {
    hide Parse;
    var r := Parse(p, a);
    ParseStops(p, a, b);
    if r.outcome == Completed {
      assert (a + b)[r.consumed..] == a[r.consumed..] + b;
      DrainStops(Taken(r.p), a[r.consumed..], b);
    }
  }

  /** However a stream is cut, even into empty pieces, the read loop sees what it would see in
      one piece: the same values, the same outcome and the same parser. */
  lemma {:induction false} AnyPieces(p: Parser, pieces: seq<string>)
    requires p.Valid()
    ensures DrainAll(p, pieces) == Drain(p, Flatten(pieces))
    decreases |pieces|
  {
    hide Parse, Drain;
    if pieces == [] {
      DrainNothing(p);
    } else {
      var a, b := pieces[0], Flatten(pieces[1..]);
      if Drain(p, a).outcome != Incompleted {
        DrainStops(p, a, b);
      } else {
        DrainJoins(p, a, b);
        AnyPieces(Drain(p, a).p, pieces[1..]);
      }
    }
  }

  // ---- Streams of replies ----

  /** How many replies lie wholly within the first `n` bytes of the encoded list. */
  function Whole(rs: seq<Reply>, n: nat): (k: nat)
    ensures k <= |rs|
  {
    if rs == [] || n < |Encode(rs[0])| then 0 else 1 + Whole(rs[1..], n - |Encode(rs[0])|)
  }

  /** From the first `n` bytes of a stream of replies, for every `n`, the read loop gets
      exactly the values of the replies that are complete by then, in order. */
  lemma {:induction false} DrainReplies(p: Parser, rs: seq<Reply>, n: nat)
    requires p.Idle() && AllSendable(rs) && n <= |EncodeAll(rs)|
    ensures var r := Drain(p, EncodeAll(rs)[..n]);
            && r.values == Meanings(rs[..Whole(rs, n)]) && r.outcome == Incompleted
            && (n == |EncodeAll(rs)| ==> r.p.Idle())
    decreases |rs|
  {
    hide Parse, Encode, Meaning, Drain;
    var s := EncodeAll(rs)[..n];
    if n == 0 {
      assert s == "";
      DrainNothing(p);
      assert rs != [] ==> |Encode(rs[0])| > 0;
    } else {
      var first, others := Encode(rs[0]), EncodeAll(rs[1..]);
      var k := |first|;
      if n < k {
        assert s == first[..n];
        DrainStep(p, s);
        ReplyPrefixIncomplete(p, rs[0], n);
      } else {
        assert s == first + others[..n - k];
        var q := DrainFirstReply(p, rs[0], others[..n - k]);
        DrainReplies(q, rs[1..], n - k);
        MeaningsOfMore(rs, Whole(rs[1..], n - k));
      }
    }
  }

  /** One complete reply at the front of the stream. */
  lemma DrainFirstReply(p: Parser, r: Reply, rest: string) returns (q: Parser)
    requires p.Idle() && Sendable(r)
    ensures q.Idle()
    ensures Drain(p, Encode(r) + rest) == Joined(Drained([Meaning(r)], Incompleted, p), Drain(q, rest))
  {
    hide Parse, Encode, Meaning, Drain;
    var s := Encode(r) + rest;
    ReplyRoundTrip(p, r, rest);
    DrainStep(p, s);
    assert s[|Encode(r)|..] == rest;
    q := Taken(Parse(p, s).p);
  }

  lemma MeaningsOfMore(rs: seq<Reply>, w: nat)
    requires w < |rs|
    ensures Meanings(rs[..w + 1]) == [Meaning(rs[0])] + Meanings(rs[1..][..w])
  {
    hide Meaning;
    assert rs[..w + 1][1..] == rs[1..][..w];
  }

  /** Every list of replies, encoded back to back and cut into pieces anywhere, comes out of
      the read loop as exactly that list, and leaves the parser idle. */
  lemma RepliesThroughPieces(p: Parser, rs: seq<Reply>, pieces: seq<string>)
    requires p.Idle() && AllSendable(rs) && Flatten(pieces) == EncodeAll(rs)
    ensures var r := DrainAll(p, pieces);
            r.values == Meanings(rs) && r.outcome == Incompleted && r.p.Idle()
  {
    hide Parse, Encode, Drain;
    var n := |EncodeAll(rs)|;
    assert EncodeAll(rs)[..n] == EncodeAll(rs);
    DrainReplies(p, rs, n);
    WholeOfAll(rs);
    assert rs[..|rs|] == rs;
    AnyPieces(p, pieces);
  }

  lemma {:induction false} WholeOfAll(rs: seq<Reply>)
    ensures Whole(rs, |EncodeAll(rs)|) == |rs|
  {
    if rs != [] {
      WholeOfAll(rs[1..]);
    }
  }

  /** Replies behind the bytes read so far do not change what is complete. */
  lemma {:induction false} WholeIgnoresLater(rs: seq<Reply>, more: seq<Reply>, n: nat)
    requires n <= |EncodeAll(rs)|
    ensures Whole(rs + more, n) == Whole(rs, n)
    decreases |rs|
  {
    hide Encode;
    if rs == [] {
      assert rs + more == more;
      assert more != [] ==> |Encode(more[0])| > 0;
    } else {
      assert (rs + more)[1..] == rs[1..] + more;
      if n >= |Encode(rs[0])| {
        WholeIgnoresLater(rs[1..], more, n - |Encode(rs[0])|);
      }
    }
  }

  lemma {:induction false} WholeGrows(rs: seq<Reply>, n: nat, n': nat)
    requires n <= n'
    ensures Whole(rs, n) <= Whole(rs, n')
    decreases |rs|
  {
    hide Encode;
    if rs != [] && n >= |Encode(rs[0])| {
      WholeGrows(rs[1..], n - |Encode(rs[0])|, n' - |Encode(rs[0])|);
    }
  }

  // ---- One reply from a stream ----

  /** The first value of a stream, read as far as needed; nothing at all is "more needed". */
  function First(p: Parser, s: string): (r: Parsed)
    requires p.Valid()
    ensures r.p.Valid() && r.consumed <= |s|
  {
    if s == "" then Parsed(0, Incompleted, p) else Parse(p, s)
  }

  /** Reading on after `pre` did not complete a value. */
  lemma FirstJoins(p: Parser, pre: string, mid: string, later: string)
    requires p.Valid() && First(p, pre).outcome == Incompleted && mid != ""
    ensures var f := Parse(First(p, pre).p, mid);
            if f.outcome == Incompleted then First(p, pre + mid) == Parsed(|pre| + |mid|, Incompleted, f.p)
            else First(p, pre + mid + later) == f.After(|pre|)
  {
    hide Parse;
    if pre == "" {
      assert pre + mid == mid;
    } else {
      ChunksJoin(p, pre, mid);
    }
    var f := Parse(First(p, pre).p, mid);
    if f.outcome != Incompleted {
      ParseStops(p, pre + mid, later);
    }
  }

  /** For an idle parser, the first value of a stream is what the recursive decoder finds. */
  lemma FirstIsDecoded(p: Parser, s: string)
    requires p.Idle()
    ensures var r, d := First(p, s), Decoder.Decode(s);
            && (r.outcome == Completed <==> d.Value?)
            && (r.outcome == Incompleted <==> d.NeedMore?)
            && (r.outcome == Error <==> d.Malformed?)
            && (d.Value? ==> r.consumed == d.n && r.p.d.redisValue == d.v && r.p.Idle())
  {
    hide Decoder.Decode, Parse;
    if s == "" {
      assert Decoder.Decode(s) == Decoder.NeedMore by { DecodeNothing(); }
    } else {
      ParserIsDecoder(p, s);
    }
  }

  lemma DecodeNothing()
    ensures Decoder.Decode("") == Decoder.NeedMore
  {
  }

  // ---- Several replies from a stream ----

  /** Replies read one by one, a malformed one counting as nil: why the reading ended, how many
      bytes it used up, how many replies were malformed, and the parser then. */
  datatype Responses = Responses(values: seq<RedisValue>, outcome: Outcome, consumed: nat, errors: nat, p: Parser) {
    /** The same with one more reply in front. */
    function Behind(v: RedisValue, k: nat, malformed: bool): Responses {
      Responses([v] + values, outcome, k + consumed, (if malformed then 1 else 0) + errors, p)
    }
  }

  /** Up to `count` replies; the reading ends early when the stream ends within one. */
  function FirstMany(p: Parser, s: string, count: nat): (r: Responses)
    requires p.Valid()
    ensures r.p.Valid() && r.consumed <= |s|
    ensures r.outcome == Completed ==> |r.values| == count
    ensures r.outcome != Error
    decreases count
  {
    if count == 0 then Responses([], Completed, 0, 0, p) else
    var f := First(p, s);
    if f.outcome == Completed then
      FirstMany(Taken(f.p), s[f.consumed..], count - 1).Behind(f.p.d.redisValue, f.consumed, false)
    else if f.outcome == Error then
      FirstMany(f.p, s[f.consumed..], count - 1).Behind(Nil, f.consumed, true)
    else Responses([], f.outcome, f.consumed, 0, f.p)
  }

  /** The responses `rest`, behind those already read. */
  function Appended(read: seq<RedisValue>, used: nat, errors: nat, rest: Responses): Responses {
    Responses(read + rest.values, rest.outcome, used + rest.consumed, errors + rest.errors, rest.p)
  }

  /** One more reply has been read. */
  lemma FirstManyStep(p: Parser, s: string, count: nat, read: seq<RedisValue>, used: nat, errors: nat)
    requires p.Valid() && count > 0
    ensures var whole, f := Appended(read, used, errors, FirstMany(p, s, count)), First(p, s);
            if f.outcome == Completed then
              whole == Appended(read + [f.p.d.redisValue], used + f.consumed, errors,
                                FirstMany(Taken(f.p), s[f.consumed..], count - 1))
            else if f.outcome == Error then
              whole == Appended(read + [Nil], used + f.consumed, errors + 1,
                                FirstMany(f.p, s[f.consumed..], count - 1))
            else whole == Responses(read, f.outcome, used + f.consumed, errors, f.p)
  {
    hide First;
    var f := First(p, s);
    if f.outcome == Completed {
      var rest := FirstMany(Taken(f.p), s[f.consumed..], count - 1);
      assert read + ([f.p.d.redisValue] + rest.values) == (read + [f.p.d.redisValue]) + rest.values;
    } else if f.outcome == Error {
      var rest := FirstMany(f.p, s[f.consumed..], count - 1);
      assert read + ([Nil] + rest.values) == (read + [Nil]) + rest.values;
    } else {
      assert read + [] == read;
    }
  }

  /** When the stream ends before the last of the replies asked for is complete, the reading ends
      there, without an error in a reply. */
  lemma {:induction false} FirstManyShort(p: Parser, rs: seq<Reply>, n: nat, count: nat)
    requires p.Idle() && AllSendable(rs) && n <= |EncodeAll(rs)| && Whole(rs, n) < count
    ensures var r := FirstMany(p, EncodeAll(rs)[..n], count);
            r.outcome == Incompleted && r.errors == 0 && r.values == Meanings(rs[..Whole(rs, n)])
    decreases |rs|
  {
    hide Parse, Encode, Meaning, FirstMany;
    var s := EncodeAll(rs)[..n];
    if n == 0 {
      assert s == "";
      NoFirst(p, s, count);
      assert rs != [] ==> |Encode(rs[0])| > 0;
    } else {
      var first, others := Encode(rs[0]), EncodeAll(rs[1..]);
      var k := |first|;
      if n < k {
        assert s == first[..n];
        ReplyPrefixIncomplete(p, rs[0], n);
        NoFirst(p, s, count);
      } else {
        assert s == first + others[..n - k];
        var q := FirstManyFirst(p, rs[0], others[..n - k], count);
        FirstManyShort(q, rs[1..], n - k, count - 1);
        MeaningsOfMore(rs, Whole(rs[1..], n - k));
      }
    }
  }

  lemma NoFirst(p: Parser, s: string, count: nat)
    requires p.Valid() && count > 0 && (s == "" || Parse(p, s).outcome == Incompleted)
    ensures var r := FirstMany(p, s, count); r.outcome == Incompleted && r.errors == 0 && r.values == []
  {
    hide Parse;
  }

  /** One complete reply at the front of the stream. */
  lemma FirstManyFirst(p: Parser, r: Reply, rest: string, count: nat) returns (q: Parser)
    requires p.Idle() && Sendable(r) && count > 0
    ensures q.Idle()
    ensures FirstMany(p, Encode(r) + rest, count)
            == FirstMany(q, rest, count - 1).Behind(Meaning(r), |Encode(r)|, false)
  {
    hide Parse, Encode, Meaning;
    var s := Encode(r) + rest;
    ReplyRoundTrip(p, r, rest);
    assert s[|Encode(r)|..] == rest;
    q := Taken(Parse(p, s).p);
  }

  /** For an idle parser, the replies are those the recursive decoder finds, as long as none is
      malformed. */
  lemma {:induction false} FirstManyIsDecoded(p: Parser, s: string, count: nat)
    requires p.Idle()
    ensures var r, d := FirstMany(p, s, count), Decoder.DecodeMany(count, s);
            && (d.Value? <==> r.outcome == Completed && r.errors == 0)
            && (d.NeedMore? <==> r.outcome == Incompleted && r.errors == 0)
            && (d.Malformed? <==> r.errors > 0)
            && (d.Value? ==> r.values == d.v && r.consumed == d.n && r.p.Idle())
    decreases count
  {
    hide First, Decoder.Decode;
    if count > 0 {
      FirstIsDecoded(p, s);
      var f := First(p, s);
      if f.outcome == Completed {
        FirstManyIsDecoded(Taken(f.p), s[f.consumed..], count - 1);
      }
    }
  }
}

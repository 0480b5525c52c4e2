/** The main results about the parser: it is the recursive decoder, and it undoes the
    encoding of every reply. */
module RoundTrip {
  import opened Resp
  import opened ParserModel
  import opened Decoder
  import Numbers

  /** The stack machine and the recursive decoder agree on every non-empty input: outcome,
      consumed bytes and value, at any nesting depth, on good and on bad input alike. */
  lemma ParserIsDecoder(p: Parser, s: string)
    requires p.Idle() && s != ""
    ensures var r, d := Parse(p, s), Decode(s);
            && (d.Value? ==> r.outcome == Completed && r.consumed == d.n && r.p.d.redisValue == d.v)
            && (d.NeedMore? ==> r.outcome == Incompleted && r.consumed == |s|)
            && (d.Malformed? ==> r.outcome == Error && r.consumed == d.n)
            && (d.BadNumber? ==> r.outcome == Outcome.Undefined && r.consumed == d.n)
  {
    hide Decode, Run;
    var _ := Reads(p.Resumed(), s);
  }

  // ---- Encoding and decoding ----

  lemma {:induction false} SpanOfText(kind: LineKind, text: string, rest: string)
    requires forall i :: 0 <= i < |text| ==> Fits(kind, text[i])
    requires rest != "" && !Fits(kind, rest[0])
    ensures Span(kind, text + rest) == |text|
  {
    if text == "" {
      assert text + rest == rest;
    } else {
      assert (text + rest)[1..] == text[1..] + rest;
      SpanOfText(kind, text[1..], rest);
    }
  }

  lemma LineOf(kind: LineKind, text: string, rest: string)
    requires forall i :: 0 <= i < |text| ==> Fits(kind, text[i])
    requires kind == HeaderLine ==> text != ""
    ensures ReadLine(kind, text + CRLF + rest) == Line(text, |text| + 2)
  {
    var s := text + CRLF + rest;
    assert s == text + (CRLF + rest);
    SpanOfText(kind, text, CRLF + rest);
    assert s[..|text|] == text;
  }

  lemma HeaderOf(n: int, rest: string)
    requires -LONG_MAX <= n <= LONG_MAX
    ensures ReadLine(HeaderLine, NumberText(n) + CRLF + rest) == Line(NumberText(n), |NumberText(n)| + 2)
    ensures Numbers.Value(NumberText(n)) == Numbers.Some(n)
  {
    hide Decimal, ReadLine;
    LineOf(HeaderLine, NumberText(n), rest);
    Numbers.ReadBack(n);
  }

  /** First byte and line of an encoded reply. */
  function Tag(r: Reply): char {
    match r
    case Simple(_) => '+'
    case Failure(_) => '-'
    case Number(_) => ':'
    case BulkString(_) => '$'
    case NullBulk => '$'
    case NullArray => '*'
    case Multi(_) => '*'
  }

  function Header(r: Reply): int {
    match r
    case Number(n) => n
    case BulkString(data) => |data|
    case Multi(items) => |items|
    case _ => -1
  }

  function FirstText(r: Reply): string {
    match r
    case Simple(text) => text
    case Failure(text) => text
    case _ => NumberText(Header(r))
  }

  /** What follows the first line. */
  function Tail(r: Reply): string {
    match r
    case BulkString(data) => data + CRLF
    case Multi(items) => EncodeAll(items)
    case _ => ""
  }

  lemma EncodeParts(r: Reply)
    ensures Encode(r) == [Tag(r)] + FirstText(r) + CRLF + Tail(r)
  {
    hide EncodeAll;
    if r.NullBulk? || r.NullArray? {
      assert Decimal(1) == "1";
      assert NumberText(-1) == "-1";
      assert [Tag(r)] + FirstText(r) + CRLF + Tail(r) == [Tag(r)] + FirstText(r) + CRLF;
    } else if r.Simple? || r.Failure? || r.Number? {
      assert [Tag(r)] + FirstText(r) + CRLF + Tail(r) == [Tag(r)] + FirstText(r) + CRLF;
    } else if r.BulkString? {
      hide Decimal;
      assert "$" + Decimal(|r.data|) + CRLF + r.data + CRLF == "$" + Decimal(|r.data|) + CRLF + (r.data + CRLF);
    }
  }

  lemma SplitReply(r: Reply, rest: string)
    ensures var s, next := Encode(r) + rest, |FirstText(r)| + 2;
            && s[0] == Tag(r) && s[1..] == FirstText(r) + CRLF + (Tail(r) + rest)
            && s[1 + next..] == Tail(r) + rest
            && |Encode(r)| == 1 + next + |Tail(r)|
  {
    hide Encode, FirstText, Tail;
    EncodeParts(r);
    var s := Encode(r) + rest;
    assert s == [Tag(r)] + (FirstText(r) + CRLF + (Tail(r) + rest));
  }

  /** Decoding the encoding of a reply gives its value and stops right behind it. */
  lemma {:induction false} DecodeEncode(r: Reply, rest: string)
    requires Sendable(r)
    ensures Decode(Encode(r) + rest) == Value(Meaning(r), |Encode(r)|)
    decreases r, 0
  {
    hide Encode, ReadLine, Decimal, Numbers.Value, DecodeMany, EncodeAll;
    var s := Encode(r) + rest;
    var text, more := FirstText(r), Tail(r) + rest;
    SplitReply(r, rest);
    if r.Simple? || r.Failure? {
      LineOf(TextLine, text, more);
    } else {
      HeaderOf(Header(r), more);
      if r.BulkString? {
        PayloadOf(s, |text| + 3, r.data, rest);
      } else if r.Multi? {
        DecodeManyEncode(r.items, rest);
      }
    }
  }

  lemma PayloadOf(s: string, at: nat, data: string, rest: string)
    requires 1 <= at <= |s| && s[at..] == data + CRLF + rest
    ensures DecodeBulk(s, at, |data|) == Value(Str(data, false), at + |data| + 2)
  {
    assert s[at + |data|] == s[at..][|data|] && s[at + |data| + 1] == s[at..][|data| + 1];
    assert s[at..at + |data|] == s[at..][..|data|] == data;
  }

  lemma {:induction false} DecodeManyEncode(rs: seq<Reply>, rest: string)
    requires AllSendable(rs)
    ensures DecodeMany(|rs|, EncodeAll(rs) + rest) == Value(Meanings(rs), |EncodeAll(rs)|)
    decreases rs, 1
  {
    hide Encode, Decode;
    if rs == [] {
    } else {
      var first, others := Encode(rs[0]), EncodeAll(rs[1..]) + rest;
      var s := EncodeAll(rs) + rest;
      assert s == first + others;
      assert s[|first|..] == others;
      DecodeEncode(rs[0], others);
      DecodeManyEncode(rs[1..], rest);
    }
  }

  // ---- Round trips of the parser ----

  /** An idle parser reads back every reply a server may send, consuming exactly its bytes and
      ending idle again, whatever follows. */
  lemma ReplyRoundTrip(p: Parser, r: Reply, rest: string)
    requires p.Idle() && Sendable(r)
    ensures var q := Parse(p, Encode(r) + rest);
            && q.outcome == Completed && q.consumed == |Encode(r)|
            && q.p.d.redisValue == Meaning(r) && q.p.Idle()
  {
    hide Decode, Parse, Encode;
    DecodeEncode(r, rest);
    ParserIsDecoder(p, Encode(r) + rest);
  }

  /** A reply cut off anywhere, even before its last byte, never completes and never fails. */
  lemma ReplyPrefixIncomplete(p: Parser, r: Reply, k: nat)
    requires p.Idle() && Sendable(r) && 0 < k < |Encode(r)|
    ensures Parse(p, Encode(r)[..k]).outcome == Incompleted
  {
    hide Parse, Encode;
    var s := Encode(r);
    ReplyRoundTrip(p, r, "");
    assert s + "" == s && s[..k] + s[k..] == s;
    if Parse(p, s[..k]).outcome != Incompleted {
      ParseStops(p, s[..k], s[k..]);
    }
  }

  /** Replies are self-delimiting: from the bytes alone, the value and where it ends are unique. */
  lemma EncodingIsUnique(a: Reply, x: string, b: Reply, y: string)
    requires Sendable(a) && Sendable(b) && Encode(a) + x == Encode(b) + y
    ensures Meaning(a) == Meaning(b) && |Encode(a)| == |Encode(b)| && x == y
  {
    hide Decode, Encode, Meaning;
    DecodeEncode(a, x);
    DecodeEncode(b, y);
    assert x == (Encode(a) + x)[|Encode(a)|..];
  }

  // ---- After an error ----

  /** Number of nodes of a value. */
  function Nodes(v: RedisValue): (n: nat)
    decreases v, 0
  {
    if v.Array? then 1 + NodesOf(v.elems) else 1
  }

  function NodesOf(vs: seq<RedisValue>): nat
    decreases vs, 1
  {
    if vs == [] then 0 else Nodes(vs[0]) + NodesOf(vs[1..])
  }

  lemma {:induction false} NodesOfLast(vs: seq<RedisValue>, v: RedisValue)
    ensures NodesOf(vs + [v]) >= Nodes(v)
  {
    if vs != [] {
      assert (vs + [v])[1..] == vs[1..] + [v];
      NodesOfLast(vs[1..], v);
    }
  }

  lemma {:induction false} DeliverWraps(d: Data)
    requires d.StacksValid() && d.arraySizes != [] && Deliver(d).arraySizes == []
    ensures Nodes(Deliver(d).redisValue) > Nodes(d.redisValue)
    decreases |d.arraySizes|
  {
    var top := |d.arraySizes| - 1;
    var held := d.arrayValues[top].elems;
    NodesOfLast(held, d.redisValue);
    var p := Popped(Pushed(d));
    DeliverLevel(d);
    assert p.redisValue == Array(held + [d.redisValue]);
    if p.arraySizes != [] {
      DeliverWraps(p);
    }
  }

  /** A parser without a saved state, as an error leaves it, reads the next reply correctly if
      and only if no array is open; otherwise the reply is taken for an element of that array. */
  lemma NextReplyNeedsClosedArrays(p: Parser, r: Reply)
    requires p.Valid() && p.states == [] && Sendable(r)
    ensures var q := Parse(p, Encode(r));
            q.outcome == Completed && q.p.d.redisValue == Meaning(r) <==> p.d.arraySizes == []
  {
    hide Decode, Encode, Meaning;
    var s := Encode(r);
    assert s + "" == s;
    if p.d.arraySizes == [] {
      ReplyRoundTrip(p, r, "");
    } else {
      DecodeEncode(r, "");
      hide Run, Parse;
      NextReplyJoinsArray(p, s, Meaning(r));
    }
  }

  lemma NextReplyJoinsArray(p: Parser, s: string, v: RedisValue)
    requires p.Valid() && p.states == [] && p.d.arraySizes != [] && s != "" && Decode(s) == Value(v, |s|)
    ensures !(Parse(p, s).outcome == Completed && Parse(p, s).p.d.redisValue == v)
  {
    hide Decode, Run, Deliver;
    var m := p.Resumed();
    var d := Reads(m, s);
    var open := m.d.(redisValue := v);
    if d.arraySizes == [] {
      DeliverWraps(open);
    } else {
      ReachesEnd(m, s, Machine(Start, d));
    }
  }

  /** The input starts with a complete header of a non-empty array. */
  predicate OpensArray(s: string) {
    s != "" && s[0] == '*' &&
    var line := ReadLine(HeaderLine, s[1..]);
    line.Line? && var size := Numbers.Value(line.text); size.Some? && size.value > 0
  }

  lemma OpenByte(m: Machine, c: char)
    requires m.Valid() && m.d.arraySizes != []
    ensures var r := Step(m, c);
            && (r.Next? ==> r.m.Done() || r.m.d.arraySizes != [])
            && (r.Failed? ==> r.d.arraySizes != [])
  {
    hide Numbers.Value, Deliver;
  }

  /** Once an array is open, some array is open when an error ends the run. */
  lemma {:induction false} OpenStaysOpen(m: Machine, s: string)
    requires m.Valid() && m.d.arraySizes != [] && Run(m, s).outcome == Error
    ensures Run(m, s).m.d.arraySizes != []
    decreases |s|
  {
    hide Step;
    OpenByte(m, s[0]);
    if Step(m, s[0]).Next? {
      OpenStaysOpen(Step(m, s[0]).m, s[1..]);
    }
  }

  /** In the middle of a reply that is no array, with no array open. */
  predicate InScalar(m: Machine) {
    m.d.arraySizes == [] && m.state !in {Start, StartArray, ArraySize, ArraySizeLF}
  }

  lemma ScalarByte(m: Machine, c: char)
    requires m.Valid() && InScalar(m)
    ensures var r := Step(m, c);
            && (r.Next? ==> r.m.Done() || InScalar(r.m))
            && (r.Failed? ==> r.d.arraySizes == [])
  {
    hide Numbers.Value;
  }

  /** Such a reply never opens one. */
  lemma {:induction false} ScalarStaysClosed(m: Machine, s: string)
    requires m.Valid() && InScalar(m) && Run(m, s).outcome == Error
    ensures Run(m, s).m.d.arraySizes == []
    decreases |s|
  {
    hide Step;
    ScalarByte(m, s[0]);
    if Step(m, s[0]).Next? {
      ScalarStaysClosed(Step(m, s[0]).m, s[1..]);
    }
  }

  /** Neither does an array header that is malformed or gives no positive size. */
  lemma HeaderStaysClosed(m: Machine, s: string)
    requires m.Valid() && m.state == ArraySize && m.d.buf == "" && m.d.arraySizes == []
    requires Run(m, s).outcome == Error && !OpensArray("*" + s)
    ensures Run(m, s).m.d.arraySizes == []
  {
    hide Step, Run, Reaches, Span, Numbers.Value;
    var k := Span(HeaderLine, s);
    var m1 := Grown(m, s[..k]);
    RunSpan(m, HeaderLine, s);
    assert m1.d.buf == s[..k] && ("*" + s)[1..] == s;
    if k == |s| {
      ReachesEnd(m, s, m1);
    } else {
      LineByte(m1, HeaderLine, s[k]);
      ByteAt(s, m, k, m1);
      FailureKeepsArrays(m1, s[k]);
      if s[k] == CR && k > 0 {
        var m2 := Machine(ArraySizeLF, m1.d);
        if k + 1 == |s| {
          ReachesEnd(m, s, m2);
        } else {
          ByteAt(s, m, k + 1, m2);
          SizeMove(m2, s[k + 1]);
        }
      }
    }
  }

  lemma FailureKeepsArrays(m: Machine, c: char)
    requires m.Valid()
    ensures Step(m, c).Failed? ==> Step(m, c).d.arraySizes == m.d.arraySizes
  {
    hide Numbers.Value, Deliver;
  }

  lemma SizeMove(m: Machine, c: char)
    requires m.Valid() && m.state == ArraySizeLF && m.d.arraySizes == []
    requires c == LF && Numbers.Value(m.d.buf).Some? ==> Numbers.Value(m.d.buf).value <= 0
    ensures var r := Step(m, c);
            && (r.Next? ==> r.m.Done())
            && (r.Failed? ==> r.d.arraySizes == [])
  {
    hide Numbers.Value;
  }

  /** An error clears the saved state but not the open arrays: it leaves an array open if and
      only if the malformed reply began with the header of a non-empty one. */
  lemma ErrorLeavesArraysOpen(p: Parser, s: string)
    requires p.Idle() && s != "" && Parse(p, s).outcome == Error
    ensures Parse(p, s).p.states == []
    ensures Parse(p, s).p.d.arraySizes != [] <==> OpensArray(s)
  {
    hide Run, Step, ReadLine, Numbers.Value;
    var m := p.Resumed();
    if OpensArray(s) {
      var line := ReadLine(HeaderLine, s[1..]);
      var m2 := ArrayOpens(m, s, line.text, line.next, Numbers.Value(line.text).value);
      OpenStaysOpen(m2, s[line.next + 1..]);
    } else {
      FirstByteOfError(m, s);
    }
  }

  lemma FirstByteOfError(m: Machine, s: string)
    requires m.Valid() && m.Done() && s != "" && Run(m, s).outcome == Error && !OpensArray(s)
    ensures Run(m, s).m.d.arraySizes == []
  {
    hide Step, OpensArray;
    assert s == [s[0]] + s[1..];
    BeginMove(m, s[0]);
    if s[0] == '*' {
      HeaderStaysClosed(Step(m, s[0]).m, s[1..]);
    } else if s[0] in "+-:$" {
      ScalarStaysClosed(Step(m, s[0]).m, s[1..]);
    }
  }

  lemma BeginMove(m: Machine, c: char)
    requires m.Valid() && m.Done()
    ensures var r := Step(m, c);
            && (c == '*' ==> r.Next? && r.m == Machine(ArraySize, m.d.(buf := "")))
            && (c in "+-:$" ==> r.Next? && InScalar(r.m))
            && (c !in "+-:$*" ==> r.Failed? && r.d.arraySizes == [])
  {
  }

  /** After a malformed reply the next one is read correctly if and only if the malformed one
      did not begin with the complete header of a non-empty array. */
  lemma AfterErrorReadsNextReply(p: Parser, s: string, r: Reply)
    requires p.Idle() && s != "" && Parse(p, s).outcome == Error && Sendable(r)
    ensures var q := Parse(Parse(p, s).p, Encode(r));
            q.outcome == Completed && q.p.d.redisValue == Meaning(r) <==> !OpensArray(s)
  {
    hide Parse, OpensArray, Encode, Meaning;
    ErrorLeavesArraysOpen(p, s);
    NextReplyNeedsClosedArrays(Parse(p, s).p, r);
  }

  /** The shortest such input: an array of one element that cannot be the start of a reply. */
  const BROKEN_ELEMENT: string := ['*', '1', CR, LF, '?']

  /** It fails at its last byte and leaves an array of one element open, so no reply that
      follows is read correctly. */
  lemma BrokenElementBreaksNextReply(p: Parser, r: Reply)
    requires p.Idle() && Sendable(r)
    ensures var e := Parse(p, BROKEN_ELEMENT);
            && e.outcome == Error && e.consumed == 5 && e.p.states == [] && e.p.d.arraySizes == [1]
            && var q := Parse(e.p, Encode(r)); !(q.outcome == Completed && q.p.d.redisValue == Meaning(r))
  {
    hide Run, Step, ReadLine, Numbers.Value, Encode, Meaning;
    var m, s := p.Resumed(), BROKEN_ELEMENT;
    assert NumberText(1) == "1";
    HeaderOf(1, "?");
    assert s[1..] == "1" + CRLF + "?";
    var m2 := ArrayOpens(m, s, "1", 3, 1);
    NoReplyStarts(m2);
    ByteAt(s, m, 4, m2);
    NextReplyNeedsClosedArrays(Parse(p, s).p, r);
  }

  lemma NoReplyStarts(m: Machine)
    requires m.Valid() && m.state == StartArray
    ensures Step(m, '?').Failed? && Step(m, '?').d.arraySizes == m.d.arraySizes
  {
  }
}

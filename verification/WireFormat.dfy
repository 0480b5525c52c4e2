/** What the parser accepts, said in bytes: the definitions that the machine, the decoder and the
    encoding have in common are not named here. */
module WireFormat {
  import opened Resp
  import opened ParserModel
  import opened Decoder
  import opened RoundTrip
  import Numbers

  /** A call that completes a value after `n` bytes. */
  ghost predicate Reads(p: Parser, s: string, n: nat, v: RedisValue)
    requires p.Valid()
  {
    var r := Parse(p, s);
    r.outcome == Completed && r.consumed == n && r.p.d.redisValue == v && r.p.Idle()
  }

  /** A call that fails at the byte before offset `n`. */
  ghost predicate Rejects(p: Parser, s: string, n: nat)
    requires p.Valid()
  {
    Parse(p, s).outcome == Error && Parse(p, s).consumed == n
  }

  lemma LineEndIs()
    ensures CRLF == "\r\n" && CR == '\r' && LF == '\n'
  {
  }

  predicate IsTag(tag: char) {
    tag == '+' || tag == '-' || tag == ':' || tag == '$' || tag == '*'
  }

  /** The bytes a line may hold: printable ones in a status or an error, digits and '-' in a
      number. */
  predicate MayStand(tag: char, c: char) {
    if tag == '+' || tag == '-' then 32 <= c as int <= 126
    else c == '-' || '0' <= c <= '9'
  }

  /** A line of this kind, wherever it ends. */
  predicate Standing(tag: char, text: string) {
    forall i :: 0 <= i < |text| ==> MayStand(tag, text[i])
  }

  // ---- Lines ----

  lemma ByteFits(tag: char, c: char)
    requires IsTag(tag)
    ensures Fits(KindOf(tag), c) == MayStand(tag, c)
    ensures KindOf(tag) == if tag == '+' || tag == '-' then TextLine else HeaderLine
  {
  }

  lemma LineFits(tag: char, text: string)
    requires IsTag(tag) && Standing(tag, text)
    ensures forall i :: 0 <= i < |text| ==> Fits(KindOf(tag), text[i])
  {
    forall i | 0 <= i < |text|
      ensures Fits(KindOf(tag), text[i])
    {
      ByteFits(tag, text[i]);
    }
  }

  /** A line that is closed as it should be. */
  lemma GoodLine(tag: char, text: string, rest: string)
    requires IsTag(tag) && Standing(tag, text) && (tag == '+' || tag == '-' || text != "")
    ensures var s := [tag] + text + "\r\n" + rest;
            && s[0] == tag && s[1..] == text + CRLF + rest && s[|text| + 3..] == rest
            && ReadLine(KindOf(tag), s[1..]) == Line(text, |text| + 2)
  {
    hide ReadLine, Fits;
    var s := [tag] + text + "\r\n" + rest;
    LineEndIs();
    assert s == [tag] + (text + CRLF + rest) && s[1..] == text + CRLF + rest;
    LineFits(tag, text);
    LineOf(KindOf(tag), text, rest);
  }

  /** A byte that cannot stand in the line, and does not begin to close it, is the error; so is
      anything but a line feed behind the carriage return, and the end of an empty number. */
  lemma BrokenLine(p: Parser, tag: char, text: string, c: char, rest: string)
    requires p.Idle() && IsTag(tag) && Standing(tag, text) && !MayStand(tag, c)
    requires c != '\r' || (text == "" && tag != '+' && tag != '-')
    ensures Rejects(p, [tag] + text + [c] + rest, |text| + 2)
  {
    hide ReadLine, Fits, Parse;
    var s := [tag] + text + [c] + rest;
    assert s[1..] == text + ([c] + rest);
    LineFits(tag, text);
    ByteFits(tag, c);
    SpanOfText(KindOf(tag), text, [c] + rest);
    StopsAt(KindOf(tag), s[1..], |text|);
    ParserIsDecoder(p, s);
    BrokenIsMalformed(s, |text| + 1);
  }

  lemma UnclosedLine(p: Parser, tag: char, text: string, c: char, rest: string)
    requires p.Idle() && IsTag(tag) && Standing(tag, text) && c != '\n'
    requires tag == '+' || tag == '-' || text != ""
    ensures Rejects(p, [tag] + text + "\r" + [c] + rest, |text| + 3)
  {
    hide ReadLine, Fits, Parse;
    var s := [tag] + text + "\r" + [c] + rest;
    assert s[1..] == text + ("\r" + [c] + rest);
    LineFits(tag, text);
    ByteFits(tag, '\r');
    SpanOfText(KindOf(tag), text, "\r" + [c] + rest);
    StopsBehind(KindOf(tag), s[1..], |text|);
    ParserIsDecoder(p, s);
    BrokenIsMalformed(s, |text| + 2);
  }

  lemma StopsAt(kind: LineKind, s: string, k: nat)
    requires k < |s| && Span(kind, s) == k && (s[k] != '\r' || (kind == HeaderLine && k == 0))
    ensures ReadLine(kind, s) == Broken(k + 1)
  {
  }

  lemma StopsBehind(kind: LineKind, s: string, k: nat)
    requires k + 1 < |s| && Span(kind, s) == k && s[k] == '\r' && s[k + 1] != '\n'
    requires kind == HeaderLine ==> k > 0
    ensures ReadLine(kind, s) == Broken(k + 2)
  {
  }

  lemma BrokenIsMalformed(s: string, at: nat)
    requires s != "" && IsTag(s[0]) && ReadLine(KindOf(s[0]), s[1..]) == Broken(at)
    ensures Decode(s) == Malformed(1 + at)
  {
    hide ReadLine;
  }

  /** A reply begins with one of five bytes. */
  lemma UnknownTag(p: Parser, tag: char, rest: string)
    requires p.Idle() && !IsTag(tag)
    ensures Rejects(p, [tag] + rest, 1)
  {
    hide Parse, ReadLine;
    ParserIsDecoder(p, [tag] + rest);
  }

  // ---- Replies ----

  /** A status, or an error: any printable text, blanks included. */
  lemma TextReply(p: Parser, text: string, rest: string)
    requires p.Idle() && forall i :: 0 <= i < |text| ==> 32 <= text[i] as int <= 126
    ensures Reads(p, "+" + text + "\r\n" + rest, |text| + 3, Str(text, false))
    ensures Reads(p, "-" + text + "\r\n" + rest, |text| + 3, Str(text, true))
  {
    hide Parse, ReadLine;
    TextDecodes('+', text, rest);
    TextDecodes('-', text, rest);
    assert ['+'] == "+" && ['-'] == "-";
    DecodedIsRead(p, "+" + text + "\r\n" + rest);
    DecodedIsRead(p, "-" + text + "\r\n" + rest);
  }

  lemma TextDecodes(tag: char, text: string, rest: string)
    requires tag == '+' || tag == '-'
    requires forall i :: 0 <= i < |text| ==> 32 <= text[i] as int <= 126
    ensures Decode([tag] + text + "\r\n" + rest) == Value(Str(text, tag == '-'), |text| + 3)
  {
    hide ReadLine;
    GoodLine(tag, text, rest);
  }

  /** Digits, as a number of base ten. */
  predicate Digits(s: string, n: int) {
    s != "" && (forall i :: 0 <= i < |s| ==> '0' <= s[i] <= '9') && Numbers.DigitsValue(s) == n
  }

  lemma NumberOf(s: string, n: int)
    requires Digits(s, n) && n <= 9223372036854775807
    ensures Numbers.Value(s) == Numbers.Some(n) && Numbers.Value("-" + s) == Numbers.Some(-n)
  {
    assert ("-" + s)[1..] == s;
  }

  /** An integer of at most 2^63-1, with leading zeros or without. */
  lemma IntegerReply(p: Parser, digits: string, n: int, rest: string)
    requires p.Idle() && Digits(digits, n) && n <= 9223372036854775807
    ensures Reads(p, ":" + digits + "\r\n" + rest, |digits| + 3, Int(n))
    ensures Reads(p, ":-" + digits + "\r\n" + rest, |digits| + 4, Int(-n))
  {
    hide Parse, ReadLine, Numbers.Value, Numbers.DigitsValue;
    NumberOf(digits, n);
    IntegerDecodes(digits, n, rest);
    IntegerDecodes("-" + digits, -n, rest);
    assert ":" + ("-" + digits) + "\r\n" + rest == ":-" + digits + "\r\n" + rest;
    DecodedIsRead(p, ":" + digits + "\r\n" + rest);
    DecodedIsRead(p, ":-" + digits + "\r\n" + rest);
  }

  /** A '-' alone is the integer 0. */
  lemma LoneMinus(p: Parser, rest: string)
    requires p.Idle()
    ensures Reads(p, ":-\r\n" + rest, 4, Int(0))
  {
    hide Parse, ReadLine;
    assert "-"[1..] == "";
    assert Numbers.Value("-") == Numbers.Some(0);
    IntegerDecodes("-", 0, rest);
    assert ":" + "-" + "\r\n" + rest == ":-\r\n" + rest;
    DecodedIsRead(p, ":-\r\n" + rest);
  }

  /** A larger one has no defined value, in any kind of header. */
  lemma HugeNumber(p: Parser, tag: char, digits: string, n: int, rest: string)
    requires p.Idle() && tag in ":$*" && Digits(digits, n) && n > 9223372036854775807
    ensures var r := Parse(p, [tag] + digits + "\r\n" + rest);
            r.outcome == Outcome.Undefined && r.consumed == |digits| + 3
  {
    hide Parse, ReadLine;
    var s := [tag] + digits + "\r\n" + rest;
    GoodLine(tag, digits, rest);
    assert Numbers.Value(digits) == Numbers.None;
    ParserIsDecoder(p, s);
  }

  lemma IntegerDecodes(text: string, n: int, rest: string)
    requires text != "" && Standing(':', text) && Numbers.Value(text) == Numbers.Some(n)
    ensures Decode(":" + text + "\r\n" + rest) == Value(Int(n), |text| + 3)
  {
    hide ReadLine, Numbers.Value;
    GoodLine(':', text, rest);
    assert [':'] == ":";
  }

  /** A bulk string: its length in bytes, and any bytes. */
  lemma BulkReply(p: Parser, digits: string, data: string, rest: string)
    requires p.Idle() && Digits(digits, |data|) && |data| <= 9223372036854775807
    ensures Reads(p, "$" + digits + "\r\n" + data + "\r\n" + rest, |digits| + |data| + 5, Str(data, false))
  {
    hide Parse, ReadLine, Numbers.Value, Numbers.DigitsValue, DecodeBulk;
    var s, behind := "$" + digits + "\r\n" + data + "\r\n" + rest, data + "\r\n" + rest;
    assert s == ['$'] + digits + "\r\n" + behind;
    NumberOf(digits, |data|);
    GoodLine('$', digits, behind);
    LineEndIs();
    PayloadOf(s, |digits| + 3, data, rest);
    BulkDecodes(s, digits, |data|);
    DecodedIsRead(p, s);
  }

  lemma BulkDecodes(s: string, text: string, n: nat)
    requires s != "" && s[0] == '$' && ReadLine(HeaderLine, s[1..]) == Line(text, |text| + 2)
    requires |text| + 3 <= |s| && Numbers.Value(text) == Numbers.Some(n)
    ensures Decode(s) == DecodeBulk(s, |text| + 3, n)
  {
    hide ReadLine, Numbers.Value;
  }

  /** An array: the number of its elements, and the elements. */
  lemma ArrayReply(p: Parser, digits: string, items: seq<Reply>, rest: string)
    requires p.Idle() && Digits(digits, |items|) && |items| <= 9223372036854775807 && AllSendable(items)
    ensures Reads(p, "*" + digits + "\r\n" + EncodeAll(items) + rest, |digits| + 3 + |EncodeAll(items)|,
                  Array(Meanings(items)))
  {
    hide Parse, ReadLine, Numbers.Value, Numbers.DigitsValue, DecodeMany, EncodeAll, Meanings;
    var s, behind := "*" + digits + "\r\n" + EncodeAll(items) + rest, EncodeAll(items) + rest;
    assert s == ['*'] + digits + "\r\n" + behind;
    NumberOf(digits, |items|);
    GoodLine('*', digits, behind);
    DecodeManyEncode(items, rest);
    ArrayDecodes(s, digits, |items|);
    DecodedIsRead(p, s);
  }

  lemma ArrayDecodes(s: string, text: string, n: nat)
    requires s != "" && s[0] == '*' && ReadLine(HeaderLine, s[1..]) == Line(text, |text| + 2)
    requires |text| + 3 <= |s| && Numbers.Value(text) == Numbers.Some(n)
    ensures var d := DecodeMany(n, s[|text| + 3..]);
            d.Value? ==> Decode(s) == Value(Array(d.v), |text| + 3 + d.n)
  {
    hide ReadLine, Numbers.Value;
  }

  /** Both forms of nil; any other negative size is an error at the end of its line. */
  lemma NegativeSize(p: Parser, tag: char, digits: string, n: int, rest: string)
    requires p.Idle() && (tag == '$' || tag == '*') && Digits(digits, n) && 1 <= n <= 9223372036854775807
    ensures var s := [tag] + "-" + digits + "\r\n" + rest;
            if n == 1 then Reads(p, s, |digits| + 4, Nil) else Rejects(p, s, |digits| + 4)
  {
    hide Parse, ReadLine, Numbers.Value, Numbers.DigitsValue;
    var s, text := [tag] + "-" + digits + "\r\n" + rest, "-" + digits;
    assert s == [tag] + text + "\r\n" + rest;
    NumberOf(digits, n);
    GoodLine(tag, text, rest);
    NegativeDecodes(s, text, -n);
    ParserIsDecoder(p, s);
    if n == 1 {
      DecodedIsRead(p, s);
    }
  }

  lemma NegativeDecodes(s: string, text: string, n: int)
    requires s != "" && s[0] in "$*" && ReadLine(HeaderLine, s[1..]) == Line(text, |text| + 2)
    requires |text| + 3 <= |s| && Numbers.Value(text) == Numbers.Some(n) && n < 0
    ensures Decode(s) == if n == -1 then Value(Nil, |text| + 3) else Malformed(|text| + 3)
  {
    hide ReadLine, Numbers.Value;
  }

  lemma DecodedIsRead(p: Parser, s: string)
    requires p.Idle() && s != "" && Decode(s).Value?
    ensures Reads(p, s, Decode(s).n, Decode(s).v)
  {
    hide Parse, Decode;
    ParserIsDecoder(p, s);
  }

  // ---- What a server sends ----

  function Magnitude(n: int): nat {
    if n < 0 then -n else n
  }

  /** The encoding of every reply, what it means, and when it may be sent, in the same terms. */
  lemma TextEncoding(text: string)
    ensures Encode(Simple(text)) == "+" + text + "\r\n" && Meaning(Simple(text)) == Str(text, false)
    ensures Encode(Failure(text)) == "-" + text + "\r\n" && Meaning(Failure(text)) == Str(text, true)
    ensures Sendable(Simple(text)) <==> forall i :: 0 <= i < |text| ==> 32 <= text[i] as int <= 126
    ensures Sendable(Failure(text)) <==> forall i :: 0 <= i < |text| ==> 32 <= text[i] as int <= 126
  {
    LineEndIs();
  }

  lemma NumberEncoding(n: int)
    ensures exists digits: string ::
              Numbers.Canonical(digits, Magnitude(n))
              && Encode(Number(n)) == (if n < 0 then ":-" else ":") + digits + "\r\n"
    ensures Meaning(Number(n)) == Int(n)
    ensures Sendable(Number(n)) <==> -9223372036854775807 <= n <= 9223372036854775807
  {
    hide Decimal, Numbers.Canonical;
    LineEndIs();
    Numbers.DecimalIsCanonical(Magnitude(n));
    assert n < 0 ==> ":" + ("-" + Decimal(-n)) + CRLF == ":-" + Decimal(-n) + "\r\n";
  }

  lemma BulkEncoding(data: string)
    ensures exists digits: string ::
              Numbers.Canonical(digits, |data|)
              && Encode(BulkString(data)) == "$" + digits + "\r\n" + data + "\r\n"
    ensures Meaning(BulkString(data)) == Str(data, false)
    ensures Sendable(BulkString(data)) <==> |data| <= 9223372036854775807
  {
    hide Decimal, Numbers.Canonical;
    LineEndIs();
    Numbers.DecimalIsCanonical(|data|);
  }

  lemma NilEncoding()
    ensures Encode(NullBulk) == "$-1\r\n" && Meaning(NullBulk) == Nil && Sendable(NullBulk)
    ensures Encode(NullArray) == "*-1\r\n" && Meaning(NullArray) == Nil && Sendable(NullArray)
  {
    LineEndIs();
  }

  lemma ArrayEncoding(items: seq<Reply>)
    ensures exists digits: string ::
              Numbers.Canonical(digits, |items|)
              && Encode(Multi(items)) == "*" + digits + "\r\n" + EncodeAll(items)
    ensures Meaning(Multi(items)) == Array(Meanings(items))
    ensures Sendable(Multi(items)) <==> |items| <= 9223372036854775807 && AllSendable(items)
  {
    hide EncodeAll, Decimal, Numbers.Canonical;
    LineEndIs();
    Numbers.DecimalIsCanonical(|items|);
  }
}

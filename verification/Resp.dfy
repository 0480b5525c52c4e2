/** Values a reply can carry, and the wire form (RESP2) in which a server sends them.

    A byte is modelled as a `char` and a byte buffer as a `string`; no member
    depends on a char being below 256, so every byte string is covered. */
module Resp {

  /** The largest value of the signed 64-bit `long` and `int64_t`. */
  const LONG_MAX: int := 0x7FFF_FFFF_FFFF_FFFF

  const CR: char := '\r'
  const LF: char := '\n'
  const CRLF: string := [CR, LF]

  /** What the parser hands to its caller; only byte arrays ever carry the error flag. */
  datatype RedisValue =
    | Nil
    | Int(n: int)
    | Str(bytes: string, error: bool)
    | Array(elems: seq<RedisValue>)
  {
    /** `castTo`: the contents when the type fits, otherwise the empty default. */
    function ToArray(): seq<RedisValue> {
      if Array? then elems else []
    }

    function ToByteArray(): string {
      if Str? then bytes else ""
    }

    /** What is left in a value whose contents were moved out. */
    function MovedFrom(): RedisValue {
      match this
      case Nil => Nil
      case Int(n) => Int(n)
      case Str(_, error) => Str("", error)
      case Array(_) => Array([])
    }
  }

  /** One reply as it stands on the wire. */
  datatype Reply =
    | Simple(text: string)
    | Failure(text: string)
    | Number(n: int)
    | BulkString(data: string)
    | NullBulk
    | NullArray
    | Multi(items: seq<Reply>)

  /** `std::to_string` of an unsigned number. */
  function Decimal(n: nat): (s: string)
    ensures |s| >= 1
    ensures forall i :: 0 <= i < |s| ==> '0' <= s[i] <= '9'
    ensures |s| == 1 || s[0] != '0'
    ensures n > 0 ==> s[0] != '0'
  {
    if n < 10 then [(n + 48) as char] else Decimal(n / 10) + [(n % 10 + 48) as char]
  }

  function NumberText(n: int): string {
    if n < 0 then "-" + Decimal(-n) else Decimal(n)
  }

  function Encode(r: Reply): (s: string)
    ensures |s| >= 1
    decreases r, 0
  {
    match r
    case Simple(text) => "+" + text + CRLF
    case Failure(text) => "-" + text + CRLF
    case Number(n) => ":" + NumberText(n) + CRLF
    case BulkString(data) => "$" + Decimal(|data|) + CRLF + data + CRLF
    case NullBulk => "$-1" + CRLF
    case NullArray => "*-1" + CRLF
    case Multi(items) => "*" + Decimal(|items|) + CRLF + EncodeAll(items)
  }

  function EncodeAll(rs: seq<Reply>): (s: string)
    ensures |s| >= |rs|
    decreases rs, 1
  {
    if rs == [] then "" else Encode(rs[0]) + EncodeAll(rs[1..])
  }

  /** The value a client should see for a reply. */
  function Meaning(r: Reply): RedisValue
    decreases r, 0
  {
    match r
    case Simple(text) => Str(text, false)
    case Failure(text) => Str(text, true)
    case Number(n) => Int(n)
    case BulkString(data) => Str(data, false)
    case NullBulk => Nil
    case NullArray => Nil
    case Multi(items) => Array(Meanings(items))
  }

  function Meanings(rs: seq<Reply>): (vs: seq<RedisValue>)
    ensures |vs| == |rs|
    ensures forall i :: 0 <= i < |rs| ==> vs[i] == Meaning(rs[i])
    decreases rs, 1
  {
    if rs == [] then [] else [Meaning(rs[0])] + Meanings(rs[1..])
  }

  predicate IsText(c: char) {
    32 <= c as int <= 126
  }

  /** Replies a server may send: printable lines, numbers whose magnitude fits a `long`,
      bulk strings of any bytes. */
  predicate Sendable(r: Reply)
    decreases r, 0
  {
    match r
    case Simple(text) => forall i :: 0 <= i < |text| ==> IsText(text[i])
    case Failure(text) => forall i :: 0 <= i < |text| ==> IsText(text[i])
    case Number(n) => -LONG_MAX <= n <= LONG_MAX
    case BulkString(data) => |data| <= LONG_MAX
    case NullBulk => true
    case NullArray => true
    case Multi(items) => |items| <= LONG_MAX && AllSendable(items)
  }

  predicate AllSendable(rs: seq<Reply>)
    ensures AllSendable(rs) <==> forall i :: 0 <= i < |rs| ==> Sendable(rs[i])
    decreases rs, 1
  {
    rs == [] || (Sendable(rs[0]) && AllSendable(rs[1..]))
  }

  lemma {:induction false} EncodeAllAppend(a: seq<Reply>, b: seq<Reply>)
    ensures EncodeAll(a + b) == EncodeAll(a) + EncodeAll(b)
  {
    hide Encode;
    if a == [] {
      assert a + b == b;
    } else {
      assert (a + b)[1..] == a[1..] + b;
      EncodeAllAppend(a[1..], b);
    }
  }
}

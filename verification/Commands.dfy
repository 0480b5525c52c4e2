/** Commands on their way to the server: an array of bulk strings. */
module Commands {
  import opened Resp
  import opened ParserModel
  import opened RoundTrip
  import Numbers

  type Command = seq<string>

  /** Sizes stay below what a C++ container can hold, PTRDIFF_MAX. */
  predicate Storable(items: Command) {
    |items| <= LONG_MAX && forall i :: 0 <= i < |items| ==> |items[i]| <= LONG_MAX
  }

  function Bulks(items: Command): (rs: seq<Reply>)
    ensures |rs| == |items|
    ensures forall i :: 0 <= i < |items| ==> rs[i] == BulkString(items[i])
  {
    seq(|items|, i requires 0 <= i < |items| => BulkString(items[i]))
  }

  /** The wire form of a command. */
  function Wire(items: Command): string {
    Encode(Multi(Bulks(items)))
  }

  function WireAll(commands: seq<Command>): string {
    if commands == [] then "" else Wire(commands[0]) + WireAll(commands[1..])
  }

  function WireList(commands: seq<Command>): (ws: seq<string>)
    ensures |ws| == |commands| && forall i :: 0 <= i < |ws| ==> ws[i] == Wire(commands[i])
  {
    seq(|commands|, i requires 0 <= i < |commands| => Wire(commands[i]))
  }

  lemma {:induction false} FlattenWires(commands: seq<Command>)
    ensures Flatten(WireList(commands)) == WireAll(commands)
  {
    hide Wire;
    if commands != [] {
      assert WireList(commands)[1..] == WireList(commands[1..]);
      FlattenWires(commands[1..]);
    }
  }

  /** Appending one more argument to the printed ones. */
  lemma OneMoreBulk(items: Command, i: nat)
    requires i < |items|
    ensures EncodeAll(Bulks(items[..i + 1])) ==
            EncodeAll(Bulks(items[..i])) + ("$" + Decimal(|items[i]|) + CRLF + items[i] + CRLF)
  {
    hide Decimal;
    var last := BulkString(items[i]);
    assert Bulks(items[..i + 1]) == Bulks(items[..i]) + [last];
    EncodeAllAppend(Bulks(items[..i]), [last]);
    assert EncodeAll([last]) == Encode(last) + EncodeAll([]);
  }

  /** One printed argument: its length, a line end, its bytes and a line end. */
  ghost predicate IsPrintedItem(item: string, bytes: string) {
    exists size: string :: Numbers.Canonical(size, |item|) && bytes == "$" + size + "\r\n" + item + "\r\n"
  }

  /** The bytes of a command: the number of its arguments, a line end and each of them. */
  ghost predicate IsPrinted(items: Command, bytes: string) {
    exists size: string, parts: seq<string> ::
      && Numbers.Canonical(size, |items|) && |parts| == |items|
      && (forall i :: 0 <= i < |items| ==> IsPrintedItem(items[i], parts[i]))
      && bytes == "*" + size + "\r\n" + Flatten(parts)
  }

  /** This determines them. */
  lemma PrintedIsUnique(items: Command, a: string, b: string)
    requires IsPrinted(items, a) && IsPrinted(items, b)
    ensures a == b
  {
    hide Numbers.Canonical, IsPrintedItem, Flatten;
    var m: string, xs: seq<string> :|
      && Numbers.Canonical(m, |items|) && |xs| == |items|
      && (forall i :: 0 <= i < |items| ==> IsPrintedItem(items[i], xs[i]))
      && a == "*" + m + "\r\n" + Flatten(xs);
    var n: string, ys: seq<string> :|
      && Numbers.Canonical(n, |items|) && |ys| == |items|
      && (forall i :: 0 <= i < |items| ==> IsPrintedItem(items[i], ys[i]))
      && b == "*" + n + "\r\n" + Flatten(ys);
    Numbers.CanonicalIsUnique(m, n, |items|);
    PrintedItemsAreUnique(items, xs, ys);
  }

  lemma PrintedItemsAreUnique(items: Command, xs: seq<string>, ys: seq<string>)
    requires |xs| == |items| && forall i :: 0 <= i < |items| ==> IsPrintedItem(items[i], xs[i])
    requires |ys| == |items| && forall i :: 0 <= i < |items| ==> IsPrintedItem(items[i], ys[i])
    ensures xs == ys
  {
    hide IsPrintedItem;
    forall i | 0 <= i < |items|
      ensures xs[i] == ys[i]
    {
      PrintedItemIsUnique(items[i], xs[i], ys[i]);
    }
  }

  lemma PrintedItemIsUnique(item: string, a: string, b: string)
    requires IsPrintedItem(item, a) && IsPrintedItem(item, b)
    ensures a == b
  {
    hide Numbers.Canonical;
    var m: string :| Numbers.Canonical(m, |item|) && a == "$" + m + "\r\n" + item + "\r\n";
    var n: string :| Numbers.Canonical(n, |item|) && b == "$" + n + "\r\n" + item + "\r\n";
    Numbers.CanonicalIsUnique(m, n, |item|);
  }

  function ItemBytes(item: string): string {
    "$" + Decimal(|item|) + CRLF + item + CRLF
  }

  function PartsOf(items: Command): (parts: seq<string>)
    ensures |parts| == |items| && forall i :: 0 <= i < |items| ==> parts[i] == ItemBytes(items[i])
  {
    seq(|items|, i requires 0 <= i < |items| => ItemBytes(items[i]))
  }

  /** The wire form is what is to be printed. */
  lemma WireIsPrinted(items: Command)
    ensures IsPrinted(items, Wire(items))
  {
    hide Decimal, EncodeAll, Numbers.Canonical, Flatten;
    Numbers.DecimalIsCanonical(|items|);
    var size, parts := Decimal(|items|), PartsOf(items);
    BulksAreParts(items);
    forall i | 0 <= i < |items|
      ensures IsPrintedItem(items[i], parts[i])
    {
      Numbers.DecimalIsCanonical(|items[i]|);
      ItemIsPrinted(items[i], Decimal(|items[i]|), parts[i]);
    }
    assert CRLF == "\r\n";
    assert Wire(items) == "*" + size + "\r\n" + Flatten(parts);
  }

  lemma ItemIsPrinted(item: string, size: string, bytes: string)
    requires Numbers.Canonical(size, |item|) && bytes == "$" + size + CRLF + item + CRLF
    ensures IsPrintedItem(item, bytes)
  {
    assert CRLF == "\r\n";
    assert bytes == "$" + size + "\r\n" + item + "\r\n";
  }

  lemma {:induction false} BulksAreParts(items: Command)
    ensures EncodeAll(Bulks(items)) == Flatten(PartsOf(items))
  {
    hide Decimal;
    if items != [] {
      var rs, parts := Bulks(items), PartsOf(items);
      assert rs[1..] == Bulks(items[1..]) && parts[1..] == PartsOf(items[1..]);
      BulksAreParts(items[1..]);
      assert Encode(rs[0]) == parts[0];
    }
  }

  method MakeCommand(items: Command) returns (result: string)
    ensures result == Wire(items) && IsPrinted(items, result)
  {
    hide EncodeAll, Decimal, IsPrinted;
    WireIsPrinted(items);
    result := "";
    result := result + ['*'];
    result := result + Decimal(|items|);
    result := result + CRLF;
    ghost var header := result;
    assert items[..0] == [] && Bulks([]) == [] && header + EncodeAll([]) == header by {
      EmptyList();
    }
    for i := 0 to |items|
      invariant result == header + EncodeAll(Bulks(items[..i]))
    {
      var item := items[i];
      ghost var before := result;
      result := result + ['$'];
      result := result + Decimal(|item|);
      result := result + CRLF;
      result := result + item;
      result := result + CRLF;
      OneMoreBulk(items, i);
      assert result == before + ("$" + Decimal(|item|) + CRLF + item + CRLF);
    }
    assert items[..|items|] == items;
  }

  /** The buffers of a pipeline, one for each command. */
  method MakeCommands(commands: seq<Command>) returns (data: seq<string>)
    ensures data == WireList(commands)
  {
    hide Wire;
    data := [];
    for i := 0 to |commands|
      invariant data == WireList(commands[..i])
    {
      var w := MakeCommand(commands[i]);
      data := data + [w];
    }
    assert commands[..|commands|] == commands;
  }

  lemma EmptyList()
    ensures EncodeAll([]) == ""
  {
  }

  lemma CommandIsSendable(items: Command)
    requires Storable(items)
    ensures Sendable(Multi(Bulks(items)))
  {
    var rs := Bulks(items);
    assert forall i :: 0 <= i < |rs| ==> Sendable(rs[i]);
    assert AllSendable(rs);
  }

  /** The parser reads a printed command back as the array of its arguments, whatever bytes
      they hold and whatever follows. */
  lemma CommandRoundTrip(p: Parser, items: Command, rest: string)
    requires p.Idle() && Storable(items)
    ensures var q := Parse(p, Wire(items) + rest);
            && q.outcome == Completed && q.consumed == |Wire(items)|
            && q.p.d.redisValue.Array? && |q.p.d.redisValue.elems| == |items|
            && forall i :: 0 <= i < |items| ==> q.p.d.redisValue.elems[i] == Str(items[i], false)
  {
    hide Parse, Encode;
    CommandIsSendable(items);
    ReplyRoundTrip(p, Multi(Bulks(items)), rest);
  }

  /** `makeCommand` is injective and self-delimiting. */
  lemma CommandIsUnique(a: Command, x: string, b: Command, y: string)
    requires Storable(a) && Storable(b) && Wire(a) + x == Wire(b) + y
    ensures a == b && x == y
  {
    hide Encode;
    CommandIsSendable(a);
    CommandIsSendable(b);
    EncodingIsUnique(Multi(Bulks(a)), x, Multi(Bulks(b)), y);
    var va, vb := Meanings(Bulks(a)), Meanings(Bulks(b));
    assert va == vb;
    assert forall i :: 0 <= i < |a| ==> va[i] == Str(a[i], false);
    assert forall i :: 0 <= i < |b| ==> vb[i] == Str(b[i], false);
  }

  /** Commands sent back to back split in only one way. */
  lemma {:induction false} PipelineIsUnique(a: seq<Command>, b: seq<Command>)
    requires forall i :: 0 <= i < |a| ==> Storable(a[i])
    requires forall i :: 0 <= i < |b| ==> Storable(b[i])
    requires WireAll(a) == WireAll(b)
    ensures a == b
  {
    hide Encode;
    if a != [] && b != [] {
      CommandIsUnique(a[0], WireAll(a[1..]), b[0], WireAll(b[1..]));
      PipelineIsUnique(a[1..], b[1..]);
      assert a == [a[0]] + a[1..] && b == [b[0]] + b[1..];
    }
  }
}

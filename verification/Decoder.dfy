/** RESP2 replies read by recursive descent over the whole input: the reference that the
    stack machine of `ParserModel` is proved equal to. It has no state, no stacks and no
    notion of a chunk. */
module Decoder {
  import opened Resp
  import opened ParserModel
  import Numbers

  /** A line up to CR LF: its text and the offset behind it; or the input ended too early; or
      the byte before offset `at` cannot stand there. */
  datatype Line = Line(text: string, next: nat) | Short | Broken(at: nat)

  datatype LineKind = TextLine | HeaderLine

  predicate Fits(kind: LineKind, c: char) {
    if kind == TextLine then IsText(c) else IsHeader(c)
  }

  /** Length of the longest prefix of bytes that fit the kind of line. */
  function Span(kind: LineKind, s: string): (k: nat)
    ensures k <= |s|
    ensures forall i :: 0 <= i < k ==> Fits(kind, s[i])
    ensures k < |s| ==> !Fits(kind, s[k])
  {
    if s == "" || !Fits(kind, s[0]) then 0 else 1 + Span(kind, s[1..])
  }

  function ReadLine(kind: LineKind, s: string): (r: Line)
    ensures r.Line? ==> 2 <= r.next <= |s|
    ensures r.Broken? ==> 1 <= r.at <= |s|
  {
    var k := Span(kind, s);
    if k == |s| then Short
    else if s[k] != CR || (kind == HeaderLine && k == 0) then Broken(k + 1)
    else if k + 1 == |s| then Short
    else if s[k + 1] != LF then Broken(k + 2)
    else Line(s[..k], k + 2)
  }

  /** A decoded prefix of `n` bytes; or more bytes are needed; or the byte before offset `n`
      is an error; or the header ending there has no defined value. */
  datatype Decoded<T> = Value(v: T, n: nat) | NeedMore | Malformed(n: nat) | BadNumber(n: nat)

  function Decode(s: string): (r: Decoded<RedisValue>)
    ensures r.Value? || r.Malformed? || r.BadNumber? ==> 1 <= r.n <= |s|
    decreases |s|, 0
  {
    if s == "" then NeedMore
    else if s[0] in "+-" then
      match ReadLine(TextLine, s[1..])
      case Short => NeedMore
      case Broken(at) => Malformed(1 + at)
      case Line(text, next) => Value(Str(text, s[0] == '-'), 1 + next)
    else if s[0] in ":$*" then
      match ReadLine(HeaderLine, s[1..])
      case Short => NeedMore
      case Broken(at) => Malformed(1 + at)
      case Line(text, next) =>
        match Numbers.Value(text)
        case None => BadNumber(1 + next)
        case Some(n) =>
          if s[0] == ':' then Value(Int(n), 1 + next)
          else if n == -1 then Value(Nil, 1 + next)
          else if n < 0 then Malformed(1 + next)
          else if s[0] == '$' then DecodeBulk(s, 1 + next, n)
          else
            match DecodeMany(n, s[1 + next..])
            case Value(vs, k) => Value(Array(vs), 1 + next + k)
            case NeedMore => NeedMore
            case Malformed(k) => Malformed(1 + next + k)
            case BadNumber(k) => BadNumber(1 + next + k)
    else Malformed(1)
  }

  /** `n` bytes of any kind from offset `at` on, closed by CR LF. */
  function DecodeBulk(s: string, at: nat, n: nat): (r: Decoded<RedisValue>)
    requires 1 <= at <= |s|
    ensures r.Value? || r.Malformed? ==> 1 <= r.n <= |s|
    ensures !r.BadNumber?
  {
    if |s| <= at + n then NeedMore
    else if s[at + n] != CR then Malformed(at + n + 1)
    else if |s| == at + n + 1 then NeedMore
    else if s[at + n + 1] != LF then Malformed(at + n + 2)
    else Value(Str(s[at..at + n], false), at + n + 2)
  }

  /** `count` values, one behind the other. */
  function DecodeMany(count: nat, s: string): (r: Decoded<seq<RedisValue>>)
    ensures r.Value? ==> |r.v| == count
    ensures r.Value? || r.Malformed? || r.BadNumber? ==> r.n <= |s|
    decreases |s|, 1
  {
    if count == 0 then Value([], 0)
    else
      match Decode(s)
      case NeedMore => NeedMore
      case Malformed(n) => Malformed(n)
      case BadNumber(n) => BadNumber(n)
      case Value(v, n) =>
        match DecodeMany(count - 1, s[n..])
        case Value(vs, k) => Value([v] + vs, n + k)
        case NeedMore => NeedMore
        case Malformed(k) => Malformed(n + k)
        case BadNumber(k) => BadNumber(n + k)
  }

  // ---- The machine reads what the decoder reads ----

  /** The machine has read `n` bytes of `s`, `v` is finished, and `d` is what is left after
      handing it to the open arrays of `open`: the run ends there or goes on from there. */
  ghost predicate Emits(m: Machine, s: string, open: Data, v: RedisValue, n: nat, d: Data)
    requires m.Valid() && open.StacksValid()
  {
    var after := Deliver(open.(redisValue := v));
    && n <= |s|
    && d.StacksValid()
    && d.(bulkSize := after.bulkSize, buf := after.buf) == after
    && (if d.arraySizes == [] then Run(m, s) == Ran(n, Completed, Machine(Start, d))
        else Reaches(m, s, n, Machine(Start, d)))
  }

  /** Deliver never looks at the fields it passes through. */
  lemma {:induction false} DeliverIgnores(d: Data, bulkSize: int, buf: string)
    requires d.StacksValid()
    ensures Deliver(d.(bulkSize := bulkSize, buf := buf)) == Deliver(d).(bulkSize := bulkSize, buf := buf)
    decreases |d.arraySizes|
  {
    if d.arraySizes != [] {
      var d' := d.(bulkSize := bulkSize, buf := buf);
      DeliverLevel(d);
      DeliverLevel(d');
      hide Deliver;
      if d.arraySizes[|d.arraySizes| - 1] == 1 {
        assert Popped(Pushed(d')) == Popped(Pushed(d)).(bulkSize := bulkSize, buf := buf);
        DeliverIgnores(Popped(Pushed(d)), bulkSize, buf);
      }
    }
  }

  /** The finishing byte of a scalar value. */
  lemma Finish(m: Machine, s: string, d: Data, v: RedisValue)
    requires m.Valid() && s != "" && d.StacksValid()
    requires d.redisValue == v && Consume(m, s[0]) == Next(Machine(Start, d))
    ensures Emits(m, s, d, v, 1, Deliver(d))
  {
  }

  /** Emitting after a few bytes is emitting. */
  lemma EmitsLater(m: Machine, m': Machine, s: string, k: nat, open: Data, open': Data, v: RedisValue, n: nat, d: Data)
    requires m.Valid() && m'.Valid() && open.StacksValid() && open'.StacksValid() && k <= |s|
    requires Reaches(m, s, k, m')
    requires Emits(m', s[k..], open', v, n, d)
    requires open'.arraySizes == open.arraySizes && open'.arrayValues == open.arrayValues
    ensures Emits(m, s, open, v, k + n, d)
  {
    hide Run;
    DeliverIgnores(open'.(redisValue := v), open.bulkSize, open.buf);
    assert s[k..][n..] == s[k + n..];
  }

  predicate LineState(kind: LineKind, state: State) {
    if kind == TextLine then state in {String, ErrorString} else state in {Integer, BulkSize, ArraySize}
  }

  function LineEnd(state: State): State {
    match state
    case String => StringLF
    case ErrorString => ErrorLF
    case Integer => IntegerLF
    case BulkSize => BulkSizeLF
    case _ => ArraySizeLF
  }

  function Grown(m: Machine, text: string): Machine {
    m.(d := m.d.(buf := m.d.buf + text))
  }

  lemma LineByte(m: Machine, kind: LineKind, c: char)
    requires m.Valid() && LineState(kind, m.state)
    ensures Fits(kind, c) ==> Step(m, c) == Next(Grown(m, [c]))
    ensures !Fits(kind, c) && (c != CR || (kind == HeaderLine && m.d.buf == "")) ==> Step(m, c).Failed?
    ensures c == CR && !(kind == HeaderLine && m.d.buf == "") ==> Step(m, c) == Next(m.(state := LineEnd(m.state)))
  {
    hide Deliver;
  }

  lemma {:induction false} RunSpan(m: Machine, kind: LineKind, s: string)
    requires m.Valid() && LineState(kind, m.state)
    ensures var k := Span(kind, s);
            Reaches(m, s, k, Grown(m, s[..k]))
    decreases |s|
  {
    hide Step, Run;
    var k := Span(kind, s);
    if k == 0 {
      assert m.d.buf + s[..0] == m.d.buf && s[0..] == s;
    } else {
      var t := s[1..];
      var m1 := Grown(m, [s[0]]);
      LineByte(m, kind, s[0]);
      RunStep(m, s);
      RunSpan(m1, kind, t);
      assert m1.d.buf + t[..k - 1] == m.d.buf + s[..k];
      assert t[k - 1..] == s[k..];
    }
  }

  /** The machine reads a line as ReadLine does, starting with an empty buffer. */
  lemma RunLine(m: Machine, kind: LineKind, s: string)
    requires m.Valid() && LineState(kind, m.state) && m.d.buf == ""
    ensures var r := ReadLine(kind, s);
            && (r.Short? ==> Run(m, s).outcome == Incompleted)
            && (r.Broken? ==> Run(m, s).outcome == Error && Run(m, s).consumed == r.at)
            && (r.Line? ==>
                  && s[r.next - 1] == LF
                  && Reaches(m, s, r.next - 1, Machine(LineEnd(m.state), m.d.(buf := r.text))))
  {
    hide Step, Run, Reaches, Span;
    var k := Span(kind, s);
    var m1 := Grown(m, s[..k]);
    RunSpan(m, kind, s);
    assert m1.d.buf == s[..k];
    if k == |s| {
      RunEmpty(m1);
      RunEnds(m, s, k, m1);
    } else {
      LineStops(m, kind, s, k, m1);
    }
  }

  /** The first byte that does not fit the line, and the one behind it. */
  lemma LineStops(m: Machine, kind: LineKind, s: string, k: nat, m1: Machine)
    requires m.Valid() && m1.Valid() && LineState(kind, m.state) && m1.state == m.state
    requires k < |s| && !Fits(kind, s[k]) && (m1.d.buf == "" <==> k == 0) && Reaches(m, s, k, m1)
    ensures var r, stops := Run(m, s), s[k] != CR || (kind == HeaderLine && k == 0);
            && (stops ==> r.outcome == Error && r.consumed == k + 1)
            && (!stops && k + 1 == |s| ==> r.outcome == Incompleted)
            && (!stops && k + 1 < |s| && s[k + 1] != LF ==> r.outcome == Error && r.consumed == k + 2)
            && (!stops && k + 1 < |s| && s[k + 1] == LF ==> Reaches(m, s, k + 1, Machine(LineEnd(m.state), m1.d)))
  {
    hide Step, Run, Reaches;
    LineByte(m1, kind, s[k]);
    if s[k] == CR && !(kind == HeaderLine && k == 0) {
      var m2 := Machine(LineEnd(m.state), m1.d);
      StepAt(s, m1, k, m2);
      Chain(s, m, k, m1, 1, m2);
      LineFeed(m2, s[k + 1..]);
      RunEnds(m, s, k + 1, m2);
    } else {
      RunFails(m1, s[k..]);
      RunEnds(m, s, k, m1);
    }
  }

  /** How a run ends is decided by what follows the machine it reaches. */
  lemma RunEnds(m: Machine, s: string, k: nat, m': Machine)
    requires m.Valid() && m'.Valid() && k <= |s| && Reaches(m, s, k, m')
    ensures Run(m, s).outcome == Run(m', s[k..]).outcome && Run(m, s).consumed == k + Run(m', s[k..]).consumed
  {
    hide Run;
  }

  lemma RunFails(m: Machine, s: string)
    requires m.Valid() && s != "" && Step(m, s[0]).Failed?
    ensures Run(m, s).outcome == Error && Run(m, s).consumed == 1
  {
    hide Step;
  }

  /** After CR only LF will do. */
  lemma LineFeed(m: Machine, s: string)
    requires m.Valid() && m.state in {StringLF, ErrorLF, IntegerLF, BulkSizeLF, ArraySizeLF}
    ensures s == "" ==> Run(m, s).outcome == Incompleted
    ensures s != "" && s[0] != LF ==> Run(m, s).outcome == Error && Run(m, s).consumed == 1
  {
    hide Run;
    if s == "" {
      RunEmpty(m);
    } else if s[0] != LF {
      NoLineFeed(m, s[0]);
      RunFails(m, s);
    }
  }

  lemma NoLineFeed(m: Machine, c: char)
    requires m.Valid() && m.state in {StringLF, ErrorLF, IntegerLF, BulkSizeLF, ArraySizeLF} && c != LF
    ensures Step(m, c).Failed?
  {
    hide Deliver, Numbers.Value;
  }

  function KindOf(c: char): LineKind {
    if c in "+-" then TextLine else HeaderLine
  }

  function FirstState(c: char): State {
    if c == '+' then String else if c == '-' then ErrorString else if c == ':' then Integer
    else if c == '$' then BulkSize else ArraySize
  }

  /** The machine behind the CR of the first line of a reply. */
  function AtLineFeed(d: Data, c: char, text: string): Machine {
    Machine(LineEnd(FirstState(c)), d.(buf := text, bulkSize := if c == '$' then 0 else d.bulkSize))
  }

  lemma FirstByte(m: Machine, c: char)
    requires m.Valid() && m.state in {Start, StartArray} && c in "+-:$*"
    ensures Step(m, c) == Next(Machine(FirstState(c), AtLineFeed(m.d, c, "").d))
  {
  }

  lemma FirstLine(m: Machine, s: string)
    requires m.Valid() && m.state in {Start, StartArray} && s != "" && s[0] in "+-:$*"
    ensures var r := ReadLine(KindOf(s[0]), s[1..]);
            && (r.Short? ==> Run(m, s).outcome == Incompleted)
            && (r.Broken? ==> Run(m, s).outcome == Error && Run(m, s).consumed == 1 + r.at)
            && (r.Line? ==>
                  && s[r.next] == LF
                  && AtLineFeed(m.d, s[0], r.text).Valid()
                  && Reaches(m, s, r.next, AtLineFeed(m.d, s[0], r.text)))
  {
    hide ReadLine, Step, Run;
    var t := s[1..];
    var m1 := Machine(FirstState(s[0]), AtLineFeed(m.d, s[0], "").d);
    FirstByte(m, s[0]);
    RunStep(m, s);
    RunLine(m1, KindOf(s[0]), t);
    var r := ReadLine(KindOf(s[0]), t);
    if r.Line? {
      assert t[r.next - 1..] == s[r.next..];
    }
  }

  /** What the machine does when the decoder finds no value. */
  ghost predicate Ends<T>(m: Machine, s: string, r: Decoded<T>)
    requires m.Valid()
  {
    match r
    case Value(_, _) => false
    case NeedMore => Run(m, s).outcome == Incompleted
    case Malformed(n) => Run(m, s).outcome == Error && Run(m, s).consumed == n
    case BadNumber(n) => Run(m, s).outcome == Outcome.Undefined && Run(m, s).consumed == n
  }

  lemma EndsLater<T, U>(m: Machine, s: string, k: nat, m': Machine, r: Decoded<T>, r': Decoded<U>)
    requires m.Valid() && m'.Valid() && k <= |s| && Reaches(m, s, k, m') && Ends(m', s[k..], r)
    requires r.NeedMore? ==> r' == NeedMore
    requires r.Malformed? ==> r' == Malformed(k + r.n)
    requires r.BadNumber? ==> r' == BadNumber(k + r.n)
    ensures Ends(m, s, r')
  {
    hide Run;
  }

  ghost predicate Agrees(m: Machine, s: string, d: Data)
    requires m.Valid()
  {
    var r := Decode(s);
    if r.Value? then Emits(m, s, m.d, r.v, r.n, d) else Ends(m, s, r)
  }

  /** A scalar that the line feed at offset `next` completes. */
  lemma LineCompletes(m: Machine, s: string, m': Machine, next: nat, v: RedisValue) returns (d: Data)
    requires m.Valid() && m'.Valid() && next < |s|
    requires Reaches(m, s, next, m')
    requires Consume(m', s[next]).Next? && Consume(m', s[next]).m.state == Start
    requires var d' := Consume(m', s[next]).m.d;
             d'.redisValue == v && d'.arraySizes == m.d.arraySizes && d'.arrayValues == m.d.arrayValues
    ensures Emits(m, s, m.d, v, next + 1, d)
  {
    hide Consume, Run;
    var d' := Consume(m', s[next]).m.d;
    d := Deliver(d');
    Finish(m', s[next..], d', v);
    EmitsLater(m, m', s, next, m.d, d', v, 1, d);
  }

  lemma ReadsText(m: Machine, s: string) returns (d: Data)
    requires m.Valid() && m.state in {Start, StartArray} && s != "" && s[0] in "+-"
    ensures Agrees(m, s, d)
  {
    hide Run, ReadLine, Emits, Deliver;
    FirstLine(m, s);
    d := m.d;
    var line := ReadLine(TextLine, s[1..]);
    if line.Line? {
      d := LineCompletes(m, s, AtLineFeed(m.d, s[0], line.text), line.next, Str(line.text, s[0] == '-'));
    }
  }

  /** A chunk that ends here leaves the value unfinished. */
  lemma RunEmpty(m: Machine)
    requires m.Valid() && !m.Done()
    ensures Run(m, "") == Ran(0, Incompleted, m)
  {
  }

  /** The payload of a bulk string, from the first byte behind its header. */
  lemma ReadsBulk(m: Machine, s: string, m': Machine, at: nat, n: nat) returns (d: Data)
    requires m.Valid() && m'.Valid() && 1 <= at <= |s|
    requires Reaches(m, s, at, m')
    requires m'.state == (if n == 0 then BulkCR else Bulk) && m'.d.buf == "" && m'.d.bulkSize == n
    requires m'.d.arraySizes == m.d.arraySizes && m'.d.arrayValues == m.d.arrayValues
    ensures var r := DecodeBulk(s, at, n);
            if r.Value? then Emits(m, s, m.d, r.v, r.n, d) else Ends(m, s, r)
  {
    hide Deliver, Emits, Run, Reaches;
    d := m.d;
    var k := if at + n <= |s| then n else |s| - at;
    var m1 := m';
    assert s[at..][..k] == s[at..at + k];
    if n > 0 {
      BlockCopy(m', s[at..], k);
      m1 := AfterBlock(m', s[at..][..k]);
      assert m1.d.buf == s[at..at + k];
      Chain(s, m, at, m', k, m1);
    }
    if |s| > at + n {
      d := BulkTail(m, s, m1, at + n);
    } else {
      RunEmpty(m1);
      assert s[at + k..] == "";
      EndsLater<RedisValue, RedisValue>(m, s, at + k, m1, NeedMore, NeedMore);
    }
  }

  /** CR LF behind the payload. */
  lemma BulkTail(m: Machine, s: string, m1: Machine, at: nat) returns (d: Data)
    requires m.Valid() && m1.Valid() && at < |s| && m1.state == BulkCR
    requires Reaches(m, s, at, m1)
    requires m1.d.arraySizes == m.d.arraySizes && m1.d.arrayValues == m.d.arrayValues
    ensures s[at] != CR ==> Run(m, s).outcome == Error && Run(m, s).consumed == at + 1
    ensures s[at] == CR && |s| == at + 1 ==> Run(m, s).outcome == Incompleted
    ensures s[at] == CR && |s| > at + 1 && s[at + 1] != LF ==>
              Run(m, s).outcome == Error && Run(m, s).consumed == at + 2
    ensures s[at] == CR && |s| > at + 1 && s[at + 1] == LF ==> Emits(m, s, m.d, Str(m1.d.buf, false), at + 2, d)
  {
    hide Deliver, Emits;
    d := m.d;
    if s[at] == CR {
      var m2 := Machine(BulkLF, m1.d);
      assert Step(m1, CR) == Next(m2);
      RunStep(m1, s[at..]);
      assert s[at..][1..] == s[at + 1..];
      if |s| > at + 1 && s[at + 1] == LF {
        d := LineCompletes(m, s, m2, at + 1, Str(m1.d.buf, false));
      }
    }
  }

  /** The line feed of a header that has no defined number, or a bad size. */
  lemma HeaderFails(m: Machine, s: string, m': Machine, next: nat)
    requires m.Valid() && m'.Valid() && next < |s|
    requires Reaches(m, s, next, m')
    ensures Consume(m', s[next]).Stuck? ==> Run(m, s).outcome == Outcome.Undefined && Run(m, s).consumed == next + 1
    ensures Consume(m', s[next]).Failed? ==> Run(m, s).outcome == Error && Run(m, s).consumed == next + 1
  {
    hide Consume;
  }

  /** A line feed behind a header: what follows from the number it denotes. */
  lemma HeaderMove(d: Data, c: char, text: string)
    requires d.StacksValid() && c in ":$*"
    ensures var num := Numbers.Value(text);
            var r := Consume(AtLineFeed(d, c, text), LF);
            if num.None? then r == Stuck
            else if c == ':' then ScalarMove(d, r, Int(num.value))
            else if num.value == -1 then ScalarMove(d, r, Nil)
            else if num.value < 0 then r.Failed?
            else if c == '$' then
              && r.Next? && r.m.state == (if num.value == 0 then BulkCR else Bulk)
              && r.m.d.buf == "" && r.m.d.bulkSize == num.value
              && r.m.d.arraySizes == d.arraySizes && r.m.d.arrayValues == d.arrayValues
            else if num.value == 0 then ScalarMove(d, r, Array([]))
            else
              && r.Next? && r.m.state == StartArray
              && r.m.d.arraySizes == d.arraySizes + [num.value]
              && r.m.d.arrayValues == d.arrayValues + [Array([])]
  {
    hide Numbers.Value;
  }

  ghost predicate ScalarMove(d: Data, r: Move, v: RedisValue) {
    && r.Next? && r.m.state == Start
    && r.m.d.redisValue == v && r.m.d.arraySizes == d.arraySizes && r.m.d.arrayValues == d.arrayValues
  }

  /** Number headers: integers, nulls, bad sizes, empty arrays and bulk strings. */
  lemma ReadsScalarHeader(m: Machine, s: string) returns (d: Data)
    requires m.Valid() && m.state in {Start, StartArray} && s != "" && s[0] in ":$*"
    requires s[0] == '*' ==>
               var r := ReadLine(HeaderLine, s[1..]);
               r.Line? && Numbers.Value(r.text).Some? ==> Numbers.Value(r.text).value <= 0
    ensures Agrees(m, s, d)
  {
    hide ReadLine, Emits, Deliver, Numbers.Value, Run, DecodeBulk, Consume;
    FirstLine(m, s);
    d := m.d;
    var line := ReadLine(HeaderLine, s[1..]);
    if line.Line? {
      var next := line.next;
      var m1 := AtLineFeed(m.d, s[0], line.text);
      var num := Numbers.Value(line.text);
      HeaderMove(m.d, s[0], line.text);
      if num.None? || (num.value < -1 && s[0] != ':') {
        HeaderFails(m, s, m1, next);
      } else if s[0] == ':' {
        d := LineCompletes(m, s, m1, next, Int(num.value));
      } else if num.value == -1 {
        d := LineCompletes(m, s, m1, next, Nil);
      } else if s[0] == '*' {
        assert DecodeMany(0, s[1 + next..]) == Value([], 0);
        d := LineCompletes(m, s, m1, next, Array([]));
      } else {
        var m2 := Consume(m1, LF).m;
        StepAt(s, m1, next, m2);
        Chain(s, m, next, m1, 1, m2);
        d := ReadsBulk(m, s, m2, next + 1, num.value);
      }
    }
  }

  ghost function Outer(d: Data): (r: Data)
    requires d.StacksValid() && d.arraySizes != []
    ensures r.StacksValid()
  {
    var top := |d.arraySizes| - 1;
    d.(arraySizes := d.arraySizes[..top], arrayValues := d.arrayValues[..top])
  }

  /** An array header opens an array. */
  lemma ArrayOpens(m: Machine, s: string, text: string, next: nat, n: int) returns (m2: Machine)
    requires m.Valid() && m.state in {Start, StartArray} && s != "" && s[0] == '*' && next < |s|
    requires ReadLine(HeaderLine, s[1..]) == Line(text, next) && Numbers.Value(text) == Numbers.Some(n) && n > 0
    ensures m2.Valid() && m2.state == StartArray && Reaches(m, s, next + 1, m2)
    ensures m2.d.arraySizes == m.d.arraySizes + [n] && m2.d.arrayValues == m.d.arrayValues + [Array([])]
  {
    hide ReadLine, Deliver, Numbers.Value, Run, Consume, Reaches;
    FirstLine(m, s);
    var m1 := AtLineFeed(m.d, s[0], text);
    HeaderMove(m.d, s[0], text);
    m2 := Consume(m1, LF).m;
    StepAt(s, m1, next, m2);
    Chain(s, m, next, m1, 1, m2);
  }

  /** Its elements follow. */
  lemma ReadsArray(m: Machine, s: string, text: string, next: nat, n: int) returns (d: Data)
    requires m.Valid() && m.state in {Start, StartArray} && s != "" && s[0] == '*'
    requires ReadLine(HeaderLine, s[1..]) == Line(text, next) && Numbers.Value(text) == Numbers.Some(n) && n > 0
    ensures Agrees(m, s, d)
    decreases |s|, 0
  {
    hide ReadLine, Emits, Deliver, Numbers.Value, Run, Consume, Reaches, Ends, Step;
    var m2 := ArrayOpens(m, s, text, next, n);
    var t, at := s[next + 1..], next + 1;
    d := ReadsMany(m2, t, n);
    var r := DecodeMany(n, t);
    if r.Value? {
      assert [] + r.v == r.v;
      ArrayEmits(m, m2, s, at, r.v, r.n, d);
    } else {
      EndsLater(m, s, at, m2, r, Decode(s));
    }
  }

  /** The value of an array is emitted to whatever was open in front of it. */
  lemma ArrayEmits(m: Machine, m2: Machine, s: string, at: nat, vs: seq<RedisValue>, n: nat, d: Data)
    requires m.Valid() && m2.Valid() && at <= |s| && Reaches(m, s, at, m2) && m2.d.arraySizes != []
    requires m2.d.arraySizes[..|m2.d.arraySizes| - 1] == m.d.arraySizes
    requires m2.d.arrayValues[..|m2.d.arrayValues| - 1] == m.d.arrayValues
    requires Emits(m2, s[at..], Outer(m2.d), Array(vs), n, d)
    ensures Emits(m, s, m.d, Array(vs), at + n, d)
  {
    hide Reaches, Emits, Deliver;
    EmitsLater(m, m2, s, at, m.d, Outer(m2.d), Array(vs), n, d);
  }

  /** Every kind of reply. */
  lemma Reads(m: Machine, s: string) returns (d: Data)
    requires m.Valid() && m.state in {Start, StartArray}
    requires s != "" || m.d.arraySizes != []
    ensures Agrees(m, s, d)
    decreases |s|, 1
  {
    hide ReadLine, Emits, Deliver, Numbers.Value;
    d := m.d;
    if s == "" {
    } else if s[0] in "+-" {
      d := ReadsText(m, s);
    } else if s[0] in ":$*" {
      var line := ReadLine(HeaderLine, s[1..]);
      if s[0] == '*' && line.Line? && Numbers.Value(line.text).Some? && Numbers.Value(line.text).value > 0 {
        d := ReadsArray(m, s, line.text, line.next, Numbers.Value(line.text).value);
      } else {
        d := ReadsScalarHeader(m, s);
      }
    }
  }

  /** The remaining elements of the innermost open array. */
  lemma ReadsMany(m: Machine, s: string, count: nat) returns (d: Data)
    requires m.Valid() && m.state in {Start, StartArray} && m.d.arraySizes != []
    requires count == m.d.arraySizes[|m.d.arraySizes| - 1]
    ensures var r, held := DecodeMany(count, s), m.d.arrayValues[|m.d.arrayValues| - 1].elems;
            if r.Value? then Emits(m, s, Outer(m.d), Array(held + r.v), r.n, d) else Ends(m, s, r)
    decreases |s|, 2
  {
    hide Decode, Step, Run, Emits, Deliver;
    d := Reads(m, s);
    var first := Decode(s);
    if first.Value? {
      var held := m.d.arrayValues[|m.d.arrayValues| - 1].elems;
      var t := s[first.n..];
      if count == 1 {
        assert DecodeMany(0, t) == Value([], 0);
        LastElement(m, s, first.v, first.n, d);
        assert [first.v] + [] == [first.v];
      } else {
        MiddleElement(m, s, first.v, first.n, d);
        var m1 := Machine(Start, d);
        var rest := DecodeMany(count - 1, t);
        d := ReadsMany(m1, t, count - 1);
        if rest.Value? {
          EmitsLater(m, m1, s, first.n, Outer(m.d), Outer(m1.d), Array(held + [first.v] + rest.v), rest.n, d);
          assert held + [first.v] + rest.v == held + ([first.v] + rest.v);
        }
      }
    }
  }

  /** Any other element only fills a slot of the innermost array. */
  lemma MiddleElement(m: Machine, s: string, v: RedisValue, n: nat, d: Data)
    requires m.Valid() && m.d.arraySizes != [] && m.d.arraySizes[|m.d.arraySizes| - 1] > 1
    requires Emits(m, s, m.d, v, n, d)
    ensures n <= |s| && Machine(Start, d).Valid() && |d.arraySizes| == |m.d.arraySizes|
    ensures Outer(d).arraySizes == Outer(m.d).arraySizes && Outer(d).arrayValues == Outer(m.d).arrayValues
    ensures var top := |m.d.arraySizes| - 1;
            && d.arraySizes[top] == m.d.arraySizes[top] - 1
            && d.arrayValues[top].elems == m.d.arrayValues[top].elems + [v]
    ensures Reaches(m, s, n, Machine(Start, d))
  {
    hide Run, Deliver, Reaches;
    DeliverLevel(m.d.(redisValue := v));
  }

  /** Finishing the last element of the innermost array finishes the array. */
  lemma LastElement(m: Machine, s: string, v: RedisValue, n: nat, d: Data)
    requires m.Valid() && m.d.arraySizes != [] && m.d.arraySizes[|m.d.arraySizes| - 1] == 1
    requires Emits(m, s, m.d, v, n, d)
    ensures Emits(m, s, Outer(m.d), Array(m.d.arrayValues[|m.d.arrayValues| - 1].elems + [v]), n, d)
  {
    hide Run, Deliver, Reaches;
    DeliverLevel(m.d.(redisValue := v));
  }
}

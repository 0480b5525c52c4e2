/** The reply parser as a byte-at-a-time machine: what one byte does to the parser's fields,
    what a whole chunk does, and why chunk boundaries do not matter. */
module ParserModel {
  import opened Resp
  import Numbers

  datatype State =
    | Start | StartArray
    | String | StringLF
    | ErrorString | ErrorLF
    | Integer | IntegerLF
    | BulkSize | BulkSizeLF | Bulk | BulkCR | BulkLF
    | ArraySize | ArraySizeLF

  /** The result of a parse call. Undefined marks a run whose behaviour the original does not
      define: an assertion on a header fails, or a header overflows a `long`. */
  datatype Outcome = Completed | Incompleted | Error | Undefined

  /** The parser's data fields; the last element of a stack is its top. */
  datatype Data = Data(
    bulkSize: int,
    buf: string,
    redisValue: RedisValue,
    arraySizes: seq<int>,
    arrayValues: seq<RedisValue>)
  {
    /** The array stacks belong together: one partly filled array for each counter, and
        every counter still expects at least one element. */
    ghost predicate StacksValid() {
      && |arraySizes| == |arrayValues|
      && (forall i :: 0 <= i < |arraySizes| ==> arraySizes[i] >= 1)
      && (forall i :: 0 <= i < |arrayValues| ==> arrayValues[i].Array?)
    }

    /** For every open array, the size its header declared. */
    ghost function Declared(): seq<int>
      requires StacksValid()
    {
      seq(|arraySizes|, i requires 0 <= i < |arraySizes| => arraySizes[i] + |arrayValues[i].elems|)
    }
  }

  /** The parser in the middle of a chunk: its fields and the local variable `state`. */
  datatype Machine = Machine(state: State, d: Data) {
    ghost predicate Valid() {
      && d.StacksValid()
      && (state == Bulk ==> d.bulkSize >= 1)
    }

    predicate Done() {
      state == Start && d.arraySizes == []
    }
  }

  datatype Move = Next(m: Machine) | Failed(d: Data) | Stuck

  /** What the switch over the state does with one byte, before completed arrays are closed. */
  function Consume(m: Machine, c: char): (r: Move)
    requires m.Valid()
    ensures r.Next? ==> r.m.Valid()
    ensures r.Failed? ==> r.d.StacksValid()
  {
    var d := m.d;
    match m.state
    case Start => Begin(d.(buf := ""), c)
    case StartArray => Begin(d.(buf := ""), c)
    case String => TextByte(m, c, StringLF)
    case ErrorString => TextByte(m, c, ErrorLF)
    case StringLF => if c == LF then Next(Machine(Start, d.(redisValue := Str(d.buf, false)))) else Failed(d)
    case ErrorLF => if c == LF then Next(Machine(Start, d.(redisValue := Str(d.buf, true)))) else Failed(d)
    case Integer => HeaderByte(m, c, IntegerLF)
    case BulkSize => HeaderByte(m, c, BulkSizeLF)
    case ArraySize => HeaderByte(m, c, ArraySizeLF)
    case IntegerLF =>
      if c != LF then Failed(d) else
      (match Numbers.Value(d.buf)
       case None => Stuck
       case Some(n) => Next(Machine(Start, d.(buf := "", redisValue := Int(n)))))
    case BulkSizeLF =>
      if c != LF then Failed(d) else
      (match Numbers.Value(d.buf)
       case None => Stuck
       case Some(n) => BeginBulk(d.(bulkSize := n, buf := "")))
    case ArraySizeLF =>
      if c != LF then Failed(d) else
      (match Numbers.Value(d.buf)
       case None => Stuck
       case Some(n) => BeginArray(d, n))
    case Bulk =>
      var d' := d.(buf := d.buf + [c], bulkSize := d.bulkSize - 1);
      Next(Machine(if d'.bulkSize == 0 then BulkCR else Bulk, d'))
    case BulkCR => if c == CR then Next(Machine(BulkLF, d)) else Failed(d)
    case BulkLF => if c == LF then Next(Machine(Start, d.(redisValue := Str(d.buf, false)))) else Failed(d)
  }

  function Begin(d: Data, c: char): Move {
    if c == '+' then Next(Machine(String, d))
    else if c == '-' then Next(Machine(ErrorString, d))
    else if c == ':' then Next(Machine(Integer, d))
    else if c == '$' then Next(Machine(BulkSize, d.(bulkSize := 0)))
    else if c == '*' then Next(Machine(ArraySize, d))
    else Failed(d)
  }

  predicate IsHeader(c: char) {
    Numbers.IsDigit(c) || c == '-'
  }

  function TextByte(m: Machine, c: char, next: State): Move {
    if c == CR then Next(m.(state := next))
    else if IsText(c) then Next(m.(d := m.d.(buf := m.d.buf + [c])))
    else Failed(m.d)
  }

  function HeaderByte(m: Machine, c: char, next: State): Move {
    if c == CR then (if m.d.buf == "" then Failed(m.d) else Next(m.(state := next)))
    else if IsHeader(c) then Next(m.(d := m.d.(buf := m.d.buf + [c])))
    else Failed(m.d)
  }

  function BeginBulk(d: Data): Move {
    if d.bulkSize == -1 then Next(Machine(Start, d.(redisValue := Nil)))
    else if d.bulkSize == 0 then Next(Machine(BulkCR, d))
    else if d.bulkSize < 0 then Failed(d)
    else Next(Machine(Bulk, d))
  }

  function BeginArray(d: Data, n: int): Move {
    if n == -1 then Next(Machine(Start, d.(redisValue := Nil)))
    else if n == 0 then Next(Machine(Start, d.(redisValue := Array([]))))
    else if n < 0 then Failed(d)
    else Next(Machine(StartArray, d.(arraySizes := d.arraySizes + [n], arrayValues := d.arrayValues + [Array([])])))
  }

  /** `push_back` of the finished value into the innermost array, before its counter is looked at. */
  function Pushed(d: Data): (r: Data)
    requires d.StacksValid() && d.arraySizes != []
    ensures r.StacksValid() && r.arraySizes == d.arraySizes
  {
    var top := |d.arraySizes| - 1;
    d.(arrayValues := d.arrayValues[top := Array(d.arrayValues[top].elems + [d.redisValue])])
  }

  /** The innermost array leaves the stacks and becomes the finished value. */
  function Popped(d: Data): (r: Data)
    requires d.StacksValid() && d.arraySizes != []
    ensures r.StacksValid()
  {
    var top := |d.arraySizes| - 1;
    d.(redisValue := d.arrayValues[top], arraySizes := d.arraySizes[..top], arrayValues := d.arrayValues[..top])
  }

  /** Hands the finished `redisValue` to the innermost open array, if there is one. */
  function Deliver(d: Data): (r: Data)
    requires d.StacksValid()
    ensures r.StacksValid()
    ensures r.bulkSize == d.bulkSize && r.buf == d.buf
    decreases |d.arraySizes|, 1
  {
    if d.arraySizes == [] then d else CountDown(Pushed(d))
  }

  /** Counts the value just pushed; an array that becomes full is popped and is itself the
      finished value for the next one. */
  function CountDown(d: Data): (r: Data)
    requires d.StacksValid() && d.arraySizes != []
    ensures r.StacksValid()
    ensures r.bulkSize == d.bulkSize && r.buf == d.buf
    decreases |d.arraySizes|, 0
  {
    var top := |d.arraySizes| - 1;
    if d.arraySizes[top] == 1 then Deliver(Popped(d))
    else d.(arraySizes := d.arraySizes[top := d.arraySizes[top] - 1])
  }

  lemma CountLevel(p: Data)
    requires p.StacksValid() && p.arraySizes != []
    ensures var top := |p.arraySizes| - 1;
            CountDown(p) == if p.arraySizes[top] == 1 then Deliver(Popped(p))
                            else p.(arraySizes := p.arraySizes[top := p.arraySizes[top] - 1])
  {
    hide Deliver, Popped;
  }

  /** One level of Deliver. */
  lemma DeliverLevel(d: Data)
    requires d.StacksValid() && d.arraySizes != []
    ensures var p, top := Pushed(d), |d.arraySizes| - 1;
            Deliver(d) == if p.arraySizes[top] == 1 then Deliver(Popped(p))
                          else p.(arraySizes := p.arraySizes[top := p.arraySizes[top] - 1])
  {
    hide Deliver, CountDown, Pushed, Popped, Data.StacksValid;
    DeliverCounts(d);
    CountLevel(Pushed(d));
  }

  lemma DeliverCounts(d: Data)
    requires d.StacksValid()
    ensures Deliver(d) == if d.arraySizes == [] then d else CountDown(Pushed(d))
  {
    hide CountDown, Pushed;
  }

  /** One byte: the switch, and the closing of arrays when a value is finished. */
  function Step(m: Machine, c: char): (r: Move)
    requires m.Valid()
    ensures r.Next? ==> r.m.Valid()
    ensures r.Failed? ==> r.d.StacksValid()
  {
    var r := Consume(m, c);
    if r.Next? && r.m.state == Start then Next(Machine(Start, Deliver(r.m.d))) else r
  }

  datatype Ran = Ran(consumed: nat, outcome: Outcome, m: Machine) {
    function After(k: nat): Ran {
      this.(consumed := consumed + k)
    }
  }

  /** A chunk, byte by byte, up to the end of a value, an error or the end of the chunk. */
  function Run(m: Machine, s: string): (r: Ran)
    requires m.Valid()
    ensures r.m.Valid()
    ensures r.consumed <= |s|
    ensures s != "" ==> r.consumed >= 1
    ensures r.outcome == Incompleted ==> r.consumed == |s| && !r.m.Done()
    ensures r.outcome == Completed ==> r.m.Done()
    decreases |s|
  {
    if s == "" then
      Ran(0, if m.Done() then Completed else Incompleted, m)
    else
      match Step(m, s[0])
      case Stuck => Ran(1, Undefined, m)
      case Failed(d) => Ran(1, Error, Machine(Start, d))
      case Next(m') => if m'.Done() then Ran(1, Completed, m') else Run(m', s[1..]).After(1)
  }

  /** After `k` bytes of `s` the machine is `m'`, and the run is decided by what follows. */
  ghost predicate Reaches(m: Machine, s: string, k: nat, m': Machine)
    requires m.Valid() && m'.Valid() && k <= |s|
  {
    var whole, rest := Run(m, s), Run(m', s[k..]);
    whole.outcome == rest.outcome && whole.consumed == k + rest.consumed && whole.m == rest.m
  }

  lemma ReachesStart(m: Machine, s: string)
    requires m.Valid()
    ensures Reaches(m, s, 0, m)
  {
    assert s[0..] == s;
  }

  lemma ReachesEnd(m0: Machine, s: string, m: Machine)
    requires m0.Valid() && m.Valid() && Reaches(m0, s, |s|, m)
    ensures Run(m0, s) == Ran(|s|, if m.Done() then Completed else Incompleted, m)
  {
    assert s[|s|..] == "";
  }

  lemma Chain(s: string, m: Machine, j: nat, m1: Machine, k: nat, m2: Machine)
    requires m.Valid() && m1.Valid() && m2.Valid() && j + k <= |s|
    requires Reaches(m, s, j, m1) && Reaches(m1, s[j..], k, m2)
    ensures Reaches(m, s, j + k, m2)
  {
    hide Run;
    assert s[j..][k..] == s[j + k..];
  }

  // ---- The stack of open arrays ----

  /** Delivering a value fills one slot of an open array and gives one counter back, so no
      declared size changes; arrays are only ever closed from the inside out. */
  lemma {:induction false} DeliverKeepsDeclared(d: Data)
    requires d.StacksValid()
    ensures Deliver(d).Declared() <= d.Declared()
    decreases |d.arraySizes|
  {
    var top := |d.arraySizes| - 1;
    if top >= 0 {
      DeliverLevel(d);
      hide Deliver;
      if d.arraySizes[top] == 1 {
        DeliverKeepsDeclared(Popped(Pushed(d)));
      }
    }
  }

  /** The innermost array is closed exactly when its counter reaches its last element, and the
      value then passed outwards holds exactly as many elements as the header declared. */
  lemma FullArrayHasDeclaredSize(d: Data)
    requires d.StacksValid() && d.arraySizes != []
    ensures var top := |d.arraySizes| - 1;
            |Deliver(d).arraySizes| <= top <==> |d.arrayValues[top].elems| + 1 == d.Declared()[top]
  {
    hide Deliver;
    DeliverLevel(d);
    if d.arraySizes[|d.arraySizes| - 1] == 1 {
      DeliverKeepsDeclared(Popped(Pushed(d)));
    }
  }

  /** Every byte step keeps the declared size of every array that stays open; the only array
      it can open is the one whose header it just finished. */
  lemma StepKeepsDeclared(m: Machine, c: char)
    requires m.Valid() && Step(m, c).Next?
    ensures var before, after := m.d.Declared(), Step(m, c).m.d.Declared();
            || after <= before
            || (m.state == ArraySizeLF && after == before + [Numbers.Value(m.d.buf).value])
  {
    var r := Consume(m, c);
    if r.m.state == Start {
      assert r.m.d.Declared() == m.d.Declared();
      DeliverKeepsDeclared(r.m.d);
    } else if m.state == ArraySizeLF {
      assert r.m.d.Declared() == m.d.Declared() + [Numbers.Value(m.d.buf).value];
    } else {
      assert r.m.d.Declared() == m.d.Declared();
    }
  }

  /** While a bulk string is read, the bytes held and the bytes missing always add up to the
      length its header declared, and the state leaves Bulk exactly when none is missing. */
  lemma BulkKeepsLength(m: Machine, c: char)
    requires m.Valid() && m.state in {BulkSizeLF, Bulk} && Step(m, c).Next?
    ensures var m' := Step(m, c).m;
            m'.state in {Bulk, BulkCR} ==>
              && |m'.d.buf| + m'.d.bulkSize ==
                 (if m.state == Bulk then |m.d.buf| + m.d.bulkSize else Numbers.Value(m.d.buf).value)
              && (m'.state == Bulk <==> m'.d.bulkSize > 0)
  {
  }

  /** A machine in Bulk after a block of bytes at once. */
  function AfterBlock(m: Machine, block: string): Machine {
    Machine(if m.d.bulkSize == |block| then BulkCR else Bulk,
            m.d.(buf := m.d.buf + block, bulkSize := m.d.bulkSize - |block|))
  }

  /** Copying a block refines reading its bytes one by one, for every block that is not longer
      than what the bulk string still needs and what the chunk still holds. */
  lemma {:induction false} BlockCopy(m: Machine, s: string, k: nat)
    requires m.Valid() && m.state == Bulk && k <= m.d.bulkSize && k <= |s|
    ensures AfterBlock(m, s[..k]).Valid()
    ensures Reaches(m, s, k, AfterBlock(m, s[..k]))
    decreases k
  {
    hide Run;
    if k == 0 {
      assert m.d.buf + s[..0] == m.d.buf && s[0..] == s;
    } else {
      var t, m1 := s[1..], AfterBlock(m, [s[0]]);
      BulkByte(m, s[0]);
      RunStep(m, s);
      assert m1.d.buf + t[..k - 1] == m.d.buf + s[..k];
      assert t[k - 1..] == s[k..];
      if k == 1 {
        assert s[..1] == [s[0]];
      } else {
        BlockCopy(m1, t, k - 1);
      }
    }
  }

  lemma BulkByte(m: Machine, c: char)
    requires m.Valid() && m.state == Bulk
    ensures Step(m, c) == Next(AfterBlock(m, [c]))
  {
  }

  /** One more step of a run that does not end with this step. */
  lemma RunStep(m: Machine, s: string)
    requires m.Valid() && s != "" && Step(m, s[0]).Next? && !Step(m, s[0]).m.Done()
    ensures Reaches(m, s, 1, Step(m, s[0]).m)
  {
  }

  /** One step from offset `at` on. */
  lemma StepAt(s: string, m: Machine, at: nat, m': Machine)
    requires m.Valid() && m'.Valid() && at < |s|
    requires Step(m, s[at]) == Next(m') && !m'.Done()
    ensures Reaches(m, s[at..], 1, m')
  {
    hide Step, Run;
    var t := s[at..];
    assert t[1..] == s[at + 1..];
    RunStep(m, t);
  }

  /** What the byte at offset `at` means for a run that has reached it. */
  lemma ByteAt(s: string, m0: Machine, at: nat, m: Machine)
    requires m0.Valid() && m.Valid() && at < |s| && Reaches(m0, s, at, m)
    ensures var r := Step(m, s[at]);
            && (r.Next? && !r.m.Done() ==> Reaches(m0, s, at + 1, r.m))
            && (r.Next? && r.m.Done() ==> Run(m0, s) == Ran(at + 1, Completed, r.m))
            && (r.Failed? ==> Run(m0, s) == Ran(at + 1, Error, Machine(Start, r.d)))
            && (r.Stuck? ==> Run(m0, s) == Ran(at + 1, Undefined, m))
  {
    hide Step;
    var r := Step(m, s[at]);
    if r.Next? && !r.m.Done() {
      StepAt(s, m, at, r.m);
      Chain(s, m0, at, m, 1, r.m);
    }
  }

  /** The same for the byte before arrays are closed. */
  lemma SingleByte(s: string, m0: Machine, at: nat, m: Machine)
    requires m0.Valid() && m.Valid() && at < |s| && Reaches(m0, s, at, m)
    ensures var r := Consume(m, s[at]);
            && (r.Next? && r.m.state != Start ==> Reaches(m0, s, at + 1, r.m))
            && (r.Next? && r.m.state == Start ==>
                  var after := Machine(Start, Deliver(r.m.d));
                  if after.Done() then Run(m0, s) == Ran(at + 1, Completed, after) else Reaches(m0, s, at + 1, after))
            && (r.Failed? ==> Run(m0, s) == Ran(at + 1, Error, Machine(Start, r.d)))
            && (r.Stuck? ==> Run(m0, s) == Ran(at + 1, Undefined, m))
  {
    hide Consume, Deliver, Run, Reaches;
    ByteAt(s, m0, at, m);
  }

  /** The block copied in state Bulk: at least one byte, so the loop always moves on. */
  lemma BlockAt(s: string, m0: Machine, at: nat, m: Machine, k: nat)
    requires m0.Valid() && m.Valid() && at < |s| && m.state == Bulk && Reaches(m0, s, at, m)
    requires k == if m.d.bulkSize <= |s| - at then m.d.bulkSize else |s| - at
    ensures k >= 1 && AfterBlock(m, s[at..][..k]).Valid() && Reaches(m0, s, at + k, AfterBlock(m, s[at..][..k]))
  {
    hide Run, Reaches;
    BlockCopy(m, s[at..], k);
    Chain(s, m0, at, m, k, AfterBlock(m, s[at..][..k]));
  }

  /** The block copied together with the line feed of its header. */
  lemma BlockBehindHeader(s: string, m0: Machine, at: nat, m: Machine, k: nat)
    requires m0.Valid() && m.Valid() && at < |s| && m.state == BulkSizeLF && Reaches(m0, s, at, m)
    requires at + 1 + k <= |s|
    ensures var r, block := Consume(m, s[at]), s[at + 1..][..k];
            r.Next? && r.m.state == Bulk && k <= r.m.d.bulkSize ==>
              AfterBlock(r.m, block).Valid() && Reaches(m0, s, at + 1 + k, AfterBlock(r.m, block))
  {
    hide Run, Reaches, Consume;
    SingleByte(s, m0, at, m);
    var r := Consume(m, s[at]);
    if r.Next? && r.m.state == Bulk && k <= r.m.d.bulkSize {
      BlockCopy(r.m, s[at + 1..], k);
      Chain(s, m0, at + 1, r.m, k, AfterBlock(r.m, s[at + 1..][..k]));
    }
  }

  // ---- Chunks ----

  lemma {:induction false} RunAppend(m: Machine, a: string, b: string)
    requires m.Valid() && Run(m, a).outcome == Incompleted
    ensures Reaches(m, a + b, |a|, Run(m, a).m)
    decreases |a|
  {
    if a == "" {
      assert a + b == b;
    } else {
      assert (a + b)[1..] == a[1..] + b;
      hide Consume, Deliver;
      RunAppend(Step(m, a[0]).m, a[1..], b);
    }
  }

  lemma {:induction false} RunStops(m: Machine, a: string, b: string)
    requires m.Valid() && a != "" && Run(m, a).outcome != Incompleted
    ensures Run(m, a + b) == Run(m, a)
    decreases |a|
  {
    hide Consume, Deliver;
    assert (a + b)[1..] == a[1..] + b;
    if Step(m, a[0]).Next? && !Step(m, a[0]).m.Done() {
      RunStops(Step(m, a[0]).m, a[1..], b);
    }
  }

  /** The whole parser object between two calls: the saved state and the data fields. */
  datatype Parser = Parser(states: seq<State>, d: Data) {
    function Resumed(): Machine {
      Machine(if states == [] then Start else states[|states| - 1], d)
    }

    function Popped(): seq<State> {
      if states == [] then [] else states[..|states| - 1]
    }

    ghost predicate Valid() {
      |states| <= 1 && Resumed().Valid()
    }

    /** Nothing is half read: the next byte starts a new top-level value. */
    ghost predicate Idle() {
      Valid() && Resumed().Done()
    }
  }

  /** The parser after `result()` moved the value out. */
  function Taken(p: Parser): (q: Parser)
    ensures p.Valid() ==> q.Valid()
    ensures p.Idle() ==> q.Idle()
  {
    p.(d := p.d.(redisValue := p.d.redisValue.MovedFrom()))
  }

  datatype Parsed = Parsed(consumed: nat, outcome: Outcome, p: Parser) {
    function After(k: nat): Parsed {
      this.(consumed := consumed + k)
    }
  }

  /** How the end of a run is left behind: `states` holds the state to resume in, unless an
      error cleared it. */
  function Left(states: seq<State>, r: Ran): Parsed {
    match r.outcome
    case Completed => Parsed(r.consumed, Completed, Parser(states, r.m.d))
    case Incompleted => Parsed(r.consumed, Incompleted, Parser(states + [r.m.state], r.m.d))
    case Error => Parsed(r.consumed, Error, Parser([], r.m.d))
    case Undefined => Parsed(r.consumed, Undefined, Parser(states, r.m.d))
  }

  /** A call of `parse`. */
  function Parse(p: Parser, s: string): (r: Parsed)
    requires p.Valid()
    ensures r.p.Valid()
    ensures r.consumed <= |s|
    ensures s != "" ==> r.consumed >= 1
    ensures r.outcome == Completed ==> r.p.Idle()
    ensures r.outcome == Incompleted ==> r.consumed == |s| && !r.p.Idle()
  {
    Left(p.Popped(), Run(p.Resumed(), s))
  }

  /** Where a chunk ends does not matter: when the first part leaves the value unfinished,
      parsing the rest gives the outcome, the value, the whole parser and (added up) the
      consumed bytes of parsing both parts at once. Either part may be empty. */
  lemma ChunksJoin(p: Parser, a: string, b: string)
    requires p.Valid() && Parse(p, a).outcome == Incompleted
    ensures Parse(p, a + b) == Parse(Parse(p, a).p, b).After(|a|)
  {
    hide Run;
    var m, mid := p.Resumed(), Parse(p, a).p;
    RunAppend(m, a, b);
    ResumesWhereLeft(p, a);
    assert (a + b)[|a|..] == b;
    hide Machine.Valid, Parser.Resumed, Parser.Popped;
    LeftLater(p.Popped(), Run(m, a + b), Run(mid.Resumed(), b), |a|);
  }

  lemma ResumesWhereLeft(p: Parser, a: string)
    requires p.Valid() && Parse(p, a).outcome == Incompleted
    ensures Parse(p, a).p.Resumed() == Run(p.Resumed(), a).m && Parse(p, a).p.Popped() == p.Popped()
  {
    hide Run;
  }

  lemma LeftLater(states: seq<State>, whole: Ran, rest: Ran, k: nat)
    requires whole.outcome == rest.outcome && whole.consumed == k + rest.consumed && whole.m == rest.m
    ensures Left(states, whole) == Left(states, rest).After(k)
  {
  }

  /** A call that did not ask for more bytes never looks at what follows. */
  lemma ParseStops(p: Parser, a: string, b: string)
    requires p.Valid() && a != "" && Parse(p, a).outcome != Incompleted
    ensures Parse(p, a + b) == Parse(p, a)
  {
    hide Run;
    RunStops(p.Resumed(), a, b);
  }

  function Flatten(chunks: seq<string>): string {
    if chunks == [] then "" else chunks[0] + Flatten(chunks[1..])
  }

  /** Chunks passed to successive calls until one does not ask for more. */
  function ParseChunks(p: Parser, chunks: seq<string>): (r: Parsed)
    requires p.Valid() && chunks != []
    decreases |chunks|
  {
    var r := Parse(p, chunks[0]);
    if |chunks| == 1 || r.outcome != Incompleted then r else ParseChunks(r.p, chunks[1..]).After(|chunks[0]|)
  }

  /** Any cut of the input gives the result of one single call, except where an idle parser is
      first given an empty chunk of a non-empty input: that call reports a completed value. */
  lemma {:induction false} AnyCut(p: Parser, chunks: seq<string>)
    requires p.Valid() && chunks != []
    ensures ParseChunks(p, chunks) == Parse(p, Flatten(chunks)) <==>
            (chunks[0] != "" || !p.Idle() || Flatten(chunks) == "")
    decreases |chunks|
  {
    hide Parse;
    var rest := Flatten(chunks[1..]);
    var r := Parse(p, chunks[0]);
    ParseNothing(p);
    if chunks[0] == "" && p.Idle() {
      assert Flatten(chunks) == rest;
    } else if r.outcome != Incompleted {
      ParseStops(p, chunks[0], rest);
    } else {
      ChunksJoin(p, chunks[0], rest);
      if |chunks| == 1 {
        assert chunks[0] + rest == chunks[0];
      } else {
        AnyCut(r.p, chunks[1..]);
      }
    }
  }

  lemma ParseNothing(p: Parser)
    requires p.Valid()
    ensures Parse(p, "").consumed == 0
    ensures Parse(p, "").outcome == if p.Idle() then Completed else Incompleted
  {
  }
}

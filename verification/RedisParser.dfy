/** The parser object with its real fields, loops and block copies, proved to be
    `ParserModel.Parse`. */
module RedisParsers {
  import opened Resp
  import opened ParserModel
  import Numbers

  /** How the switch over the state leaves: go on, `return Error`, or an undefined run. */
  datatype Verdict = Go | Fail | Abort

  class RedisParser {
    var states: seq<State>
    var bulkSize: int
    var buf: string
    var redisValue: RedisValue
    var arraySizes: seq<int>
    var arrayValues: seq<RedisValue>

    ghost function Fields(): Data
      reads this
    {
      Data(bulkSize, buf, redisValue, arraySizes, arrayValues)
    }

    ghost function View(): Parser
      reads this
    {
      Parser(states, Fields())
    }

    ghost predicate Valid()
      reads this
    {
      View().Valid()
    }

    constructor ()
      ensures Valid() && View().Idle()
      ensures View() == Parser([], Data(0, "", Nil, [], []))
    {
      states := [];
      bulkSize := 0;
      buf := "";
      redisValue := Nil;
      arraySizes, arrayValues := [], [];
    }

    /** `redisParser = RedisParser()`. */
    method Reset()
      modifies this
      ensures Valid() && View().Idle()
      ensures View() == Parser([], Data(0, "", Nil, [], []))
    {
      states := [];
      bulkSize := 0;
      buf := "";
      redisValue := Nil;
      arraySizes, arrayValues := [], [];
    }

    /** Moves the last completed value out. */
    method Result() returns (v: RedisValue)
      requires Valid()
      modifies this
      ensures v == old(redisValue)
      ensures redisValue ==
              if v.Array? then Array([]) else if v.Str? then Str("", v.error) else v
      ensures Valid() && View() == Taken(old(View()))
    {
      v := redisValue;
      redisValue := redisValue.MovedFrom();
    }

    method PushBack(v: RedisValue)
      requires arrayValues != [] && arrayValues[|arrayValues| - 1].Array?
      modifies this`arrayValues
      ensures var top := |old(arrayValues)| - 1;
              arrayValues == old(arrayValues)[top := Array(old(arrayValues)[top].elems + [v])]
    {
      var top := |arrayValues| - 1;
      arrayValues := arrayValues[top := Array(arrayValues[top].elems + [v])];
    }

    /** Hands the finished value to the open arrays and closes those that become full. */
    method Unwind()
      requires Fields().StacksValid()
      modifies this`redisValue, this`arraySizes, this`arrayValues
      ensures Fields() == Deliver(old(Fields()))
    {
      hide Deliver, CountDown;
      DeliverCounts(Fields());
      if arraySizes != [] {
        PushBack(redisValue);
        assert Fields() == Pushed(old(Fields()));
        var closing := true;
        while arraySizes != [] && closing
          invariant Fields().StacksValid()
          invariant Deliver(old(Fields())) ==
                    if closing && arraySizes != [] then CountDown(Fields()) else Fields()
          decreases |arraySizes|, closing
        {
          closing := CountOne();
        }
      }
    }

    /** `--arraySizes.top() == 0`, and the closing of the innermost array when that holds. */
    method CountOne() returns (closed: bool)
      requires Fields().StacksValid() && arraySizes != []
      modifies this`redisValue, this`arraySizes, this`arrayValues
      ensures Fields().StacksValid()
      ensures closed ==> |arraySizes| < |old(arraySizes)|
      ensures !closed ==> |arraySizes| == |old(arraySizes)|
      ensures CountDown(old(Fields())) == if closed && arraySizes != [] then CountDown(Fields()) else Fields()
    {
      hide Deliver;
      var top := |arraySizes| - 1;
      arraySizes := arraySizes[top := arraySizes[top] - 1];
      closed := arraySizes[top] == 0;
      if closed {
        arraySizes := arraySizes[..top];
        redisValue := arrayValues[top];
        arrayValues := arrayValues[..top];
        assert arraySizes == old(arraySizes)[..top];
        DeliverCounts(Fields());
        if arraySizes != [] {
          PushBack(redisValue);
        }
      }
    }

    /** `std::stack<State>().swap(states)` in front of `return Error`. */
    method ClearStates() returns (verdict: Verdict)
      modifies this`states
      ensures states == [] && verdict == Fail
    {
      states := [];
      verdict := Fail;
    }

    /** The switch over the state, for every state that handles a single byte. */
    method Accept(state: State, c: char) returns (next: State, verdict: Verdict)
      requires Machine(state, Fields()).Valid() && state !in {BulkSizeLF, Bulk} && states == []
      modifies this
      ensures states == []
      ensures var r := Consume(Machine(state, old(Fields())), c);
              && (r.Next? <==> verdict == Go) && (r.Stuck? <==> verdict == Abort)
              && (r.Next? ==> r.m == Machine(next, Fields()))
              && (r.Failed? ==> r.d == Fields())
              && (r.Stuck? ==> Fields() == old(Fields()))
    {
      next, verdict := state, Go;
      match state
      case Start => next, verdict := AcceptTag(c);
      case StartArray => next, verdict := AcceptTag(c);
      case String => next, verdict := AcceptText(state, c, StringLF);
      case ErrorString => next, verdict := AcceptText(state, c, ErrorLF);
      case Integer => next, verdict := AcceptDigit(state, c, IntegerLF);
      case BulkSize => next, verdict := AcceptDigit(state, c, BulkSizeLF);
      case ArraySize => next, verdict := AcceptDigit(state, c, ArraySizeLF);
      case StringLF =>
        if c == LF {
          next := Start;
          redisValue := Str(buf, false);
        } else {
          verdict := ClearStates();
        }
      case ErrorLF =>
        if c == LF {
          next := Start;
          redisValue := Str(buf, true);
        } else {
          verdict := ClearStates();
        }
      case BulkCR =>
        if c == CR {
          next := BulkLF;
        } else {
          verdict := ClearStates();
        }
      case BulkLF =>
        if c == LF {
          next := Start;
          redisValue := Str(buf, false);
        } else {
          verdict := ClearStates();
        }
      case ArraySizeLF =>
        if c == LF {
          next, verdict := AcceptArraySize();
        } else {
          verdict := ClearStates();
        }
      case IntegerLF =>
        if c == LF {
          var value := Numbers.BufToLong(buf);
          if value.None? {
            verdict := Abort;
          } else {
            buf := "";
            redisValue := Int(value.value);
            next := Start;
          }
        } else {
          verdict := ClearStates();
        }
      case _ =>
        assert false;
    }

    method AcceptTag(c: char) returns (next: State, verdict: Verdict)
      modifies this`buf, this`bulkSize
      ensures var r := Begin(old(Fields()).(buf := ""), c);
              && (if r.Next? then verdict == Go && r.m == Machine(next, Fields())
                  else verdict == Fail && r == Failed(Fields()))
    {
      buf := "";
      next, verdict := Start, Go;
      if c == '+' {
        next := String;
      } else if c == '-' {
        next := ErrorString;
      } else if c == ':' {
        next := Integer;
      } else if c == '$' {
        next := BulkSize;
        bulkSize := 0;
      } else if c == '*' {
        next := ArraySize;
      } else {
        verdict := Fail;
      }
    }

    method AcceptText(state: State, c: char, end: State) returns (next: State, verdict: Verdict)
      requires states == []
      modifies this`buf, this`states
      ensures states == []
      ensures var r := TextByte(Machine(state, old(Fields())), c, end);
              && (if r.Next? then verdict == Go && r.m == Machine(next, Fields())
                  else verdict == Fail && r == Failed(Fields()))
    {
      next, verdict := state, Go;
      if c == CR {
        next := end;
      } else if IsText(c) {
        buf := buf + [c];
      } else {
        verdict := ClearStates();
      }
    }

    method AcceptDigit(state: State, c: char, end: State) returns (next: State, verdict: Verdict)
      requires states == []
      modifies this`buf, this`states
      ensures states == []
      ensures var r := HeaderByte(Machine(state, old(Fields())), c, end);
              && (if r.Next? then verdict == Go && r.m == Machine(next, Fields())
                  else verdict == Fail && r == Failed(Fields()))
    {
      next, verdict := state, Go;
      if c == CR {
        if buf == "" {
          verdict := ClearStates();
        } else {
          next := end;
        }
      } else if Numbers.IsDigit(c) || c == '-' {
        buf := buf + [c];
      } else {
        verdict := ClearStates();
      }
    }

    method AcceptArraySize() returns (next: State, verdict: Verdict)
      requires Fields().StacksValid() && states == []
      modifies this
      ensures states == []
      ensures var num, d := Numbers.Value(old(buf)), old(Fields());
              if num.None? then verdict == Abort && Fields() == d
              else
                var r := BeginArray(d, num.value);
                if r.Next? then verdict == Go && r.m == Machine(next, Fields())
                else verdict == Fail && r == Failed(Fields())
    {
      next, verdict := ArraySizeLF, Go;
      var arraySize := Numbers.BufToLong(buf);
      if arraySize.None? {
        verdict := Abort;
      } else if arraySize.value == -1 {
        next := Start;
        redisValue := Nil;
      } else if arraySize.value == 0 {
        next := Start;
        redisValue := Array([]);
      } else if arraySize.value < 0 {
        verdict := ClearStates();
      } else {
        arraySizes := arraySizes + [arraySize.value];
        arrayValues := arrayValues + [Array([])];
        next := StartArray;
      }
    }

    /** The line feed behind a bulk header, and the block of payload bytes already in the
        chunk; `position` is the offset behind the line feed. */
    method AcceptBulkSize(ptr: string, position: nat) returns (next: State, verdict: Verdict, copied: nat)
      requires 1 <= position <= |ptr| && states == []
      requires Machine(BulkSizeLF, Fields()).Valid()
      modifies this
      ensures states == [] && position + copied <= |ptr|
      ensures var r, rest := Consume(Machine(BulkSizeLF, old(Fields())), ptr[position - 1]), ptr[position..];
              && (r.Next? <==> verdict == Go) && (r.Stuck? <==> verdict == Abort)
              && (r.Failed? ==> r.d == Fields())
              && (r.Stuck? ==> Fields() == old(Fields()))
              && (copied > 0 ==> r.Next? && r.m.state == Bulk)
              && (r.Next? && r.m.state != Bulk ==> r.m == Machine(next, Fields()))
              && (r.Next? && r.m.state == Bulk ==>
                    && copied == (if r.m.d.bulkSize <= |rest| then r.m.d.bulkSize else |rest|)
                    && Machine(next, Fields()) == AfterBlock(r.m, rest[..copied]))
    {
      next, verdict, copied := BulkSizeLF, Go, 0;
      if ptr[position - 1] == LF {
        var size := Numbers.BufToLong(buf);
        if size.None? {
          verdict := Abort;
          return;
        }
        bulkSize := size.value;
        buf := "";
        if bulkSize == -1 {
          next := Start;
          redisValue := Nil;
        } else if bulkSize == 0 {
          next := BulkCR;
        } else if bulkSize < 0 {
          verdict := ClearStates();
        } else {
          var available := |ptr| - position;
          var canRead := if bulkSize <= available then bulkSize else available;
          if canRead > 0 {
            buf := ptr[position..position + canRead];
            copied := canRead;
            bulkSize := bulkSize - canRead;
          }
          next := if bulkSize > 0 then Bulk else BulkCR;
          assert ptr[position..][..copied] == ptr[position..position + copied];
        }
      } else {
        verdict := ClearStates();
      }
    }

    /** A block of payload bytes from offset `position - 1` on. */
    method CopyBulk(ptr: string, position: nat) returns (next: State, copied: nat)
      requires 1 <= position <= |ptr|
      requires Machine(Bulk, Fields()).Valid()
      modifies this`buf, this`bulkSize
      ensures var rest, size := ptr[position - 1..], old(bulkSize);
              && copied == (if size <= |rest| then size else |rest|)
              && Machine(next, Fields()) == AfterBlock(Machine(Bulk, old(Fields())), rest[..copied])
    {
      var available := |ptr| - position + 1;
      copied := if available <= bulkSize then available else bulkSize;
      assert ptr[position - 1..][..copied] == ptr[position - 1..position - 1 + copied];
      buf := buf + ptr[position - 1..position - 1 + copied];
      bulkSize := bulkSize - copied;
      next := if bulkSize == 0 then BulkCR else Bulk;
    }

    /** One turn of the parse loop: the byte at `position`, or the block that begins there.
        `m0` is the machine at the start of the chunk. */
    method Advance(ptr: string, start: nat, state: State, ghost m0: Machine)
      returns (position: nat, next: State, verdict: Verdict)
      requires start < |ptr| && states == []
      requires m0.Valid() && Machine(state, Fields()).Valid()
      requires Reaches(m0, ptr, start, Machine(state, Fields()))
      modifies this
      ensures states == [] && start < position <= |ptr|
      ensures verdict == Abort ==> Run(m0, ptr) == Ran(position, Undefined, Machine(state, Fields()))
      ensures verdict == Fail ==> Run(m0, ptr) == Ran(position, Error, Machine(Start, Fields()))
      ensures verdict == Go ==> Machine(next, Fields()).Valid()
      ensures verdict == Go && next != Start ==> Reaches(m0, ptr, position, Machine(next, Fields()))
      ensures verdict == Go && next == Start ==>
                var after := Machine(Start, Deliver(Fields()));
                if after.Done() then Run(m0, ptr) == Ran(position, Completed, after)
                else Reaches(m0, ptr, position, after)
    {
      hide Run, Step, Deliver, Consume, Reaches;
      ghost var m := Machine(state, Fields());
      SingleByte(ptr, m0, start, m);
      position := start;
      var c := ptr[position];
      position := position + 1;
      var copied;
      next, verdict, copied := state, Go, 0;
      match state {
        case BulkSizeLF =>
          next, verdict, copied := AcceptBulkSize(ptr, position);
          BlockBehindHeader(ptr, m0, start, m, copied);
          position := position + copied;
        case Bulk =>
          next, copied := CopyBulk(ptr, position);
          BlockAt(ptr, m0, start, m, copied);
          position := position + copied - 1;
        case _ =>
          next, verdict := Accept(state, c);
      }
    }

    /** The parse loop over one chunk, with both block copies and the closing of arrays. It is
        the byte-at-a-time machine: same outcome, same consumed bytes, same parser afterwards. */
    method ParseChunk(ptr: string) returns (position: nat, result: Outcome)
      requires Valid()
      modifies this
      ensures Valid()
      ensures Parsed(position, result, View()) == Parse(old(View()), ptr)
    {
      hide Run, Step, Deliver, Consume, Reaches;
      position := 0;
      var state := Start;
      ghost var before, finished := View(), false;
      if states != [] {
        state := states[|states| - 1];
        states := states[..|states| - 1];
      }
      ghost var m0 := Machine(state, Fields());
      assert m0 == before.Resumed() && states == [] == before.Popped();
      ReachesStart(m0, ptr);
      while position < |ptr|
        invariant position <= |ptr| && states == []
        invariant Machine(state, Fields()).Valid()
        invariant Reaches(m0, ptr, position, Machine(state, Fields()))
      {
        var verdict;
        position, state, verdict := Advance(ptr, position, state, m0);
        if verdict == Abort {
          return position, Undefined;
        }
        if verdict == Fail {
          return position, Error;
        }
        if state == Start {
          Unwind();
          if arraySizes == [] {
            finished := true;
            break;
          }
        }
      }
      if !finished {
        ReachesEnd(m0, ptr, Machine(state, Fields()));
      }
      if arraySizes == [] && state == Start {
        result := Completed;
      } else {
        states := states + [state];
        result := Incompleted;
      }
    }
  }
}

/** `bufToLong`: the decimal numbers in RESP headers, with the real 64-bit bound. */
module Numbers {
  import opened Resp

  datatype Option<T> = None | Some(value: T)

  /** The machine type the accumulation runs in: an operation that leaves it is an overflow. */
  newtype long = x: int | -0x8000_0000_0000_0000 <= x < 0x8000_0000_0000_0000

  predicate IsDigit(c: char) {
    '0' <= c <= '9'
  }

  predicate AllDigits(s: string) {
    forall i :: 0 <= i < |s| ==> IsDigit(s[i])
  }

  /** The number a string of digits denotes. */
  function DigitsValue(s: string): nat
    requires AllDigits(s)
  {
    if s == "" then 0 else 10 * DigitsValue(s[..|s| - 1]) + (s[|s| - 1] as int - 48)
  }

  function Magnitude(s: string): Option<int> {
    if AllDigits(s) && DigitsValue(s) <= LONG_MAX then Some(DigitsValue(s)) else None
  }

  /** The number a header denotes: an optional '-' and digits, where no digits at all read
      as 0. None when the original is undefined: its assertion on a non-digit fails, or the
      signed accumulation overflows. */
  function Value(s: string): Option<int> {
    if s != "" && s[0] == '-' then
      match Magnitude(s[1..])
      case Some(n) => Some(-n)
      case None => None
    else
      Magnitude(s)
  }

  /** The accumulation loop of `bufToLong`; returning None stands for the undefined run. */
  method BufToLong(str: string) returns (r: Option<int>)
    ensures r == Value(str)
  {
    var value: long := 0;
    var sign := false;
    var digits := str;
    if |str| == 0 {
      return Some(0);
    }
    if str[0] == '-' {
      sign := true;
      digits := str[1..];
      if |digits| == 0 {
        return Some(0);
      }
    }
    var i := 0;
    while i != |digits|
      invariant 0 <= i <= |digits|
      invariant AllDigits(digits[..i])
      invariant value as int == DigitsValue(digits[..i])
    {
      var c := digits[i];
      assert digits[..i + 1][..i] == digits[..i];
      if !IsDigit(c) {
        assert !AllDigits(digits);
        return None;
      }
      var digit: long := (c as int - 48) as long;
      if value as int * 10 + digit as int > LONG_MAX {
        if AllDigits(digits) {
          PrefixValue(digits, i + 1);
        }
        return None;
      }
      value := value * 10;
      value := value + digit;
      i := i + 1;
    }
    assert digits[..i] == digits;
    return Some(if sign then (-value) as int else value as int);
  }

  /** Digits read so far never exceed the final number, so a prefix that overflows
      means the whole number does. */
  lemma {:induction false} PrefixValue(s: string, i: nat)
    requires AllDigits(s) && i <= |s|
    ensures DigitsValue(s[..i]) <= DigitsValue(s)
  {
    if i < |s| {
      var t := s[..|s| - 1];
      PrefixValue(t, i);
      assert t[..i] == s[..i];
    } else {
      assert s[..i] == s;
    }
  }

  lemma {:induction false} DecimalValue(n: nat)
    ensures AllDigits(Decimal(n)) && DigitsValue(Decimal(n)) == n
  {
    var s := Decimal(n);
    if n < 10 {
      assert s[..0] == "";
      assert DigitsValue(s[..0]) == 0;
    } else {
      DecimalValue(n / 10);
      assert s[..|s| - 1] == Decimal(n / 10);
    }
  }

  /** The decimal form of a number, without leading zeros. */
  predicate Canonical(s: string, n: nat) {
    && |s| >= 1 && (forall i :: 0 <= i < |s| ==> '0' <= s[i] <= '9') && (|s| == 1 || s[0] != '0')
    && DigitsValue(s) == n
  }

  lemma {:induction false} NoLeadingZero(s: string)
    requires AllDigits(s) && s != "" && s[0] != '0'
    ensures DigitsValue(s) > 0
  {
    if |s| > 1 {
      NoLeadingZero(s[..|s| - 1]);
    } else {
      assert s[..0] == "";
    }
  }

  /** A number has only one decimal form. */
  lemma {:induction false} CanonicalIsUnique(a: string, b: string, n: nat)
    requires Canonical(a, n) && Canonical(b, n)
    ensures a == b
    decreases |a|
  {
    var a', b' := a[..|a| - 1], b[..|b| - 1];
    assert a == a' + [a[|a| - 1]] && b == b' + [b[|b| - 1]];
    if a' != "" {
      NoLeadingZero(a');
    }
    if b' != "" {
      NoLeadingZero(b');
    }
    if a' != "" && b' != "" {
      CanonicalIsUnique(a', b', n / 10);
    }
  }

  /** `std::to_string` prints it. */
  lemma DecimalIsCanonical(n: nat)
    ensures Canonical(Decimal(n), n)
  {
    DecimalValue(n);
  }

  /** Its digits are those of base ten. */
  lemma DigitsOfTen()
    ensures Canonical("9876543210", 9876543210) && Decimal(12) == "12"
  {
    var s := "9876543210";
    assert s[..9] == "987654321" && s[..8] == "98765432" && s[..7] == "9876543" && s[..6] == "987654";
    assert s[..5] == "98765" && s[..4] == "9876" && s[..3] == "987" && s[..2] == "98" && s[..1] == "9";
    assert DigitsValue(s[..1]) == 9 by { assert s[..1][..0] == ""; }
    assert DigitsValue(s[..2]) == 98 by { assert s[..2][..1] == s[..1]; }
    assert DigitsValue(s[..3]) == 987 by { assert s[..3][..2] == s[..2]; }
    assert DigitsValue(s[..4]) == 9876 by { assert s[..4][..3] == s[..3]; }
    assert DigitsValue(s[..5]) == 98765 by { assert s[..5][..4] == s[..4]; }
    assert DigitsValue(s[..6]) == 987654 by { assert s[..6][..5] == s[..5]; }
    assert DigitsValue(s[..7]) == 9876543 by { assert s[..7][..6] == s[..6]; }
    assert DigitsValue(s[..8]) == 98765432 by { assert s[..8][..7] == s[..7]; }
    assert DigitsValue(s[..9]) == 987654321 by { assert s[..9][..8] == s[..8]; }
  }

  /** Reading back what `std::to_string` printed is exact precisely on the numbers whose
      magnitude fits; -2^63 is the one 64-bit value that is lost, because the sign is
      applied only after the digits were accumulated. */
  lemma ReadBack(n: int)
    ensures Value(NumberText(n)) == if -LONG_MAX <= n <= LONG_MAX then Some(n) else None
  {
    hide Decimal, DigitsValue;
    if n < 0 {
      DecimalValue(-n);
      assert NumberText(n)[1..] == Decimal(-n);
    } else {
      DecimalValue(n);
    }
  }

  /** Over the whole 64-bit range, the only value that fails is the smallest one. */
  lemma OnlyTheMinimumIsLost(n: long)
    ensures Value(NumberText(n as int)) == None <==> n == -0x8000_0000_0000_0000
  {
    ReadBack(n as int);
  }

  /** A header made of the bytes the parser lets through is undefined exactly when a '-' stands
      behind its first byte or its digits exceed the largest `long`. */
  lemma UndefinedHeaders(s: string)
    requires s != "" && forall i :: 0 <= i < |s| ==> IsDigit(s[i]) || s[i] == '-'
    ensures var digits := if s[0] == '-' then s[1..] else s;
            Value(s) == None <==> '-' in s[1..] || (AllDigits(digits) && DigitsValue(digits) > LONG_MAX)
  {
    var digits := if s[0] == '-' then s[1..] else s;
    assert forall i :: 1 <= i < |s| ==> s[i] == s[1..][i - 1];
    assert forall i :: 0 <= i < |digits| ==> digits[i] == s[|s| - |digits| + i];
  }
}

/** Reading and writing numbers as text, in C's int arithmetic. */
module Numbers {
  type Byte = b: nat | b < 256

  const NUL: Byte := 0
  const PLUS: Byte := 43
  const MINUS: Byte := 45
  const DIGIT: Byte := 48  // '0'
  const INT_MAX: nat := 0x7fff_ffff

  predicate IsDigit(c: Byte) { DIGIT <= c <= DIGIT + 9 }

  predicate Digits(s: seq<Byte>) { forall i :: 0 <= i < |s| ==> IsDigit(s[i]) }

  /** The value of a digit string in a base. */
  function Value(s: seq<Byte>, base: nat): (v: int)
    ensures Digits(s) ==> v >= 0
  {
    if s == [] then 0 else Value(s[..|s| - 1], base) * base + s[|s| - 1] - DIGIT
  }

  /** The decimal text of n. */
  function Decimal(n: nat): (s: seq<Byte>)
    ensures Digits(s) && |s| > 0
    ensures s[0] == DIGIT ==> n == 0 && |s| == 1
  {
    if n < 10 then [DIGIT + n] else Decimal(n / 10) + [DIGIT + n % 10]
  }

  function Magnitude(v: int): nat { if v >= 0 then v else -v }

  /** What itoa is to write before the terminator. */
  function Text(v: int): seq<Byte> {
    if v >= 0 then Decimal(v) else [MINUS] + Decimal(-v)
  }

  // ----- atoi -----------------------------------------------------------------------------------

  /** Signed overflow has no meaning in C. */
  datatype Parsed = Overflow | Int(value: int)

  predicate Signed(s: seq<Byte>) { |s| > 0 && (s[0] == MINUS || s[0] == PLUS) }

  function Body(s: seq<Byte>): seq<Byte> { if Signed(s) then s[1..] else s }

  predicate DigitsTo(s: seq<Byte>, k: nat)
    requires k <= |s|
  {
    forall i :: 0 <= i < k ==> IsDigit(s[i])
  }

  /** The length of the digits s starts with. */
  function Run(s: seq<Byte>): (k: nat)
    ensures k <= |s| && DigitsTo(s, k) && (k < |s| ==> !IsDigit(s[k]))
  {
    if s == [] || !IsDigit(s[0]) then 0 else 1 + Run(s[1..])
  }

  /** The meaning of a terminated digit string: the number if it is one, 0 if it is not; no meaning
      if its leading digits come within a digit's code of the largest int. */
  function Unsigned(s: seq<Byte>): Parsed {
    var k := Run(s);
    var v := Value(s[..k], 10);
    if k > 0 && v + DIGIT > INT_MAX then Overflow
    else if k < |s| && s[k] != NUL then Int(0)
    else Int(v)
  }

  function Reading(s: seq<Byte>): Parsed {
    match Unsigned(Body(s))
    case Overflow => Overflow
    case Int(v) => Int(if |s| > 0 && s[0] == MINUS then -v else v)
  }

  lemma ValueStep(s: seq<Byte>, i: nat, base: nat)
    requires i < |s|
    ensures Value(s[..i + 1], base) == Value(s[..i], base) * base + s[i] - DIGIT
  {
    assert s[..i + 1][..i] == s[..i];
  }

  lemma {:induction false} ValueGrows(s: seq<Byte>, i: nat, k: nat)
    requires i <= k <= |s| && DigitsTo(s, k)
    ensures 0 <= Value(s[..i], 10) <= Value(s[..k], 10)
    decreases k
  {
    if i < k {
      ValueGrows(s, i, k - 1);
      ValueStep(s, k - 1, 10);
    } else if i > 0 {
      ValueGrows(s, i - 1, i - 1);
      ValueStep(s, i - 1, 10);
    }
  }

  /** The loop of atoi. */
  method ReadDigits(s: seq<Byte>) returns (r: Parsed)
    requires NUL in s
    ensures r == Unsigned(s)
  {
    hide Value, Run;
    var ans, i := 0, 0;
    assert Value(s[..0], 10) == 0 by { Empty(s[..0]); }
    while i < |s| && s[i] != NUL
      invariant 0 <= i <= |s| && DigitsTo(s, i) && ans == Value(s[..i], 10)
      invariant i > 0 ==> ans + DIGIT <= INT_MAX
    {
      if DIGIT <= s[i] <= 57 {
        ValueStep(s, i, 10);
        if ans * 10 + s[i] > INT_MAX {
          ValueGrows(s, i + 1, Run(s));
          return Overflow;
        }
        ans := ans * 10 + s[i] - DIGIT;
        i := i + 1;
      } else {
        assert Run(s) == i;
        return Int(0);
      }
    }
    assert Run(s) == i;
    return Int(ans);
  }

  lemma Empty(s: seq<Byte>)
    requires s == []
    ensures Value(s, 10) == 0
  {
  }

  method Atoi(str: seq<Byte>) returns (r: Parsed)
    requires NUL in str
    ensures r == Reading(str)
  {
    var sign := 1;
    var s := str;
    if str[0] == MINUS {
      sign := -1;
      s := str[1..];
    } else if str[0] == PLUS {
      s := str[1..];
    }
    assert str == if Signed(str) then [str[0]] + s else s;
    r := ReadDigits(s);
    if r.Int? {
      r := Int(r.value * sign);
    }
  }

  // ----- itoa -----------------------------------------------------------------------------------

  method CountDigits(n: nat) returns (k: nat)
    requires n > 0
    ensures k == |Decimal(n)|
  {
    var rest := n;
    k := 0;
    while rest > 0
      invariant k + (if rest > 0 then |Decimal(rest)| else 0) == |Decimal(n)|
    {
      rest := rest / 10;
      k := k + 1;
    }
  }

  /** The do loop of itoa, which fills buf from the end. */
  method WriteDigits(buf: array<Byte>, first: nat, last: nat, n: nat)
    requires first <= last < buf.Length && |Decimal(n)| == last + 1 - first
    modifies buf
    ensures buf[..first] == old(buf[..first]) && buf[first..last + 1] == Decimal(n) &&
      buf[last + 1..] == old(buf[last + 1..])
  {
    var i: int, rest := last, n;
    while true
      invariant first <= i <= last && |Decimal(rest)| == i + 1 - first
      invariant Decimal(rest) + buf[i + 1..last + 1] == Decimal(n)
      invariant buf[..i + 1] == old(buf[..i + 1]) && buf[last + 1..] == old(buf[last + 1..])
      decreases rest
    {
      ghost var tail := buf[i + 1..last + 1];
      buf[i] := DIGIT + rest % 10;
      assert buf[i..last + 1] == [DIGIT + rest % 10] + tail;
      i := i - 1;
      rest := rest / 10;
      if rest == 0 { break; }
    }
  }

  method Itoa(buf: array<Byte>, val: int)
    requires -0x8000_0000_0000_0000 < val < 0x8000_0000_0000_0000 && |Text(val)| < buf.Length
    modifies buf
    ensures buf[..|Text(val)| + 1] == Text(val) + [NUL]
    ensures buf[|Text(val)| + 1..] == old(buf[|Text(val)| + 1..])
  {
    if val == 0 {
      buf[0] := DIGIT;
      buf[1] := NUL;
      assert Text(0) == [DIGIT];
      return;
    }
    hide Decimal;
    var i := CountDigits(Magnitude(val));
    if val < 0 { i := i + 1; }
    buf[i] := NUL;
    var first := if val < 0 then 1 else 0;
    WriteDigits(buf, first, i - 1, Magnitude(val));
    if val < 0 {
      buf[0] := MINUS;
    }
    assert buf[..i] == buf[..first] + buf[first..i];
    assert buf[i..][1..] == buf[i + 1..];
  }

  // ----- the round trip --------------------------------------------------------------------------

  lemma {:induction false} DecimalValue(n: nat)
    ensures Value(Decimal(n), 10) == n
    decreases n
  {
    if n >= 10 {
      DecimalValue(n / 10);
      assert Decimal(n)[..|Decimal(n)| - 1] == Decimal(n / 10);
    }
  }

  lemma {:induction false} RunOfDigits(ds: seq<Byte>, rest: seq<Byte>)
    requires Digits(ds) && (rest != [] ==> !IsDigit(rest[0]))
    ensures Run(ds + rest) == |ds|
  {
    var s, r := ds + rest, Run(ds + rest);
    assert forall i :: 0 <= i < |ds| ==> s[i] == ds[i];
    assert rest != [] ==> s[|ds|] == rest[0];
  }

  /** A terminated string of digits reads as its value, as long as that stays clear of the bound. */
  lemma DigitsRead(ds: seq<Byte>, rest: seq<Byte>)
    requires Digits(ds)
    ensures Unsigned(ds + [NUL] + rest) == if ds != [] &&
      Value(ds, 10) + DIGIT > INT_MAX then Overflow else Int(Value(ds, 10))
  {
    var tail := [NUL] + rest;
    assert ds + [NUL] + rest == ds + tail;
    RunOfDigits(ds, tail);
    assert (ds + tail)[..|ds|] == ds;
  }

  /** A sign negates or changes nothing, and anything but digits before the terminator makes it 0,
      unless the leading digits come too close to the bound. */
  lemma SignsAndJunk(ds: seq<Byte>, c: Byte, rest: seq<Byte>)
    requires Digits(ds) && ds != [] && !IsDigit(c) && Value(ds, 10) + DIGIT <= INT_MAX
    ensures c == NUL ==> Reading(ds + [c] + rest) == Reading([43] + ds + [c] + rest) == Int(Value(ds, 10))
    ensures c == NUL ==> Reading([45] + ds + [c] + rest) == Int(-Value(ds, 10))
    ensures c != NUL ==> Reading(ds + [c] + rest) == Reading([43] + ds + [c] + rest) == Int(0)
    ensures c != NUL ==> Reading([45] + ds + [c] + rest) == Int(0)
  {
    hide Value, Unsigned;
    var tail := [c] + rest;
    DigitsAndJunk(ds, c, rest);
    SignOff(ds + tail);
    assert ds + [c] + rest == ds + tail;
    assert [43] + ds + [c] + rest == [43] + (ds + tail) && [45] + ds + [c] + rest == [45] + (ds + tail);
    assert IsDigit((ds + tail)[0]);
  }

  lemma DigitsAndJunk(ds: seq<Byte>, c: Byte, rest: seq<Byte>)
    requires Digits(ds) && ds != [] && !IsDigit(c) && Value(ds, 10) + DIGIT <= INT_MAX
    ensures Unsigned(ds + ([c] + rest)) == Int(if c == NUL then Value(ds, 10) else 0)
  {
    var tail := [c] + rest;
    RunOfDigits(ds, tail);
    hide Run, Value;
    assert (ds + tail)[..|ds|] == ds && (ds + tail)[|ds|] == c;
  }

  lemma SignOff(s: seq<Byte>)
    ensures Body([43] + s) == s && Body([45] + s) == s
  {
  }

  /** atoi undoes itoa exactly as far as 2^31 - 49 on either side of zero. */
  lemma RoundTripIff(v: int, rest: seq<Byte>)
    ensures Reading(Text(v) + [NUL] + rest) == Int(v) <==> Magnitude(v) <= INT_MAX - DIGIT
    ensures Magnitude(v) > INT_MAX - DIGIT ==> Reading(Text(v) + [NUL] + rest) == Overflow
  {
    hide Unsigned, Decimal;
    var ds, s := Decimal(Magnitude(v)), Text(v) + [NUL] + rest;
    DecimalValue(Magnitude(v));
    DigitsRead(ds, rest);
    assert IsDigit(ds[0]);
    assert Body(s) == ds + [NUL] + rest;
  }

  // ----- octal ------------------------------------------------------------------------------------

  function Power(a: int, b: nat): int { if b == 0 then 1 else Power(a, b - 1) * a }

  method Pow(a: int, b: nat) returns (r: nat)
    ensures r == Power(a, b) % 0x1_0000_0000_0000_0000
  {
    r := 1;
    var left := b;
    while left > 0
      invariant 0 <= left <= b && r == Power(a, b - left) % 0x1_0000_0000_0000_0000
    {
      ModMul(Power(a, b - left), a);
      r := r * a % 0x1_0000_0000_0000_0000;
      left := left - 1;
    }
  }

  lemma ModMul(x: int, a: int)
    ensures x % 0x1_0000_0000_0000_0000 * a % 0x1_0000_0000_0000_0000 == x * a % 0x1_0000_0000_0000_0000
  {
    var m := 0x1_0000_0000_0000_0000;
    var q, r := x / m, x % m;
    assert x * a == r * a + m * (q * a);
    ModAdd(r * a, q * a);
  }

  lemma ModAdd(x: int, k: int)
    ensures (x + 0x1_0000_0000_0000_0000 * k) % 0x1_0000_0000_0000_0000 == x % 0x1_0000_0000_0000_0000
  {
  }

  /** The decimal digits of n, read in base eight. */
  function Octal(n: int): nat { if n <= 0 then 0 else Octal(n / 10) * 8 + n % 10 }

  /** A 64-bit value assigned to an int. */
  function ToInt(x: nat): int {
    var low := x % 0x1_0000_0000;
    if low <= INT_MAX then low else low - 0x1_0000_0000
  }

  method OctalToDecimal(n: int) returns (ans: int)
    requires n <= INT_MAX
    ensures ans == Octal(n) <= INT_MAX
  {
    OctalFits(n);
    OctalEnds(n);
    hide Octal, Power;
    var rest, i := n, 0;
    ans := 0;
    while rest > 0
      invariant i >= 0 && 0 <= ans && ans + Power(8, i) * Octal(rest) == Octal(n)
      invariant rest > 0 ==> rest * Power(10, i) <= n
      invariant rest <= 0 ==> Octal(rest) == 0
    {
      FewDigits(rest, i);
      var p := Pow(8, i);
      Shift(rest, Power(8, i));
      Drop(rest, Power(10, i));
      NextPowers(i);
      NotNegative(Power(8, i), Octal(rest / 10), rest % 10);
      ans := ToInt(ans + rest % 10 * p);
      rest := rest / 10;
      i := i + 1;
      OctalEnds(rest);
    }
  }

  lemma OctalEnds(n: int)
    ensures n <= 0 ==> Octal(n) == 0
    ensures Power(8, 0) == Power(10, 0) == 1
  {
  }

  lemma NextPowers(i: nat)
    ensures Power(8, i + 1) == Power(8, i) * 8 && Power(10, i + 1) == Power(10, i) * 10
  {
  }

  lemma FewDigits(rest: nat, i: nat)
    requires rest > 0 && rest * Power(10, i) <= INT_MAX
    ensures 1 <= Power(8, i) <= 0x4000_0000 && 1 <= Power(10, i)
  {
    PowersOfTen(10);
    PowerGrows(10, i, i);
    if i >= 10 {
      PowerGrows(10, 10, i);
      Mul(rest, Power(10, i));
      assert false;
    }
    PowerGrows(8, i, 10);
  }

  lemma PowersOfTen(i: nat)
    requires i == 10
    ensures Power(10, i) == 10_000_000_000 && Power(8, i) == 0x4000_0000
  {
  }

  lemma {:induction false} PowerGrows(a: nat, i: nat, j: nat)
    requires a > 0 && i <= j
    ensures 1 <= Power(a, i) <= Power(a, j)
    decreases j
  {
    if i < j {
      PowerGrows(a, i, j - 1);
    } else if i > 0 {
      PowerGrows(a, i - 1, i - 1);
    }
  }

  lemma NotNegative(p: nat, o: nat, d: nat)
    ensures 0 <= p * 8 * o && 0 <= d * p
  {
  }

  lemma Mul(x: nat, y: nat)
    requires x > 0
    ensures x * y >= y
  {
  }

  lemma Distribute(p: nat, o: nat, d: nat)
    ensures p * (o * 8 + d) == p * 8 * o + d * p
  {
  }

  lemma Shift(rest: nat, p: nat)
    requires rest > 0
    ensures p * Octal(rest) == p * 8 * Octal(rest / 10) + rest % 10 * p
  {
    hide Octal;
    Unfold(rest);
    Distribute(p, Octal(rest / 10), rest % 10);
  }

  lemma Unfold(rest: nat)
    requires rest > 0
    ensures Octal(rest) == Octal(rest / 10) * 8 + rest % 10
  {
  }

  lemma OctalStep(x: nat, d: nat)
    requires d < 10
    ensures Octal(x * 10 + d) == Octal(x) * 8 + d
  {
  }

  lemma Drop(rest: nat, p: nat)
    ensures rest / 10 * (p * 10) <= rest * p
  {
  }

  /** Reading the digits in base eight never gives more than reading them in base ten. */
  lemma {:induction false} OctalFits(n: int)
    ensures Octal(n) <= if n > 0 then n else 0
    decreases n
  {
    if n > 0 {
      OctalFits(n / 10);
    }
  }

  predicate OctalDigits(s: seq<Byte>) { forall i :: 0 <= i < |s| ==> DIGIT <= s[i] < DIGIT + 8 }

  /** o_to_d of atoi is the octal value of the string. */
  lemma {:induction false} OctalReading(s: seq<Byte>)
    requires OctalDigits(s)
    ensures Value(s, 10) >= 0 && Octal(Value(s, 10)) == Value(s, 8)
  {
    if s != [] {
      var t, d := s[..|s| - 1], s[|s| - 1] - DIGIT;
      OctalReading(t);
      OctalStep(Value(t, 10), d);
      hide Octal;
      assert Value(s, 10) == Value(t, 10) * 10 + d && Value(s, 8) == Value(t, 8) * 8 + d;
    }
  }
}

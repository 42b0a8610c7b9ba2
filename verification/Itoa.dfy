/**
 `itoa`: digits are produced from the least significant end and then reversed in place.
 Division and remainder truncate toward zero, as in C.
 */
module Itoa {
  import opened Wrappers

  const INT_MIN := -0x8000_0000
  const INT_MAX := 0x7FFF_FFFF
  const MINUS := 45

  predicate IsInt(n: int) { INT_MIN <= n <= INT_MAX }

  predicate IsBase(b: int) { 2 <= b <= 36 }

  function Quot(n: int, b: int): int
    requires b > 0
  {
    if n >= 0 then n / b else -(-n / b)
  }

  function Rem(n: int, b: int): int
    requires b > 0
  {
    n - Quot(n, b) * b
  }

  function Abs(n: int): nat { if n < 0 then -n else n }

  lemma QuotRem(n: int, b: int)
    requires b >= 2
    ensures n >= 0 ==> Quot(n, b) == n / b && Rem(n, b) == n % b
    ensures n < 0 ==> -b < Rem(n, b) <= 0 && Quot(n, b) <= 0
    ensures n != 0 ==> Abs(Quot(n, b)) < Abs(n)
  {
    var m := Abs(n);
    DivShrinks(m, b);
    if n < 0 {
      assert Quot(n, b) == -(m / b);
      assert Quot(n, b) * b == -((m / b) * b);
    }
  }

  lemma DivShrinks(m: nat, b: int)
    requires b >= 2
    ensures m == (m / b) * b + m % b && 0 <= m % b < b && 0 <= m / b
    ensures m > 0 ==> m / b < m
  {
    var q := m / b;
    assert m == q * b + m % b;
    if q > 0 { assert q * 2 <= q * b; }
  }

  /** The byte written for one remainder. */
  function DigitByte(rem: int): int {
    if rem > 9 then rem - 10 + 97 else rem + 48
  }

  /** The digits of `n`, most significant first. */
  function Text(n: int, b: int): seq<int>
    requires IsBase(b)
    decreases Abs(n)
  {
    QuotRem(n, b);
    if n == 0 then [] else Text(Quot(n, b), b) + [DigitByte(Rem(n, b))]
  }

  /** What `itoa` leaves in the buffer, without the terminating zero. */
  function Written(n: int, b: int): seq<int>
    requires IsBase(b)
  {
    if n == 0 then [48]
    else if n < 0 && b == 10 then [MINUS] + Text(-n, b)
    else Text(n, b)
  }

  // ---------------------------------------------------------------- reading a number back

  /** The value of a digit byte; -1 for any other byte. */
  function DigitValue(c: int): int {
    if 48 <= c <= 57 then c - 48 else if 97 <= c <= 122 then c - 87 else -1
  }

  function ParseDigits(s: seq<int>, b: int): Option<int> {
    if s == [] then Some(0)
    else
      var front := ParseDigits(s[..|s| - 1], b);
      var d := DigitValue(s[|s| - 1]);
      if front.Some? && 0 <= d < b then Some(front.value * b + d) else None
  }

  /** An optional minus sign and at least one digit. */
  function Parse(s: seq<int>, b: int): Option<int> {
    if s != [] && s[0] == MINUS then
      var v := ParseDigits(s[1..], b);
      if |s| > 1 && v.Some? then Some(-v.value) else None
    else
      var v := ParseDigits(s, b);
      if |s| > 0 && v.Some? then Some(v.value) else None
  }

  lemma DigitReads(r: int)
    requires 0 <= r < 36
    ensures DigitValue(DigitByte(r)) == r && 48 <= DigitByte(r) && (r > 0 ==> 48 < DigitByte(r))
  {}

  lemma ParseLast(s: seq<int>, c: int, b: int)
    requires ParseDigits(s, b).Some? && 0 <= DigitValue(c) < b
    ensures ParseDigits(s + [c], b) == Some(ParseDigits(s, b).value * b + DigitValue(c))
  {
    assert (s + [c])[..|s|] == s;
  }

  lemma {:induction false} TextParses(n: nat, b: int)
    requires IsBase(b)
    ensures ParseDigits(Text(n, b), b) == Some(n)
    decreases n
  {
    if n > 0 {
      DivShrinks(n, b);
      QuotRem(n, b);
      TextParses(n / b, b);
      DigitReads(n % b);
      ParseLast(Text(n / b, b), DigitByte(n % b), b);
    }
  }

  lemma {:induction false} TextStarts(n: nat, b: int)
    requires IsBase(b) && n > 0
    ensures |Text(n, b)| > 0 && 48 < Text(n, b)[0]
    decreases n
  {
    QuotRem(n, b);
    DivShrinks(n, b);
    DigitReads(n % b);
    if n / b > 0 { TextStarts(n / b, b); }
  }

  lemma NegativeQuotRem(n: int, b: int)
    requires b >= 2 && n < 0
    ensures Quot(n, b) == -(-n / b) && Rem(n, b) == -(-n % b)
  {
    DivShrinks(-n, b);
    assert -(-n / b) * b == -((-n / b) * b);
  }

  /** The last byte of a negative number and the last digit of its absolute value. */
  lemma NegativeLast(n: int, b: int)
    requires IsBase(b) && n < 0
    ensures 0 <= -n % b < b && 0 <= -n / b < -n
    ensures Text(n, b) == Text(-(-n / b), b) + [48 - -n % b]
    ensures Text(-n, b) == Text(-n / b, b) + [DigitByte(-n % b)]
  {
    NegativeQuotRem(n, b);
    QuotRem(-n, b);
    DivShrinks(-n, b);
  }

  /** The bytes of a negative number: as far below the byte for 0 as the digits of its absolute
      value say. Only a digit 0 comes out as a digit. */
  lemma {:induction false} NegativeBytes(n: int, b: int)
    requires IsBase(b) && 0 <= n
    ensures |Text(-n, b)| == |Text(n, b)|
    ensures forall i :: 0 <= i < |Text(n, b)| ==>
              0 <= DigitValue(Text(n, b)[i]) < b && Text(-n, b)[i] == 48 - DigitValue(Text(n, b)[i])
    decreases n
  {
    if n > 0 {
      NegativeLast(-n, b);
      DigitReads(n % b);
      NegativeBytes(n / b, b);
    }
  }

  lemma {:induction false} LowDigitsParse(s: seq<int>, b: int)
    requires forall i :: 0 <= i < |s| ==> s[i] <= 48
    ensures ParseDigits(s, b).Some? ==> ParseDigits(s, b).value == 0
  {
    if s != [] { LowDigitsParse(s[..|s| - 1], b); }
  }

  lemma ZeroReads(b: int)
    requires IsBase(b)
    ensures Parse([48], b) == Some(0)
  {
    assert [48][..0] == [];
    assert ParseDigits([], b) == Some(0);
  }

  lemma PositiveReads(n: nat, b: int)
    requires IsBase(b) && n > 0
    ensures Parse(Text(n, b), b) == Some(n)
  {
    TextParses(n, b);
    TextStarts(n, b);
  }

  lemma MinusReads(n: nat, b: int)
    requires IsBase(b) && n > 0
    ensures Parse([MINUS] + Text(n, b), b) == Some(0 - n)
  {
    TextParses(n, b);
    TextStarts(n, b);
    assert ([MINUS] + Text(n, b))[1..] == Text(n, b);
  }

  lemma NegativeUnreadable(n: int, b: int)
    requires IsBase(b) && n < 0
    ensures Parse(Text(n, b), b) != Some(n)
  {
    var s := Text(n, b);
    NegativeBytes(-n, b);
    forall i | 0 <= i < |s| ensures s[i] <= 48 { assert 0 <= DigitValue(Text(-n, b)[i]); }
    LowDigitsParse(s, b);
    if s != [] { LowDigitsParse(s[1..], b); }
  }

  /** The text reads back as the number exactly when the number is not negative or the base
      is ten: for a negative number in another base the remainders are negative and the bytes
      written are those of `NegativeBytes`. */
  lemma RoundTrip(n: int, b: int)
    requires IsBase(b)
    ensures Parse(Written(n, b), b) == Some(n) <==> n >= 0 || b == 10
  {
    if n == 0 {
      ZeroReads(b);
    } else if n > 0 {
      PositiveReads(n, b);
    } else if b == 10 {
      MinusReads(-n, b);
    } else {
      NegativeUnreadable(n, b);
    }
  }

  /** No leading zero, except for zero itself. */
  lemma NoLeadingZero(n: int, b: int)
    requires IsBase(b) && n != 0 && (n > 0 || b == 10)
    ensures var s := Written(n, b);
            if n > 0 then |s| > 0 && s[0] != 48 else |s| > 1 && s[0] == MINUS && s[1] != 48
  {
    TextStarts(Abs(n), b);
  }

  function Pow10(k: nat): nat { if k == 0 then 1 else 10 * Pow10(k - 1) }

  lemma {:induction false} TextLength(n: nat, k: nat)
    requires n < Pow10(k)
    ensures |Text(n, 10)| <= k
    decreases k
  {
    if n > 0 {
      QuotRem(n, 10);
      TextLength(n / 10, k - 1);
    }
  }

  /** A 32-bit number in base ten takes at most 11 characters. */
  lemma ElevenCharacters(n: int)
    requires IsInt(n)
    ensures |Written(n, 10)| <= 11
  {
    assert Pow10(5) == 100000;
    assert Pow10(10) == 10000000000;
    TextLength(Abs(n), 10);
  }

  // ---------------------------------------------------------------- the program

  function Reversed(s: seq<int>): (r: seq<int>)
    ensures |r| == |s|
    ensures forall i {:trigger r[i]} :: 0 <= i < |s| ==> r[i] == s[|s| - 1 - i]
  {
    seq(|s|, i requires 0 <= i < |s| => s[|s| - 1 - i])
  }

  /** The digit loop fills the buffer from the least significant digit on. */
  method WriteDigits(num: int, str: array<int>, b: int) returns (i: nat)
    requires IsBase(b) && |Text(num, b)| <= str.Length
    modifies str
    ensures i == |Text(num, b)| && str[..i] == Reversed(Text(num, b))
    ensures forall k :: i <= k < str.Length ==> str[k] == old(str[k])
  {
    i := 0;
    var n := num;
    while n != 0
      invariant i + |Text(n, b)| == |Text(num, b)|
      invariant Text(num, b)[..|Text(n, b)|] == Text(n, b)
      invariant forall k :: 0 <= k < i ==> str[k] == Text(num, b)[|Text(num, b)| - 1 - k]
      invariant forall k :: i <= k < str.Length ==> str[k] == old(str[k])
      decreases Abs(n)
    {
      QuotRem(n, b);
      var rem := Rem(n, b);
      ghost var t := Text(n, b);
      assert t == Text(Quot(n, b), b) + [DigitByte(rem)];
      assert Text(num, b)[|t| - 1] == t[|t| - 1];
      assert Text(num, b)[..|t| - 1] == t[..|t| - 1];
      str[i] := if rem > 9 then rem - 10 + 97 else rem + 48;
      i := i + 1;
      n := Quot(n, b);
    }
  }

  /** The reversal loop. */
  method ReversePrefix(str: array<int>, n: nat)
    requires n <= str.Length
    modifies str
    ensures str[..n] == Reversed(old(str[..n]))
    ensures forall k :: n <= k < str.Length ==> str[k] == old(str[k])
  {
    var j, k := 0, n - 1;
    while j < k
      invariant 0 <= j && k == n - 1 - j && j <= k + 2
      invariant forall m :: 0 <= m < n && (m < j || k < m) ==> str[m] == old(str[n - 1 - m])
      invariant forall m :: j <= m <= k ==> str[m] == old(str[m])
      invariant forall m :: n <= m < str.Length ==> str[m] == old(str[m])
    {
      var temp := str[j];
      str[j] := str[k];
      str[k] := temp;
      j, k := j + 1, k - 1;
    }
  }

  /** `itoa`. Negating the least int is undefined in C and excluded. */
  method ItoA(num: int, str: array<int>, b: int)
    requires IsInt(num) && IsBase(b) && !(num == INT_MIN && b == 10)
    requires |Written(num, b)| < str.Length
    modifies str
    ensures str[..|Written(num, b)|] == Written(num, b) && str[|Written(num, b)|] == 0
    ensures forall k :: |Written(num, b)| < k < str.Length ==> str[k] == old(str[k])
  {
    if num == 0 {
      str[0] := 48;
      str[1] := 0;
      return;
    }
    var n, negative := num, false;
    if n < 0 && b == 10 {
      negative := true;
      n := -n;
    }
    var i := WriteDigits(n, str, b);
    if negative {
      str[i] := MINUS;
      i := i + 1;
    }
    str[i] := 0;
    ghost var before := str[..i];
    assert before == Reversed(Written(num, b)) by {
      assert forall k :: 0 <= k < |Text(n, b)| ==> before[k] == Reversed(Text(n, b))[k];
    }
    ReversePrefix(str, i);
    assert Reversed(before) == Written(num, b);
  }
}

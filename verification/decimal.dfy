/**
 Decimal text: the printf("%u") form, the atoi reading of it, and the signal-safe
 printer of src/log.c.
 */
module Decimal {
  import opened Basics
  import opened Bytes

  const ZERO: byte := 48

  predicate IsDigit(b: byte) {
    ZERO <= b < ZERO + 10
  }

  ghost predicate AllDigits(s: seq<byte>) {
    forall i :: 0 <= i < |s| ==> IsDigit(s[i])
  }

  /** The decimal text of n, without leading zeros. */
  function Dec(n: nat): (s: seq<byte>)
    ensures s != []
  {
    if n < 10 then [ZERO + n] else Dec(n / 10) + [ZERO + n % 10]
  }

  /** The number a string of digits denotes. */
  function Number(s: seq<byte>): nat
    requires AllDigits(s)
  {
    if s == [] then 0 else Number(s[..|s| - 1]) * 10 + (s[|s| - 1] - ZERO)
  }

  /** How many digits stand at the start of s. */
  function DigitRun(s: seq<byte>): (k: nat)
    ensures k <= |s| && AllDigits(s[..k])
    ensures k < |s| ==> !IsDigit(s[k])
  {
    if s == [] || !IsDigit(s[0]) then 0
    else
      var k := DigitRun(s[1..]);
      assert s[..k + 1] == [s[0]] + s[1..][..k];
      k + 1
  }

  /** isspace in the C locale */
  predicate IsSpace(b: byte) {
    b == 32 || 9 <= b <= 13
  }

  function SpaceRun(s: seq<byte>): (k: nat)
    ensures k <= |s|
  {
    if s == [] || !IsSpace(s[0]) then 0 else 1 + SpaceRun(s[1..])
  }

  function Unsigned(s: seq<byte>): nat {
    Number(s[..DigitRun(s)])
  }

  /** atoi: white space, a sign, digits, each of them optional, and whatever follows. */
  function Atoi(s: seq<byte>): int {
    var t := s[SpaceRun(s)..];
    if t != [] && t[0] == 45 then 0 - Unsigned(t[1..])
    else if t != [] && t[0] == 43 then Unsigned(t[1..])
    else Unsigned(t)
  }

  ghost predicate Canonical(s: seq<byte>) {
    s != [] && AllDigits(s) && (|s| > 1 ==> s[0] != ZERO)
  }

  lemma {:induction false} DecDenotes(n: nat)
    ensures Canonical(Dec(n)) && Number(Dec(n)) == n
  {
    if n < 10 {
      assert Dec(n)[..0] == [];
    } else {
      DecDenotes(n / 10);
      var s := Dec(n);
      assert s[..|s| - 1] == Dec(n / 10);
      if |Dec(n / 10)| == 1 {
        assert Dec(n / 10)[..0] == [];
      }
    }
  }

  lemma {:induction false} LeadingDigitCounts(s: seq<byte>)
    requires Canonical(s)
    ensures Number(s) == 0 ==> s == [ZERO]
  {
    if |s| == 1 {
      assert s[..0] == [];
    } else {
      LeadingDigitCounts(s[..|s| - 1]);
    }
  }

  /** A leading-zero-free decimal text is determined by the number it denotes. */
  lemma {:induction false} DecUnique(s: seq<byte>)
    requires Canonical(s)
    ensures s == Dec(Number(s))
  {
    if |s| == 1 {
      assert s[..0] == [];
    } else {
      var front := s[..|s| - 1];
      DecUnique(front);
      LeadingDigitCounts(front);
      assert s == front + [s[|s| - 1]];
    }
  }

  lemma AtoiDec(n: nat)
    ensures Atoi(Dec(n)) == n
  {
    DecDenotes(n);
    assert Dec(n)[..|Dec(n)|] == Dec(n);
    assert IsDigit(Dec(n)[0]);
    assert SpaceRun(Dec(n)) == 0 && Dec(n)[0..] == Dec(n);
  }

  lemma {:induction false} SpacesRun(spaces: seq<byte>, t: seq<byte>)
    requires (forall i :: 0 <= i < |spaces| ==> IsSpace(spaces[i])) && (t == [] || !IsSpace(t[0]))
    ensures SpaceRun(spaces + t) == |spaces| && (spaces + t)[|spaces|..] == t
  {
    if spaces == [] {
      assert spaces + t == t;
    } else {
      assert (spaces + t)[1..] == spaces[1..] + t;
      SpacesRun(spaces[1..], t);
    }
  }

  lemma {:induction false} DigitsRun(digits: seq<byte>, rest: seq<byte>)
    requires AllDigits(digits) && (rest == [] || !IsDigit(rest[0]))
    ensures DigitRun(digits + rest) == |digits|
  {
    if digits == [] {
      assert digits + rest == rest;
    } else {
      assert (digits + rest)[1..] == digits[1..] + rest;
      DigitsRun(digits[1..], rest);
    }
  }

  /** atoi of white space (9 to 13 and 32), the decimal text of a number with a sign (43 or 45)
      or without one, and anything that is no digit (48 to 57). */
  lemma AtoiText(spaces: seq<byte>, n: nat, rest: seq<byte>)
    requires forall i :: 0 <= i < |spaces| ==> spaces[i] == 32 || 9 <= spaces[i] <= 13
    requires rest == [] || !(48 <= rest[0] <= 57)
    ensures Atoi(spaces + (Dec(n) + rest)) == n
    ensures Atoi(spaces + ([43] + (Dec(n) + rest))) == n
    ensures Atoi(spaces + ([45] + (Dec(n) + rest))) == 0 - n
  {
    hide Number, DigitRun, SpaceRun;
    var text := Dec(n) + rest;
    DecDenotes(n);
    DigitsRun(Dec(n), rest);
    assert text[..|Dec(n)|] == Dec(n) && IsDigit(Dec(n)[0]);
    SpacesRun(spaces, text);
    SpacesRun(spaces, [43] + text);
    SpacesRun(spaces, [45] + text);
    assert ([43] + text)[1..] == text && ([45] + text)[1..] == text;
  }

  /** Length of the decimal text of a 32-bit number. */
  lemma DecLength(n: nat)
    requires n < TWO_32
    ensures |Dec(n)| <= 10
  {
    DecBound(n, 10, 0x2_540B_E400);
  }

  lemma {:induction false} DecBound(n: nat, k: nat, top: nat)
    requires 1 <= k <= 10 && top == Power10(k) && n < top
    ensures |Dec(n)| <= k
  {
    if n >= 10 {
      DecBound(n / 10, k - 1, Power10(k - 1));
    }
  }

  function Power10(k: nat): nat {
    if k == 0 then 1 else 10 * Power10(k - 1)
  }

  const INT32_BUFLEN: nat := 12

  /** The digits of a number still to be written; none for 0. */
  function Left(n: nat): seq<byte> {
    if n == 0 then [] else Dec(n)
  }

  lemma LeftStep(n: nat, text: seq<byte>)
    requires n > 0
    ensures |Left(n / 10)| == |Left(n)| - 1
    ensures Left(n) + text == Left(n / 10) + ([ZERO + n % 10] + text)
  {
    assert Left(n) == Left(n / 10) + [ZERO + n % 10];
    Assoc(Left(n / 10), [ZERO + n % 10], text);
  }

  /** Everything but the octets from lo up to hi is as before. */
  twostate predicate OnlyWithin(out: array<byte>, lo: nat, hi: nat)
    requires lo <= hi
    reads out
  {
    && (lo <= out.Length ==> out[..lo] == old(out[..lo]))
    && (hi <= out.Length ==> out[hi..] == old(out[hi..]))
  }

  /** One round of the digit loop: the last digit of n goes in front of the text that ends
      at `top`. */
  method PutDigit(out: array<byte>, at: nat, n: nat, top: nat)
    requires at < top <= out.Length && n > 0
    modifies out
    ensures OnlyWithin(out, at, at + 1)
    ensures |Left(n / 10)| == |Left(n)| - 1
    ensures Left(n / 10) + out[at..top] == Left(n) + old(out[at + 1..top])
  {
    ghost var text := out[at + 1..top];
    out[at] := ZERO + n % 10;
    assert out[at..top] == [ZERO + n % 10] + text;
    LeftStep(n, text);
  }

  /** The digit loop: n is written backwards from before `top`; the result is where its text
      starts. */
  method PutDigits(out: array<byte>, at: nat, input: nat, top: nat) returns (start: nat)
    requires |Left(input)| <= top - at && at <= top <= out.Length
    modifies out
    ensures start == top - |Left(input)| && out[start..top] == Left(input)
    ensures OnlyWithin(out, at, top)
  {
    hide Left;
    var n, i: int := input, top - 1;
    while n != 0
      invariant at - 1 <= i < top && 0 <= n
      invariant |Left(n)| <= i + 1 - at && |Left(n)| + (top - 1 - i) == |Left(input)|
      invariant Left(n) + out[i + 1..top] == Left(input)
      invariant OnlyWithin(out, at, top)
    {
      LeftSome(n);
      PutDigit(out, i, n, top);
      assert out[..at] == out[..i][..at];
      assert out[top..] == out[i + 1..][top - i - 1..];
      n := n / 10;
      i := i - 1;
    }
    LeftNone();
    start := i + 1;
  }

  lemma LeftSome(n: nat)
    requires n > 0
    ensures Left(n) == Dec(n) && |Left(n)| > 0
  {
  }

  lemma LeftNone()
    ensures Left(0) == []
  {
  }

  /** uint32_to_str: digits are generated backwards from index 10 of the caller's
      string, then moved to its front; `at` is where that string starts in `out`
      (1 when a sign was left room for). */
  method PrintU32(input: nat, out: array<byte>, at: nat)
    requires input < TWO_32
    requires at + INT32_BUFLEN - 1 <= out.Length
    modifies out
    ensures |Dec(input)| + at < out.Length
    ensures out[at..at + |Dec(input)|] == Dec(input) && out[at + |Dec(input)|] == 0
    ensures OnlyWithin(out, at, at + INT32_BUFLEN - 1)
  {
    DecLength(input);
    if input == 0 {
      out[at], out[at + 1] := ZERO, 0;
      return;
    }
    LeftSome(input);
    var start := PutDigits(out, at, input, at + INT32_BUFLEN - 1);
    MoveToFront(out, at, at + INT32_BUFLEN - 1 - start);
  }

  /** The memmove and the terminator: `digits` octets end before index 11 of the text. */
  method MoveToFront(out: array<byte>, at: nat, digits: nat)
    requires at + INT32_BUFLEN - 1 <= out.Length
    requires 0 < digits < INT32_BUFLEN - 1
    modifies out
    ensures out[at..at + digits] == old(out[at + INT32_BUFLEN - 1 - digits..at + INT32_BUFLEN - 1])
    ensures out[at + digits] == 0
    ensures OnlyWithin(out, at, at + INT32_BUFLEN - 1)
  {
    var from := at + INT32_BUFLEN - 1 - digits;
    forall k | 0 <= k < digits {
      out[at + k] := out[from + k];
    }
    out[at + digits] := 0;
  }

  /** The text of a signed 32-bit number; the least one has a name of its own. */
  function DecSigned(n: int): seq<byte>
    requires -TWO_31 <= n < TWO_31
  {
    if n == -TWO_31 then [73, 78, 84, 95, 77, 73, 78]
    else if n < 0 then [45] + Dec(-n)
    else Dec(n)
  }

  /** The text reads back as the number, but for the least one. */
  lemma SignedReadsBack(n: int)
    requires -TWO_31 < n < TWO_31
    ensures Atoi(DecSigned(n)) == n
  {
    hide Dec, Atoi;
    var m: nat := if n < 0 then -n else n;
    AtoiText([], m, []);
    assert [] + (Dec(m) + []) == Dec(m) && [] + ([45] + (Dec(m) + [])) == [45] + Dec(m);
  }

  lemma LeastNumber()
    ensures DecSigned(-0x8000_0000)
      == ['I' as int, 'N' as int, 'T' as int, '_' as int, 'M' as int, 'I' as int, 'N' as int]
  {
  }

  /** int32_to_str: the twelve-byte buffer is enough although the magnitude of a
      negative number is printed from index 1. */
  method PrintI32(input: int, out: array<byte>)
    requires -TWO_31 <= input < TWO_31
    requires out.Length == INT32_BUFLEN
    modifies out
    ensures |DecSigned(input)| < out.Length
    ensures out[..|DecSigned(input)|] == DecSigned(input) && out[|DecSigned(input)|] == 0
  {
    if input == -TWO_31 {
      out[0], out[1], out[2], out[3] := 73, 78, 84, 95;
      out[4], out[5], out[6], out[7] := 77, 73, 78, 0;
    } else if input < 0 {
      PrintU32(-input, out, 1);
      out[0] := 45;
      assert out[..1 + |Dec(-input)|] == [45] + out[1..1 + |Dec(-input)|];
    } else {
      PrintU32(input, out, 0);
    }
  }
}

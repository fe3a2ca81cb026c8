/**
 Octets and the big-endian integers of the wire format.
 */
module Bytes {

  type byte = b: int | 0 <= b < 256

  const TWO_31: int := 0x8000_0000
  const TWO_32: int := 0x1_0000_0000

  /** The n low octets of v, most significant first. */
  function Octets(v: nat, n: nat): (bs: seq<byte>)
    ensures |bs| == n
  {
    if n == 0 then [] else Octets(v / 256, n - 1) + [v % 256]
  }

  /** The number octets denote, most significant first. */
  function BeValue(s: seq<byte>): nat {
    if s == [] then 0 else BeValue(s[..|s| - 1]) * 256 + s[|s| - 1]
  }

  function Power256(n: nat): nat {
    if n == 0 then 1 else 256 * Power256(n - 1)
  }

  lemma {:induction false} BeValueOfOctets(v: nat, n: nat)
    requires v < Power256(n)
    ensures BeValue(Octets(v, n)) == v
  {
    if n > 0 {
      BeValueOfOctets(v / 256, n - 1);
      assert Octets(v, n)[..n - 1] == Octets(v / 256, n - 1);
    }
  }

  lemma {:induction false} OctetsOfBeValue(s: seq<byte>)
    ensures BeValue(s) < Power256(|s|)
    ensures Octets(BeValue(s), |s|) == s
  {
    if s != [] {
      OctetsOfBeValue(s[..|s| - 1]);
    }
  }

  function U16(v: nat): (bs: seq<byte>)
    ensures |bs| == 2
  {
    Octets(v, 2)
  }

  function U32(v: nat): (bs: seq<byte>)
    ensures |bs| == 4
  {
    Octets(v, 4)
  }

  function Be16(s: seq<byte>): nat
    requires |s| >= 2
  {
    BeValue(s[..2])
  }

  function Be32(s: seq<byte>): (v: nat)
    requires |s| >= 4
    ensures v < TWO_32
  {
    OctetsOfBeValue(s[..4]);
    assert Power256(4) == TWO_32;
    BeValue(s[..4])
  }

  /** Writing a 32-bit value and reading it back, whatever follows it. */
  lemma U32RoundTrip(v: nat, rest: seq<byte>)
    requires v < TWO_32
    ensures Be32(U32(v) + rest) == v
  {
    assert (U32(v) + rest)[..4] == U32(v);
    assert Power256(4) == TWO_32;
    BeValueOfOctets(v, 4);
  }

  /** Reading looks at the first four octets only, and is inverted by writing. */
  lemma Be32Prefix(s: seq<byte>, t: seq<byte>)
    requires |s| >= 4
    ensures Be32(s + t) == Be32(s)
    ensures U32(Be32(s)) == s[..4]
  {
    assert (s + t)[..4] == s[..4];
    OctetsOfBeValue(s[..4]);
  }

  lemma Be32Within(s: seq<byte>, n: nat, at: nat)
    requires at + 4 <= n <= |s|
    ensures Be32(s[..n][at..]) == Be32(s[at..])
  {
    assert s[..n][at..][..4] == s[at..][..4];
  }

  /** The shifts and masks with which the program writes a 16- or 32-bit value. */
  lemma ShiftedOctets(v: nat)
    ensures U16(v) == [v / 0x100 % 256, v % 256]
    ensures U32(v) == [v / 0x100_0000 % 256, v / 0x1_0000 % 256, v / 0x100 % 256, v % 256]
  {
    var a, b := v / 256, v / 256 / 256;
    assert Octets(v, 2) == Octets(a, 1) + [v % 256] && Octets(a, 1) == Octets(b, 0) + [a % 256];
    assert Octets(v, 4) == Octets(a, 3) + [v % 256] && Octets(a, 3) == Octets(b, 2) + [a % 256];
    assert Octets(b, 2) == Octets(b / 256, 1) + [b % 256];
    assert Octets(b / 256, 1) == Octets(b / 256 / 256, 0) + [b / 256 % 256];
    assert b == v / 0x1_0000 && b / 256 == v / 0x100_0000;
  }

  /** The shifts and ors with which it reads a 32-bit value. */
  lemma ShiftedValue(s: seq<byte>)
    requires |s| >= 4
    ensures Be32(s) == s[0] as int * 0x100_0000 + s[1] as int * 0x1_0000 + s[2] as int * 0x100 + s[3] as int
  {
    var t := s[..4];
    assert t[..3][..2] == s[..2] && t[..3][..2][..1] == s[..1] && s[..1][..0] == [];
    assert BeValue(t) == BeValue(t[..3]) * 256 + s[3];
    assert BeValue(t[..3]) == BeValue(s[..2]) * 256 + s[2];
    assert s[..2][..1] == s[..1];
    assert BeValue(s[..2]) == BeValue(s[..1]) * 256 + s[1];
    assert BeValue(s[..1]) == s[0];
  }

  /** The four assignments that put a 32-bit value into a buffer. */
  method StoreU32(a: array<byte>, at: nat, v: nat)
    requires at + 4 <= a.Length
    modifies a
    ensures a[..at + 4] == old(a[..at]) + U32(v)
    ensures a[at + 4..] == old(a[at + 4..])
  {
    ghost var octets := [v / 0x100_0000 % 256, v / 0x1_0000 % 256, v / 0x100 % 256, v % 256];
    a[at] := v / 0x100_0000 % 256;
    a[at + 1] := v / 0x1_0000 % 256;
    a[at + 2] := v / 0x100 % 256;
    a[at + 3] := v % 256;
    assert a[at..at + 4] == octets;
    ShiftedOctets(v);
  }
}

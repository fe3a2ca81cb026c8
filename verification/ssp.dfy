/**
 The bounds-checked big-endian reader of src/ssp.c: a cursor over a stretch of an array.
 */
module Ssp {
  import opened Bytes

  class SspBuf {
    const data: array<byte>
    const base: nat
    const len: nat
    var pos: nat

    ghost predicate Valid()
      reads this
    {
      base + len <= data.Length && pos <= len
    }

    /** The octets the cursor ranges over, read or not. */
    ghost function Body(): (s: seq<byte>)
      reads this, data
      requires Valid()
      ensures |s| == len
    {
      data[base..base + len]
    }

    constructor (data: array<byte>, base: nat, len: nat)
      requires base + len <= data.Length
      ensures Valid() && pos == 0
      ensures this.data == data && this.base == base && this.len == len
    {
      this.data := data;
      this.base := base;
      this.len := len;
      this.pos := 0;
    }

    /** memcmp with the first octets, if there are enough of them. */
    method StartsWith(s: seq<byte>) returns (r: bool)
      requires Valid()
      ensures r == (s <= Body())
    {
      if |s| > len {
        return false;
      }
      assert data[base..base + |s|] == Body()[..|s|];
      r := data[base..base + |s|] == s;
    }

    /** sspSeek */
    method Seek(n: nat) returns (ok: bool)
      requires Valid()
      modifies this
      ensures Valid()
      ensures ok == (old(pos) + n <= len)
      ensures pos == if ok then old(pos) + n else old(pos)
    {
      if pos + n > len {
        return false;
      }
      pos := pos + n;
      return true;
    }

    /** sspNetInt with a result: all n octets are read, most significant first, or
        none is. */
    method NetInt(n: nat) returns (ok: bool, v: nat)
      requires Valid()
      modifies this
      ensures Valid()
      ensures ok == (old(pos) + n <= len)
      ensures pos == if ok then old(pos) + n else old(pos)
      ensures ok ==> v == BeValue(Body()[old(pos)..old(pos) + n])
      ensures ok && n == 1 ==> v == Body()[old(pos)]
      ensures ok && n == 2 ==> v == Be16(Body()[old(pos)..])
      ensures ok && n == 4 ==> v == Be32(Body()[old(pos)..])
    {
      v := 0;
      if pos + n > len {
        return false, v;
      }
      var i := 0;
      while i < n
        invariant 0 <= i <= n && pos == old(pos) + i && Valid()
        invariant v == BeValue(Body()[old(pos)..old(pos) + i])
      {
        ghost var got := Body()[old(pos)..old(pos) + i + 1];
        assert got[..i] == Body()[old(pos)..old(pos) + i];
        v := v * 256 + data[base + pos];
        pos := pos + 1;
        i := i + 1;
      }
      assert Body()[old(pos)..][..n] == Body()[old(pos)..old(pos) + n];
      if n == 1 {
        assert Body()[old(pos)..old(pos) + 1][..0] == [];
      }
      ok := true;
    }

    /** sspNetU32 twice, the first without a result. */
    method SkipThenU32() returns (ok: bool, v: nat)
      requires Valid()
      modifies this
      ensures Valid()
      ensures ok == (old(pos) + 8 <= len)
      ensures ok ==> pos == old(pos) + 8 && v == Be32(Body()[old(pos) + 4..])
    {
      v := 0;
      ok := Seek(4);
      if ok {
        ok, v := NetInt(4);
      }
    }

    /** sspMemMove */
    method MemMove(dest: array<byte>, at: nat, n: nat) returns (ok: bool)
      requires Valid() && dest != data && at + n <= dest.Length
      modifies this, dest
      ensures Valid()
      ensures ok == (old(pos) + n <= len)
      ensures pos == if ok then old(pos) + n else old(pos)
      ensures ok ==> dest[at..at + n] == Body()[old(pos)..][..n]
      ensures ok ==> dest[..at] == old(dest[..at]) && dest[at + n..] == old(dest[at + n..])
      ensures !ok ==> dest[..] == old(dest[..])
    {
      if pos + n > len {
        return false;
      }
      ghost var src := Body()[pos..][..n];
      forall i | 0 <= i < n {
        dest[at + i] := data[base + pos + i];
      }
      assert forall i {:trigger src[i]} :: 0 <= i < n ==> dest[at + i] == src[i];
      assert dest[at..at + n] == src;
      pos := pos + n;
      ok := true;
    }
  }
}

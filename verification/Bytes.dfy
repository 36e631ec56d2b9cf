/** Byte strings and the little-endian fields of the message structs. */
module ByteStrings {
  type Byte = x: int | 0 <= x < 0x100
  type U16 = x: int | 0 <= x < 0x1_0000
  type U32 = x: int | 0 <= x < 0x1_0000_0000
  type Bytes = seq<Byte>

  const WRAP8: int := 0x100
  const WRAP16: int := 0x1_0000
  const WRAP32: int := 0x1_0000_0000

  /** The low k bytes of a number, lowest first. */
  function LeBytes(n: nat, k: nat): (r: Bytes)
    ensures |r| == k
  {
    if k == 0 then [] else [n % 0x100] + LeBytes(n / 0x100, k - 1)
  }

  /** A uint16_t and a uint32_t in memory. */
  function Le16(n: U16): (r: Bytes)
    ensures |r| == 2
  {
    LeBytes(n, 2)
  }

  function Le32(n: U32): (r: Bytes)
    ensures |r| == 4
  {
    LeBytes(n, 4)
  }

  function U16At(b: Bytes, at: nat): U16
    requires at + 2 <= |b|
  {
    (b[at] as int) + 0x100 * (b[at + 1] as int)
  }

  function U32At(b: Bytes, at: nat): U32
    requires at + 4 <= |b|
  {
    (b[at] as int) + 0x100 * (b[at + 1] as int) + 0x1_0000 * (b[at + 2] as int) + 0x100_0000 * (b[at + 3] as int)
  }

  /** The bytes at this place are those of n, the lowest first. */
  ghost predicate LittleEndian(b: Bytes, at: nat, n: nat) {
    && at + 4 <= |b|
    && (b[at] as int) + 0x100 * (b[at + 1] as int) + 0x1_0000 * (b[at + 2] as int) + 0x100_0000 * (b[at + 3] as int)
       == n
  }

  lemma Le16RoundTrip(n: U16)
    ensures U16At(Le16(n), 0) == n
  {
    var h := n / 0x100;
    assert LeBytes(h, 1) == [h] + LeBytes(h / 0x100, 0);
    assert LeBytes(n, 2) == [n % 0x100] + LeBytes(h, 1);
  }

  lemma Le32RoundTrip(n: U32)
    ensures U32At(Le32(n), 0) == n
  {
    var h: nat := n / 0x1_0000;
    assert h == n / 0x100 / 0x100;
    assert LeBytes(n, 4) == [n % 0x100, n / 0x100 % 0x100] + LeBytes(h, 2);
    assert LeBytes(h, 2) == Le16(h);
    Le16RoundTrip(h);
  }

  /** What is left of x in a field that holds the numbers below m. */
  function Wrap(x: nat, m: nat): (r: nat)
    requires m > 0
    ensures r < m
  {
    if x < m then x else Wrap(x - m, m)
  }

  function Wrap8(x: nat): Byte {
    Wrap(x, WRAP8)
  }

  function Wrap16(x: nat): U16 {
    Wrap(x, WRAP16)
  }

  function Wrap32(x: nat): U32 {
    Wrap(x, WRAP32)
  }

  /** That is the remainder. */
  lemma {:induction false} WrapIsRemainder(x: nat, m: nat) returns (k: nat)
    requires m > 0
    ensures x == m * k + Wrap(x, m)
  {
    if x < m {
      k := 0;
    } else {
      k := WrapIsRemainder(x - m, m);
      k := k + 1;
    }
  }

  /** Adding in pieces and wrapping each time is adding and wrapping once. */
  lemma {:induction false} WrapSum(a: nat, b: nat, m: nat)
    requires m > 0
    ensures Wrap(Wrap(a, m) + b, m) == Wrap(a + b, m)
  {
    if a >= m {
      WrapSum(a - m, b, m);
    }
  }

  /** Concatenation of byte strings. */
  function Flatten(rs: seq<Bytes>): Bytes {
    if rs == [] then [] else rs[0] + Flatten(rs[1..])
  }

  lemma {:induction false} FlattenSnoc(rs: seq<Bytes>, r: Bytes)
    ensures Flatten(rs + [r]) == Flatten(rs) + r
  {
    if rs == [] {
      assert rs + [r] == [r] && [r][1..] == [];
    } else {
      FlattenSnoc(rs[1..], r);
      assert (rs + [r])[1..] == rs[1..] + [r];
    }
  }

  lemma InTheMiddle(x: Bytes, y: Bytes, z: Bytes)
    ensures (x + y) + z == x + (y + z)
    ensures ((x + y) + z)[|x|..|x| + |y|] == y
  {
  }

  lemma U16Slice(b: Bytes, at: nat)
    requires at + 2 <= |b|
    ensures U16At(b, at) == U16At(b[at..at + 2], 0)
  {
  }

  lemma U32Slice(b: Bytes, at: nat)
    requires at + 4 <= |b|
    ensures U32At(b, at) == U32At(b[at..at + 4], 0)
  {
  }

  /** std::string(b + at, n): a copy of n bytes. */
  function Copy(b: Bytes, at: nat, n: nat): (r: Bytes)
    requires at + n <= |b|
    ensures |r| == n
  {
    seq(n, i requires 0 <= i < n => b[at + i])
  }

  lemma CopyIsSlice(b: Bytes, at: nat, n: nat)
    requires at + n <= |b|
    ensures Copy(b, at, n) == b[at..at + n]
  {
  }

  lemma CopySplit(b: Bytes, at: nat, n: nat, k: nat)
    requires at + n + k <= |b|
    ensures Copy(b, at, n + k) == Copy(b, at, n) + Copy(b, at + n, k)
  {
    CopyIsSlice(b, at, n + k);
    CopyIsSlice(b, at, n);
    CopyIsSlice(b, at + n, k);
    assert b[at..at + n + k] == b[at..at + n] + b[at + n..at + n + k];
  }

  lemma CopyIndex(b: Bytes, at: nat, n: nat, i: nat)
    requires at + n <= |b| && i < n
    ensures Copy(b, at, n)[i] == b[at + i]
  {
    CopyIsSlice(b, at, n);
  }

  /** The bytes r stand in the buffer at off. */
  predicate Stands(b: Bytes, off: nat, r: Bytes) {
    off + |r| <= |b| && Copy(b, off, |r|) == r
  }

  lemma StandsSplit(b: Bytes, off: nat, r: Bytes, rest: Bytes)
    ensures Stands(b, off, r + rest) <==> Stands(b, off, r) && Stands(b, off + |r|, rest)
  {
    if off + |r + rest| <= |b| {
      CopySplit(b, off, |r|, |rest|);
      var x, y := Copy(b, off, |r|), Copy(b, off + |r|, |rest|);
      assert (x + y)[..|r|] == x && (x + y)[|r|..] == y;
      assert (r + rest)[..|r|] == r && (r + rest)[|r|..] == rest;
    }
  }

  /** A part of r stands where r stands. */
  lemma StandsPart(b: Bytes, off: nat, r: Bytes, lo: nat, n: nat)
    requires Stands(b, off, r) && lo + n <= |r|
    ensures Copy(b, off + lo, n) == Copy(r, lo, n)
  {
    forall i | 0 <= i < n
      ensures Copy(b, off + lo, n)[i] == Copy(r, lo, n)[i]
    {
      CopyIndex(b, off + lo, n, i);
      CopyIndex(r, lo, n, i);
      CopyIndex(b, off, |r|, lo + i);
    }
  }

  lemma StandsIndex(b: Bytes, off: nat, r: Bytes, i: nat)
    requires Stands(b, off, r) && i < |r|
    ensures b[off + i] == r[i]
  {
    CopyIndex(b, off, |r|, i);
  }

  lemma StandsToEnd(b: Bytes, off: nat, r: Bytes)
    requires off + |r| == |b|
    ensures Stands(b, off, r) <==> b[off..] == r
  {
    CopyIsSlice(b, off, |r|);
    assert b[off..|b|] == b[off..];
  }
}

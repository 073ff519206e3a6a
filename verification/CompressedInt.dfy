/** Compressed integers: 64-bit values in 1 to 7 or 9 bytes. The three low bits of the first
    byte tell the length; the rest is the value, little-endian.
  */
module CompressedInt {
  import opened BinlogFormat

  const MAX64: nat := 9
  const TWO_TO_THE_64: nat := 0x1_0000_0000_0000_0000

  /** The little-endian value of a byte string. */
  function Value(b: seq<Byte>): nat {
    if b == [] then 0 else b[0] as nat + 256 * Value(b[1..])
  }

  /** The low `n` bytes of `w`, little-endian. */
  function LittleEndian(w: nat, n: nat): (b: seq<Byte>)
    ensures |b| == n
  {
    if n == 0 then [] else [w % 256] + LittleEndian(w / 256, n - 1)
  }

  function Pow256(n: nat): nat {
    if n == 0 then 1 else 256 * Pow256(n - 1)
  }

  /** Bytes used for `v`: enough for the value and three tag bits, but never 8. */
  function Length(v: nat): nat {
    if v < 0x20 then 1
    else if v < 0x2000 then 2
    else if v < 0x20_0000 then 3
    else if v < 0x2000_0000 then 4
    else if v < 0x20_0000_0000 then 5
    else if v < 0x2000_0000_0000 then 6
    else if v < 0x20_0000_0000_0000 then 7
    else 9
  }

  function Write(v: nat): seq<Byte> {
    var n := Length(v);
    var tag := if n == 9 then 7 else n - 1;
    LittleEndian(8 * v + tag, n)
  }

  datatype IntRead = Short | Int(value: nat, next: nat)

  /** Reads the integer at offset `p` of `b`. `Short` when it extends past the end. */
  function Read(b: seq<Byte>, p: nat): (r: IntRead)
    requires p <= |b|
    ensures r.Int? ==> p < r.next <= p + MAX64 && r.next <= |b|
  {
    if p == |b| then Short
    else
      var tag := b[p] % 8;
      var n: nat := if tag == 7 then 9 else tag + 1;
      if p + n > |b| then Short
      else Int((Value(b[p..p + n]) / 8) % TWO_TO_THE_64, p + n)
  }

  lemma {:induction false} ValueOfLittleEndian(w: nat, n: nat)
    requires w < Pow256(n)
    ensures Value(LittleEndian(w, n)) == w
  {
    if n > 0 {
      ValueOfLittleEndian(w / 256, n - 1);
      assert LittleEndian(w, n)[1..] == LittleEndian(w / 256, n - 1);
    }
  }

  lemma LengthSuffices(v: nat)
    requires v < TWO_TO_THE_64
    ensures 8 * v + 7 < Pow256(Length(v))
  {
    assert Pow256(2) == 0x1_0000 && Pow256(3) == 0x100_0000;
    assert Pow256(4) == 256 * Pow256(3) && Pow256(5) == 256 * Pow256(4) && Pow256(6) == 256 * Pow256(5);
    assert Pow256(7) == 256 * Pow256(6) && Pow256(8) == 256 * Pow256(7) && Pow256(9) == 256 * Pow256(8);
  }

  /** No shorter form would do, but for the one of 8 bytes, which there is not. */
  lemma LengthIsLeast(v: nat, n: nat)
    requires v < TWO_TO_THE_64 && n < Length(v) && n != 8
    ensures Length(v) != 8 && Pow256(n) <= 8 * v + 7
  {
    assert Pow256(2) == 0x1_0000 && Pow256(3) == 0x100_0000;
    assert Pow256(4) == 256 * Pow256(3) && Pow256(5) == 256 * Pow256(4) && Pow256(6) == 256 * Pow256(5);
    assert Pow256(7) == 256 * Pow256(6);
  }

  /** Reading back what was written, whatever surrounds it. */
  lemma ReadWrite(before: seq<Byte>, v: nat, after: seq<Byte>)
    requires v < TWO_TO_THE_64
    ensures Read(before + Write(v) + after, |before|) == Int(v, |before| + |Write(v)|)
  {
    var b, n := before + Write(v) + after, Length(v);
    var tag := if n == 9 then 7 else n - 1;
    WrittenBytes(v, n, tag);
    hide Write, Value;
    assert b[|before|] == Write(v)[0] && b[|before|..|before| + n] == Write(v);
  }

  lemma WrittenBytes(v: nat, n: nat, tag: nat)
    requires v < TWO_TO_THE_64 && n == Length(v) && tag == if n == 9 then 7 else n - 1
    ensures |Write(v)| == n && Write(v)[0] % 8 == tag && Value(Write(v)) / 8 == v
  {
    LengthSuffices(v);
    ValueOfLittleEndian(8 * v + tag, n);
    Tagged(v, tag);
    hide Value, Pow256;
  }

  lemma Tagged(v: nat, tag: nat)
    requires tag < 8
    ensures (8 * v + tag) % 256 % 8 == tag && (8 * v + tag) / 8 == v
  {
  }

  /** A read that stays inside a prefix is the same in the prefix, and a prefix cuts a read
      short exactly when it ends before the integer does. */
  lemma ReadInPrefix(b: seq<Byte>, k: nat, p: nat)
    requires p <= k <= |b|
    ensures Read(b[..k], p) == if Read(b, p).Int? && Read(b, p).next <= k then Read(b, p) else Short
  {
    if p < k {
      var tag := b[p] % 8;
      var n: nat := if tag == 7 then 9 else tag + 1;
      assert b[..k][p] == b[p];
      if p + n <= k {
        assert b[..k][p..p + n] == b[p..p + n];
      }
    }
  }
}

/** Byte strings as big-endian and little-endian words. */
module Bytes {
  import opened Bits

  function BigEndian(s: seq<byte>): nat {
    if s == [] then 0 else BigEndian(s[..|s| - 1]) * 0x100 + s[|s| - 1]
  }

  function ToBigEndian(x: nat, n: nat): (s: seq<byte>)
    ensures |s| == n
  {
    if n == 0 then [] else ToBigEndian(x / 0x100, n - 1) + [x % 0x100]
  }

  function LittleEndian(s: seq<byte>): nat {
    if s == [] then 0 else s[0] + 0x100 * LittleEndian(s[1..])
  }

  function ToLittleEndian(x: nat, n: nat): (s: seq<byte>)
    ensures |s| == n
  {
    if n == 0 then [] else [x % 0x100] + ToLittleEndian(x / 0x100, n - 1)
  }

  // ----- Parts of sequences -----

  lemma SliceOfDrop<T>(s: seq<T>, k: nat, i: nat, j: nat)
    requires i <= j && k + j <= |s|
    ensures s[k..][i..j] == s[k + i..k + j]
  {
    var a, b := s[k..][i..j], s[k + i..k + j];
    forall m | 0 <= m < j - i ensures a[m] == b[m] {
      assert s[k..][i + m] == s[k + (i + m)];
    }
  }

  lemma SliceOfSlice<T>(s: seq<T>, i: nat, j: nat, k: nat, l: nat)
    requires i <= j <= |s| && k <= l <= j - i
    ensures s[i..j][k..l] == s[i + k..i + l]
  {
    var a, b := s[i..j][k..l], s[i + k..i + l];
    forall m | 0 <= m < l - k ensures a[m] == b[m] {
      assert s[i..j][k + m] == s[i + (k + m)];
    }
  }

  // ----- Exclusive-or -----

  function XorBytes(a: seq<byte>, b: seq<byte>): (r: seq<byte>)
    requires |a| == |b|
    ensures |r| == |a|
    ensures forall i | 0 <= i < |a| :: r[i] == XorByte(a[i], b[i])
  {
    seq(|a|, i requires 0 <= i < |a| => XorByte(a[i], b[i]))
  }

  lemma Pow2Bytes(n: nat)
    requires n > 0
    ensures Pow2(8 * n) == 0x100 * Pow2(8 * (n - 1))
  {
    Pow2Add(8, 8 * (n - 1));
    assert Pow2(8) == 0x100;
  }

  lemma {:induction false} BigEndianBound(s: seq<byte>)
    ensures BigEndian(s) < Pow2(8 * |s|)
  {
    if s != [] {
      BigEndianBound(s[..|s| - 1]);
      Pow2Bytes(|s|);
    }
  }

  lemma {:induction false} BigEndianRoundTrip(x: nat, n: nat)
    requires x < Pow2(8 * n)
    ensures BigEndian(ToBigEndian(x, n)) == x
  {
    if n != 0 {
      Pow2Bytes(n);
      BigEndianRoundTrip(x / 0x100, n - 1);
      var s := ToBigEndian(x, n);
      assert s[..n - 1] == ToBigEndian(x / 0x100, n - 1);
    }
  }

  lemma {:induction false} ToBigEndianRoundTrip(s: seq<byte>)
    ensures ToBigEndian(BigEndian(s), |s|) == s
  {
    if s != [] {
      ToBigEndianRoundTrip(s[..|s| - 1]);
      assert s == s[..|s| - 1] + [s[|s| - 1]];
    }
  }

  lemma {:induction false} BigEndianConcat(s: seq<byte>, t: seq<byte>)
    ensures BigEndian(s + t) == BigEndian(s) * Pow2(8 * |t|) + BigEndian(t)
  {
    if t == [] {
      assert s + t == s;
      assert Pow2(0) == 1;
    } else {
      var t' := t[..|t| - 1];
      assert (s + t)[..|s + t| - 1] == s + t';
      BigEndianConcat(s, t');
      Pow2Bytes(|t|);
      Distribute(BigEndian(s), Pow2(8 * |t'|), BigEndian(t'));
    }
  }

  lemma Distribute(a: nat, p: nat, b: nat)
    ensures (a * p + b) * 0x100 == a * (0x100 * p) + b * 0x100
  {
  }

  // Word-wide and byte-wise exclusive-or agree.
  lemma {:induction false} BigEndianXor(a: seq<byte>, b: seq<byte>)
    requires |a| == |b|
    ensures BigEndian(XorBytes(a, b)) == Xor(BigEndian(a), BigEndian(b))
  {
    if a != [] {
      var n := |a| - 1;
      BigEndianXor(a[..n], b[..n]);
      assert Pow2(8) == 0x100;
      hide Xor, Pow2, XorByte;
      assert XorBytes(a, b)[..n] == XorBytes(a[..n], b[..n]);
      XorConcat(BigEndian(a[..n]), a[n], BigEndian(b[..n]), b[n], 8);
    }
  }

  lemma {:induction false} ToBigEndianXor(x: nat, y: nat, n: nat)
    requires x < Pow2(8 * n) && y < Pow2(8 * n)
    ensures ToBigEndian(Xor(x, y), n) == XorBytes(ToBigEndian(x, n), ToBigEndian(y, n))
  {
    BigEndianRoundTrip(x, n);
    BigEndianRoundTrip(y, n);
    BigEndianXor(ToBigEndian(x, n), ToBigEndian(y, n));
    ToBigEndianRoundTrip(XorBytes(ToBigEndian(x, n), ToBigEndian(y, n)));
  }

  lemma {:induction false} LittleEndianRoundTrip(x: nat, n: nat)
    requires x < Pow2(8 * n)
    ensures LittleEndian(ToLittleEndian(x, n)) == x
  {
    if n != 0 {
      Pow2Bytes(n);
      LittleEndianRoundTrip(x / 0x100, n - 1);
      assert ToLittleEndian(x, n)[1..] == ToLittleEndian(x / 0x100, n - 1);
    }
  }

  lemma {:induction false} XorBytesCancel(a: seq<byte>, b: seq<byte>)
    requires |a| == |b|
    ensures XorBytes(XorBytes(a, b), b) == a
  {
    forall i | 0 <= i < |a| ensures XorBytes(XorBytes(a, b), b)[i] == a[i] {
      XorCancel(a[i], b[i]);
    }
  }

  // ----- Writing into a buffer -----

  method Write(dst: array<byte>, at: nat, bytes: seq<byte>)
    requires at + |bytes| <= dst.Length
    modifies dst
    ensures dst[..] == old(dst[..at]) + bytes + old(dst[at + |bytes|..])
  {
    for k := 0 to |bytes|
      invariant dst[..] == old(dst[..at]) + bytes[..k] + old(dst[at + k..])
    {
      dst[at + k] := bytes[k];
    }
  }
}

/** Bit strings, most significant bit first, and the numbers they stand for. */
module BitStrings {
  // Every writer and reader of the codec is specified over these. Shifts and masks are defined by recursion on the
  // shift count, so that no proof needs a product of two unknowns.

  type Bits = seq<bool>

  newtype Byte = x: int | 0 <= x < 256

  /** A C `int` used as one binary digit. */
  function Bit(b: bool): nat { if b then 1 else 0 }

  function Pow2(n: nat): (p: nat)
    ensures p >= 1
  {
    if n == 0 then 1 else 2 * Pow2(n - 1)
  }

  /** `v << n` of an integer wide enough. */
  function Shl(v: nat, n: nat): nat { if n == 0 then v else 2 * Shl(v, n - 1) }

  /** `v >> n` of an unsigned integer. */
  function Shr(v: nat, n: nat): nat { if n == 0 then v else Shr(v / 2, n - 1) }

  /** `v & ((1 << n) - 1)`. */
  function Low(v: nat, n: nat): (r: nat)
    ensures r < Pow2(n)
  {
    if n == 0 then 0 else 2 * Low(v / 2, n - 1) + v % 2
  }

  /** The `n` low bits of `v`. */
  function Enc(v: nat, n: nat): (b: Bits)
    ensures |b| == n
  {
    if n == 0 then [] else Enc(v / 2, n - 1) + [v % 2 == 1]
  }

  /** The number a bit string denotes. */
  function Val(b: Bits): (v: nat)
    ensures v < Pow2(|b|)
  {
    if b == [] then 0 else 2 * Val(b[..|b| - 1]) + Bit(b[|b| - 1])
  }

  // ----- sequences -----

  lemma Assoc<T>(a: seq<T>, b: seq<T>, c: seq<T>)
    ensures a + b + c == a + (b + c)
  {}

  lemma DropDrop<T>(s: seq<T>, i: nat, a: nat)
    requires i + a <= |s|
    ensures s[i..][a..] == s[i + a..]
  {
    var t := s[i..];
    forall k | 0 <= k < |s| - i - a ensures t[a..][k] == s[i + a..][k] { assert t[a + k] == s[i + a + k]; }
  }

  lemma DropTake<T>(s: seq<T>, i: nat, n: nat)
    requires i + n <= |s|
    ensures s[i..][..n] == s[i..i + n]
  {
    var t := s[i..];
    forall k | 0 <= k < n ensures t[..n][k] == s[i..i + n][k] { assert t[k] == s[i + k]; }
  }

  lemma SliceSlice<T>(s: seq<T>, i: nat, j: nat, a: nat, b: nat)
    requires i <= j <= |s| && a <= b <= j - i
    ensures s[i..j][a..b] == s[i + a..i + b]
  {
    var t := s[i..j];
    forall k | 0 <= k < b - a ensures t[a..b][k] == s[i + a..i + b][k] {
      assert t[a + k] == s[i + a + k];
    }
  }

  lemma TakePrefix<T>(a: seq<T>, b: seq<T>)
    ensures (a + b)[..|a|] == a && (a + b)[|a|..] == b
  {}

  // ----- numbers -----

  lemma {:induction false} Pow2Mono(a: nat, b: nat)
    requires a <= b
    ensures Pow2(a) <= Pow2(b)
  {
    if a < b { Pow2Mono(a, b - 1); }
  }

  lemma {:induction false} ShlShl(v: nat, a: nat, b: nat)
    ensures Shl(Shl(v, a), b) == Shl(v, a + b)
  {
    if b != 0 { ShlShl(v, a, b - 1); }
  }

  lemma {:induction false} ShlPow2(n: nat)
    ensures Shl(1, n) == Pow2(n)
  {
    if n != 0 { ShlPow2(n - 1); }
  }

  lemma {:induction false} ShlMono(v: nat, w: nat, n: nat)
    requires v <= w
    ensures Shl(v, n) <= Shl(w, n)
  {
    if n != 0 { ShlMono(v, w, n - 1); }
  }

  lemma {:induction false} ShlPlus(v: nat, w: nat, n: nat)
    ensures Shl(v + w, n) == Shl(v, n) + Shl(w, n)
  {
    if n != 0 { ShlPlus(v, w, n - 1); }
  }

  lemma {:induction false} ShlMul(v: nat, n: nat)
    ensures Shl(v, n) == v * Pow2(n)
  {
    if n != 0 {
      ShlMul(v, n - 1);
      DoubleMul(v, Pow2(n - 1));
    }
  }

  lemma DoubleMul(a: int, p: int)
    ensures 2 * (a * p) == a * (2 * p)
  {}

  lemma Halves(x: nat, lo: nat)
    ensures (lo + 2 * x) / 2 == lo / 2 + x && (lo + 2 * x) % 2 == lo % 2
  {}

  /** A value is its high part above its low part. */
  lemma {:induction false} Recompose(v: nat, n: nat)
    ensures v == Shl(Shr(v, n), n) + Low(v, n)
  {
    if n != 0 { Recompose(v / 2, n - 1); }
  }

  /** Shifting back out what was shifted in. */
  lemma {:induction false} ShrIn(hi: nat, lo: nat, n: nat)
    requires lo < Pow2(n)
    ensures Shr(lo + Shl(hi, n), n) == hi && Low(lo + Shl(hi, n), n) == lo
  {
    if n != 0 {
      Halves(Shl(hi, n - 1), lo);
      ShrIn(hi, lo / 2, n - 1);
    }
  }

  /** Shifting right by less than a field's offset leaves the two fields side by side. */
  lemma {:induction false} ShrSplit(lo: nat, hi: nat, m: nat, c: nat)
    requires c <= m
    ensures Shr(lo + Shl(hi, m), c) == Shr(lo, c) + Shl(hi, m - c)
  {
    if c != 0 {
      Halves(Shl(hi, m - 1), lo);
      ShrSplit(lo / 2, hi, m - 1, c - 1);
    }
  }

  lemma {:induction false} LowLow(v: nat, m: nat, n: nat)
    requires n <= m
    ensures Low(Low(v, m), n) == Low(v, n)
  {
    if n != 0 { LowLow(v / 2, m - 1, n - 1); }
  }

  lemma {:induction false} LowId(v: nat, n: nat)
    requires v < Pow2(n)
    ensures Low(v, n) == v && Shr(v, n) == 0
  {
    if n != 0 { LowId(v / 2, n - 1); }
  }

  lemma {:induction false} ShrBound(v: nat, m: nat, n: nat)
    requires v < Pow2(m + n)
    ensures Shr(v, n) < Pow2(m)
  {
    if n != 0 { ShrBound(v / 2, m, n - 1); }
  }

  // ----- strings of bits -----

  lemma {:induction false} EncVal(b: Bits)
    ensures Enc(Val(b), |b|) == b
  {
    if b != [] {
      EncVal(b[..|b| - 1]);
      Halves(Val(b[..|b| - 1]), Bit(b[|b| - 1]));
    }
  }

  lemma {:induction false} ValEnc(v: nat, n: nat)
    ensures Val(Enc(v, n)) == Low(v, n)
  {
    if n != 0 {
      ValEnc(v / 2, n - 1);
      var e := Enc(v, n);
      assert e[..|e| - 1] == Enc(v / 2, n - 1);
    }
  }

  lemma {:induction false} ValConcat(a: Bits, b: Bits)
    ensures Val(a + b) == Val(b) + Shl(Val(a), |b|)
  {
    if b == [] {
      assert a + b == a;
    } else {
      var c := b[..|b| - 1];
      ValConcat(a, c);
      assert (a + b)[..|a + b| - 1] == a + c;
    }
  }

  lemma ValOne(v: bool)
    ensures Val([v]) == Bit(v)
  {
    assert [v][..0] == [];
  }

  lemma {:induction false} LeadingVal(b: Bits)
    requires b != []
    ensures Val(b) == (if b[0] then Pow2(|b| - 1) else 0) + Val(b[1..])
  {
    var c := b[..|b| - 1];
    if |b| > 1 {
      LeadingVal(c);
      assert c[1..] == b[1..][..|b| - 2];
    } else {
      assert c == [];
    }
  }

  /** Writing `m + n` bits is writing the high `m` and then the low `n`. */
  lemma {:induction false} EncSplit(v: nat, m: nat, n: nat)
    ensures Enc(v, m + n) == Enc(Shr(v, n), m) + Enc(v, n)
  {
    if n != 0 {
      var h, t := v / 2, [v % 2 == 1];
      EncSplit(h, m, n - 1);
      assert Enc(v, m + n) == Enc(h, m + (n - 1)) + t;
      assert Enc(v, n) == Enc(h, n - 1) + t;
    }
  }

  /** Only the low `n` bits matter. */
  lemma {:induction false} EncLow(v: nat, m: nat, n: nat)
    requires n <= m
    ensures Enc(Low(v, m), n) == Enc(v, n)
  {
    if n != 0 { EncLow(v / 2, m - 1, n - 1); }
  }

  lemma {:induction false} EncZero(n: nat)
    ensures Enc(0, n) == seq(n, _ => false)
  {
    if n != 0 { EncZero(n - 1); }
  }

  lemma EncInjective(v: nat, w: nat, n: nat)
    requires v < Pow2(n) && w < Pow2(n) && Enc(v, n) == Enc(w, n)
    ensures v == w
  {
    ValEnc(v, n);
    ValEnc(w, n);
    LowId(v, n);
    LowId(w, n);
  }

  /** Shifting a field in at the right appends its bits. */
  lemma EncShiftIn(hi: nat, lo: nat, m: nat, n: nat)
    requires lo < Pow2(n)
    ensures Enc(lo + Shl(hi, n), m + n) == Enc(hi, m) + Enc(lo, n)
  {
    hide *;
    ShrIn(hi, lo, n);
    EncLow(lo + Shl(hi, n), n, n);
    EncSplit(lo + Shl(hi, n), m, n);
  }

  /** The field `b[i..j]` of a string, read by shift and mask. */
  lemma ValSlice(b: Bits, i: nat, j: nat)
    requires i <= j <= |b|
    ensures Val(b[i..j]) == Low(Shr(Val(b), |b| - j), j - i)
  {
    hide *;
    var x, y, z := b[..i], b[i..j], b[j..];
    assert b == (x + y) + z;
    ValConcat(x + y, z);
    ShrIn(Val(x + y), Val(z), |b| - j);
    ValConcat(x, y);
    ShrIn(Val(x), Val(y), j - i);
  }

  // ----- bytes -----

  function BytesToBits(s: seq<Byte>): (b: Bits)
    ensures |b| == 8 * |s|
  {
    if s == [] then [] else BytesToBits(s[..|s| - 1]) + Enc(s[|s| - 1] as nat, 8)
  }

  /** Big-endian value of a run of bytes. */
  function BytesVal(s: seq<Byte>): nat { Val(BytesToBits(s)) }

  lemma {:induction false} BytesConcat(a: seq<Byte>, b: seq<Byte>)
    ensures BytesToBits(a + b) == BytesToBits(a) + BytesToBits(b)
  {
    if b == [] {
      assert a + b == a;
    } else {
      BytesConcat(a, b[..|b| - 1]);
      assert (a + b)[..|a + b| - 1] == a + b[..|b| - 1];
    }
  }

  lemma Pieces<T>(s: seq<T>, i: nat, j: nat)
    requires i <= j <= |s|
    ensures s == (s[..i] + s[i..j]) + s[j..]
  {}

  lemma BytesSlice(s: seq<Byte>, i: nat, j: nat)
    requires i <= j <= |s|
    ensures BytesToBits(s[i..j]) == BytesToBits(s)[8 * i..8 * j]
  {
    hide *;
    var a, b, c := s[..i], s[i..j], s[j..];
    Pieces(s, i, j);
    BytesConcat(a + b, c);
    BytesConcat(a, b);
    var x, y, z := BytesToBits(a), BytesToBits(b), BytesToBits(c);
    TakePrefix(x + y, z);
    TakePrefix(x, y);
    SliceSlice((x + y) + z, 0, |x| + |y|, |x|, |x| + |y|);
  }

  lemma OneByte(b: Byte)
    ensures BytesToBits([b]) == Enc(b as nat, 8)
  {
    assert [b][..0] == [];
  }

  /** Bytes are determined by their bits. */
  lemma {:induction false} BytesUnique(s: seq<Byte>, t: seq<Byte>)
    requires BytesToBits(s) == BytesToBits(t)
    ensures s == t
  {
    hide Enc;
    if s != [] {
      var x, y := s[..|s| - 1], t[..|t| - 1];
      var p, q := s[|s| - 1], t[|t| - 1];
      var all := BytesToBits(s);
      assert all == BytesToBits(x) + Enc(p as nat, 8) == BytesToBits(y) + Enc(q as nat, 8);
      TakePrefix(BytesToBits(x), Enc(p as nat, 8));
      TakePrefix(BytesToBits(y), Enc(q as nat, 8));
      BytesUnique(x, y);
      Pow2Facts();
      EncInjective(p as nat, q as nat, 8);
    }
  }

  lemma BytesValSnoc(s: seq<Byte>, b: Byte)
    ensures BytesVal(s + [b]) == 256 * BytesVal(s) + b as int
  {
    hide Val, Enc, Low, BytesToBits;
    BytesConcat(s, [b]);
    OneByte(b);
    ValConcat(BytesToBits(s), Enc(b as nat, 8));
    ValEnc(b as nat, 8);
    Pow2Facts();
    LowId(b as nat, 8);
    Shl8(BytesVal(s));
  }

  lemma Shl8(v: nat)
    ensures Shl(v, 8) == 256 * v
  {
    Shl2(v);
    Shl2(4 * v);
    ShlShl(v, 2, 2);
    Shl2(16 * v);
    ShlShl(v, 4, 2);
    Shl2(64 * v);
    ShlShl(v, 6, 2);
  }

  lemma Shl2(v: nat)
    ensures Shl(v, 2) == 4 * v
  {
    assert Shl(v, 1) == 2 * v;
  }

  lemma Shl16(v: nat)
    ensures Shl(v, 16) == 0x1_0000 * v
  {
    hide Shl;
    Shl8(v);
    ShlShl(v, 8, 8);
    Shl8(256 * v);
  }

  lemma Pow2Facts()
    ensures Pow2(0) == 1 && Pow2(1) == 2 && Pow2(2) == 4 && Pow2(3) == 8 && Pow2(4) == 16 && Pow2(5) == 32
    ensures Pow2(6) == 64 && Pow2(7) == 128 && Pow2(8) == 256
    ensures Pow2(16) == 0x1_0000 && Pow2(32) == 0x1_0000_0000
  {
    Pow2Small();
    ShlPow2(8);
    Shl8(Pow2(8));
    Shl16(Pow2(16));
    ShlShl(1, 8, 8);
    ShlShl(1, 16, 16);
    ShlPow2(16);
    ShlPow2(32);
  }

  lemma Pow2Small()
    ensures Pow2(0) == 1 && Pow2(1) == 2 && Pow2(2) == 4 && Pow2(3) == 8 && Pow2(4) == 16 && Pow2(5) == 32
    ensures Pow2(6) == 64 && Pow2(7) == 128 && Pow2(8) == 256
  {}
}

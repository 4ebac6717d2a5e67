/** Enumerative coding: a mask with `k` ones among `n` bits is sent as its combinatorial rank. */
module Enumerative {
  import opened BitStrings
  import opened BitWriting
  import opened BitReading
  import opened Integers
  import opened CnkTables

  function Ones(b: Bits): (k: nat)
    ensures k <= |b|
  {
    if b == [] then 0 else Bit(b[0]) + Ones(b[1..])
  }

  /** The `i`-th one counted from the right, at bit number `n`, adds `n` choose `i`. */
  function Rank(b: Bits): nat
  {
    if b == [] then 0
    else (if b[0] then Choose(|b| - 1, Ones(b)) else 0) + Rank(b[1..])
  }

  /** Greedy decoding from the highest bit down. */
  function Unrank(code: nat, k: nat, n: nat): (b: Bits)
    ensures |b| == n
  {
    if n == 0 then []
    else if k > 0 && code >= Choose(n - 1, k) then [true] + Unrank(code - Choose(n - 1, k), k - 1, n - 1)
    else [false] + Unrank(code, k, n - 1)
  }

  lemma {:induction false} ChooseNone(n: nat, k: nat)
    requires n < k
    ensures Choose(n, k) == 0
  {
    if n > 0 {
      ChooseNone(n - 1, k);
      ChooseNone(n - 1, k - 1);
    }
  }

  /** Ranks are below the number of masks with as many ones. */
  lemma {:induction false} RankBound(b: Bits)
    ensures Rank(b) < Choose(|b|, Ones(b))
  {
    if b != [] {
      RankBound(b[1..]);
      var n, k := |b| - 1, Ones(b);
      assert k > 0 ==> Choose(n + 1, k) == Choose(n, k) + Choose(n, k - 1);
    }
  }

  /** Greedy decoding recovers the mask from its rank. */
  lemma {:induction false} UnrankRank(b: Bits)
    ensures Unrank(Rank(b), Ones(b), |b|) == b
  {
    if b != [] {
      UnrankRank(b[1..]);
      RankBound(b[1..]);
      assert b == [b[0]] + b[1..];
    }
  }

  /** Conversely every rank in range names a mask with exactly `k` ones, so the numbering is a bijection. */
  lemma {:induction false} RankUnrank(code: nat, k: nat, n: nat)
    requires code < Choose(n, k)
    ensures Ones(Unrank(code, k, n)) == k && Rank(Unrank(code, k, n)) == code
  {
    if n > 0 {
      var b := Unrank(code, k, n);
      if k > 0 && code >= Choose(n - 1, k) {
        RankUnrank(code - Choose(n - 1, k), k - 1, n - 1);
        assert b[1..] == Unrank(code - Choose(n - 1, k), k - 1, n - 1);
      } else {
        assert k == 0 ==> Choose(n - 1, k) == 1;
        RankUnrank(code, k, n - 1);
        assert b[1..] == Unrank(code, k, n - 1);
      }
    }
  }

  // ----- the code -----

  /** What `encodeEnum` writes for a mask of at most 16 ones; a mask without ones takes no bits. */
  function EnumBits(b: Bits): Bits
    requires |b| <= 32 && Ones(b) <= 16 && Ones(b) < |b| + (if b == [] then 1 else 0)
  {
    var k, n := Ones(b), |b|;
    if k == 0 then [] else
    CodeIsRoomy(k, n);
    TruncBits(Rank(b), CnkLost(k, n - 1), CnkLen(k, n - 1))
  }

  /** What `mpc_bits_enum_dec` reads. */
  function EnumDec(s: Bits, k: nat, n: nat): (p: Parsed<Bits>)
    requires 1 <= k <= 16 && k < n <= 32
    ensures p.Got? ==> |p.rest| <= |s|
  {
    CodeIsRoomy(k, n);
    var (code, s1) :- TruncDec(s, CnkLost(k, n - 1), CnkLen(k, n - 1));
    Got(Unrank(code, k, n), s1)
  }

  lemma EnumRoundTrip(b: Bits, rest: Bits)
    requires |b| <= 32 && 1 <= Ones(b) <= 16 && Ones(b) < |b|
    ensures EnumDec(EnumBits(b) + rest, Ones(b), |b|) == Got(b, rest)
  {
    hide Rank, Ones, Unrank, CnkLen, CnkLost, Choose, TruncBits, TruncDec;
    CodeIsRoomy(Ones(b), |b|);
    RankBound(b);
    UnrankRank(b);
    TruncRoundTrip(Rank(b), CnkLost(Ones(b), |b| - 1), CnkLen(Ones(b), |b| - 1), rest);
  }

  lemma RankSnoc(bits: nat, n: nat)
    ensures var b, top := Enc(bits, n), Shr(bits, n) % 2 == 1;
            && Ones(Enc(bits, n + 1)) == Bit(top) + Ones(b)
            && Rank(Enc(bits, n + 1)) == (if top then Choose(n, Ones(b) + 1) else 0) + Rank(b)
  {
    EncSplit(bits, 1, n);
    var h, b := Shr(bits, n), Enc(bits, n);
    assert Enc(h, 1) == Enc(h / 2, 0) + [h % 2 == 1];
    assert Enc(bits, n + 1) == [h % 2 == 1] + b;
    assert Enc(bits, n + 1)[1..] == b;
  }

  lemma {:induction false} OnesMono(bits: nat, n: nat, m: nat)
    requires n <= m
    ensures Ones(Enc(bits, n)) <= Ones(Enc(bits, m))
  {
    if n < m {
      OnesMono(bits, n, m - 1);
      RankSnoc(bits, m - 1);
    }
  }

  method EncodeEnum(e: BitWriter, bits: nat, N: nat)
    requires e.Valid() && 1 <= N <= 32
    requires Ones(Enc(bits, N)) <= 16 && Ones(Enc(bits, N)) < N && e.Free() >= |EnumBits(Enc(bits, N))|
    modifies e, e.buffer
    ensures e.Valid() && e.buffer == old(e.buffer)
    ensures e.Contents() == old(e.Contents()) + EnumBits(Enc(bits, N))
    ensures e.Free() == old(e.Free()) - |EnumBits(Enc(bits, N))|
  {
    hide Cnk, CnkLen, CnkLost, Enc, Rank, Ones, Choose, Shr, Pow2;
    var code: nat, n: nat, k: nat := 0, 0, 0;
    RankNone(bits);
    while n < N
      invariant 0 <= n <= N
      invariant k == Ones(Enc(bits, n)) && code == Rank(Enc(bits, n))
      modifies {}
    {
      RankSnoc(bits, n);
      OnesMono(bits, n + 1, N);
      if Shr(bits, n) % 2 == 1 {
        CnkIsChoose(k + 1, n);
        code := code + Cnk(k + 1, n);
        k := k + 1;
      }
      n := n + 1;
    }
    if k == 0 { return; }
    CodeIsRoomy(k, n);
    RankBound(Enc(bits, N));
    Doubling(CnkLen(k, n - 1));
    if code < CnkLost(k, n - 1) {
      e.WriteBits(code, CnkLen(k, n - 1) - 1);
    } else {
      e.WriteBits(code + CnkLost(k, n - 1), CnkLen(k, n - 1));
    }
  }

  lemma Doubling(n: nat)
    requires n >= 1
    ensures Pow2(n) == 2 * Pow2(n - 1)
  {}

  lemma RankNone(bits: nat)
    ensures Ones(Enc(bits, 0)) == 0 && Rank(Enc(bits, 0)) == 0
  {}

  /** The rest of a mask is empty once all its ones are placed. */
  lemma {:induction false} UnrankDone(code: nat, n: nat)
    ensures Unrank(code, 0, n) == Enc(0, n)
  {
    if n > 0 {
      UnrankDone(code, n - 1);
      EncSplit(0, 1, n - 1);
      ShrZero(n - 1);
      assert Enc(0, 1) == [false] by { assert Enc(0, 1) == Enc(0, 0) + [false]; }
    }
  }

  /** One step of the loop below, on the mask built so far. */
  lemma UnrankStep(hi: Bits, code: nat, k: nat, n: nat)
    requires 1 <= k <= n + 1
    ensures var on := code >= Choose(n, k);
            && hi + Unrank(code, k, n + 1)
               == hi + [on] + Unrank(if on then code - Choose(n, k) else code, if on then k - 1 else k, n)
            && (k == n + 1 ==> on)
  {
    if k == n + 1 { ChooseNone(n, k); }
    var on := code >= Choose(n, k);
    Assoc(hi, [on], Unrank(if on then code - Choose(n, k) else code, if on then k - 1 else k, n));
  }

  /** The loop of `mpc_bits_enum_dec`: it stops with `n >= 0` even for a rank out of range. */
  method UnrankLoop(code0: nat, k0: nat, n0: nat) returns (bits: nat)
    requires 1 <= k0 <= 16 && k0 < n0 <= 32
    ensures Enc(bits, n0) == Unrank(code0, k0, n0) && bits < Pow2(n0)
  {
    hide Cnk, Choose, Shl, Val, Pow2, Unrank;
    var code: nat, k: nat, n: nat := code0, k0, n0;
    bits := 0;
    ghost var hi: Bits := [];
    EmptyMask(n0);
    assert [] + Unrank(code, k, n) == Unrank(code, k, n);
    while k > 0
      invariant 0 <= k <= n <= n0 && k <= 16
      invariant |hi| == n0 - n && hi + Unrank(code, k, n) == Unrank(code0, k0, n0)
      invariant bits == Shl(Val(hi), n)
      decreases n
    {
      n := n - 1;
      CnkIsChoose(k, n);
      UnrankStep(hi, code, k, n);
      ghost var on := code >= Choose(n, k);
      PlaceBit(hi, on, n);
      hi := hi + [on];
      if code >= Cnk(k, n) {
        bits := bits + Shl(1, n);
        code := code - Cnk(k, n);
        k := k - 1;
      }
    }
    UnrankDone(code, n);
    EncPad(hi, n);
  }

  lemma EmptyMask(n: nat)
    ensures Shl(Val([]), n) == 0
  {
    ShlZeroIs(n);
  }

  lemma {:induction false} ShlZeroIs(n: nat)
    ensures Shl(0, n) == 0
  {
    if n != 0 { ShlZeroIs(n - 1); }
  }

  lemma PlaceBit(hi: Bits, on: bool, n: nat)
    ensures Shl(Val(hi + [on]), n) == Shl(Val(hi), n + 1) + (if on then Shl(1, n) else 0)
  {
    assert (hi + [on])[..|hi|] == hi;
    ShlPlus(2 * Val(hi), Bit(on), n);
    ShlShl(Val(hi), 1, n);
    assert Shl(Val(hi), 1) == 2 * Val(hi);
    ShlZeroIs(n);
  }

  lemma EncPad(hi: Bits, n: nat)
    ensures Enc(Shl(Val(hi), n), |hi| + n) == hi + Enc(0, n) && Shl(Val(hi), n) < Pow2(|hi| + n)
  {
    hide Enc, Val, Shl;
    EncShiftIn(Val(hi), 0, |hi|, n);
    EncVal(hi);
    ShlMono(Val(hi) + 1, Pow2(|hi|), n);
    ShlPow2(|hi|);
    ShlShl(1, |hi|, n);
    ShlPow2(|hi| + n);
    ShlPlus(Val(hi), 1, n);
    ShlPow2(n);
  }

  method EnumDecode(r: BitReader, k: nat, n: nat) returns (bits: nat)
    requires r.Valid() && 1 <= k <= 16 && k < n <= 32 && EnumDec(r.Remaining(), k, n).Got?
    modifies r`pos, r`count
    ensures r.Valid() && bits < Pow2(n) && EnumDec(old(r.Remaining()), k, n) == Got(Enc(bits, n), r.Remaining())
  {
    hide CnkLen, CnkLost, Choose, Val, Unrank, Pow2, Enc;
    CodeIsRoomy(k, n);
    var code := r.Read(CnkLen(k, n - 1) - 1);
    if code >= CnkLost(k, n - 1) {
      var bit := r.Read(1);
      code := 2 * code + bit - CnkLost(k, n - 1);
    }
    bits := UnrankLoop(code, k, n);
  }
}

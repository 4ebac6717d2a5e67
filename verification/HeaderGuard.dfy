/** What the check of the header block cannot miss when a change runs across the stored check and the content. */
module HeaderGuard {
  import opened BitStrings
  import opened Crc32
  import StreamHeader

  // ----- the register as a machine word -----

  function Both(v: bv32, w: bv32): bv32 { v ^ w }
  function Half(v: bv32): bv32 { v >> 1 }
  predicate Odd(v: bv32) { v & 1 != 0 }

  function StepBv(v: bv32): bv32 { if Odd(v) then Both(Half(v), 0xEDB8_8320) else Half(v) }

  function StepsBv(v: bv32, n: nat): bv32
    decreases n
  {
    if n == 0 then v else StepsBv(StepBv(v), n - 1)
  }

  /** Bit `k` of a word, the lowest being bit 0. */
  predicate BvBit(v: bv32, k: nat) { if k == 0 then Odd(v) else BvBit(Half(v), k - 1) }

  /** The word as a string, most significant bit first. */
  function Bv(v: bv32): Word { seq(32, i requires 0 <= i < 32 => BvBit(v, 31 - i)) }

  lemma BothHalf(x: bv32, y: bv32)
    ensures Half(Both(x, y)) == Both(Half(x), Half(y))
  {}

  lemma BothOdd(x: bv32, y: bv32)
    ensures Odd(Both(x, y)) == (Odd(x) != Odd(y))
  {}

  lemma {:induction false} BitBoth(x: bv32, y: bv32, k: nat)
    ensures BvBit(Both(x, y), k) == (BvBit(x, k) != BvBit(y, k))
    decreases k
  {
    hide Half, Both, Odd;
    BothOdd(x, y);
    BothHalf(x, y);
    if k > 0 { BitBoth(Half(x), Half(y), k - 1); }
  }

  function Halves(v: bv32, n: nat): bv32
    decreases n
  {
    if n == 0 then v else Halves(Half(v), n - 1)
  }

  lemma HalfMono(v: bv32, w: bv32)
    requires v <= w
    ensures Half(v) <= Half(w)
  {}

  lemma ZeroIs(v: bv32)
    requires v <= 0
    ensures v == 0
  {}

  lemma {:induction false} NoBit(v: bv32, w: bv32, k: nat)
    requires v <= w && Halves(w, k) == 0
    ensures !BvBit(v, k)
    decreases k
  {
    hide Half;
    if k > 0 {
      HalfMono(v, w);
      NoBit(Half(v), Half(w), k - 1);
    } else {
      ZeroIs(v);
    }
  }

  lemma MaxGone()
    ensures Halves(0xFFFF_FFFF, 32) == 0
  {
    assert Halves(0xFF, 8) == 0;
    assert Halves(0xFFFF, 16) == 0;
    assert Halves(0xFF_FFFF, 24) == 0;
  }

  lemma NoBit32(v: bv32)
    ensures !BvBit(v, 32)
  {
    hide BvBit, Halves;
    MaxGone();
    NoBit(v, 0xFFFF_FFFF, 32);
  }

  ghost predicate Alike(v: nat, x: bv32, n: nat)
    decreases n
  {
    if n == 0 then true else (v % 2 == 1 <==> Odd(x)) && Alike(v / 2, Half(x), n - 1)
  }

  lemma {:induction false} AlikeAt(v: nat, x: bv32, n: nat, i: nat)
    requires Alike(v, x, n) && i < n
    ensures Enc(v, n)[i] == BvBit(x, n - 1 - i)
    decreases n
  {
    hide Half, Odd;
    if i < n - 1 { AlikeAt(v / 2, Half(x), n - 1, i); }
  }

  lemma {:induction false} AlikeJoin(v: nat, x: bv32, m: nat, n: nat)
    requires Alike(v, x, m) && Alike(Shr(v, m), Halves(x, m), n)
    ensures Alike(v, x, m + n)
    decreases m
  {
    hide Half, Odd;
    if m > 0 { AlikeJoin(v / 2, Half(x), m - 1, n); }
  }

  lemma PolyParts()
    ensures Alike(0xED, 0xED, 8) && Alike(0xEDB8, 0xEDB8, 8) && Alike(0xED_B883, 0xED_B883, 8) && Alike(0xEDB8_8320, 0xEDB8_8320, 8)
  {}

  lemma ShrTwo(v: nat, n: nat)
    ensures Shr(v, n + 2) == Shr(v / 4, n) && (n == 0 ==> Shr(v, 2) == v / 4)
  {}

  lemma ShrEight(v: nat)
    ensures Shr(v, 8) == v / 256
  {
    hide Shr;
    ShrTwo(v, 6);
    ShrTwo(v / 4, 4);
    ShrTwo(v / 16, 2);
    ShrTwo(v / 64, 0);
  }

  lemma PolyHalves()
    ensures Halves(0xEDB8, 8) == 0xED && Halves(0xED_B883, 8) == 0xEDB8 && Halves(0xEDB8_8320, 8) == 0xED_B883
  {}

  lemma PolyAlike()
    ensures Alike(0xEDB8_8320, 0xEDB8_8320, 32)
  {
    hide *;
    PolyParts();
    ShrEight(0xEDB8);
    ShrEight(0xED_B883);
    ShrEight(0xEDB8_8320);
    PolyHalves();
    AlikeJoin(0xEDB8, 0xEDB8, 8, 8);
    AlikeJoin(0xED_B883, 0xED_B883, 8, 16);
    AlikeJoin(0xEDB8_8320, 0xEDB8_8320, 8, 24);
  }

  lemma PolyIs(i: nat)
    requires i < 32
    ensures Poly()[i] == BvBit(0xEDB8_8320, 31 - i)
  {
    hide BvBit, Enc, Alike;
    PolyAlike();
    AlikeAt(0xEDB8_8320, 0xEDB8_8320, 32, i);
  }

  lemma BvAt(v: bv32, i: nat)
    requires i < 32
    ensures Bv(v)[i] == BvBit(v, 31 - i)
  {
    hide BvBit;
  }

  lemma StepCases(v: bv32)
    ensures StepBv(v) == if BvBit(v, 0) then Both(Half(v), 0xEDB8_8320) else Half(v)
  {
    hide Half, Both, Odd;
  }

  lemma HalfBit(v: bv32, k: nat)
    ensures BvBit(Half(v), k) == BvBit(v, k + 1)
  {
    hide Half;
  }

  /** One bit through the register, on machine words. */
  lemma BvStep(v: bv32)
    ensures Step(Bv(v)) == Bv(StepBv(v))
  {
    hide *;
    StepCases(v);
    NoBit32(v);
    BvAt(v, 31);
    forall i: nat | i < 32 ensures Step(Bv(v))[i] == Bv(StepBv(v))[i] {
      StepAt(Bv(v), i);
      PolyIs(i);
      BvAt(StepBv(v), i);
      HalfBit(v, 31 - i);
      BitBoth(Half(v), 0xEDB8_8320, 31 - i);
      if i > 0 { BvAt(v, i - 1); }
    }
    Crc32.Same(Step(Bv(v)), Bv(StepBv(v)));
  }

  lemma {:induction false} BvSteps(v: bv32, n: nat)
    ensures Steps(Bv(v), n) == Bv(StepsBv(v, n))
    decreases n
  {
    hide Step, Bv, StepBv;
    if n > 0 {
      BvStep(v);
      BvSteps(StepBv(v), n - 1);
    }
  }

  // ----- strings as machine words -----

  lemma {:induction false} HalvesMono(v: bv32, w: bv32, n: nat)
    requires v <= w
    ensures Halves(v, n) <= Halves(w, n)
    decreases n
  {
    hide Half;
    if n > 0 {
      HalfMono(v, w);
      HalvesMono(Half(v), Half(w), n - 1);
    }
  }

  lemma HalfZero()
    ensures Half(0) == 0
  {}

  lemma {:induction false} HalvesOn(v: bv32, m: nat, n: nat)
    requires m <= n && Halves(v, m) == 0
    ensures Halves(v, n) == 0
    decreases n
  {
    hide Half;
    if m > 0 {
      HalvesOn(Half(v), m - 1, n - 1);
    } else if n > 0 {
      HalfZero();
      HalvesOn(0, 0, n - 1);
    }
  }

  lemma TopHalves()
    ensures Halves(0x8000_0000, 31) == 1 && Halves(0x1_0000, 16) == 1 && Halves(0x100, 8) == 1
  {
    assert Halves(0x80, 7) == 1;
    assert Halves(0x8000, 15) == 1;
    assert Halves(0x80_0000, 23) == 1;
    assert Halves(0x100, 8) == 1;
  }

  lemma BelowTop(v: bv32, n: nat)
    requires n <= 31 && Halves(v, n) == 0
    ensures v < 0x8000_0000 && (n <= 16 ==> v < 0x1_0000) && (n <= 8 ==> v < 0x100)
  {
    hide Halves;
    TopHalves();
    HalvesOn(v, n, 31);
    if v >= 0x8000_0000 { HalvesMono(0x8000_0000, v, 31); }
    if n <= 16 {
      HalvesOn(v, n, 16);
      if v >= 0x1_0000 { HalvesMono(0x1_0000, v, 16); }
    }
    if n <= 8 {
      HalvesOn(v, n, 8);
      if v >= 0x100 { HalvesMono(0x100, v, 8); }
    }
  }

  function Twice(y: bv32, b: bool): bv32 { (y << 1) | (if b then 1 else 0) }

  lemma TwiceHalf(y: bv32, b: bool)
    requires y < 0x8000_0000
    ensures Half(Twice(y, b)) == y && Odd(Twice(y, b)) == b
  {}

  lemma {:induction false} WordOf(w: Bits) returns (v: bv32)
    requires |w| <= 32
    ensures Halves(v, |w|) == 0 && forall k: nat :: k < |w| ==> BvBit(v, k) == w[|w| - 1 - k]
    decreases |w|
  {
    hide Half, Odd, Twice;
    if w == [] {
      v := 0;
    } else {
      var n := |w| - 1;
      var y := WordOf(w[..n]);
      BelowTop(y, n);
      v := Twice(y, w[n]);
      TwiceHalf(y, w[n]);
      forall k: nat | k < |w| ensures BvBit(v, k) == w[n - k] {
        if k > 0 { assert w[..n][n - 1 - (k - 1)] == w[n - k]; }
      }
    }
  }

  /** A string of up to 32 bits below zeros is a machine word. */
  lemma WordIs(w: Bits) returns (v: bv32)
    requires |w| <= 32
    ensures Halves(v, |w|) == 0 && Bv(v) == Crc32.Zeros(32 - |w|) + w
  {
    hide BvBit, Halves, Crc32.Zeros;
    v := WordOf(w);
    var u := Crc32.Zeros(32 - |w|) + w;
    forall i: nat | i < 32 ensures Bv(v)[i] == u[i] {
      BvAt(v, i);
      if 31 - i >= |w| {
        HalvesOn(v, |w|, 31 - i);
        NoBit(v, v, 31 - i);
      }
    }
    Crc32.Same(Bv(v), u);
  }

  lemma NothingLeft(z: bv32)
    requires !Odd(z) && Half(z) == 0
    ensures z == 0
  {}

  lemma {:induction false} NoBits(z: bv32, n: nat)
    requires Halves(z, n) == 0 && forall k: nat :: k < n ==> !BvBit(z, k)
    ensures z == 0
    decreases n
  {
    hide Half, Odd;
    if n > 0 {
      assert !BvBit(z, 0);
      forall k: nat | k < n - 1 ensures !BvBit(Half(z), k) { assert !BvBit(z, k + 1); }
      NoBits(Half(z), n - 1);
      NothingLeft(z);
    }
  }

  lemma BothZero(x: bv32, y: bv32)
    requires Both(x, y) == 0
    ensures x == y
  {}

  lemma Gone(v: bv32)
    ensures Halves(v, 32) == 0
  {
    hide Halves;
    MaxGone();
    HalvesMono(v, 0xFFFF_FFFF, 32);
    ZeroIs(Halves(v, 32));
  }

  lemma SameBits(x: bv32, y: bv32)
    requires forall k: nat :: k < 32 ==> BvBit(x, k) == BvBit(y, k)
    ensures x == y
  {
    hide *;
    var z := Both(x, y);
    forall k: nat | k < 32 ensures !BvBit(z, k) {
      BitBoth(x, y, k);
      assert BvBit(x, k) == BvBit(y, k);
    }
    assert forall k: nat :: k < 32 ==> !BvBit(z, k);
    Gone(z);
    NoBits(z, 32);
    BothZero(x, y);
  }

  lemma BvInjective(x: bv32, y: bv32)
    requires Bv(x) == Bv(y)
    ensures x == y
  {
    hide *;
    forall k: nat | k < 32 ensures BvBit(x, k) == BvBit(y, k) {
      BvAt(x, 31 - k);
      BvAt(y, 31 - k);
    }
    SameBits(x, y);
  }

  /** Adding one word to either side, or to both. */
  lemma BothMore(a: bv32, b: bv32, p: bv32)
    ensures Both(Both(a, p), Both(b, p)) == Both(a, b)
    ensures Both(Both(a, p), b) == Both(Both(a, b), p) == Both(a, Both(b, p))
  {
    hide *;
    var x, y, z, u, v := Both(Both(a, p), Both(b, p)), Both(a, b), Both(Both(a, p), b), Both(Both(a, b), p), Both(a, Both(b, p));
    forall k: nat | k < 32 ensures BvBit(x, k) == BvBit(y, k) && BvBit(z, k) == BvBit(u, k) && BvBit(u, k) == BvBit(v, k) {
      BitBoth(a, p, k);
      BitBoth(b, p, k);
      BitBoth(a, b, k);
      BitBoth(Both(a, p), Both(b, p), k);
      BitBoth(Both(a, p), b, k);
      BitBoth(Both(a, b), p, k);
      BitBoth(a, Both(b, p), k);
    }
    SameBits(x, y);
    SameBits(z, u);
    SameBits(u, v);
  }

  // ----- where a short word goes -----

  lemma StepBoth(x: bv32, y: bv32)
    ensures StepBv(Both(x, y)) == Both(StepBv(x), StepBv(y))
  {
    hide Half, Odd, Both;
    BothOdd(x, y);
    BothHalf(x, y);
    BothMore(Half(x), Half(y), 0xEDB8_8320);
  }

  lemma {:induction false} StepsBoth(x: bv32, y: bv32, n: nat)
    ensures StepsBv(Both(x, y), n) == Both(StepsBv(x, n), StepsBv(y, n))
    decreases n
  {
    hide StepBv, Both;
    if n > 0 {
      StepBoth(x, y);
      StepsBoth(StepBv(x), StepBv(y), n - 1);
    }
  }

  lemma StepNone()
    ensures StepBv(0) == 0
  {}

  lemma {:induction false} StepsZero(n: nat)
    ensures StepsBv(0, n) == 0
    decreases n
  {
    hide StepBv;
    if n > 0 {
      StepNone();
      StepsZero(n - 1);
    }
  }

  lemma HalfSmall(e: bv32)
    ensures Half(e) < 0x8000_0000
  {}

  lemma SameHalf(x: bv32, y: bv32)
    requires Odd(x) == Odd(y) && Half(x) == Half(y)
    ensures x == y
  {}

  lemma OneIs(v: bv32)
    ensures Odd(1) && Half(1) == 0 && Both(0, v) == v
  {}

  /** A word without its lowest bit. */
  function Without(e: bv32): bv32 { Twice(Half(e), false) }

  lemma Lowest(e: bv32)
    ensures e == if Odd(e) then Both(1, Without(e)) else Without(e)
    ensures !Odd(Without(e)) && Half(Without(e)) == Half(e)
  {
    hide Half, Odd, Both, Twice;
    var w := Without(e);
    HalfSmall(e);
    TwiceHalf(Half(e), false);
    OneIs(Half(w));
    BothOdd(1, w);
    BothHalf(1, w);
    SameHalf(e, if Odd(e) then Both(1, w) else w);
  }

  /** One bit's share of a sum. */
  function Part(e: bv32, x: bv32, rest: bv32): bv32 { if Odd(e) then Both(x, rest) else rest }

  /** The lowest bit of a word goes its own way; the others move down first. */
  lemma Peel(e: bv32, k: nat)
    requires k >= 1
    ensures StepsBv(e, k) == Part(e, StepsBv(1, k), StepsBv(Half(e), k - 1))
  {
    hide Half, Odd, Both, Without;
    Lowest(e);
    var w := Without(e);
    assert StepBv(w) == Half(e);
    StepsBoth(1, w, k);
  }

  /** Where the register is after `k`, `k - 1`, ... steps of a lone lowest bit. */
  datatype Window = Window(a0: bv32, a1: bv32, a2: bv32, a3: bv32, a4: bv32, a5: bv32, a6: bv32, a7: bv32)

  ghost predicate Orbit(k: nat, w: Window)
  {
    && k >= 8
    && StepsBv(1, k) == w.a0 && StepsBv(1, k - 1) == w.a1 && StepsBv(1, k - 2) == w.a2 && StepsBv(1, k - 3) == w.a3
    && StepsBv(1, k - 4) == w.a4 && StepsBv(1, k - 5) == w.a5 && StepsBv(1, k - 6) == w.a6 && StepsBv(1, k - 7) == w.a7
  }

  function Eighth(e: bv32): bv32 { Half(Half(Half(Half(Half(Half(Half(Half(e)))))))) }

  /** The sum of the words that the eight low bits of `e` pick, and `rest`. */
  function Sum(e: bv32, w: Window, rest: bv32): bv32 {
    var e1 := Half(e);
    var e2 := Half(e1);
    var e3 := Half(e2);
    var e4 := Half(e3);
    var e5 := Half(e4);
    var e6 := Half(e5);
    var e7 := Half(e6);
    Part(e, w.a0, Part(e1, w.a1, Part(e2, w.a2, Part(e3, w.a3, Part(e4, w.a4, Part(e5, w.a5, Part(e6, w.a6, Part(e7, w.a7, rest))))))))
  }

  lemma PeelEight(e: bv32, k: nat, w: Window)
    requires Orbit(k, w)
    ensures StepsBv(e, k) == Sum(e, w, StepsBv(Eighth(e), k - 8))
  {
    hide StepsBv, Half, Part;
    var e1 := Half(e);
    var e2 := Half(e1);
    var e3 := Half(e2);
    var e4 := Half(e3);
    var e5 := Half(e4);
    var e6 := Half(e5);
    var e7 := Half(e6);
    Peel(e, k);
    Peel(e1, k - 1);
    Peel(e2, k - 2);
    Peel(e3, k - 3);
    Peel(e4, k - 4);
    Peel(e5, k - 5);
    Peel(e6, k - 6);
    Peel(e7, k - 7);
  }

  lemma SixteenGone(e: bv32)
    requires e < 0x1_0000
    ensures Eighth(Eighth(e)) == 0
  {}

  /** Two bytes' worth of bits, `k` steps later. */
  lemma Image(e: bv32, k: nat, v: Window, w: Window)
    requires e < 0x1_0000 && k >= 16 && Orbit(k, v) && Orbit(k - 8, w)
    ensures StepsBv(e, k) == Sum(e, v, Sum(Eighth(e), w, 0))
  {
    hide StepsBv, Orbit, Sum, Eighth;
    PeelEight(e, k, v);
    PeelEight(Eighth(e), k - 8, w);
    SixteenGone(e);
    StepsZero(k - 16);
  }

  // ----- the header's lengths -----

  /** No change of one byte ends in the two low bytes. */
  predicate OneApart(v: Window, e: bv32) { 0 < e < 0x100 ==> Sum(e, v, 0) & 0xFFFF_0000 != 0 }

  /** No change of two bytes ends in the lowest. */
  predicate TwoApart(v: Window, w: Window, e: bv32, odd: bool) {
    0x100 <= e < 0x1_0000 && Odd(e) == odd ==> Sum(e, v, Sum(Eighth(e), w, 0)) & 0xFFFF_FF00 != 0
  }

  lemma StepBack(v: bv32, n: nat)
    ensures StepsBv(v, n + 1) == StepBv(StepsBv(v, n))
    decreases n
  {
    hide StepBv;
    if n > 0 { StepBack(StepBv(v), n - 1); }
  }

  lemma OrbitNext(k: nat, a: bv32)
    requires StepsBv(1, k) == a
    ensures var b := StepBv(a); var c := StepBv(b); var d := StepBv(c); var e := StepBv(d);
            var f := StepBv(e); var g := StepBv(f); var h := StepBv(g);
            Orbit(k + 8, Window(StepBv(h), h, g, f, e, d, c, b))
  {
    hide StepBv;
    StepBack(1, k);
    StepBack(1, k + 1);
    StepBack(1, k + 2);
    StepBack(1, k + 3);
    StepBack(1, k + 4);
    StepBack(1, k + 5);
    StepBack(1, k + 6);
    StepBack(1, k + 7);
  }

  function W8(): Window {
    Window(0x7707_3096, 0xEE0E_612C, 0x076D_C419, 0x0EDB_8832, 0x1DB7_1064, 0x3B6E_20C8, 0x76DC_4190, 0xEDB8_8320)
  }

  lemma Orbit8()
    ensures Orbit(8, W8())
  {
    OrbitNext(0, 1);
  }

  function W16(): Window {
    Window(0x191B_3141, 0x3236_6282, 0x646C_C504, 0xC8D9_8A08, 0x4AC2_1251, 0x9584_24A2, 0xF079_4F05, 0x3B83_984B)
  }

  lemma Orbit16()
    ensures Orbit(16, W16())
  {
    Orbit8();
    OrbitNext(8, 0x7707_3096);
  }

  function W24(): Window {
    Window(0x01C2_6A37, 0x0384_D46E, 0x0709_A8DC, 0x0E13_51B8, 0x1C26_A370, 0x384D_46E0, 0x709A_8DC0, 0xE135_1B80)
  }

  lemma Orbit24()
    ensures Orbit(24, W24())
  {
    Orbit16();
    OrbitNext(16, 0x191B_3141);
  }

  function W32(): Window {
    Window(0xB8BC_6765, 0xAA09_C88B, 0x8F62_9757, 0xC5B4_28EF, 0x5019_579F, 0xA032_AF3E, 0x9B14_583D, 0xED59_B63B)
  }

  lemma Orbit32()
    ensures Orbit(32, W32())
  {
    Orbit24();
    OrbitNext(24, 0x01C2_6A37);
  }

  function W40(): Window {
    Window(0x3D60_29B0, 0x7AC0_5360, 0xF580_A6C0, 0x3070_4BC1, 0x60E0_9782, 0xC1C1_2F04, 0x58F3_5849, 0xB1E6_B092)
  }

  lemma Orbit40()
    ensures Orbit(40, W40())
  {
    Orbit32();
    OrbitNext(32, 0xB8BC_6765);
  }

  function W48(): Window {
    Window(0xCB5C_D3A5, 0x4DC8_A10B, 0x9B91_4216, 0xEC53_826D, 0x03D6_029B, 0x07AC_0536, 0x0F58_0A6C, 0x1EB0_14D8)
  }

  lemma Orbit48()
    ensures Orbit(48, W48())
  {
    Orbit40();
    OrbitNext(40, 0x3D60_29B0);
  }

  function W56(): Window {
    Window(0xA677_0BB4, 0x979F_1129, 0xF44F_2413, 0x33EF_4E67, 0x67DE_9CCE, 0xCFBD_399C, 0x440B_7579, 0x8816_EAF2)
  }

  lemma Orbit56()
    ensures Orbit(56, W56())
  {
    Orbit48();
    OrbitNext(48, 0xCB5C_D3A5);
  }

  function W64(): Window {
    Window(0xCCAA_009E, 0x4225_077D, 0x844A_0EFA, 0xD3E5_1BB5, 0x7CBB_312B, 0xF976_6256, 0x299D_C2ED, 0x533B_85DA)
  }

  lemma Orbit64()
    ensures Orbit(64, W64())
  {
    Orbit56();
    OrbitNext(56, 0xA677_0BB4);
  }

  function W72(): Window {
    Window(0x177B_1443, 0x2EF6_2886, 0x5DEC_510C, 0xBBD8_A218, 0xACC0_4271, 0x82F1_82A3, 0xDE92_0307, 0x6655_004F)
  }

  lemma Orbit72()
    ensures Orbit(72, W72())
  {
    Orbit64();
    OrbitNext(64, 0xCCAA_009E);
  }

  function W80(): Window {
    Window(0xEFC2_6B3E, 0x04F5_D03D, 0x09EB_A07A, 0x13D7_40F4, 0x27AE_81E8, 0x4F5D_03D0, 0x9EBA_07A0, 0xE605_0901)
  }

  lemma Orbit80()
    ensures Orbit(80, W80())
  {
    Orbit72();
    OrbitNext(72, 0x177B_1443);
  }

  function W88(): Window {
    Window(0xC18E_DFC0, 0x586C_B9C1, 0xB0D9_7382, 0xBAC3_E145, 0xAEF6_C4CB, 0x869C_8FD7, 0xD648_19EF, 0x77E1_359F)
  }

  lemma Orbit88()
    ensures Orbit(88, W88())
  {
    Orbit80();
    OrbitNext(80, 0xEFC2_6B3E);
  }

  function W96(): Window {
    Window(0x9BA5_4C6F, 0xEC3B_9E9F, 0x0306_3B7F, 0x060C_76FE, 0x0C18_EDFC, 0x1831_DBF8, 0x3063_B7F0, 0x60C7_6FE0)
  }

  lemma Orbit96()
    ensures Orbit(96, W96())
  {
    Orbit88();
    OrbitNext(88, 0xC18E_DFC0);
  }

  lemma SmallMasks(d: bv32)
    ensures d < 0x100 ==> d & 0xFFFF_FF00 == 0
    ensures d < 0x1_0000 ==> d & 0xFFFF_0000 == 0
  {}

  lemma EightGone(e: bv32)
    requires e < 0x100
    ensures Eighth(e) == 0
  {}

  lemma ClearOne(e: bv32, k: nat, v: Window)
    requires 0 < e < 0x100 && k >= 16 && Orbit(k, v) && OneApart(v, e)
    ensures StepsBv(e, k) >= 0x1_0000
  {
    hide StepsBv, Orbit, Sum, Eighth;
    PeelEight(e, k, v);
    EightGone(e);
    StepsZero(k - 8);
    SmallMasks(StepsBv(e, k));
  }

  lemma ClearTwo(e: bv32, k: nat, v: Window, w: Window)
    requires 0x100 <= e < 0x1_0000 && k >= 16 && Orbit(k, v) && Orbit(k - 8, w)
    requires TwoApart(v, w, e, false) && TwoApart(v, w, e, true)
    ensures StepsBv(e, k) >= 0x100
  {
    hide StepsBv, Orbit, Sum, Eighth, Odd;
    Image(e, k, v, w);
    SmallMasks(StepsBv(e, k));
    assert TwoApart(v, w, e, Odd(e));
  }

  lemma Positive(e: bv32)
    requires e != 0
    ensures 0 < e
  {}

  lemma Clear(e: bv32, k: nat, v: Window, w: Window)
    requires e != 0 && k >= 16 && Orbit(k, v) && Orbit(k - 8, w)
    requires OneApart(v, e) && TwoApart(v, w, e, false) && TwoApart(v, w, e, true)
    ensures e < 0x100 ==> StepsBv(e, k) >= 0x1_0000
    ensures e < 0x1_0000 ==> StepsBv(e, k) >= 0x100
  {
    hide *;
    Positive(e);
    if e < 0x100 {
      ClearOne(e, k, v);
    } else if e < 0x1_0000 {
      ClearTwo(e, k, v, w);
    }
  }

  lemma Apart32(e: bv32)
    ensures OneApart(W32(), e)
  {}

  lemma ApartEven32(e: bv32)
    ensures TwoApart(W32(), W24(), e, false)
  {}

  lemma ApartOdd32(e: bv32)
    ensures TwoApart(W32(), W24(), e, true)
  {}

  lemma Apart40(e: bv32)
    ensures OneApart(W40(), e)
  {}

  lemma ApartEven40(e: bv32)
    ensures TwoApart(W40(), W32(), e, false)
  {}

  lemma ApartOdd40(e: bv32)
    ensures TwoApart(W40(), W32(), e, true)
  {}

  lemma Apart48(e: bv32)
    ensures OneApart(W48(), e)
  {}

  lemma ApartEven48(e: bv32)
    ensures TwoApart(W48(), W40(), e, false)
  {}

  lemma ApartOdd48(e: bv32)
    ensures TwoApart(W48(), W40(), e, true)
  {}

  lemma Apart56(e: bv32)
    ensures OneApart(W56(), e)
  {}

  lemma ApartEven56(e: bv32)
    ensures TwoApart(W56(), W48(), e, false)
  {}

  lemma ApartOdd56(e: bv32)
    ensures TwoApart(W56(), W48(), e, true)
  {}

  lemma Apart64(e: bv32)
    ensures OneApart(W64(), e)
  {}

  lemma ApartEven64(e: bv32)
    ensures TwoApart(W64(), W56(), e, false)
  {}

  lemma ApartOdd64(e: bv32)
    ensures TwoApart(W64(), W56(), e, true)
  {}

  lemma Apart72(e: bv32)
    ensures OneApart(W72(), e)
  {}

  lemma ApartEven72(e: bv32)
    ensures TwoApart(W72(), W64(), e, false)
  {}

  lemma ApartOdd72(e: bv32)
    ensures TwoApart(W72(), W64(), e, true)
  {}

  lemma Apart80(e: bv32)
    ensures OneApart(W80(), e)
  {}

  lemma ApartEven80(e: bv32)
    ensures TwoApart(W80(), W72(), e, false)
  {}

  lemma ApartOdd80(e: bv32)
    ensures TwoApart(W80(), W72(), e, true)
  {}

  lemma Apart88(e: bv32)
    ensures OneApart(W88(), e)
  {}

  lemma ApartEven88(e: bv32)
    ensures TwoApart(W88(), W80(), e, false)
  {}

  lemma ApartOdd88(e: bv32)
    ensures TwoApart(W88(), W80(), e, true)
  {}

  lemma Apart96(e: bv32)
    ensures OneApart(W96(), e)
  {}

  lemma ApartEven96(e: bv32)
    ensures TwoApart(W96(), W88(), e, false)
  {}

  lemma ApartOdd96(e: bv32)
    ensures TwoApart(W96(), W88(), e, true)
  {}

  lemma Clear32(e: bv32)
    requires e != 0
    ensures e < 0x100 ==> StepsBv(e, 32) >= 0x1_0000
    ensures e < 0x1_0000 ==> StepsBv(e, 32) >= 0x100
  {
    hide *;
    Orbit32();
    Orbit24();
    Apart32(e);
    ApartEven32(e);
    ApartOdd32(e);
    Clear(e, 32, W32(), W24());
  }

  lemma Clear40(e: bv32)
    requires e != 0
    ensures e < 0x100 ==> StepsBv(e, 40) >= 0x1_0000
    ensures e < 0x1_0000 ==> StepsBv(e, 40) >= 0x100
  {
    hide *;
    Orbit40();
    Orbit32();
    Apart40(e);
    ApartEven40(e);
    ApartOdd40(e);
    Clear(e, 40, W40(), W32());
  }

  lemma Clear48(e: bv32)
    requires e != 0
    ensures e < 0x100 ==> StepsBv(e, 48) >= 0x1_0000
    ensures e < 0x1_0000 ==> StepsBv(e, 48) >= 0x100
  {
    hide *;
    Orbit48();
    Orbit40();
    Apart48(e);
    ApartEven48(e);
    ApartOdd48(e);
    Clear(e, 48, W48(), W40());
  }

  lemma Clear56(e: bv32)
    requires e != 0
    ensures e < 0x100 ==> StepsBv(e, 56) >= 0x1_0000
    ensures e < 0x1_0000 ==> StepsBv(e, 56) >= 0x100
  {
    hide *;
    Orbit56();
    Orbit48();
    Apart56(e);
    ApartEven56(e);
    ApartOdd56(e);
    Clear(e, 56, W56(), W48());
  }

  lemma Clear64(e: bv32)
    requires e != 0
    ensures e < 0x100 ==> StepsBv(e, 64) >= 0x1_0000
    ensures e < 0x1_0000 ==> StepsBv(e, 64) >= 0x100
  {
    hide *;
    Orbit64();
    Orbit56();
    Apart64(e);
    ApartEven64(e);
    ApartOdd64(e);
    Clear(e, 64, W64(), W56());
  }

  lemma Clear72(e: bv32)
    requires e != 0
    ensures e < 0x100 ==> StepsBv(e, 72) >= 0x1_0000
    ensures e < 0x1_0000 ==> StepsBv(e, 72) >= 0x100
  {
    hide *;
    Orbit72();
    Orbit64();
    Apart72(e);
    ApartEven72(e);
    ApartOdd72(e);
    Clear(e, 72, W72(), W64());
  }

  lemma Clear80(e: bv32)
    requires e != 0
    ensures e < 0x100 ==> StepsBv(e, 80) >= 0x1_0000
    ensures e < 0x1_0000 ==> StepsBv(e, 80) >= 0x100
  {
    hide *;
    Orbit80();
    Orbit72();
    Apart80(e);
    ApartEven80(e);
    ApartOdd80(e);
    Clear(e, 80, W80(), W72());
  }

  lemma Clear88(e: bv32)
    requires e != 0
    ensures e < 0x100 ==> StepsBv(e, 88) >= 0x1_0000
    ensures e < 0x1_0000 ==> StepsBv(e, 88) >= 0x100
  {
    hide *;
    Orbit88();
    Orbit80();
    Apart88(e);
    ApartEven88(e);
    ApartOdd88(e);
    Clear(e, 88, W88(), W80());
  }

  lemma Clear96(e: bv32)
    requires e != 0
    ensures e < 0x100 ==> StepsBv(e, 96) >= 0x1_0000
    ensures e < 0x1_0000 ==> StepsBv(e, 96) >= 0x100
  {
    hide *;
    Orbit96();
    Orbit88();
    Apart96(e);
    ApartEven96(e);
    ApartOdd96(e);
    Clear(e, 96, W96(), W88());
  }

  /** For every length a header has. */
  lemma ClearAll(e: bv32, n: nat)
    requires e != 0 && 5 <= n <= 13
    ensures e < 0x100 ==> StepsBv(e, 8 * (n - 1)) >= 0x1_0000
    ensures e < 0x1_0000 ==> StepsBv(e, 8 * (n - 1)) >= 0x100
  {
    hide *;
    if n == 5 { Clear32(e); }
    if n == 6 { Clear40(e); }
    if n == 7 { Clear48(e); }
    if n == 8 { Clear56(e); }
    if n == 9 { Clear64(e); }
    if n == 10 { Clear72(e); }
    if n == 11 { Clear80(e); }
    if n == 12 { Clear88(e); }
    if n == 13 { Clear96(e); }
  }

  // ----- what a changed block shows -----

  /** How two contents drive two registers apart, from a difference `c` on. */
  function Drift(c: Word, a: seq<Byte>, b: seq<Byte>): Word
    requires |a| == |b|
    decreases |a|
  {
    if a == [] then c else Drift(Steps(Xor(c, Xor(Wide(a[0]), Wide(b[0]))), 8), a[1..], b[1..])
  }

  lemma XorFour(c: Word, d: Word, x: Word, y: Word)
    ensures Xor(Xor(c, x), Xor(d, y)) == Xor(Xor(c, d), Xor(x, y))
  {
    hide Xor;
    var p, q := Xor(Xor(c, x), Xor(d, y)), Xor(Xor(c, d), Xor(x, y));
    forall i: nat | i < 32 ensures p[i] == q[i] {
      XorAt(c, x, i);
      XorAt(d, y, i);
      XorAt(c, d, i);
      XorAt(x, y, i);
      XorAt(Xor(c, x), Xor(d, y), i);
      XorAt(Xor(c, d), Xor(x, y), i);
    }
    Crc32.Same(p, q);
  }

  lemma XorSelf(c: Word)
    ensures Xor(c, c) == Crc32.Zeros(32)
  {
    hide Xor, Crc32.Zeros;
    forall i: nat | i < 32 ensures Xor(c, c)[i] == Crc32.Zeros(32)[i] { XorAt(c, c, i); }
    Crc32.Same(Xor(c, c), Crc32.Zeros(32));
  }

  lemma XorNone(c: Word)
    ensures Xor(c, Crc32.Zeros(32)) == c
  {
    hide Xor, Crc32.Zeros;
    forall i: nat | i < 32 ensures Xor(c, Crc32.Zeros(32))[i] == c[i] { XorAt(c, Crc32.Zeros(32), i); }
    Crc32.Same(Xor(c, Crc32.Zeros(32)), c);
  }

  lemma {:induction false} DriftIs(c: Word, d: Word, a: seq<Byte>, b: seq<Byte>)
    requires |a| == |b|
    ensures Xor(Register(c, a), Register(d, b)) == Drift(Xor(c, d), a, b)
    decreases |a|
  {
    hide Steps, Xor, Wide;
    if a != [] {
      var x, y := Wide(a[0]), Wide(b[0]);
      StepsXor(Xor(c, x), Xor(d, y), 8);
      XorFour(c, d, x, y);
      DriftIs(Steps(Xor(c, x), 8), Steps(Xor(d, y), 8), a[1..], b[1..]);
    }
  }

  lemma {:induction false} DriftSame(c: Word, a: seq<Byte>)
    ensures Drift(c, a, a) == Steps(c, 8 * |a|)
    decreases |a|
  {
    hide Steps, Xor, Wide, Crc32.Zeros;
    if a == [] {
      StepsNone(c);
    } else {
      XorSelf(Wide(a[0]));
      XorNone(c);
      DriftSame(Steps(c, 8), a[1..]);
      StepsPlus(c, 8, 8 * |a[1..]|);
    }
  }

  lemma StepsNone(c: Word)
    ensures Steps(c, 0) == c
  {}

  lemma CrcApart(a: seq<Byte>, b: seq<Byte>)
    requires |a| == |b|
    ensures Xor(Crc(a), Crc(b)) == Drift(Crc32.Zeros(32), a, b)
  {
    hide *;
    CrcIs(a);
    CrcIs(b);
    var x, y, o := Register(Ones32(), a), Register(Ones32(), b), Ones32();
    XorFour(x, y, o, o);
    XorSelf(o);
    XorNone(Xor(x, y));
    DriftIs(o, o, a, b);
  }

  /** The change of the stored check. */
  function CheckChange(block: seq<Byte>, bad: seq<Byte>): Word
    requires |block| >= 4 && |bad| >= 4
  {
    Xor(BytesToBits(block[..4]), BytesToBits(bad[..4]))
  }

  /** Exactly which changed blocks pass the check: those whose change of the stored check is where the change of the
      content takes a register that starts at zero. */
  lemma AcceptsExactly(block: seq<Byte>, bad: seq<Byte>)
    requires Accepts(block) && |bad| == |block| >= 4
    ensures Accepts(bad) <==> CheckChange(block, bad) == Drift(Crc32.Zeros(32), block[4..], bad[4..])
  {
    hide Crc, Drift, BytesToBits;
    var c, d := BytesToBits(block[..4]), BytesToBits(bad[..4]);
    CrcApart(block[4..], bad[4..]);
    if Xor(c, d) == Xor(c, Crc(bad[4..])) { XorCancel(c, d, Crc(bad[4..])); }
  }

  // ----- a change the check misses -----

  lemma StepsEight(v: bv32, n: nat, a: bv32)
    requires StepsBv(v, n) == a
    ensures StepsBv(v, n + 8) == StepBv(StepBv(StepBv(StepBv(StepBv(StepBv(StepBv(StepBv(a))))))))
  {
    hide StepBv;
    StepBack(v, n);
    StepBack(v, n + 1);
    StepBack(v, n + 2);
    StepBack(v, n + 3);
    StepBack(v, n + 4);
    StepBack(v, n + 5);
    StepBack(v, n + 6);
    StepBack(v, n + 7);
  }

  lemma NineteenGoes()
    ensures StepsBv(0x19, 72) == 0x63_F42A
  {
    StepsEight(0x19, 0, 0x19);
    StepsEight(0x19, 8, 0x646B_A8C0);
    StepsEight(0x19, 16, 0x9B00_A918);
    StepsEight(0x19, 24, 0x13F7_98FF);
    StepsEight(0x19, 32, 0x2D11_1815);
    StepsEight(0x19, 40, 0x6DF0_F5F3);
    StepsEight(0x19, 48, 0x24D9_5353);
    StepsEight(0x19, 56, 0xF246_D91D);
    StepsEight(0x19, 64, 0x63F4_2A00);
  }

  lemma {:induction false} BytesOf(w: Bits) returns (s: seq<Byte>)
    requires |w| % 8 == 0
    ensures BytesToBits(s) == w && 8 * |s| == |w|
    decreases |w|
  {
    hide Enc, Val;
    if w == [] {
      s := [];
    } else {
      var n := |w| - 8;
      var t := BytesOf(w[..n]);
      EncVal(w[n..]);
      Pow2Facts();
      var b := Val(w[n..]) as Byte;
      s := t + [b];
      assert s[..|s| - 1] == t;
      assert w == w[..n] + w[n..];
    }
  }

  lemma XorBack(c: Word, d: Word)
    ensures Xor(c, Xor(c, d)) == d
  {
    hide Xor, Crc32.Zeros;
    XorAssoc(c, c, d);
    XorSelf(c);
    XorComm(Crc32.Zeros(32), d);
    XorNone(d);
  }

  lemma TopClear(v: bv32, n: nat, i: nat)
    requires n <= 31 && Halves(v, n) == 0 && i < 32 - n
    ensures !Bv(v)[i]
  {
    hide *;
    BvAt(v, i);
    HalvesOn(v, n, 31 - i);
    NoBit(v, v, 31 - i);
  }

  lemma MissedBits()
    ensures Halves(0x19, 8) == 0 && Halves(0x63_F42A, 24) == 0
  {
    assert Halves(0x63, 8) == 0;
    assert Halves(0x63F4, 16) == 0;
  }

  lemma Changed(b: Byte, c: Byte)
    requires Xor(Wide(b), Wide(c)) == Bv(0x19)
    ensures b != c
  {
    hide *;
    if b == c {
      LowBitSet();
      BvAt(0x19, 31);
      XorSelf(Wide(b));
    }
  }

  lemma LowBitSet()
    ensures BvBit(0x19, 0)
  {}

  lemma Missed(block: seq<Byte>, bad: seq<Byte>)
    requires Accepts(block) && |block| == |bad| == 13 && bad[5..] == block[5..]
    requires Xor(Wide(block[4]), Wide(bad[4])) == Bv(0x19) && CheckChange(block, bad) == Bv(0x63_F42A)
    ensures Accepts(bad)
  {
    hide *;
    AcceptsExactly(block, bad);
    var a, b := block[4..], bad[4..];
    DriftFirst(a, b);
    Tails(block, bad);
    var e := Xor(Wide(a[0]), Wide(b[0]));
    DriftSame(Steps(e, 8), a[1..]);
    StepsPlus(e, 8, 64);
    BvSteps(0x19, 72);
    NineteenGoes();
  }

  lemma WideOf(b: Byte) returns (c: Byte)
    ensures Xor(Wide(b), Wide(c)) == Bv(0x19)
  {
    hide Bv, Xor, Enc, Val, Crc32.Zeros, Halves, BvBit;
    var x := Xor(Wide(b), Bv(0x19));
    EncVal(x[24..]);
    Pow2Facts();
    c := Val(x[24..]) as Byte;
    MissedBits();
    forall i: nat | i < 32 ensures x[i] == Wide(c)[i] {
      XorAt(Wide(b), Bv(0x19), i);
      if i < 24 { TopClear(0x19, 8, i); }
    }
    Crc32.Same(x, Wide(c));
    XorBack(Wide(b), Bv(0x19));
  }

  /** Of every block with nine bytes of content there is a changed one the check takes too: five bits of the first
      byte of the content and up to three bytes of the stored check before it, four consecutive bytes in all. */
  lemma MissedHappens(block: seq<Byte>) returns (bad: seq<Byte>)
    requires Accepts(block) && |block| == 13
    ensures |bad| == 13 && bad[..1] == block[..1] && bad[5..] == block[5..] && bad[4] != block[4] && Accepts(bad)
  {
    hide Bv, Xor, Enc, Val, Crc, Crc32.Zeros, Halves, BvBit, Accepts, BytesToBits, Wide;
    var c := BytesToBits(block[..4]);
    var w := Xor(c, Bv(0x63_F42A));
    var s := BytesOf(w);
    var b := WideOf(block[4]);
    bad := s + [b] + block[5..];
    Changed(block[4], b);
    XorBack(c, Bv(0x63_F42A));
    assert bad[..4] == s;
    Missed(block, bad);
    MissedBits();
    forall i: nat | i < 8 ensures w[i] == c[i] {
      XorAt(c, Bv(0x63_F42A), i);
      TopClear(0x63_F42A, 24, i);
    }
    BytesSlice(s, 0, 1);
    BytesSlice(block[..4], 0, 1);
    assert w[0..8] == c[0..8];
    BytesUnique(s[0..1], block[..4][0..1]);
    assert bad[..1] == s[0..1] && block[..1] == block[..4][0..1];
  }

  lemma Tails(block: seq<Byte>, bad: seq<Byte>)
    requires |block| == |bad| == 13 && bad[5..] == block[5..]
    ensures block[4..][1..] == bad[4..][1..] && |block[4..][1..]| == 8 && block[4..][0] == block[4] && bad[4..][0] == bad[4]
  {
    assert block[4..][1..] == block[5..] && bad[4..][1..] == bad[5..];
  }

  lemma DriftFirst(a: seq<Byte>, b: seq<Byte>)
    requires |a| == |b| >= 1
    ensures Drift(Crc32.Zeros(32), a, b) == Drift(Steps(Xor(Wide(a[0]), Wide(b[0])), 8), a[1..], b[1..])
  {
    hide Steps, Xor, Wide, Crc32.Zeros;
    var x := Xor(Wide(a[0]), Wide(b[0]));
    XorComm(Crc32.Zeros(32), x);
    XorNone(x);
  }

  // ----- the header -----

  /** The test at the start of `streaminfo_read_header_sv8`: the check, and the version. */
  predicate HeaderTest(block: seq<Byte>) { |block| >= 5 && Accepts(block) && block[4] == 8 }

  lemma SplitThree(a: seq<Byte>)
    requires |a| >= 3
    ensures a == [a[0]] + (a[1..3] + a[3..]) && |a[1..3]| == 2
  {}

  /** The change of the second and third byte of the content, as one word, moves on by the rest of the content. */
  lemma DriftTwo(a: seq<Byte>, b: seq<Byte>)
    requires |a| == |b| >= 3 && a[0] == b[0] && a[3..] == b[3..]
    ensures Drift(Crc32.Zeros(32), a, b) == Steps(Xor(Place(a[1..3]), Place(b[1..3])), 8 * (|a| - 1))
  {
    hide *;
    var z, v, w, t := Crc32.Zeros(32), a[1..3], b[1..3], a[3..];
    SplitThree(a);
    SplitThree(b);
    var c := Register(z, [a[0]]);
    RegisterConcat(z, [a[0]], v + t);
    RegisterConcat(z, [a[0]], w + t);
    RegisterConcat(c, v, t);
    RegisterConcat(c, w, t);
    RegisterWord(c, v);
    RegisterWord(c, w);
    var p, q := Place(v), Place(w);
    XorSelf(z);
    DriftIs(z, z, a, b);
    StepsXor(Xor(c, p), Xor(c, q), 16);
    XorFour(c, c, p, q);
    XorSelf(c);
    XorComm(z, Xor(p, q));
    XorNone(Xor(p, q));
    DriftIs(Register(c, v), Register(c, w), t, t);
    DriftSame(Steps(Xor(p, q), 16), t);
    StepsPlus(Xor(p, q), 16, 8 * |t|);
  }

  /** A word whose top bits are clear. */
  lemma Lowly(x: Word, n: nat) returns (d: bv32)
    requires 16 <= n <= 24 && forall i :: 0 <= i < n ==> !x[i]
    ensures Bv(d) == x && d < 0x1_0000 && (n == 24 ==> d < 0x100)
  {
    hide Bv, Halves, Crc32.Zeros;
    d := WordIs(x[n..]);
    Crc32.Same(Crc32.Zeros(n) + x[n..], x);
    BelowTop(d, 32 - n);
  }

  lemma PlaceLow(v: seq<Byte>, w: seq<Byte>, i: nat)
    requires |v| == |w| == 2 && v[1] == w[1] && i < 24
    ensures Place(v)[i] == Place(w)[i]
  {
    hide Enc, Crc32.Zeros;
    assert v[1..] == w[1..];
  }

  lemma BvZero(i: nat)
    requires i < 32
    ensures !Bv(0)[i]
  {
    hide *;
    NoneLeft();
    TopClear(0, 0, i);
  }

  lemma NoneLeft()
    ensures Halves(0, 0) == 0
  {}

  lemma SameContent(v: seq<Byte>, w: seq<Byte>)
    requires |v| == |w| == 2 && Xor(Place(v), Place(w)) == Bv(0)
    ensures v == w
  {
    hide *;
    var p, q := Place(v), Place(w);
    forall i: nat | i < 32 ensures p[i] == q[i] {
      XorAt(p, q, i);
      BvZero(i);
    }
    Crc32.Same(p, q);
    PlaceInjective(v, w);
  }

  /** The stored check is unchanged up to byte `i`. */
  lemma CheckTop(block: seq<Byte>, bad: seq<Byte>, i: nat, k: nat)
    requires |block| == |bad| >= 4 && i <= 4 && bad[..i] == block[..i] && k < 8 * i
    ensures !CheckChange(block, bad)[k]
  {
    hide BytesToBits, Xor;
    BytesSlice(block[..4], 0, i);
    BytesSlice(bad[..4], 0, i);
    assert block[..4][0..i] == block[..i] == bad[..i] == bad[..4][0..i];
    var c, d := BytesToBits(block[..4]), BytesToBits(bad[..4]);
    assert c[0..8 * i][k] == d[0..8 * i][k];
    XorAt(c, d, k);
  }

  /** Where the content may differ if the version is kept. */
  lemma WhereContent(block: seq<Byte>, bad: seq<Byte>, i: nat, j: nat)
    requires |bad| == |block| >= 9 && i < 4 < j <= |block| && j - i <= 4 && bad[i + 4..] == block[i + 4..] && bad[4] == block[4]
    ensures bad[4..][0] == block[4..][0] && bad[4..][3..] == block[4..][3..]
    ensures i == 2 ==> bad[4..][1..3][1] == block[4..][1..3][1]
    ensures i <= 1 ==> bad[4..] == block[4..]
  {
    assert bad[i + 4..][3 - i..] == bad[7..] && block[i + 4..][3 - i..] == block[7..];
    assert bad[4..][3..] == bad[7..] && block[4..][3..] == block[7..];
    if i <= 2 { assert bad[6] == bad[i + 4..][2 - i] && block[6] == block[i + 4..][2 - i]; }
    if i <= 1 {
      assert bad[5] == bad[i + 4..][1 - i] && block[5] == block[i + 4..][1 - i];
      assert bad[4..] == [bad[4], bad[5], bad[6]] + bad[7..] && block[4..] == [block[4], block[5], block[6]] + block[7..];
    }
  }

  /** A change across the end of the check that keeps the version is a change of no content. */
  lemma AcrossKeeps(block: seq<Byte>, bad: seq<Byte>, i: nat, j: nat)
    requires Accepts(block) && Accepts(bad) && |bad| == |block| && 9 <= |block| <= 17 && bad[4] == block[4]
    requires i < 4 < j <= |block| && j - i <= 4 && bad[..i] == block[..i] && bad[i + 4..] == block[i + 4..]
    ensures bad[4..] == block[4..]
  {
    hide *;
    WhereContent(block, bad, i, j);
    if i >= 2 {
      var a, b := block[4..], bad[4..];
      AcceptsExactly(block, bad);
      DriftTwo(a, b);
      SplitThree(a);
      SplitThree(b);
      var v, w := a[1..3], b[1..3];
      var x := Xor(Place(v), Place(w));
      var d := CheckChange(block, bad);
      var m := 8 * i;
      forall k: nat | k < m ensures !d[k] { CheckTop(block, bad, i, k); }
      forall k: nat | k < (if i == 2 then 24 else 16) ensures !x[k] {
        XorAt(Place(v), Place(w), k);
        if i == 2 {
          PlaceLow(v, w, k);
        } else {
          PlaceTop(v, k);
          PlaceTop(w, k);
        }
      }
      var dv := Lowly(d, m);
      var ev := Lowly(x, if i == 2 then 24 else 16);
      BvSteps(ev, 8 * (|a| - 1));
      BvInjective(dv, StepsBv(ev, 8 * (|a| - 1)));
      if ev != 0 {
        ClearAll(ev, |a|);
        assert false;
      }
      SameContent(v, w);
    }
  }

  lemma PlaceTop(v: seq<Byte>, k: nat)
    requires |v| == 2 && k < 16
    ensures !Place(v)[k]
  {
    hide Enc, Crc32.Zeros;
  }

  /** A framed header passes the test, and with any change of up to four consecutive bytes, wherever they are, it does
      not. */
  lemma HeaderBurst(block: seq<Byte>, data: seq<Byte>, bad: seq<Byte>, i: nat, j: nat)
    requires BytesToBits(block) == Checked(data) && 5 <= |data| <= 13 && data[0] == 8
    requires |bad| == |block| && bad != block
    requires i <= j <= |block| && j - i <= 4 && bad[..i] == block[..i] && bad[j..] == block[j..]
    ensures HeaderTest(block) && block[4..] == data && !HeaderTest(bad)
  {
    hide BytesToBits, Crc, Accepts;
    Framed(block, data);
    assert |block| == |data| + 4;
    if j <= 4 || 4 <= i {
      HeaderCheck(block, data, bad, i, j);
    } else if HeaderTest(bad) {
      assert block[4] == data[0];
      assert bad[i + 4..] == bad[j..][i + 4 - j..] == block[j..][i + 4 - j..] == block[i + 4..];
      AcrossKeeps(block, bad, i, j);
      assert bad == bad[..4] + bad[4..] && block == block[..4] + block[4..];
      StoredCheck(block, bad);
      assert false;
    }
  }

  lemma FirstByte(s: seq<Byte>, v: Byte)
    requires 1 <= |s| && BytesToBits(s)[..8] == Enc(v as nat, 8)
    ensures s[0] == v
  {
    hide BytesToBits, Enc;
    BytesSlice(s, 0, 1);
    OneByte(v);
    assert s[0..1] == [s[0]];
    assert BytesToBits(s)[0..8] == BytesToBits(s)[..8];
    BytesUnique([s[0]], [v]);
  }

  /** So it is for every header the writer makes, and for one that it fills up with zeros when it comes back to it. */
  lemma WriterBurst(info: StreamHeader.Info, zeros: Bits, block: seq<Byte>, data: seq<Byte>, bad: seq<Byte>, i: nat, j: nat)
    requires StreamHeader.Writable(info) && BytesToBits(data) == StreamHeader.HeaderBits(info) + zeros && |data| <= 13
    requires BytesToBits(block) == Checked(data) && |bad| == |block| && bad != block
    requires i <= j <= |block| && j - i <= 4 && bad[..i] == block[..i] && bad[j..] == block[j..]
    ensures HeaderTest(block) && block[4..] == data && !HeaderTest(bad)
  {
    hide BytesToBits, Checked, HeaderTest, Enc, StreamHeader.HeaderBits;
    StreamHeader.HeaderLength(info);
    var h := StreamHeader.HeaderBits(info);
    assert (h + zeros)[..8] == h[..8];
    FirstByte(data, 8);
    HeaderBurst(block, data, bad, i, j);
  }
}

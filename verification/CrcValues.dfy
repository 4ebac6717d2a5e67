/** The check in numbers: the check value of CRC-32, and the residue every checked message leaves. */
module CrcValues {
  import opened BitStrings
  import opened Crc32
  import opened HeaderGuard

  lemma BvBoth(x: bv32, y: bv32)
    ensures Xor(Bv(x), Bv(y)) == Bv(Both(x, y))
  {
    hide *;
    forall i: nat | i < 32 ensures Xor(Bv(x), Bv(y))[i] == Bv(Both(x, y))[i] {
      XorAt(Bv(x), Bv(y), i);
      BvAt(x, i);
      BvAt(y, i);
      BvAt(Both(x, y), i);
      BitBoth(x, y, 31 - i);
    }
    Crc32.Same(Xor(Bv(x), Bv(y)), Bv(Both(x, y)));
  }

  /** A number and a machine word that agree in every bit are the same string. */
  lemma SameString(v: nat, x: bv32)
    requires Alike(v, x, 32)
    ensures Enc(v, 32) == Bv(x)
  {
    hide *;
    forall i: nat | i < 32 ensures Enc(v, 32)[i] == Bv(x)[i] {
      AlikeAt(v, x, 32, i);
      BvAt(x, i);
    }
    Crc32.Same(Enc(v, 32), Bv(x));
  }

  lemma SameByte(b: Byte, x: bv32)
    requires Alike(b as nat, x, 8) && HeaderGuard.Halves(x, 8) == 0
    ensures Wide(b) == Bv(x)
  {
    hide Bv, Alike, Enc, HeaderGuard.Halves;
    forall i: nat | i < 32 ensures Wide(b)[i] == Bv(x)[i] {
      if i < 24 {
        TopClear(x, 8, i);
      } else {
        AlikeAt(b as nat, x, 8, i - 24);
        BvAt(x, i);
      }
    }
    Crc32.Same(Wide(b), Bv(x));
  }

  /** Four bytes of a machine word, one at a time. */
  lemma SameWord(v: nat, x: bv32, v1: nat, y: bv32, v2: nat, z: bv32, v3: nat, t: bv32)
    requires v1 == v / 256 && v2 == v1 / 256 && v3 == v2 / 256
    requires HeaderGuard.Halves(x, 8) == y && HeaderGuard.Halves(y, 8) == z && HeaderGuard.Halves(z, 8) == t
    requires Alike(v, x, 8) && Alike(v1, y, 8) && Alike(v2, z, 8) && Alike(v3, t, 8)
    ensures Enc(v, 32) == Bv(x)
  {
    hide *;
    ShrEight(v);
    ShrEight(v1);
    ShrEight(v2);
    AlikeJoin(v2, z, 8, 8);
    AlikeJoin(v1, y, 8, 16);
    AlikeJoin(v, x, 8, 24);
    SameString(v, x);
  }

  lemma AllOnes()
    ensures Ones32() == Bv(0xFFFF_FFFF)
  {
    hide Enc, Bv;
    assert Alike(0xFFFF_FFFF, 0xFFFF_FFFF, 8) && Alike(0xFF_FFFF, 0xFF_FFFF, 8);
    assert Alike(0xFFFF, 0xFFFF, 8) && Alike(0xFF, 0xFF, 8);
    assert HeaderGuard.Halves(0xFFFF_FFFF, 8) == 0xFF_FFFF && HeaderGuard.Halves(0xFF_FFFF, 8) == 0xFFFF;
    assert HeaderGuard.Halves(0xFFFF, 8) == 0xFF;
    SameWord(0xFFFF_FFFF, 0xFFFF_FFFF, 0xFF_FFFF, 0xFF_FFFF, 0xFFFF, 0xFFFF, 0xFF, 0xFF);
  }

  lemma CheckWord()
    ensures Enc(0xCBF4_3926, 32) == Bv(0xCBF4_3926)
  {
    hide Enc, Bv;
    assert Alike(0xCBF4_3926, 0xCBF4_3926, 8) && Alike(0xCB_F439, 0xCB_F439, 8);
    assert Alike(0xCBF4, 0xCBF4, 8) && Alike(0xCB, 0xCB, 8);
    assert HeaderGuard.Halves(0xCBF4_3926, 8) == 0xCB_F439 && HeaderGuard.Halves(0xCB_F439, 8) == 0xCBF4;
    assert HeaderGuard.Halves(0xCBF4, 8) == 0xCB;
    SameWord(0xCBF4_3926, 0xCBF4_3926, 0xCB_F439, 0xCB_F439, 0xCBF4, 0xCBF4, 0xCB, 0xCB);
  }

  lemma ResidueWord()
    ensures Enc(0xDEBB_20E3, 32) == Bv(0xDEBB_20E3)
  {
    hide Enc, Bv;
    assert Alike(0xDEBB_20E3, 0xDEBB_20E3, 8) && Alike(0xDE_BB20, 0xDE_BB20, 8);
    assert Alike(0xDEBB, 0xDEBB, 8) && Alike(0xDE, 0xDE, 8);
    assert HeaderGuard.Halves(0xDEBB_20E3, 8) == 0xDE_BB20 && HeaderGuard.Halves(0xDE_BB20, 8) == 0xDEBB;
    assert HeaderGuard.Halves(0xDEBB, 8) == 0xDE;
    SameWord(0xDEBB_20E3, 0xDEBB_20E3, 0xDE_BB20, 0xDE_BB20, 0xDEBB, 0xDEBB, 0xDE, 0xDE);
  }

  lemma EightSteps(v: bv32)
    ensures StepsBv(v, 8) == StepBv(StepBv(StepBv(StepBv(StepBv(StepBv(StepBv(StepBv(v))))))))
  {
    hide StepBv;
    var a := StepBv(StepBv(v));
    var b := StepBv(StepBv(a));
    var c := StepBv(StepBv(b));
    assert StepsBv(v, 8) == StepsBv(a, 6);
    assert StepsBv(a, 6) == StepsBv(b, 4);
    assert StepsBv(b, 4) == StepsBv(c, 2);
    assert StepsBv(c, 2) == StepBv(StepBv(c));
  }

  lemma FromFFFFFFCE()
    ensures StepsBv(0xFFFF_FFCE, 8) == 0x7C23_1048
  {
    hide StepsBv;
    EightSteps(0xFFFF_FFCE);
  }

  lemma From7C23107A()
    ensures StepsBv(0x7C23_107A, 8) == 0xB0AC_BB32
  {
    hide StepsBv;
    EightSteps(0x7C23_107A);
  }

  lemma FromB0ACBB01()
    ensures StepsBv(0xB0AC_BB01, 8) == 0x77B7_9C2D
  {
    hide StepsBv;
    EightSteps(0xB0AC_BB01);
  }

  lemma From77B79C19()
    ensures StepsBv(0x77B7_9C19, 8) == 0x641C_1F5C
  {
    hide StepsBv;
    EightSteps(0x77B7_9C19);
  }

  lemma From641C1F69()
    ensures StepsBv(0x641C_1F69, 8) == 0x340A_C5E3
  {
    hide StepsBv;
    EightSteps(0x641C_1F69);
  }

  lemma From340AC5D5()
    ensures StepsBv(0x340A_C5D5, 8) == 0xF68D_2C9E
  {
    hide StepsBv;
    EightSteps(0x340A_C5D5);
  }

  lemma FromF68D2CA9()
    ensures StepsBv(0xF68D_2CA9, 8) == 0xAFFC_9660
  {
    hide StepsBv;
    EightSteps(0xF68D_2CA9);
  }

  lemma FromAFFC9658()
    ensures StepsBv(0xAFFC_9658, 8) == 0x651F_2550
  {
    hide StepsBv;
    EightSteps(0xAFFC_9658);
  }

  lemma From651F2569()
    ensures StepsBv(0x651F_2569, 8) == 0x340B_C6D9
  {
    hide StepsBv;
    EightSteps(0x651F_2569);
  }

  lemma FromFFFFFFFF()
    ensures StepsBv(0xFFFF_FFFF, 8) == 0x2DFD_1072
  {
    hide StepsBv;
    EightSteps(0xFFFF_FFFF);
  }

  lemma From2DFD1072()
    ensures StepsBv(0x2DFD_1072, 8) == 0xBE26_ED00
  {
    hide StepsBv;
    EightSteps(0x2DFD_1072);
  }

  lemma FromBE26ED00()
    ensures StepsBv(0xBE26_ED00, 8) == 0x00BE_26ED
  {
    hide StepsBv;
    EightSteps(0xBE26_ED00);
  }

  lemma From00BE26ED()
    ensures StepsBv(0x00BE_26ED, 8) == 0xDEBB_20E3
  {
    hide StepsBv;
    EightSteps(0x00BE_26ED);
  }

  lemma Digit1()
    ensures Alike(0x31, 0x31, 8) && HeaderGuard.Halves(0x31, 8) == 0
  {}

  lemma Digit2()
    ensures Alike(0x32, 0x32, 8) && HeaderGuard.Halves(0x32, 8) == 0
  {}

  lemma Digit3()
    ensures Alike(0x33, 0x33, 8) && HeaderGuard.Halves(0x33, 8) == 0
  {}

  lemma Digit4()
    ensures Alike(0x34, 0x34, 8) && HeaderGuard.Halves(0x34, 8) == 0
  {}

  lemma Digit5()
    ensures Alike(0x35, 0x35, 8) && HeaderGuard.Halves(0x35, 8) == 0
  {}

  lemma Digit6()
    ensures Alike(0x36, 0x36, 8) && HeaderGuard.Halves(0x36, 8) == 0
  {}

  lemma Digit7()
    ensures Alike(0x37, 0x37, 8) && HeaderGuard.Halves(0x37, 8) == 0
  {}

  lemma Digit8()
    ensures Alike(0x38, 0x38, 8) && HeaderGuard.Halves(0x38, 8) == 0
  {}

  lemma Digit9()
    ensures Alike(0x39, 0x39, 8) && HeaderGuard.Halves(0x39, 8) == 0
  {}

  /** One byte more. */
  lemma OneMore(s: seq<Byte>, v: bv32, b: Byte, x: bv32, y: bv32, u: bv32)
    requires Register(Ones32(), s) == Bv(v)
    requires Alike(b as nat, x, 8) && HeaderGuard.Halves(x, 8) == 0 && Both(v, x) == y && StepsBv(y, 8) == u
    ensures Register(Ones32(), s + [b]) == Bv(u)
  {
    hide *;
    RegisterConcat(Ones32(), s, [b]);
    WordStep(Bv(v), [b]);
    assert [b][1..] == [];
    WordNone(Steps(Xor(Bv(v), Wide(b)), 8));
    SameByte(b, x);
    BvBoth(v, x);
    BvSteps(y, 8);
  }

  lemma Digits1To3(s: seq<Byte>)
    requires Register(Ones32(), s) == Bv(0xFFFF_FFFF)
    ensures Register(Ones32(), s + [0x31] + [0x32] + [0x33]) == Bv(0x77B7_9C2D)
  {
    hide Enc, Register, Ones32, Bv, StepsBv, StepBv, Alike, HeaderGuard.Halves;
    Digit1();
    assert Both(0xFFFF_FFFF, 0x31) == 0xFFFF_FFCE;
    FromFFFFFFCE();
    Digit2();
    assert Both(0x7C23_1048, 0x32) == 0x7C23_107A;
    From7C23107A();
    Digit3();
    assert Both(0xB0AC_BB32, 0x33) == 0xB0AC_BB01;
    FromB0ACBB01();
    OneMore(s, 0xFFFF_FFFF, 0x31, 0x31, 0xFFFF_FFCE, 0x7C23_1048);
    OneMore(s + [0x31], 0x7C23_1048, 0x32, 0x32, 0x7C23_107A, 0xB0AC_BB32);
    OneMore(s + [0x31] + [0x32], 0xB0AC_BB32, 0x33, 0x33, 0xB0AC_BB01, 0x77B7_9C2D);
  }

  lemma Digits4To6(s: seq<Byte>)
    requires Register(Ones32(), s) == Bv(0x77B7_9C2D)
    ensures Register(Ones32(), s + [0x34] + [0x35] + [0x36]) == Bv(0xF68D_2C9E)
  {
    hide Enc, Register, Ones32, Bv, StepsBv, StepBv, Alike, HeaderGuard.Halves;
    Digit4();
    assert Both(0x77B7_9C2D, 0x34) == 0x77B7_9C19;
    From77B79C19();
    Digit5();
    assert Both(0x641C_1F5C, 0x35) == 0x641C_1F69;
    From641C1F69();
    Digit6();
    assert Both(0x340A_C5E3, 0x36) == 0x340A_C5D5;
    From340AC5D5();
    OneMore(s, 0x77B7_9C2D, 0x34, 0x34, 0x77B7_9C19, 0x641C_1F5C);
    OneMore(s + [0x34], 0x641C_1F5C, 0x35, 0x35, 0x641C_1F69, 0x340A_C5E3);
    OneMore(s + [0x34] + [0x35], 0x340A_C5E3, 0x36, 0x36, 0x340A_C5D5, 0xF68D_2C9E);
  }

  lemma Digits7To9(s: seq<Byte>)
    requires Register(Ones32(), s) == Bv(0xF68D_2C9E)
    ensures Register(Ones32(), s + [0x37] + [0x38] + [0x39]) == Bv(0x340B_C6D9)
  {
    hide Enc, Register, Ones32, Bv, StepsBv, StepBv, Alike, HeaderGuard.Halves;
    Digit7();
    assert Both(0xF68D_2C9E, 0x37) == 0xF68D_2CA9;
    FromF68D2CA9();
    Digit8();
    assert Both(0xAFFC_9660, 0x38) == 0xAFFC_9658;
    FromAFFC9658();
    Digit9();
    assert Both(0x651F_2550, 0x39) == 0x651F_2569;
    From651F2569();
    OneMore(s, 0xF68D_2C9E, 0x37, 0x37, 0xF68D_2CA9, 0xAFFC_9660);
    OneMore(s + [0x37], 0xAFFC_9660, 0x38, 0x38, 0xAFFC_9658, 0x651F_2550);
    OneMore(s + [0x37] + [0x38], 0x651F_2550, 0x39, 0x39, 0x651F_2569, 0x340B_C6D9);
  }

  /** The check value by which a CRC-32 is known: that of the digits one to nine. */
  lemma CheckValue()
    ensures Crc([0x31, 0x32, 0x33, 0x34, 0x35, 0x36, 0x37, 0x38, 0x39]) == Enc(0xCBF4_3926, 32)
  {
    hide *;
    AllOnes();
    WordNone(Ones32());
    Digits1To3([]);
    var s: seq<Byte> := [0x31, 0x32, 0x33];
    assert [] + [0x31] + [0x32] + [0x33] == s;
    Digits4To6(s);
    Digits7To9(s + [0x34] + [0x35] + [0x36]);
    var t: seq<Byte> := [0x31, 0x32, 0x33, 0x34, 0x35, 0x36, 0x37, 0x38, 0x39];
    assert s + [0x34] + [0x35] + [0x36] + [0x37] + [0x38] + [0x39] == t;
    CrcIs(t);
    BvBoth(0x340B_C6D9, 0xFFFF_FFFF);
    assert Both(0x340B_C6D9, 0xFFFF_FFFF) == 0xCBF4_3926 by { BothIs(); }
    CheckWord();
  }

  lemma BothIs()
    ensures Both(0x340B_C6D9, 0xFFFF_FFFF) == 0xCBF4_3926
  {}

  /** All ones, after four bytes. */
  lemma OnesGo()
    ensures Steps(Bv(0xFFFF_FFFF), 32) == Bv(0xDEBB_20E3)
  {
    hide Bv, Steps, StepsBv, StepBv;
    FromFFFFFFFF();
    From2DFD1072();
    FromBE26ED00();
    From00BE26ED();
    BvSteps(0xFFFF_FFFF, 8);
    BvSteps(0x2DFD_1072, 8);
    BvSteps(0xBE26_ED00, 8);
    BvSteps(0x00BE_26ED, 8);
    StepsPlus(Bv(0xFFFF_FFFF), 8, 24);
    StepsPlus(Bv(0x2DFD_1072), 8, 16);
    StepsPlus(Bv(0xBE26_ED00), 8, 8);
  }

  lemma PlaceFirst(w: seq<Byte>)
    requires 1 <= |w| <= 4
    ensures Place(w) == Place(w[1..])[8..] + Enc(w[0] as nat, 8)
  {}

  lemma PlaceFour(w: seq<Byte>)
    requires |w| == 4
    ensures Place(w) == Enc(w[3] as nat, 8) + Enc(w[2] as nat, 8) + Enc(w[1] as nat, 8) + Enc(w[0] as nat, 8)
  {
    hide Enc, Crc32.Zeros, Place;
    var b0, b1, b2, b3 := Enc(w[0] as nat, 8), Enc(w[1] as nat, 8), Enc(w[2] as nat, 8), Enc(w[3] as nat, 8);
    PlaceFirst(w);
    PlaceFirst(w[1..]);
    PlaceFirst(w[1..][1..]);
    PlaceFirst(w[1..][1..][1..]);
    assert Place(w[1..][1..][1..])[24..] == b3;
    assert Place(w[1..][1..])[16..] == b3 + b2;
    assert Place(w[1..])[8..] == b3 + b2 + b1;
  }

  /** Whatever the message: with its check behind it, the lowest byte first, the register always ends the same. */
  lemma Residue(s: seq<Byte>, w: seq<Byte>)
    requires |w| == 4
    requires Enc(w[3] as nat, 8) + Enc(w[2] as nat, 8) + Enc(w[1] as nat, 8) + Enc(w[0] as nat, 8) == Crc(s)
    ensures Register(Enc(0xFFFF_FFFF, 32), s + w) == Enc(0xDEBB_20E3, 32)
  {
    hide Enc, Xor, Steps, Register, Bv, Crc, Place;
    var one := Ones32();
    var c := Register(one, s);
    RegisterConcat(one, s, w);
    RegisterWord(c, w);
    PlaceFour(w);
    CrcIs(s);
    XorTwice(c, one);
    AllOnes();
    OnesGo();
    ResidueWord();
  }

  lemma XorTwice(c: Word, d: Word)
    ensures Xor(c, Xor(c, d)) == d
  {
    hide Xor;
    forall i: nat | i < 32 ensures Xor(c, Xor(c, d))[i] == d[i] {
      XorAt(c, Xor(c, d), i);
      XorAt(c, d, i);
    }
    Crc32.Same(Xor(c, Xor(c, d)), d);
  }
}

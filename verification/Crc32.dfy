/** The check of the stream header: table-driven loop, bitwise register, and the corruptions it cannot miss. */
module Crc32 {
  // Registers are 32-bit strings, most significant bit first.

  import opened BitStrings

  type Word = c: Bits | |c| == 32 witness Enc(0, 32)

  // ----- exclusive or -----

  function Xor(a: Bits, b: Bits): (c: Bits)
    requires |a| == |b|
    ensures |c| == |a|
  {
    if a == [] then [] else Xor(a[..|a| - 1], b[..|b| - 1]) + [a[|a| - 1] != b[|b| - 1]]
  }

  lemma {:induction false} XorAt(a: Bits, b: Bits, i: nat)
    requires |a| == |b| && i < |a|
    ensures Xor(a, b)[i] == (a[i] != b[i])
  {
    if i < |a| - 1 { XorAt(a[..|a| - 1], b[..|b| - 1], i); }
  }

  lemma Same(a: Bits, b: Bits)
    requires |a| == |b| && forall i :: 0 <= i < |a| ==> a[i] == b[i]
    ensures a == b
  {}

  lemma XorCancel(c: Bits, a: Bits, b: Bits)
    requires |c| == |a| == |b| && Xor(c, a) == Xor(c, b)
    ensures a == b
  {
    hide Xor;
    forall i | 0 <= i < |a| ensures a[i] == b[i] {
      XorAt(c, a, i);
      XorAt(c, b, i);
    }
  }

  lemma XorAssoc(a: Bits, b: Bits, c: Bits)
    requires |a| == |b| == |c|
    ensures Xor(Xor(a, b), c) == Xor(a, Xor(b, c))
  {
    hide Xor;
    var x, y := Xor(Xor(a, b), c), Xor(a, Xor(b, c));
    forall i | 0 <= i < |a| ensures x[i] == y[i] {
      XorAt(a, b, i);
      XorAt(b, c, i);
      XorAt(Xor(a, b), c, i);
      XorAt(a, Xor(b, c), i);
    }
    Same(x, y);
  }

  lemma XorComm(a: Bits, b: Bits)
    requires |a| == |b|
    ensures Xor(a, b) == Xor(b, a)
  {
    hide Xor;
    forall i | 0 <= i < |a| ensures Xor(a, b)[i] == Xor(b, a)[i] {
      XorAt(a, b, i);
      XorAt(b, a, i);
    }
    Same(Xor(a, b), Xor(b, a));
  }

  // ----- the register -----

  /** 0xEDB88320. */
  function Poly(): Word { Enc(0xEDB8_8320, 32) }

  function Down(c: Word): Word { [false] + c[..31] }

  /** One bit through the register. */
  function Step(c: Word): Word { if c[31] then Xor(Poly(), Down(c)) else Down(c) }

  function Steps(c: Word, n: nat): Word
    decreases n
  {
    if n == 0 then c else Steps(Step(c), n - 1)
  }

  function Zeros(n: nat): (z: Bits)
    ensures |z| == n && forall i :: 0 <= i < n ==> !z[i]
  {
    if n == 0 then [] else Zeros(n - 1) + [false]
  }

  /** A byte as a word. */
  function Wide(b: Byte): Word { Zeros(24) + Enc(b as nat, 8) }

  /** The register after a message, bit by bit. */
  function Register(c: Word, s: seq<Byte>): Word
    decreases |s|
  {
    if s == [] then c else Register(Steps(Xor(c, Wide(s[0])), 8), s[1..])
  }

  function Ones32(): Word { Enc(0xFFFF_FFFF, 32) }

  function Crc(s: seq<Byte>): Word { Xor(Register(Ones32(), s), Ones32()) }

  lemma PolyTop()
    ensures Poly()[0]
  {
    hide Enc, Val, Low, Pow2;
    var p: nat := 0xEDB8_8320;
    ValEnc(p, 32);
    Pow2Facts();
    LowId(p, 32);
    LeadingVal(Enc(p, 32));
    TopPow();
  }

  lemma TopPow()
    ensures Pow2(32 - 1) == 0x8000_0000
  {
    hide Pow2;
    Pow2Facts();
    assert Pow2(32) == 2 * Pow2(31) by { TwicePow(31); }
  }

  lemma TwicePow(n: nat)
    ensures Pow2(n + 1) == 2 * Pow2(n)
  {}

  lemma StepAt(c: Word, i: nat)
    requires i < 32
    ensures Step(c)[i] == ((i > 0 && c[i - 1]) != (c[31] && Poly()[i]))
  {
    hide Xor, Poly;
    XorAt(Poly(), Down(c), i);
  }

  /** The register is linear. */
  lemma StepXor(x: Word, y: Word)
    ensures Step(Xor(x, y)) == Xor(Step(x), Step(y))
  {
    hide Xor, Step, Poly;
    var a, b := Step(Xor(x, y)), Xor(Step(x), Step(y));
    XorAt(x, y, 31);
    forall i | 0 <= i < 32 ensures a[i] == b[i] {
      StepAt(Xor(x, y), i);
      StepAt(x, i);
      StepAt(y, i);
      XorAt(Step(x), Step(y), i);
      if i > 0 { XorAt(x, y, i - 1); }
    }
    Same(a, b);
  }

  /** And it loses nothing: the polynomial's top bit says whether it was added. */
  lemma StepInjective(x: Word, y: Word)
    requires Step(x) == Step(y)
    ensures x == y
  {
    hide Step, Poly;
    PolyTop();
    StepAt(x, 0);
    StepAt(y, 0);
    assert x[31] == y[31];
    forall i | 0 <= i < 31 ensures x[i] == y[i] {
      StepAt(x, i + 1);
      StepAt(y, i + 1);
    }
    Same(x, y);
  }

  lemma {:induction false} StepsXor(x: Word, y: Word, n: nat)
    ensures Steps(Xor(x, y), n) == Xor(Steps(x, n), Steps(y, n))
    decreases n
  {
    hide Step, Xor;
    if n > 0 {
      StepXor(x, y);
      StepsXor(Step(x), Step(y), n - 1);
    }
  }

  lemma {:induction false} StepsInjective(x: Word, y: Word, n: nat)
    requires Steps(x, n) == Steps(y, n)
    ensures x == y
    decreases n
  {
    hide Step;
    if n > 0 {
      StepsInjective(Step(x), Step(y), n - 1);
      StepInjective(x, y);
    }
  }

  lemma {:induction false} StepsPlus(c: Word, m: nat, n: nat)
    ensures Steps(c, m + n) == Steps(Steps(c, m), n)
    decreases m
  {
    hide Step;
    if m > 0 { StepsPlus(Step(c), m - 1, n); }
  }

  lemma StepsFirst(c: Word, n: nat)
    requires n > 0
    ensures Steps(c, n) == Steps(Step(c), n - 1)
  {
    hide Step;
  }

  lemma StepDown(c: Word)
    requires !c[31]
    ensures Step(c) == Down(c) && forall i :: 1 <= i < 32 ==> Down(c)[i] == c[i - 1]
  {
    hide Xor, Poly;
  }

  lemma DownMore(c: Word, k: nat)
    requires 1 <= k <= 32
    ensures Zeros(k - 1) + Down(c)[..33 - k] == Zeros(k) + c[..32 - k]
  {
    assert Zeros(k) == Zeros(k - 1) + [false];
    assert Down(c)[..33 - k] == [false] + c[..32 - k];
    hide Zeros, Down;
    Assoc(Zeros(k - 1), [false], c[..32 - k]);
  }

  lemma NoneClear(c: Word)
    ensures Steps(c, 0) == Zeros(0) + c[..32]
  {
    assert c[..32] == c && Zeros(0) == [];
  }

  /** While the low bits are clear the register only moves down. */
  lemma {:induction false} LowClear(c: Word, k: nat)
    requires k <= 32 && forall i :: 32 - k <= i < 32 ==> !c[i]
    ensures Steps(c, k) == Zeros(k) + c[..32 - k]
    decreases k
  {
    hide *;
    if k == 0 {
      NoneClear(c);
    } else {
      StepsFirst(c, k);
      StepDown(c);
      LowClear(Down(c), k - 1);
      DownMore(c, k);
    }
  }

  // ----- the table -----

  function LowByte(c: Word): Word { Zeros(24) + c[24..] }
  function HighBytes(c: Word): Word { c[..24] + Zeros(8) }

  lemma Parts(c: Word)
    ensures c == Xor(LowByte(c), HighBytes(c))
  {
    hide Xor, Zeros;
    var x := Xor(LowByte(c), HighBytes(c));
    forall i | 0 <= i < 32 ensures c[i] == x[i] { XorAt(LowByte(c), HighBytes(c), i); }
    Same(c, x);
  }

  /** A look-up of the low byte, added to the rest moved down, is eight steps. */
  lemma TableStep(c: Word)
    ensures Steps(c, 8) == Xor(Steps(LowByte(c), 8), Zeros(8) + c[..24])
  {
    hide Xor, Zeros, Steps;
    Parts(c);
    StepsXor(LowByte(c), HighBytes(c), 8);
    LowClear(HighBytes(c), 8);
    assert HighBytes(c)[..24] == c[..24];
  }

  lemma LowByteIs(c: Word)
    ensures Val(c[24..]) < 256 && LowByte(c) == Wide(Val(c[24..]) as Byte)
  {
    hide Enc, Val, Zeros;
    Pow2Facts();
    EncVal(c[24..]);
  }

  /** `make_crc_table`. */
  method MakeCrcTable() returns (table: seq<Bits>)
    ensures |table| == 256 && forall n :: 0 <= n < 256 ==> table[n] == Steps(Wide(n as Byte), 8)
  {
    hide Step, Xor, Zeros, Enc;
    table := [];
    var n := 0;
    while n < 256
      invariant 0 <= n <= 256 == 256 && |table| == n
      invariant forall m :: 0 <= m < n ==> table[m] == Steps(Wide(m as Byte), 8)
    {
      var c: Word := Wide(n as Byte);
      var k := 8;
      while k > 0
        invariant 0 <= k <= 8 && Steps(c, k) == Steps(Wide(n as Byte), 8)
      {
        StepBranches(c);
        if c[31] {
          c := Xor(Poly(), Down(c));
        } else {
          c := Down(c);
        }
        k := k - 1;
      }
      table := table + [c];
      n := n + 1;
    }
  }

  lemma StepBranches(c: Word)
    ensures Step(c) == if c[31] then Xor(Poly(), Down(c)) else Down(c)
  {}

  /** `update_crc`. */
  method UpdateCrc(table: seq<Bits>, crc: Word, buf: seq<Byte>) returns (c: Word)
    requires |table| == 256 && forall n :: 0 <= n < 256 ==> table[n] == Steps(Wide(n as Byte), 8)
    ensures c == Register(crc, buf)
  {
    hide *;
    c := crc;
    var n := 0;
    FromStart(buf);
    while n < |buf|
      invariant 0 <= n <= |buf| && Register(c, buf[n..]) == Register(crc, buf)
    {
      RegisterStep(c, buf, n);
      ghost var was := Xor(c, Wide(buf[n]));
      LowByteIs(was);
      TableStep(was);
      HighSame(c, buf[n]);
      var x := Xor(c, Wide(buf[n]));
      c := Xor(table[Val(x[24..])], Zeros(8) + c[..24]);
      n := n + 1;
    }
    RegisterDone(c, buf);
  }

  lemma FromStart(s: seq<Byte>)
    ensures s[0..] == s
  {}

  lemma RegisterStep(c: Word, s: seq<Byte>, n: nat)
    requires n < |s|
    ensures Register(c, s[n..]) == Register(Steps(Xor(c, Wide(s[n])), 8), s[n + 1..])
  {
    hide Steps, Xor, Wide;
    assert s[n..][1..] == s[n + 1..];
  }

  lemma RegisterDone(c: Word, s: seq<Byte>)
    ensures Register(c, s[|s|..]) == c
  {}

  /** The byte that comes in does not touch the high bits. */
  lemma HighSame(c: Word, b: Byte)
    ensures Xor(c, Wide(b))[..24] == c[..24]
  {
    hide Xor, Zeros, Enc;
    forall i | 0 <= i < 24 ensures Xor(c, Wide(b))[i] == c[i] { XorAt(c, Wide(b), i); }
  }

  // ----- what it detects -----

  lemma {:induction false} RegisterConcat(c: Word, a: seq<Byte>, b: seq<Byte>)
    ensures Register(c, a + b) == Register(Register(c, a), b)
    decreases |a|
  {
    hide Steps, Xor, Wide;
    if a == [] {
      assert a + b == b;
    } else {
      assert (a + b)[1..] == a[1..] + b;
      RegisterConcat(Steps(Xor(c, Wide(a[0])), 8), a[1..], b);
    }
  }

  /** Different registers stay different through the same bytes. */
  lemma {:induction false} RegisterInjective(c: Word, d: Word, s: seq<Byte>)
    requires Register(c, s) == Register(d, s)
    ensures c == d
    decreases |s|
  {
    hide Steps, Xor, Wide;
    if s != [] {
      var w := Wide(s[0]);
      RegisterInjective(Steps(Xor(c, w), 8), Steps(Xor(d, w), 8), s[1..]);
      StepsInjective(Xor(c, w), Xor(d, w), 8);
      XorComm(c, w);
      XorComm(d, w);
      XorCancel(w, c, d);
    }
  }

  /** Up to four bytes as one word, the first in the lowest place. */
  function Place(w: seq<Byte>): (p: Word)
    requires |w| <= 4
    ensures forall i :: 0 <= i < 32 - 8 * |w| ==> !p[i]
  {
    if w == [] then Zeros(32) else Place(w[1..])[8..] + Enc(w[0] as nat, 8)
  }

  lemma PlaceParts(w: seq<Byte>)
    requires 1 <= |w| <= 4
    ensures Place(w) == Xor(Wide(w[0]), Place(w[1..])[8..] + Zeros(8))
  {
    hide Xor, Zeros, Enc;
    var p, x := Place(w), Xor(Wide(w[0]), Place(w[1..])[8..] + Zeros(8));
    forall i | 0 <= i < 32 ensures p[i] == x[i] { XorAt(Wide(w[0]), Place(w[1..])[8..] + Zeros(8), i); }
    Same(p, x);
  }

  /** Four bytes go through the register as one word would. */
  lemma {:induction false} RegisterWord(c: Word, w: seq<Byte>)
    requires |w| <= 4
    ensures Register(c, w) == Steps(Xor(c, Place(w)), 8 * |w|)
    decreases |w|
  {
    hide *;
    if w == [] {
      XorNothing(c);
      WordNone(c);
    } else {
      var b, q := Wide(w[0]), Place(w[1..]);
      var up := q[8..] + Zeros(8);
      WordStep(c, w);
      PlaceParts(w);
      XorAssoc(c, b, up);
      StepsXor(Xor(c, b), up, 8);
      PlaceUp(w);
      RegisterWord(Steps(Xor(c, b), 8), w[1..]);
      StepsPlus(Xor(c, Place(w)), 8, 8 * |w[1..]|);
    }
  }

  lemma WordNone(c: Word)
    ensures Register(c, []) == c && Steps(c, 0) == c && Place([]) == Zeros(32)
  {}

  lemma WordStep(c: Word, w: seq<Byte>)
    requires w != []
    ensures Register(c, w) == Register(Steps(Xor(c, Wide(w[0])), 8), w[1..])
  {
    hide Steps, Xor, Wide;
  }

  /** Moving all but the first byte down by a byte. */
  lemma PlaceUp(w: seq<Byte>)
    requires 1 <= |w| <= 4
    ensures Steps(Place(w[1..])[8..] + Zeros(8), 8) == Place(w[1..])
  {
    hide Steps, Enc, Place;
    var q := Place(w[1..]);
    var up := q[8..] + Zeros(8);
    LowClear(up, 8);
    assert up[..24] == q[8..];
    TopZeros(q);
  }

  lemma TopZeros(q: Word)
    requires forall i :: 0 <= i < 8 ==> !q[i]
    ensures Zeros(8) + q[8..] == q
  {
    hide Zeros;
    Same(Zeros(8) + q[8..], q);
  }

  lemma XorNothing(c: Word)
    ensures Xor(c, Place([])) == c
  {
    hide Xor, Zeros;
    forall i | 0 <= i < 32 ensures Xor(c, Zeros(32))[i] == c[i] { XorAt(c, Zeros(32), i); }
    Same(Xor(c, Zeros(32)), c);
  }

  lemma {:induction false} PlaceInjective(v: seq<Byte>, w: seq<Byte>)
    requires |v| == |w| <= 4 && Place(v) == Place(w)
    ensures v == w
  {
    hide Enc, Zeros;
    if v != [] {
      var p, q := Place(v[1..]), Place(w[1..]);
      TakePrefix(p[8..], Enc(v[0] as nat, 8));
      TakePrefix(q[8..], Enc(w[0] as nat, 8));
      Pow2Facts();
      EncInjective(v[0] as nat, w[0] as nat, 8);
      TopZeros(p);
      TopZeros(q);
      PlaceInjective(v[1..], w[1..]);
      assert v == [v[0]] + v[1..] && w == [w[0]] + w[1..];
    }
  }

  lemma Three(s: seq<Byte>, i: nat, j: nat)
    requires i <= j <= |s|
    ensures s == s[..i] + (s[i..j] + s[j..])
  {}

  /** Any change confined to four consecutive bytes changes the checksum. */
  lemma BurstDetected(a: seq<Byte>, b: seq<Byte>, i: nat, j: nat)
    requires |a| == |b| && i <= j <= |a| && j - i <= 4 && a[..i] == b[..i] && a[j..] == b[j..] && a != b
    ensures Crc(a) != Crc(b)
  {
    hide *;
    CrcIs(a);
    CrcIs(b);
    if Crc(a) == Crc(b) {
      var x, y := Register(Ones32(), a), Register(Ones32(), b);
      XorComm(x, Ones32());
      XorComm(y, Ones32());
      XorCancel(Ones32(), x, y);
      var h, t, v, w := a[..i], a[j..], a[i..j], b[i..j];
      Three(a, i, j);
      Three(b, i, j);
      var c := Register(Ones32(), h);
      RegisterConcat(Ones32(), h, v + t);
      RegisterConcat(Ones32(), h, w + t);
      RegisterConcat(c, v, t);
      RegisterConcat(c, w, t);
      RegisterInjective(Register(c, v), Register(c, w), t);
      RegisterWord(c, v);
      RegisterWord(c, w);
      StepsInjective(Xor(c, Place(v)), Xor(c, Place(w)), 8 * |v|);
      XorCancel(c, Place(v), Place(w));
      PlaceInjective(v, w);
      assert false;
    }
  }

  lemma CrcIs(s: seq<Byte>)
    ensures Crc(s) == Xor(Register(Ones32(), s), Ones32())
  {
    hide Xor, Register, Ones32;
  }

  // ----- the header block -----

  /** The bytes `writeBlock` adds in front of a checked block's content. */
  function Checked(data: seq<Byte>): Bits { Crc(data) + BytesToBits(data) }

  /** The test at the start of `streaminfo_read_header_sv8`. */
  predicate Accepts(block: seq<Byte>)
  {
    |block| >= 4 && BytesToBits(block[..4]) == Crc(block[4..])
  }

  lemma Framed(block: seq<Byte>, data: seq<Byte>)
    requires BytesToBits(block) == Checked(data)
    ensures Accepts(block) && block[4..] == data
  {
    hide Crc, BytesToBits;
    assert |block| == |data| + 4;
    BytesSlice(block, 0, 4);
    BytesSlice(block, 4, |block|);
    assert block[0..4] == block[..4] && block[4..|block|] == block[4..];
    TakePrefix(Crc(data), BytesToBits(data));
    assert BytesToBits(block[..4]) == Crc(data);
    BytesUnique(block[4..], data);
  }

  lemma ContentCheck(block: seq<Byte>, data: seq<Byte>, bad: seq<Byte>, i: nat, j: nat)
    requires BytesToBits(block) == Checked(data) && |bad| == |block|
    requires 4 <= i <= j <= |block| && j - i <= 4 && bad[..i] == block[..i] && bad[j..] == block[j..] && bad != block
    ensures Accepts(block) && block[4..] == data && !Accepts(bad)
  {
    hide Crc, BytesToBits;
    Framed(block, data);
    var a, b := block[4..], bad[4..];
    assert a[..i - 4] == block[..i][4..] && b[..i - 4] == bad[..i][4..];
    assert a[j - 4..] == block[j..] && b[j - 4..] == bad[j..];
    assert bad[..4] == bad[..i][..4] == block[..i][..4] == block[..4];
    assert block == block[..4] + a && bad == bad[..4] + b;
    BurstDetected(a, b, i - 4, j - 4);
  }

  lemma StoredCheck(block: seq<Byte>, bad: seq<Byte>)
    requires Accepts(block) && |bad| == |block| && bad[4..] == block[4..] && bad[..4] != block[..4]
    ensures !Accepts(bad)
  {
    hide Crc, BytesToBits;
    if Accepts(bad) { BytesUnique(bad[..4], block[..4]); }
  }

  /** What was framed is accepted; with up to four consecutive bytes changed, of the content or of the stored
      check, it is not. */
  lemma HeaderCheck(block: seq<Byte>, data: seq<Byte>, bad: seq<Byte>, i: nat, j: nat)
    requires BytesToBits(block) == Checked(data) && |bad| == |block| && bad != block
    requires i <= j <= |block| && j - i <= 4 && bad[..i] == block[..i] && bad[j..] == block[j..]
    requires j <= 4 || 4 <= i
    ensures Accepts(block) && block[4..] == data && !Accepts(bad)
  {
    hide Crc, BytesToBits, Accepts;
    if 4 <= i {
      ContentCheck(block, data, bad, i, j);
    } else {
      Framed(block, data);
      assert bad[4..] == bad[j..][4 - j..] && block[4..] == block[j..][4 - j..];
      assert bad == bad[..4] + bad[4..] && block == block[..4] + block[4..];
      StoredCheck(block, bad);
    }
  }
}

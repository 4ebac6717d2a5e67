/** Huffman decoding: a descending table scanned linearly, and the lookup table that short-cuts the scan. */
module CanonicalHuffman {
  import opened BitStrings
  import opened BitReading
  import opened Integers

  /** One `mpc_huffman` entry: the left-justified first code of a group, its length, and a value. */
  datatype Entry = Entry(code: nat, length: nat, value: int)

  /** One lookup entry; length 0 sends the decoder on to the scan, from entry `value`. */
  datatype Lut = Lut(length: nat, value: int)

  type Table = seq<Entry>

  /** Storing an `int` in an `mpc_int8_t`, and reading it back as an `unsigned char`. */
  function Int8(v: int): (r: int)
    ensures -128 <= r < 128 && (v - r) % 256 == 0
  {
    (v + 128) % 256 - 128
  }
  function UChar(v: int): nat { v % 256 }

  lemma UCharInt8(v: nat)
    requires v < 256
    ensures UChar(Int8(v)) == v
  {}

  /** Strictly descending, ending at zero, every code left-justified in 16 bits. */
  ghost predicate WellFormed(table: Table)
  {
    && 0 < |table| <= 256 && table[|table| - 1].code == 0
    && (forall j, k :: 0 <= j < k < |table| ==> table[k].code < table[j].code)
    && forall j :: 0 <= j < |table| ==>
      && 1 <= table[j].length <= 16 && table[j].code < 0x1_0000
      && Low(table[j].code, 16 - table[j].length) == 0
  }

  /** `while (code < Table->Code) Table++`. */
  function Scan(table: Table, j: nat, w: nat): (k: nat)
    requires j < |table| && table[|table| - 1].code == 0
    ensures j <= k < |table| && table[k].code <= w
    ensures forall i :: j <= i < k ==> table[i].code > w
    decreases |table| - j
  {
    if table[j].code <= w then j else Scan(table, j + 1, w)
  }

  /** The symbol index of a canonical group. */
  function SymIndex(e: Entry, w: nat): nat
    requires e.length <= 16
  {
    UChar(e.value - Shr(w, 16 - e.length))
  }

  ghost predicate SymsReach(table: Table, sym: seq<int>)
    requires WellFormed(table)
  {
    forall w: nat :: w < 0x1_0000 ==> SymIndex(table[Scan(table, 0, w)], w) < |sym|
  }

  /** What the plain scan yields on a 16-bit window: length and value. */
  function PlainScan(table: Table, w: nat): (nat, int)
    requires WellFormed(table)
  {
    var e := table[Scan(table, 0, w)];
    (e.length, e.value)
  }

  /** The same in canonical form, where the value selects a symbol. */
  function CanScan(table: Table, sym: seq<int>, w: nat): (nat, int)
    requires WellFormed(table) && SymsReach(table, sym) && w < 0x1_0000
  {
    var e := table[Scan(table, 0, w)];
    (e.length, sym[SymIndex(e, w)])
  }

  lemma {:induction false} ShrMono(v: nat, w: nat, n: nat)
    requires v <= w
    ensures Shr(v, n) <= Shr(w, n)
  {
    if n != 0 { ShrMono(v / 2, w / 2, n - 1); }
  }

  lemma {:induction false} ShrShr(v: nat, a: nat, b: nat)
    ensures Shr(Shr(v, a), b) == Shr(v, a + b)
  {
    if a != 0 { ShrShr(v / 2, a - 1, b); }
  }

  /** An entry no longer than the lookup depth starts exactly at its prefix. */
  lemma ShortStartsAtPrefix(e: Entry, bits: nat)
    requires 1 <= e.length <= bits <= 16 && Low(e.code, 16 - e.length) == 0
    ensures e.code == Shl(Shr(e.code, 16 - bits), 16 - bits)
  {
    hide Low, Shl, Shr;
    LowLow(e.code, 16 - e.length, 16 - bits);
    LowOfZero(16 - bits);
    Recompose(e.code, 16 - bits);
  }

  lemma {:induction false} LowOfZero(n: nat)
    ensures Low(0, n) == 0
  {
    if n != 0 { LowOfZero(n - 1); }
  }

  /** Entry `j` is where prefix `i` of depth `bits` begins: everything before lies above the prefix. */
  ghost predicate StartsAt(table: Table, bits: nat, i: nat, j: nat)
    requires bits <= 16
  {
    && j < |table| && Shr(table[j].code, 16 - bits) <= i
    && forall k :: 0 <= k < j ==> Shr(table[k].code, 16 - bits) > i
  }

  /** Starting the scan there changes nothing, and unless the entry begins inside the prefix the scan
      stops at once. */
  lemma ScanFromPrefix(table: Table, bits: nat, i: nat, j: nat, w: nat)
    requires WellFormed(table) && bits <= 16 && StartsAt(table, bits, i, j) && Shr(w, 16 - bits) == i
    ensures Scan(table, j, w) == Scan(table, 0, w)
    ensures Shr(table[j].code, 16 - bits) < i || table[j].length <= bits ==> Scan(table, 0, w) == j
  {
    hide Shr, Low;
    var n := 16 - bits;
    forall k | 0 <= k < j ensures table[k].code > w {
      if table[k].code <= w { ShrMono(table[k].code, w, n); }
    }
    var f := Scan(table, 0, w);
    assert f >= j;
    var g := Scan(table, j, w);
    if Shr(table[j].code, n) < i {
      if table[j].code > w { ShrMono(w, table[j].code, n); }
    } else if table[j].length <= bits {
      ShortStartsAtPrefix(table[j], bits);
      Recompose(w, n);
    }
  }

  // ----- filling the lookup tables -----

  /** What `huff_fill_lut` stores for prefix `i`, which begins in entry `j`. */
  function PlainFill(table: Table, bits: nat, i: nat, j: nat): Lut
    requires bits <= 16 && j < |table|
  {
    if Shr(table[j].code, 16 - bits) < i || table[j].length <= bits then Lut(table[j].length, table[j].value)
    else Lut(0, Int8(j))
  }

  /** What `can_fill_lut` stores. */
  function CanFill(table: Table, sym: seq<int>, bits: nat, i: nat, j: nat): Lut
    requires bits <= 16 && j < |table|
    requires table[j].length <= bits ==> UChar(table[j].value - Shr(i, bits - table[j].length)) < |sym|
  {
    if table[j].length <= bits
    then Lut(table[j].length, sym[UChar(table[j].value - Shr(i, bits - table[j].length))])
    else Lut(0, Int8(j))
  }

  /** Decoding through an entry: a direct hit, or the scan from where the entry points. */
  function PlainLook(table: Table, l: Lut, w: nat): (nat, int)
    requires WellFormed(table) && (l.length == 0 ==> UChar(l.value) < |table|)
  {
    if l.length != 0 then (l.length, l.value)
    else var e := table[Scan(table, UChar(l.value), w)]; (e.length, e.value)
  }

  function CanLook(table: Table, sym: seq<int>, l: Lut, w: nat): (nat, int)
    requires WellFormed(table) && (l.length == 0 ==> UChar(l.value) < |table|)
    requires l.length == 0 ==> SymIndex(table[Scan(table, UChar(l.value), w)], w) < |sym|
  {
    if l.length != 0 then (l.length, l.value)
    else var e := table[Scan(table, UChar(l.value), w)]; (e.length, sym[SymIndex(e, w)])
  }

  /** Through a filled plain table, every window decodes as by the scan. */
  lemma PlainLutAgrees(table: Table, bits: nat, j: nat, w: nat)
    requires WellFormed(table) && bits <= 16 && w < 0x1_0000 && StartsAt(table, bits, Shr(w, 16 - bits), j)
    ensures var l := PlainFill(table, bits, Shr(w, 16 - bits), j);
            (l.length == 0 ==> UChar(l.value) < |table|) && PlainLook(table, l, w) == PlainScan(table, w)
  {
    hide Shr, Low, UChar, Int8;
    ScanFromPrefix(table, bits, Shr(w, 16 - bits), j, w);
    UCharInt8(j);
  }

  /** Inside a short group, the prefix alone selects the symbol. */
  lemma ShortGroup(table: Table, sym: seq<int>, bits: nat, j: nat, w: nat)
    requires WellFormed(table) && SymsReach(table, sym) && bits <= 16 && w < 0x1_0000
    requires StartsAt(table, bits, Shr(w, 16 - bits), j) && table[j].length <= bits
    ensures UChar(table[j].value - Shr(Shr(w, 16 - bits), bits - table[j].length)) == SymIndex(table[j], w)
    ensures SymIndex(table[j], w) < |sym| && Scan(table, 0, w) == j
  {
    hide Shr, Low, UChar;
    ScanFromPrefix(table, bits, Shr(w, 16 - bits), j, w);
    ShrShr(w, 16 - bits, bits - table[j].length);
  }

  /** Through a filled canonical table, every window decodes as by the scan. */
  lemma CanLutAgrees(table: Table, sym: seq<int>, bits: nat, j: nat, w: nat)
    requires WellFormed(table) && SymsReach(table, sym) && bits <= 16 && w < 0x1_0000
    requires StartsAt(table, bits, Shr(w, 16 - bits), j)
    ensures table[j].length <= bits ==>
              UChar(table[j].value - Shr(Shr(w, 16 - bits), bits - table[j].length)) < |sym|
    ensures var l := CanFill(table, sym, bits, Shr(w, 16 - bits), j);
            && (l.length == 0 ==> UChar(l.value) < |table|)
            && (l.length == 0 ==> SymIndex(table[Scan(table, UChar(l.value), w)], w) < |sym|)
            && CanLook(table, sym, l, w) == CanScan(table, sym, w)
  {
    hide Shr, Low, UChar, Int8, SymIndex;
    if table[j].length <= bits {
      ShortGroup(table, sym, bits, j, w);
    } else {
      ScanFromPrefix(table, bits, Shr(w, 16 - bits), j, w);
      UCharInt8(j);
    }
  }

  /** A table that was never filled, all zeros, only loses the short cut: the scan runs from the top. */
  lemma UnfilledLutAgrees(table: Table, sym: seq<int>, w: nat)
    requires WellFormed(table) && SymsReach(table, sym) && w < 0x1_0000
    ensures CanLook(table, sym, Lut(0, 0), w) == CanScan(table, sym, w)
  {}

  // ----- the fill loops -----

  ghost predicate PlainFilled(table: Table, bits: nat, i: nat, l: Lut)
    requires bits <= 16
  {
    exists j: nat :: StartsAt(table, bits, i, j) && l == PlainFill(table, bits, i, j)
  }

  ghost predicate CanFilled(table: Table, sym: seq<int>, bits: nat, i: nat, l: Lut)
    requires bits <= 16
  {
    exists j: nat :: StartsAt(table, bits, i, j)
      && (table[j].length <= bits ==> UChar(table[j].value - Shr(i, bits - table[j].length)) < |sym|)
      && l == CanFill(table, sym, bits, i, j)
  }

  lemma NextPrefix(table: Table, bits: nat, i: nat, j: nat)
    requires WellFormed(table) && bits <= 16 && i >= 1 && StartsAt(table, bits, i, j)
    ensures Shr(table[j].code, 16 - bits) < i ==> StartsAt(table, bits, i - 1, j)
    ensures Shr(table[j].code, 16 - bits) == i ==> j + 1 < |table|
  {
    hide Shr;
    if Shr(table[j].code, 16 - bits) == i { ShrZero(16 - bits); }
  }

  /** `do idx++; while ((table[idx].Code >> shift) == i)`: past every entry that begins in prefix `i`. */
  method SkipPrefix(table: Table, bits: nat, i: nat, j: nat) returns (idx: nat)
    requires WellFormed(table) && bits <= 16 && i >= 1 && StartsAt(table, bits, i, j)
    requires Shr(table[j].code, 16 - bits) == i
    ensures StartsAt(table, bits, i - 1, idx)
  {
    hide Shr;
    NextPrefix(table, bits, i, j);
    idx := j + 1;
    ShrMono(table[idx].code, table[j].code, 16 - bits);
    while Shr(table[idx].code, 16 - bits) == i
      invariant j < idx < |table| && Shr(table[idx].code, 16 - bits) <= i
      invariant forall k :: 0 <= k < idx ==> Shr(table[k].code, 16 - bits) >= i
      decreases |table| - idx
    {
      ShrZero(16 - bits);
      idx := idx + 1;
      ShrMono(table[idx].code, table[idx - 1].code, 16 - bits);
    }
  }

  lemma FirstPrefix(table: Table, bits: nat)
    requires WellFormed(table) && bits <= 16
    ensures StartsAt(table, bits, Pow2(bits) - 1, 0)
  {
    Pow2Facts();
    ShrBound(table[0].code, bits, 16 - bits);
  }

  /** `huff_fill_lut`. */
  method HuffFillLut(table: Table, lut: array<Lut>, bits: nat)
    requires WellFormed(table) && 1 <= bits <= 16 && lut.Length == Pow2(bits)
    modifies lut
    ensures forall i :: 0 <= i < lut.Length ==>
              PlainFilled(table, bits, i, lut[i])
  {
    hide Shr, Pow2, Int8, UChar;
    FirstPrefix(table, bits);
    var i, idx: nat := lut.Length - 1, 0;
    while i >= 0
      invariant -1 <= i < lut.Length && (i >= 0 ==> StartsAt(table, bits, i, idx))
      invariant forall k :: i < k < lut.Length ==>
                  PlainFilled(table, bits, k, lut[k])
    {
      ghost var start := idx;
      assert StartsAt(table, bits, i, start);
      if Shr(table[idx].code, 16 - bits) < i {
        lut[i] := Lut(table[idx].length, table[idx].value);
        NextPrefix(table, bits, i, idx);
      } else {
        if table[idx].length <= bits {
          lut[i] := Lut(table[idx].length, table[idx].value);
        } else {
          lut[i] := Lut(0, Int8(idx));
        }
        if i != 0 { idx := SkipPrefix(table, bits, i, idx); }
      }
      assert lut[i] == PlainFill(table, bits, i, start) && PlainFilled(table, bits, i, lut[i]);
      i := i - 1;
    }
  }

  lemma PrefixInRange(table: Table, sym: seq<int>, bits: nat, i: nat, j: nat)
    requires WellFormed(table) && SymsReach(table, sym) && bits <= 16 && i < Pow2(bits)
    requires StartsAt(table, bits, i, j) && table[j].length <= bits
    ensures UChar(table[j].value - Shr(i, bits - table[j].length)) < |sym|
  {
    hide Shr, Shl, Low, UChar;
    var w := Shl(i, 16 - bits);
    ShrIn(i, 0, 16 - bits);
    ShlMono(i + 1, Pow2(bits), 16 - bits);
    ShlPlus(i, 1, 16 - bits);
    ShlPow2(16 - bits);
    ShlPow2(bits);
    ShlShl(1, bits, 16 - bits);
    ShlPow2(16);
    Pow2Facts();
    ShortGroup(table, sym, bits, j, w);
  }

  /** `can_fill_lut`. */
  method CanFillLut(table: Table, sym: seq<int>, lut: array<Lut>, bits: nat)
    requires WellFormed(table) && SymsReach(table, sym) && 1 <= bits <= 16 && lut.Length == Pow2(bits)
    modifies lut
    ensures forall i :: 0 <= i < lut.Length ==>
              CanFilled(table, sym, bits, i, lut[i])
  {
    hide Shr, Pow2, Int8, UChar, SymsReach;
    FirstPrefix(table, bits);
    var i, idx: nat := lut.Length - 1, 0;
    while i >= 0
      invariant -1 <= i < lut.Length && (i >= 0 ==> StartsAt(table, bits, i, idx))
      invariant forall k :: i < k < lut.Length ==>
                  CanFilled(table, sym, bits, k, lut[k])
    {
      ghost var start := idx;
      assert StartsAt(table, bits, i, start);
      if table[idx].length <= bits {
        PrefixInRange(table, sym, bits, i, idx);
        lut[i] := Lut(table[idx].length, sym[UChar(table[idx].value - Shr(i, bits - table[idx].length))]);
      } else {
        lut[i] := Lut(0, Int8(idx));
      }
      if Shr(table[idx].code, 16 - bits) < i {
        NextPrefix(table, bits, i, idx);
      } else if i != 0 {
        idx := SkipPrefix(table, bits, i, idx);
      }
      assert lut[i] == CanFill(table, sym, bits, i, start) && CanFilled(table, sym, bits, i, lut[i]);
      i := i - 1;
    }
  }
}

/** Encoder table and decoder table tied together: all the frame codec needs to know about a Huffman code. */
module Codebooks {
  import opened BitStrings
  import opened BitWriting
  import opened BitReading
  import opened Integers
  import opened CanonicalHuffman

  const LUT_DEPTH: nat := 6

  /** `mpc_can_data`. */
  datatype CanData = CanData(table: Table, sym: seq<int>, lut: seq<Lut>)

  /** The lookup table is filled, or was never touched. */
  ghost predicate CanValid(can: CanData)
  {
    && WellFormed(can.table) && SymsReach(can.table, can.sym) && |can.lut| == 64
    && ((forall i :: 0 <= i < 64 ==> CanFilled(can.table, can.sym, LUT_DEPTH, i, can.lut[i]))
        || forall i :: 0 <= i < 64 ==> can.lut[i] == Lut(0, 0))
  }

  lemma CanValidLook(can: CanData, w: nat)
    requires CanValid(can) && w < 0x1_0000
    ensures Shr(w, 16 - LUT_DEPTH) < 64
    ensures var l := can.lut[Shr(w, 16 - LUT_DEPTH)];
            && (l.length == 0 ==> UChar(l.value) < |can.table|)
            && (l.length == 0 ==> SymIndex(can.table[Scan(can.table, UChar(l.value), w)], w) < |can.sym|)
            && CanLook(can.table, can.sym, l, w) == CanScan(can.table, can.sym, w)
            && (l.length != 0 ==> l.length <= 16)
  {
    hide Shr, CanFilled, CanLook, UChar, WellFormed, SymsReach, StartsAt, Scan, SymIndex, CanScan;
    Pow2Facts();
    ShrBound(w, LUT_DEPTH, 16 - LUT_DEPTH);
    var i := Shr(w, 16 - LUT_DEPTH);
    if CanFilled(can.table, can.sym, LUT_DEPTH, i, can.lut[i]) {
      FilledLook(can, can.lut[i], w);
    } else {
      UnfilledLook(can, w);
    }
  }

  lemma FilledLook(can: CanData, l: Lut, w: nat)
    requires WellFormed(can.table) && SymsReach(can.table, can.sym) && w < 0x1_0000
    requires CanFilled(can.table, can.sym, LUT_DEPTH, Shr(w, 16 - LUT_DEPTH), l)
    ensures l.length == 0 ==> UChar(l.value) < |can.table|
    ensures l.length == 0 ==> SymIndex(can.table[Scan(can.table, UChar(l.value), w)], w) < |can.sym|
    ensures CanLook(can.table, can.sym, l, w) == CanScan(can.table, can.sym, w) && (l.length != 0 ==> l.length <= 16)
  {
    hide Shr, CanFill, CanLook, UChar, CanScan, SymIndex, Scan, WellFormed, SymsReach;
    var i := Shr(w, 16 - LUT_DEPTH);
    var j: nat :| StartsAt(can.table, LUT_DEPTH, i, j)
      && (can.table[j].length <= LUT_DEPTH ==> UChar(can.table[j].value - Shr(i, LUT_DEPTH - can.table[j].length)) < |can.sym|)
      && l == CanFill(can.table, can.sym, LUT_DEPTH, i, j);
    CanLutAgrees(can.table, can.sym, LUT_DEPTH, j, w);
    LookLength(can, l, w);
  }

  lemma UnfilledLook(can: CanData, w: nat)
    requires WellFormed(can.table) && SymsReach(can.table, can.sym) && w < 0x1_0000
    ensures UChar(0) < |can.table|
    ensures SymIndex(can.table[Scan(can.table, UChar(0), w)], w) < |can.sym|
    ensures CanLook(can.table, can.sym, Lut(0, 0), w) == CanScan(can.table, can.sym, w)
  {
    hide SymIndex;
    UCharZero();
    UnfilledLutAgrees(can.table, can.sym, w);
  }

  lemma UCharZero()
    ensures UChar(0) == 0
  {}

  lemma LookLength(can: CanData, l: Lut, w: nat)
    requires WellFormed(can.table) && SymsReach(can.table, can.sym) && w < 0x1_0000
    requires l.length == 0 ==> UChar(l.value) < |can.table|
    requires l.length == 0 ==> SymIndex(can.table[Scan(can.table, UChar(l.value), w)], w) < |can.sym|
    requires CanLook(can.table, can.sym, l, w) == CanScan(can.table, can.sym, w)
    ensures l.length <= 16
  {}

  /** The 16-bit window a reader looks ahead at. */
  ghost function Window(s: Bits): (w: nat)
    requires |s| >= 16
    ensures w < 0x1_0000
  {
    Pow2Facts();
    Val(s[..16])
  }

  /** `mpc_bits_can_dec`: looks at 16 bits, consumes the code's length. */
  method CanDecode(r: BitReader, can: CanData) returns (value: int)
    requires r.Valid() && r.pos + 2 < |r.data| && CanValid(can)
    modifies r`pos, r`count
    ensures |old(r.Remaining())| >= 16
    ensures var (len, v) := CanScan(can.table, can.sym, Window(old(r.Remaining())));
            len <= 16 && r.Valid() && value == v && r.Remaining() == old(r.Remaining())[len..]
  {
    hide Val, BytesToBits, Shr, Low, UChar, CanValid, SymIndex;
    ghost var all, at := BytesToBits(r.data), r.At();
    var code := Low(Shr(0x1_0000 * r.data[r.pos] as nat + 0x100 * r.data[r.pos + 1] as nat + r.data[r.pos + 2] as nat,
                        r.count), 16);
    assert code == Window(r.Remaining()) by { WindowRead(r); }
    CanValidLook(can, code);
    CanParts(can);
    var tmp := can.lut[Shr(code, 16 - LUT_DEPTH)];
    var length: nat;
    if tmp.length != 0 {
      length, value := tmp.length, tmp.value;
    } else {
      var j := UChar(tmp.value);
      while code < can.table[j].code
        invariant UChar(tmp.value) <= j < |can.table|
        invariant Scan(can.table, j, code) == Scan(can.table, UChar(tmp.value), code)
        decreases |can.table| - j
      {
        j := j + 1;
      }
      length, value := can.table[j].length, can.sym[SymIndex(can.table[j], code)];
    }
    assert (length, value) == CanScan(can.table, can.sym, code);
    r.pos, r.count := r.pos - (r.count - length) / 8, (r.count - length) % 8;
    assert r.At() == at + length;
    DropDrop(all, at, length);
  }

  lemma CanParts(can: CanData)
    requires CanValid(can)
    ensures WellFormed(can.table) && SymsReach(can.table, can.sym) && |can.lut| == 64
  {}

  lemma WindowRead(r: BitReader)
    requires r.Valid() && 0 <= r.pos && r.pos + 2 < |r.data|
    ensures |r.Remaining()| >= 16
    ensures Window(r.Remaining())
         == Low(Shr(0x1_0000 * r.data[r.pos] as nat + 0x100 * r.data[r.pos + 1] as nat + r.data[r.pos + 2] as nat,
                    r.count), 16)
  {
    hide Val, BytesToBits, Shr, Low, BytesVal;
    ThreeBytes(r.data, r.pos);
    FieldAt(r.data, r.pos, r.pos + 3, r.count, 16, r.At());
    DropTake(BytesToBits(r.data), r.At(), 16);
    BytesValIs(r.data[r.pos..r.pos + 3]);
  }

  lemma BytesValIs(s: seq<Byte>)
    ensures BytesVal(s) == Val(BytesToBits(s))
  {}

  lemma ThreeBytes(data: seq<Byte>, w: nat)
    requires w + 2 < |data|
    ensures BytesVal(data[w..w + 3]) == 0x1_0000 * data[w] as nat + 0x100 * data[w + 1] as nat + data[w + 2] as nat
  {
    hide BytesVal;
    TwoBytes(data, w + 1);
    assert data[w..w + 3] == data[w..w + 2] + [data[w + 2]];
    BytesValSnoc(data[w..w + 2], data[w + 2]);
  }

  // ----- code books -----

  /** An encoder table of (code, length) pairs, the decoder table for it, and the value the decoder gives for
      each encoder index. */
  datatype Book = Book(enc: seq<(nat, nat)>, can: CanData, syms: seq<int>)

  /** The code word of encoder index `i`. */
  function Word(book: Book, i: nat): Bits
    requires i < |book.enc|
  {
    Enc(book.enc[i].0, book.enc[i].1)
  }

  ghost predicate BookValid(book: Book)
  {
    && |book.enc| == |book.syms| && CanValid(book.can)
    && (forall i :: 0 <= i < |book.enc| ==> 1 <= book.enc[i].1 <= 16 && book.enc[i].0 < Pow2(book.enc[i].1))
    && (forall i, j :: 0 <= i < j < |book.syms| ==> book.syms[i] != book.syms[j])
    && (forall i, w: nat :: 0 <= i < |book.enc| && w < 0x1_0000 && Word(book, i) <= Enc(w, 16) ==>
          CanScan(book.can.table, book.can.sym, w) == (book.enc[i].1, book.syms[i]))
    && forall w: nat :: w < 0x1_0000 ==> exists i :: 0 <= i < |book.enc| && Word(book, i) <= Enc(w, 16)
  }

  /** Decoding as a prefix code: the index whose word comes next. */
  ghost function BookDec(book: Book, s: Bits): (p: Parsed<nat>)
    ensures p.Got? ==> p.value < |book.enc| && |p.rest| <= |s|
  {
    if exists i :: 0 <= i < |book.enc| && Word(book, i) <= s
    then var i :| 0 <= i < |book.enc| && Word(book, i) <= s; Got(i, s[|Word(book, i)|..])
    else NoData
  }

  /** Any window that starts with a word. */
  lemma WordWindow(book: Book, i: nat, s: Bits)
    requires i < |book.enc| && 1 <= book.enc[i].1 <= 16 && Word(book, i) <= s
    ensures var t := s + Enc(0, 16); var w := Window(t);
            w < 0x1_0000 && Enc(w, 16) == t[..16] && Word(book, i) <= Enc(w, 16)
  {
    hide Val;
    var t := s + Enc(0, 16);
    EncVal(t[..16]);
    assert t[..|Word(book, i)|] == Word(book, i);
  }

  /** Two words never begin the same stream. */
  lemma PrefixFree(book: Book, i: nat, j: nat, s: Bits)
    requires BookValid(book) && i < |book.enc| && j < |book.enc| && Word(book, i) <= s && Word(book, j) <= s
    ensures i == j
  {
    hide Val, Enc, CanValid, CanScan;
    WordWindow(book, i, s);
    WordWindow(book, j, s);
    var w := Window(s + Enc(0, 16));
    assert book.syms[i] == book.syms[j];
  }

  lemma BookRoundTrip(book: Book, i: nat, rest: Bits)
    requires BookValid(book) && i < |book.enc|
    ensures BookDec(book, Word(book, i) + rest) == Got(i, rest)
  {
    hide BookValid, Word;
    var s := Word(book, i) + rest;
    TakePrefix(Word(book, i), rest);
    assert Word(book, i) <= s;
    var j :| 0 <= j < |book.enc| && Word(book, j) <= s && BookDec(book, s) == Got(j, s[|Word(book, j)|..]);
    PrefixFree(book, i, j, s);
  }

  /** The code is complete: with 16 bits to look at, something always decodes. */
  lemma BookTotal(book: Book, s: Bits)
    requires BookValid(book) && |s| >= 16
    ensures BookDec(book, s).Got?
  {
    hide CanValid, CanScan, Val;
    EncVal(s[..16]);
    var w := Window(s);
    var i :| 0 <= i < |book.enc| && Word(book, i) <= Enc(w, 16);
    assert s[..|Word(book, i)|] == s[..16][..|Word(book, i)|];
    assert Word(book, i) <= s;
  }

  method BookWrite(e: BitWriter, book: Book, i: nat)
    requires BookValid(book) && i < |book.enc| && e.Valid() && e.Free() >= |Word(book, i)|
    modifies e, e.buffer
    ensures e.Valid() && e.buffer == old(e.buffer)
    ensures e.Contents() == old(e.Contents()) + Word(book, i)
    ensures e.Free() == old(e.Free()) - |Word(book, i)|
  {
    e.WriteBits(book.enc[i].0, book.enc[i].1);
  }

  /** The table-driven decoder finds the same index, through its symbol. */
  method BookRead(r: BitReader, book: Book) returns (value: int, ghost i: nat)
    requires BookValid(book) && r.Valid() && r.pos + 2 < |r.data|
    modifies r`pos, r`count
    ensures r.Valid() && BookDec(book, old(r.Remaining())) == Got(i, r.Remaining())
    ensures i < |book.syms| && value == book.syms[i]
  {
    ghost var s := r.Remaining();
    assert BookCan(book) by { }
    hide CanValid, CanScan, Val;
    value := CanDecode(r, book.can);
    BookTotal(book, s);
    i := BookDec(book, s).value;
    BookScan(book, s, i);
  }

  ghost predicate BookCan(book: Book)
  {
    CanValid(book.can)
  }

  lemma BookScan(book: Book, s: Bits, i: nat)
    requires BookValid(book) && |s| >= 16 && BookDec(book, s).Got? && i == BookDec(book, s).value
    ensures i < |book.enc| && BookDec(book, s).rest == s[book.enc[i].1..]
    ensures CanScan(book.can.table, book.can.sym, Window(s)) == (book.enc[i].1, book.syms[i])
  {
    hide CanValid, CanScan, Val;
    EncVal(s[..16]);
    assert Word(book, i) <= s;
    assert s[..16][..|Word(book, i)|] == s[..|Word(book, i)|];
    assert Word(book, i) <= Enc(Window(s), 16);
  }
}

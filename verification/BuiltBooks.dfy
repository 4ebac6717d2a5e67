/** A code made from symbol counts serves the codec: its words and its decoding table agree on every window. */
module BuiltBooks {
  import opened BitStrings
  import opened CanonicalHuffman
  import opened Codebooks
  import opened HuffmanCodes
  import opened HuffmanTrees
  import Kraft

  /** What an entry has to hold so that the window's leading bits, taken from it, leave the symbol's index. */
  function Values(code: seq<nat>): (v: seq<int>)
    ensures |v| == |code| && forall i :: 0 <= i < |code| ==> v[i] == code[i] + i
  {
    if code == [] then [] else Values(code[..|code| - 1]) + [code[|code| - 1] + |code| - 1]
  }

  function Pairs(code: seq<nat>, bits: seq<nat>): (e: seq<(nat, nat)>)
    requires |code| == |bits|
    ensures |e| == |code| && forall i :: 0 <= i < |code| ==> e[i] == (code[i], bits[i])
  {
    if code == [] then []
    else Pairs(code[..|code| - 1], bits[..|bits| - 1]) + [(code[|code| - 1], bits[|bits| - 1])]
  }

  /** The encoder's table, the decoder's canonical table, and the symbols. */
  function Built(bits: seq<nat>, code: seq<nat>, syms: seq<int>, lut: seq<Lut>): Book
    requires |bits| == |code| && Fits16(bits)
  {
    Book(Pairs(code, bits), CanData(DecodingTable(bits, code, Values(code)), syms, lut), syms)
  }

  /** A complete numbered code of lengths the decoder can look at. */
  ghost predicate Numbered(bits: seq<nat>, code: seq<nat>) {
    && 2 <= |bits| <= 256 && |code| == |bits| && Placed(bits, code, 16) && Kraft.Weight(bits, 16) == Pow2(16)
    && NoneEmpty(bits) && Fits16(bits)
  }

  lemma NumberedParts(bits: seq<nat>, code: seq<nat>)
    requires Numbered(bits, code)
    ensures 2 <= |bits| <= 256 && |code| == |bits| && Placed(bits, code, 16) && Kraft.Weight(bits, 16) == Pow2(16)
    ensures NoneEmpty(bits) && Fits16(bits)
  {
    hide Placed, Kraft.Weight, Pow2, NoneEmpty, Fits16;
  }

  /** The code of `MakeCodes` is one. */
  lemma NumberedMade(bits: seq<nat>, code: seq<nat>)
    requires 2 <= |bits| <= 256 && Complete(bits) && Placed(bits, code, bits[0]) && bits[0] <= 16
    ensures Numbered(bits, code)
  {
    hide Complete, Placed, Kraft.Weight, Pow2, NoneEmpty, Fits16, Kraft.Bounded;
    PlacedWider(bits, code, bits[0], 16);
    PlacedFits(bits, code);
    PlacedBound(bits, code, 16);
    CompleteAt(bits, 16);
    forall k | 0 <= k < |bits| ensures 1 <= bits[k] { NoneIsEmpty(bits, 16, k); }
    NoneEmptyIs(bits);
  }

  /** Every window lies in the share of one word. */
  lemma {:induction false} ShareOf(bits: seq<nat>, w: nat, n: nat) returns (i: nat)
    requires n <= |bits| && w < Start(bits, n, 16)
    ensures i < n && Start(bits, i, 16) <= w < Start(bits, i + 1, 16)
    decreases n
  {
    hide Start;
    StartEnds(bits, 16);
    if Start(bits, n - 1, 16) <= w {
      i := n - 1;
    } else {
      i := ShareOf(bits, w, n - 1);
    }
  }

  /** In a word's share the window begins with the word. */
  lemma ShareSplit(bits: seq<nat>, code: seq<nat>, i: nat, w: nat)
    requires Numbered(bits, code) && i < |bits| && Start(bits, i, 16) <= w < Start(bits, i + 1, 16)
    ensures |code| == |bits| && 1 <= bits[i] <= 16 && code[i] < Pow2(bits[i])
    ensures Shr(w, 16 - bits[i]) == code[i] && Enc(code[i], bits[i]) <= Enc(w, 16)
  {
    hide *;
    NumberedParts(bits, code);
    LengthAt(bits, i);
    PlacedAt(bits, code, 16, i);
    PlacedOrdered(bits, code, 16);
    CodeFits(bits, code, 16, i);
    var e: nat := 16 - bits[i];
    var lo: nat := w - Shl(code[i], e);
    ShlPlus(code[i], 1, e);
    ShlPow2(e);
    ShrIn(code[i], lo, e);
    EncShiftIn(code[i], lo, bits[i], e);
  }

  /** And the other way round. */
  lemma WordInShare(bits: seq<nat>, code: seq<nat>, i: nat, w: nat)
    requires Numbered(bits, code) && i < |bits| == |code| && w < 0x1_0000 && Enc(code[i], bits[i]) <= Enc(w, 16)
    ensures Start(bits, i, 16) <= w < Start(bits, i + 1, 16)
  {
    hide *;
    NumberedParts(bits, code);
    PlacedAt(bits, code, 16, i);
    PlacedOrdered(bits, code, 16);
    CodeFits(bits, code, 16, i);
    Pow2Facts();
    PrefixInside(code[i], bits[i], w, 16, 16);
    ShlNothing(w);
    ShlNothing(w + 1);
  }

  lemma ShlNothing(v: nat)
    ensures Shl(v, 0) == v
  {}

  lemma UCharSmall(v: nat)
    requires v < 256
    ensures UChar(v) == v
  {}

  /** There the decoder's scan finds the word's length, and its symbol. */
  lemma ScanFinds(bits: seq<nat>, code: seq<nat>, i: nat, w: nat)
    requires Numbered(bits, code) && i < |bits| && Start(bits, i, 16) <= w < Start(bits, i + 1, 16)
    ensures |code| == |bits| && Fits16(bits)
    ensures var t := DecodingTable(bits, code, Values(code));
            && WellFormed(t) && t[Scan(t, 0, w)].length == bits[i] <= 16 && SymIndex(t[Scan(t, 0, w)], w) == i
  {
    hide *;
    NumberedParts(bits, code);
    ShareSplit(bits, code, i, w);
    var v := Values(code);
    TableWellFormed(bits, code, v);
    AllAbove(bits, code, v, i, w);
    EntryAt(bits, code, v, i);
    var t := DecodingTable(bits, code, v);
    ScanAt(t, |bits| - 1 - i, w);
    IndexIs(t[|bits| - 1 - i], w, code[i], i);
  }

  lemma ScanAt(t: Table, at: nat, w: nat)
    requires WellFormed(t) && at < |t| && t[at].code <= w && forall k :: 0 <= k < at ==> t[k].code > w
    ensures Scan(t, 0, w) == at
  {}

  lemma IndexIs(e: Entry, w: nat, c: nat, i: nat)
    requires e.length <= 16 && e.value == c + i && Shr(w, 16 - e.length) == c && i < 256
    ensures SymIndex(e, w) == i
  {
    hide Shr, UChar;
    UCharSmall(i);
  }

  ghost predicate LutOk(table: Table, syms: seq<int>, lut: seq<Lut>) {
    |lut| == 64
    && ((forall i :: 0 <= i < 64 ==> CanFilled(table, syms, LUT_DEPTH, i, lut[i]))
        || forall i :: 0 <= i < 64 ==> lut[i] == Lut(0, 0))
  }

  lemma SymbolsReached(bits: seq<nat>, code: seq<nat>, syms: seq<int>)
    requires Numbered(bits, code) && |syms| == |bits|
    ensures |code| == |bits| && Fits16(bits) && WellFormed(DecodingTable(bits, code, Values(code)))
    ensures SymsReach(DecodingTable(bits, code, Values(code)), syms)
  {
    hide *;
    NumberedParts(bits, code);
    TableWellFormed(bits, code, Values(code));
    var t := DecodingTable(bits, code, Values(code));
    StartEnds(bits, 16);
    Pow2Facts();
    forall w: nat | w < 0x1_0000 ensures SymIn(t, w, |syms|) {
      var i := ShareOf(bits, w, |bits|);
      ScanFinds(bits, code, i, w);
      SymInIs(t, w, |syms|);
    }
    ReachIs(t, syms);
  }

  ghost predicate SymIn(t: Table, w: nat, n: nat)
    requires WellFormed(t)
  {
    SymIndex(t[Scan(t, 0, w)], w) < n
  }

  lemma SymInIs(t: Table, w: nat, n: nat)
    requires WellFormed(t)
    ensures t[Scan(t, 0, w)].length <= 16 && (SymIn(t, w, n) <==> SymIndex(t[Scan(t, 0, w)], w) < n)
  {
    hide SymIndex;
  }

  lemma ReachIs(t: Table, syms: seq<int>)
    requires WellFormed(t) && forall w: nat :: w < 0x1_0000 ==> SymIn(t, w, |syms|)
    ensures SymsReach(t, syms)
  {
    hide SymIndex;
    forall w: nat | w < 0x1_0000 ensures SymIndex(t[Scan(t, 0, w)], w) < |syms| {
      assert SymIn(t, w, |syms|);
    }
  }

  lemma BuiltWord(bits: seq<nat>, code: seq<nat>, syms: seq<int>, lut: seq<Lut>, i: nat)
    requires |bits| == |code| && Fits16(bits) && i < |bits|
    ensures Built(bits, code, syms, lut).enc[i] == (code[i], bits[i])
    ensures Word(Built(bits, code, syms, lut), i) == Enc(code[i], bits[i])
  {
    hide Enc, DecodingTable, Fits16;
  }

  lemma BuiltAgrees(bits: seq<nat>, code: seq<nat>, syms: seq<int>, i: nat, w: nat)
    requires Numbered(bits, code) && |syms| == |bits| && i < |bits| == |code| && w < 0x1_0000
    requires Enc(code[i], bits[i]) <= Enc(w, 16)
    ensures Fits16(bits) && WellFormed(DecodingTable(bits, code, Values(code)))
    ensures SymsReach(DecodingTable(bits, code, Values(code)), syms)
    ensures CanScan(DecodingTable(bits, code, Values(code)), syms, w) == (bits[i], syms[i])
  {
    hide *;
    SymbolsReached(bits, code, syms);
    WordInShare(bits, code, i, w);
    ScanFinds(bits, code, i, w);
    CanScanIs(DecodingTable(bits, code, Values(code)), syms, w, bits[i], i);
  }

  lemma AgreesBuilt(bits: seq<nat>, code: seq<nat>, syms: seq<int>, lut: seq<Lut>, i: nat, w: nat)
    requires Numbered(bits, code) && |syms| == |bits| == |code| && Fits16(bits) && i < |bits| && w < 0x1_0000
    ensures |Built(bits, code, syms, lut).enc| == |bits| && Agrees(Built(bits, code, syms, lut), i, w)
  {
    hide DecodingTable, WellFormed, SymsReach, CanScan, Numbered, Fits16, Enc;
    BuiltWord(bits, code, syms, lut, i);
    if Enc(code[i], bits[i]) <= Enc(w, 16) { BuiltAgrees(bits, code, syms, i, w); }
  }

  lemma BookIs(b: Book)
    requires |b.enc| == |b.syms| && CanValid(b.can)
    requires forall i :: 0 <= i < |b.enc| ==> 1 <= b.enc[i].1 <= 16 && b.enc[i].0 < Pow2(b.enc[i].1)
    requires forall i, j :: 0 <= i < j < |b.syms| ==> b.syms[i] != b.syms[j]
    requires forall i: nat, w: nat :: i < |b.enc| && w < 0x1_0000 ==> Agrees(b, i, w)
    requires forall w: nat :: w < 0x1_0000 ==> Begins(b, w)
    ensures BookValid(b)
  {
    hide CanValid, WellFormed, SymsReach, CanScan, Word, Enc, Pow2;
    CanParts(b.can);
    forall w: nat | w < 0x1_0000 ensures exists i :: 0 <= i < |b.enc| && Word(b, i) <= Enc(w, 16) {
      assert Begins(b, w);
    }
    forall i, w: nat | 0 <= i < |b.enc| && w < 0x1_0000 && Word(b, i) <= Enc(w, 16)
      ensures CanScan(b.can.table, b.can.sym, w) == (b.enc[i].1, b.syms[i])
    {
      assert Agrees(b, i, w);
    }
    assert forall i, w: nat :: 0 <= i < |b.enc| && w < 0x1_0000 && Word(b, i) <= Enc(w, 16) ==>
             CanScan(b.can.table, b.can.sym, w) == (b.enc[i].1, b.syms[i]);
    assert forall w: nat :: w < 0x1_0000 ==> exists i :: 0 <= i < |b.enc| && Word(b, i) <= Enc(w, 16);
  }

  /** If the word begins the window, the scan gives its length and symbol. */
  ghost predicate Agrees(b: Book, i: nat, w: nat)
    requires i < |b.enc| == |b.syms| && w < 0x1_0000
  {
    Word(b, i) <= Enc(w, 16) ==>
      WellFormed(b.can.table) && SymsReach(b.can.table, b.can.sym)
      && CanScan(b.can.table, b.can.sym, w) == (b.enc[i].1, b.syms[i])
  }

  /** Some word begins the window. */
  ghost predicate Begins(b: Book, w: nat) { exists i :: 0 <= i < |b.enc| && Word(b, i) <= Enc(w, 16) }

  lemma BeginsWith(b: Book, w: nat, i: nat)
    requires i < |b.enc| && Word(b, i) <= Enc(w, 16)
    ensures Begins(b, w)
  {}

  lemma BuiltCan(bits: seq<nat>, code: seq<nat>, syms: seq<int>, lut: seq<Lut>)
    requires Numbered(bits, code) && |syms| == |bits| == |code| && Fits16(bits)
    requires LutOk(DecodingTable(bits, code, Values(code)), syms, lut)
    ensures CanValid(Built(bits, code, syms, lut).can)
  {
    hide DecodingTable, WellFormed, SymsReach, CanFilled, Numbered, Fits16;
    SymbolsReached(bits, code, syms);
  }

  /** Encoder and decoder of a made code form a valid book, so all that is proved of books holds of it. */
  lemma BuiltValid(bits: seq<nat>, code: seq<nat>, syms: seq<int>, lut: seq<Lut>)
    requires 2 <= |bits| <= 256 && Complete(bits) && Placed(bits, code, bits[0]) && bits[0] <= 16 && |syms| == |bits|
    requires forall i, j :: 0 <= i < j < |syms| ==> syms[i] != syms[j]
    requires |code| == |bits| && Fits16(bits) && LutOk(DecodingTable(bits, code, Values(code)), syms, lut)
    ensures BookValid(Built(bits, code, syms, lut))
  {
    hide *;
    NumberedMade(bits, code);
    BuiltCan(bits, code, syms, lut);
    BuiltParts(bits, code, syms, lut);
    var b := Built(bits, code, syms, lut);
    forall i | 0 <= i < |b.enc| ensures 1 <= b.enc[i].1 <= 16 && b.enc[i].0 < Pow2(b.enc[i].1) {
      BuiltWord(bits, code, syms, lut, i);
      Word16(bits, code, i);
    }
    forall i: nat, w: nat | i < |b.enc| && w < 0x1_0000 ensures Agrees(b, i, w) {
      AgreesBuilt(bits, code, syms, lut, i, w);
    }
    forall w: nat | w < 0x1_0000 ensures Begins(b, w) {
      var i := SomeWord(bits, code, w);
      BuiltWord(bits, code, syms, lut, i);
      BeginsWith(b, w, i);
    }
    BookIs(b);
  }

  lemma BuiltParts(bits: seq<nat>, code: seq<nat>, syms: seq<int>, lut: seq<Lut>)
    requires |code| == |bits| && Fits16(bits)
    ensures var b := Built(bits, code, syms, lut);
            && |b.enc| == |bits| && b.syms == syms && b.can.sym == syms
            && b.can.table == DecodingTable(bits, code, Values(code))
  {
    hide DecodingTable, Fits16;
  }

  lemma Word16(bits: seq<nat>, code: seq<nat>, i: nat)
    requires Numbered(bits, code) && i < |bits|
    ensures |code| == |bits| && 1 <= bits[i] <= 16 && code[i] < Pow2(bits[i])
  {
    hide *;
    NumberedParts(bits, code);
    LengthAt(bits, i);
    PlacedOrdered(bits, code, 16);
    CodeFits(bits, code, 16, i);
  }

  lemma SomeWord(bits: seq<nat>, code: seq<nat>, w: nat) returns (i: nat)
    requires Numbered(bits, code) && w < 0x1_0000
    ensures i < |bits| == |code| && Enc(code[i], bits[i]) <= Enc(w, 16)
  {
    hide *;
    NumberedParts(bits, code);
    StartEnds(bits, 16);
    Pow2Facts();
    i := ShareOf(bits, w, |bits|);
    ShareSplit(bits, code, i, w);
  }

  lemma CanScanIs(t: Table, syms: seq<int>, w: nat, len: nat, i: nat)
    requires WellFormed(t) && SymsReach(t, syms) && w < 0x1_0000 && i < |syms|
    requires t[Scan(t, 0, w)].length == len <= 16 && SymIndex(t[Scan(t, 0, w)], w) == i
    ensures CanScan(t, syms, w) == (len, syms[i])
  {
    hide WellFormed, SymsReach, Scan, SymIndex;
  }
}

/** Scalefactors: which of the three in a band are equal, and their values as differences modulo 128. */
module Sv8Scf {
  import opened BitStrings
  import opened Integers
  import opened Codebooks
  import opened Sv8Samples
  import opened Sv8Header

  /** The three scalefactors of a band. */
  datatype Scf = Scf(a: int, b: int, c: int)

  ghost predicate ScfOk(s: Scf)
  {
    -6 <= s.a <= 121 && -6 <= s.b <= 121 && -6 <= s.c <= 121
  }

  // ----- which are equal -----

  function Scfi(s: Scf): nat { 2 * Bit(s.b == s.a) + Bit(s.c == s.b) }

  /** One word for a band, covering the channels that are coded. */
  function ScfiBits(b: Books, resL: int, resR: int, l: Scf, r: Scf): Bits
    requires BooksValid(b)
  {
    if resL != 0 && resR != 0 then Word(b.scfi[1], 4 * Scfi(l) + Scfi(r))
    else if resL != 0 then Word(b.scfi[0], Scfi(l))
    else if resR != 0 then Word(b.scfi[0], Scfi(r))
    else []
  }

  ghost function ScfiDec(b: Books, resL: int, resR: int, s: Bits): (p: Parsed<(nat, nat)>)
    requires BooksValid(b)
    ensures p.Got? ==> p.value.0 < 4 && p.value.1 < 4
    ensures p.Got? ==> |p.rest| <= |s|
  {
    if resL != 0 && resR != 0 then
      var (t, s1) :- BookDec(b.scfi[1], s);
      Got((t / 4, t % 4), s1)
    else if resL != 0 then
      var (t, s1) :- BookDec(b.scfi[0], s);
      Got((t, 0), s1)
    else if resR != 0 then
      var (t, s1) :- BookDec(b.scfi[0], s);
      Got((0, t), s1)
    else Got((0, 0), s)
  }

  lemma ScfiRoundTrip(b: Books, resL: int, resR: int, l: Scf, r: Scf, rest: Bits)
    requires BooksValid(b)
    ensures ScfiDec(b, resL, resR, ScfiBits(b, resL, resR, l, r) + rest)
         == Got((if resL != 0 then Scfi(l) else 0, if resR != 0 then Scfi(r) else 0), rest)
  {
    hide BookValid, Word, BookDec;
    if resL != 0 && resR != 0 {
      BookRoundTrip(b.scfi[1], 4 * Scfi(l) + Scfi(r), rest);
    } else if resL != 0 {
      BookRoundTrip(b.scfi[0], Scfi(l), rest);
    } else if resR != 0 {
      BookRoundTrip(b.scfi[0], Scfi(r), rest);
    } else {
      assert [] + rest == rest;
    }
  }

  // ----- values -----

  /** A difference of scalefactors as the encoder writes it, and the decoder's way back. */
  function Delta(a: int, b: int): nat { (b - a + 31) % 128 }
  function Undelta(a: int, t: nat): int { (a - 25 + t) % 128 - 6 }

  lemma DeltaRoundTrip(a: int, b: int)
    requires -6 <= b <= 121
    ensures Delta(a, b) < 128 && Undelta(a, Delta(a, b)) == b
    ensures -6 <= a <= 121 && a != b ==> Delta(a, b) != 31
  {
    assert (a - 25 + Delta(a, b)) % 128 == (b + 6) % 128;
  }

  /** Differences 64 to 127 follow an escape word in six plain bits. */
  function EscapedBits(book: Book, escape: nat, t: nat): Bits
    requires escape < |book.enc| && t < 128 && (t < 64 ==> t < |book.enc|)
  {
    if t < 64 then Word(book, t) else Word(book, escape) + Enc(t - 64, 6)
  }

  ghost function EscapedDec(book: Book, escape: nat, s: Bits): (p: Parsed<nat>)
    ensures p.Got? ==> |p.rest| <= |s|
  {
    var (t, s1) :- BookDec(book, s);
    if t == escape then
      var (x, s2) :- Take(s1, 6);
      Got(64 + x, s2)
    else Got(t, s1)
  }

  lemma EscapedRoundTrip(book: Book, escape: nat, t: nat, rest: Bits)
    requires BookValid(book) && escape < |book.enc| && t < 128 && (t < 64 ==> t < |book.enc| && t != escape)
    ensures EscapedDec(book, escape, EscapedBits(book, escape, t) + rest) == Got(t, rest)
  {
    hide BookValid, Word, BookDec, Take, Enc;
    if t < 64 {
      BookRoundTrip(book, t, rest);
    } else {
      Assoc(Word(book, escape), Enc(t - 64, 6), rest);
      BookRoundTrip(book, escape, Enc(t - 64, 6) + rest);
      Pow2Facts();
      TakeEnc(t - 64, 6, rest);
    }
  }

  /** The first scalefactor: plain after a key frame, else relative to the last one sent for the band. */
  function FirstBits(b: Books, flag: bool, last: int, a: int): Bits
    requires BooksValid(b) && -6 <= a <= 121
  {
    if flag then Enc(a + 6, 7) else EscapedBits(b.dscf[1], 64, Delta(last, a))
  }

  ghost function FirstDec(b: Books, flag: bool, last: int, s: Bits): (p: Parsed<int>)
    requires BooksValid(b)
    ensures p.Got? ==> |p.rest| <= |s|
  {
    if flag then
      var (v, s1) :- Take(s, 7);
      Got(v - 6, s1)
    else
      var (t, s1) :- EscapedDec(b.dscf[1], 64, s);
      Got(Undelta(last, t), s1)
  }

  lemma FirstRoundTrip(b: Books, flag: bool, last: int, a: int, rest: Bits)
    requires BooksValid(b) && -6 <= a <= 121
    ensures FirstDec(b, flag, last, FirstBits(b, flag, last, a) + rest) == Got(a, rest)
  {
    hide BookValid, EscapedBits, EscapedDec, Take, Enc;
    if flag {
      Pow2Facts();
      TakeEnc(a + 6, 7, rest);
    } else {
      DeltaRoundTrip(last, a);
      EscapedRoundTrip(b.dscf[1], 64, Delta(last, a), rest);
    }
  }

  /** The others: nothing when equal, so symbol 31, a difference of zero, is free to be the escape. */
  function NextBits(b: Books, a: int, c: int): Bits
    requires BooksValid(b)
  {
    if a == c then [] else EscapedBits(b.dscf[0], 31, Delta(a, c))
  }

  ghost function NextDec(b: Books, same: bool, a: int, s: Bits): (p: Parsed<int>)
    requires BooksValid(b)
    ensures p.Got? ==> |p.rest| <= |s|
  {
    if same then Got(a, s)
    else
      var (t, s1) :- EscapedDec(b.dscf[0], 31, s);
      Got(Undelta(a, t), s1)
  }

  lemma NextRoundTrip(b: Books, a: int, c: int, rest: Bits)
    requires BooksValid(b) && -6 <= a <= 121 && -6 <= c <= 121
    ensures NextDec(b, a == c, a, NextBits(b, a, c) + rest) == Got(c, rest)
  {
    hide BookValid, EscapedBits, EscapedDec;
    if a == c {
      assert NextBits(b, a, c) + rest == rest;
    } else {
      DeltaRoundTrip(a, c);
      EscapedRoundTrip(b.dscf[0], 31, Delta(a, c), rest);
    }
  }

  /** The scalefactors of one coded band and channel. */
  function TripleBits(b: Books, flag: bool, last: int, s: Scf): Bits
    requires BooksValid(b) && ScfOk(s)
  {
    FirstBits(b, flag, last, s.a) + (NextBits(b, s.a, s.b) + NextBits(b, s.b, s.c))
  }

  ghost function TripleDec(b: Books, flag: bool, last: int, scfi: nat, s: Bits): (p: Parsed<Scf>)
    requires BooksValid(b)
    ensures p.Got? ==> |p.rest| <= |s|
  {
    var (x, s1) :- FirstDec(b, flag, last, s);
    var (y, s2) :- NextDec(b, scfi / 2 % 2 == 1, x, s1);
    var (z, s3) :- NextDec(b, scfi % 2 == 1, y, s2);
    Got(Scf(x, y, z), s3)
  }

  lemma TripleRoundTrip(b: Books, flag: bool, last: int, s: Scf, rest: Bits)
    requires BooksValid(b) && ScfOk(s)
    ensures TripleDec(b, flag, last, Scfi(s), TripleBits(b, flag, last, s) + rest) == Got(s, rest)
  {
    hide BooksValid, FirstBits, FirstDec, NextBits, NextDec;
    var x, y, z := FirstBits(b, flag, last, s.a), NextBits(b, s.a, s.b), NextBits(b, s.b, s.c);
    Assoc(x, y + z, rest);
    Assoc(y, z, rest);
    FirstRoundTrip(b, flag, last, s.a, y + (z + rest));
    NextRoundTrip(b, s.a, s.b, z + rest);
    NextRoundTrip(b, s.b, s.c, rest);
  }

  /** One channel of one band; an uncoded one keeps its history. */
  function ChanBits(b: Books, res: int, flag: bool, last: int, s: Scf): Bits
    requires BooksValid(b) && (res != 0 ==> ScfOk(s))
  {
    if res != 0 then TripleBits(b, flag, last, s) else []
  }

  ghost function ChanDec(b: Books, res: int, flag: bool, prev: Scf, scfi: nat, s: Bits): (p: Parsed<Scf>)
    requires BooksValid(b)
    ensures p.Got? ==> |p.rest| <= |s|
  {
    if res != 0 then TripleDec(b, flag, prev.c, scfi, s) else Got(prev, s)
  }

  /** The decoder recovers the three values whenever its own last value is the encoder's, or a key frame
      makes the last value irrelevant. */
  lemma ChanRoundTrip(b: Books, res: int, flag: bool, last: int, prev: Scf, s: Scf, scfi: nat, rest: Bits)
    requires BooksValid(b) && (res != 0 ==> ScfOk(s) && scfi == Scfi(s)) && (flag || last == prev.c)
    ensures ChanDec(b, res, flag, prev, scfi, ChanBits(b, res, flag, last, s) + rest)
         == Got(if res != 0 then s else prev, rest)
  {
    if res != 0 {
      FirstIgnoresLast(b, flag, last, prev.c, s);
      hide BooksValid, TripleBits, TripleDec, Scfi;
      TripleRoundTrip(b, flag, prev.c, s, rest);
    } else {
      assert [] + rest == rest;
    }
  }

  lemma FirstIgnoresLast(b: Books, flag: bool, last: int, prev: int, s: Scf)
    requires BooksValid(b) && ScfOk(s) && (flag || last == prev)
    ensures TripleBits(b, flag, last, s) == TripleBits(b, flag, prev, s)
  {}
}

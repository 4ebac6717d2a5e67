/** The encoder object: its cross-frame memory, and one call per frame. */
module Sv8FrameEncoding {
  import opened BitStrings
  import opened BitWriting
  import opened Integers
  import opened Codebooks
  import opened Sv8Samples
  import opened Sv8Header
  import opened Sv8Scf
  import opened Sv8Frame
  import opened Sv8Memory
  import opened Sv8Encoding
  import opened Sv8Stream

  lemma FrameLists(f: Frame)
    requires FrameOk(f)
    ensures |f.l.res| == |f.r.res| == |f.l.scf| == |f.r.scf| == |f.l.q| == |f.r.q| == |f.ms| == 32
  {}

  /** The scalefactor patterns of all used bands. */
  method WriteScfis(e: BitWriter, b: Books, f: Frame, used: nat)
    requires BooksValid(b) && FrameOk(f) && used <= 32 && e.Valid() && e.Free() >= |AllScfiBits(b, f, 0, used)|
    modifies e, e.buffer
    ensures e.Valid() && e.buffer == old(e.buffer)
    ensures e.Contents() == old(e.Contents()) + AllScfiBits(b, f, 0, used)
    ensures e.Free() == old(e.Free()) - |AllScfiBits(b, f, 0, used)|
  {
    hide *;
    ghost var target := e.Contents() + AllScfiBits(b, f, 0, used);
    FrameLists(f);
    var n := 0;
    while n < used
      invariant 0 <= n <= used && e.Valid() && e.buffer == old(e.buffer)
      invariant e.Contents() + AllScfiBits(b, f, n, used) == target
      invariant e.Free() - |AllScfiBits(b, f, n, used)| == old(e.Free()) - |AllScfiBits(b, f, 0, used)|
    {
      AllScfiStep(b, f, n, used, []);
      NoBits(AllScfiBits(b, f, n, used));
      NoBits(AllScfiBits(b, f, n + 1, used));
      Assoc(e.Contents(), ScfiBits(b, f.l.res[n], f.r.res[n], f.l.scf[n], f.r.scf[n]), AllScfiBits(b, f, n + 1, used));
      WriteScfi(e, b, f.l.res[n], f.r.res[n], f.l.scf[n], f.r.scf[n]);
      n := n + 1;
    }
    NoBands(b, f, used);
    NoBits(e.Contents());
  }

  lemma NoBands(b: Books, f: Frame, used: nat)
    requires BooksValid(b) && FrameOk(f) && used <= 32
    ensures AllScfiBits(b, f, used, used) == [] && AllSampleBits(b, f, used, used) == []
    ensures forall m :: EncMemOk(m) ==> AllScfBits(b, f, m, used, used) == []
  {}

  method WriteSamples(e: BitWriter, b: Books, f: Frame, used: nat)
    requires BooksValid(b) && FrameOk(f) && used <= 32 && e.Valid() && e.Free() >= |AllSampleBits(b, f, 0, used)|
    modifies e, e.buffer
    ensures e.Valid() && e.buffer == old(e.buffer)
    ensures e.Contents() == old(e.Contents()) + AllSampleBits(b, f, 0, used)
    ensures e.Free() == old(e.Free()) - |AllSampleBits(b, f, 0, used)|
  {
    hide *;
    ghost var target := e.Contents() + AllSampleBits(b, f, 0, used);
    FrameLists(f);
    var n := 0;
    while n < used
      invariant 0 <= n <= used && e.Valid() && e.buffer == old(e.buffer)
      invariant e.Contents() + AllSampleBits(b, f, n, used) == target
      invariant e.Free() - |AllSampleBits(b, f, n, used)| == old(e.Free()) - |AllSampleBits(b, f, 0, used)|
    {
      AllSampleStep(b, f, n, used, []);
      NoBits(AllSampleBits(b, f, n, used));
      NoBits(AllSampleBits(b, f, n + 1, used));
      ghost var x, y := SampleBits(b.samples, f.l.res[n], f.l.q[n]), SampleBits(b.samples, f.r.res[n], f.r.q[n]);
      Assoc4(e.Contents(), x, y, AllSampleBits(b, f, n + 1, used));
      WriteBand(e, b.samples, f.l.res[n], f.l.q[n]);
      WriteBand(e, b.samples, f.r.res[n], f.r.q[n]);
      n := n + 1;
    }
    NoBands(b, f, used);
    NoBits(e.Contents());
  }

  /** Moving the memory of one channel past band `n`. */
  lemma NextBand(c: Channel, last: seq<int>, flag: seq<bool>, n: nat)
    requires |c.res| == |c.scf| == |last| == |flag| == 32 && n < 32
    ensures var l, g := NewLast(c, last, 0, n), Cleared(c.res, flag, 0, n);
            && |l| == |g| == 32 && l[n] == last[n] && g[n] == flag[n]
            && NewLast(c, last, 0, n + 1) == (if c.res[n] != 0 then l[n := c.scf[n].c] else l)
            && Cleared(c.res, flag, 0, n + 1) == (if c.res[n] != 0 then g[n := false] else g)
  {
    hide NewLast, Cleared;
    var l, g := NewLast(c, last, 0, n), Cleared(c.res, flag, 0, n);
    var l1, g1 := NewLast(c, last, 0, n + 1), Cleared(c.res, flag, 0, n + 1);
    forall i | 0 <= i < 32
      ensures l[i] == (if i < n && c.res[i] != 0 then c.scf[i].c else last[i])
      ensures l1[i] == (if i < n + 1 && c.res[i] != 0 then c.scf[i].c else last[i])
      ensures g[i] == (flag[i] && (i < n ==> c.res[i] == 0)) && g1[i] == (flag[i] && (i < n + 1 ==> c.res[i] == 0))
    {
      NewLastAt(c, last, 0, n, i);
      NewLastAt(c, last, 0, n + 1, i);
      ClearedAt(c.res, flag, 0, n, i);
      ClearedAt(c.res, flag, 0, n + 1, i);
    }
  }

  lemma FirstBand(c: Channel, last: seq<int>, flag: seq<bool>)
    requires |c.res| == |c.scf| == |last| == |flag| == 32
    ensures NewLast(c, last, 0, 0) == last && Cleared(c.res, flag, 0, 0) == flag
  {}

  class FrameEncoder {
    const e: BitWriter
    var maxBand: nat             // MaxBand
    var lastL: seq<int>          // SCF_Last_L
    var lastR: seq<int>          // SCF_Last_R
    var flagL: seq<bool>         // DSCF_Flag_L
    var flagR: seq<bool>         // DSCF_Flag_R
    var framesInBlock: nat

    ghost function Mem(): EncMem
      reads this
    {
      EncMem(maxBand, EncChan(lastL, flagL), EncChan(lastR, flagR))
    }

    ghost predicate Valid()
      reads this, e
    {
      e.Valid() && EncMemOk(Mem())
    }

    constructor (e: BitWriter)
      requires e.Valid()
      ensures this.e == e && Valid() && framesInBlock == 0
    {
      hide *;
      this.e, maxBand, framesInBlock := e, 0, 0;
      lastL, lastR := Zeros(32), Zeros(32);
      flagL, flagR := AllSet(32), AllSet(32);
      new;
      FreshMem(this);
    }

    /** One channel's part of the loop over scalefactors. */
    method WriteLeft(b: Books, c: Channel, n: nat)
      requires BooksValid(b) && |c.res| == |c.scf| == |lastL| == |flagL| == 32 && n < 32 && (c.res[n] != 0 ==> ScfOk(c.scf[n]))
      requires e.Valid() && e.Free() >= |ChanBits(b, c.res[n], flagL[n], lastL[n], c.scf[n])|
      modifies this`lastL, this`flagL, e, e.buffer
      ensures e.Valid() && e.buffer == old(e.buffer)
      ensures e.Contents() == old(e.Contents()) + ChanBits(b, c.res[n], old(flagL[n]), old(lastL[n]), c.scf[n])
      ensures e.Free() == old(e.Free()) - |ChanBits(b, c.res[n], old(flagL[n]), old(lastL[n]), c.scf[n])|
      ensures lastL == (if c.res[n] != 0 then old(lastL)[n := c.scf[n].c] else old(lastL))
      ensures flagL == (if c.res[n] != 0 then old(flagL)[n := false] else old(flagL))
    {
      hide *;
      ChanIs(b, c.res[n], flagL[n], lastL[n], c.scf[n]);
      if c.res[n] != 0 {
        WriteTriple(e, b, flagL[n], lastL[n], c.scf[n]);
        if flagL[n] { flagL := flagL[n := false]; }
        lastL := lastL[n := c.scf[n].c];
      } else {
        NoBits(e.Contents());
      }
    }

    method WriteRight(b: Books, c: Channel, n: nat)
      requires BooksValid(b) && |c.res| == |c.scf| == |lastR| == |flagR| == 32 && n < 32 && (c.res[n] != 0 ==> ScfOk(c.scf[n]))
      requires e.Valid() && e.Free() >= |ChanBits(b, c.res[n], flagR[n], lastR[n], c.scf[n])|
      modifies this`lastR, this`flagR, e, e.buffer
      ensures e.Valid() && e.buffer == old(e.buffer)
      ensures e.Contents() == old(e.Contents()) + ChanBits(b, c.res[n], old(flagR[n]), old(lastR[n]), c.scf[n])
      ensures e.Free() == old(e.Free()) - |ChanBits(b, c.res[n], old(flagR[n]), old(lastR[n]), c.scf[n])|
      ensures lastR == (if c.res[n] != 0 then old(lastR)[n := c.scf[n].c] else old(lastR))
      ensures flagR == (if c.res[n] != 0 then old(flagR)[n := false] else old(flagR))
    {
      hide *;
      ChanIs(b, c.res[n], flagR[n], lastR[n], c.scf[n]);
      if c.res[n] != 0 {
        WriteTriple(e, b, flagR[n], lastR[n], c.scf[n]);
        if flagR[n] { flagR := flagR[n := false]; }
        lastR := lastR[n := c.scf[n].c];
      } else {
        NoBits(e.Contents());
      }
    }

    /** Scalefactors of all used bands; each one sent becomes the reference for the next. */
    method WriteScfs(b: Books, f: Frame, used: nat, ghost m: EncMem)
      requires Valid() && BooksValid(b) && FrameOk(f) && used <= 32 && EncMemOk(m)
      requires lastL == m.l.last && flagL == m.l.flag && lastR == m.r.last && flagR == m.r.flag
      requires e.Valid() && e.Free() >= |AllScfBits(b, f, m, 0, used)|
      requires |f.l.res| == |f.l.scf| == |f.r.res| == |f.r.scf| == |m.l.last| == |m.l.flag| == |m.r.last| == |m.r.flag| == 32
      modifies this`lastL, this`flagL, this`lastR, this`flagR, e, e.buffer
      ensures e.Valid() && e.buffer == old(e.buffer)
      ensures e.Contents() == old(e.Contents()) + AllScfBits(b, f, m, 0, used)
      ensures e.Free() == old(e.Free()) - |AllScfBits(b, f, m, 0, used)|
      ensures lastL == NewLast(f.l, m.l.last, 0, used) && flagL == Cleared(f.l.res, m.l.flag, 0, used)
      ensures lastR == NewLast(f.r, m.r.last, 0, used) && flagR == Cleared(f.r.res, m.r.flag, 0, used)
    {
      hide *;
      ghost var target := e.Contents() + AllScfBits(b, f, m, 0, used);
      FirstBand(f.l, m.l.last, m.l.flag);
      FirstBand(f.r, m.r.last, m.r.flag);
      var n := 0;
      while n < used
        invariant 0 <= n <= used && e.Valid() && e.buffer == old(e.buffer)
        invariant e.Contents() + AllScfBits(b, f, m, n, used) == target
        invariant e.Free() - |AllScfBits(b, f, m, n, used)| == old(e.Free()) - |AllScfBits(b, f, m, 0, used)|
        invariant lastL == NewLast(f.l, m.l.last, 0, n) && flagL == Cleared(f.l.res, m.l.flag, 0, n)
        invariant lastR == NewLast(f.r, m.r.last, 0, n) && flagR == Cleared(f.r.res, m.r.flag, 0, n)
      {
        NextBand(f.l, m.l.last, m.l.flag, n);
        NextBand(f.r, m.r.last, m.r.flag, n);
        AllScfStep(b, f, m, n, used, []);
        NoBits(AllScfBits(b, f, m, n, used));
        NoBits(AllScfBits(b, f, m, n + 1, used));
        ghost var x := ChanBits(b, f.l.res[n], m.l.flag[n], m.l.last[n], f.l.scf[n]);
        ghost var y := ChanBits(b, f.r.res[n], m.r.flag[n], m.r.last[n], f.r.scf[n]);
        Assoc4(e.Contents(), x, y, AllScfBits(b, f, m, n + 1, used));
        WriteLeft(b, f.l, n);
        WriteRight(b, f.r, n);
        n := n + 1;
      }
      NoBands(b, f, used);
      NoBits(e.Contents());
    }

    /** Scalefactors and samples. */
    method WriteBody(b: Books, f: Frame, used: nat, ghost m: EncMem)
      requires Valid() && BooksValid(b) && FrameOk(f) && used <= 32 && EncMemOk(m)
      requires lastL == m.l.last && flagL == m.l.flag && lastR == m.r.last && flagR == m.r.flag
      requires e.Valid() && e.Free() >= |BodyBits(b, f, m, used)|
      requires |f.l.res| == |f.l.scf| == |f.r.res| == |f.r.scf| == |m.l.last| == |m.l.flag| == |m.r.last| == |m.r.flag| == 32
      modifies this`lastL, this`flagL, this`lastR, this`flagR, e, e.buffer
      ensures e.Valid() && e.buffer == old(e.buffer)
      ensures e.Contents() == old(e.Contents()) + BodyBits(b, f, m, used)
      ensures e.Free() == old(e.Free()) - |BodyBits(b, f, m, used)|
      ensures lastL == NewLast(f.l, m.l.last, 0, used) && flagL == Cleared(f.l.res, m.l.flag, 0, used)
      ensures lastR == NewLast(f.r, m.r.last, 0, used) && flagR == Cleared(f.r.res, m.r.flag, 0, used)
    {
      hide *;
      BodyIs(b, f, m, used, []);
      NoBits(AllSampleBits(b, f, 0, used));
      NoBits(BodyBits(b, f, m, used));
      Assoc4(e.Contents(), AllScfiBits(b, f, 0, used), AllScfBits(b, f, m, 0, used), AllSampleBits(b, f, 0, used));
      ValidParts(this);
      WriteScfis(e, b, f, used);
      ValidIs(this);
      WriteScfs(b, f, used, m);
      WriteSamples(e, b, f, used);
    }

    /** One frame: the first of a block is a key frame. */
    method WriteFrame(b: Books, msOn: bool, max: nat, f: Frame)
      requires Valid() && BooksValid(b) && FrameOk(f) && max < 32
      requires e.Free() >= |FrameBits(b, msOn, max, framesInBlock == 0, Mem(), f)|
      modifies this, e, e.buffer
      ensures Valid() && e.buffer == old(e.buffer) && framesInBlock == old(framesInBlock) + 1
      ensures e.Contents() == old(e.Contents()) + FrameBits(b, msOn, max, old(framesInBlock) == 0, old(Mem()), f)
      ensures e.Free() == old(e.Free()) - |FrameBits(b, msOn, max, old(framesInBlock) == 0, old(Mem()), f)|
      ensures Mem() == EncNext(old(Mem()), f, old(framesInBlock) == 0, max)
    {
      hide *;
      ghost var m0, key := Mem(), framesInBlock == 0;
      ValidParts(this);
      ghost var k := KeyedEnc(m0, key);
      FrameBitsIs(b, msOn, max, key, m0, f, []);
      EncNextIs(m0, f, key, max);
      KeyedIs(m0, key);
      var n := CountBands(f, max);
      NoBits(BodyBits(b, f, k, n));
      NoBits(FrameBits(b, msOn, max, key, m0, f));
      SideOrder(e.Contents(), BandsBits(b, key, n, max + 1, m0.maxBand), ResBits(b, f.l.res, f.r.res, n),
                MsPart(msOn, f.l.res, f.r.res, f.ms, n), BodyBits(b, f, k, n));
      WriteSide(e, b, msOn, framesInBlock == 0, f, n, max + 1, maxBand);
      maxBand := n;
      if framesInBlock == 0 {
        flagL, flagR := AllSet(32), AllSet(32);
      }
      ValidIs(this);
      WriteBody(b, f, n, k);
      framesInBlock := framesInBlock + 1;
      MemIs(this);
      ValidIs(this);
    }
  }

  lemma SideOrder(start: Bits, x: Bits, y: Bits, z: Bits, w: Bits)
    ensures start + (x + (y + (z + w))) == start + (x + (y + z)) + w
    ensures |x + (y + (z + w))| == |x + (y + z)| + |w|
  {
    Assoc(y, z, w);
    Assoc(x, y + z, w);
    Assoc(start, x + (y + z), w);
  }

  /** One past the highest band in use. */
  method CountBands(f: Frame, max: nat) returns (n: nat)
    requires |f.l.res| == |f.r.res| == 32 && max < 32
    ensures n == UsedBands(f, max)
  {
    hide *;
    UsedIs(f, max);
    n := max + 1;
    while n > 0 && f.l.res[n - 1] == 0 && f.r.res[n - 1] == 0
      invariant 0 <= n <= max + 1
      invariant Used(f.l.res, f.r.res, n) == UsedBands(f, max)
      decreases n
    {
      UsedStep(f.l.res, f.r.res, n);
      n := n - 1;
    }
    UsedStep(f.l.res, f.r.res, n);
  }

  /** Band count, resolutions and M/S flags. */
  method WriteSide(e: BitWriter, b: Books, msOn: bool, key: bool, f: Frame, used: nat, max: nat, last: nat)
    requires BooksValid(b) && |f.l.res| == |f.r.res| == |f.ms| == 32 && ResOk(f.l.res) && ResOk(f.r.res)
    requires used <= max <= 32 && 1 <= max && last <= 32 && (used > 0 ==> Coded(f.l.res, f.r.res, used - 1))
    requires e.Valid()
    requires e.Free() >= |BandsBits(b, key, used, max, last)
                          + (ResBits(b, f.l.res, f.r.res, used) + MsPart(msOn, f.l.res, f.r.res, f.ms, used))|
    modifies e, e.buffer
    ensures e.Valid() && e.buffer == old(e.buffer)
    ensures e.Contents() == old(e.Contents())
              + (BandsBits(b, key, used, max, last)
                 + (ResBits(b, f.l.res, f.r.res, used) + MsPart(msOn, f.l.res, f.r.res, f.ms, used)))
    ensures e.Free() == old(e.Free())
              - |BandsBits(b, key, used, max, last)
                 + (ResBits(b, f.l.res, f.r.res, used) + MsPart(msOn, f.l.res, f.r.res, f.ms, used))|
  {
    hide *;
    Assoc4(e.Contents(), BandsBits(b, key, used, max, last), ResBits(b, f.l.res, f.r.res, used),
           MsPart(msOn, f.l.res, f.r.res, f.ms, used));
    WriteBands(e, b, key, used, max, last);
    WriteResolutions(e, b, f.l.res, f.r.res, used);
    MsCases(msOn, f, used);
    if used > 0 && msOn {
      WriteMs(e, f.l.res, f.r.res, f.ms, used);
    } else {
      NoBits(e.Contents());
    }
  }

  lemma FreshMem(w: FrameEncoder)
    requires w.e.Valid() && w.maxBand == 0 && |w.lastL| == |w.lastR| == |w.flagL| == |w.flagR| == 32
    ensures w.Valid()
  {}

  lemma ChanIs(b: Books, res: int, flag: bool, last: int, s: Scf)
    requires BooksValid(b) && (res != 0 ==> ScfOk(s))
    ensures ChanBits(b, res, flag, last, s) == if res != 0 then TripleBits(b, flag, last, s) else []
  {}

  lemma ValidParts(w: FrameEncoder)
    requires w.Valid()
    ensures w.e.Valid() && EncMemOk(w.Mem()) && w.maxBand == w.Mem().maxBand <= 32
    ensures w.lastL == w.Mem().l.last && w.flagL == w.Mem().l.flag && w.lastR == w.Mem().r.last && w.flagR == w.Mem().r.flag
    ensures |w.lastL| == |w.lastR| == |w.flagL| == |w.flagR| == 32
  {}

  lemma ValidIs(w: FrameEncoder)
    requires w.e.Valid() && w.maxBand <= 32 && |w.lastL| == |w.lastR| == |w.flagL| == |w.flagR| == 32
    ensures w.Valid()
  {}

  lemma MemIs(w: FrameEncoder)
    ensures w.Mem() == EncMem(w.maxBand, EncChan(w.lastL, w.flagL), EncChan(w.lastR, w.flagR))
  {}

  lemma KeyedIs(m: EncMem, key: bool)
    requires EncMemOk(m)
    ensures var k := KeyedEnc(m, key);
            && EncMemOk(k) && k.l.last == m.l.last && k.r.last == m.r.last && |k.l.flag| == |k.r.flag| == 32
            && k.l.flag == (if key then AllSet(32) else m.l.flag) && k.r.flag == (if key then AllSet(32) else m.r.flag)
  {}

  lemma UsedStep(l: seq<int>, r: seq<int>, n: nat)
    requires n <= |l| && n <= |r|
    ensures Used(l, r, n) == if n == 0 then 0 else if l[n - 1] != 0 || r[n - 1] != 0 then n else Used(l, r, n - 1)
  {}

  lemma MsCases(msOn: bool, f: Frame, used: nat)
    requires |f.l.res| == |f.r.res| == |f.ms| == 32 && used <= 32 && (used > 0 ==> Coded(f.l.res, f.r.res, used - 1))
    ensures !msOn || used == 0 ==> MsPart(msOn, f.l.res, f.r.res, f.ms, used) == []
    ensures msOn ==> MsPart(msOn, f.l.res, f.r.res, f.ms, used) == MsPart(true, f.l.res, f.r.res, f.ms, used)
  {
    hide MsBits;
  }

  lemma UsedIs(f: Frame, max: nat)
    requires |f.l.res| == |f.r.res| == 32 && max < 32
    ensures UsedBands(f, max) == Used(f.l.res, f.r.res, max + 1)
  {}

}

/** The stream header's fields, as written and as read. */
module StreamHeader {
  import opened BitStrings
  import opened Integers
  import opened Sizes

  datatype Info = Info(samples: nat, beg: nat, freq: nat, maxBand: nat, channels: nat, ms: bool, blockPwr: nat)

  /** The sample rates a header can name. */
  function FreqIndex(freq: nat): int
  {
    if freq == 44100 then 0 else if freq == 48000 then 1 else if freq == 37800 then 2 else if freq == 32000 then 3 else -1
  }

  function FreqAt(i: nat): nat { if i == 0 then 44100 else if i == 1 then 48000 else if i == 2 then 37800 else if i == 3 then 32000 else 0 }

  /** Four rates have a code, which is read back as that rate; the other four codes are refused. */
  lemma Rates(freq: nat, i: nat)
    ensures FreqIndex(44100) == 0 && FreqIndex(48000) == 1 && FreqIndex(37800) == 2 && FreqIndex(32000) == 3
    ensures FreqIndex(freq) >= 0 <==> freq in {44100, 48000, 37800, 32000}
    ensures FreqIndex(freq) >= 0 ==> FreqAt(FreqIndex(freq)) == freq
    ensures FreqAt(i) == 0 <==> i >= 4
  {}

  /** What fits the fields of the header. */
  ghost predicate Writable(i: Info)
  {
    && i.samples < 0x1_0000_0000 && i.beg < 0x1_0000_0000 && FreqIndex(i.freq) >= 0
    && 1 <= i.maxBand <= 32 && 1 <= i.channels <= 16 && i.blockPwr <= 14
  }

  lemma CountFits(v: nat)
    requires v < 0x1_0000_0000
    ensures Fits(v, false, 9)
  {
    hide Pow128;
    Pow128Nine();
  }

  ghost function CountBits(v: nat): Bits
    requires v < 0x1_0000_0000
  {
    CountFits(v);
    BytesToBits(SizeCode(v, false))
  }

  /** The five fields in the last two bytes. */
  function FieldBits(i: Info): Bits
    requires i.maxBand >= 1 && i.channels >= 1 && FreqIndex(i.freq) >= 0
  {
    Enc(FreqIndex(i.freq), 3)
    + (Enc(i.maxBand - 1, 5) + (Enc(i.channels - 1, 4) + (Enc(Bit(i.ms), 1) + Enc(i.blockPwr / 2, 3))))
  }

  /** `writeStreamInfo`. */
  ghost function HeaderBits(i: Info): Bits
    requires Writable(i)
  {
    Enc(8, 8) + (CountBits(i.samples) + (CountBits(i.beg) + FieldBits(i)))
  }

  function FieldDec(s: Bits, samples: nat, beg: nat): Parsed<Info>
  {
    var (f, s1) :- Take(s, 3);
    if FreqAt(f) == 0 then NoData
    else
      var (band, s2) :- Take(s1, 5);
      var (chan, s3) :- Take(s2, 4);
      var (ms, s4) :- Take(s3, 1);
      var (pwr, s5) :- Take(s4, 3);
      if band + 1 >= 32 || chan + 1 > 2 then NoData
      else Got(Info(samples, beg, FreqAt(f), band + 1, chan + 1, ms == 1, 2 * pwr), s5)
  }

  /** `streaminfo_read_header_sv8`, behind its checksum. */
  function HeaderDec(s: Bits): Parsed<Info>
  {
    var (version, s1) :- Take(s, 8);
    if version != 8 then NoData
    else
      var (samples, s2) :- SizeDec(s1, 0, 0);
      var (beg, s3) :- SizeDec(s2, 0, 0);
      if beg.0 > samples.0 then NoData else FieldDec(s3, samples.0, beg.0)
  }

  lemma CountLength(v: nat)
    requires v < 0x1_0000_0000
    ensures 8 <= |CountBits(v)| <= 40 && |CountBits(v)| % 8 == 0
  {
    CountFits(v);
    assert Pow128(5) == 0x8_0000_0000;
    hide Pow128, BytesToBits, SizeCode;
    assert Fits(v, false, 5);
    SizeCodeIs(v, false);
  }

  /** A header takes 5 to 13 bytes and begins with the version. */
  lemma HeaderLength(i: Info)
    requires Writable(i)
    ensures 40 <= |HeaderBits(i)| <= 104 && |HeaderBits(i)| % 8 == 0 && HeaderBits(i)[..8] == Enc(8, 8)
  {
    hide Enc, CountBits;
    CountLength(i.samples);
    CountLength(i.beg);
    assert |FieldBits(i)| == 16;
    TakePrefix(Enc(8, 8), CountBits(i.samples) + (CountBits(i.beg) + FieldBits(i)));
  }

  lemma CountRoundTrip(v: nat, rest: Bits)
    requires v < 0x1_0000_0000
    ensures var p := SizeDec(CountBits(v) + rest, 0, 0); p.Got? && p.value.0 == v && p.rest == rest
  {
    hide SizeDec, SizeCode, BytesToBits;
    CountFits(v);
    SizeRoundTrip(v, false, rest);
  }

  lemma FreqBack(freq: nat)
    requires FreqIndex(freq) >= 0
    ensures 0 <= FreqIndex(freq) < 4 && FreqAt(FreqIndex(freq)) == freq && freq != 0
  {}

  lemma FieldIs(s: Bits, samples: nat, beg: nat, f: nat, s1: Bits, band: nat, s2: Bits, chan: nat, s3: Bits,
                ms: nat, s4: Bits, pwr: nat, s5: Bits)
    requires Take(s, 3) == Got(f, s1) && Take(s1, 5) == Got(band, s2) && Take(s2, 4) == Got(chan, s3)
    requires Take(s3, 1) == Got(ms, s4) && Take(s4, 3) == Got(pwr, s5) && FreqAt(f) != 0
    ensures FieldDec(s, samples, beg)
         == if band + 1 >= 32 || chan + 1 > 2 then NoData
            else Got(Info(samples, beg, FreqAt(f), band + 1, chan + 1, ms == 1, 2 * pwr), s5)
  {
    hide Take, FreqAt;
  }

  lemma FieldRoundTrip(i: Info, rest: Bits)
    requires Writable(i)
    ensures FieldDec(FieldBits(i) + rest, i.samples, i.beg)
         == if i.maxBand > 31 || i.channels > 2 then NoData else Got(i.(blockPwr := i.blockPwr / 2 * 2), rest)
  {
    hide Enc, Take, FreqIndex, FreqAt, Pow2;
    var a, b, c, d, e := Enc(FreqIndex(i.freq), 3), Enc(i.maxBand - 1, 5), Enc(i.channels - 1, 4), Enc(Bit(i.ms), 1),
                         Enc(i.blockPwr / 2, 3);
    Assoc(a, b + (c + (d + e)), rest);
    Assoc(b, c + (d + e), rest);
    Assoc(c, d + e, rest);
    Assoc(d, e, rest);
    Pow2Facts();
    FreqBack(i.freq);
    var s4 := e + rest;
    var s3 := d + s4;
    var s2 := c + s3;
    var s1 := b + s2;
    TakeEnc(FreqIndex(i.freq), 3, s1);
    TakeEnc(i.maxBand - 1, 5, s2);
    TakeEnc(i.channels - 1, 4, s3);
    TakeEnc(Bit(i.ms), 1, s4);
    TakeEnc(i.blockPwr / 2, 3, rest);
    FieldIs(a + s1, i.samples, i.beg, FreqIndex(i.freq), s1, i.maxBand - 1, s2, i.channels - 1, s3, Bit(i.ms), s4,
            i.blockPwr / 2, rest);
  }

  lemma HeaderIs(i: Info, rest: Bits)
    requires Writable(i)
    ensures i.samples < 0x1_0000_0000 && i.beg < 0x1_0000_0000 && i.maxBand >= 1 && i.channels >= 1 && FreqIndex(i.freq) >= 0
    ensures HeaderBits(i) + rest
         == Enc(8, 8) + (CountBits(i.samples) + (CountBits(i.beg) + (FieldBits(i) + rest)))
  {
    hide Enc, CountBits, FieldBits, FreqIndex;
    var a, b, c, d := Enc(8, 8), CountBits(i.samples), CountBits(i.beg), FieldBits(i);
    Assoc(a, b + (c + d), rest);
    Assoc(b, c + d, rest);
    Assoc(c, d, rest);
  }

  lemma HeaderDecIs(s: Bits, s1: Bits, samples: (nat, nat), s2: Bits, beg: (nat, nat), s3: Bits)
    requires Take(s, 8) == Got(8, s1) && SizeDec(s1, 0, 0) == Got(samples, s2) && SizeDec(s2, 0, 0) == Got(beg, s3)
    ensures HeaderDec(s) == if beg.0 > samples.0 then NoData else FieldDec(s3, samples.0, beg.0)
  {
    hide Take, SizeDec, FieldDec;
  }

  /** What is read of a header: nothing if the decoder does not take it, and of the block power only the half. */
  lemma HeaderRead(i: Info, rest: Bits)
    requires Writable(i)
    ensures HeaderDec(HeaderBits(i) + rest)
         == if i.maxBand <= 31 && i.channels <= 2 && i.beg <= i.samples then Got(i.(blockPwr := i.blockPwr / 2 * 2), rest) else NoData
  {
    hide *;
    HeaderIs(i, rest);
    var s3 := FieldBits(i) + rest;
    var s2 := CountBits(i.beg) + s3;
    var s1 := CountBits(i.samples) + s2;
    Pow2Facts();
    TakeEnc(8, 8, s1);
    CountRoundTrip(i.samples, s2);
    CountRoundTrip(i.beg, s3);
    HeaderDecIs(HeaderBits(i) + rest, s1, SizeDec(s1, 0, 0).value, s2, SizeDec(s2, 0, 0).value, s3);
    FieldRoundTrip(i, rest);
  }

  /** A header is read back as it was written exactly when its bandwidth and channel count are ones a decoder
      takes, the silence is no longer than the stream, and the number of frames in a block is a power of four. */
  lemma HeaderExact(i: Info, rest: Bits)
    requires Writable(i)
    ensures HeaderDec(HeaderBits(i) + rest) == Got(i, rest)
       <==> i.maxBand <= 31 && i.channels <= 2 && i.beg <= i.samples && i.blockPwr % 2 == 0
  {
    hide *;
    HeaderRead(i, rest);
    Halved(i.blockPwr);
  }

  lemma Halved(n: nat)
    ensures n / 2 * 2 == n <==> n % 2 == 0
  {}

  /** A stream of blocks of two frames, which the encoder library writes when asked to, is read as one of blocks of
      a single frame. */
  lemma OddPowerLost(rest: Bits)
    ensures var i := Info(44100, 0, 44100, 20, 2, true, 1);
            Writable(i) && HeaderDec(HeaderBits(i) + rest) == Got(i.(blockPwr := 0), rest)
  {
    hide HeaderDec, HeaderBits;
    HeaderRead(Info(44100, 0, 44100, 20, 2, true, 1), rest);
  }
}

/** Truncated binary and logarithmic integers: each writer has a decoder that consumes exactly its bits. */
module Integers {
  import opened BitStrings
  import opened BitWriting
  import opened BitReading

  /** Outcome of decoding a value off the front of a bit string. */
  datatype Parsed<T> = NoData | Got(value: T, rest: Bits) {
    predicate IsFailure() { NoData? }
    function PropagateFailure<U>(): Parsed<U>
      requires NoData?
    {
      NoData
    }
    function Extract(): (T, Bits)
      requires Got?
    {
      (value, rest)
    }
  }

  /** A plain `n`-bit field. */
  function Take(s: Bits, n: nat): (p: Parsed<nat>)
  {
    if |s| < n then NoData else Got(Val(s[..n]), s[n..])
  }

  lemma TakeEnc(v: nat, n: nat, rest: Bits)
    requires v < Pow2(n)
    ensures Take(Enc(v, n) + rest, n) == Got(v, rest)
  {
    hide Enc, Val, Low, Pow2;
    ValEnc(v, n);
    LowId(v, n);
    TakePrefix(Enc(v, n), rest);
  }

  // ----- truncated binary -----

  /** Values below `lost` take one bit less. */
  function TruncBits(v: nat, lost: nat, len: nat): Bits
    requires len >= 1
  {
    if v < lost then Enc(v, len - 1) else Enc(v + lost, len)
  }

  function TruncDec(s: Bits, lost: nat, len: nat): (p: Parsed<nat>)
    requires len >= 1
    ensures p.Got? ==> |p.rest| <= |s|
  {
    var (v, s1) :- Take(s, len - 1);
    if v < lost then Got(v, s1)
    else
      var (bit, s2) :- Take(s1, 1);
      Got(2 * v + bit - lost, s2)
  }

  /** No code word is wasted on a value whose short form exists, so decoding is exact. */
  lemma TruncRoundTrip(v: nat, lost: nat, len: nat, rest: Bits)
    requires len >= 1 && lost <= Pow2(len - 1) && v + lost < Pow2(len)
    ensures TruncDec(TruncBits(v, lost, len) + rest, lost, len) == Got(v, rest)
  {
    hide *;
    if v < lost {
      TakeEnc(v, len - 1, rest);
    } else {
      var x := v + lost;
      TruncSplit(x, len);
      Assoc(Enc(x / 2, len - 1), Enc(x % 2, 1), rest);
      TakeEnc(x / 2, len - 1, Enc(x % 2, 1) + rest);
      TakeEnc(x % 2, 1, rest);
    }
    TruncIs(v, lost, len, rest);
  }

  lemma TruncIs(v: nat, lost: nat, len: nat, rest: Bits)
    requires len >= 1
    requires v < lost ==> Take(Enc(v, len - 1) + rest, len - 1) == Got(v, rest)
    requires v >= lost ==>
               var x := v + lost;
               && Enc(x, len) + rest == Enc(x / 2, len - 1) + (Enc(x % 2, 1) + rest)
               && Take(Enc(x / 2, len - 1) + (Enc(x % 2, 1) + rest), len - 1) == Got(x / 2, Enc(x % 2, 1) + rest)
               && Take(Enc(x % 2, 1) + rest, 1) == Got(x % 2, rest)
    ensures TruncDec(TruncBits(v, lost, len) + rest, lost, len) == Got(v, rest)
  {
    hide Take, Enc;
  }

  lemma TruncSplit(x: nat, len: nat)
    requires len >= 1 && x < Pow2(len)
    ensures Enc(x, len) == Enc(x / 2, len - 1) + Enc(x % 2, 1)
    ensures x / 2 < Pow2(len - 1) && x % 2 < Pow2(1)
  {
    EncSplit(x, len - 1, 1);
    assert Shr(x, 1) == x / 2;
    assert Enc(x % 2, 1) == Enc(x, 1);
  }

  // ----- logarithmic code -----

  /** `mpc_log2[max - 1]`, its 32 entries written as runs. */
  function LogLen(max: nat): nat
    requires 1 <= max <= 32
  {
    if max == 1 then 1 else if max <= 3 then 2 else if max <= 7 then 3
    else if max <= 15 then 4 else if max <= 31 then 5 else 6
  }

  /** `mpc_log2_lost[max - 1]`: every run counts down, to zero except for the last. */
  function LogLost(max: nat): nat
    requires 1 <= max <= 32
  {
    if max == 1 then 0 else if max <= 3 then 3 - max else if max <= 7 then 7 - max
    else if max <= 15 then 15 - max else if max <= 31 then 31 - max else 31
  }

  /** The tables give every `max` the shortest length, with no code word unused. */
  lemma LogTables(max: nat)
    requires 1 <= max <= 32
    ensures 1 <= LogLen(max) <= 6 && Pow2(LogLen(max) - 1) <= max < Pow2(LogLen(max))
    ensures LogLost(max) + max + 1 == Pow2(LogLen(max)) && LogLost(max) <= Pow2(LogLen(max) - 1)
  {
    hide Pow2;
    Pow2Facts();
  }

  function LogBits(v: nat, max: nat): Bits
    requires 1 <= max <= 32
  {
    TruncBits(v, LogLost(max), LogLen(max))
  }

  function LogDec(s: Bits, max: nat): (p: Parsed<nat>)
    requires max <= 32
    ensures p.Got? ==> |p.rest| <= |s|
  {
    if max == 0 then Got(0, s) else TruncDec(s, LogLost(max), LogLen(max))
  }

  lemma LogRoundTrip(v: nat, max: nat, rest: Bits)
    requires 1 <= max <= 32 && v <= max
    ensures LogDec(LogBits(v, max) + rest, max) == Got(v, rest)
  {
    hide LogLen, LogLost, Enc, Val;
    LogTables(max);
    TruncRoundTrip(v, LogLost(max), LogLen(max), rest);
  }

  method EncodeLog(e: BitWriter, value: nat, max: nat)
    requires e.Valid() && 1 <= max <= 32 && value <= max && e.Free() >= |LogBits(value, max)|
    modifies e, e.buffer
    ensures e.Valid() && e.buffer == old(e.buffer)
    ensures e.Contents() == old(e.Contents()) + LogBits(value, max)
    ensures e.Free() == old(e.Free()) - |LogBits(value, max)|
  {
    hide LogLen, LogLost, Enc;
    LogTables(max);
    assert Pow2(LogLen(max)) == 2 * Pow2(LogLen(max) - 1);
    if value < LogLost(max) {
      e.WriteBits(value, LogLen(max) - 1);
    } else {
      e.WriteBits(value + LogLost(max), LogLen(max));
    }
  }

  method LogDecode(r: BitReader, max: nat) returns (value: nat)
    requires r.Valid() && max <= 32 && LogDec(r.Remaining(), max).Got?
    modifies r`pos, r`count
    ensures r.Valid() && LogDec(old(r.Remaining()), max) == Got(value, r.Remaining())
  {
    hide LogLen, LogLost, Val;
    value := 0;
    if max == 0 { return; }
    LogTables(max);
    if LogLen(max) > 1 {
      value := r.Read(LogLen(max) - 1);
    }
    if value >= LogLost(max) {
      var bit := r.Read(1);
      value := 2 * value + bit - LogLost(max);
    }
  }
}

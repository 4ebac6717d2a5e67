/** The signal of a whole stream, and what a decoder that skips and leaves out makes of it. */
module Signals {
  import BitStrings
  import opened SeekIndexing
  import opened Synthesis

  type Subbands = seq<seq<real>>

  ghost predicate Slotted(fs: seq<Subbands>)
  {
    forall i :: 0 <= i < |fs| ==> |fs[i]| == 36
  }

  function Flat(fs: seq<Subbands>): (ys: seq<seq<real>>)
  {
    if fs == [] then [] else fs[0] + Flat(fs[1..])
  }

  lemma {:induction false} FlatLength(fs: seq<Subbands>)
    requires Slotted(fs)
    ensures |Flat(fs)| == 36 * |fs|
  {
    if fs != [] { FlatLength(fs[1..]); }
  }

  lemma {:induction false} FlatConcat(a: seq<Subbands>, b: seq<Subbands>)
    ensures Flat(a + b) == Flat(a) + Flat(b)
    decreases |a|
  {
    if a == [] {
      assert a + b == b;
    } else {
      FlatConcat(a[1..], b);
      assert (a + b)[1..] == a[1..] + b;
      assert Flat(a + b) == a[0] + (Flat(a[1..]) + Flat(b));
    }
  }

  function Silence(n: nat): (s: seq<real>)
    ensures |s| == n
  {
    if n == 0 then [] else [0.0] + Silence(n - 1)
  }

  /** The history of a decoder that synthesised every frame before frame `k`. */
  ghost function Hist(f: Filter, fs: seq<Subbands>, k: nat): (h: seq<real>)
    requires k <= |fs|
    ensures |h| == HISTORY
  {
    After(f, Silence(HISTORY), Flat(fs[..k]))
  }

  /** Everything such a decoder puts out. */
  ghost function Signal(f: Filter, fs: seq<Subbands>): (s: seq<real>)
  {
    Run(f, Silence(HISTORY), Flat(fs))
  }

  lemma SignalLength(f: Filter, fs: seq<Subbands>)
    requires Slotted(fs)
    ensures |Signal(f, fs)| == FRAME * |fs|
  {
    FlatLength(fs);
  }

  lemma CutAt(fs: seq<Subbands>, k: nat)
    requires Slotted(fs) && k < |fs|
    ensures fs == fs[..k] + ([fs[k]] + fs[k + 1..]) && fs[..k + 1] == fs[..k] + [fs[k]]
    ensures Slotted(fs[..k]) && Flat([fs[k]]) == fs[k] && |fs[k]| == 36
  {
    assert [fs[k]][1..] == [];
    assert Flat([]) == [];
    assert fs[k] + [] == fs[k];
  }

  /** Frame `k` of the signal comes from frame `k` and the history before it. */
  lemma FrameSignal(f: Filter, fs: seq<Subbands>, k: nat)
    requires Slotted(fs) && k < |fs|
    ensures |fs[k]| == 36 && |Signal(f, fs)| == FRAME * |fs| && FRAME * k + FRAME <= FRAME * |fs|
    ensures Signal(f, fs)[FRAME * k..FRAME * k + FRAME] == Run(f, Hist(f, fs, k), fs[k])
    ensures Hist(f, fs, k + 1) == After(f, Hist(f, fs, k), fs[k])
  {
    hide Run, After, Silence, Flat;
    var h0 := Silence(HISTORY);
    SignalLength(f, fs);
    CutAt(fs, k);
    FlatConcat(fs[..k], [fs[k]] + fs[k + 1..]);
    FlatConcat([fs[k]], fs[k + 1..]);
    FlatConcat(fs[..k], [fs[k]]);
    FlatLength(fs[..k]);
    var a, b, c := Flat(fs[..k]), fs[k], Flat(fs[k + 1..]);
    RunConcat(f, h0, a, b + c);
    RunConcat(f, After(f, h0, a), b, c);
    RunConcat(f, h0, a, b);
    Middle(Run(f, h0, a), Run(f, After(f, h0, a), b), Run(f, After(f, After(f, h0, a), b), c));
  }

  lemma Middle(a: seq<real>, b: seq<real>, c: seq<real>)
    ensures (a + (b + c))[|a|..|a| + |b|] == b
  {}

  /** Whatever the history, a frame delivers the true signal from sample 480 on, and leaves the true history. */
  lemma FrameOut(f: Filter, fs: seq<Subbands>, k: nat, g: seq<real>, skip: nat, n: nat)
    requires Slotted(fs) && k < |fs| && |g| == HISTORY && (g == Hist(f, fs, k) || skip >= 480) && skip <= n <= FRAME
    ensures |fs[k]| == 36 && |Run(f, g, fs[k])| == FRAME && |Signal(f, fs)| == FRAME * |fs| && FRAME * k + n <= FRAME * |fs|
    ensures Run(f, g, fs[k])[skip..n] == Signal(f, fs)[FRAME * k + skip..FRAME * k + n]
    ensures After(f, g, fs[k]) == Hist(f, fs, k + 1)
  {
    hide Run, After, Signal, Hist;
    FrameSignal(f, fs, k);
    var h := Hist(f, fs, k);
    var x, y := Run(f, g, fs[k]), Run(f, h, fs[k]);
    if g != h {
      assert g[..0] == h[..0];
      RunForgets(f, g, h, 0, fs[k]);
      FromTail(x, y, 480, skip, n);
    }
    SliceOf(Signal(f, fs), FRAME * k, y, skip, n);
  }

  lemma FromTail(x: seq<real>, y: seq<real>, a: nat, i: nat, j: nat)
    requires a <= i <= j <= |x| == |y| && x[a..] == y[a..]
    ensures x[i..j] == y[i..j]
  {
    BitStrings.SliceSlice(x, a, |x|, i - a, j - a);
    BitStrings.SliceSlice(y, a, |y|, i - a, j - a);
    assert x[a..|x|] == x[a..] && y[a..|y|] == y[a..];
  }

  lemma SliceOf(s: seq<real>, p: nat, y: seq<real>, i: nat, j: nat)
    requires p + |y| <= |s| && s[p..p + |y|] == y && i <= j <= |y|
    ensures y[i..j] == s[p + i..p + j]
  {
    BitStrings.SliceSlice(s, p, p + |y|, i, j);
  }

  /** What is still due from sample `p` on, up to `end`. */
  ghost function DueFrom(s: seq<real>, end: nat, p: nat): seq<real>
  {
    if p < end <= |s| then s[p..end] else []
  }

  lemma DueLength(s: seq<real>, end: nat, p: nat)
    requires end <= |s|
    ensures |DueFrom(s, end, p)| == if p < end then end - p else 0
  {}

  /** One frame's worth: dropped by the skip, or delivered behind it. */
  lemma DueNext(s: seq<real>, end: nat, p: nat, skip: nat)
    requires p < end <= |s|
    ensures var n := Min(FRAME, end - p);
            && (n <= skip ==> DueFrom(s, end, p + skip) == DueFrom(s, end, p + FRAME + (skip - n)))
            && (n > skip ==> DueFrom(s, end, p + skip) == s[p + skip..p + n] + DueFrom(s, end, p + FRAME))
  {
    var n := Min(FRAME, end - p);
    if n > skip { Splice(s, p + skip, p + n, end); }
  }

  function Min(a: nat, b: nat): nat { if a < b then a else b }

  lemma FrameCount(fs: seq<Subbands>, k: nat)
    requires Slotted(fs) && k < |fs|
    ensures |fs[k]| == 36 && FRAME * k + FRAME <= FRAME * |fs|
  {}

  /** What synthesising frame `k` now would give, whichever case applies. */
  lemma FrameStep(f: Filter, fs: seq<Subbands>, k: nat, g: seq<real>, skip: nat, n: nat)
    requires Slotted(fs) && k < |fs| && |g| == HISTORY && (g == Hist(f, fs, k) || skip >= 480) && n <= FRAME
    ensures |fs[k]| == 36 && |Signal(f, fs)| == FRAME * |fs| && FRAME * k + FRAME <= FRAME * |fs|
    ensures |Run(f, g, fs[k])| == FRAME && After(f, g, fs[k]) == Hist(f, fs, k + 1)
    ensures n > skip ==> Run(f, g, fs[k])[skip..n] == Signal(f, fs)[FRAME * k + skip..FRAME * k + n]
  {
    hide *;
    FrameCount(fs, k);
    SignalLength(f, fs);
    if n > skip {
      FrameOut(f, fs, k, g, skip, n);
    } else {
      FrameOut2(f, fs, k, g, skip);
    }
  }

  lemma FrameOut2(f: Filter, fs: seq<Subbands>, k: nat, g: seq<real>, skip: nat)
    requires Slotted(fs) && k < |fs| && |g| == HISTORY && (g == Hist(f, fs, k) || skip >= 480)
    ensures |fs[k]| == 36 && |Run(f, g, fs[k])| == FRAME && After(f, g, fs[k]) == Hist(f, fs, k + 1)
  {
    hide Run, After, Signal, Hist;
    FrameOut(f, fs, k, g, if skip >= FRAME then FRAME else skip, FRAME);
  }

  lemma Splice(s: seq<real>, a: nat, b: nat, c: nat)
    requires a <= b <= c <= |s|
    ensures s[a..c] == s[a..b] + s[b..c]
  {}

  /** A frame on the way to the end of the signal: what it delivers, and what is due behind it. */
  lemma OneFrame(f: Filter, fs: seq<Subbands>, n: nat, h: seq<real>, skip: nat, left: nat)
    requires Slotted(fs) && n < |fs| && |h| == HISTORY && (h == Hist(f, fs, n) || skip >= 480)
    requires 0 < left && FRAME * n + left <= FRAME * |fs|
    ensures |fs[n]| == 36 && |Run(f, h, fs[n])| == FRAME && After(f, h, fs[n]) == Hist(f, fs, n + 1)
    ensures var s, end, m := Signal(f, fs), FRAME * n + left, Min(FRAME, left);
            var due := DueFrom(s, end, FRAME * n + skip);
            && m <= FRAME
            && (m <= skip ==> due == DueFrom(s, end, FRAME * n + FRAME + (skip - m)))
            && (m > skip ==> due == Run(f, h, fs[n])[skip..m] + DueFrom(s, end, FRAME * n + FRAME))
  {
    hide Run, After, Signal, Hist, DueFrom;
    FrameStep(f, fs, n, h, skip, Min(FRAME, left));
    DueNext(Signal(f, fs), FRAME * n + left, FRAME * n, skip);
  }

  lemma NothingPlus(s: seq<real>)
    ensures [] + s == s
  {}

  lemma NothingLeft(b: seq<real>, s: seq<real>)
    ensures b[|b|..] + s == s
  {}

  lemma TakeFrom(b: seq<real>, i: nat, n: nat, s: seq<real>)
    requires i + n <= |b|
    ensures b[i..] + s == b[i..i + n] + (b[i + n..] + s)
  {
    assert b[i..] == b[i..i + n] + b[i + n..];
    Plus3(b[i..i + n], b[i + n..], s);
  }

  lemma DueDrop(s: seq<real>, end: nat, p: nat, n: nat)
    requires p + n <= end <= |s|
    ensures DueFrom(s, end, p + n) == DueFrom(s, end, p)[n..]
  {
    if p < end { BitStrings.SliceSlice(s, p, end, n, end - p); }
  }

  lemma Further(whole: seq<real>, a: nat, b: nat, x: seq<real>)
    requires a <= b && b + |x| <= |whole| && x <= whole[b..]
    ensures whole[a..b + |x|] == whole[a..b] + x
  {
    assert x == whole[b..][..|x|] == whole[b..b + |x|];
  }

  /** The first `max` of some samples, and what is left from sample `p` on. */
  function First(s: seq<real>, max: nat): seq<real> { if |s| <= max then s else s[..max] }

  function From(s: seq<real>, p: nat): seq<real> { if p <= |s| then s[p..] else [] }

  /** Reading `pcm` of what was left, when `rest` is still to come. */
  lemma ReadSoFar(all: seq<real>, pcm: seq<real>, rest: seq<real>, max: nat)
    requires pcm + rest == all && |pcm| <= max && (|pcm| == max || rest == [])
    ensures pcm == First(all, max) && (pcm == [] ==> all == [] || max == 0)
  {
    BitStrings.TakePrefix(pcm, rest);
    if |pcm| < max { assert pcm + [] == pcm; }
  }

  lemma Onward(whole: seq<real>, at: nat, all: seq<real>, pcm: seq<real>, rest: seq<real>)
    requires at <= |whole| && all <= From(whole, at) && pcm + rest == all
    ensures at + |pcm| <= |whole| && rest <= From(whole, at + |pcm|) && pcm == whole[at..at + |pcm|]
    ensures all == From(whole, at) ==> rest == From(whole, at + |pcm|)
  {
    BitStrings.TakePrefix(pcm, rest);
    BitStrings.DropDrop(whole, at, |pcm|);
    assert rest == all[|pcm|..];
    assert all == whole[at..][..|all|];
    assert pcm == whole[at..][..|pcm|];
  }
}

/** The synthesis filter's history, and why frames that will be skipped need not be synthesised. */
module Synthesis {
  // One channel; the 32-point transform and the window are left abstract.

  /** `matrix(y, i)` is entry `i` of the 64 values computed from 32 subband samples; `window(k, t)` weighs the
      16 taps of output `k`. */
  datatype Filter = Filter(matrix: (seq<real>, nat) -> real, window: (nat, seq<real>) -> real)

  const V_MEM: nat := 2304
  const HISTORY: nat := 960

  // ----- one step, as a function -----

  function Slot(f: Filter, y: seq<real>, n: nat): (s: seq<real>)
    ensures |s| == n
  {
    if n == 0 then [] else Slot(f, y, n - 1) + [f.matrix(y, n - 1)]
  }

  /** Where tap `j` lies: one in each of 16 slots, alternately in their lower and upper halves. */
  function Tap(j: nat): nat { 64 * j + (if j % 2 == 1 then 32 else 0) }

  function Taps(v: seq<real>, k: nat, n: nat): (t: seq<real>)
    requires |v| == 1024 && k < 32 && n <= 16
    ensures |t| == n
  {
    if n == 0 then [] else Taps(v, k, n - 1) + [v[k + Tap(n - 1)]]
  }

  /** The first `n` of the 32 outputs of a step on the current slot and the 15 before it. */
  function Outs(f: Filter, v: seq<real>, n: nat): (o: seq<real>)
    requires |v| == 1024 && n <= 32
    ensures |o| == n
  {
    if n == 0 then [] else Outs(f, v, n - 1) + [f.window(n - 1, Taps(v, n - 1, 16))]
  }

  /** The outputs of consecutive steps, from a history of 15 slots. */
  function Run(f: Filter, h: seq<real>, ys: seq<seq<real>>): (o: seq<real>)
    requires |h| == HISTORY
    ensures |o| == 32 * |ys|
    decreases |ys|
  {
    if ys == [] then []
    else
      var v := Slot(f, ys[0], 64) + h;
      Outs(f, v, 32) + Run(f, v[..HISTORY], ys[1..])
  }

  function After(f: Filter, h: seq<real>, ys: seq<seq<real>>): (n: seq<real>)
    requires |h| == HISTORY
    ensures |n| == HISTORY
    decreases |ys|
  {
    if ys == [] then h else After(f, (Slot(f, ys[0], 64) + h)[..HISTORY], ys[1..])
  }

  lemma RunStep(f: Filter, h: seq<real>, ys: seq<seq<real>>)
    requires |h| == HISTORY && ys != []
    ensures var v := Slot(f, ys[0], 64) + h;
            && |v| == 1024 && |v[..HISTORY]| == HISTORY
            && Run(f, h, ys) == Outs(f, v, 32) + Run(f, v[..HISTORY], ys[1..])
            && After(f, h, ys) == After(f, v[..HISTORY], ys[1..])
  {
    hide Slot, Outs;
  }

  lemma RunNone(f: Filter, h: seq<real>)
    requires |h| == HISTORY
    ensures Run(f, h, []) == [] && After(f, h, []) == h
  {}

  /** After `m` steps the newest `m` slots no longer depend on the past. */
  lemma Forget(f: Filter, g: seq<real>, h: seq<real>, m: nat, y: seq<real>)
    requires |g| == |h| == HISTORY && m < 15 && g[..64 * m] == h[..64 * m]
    ensures var v, w := Slot(f, y, 64) + g, Slot(f, y, 64) + h;
            v[..HISTORY][..64 * (m + 1)] == w[..HISTORY][..64 * (m + 1)]
  {
    hide Slot;
    var s := Slot(f, y, 64);
    var v, w := s + g, s + h;
    assert v[..64 * (m + 1)] == s + g[..64 * m];
    assert w[..64 * (m + 1)] == s + h[..64 * m];
    assert v[..HISTORY][..64 * (m + 1)] == v[..64 * (m + 1)];
    assert w[..HISTORY][..64 * (m + 1)] == w[..64 * (m + 1)];
  }

  lemma Tail(a: seq<real>, b: seq<real>, c: seq<real>, d: seq<real>, n: nat)
    requires |a| == |c| == 32 && |b| == |d| && n <= |b| && b[n..] == d[n..]
    ensures (a + b)[n + 32..] == (c + d)[n + 32..]
  {
    assert (a + b)[n + 32..] == b[n..];
    assert (c + d)[n + 32..] == d[n..];
  }

  /** Two histories that share their newest `m` slots give the same outputs from step `15 - m` on, and the same
      history once fifteen slots are new. */
  lemma {:induction false} RunForgets(f: Filter, g: seq<real>, h: seq<real>, m: nat, ys: seq<seq<real>>)
    requires |g| == |h| == HISTORY && m <= 15 && g[..64 * m] == h[..64 * m] && |ys| >= 15 - m
    ensures Run(f, g, ys)[32 * (15 - m)..] == Run(f, h, ys)[32 * (15 - m)..]
    ensures After(f, g, ys) == After(f, h, ys)
    decreases 15 - m
  {
    hide *;
    if m == 15 {
      WholeHistory(g);
      WholeHistory(h);
    } else {
      RunStep(f, g, ys);
      RunStep(f, h, ys);
      var v, w := Slot(f, ys[0], 64) + g, Slot(f, ys[0], 64) + h;
      Forget(f, g, h, m, ys[0]);
      RunForgets(f, v[..HISTORY], w[..HISTORY], m + 1, ys[1..]);
      Tail(Outs(f, v, 32), Run(f, v[..HISTORY], ys[1..]), Outs(f, w, 32), Run(f, w[..HISTORY], ys[1..]), 32 * (14 - m));
    }
  }

  lemma WholeHistory(h: seq<real>)
    requires |h| == HISTORY
    ensures h[..64 * 15] == h
  {}

  lemma {:induction false} RunConcat(f: Filter, h: seq<real>, xs: seq<seq<real>>, ys: seq<seq<real>>)
    requires |h| == HISTORY
    ensures Run(f, h, xs + ys) == Run(f, h, xs) + Run(f, After(f, h, xs), ys)
    ensures After(f, h, xs + ys) == After(f, After(f, h, xs), ys)
    decreases |xs|
  {
    hide *;
    RunNone(f, h);
    if xs == [] {
      assert xs + ys == ys;
      NoneBefore(Run(f, h, ys));
    } else {
      RunStep(f, h, xs);
      RunStep(f, h, xs + ys);
      assert (xs + ys)[0] == xs[0] && (xs + ys)[1..] == xs[1..] + ys;
      var v := Slot(f, xs[0], 64) + h;
      RunConcat(f, v[..HISTORY], xs[1..], ys);
      Plus3(Outs(f, v, 32), Run(f, v[..HISTORY], xs[1..]), Run(f, After(f, h, xs), ys));
    }
  }

  lemma NoneBefore(s: seq<real>)
    ensures [] + s == s
  {}

  lemma Plus3(a: seq<real>, b: seq<real>, c: seq<real>)
    ensures a + b + c == a + (b + c)
  {}

  // ----- what comes out, by what goes in -----

  lemma {:induction false} SlotAt(f: Filter, y: seq<real>, n: nat, i: nat)
    requires i < n
    ensures Slot(f, y, n)[i] == f.matrix(y, i)
  {
    if i < n - 1 { SlotAt(f, y, n - 1, i); }
  }

  lemma {:induction false} TapsAt(v: seq<real>, k: nat, n: nat, j: nat)
    requires |v| == 1024 && k < 32 && j < n <= 16
    ensures Taps(v, k, n)[j] == v[64 * j + k + 32 * (j % 2)]
  {
    if j < n - 1 { TapsAt(v, k, n - 1, j); }
  }

  lemma {:induction false} OutsAt(f: Filter, v: seq<real>, n: nat, k: nat)
    requires |v| == 1024 && k < n <= 32
    ensures Outs(f, v, n)[k] == f.window(k, Taps(v, k, 16))
  {
    hide Taps;
    if k < n - 1 { OutsAt(f, v, n - 1, k); }
  }

  /** The history after a step: the new slot, then the old ones. */
  lemma NextHistory(f: Filter, h: seq<real>, y: seq<real>, i: nat, c: nat)
    requires |h| == HISTORY && i < 16 && c < 64
    ensures var v := Slot(f, y, 64) + h;
            v[64 * i + c] == (if i == 0 then f.matrix(y, c) else h[64 * (i - 1) + c])
  {
    if i == 0 { SlotAt(f, y, 64, c); }
    hide Slot;
  }

  /** Output `k` of step `t` weighs sixteen values: of the slots of steps `t`, `t - 1`, .. in turn, and of the history
      where there are no more, value `k` or value `k + 32` alternately. */
  lemma {:induction false} RunAt(f: Filter, h: seq<real>, ys: seq<seq<real>>, t: nat, k: nat, w: seq<real>)
    requires |h| == HISTORY && t < |ys| && k < 32 && |w| == 16
    requires forall j :: 0 <= j < 16 ==>
               w[j] == if j <= t then f.matrix(ys[t - j], k + 32 * (j % 2)) else h[64 * (j - t - 1) + k + 32 * (j % 2)]
    ensures Run(f, h, ys)[32 * t + k] == f.window(k, w)
    decreases t
  {
    hide Slot, Taps, Outs, Run;
    RunStep(f, h, ys);
    var v := Slot(f, ys[0], 64) + h;
    if t == 0 {
      OutsAt(f, v, 32, k);
      forall j | 0 <= j < 16 ensures Taps(v, k, 16)[j] == w[j] {
        TapsAt(v, k, 16, j);
        NextHistory(f, h, ys[0], j, k + 32 * (j % 2));
      }
      assert Taps(v, k, 16) == w;
    } else {
      forall j | t <= j < 16 ensures w[j] == v[..HISTORY][64 * (j - t) + k + 32 * (j % 2)] {
        NextHistory(f, h, ys[0], j - t, k + 32 * (j % 2));
      }
      RunAt(f, v[..HISTORY], ys[1..], t - 1, k, w);
    }
  }

  /** The history after a run: the slots of its last steps, the newest first, then what is left of the old one. */
  lemma {:induction false} AfterAt(f: Filter, h: seq<real>, ys: seq<seq<real>>, i: nat, c: nat)
    requires |h| == HISTORY && i < 15 && c < 64
    ensures After(f, h, ys)[64 * i + c] == if i < |ys| then f.matrix(ys[|ys| - 1 - i], c) else h[64 * (i - |ys|) + c]
    decreases |ys|
  {
    hide Slot, After;
    RunNone(f, h);
    if ys != [] {
      RunStep(f, h, ys);
      var v := Slot(f, ys[0], 64) + h;
      AfterAt(f, v[..HISTORY], ys[1..], i, c);
      if i >= |ys| - 1 { NextHistory(f, h, ys[0], i - (|ys| - 1), c); }
    }
  }

  // ----- the same in place -----

  /** `mpc_compute_new_V` with its result stored at `p`. */
  method Transform(f: Filter, v: array<real>, p: nat, y: seq<real>)
    requires p + 64 <= v.Length
    modifies v
    ensures v[p..p + 64] == Slot(f, y, 64) && v[p + 64..] == old(v[p + 64..]) && v[..p] == old(v[..p])
  {
    var i := 0;
    while i < 64
      invariant 0 <= i <= 64 && v[p..p + i] == Slot(f, y, i)
      invariant v[p + 64..] == old(v[p + 64..]) && v[..p] == old(v[..p])
    {
      v[p + i] := f.matrix(y, i);
      assert v[p..p + i + 1] == v[p..p + i] + [v[p + i]];
      i := i + 1;
    }
  }

  /** Output `k`: its taps, from the array. */
  method Weigh(f: Filter, v: array<real>, p: nat, k: nat) returns (x: real)
    requires p + 1024 <= v.Length && k < 32
    ensures x == f.window(k, Taps(v[p..p + 1024], k, 16))
  {
    hide *;
    var j := 0;
    var taps: seq<real> := [];
    ghost var all := v[p..p + 1024];
    NoTaps(all, k);
    while j < 16
      invariant 0 <= j <= 16 && taps == Taps(all, k, j)
    {
      TapNext(all, k, j);
      assert v[p + k + Tap(j)] == all[k + Tap(j)];
      taps := taps + [v[p + k + Tap(j)]];
      j := j + 1;
    }
    x := f.window(k, taps);
  }

  lemma NoTaps(v: seq<real>, k: nat)
    requires |v| == 1024 && k < 32
    ensures Taps(v, k, 0) == []
  {}

  lemma TapNext(v: seq<real>, k: nat, j: nat)
    requires |v| == 1024 && k < 32 && j < 16
    ensures k + Tap(j) < 1024 && Taps(v, k, j + 1) == Taps(v, k, j) + [v[k + Tap(j)]]
  {}

  lemma OutsNext(f: Filter, v: seq<real>, k: nat)
    requires |v| == 1024 && k < 32
    ensures Outs(f, v, k + 1) == Outs(f, v, k) + [f.window(k, Taps(v, k, 16))]
    ensures Outs(f, v, 0) == []
  {
    hide Taps;
  }

  /** The 32 outputs of a step. */
  method Row(f: Filter, v: array<real>, p: nat) returns (row: seq<real>)
    requires p + 1024 <= v.Length
    ensures row == Outs(f, v[p..p + 1024], 32)
  {
    hide *;
    ghost var w := v[p..p + 1024];
    var k: nat := 0;
    row := [];
    OutsNext(f, w, 0);
    while k < 32
      invariant 0 <= k <= 32 && row == Outs(f, w, k)
    {
      OutsNext(f, w, k);
      var x := Weigh(f, v, p, k);
      row := row + [x];
      k := k + 1;
    }
  }

  /** 36 steps down the array, the newest slot always in front. */
  method SynthFilter(f: Filter, v: array<real>, ys: seq<seq<real>>) returns (out: seq<real>)
    requires v.Length == V_MEM + HISTORY && |ys| == 36
    modifies v
    ensures out == Run(f, old(v[..HISTORY]), ys)
    ensures v[..HISTORY] == After(f, old(v[..HISTORY]), ys)
  {
    hide Slot, Outs, Taps, Run, After;
    ghost var h0 := v[..HISTORY];
    MoveHistory(v);
    out := [];
    var p, n := V_MEM, 0;
    ghost var h := h0;
    NoneBefore(Run(f, h0, ys));
    WholeSeqs(ys);
    while n < 36
      invariant 0 <= n <= 36 && p == V_MEM - 64 * n
      invariant v[p..p + HISTORY] == h && |h| == HISTORY
      invariant out + Run(f, h, ys[n..]) == Run(f, h0, ys)
      invariant After(f, h, ys[n..]) == After(f, h0, ys)
    {
      NextInput(ys, n);
      RunStep(f, h, ys[n..]);
      p := p - 64;
      ghost var was := v[..];
      Transform(f, v, p, ys[n]);
      ghost var s := Slot(f, ys[n], 64);
      ghost var w := s + h;
      Window(was, v[..], p, s, h);
      var row := Row(f, v, p);
      assert v[..][p..p + 1024] == v[p..p + 1024] && v[..][p..p + HISTORY] == v[p..p + HISTORY];
      Plus3(out, row, Run(f, w[..HISTORY], ys[n + 1..]));
      out := out + row;
      h := w[..HISTORY];
      n := n + 1;
    }
    RunNone(f, h);
    AllDone(ys, out);
    assert v[..HISTORY] == v[0..HISTORY];
  }

  lemma WholeSeqs(ys: seq<seq<real>>)
    ensures ys[0..] == ys
  {}

  lemma NextInput(ys: seq<seq<real>>, n: nat)
    requires n < |ys|
    ensures ys[n..] != [] && ys[n..][0] == ys[n] && ys[n..][1..] == ys[n + 1..]
  {}

  lemma AllDone(ys: seq<seq<real>>, out: seq<real>)
    ensures ys[|ys|..] == [] && out + [] == out
  {}

  /** A new slot in front of the window. */
  lemma Window(was: seq<real>, now: seq<real>, p: nat, s: seq<real>, h: seq<real>)
    requires p + 1024 <= |was| == |now| && |s| == 64 && |h| == HISTORY
    requires was[p + 64..p + 64 + HISTORY] == h && now[p..p + 64] == s && now[p + 64..] == was[p + 64..]
    ensures now[p..p + 1024] == s + h && now[p..p + HISTORY] == (s + h)[..HISTORY]
  {
    assert now[p + 64..p + 1024] == now[p + 64..][..HISTORY];
    assert was[p + 64..p + 1024] == was[p + 64..][..HISTORY];
    assert now[p..p + 1024] == now[p..p + 64] + now[p + 64..p + 1024];
    assert now[p..p + HISTORY] == now[p..p + 1024][..HISTORY];
  }

  /** The `memmove` of the history to the end of the array. */
  method MoveHistory(v: array<real>)
    requires v.Length == V_MEM + HISTORY
    modifies v
    ensures v[V_MEM..V_MEM + HISTORY] == old(v[..HISTORY])
  {
    var i := 0;
    while i < HISTORY
      invariant 0 <= i <= HISTORY
      invariant v[V_MEM..V_MEM + i] == old(v[..i]) && v[..HISTORY] == old(v[..HISTORY])
    {
      assert v[i] == v[..HISTORY][i] == old(v[..HISTORY])[i];
      v[V_MEM + i] := v[i];
      assert v[V_MEM..V_MEM + i + 1] == v[V_MEM..V_MEM + i] + [v[V_MEM + i]];
      i := i + 1;
    }
  }
}

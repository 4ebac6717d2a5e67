/** The mailbox between the decoder's worker and the network worker: flags, words and a data region. */
module Mailbox {
  // Each access to the shared memory is one atomic step.

  import opened BitStrings

  const DATA_CAP: nat := 256 * 1024
  const BLOCK: nat := 64 * 1024
  const MAX_BLOCKS: nat := 16
  const WORD: nat := 0x1_0000_0000

  /** Where the decoder's worker stands in a read. */
  datatype ClientPc =
    | CIdle | CLo | CHi | CLen | CClear | CReq | CNotify   // writing the request
    | CLoad | CWait | CAsleep                               // waiting for the response
    | CError | CDone | CCopy | CEnd | CFail                 // taking the response

  /** Where the network worker stands in its service loop. */
  datatype ServerPc =
    | SLoad | SWait | SAsleep                               // waiting for a request
    | SAck | SHi | SLo | SLen | SServe                      // taking it
    | SData | SDone | SError | SRes                         // answering
    | SNotify

  /** What a fetch brings: an error code, or the bytes of the block. */
  datatype Fetched = Failed(code: nat) | Body(bytes: seq<Byte>)

  datatype Cached = Cached(base: int, bytes: seq<Byte>)

  /** Of a read under way, `size` is what the caller asked for and `from` where the reader stood. */
  datatype Client = Client(pc: ClientPc, pos: int, size: nat, from: int, want: nat, n: int, got: seq<Byte>)

  datatype Server = Server(pc: ServerPc, hi: int, pos: int, want: int, error: nat, bytes: seq<Byte>, n: int, cache: seq<Cached>)

  datatype State = State(req: bool, res: bool, posLo: nat, posHi: int, len: nat, doneLen: int, error: nat,
                         data: seq<Byte>, c: Client, s: Server, asked: nat, answered: nat)

  function Min(a: int, b: int): int { if a < b then a else b }

  // ----- the client -----

  /** A sleeping client has no step of its own. */
  predicate ClientEnabled(t: State) { t.c.pc != CAsleep }

  /** `mpcRangeRead`, one access at a time; from rest it may also seek. */
  function ClientNext(t: State, stream: seq<Byte>, size: nat, seekTo: nat, seeks: bool): State
    requires ClientEnabled(t)
  {
    match t.c.pc
    case CIdle =>
      if seeks then t.(c := t.c.(pos := seekTo))
      else
        var want := Min(Min(size, DATA_CAP), |stream| - t.c.pos);
        if want <= 0 then t else t.(c := t.c.(pc := CLo, size := size, from := t.c.pos, want := want, got := []))
    case CLo => t.(posLo := t.c.pos % WORD, c := t.c.(pc := CHi))
    case CHi => t.(posHi := t.c.pos / WORD, c := t.c.(pc := CLen))
    case CLen => t.(len := t.c.want, c := t.c.(pc := CClear))
    case CClear => t.(res := false, c := t.c.(pc := CReq))
    case CReq => t.(req := true, asked := t.asked + 1, c := t.c.(pc := CNotify))
    case CNotify => t.(c := t.c.(pc := CLoad), s := if t.s.pc == SAsleep then t.s.(pc := SLoad) else t.s)
    case CLoad => t.(c := t.c.(pc := if t.res then CError else CWait))
    case CWait => t.(c := t.c.(pc := if t.res then CLoad else CAsleep))
    case CAsleep => t
    case CError => t.(c := t.c.(pc := if t.error != 0 then CFail else CDone))
    case CFail => t.(res := false, c := t.c.(pc := CIdle))
    case CDone => t.(c := t.c.(n := t.doneLen, pc := CCopy))
    case CCopy =>
      t.(c := t.c.(got := Front(t.data, t.c.n), pos := t.c.pos + t.c.n, pc := CEnd))
    case CEnd => t.(res := false, c := t.c.(pc := CIdle))
  }

  /** `data.subarray(0, n)`: a negative end counts from the back. */
  function Front(data: seq<Byte>, n: int): seq<Byte>
  {
    if n < 0 then data[..if |data| + n < 0 then 0 else |data| + n] else if n <= |data| then data[..n] else data
  }

  // ----- the server -----

  function Lookup(cache: seq<Cached>, base: int): (b: Fetched)
    ensures b.Body? ==> exists i :: 0 <= i < |cache| && cache[i].base == base && cache[i].bytes == b.bytes
  {
    if cache == [] then Failed(1)
    else if cache[0].base == base then Body(cache[0].bytes)
    else
      var b := Lookup(cache[1..], base);
      assert forall i :: 0 <= i < |cache| - 1 ==> cache[1..][i] == cache[i + 1];
      b
  }

  /** Room for one more: the oldest block goes first. */
  function Evict(cache: seq<Cached>): seq<Cached> { if |cache| >= MAX_BLOCKS then cache[1..] else cache }

  /** The byte offset a block of the cache begins at. */
  function Base(pos: int): int { pos / BLOCK * BLOCK }

  predicate ServerEnabled(t: State) { t.s.pc != SAsleep }

  /** `runLoop` and `handleRequest`; `f` is what a fetch brings, if one is made. */
  function ServerNext(t: State, stream: seq<Byte>, f: Fetched): State
    requires ServerEnabled(t)
  {
    match t.s.pc
    case SLoad => t.(s := t.s.(pc := if t.req then SAck else SWait))
    case SWait => t.(s := t.s.(pc := if t.req then SLoad else SAsleep))
    case SAsleep => t
    case SAck => t.(req := false, s := t.s.(pc := SHi))
    case SHi => t.(s := t.s.(hi := t.posHi, pc := SLo))
    case SLo => t.(s := t.s.(pos := t.s.hi * WORD + t.posLo, pc := SLen))
    case SLen => t.(s := t.s.(want := Min(Min(t.len, DATA_CAP), |stream| - t.s.pos), pc := SServe))
    case SServe => t.(s := Serve(t.s, f))
    case SData => t.(data := Put(t.data, t.s.bytes), s := t.s.(pc := SDone))
    case SDone => t.(doneLen := t.s.n, s := t.s.(pc := SError))
    case SError => t.(error := t.s.error, s := t.s.(pc := SRes))
    case SRes => t.(res := true, answered := t.answered + 1, s := t.s.(pc := SNotify))
    case SNotify => t.(s := t.s.(pc := SLoad), c := if t.c.pc == CAsleep then t.c.(pc := CLoad) else t.c)
  }

  /** Overwriting the front of the data region. */
  function Put(data: seq<Byte>, bytes: seq<Byte>): seq<Byte>
  {
    if |bytes| <= |data| then bytes + data[|bytes|..] else data
  }

  /** From the cache or from the network; the part asked for, as far as the block goes. */
  function Serve(s: Server, f: Fetched): Server
  {
    if s.want <= 0 then s.(bytes := [], n := 0, error := 0, pc := SDone)
    else
      var base := Base(s.pos);
      var hit := Lookup(s.cache, base);
      if hit.Body? then Cut(s, hit.bytes, base)
      else
        var room := s.(cache := Evict(s.cache));
        match f
        case Failed(code) => room.(error := code, pc := SError)
        case Body(bytes) => Cut(room.(cache := room.cache + [Cached(base, bytes)]), bytes, base)
  }

  function Cut(s: Server, block: seq<Byte>, base: int): Server
  {
    var off := s.pos - base;
    var n := Min(s.want, |block| - off);
    s.(bytes := if 0 <= off && 0 <= n && off + n <= |block| then block[off..off + n] else [], n := n, error := 0, pc := SData)
  }

  // ----- a truthful server -----

  /** All bytes of the block at `base`. */
  function BlockAt(stream: seq<Byte>, base: int): seq<Byte>
    requires 0 <= base < |stream|
  {
    stream[base..Min(|stream|, base + BLOCK)]
  }

  /** Bytes of the stream from `base` on; if the server answers in `whole` blocks, those of the block. */
  predicate Part(stream: seq<Byte>, base: int, bytes: seq<Byte>, whole: bool)
  {
    && 0 <= base < |stream| && 1 <= |bytes| <= |stream| - base && bytes == stream[base..base + |bytes|]
    && (whole ==> bytes == BlockAt(stream, base))
  }

  /** A fetch fails with an error code, or brings bytes of the stream. */
  predicate Honest(stream: seq<Byte>, base: int, f: Fetched, whole: bool)
  {
    match f
    case Failed(code) => code != 0
    case Body(bytes) => Part(stream, base, bytes, whole)
  }

  /** What came back over HTTP: nothing, or a status, the Content-Range if it could be read, and a body. */
  datatype Reply = Lost | Reply(status: nat, range: Span, body: seq<Byte>)
  datatype Span = NoSpan | Span(from: nat, to: nat)

  /** `fetchBlock`: the network, HTTP, full-body, range and truncation errors, or the body. */
  function FetchBlock(base: int, r: Reply): (f: Fetched)
    ensures f.Body? <==> r.Reply? && r.status == 206 && r.range.Span? && r.range.from == base
                         && r.range.to - base + 1 == |r.body|
    ensures f.Body? ==> f.bytes == r.body
    ensures f.Failed? ==> 1 <= f.code <= 5
    ensures f == Failed(1) <==> r.Lost?
    ensures f == Failed(2) <==> r.Reply? && r.status != 206 && r.status != 200
    ensures f == Failed(3) <==> r.Reply? && r.status == 200
    ensures f == Failed(4) <==> r.Reply? && r.status == 206 && !(r.range.Span? && r.range.from == base)
    ensures f == Failed(5) <==> r.Reply? && r.status == 206 && r.range.Span? && r.range.from == base && r.range.to - base + 1 != |r.body|
  {
    if r.Lost? then Failed(1)
    else if r.status == 206 then
      if r.range.NoSpan? || r.range.from != base then Failed(4)
      else if r.range.to - r.range.from + 1 != |r.body| then Failed(5)
      else Body(r.body)
    else if r.status == 200 then Failed(3)
    else Failed(2)
  }

  /** A server that follows sections 14.2 and 14.4 of RFC 9110: a 206 carries, of the bytes its Content-Range names,
      a part from the start. It may name fewer bytes than it was asked for; one that answers in whole blocks does not. */
  predicate HonestReply(stream: seq<Byte>, base: int, r: Reply, whole: bool)
  {
    r.Reply? && r.status == 206 && r.range.Span? ==>
      && r.range.from <= r.range.to < |stream| && r.body <= stream[r.range.from..r.range.to + 1]
      && (whole && r.range.from == base ==> r.range.to + 1 == Min(|stream|, base + BLOCK))
  }

  /** Then a fetch brings bytes of the stream or fails, however the transfer was cut short; and if the server
      answers in whole blocks, it brings the block. */
  lemma FetchHonest(stream: seq<Byte>, base: int, r: Reply, whole: bool)
    requires 0 <= base < |stream| && HonestReply(stream, base, r, whole)
    ensures Honest(stream, base, FetchBlock(base, r), whole)
  {
    if FetchBlock(base, r).Body? {
      assert |stream[base..r.range.to + 1]| == |r.body|;
    }
  }

  /** The plain reply to a request for a block, the one it names in full, is truthful and whole, and brings the block. */
  lemma WholeReply(stream: seq<Byte>, base: int)
    requires 0 <= base < |stream|
    ensures var end := if base + 65536 < |stream| then base + 65536 else |stream|;
            var r := Reply(206, Span(base, end - 1), stream[base..end]);
            HonestReply(stream, base, r, true) && FetchBlock(base, r) == Body(stream[base..end])
  {}

  predicate CacheOk(stream: seq<Byte>, cache: seq<Cached>, whole: bool)
  {
    |cache| <= MAX_BLOCKS && forall i :: 0 <= i < |cache| ==> Part(stream, cache[i].base, cache[i].bytes, whole)
  }

  // ----- the invariant -----

  predicate Asking(pc: ClientPc) { pc in {CIdle, CLo, CHi, CLen, CClear, CReq} }
  predicate Waiting(pc: ClientPc) { pc in {CNotify, CLoad, CWait, CAsleep} }
  predicate Taking(pc: ClientPc) { pc in {CError, CDone, CCopy, CEnd, CFail} }
  predicate Free(pc: ServerPc) { pc in {SLoad, SWait, SAsleep, SNotify} }

  /** How much of a read at `pos` one response carries if blocks are whole: up to the end of the block and of the
      stream. */
  function Share(stream: seq<Byte>, pos: int, want: nat): int
  {
    Min(want, Min(|stream|, Base(pos) + BLOCK) - pos)
  }

  /** How much it carries out of the block as it was served. */
  predicate Count(cache: seq<Cached>, pos: int, want: int, n: int)
  {
    var b := Lookup(cache, Base(pos));
    b.Body? && n == Min(want, Base(pos) + |b.bytes| - pos)
  }

  /** A response that may be taken: an error, or what was served from the position on. */
  predicate Answer(stream: seq<Byte>, t: State, error: nat, n: int)
  {
    error != 0 || (Count(t.s.cache, t.c.pos, t.c.want, n) && n <= |t.data| && Holds(stream, t.c.pos, n, t.data))
  }

  /** The first `n` bytes of `data` are the stream's at `pos`. */
  predicate Holds(stream: seq<Byte>, pos: int, n: int, data: seq<Byte>)
  {
    0 <= pos && 0 <= pos + n <= |stream| && (n >= 1 ==> n <= |data| && data[..n] == stream[pos..pos + n])
  }

  /** Who may be where, and what the flags then say. */
  predicate Flags(t: State)
  {
    && (Asking(t.c.pc) ==> Free(t.s.pc) && !t.req && !t.res && t.answered == t.asked)
    && (Taking(t.c.pc) ==> Free(t.s.pc) && !t.req && t.res && t.answered == t.asked)
    && (Waiting(t.c.pc) && Free(t.s.pc) ==>
          (t.req && !t.res && t.answered + 1 == t.asked) || (!t.req && t.res && t.answered == t.asked))
    && (!Free(t.s.pc) ==> Waiting(t.c.pc) && !t.res && t.req == (t.s.pc == SAck) && t.answered + 1 == t.asked)
    && (t.s.pc == SAsleep && t.req ==> t.c.pc == CNotify)
    && (t.c.pc == CAsleep && t.res ==> t.s.pc == SNotify)
  }

  /** The request words hold what the client has written so far, and it does not touch them while waiting. */
  predicate Request(stream: seq<Byte>, t: State)
  {
    && t.c.pos >= 0
    && (t.c.pc != CIdle ==> 1 <= t.c.want <= DATA_CAP && t.c.want == Min(Min(t.c.size, DATA_CAP), |stream| - t.c.from))
    && (t.c.pc != CIdle ==> t.c.pos == t.c.from + (if t.c.pc == CEnd then t.c.n else 0))
    && (t.c.pc in {CHi, CLen, CClear, CReq} || Waiting(t.c.pc) ==> t.posLo == t.c.pos % WORD)
    && (t.c.pc in {CLen, CClear, CReq} || Waiting(t.c.pc) ==> t.posHi == t.c.pos / WORD)
    && (t.c.pc in {CClear, CReq} || Waiting(t.c.pc) ==> t.len == t.c.want)
  }

  /** The server works on the request that is posted. */
  predicate Work(stream: seq<Byte>, t: State)
  {
    && (t.s.pc == SLo ==> t.s.hi == t.posHi)
    && (t.s.pc in {SLen, SServe, SData} ==> t.s.pos == t.c.pos)
    && (t.s.pc in {SServe, SData} ==> t.s.want == t.c.want)
    && (t.s.pc == SData ==> t.s.error == 0 && |t.s.bytes| <= |t.data| && Holds(stream, t.c.pos, t.s.n, t.s.bytes)
                            && t.s.n <= t.c.want && Count(t.s.cache, t.c.pos, t.c.want, t.s.n))
    && (t.s.pc == SDone ==> Answer(stream, t, t.s.error, t.s.n))
    && (t.s.pc == SError ==> Answer(stream, t, t.s.error, t.doneLen))
    && (t.s.pc == SRes ==> Answer(stream, t, t.error, t.doneLen))
  }

  /** A response that is posted, or being taken, is the one to the client's request. */
  predicate Response(stream: seq<Byte>, t: State)
  {
    && (t.res && t.c.pc in {CNotify, CLoad, CWait, CAsleep, CError} ==> Answer(stream, t, t.error, t.doneLen))
    && (t.c.pc == CDone ==> Answer(stream, t, 0, t.doneLen))
    && (t.c.pc == CCopy ==> Answer(stream, t, 0, t.c.n))
    && (t.c.pc == CEnd ==> Taken(stream, t))
  }

  /** What a read has brought, `n` bytes behind which the reader now stands. */
  predicate Taken(stream: seq<Byte>, t: State)
  {
    var at := t.c.pos - t.c.n;
    && Count(t.s.cache, at, t.c.want, t.c.n) && 0 <= at && at + t.c.want <= |stream|
    && 0 <= t.c.pos <= |stream| && (t.c.n >= 1 ==> t.c.got == stream[at..t.c.pos])
    && (t.c.n <= 0 ==> |t.c.got| == if t.c.n == 0 || DATA_CAP + t.c.n < 0 then 0 else DATA_CAP + t.c.n)
  }

  predicate Inv(stream: seq<Byte>, t: State, whole: bool)
  {
    && |t.data| == DATA_CAP && CacheOk(stream, t.s.cache, whole)
    && Flags(t) && Request(stream, t) && Work(stream, t) && Response(stream, t)
  }

  predicate Start(t: State)
  {
    && t.c.pc == CIdle && t.c.pos == 0 && t.s.pc == SLoad && !t.req && !t.res && |t.data| == DATA_CAP && t.s.cache == []
    && t.asked == t.answered
  }

  lemma StartInv(stream: seq<Byte>, t: State, whole: bool)
    requires Start(t)
    ensures Inv(stream, t, whole)
  {}

  lemma PosWords(pos: int)
    ensures pos / WORD * WORD + pos % WORD == pos
  {}

  lemma ClientFlags(stream: seq<Byte>, t: State, size: nat, seekTo: nat, seeks: bool)
    requires ClientEnabled(t) && Flags(t)
    ensures Flags(ClientNext(t, stream, size, seekTo, seeks))
  {}

  lemma ClientRequest(stream: seq<Byte>, t: State, size: nat, seekTo: nat, seeks: bool)
    requires ClientEnabled(t) && Request(stream, t) && (t.c.pc == CCopy ==> t.c.pos + t.c.n >= 0)
    ensures Request(stream, ClientNext(t, stream, size, seekTo, seeks))
  {}

  lemma ClientWork(stream: seq<Byte>, t: State, size: nat, seekTo: nat, seeks: bool)
    requires ClientEnabled(t) && Flags(t) && Work(stream, t)
    ensures Work(stream, ClientNext(t, stream, size, seekTo, seeks))
  {
    hide Count, Holds;
  }

  lemma ClientResponse(stream: seq<Byte>, t: State, size: nat, seekTo: nat, seeks: bool)
    requires ClientEnabled(t) && Flags(t) && Request(stream, t) && Response(stream, t) && |t.data| == DATA_CAP
    ensures Response(stream, ClientNext(t, stream, size, seekTo, seeks))
  {
    hide Count;
  }

  /** No step of the client breaks the protocol. */
  lemma ClientKeeps(stream: seq<Byte>, t: State, whole: bool, size: nat, seekTo: nat, seeks: bool)
    requires ClientEnabled(t) && Inv(stream, t, whole)
    ensures Inv(stream, ClientNext(t, stream, size, seekTo, seeks), whole)
  {
    hide Count;
    ClientFlags(stream, t, size, seekTo, seeks);
    ClientRequest(stream, t, size, seekTo, seeks);
    ClientWork(stream, t, size, seekTo, seeks);
    ClientResponse(stream, t, size, seekTo, seeks);
    hide Flags, Request, Work, Response, CacheOk;
  }

  lemma BaseIs(pos: int)
    ensures Base(pos) <= pos < Base(pos) + BLOCK && (pos >= 0 ==> Base(pos) >= 0)
  {}

  lemma {:induction false} LookupOk(stream: seq<Byte>, cache: seq<Cached>, base: int, whole: bool)
    requires CacheOk(stream, cache, whole) && Lookup(cache, base).Body?
    ensures Part(stream, base, Lookup(cache, base).bytes, whole)
  {
    var i :| 0 <= i < |cache| && cache[i].base == base && cache[i].bytes == Lookup(cache, base).bytes;
  }

  /** A block just stored is the one found. */
  lemma {:induction false} LookupNew(cache: seq<Cached>, base: int, bytes: seq<Byte>)
    requires Lookup(cache, base).Failed?
    ensures Lookup(cache + [Cached(base, bytes)], base) == Body(bytes)
  {
    var more := cache + [Cached(base, bytes)];
    if cache != [] {
      assert more[1..] == cache[1..] + [Cached(base, bytes)];
      LookupNew(cache[1..], base, bytes);
    }
  }

  lemma LookupRest(cache: seq<Cached>, base: int)
    requires Lookup(cache, base).Failed?
    ensures Lookup(Evict(cache), base).Failed?
  {}

  /** Whatever was evicted before, the part cut out of what was served is the part of the stream asked for, as far
      as it goes. */
  lemma CutRight(stream: seq<Byte>, s: Server, bytes: seq<Byte>, whole: bool)
    requires 1 <= s.want && 0 <= s.pos && s.pos + s.want <= |stream| && Part(stream, Base(s.pos), bytes, whole)
    ensures var u := Cut(s, bytes, Base(s.pos));
            && u.cache == s.cache && u.pos == s.pos && u.want == s.want && u.pc == SData && u.error == 0
            && u.n == Min(s.want, Base(s.pos) + |bytes| - s.pos) && |u.bytes| <= s.want && Holds(stream, s.pos, u.n, u.bytes)
  {
    BaseIs(s.pos);
    var base := Base(s.pos);
    var off := s.pos - base;
    var n := Min(s.want, |bytes| - off);
    if n >= 1 { SliceSlice(stream, base, base + |bytes|, off, off + n); }
  }

  /** When a read brings nothing: exactly if what was served ends at or before the position; and if it ends before
      the position, the count is negative and the reader moves back to that end. */
  lemma ShortBody(stream: seq<Byte>, cache: seq<Cached>, pos: int, want: nat, n: int, whole: bool)
    requires Count(cache, pos, want, n) && CacheOk(stream, cache, whole) && 1 <= want && 0 <= pos && pos + want <= |stream|
    ensures n >= 1 <==> pos < Base(pos) + |Lookup(cache, Base(pos)).bytes|
    ensures n < 0 <==> Base(pos) + |Lookup(cache, Base(pos)).bytes| < pos
    ensures n <= 0 ==> pos + n == Base(pos) + |Lookup(cache, Base(pos)).bytes| >= 1
    ensures whole ==> n == Share(stream, pos, want) >= 1
  {
    LookupOk(stream, cache, Base(pos), whole);
    BaseIs(pos);
  }

  /** It happens with a server that is only truthful: the reply to a whole block names its first byte, and the read
      is for one further on. */
  lemma ShortHappens(stream: seq<Byte>, s: Server)
    requires 1 <= s.want && 0 <= s.pos && s.pos + s.want <= |stream| && Base(s.pos) + 1 < s.pos && Lookup(s.cache, Base(s.pos)).Failed?
    ensures 0 <= Base(s.pos) < |stream|
    ensures var r := Reply(206, Span(Base(s.pos), Base(s.pos)), [stream[Base(s.pos)]]);
            && HonestReply(stream, Base(s.pos), r, false) && FetchBlock(Base(s.pos), r) == Body(r.body)
            && Serve(s, Body(r.body)).pc == SData && Serve(s, Body(r.body)).n < 0
  {
    BaseIs(s.pos);
  }

  lemma ServeRight(stream: seq<Byte>, s: Server, f: Fetched, whole: bool)
    requires CacheOk(stream, s.cache, whole) && Honest(stream, Base(s.pos), f, whole)
    requires 1 <= s.want && 0 <= s.pos && s.pos + s.want <= |stream|
    ensures var u := Serve(s, f);
            && CacheOk(stream, u.cache, whole) && u.pos == s.pos && u.want == s.want
            && ((u.pc == SError && u.error != 0)
                || (u.pc == SData && u.error == 0 && |u.bytes| <= s.want && u.n <= s.want && Holds(stream, s.pos, u.n, u.bytes)
                    && Count(u.cache, s.pos, s.want, u.n)))
  {
    hide Cut, Lookup, Holds, Part;
    var base := Base(s.pos);
    var hit := Lookup(s.cache, base);
    if hit.Body? {
      LookupOk(stream, s.cache, base, whole);
      CutRight(stream, s, hit.bytes, whole);
    } else if f.Body? {
      LookupRest(s.cache, base);
      LookupNew(Evict(s.cache), base, f.bytes);
      CutRight(stream, s.(cache := Evict(s.cache) + [Cached(base, f.bytes)]), f.bytes, whole);
    }
  }

  /** A request for nothing is answered with nothing, and is no error. */
  lemma NothingServed(s: Server, f: Fetched)
    requires s.want <= 0
    ensures var u := Serve(s, f); u.pc == SDone && u.n == 0 && u.bytes == [] && u.error == 0 && u.cache == s.cache
  {}

  /** Serving a request drops at most the oldest of sixteen blocks, and only when it has to fetch: every other block is
      still found. A block that was served is found, so that a request in it asks nothing of the network. */
  lemma BlocksStay(s: Server, f: Fetched, base: int)
    requires Lookup(s.cache, base).Body?
    requires |s.cache| < 16 || s.cache[0].base != base || Lookup(s.cache, Base(s.pos)).Body?
    ensures Lookup(Serve(s, f).cache, base) == Lookup(s.cache, base)
  {
    if s.want > 0 && Lookup(s.cache, Base(s.pos)).Failed? {
      hide Lookup, Cut;
      LookupLater(s.cache, base);
      if f.Body? { LookupMore(Evict(s.cache), base, Cached(Base(s.pos), f.bytes)); }
    }
  }

  lemma LookupLater(cache: seq<Cached>, base: int)
    requires Lookup(cache, base).Body? && (|cache| < 16 || cache[0].base != base)
    ensures Lookup(Evict(cache), base) == Lookup(cache, base)
  {}

  lemma {:induction false} LookupMore(cache: seq<Cached>, base: int, more: Cached)
    requires Lookup(cache, base).Body?
    ensures Lookup(cache + [more], base) == Lookup(cache, base)
  {
    if cache[0].base != base {
      assert (cache + [more])[1..] == cache[1..] + [more];
      LookupMore(cache[1..], base, more);
    }
  }

  /** A block that was served is there for the next request in it, whatever the network would do then. */
  lemma ServedIsThere(s: Server, f: Fetched, g: Fetched, pos: int, want: int)
    requires s.want > 0 && Serve(s, f).pc == SData && Base(pos) == Base(s.pos)
    ensures var u := Serve(s, f).(pos := pos, want := want);
            Serve(u, g) == Serve(u, f) && Serve(u, g).cache == u.cache && Serve(u, g).error == 0
  {
    hide Lookup;
    var base := Base(s.pos);
    if Lookup(s.cache, base).Failed? && f.Body? {
      LookupRest(s.cache, base);
      LookupNew(Evict(s.cache), base, f.bytes);
    }
  }

  lemma ServerFlags(stream: seq<Byte>, t: State, f: Fetched)
    requires ServerEnabled(t) && Flags(t)
    requires t.s.pc == SServe ==> Serve(t.s, f).pc in {SData, SDone, SError}
    ensures Flags(ServerNext(t, stream, f))
  {
    hide Serve;
  }

  lemma ServerRequest(stream: seq<Byte>, t: State, f: Fetched)
    requires ServerEnabled(t) && Request(stream, t)
    ensures Request(stream, ServerNext(t, stream, f))
  {
    hide Serve;
  }

  /** What was read out of the answer is still what the data region starts with. */
  lemma PutHolds(stream: seq<Byte>, pos: int, n: int, data: seq<Byte>, bytes: seq<Byte>)
    requires |bytes| <= |data| && Holds(stream, pos, n, bytes)
    ensures |Put(data, bytes)| == |data| && Holds(stream, pos, n, Put(data, bytes))
  {
    if n >= 1 { assert Put(data, bytes)[..n] == bytes[..n]; }
  }

  lemma ServerWork(stream: seq<Byte>, t: State, f: Fetched)
    requires ServerEnabled(t) && Flags(t) && Request(stream, t) && Work(stream, t) && |t.data| == DATA_CAP
    requires t.s.pc == SServe ==>
               var u := Serve(t.s, f);
               && u.pos == t.s.pos && u.want == t.s.want
               && ((u.pc == SError && u.error != 0)
                   || (u.pc == SData && u.error == 0 && |u.bytes| <= u.want && u.n <= u.want
                       && Holds(stream, u.pos, u.n, u.bytes) && Count(u.cache, u.pos, u.want, u.n)))
    ensures Work(stream, ServerNext(t, stream, f))
  {
    hide Serve, Count, Holds, Put;
    PosWords(t.c.pos);
    if t.s.pc == SData { PutHolds(stream, t.c.pos, t.s.n, t.data, t.s.bytes); }
  }

  lemma ServerResponse(stream: seq<Byte>, t: State, f: Fetched)
    requires ServerEnabled(t) && Flags(t) && Work(stream, t) && Response(stream, t)
    ensures Response(stream, ServerNext(t, stream, f))
  {
    hide Serve, Count, Holds, Put;
  }

  /** No step of the server breaks the protocol, whatever a fetch brings. */
  lemma ServerKeeps(stream: seq<Byte>, t: State, f: Fetched, whole: bool)
    requires ServerEnabled(t) && Inv(stream, t, whole) && Honest(stream, Base(t.s.pos), f, whole)
    ensures Inv(stream, ServerNext(t, stream, f), whole)
  {
    hide Count, Holds, Serve;
    if t.s.pc == SServe { ServeRight(stream, t.s, f, whole); }
    ServerFlags(stream, t, f);
    ServerRequest(stream, t, f);
    ServerWork(stream, t, f);
    ServerResponse(stream, t, f);
    if t.s.pc == SData { PutHolds(stream, t.c.pos, t.s.n, t.data, t.s.bytes); }
    hide Flags, Request, Response, CacheOk, Put;
  }

  // ----- runs -----

  ghost predicate ClientStep(stream: seq<Byte>, t: State, u: State)
  {
    ClientEnabled(t) && exists size, seekTo, seeks :: u == ClientNext(t, stream, size, seekTo, seeks)
  }

  ghost predicate ServerStep(stream: seq<Byte>, t: State, u: State, whole: bool)
  {
    ServerEnabled(t) && exists f :: Honest(stream, Base(t.s.pos), f, whole) && u == ServerNext(t, stream, f)
  }

  /** Any interleaving of the two workers' steps. */
  ghost predicate IsRun(stream: seq<Byte>, run: seq<State>, whole: bool)
  {
    |run| > 0 && Start(run[0])
    && forall i :: 0 <= i < |run| - 1 ==> ClientStep(stream, run[i], run[i + 1]) || ServerStep(stream, run[i], run[i + 1], whole)
  }

  lemma StepKeeps(stream: seq<Byte>, t: State, u: State, whole: bool)
    requires Inv(stream, t, whole) && (ClientStep(stream, t, u) || ServerStep(stream, t, u, whole))
    ensures Inv(stream, u, whole)
  {
    hide Inv, ClientNext, ServerNext, Honest;
    if ClientStep(stream, t, u) {
      var size, seekTo, seeks :| u == ClientNext(t, stream, size, seekTo, seeks);
      ClientKeeps(stream, t, whole, size, seekTo, seeks);
    } else {
      var f :| Honest(stream, Base(t.s.pos), f, whole) && u == ServerNext(t, stream, f);
      ServerKeeps(stream, t, f, whole);
    }
  }

  lemma {:induction false} RunInv(stream: seq<Byte>, run: seq<State>, whole: bool, k: nat)
    requires IsRun(stream, run, whole) && k < |run|
    ensures Inv(stream, run[k], whole)
    decreases k
  {
    hide Inv, Start, ClientStep, ServerStep;
    if k == 0 {
      StartInv(stream, run[0], whole);
    } else {
      RunInv(stream, run, whole, k - 1);
      assert ClientStep(stream, run[k - 1], run[k]) || ServerStep(stream, run[k - 1], run[k], whole);
      StepKeeps(stream, run[k - 1], run[k], whole);
    }
  }

  lemma EndOfRead(stream: seq<Byte>, t: State, whole: bool)
    requires Inv(stream, t, whole) && t.c.pc == CEnd
    ensures var at := t.c.from;
            var b := Lookup(t.s.cache, at / 65536 * 65536);
            && b.Body? && 0 <= at < |stream| && t.c.pos == at + t.c.n <= |stream| && t.c.n <= t.c.size
            && (t.c.n >= 1 ==> t.c.got == stream[at..at + t.c.n])
            && |t.c.got| == (if t.c.n >= 0 then t.c.n else 262144 + t.c.n)
            && (t.c.n >= 1 <==> at < at / 65536 * 65536 + |b.bytes|)
            && (whole ==> t.c.n == Min(Min(t.c.size, 262144), Min(|stream|, at / 65536 * 65536 + 65536) - at) >= 1)
  {
    hide Flags, Work, CacheOk, Lookup;
    ShortBody(stream, t.s.cache, t.c.from, t.c.want, t.c.n, whole);
  }

  /** In every reachable state, with any truthful server: requests and responses alternate, one response each, and
      the cache is bounded. A read that ends stands behind what it has brought, which is never more than was asked
      for and exactly the stream's bytes from where it began; it has brought some exactly if what was served for its
      block goes beyond that place; and if blocks are whole, it has brought all that was asked for, up to the
      capacity of the data region, the end of the block and the end of the stream. */
  lemma Safety(stream: seq<Byte>, run: seq<State>, whole: bool, k: nat)
    requires IsRun(stream, run, whole) && k < |run|
    ensures var t := run[k];
            && t.answered <= t.asked <= t.answered + 1
            && (t.res ==> !t.req && t.answered == t.asked)
            && (t.c.pc in {CError, CDone, CCopy} ==> t.s.pc in {SLoad, SWait, SAsleep, SNotify})
            && |t.s.cache| <= 16 && |t.data| == 262144 && 0 <= t.c.pos
            && (t.c.pc in {CNotify, CLoad, CWait, CAsleep} ==>
                  t.posHi * 0x1_0000_0000 + t.posLo == t.c.pos && t.posLo < 0x1_0000_0000 && t.len == t.c.want)
    ensures run[k].c.pc == CFail ==> run[k].c.pos == run[k].c.from
    ensures run[k].c.pc == CEnd ==>
              var t, at := run[k], run[k].c.from;
              var b := Lookup(t.s.cache, at / 65536 * 65536);
              && b.Body? && 0 <= at < |stream| && t.c.pos == at + t.c.n <= |stream| && t.c.n <= t.c.size
              && (t.c.n >= 1 ==> t.c.got == stream[at..at + t.c.n])
              && |t.c.got| == (if t.c.n >= 0 then t.c.n else 262144 + t.c.n)
              && (t.c.n >= 1 <==> at < at / 65536 * 65536 + |b.bytes|)
              && (whole ==> t.c.n == Min(Min(t.c.size, 262144), Min(|stream|, at / 65536 * 65536 + 65536) - at) >= 1)
  {
    RunInv(stream, run, whole, k);
    var t := run[k];
    if t.c.pc == CEnd { EndOfRead(stream, t, whole); }
    hide IsRun, CacheOk, Work, Response, Lookup, Base;
  }

  /** A read of nothing, or at or behind the end, leaves everything at rest; any other one starts, for what was asked. */
  lemma ReadStarts(stream: seq<Byte>, t: State, size: nat, seekTo: nat)
    requires t.c.pc == CIdle && 0 <= t.c.pos
    ensures size == 0 || t.c.pos >= |stream| ==> ClientNext(t, stream, size, seekTo, false) == t
    ensures size > 0 && t.c.pos < |stream| ==>
              var u := ClientNext(t, stream, size, seekTo, false);
              && u.c.pc == CLo && u.c.size == size && u.c.from == u.c.pos == t.c.pos
              && u == t.(c := u.c)
  {}

  /** The response flag is clear when a request is posted, whatever it was before, and set when it is answered. */
  lemma FlagsTurned(stream: seq<Byte>, t: State, u: State, f: Fetched)
    requires t.c.pc == CClear && u.s.pc == SRes
    ensures !ClientNext(t, stream, 0, 0, false).res && ClientNext(t, stream, 0, 0, false).c.pc == CReq
    ensures ServerNext(u, stream, f).res && ServerNext(u, stream, f).s.pc == SNotify
  {}

  /** A seek moves the reader there, and nothing else. */
  lemma SeekMoves(stream: seq<Byte>, t: State, size: nat, seekTo: nat)
    requires t.c.pc == CIdle
    ensures var u := ClientNext(t, stream, size, seekTo, true);
            u.c.pos == seekTo && u.c.pc == CIdle && u == t.(c := u.c) && u.c == t.c.(pos := seekTo)
  {}

  lemma StepFrom(stream: seq<Byte>, t: State, u: State, whole: bool)
    requires t.c.pc != CIdle && (ClientStep(stream, t, u) || ServerStep(stream, t, u, whole))
    ensures u.c.size == t.c.size && u.c.from == t.c.from
  {
    hide Honest, Serve;
  }

  /** One call, over any interleaving: from the state the reader is at rest in to the one the read ends in. The bytes
      are those from where the reader stood when it was called, and it then stands behind them. */
  lemma {:induction false} ReadBrings(stream: seq<Byte>, run: seq<State>, whole: bool, i: nat, j: nat)
    requires IsRun(stream, run, whole) && i < j < |run| && run[i].c.pc == CIdle
    requires forall k :: i < k <= j ==> run[k].c.pc != CIdle
    ensures run[j].c.from == run[i].c.pos && run[j].c.size == run[i + 1].c.size
    ensures run[j].c.pc == CEnd ==>
              && run[j].c.n <= run[i + 1].c.size && run[j].c.pos == run[i].c.pos + run[j].c.n
              && 0 <= run[i].c.pos && 0 <= run[j].c.pos <= |stream|
              && (run[j].c.n >= 1 ==> run[j].c.got == stream[run[i].c.pos..run[j].c.pos])
    ensures run[j].c.pc == CFail ==> run[j].c.pos == run[i].c.pos
    decreases j
  {
    hide Inv, Start, ClientStep, ServerStep;
    assert ClientStep(stream, run[j - 1], run[j]) || ServerStep(stream, run[j - 1], run[j], whole);
    if j == i + 1 {
      FirstStep(stream, run[i], run[j], whole);
    } else {
      ReadBrings(stream, run, whole, i, j - 1);
      StepFrom(stream, run[j - 1], run[j], whole);
    }
    Safety(stream, run, whole, j);
  }

  lemma FirstStep(stream: seq<Byte>, t: State, u: State, whole: bool)
    requires t.c.pc == CIdle && u.c.pc != CIdle && (ClientStep(stream, t, u) || ServerStep(stream, t, u, whole))
    ensures u.c.pc == CLo && u.c.from == u.c.pos == t.c.pos
  {
    hide Honest, Serve;
  }

  // ----- progress -----

  /** Steps still ahead of the client while a read is under way. */
  function ClientRank(t: State): nat
  {
    match t.c.pc
    case CIdle => 0
    case CLo => 105 case CHi => 104 case CLen => 103 case CClear => 102 case CReq => 101
    case CNotify => if t.res then 10 else 30
    case CLoad => if t.res then 7 else 29
    case CWait => if t.res then 8 else 28
    case CAsleep => if t.res then 9 else 27
    case CError => 6 case CDone => 5 case CCopy => 4 case CEnd => 3 case CFail => 3
  }

  function ServerRank(t: State): nat
  {
    match t.s.pc
    case SNotify => if Waiting(t.c.pc) && !t.res then 20 else 6
    case SLoad => if Waiting(t.c.pc) && !t.res then 11 else 2
    case SWait => if Waiting(t.c.pc) && !t.res then 12 else 1
    case SAsleep => if Waiting(t.c.pc) && !t.res then 12 else 0
    case SAck => 10 case SHi => 9 case SLo => 8 case SLen => 7 case SServe => 6
    case SData => 5 case SDone => 4 case SError => 3 case SRes => 2
  }

  function Rank(t: State): nat { ClientRank(t) + ServerRank(t) }

  lemma ClientProgress(stream: seq<Byte>, t: State, size: nat, seekTo: nat, seeks: bool)
    requires ClientEnabled(t) && Flags(t) && t.c.pc != CIdle
    ensures var u := ClientNext(t, stream, size, seekTo, seeks); u.c.pc == CIdle || Rank(u) < Rank(t)
  {}

  lemma ServerProgress(stream: seq<Byte>, t: State, f: Fetched)
    requires ServerEnabled(t) && Flags(t) && t.c.pc != CIdle
    requires t.s.pc == SServe ==> Serve(t.s, f).pc in {SData, SDone, SError}
    ensures Rank(ServerNext(t, stream, f)) < Rank(t)
  {
    hide Serve;
  }

  lemma StepProgress(stream: seq<Byte>, t: State, u: State, whole: bool)
    requires Inv(stream, t, whole) && t.c.pc != CIdle && (ClientStep(stream, t, u) || ServerStep(stream, t, u, whole))
    ensures u.c.pc == CIdle || Rank(u) < Rank(t)
  {
    hide ClientNext, ServerNext, Honest, Rank, Request, Work, Response, Flags, Serve;
    if ClientStep(stream, t, u) {
      var size, seekTo, seeks :| u == ClientNext(t, stream, size, seekTo, seeks);
      ClientProgress(stream, t, size, seekTo, seeks);
    } else {
      var f :| Honest(stream, Base(t.s.pos), f, whole) && u == ServerNext(t, stream, f);
      ServePcs(t.s, f);
      ServerProgress(stream, t, f);
    }
  }

  lemma ServePcs(s: Server, f: Fetched)
    ensures Serve(s, f).pc in {SData, SDone, SError}
  {}

  /** No reachable state with a read under way is stuck: one of the workers has a step. */
  lemma NoDeadlock(stream: seq<Byte>, run: seq<State>, whole: bool, k: nat)
    requires IsRun(stream, run, whole) && k < |run| && run[k].c.pc != CIdle
    ensures ClientEnabled(run[k]) || ServerEnabled(run[k])
  {
    RunInv(stream, run, whole, k);
    hide IsRun, Request, Work, Response, CacheOk;
  }

  /** And a read ends whatever the scheduling: within as many steps as its rank, of either worker. */
  lemma {:induction false} ReadEnds(stream: seq<Byte>, run: seq<State>, whole: bool, k: nat) returns (j: nat)
    requires IsRun(stream, run, whole) && k < |run| && k + Rank(run[k]) < |run| - 1
    ensures k <= j < |run| && run[j].c.pc == CIdle
    decreases Rank(run[k])
  {
    hide Inv, Rank, Start, ClientStep, ServerStep;
    if run[k].c.pc == CIdle {
      j := k;
    } else {
      RunInv(stream, run, whole, k);
      assert ClientStep(stream, run[k], run[k + 1]) || ServerStep(stream, run[k], run[k + 1], whole);
      StepProgress(stream, run[k], run[k + 1], whole);
      if run[k + 1].c.pc == CIdle {
        j := k + 1;
      } else {
        j := ReadEnds(stream, run, whole, k + 1);
      }
    }
  }
}

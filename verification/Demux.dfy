/** The demuxer's window: a compacting buffer over a reader that may deliver less than it is asked for. */
module Demuxing {
  import opened BitStrings
  import opened BitReading
  import opened Integers
  import opened Sizes

  const DEMUX_BUFFER_SIZE: nat := 65536 - 4352
  const U64_LIMIT: nat := 0x1_0000_0000_0000_0000

  function Least(a: int, b: int): int { if a < b then a else b }

  /** A memory reader, made unreliable: `script` says what each of the next reads delivers at most, -1 for an
      error, and `seekScript` which of the next seeks work; once they are used up, reads deliver all they can and
      seeks work up to the end. */
  class Reader {
    const stream: seq<Byte>
    const canSeek: bool
    var at: nat
    var script: seq<int>
    var seekScript: seq<bool>

    ghost predicate Valid()
      reads this
    {
      at <= |stream|
    }

    /** No read delivers nothing before the end; reads may be short or fail. */
    ghost predicate Sincere()
      reads this
    {
      forall i :: 0 <= i < |script| ==> script[i] != 0
    }

    /** Besides, nothing fails. */
    ghost predicate Steady()
      reads this
    {
      (forall i :: 0 <= i < |script| ==> script[i] >= 1) && (forall i :: 0 <= i < |seekScript| ==> seekScript[i])
    }

    lemma SteadySincere()
      ensures Steady() ==> Sincere()
    {}

    constructor (stream: seq<Byte>, canSeek: bool, script: seq<int>, seekScript: seq<bool>)
      ensures Valid() && this.stream == stream && this.canSeek == canSeek && at == 0
      ensures this.script == script && this.seekScript == seekScript
    {
      this.stream, this.canSeek, this.at, this.script, this.seekScript := stream, canSeek, 0, script, seekScript;
    }

    method Read(buffer: array<Byte>, off: nat, request: nat) returns (n: int)
      requires Valid() && off + request <= buffer.Length
      modifies this`at, this`script, buffer
      ensures Valid() && -1 <= n <= request
      ensures n == if old(script) == [] then Least(request, |stream| - old(at)) else if old(script)[0] < 0 then -1
                   else Least(Least(request, old(script)[0]), |stream| - old(at))
      ensures script == if old(script) == [] then [] else old(script)[1..]
      ensures n == -1 ==> at == old(at) && buffer[..] == old(buffer[..])
      ensures n >= 0 ==>
                && at == old(at) + n
                && buffer[..off] == old(buffer[..off]) && buffer[off..off + n] == stream[old(at)..at]
      ensures old(Sincere()) ==> Sincere() && (n == 0 ==> request == 0 || at == |stream|)
      ensures old(Steady()) ==> Steady() && n >= 0
    {
      var want: int := request;
      if script != [] {
        want := if script[0] < 0 then -1 else if script[0] < request then script[0] else request;
        script := script[1..];
      }
      if want < 0 { return -1; }
      var avail := |stream| - at;
      n := if want < avail then want else avail;
      CopyIn(buffer, off, stream[at..at + n]);
      at := at + n;
    }

    method Seek(offset: nat) returns (ok: bool)
      requires Valid()
      modifies this`at, this`seekScript
      ensures Valid() && ok == (offset <= |stream| && (old(seekScript) == [] || old(seekScript)[0]))
      ensures at == if ok then offset else old(at)
      ensures old(Sincere()) ==> Sincere()
      ensures old(Steady()) ==> Steady() && ok == (offset <= |stream|)
    {
      var works := true;
      if seekScript != [] {
        works := seekScript[0];
        seekScript := seekScript[1..];
      }
      if !works || offset > |stream| { return false; }
      at := offset;
      ok := true;
    }
  }

  /** Bytes into the buffer, from `off` on. */
  method CopyIn(buffer: array<Byte>, off: nat, src: seq<Byte>)
    requires off + |src| <= buffer.Length
    modifies buffer
    ensures buffer[..off] == old(buffer[..off]) && buffer[off..off + |src|] == src
  {
    var i := 0;
    while i < |src|
      invariant 0 <= i <= |src|
      invariant forall k :: 0 <= k < off ==> buffer[k] == old(buffer[k])
      invariant forall k :: 0 <= k < i ==> buffer[off + k] == src[k]
    {
      buffer[off + i] := src[i];
      i := i + 1;
    }
  }

  /** How much a fill aims at. */
  function Target(minBytes: nat, full: bool, canSeek: bool, unread: int): nat
  {
    var t := if minBytes == 0 || minBytes > DEMUX_BUFFER_SIZE then DEMUX_BUFFER_SIZE else minBytes;
    if full && unread < t && canSeek then DEMUX_BUFFER_SIZE else t
  }

  datatype Option<T> = None | Some(value: T)

  lemma DropFront<T>(x: seq<T>, y: seq<T>, i: nat)
    requires i <= |x|
    ensures (x + y)[i..] == x[i..|x|] + y
  {}

  lemma SplitAt<T>(s: seq<T>, i: nat, j: nat, k: nat)
    requires i <= j <= k <= |s|
    ensures s[i..k] == s[i..j] + s[j..k]
  {}

  lemma WindowAt0(d: Demux)
    requires d.Valid()
    ensures d.buffer.Length == 65536 && d.bytesTotal <= 65536 && d.r.at <= |d.r.stream| && 0 <= d.Here()
  {}

  lemma NoEnd(s: seq<Byte>)
    requires s == []
    ensures !Ends(s)
  {}

  /** Four bytes in front of the buffer, which the bit reader may look at. */
  lemma Padded(s: seq<Byte>, buff: int, count: int)
    requires 0 <= 8 * buff + 8 - count <= 8 * |s|
    ensures BytesToBits([0, 0, 0, 0] + s)[32 + 8 * buff + 8 - count..] == BytesToBits(s)[8 * buff + 8 - count..]
  {
    hide BytesToBits;
    BytesConcat([0, 0, 0, 0], s);
    DropDrop(BytesToBits([0, 0, 0, 0]) + BytesToBits(s), 32, 8 * buff + 8 - count);
    TakePrefix(BytesToBits([0, 0, 0, 0]), BytesToBits(s));
  }

  /** A fill aims for what it is asked for; for the whole window, if it is asked for nothing or for too much, or if it is
      to fill up, has too little, and the source can seek. */
  lemma TargetExact(minBytes: nat, full: bool, canSeek: bool, unread: int)
    ensures Target(minBytes, full, canSeek, unread)
         == if 1 <= minBytes <= 61184 && !(full && canSeek && unread < minBytes) then minBytes else 61184
  {}

  lemma TargetReaches(minBytes: nat, full: bool, canSeek: bool, unread: int)
    ensures minBytes <= DEMUX_BUFFER_SIZE ==> Target(minBytes, full, canSeek, unread) >= minBytes
    ensures minBytes > DEMUX_BUFFER_SIZE ==> Target(minBytes, full, canSeek, unread) == DEMUX_BUFFER_SIZE
    ensures 1 <= Target(minBytes, full, canSeek, unread) <= DEMUX_BUFFER_SIZE
  {}

  /** Moving bytes towards the front, in order. */
  method MoveDown(buffer: array<Byte>, from: nat, n: nat)
    requires from + n <= buffer.Length
    modifies buffer
    ensures buffer[..n] == old(buffer[from..from + n])
  {
    ghost var was := buffer[..];
    var i := 0;
    while i < n
      invariant 0 <= i <= n
      invariant forall k :: 0 <= k < i ==> buffer[k] == was[from + k]
      invariant forall k :: i <= k < buffer.Length ==> buffer[k] == was[k]
    {
      buffer[i] := buffer[from + i];
      i := i + 1;
    }
  }

  class Demux {
    const r: Reader
    const buffer: array<Byte>
    var bytesTotal: nat
    var buff: int        // index of the reader's current byte
    var count: nat       // unread bits in it
    var readError: bool
    var blockBits: int
    var blockFrames: nat

    /** The window holds the stream's bytes up to where the reader stands. */
    ghost predicate Valid()
      reads this, buffer, r
    {
      && r.Valid() && buffer.Length == 65536 && bytesTotal <= DEMUX_BUFFER_SIZE && bytesTotal <= r.at && count <= 8
      && buffer[..bytesTotal] == r.stream[r.at - bytesTotal..r.at]
      && (if count == 0 then -1 else 0) <= buff <= 65535
    }

    constructor (r: Reader)
      requires r.Valid()
      ensures Valid() && this.r == r && fresh(buffer) && Here() == 8 * r.at && r.at == old(r.at)
    {
      this.r := r;
      buffer := new Byte[65536];
      bytesTotal, buff, count, readError, blockBits, blockFrames := 0, 0, 8, false, 0, 0;
    }

    /** The number of unread bytes; negative after reading past the end of the window. */
    function Unread(): int
      reads this`bytesTotal, this`buff, this`count
    {
      bytesTotal - buff - (if count == 0 then 1 else 0)
    }

    /** The bit position in the stream. */
    ghost function Here(): int
      reads this`bytesTotal, this`buff, this`count, r`at
    {
      8 * (r.at - bytesTotal + buff) + 8 - count
    }

    /** Whether a fill would have to move the window's content to its front. */
    predicate Compacts(minBytes: nat, full: bool)
      reads this`bytesTotal, this`buff, this`count
    {
      var t := Target(minBytes, full, r.canSeek, Unread());
      0 <= Unread() < t && t - Unread() > DEMUX_BUFFER_SIZE - bytesTotal
    }

    method Clear()
      requires r.Valid() && buffer.Length == 65536
      modifies this
      ensures Valid() && bytesTotal == 0 && buff == 0 && count == 8 && !readError && blockBits == 0 && blockFrames == 0
    {
      bytesTotal, buff, count, readError, blockBits, blockFrames := 0, 0, 8, false, 0, 0;
    }

    /** Moves the unread bytes to the front. */
    method Compact()
      requires Valid() && Unread() >= 0
      modifies this`bytesTotal, this`buff, this`count, buffer
      ensures Valid() && Here() == old(Here()) && Unread() == old(Unread()) && buff == 0 && bytesTotal == Unread()
      ensures count == if old(count) == 0 then 8 else old(count)
    {
      var unread := Unread();
      if count == 0 {
        count := 8;
        buff := buff + 1;
      }
      ghost var was := buffer[..];
      MoveDown(buffer, buff, unread);
      Moved(was, buffer[..], r.stream, r.at, bytesTotal, buff, unread);
      bytesTotal, buff := unread, 0;
    }

    /** `mpc_demux_fill`, without word swapping. The position never moves; the window stays within its capacity;
        when the reader delivers all it can, only the end of the stream leaves less than was aimed at. */
    method Fill(minBytes: nat, full: bool) returns (n: nat)
      requires Valid()
      modifies this`bytesTotal, this`buff, this`count, this`readError, buffer, r
      ensures Valid() && Here() == old(Here())
      ensures n == if old(Unread()) < 0 then 0 else Unread()
      ensures old(Unread()) >= 0 ==> Unread() >= old(Unread())
      ensures if old(Compacts(minBytes, full)) then buff == 0 && count == (if old(count) == 0 then 8 else old(count))
              else buff == old(buff) && count == old(count)
      ensures old(r.Sincere()) ==>
                && r.Sincere()
                && (old(Unread()) < 0 || n >= Target(minBytes, full, r.canSeek, old(Unread())) || r.at == |r.stream| || readError)
      ensures old(r.Steady()) ==>
                && r.Steady() && readError == old(readError)
                && (old(Unread()) < 0 || n >= Target(minBytes, full, r.canSeek, old(Unread())) || r.at == |r.stream|)
                && (r.at, bytesTotal) == Filled(old(r.at), old(bytesTotal), old(Unread()), |r.stream|,
                                                Target(minBytes, full, r.canSeek, old(Unread())))
      ensures old(Unread()) < 0 ==> r.at == old(r.at) && readError == old(readError)
    {
      hide Reader.Steady, Reader.Sincere, Target;
      if Unread() < 0 { return 0; }
      var target := Target(minBytes, full, r.canSeek, Unread());
      TargetReaches(minBytes, full, r.canSeek, Unread());
      if Unread() >= target { return Unread(); }
      TopUp(target);
      n := Unread();
    }

    /** Reads what is missing, behind the window or, if there is no room, behind its unread end. */
    method TopUp(target: nat)
      requires Valid() && 0 <= Unread() < target <= DEMUX_BUFFER_SIZE
      modifies this`bytesTotal, this`buff, this`count, this`readError, buffer, r
      ensures Valid() && Here() == old(Here()) && Unread() >= old(Unread())
      ensures if target - old(Unread()) > DEMUX_BUFFER_SIZE - old(bytesTotal)
              then buff == 0 && count == (if old(count) == 0 then 8 else old(count))
              else buff == old(buff) && count == old(count)
      ensures old(r.Sincere()) ==> r.Sincere() && (Unread() >= target || r.at == |r.stream| || readError)
      ensures old(r.Steady()) ==>
                && r.Steady() && readError == old(readError) && (Unread() >= target || r.at == |r.stream|)
                && (r.at, bytesTotal) == Filled(old(r.at), old(bytesTotal), old(Unread()), |r.stream|, target)
    {
      hide Reader.Steady, Reader.Sincere;
      var bytes2read := target - Unread();
      if bytes2read > DEMUX_BUFFER_SIZE - bytesTotal {
        Compact();
      }
      var bytesread := ReadAll(bytes2read);
      ZeroFill(bytes2read - bytesread);
    }

    /** Zeros behind the window, where too little came. */
    method ZeroFill(n: nat)
      requires Valid() && bytesTotal + n <= buffer.Length
      modifies buffer
      ensures Valid() && forall i :: bytesTotal <= i < bytesTotal + n ==> buffer[i] == 0
    {
      ghost var was := buffer[..bytesTotal];
      forall i | bytesTotal <= i < bytesTotal + n { buffer[i] := 0; }
      assert buffer[..bytesTotal] == was;
    }

    /** One call of the reader: what it delivers extends the window. */
    method ReadSome(request: nat) returns (result: int)
      requires Valid() && request <= DEMUX_BUFFER_SIZE - bytesTotal
      modifies this`bytesTotal, buffer, r
      ensures Valid() && -1 <= result <= request
      ensures var n := if result < 0 then 0 else result; bytesTotal == old(bytesTotal) + n && r.at == old(r.at) + n
      ensures old(r.Sincere()) ==> r.Sincere() && (result == 0 ==> request == 0 || r.at == |r.stream|)
      ensures old(r.Steady()) ==> r.Steady() && result >= 0
    {
      hide Reader.Steady, Reader.Sincere;
      ghost var was, at, total := buffer[..], r.at, bytesTotal;
      result := r.Read(buffer, bytesTotal, request);
      if result < 0 {
        assert buffer[..total] == was[..total];
        return;
      }
      Appended(was, buffer[..], r.stream, at, total, result);
      bytesTotal := bytesTotal + result;
    }

    /** The read loop. */
    method ReadAll(bytes2read: nat) returns (bytesread: nat)
      requires Valid() && bytes2read <= DEMUX_BUFFER_SIZE - bytesTotal
      modifies this`bytesTotal, this`readError, buffer, r
      ensures Valid() && bytesread <= bytes2read && bytesTotal == old(bytesTotal) + bytesread && r.at == old(r.at) + bytesread
      ensures old(r.Sincere()) ==> r.Sincere() && (bytesread == bytes2read || r.at == |r.stream| || readError)
      ensures old(r.Steady()) ==>
                r.Steady() && readError == old(readError) && (bytesread == bytes2read || r.at == |r.stream|)
    {
      hide Reader.Steady, Reader.Sincere;
      r.SteadySincere();
      bytesread := 0;
      while bytesread < bytes2read
        invariant Valid() && bytesread <= bytes2read
        invariant bytesTotal == old(bytesTotal) + bytesread && r.at == old(r.at) + bytesread
        invariant old(r.Sincere()) ==> r.Sincere()
        invariant old(r.Steady()) ==> r.Steady() && readError == old(readError)
        decreases bytes2read - bytesread
      {
        var result := ReadSome(bytes2read - bytesread);
        if result < 0 {
          readError := true;
          break;
        }
        if result == 0 {
          break;
        }
        bytesread := bytesread + result;
      }
    }

    predicate Late(fpos: nat, minBytes: nat)
      reads this`bytesTotal, this`count, r`at
    {
      IsLate(r.at, bytesTotal, count, r.canSeek, fpos, minBytes)
    }

    predicate InWindow(fpos: nat)
      reads this`bytesTotal, r`at
    {
      8 * (r.at - bytesTotal) <= fpos < 8 * r.at
    }

    /** Puts the reader on the byte `fpos` lies in, within the window or by moving the source. */
    method Place(fpos: nat, ghost minBytes: nat) returns (ok: bool, bitOffset: nat)
      requires Valid()
      modifies this, r`at, r`seekScript
      ensures Valid() && bitOffset < 8 && (old(r.Steady()) ==> r.Steady()) && (old(r.Sincere()) ==> r.Sincere())
      ensures ok ==> bitOffset == fpos % 8 && 8 * (r.at - bytesTotal + buff) == fpos - bitOffset
      ensures ok ==> blockBits == 0 && blockFrames == 0
      ensures old(InWindow(fpos)) && 8 * old(r.at) < U64_LIMIT ==>
                ok && r.at == old(r.at) && bytesTotal == old(bytesTotal) && count == old(count)
                && buff == (fpos - 8 * (r.at - bytesTotal)) / 8
      ensures !old(InWindow(fpos)) && 8 * old(r.at) < U64_LIMIT ==>
                && ok == (r.canSeek && fpos / 8 <= |r.stream| && (old(r.seekScript) == [] || old(r.seekScript)[0]))
                && (ok ==> bytesTotal == 0 && buff == 0 && count == 8 && r.at == fpos / 8)
      ensures 8 * old(r.at) >= U64_LIMIT ==> !ok
      ensures old(r.Steady()) && 8 * old(r.at) < U64_LIMIT ==> ok == (old(InWindow(fpos)) || (r.canSeek && fpos / 8 <= |r.stream|))
      ensures ok ==> Unread() >= 0 && buff >= 0 && fpos / 8 <= |r.stream|
                     && Sought(old(r.at), old(bytesTotal), old(count), r.canSeek, |r.stream|, fpos, minBytes)
                        == Filled(r.at, bytesTotal, Unread(), |r.stream|, Target(Required(fpos, minBytes), false, r.canSeek, Unread()))
    {
      hide Target, Filled, Reader.Steady, Reader.Sincere;
      ok, bitOffset := false, 0;
      if 8 * r.at >= U64_LIMIT { return; }
      var start := 8 * (r.at - bytesTotal);
      if start <= fpos < 8 * r.at {
        buff := (fpos - start) / 8;
        bitOffset := fpos % 8;
        blockBits, blockFrames := 0, 0;
      } else {
        var nextPos := fpos / 8;
        if !r.canSeek { return; }
        var sought := r.Seek(nextPos);
        if !sought { return; }
        bitOffset := fpos - 8 * nextPos;
        Clear();
      }
      ok := true;
    }

    /** `mpc_demux_seek`. Success means the position asked for, except that the `Late` case lands one byte
        behind it: the branch for the window leaves the bit count of the previous position standing while the
        window is moved. */
    method Seek(fpos: nat, minBytes: nat) returns (ok: bool)
      requires Valid()
      modifies this, buffer, r
      ensures Valid()
      ensures ok ==> Here() == fpos + (if old(Late(fpos, minBytes)) then 8 else 0)
      ensures ok ==> !readError && blockBits == 0 && blockFrames == 0
      ensures ok ==> buff >= 0 && count == 8 - fpos % 8
      ensures ok ==> Unread() >= 0 && fpos / 8 <= |r.stream|
      ensures old(r.Sincere()) ==> r.Sincere() && (ok ==> buff + minBytes <= bytesTotal || r.at == |r.stream|)
      ensures old(r.Steady()) ==> r.Steady()
      ensures old(r.Steady()) && 8 * old(r.at) < U64_LIMIT && minBytes <= DEMUX_BUFFER_SIZE - 4 ==>
                (ok <==> old(InWindow(fpos)) || (r.canSeek && fpos / 8 <= |r.stream|))
      ensures old(r.Steady()) && ok ==>
                (r.at, bytesTotal) == Sought(old(r.at), old(bytesTotal), old(count), r.canSeek, |r.stream|, fpos, minBytes)
    {
      hide Target, Filled, Reader.Steady, Reader.Sincere;
      var bitOffset;
      ok, bitOffset := Place(fpos, minBytes);
      if !ok { return false; }
      if minBytes > DEMUX_BUFFER_SIZE - 4 { return false; }
      ok := Load(minBytes, bitOffset);
    }

    /** The fill behind the repositioning, and the bit count that goes with the position. */
    method Load(minBytes: nat, bitOffset: nat) returns (ok: bool)
      requires Valid() && bitOffset < 8 && minBytes <= DEMUX_BUFFER_SIZE - 4 && Unread() >= 0 && buff >= 0
      modifies this`bytesTotal, this`buff, this`count, this`readError, buffer, r
      ensures Valid() && (old(r.Steady()) ==> r.Steady() && ok)
      ensures old(r.Sincere()) ==> r.Sincere() && (ok ==> buff + minBytes <= bytesTotal || r.at == |r.stream|)
      ensures ok ==> !readError && buff >= 0 && count == 8 - bitOffset && Unread() >= 0
      ensures ok ==> Here() - bitOffset == old(Here()) - 8 + old(count) +
                     (if old(count) == 0 && old(Compacts(minBytes + (bitOffset + 7) / 8, false)) then 8 else 0)
      ensures old(r.Steady()) ==>
                (r.at, bytesTotal) == Filled(old(r.at), old(bytesTotal), old(Unread()), |r.stream|,
                                             Target(minBytes + (bitOffset + 7) / 8, false, r.canSeek, old(Unread())))
    {
      hide Target, Filled, Reader.Steady, Reader.Sincere;
      var required := minBytes + (bitOffset + 7) / 8;
      TargetReaches(required, false, r.canSeek, Unread());
      readError := false;
      var n := Fill(required, false);
      if readError { return false; }
      buff := buff + bitOffset / 8;
      count := 8 - bitOffset;
      ok := true;
    }

    /** All that lies in the buffer behind the reader's position, of the stream or not. */
    ghost function Ahead(): (b: Bits)
      requires buffer.Length == 65536 && 0 <= 8 * buff + 8 - count <= 8 * 65536
      reads this`buff, this`count, buffer
      ensures |b| == 8 * 65536 - (8 * buff + 8 - count)
    {
      BytesToBits(buffer[..])[8 * buff + 8 - count..]
    }

    /** The index of the byte at a byte boundary. */
    function Edge(): int
      reads this`buff, this`count
    {
      if count == 0 then buff + 1 else buff
    }

    /** Whether a block header at the reader ends within the buffer. */
    method HeaderEnds() returns (ends: bool)
      requires Valid() && (count == 0 || count == 8)
      ensures ends == BlockDec(Ahead()).Got?
    {
      hide BytesToBits, BlockDec, Ends;
      var st := Edge();
      AheadIs();
      BlockEnds(buffer[st..]);
      if st + 2 > 65536 { return false; }
      var e := st + 2;
      assert buffer[st..][2..] == buffer[e..];
      while e < 65536 && buffer[e] >= 128
        invariant st + 2 <= e <= 65536 && Ends(buffer[st..][2..]) == Ends(buffer[e..])
      {
        EndsLater(buffer[e..]);
        assert buffer[e..][1..] == buffer[e + 1..];
        e := e + 1;
      }
      ends := e < 65536;
      if ends { EndsHere(buffer[e..]); } else { NoEnd(buffer[e..]); }
    }

    lemma AheadIs()
      requires Valid() && (count == 0 || count == 8)
      ensures 0 <= Edge() <= 65536 && Ahead() == BytesToBits(buffer[Edge()..])
    {
      hide BytesToBits;
      BytesSlice(buffer[..], Edge(), 65536);
      assert buffer[..][Edge()..65536] == buffer[Edge()..];
      assert BytesToBits(buffer[..])[8 * Edge()..8 * 65536] == BytesToBits(buffer[..])[8 * Edge()..];
    }

    /** The next byte boundary, as an index. */
    function Border(): int
      reads this`buff, this`count
    {
      if count == 8 then buff else buff + 1
    }

    /** Drops the bits left in a byte that has been touched. */
    method ToByte()
      requires Valid()
      modifies this`count
      ensures Valid() && (count == 0 || count == 8)
      ensures Here() == 8 * (r.at - bytesTotal + old(Border())) && Unread() == bytesTotal - old(Border())
    {
      count := if count == 8 then 8 else 0;
    }

    /** Where a reader of the buffer has come to. */
    method Stand(at: int, unread: nat)
      requires Valid() && unread <= 8 && 0 <= 8 * at + 8 - unread <= 8 * 65535
      modifies this`buff, this`count
      ensures Valid() && buff == at && count == unread
    {
      buff, count := at, unread;
    }

    /** One frame of a block, of `bits` bits. */
    method Consume(bits: int)
      requires Valid() && blockFrames >= 1
      modifies this`blockBits, this`blockFrames
      ensures Valid() && blockBits == old(blockBits) - bits && blockFrames == old(blockFrames) - 1
    {
      blockBits, blockFrames := blockBits - bits, blockFrames - 1;
    }

    /** Over bytes that are in the window. */
    method Skip(size: nat)
      requires Valid() && (size == 0 || size <= Unread())
      modifies this`buff
      ensures Valid() && Here() == old(Here()) + 8 * size && Unread() == old(Unread()) - size
    {
      buff := buff + size;
    }

    /** The reader's view of the buffer, with four bytes in front that it may look at. */
    lemma PaddedAhead()
      requires buffer.Length == 65536 && 0 <= 8 * buff + 8 - count <= 8 * 65536
      ensures Ahead() == BytesToBits([0, 0, 0, 0] + buffer[..])[32 + 8 * buff + 8 - count..]
    {
      hide BytesToBits;
      Padded(buffer[..], buff, count);
    }

    /** What lies ahead begins with the stream from the position to the end of the window. */
    lemma WindowBits()
      requires Valid() && 0 <= Here() <= 8 * r.at
      ensures Ahead() == BytesToBits(r.stream)[Here()..8 * r.at] + BytesToBits(buffer[bytesTotal..])
    {
      hide BytesToBits;
      var x, y := BytesToBits(buffer[..bytesTotal]), BytesToBits(buffer[bytesTotal..]);
      var i := 8 * buff + 8 - count;
      assert buffer[..] == buffer[..bytesTotal] + buffer[bytesTotal..];
      BytesConcat(buffer[..bytesTotal], buffer[bytesTotal..]);
      BytesSlice(r.stream, r.at - bytesTotal, r.at);
      SliceSlice(BytesToBits(r.stream), 8 * (r.at - bytesTotal), 8 * r.at, i, 8 * bytesTotal);
      DropFront(x, y, i);
    }

    /** A block header that lies within the window is read as it was written. */
    lemma HeaderAhead(p: nat, key: (Byte, Byte), size: nat)
      requires Valid() && (count == 0 || count == 8) && Here() == 8 * p
      requires Fits(size + 2, true, 9) && p + |BlockHeader(key, size)| <= r.at
      requires r.stream[p..p + |BlockHeader(key, size)|] == BlockHeader(key, size)
      ensures BlockDec(Ahead()).Got? && BlockDec(Ahead()).value == (Block(key, size), |BlockHeader(key, size)|)
    {
      hide *;
      var h := BlockHeader(key, size);
      var q := p + |h|;
      var s := BytesToBits(r.stream);
      WindowAt0(this);
      WindowBits();
      BytesSlice(r.stream, p, q);
      assert s[8 * p..8 * r.at] == s[8 * p..8 * q] + s[8 * q..8 * r.at] by { SplitAt(s, 8 * p, 8 * q, 8 * r.at); }
      Assoc(BytesToBits(h), s[8 * q..8 * r.at], BytesToBits(buffer[bytesTotal..]));
      BlockRoundTrip(key, size, s[8 * q..8 * r.at] + BytesToBits(buffer[bytesTotal..]));
    }

    /** `mpc_bits_get_block` on the buffer; nothing if the header does not end within it. */
    method GetBlock() returns (h: Option<(Block, nat)>)
      requires Valid() && (count == 0 || count == 8)
      modifies this`buff, this`count
      ensures Valid()
      ensures h.None? <==> BlockDec(old(Ahead())).NoData?
      ensures h.None? ==> buff == old(buff) && count == old(count)
      ensures h.Some? ==>
                && BlockDec(old(Ahead())) == Got(h.value, Ahead()) && count == 0 && buff >= 0
                && Here() == old(Here()) + 8 * h.value.1 && h.value.1 >= 3
    {
      hide BytesToBits, BlockDec, Demux.Ahead;
      var ends := HeaderEnds();
      if !ends { return None; }
      BlockTakes(Ahead());
      ghost var s := Ahead();
      PaddedAhead();
      var rd := new BitReader.Resume([0, 0, 0, 0] + buffer[..], buff + 4, count);
      assert rd.Remaining() == s;
      var b, size := Sizes.GetBlock(rd);
      buff, count := rd.pos - 4, rd.count;
      PaddedAhead();
      assert rd.Remaining() == Ahead();
      h := Some((b, size));
    }

    /** `mpc_demux_pos`. */
    method Pos() returns (pos: int)
      requires Valid()
      ensures pos == if r.at - bytesTotal + buff > (U64_LIMIT - 9) / 8 then -1 else Here()
    {
      var bytePos := r.at - bytesTotal + buff;
      if bytePos > (U64_LIMIT - 9) / 8 { return -1; }
      pos := 8 * bytePos + 8 - count;
    }

    /** After a seek that is not late, the bytes under the reader are those of the stream at the position. */
    lemma WindowAt(k: nat)
      requires Valid() && 0 <= buff + k < bytesTotal
      ensures 0 <= (Here() - 8 + count) / 8 + k < |r.stream|
      ensures buffer[buff + k] == r.stream[(Here() - 8 + count) / 8 + k]
    {
      var at := r.at - bytesTotal + buff;
      assert Here() - 8 + count == 8 * at;
      assert buffer[..bytesTotal][buff + k] == r.stream[r.at - bytesTotal..r.at][buff + k];
    }
  }

  /** Where the source and the end of the window are after a fill from a source that does not fail. */
  function Filled(at: nat, total: nat, unread: int, len: nat, target: nat): (nat, nat)
  {
    if unread < 0 || unread >= target || at > len then (at, total)
    else
      var need := target - unread;
      var kept := if need > DEMUX_BUFFER_SIZE - total then unread else total;
      var got := if need <= len - at then need else len - at;
      (at + got, kept + got)
  }

  /** And after a seek. */
  function Sought(at: nat, total: nat, count: nat, canSeek: bool, len: nat, fpos: nat, minBytes: nat): (nat, nat)
  {
    var required := Required(fpos, minBytes);
    if 8 * (at - total) <= fpos < 8 * at then
      var unread := total - (fpos - 8 * (at - total)) / 8 - (if count == 0 then 1 else 0);
      Filled(at, total, unread, len, Target(required, false, canSeek, unread))
    else
      Filled(fpos / 8, 0, 0, len, Target(required, false, canSeek, 0))
  }

  function Required(fpos: nat, minBytes: nat): nat { minBytes + (fpos % 8 + 7) / 8 }

  /** The unread end of the window, moved to the front. */
  lemma Moved(was: seq<Byte>, now: seq<Byte>, stream: seq<Byte>, at: nat, total: nat, buff: nat, unread: nat)
    requires total <= |was| == |now| && total <= at <= |stream| && buff + unread == total
    requires was[..total] == stream[at - total..at] && now[..unread] == was[buff..total]
    ensures now[..unread] == stream[at - unread..at]
  {
    assert was[buff..total] == was[..total][buff..];
    assert stream[at - unread..at] == stream[at - total..at][buff..];
  }

  /** The seek is served from the window while the reader stands at the end of a byte, and the fill that
      follows has to move the window. */
  predicate IsLate(at: nat, bytesTotal: nat, count: nat, canSeek: bool, fpos: nat, minBytes: nat)
  {
    && 8 * (at - bytesTotal) <= fpos < 8 * at
    && count == 0
    && var unread := bytesTotal - (fpos - 8 * (at - bytesTotal)) / 8 - 1;
       var target := Target(Required(fpos, minBytes), false, canSeek, unread);
       unread < target && target - unread > DEMUX_BUFFER_SIZE - bytesTotal
  }

  /** A demuxer at the start of zeros, its window full and a block header read. */
  method FullWindow() returns (d: Demux)
    ensures fresh(d) && fresh(d.r) && fresh(d.buffer) && d.Valid() && d.count == 0 && d.r.canSeek && d.r.Steady()
    ensures |d.r.stream| == 70000 && d.r.at == d.bytesTotal == DEMUX_BUFFER_SIZE
  {
    hide BytesToBits, BlockDec, Ends, Demux.Ahead;
    var r := new Reader(seq(70000, _ => 0), true, [], []);
    d := new Demux(r);
    var n := d.Fill(11, true);
    assert d.bytesTotal == DEMUX_BUFFER_SIZE;
    d.AheadIs();
    BlockEnds(d.buffer[0..]);
    FirstBytes(d);
    EndsHere(d.buffer[0..][2..]);
    var h := d.GetBlock();
  }

  /** It happens: then a header is sought four bytes before the window's end. */
  method LateHappens() returns (d: Demux, fpos: nat, ok: bool)
    ensures d.Valid() && ok && d.Here() == fpos + 8
  {
    d := FullWindow();
    fpos := 8 * (DEMUX_BUFFER_SIZE - 4);
    ok := d.Seek(fpos, 11);
  }

  lemma FirstBytes(d: Demux)
    requires d.Valid() && d.bytesTotal >= 3 && d.r.at == d.bytesTotal && d.r.stream[2] == 0
    ensures d.buffer[0..][2..] != [] && d.buffer[0..][2..][0] == 0
  {
    assert d.buffer[..d.bytesTotal][2] == d.r.stream[0..d.r.at][2];
  }

  /** New bytes behind the window. */
  lemma Appended(was: seq<Byte>, now: seq<Byte>, stream: seq<Byte>, at: nat, total: nat, n: nat)
    requires total + n <= |was| == |now| && total <= at && at + n <= |stream|
    requires was[..total] == stream[at - total..at]
    requires now[..total] == was[..total] && now[total..total + n] == stream[at..at + n]
    ensures now[..total + n] == stream[at - total..at + n]
  {
    assert now[..total + n] == now[..total] + now[total..total + n];
    assert stream[at - total..at + n] == stream[at - total..at] + stream[at..at + n];
  }
}

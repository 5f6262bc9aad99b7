// Receiving write data (ft_recv_write_data): frames that arrive at arbitrary relative offsets are
// copied into a scattered buffer, and the bytes copied are counted.
module FcpWrite {
  import opened Basics
  import opened Scatter

  const U32 := 0x1_0000_0000
  type u32 = x: int | 0 <= x < 0x1_0000_0000

  // A received data frame: whether F_CTL says the offset is valid, the offset, and the payload.
  datatype Frame = Frame(hasOffset: bool, relOff: nat, payload: seq<byte>)

  // u32 arithmetic wraps around.
  function Wrap(x: nat): u32 { x % U32 }

  lemma WrapAdd(x: nat, y: nat)
    ensures Wrap(Wrap(x) + y) == Wrap(x + y)
  {
  }

  lemma WrapSmall(x: u32)
    ensures Wrap(x) == x
  {
  }

  // s with d written at offset off.
  function Splice(s: seq<byte>, off: nat, d: seq<byte>): seq<byte>
    requires off + |d| <= |s|
  {
    s[..off] + d + s[off + |d|..]
  }

  // How many bytes of a frame end up in a buffer of `bufflen` bytes of which `room` are reachable.
  function Stored(bufflen: nat, room: nat, f: Frame): (n: nat)
    ensures n <= |f.payload| && (n > 0 ==> f.relOff + n <= room && f.relOff + n <= bufflen)
  {
    if !f.hasOffset || f.relOff >= bufflen || f.relOff >= room then 0
    else Min(|f.payload|, Min(bufflen, room) - f.relOff)
  }

  // The effect of a frame on the flat buffer: one write of the clipped payload at its offset.
  function Received(flat: seq<byte>, bufflen: nat, f: Frame): (r: seq<byte>)
    ensures |r| == |flat|
  {
    var n := Stored(bufflen, |flat|, f);
    if n == 0 then flat else Splice(flat, f.relOff, f.payload[..n])
  }

  // Byte x of the buffer is one the frame has a byte for.
  predicate Hit(bufflen: nat, f: Frame, x: int) {
    f.hasOffset && Carries(f, x) && x < bufflen
  }

  // The payload has a byte for offset x.
  predicate Carries(f: Frame, x: int) { f.relOff <= x < f.relOff + |f.payload| }

  // The bytes of a buffer with `room` reachable bytes that the frame has a byte for.
  function Hits(room: nat, bufflen: nat, f: Frame): set<int> {
    set x | 0 <= x < room && Hit(bufflen, f, x)
  }

  // Every byte the frame has a byte for is that byte, and no other byte changes.
  ghost predicate Lands(flat0: seq<byte>, flat: seq<byte>, bufflen: nat, f: Frame) {
    && |flat| == |flat0|
    && forall x :: 0 <= x < |flat| ==> flat[x] == if Hit(bufflen, f, x) then f.payload[x - f.relOff] else flat0[x]
  }

  lemma ReceivedLands(flat: seq<byte>, bufflen: nat, f: Frame)
    ensures Lands(flat, Received(flat, bufflen, f), bufflen, f)
    ensures Stored(bufflen, |flat|, f) == |Hits(|flat|, bufflen, f)|
  {
    hide Received, Interval, Hits, Stored;
    forall x | 0 <= x < |flat|
      ensures Received(flat, bufflen, f)[x] == if Hit(bufflen, f, x) then f.payload[x - f.relOff] else flat[x]
    {
      ReceivedAt(flat, bufflen, f, x);
      HitIs(|flat|, bufflen, f, x);
    }
    HitsAre(|flat|, bufflen, f);
    IntervalSize(f.relOff, f.relOff + Stored(bufflen, |flat|, f));
  }

  lemma HitIs(room: nat, bufflen: nat, f: Frame, x: nat)
    requires x < room
    ensures Hit(bufflen, f, x) <==> f.relOff <= x < f.relOff + Stored(bufflen, room, f)
    ensures Hit(bufflen, f, x) ==> 0 <= x - f.relOff < |f.payload|
  {
  }

  lemma HitsAre(room: nat, bufflen: nat, f: Frame)
    ensures Hits(room, bufflen, f) == Interval(f.relOff, f.relOff + Stored(bufflen, room, f))
  {
    hide Interval;
  }

  function Interval(a: int, b: int): (r: set<int>)
    ensures forall x :: x in r <==> a <= x < b
    decreases b - a
  {
    if a >= b then {} else Interval(a, b - 1) + {b - 1}
  }

  lemma {:induction false} IntervalSize(a: int, b: int)
    requires a <= b
    ensures |Interval(a, b)| == b - a
    decreases b - a
  {
    if a < b {
      IntervalSize(a, b - 1);
    }
  }

  // ---------------------------------------------------------------------------------------------
  // Writing through the scatter list

  // Number of chunks the copy loop can reach: an empty first chunk is passed over, any other
  // empty chunk reads as the end of the list.
  function Reach(chunks: seq<seq<byte>>): (n: nat)
    ensures n <= |chunks| && (chunks != [] ==> n > 0) && (forall i :: 1 <= i < n ==> chunks[i] != [])
    ensures 0 < n < |chunks| ==> chunks[n] == []
  {
    if chunks == [] then 0 else 1 + |Usable(chunks[1..])|
  }

  lemma {:induction false} UsableSameShape(a: seq<seq<byte>>, b: seq<seq<byte>>)
    requires |a| == |b| && forall i :: 0 <= i < |a| ==> |a[i]| == |b[i]|
    ensures |Usable(a)| == |Usable(b)|
  {
    if a != [] && a[0] != [] {
      UsableSameShape(a[1..], b[1..]);
    }
  }

  lemma {:induction false} StartSameShape(a: seq<seq<byte>>, b: seq<seq<byte>>, k: nat)
    requires |a| == |b| && k <= |a| && forall i :: 0 <= i < |a| ==> |a[i]| == |b[i]|
    ensures Start(a, k) == Start(b, k)
  {
    if k > 0 {
      StartSameShape(a, b, k - 1);
    }
  }

  lemma SpliceLeft(a: seq<byte>, b: seq<byte>, off: nat, d: seq<byte>)
    requires off + |d| <= |a|
    ensures Splice(a, off, d) + b == Splice(a + b, off, d)
  {
    assert (a + b)[off + |d|..] == a[off + |d|..] + b;
  }

  lemma SpliceRight(a: seq<byte>, b: seq<byte>, off: nat, d: seq<byte>)
    requires off + |d| <= |b|
    ensures a + Splice(b, off, d) == Splice(a + b, |a| + off, d)
  {
    assert (a + b)[..|a| + off] == a + b[..off];
  }

  // Writing inside one chunk is one write into the flat buffer.
  lemma {:induction false} WriteChunk(us: seq<seq<byte>>, i: nat, a: nat, d: seq<byte>)
    requires i < |us| && a + |d| <= |us[i]|
    ensures Start(us, i) + a + |d| <= |Flat(us)|
    ensures Flat(us[i := Splice(us[i], a, d)]) == Splice(Flat(us), Start(us, i) + a, d)
  {
    hide Splice;
    var us' := us[i := Splice(us[i], a, d)];
    if i == 0 {
      assert us'[1..] == us[1..];
      SpliceLeft(us[0], Flat(us[1..]), a, d);
    } else {
      StartOfTail(us, i);
      WriteChunk(us[1..], i - 1, a, d);
      assert us'[1..] == us[1..][i - 1 := Splice(us[i], a, d)];
      var rest, p := Flat(us[1..]), Start(us[1..], i - 1) + a;
      SpliceRight(us[0], rest, p, d);
    }
  }

  lemma SpliceTwice(s: seq<byte>, off: nat, d: seq<byte>, e: seq<byte>)
    requires off + |d| + |e| <= |s|
    ensures Splice(Splice(s, off, d), off + |d|, e) == Splice(s, off, d + e)
  {
  }

  method Memcpy(to: array<byte>, off: nat, from: seq<byte>)
    requires off + |from| <= to.Length
    modifies to
    ensures to[..] == Splice(old(to[..]), off, from)
  {
    for i := 0 to |from|
      invariant forall k :: 0 <= k < to.Length ==> to[k] == if off <= k < off + i then from[k - off] else old(to[k])
    {
      to[off + i] := from[i];
    }
  }

  // A scattered data buffer; distinct scatter entries are distinct memory.
  class DataBuffer {
    const chunks: seq<array<byte>>
    const bufflen: nat

    ghost predicate Valid() {
      forall i, j :: 0 <= i < j < |chunks| ==> chunks[i] != chunks[j]
    }

    ghost function Contents(): (c: seq<seq<byte>>)
      reads chunks
      ensures |c| == |chunks| && forall i :: 0 <= i < |c| ==> c[i] == chunks[i][..]
    {
      seq(|chunks|, i requires 0 <= i < |chunks| reads chunks => chunks[i][..])
    }

    // The part of the buffer the copy loop can reach, and the part it cannot.
    ghost function Reachable(): (us: seq<seq<byte>>)
      reads chunks
      ensures |us| <= |chunks| && (us == [] <==> |chunks| == 0)
      ensures forall i :: 0 <= i < |us| ==> |us[i]| == chunks[i].Length
    {
      Contents()[..Reach(Contents())]
    }

    ghost function Beyond(): seq<seq<byte>>
      reads chunks
    {
      Contents()[Reach(Contents())..]
    }

    // Replace part of chunk i.
    method Put(i: nat, off: nat, d: seq<byte>)
      requires Valid() && i < |chunks| && off + |d| <= chunks[i].Length
      modifies chunks[i]
      ensures Contents() == old(Contents())[i := Splice(old(Contents())[i], off, d)]
      ensures i < old(|Reachable()|) ==>
        Beyond() == old(Beyond()) && |Reachable()| == |old(Reachable())|
        && Reachable() == old(Reachable())[i := Splice(old(Reachable())[i], off, d)]
    {
      ghost var before := Contents();
      Memcpy(chunks[i], off, d);
      assert Contents()[i] == Splice(before[i], off, d);
      forall k | 0 <= k < |chunks| && k != i
        ensures Contents()[k] == before[k]
      {
      }
      if before != [] {
        UsableSameShape(before[1..], Contents()[1..]);
      }
    }
  }

  // The copy position: memLen bytes of chunk idx are left, and relOff bytes are still to be skipped
  // before the next byte, which belongs at flat offset `at`.
  ghost predicate At(us: seq<seq<byte>>, idx: nat, memLen: nat, relOff: nat, at: nat) {
    idx < |us| && memLen <= |us[idx]| && at + memLen == Start(us, idx + 1) + relOff
  }

  lemma AtFirst(us: seq<seq<byte>>, relOff: nat)
    requires us != []
    ensures At(us, 0, |us[0]|, relOff, relOff)
  {
    assert Start(us, 1) == |us[0]|;
  }

  lemma AtNext(us: seq<seq<byte>>, idx: nat, relOff: nat, at: nat)
    requires At(us, idx, 0, relOff, at)
    ensures idx + 1 < |us| ==> At(us, idx + 1, |us[idx + 1]|, relOff, at)
    ensures idx + 1 == |us| ==> at == |Flat(us)| + relOff
  {
    FlatLength(us);
  }

  lemma AtSkip(us: seq<seq<byte>>, idx: nat, memLen: nat, relOff: nat, at: nat, k: nat)
    requires At(us, idx, memLen, relOff, at) && k <= memLen && k <= relOff
    ensures At(us, idx, memLen - k, relOff - k, at)
  {
  }

  lemma NextReachable(c: seq<seq<byte>>, idx: nat)
    requires idx < Reach(c)
    ensures Reach(c) <= |c|
    ensures idx + 1 < Reach(c) <==> idx + 1 < |c| && c[idx + 1] != []
  {
    var us := Usable(c[1..]);
    if idx + 1 < |c| {
      assert c[idx + 1] == c[1..][idx];
    }
  }

  lemma WrittenIsReceived(flat0: seq<byte>, bufflen: nat, f: Frame, flat: seq<byte>)
    requires Written(flat0, f.relOff, f.payload, Stored(bufflen, |flat0|, f), flat)
    ensures flat == Received(flat0, bufflen, f)
  {
  }

  lemma NothingStored(flat0: seq<byte>, bufflen: nat, f: Frame)
    requires !f.hasOffset || f.payload == [] || f.relOff >= bufflen
    ensures Stored(bufflen, |flat0|, f) == 0 && Received(flat0, bufflen, f) == flat0
  {
  }

  // Copying d at the current position, with nothing left to skip, writes it at `at`.
  lemma CopyAt(us: seq<seq<byte>>, idx: nat, memLen: nat, at: nat, d: seq<byte>)
    requires At(us, idx, memLen, 0, at) && |d| <= memLen
    ensures at + |d| <= |Flat(us)|
    ensures var us' := us[idx := Splice(us[idx], |us[idx]| - memLen, d)];
            Flat(us') == Splice(Flat(us), at, d) && At(us', idx, memLen - |d|, 0, at + |d|)
  {
    WriteChunk(us, idx, |us[idx]| - memLen, d);
    var us' := us[idx := Splice(us[idx], |us[idx]| - memLen, d)];
    StartSameShape(us, us', idx + 1);
  }

  // The first n payload bytes have been written at `off`.
  ghost predicate Written(flat0: seq<byte>, off: nat, payload: seq<byte>, n: nat, flat: seq<byte>) {
    && n <= |payload| && (n == 0 ==> flat == flat0)
    && (n > 0 ==> off + n <= |flat0| && flat == Splice(flat0, off, payload[..n]))
  }

  lemma WriteOn(flat0: seq<byte>, off: nat, payload: seq<byte>, n: nat, flat: seq<byte>, k: nat)
    requires Written(flat0, off, payload, n, flat) && 0 < k && n + k <= |payload| && off + n + k <= |flat|
    ensures Written(flat0, off, payload, n + k, Splice(flat, off + n, payload[n..n + k]))
  {
    assert payload[..n] + payload[n..n + k] == payload[..n + k];
    if n == 0 {
      assert payload[n..n + k] == payload[..k];
    } else {
      SpliceTwice(flat0, off, payload[..n], payload[n..n + k]);
    }
  }

  lemma WrittenLength(flat0: seq<byte>, off: nat, payload: seq<byte>, n: nat, flat: seq<byte>)
    requires Written(flat0, off, payload, n, flat)
    ensures |flat| == |flat0| && (n > 0 ==> off + n <= |flat0|)
  {
  }

  // What the copy loop keeps: the position of the next byte, and the first n bytes in place.
  ghost predicate Copying(us: seq<seq<byte>>, flat0: seq<byte>, f: Frame, idx: nat, memLen: nat, relOff: nat, n: nat) {
    At(us, idx, memLen, relOff, f.relOff + n) && (relOff > 0 ==> n == 0) &&
      Written(flat0, f.relOff, f.payload, n, Flat(us))
  }

  lemma EmptyBuffer(f: Frame, us: seq<seq<byte>>)
    requires us == []
    ensures Flat(us) == [] && Written(Flat(us), f.relOff, f.payload, 0, Flat(us))
  {
  }

  lemma CopyingStarts(us: seq<seq<byte>>, f: Frame)
    requires us != []
    ensures Copying(us, Flat(us), f, 0, |us[0]|, f.relOff, 0)
  {
    AtFirst(us, f.relOff);
  }

  lemma CopyingEnds(us: seq<seq<byte>>, flat0: seq<byte>, f: Frame, idx: nat, memLen: nat, relOff: nat, n: nat)
    requires Copying(us, flat0, f, idx, memLen, relOff, n)
    ensures Written(flat0, f.relOff, f.payload, n, Flat(us)) && (n > 0 ==> f.relOff + n <= |flat0|)
  {
  }

  class WriteCmd {
    var writeDataLen: u32

    // One turn of the copy loop once the chunk holding the next byte is found.
    method CopyChunk(buf: DataBuffer, idx: nat, memLen: nat, to: nat, payload: seq<byte>, n: nat, frameLen: nat,
                     ghost flat0: seq<byte>, ghost off: nat) returns (tlen: nat)
      requires buf.Valid() && idx < |buf.Reachable()| && memLen > 0 && to + memLen == buf.chunks[idx].Length
      requires At(buf.Reachable(), idx, memLen, 0, off + n) && n + frameLen <= |payload| && frameLen > 0
      requires Written(flat0, off, payload, n, Flat(buf.Reachable()))
      modifies this, buf.chunks
      ensures 0 < tlen == Min(memLen, frameLen)
      ensures |buf.Reachable()| == |old(buf.Reachable())| && buf.Beyond() == old(buf.Beyond())
      ensures At(buf.Reachable(), idx, memLen - tlen, 0, off + n + tlen)
      ensures Written(flat0, off, payload, n + tlen, Flat(buf.Reachable()))
      ensures writeDataLen == Wrap(old(writeDataLen) + tlen)
    {
      hide Reach, Usable, Flat, Start, At, Written, Splice, Wrap, DataBuffer.Reachable, DataBuffer.Beyond,
        DataBuffer.Contents;
      tlen := Min(memLen, frameLen);
      CopyAt(buf.Reachable(), idx, memLen, off + n, payload[n..n + tlen]);
      WriteOn(flat0, off, payload, n, Flat(buf.Reachable()), tlen);
      buf.Put(idx, to, payload[n..n + tlen]);
      writeDataLen := Wrap(writeDataLen + tlen);
    }

    // ft_recv_write_data up to the check whether all data has arrived.  `buf` is the command's
    // buffer, or its out buffer for a bidirectional command.
    method RecvWriteData(buf: DataBuffer, f: Frame) returns (complete: bool)
      requires buf.Valid()
      modifies this, buf.chunks
      ensures Flat(buf.Reachable()) == Received(old(Flat(buf.Reachable())), buf.bufflen, f)
      ensures buf.Beyond() == old(buf.Beyond())
      ensures writeDataLen == Wrap(old(writeDataLen) + Stored(buf.bufflen, |old(Flat(buf.Reachable()))|, f))
      // that is: every byte the frame has a byte for, and no other, is written and counted
      ensures Lands(old(Flat(buf.Reachable())), Flat(buf.Reachable()), buf.bufflen, f)
      ensures writeDataLen == Wrap(old(writeDataLen) + |Hits(|old(Flat(buf.Reachable()))|, buf.bufflen, f)|)
      ensures complete <==> f.hasOffset && f.payload != [] && f.relOff < buf.bufflen && writeDataLen == buf.bufflen
    {
      hide Flat, Written, Splice, Received, Wrap, Lands, Hits, DataBuffer.Reachable, DataBuffer.Beyond,
        DataBuffer.Contents;
      WrapSmall(writeDataLen);
      complete := false;
      ghost var flat0 := Flat(buf.Reachable());
      ReceivedLands(flat0, buf.bufflen, f);
      if !f.hasOffset || f.payload == [] || f.relOff >= buf.bufflen {
        NothingStored(flat0, buf.bufflen, f);
        return;
      }
      var relOff, frameLen: nat := f.relOff, |f.payload|;
      if frameLen + relOff > buf.bufflen {
        frameLen := buf.bufflen - relOff;
      }
      CopyLoop(buf, f, relOff, frameLen);
      WrittenIsReceived(flat0, buf.bufflen, f, Flat(buf.Reachable()));
      complete := writeDataLen == buf.bufflen;
    }

    // Find the chunk and position of the next byte: step to the next chunk when the current one is
    // used up, then skip what is left of the offset, possibly the whole chunk.
    method Seek(buf: DataBuffer, idx: nat, memLen: nat, to: nat, relOff: nat, ghost at: nat)
      returns (ok: bool, idx': nat, memLen': nat, to': nat, relOff': nat)
      requires idx < |buf.Reachable()| && At(buf.Reachable(), idx, memLen, relOff, at)
      requires memLen > 0 ==> to + memLen == buf.chunks[idx].Length
      ensures !ok ==> at >= |Flat(buf.Reachable())| && (relOff == 0 ==> at == |Flat(buf.Reachable())|)
      ensures ok ==>
        idx <= idx' < |buf.Reachable()| && At(buf.Reachable(), idx', memLen', relOff', at) && relOff' <= relOff
      ensures ok ==> idx < idx' || memLen' < memLen || (memLen' == memLen > 0 && relOff' == 0)
      ensures ok && memLen' > 0 ==> to' + memLen' == buf.chunks[idx'].Length && relOff' == 0
    {
      ok, idx', memLen', to', relOff' := true, idx, memLen, to, relOff;
      if memLen == 0 {
        AtNext(buf.Reachable(), idx, relOff, at);
        NextReachable(buf.Contents(), idx);
        idx' := idx + 1;
        memLen' := if idx' < |buf.chunks| then buf.chunks[idx'].Length else 0;
        to' := 0;
        if memLen' == 0 {
          return false, idx', memLen', to', relOff';
        }
      }
      hide Flat, Start, Reach, At;
      if relOff' > 0 {
        AtSkip(buf.Reachable(), idx', memLen', relOff', at, Min(memLen', relOff'));
        if relOff' >= memLen' {
          relOff' := relOff' - memLen';
          memLen' := 0;
          return;
        }
        memLen' := memLen' - relOff';
        to' := to' + relOff';
        relOff' := 0;
      }
    }

    // One turn of the copy loop; `ok` is false when the buffer has ended.
    method Turn(buf: DataBuffer, f: Frame, ghost flat0: seq<byte>, idx: nat, memLen: nat, to: nat, relOff: nat, n: nat,
                frameLen: nat)
      returns (ok: bool, idx': nat, memLen': nat, to': nat, relOff': nat, tlen: nat)
      requires buf.Valid() && frameLen > 0 && n + frameLen <= |f.payload| && idx < |buf.Reachable()|
      requires memLen > 0 ==> to + memLen == buf.chunks[idx].Length
      requires Copying(buf.Reachable(), flat0, f, idx, memLen, relOff, n)
      modifies this, buf.chunks
      ensures |buf.Reachable()| == |old(buf.Reachable())| && buf.Beyond() == old(buf.Beyond())
      ensures writeDataLen == Wrap(old(writeDataLen) + tlen)
      ensures !ok ==> tlen == 0 && f.relOff + n >= |flat0| && (n > 0 ==> f.relOff + n == |flat0|)
                      && Written(flat0, f.relOff, f.payload, n, Flat(buf.Reachable()))
      ensures ok ==> tlen <= frameLen && idx <= idx' < |buf.Reachable()| && (idx < idx' || memLen' < memLen)
      ensures ok && memLen' > 0 ==> to' + memLen' == buf.chunks[idx'].Length
      ensures ok ==> Copying(buf.Reachable(), flat0, f, idx', memLen', relOff', n + tlen)
    {
      hide Reach, Usable, Flat, Start, At, Written, DataBuffer.Reachable, DataBuffer.Beyond, DataBuffer.Contents;
      tlen := 0;
      WrittenLength(flat0, f.relOff, f.payload, n, Flat(buf.Reachable()));
      ok, idx', memLen', to', relOff' := Seek(buf, idx, memLen, to, relOff, f.relOff + n);
      if ok && memLen' > 0 {
        tlen := CopyChunk(buf, idx', memLen', to', f.payload, n, frameLen, flat0, f.relOff);
        memLen', to' := memLen' - tlen, to' + tlen;
      }
    }

    method CopyLoop(buf: DataBuffer, f: Frame, relOff0: nat, frameLen0: nat)
      requires buf.Valid() && relOff0 == f.relOff && 0 < frameLen0 <= |f.payload|
      modifies this, buf.chunks
      ensures var room := |old(Flat(buf.Reachable()))|;
              var n := if f.relOff >= room then 0 else Min(frameLen0, room - f.relOff);
              && Written(old(Flat(buf.Reachable())), f.relOff, f.payload, n, Flat(buf.Reachable()))
              && writeDataLen == Wrap(old(writeDataLen) + n)
      ensures buf.Beyond() == old(buf.Beyond())
    {
      hide Copying, Reach, Usable, Flat, Start, Written, Wrap, DataBuffer.Reachable, DataBuffer.Beyond,
        DataBuffer.Contents;
      var relOff: nat, frameLen: nat, idx: nat, n: nat := relOff0, frameLen0, 0, 0;
      WrapSmall(writeDataLen);
      if |buf.chunks| == 0 {
        EmptyBuffer(f, buf.Reachable());
        return;
      }
      ghost var us0, flat0 := buf.Reachable(), Flat(buf.Reachable());
      var memLen: nat, to: nat := buf.chunks[0].Length, 0;
      CopyingStarts(us0, f);
      while frameLen > 0
        invariant |buf.Reachable()| == |us0| && buf.Beyond() == old(buf.Beyond())
        invariant idx < |us0| && n + frameLen == frameLen0
        invariant memLen > 0 ==> to + memLen == buf.chunks[idx].Length
        invariant Copying(buf.Reachable(), flat0, f, idx, memLen, relOff, n)
        invariant writeDataLen == Wrap(old(writeDataLen) + n)
        decreases |us0| - idx, memLen
      {
        var ok, tlen;
        ok, idx, memLen, to, relOff, tlen := Turn(buf, f, flat0, idx, memLen, to, relOff, n, frameLen);
        WrapAdd(old(writeDataLen) + n, tlen);
        if !ok {
          return;
        }
        n, frameLen := n + tlen, frameLen - tlen;
      }
      CopyingEnds(buf.Reachable(), flat0, f, idx, memLen, relOff, n);
    }
  }

  // ---------------------------------------------------------------------------------------------
  // Reassembly: any number of frames in any order

  function ReceiveAll(flat: seq<byte>, bufflen: nat, fs: seq<Frame>): (r: seq<byte>)
    ensures |r| == |flat|
  {
    if fs == [] then flat else Received(ReceiveAll(flat, bufflen, fs[..|fs| - 1]), bufflen, fs[|fs| - 1])
  }

  // The value write_data_len has after the frames, before wrapping.
  function Count(bufflen: nat, fs: seq<Frame>): nat {
    if fs == [] then 0 else Count(bufflen, fs[..|fs| - 1]) + Stored(bufflen, bufflen, fs[|fs| - 1])
  }

  lemma CountGrows(bufflen: nat, fs: seq<Frame>, f: Frame)
    ensures Count(bufflen, fs + [f]) == Count(bufflen, fs) + Stored(bufflen, bufflen, f)
  {
    hide Stored;
    assert (fs + [f])[..|fs|] == fs;
  }

  // The buffer bytes a frame, or a list of frames, writes.
  function Range(bufflen: nat, f: Frame): set<int> {
    Interval(f.relOff, f.relOff + Stored(bufflen, bufflen, f))
  }

  function Covered(bufflen: nat, fs: seq<Frame>): set<int> {
    if fs == [] then {} else Covered(bufflen, fs[..|fs| - 1]) + Range(bufflen, fs[|fs| - 1])
  }

  ghost predicate NoOverlap(bufflen: nat, fs: seq<Frame>) {
    forall i, j :: 0 <= i < j < |fs| ==> Range(bufflen, fs[i]) !! Range(bufflen, fs[j])
  }

  // Each stored payload is the initiator's data at that offset.
  ghost predicate CutFrom(data: seq<byte>, fs: seq<Frame>) {
    forall i :: 0 <= i < |fs| ==> Matches(data, fs[i])
  }

  ghost predicate Matches(data: seq<byte>, f: Frame) {
    var n := Stored(|data|, |data|, f);
    n > 0 ==> f.payload[..n] == data[f.relOff..f.relOff + n]
  }

  lemma ReceivedAt(flat: seq<byte>, bufflen: nat, f: Frame, x: nat)
    requires x < |flat|
    ensures Received(flat, bufflen, f)[x]
            == var n := Stored(bufflen, |flat|, f);
              if f.relOff <= x < f.relOff + n then f.payload[x - f.relOff] else flat[x]
  {
  }

  lemma MatchesAt(data: seq<byte>, f: Frame, x: nat)
    requires Matches(data, f) && x in Range(|data|, f)
    ensures x < |data| && f.payload[x - f.relOff] == data[x]
  {
    var n := Stored(|data|, |data|, f);
    assert f.payload[..n][x - f.relOff] == data[f.relOff..f.relOff + n][x - f.relOff];
  }

  // A byte of the buffer after all frames: the initiator's where some frame covered it.
  lemma {:induction false} ByteAfter(data: seq<byte>, flat: seq<byte>, fs: seq<Frame>, x: nat)
    requires |flat| == |data| && CutFrom(data, fs) && x < |flat|
    ensures ReceiveAll(flat, |data|, fs)[x] == if x in Covered(|data|, fs) then data[x] else flat[x]
  {
    hide Received, Matches;
    if fs != [] {
      var front, f := fs[..|fs| - 1], fs[|fs| - 1];
      ByteAfter(data, flat, front, x);
      ReceivedAt(ReceiveAll(flat, |data|, front), |data|, f, x);
      if x in Range(|data|, f) {
        MatchesAt(data, f, x);
      }
    }
  }

  lemma {:induction false} CoveredInside(bufflen: nat, fs: seq<Frame>)
    ensures Covered(bufflen, fs) <= Interval(0, bufflen)
  {
    if fs != [] {
      CoveredInside(bufflen, fs[..|fs| - 1]);
    }
  }

  lemma UnionSize(c: set<int>, r: set<int>)
    ensures |c + r| <= |c| + |r|
    ensures |c + r| == |c| + |r| <==> c !! r
  {
    assert c + r == c + (r - c) && |c + (r - c)| == |c| + |r - c|;
    assert r == (r - c) + (r * c) && |r| == |r - c| + |r * c|;
  }

  // The count never falls short of the bytes covered, and is exact iff no two frames overlap.
  lemma {:induction false} CountVersusCovered(bufflen: nat, fs: seq<Frame>)
    ensures |Covered(bufflen, fs)| <= Count(bufflen, fs)
    ensures |Covered(bufflen, fs)| == Count(bufflen, fs) <==> NoOverlap(bufflen, fs)
  {
    hide NoOverlap, Interval, Stored;
    if fs == [] {
      NoOverlapInNone(bufflen);
    } else {
      var front, f := fs[..|fs| - 1], fs[|fs| - 1];
      CountVersusCovered(bufflen, front);
      IntervalSize(f.relOff, f.relOff + Stored(bufflen, bufflen, f));
      UnionSize(Covered(bufflen, front), Range(bufflen, f));
      LastOverlap(bufflen, fs);
    }
  }

  lemma NoOverlapInNone(bufflen: nat)
    ensures NoOverlap(bufflen, [])
  {
  }

  lemma LastOverlap(bufflen: nat, fs: seq<Frame>)
    requires fs != []
    ensures NoOverlap(bufflen, fs) <==>
              NoOverlap(bufflen, fs[..|fs| - 1]) && Covered(bufflen, fs[..|fs| - 1]) !! Range(bufflen, fs[|fs| - 1])
  {
    hide Range, Covered;
    var n := |fs| - 1;
    var front, f := fs[..n], fs[n];
    assert forall i :: 0 <= i < n ==> front[i] == fs[i];
    if NoOverlap(bufflen, fs) {
      forall x | x in Covered(bufflen, front)
        ensures x !in Range(bufflen, f)
      {
        var i := CoveringFrame(bufflen, front, x);
        assert Range(bufflen, fs[i]) !! Range(bufflen, fs[n]);
      }
    }
    if NoOverlap(bufflen, front) && Covered(bufflen, front) !! Range(bufflen, f) {
      forall i, j | 0 <= i < j < |fs|
        ensures Range(bufflen, fs[i]) !! Range(bufflen, fs[j])
      {
        if j < n {
          assert Range(bufflen, front[i]) !! Range(bufflen, front[j]);
        } else {
          RangeCovered(bufflen, front, i);
        }
      }
    }
  }

  lemma {:induction false} CoveringFrame(bufflen: nat, fs: seq<Frame>, x: int) returns (i: nat)
    requires x in Covered(bufflen, fs)
    ensures i < |fs| && x in Range(bufflen, fs[i])
  {
    i := |fs| - 1;
    if x !in Range(bufflen, fs[i]) {
      i := CoveringFrame(bufflen, fs[..i], x);
    }
  }

  lemma {:induction false} RangeCovered(bufflen: nat, fs: seq<Frame>, i: nat)
    requires i < |fs|
    ensures Range(bufflen, fs[i]) <= Covered(bufflen, fs)
  {
    if i < |fs| - 1 {
      RangeCovered(bufflen, fs[..|fs| - 1], i);
    }
  }

  lemma CoveredIsComplete(data: seq<byte>, flat: seq<byte>, fs: seq<Frame>)
    requires |flat| == |data| && CutFrom(data, fs) && Covered(|data|, fs) == Interval(0, |data|)
    ensures ReceiveAll(flat, |data|, fs) == data
  {
    hide ReceiveAll, CutFrom, Covered;
    forall x | 0 <= x < |data|
      ensures ReceiveAll(flat, |data|, fs)[x] == data[x]
    {
      ByteAfter(data, flat, fs, x);
    }
  }

  lemma GapIsIncomplete(data: seq<byte>, fs: seq<Frame>) returns (flat: seq<byte>)
    requires CutFrom(data, fs) && Covered(|data|, fs) < Interval(0, |data|)
    ensures |flat| == |data| && ReceiveAll(flat, |data|, fs) != data
  {
    hide ReceiveAll, CutFrom, Covered;
    var x :| x in Interval(0, |data|) && x !in Covered(|data|, fs);
    flat := data[x := if data[x] == 0 then 1 else 0];
    ByteAfter(data, flat, fs, x);
  }

  // The buffer holds the initiator's data after the frames, whatever it held before.
  ghost predicate Complete(data: seq<byte>, fs: seq<Frame>) {
    forall flat :: |flat| == |data| ==> ReceiveAll(flat, |data|, fs) == data
  }

  lemma CompleteIffCovered(data: seq<byte>, fs: seq<Frame>)
    requires CutFrom(data, fs)
    ensures Complete(data, fs) <==> Covered(|data|, fs) == Interval(0, |data|)
  {
    hide ReceiveAll, CutFrom, Covered, Interval;
    CoveredInside(|data|, fs);
    if Covered(|data|, fs) == Interval(0, |data|) {
      forall flat | |flat| == |data|
        ensures ReceiveAll(flat, |data|, fs) == data
      {
        CoveredIsComplete(data, flat, fs);
      }
    } else {
      var flat := GapIsIncomplete(data, fs);
    }
  }

  // Everything is covered iff as many bytes are covered as there are.
  lemma CoveredIffCounted(bufflen: nat, fs: seq<Frame>)
    ensures |Covered(bufflen, fs)| <= bufflen
    ensures Covered(bufflen, fs) == Interval(0, bufflen) <==> |Covered(bufflen, fs)| == bufflen
  {
    hide Covered, Interval;
    CoveredInside(bufflen, fs);
    IntervalSize(0, bufflen);
    SubsetSize(Covered(bufflen, fs), Interval(0, bufflen));
  }

  // Frames that do not overlap, in any order: write_data_len reaches bufflen exactly when the
  // buffer holds the initiator's data whatever it held before.
  lemma CompleteExactlyWhenCounted(data: seq<byte>, fs: seq<Frame>)
    requires |data| < U32 && CutFrom(data, fs) && NoOverlap(|data|, fs)
    ensures Wrap(Count(|data|, fs)) == |data| <==> Complete(data, fs)
  {
    hide Complete, CutFrom, Covered, Count, NoOverlap, Interval, Wrap;
    CountVersusCovered(|data|, fs);
    CoveredIffCounted(|data|, fs);
    CompleteIffCovered(data, fs);
    WrapSmall(Count(|data|, fs));
  }

  // With overlapping frames the count can reach bufflen while bytes are missing.
  lemma DuplicateFrameMiscounts()
    ensures var fs := [Frame(true, 0, [7]), Frame(true, 0, [7])];
            && CutFrom([7, 7], fs) && Count(2, fs) == 2 && ReceiveAll([0, 0], 2, fs) == [7, 0]
  {
    var f: Frame := Frame(true, 0, [7]);
    assert [f, f][..1] == [f] && [f][..0] == [];
    assert Stored(2, 2, f) == 1;
    assert Received([0, 0], 2, f) == [7, 0] && Received([7, 0], 2, f) == [7, 0];
    assert Count(2, [f]) == 1;
    assert ReceiveAll([0, 0], 2, [f]) == [7, 0];
  }

  // And that is the only way.  Once write_data_len equals bufflen, the frames do not overlap iff the
  // data is complete and the counter has not wrapped around.
  lemma CountedIsCompleteIffNoOverlap(data: seq<byte>, fs: seq<Frame>)
    requires |data| < U32 && CutFrom(data, fs) && Wrap(Count(|data|, fs)) == |data|
    ensures NoOverlap(|data|, fs) <==> Complete(data, fs) && Count(|data|, fs) < U32
  {
    hide Complete, CutFrom, Covered, Count, NoOverlap, Interval, Wrap;
    CountVersusCovered(|data|, fs);
    CoveredIffCounted(|data|, fs);
    CompleteIffCovered(data, fs);
    if Count(|data|, fs) < U32 {
      WrapSmall(Count(|data|, fs));
    }
  }

  // Frames that carry the initiator's data from where they say, all of it inside the buffer.
  ghost predicate Inside(data: seq<byte>, f: Frame) {
    f.hasOffset && f.relOff + |f.payload| <= |data| && f.payload == data[f.relOff..f.relOff + |f.payload|]
  }

  lemma InsideIs(data: seq<byte>, f: Frame)
    requires Inside(data, f)
    ensures Matches(data, f) && Range(|data|, f) == Interval(f.relOff, f.relOff + |f.payload|)
    ensures Stored(|data|, |data|, f) == |f.payload|
  {
    assert f.payload[..|f.payload|] == f.payload;
  }

  ghost predicate Carried(fs: seq<Frame>, x: int) { exists i :: 0 <= i < |fs| && Carries(fs[i], x) }

  ghost predicate Apart(f: Frame, g: Frame) { forall x :: Carries(f, x) ==> !Carries(g, x) }

  lemma {:induction false} CoveredIffCarried(data: seq<byte>, fs: seq<Frame>, x: int)
    requires forall i :: 0 <= i < |fs| ==> Inside(data, fs[i])
    ensures x in Covered(|data|, fs) <==> Carried(fs, x)
  {
    hide Inside, Range, Covered, Stored;
    if x in Covered(|data|, fs) {
      var i := CoveringFrame(|data|, fs, x);
      InsideIs(data, fs[i]);
    }
    if Carried(fs, x) {
      var i :| 0 <= i < |fs| && Carries(fs[i], x);
      InsideIs(data, fs[i]);
      RangeCovered(|data|, fs, i);
    }
  }

  lemma InsideIsCut(data: seq<byte>, fs: seq<Frame>)
    requires forall i :: 0 <= i < |fs| ==> Inside(data, fs[i])
    ensures CutFrom(data, fs)
  {
    hide Inside, Matches;
    forall i | 0 <= i < |fs| ensures Matches(data, fs[i]) { InsideIs(data, fs[i]); }
  }

  // Such frames, in any order and overlapping or not, leave the initiator's data in the buffer if and
  // only if each byte is in one of them.
  lemma CompleteIffAllCarried(data: seq<byte>, fs: seq<Frame>)
    requires forall i :: 0 <= i < |fs| ==> Inside(data, fs[i])
    ensures Complete(data, fs) <==> forall x :: 0 <= x < |data| ==> Carried(fs, x)
  {
    hide Complete, Inside, CutFrom, Covered, Carried, Interval;
    InsideIsCut(data, fs);
    CompleteIffCovered(data, fs);
    CoveredInside(|data|, fs);
    forall x ensures x in Covered(|data|, fs) <==> Carried(fs, x) { CoveredIffCarried(data, fs, x); }
  }

  // Frames that divide the data among them deliver it, and count it to the byte.
  lemma PartitionDelivers(data: seq<byte>, fs: seq<Frame>)
    requires forall i :: 0 <= i < |fs| ==> Inside(data, fs[i])
    requires forall x :: 0 <= x < |data| ==> Carried(fs, x)
    requires forall i, j :: 0 <= i < j < |fs| ==> Apart(fs[i], fs[j])
    ensures Complete(data, fs) && Count(|data|, fs) == |data|
  {
    hide Complete, CutFrom, Covered, Carried, Count, NoOverlap, Inside;
    CompleteIffAllCarried(data, fs);
    InsideIsCut(data, fs);
    CompleteIffCovered(data, fs);
    ApartNoOverlap(data, fs);
    CountVersusCovered(|data|, fs);
    CoveredIffCounted(|data|, fs);
  }

  lemma ApartNoOverlap(data: seq<byte>, fs: seq<Frame>)
    requires forall i :: 0 <= i < |fs| ==> Inside(data, fs[i])
    requires forall i, j :: 0 <= i < j < |fs| ==> Apart(fs[i], fs[j])
    ensures NoOverlap(|data|, fs)
  {
    hide Range, Inside, Carries, Apart;
    forall i, j | 0 <= i < j < |fs| ensures Range(|data|, fs[i]) !! Range(|data|, fs[j]) {
      assert Apart(fs[i], fs[j]);
      ApartDisjoint(data, fs[i], fs[j]);
    }
  }

  lemma ApartDisjoint(data: seq<byte>, f: Frame, g: Frame)
    requires Inside(data, f) && Inside(data, g) && Apart(f, g)
    ensures Range(|data|, f) !! Range(|data|, g)
  {
    hide Inside, Stored;
    InsideIs(data, f);
    InsideIs(data, g);
    forall x | x in Range(|data|, f) ensures x !in Range(|data|, g) { assert Carries(f, x); }
  }

  // Frames after the data is complete leave it complete.
  lemma {:induction false} StaysComplete(data: seq<byte>, fs: seq<Frame>, k: nat)
    requires k <= |fs| && CutFrom(data, fs) && Complete(data, fs[..k])
    ensures Complete(data, fs)
  {
    hide Complete, Covered, Interval, Matches;
    CompleteIffCovered(data, fs[..k]);
    CoveredGrows(|data|, fs, k);
    CoveredInside(|data|, fs);
    CompleteIffCovered(data, fs);
  }

  lemma {:induction false} CoveredGrows(bufflen: nat, fs: seq<Frame>, k: nat)
    requires k <= |fs|
    ensures Covered(bufflen, fs[..k]) <= Covered(bufflen, fs)
  {
    hide Range;
    if k < |fs| {
      CoveredGrows(bufflen, fs[..|fs| - 1], k);
      assert fs[..|fs| - 1][..k] == fs[..k];
    } else {
      assert fs[..k] == fs;
    }
  }
}

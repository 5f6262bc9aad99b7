// The circular buffer of access/scullb.c: readers and writers take turns under one semaphore.
module ScullPipe {
  import opened Basics

  const DEVSIZE := 42

  // Read and write positions are offsets from the start of the buffer.
  datatype Ring = Ring(data: seq<byte>, rp: nat, wp: nat)

  ghost predicate Valid(r: Ring) { r.rp < |r.data| && r.wp < |r.data| }

  // The bytes between the two positions.
  function Pending(r: Ring): seq<byte>
    requires Valid(r)
  {
    if r.rp <= r.wp then r.data[r.rp..r.wp] else r.data[r.rp..] + r.data[..r.wp]
  }

  // have_space.  (Despite its name the second branch gives the number of bytes pending.)
  function HaveSpace(r: Ring): int
    requires Valid(r)
  {
    if r.wp == r.rp then |r.data| - 1 else (r.wp - r.rp + |r.data|) % |r.data|
  }

  function ReadCount(r: Ring, len: nat): (n: nat)
    requires Valid(r)
  {
    if r.rp < r.wp then Min(len, r.wp - r.rp) else Min(len, |r.data| - r.rp)
  }

  function WriteCount(r: Ring, len: nat): int
    requires Valid(r)
  {
    var n := Min(len, HaveSpace(r));
    if r.wp >= r.rp then Min(n, |r.data| - r.wp) else Min(n, r.rp - r.wp - 1)
  }

  function Advance(r: Ring, p: nat): nat { if p == |r.data| then 0 else p }

  function AfterRead(r: Ring, n: nat): Ring {
    r.(rp := Advance(r, r.rp + n))
  }

  function AfterWrite(r: Ring, src: seq<byte>): Ring
    requires r.wp + |src| <= |r.data|
  {
    Ring(r.data[..r.wp] + src + r.data[r.wp + |src|..], r.rp, Advance(r, r.wp + |src|))
  }

  lemma ModShift(x: nat, n: nat)
    requires x < n
    ensures (x + n) % n == x
  {
    assert (x + n) / n == 1;
  }

  // have_space never says a buffer of two or more bytes is full, so a writer never waits.
  lemma SpaceIsPositive(r: Ring)
    requires Valid(r)
    ensures HaveSpace(r) == if r.wp == r.rp then |r.data| - 1 else |Pending(r)|
    ensures HaveSpace(r) == 0 <==> |r.data| == 1
  {
    if r.wp > r.rp {
      ModShift(r.wp - r.rp, |r.data|);
    } else if r.wp < r.rp {
      SmallMod(r.wp - r.rp + |r.data|, |r.data|);
    }
  }

  // The one write that loses data: it starts with the read position at the start of the buffer
  // and is long enough to run exactly up to the end, so that full looks like empty.
  predicate Loses(r: Ring, len: nat) {
    r.rp == 0 && r.rp < r.wp && |r.data| - r.wp <= Min(len, r.wp)
  }

  lemma WriteCountBounds(r: Ring, len: nat)
    requires Valid(r)
    ensures 0 <= WriteCount(r, len) <= len && r.wp + WriteCount(r, len) <= |r.data|
    ensures WriteCount(r, len) <= HaveSpace(r)
    ensures r.wp < r.rp ==> r.wp + WriteCount(r, len) < r.rp
    ensures r.rp == 0 && r.wp + WriteCount(r, len) == |r.data| ==> Loses(r, len)
    ensures Loses(r, len) ==> r.wp + WriteCount(r, len) == |r.data|
  {
    SpaceIsPositive(r);
    hide HaveSpace;
  }

  // Reading takes bytes off the front of what is pending.
  lemma ReadTakesFront(r: Ring, n: nat)
    requires Valid(r) && r.rp != r.wp && n <= (if r.rp < r.wp then r.wp - r.rp else |r.data| - r.rp)
    ensures Valid(AfterRead(r, n))
    ensures Pending(r) == r.data[r.rp..r.rp + n] + Pending(AfterRead(r, n))
  {
    hide Pending;
    if r.rp < r.wp {
      ReadStraight(r, n);
    } else {
      ReadWrapped(r, n);
    }
  }

  lemma ReadStraight(r: Ring, n: nat)
    requires Valid(r) && r.rp < r.wp && n <= r.wp - r.rp
    ensures Pending(r) == r.data[r.rp..r.rp + n] + Pending(AfterRead(r, n))
  {
    SplitSlice(r.data, r.rp, r.rp + n, r.wp);
  }

  lemma ReadWrapped(r: Ring, n: nat)
    requires Valid(r) && r.rp > r.wp && n <= |r.data| - r.rp
    ensures Valid(AfterRead(r, n)) && Pending(r) == r.data[r.rp..r.rp + n] + Pending(AfterRead(r, n))
  {
    hide Pending;
    var p, r' := r.rp + n, AfterRead(r, n);
    WrappedPending(r);
    SplitTail(r.data, r.rp, p);
    Regroup(r.data[r.rp..p], r.data[p..], r.data[..r.wp]);
    if p == |r.data| {
      StraightPending(r');
    } else {
      WrappedPending(r');
    }
  }

  lemma WrappedPending(r: Ring)
    requires Valid(r) && r.rp > r.wp
    ensures Pending(r) == r.data[r.rp..] + r.data[..r.wp]
  {
  }

  lemma StraightPending(r: Ring)
    requires Valid(r) && r.rp == 0
    ensures Pending(r) == r.data[..r.wp]
  {
  }

  lemma SplitTail(data: seq<byte>, a: nat, b: nat)
    requires a <= b <= |data|
    ensures data[a..] == data[a..b] + data[b..] && (b == |data| ==> data[b..] == [])
  {
  }

  lemma SplitSlice(data: seq<byte>, a: nat, b: nat, c: nat)
    requires a <= b <= c <= |data|
    ensures data[a..c] == data[a..b] + data[b..c]
  {
  }

  lemma Regroup(a: seq<byte>, b: seq<byte>, c: seq<byte>)
    ensures a + b + c == a + (b + c)
    ensures b == [] ==> a + b + c == a + c
  {
  }

  // A read takes what was asked for, or everything up to the writer, or everything up to the end of
  // the buffer; p is where it leaves the read position.
  ghost predicate TakesMost(r: Ring, len: nat, n: nat, p: nat) {
    && n <= len && r.rp + n <= |r.data| && (r.rp < r.wp ==> r.rp + n <= r.wp)
    && (n == len || r.rp + n == (if r.rp < r.wp then r.wp else |r.data|))
    && p == if r.rp + n == |r.data| then 0 else r.rp + n
  }

  lemma ReadTakesMost(r: Ring, len: nat)
    requires Valid(r) && r.rp != r.wp
    ensures TakesMost(r, len, ReadCount(r, len), AfterRead(r, ReadCount(r, len)).rp)
  {
  }

  // A write stores all its bytes, or as many as have_space says, or up to the end of the buffer or
  // one short of the reader, whichever is least; p is where it leaves the write position.
  ghost predicate StoresMost(r: Ring, len: nat, n: nat, p: nat)
    requires Valid(r)
  {
    var space := if r.wp == r.rp then |r.data| - 1 else |Pending(r)|;
    var room := if r.wp < r.rp then r.rp - r.wp - 1 else |r.data| - r.wp;
    && n <= len && n <= space && n <= room && (n == len || n == space || n == room)
    && p == if r.wp + n == |r.data| then 0 else r.wp + n
  }

  lemma WriteStoresMost(r: Ring, src: seq<byte>)
    requires Valid(r)
    ensures 0 <= WriteCount(r, |src|) <= |src| && r.wp + WriteCount(r, |src|) <= |r.data|
    ensures StoresMost(r, |src|, WriteCount(r, |src|), AfterWrite(r, src[..WriteCount(r, |src|)]).wp)
  {
    SpaceIsPositive(r);
    WriteCountBounds(r, |src|);
    hide HaveSpace, Loses, Pending;
  }

  // Every other write appends; the losing one leaves nothing pending.
  lemma WriteAppends(r: Ring, src: seq<byte>)
    requires Valid(r)
    ensures 0 <= WriteCount(r, |src|) <= |src| && r.wp + WriteCount(r, |src|) <= |r.data|
    ensures var r' := AfterWrite(r, src[..WriteCount(r, |src|)]);
            && Valid(r')
            && Pending(r') == if Loses(r, |src|) then [] else Pending(r) + src[..WriteCount(r, |src|)]
    ensures Loses(r, |src|) ==> |Pending(r)| + WriteCount(r, |src|) == |r.data|
  {
    hide HaveSpace, WriteCount, Loses;
    WriteCountBounds(r, |src|);
    LosesAtStart(r, |src|);
    AppendAt(r, src[..WriteCount(r, |src|)]);
  }

  lemma LosesAtStart(r: Ring, len: nat)
    ensures Loses(r, len) ==> r.rp == 0 && r.wp > 0
  {
  }

  lemma AppendAt(r: Ring, d: seq<byte>)
    requires Valid(r) && r.wp + |d| <= |r.data| && (r.wp < r.rp ==> r.wp + |d| < r.rp)
    ensures var r' := AfterWrite(r, d);
            && Valid(r')
            && Pending(r') == if r.rp == 0 && r.wp + |d| == |r.data| then [] else Pending(r) + d
    ensures r.rp == 0 ==> |Pending(r)| == r.wp
  {
    var n, data := r.wp + |d|, r.data[..r.wp] + d + r.data[r.wp + |d|..];
    WrittenSlices(r.data, r.wp, d);
    if r.rp <= r.wp {
      SliceGrows(r.data, r.rp, r.wp, d);
    } else {
      assert data[r.rp..] == r.data[r.rp..] by {
        SliceAfter(r.data, r.wp, d, r.rp);
      }
      assert r.data[r.rp..] + (r.data[..r.wp] + d) == r.data[r.rp..] + r.data[..r.wp] + d;
    }
  }

  lemma WrittenSlices(data: seq<byte>, wp: nat, d: seq<byte>)
    requires wp + |d| <= |data|
    ensures (data[..wp] + d + data[wp + |d|..])[..wp + |d|] == data[..wp] + d
  {
  }

  lemma SliceGrows(data: seq<byte>, rp: nat, wp: nat, d: seq<byte>)
    requires rp <= wp && wp + |d| <= |data|
    ensures (data[..wp] + d + data[wp + |d|..])[rp..wp + |d|] == data[rp..wp] + d
  {
  }

  lemma SliceAfter(data: seq<byte>, wp: nat, d: seq<byte>, rp: nat)
    requires wp + |d| <= rp <= |data|
    ensures (data[..wp] + d + data[wp + |d|..])[rp..] == data[rp..]
  {
  }

  class Scullb {
    const buf: array<byte>
    var rp: nat
    var wp: nat

    ghost function View(): Ring
      reads this, buf
    {
      Ring(buf[..], rp, wp)
    }

    constructor ()
      ensures View().rp == 0 && View().wp == 0 && |View().data| == DEVSIZE && fresh(buf)
    {
      buf := new byte[DEVSIZE];
      rp, wp := 0, 0;
    }

    // One turn of sdev_read while it holds the semaphore; None when it has to wait.
    method Read(len: nat) returns (out: Option<seq<byte>>)
      requires Valid(View())
      modifies this`rp
      ensures Valid(View())
      ensures out.None? <==> old(rp) == wp
      ensures out.None? ==> View() == old(View())
      ensures out.Some? ==>
        Pending(old(View())) == out.value + Pending(View()) && |out.value| == ReadCount(old(View()), len)
      ensures out.Some? ==> View() == AfterRead(old(View()), |out.value|)
      ensures out.Some? ==> TakesMost(old(View()), len, |out.value|, rp)
    {
      hide Pending;
      if rp == wp {
        return None;
      }
      var count := len;
      if rp < wp {
        count := Min(count, wp - rp);
      } else {
        count := Min(count, buf.Length - rp);
      }
      ReadTakesFront(View(), count);
      out := Some(buf[rp..rp + count]);
      rp := rp + count;
      if rp == buf.Length {
        rp := 0;
      }
    }

    method Space() returns (n: int)
      requires Valid(View())
      ensures n == HaveSpace(View())
    {
      if wp == rp {
        return buf.Length - 1;
      }
      n := (wp - rp + buf.Length) % buf.Length;
    }

    // One turn of sdev_write while it holds the semaphore; None when it has to wait.
    method Write(src: seq<byte>) returns (count: Option<nat>)
      requires Valid(View())
      modifies this`wp, buf
      ensures Valid(View())
      ensures count.None? <==> HaveSpace(old(View())) == 0
      ensures count.None? ==> View() == old(View())
      ensures count.Some? ==> count.value <= |src| && count.value == WriteCount(old(View()), |src|)
      ensures count.Some? ==>
        old(wp) + count.value <= buf.Length && View() == AfterWrite(old(View()), src[..count.value])
      ensures count.Some? ==> StoresMost(old(View()), |src|, count.value, wp)
    {
      hide HaveSpace, StoresMost, Pending;
      WriteCountBounds(View(), |src|);
      WriteStoresMost(View(), src);
      var space := Space();
      if space == 0 {
        return None;
      }
      var n := Min(|src|, space);
      if wp >= rp {
        n := Min(n, buf.Length - wp);
      } else {
        n := Min(n, rp - wp - 1);
      }
      CopyIn(src[..n]);
      wp := wp + n;
      if wp == buf.Length {
        wp := 0;
      }
      count := Some(n);
    }

    method CopyIn(d: seq<byte>)
      requires wp + |d| <= buf.Length
      modifies buf
      ensures buf[..] == old(buf[..wp]) + d + old(buf[wp + |d|..])
    {
      for i := 0 to |d|
        invariant forall k :: 0 <= k < buf.Length ==> buf[k] == if wp <= k < wp + i then d[k - wp] else old(buf[k])
      {
        buf[wp + i] := d[i];
      }
    }
  }

  // ---------------------------------------------------------------------------------------------
  // Every run of readers and writers

  datatype Turn = Reader(len: nat) | Writer(src: seq<byte>)

  // The ring with everything written to it and read from it so far, and the number of losing writes.
  datatype World = World(ring: Ring, written: seq<byte>, taken: seq<byte>, losses: nat)

  ghost function Next(w: World, t: Turn): World {
    var r := w.ring;
    if !Valid(r) then w else
    match t
    case Reader(len) =>
      if r.rp == r.wp then w
      else
        var n := ReadCount(r, len);
        w.(ring := AfterRead(r, n), taken := w.taken + r.data[r.rp..r.rp + n])
    case Writer(src) =>
      if HaveSpace(r) == 0 then w
      else
        WriteCountBounds(r, |src|);
        var n := WriteCount(r, |src|);
        w.(ring := AfterWrite(r, src[..n]), written := w.written + src[..n],
           losses := if Loses(r, |src|) then w.losses + 1 else w.losses)
  }

  ghost predicate Inv(w: World) {
    && Valid(w.ring)
    && |w.written| == |w.taken| + |Pending(w.ring)| + |w.ring.data| * w.losses
    && (w.losses == 0 ==> w.written == w.taken + Pending(w.ring))
  }

  lemma ReaderKeepsInv(w: World, len: nat)
    requires Inv(w)
    ensures Inv(Next(w, Reader(len))) && |Next(w, Reader(len)).ring.data| == |w.ring.data|
  {
    hide Pending;
    var r := w.ring;
    if r.rp != r.wp {
      ReadTakesFront(r, ReadCount(r, len));
    }
  }

  lemma WriterKeepsInv(w: World, src: seq<byte>)
    requires Inv(w)
    ensures Inv(Next(w, Writer(src))) && |Next(w, Writer(src)).ring.data| == |w.ring.data|
  {
    hide Pending, HaveSpace, WriteCount, Loses;
    WriteAppends(w.ring, src);
    OneMore(|w.ring.data|, w.losses);
  }

  lemma OneMore(n: nat, k: nat)
    ensures n * (k + 1) == n * k + n
  {
  }

  lemma Positive(n: nat, k: nat)
    requires n > 0 && k > 0
    ensures n * k > 0
  {
  }

  lemma NextKeepsInv(w: World, t: Turn)
    requires Inv(w)
    ensures Inv(Next(w, t)) && |Next(w, t).ring.data| == |w.ring.data|
  {
    hide *;
    match t {
      case Reader(len) => ReaderKeepsInv(w, len);
      case Writer(src) => WriterKeepsInv(w, src);
    }
  }

  ghost predicate Run(ws: seq<World>, turns: seq<Turn>) {
    && |ws| == |turns| + 1
    && (ws[0].ring.rp == ws[0].ring.wp < |ws[0].ring.data| && ws[0].written == [] && ws[0].taken == [] &&
      ws[0].losses == 0)
    && forall i :: 0 <= i < |turns| ==> ws[i + 1] == Next(ws[i], turns[i])
  }

  lemma {:induction false} RunKeepsInv(ws: seq<World>, turns: seq<Turn>, i: nat)
    requires Run(ws, turns) && i <= |turns|
    ensures Inv(ws[i]) && |ws[i].ring.data| == |ws[0].ring.data|
  {
    hide Next;
    if i > 0 {
      RunKeepsInv(ws, turns, i - 1);
      NextKeepsInv(ws[i - 1], turns[i - 1]);
    }
  }

  // Over any run the positions stay inside the buffer, each losing write loses exactly one buffer
  // full, and what was read followed by what is pending is what was written iff none happened.
  lemma RunConserves(ws: seq<World>, turns: seq<Turn>, i: nat)
    requires Run(ws, turns) && i <= |turns|
    ensures Valid(ws[i].ring)
    ensures |ws[i].written| == |ws[i].taken| + |Pending(ws[i].ring)| + |ws[0].ring.data| * ws[i].losses
    ensures ws[i].written == ws[i].taken + Pending(ws[i].ring) <==> ws[i].losses == 0
  {
    hide Next, Pending;
    RunKeepsInv(ws, turns, i);
    var n, k := |ws[0].ring.data|, ws[i].losses;
    hide Run;
    if k > 0 {
      Positive(n, k);
    }
  }

  // Such a write exists for every buffer of two bytes or more: fill an empty device up to its last
  // byte, then write one byte.
  lemma LossHappens(data: seq<byte>, src: seq<byte>, last: byte) returns (ws: seq<World>, turns: seq<Turn>)
    requires |data| == |src| + 1 && src != []
    ensures Run(ws, turns) && turns == [Writer(src), Writer([last])] && ws[0].ring == Ring(data, 0, 0)
    ensures ws[2].losses == 1 && ws[2].written == src + [last] && ws[2].taken == [] && ws[2].ring.rp == ws[2].ring.wp
  {
    var w0 := World(Ring(data, 0, 0), [], [], 0);
    turns := [Writer(src), Writer([last])];
    FillsAllButOne(w0, src);
    var w1 := Next(w0, turns[0]);
    LosesTheRest(w1, last);
    var w2 := Next(w1, turns[1]);
    hide Next;
    ws := [w0, w1, w2];
  }

  lemma FillsAllButOne(w: World, src: seq<byte>)
    requires w.ring == Ring(w.ring.data, 0, 0) && |w.ring.data| == |src| + 1 && src != [] && w.written == []
    ensures var w' := Next(w, Writer(src));
      && w'.ring == Ring(w'.ring.data, 0, |src|) && |w'.ring.data| == |src| + 1
      && w'.written == src && w'.taken == w.taken && w'.losses == w.losses
  {
    assert src[..|src|] == src;
  }

  lemma LosesTheRest(w: World, last: byte)
    requires w.ring == Ring(w.ring.data, 0, w.ring.wp) && |w.ring.data| == w.ring.wp + 1 && w.ring.wp > 0
    ensures var w' := Next(w, Writer([last]));
      && w'.ring.rp == w'.ring.wp == 0 && w'.written == w.written + [last] && w'.taken == w.taken &&
        w'.losses == w.losses + 1
  {
    var r := w.ring;
    SpaceIsPositive(r);
    WriteCountBounds(r, 1);
    hide HaveSpace, WriteCount;
    assert [last][..1] == [last];
  }
}

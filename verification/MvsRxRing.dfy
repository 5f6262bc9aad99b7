// The completion ring of the Marvell SAS driver (mvs_int_rx): the hardware appends descriptors and
// publishes its producer index; each interrupt handles what is new.
module MvsRxRing {

  const RX_RING_SZ := 1024
  const UNTOUCHED := 0xfff   // producer index before the hardware has written anything

  // The bits of a completion descriptor that mvs_int_rx looks at.
  datatype Desc = Desc(slot: nat, done: bool, attn: bool, err: bool, slotReset: bool)

  // What is done for one descriptor, in order.
  datatype Action = Complete(slot: nat) | FreeSlot(slot: nat)

  function Actions(d: Desc): (a: seq<Action>)
    ensures |a| <= 2 && (forall i, j :: 0 <= i < j < |a| ==> !(a[i].Complete? && a[j].Complete?))
    ensures Complete(d.slot) in a <==> d.done || (d.err && !d.attn)
  {
    (if d.done then [Complete(d.slot)] else [])
    + (if d.attn then []
       else if d.err then (if d.done then [] else [Complete(d.slot)])
       else if d.slotReset then [FreeSlot(d.slot)] else [])
  }

  function AllActions(ds: seq<Desc>): seq<Action> {
    if ds == [] then [] else AllActions(ds[..|ds| - 1]) + Actions(ds[|ds| - 1])
  }

  predicate AnyAttention(ds: seq<Desc>) {
    exists i :: 0 <= i < |ds| && ds[i].attn
  }

  // The index the hardware publishes after n descriptors; the driver keeps the same for the
  // number it has handled.
  function Index(n: nat): nat {
    if n == 0 then UNTOUCHED else (n - 1) % RX_RING_SZ
  }

  // Descriptors from..to of the hardware's stream.
  function Stretch(stream: nat -> Desc, from: nat, to: nat): seq<Desc>
    requires from <= to
  {
    seq(to - from, i requires 0 <= i => stream(from + i))
  }

  // Two counts with the same index that are less than a lap apart are equal.
  lemma IndexInjective(m: nat, n: nat)
    requires Index(m) == Index(n) && ((m < n + RX_RING_SZ && n < m + RX_RING_SZ) || m == 0 || n == 0)
    ensures m == n
  {
    if 0 < m < n {
      IndexLater(m, n - m);
    } else if 0 < n < m {
      IndexLater(n, m - n);
    }
  }

  // The position after the one an index names.
  lemma IndexStep(n: nat)
    ensures (Index(n) + 1) % RX_RING_SZ == Index(n + 1) == n % RX_RING_SZ
  {
    if n == 0 {
      Remainder(UNTOUCHED + 1, 4, 0);
    } else {
      var q, r := (n - 1) / 1024, (n - 1) % 1024;
      Remainder(n - 1, q, r);
      var wraps := r == 1023;
      Remainder(n, if wraps then q + 1 else q, if wraps then 0 else r + 1);
      Remainder(r + 1, if wraps then 1 else 0, if wraps then 0 else r + 1);
    }
  }

  // How far behind the driver may be: a lap, except that the very first lap may be complete.
  predicate WithinLap(handled: nat, produced: nat) {
    handled <= produced && (produced < handled + RX_RING_SZ || (handled == 0 && produced <= RX_RING_SZ))
  }

  // ---------------------------------------------------------------------------------------------
  // One interrupt, in terms of the indices it reads

  // An index the driver can hold or read.
  predicate IsIndex(i: nat) { i < RX_RING_SZ || i == UNTOUCHED }

  // The index the driver catches up with: the mirror, or the register when the mirror has no news.
  function Target(cons: nat, mirror: nat, register: nat): nat {
    if mirror == UNTOUCHED || mirror != cons then mirror else register
  }

  // How many descriptors that takes.
  function Lag(cons: nat, target: nat): (n: nat)
    ensures IsIndex(target) ==> n <= RX_RING_SZ
  {
    if target == UNTOUCHED || target == cons then 0
    else if cons == UNTOUCHED then target + 1
    else (target - cons) % RX_RING_SZ
  }

  // The n descriptors after index cons.
  function Read(ring: seq<Desc>, cons: nat, n: nat): seq<Desc>
    requires |ring| == RX_RING_SZ
  {
    seq(n, j requires 0 <= j => ring[(cons + 1 + j) % RX_RING_SZ])
  }

  lemma Remainder(x: int, q: int, r: int)
    requires x == 1024 * q + r && 0 <= r < 1024
    ensures x % RX_RING_SZ == r
  {
  }

  lemma IndexIsIndex(n: nat)
    ensures IsIndex(Index(n)) && (Index(n) == UNTOUCHED <==> n == 0)
  {
  }

  lemma LagIs(cons: nat, target: nat)
    requires cons < RX_RING_SZ && target < RX_RING_SZ
    ensures Lag(cons, target) == target - cons + if target < cons then RX_RING_SZ else 0
  {
    if target < cons {
      Remainder(target - cons, -1, target - cons + 1024);
    } else {
      Remainder(target - cons, 0, target - cons);
    }
  }

  lemma LagStep(cons: nat, target: nat)
    requires IsIndex(cons) && target < RX_RING_SZ && cons != target
    ensures (cons + 1) % RX_RING_SZ < RX_RING_SZ && Lag((cons + 1) % RX_RING_SZ, target) == Lag(cons, target) - 1
  {
    if cons == UNTOUCHED {
      Remainder(cons + 1, 4, 0);
      LagIs(0, target);
    } else {
      var next := if cons == 1023 then 0 else cons + 1;
      Remainder(cons + 1, if cons == 1023 then 1 else 0, next);
      hide Lag;
      LagIs(cons, target);
      LagIs(next, target);
    }
  }

  lemma ReadGrows(ring: seq<Desc>, cons: nat, n: nat)
    requires |ring| == RX_RING_SZ
    ensures Read(ring, cons, n + 1) == Read(ring, cons, n) + [ring[(cons + 1 + n) % RX_RING_SZ]]
  {
  }

  lemma ActionsGrow(ds: seq<Desc>, d: Desc)
    ensures AllActions(ds + [d]) == AllActions(ds) + Actions(d)
    ensures AnyAttention(ds + [d]) <==> AnyAttention(ds) || d.attn
  {
    var t := ds + [d];
    assert t[..|t| - 1] == ds;
    assert d.attn ==> t[|t| - 1].attn;
    assert forall i :: 0 <= i < |ds| ==> t[i] == ds[i];
  }

  lemma ReadNone(ring: seq<Desc>, cons: nat)
    requires |ring| == RX_RING_SZ
    ensures AllActions(Read(ring, cons, 0)) == [] && !AnyAttention(Read(ring, cons, 0))
  {
  }

  lemma NextPosition(cons: nat, n: nat)
    ensures ((cons + 1 + n) % RX_RING_SZ + 1) % RX_RING_SZ == (cons + 1 + (n + 1)) % RX_RING_SZ
  {
    AddThenWrap(cons + 1 + n, 1);
  }

  class RxRing {
    var rxCons: nat

    // The body of the loop for one descriptor.
    method Handle(rxDesc: Desc) returns (actions: seq<Action>, attn: bool)
      ensures actions == Actions(rxDesc) && attn == rxDesc.attn
    {
      actions, attn := [], false;
      if rxDesc.done {
        actions := actions + [Complete(rxDesc.slot)];
      }
      if rxDesc.attn {
        attn := true;
      } else if rxDesc.err {
        if !rxDesc.done {
          actions := actions + [Complete(rxDesc.slot)];
        }
      } else if rxDesc.slotReset {
        actions := actions + [FreeSlot(rxDesc.slot)];
      }
    }

    // mvs_int_rx.  `mirror` is the producer index in the first word of the ring, `register` the one
    // read from the chip when the mirror shows nothing new, `ring` the descriptors after that word.
    method IntRx(mirror: nat, register: nat, ring: seq<Desc>, selfClear: bool)
      returns (actions: seq<Action>, fullIrq: bool)
      requires |ring| == RX_RING_SZ && IsIndex(rxCons) && IsIndex(mirror)
      requires mirror != UNTOUCHED ==> register < RX_RING_SZ
      modifies this
      ensures rxCons == Target(old(rxCons), mirror, register) && IsIndex(rxCons)
      ensures mirror == 0xfff ==> rxCons == 0xfff && actions == []
      ensures var news := Read(ring, old(rxCons), Lag(old(rxCons), rxCons));
        actions == AllActions(news) && (fullIrq <==> selfClear && AnyAttention(news))
    {
      hide Read, AllActions, AnyAttention, Actions;
      ReadNone(ring, rxCons);
      actions, fullIrq := [], false;
      var rxProdIdx: nat := rxCons;
      rxCons := mirror;
      if rxCons == UNTOUCHED {
        return;
      }
      if rxCons == rxProdIdx {
        rxCons := register;
      }
      if rxCons == rxProdIdx {
        return;
      }
      var attn := false;
      ghost var cons: nat, n: nat := rxProdIdx, 0;
      while rxCons != rxProdIdx
        invariant rxCons == Target(cons, mirror, register) < RX_RING_SZ
        invariant 0 <= n && IsIndex(rxProdIdx) && n + Lag(rxProdIdx, rxCons) == Lag(cons, rxCons)
        invariant rxProdIdx == if n == 0 then cons else (cons + n) % RX_RING_SZ
        invariant actions == AllActions(Read(ring, cons, n)) && (attn <==> AnyAttention(Read(ring, cons, n)))
        decreases Lag(rxProdIdx, rxCons)
      {
        LagStep(rxProdIdx, rxCons);
        if n > 0 {
          NextPosition(cons, n - 1);
        }
        ReadGrows(ring, cons, n);
        ActionsGrow(Read(ring, cons, n), ring[(cons + 1 + n) % RX_RING_SZ]);
        rxProdIdx := (rxProdIdx + 1) % RX_RING_SZ;
        var rxDesc := ring[rxProdIdx];
        var done, attention := Handle(rxDesc);
        actions := actions + done;
        if attention {
          attn := true;
        }
        n := n + 1;
      }
      if attn && selfClear {
        fullIrq := true;
      }
    }

    // The interrupts of a sequence, one after another, on the ring the hardware is writing.
    method Service(stream: nat -> Desc, irqs: seq<Interrupt>) returns (actions: seq<Action>)
      requires rxCons == UNTOUCHED && AllTimely(irqs)
      modifies this
      ensures rxCons == Index(Handled(irqs))
      ensures actions == AllActions(Stretch(stream, 0, Handled(irqs)))
    {
      hide Read, AllActions, Stretch, RingAt, Lag, Index, Target;
      actions := [];
      assert irqs[..0] == [];
      for k := 0 to |irqs|
        invariant IsIndex(rxCons) && rxCons == Cons(irqs[..k]) && actions == Done(stream, irqs[..k])
      {
        var irq := irqs[k];
        assert irqs[..k + 1][..k] == irqs[..k];
        assert Timely(Handled(irqs[..k]), irq);
        IndexIsIndex(irq.mirror);
        IndexIsIndex(irq.written);
        var more, fullIrq := IntRx(Index(irq.mirror), Index(irq.written), RingAt(stream, irq.written), false);
        actions := actions + more;
      }
      assert irqs[..|irqs|] == irqs;
      EachOnceInOrder(stream, irqs);
    }
  }

  // ---------------------------------------------------------------------------------------------
  // Which descriptors that is

  // An interrupt that finds the mirror as published after `mirror` descriptors, when the hardware
  // has written `written` of them.
  datatype Interrupt = Interrupt(mirror: nat, written: nat)

  const BLANK := Desc(0, false, false, false, false)

  // The number of the last descriptor written at ring position i; negative when there is none.
  function Newest(written: nat, i: nat): int {
    written - 1 - (written - 1 - i) % RX_RING_SZ
  }

  function Numbered(stream: nat -> Desc, n: int): Desc { if n < 0 then BLANK else stream(n) }

  // The ring as the hardware has written it.
  function RingAt(stream: nat -> Desc, written: nat): (ring: seq<Desc>)
    ensures |ring| == RX_RING_SZ
  {
    seq(RX_RING_SZ, i requires 0 <= i => Numbered(stream, Newest(written, i)))
  }

  function CaughtUp(cons: nat, irq: Interrupt): nat {
    Target(cons, Index(irq.mirror), Index(irq.written))
  }

  // The numbers of the descriptors an interrupt handles after the first `before` were handled.
  function Taken(before: nat, irq: Interrupt): seq<int> {
    seq(Lag(Index(before), CaughtUp(Index(before), irq)), j requires 0 <= j =>
      Newest(irq.written, (before + j) % RX_RING_SZ))
  }

  lemma NewestIs(written: nat, n: int)
    requires written - RX_RING_SZ <= n < written && n + RX_RING_SZ >= 0
    ensures Newest(written, (n + RX_RING_SZ) % RX_RING_SZ) == n
  {
    var i, k := (n + RX_RING_SZ) % RX_RING_SZ, (n + RX_RING_SZ) / RX_RING_SZ;
    assert written - 1 - i == RX_RING_SZ * (k - 1) + (written - 1 - n);
    Remainder(written - 1 - i, k - 1, written - 1 - n);
  }

  lemma SamePosition(n: nat)
    ensures (n + RX_RING_SZ) % RX_RING_SZ == n % RX_RING_SZ
  {
    Remainder(n + 1024, n / 1024 + 1, n % 1024);
    Remainder(n, n / 1024, n % 1024);
  }

  // The descriptor at the j-th position an interrupt comes to: the next one when it has been
  // written, and the one of a lap before when it has not.
  lemma NumberAt(before: nat, written: nat, j: nat)
    requires WithinLap(before, written) && j < RX_RING_SZ
    ensures Newest(written, (before + j) % RX_RING_SZ) ==
      if before + j < written then before + j else before + j - RX_RING_SZ
  {
    hide Newest;
    if before + j < written {
      SamePosition(before + j);
      NewestIs(written, before + j);
    } else {
      NewestIs(written, before + j - RX_RING_SZ);
    }
  }

  lemma PositionAfter(before: nat, j: nat)
    ensures (Index(before) + 1 + j) % RX_RING_SZ == (before + j) % RX_RING_SZ
  {
    hide Index;
    IndexStep(before);
    AddThenWrap(Index(before) + 1, j);
    AddThenWrap(before, j);
  }

  lemma AddThenWrap(x: nat, j: nat)
    ensures (x + j) % RX_RING_SZ == (x % RX_RING_SZ + j) % RX_RING_SZ
  {
    var q, r := x / 1024, x % 1024;
    var p, t := (r + j) / 1024, (r + j) % 1024;
    Remainder(x, q, r);
    Remainder(r + j, p, t);
    Remainder(x + j, q + p, t);
  }

  // What the loop reads is the descriptors with those numbers.
  lemma ReadIsTaken(stream: nat -> Desc, before: nat, irq: Interrupt)
    ensures var news := Read(RingAt(stream, irq.written), Index(before),
      Lag(Index(before), CaughtUp(Index(before), irq)));
      |news| == |Taken(before, irq)| && forall j :: 0 <= j < |news| ==>
        news[j] == Numbered(stream, Taken(before, irq)[j])
  {
    hide Newest, Index, Lag, CaughtUp, Numbered;
    var n := Lag(Index(before), CaughtUp(Index(before), irq));
    var news := Read(RingAt(stream, irq.written), Index(before), n);
    forall j | 0 <= j < n ensures news[j] == Numbered(stream, Taken(before, irq)[j]) {
      PositionAfter(before, j);
    }
  }

  // The interrupt handles the next descriptors, in order, and remembers where it got to.
  ghost predicate OnlyNew(before: nat, irq: Interrupt) {
    var taken := Taken(before, irq);
    && CaughtUp(Index(before), irq) == Index(before + |taken|)
    && forall j :: 0 <= j < |taken| ==> taken[j] == before + j
  }

  // How many descriptors have been handled after an interrupt whose mirror is not out of date.
  function Seen(before: nat, irq: Interrupt): nat {
    if irq.mirror == 0 then before else if irq.mirror > before then irq.mirror
    else if irq.written > before then irq.written else before
  }

  lemma LagOf(before: nat, to: nat)
    requires WithinLap(before, to)
    ensures Lag(Index(before), Index(to)) == to - before
  {
    if before == 0 {
      if to > 0 {
        Remainder(to - 1, 0, to - 1);
      }
    } else {
      hide Lag;
      IndexLater(before, to - before);
      LagIs(Index(before), Index(to));
    }
  }

  lemma IndexLater(n: nat, d: nat)
    requires n > 0 && d < RX_RING_SZ
    ensures Index(n) < RX_RING_SZ
    ensures Index(n + d) == Index(n) + d - if Index(n) + d < RX_RING_SZ then 0 else RX_RING_SZ
  {
    var q, i := (n - 1) / 1024, (n - 1) % 1024;
    Remainder(n - 1, q, i);
    if i + d < 1024 {
      Remainder(n + d - 1, q, i + d);
    } else {
      Remainder(n + d - 1, q + 1, i + d - 1024);
    }
  }

  // Catching up with a mirror that is behind takes most of a lap.
  lemma LagBack(before: nat, mirror: nat)
    requires 0 < mirror < before < mirror + RX_RING_SZ
    ensures Index(mirror) != Index(before) && Index(mirror) != UNTOUCHED
    ensures Lag(Index(before), Index(mirror)) == RX_RING_SZ - (before - mirror)
  {
    hide Lag, Index;
    IndexLater(mirror, before - mirror);
    LagIs(Index(before), Index(mirror));
  }

  // The mirror is at least as new as what has been handled, and the hardware less than a lap ahead.
  predicate Timely(before: nat, irq: Interrupt) {
    before <= irq.mirror <= irq.written && WithinLap(before, irq.written)
  }

  lemma CatchesUp(before: nat, irq: Interrupt)
    requires Timely(before, irq)
    ensures WithinLap(before, Seen(before, irq)) && Seen(before, irq) <= irq.written
    ensures CaughtUp(Index(before), irq) == Index(Seen(before, irq))
  {
    hide Index;
    IndexIsIndex(irq.mirror);
    if Index(irq.mirror) == Index(before) {
      IndexInjective(irq.mirror, before);
    }
  }

  lemma TimelyIsNew(before: nat, irq: Interrupt)
    requires Timely(before, irq)
    ensures OnlyNew(before, irq) && before + |Taken(before, irq)| == Seen(before, irq)
  {
    hide Newest, Index, Lag, CaughtUp;
    CatchesUp(before, irq);
    LagOf(before, Seen(before, irq));
    var taken := Taken(before, irq);
    forall j | 0 <= j < |taken| ensures taken[j] == before + j {
      NumberAt(before, irq.written, j);
    }
  }

  lemma StaleIsNotNew(before: nat, irq: Interrupt)
    requires irq.mirror < before && WithinLap(before, irq.written)
    requires irq.mirror > 0 ==> irq.written < irq.mirror + RX_RING_SZ
    ensures !OnlyNew(before, irq)
  {
    hide Newest, Index, Lag;
    var taken := Taken(before, irq);
    IndexIsIndex(irq.mirror);
    IndexIsIndex(before + |taken|);
    if irq.mirror > 0 {
      LagBack(before, irq.mirror);
      var last := |taken| - 1;
      NumberAt(before, irq.written, last);
      assert taken[last] != before + last;
    }
  }

  // With a mirror less than a lap late, an interrupt handles exactly what is new if and only if the
  // mirror is not older than what has been handled.
  lemma NewExactlyWhenFresh(before: nat, irq: Interrupt)
    requires irq.mirror <= irq.written && WithinLap(before, irq.written)
    requires irq.mirror > 0 ==> irq.written < irq.mirror + RX_RING_SZ || before <= irq.mirror
    ensures OnlyNew(before, irq) <==> before <= irq.mirror
  {
    hide OnlyNew;
    if before <= irq.mirror {
      TimelyIsNew(before, irq);
    } else {
      StaleIsNotNew(before, irq);
    }
  }

  // ---------------------------------------------------------------------------------------------
  // Every sequence of interrupts

  // rx_cons, and what was done, after a sequence of interrupts.
  function Cons(irqs: seq<Interrupt>): nat {
    if irqs == [] then UNTOUCHED else CaughtUp(Cons(irqs[..|irqs| - 1]), irqs[|irqs| - 1])
  }

  function Done(stream: nat -> Desc, irqs: seq<Interrupt>): seq<Action> {
    if irqs == [] then []
    else
      var front, last := irqs[..|irqs| - 1], irqs[|irqs| - 1];
      Done(stream, front) + AllActions(Read(RingAt(stream, last.written), Cons(front),
        Lag(Cons(front), CaughtUp(Cons(front), last))))
  }

  function Handled(irqs: seq<Interrupt>): nat {
    if irqs == [] then 0 else Seen(Handled(irqs[..|irqs| - 1]), irqs[|irqs| - 1])
  }

  ghost predicate AllTimely(irqs: seq<Interrupt>) {
    forall k :: 0 <= k < |irqs| ==> Timely(Handled(irqs[..k]), irqs[k])
  }

  // Over any sequence of timely interrupts each descriptor is acted on exactly once, in order, and
  // rx_cons says how far the driver has got.
  lemma {:induction false} EachOnceInOrder(stream: nat -> Desc, irqs: seq<Interrupt>)
    requires AllTimely(irqs)
    ensures Cons(irqs) == Index(Handled(irqs))
    ensures Done(stream, irqs) == AllActions(Stretch(stream, 0, Handled(irqs)))
  {
    hide Seen, CaughtUp, Lag, Read, RingAt, AllActions, Stretch, Timely;
    if irqs == [] {
      EmptyStretch(stream, 0);
    } else {
      var front, last := irqs[..|irqs| - 1], irqs[|irqs| - 1];
      assert forall k :: 0 <= k < |front| ==> front[..k] == irqs[..k];
      EachOnceInOrder(stream, front);
      NewsIsStretch(stream, Handled(front), last);
      StretchConcat(stream, 0, Handled(front), Handled(irqs));
    }
  }

  lemma NewsIsStretch(stream: nat -> Desc, before: nat, irq: Interrupt)
    requires Timely(before, irq)
    ensures before <= Seen(before, irq) && CaughtUp(Index(before), irq) == Index(Seen(before, irq))
    ensures Read(RingAt(stream, irq.written), Index(before), Lag(Index(before), CaughtUp(Index(before), irq)))
         == Stretch(stream, before, Seen(before, irq))
  {
    hide Index, Lag, CaughtUp, RingAt, Read, Taken, Seen, Timely;
    TimelyIsNew(before, irq);
    ReadIsTaken(stream, before, irq);
  }

  lemma EmptyStretch(stream: nat -> Desc, n: nat)
    ensures AllActions(Stretch(stream, n, n)) == []
  {
  }

  lemma StretchGrows(stream: nat -> Desc, from: nat, to: nat)
    requires from <= to
    ensures Stretch(stream, from, to + 1) == Stretch(stream, from, to) + [stream(to)]
  {
  }

  lemma {:induction false} StretchConcat(stream: nat -> Desc, a: nat, b: nat, c: nat)
    requires a <= b <= c
    ensures AllActions(Stretch(stream, a, c)) == AllActions(Stretch(stream, a, b)) + AllActions(Stretch(stream, b, c))
    decreases c - b
  {
    hide Stretch, AllActions, Actions;
    if b == c {
      EmptyStretch(stream, b);
    } else {
      StretchConcat(stream, a, b, c - 1);
      StretchGrows(stream, a, c - 1);
      StretchGrows(stream, b, c - 1);
      ActionsGrow(Stretch(stream, a, c - 1), stream(c - 1));
      ActionsGrow(Stretch(stream, b, c - 1), stream(c - 1));
    }
  }

  // A late mirror does make the driver handle old descriptors again: five handled, the mirror still
  // at three, and the interrupt comes round to descriptors 0, 1 and 2 once more.
  lemma LateMirrorHandlesAgain()
    ensures AllTimely([Interrupt(5, 5)]) && Handled([Interrupt(5, 5)]) == 5
    ensures var taken := Taken(5, Interrupt(3, 6));
      |taken| == 1022 && taken[0] == 5 && taken[1019..] == [0, 1, 2]
  {
    var irqs := [Interrupt(5, 5)];
    assert irqs[..0] == [];
    LagBack(5, 3);
    var taken := Taken(5, Interrupt(3, 6));
    NumberAt(5, 6, 0);
    NumberAt(5, 6, 1019);
    NumberAt(5, 6, 1020);
    NumberAt(5, 6, 1021);
  }

  // An interrupt that finds the hardware exactly one lap ahead sees nothing new, so "less than a
  // lap" is needed: beyond the first lap the index tells the two apart iff it is less.
  lemma LapIsInvisible(handled: nat, produced: nat)
    requires 0 < handled <= produced <= handled + RX_RING_SZ
    ensures Index(produced) == Index(handled) <==> produced == handled || produced == handled + RX_RING_SZ
  {
  }
}

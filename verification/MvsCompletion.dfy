// From submission to report: the driver's tables, the completion ring and the hardware together
// (mvs_task_exec, mvs_int_rx and mvs_slot_complete of mv_sas.c).
module MvsCompletion {
  import opened Basics
  import opened MvsRegSets
  import opened MvsSlots
  import Rx = MvsRxRing
  import Tx = MvsTxRing

  datatype World = World(
    s: State,
    waiting: set<nat>,       // slots the hardware was given and has not answered
    stream: seq<Rx.Desc>,    // the descriptors it has written, first to last
    pos: nat,                // rx_prod_idx, the last position mvs_int_rx has handled
    cons: nat,               // rx_cons, the position it is to catch up with
    // history
    handled: nat,            // descriptors handled
    caught: nat,             // descriptors written when it began to catch up
    owed: seq<Task>)         // the task each descriptor answers

  datatype Event =
    | Sent(r: Req)           // one turn of mvs_task_exec
    | Gone(dev: nat)         // a device without tasks is removed
    | Answered(d: Rx.Desc)   // the hardware writes a descriptor
    | Raised(mirror: nat)    // mvs_int_rx begins; the mirror says `mirror` descriptors
    | Fetch(aborted: bool)   // one turn of its loop, for a task that has been aborted or not

  // The ring position after pos, as the hardware has left it.
  function Flow(stream: seq<Rx.Desc>): nat -> Rx.Desc {
    (n: nat) => if n < |stream| then stream[n] else Rx.BLANK
  }

  function Fetched(stream: seq<Rx.Desc>, pos: nat): Rx.Desc {
    Rx.RingAt(Flow(stream), |stream|)[(pos + 1) % Rx.RX_RING_SZ]
  }

  // What mvs_int_rx does to the tables for one descriptor: a completion, or the tag alone is freed.
  function Act(s: State, a: Rx.Action, aborted: bool): State
    requires |s.tags| == |s.slots|
  {
    if a.slot >= |s.slots| then s
    else match a
      case Complete(i) => MvsSlots.Complete(s, i, aborted)
      case FreeSlot(i) => s.(tags := s.tags[i := false])
  }

  function ActAll(s: State, actions: seq<Rx.Action>, aborted: bool): State
    requires |s.tags| == |s.slots|
    decreases |actions|
  {
    if actions == [] then s
    else
      var s' := Act(s, actions[0], aborted);
      if |s'.tags| == |s'.slots| then ActAll(s', actions[1..], aborted) else s'
  }

  // The same as a case distinction on the descriptor.
  lemma DescActs(s: State, d: Rx.Desc, aborted: bool)
    requires |s.tags| == |s.slots| && d.slot < |s.slots|
    ensures var s' := if d.done || (d.err && !d.attn) then MvsSlots.Complete(s, d.slot, aborted) else s;
            ActAll(s, Rx.Actions(d), aborted)
            == if !d.attn && !d.err && d.slotReset then s'.(tags := s'.tags[d.slot := false]) else s'
  {
    hide MvsSlots.Complete;
    CompleteSizes(s, d.slot, aborted);
    var done, free := Rx.Complete(d.slot), Rx.FreeSlot(d.slot);
    var first := if d.done || (d.err && !d.attn) then [done] else [];
    var second := if !d.attn && !d.err && d.slotReset then [free] else [];
    assert Rx.Actions(d) == first + second;
    if first != [] {
      ActFirst(s, done, second, aborted);
    }
    if second != [] {
      ActFirst(if first == [] then s else MvsSlots.Complete(s, d.slot, aborted), free, [], aborted);
    }
    assert [] + second == second && [free] + [] == [free];
  }

  lemma ActFirst(s: State, a: Rx.Action, rest: seq<Rx.Action>, aborted: bool)
    requires |s.tags| == |s.slots|
    ensures |Act(s, a, aborted).tags| == |Act(s, a, aborted).slots|
    ensures ActAll(s, [a] + rest, aborted) == ActAll(Act(s, a, aborted), rest, aborted)
  {
    assert ([a] + rest)[1..] == rest;
    if a.slot < |s.slots| {
      CompleteSizes(s, a.slot, aborted);
    }
  }

  lemma CompleteSizes(s: State, i: nat, aborted: bool)
    requires |s.tags| == |s.slots| && i < |s.slots|
    ensures var s' := MvsSlots.Complete(s, i, aborted); |s'.tags| == |s'.slots| == |s.slots|
  {
  }

  // The task in slot i, if any.
  function Holder(s: State, i: nat): seq<Task> {
    if i < |s.slots| && s.slots[i].Some? then [s.slots[i].value.task] else []
  }

  // The hardware answers a slot it was given, once, with a descriptor that completes it; the mirror
  // shows at least what has been handled.
  ghost predicate Allows(w: World, e: Event) {
    match e
    case Sent(r) => Allowed(w.s, SubmitStep(r))
    case Gone(d) => Allowed(w.s, RemoveStep(d))
    case Answered(d) => d.slot in w.waiting && Rx.Actions(d) == [Rx.Complete(d.slot)]
    case Raised(mirror) => w.pos == w.cons && w.handled <= mirror <= |w.stream|
    case Fetch(_) => w.pos != w.cons && |w.s.tags| == |w.s.slots|
  }

  ghost function After(w: World, e: Event, srs: nat): World
    requires Allows(w, e)
  {
    match e
    case Sent(r) =>
      var (s', o) := Submit(w.s, r, srs);
      w.(s := s', waiting := if o == Queued then w.waiting + {FirstClear(w.s.tags)} else w.waiting)
    case Gone(d) => w.(s := Removed(w.s, d))
    case Answered(d) =>
      w.(waiting := w.waiting - {d.slot}, stream := w.stream + [d], owed := w.owed + Holder(w.s, d.slot))
    case Raised(mirror) =>
      var irq := Rx.Interrupt(mirror, |w.stream|);
      w.(cons := Rx.CaughtUp(w.cons, irq), caught := Rx.Seen(w.handled, irq))
    case Fetch(aborted) =>
      w.(s := ActAll(w.s, Rx.Actions(Fetched(w.stream, w.pos)), aborted),
         pos := (w.pos + 1) % Rx.RX_RING_SZ, handled := w.handled + 1)
  }

  ghost predicate Start(w: World) {
    && Init(w.s) && w.waiting == {} && w.stream == [] && w.pos == w.cons == Rx.UNTOUCHED
    && w.handled == w.caught == 0 && w.owed == []
  }

  ghost predicate Run(ws: seq<World>, es: seq<Event>, srs: nat) {
    && |ws| == |es| + 1 && srs <= 32 && Start(ws[0])
    && forall k :: 0 <= k < |es| ==> Allows(ws[k], es[k]) && ws[k + 1] == After(ws[k], es[k], srs)
  }

  // ---------------------------------------------------------------------------------------------
  // What every step keeps

  // A descriptor not handled yet completes a busy slot, whose task is the one it answers.
  ghost predicate Pending(w: World, j: nat)
    requires j < |w.stream| && j < |w.owed|
  {
    var d := w.stream[j];
    && d.slot < |w.s.slots| && w.s.slots[d.slot].Some? && w.s.slots[d.slot].value.task == w.owed[j]
    && d.slot !in w.waiting && Rx.Actions(d) == [Rx.Complete(d.slot)]
  }

  // Slot i is answered by a descriptor not handled yet.
  ghost predicate Answer(w: World, i: nat) {
    exists j :: w.handled <= j < |w.stream| && w.stream[j].slot == i
  }

  // The busy slots are those the hardware has and those whose answer is not handled, each in one
  // place only.
  ghost predicate Slots(w: World) {
    && |w.owed| == |w.stream| && w.handled <= |w.stream|
    && (forall i :: i in w.waiting ==> i < |w.s.slots| && w.s.slots[i].Some?)
    && (forall j :: w.handled <= j < |w.stream| ==> Pending(w, j))
    && (forall j, k :: w.handled <= j < k < |w.stream| ==> w.stream[j].slot != w.stream[k].slot)
    && (forall i :: 0 <= i < |w.s.slots| && w.s.slots[i].Some? ==> i in w.waiting || Answer(w, i))
  }

  // What was reported is what the handled descriptors answer.
  ghost predicate Tally(w: World) {
    w.handled <= |w.owed| && multiset(w.owed[..w.handled]) == w.s.done + w.s.dropped
  }

  ghost predicate Rings(w: World) {
    && w.handled <= w.caught <= |w.stream| && w.pos == Rx.Index(w.handled) && w.cons == Rx.Index(w.caught)
  }

  ghost predicate Good(w: World, srs: nat) {
    MvsSlots.Inv(w.s, srs) && srs <= 32 && Slots(w) && Tally(w) && Rings(w)
  }

  lemma StartIsGood(w: World, srs: nat)
    requires Start(w) && srs <= 32
    ensures Good(w, srs)
  {
    InitHasInv(w.s, srs);
    hide MvsSlots.Inv;
    assert w.owed[..0] == [];
  }

  // The slots of the unhandled descriptors.
  ghost function Unhandled(w: World): (list: seq<nat>)
    requires w.handled <= |w.stream|
    ensures |list| == |w.stream| - w.handled
  {
    seq<nat>(|w.stream| - w.handled, k requires 0 <= k < |w.stream| - w.handled => w.stream[w.handled + k].slot)
  }

  // There are no more unhandled descriptors than slots.
  lemma Bounded(w: World)
    requires Slots(w)
    ensures |w.stream| - w.handled <= |w.s.slots|
  {
    var list, n := Unhandled(w), |w.s.slots|;
    forall k | 0 <= k < |list| ensures list[k] < n { assert Pending(w, w.handled + k); }
    Tx.DistinctBelow(list, n + 1, n);
  }

  lemma SubmitIs(s: State, r: Req, srs: nat)
    requires |s.tags| == |s.slots| && r.port < |s.lists| && r.task.dev in s.devs
    ensures var (s', o) := Submit(s, r, srs);
            var t := FirstClear(s.tags);
            if o == Queued then
              && t < |s.tags| && !s.tags[t] && s'.slots == s.slots[t := Some(Busy(r.task, r.port))]
              && s'.lldd == s.lldd[r.task := t] && s'.devs.Keys == s.devs.Keys && |s'.lists| == |s.lists|
              && s'.done == s.done && s'.dropped == s.dropped
            else s' == s
  {
    hide Assigned;
    if r.task.ata && Assign(s.regs, s.devs, srs, r.task.dev).Done? {
      assert Assign(s.regs, s.devs, srs, r.task.dev).devs.Keys == s.devs.Keys;
    }
  }

  // What becomes of the slots when one free slot is taken.
  lemma TakenSlots(w: World, w': World, t: nat, b: Busy)
    requires Slots(w) && t < |w.s.slots| && w.s.slots[t].None? && w'.s.slots == w.s.slots[t := Some(b)]
    requires w' == w.(s := w'.s, waiting := w.waiting + {t})
    ensures Slots(w')
  {
    forall j | w'.handled <= j < |w'.stream| ensures Pending(w', j) { assert Pending(w, j); }
    forall i | 0 <= i < |w'.s.slots| && w'.s.slots[i].Some? ensures i in w'.waiting || Answer(w', i) {
      if i != t && i !in w.waiting {
        assert Answer(w, i);
      }
    }
  }

  lemma SentKeeps(w: World, r: Req, srs: nat)
    requires Good(w, srs) && Allows(w, Sent(r))
    ensures Good(After(w, Sent(r), srs), srs)
  {
    hide MvsSlots.Inv, Slots, Submit, Rings;
    SubmitKeepsInv(w.s, r, srs);
    SubmitIs(w.s, r, srs);
    var t := FirstClear(w.s.tags);
    if Submit(w.s, r, srs).1 == Queued {
      TagIsFree(w.s, srs, t);
      TakenSlots(w, After(w, Sent(r), srs), t, Busy(r.task, r.port));
    }
    SameRings(w, After(w, Sent(r), srs));
  }

  lemma TagIsFree(s: State, srs: nat, t: nat)
    requires MvsSlots.Inv(s, srs) && t < |s.tags|
    ensures |s.tags| == |s.slots| && (s.tags[t] <==> s.slots[t].Some?)
  {
    assert SlotInv(s, t);
  }

  lemma SameRings(w: World, w': World)
    requires Rings(w) && w' == w.(s := w'.s, waiting := w'.waiting)
    ensures Rings(w')
  {
  }

  lemma GoneKeeps(w: World, d: nat, srs: nat)
    requires Good(w, srs) && Allows(w, Gone(d))
    ensures Good(After(w, Gone(d), srs), srs)
  {
    hide MvsSlots.Inv, Release, Rings;
    RemoveKeepsInv(w.s, d, srs);
    var w' := After(w, Gone(d), srs);
    SameRings(w, w');
    forall j | w'.handled <= j < |w'.stream| ensures Pending(w', j) { assert Pending(w, j); }
    forall i | 0 <= i < |w'.s.slots| && w'.s.slots[i].Some? ensures i in w'.waiting || Answer(w', i) {
      assert Answer(w, i) ==> Answer(w', i);
    }
  }

  lemma AnsweredSlots(w: World, d: Rx.Desc, srs: nat)
    requires Good(w, srs) && Allows(w, Answered(d))
    ensures Slots(After(w, Answered(d), srs)) && Tally(After(w, Answered(d), srs))
    ensures w.s.slots[d.slot].Some? && After(w, Answered(d), srs).owed == w.owed + [w.s.slots[d.slot].value.task]
  {
    hide MvsSlots.Inv, Rings, Rx.Actions;
    var w' := After(w, Answered(d), srs);
    var n := |w.stream|;
    forall j | w'.handled <= j < |w'.stream| ensures Pending(w', j) {
      if j < n {
        assert Pending(w, j);
      }
    }
    forall j, k | w'.handled <= j < k < |w'.stream| ensures w'.stream[j].slot != w'.stream[k].slot {
      assert Pending(w, j);
    }
    forall i | 0 <= i < |w'.s.slots| && w'.s.slots[i].Some? ensures i in w'.waiting || Answer(w', i) {
      if i == d.slot {
        assert w'.stream[n].slot == i;
      } else if i !in w.waiting {
        var j :| w.handled <= j < n && w.stream[j].slot == i;
        assert w'.stream[j].slot == i;
      }
    }
    assert w'.owed[..w.handled] == w.owed[..w.handled];
  }

  lemma AnsweredKeeps(w: World, d: Rx.Desc, srs: nat)
    requires Good(w, srs) && Allows(w, Answered(d))
    ensures Good(After(w, Answered(d), srs), srs)
  {
    hide MvsSlots.Inv, Slots, Tally, Rx.Index;
    AnsweredSlots(w, d, srs);
  }

  lemma RaisedKeeps(w: World, mirror: nat, srs: nat)
    requires Good(w, srs) && Allows(w, Raised(mirror)) && Rx.WithinLap(w.handled, |w.stream|)
    ensures Good(After(w, Raised(mirror), srs), srs)
  {
    hide MvsSlots.Inv, Rx.Index, Rx.CaughtUp, Rx.WithinLap;
    var irq, w' := Rx.Interrupt(mirror, |w.stream|), After(w, Raised(mirror), srs);
    Rx.CatchesUp(w.handled, irq);
    SameSlots(w, w');
  }

  lemma SameSlots(w: World, w': World)
    requires Slots(w) && w' == w.(cons := w'.cons, caught := w'.caught)
    ensures Slots(w')
  {
    forall j | w'.handled <= j < |w'.stream| ensures Pending(w', j) { assert Pending(w, j); }
    forall i | 0 <= i < |w'.s.slots| && w'.s.slots[i].Some? ensures i in w'.waiting || Answer(w', i) {
      assert Answer(w, i) ==> Answer(w', i);
    }
  }

  // Within a lap, the next position of the ring holds the next descriptor.
  lemma FetchedIs(stream: seq<Rx.Desc>, handled: nat)
    requires handled < |stream| && Rx.WithinLap(handled, |stream|)
    ensures Fetched(stream, Rx.Index(handled)) == stream[handled]
  {
    hide Rx.Index, Rx.Newest;
    Rx.PositionAfter(handled, 0);
    Rx.NumberAt(handled, |stream|, 0);
  }

  // Handling it completes the slot it answers.
  lemma FetchIs(w: World, aborted: bool, srs: nat)
    requires Good(w, srs) && Allows(w, Fetch(aborted)) && Rx.WithinLap(w.handled, |w.stream|)
    ensures w.handled < w.caught && w.handled < |w.stream| == |w.owed| && Pending(w, w.handled)
    ensures var i := w.stream[w.handled].slot;
            After(w, Fetch(aborted), srs) == w.(s := MvsSlots.Complete(w.s, i, aborted),
                                                pos := Rx.Index(w.handled + 1), handled := w.handled + 1)
  {
    hide MvsSlots.Inv, Rx.Index, Rx.WithinLap, MvsSlots.Complete, Fetched, Rx.Actions;
    FetchedIs(w.stream, w.handled);
    Rx.IndexStep(w.handled);
    assert Pending(w, w.handled);
    OneAction(w.s, w.stream[w.handled].slot, aborted);
  }

  lemma OneAction(s: State, i: nat, aborted: bool)
    requires |s.tags| == |s.slots| && i < |s.slots|
    ensures ActAll(s, [Rx.Complete(i)], aborted) == MvsSlots.Complete(s, i, aborted)
  {
    hide MvsSlots.Complete;
    ActFirst(s, Rx.Complete(i), [], aborted);
    assert [Rx.Complete(i)] + [] == [Rx.Complete(i)];
  }

  lemma CompleteIs(s: State, i: nat, aborted: bool, srs: nat)
    requires MvsSlots.Inv(s, srs) && srs <= 32 && i < |s.slots| && s.slots[i].Some?
    ensures |s.tags| == |s.slots|
    ensures var s', task := MvsSlots.Complete(s, i, aborted), s.slots[i].value.task;
            && s'.slots == s.slots[i := None] && s'.lldd == s.lldd - {task} && s'.devs.Keys == s.devs.Keys
            && |s'.lists| == |s.lists|
            && s'.done == s.done + (if aborted then multiset{} else multiset{task})
            && s'.dropped == s.dropped + (if aborted then multiset{task} else multiset{})
  {
    hide MvsSlots.Inv, Uncount, Without;
    InvParts(s, srs);
    RunningPositive(s, srs, i);
    Uncounted(s, srs, s.slots[i].value.task);
  }

  lemma FetchSlots(w: World, w': World)
    requires Slots(w) && w.handled < |w.stream|
    requires w' == w.(s := w'.s, pos := w'.pos, handled := w.handled + 1)
    requires Pending(w, w.handled) && w'.s.slots == w.s.slots[w.stream[w.handled].slot := None]
    ensures Slots(w')
  {
    var h, t := w.handled, w.stream[w.handled].slot;
    forall i | i in w'.waiting ensures i < |w'.s.slots| && w'.s.slots[i].Some? { assert i != t; }
    forall j | w'.handled <= j < |w'.stream|
      ensures Pending(w', j)
    {
      assert Pending(w, j) && w.stream[h].slot != w.stream[j].slot;
    }
    forall i | 0 <= i < |w'.s.slots| && w'.s.slots[i].Some? ensures i in w'.waiting || Answer(w', i) {
      if i !in w.waiting {
        var j :| w.handled <= j < |w.stream| && w.stream[j].slot == i;
        assert j != h && w'.stream[j].slot == i;
      }
    }
  }

  lemma FetchKeeps(w: World, aborted: bool, srs: nat)
    requires Good(w, srs) && Allows(w, Fetch(aborted)) && Rx.WithinLap(w.handled, |w.stream|)
    ensures Good(After(w, Fetch(aborted), srs), srs)
  {
    hide MvsSlots.Inv, MvsSlots.Complete, Rx.Index, Rx.WithinLap, Rx.Actions, Fetched, ActAll;
    FetchIs(w, aborted, srs);
    var w', h := After(w, Fetch(aborted), srs), w.handled;
    var i := w.stream[h].slot;
    CompleteKeepsInv(w.s, i, aborted, srs);
    CompleteIs(w.s, i, aborted, srs);
    FetchSlots(w, w');
    assert w.owed[..h + 1] == w.owed[..h] + [w.owed[h]];
  }

  // Fewer tags than ring positions, so the ring is never overrun.
  lemma RoomInRing(w: World)
    requires Slots(w) && |w.s.slots| < Rx.RX_RING_SZ
    ensures Rx.WithinLap(w.handled, |w.stream|)
  {
    Bounded(w);
  }

  lemma AfterKeepsGood(w: World, e: Event, srs: nat)
    requires Good(w, srs) && Allows(w, e) && |w.s.slots| < Rx.RX_RING_SZ
    ensures Good(After(w, e, srs), srs)
  {
    hide After, Allows, MvsSlots.Inv, Slots, Tally, Rings, Rx.WithinLap;
    match e
    case Sent(r) => SentKeeps(w, r, srs);
    case Gone(d) => GoneKeeps(w, d, srs);
    case Answered(d) => AnsweredKeeps(w, d, srs);
    case Raised(mirror) =>
      RoomInRing(w);
      RaisedKeeps(w, mirror, srs);
    case Fetch(aborted) =>
      RoomInRing(w);
      FetchKeeps(w, aborted, srs);
  }

  lemma AfterKeepsSize(w: World, e: Event, srs: nat)
    requires Good(w, srs) && Allows(w, e) && |w.s.slots| < Rx.RX_RING_SZ
    ensures |After(w, e, srs).s.slots| == |w.s.slots|
  {
    hide MvsSlots.Inv, Slots, Rx.WithinLap, Rings, Submit, MvsSlots.Complete, Rx.Index, ActAll, Fetched, Release;
    match e
    case Sent(r) => SubmitIs(w.s, r, srs);
    case Fetch(aborted) =>
      RoomInRing(w);
      FetchIs(w, aborted, srs);
      CompleteIs(w.s, w.stream[w.handled].slot, aborted, srs);
    case _ =>
  }

  // ---------------------------------------------------------------------------------------------
  // Every run

  lemma {:induction false} RunIsGood(ws: seq<World>, es: seq<Event>, srs: nat, k: nat)
    requires Run(ws, es, srs) && k <= |es| && |ws[0].s.slots| < Rx.RX_RING_SZ
    ensures Good(ws[k], srs) && |ws[k].s.slots| == |ws[0].s.slots|
  {
    hide Good, Allows, After, Start;
    if k == 0 {
      StartIsGood(ws[0], srs);
    } else {
      RunIsGood(ws, es, srs, k - 1);
      AfterKeepsGood(ws[k - 1], es[k - 1], srs);
      AfterKeepsSize(ws[k - 1], es[k - 1], srs);
    }
  }

  // Each turn of the interrupt's loop takes the next descriptor and reports the task it answers,
  // which is in its slot; a task that was aborted is freed without a report.
  lemma EachReportIsOwed(ws: seq<World>, es: seq<Event>, srs: nat, k: nat)
    requires Run(ws, es, srs) && k < |es| && es[k].Fetch? && |ws[0].s.slots| < Rx.RX_RING_SZ
    ensures var w, w' := ws[k], ws[k + 1];
            && w.handled < |w.owed| && w.owed[w.handled] in w.s.lldd
            && w'.s.lldd == w.s.lldd - {w.owed[w.handled]}
            && w'.s.done == w.s.done + (if es[k].aborted then multiset{} else multiset{w.owed[w.handled]})
            && w'.s.dropped == w.s.dropped + (if es[k].aborted then multiset{w.owed[w.handled]} else multiset{})
  {
    hide Start, MvsSlots.Complete, After, Rx.Index, Rx.WithinLap, MvsSlots.Inv;
    RunIsGood(ws, es, srs, k);
    var w := ws[k];
    RoomInRing(w);
    FetchIs(w, es[k].aborted, srs);
    var i := w.stream[w.handled].slot;
    CompleteIs(w.s, i, es[k].aborted, srs);
    BusyIsMapped(w.s, srs, i);
  }

  lemma BusyIsMapped(s: State, srs: nat, i: nat)
    requires MvsSlots.Inv(s, srs) && i < |s.slots| && s.slots[i].Some?
    ensures s.slots[i].value.task in s.lldd
  {
    assert SlotInv(s, i);
  }

  // In every state of every run the tasks reported, or freed as aborted, are exactly those of the
  // descriptors handled, with the same multiplicity; and once the hardware has answered everything
  // and the driver has handled it, that is every task queued.
  lemma ReportedExactlyOnce(ws: seq<World>, es: seq<Event>, srs: nat, k: nat)
    requires Run(ws, es, srs) && k <= |es| && |ws[0].s.slots| < Rx.RX_RING_SZ
    ensures var w := ws[k];
            && w.handled <= |w.owed| == |w.stream|
            && w.s.done + w.s.dropped == multiset(w.owed[..w.handled])
            && (w.handled == |w.stream| && w.waiting == {} ==>
              w.s.queued == w.s.done + w.s.dropped && w.s.lldd == map[])
  {
    hide Start, After, Allows;
    RunIsGood(ws, es, srs, k);
    var w := ws[k];
    if w.handled == |w.stream| && w.waiting == {} {
      forall t ensures t !in w.s.lldd && w.s.queued[t] == w.s.done[t] + w.s.dropped[t] {
        assert TaskInv(w.s, t);
        assert t in w.s.lldd ==> Answer(w, w.s.lldd[t]);
      }
    }
  }

  // Nothing is freed without a report in a run in which no task is aborted.
  lemma {:induction false} NoneDropped(ws: seq<World>, es: seq<Event>, srs: nat, k: nat)
    requires Run(ws, es, srs) && k <= |es| && |ws[0].s.slots| < Rx.RX_RING_SZ
    requires forall j :: 0 <= j < |es| ==> es[j] != Fetch(true)
    ensures ws[k].s.dropped == multiset{}
  {
    hide Good, Allows, Submit, MvsSlots.Complete, Release, ActAll, Rx.CaughtUp;
    if k > 0 {
      NoneDropped(ws, es, srs, k - 1);
      var w, e := ws[k - 1], es[k - 1];
      assert Allows(w, e) && ws[k] == After(w, e, srs);
      match e {
        case Fetch(aborted) => EachReportIsOwed(ws, es, srs, k - 1);
        case Sent(r) => SubmitDropsNone(w, r, srs);
        case _ =>
      }
    }
  }

  lemma SubmitDropsNone(w: World, r: Req, srs: nat)
    requires Allows(w, Sent(r))
    ensures After(w, Sent(r), srs).s.dropped == w.s.dropped
  {
    hide Submit;
    SubmitIs(w.s, r, srs);
  }

  lemma AllReported(ws: seq<World>, es: seq<Event>, srs: nat, k: nat)
    requires Run(ws, es, srs) && k <= |es| && |ws[0].s.slots| < Rx.RX_RING_SZ
    requires forall j :: 0 <= j < |es| ==> es[j] != Fetch(true)
    requires ws[k].handled == |ws[k].stream| && ws[k].waiting == {}
    ensures ws[k].s.done == ws[k].s.queued
  {
    hide Run;
    NoneDropped(ws, es, srs, k);
    ReportedExactlyOnce(ws, es, srs, k);
  }

  // ---------------------------------------------------------------------------------------------
  // Handling catches up

  lemma RunExtends(ws: seq<World>, es: seq<Event>, srs: nat, e: Event)
    requires Run(ws, es, srs) && Allows(ws[|es|], e)
    ensures Run(ws + [After(ws[|es|], e, srs)], es + [e], srs)
  {
    hide After, Allows, Start;
    var ws', es' := ws + [After(ws[|es|], e, srs)], es + [e];
    forall k | 0 <= k < |es'|
      ensures Allows(ws'[k], es'[k]) && ws'[k + 1] == After(ws'[k], es'[k], srs)
    {
    }
  }

  // The loop is over exactly when it has handled what it set out to.
  lemma IdleIsCaught(w: World, srs: nat)
    requires Good(w, srs) && |w.s.slots| < Rx.RX_RING_SZ
    ensures w.pos == w.cons <==> w.handled == w.caught
  {
    hide MvsSlots.Inv, Slots, Rx.Index;
    RoomInRing(w);
    if w.pos == w.cons {
      Rx.IndexInjective(w.caught, w.handled);
    }
  }

  // The loop, once begun, handles every descriptor it set out to.
  lemma {:induction false} LoopEnds(ws: seq<World>, es: seq<Event>, srs: nat) returns (ws': seq<World>, es': seq<Event>)
    requires Run(ws, es, srs) && |ws[0].s.slots| < Rx.RX_RING_SZ
    ensures Run(ws', es', srs) && es <= es' && ws <= ws'
    ensures var w, w' := ws[|es|], ws'[|es'|];
            && w'.pos == w'.cons && w'.handled == w'.caught == w.caught
            && w'.stream == w.stream && w'.waiting == w.waiting
    decreases ws[|es|].caught - ws[|es|].handled
  {
    hide Start, MvsSlots.Inv, MvsSlots.Complete, Rx.Index, Rx.WithinLap, After, Slots, Tally;
    var w := ws[|es|];
    RunIsGood(ws, es, srs, |es|);
    IdleIsCaught(w, srs);
    ws', es' := ws, es;
    if w.pos != w.cons {
      InvParts(w.s, srs);
      RoomInRing(w);
      FetchIs(w, false, srs);
      RunExtends(ws, es, srs, Fetch(false));
      ws', es' := LoopEnds(ws + [After(w, Fetch(false), srs)], es + [Fetch(false)], srs);
    }
  }

  // From any state of any run the driver can handle everything written, with one interrupt whose
  // mirror is up to date.
  lemma CatchesUpWithAll(ws: seq<World>, es: seq<Event>, srs: nat) returns (ws': seq<World>, es': seq<Event>)
    requires Run(ws, es, srs) && |ws[0].s.slots| < Rx.RX_RING_SZ
    ensures Run(ws', es', srs) && es <= es' && ws <= ws'
    ensures var w, w' := ws[|es|], ws'[|es'|];
            w'.handled == |w'.stream| && w'.stream == w.stream && w'.waiting == w.waiting
  {
    hide Start, MvsSlots.Inv, Rx.CaughtUp, Slots, Tally, Rings;
    ws', es' := LoopEnds(ws, es, srs);
    var w := ws'[|es'|];
    RunIsGood(ws', es', srs, |es'|);
    HandledBound(w);
    if w.handled < |w.stream| {
      RunExtends(ws', es', srs, Raised(|w.stream|));
      ws', es' := LoopEnds(ws' + [After(w, Raised(|w.stream|), srs)], es' + [Raised(|w.stream|)], srs);
    }
  }

  lemma HandledBound(w: World)
    requires Slots(w)
    ensures w.handled <= |w.stream|
  {
  }

  // ---------------------------------------------------------------------------------------------
  // How many tags the ring is large enough for

  // A run on n tags that ends with an interrupt whose mirror shows all descriptors, and which
  // handles none of those that are new.
  ghost predicate Misses(ws: seq<World>, es: seq<Event>, srs: nat, n: nat) {
    && Run(ws, es, srs) && |ws[0].s.slots| == n && es != []
    && es[|es| - 1] == Raised(|ws[|es| - 1].stream|)
    && ws[|es|].pos == ws[|es|].cons && ws[|es|].handled < |ws[|es|].stream|
  }

  lemma SmallRingSuffices(ws: seq<World>, es: seq<Event>, srs: nat, n: nat)
    requires n < Rx.RX_RING_SZ
    ensures !Misses(ws, es, srs, n)
  {
    hide Start, MvsSlots.Inv, Rx.CaughtUp, Slots, Tally, Rings;
    if Misses(ws, es, srs, n) {
      RunIsGood(ws, es, srs, |es|);
      IdleIsCaught(ws[|es|], srs);
    }
  }

  function Plain(id: nat): Req { Req(Task(id, 0, false), false, 0, true, true, true) }

  function Finished(slot: nat): Rx.Desc { Rx.Desc(slot, true, false, false, false) }

  // Nothing is left to the hardware, and the next task is a new one.
  ghost predicate Filling(w: World, n: nat) {
    && Good(w, 0) && w.waiting == {} && |w.s.tags| == |w.s.slots| == n && |w.s.lists| == 1 && 0 in w.s.devs
    && w.pos == w.cons && forall t :: t in w.s.lldd ==> t.id < |w.stream|
  }

  lemma RoomLeft(w: World, srs: nat)
    requires Good(w, srs) && w.waiting == {} && |w.stream| - w.handled < |w.s.slots|
    ensures FirstClear(w.s.tags) < |w.s.tags| == |w.s.slots|
  {
    hide MvsSlots.Inv, Tally, Rings;
    InvParts(w.s, srs);
    var n, list := |w.s.slots|, Unhandled(w);
    if FirstClear(w.s.tags) == n {
      forall i: nat | i in Tx.Range(n) ensures i in Tx.Members(list) {
        TagIsFree(w.s, srs, i);
        var j :| w.handled <= j < |w.stream| && w.stream[j].slot == i;
        assert list[j - w.handled] == i;
      }
      Tx.RangeSize(n);
      Tx.DistinctSize(list);
      SubsetSize(Tx.Range(n), Tx.Members(list));
    }
  }

  lemma SubmitsPlain(w: World, n: nat)
    requires Filling(w, n) && |w.stream| - w.handled < n
    ensures Allows(w, Sent(Plain(|w.stream|))) && FirstClear(w.s.tags) < n
    ensures var r, t := Plain(|w.stream|), FirstClear(w.s.tags);
            var w' := After(w, Sent(r), 0);
            && Submit(w.s, r, 0).1 == Queued && Good(w', 0) && w'.waiting == {t} && w' == w.(s := w'.s, waiting := {t})
            && w'.s.lldd == w.s.lldd[r.task := t] && 0 in w'.s.devs && |w'.s.lists| == 1 && |w'.s.slots| == n
  {
    hide Good, Assign;
    RoomLeft(w, 0);
    var r := Plain(|w.stream|);
    SentKeeps(w, r, 0);
    SubmitIs(w.s, r, 0);
  }

  // One more task is queued and answered.
  lemma SendAndAnswer(w: World, n: nat)
    requires Filling(w, n) && |w.stream| - w.handled < n
    ensures Allows(w, Sent(Plain(|w.stream|)))
    ensures var w1, t := After(w, Sent(Plain(|w.stream|)), 0), FirstClear(w.s.tags);
            && Allows(w1, Answered(Finished(t)))
            && var w2 := After(w1, Answered(Finished(t)), 0);
               Filling(w2, n) && |w2.stream| == |w.stream| + 1 && w2.handled == w.handled && w2.pos == w.pos &&
                 w2.cons == w.cons
  {
    hide Good, Submit;
    SubmitsPlain(w, n);
    var w1, t := After(w, Sent(Plain(|w.stream|)), 0), FirstClear(w.s.tags);
    AnsweredKeeps(w1, Finished(t), 0);
    var w2 := After(w1, Answered(Finished(t)), 0);
    GoodParts(w2);
  }

  lemma GoodParts(w: World)
    requires Good(w, 0)
    ensures |w.s.tags| == |w.s.slots|
  {
  }

  lemma {:induction false} Fills(ws: seq<World>, es: seq<Event>, n: nat, k: nat)
    returns (ws': seq<World>, es': seq<Event>)
    requires Run(ws, es, 0) && Filling(ws[|es|], n) && |ws[|es|].stream| - ws[|es|].handled + k <= n
    ensures Run(ws', es', 0) && ws <= ws' && Filling(ws'[|es'|], n)
    ensures var w, w' := ws[|es|], ws'[|es'|];
            |w'.stream| == |w.stream| + k && w'.handled == w.handled && w'.pos == w.pos && w'.cons == w.cons
  {
    hide Filling, After, Allows, Start;
    ws', es' := ws, es;
    if k > 0 {
      ws', es' := Fills(ws, es, n, k - 1);
      var w := ws'[|es'|];
      SendAndAnswer(w, n);
      var sent, answered := Sent(Plain(|w.stream|)), Answered(Finished(FirstClear(w.s.tags)));
      RunExtends(ws', es', 0, sent);
      ws', es' := ws' + [After(w, sent, 0)], es' + [sent];
      RunExtends(ws', es', 0, answered);
      ws', es' := ws' + [After(ws'[|es'|], answered, 0)], es' + [answered];
    }
  }

  lemma Begins(regs: Regs, n: nat) returns (ws: seq<World>)
    ensures Run(ws, [], 0) && |ws| == 1 && |ws[0].s.slots| == n
    ensures Filling(ws[0], n) && ws[0].handled == 0 && ws[0].stream == []
  {
    var s := State(seq(n, _ => false), seq(n, _ => None), [[]], map[], map[0 := Device(0, NOT_MAPPED)], regs,
                   multiset{}, multiset{}, multiset{});
    var w := World(s, {}, [], Rx.UNTOUCHED, Rx.UNTOUCHED, 0, 0, []);
    StartIsGood(w, 0);
    ws := [w];
  }

  // One descriptor handled.
  lemma HandlesOne(ws: seq<World>, es: seq<Event>, n: nat) returns (ws': seq<World>, es': seq<Event>)
    requires Run(ws, es, 0) && Filling(ws[|es|], n) && ws[|es|].handled == 0 && |ws[|es|].stream| == 1
    ensures Run(ws', es', 0) && ws <= ws' && Filling(ws'[|es'|], n)
    ensures ws'[|es'|].handled == |ws'[|es'|].stream| == 1
  {
    hide Start, MvsSlots.Inv, MvsSlots.Complete, Slots, Tally, ActAll, Fetched;
    var w := ws[|es|];
    RaisedKeeps(w, 1, 0);
    RunExtends(ws, es, 0, Raised(1));
    var w1 := After(w, Raised(1), 0);
    assert w1.cons == Rx.Index(1) == 0 && w1.pos == Rx.Index(0) == Rx.UNTOUCHED;
    FetchKeeps(w1, false, 0);
    FetchIs(w1, false, 0);
    CompleteIs(w1.s, w1.stream[0].slot, false, 0);
    RunExtends(ws + [w1], es + [Raised(1)], 0, Fetch(false));
    var w2 := After(w1, Fetch(false), 0);
    GoodParts(w2);
    ws', es' := ws + [w1] + [w2], es + [Raised(1)] + [Fetch(false)];
  }

  lemma FullLapIsMissed(regs: Regs, n: nat) returns (ws: seq<World>, es: seq<Event>)
    requires n >= Rx.RX_RING_SZ
    ensures Misses(ws, es, 0, n)
  {
    hide Filling, Start, Rx.Index;
    ws := Begins(regs, n);
    var s0 := ws[0];
    ws, es := Fills(ws, [], n, 1);
    ws, es := HandlesOne(ws, es, n);
    ws, es := Fills(ws, es, n, Rx.RX_RING_SZ);
    var w := ws[|es|];
    Lapped(w, n);
    RunExtends(ws, es, 0, Raised(1025));
    assert ws[0] == s0;
    ws, es := ws + [After(w, Raised(1025), 0)], es + [Raised(1025)];
  }

  lemma Lapped(w: World, n: nat)
    requires Filling(w, n) && w.handled == 1 && |w.stream| == 1025
    ensures Allows(w, Raised(1025))
    ensures var w' := After(w, Raised(1025), 0); w'.pos == w'.cons && w'.handled < |w'.stream|
  {
    hide MvsSlots.Inv, Slots, Tally;
    assert Rx.Index(1025) == 0 == Rx.Index(1);
  }

  // An interrupt with an up-to-date mirror can miss new descriptors if and only if there are as many
  // tags as positions in the ring, or more.
  lemma MissesExactlyWhenFull(n: nat)
    ensures (exists ws, es, srs :: Misses(ws, es, srs, n)) <==> n >= Rx.RX_RING_SZ
  {
    hide Misses;
    if n >= Rx.RX_RING_SZ {
      var none := seq(32, _ => false);
      var ws, es := FullLapIsMissed(Regs(none, none), n);
    } else {
      forall ws, es, srs ensures !Misses(ws, es, srs, n) { SmallRingSuffices(ws, es, srs, n); }
    }
  }
}

// The operations of mv_sas.c on the driver's own tables, in place.
module MvsDriver {
  import opened Basics
  import opened MvsRegSets
  import opened MvsSlots
  import opened MvsRelease
  import opened MvsTxRing
  import MvsCompletion
  import Rx = MvsRxRing

  // Requests a caller may put in one batch: tasks that are not in flight, each once.
  ghost predicate Batchable(s: State, reqs: seq<Req>) {
    && (forall k :: 0 <= k < |reqs| ==>
      reqs[k].port < |s.lists| && reqs[k].task.dev in s.devs && reqs[k].task !in s.lldd)
    && (forall k, l :: 0 <= k < l < |reqs| ==> reqs[k].task != reqs[l].task)
  }

  // What a batch of submissions does: tasks are tried in turn until one stops the batch.
  datatype Batched = Batched(s: State, x: Tx, pass: nat)

  ghost predicate Ready(s: State, x: Tx, r: Req) {
    |s.tags| == |s.slots| && r.port < |s.lists| && r.task.dev in s.devs && x.prod < |x.ring|
  }

  ghost function One(s: State, x: Tx, r: Req, srs: nat): (Batched, Outcome)
    requires Ready(s, x, r)
  {
    var (s', o) := Submit(s, r, srs);
    (if o == Queued then Batched(s', Push(x, FirstClear(s.tags)), 1) else Batched(s', x, 0), o)
  }

  ghost function Batch(s: State, x: Tx, reqs: seq<Req>, srs: nat): Batched
    decreases |reqs|
  {
    if reqs == [] || !Ready(s, x, reqs[0]) then Batched(s, x, 0)
    else
      var (b, o) := One(s, x, reqs[0], srs);
      if o == Stopped then b
      else
        var rest := Batch(b.s, b.x, reqs[1..], srs);
        Batched(rest.s, rest.x, b.pass + rest.pass)
  }

  // The course of a batch: the states, and how each task that was tried came out.
  ghost predicate Course(reqs: seq<Req>, srs: nat, ss: seq<State>, os: seq<Outcome>) {
    && |ss| == |os| + 1 && |os| <= |reqs|
    && forall k :: 0 <= k < |os| ==>
         Submittable(ss[k], reqs[k]) && (ss[k + 1], os[k]) == Submit(ss[k], reqs[k], srs)
  }

  ghost predicate Submittable(s: State, r: Req) {
    |s.tags| == |s.slots| && r.port < |s.lists| && r.task.dev in s.devs
  }

  ghost function QueuedIn(os: seq<Outcome>): nat {
    if os == [] then 0 else (if os[0] == Queued then 1 else 0) + QueuedIn(os[1..])
  }

  // A batch tries its tasks in order, each on the state the one before left, up to the end or to the
  // first that stops it, and counts those that were queued.
  lemma {:induction false} BatchRuns(s: State, x: Tx, reqs: seq<Req>, srs: nat)
    returns (ss: seq<State>, os: seq<Outcome>)
    requires MvsSlots.Inv(s, srs) && srs <= 32 && Batchable(s, reqs) && x.prod < |x.ring|
    ensures Course(reqs, srs, ss, os) && ss[0] == s
    ensures var b := Batch(s, x, reqs, srs); b.s == ss[|os|] && b.pass == QueuedIn(os)
    ensures forall k :: 0 <= k < |os| - 1 ==> os[k] != Stopped
    ensures |os| < |reqs| ==> os != [] && os[|os| - 1] == Stopped
    decreases |reqs|
  {
    hide MvsSlots.Inv, Submit, Batchable, One;
    if reqs == [] {
      ss, os := [s], [];
    } else {
      BatchableReady(s, srs, x, reqs);
      BatchStep(s, x, reqs, srs);
      var (s', o) := Submit(s, reqs[0], srs);
      OneIs(s, x, reqs[0], srs);
      if o == Stopped {
        ss, os := [s, s'], [o];
      } else {
        var (b, _) := One(s, x, reqs[0], srs);
        var ss', os' := BatchRuns(s', b.x, reqs[1..], srs);
        ss, os := [s] + ss', [o] + os';
        assert os[1..] == os';
      }
    }
  }

  lemma OneIs(s: State, x: Tx, r: Req, srs: nat)
    requires Ready(s, x, r)
    ensures var (b, o) := One(s, x, r, srs);
            && (b.s, o) == Submit(s, r, srs) && b.pass == (if o == Queued then 1 else 0) && b.x.prod < |b.x.ring|
  {
  }

  // A batch that queues p tasks advances the producer by p modulo the ring.
  lemma {:induction false} BatchAdvances(s: State, x: Tx, reqs: seq<Req>, srs: nat)
    requires |x.ring| > 0 && x.prod == |x.issued| % |x.ring|
    ensures var b := Batch(s, x, reqs, srs);
            && |b.x.ring| == |x.ring| && |b.x.issued| == |x.issued| + b.pass
            && b.x.prod == (|x.issued| + b.pass) % |x.ring| && b.x.delivered == x.delivered
    decreases |reqs|
  {
    if reqs != [] && Ready(s, x, reqs[0]) {
      var (b, o) := One(s, x, reqs[0], srs);
      ModNext(|x.issued|, |x.ring|);
      if o != Stopped {
        BatchAdvances(b.s, b.x, reqs[1..], srs);
      }
    }
  }

  // The doorbell value, tx_prod - 1, is the ring position of the last entry written.
  lemma DoorbellIsLastEntry(x: Tx)
    requires |x.ring| > 0 && x.prod == |x.issued| % |x.ring| && x.issued != []
    ensures (x.prod - 1) % |x.ring| == (|x.issued| - 1) % |x.ring|
  {
    var n, a := |x.ring|, |x.issued| - 1;
    ModNext(a, n);
    if a % n + 1 < n {
      SmallMod(a % n + 1, n);
      SmallMod(a % n, n);
    } else {
      MinusOne(n);
    }
  }

  lemma MinusOne(n: nat)
    requires n > 0
    ensures n % n == 0 && (0 - 1) % n == n - 1
  {
  }

  class Mvs {
    const tags: array<bool>
    const slots: array<Option<Busy>>
    const lists: array<seq<nat>>
    const tx: array<nat>
    const chip: Chip
    var txProd: nat
    var lldd: map<Task, nat>
    var devs: map<nat, Device>
    ghost var queued: multiset<Task>
    ghost var done: multiset<Task>
    ghost var dropped: multiset<Task>
    ghost var issued: seq<nat>
    ghost var delivered: nat

    ghost function View(): State
      reads this, tags, slots, lists, chip
    {
      State(tags[..], slots[..], lists[..], lldd, devs, chip.regs, queued, done, dropped)
    }

    ghost function TxView(): Tx
      reads this, tx
    {
      Tx(tx[..], txProd, issued, delivered)
    }

    ghost predicate Shape()
      reads this
    {
      tags.Length == slots.Length <= tx.Length && txProd < tx.Length && chip.srsSz <= 32
    }

    // mvs_alloc: nothing allocated, nothing queued.
    constructor (chip: Chip, nr: nat, ring: nat, ports: nat, devices: set<nat>)
      requires nr <= ring && ring > 0 && chip.srsSz <= 32
      ensures Shape() && Init(View()) && this.chip == chip
      ensures tags.Length == nr && tx.Length == ring && lists.Length == ports && devs.Keys == devices
      ensures TxView() == Tx(seq(ring, _ => 0), 0, [], 0)
    {
      this.chip := chip;
      tags := new bool[nr](_ => false);
      slots := new Option<Busy>[nr](_ => None);
      lists := new seq<nat>[ports](_ => []);
      tx := new nat[ring](_ => 0);
      txProd, lldd, devs := 0, map[], map d | d in devices :: Device(0, NOT_MAPPED);
      queued, done, dropped, issued, delivered := multiset{}, multiset{}, multiset{}, [], 0;
    }

    // mvs_tag_alloc
    method TagAlloc() returns (ok: bool, tag: nat)
      modifies tags
      ensures tag == FirstClear(old(tags[..])) && (ok <==> tag < tags.Length)
      ensures tags[..] == if ok then old(tags[..])[tag := true] else old(tags[..])
    {
      tag := 0;
      while tag < tags.Length && tags[tag]
        invariant tag <= tags.Length && forall j :: 0 <= j < tag ==> tags[j]
      {
        tag := tag + 1;
      }
      FirstClearIs(tags[..], tag);
      ok := tag < tags.Length;
      if ok {
        tags[tag] := true;
      }
    }

    // mvs_tag_free
    method TagFree(tag: nat)
      requires tag < tags.Length
      modifies tags
      ensures tags[..] == old(tags[..])[tag := false]
    {
      tags[tag] := false;
    }

    // mvs_assign_reg_set
    method AssignRegSetFor(d: nat) returns (ok: bool)
      requires d in devs && chip.srsSz <= 32
      modifies this`devs, chip
      ensures ok <==> Assign(old(chip.regs), old(devs), chip.srsSz, d).Done?
      ensures ok ==> Done(chip.regs, devs) == Assign(old(chip.regs), old(devs), chip.srsSz, d)
      ensures !ok ==> chip.regs == old(chip.regs) && devs == old(devs)
    {
      var tfs, rc := chip.AssignRegSet(devs[d].tfs);
      ok := rc != NOT_MAPPED;
      if devs[d].tfs != tfs {
        devs := devs[d := devs[d].(tfs := tfs)];
      }
    }

    // mvs_free_reg_set
    method FreeRegSetOf(d: nat)
      requires d in devs
      modifies this`devs, chip
      ensures (chip.regs, devs) == Release(old(chip.regs), old(devs), d)
    {
      if devs[d].running != 0 || devs[d].tfs == NOT_MAPPED {
        return;
      }
      var tfs := chip.FreeRegSet(devs[d].tfs);
      devs := devs[d := devs[d].(tfs := tfs)];
    }

    // The delivery entry of a queued task.
    method WriteEntry(tag: nat)
      requires txProd < tx.Length
      modifies this`txProd, this`issued, tx
      ensures TxView() == Push(old(TxView()), tag)
    {
      tx[txProd] := tag;
      txProd := (txProd + 1) % tx.Length;
      issued := issued + [tag];
    }

    // The end of a turn of mvs_task_exec, once the tag is allocated and the task prepared.
    method Enqueue(tag: nat, task: Task, port: nat)
      requires tag < tags.Length == slots.Length && tags[tag] && port < lists.Length && task.dev in devs
      requires txProd < tx.Length
      modifies this, slots, lists, tx
      ensures View() == Claim(old(View()), tag, task, port)
      ensures TxView() == Push(old(TxView()), tag)
    {
      hide Push;
      slots[tag] := Some(Busy(task, port));
      lldd := lldd[task := tag];
      lists[port] := lists[port] + [tag];
      devs := devs[task.dev := devs[task.dev].(running := devs[task.dev].running + 1)];
      queued := queued + multiset{task};
      WriteEntry(tag);
      assert tags[..] == old(tags[..])[tag := true];
    }

    // One turn of the loop of mvs_task_exec.
    method ExecOne(r: Req) returns (o: Outcome)
      requires Shape() && Ready(View(), TxView(), r)
      modifies this, tags, slots, lists, tx, chip
      ensures Shape()
      ensures (Batched(View(), TxView(), if o == Queued then 1 else 0), o) ==
        One(old(View()), old(TxView()), r, chip.srsSz)
    {
      if r.gone {
        return Stopped;
      }
      if !r.attached {
        return if r.task.ata then Stopped else Skipped;
      }
      if !r.task.ata && !r.mapped {
        return Stopped;
      }
      var ok, tag := TagAlloc();
      if !ok {
        return Stopped;
      }
      var rc := r.prepared;
      if r.task.ata {
        rc := AssignRegSetFor(r.task.dev);
      }
      if !rc {
        TagFree(tag);
        assert tags[..] == old(tags[..]);
        return Stopped;
      }
      Enqueue(tag, r.task, r.port);
      return Queued;
    }

    // mvs_task_exec for a batch; the doorbell is the index given to start_delivery.
    method TaskExec(reqs: seq<Req>) returns (pass: nat, doorbell: Option<nat>)
      requires Shape() && MvsSlots.Inv(View(), chip.srsSz) && Batchable(View(), reqs)
      modifies this, tags, slots, lists, tx, chip
      ensures Shape() && MvsSlots.Inv(View(), chip.srsSz)
      ensures Batched(View(), TxView(), pass) == Batch(old(View()), old(TxView()), reqs, chip.srsSz)
      ensures doorbell == if pass == 0 then None else Some((txProd - 1) % tx.Length)
    {
      hide MvsSlots.Inv, Batch, One, Batchable;
      pass := 0;
      var n := 0;
      BatchableReady(View(), chip.srsSz, TxView(), reqs);
      assert reqs[0..] == reqs;
      while n < |reqs|
        invariant n <= |reqs| && Shape() && MvsSlots.Inv(View(), chip.srsSz) && Batchable(View(), reqs[n..])
        invariant var rest := Batch(View(), TxView(), reqs[n..], chip.srsSz);
                  Batch(old(View()), old(TxView()), reqs, chip.srsSz) == Batched(rest.s, rest.x, pass + rest.pass)
        decreases |reqs| - n
      {
        ghost var s, x := View(), TxView();
        BatchableReady(s, chip.srsSz, x, reqs[n..]);
        BatchStep(s, x, reqs[n..], chip.srsSz);
        var o := ExecOne(reqs[n]);
        assert reqs[n..][1..] == reqs[n + 1..];
        if o == Queued {
          pass := pass + 1;
        }
        if o == Stopped {
          break;
        }
        n := n + 1;
      }
      if n == |reqs| {
        BatchOfNone(View(), TxView(), chip.srsSz);
      }
      doorbell := if pass == 0 then None else Some((txProd - 1) % tx.Length);
    }

    // list_del_init
    method ListDel(port: nat, i: nat)
      requires port < lists.Length
      modifies lists
      ensures lists[..] == old(lists[..])[port := Without(old(lists[port]), i)]
    {
      hide Without;
      var rest, k := [], 0;
      var list := lists[port];
      assert list[0..] == list;
      while k < |list|
        invariant k <= |list| && rest + Without(list[k..], i) == Without(list, i) && lists[..] == old(lists[..])
      {
        WithoutStep(list, k, i, rest);
        if list[k] != i {
          rest := rest + [list[k]];
        }
        k := k + 1;
      }
      WithoutNone(i);
      assert list[k..] == [] && rest + [] == rest;
      lists[port] := rest;
    }

    // running_req-- and, for an ATA task, mvs_free_reg_set.
    method CountDown(task: Task)
      requires task.dev in devs && devs[task.dev].running > 0
      modifies this`devs, chip
      ensures View() == Uncount(old(View()), task)
    {
      devs := devs[task.dev := devs[task.dev].(running := devs[task.dev].running - 1)];
      if task.ata {
        FreeRegSetOf(task.dev);
      }
    }

    // mvs_slot_task_free
    method SlotTaskFree(i: nat)
      requires tags.Length == slots.Length && i < slots.Length && slots[i].Some? && slots[i].value.port < lists.Length
      modifies this`lldd, tags, slots, lists
      ensures View() == FreeSlot(old(View()), i)
    {
      hide Without;
      var b := slots[i].value;
      ListDel(b.port, i);
      lldd := lldd - {b.task};
      slots[i] := None;
      tags[i] := false;
    }

    // mvs_slot_complete; `reported` is whether task_done is called.
    method SlotComplete(i: nat, aborted: bool) returns (reported: bool)
      requires Shape() && MvsSlots.Inv(View(), chip.srsSz) && i < slots.Length
      modifies this, tags, slots, lists, chip
      ensures Shape() && MvsSlots.Inv(View(), chip.srsSz)
      ensures View() == Complete(old(View()), i, aborted) && TxView() == old(TxView())
      ensures reported <==> old(slots[i]).Some? && !aborted
    {
      hide MvsSlots.Inv, Uncount, FreeSlot;
      CompleteKeepsInv(View(), i, aborted, chip.srsSz);
      reported := false;
      if slots[i].None? {
        return;
      }
      SlotIsWhole(View(), chip.srsSz, i);
      var task := slots[i].value.task;
      CountDown(task);
      SlotTaskFree(i);
      reported := !aborted;
      if reported {
        done := done + multiset{task};
      } else {
        dropped := dropped + multiset{task};
      }
    }

    // What mvs_int_rx does for one descriptor.
    method RxDesc(rxDesc: Rx.Desc, aborted: bool) returns (attn: bool)
      requires Shape() && MvsSlots.Inv(View(), chip.srsSz) && rxDesc.slot < slots.Length
      modifies this, tags, slots, lists, chip
      ensures View() == MvsCompletion.ActAll(old(View()), Rx.Actions(rxDesc), aborted)
      ensures attn == rxDesc.attn && TxView() == old(TxView())
    {
      hide MvsSlots.Inv, Complete;
      MvsCompletion.DescActs(View(), rxDesc, aborted);
      attn := false;
      if rxDesc.done {
        var reported := SlotComplete(rxDesc.slot, aborted);
      }
      if rxDesc.attn {
        attn := true;
      } else if rxDesc.err {
        if !rxDesc.done {
          var reported := SlotComplete(rxDesc.slot, aborted);
        }
      } else if rxDesc.slotReset {
        TagFree(rxDesc.slot);
      }
    }

    // Completions by others while the lock is not held.
    method Others(which: seq<nat>, aborted: set<Task>)
      requires Shape() && MvsSlots.Inv(View(), chip.srsSz)
      modifies this, tags, slots, lists, chip
      ensures Shape() && MvsSlots.Inv(View(), chip.srsSz) && TxView() == old(TxView())
      ensures View() == CompleteAll(old(View()), which, aborted)
    {
      hide MvsSlots.Inv, Complete, CompleteAll;
      NoneCompleted(View(), aborted);
      assert which[..0] == [];
      for k := 0 to |which|
        invariant Shape() && MvsSlots.Inv(View(), chip.srsSz) && TxView() == old(TxView())
        invariant View() == CompleteAll(old(View()), which[..k], aborted)
      {
        CompletedOneMore(old(View()), which, k, aborted);
        var i := which[k];
        if i < slots.Length && slots[i].Some? {
          var reported := SlotComplete(i, slots[i].value.task in aborted);
        }
      }
      assert which[..|which|] == which;
    }

    // The body of the walk for one entry; `dropped` is whether the lock was released on the way.
    method TurnOver(i: nat, dev: Option<nat>, aborted: set<Task>, during: seq<nat>) returns (dropped: bool)
      requires Shape() && MvsSlots.Inv(View(), chip.srsSz) && i < slots.Length && slots[i].Some?
      modifies this, tags, slots, lists, chip
      ensures Shape() && MvsSlots.Inv(View(), chip.srsSz) && TxView() == old(TxView())
      ensures (View(), dropped) == Turned(old(View()), i, dev, aborted, during)
    {
      hide MvsSlots.Inv, Complete, CompleteAll;
      dropped := false;
      var task := slots[i].value.task;
      if dev.None? || task.dev == dev.value {
        dropped := SlotComplete(i, task in aborted);
      }
      if dropped {
        Others(during, aborted);
      }
    }

    // mvs_do_release_task: complete every slot of the port's list, or those of one device.  The walk
    // takes each slot's successor before the slot is completed and leaves the list.  The lock is
    // dropped while a task is reported; during(t) is what others complete meanwhile in turn t.  The
    // walk is lost when its next slot has left the list: that entry then points to itself.
    method DoReleaseTask(port: nat, dev: Option<nat>, aborted: set<Task>, during: nat -> seq<nat>) returns (lost: bool)
      requires Shape() && MvsSlots.Inv(View(), chip.srsSz) && port < lists.Length
      modifies this, tags, slots, lists, chip
      ensures Shape() && MvsSlots.Inv(View(), chip.srsSz) && TxView() == old(TxView()) && queued == old(queued)
      ensures lost <==> Loses(old(View()), old(lists[port]), {}, 0, dev, aborted, during)
      ensures !lost ==> forall i :: 0 <= i < slots.Length && old(Targeted(View(), port, dev, i)) ==> slots[i].None?
      ensures forall i :: 0 <= i < slots.Length ==> slots[i] == old(slots[i]) || slots[i].None?
      // undisturbed, it completes exactly those slots and reports each of their tasks once
      ensures (forall t :: during(t) == []) ==> !lost && Released(old(View()), View(), port, dev, aborted)
    {
      hide MvsSlots.Inv, Complete, CompleteAll, Told, Targeted, Releasing, Released, Walking, Succ, Turned, Loses,
        GoneFrom, Drops, GoneAfter;
      ghost var s0, srs, k: nat, gone := View(), chip.srsSz, 0, {};
      ghost var list := lists[port];
      lost := false;
      var t: nat := 0;
      var pos := First(lists[port]);
      WalkStarts(s0, srs, port, dev, aborted);
      NothingGone(s0, srs, port);
      assert list[0..] == list;
      while pos.Some?
        invariant Shape() && MvsSlots.Inv(View(), srs) && TxView() == old(TxView())
        invariant k <= |list| && Walking(s0, View(), port, dev, k) && GoneFrom(s0, View(), port, k, gone)
        invariant pos == if k < |list| then Some(list[k]) else None
        invariant k < |list| ==> list[k] < slots.Length && slots[list[k]].Some?
        invariant Loses(s0, list, {}, 0, dev, aborted, during) <==> Loses(s0, list[k..], gone, t, dev, aborted, during)
        invariant (forall u :: during(u) == []) ==> Releasing(s0, View(), list[..k], port, dev, aborted)
        decreases |list| - k
      {
        var i, saved := pos.value, Succ(lists[port], pos.value);
        ghost var s := View();
        InvParts(s, srs);
        ghost var k' := WalkFinds(s0, s, srs, port, dev, k);
        LosesUnfolds(s0, s, port, k, k', gone, t, dev, aborted, during);
        TurnDone(s0, s, srs, port, dev, aborted, k, k', gone, during(t));
        if forall u :: during(u) == [] {
          TurnReleases(s0, s, srs, port, dev, aborted, k, k');
        }
        var dropped := TurnOver(i, dev, aborted, during(t));
        gone := GoneAfter(gone, dropped, during(t));
        if saved.Some? {
          GoneAt(s0, View(), port, k', gone);
          if slots[saved.value].None? {
            NotLostUndisturbed(s0, list, dev, aborted, during);
            WalkShrinks(s0, View(), port, dev, k');
            return true;
          }
        } else {
          NoneLoses(s0, gone, t + 1, dev, aborted, during);
          assert list[k'..] == [];
        }
        pos, k, t := saved, k', t + 1;
      }
      NoneLoses(s0, gone, t, dev, aborted, during);
      assert list[k..] == [] && list[..k] == list;
      WalkShrinks(s0, View(), port, dev, k);
      WalkEnds(s0, View(), srs, port, dev);
      if forall u :: during(u) == [] {
        ReleasingEnds(s0, View(), srs, port, dev, aborted);
      }
    }
  }

  lemma WithoutStep(list: seq<nat>, k: nat, i: nat, rest: seq<nat>)
    requires k < |list|
    ensures rest + Without(list[k..], i) ==
      (if list[k] == i then rest else rest + [list[k]]) + Without(list[k + 1..], i)
  {
    assert list[k..][1..] == list[k + 1..];
  }

  lemma WithoutNone(i: nat)
    ensures Without([], i) == []
  {
  }

  lemma BatchableReady(s: State, srs: nat, x: Tx, reqs: seq<Req>)
    requires MvsSlots.Inv(s, srs) && Batchable(s, reqs) && x.prod < |x.ring|
    ensures reqs != [] ==> Ready(s, x, reqs[0])
  {
  }

  lemma BatchOfNone(s: State, x: Tx, srs: nat)
    ensures Batch(s, x, [], srs) == Batched(s, x, 0)
  {
  }

  lemma BatchStep(s: State, x: Tx, reqs: seq<Req>, srs: nat)
    requires MvsSlots.Inv(s, srs) && srs <= 32 && reqs != [] && Batchable(s, reqs) && Ready(s, x, reqs[0])
    ensures var (b, o) := One(s, x, reqs[0], srs);
            && MvsSlots.Inv(b.s, srs) && Batchable(b.s, reqs[1..])
            && (o == Stopped ==> Batch(s, x, reqs, srs) == b && b.pass == 0)
            && (o != Stopped ==> var rest := Batch(b.s, b.x, reqs[1..], srs);
                                 Batch(s, x, reqs, srs) == Batched(rest.s, rest.x, b.pass + rest.pass))
  {
    hide MvsSlots.Inv, Submit;
    InvParts(s, srs);
    SubmitKeepsInv(s, reqs[0], srs);
    SubmitShape(s, reqs[0], srs);
    var (b, o) := One(s, x, reqs[0], srs);
    forall k | 0 <= k < |reqs[1..]|
      ensures reqs[1..][k].port < |b.s.lists| && reqs[1..][k].task.dev in b.s.devs && reqs[1..][k].task !in b.s.lldd
    {
      assert reqs[1..][k] == reqs[k + 1];
    }
  }

  lemma SubmitShape(s: State, r: Req, srs: nat)
    requires |s.tags| == |s.slots| && r.port < |s.lists| && r.task.dev in s.devs
    ensures |Submit(s, r, srs).0.lists| == |s.lists| && Submit(s, r, srs).0.devs.Keys == s.devs.Keys
  {
  }

  lemma SlotIsWhole(s: State, srs: nat, i: nat)
    requires MvsSlots.Inv(s, srs) && srs <= 32 && i < |s.slots| && s.slots[i].Some?
    ensures s.slots[i].value.port < |s.lists| && s.slots[i].value.task.dev in s.devs
    ensures s.devs[s.slots[i].value.task.dev].running > 0
  {
    RunningPositive(s, srs, i);
  }
}

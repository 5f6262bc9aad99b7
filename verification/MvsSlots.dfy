// Tags, slots, per-port lists, per-device counts, SATA register sets and the delivery ring of the
// Marvell SAS driver (mv_sas.c): how they stay in step under submission, completion, abort,
// release and device removal.
module MvsSlots {
  import opened Basics
  import opened MvsRegSets

  // A task: its identity, its device, and whether its protocol is ATA.
  datatype Task = Task(id: nat, dev: nat, ata: bool)

  // A slot in use: the task, and the port whose list it is on.
  datatype Busy = Busy(task: Task, port: nat)

  datatype State = State(
    tags: seq<bool>,              // one bit per tag
    slots: seq<Option<Busy>>,     // slot_info[]
    lists: seq<seq<nat>>,         // port[].list, as slot numbers
    lldd: map<Task, nat>,         // task->lldd_task, as a slot number
    devs: map<nat, Device>,       // running_req and taskfileset
    regs: Regs,
    // history
    queued: multiset<Task>,       // tasks queued
    done: multiset<Task>,         // calls of task_done by a completion
    dropped: multiset<Task>)      // aborted tasks freed without task_done

  // Number of slots in use by device d.
  function InUse(slots: seq<Option<Busy>>, d: nat): nat {
    if slots == [] then 0
    else
      var b := slots[|slots| - 1];
      InUse(slots[..|slots| - 1], d) + (if b.Some? && b.value.task.dev == d then 1 else 0)
  }

  function Uses(b: Option<Busy>, d: nat): nat {
    if b.Some? && b.value.task.dev == d then 1 else 0
  }

  lemma {:induction false} InUseUpdate(slots: seq<Option<Busy>>, d: nat, i: nat, b: Option<Busy>)
    requires i < |slots|
    ensures InUse(slots[i := b], d) == InUse(slots, d) - Uses(slots[i], d) + Uses(b, d)
  {
    var n := |slots| - 1;
    if i < n {
      InUseUpdate(slots[..n], d, i, b);
      assert slots[i := b][..n] == slots[..n][i := b];
    } else {
      assert slots[i := b][..n] == slots[..n];
    }
  }

  lemma {:induction false} InUsePositive(slots: seq<Option<Busy>>, d: nat, i: nat)
    requires i < |slots| && Uses(slots[i], d) == 1
    ensures InUse(slots, d) > 0
  {
    if i < |slots| - 1 {
      InUsePositive(slots[..|slots| - 1], d, i);
    }
  }

  // find_first_zero_bit: the lowest clear tag, or the number of tags.
  function FirstClear(tags: seq<bool>): (t: nat)
    ensures t <= |tags| && (t < |tags| ==> !tags[t]) && (forall j :: 0 <= j < t ==> tags[j])
  {
    if tags == [] then 0
    else
      var t := FirstClear(tags[..|tags| - 1]);
      if t < |tags| - 1 then t else if tags[t] then t + 1 else t
  }

  lemma FirstClearIs(tags: seq<bool>, t: nat)
    requires t <= |tags| && (t < |tags| ==> !tags[t]) && forall j :: 0 <= j < t ==> tags[j]
    ensures FirstClear(tags) == t
  {
    var f := FirstClear(tags);
    assert f < |tags| ==> !tags[f];
  }

  // list_del: the list without slot i.
  function Without(list: seq<nat>, i: nat): seq<nat> {
    if list == [] then [] else (if list[0] == i then [] else [list[0]]) + Without(list[1..], i)
  }

  // ---------------------------------------------------------------------------------------------
  // What every step keeps

  ghost predicate SlotInv(s: State, i: nat)
    requires i < |s.slots| && i < |s.tags|
  {
    && (s.tags[i] <==> s.slots[i].Some?)
    && (s.slots[i].Some? ==>
          var b := s.slots[i].value;
          && b.task in s.lldd && s.lldd[b.task] == i
          && b.port < |s.lists| && i in s.lists[b.port]
          && b.task.dev in s.devs && (b.task.ata ==> s.devs[b.task.dev].tfs != NOT_MAPPED))
  }

  // Port lists hold slots that are in use on that port, each once.
  ghost predicate ListInv(s: State, p: nat)
    requires p < |s.lists|
  {
    && (forall k :: 0 <= k < |s.lists[p]| ==>
          var i := s.lists[p][k]; i < |s.slots| && s.slots[i].Some? && s.slots[i].value.port == p)
    && (forall k, l :: 0 <= k < l < |s.lists[p]| ==> s.lists[p][k] != s.lists[p][l])
  }

  ghost predicate TaskInv(s: State, t: Task) {
    && (t in s.lldd ==> s.lldd[t] < |s.slots| && s.slots[s.lldd[t]].Some? && s.slots[s.lldd[t]].value.task == t)
    && s.queued[t] == s.done[t] + s.dropped[t] + (if t in s.lldd then 1 else 0)
  }

  ghost predicate DevInv(s: State, d: nat)
    requires d in s.devs
  {
    s.devs[d].running == InUse(s.slots, d)
  }

  ghost predicate Inv(s: State, srs: nat) {
    && |s.tags| == |s.slots|
    && (forall i :: 0 <= i < |s.slots| ==> SlotInv(s, i))
    && (forall p :: 0 <= p < |s.lists| ==> ListInv(s, p))
    && (forall t :: TaskInv(s, t))
    && (forall d :: d in s.devs ==> DevInv(s, d))
    && Assigned(s.regs, s.devs, srs)
  }

  // ---------------------------------------------------------------------------------------------
  // Submission of one task

  // A task to submit with what its surroundings answer: whether the device is gone, its port,
  // whether the port is attached, whether the buffers could be mapped, and whether a protocol
  // other than ATA could be prepared.
  datatype Req = Req(task: Task, gone: bool, port: nat, attached: bool, mapped: bool, prepared: bool)

  datatype Outcome = Queued | Skipped | Stopped

  // Take tag and slot t for the task and put it on its port's list.
  function Claim(s: State, t: nat, task: Task, port: nat): State
    requires t < |s.tags| == |s.slots| && port < |s.lists| && task.dev in s.devs
  {
    s.(tags := s.tags[t := true],
       slots := s.slots[t := Some(Busy(task, port))],
       lists := s.lists[port := s.lists[port] + [t]],
       lldd := s.lldd[task := t],
       devs := s.devs[task.dev := s.devs[task.dev].(running := s.devs[task.dev].running + 1)],
       queued := s.queued + multiset{task})
  }

  // One turn of the loop in mvs_task_exec.
  function Submit(s: State, r: Req, srs: nat): (result: (State, Outcome))
    requires |s.tags| == |s.slots| && r.port < |s.lists| && r.task.dev in s.devs
  {
    var t := FirstClear(s.tags);
    if r.gone then (s, Stopped)
    else if !r.attached then (s, if r.task.ata then Stopped else Skipped)
    else if !r.task.ata && !r.mapped then (s, Stopped)
    else if t == |s.tags| then (s, Stopped)
    else if r.task.ata then
      match Assign(s.regs, s.devs, srs, r.task.dev)
      case Failed => (s, Stopped)
      case Done(regs, devs) => (Claim(s.(regs := regs, devs := devs), t, r.task, r.port), Queued)
    else if !r.prepared then (s, Stopped)
    else (Claim(s, t, r.task, r.port), Queued)
  }

  // ---------------------------------------------------------------------------------------------
  // Completion of one slot

  // mvs_slot_task_free
  function FreeSlot(s: State, i: nat): State
    requires i < |s.slots| && i < |s.tags| && s.slots[i].Some?
  {
    var b := s.slots[i].value;
    s.(tags := s.tags[i := false],
       slots := s.slots[i := None],
       lists := if b.port < |s.lists| then s.lists[b.port := Without(s.lists[b.port], i)] else s.lists,
       lldd := s.lldd - {b.task})
  }

  function Down(n: nat): nat { if n == 0 then 0xffff_ffff else n - 1 }

  // running_req-- (a u32) and mvs_free_reg_set, unless the device has been removed.
  function Uncount(s: State, task: Task): State {
    if task.dev !in s.devs then s
    else
      var n := Down(s.devs[task.dev].running);
      var devs := s.devs[task.dev := s.devs[task.dev].(running := n)];
      if task.ata then
        var (regs', devs') := Release(s.regs, devs, task.dev);
        s.(regs := regs', devs := devs')
      else s.(devs := devs)
  }

  // mvs_slot_complete: an unused slot is ignored, an aborted task is freed silently, any other is
  // reported through task_done.
  function Complete(s: State, i: nat, aborted: bool): State
    requires i < |s.slots| && i < |s.tags|
  {
    if s.slots[i].None? then s
    else
      var task := s.slots[i].value.task;
      var f := FreeSlot(Uncount(s, task), i);
      if aborted then f.(dropped := f.dropped + multiset{task}) else f.(done := f.done + multiset{task})
  }

  // ---------------------------------------------------------------------------------------------
  // Submission keeps everything in step

  ghost predicate Claimable(s: State, srs: nat, t: nat, task: Task, port: nat) {
    && Inv(s, srs) && t < |s.tags| && !s.tags[t] && port < |s.lists| && task !in s.lldd
    && task.dev in s.devs && (task.ata ==> s.devs[task.dev].tfs != NOT_MAPPED)
  }

  lemma FreeTagUnlisted(s: State, srs: nat, t: nat, p: nat)
    requires Inv(s, srs) && t < |s.tags| && !s.tags[t] && p < |s.lists|
    ensures t !in s.lists[p]
  {
    assert SlotInv(s, t) && ListInv(s, p);
  }

  lemma ClaimSlots(s: State, srs: nat, t: nat, task: Task, port: nat, i: nat)
    requires Claimable(s, srs, t, task, port) && i < |s.slots|
    ensures SlotInv(Claim(s, t, task, port), i)
  {
    assert SlotInv(s, i) && SlotInv(s, t);
  }

  lemma ClaimLists(s: State, srs: nat, t: nat, task: Task, port: nat, p: nat)
    requires Claimable(s, srs, t, task, port) && p < |s.lists|
    ensures ListInv(Claim(s, t, task, port), p)
  {
    assert ListInv(s, p) && SlotInv(s, t);
    FreeTagUnlisted(s, srs, t, p);
  }

  lemma ClaimTasks(s: State, srs: nat, t: nat, task: Task, port: nat, x: Task)
    requires Claimable(s, srs, t, task, port)
    ensures TaskInv(Claim(s, t, task, port), x)
  {
    assert TaskInv(s, x) && SlotInv(s, t);
  }

  lemma ClaimDevs(s: State, srs: nat, t: nat, task: Task, port: nat, d: nat)
    requires Claimable(s, srs, t, task, port) && d in s.devs
    ensures DevInv(Claim(s, t, task, port), d)
  {
    assert DevInv(s, d) && SlotInv(s, t);
    InUseUpdate(s.slots, d, t, Some(Busy(task, port)));
  }

  lemma ClaimKeepsInv(s: State, srs: nat, t: nat, task: Task, port: nat)
    requires Claimable(s, srs, t, task, port)
    ensures Inv(Claim(s, t, task, port), srs)
  {
    hide SlotInv, ListInv, TaskInv, DevInv, InUse;
    var s' := Claim(s, t, task, port);
    forall i | 0 <= i < |s'.slots| ensures SlotInv(s', i) { ClaimSlots(s, srs, t, task, port, i); }
    forall p | 0 <= p < |s'.lists| ensures ListInv(s', p) { ClaimLists(s, srs, t, task, port, p); }
    forall x ensures TaskInv(s', x) { ClaimTasks(s, srs, t, task, port, x); }
    forall d | d in s'.devs ensures DevInv(s', d) { ClaimDevs(s, srs, t, task, port, d); }
  }

  // A register set is taken without disturbing anything else.
  lemma MappedKeepsInv(s: State, srs: nat, regs: Regs, devs: map<nat, Device>)
    requires Inv(s, srs) && Assigned(regs, devs, srs) && devs.Keys == s.devs.Keys
    requires forall e :: e in devs ==>
      devs[e].running == s.devs[e].running && (s.devs[e].tfs != NOT_MAPPED ==> devs[e].tfs == s.devs[e].tfs)
    ensures Inv(s.(regs := regs, devs := devs), srs)
  {
    hide InUse;
    var s' := s.(regs := regs, devs := devs);
    forall i | 0 <= i < |s'.slots| ensures SlotInv(s', i) { assert SlotInv(s, i); }
    forall p | 0 <= p < |s'.lists| ensures ListInv(s', p) { assert ListInv(s, p); }
    forall x ensures TaskInv(s', x) { assert TaskInv(s, x); }
    forall d | d in s'.devs ensures DevInv(s', d) { assert DevInv(s, d); }
  }

  lemma SubmitKeepsInv(s: State, r: Req, srs: nat)
    requires Inv(s, srs) && srs <= 32 && r.port < |s.lists| && r.task.dev in s.devs && r.task !in s.lldd
    ensures Inv(Submit(s, r, srs).0, srs)
    ensures Submit(s, r, srs).1 != Queued ==> Submit(s, r, srs).0 == s
    ensures Submit(s, r, srs).1 == Queued ==> Submit(s, r, srs).0.lldd == s.lldd[r.task := FirstClear(s.tags)]
  {
    hide Inv;
    InvParts(s, srs);
    var t := FirstClear(s.tags);
    if Submit(s, r, srs).1 == Queued {
      if r.task.ata {
        AssignKeeps(s.regs, s.devs, srs, r.task.dev);
        var a := Assign(s.regs, s.devs, srs, r.task.dev);
        MappedKeepsInv(s, srs, a.regs, a.devs);
        ClaimKeepsInv(s.(regs := a.regs, devs := a.devs), srs, t, r.task, r.port);
      } else {
        ClaimKeepsInv(s, srs, t, r.task, r.port);
      }
    }
  }

  lemma InvAt(s: State, srs: nat, i: nat, d: nat)
    requires Inv(s, srs) && i < |s.slots| && d in s.devs
    ensures i < |s.tags| && SlotInv(s, i) && DevInv(s, d)
  {
  }

  lemma InvParts(s: State, srs: nat)
    requires Inv(s, srs)
    ensures |s.tags| == |s.slots| && Assigned(s.regs, s.devs, srs)
  {
  }

  // A register set for device d: the one it has, or one that is not enabled.
  ghost predicate HasSet(s: State, srs: nat, d: nat)
    requires d in s.devs
  {
    s.devs[d].tfs != NOT_MAPPED || exists i: nat :: i < srs && !Enabled(s.regs, i)
  }

  // When a task is queued, when it is passed over, and when it stops the batch.
  lemma QueuedExactly(s: State, r: Req, srs: nat)
    requires Inv(s, srs) && r.port < |s.lists| && r.task.dev in s.devs
    ensures |s.tags| == |s.slots|
    ensures Submit(s, r, srs).1 == Queued <==>
            && !r.gone && r.attached && (exists t :: 0 <= t < |s.slots| && s.slots[t].None?)
            && (if r.task.ata then HasSet(s, srs, r.task.dev) else r.mapped && r.prepared)
    ensures Submit(s, r, srs).1 == Skipped <==> !r.gone && !r.attached && !r.task.ata
  {
    hide Inv, Enabled, SlotInv;
    InvParts(s, srs);
    FreeTagIsFreeSlot(s, srs);
    AssignFailsIff(s.regs, s.devs, srs, r.task.dev);
  }

  lemma FreeTagIsFreeSlot(s: State, srs: nat)
    requires Inv(s, srs)
    ensures FirstClear(s.tags) < |s.tags| <==> exists t :: 0 <= t < |s.slots| && s.slots[t].None?
  {
    hide ListInv, TaskInv, DevInv;
    var f := FirstClear(s.tags);
    if f < |s.tags| {
      assert SlotInv(s, f);
    }
    forall t | 0 <= t < |s.slots| && s.slots[t].None? ensures f < |s.tags| { assert SlotInv(s, t); }
  }

  // What queueing a task does to the devices and their sets: an ATA task of a device without one takes
  // the lowest set that is not enabled; nothing else changes.
  lemma QueuedTakesSet(s: State, r: Req, srs: nat)
    requires Inv(s, srs) && srs <= 32 && r.port < |s.lists| && r.task.dev in s.devs
    ensures |s.tags| == |s.slots|
    ensures var (s', o) := Submit(s, r, srs);
            var takes := r.task.ata && s.devs[r.task.dev].tfs == NOT_MAPPED;
            o == Queued ==>
              && r.task.dev in s'.devs && s'.devs.Keys == s.devs.Keys
              && (takes ==> s'.devs[r.task.dev].tfs < srs && !Enabled(s.regs, s'.devs[r.task.dev].tfs))
              && (takes ==> forall j :: 0 <= j < s'.devs[r.task.dev].tfs ==> Enabled(s.regs, j))
              && (forall e :: e in s.devs && !(takes && e == r.task.dev) ==> s'.devs[e].tfs == s.devs[e].tfs)
              && (forall j :: 0 <= j < 32 ==>
                    (Enabled(s'.regs, j) <==> Enabled(s.regs, j) || (takes && j == s'.devs[r.task.dev].tfs)))
  {
    hide Inv, Enabled, Switch, FirstClear;
    InvParts(s, srs);
    if r.task.ata && s.devs[r.task.dev].tfs == NOT_MAPPED {
      var i := FirstFree(s.regs, srs);
      if i < srs {
        forall j | 0 <= j < 32 ensures Enabled(Switch(s.regs, i, true), j) <==> Enabled(s.regs, j) || j == i {
          SwitchOnly(s.regs, i, true, j);
        }
      }
    }
  }

  // ---------------------------------------------------------------------------------------------
  // Completion keeps everything in step

  ghost predicate Distinct(list: seq<nat>) {
    forall k, l :: 0 <= k < l < |list| ==> list[k] != list[l]
  }

  lemma {:induction false} WithoutMembers(list: seq<nat>, i: nat, x: nat)
    ensures x in Without(list, i) <==> x in list && x != i
  {
    if list != [] {
      WithoutMembers(list[1..], i, x);
    }
  }

  lemma {:induction false} WithoutDistinct(list: seq<nat>, i: nat)
    requires Distinct(list)
    ensures Distinct(Without(list, i))
  {
    if list != [] {
      WithoutDistinct(list[1..], i);
      WithoutMembers(list[1..], i, list[0]);
      var rest := Without(list[1..], i);
      assert list[0] !in list[1..];
      if list[0] != i {
        assert Without(list, i) == [list[0]] + rest;
      }
    }
  }

  ghost predicate Completable(s: State, srs: nat, i: nat) {
    Inv(s, srs) && srs <= 32 && i < |s.slots| && s.slots[i].Some?
  }

  lemma RunningPositive(s: State, srs: nat, i: nat)
    requires Completable(s, srs, i)
    ensures s.slots[i].value.port < |s.lists| && s.slots[i].value.task.dev in s.devs
    ensures s.devs[s.slots[i].value.task.dev].running > 0
  {
    assert SlotInv(s, i);
    var d := s.slots[i].value.task.dev;
    assert DevInv(s, d);
    InUsePositive(s.slots, d, i);
  }

  // What Uncount does to the device table.
  lemma Uncounted(s: State, srs: nat, task: Task)
    requires srs <= 32 && Assigned(s.regs, s.devs, srs) && task.dev in s.devs && s.devs[task.dev].running > 0
    ensures var u := Uncount(s, task);
            && u == s.(regs := u.regs, devs := u.devs)
            && Assigned(u.regs, u.devs, srs) && u.devs.Keys == s.devs.Keys
            && (forall d :: d in s.devs ==> u.devs[d].running == s.devs[d].running - if d == task.dev then 1 else 0)
            && (forall d :: d in s.devs && (d != task.dev || s.devs[d].running > 1) ==> u.devs[d].tfs == s.devs[d].tfs)
  {
    hide Assigned, Release;
    var n := s.devs[task.dev].running - 1;
    var devs := s.devs[task.dev := s.devs[task.dev].(running := n)];
    RecountKeeps(s.regs, s.devs, srs, task.dev, n);
    ReleaseKeeps(s.regs, devs, srs, task.dev);
  }

  // The state once slot i is free and its device counted down.
  ghost function Freed(s: State, srs: nat, i: nat): (f: State)
    requires Completable(s, srs, i)
    ensures |f.slots| == |s.slots| == |f.tags| && |f.lists| == |s.lists|
  {
    RunningPositive(s, srs, i);
    FreeSlot(Uncount(s, s.slots[i].value.task), i)
  }

  lemma FreedSlots(s: State, srs: nat, i: nat, k: nat)
    requires Completable(s, srs, i) && k < |s.slots|
    ensures SlotInv(Freed(s, srs, i), k)
  {
    hide Uncount, Inv, Without, InUse, Assigned;
    InvParts(s, srs);
    RunningPositive(s, srs, i);
    var task, port := s.slots[i].value.task, s.slots[i].value.port;
    Uncounted(s, srs, task);
    InvAt(s, srs, i, task.dev);
    InvAt(s, srs, k, task.dev);
    if k != i && s.slots[k].Some? {
      WithoutMembers(s.lists[port], i, k);
      var d := s.slots[k].value.task.dev;
      if d == task.dev {
        InUseUpdate(s.slots, d, i, None);
        InUsePositive(s.slots[i := None], d, k);
      }
    }
  }

  lemma FreedLists(s: State, srs: nat, i: nat, p: nat)
    requires Completable(s, srs, i) && p < |s.lists|
    ensures ListInv(Freed(s, srs, i), p)
  {
    RunningPositive(s, srs, i);
    Uncounted(s, srs, s.slots[i].value.task);
    hide Uncount;
    assert ListInv(s, p);
    var list, s' := Without(s.lists[p], i), Freed(s, srs, i);
    WithoutDistinct(s.lists[p], i);
    if p == s.slots[i].value.port {
      forall k | 0 <= k < |list|
        ensures list[k] < |s'.slots| && s'.slots[list[k]].Some? && s'.slots[list[k]].value.port == p
      {
        WithoutMembers(s.lists[p], i, list[k]);
      }
    }
  }

  lemma FreedDevs(s: State, srs: nat, i: nat, d: nat)
    requires Completable(s, srs, i) && d in s.devs
    ensures d in Freed(s, srs, i).devs && DevInv(Freed(s, srs, i), d)
  {
    RunningPositive(s, srs, i);
    Uncounted(s, srs, s.slots[i].value.task);
    hide Uncount;
    assert DevInv(s, d);
    InUseUpdate(s.slots, d, i, None);
  }

  lemma FreedTasks(s: State, srs: nat, i: nat, x: Task)
    requires Completable(s, srs, i)
    ensures var task := s.slots[i].value.task;
            var f := Freed(s, srs, i);
            && TaskInv(f.(done := f.done + multiset{task}), x) && TaskInv(f.(dropped := f.dropped + multiset{task}), x)
  {
    RunningPositive(s, srs, i);
    Uncounted(s, srs, s.slots[i].value.task);
    hide Uncount;
    assert TaskInv(s, x) && SlotInv(s, i);
  }

  lemma FreedKeepsInv(s: State, srs: nat, i: nat, done: multiset<Task>, dropped: multiset<Task>)
    requires Completable(s, srs, i)
    requires var task := s.slots[i].value.task;
             (done == s.done + multiset{task} && dropped == s.dropped) ||
               (done == s.done && dropped == s.dropped + multiset{task})
    ensures Inv(Freed(s, srs, i).(done := done, dropped := dropped), srs)
  {
    hide SlotInv, ListInv, TaskInv, DevInv, InUse, Without, Uncount;
    RunningPositive(s, srs, i);
    Uncounted(s, srs, s.slots[i].value.task);
    var f := Freed(s, srs, i);
    var s' := f.(done := done, dropped := dropped);
    forall k | 0 <= k < |s'.slots| ensures SlotInv(s', k) { FreedSlots(s, srs, i, k); SlotIgnoresHistory(f, s', k); }
    forall p | 0 <= p < |s'.lists| ensures ListInv(s', p) { FreedLists(s, srs, i, p); ListIgnoresHistory(f, s', p); }
    forall x ensures TaskInv(s', x) { FreedTasks(s, srs, i, x); }
    forall d | d in s'.devs ensures DevInv(s', d) { FreedDevs(s, srs, i, d); DevIgnoresHistory(f, s', d); }
  }

  lemma SlotIgnoresHistory(s: State, s': State, k: nat)
    requires k < |s.slots| && k < |s.tags| && SlotInv(s, k) && s' == s.(done := s'.done, dropped := s'.dropped)
    ensures SlotInv(s', k)
  {
  }

  lemma ListIgnoresHistory(s: State, s': State, p: nat)
    requires p < |s.lists| && ListInv(s, p) && s' == s.(done := s'.done, dropped := s'.dropped)
    ensures ListInv(s', p)
  {
  }

  lemma DevIgnoresHistory(s: State, s': State, d: nat)
    requires d in s.devs && DevInv(s, d) && s' == s.(done := s'.done, dropped := s'.dropped)
    ensures DevInv(s', d)
  {
  }

  lemma CompleteKeepsInv(s: State, i: nat, aborted: bool, srs: nat)
    requires Inv(s, srs) && srs <= 32 && i < |s.slots|
    ensures |s.tags| == |s.slots| && Inv(Complete(s, i, aborted), srs)
  {
    hide Inv;
    InvParts(s, srs);
    if s.slots[i].Some? {
      RunningPositive(s, srs, i);
      var task := s.slots[i].value.task;
      Uncounted(s, srs, task);
      if aborted {
        FreedKeepsInv(s, srs, i, s.done, s.dropped + multiset{task});
      } else {
        FreedKeepsInv(s, srs, i, s.done + multiset{task}, s.dropped);
      }
    }
  }

  // The device of a completed slot loses its register set exactly when that was its last request and
  // an ATA one; its set is then disabled, and no other set changes.
  lemma LastAtaFreesSet(s: State, i: nat, aborted: bool, srs: nat)
    requires Completable(s, srs, i) && |s.tags| == |s.slots|
    ensures var task, s' := s.slots[i].value.task, Complete(s, i, aborted);
            && task.dev in s.devs && task.dev in s'.devs && s.devs[task.dev].running == InUse(s.slots, task.dev)
            && var last := task.ata && s.devs[task.dev].running == 1;
               && (s'.devs[task.dev].tfs == NOT_MAPPED <==> s.devs[task.dev].tfs == NOT_MAPPED || last)
               && (forall j :: 0 <= j < 32 ==>
                     (Enabled(s'.regs, j) <==> Enabled(s.regs, j) && !(last && j == s.devs[task.dev].tfs)))
  {
    var task := s.slots[i].value.task;
    RunningPositive(s, srs, i);
    assert DevInv(s, task.dev);
    hide Inv, Enabled, Release, InUse, Without, Assigned;
    InvParts(s, srs);
    var n := s.devs[task.dev].running - 1;
    var devs := s.devs[task.dev := s.devs[task.dev].(running := n)];
    RecountKeeps(s.regs, s.devs, srs, task.dev, n);
    ReleaseFrees(s.regs, devs, srs, task.dev);
  }

  // ---------------------------------------------------------------------------------------------
  // Every run

  datatype Step =
    | SubmitStep(r: Req)
    | CompleteStep(slot: nat, aborted: bool)   // completion, abort, or one slot of a release
    | RemoveStep(dev: nat)                     // mvs_dev_gone_notify once the device's tasks are released

  ghost predicate Init(s: State) {
    && |s.tags| == |s.slots| && (forall i :: 0 <= i < |s.tags| ==> !s.tags[i] && s.slots[i].None?)
    && (forall p :: 0 <= p < |s.lists| ==> s.lists[p] == []) && s.lldd == map[]
    && (forall d :: d in s.devs ==> s.devs[d] == Device(0, NOT_MAPPED))
    && s.queued == multiset{} && s.done == multiset{} && s.dropped == multiset{}
  }

  ghost predicate Allowed(s: State, t: Step) {
    match t
    case SubmitStep(r) => |s.tags| == |s.slots| && r.port < |s.lists| && r.task.dev in s.devs && r.task !in s.lldd
    case CompleteStep(i, _) => i < |s.slots| && i < |s.tags|
    case RemoveStep(d) => d in s.devs && s.devs[d].running == 0
  }

  function Removed(s: State, d: nat): State
    requires d in s.devs
  {
    var (regs, devs) := Release(s.regs, s.devs, d);
    s.(regs := regs, devs := devs[d := Device(0, NOT_MAPPED)])
  }

  lemma RemoveKeepsInv(s: State, d: nat, srs: nat)
    requires Inv(s, srs) && srs <= 32 && d in s.devs && s.devs[d].running == 0
    ensures Inv(Removed(s, d), srs)
  {
    hide InUse, Assigned, Release;
    var (regs, devs) := Release(s.regs, s.devs, d);
    var s' := Removed(s, d);
    ReleaseKeeps(s.regs, s.devs, srs, d);
    UnmapKeeps(regs, devs, srs, d);
    forall i | 0 <= i < |s'.slots|
      ensures SlotInv(s', i)
    {
      assert SlotInv(s, i);
      if s.slots[i].Some? && s.slots[i].value.task.dev == d {
        RunningPositive(s, srs, i);
        assert false;
      }
    }
    forall p | 0 <= p < |s'.lists| ensures ListInv(s', p) { assert ListInv(s, p); }
    forall x ensures TaskInv(s', x) { assert TaskInv(s, x); }
    forall e | e in s'.devs ensures DevInv(s', e) { assert DevInv(s, e); }
  }

  // Removing an idle device gives back its set and touches nothing else.
  lemma RemovedIs(s: State, d: nat, srs: nat)
    requires Inv(s, srs) && srs <= 32 && d in s.devs && s.devs[d].running == 0
    ensures var s' := Removed(s, d);
            && s' == s.(regs := s'.regs, devs := s'.devs) && s'.devs.Keys == s.devs.Keys
            && s'.devs[d] == Device(0, NOT_MAPPED) && (forall e :: e in s.devs && e != d ==> s'.devs[e] == s.devs[e])
            && (forall j :: 0 <= j < 32 ==> (Enabled(s'.regs, j) <==> Enabled(s.regs, j) && j != s.devs[d].tfs))
  {
    hide Inv, Enabled, Assigned;
    InvParts(s, srs);
    ReleaseFrees(s.regs, s.devs, srs, d);
    if s.devs[d].tfs == NOT_MAPPED {
      assert Release(s.regs, s.devs, d) == (s.regs, s.devs);
    }
  }

  lemma UnmapKeeps(r: Regs, devs: map<nat, Device>, srs: nat, d: nat)
    requires Assigned(r, devs, srs) && d in devs
    ensures Assigned(r, devs[d := Device(0, NOT_MAPPED)], srs)
  {
  }

  ghost function Next(s: State, t: Step, srs: nat): State
    requires Allowed(s, t)
  {
    match t
    case SubmitStep(r) => Submit(s, r, srs).0
    case CompleteStep(i, aborted) => Complete(s, i, aborted)
    case RemoveStep(d) => Removed(s, d)
  }

  lemma NextKeepsInv(s: State, t: Step, srs: nat)
    requires Inv(s, srs) && srs <= 32 && Allowed(s, t)
    ensures Inv(Next(s, t, srs), srs)
  {
    hide Inv;
    match t
    case SubmitStep(r) => SubmitKeepsInv(s, r, srs);
    case CompleteStep(i, aborted) => CompleteKeepsInv(s, i, aborted, srs);
    case RemoveStep(d) => RemoveKeepsInv(s, d, srs);
  }

  lemma {:induction false} InitHasInv(s: State, srs: nat)
    requires Init(s)
    ensures Inv(s, srs)
  {
    forall d | d in s.devs ensures DevInv(s, d) { NoneInUse(s.slots, d); }
  }

  lemma {:induction false} NoneInUse(slots: seq<Option<Busy>>, d: nat)
    requires forall i :: 0 <= i < |slots| ==> slots[i].None?
    ensures InUse(slots, d) == 0
  {
    if slots != [] {
      NoneInUse(slots[..|slots| - 1], d);
    }
  }

  ghost predicate Run(ss: seq<State>, ts: seq<Step>, srs: nat) {
    && |ss| == |ts| + 1 && srs <= 32 && Init(ss[0])
    && forall k :: 0 <= k < |ts| ==> Allowed(ss[k], ts[k]) && ss[k + 1] == Next(ss[k], ts[k], srs)
  }

  lemma {:induction false} RunKeepsInv(ss: seq<State>, ts: seq<Step>, srs: nat, k: nat)
    requires Run(ss, ts, srs) && k <= |ts|
    ensures Inv(ss[k], srs)
  {
    hide Inv, Init, Allowed, Next;
    if k == 0 {
      InitHasInv(ss[0], srs);
    } else {
      RunKeepsInv(ss, ts, srs, k - 1);
      NextKeepsInv(ss[k - 1], ts[k - 1], srs);
    }
  }

  // In every reachable state: a tag is set iff its slot holds a task; slots and tasks point at each
  // other; the port lists hold exactly the busy slots, each once and on its own port; running_req
  // counts the device's busy slots; task_done is called at most once per queued task.
  lemma AllInStep(ss: seq<State>, ts: seq<Step>, srs: nat, k: nat)
    requires Run(ss, ts, srs) && k <= |ts|
    ensures var s := ss[k];
            && |s.tags| == |s.slots|
            && (forall i :: 0 <= i < |s.slots| ==> (s.tags[i] <==> s.slots[i].Some?))
            && (forall i :: 0 <= i < |s.slots| && s.slots[i].Some? ==>
              s.slots[i].value.task in s.lldd && s.lldd[s.slots[i].value.task] == i)
            && (forall t :: t in s.lldd ==>
              s.lldd[t] < |s.slots| && s.slots[s.lldd[t]].Some? && s.slots[s.lldd[t]].value.task == t)
            && (forall i, p :: 0 <= i < |s.slots| && 0 <= p < |s.lists| ==>
              (i in s.lists[p] <==> s.slots[i].Some? && s.slots[i].value.port == p))
            && (forall p :: 0 <= p < |s.lists| ==> Distinct(s.lists[p]))
            && (forall d :: d in s.devs ==> s.devs[d].running == InUse(s.slots, d))
            && (forall t :: s.done[t] + s.dropped[t] <= s.queued[t] <= s.done[t] + s.dropped[t] + 1)
  {
    RunKeepsInv(ss, ts, srs, k);
    var s := ss[k];
    hide InUse, Run;
    forall i | 0 <= i < |s.slots|
      ensures s.tags[i] <==> s.slots[i].Some?
      ensures s.slots[i].Some? ==> s.slots[i].value.task in s.lldd && s.lldd[s.slots[i].value.task] == i
    {
      assert SlotInv(s, i);
    }
    forall i, p | 0 <= i < |s.slots| && 0 <= p < |s.lists|
      ensures i in s.lists[p] <==> s.slots[i].Some? && s.slots[i].value.port == p
    {
      assert SlotInv(s, i) && ListInv(s, p);
    }
    forall t
      ensures t in s.lldd ==> s.lldd[t] < |s.slots| && s.slots[s.lldd[t]].Some? && s.slots[s.lldd[t]].value.task == t
      ensures s.done[t] + s.dropped[t] <= s.queued[t] <= s.done[t] + s.dropped[t] + 1
    {
      assert TaskInv(s, t);
    }
    forall p | 0 <= p < |s.lists| ensures Distinct(s.lists[p]) { assert ListInv(s, p); }
    forall d | d in s.devs ensures s.devs[d].running == InUse(s.slots, d) { assert DevInv(s, d); }
  }

  // And every mapped device has an enabled register set of its own, which it keeps while one of
  // its ATA requests is in a slot.
  lemma RegisterSetsHeld(ss: seq<State>, ts: seq<Step>, srs: nat, k: nat)
    requires Run(ss, ts, srs) && k <= |ts|
    ensures var s := ss[k];
            && (forall d :: d in s.devs && s.devs[d].tfs != NOT_MAPPED ==>
              s.devs[d].tfs < srs && Enabled(s.regs, s.devs[d].tfs))
            && (forall d, e :: d in s.devs && e in s.devs && d != e && s.devs[d].tfs == s.devs[e].tfs ==>
              s.devs[d].tfs == NOT_MAPPED)
            && (forall i :: 0 <= i < |s.slots| && s.slots[i].Some? && s.slots[i].value.task.ata ==>
                  s.slots[i].value.task.dev in s.devs && s.devs[s.slots[i].value.task.dev].tfs != NOT_MAPPED)
  {
    RunKeepsInv(ss, ts, srs, k);
    var s := ss[k];
    hide InUse, Run;
    forall i | 0 <= i < |s.slots| && s.slots[i].Some? && s.slots[i].value.task.ata
      ensures s.slots[i].value.task.dev in s.devs && s.devs[s.slots[i].value.task.dev].tfs != NOT_MAPPED
    {
      assert SlotInv(s, i);
    }
  }

  // A set a device holds for an ATA request is the same one until the device's last request ends.
  ghost predicate KeepsSet(s: State, s': State, d: nat) {
    d in s.devs && d in s'.devs && (s'.devs[d].running > 0 ==> s'.devs[d].tfs == s.devs[d].tfs)
  }

  lemma SubmitKeepsSet(s: State, r: Req, srs: nat, d: nat)
    requires Inv(s, srs) && srs <= 32 && Allowed(s, SubmitStep(r)) && d in s.devs && s.devs[d].tfs != NOT_MAPPED
    ensures KeepsSet(s, Next(s, SubmitStep(r), srs), d)
  {
    hide Inv, Assign, Assigned;
    InvParts(s, srs);
    if r.task.ata && Assign(s.regs, s.devs, srs, r.task.dev).Done? {
      AssignKeeps(s.regs, s.devs, srs, r.task.dev);
    }
  }

  lemma CompleteKeepsSet(s: State, j: nat, aborted: bool, srs: nat, d: nat)
    requires Inv(s, srs) && srs <= 32 && Allowed(s, CompleteStep(j, aborted)) && d in s.devs
    ensures KeepsSet(s, Next(s, CompleteStep(j, aborted), srs), d)
  {
    hide Inv, Assigned, Uncount, Without;
    InvParts(s, srs);
    if s.slots[j].Some? {
      RunningPositive(s, srs, j);
      Uncounted(s, srs, s.slots[j].value.task);
    }
  }

  lemma RemoveKeepsSet(s: State, e: nat, srs: nat, d: nat)
    requires Inv(s, srs) && srs <= 32 && Allowed(s, RemoveStep(e)) && d in s.devs
    ensures KeepsSet(s, Next(s, RemoveStep(e), srs), d)
  {
    hide Inv, Assigned, Release;
    InvParts(s, srs);
    ReleaseKeeps(s.regs, s.devs, srs, e);
  }

  lemma SetKeptWhileBusy(s: State, t: Step, srs: nat, i: nat)
    requires Inv(s, srs) && srs <= 32 && Allowed(s, t) && i < |s.slots| && s.slots[i].Some? && s.slots[i].value.task.ata
    ensures KeepsSet(s, Next(s, t, srs), s.slots[i].value.task.dev)
  {
    RunningPositive(s, srs, i);
    assert SlotInv(s, i);
    hide Inv, Next, KeepsSet;
    var d := s.slots[i].value.task.dev;
    match t {
      case SubmitStep(r) => SubmitKeepsSet(s, r, srs, d);
      case CompleteStep(j, aborted) => CompleteKeepsSet(s, j, aborted, srs, d);
      case RemoveStep(e) => RemoveKeepsSet(s, e, srs, d);
    }
  }

  // ---------------------------------------------------------------------------------------------
  // Register sets are given back

  lemma SubmitOwned(s: State, r: Req, srs: nat)
    requires Inv(s, srs) && srs <= 32 && Allowed(s, SubmitStep(r)) && Owned(s.regs, s.devs)
    ensures Owned(Submit(s, r, srs).0.regs, Submit(s, r, srs).0.devs)
  {
    hide Inv, Assigned, Owned, Assign, FirstClear;
    var d, o := r.task.dev, Submit(s, r, srs).1;
    if o == Queued {
      if r.task.ata {
        AssignOwned(s.regs, s.devs, srs, d);
        var a := Assign(s.regs, s.devs, srs, d);
        InvParts(s, srs);
        AssignKeeps(s.regs, s.devs, srs, d);
        RecountOwned(a.regs, a.devs, d, a.devs[d].running + 1);
      } else {
        RecountOwned(s.regs, s.devs, d, s.devs[d].running + 1);
      }
    }
  }

  lemma CompleteOwned(s: State, i: nat, aborted: bool, srs: nat)
    requires Inv(s, srs) && srs <= 32 && i < |s.slots| && i < |s.tags| && Owned(s.regs, s.devs)
    ensures Owned(Complete(s, i, aborted).regs, Complete(s, i, aborted).devs)
  {
    hide Inv, Assigned, Owned, Release, Without;
    if s.slots[i].Some? {
      var task := s.slots[i].value.task;
      RunningPositive(s, srs, i);
      InvParts(s, srs);
      var n := s.devs[task.dev].running - 1;
      var devs := s.devs[task.dev := s.devs[task.dev].(running := n)];
      RecountOwned(s.regs, s.devs, task.dev, n);
      RecountKeeps(s.regs, s.devs, srs, task.dev, n);
      ReleaseOwned(s.regs, devs, srs, task.dev);
    }
  }

  lemma RemoveOwned(s: State, d: nat, srs: nat)
    requires Inv(s, srs) && srs <= 32 && d in s.devs && s.devs[d].running == 0 && Owned(s.regs, s.devs)
    ensures Owned(Removed(s, d).regs, Removed(s, d).devs)
  {
    hide Inv, Assigned, Owned;
    InvParts(s, srs);
    ReleaseOwned(s.regs, s.devs, srs, d);
    ReleaseFrees(s.regs, s.devs, srs, d);
    ReleaseKeeps(s.regs, s.devs, srs, d);
    var (regs, devs) := Release(s.regs, s.devs, d);
    assert devs[d := Device(0, NOT_MAPPED)] == devs;
  }

  lemma {:induction false} RunOwned(ss: seq<State>, ts: seq<Step>, srs: nat, k: nat)
    requires Run(ss, ts, srs) && k <= |ts| && forall i :: 0 <= i < 32 ==> !Enabled(ss[0].regs, i)
    ensures Owned(ss[k].regs, ss[k].devs)
  {
    hide Enabled, Init, Submit, Complete, Removed;
    if k > 0 {
      RunOwned(ss, ts, srs, k - 1);
      RunKeepsInv(ss, ts, srs, k - 1);
      hide Owned, Inv;
      assert Allowed(ss[k - 1], ts[k - 1]) && ss[k] == Next(ss[k - 1], ts[k - 1], srs);
      match ts[k - 1] {
        case SubmitStep(r) => SubmitOwned(ss[k - 1], r, srs);
        case CompleteStep(i, aborted) => CompleteOwned(ss[k - 1], i, aborted, srs);
        case RemoveStep(d) => RemoveOwned(ss[k - 1], d, srs);
      }
    }
  }

  // In every state of every run that starts with all register sets disabled, a set is enabled if and
  // only if some device has it.
  lemma EnabledExactlyWhenHeld(ss: seq<State>, ts: seq<Step>, srs: nat, k: nat, i: nat)
    requires Run(ss, ts, srs) && k <= |ts| && i < 32 && forall j :: 0 <= j < 32 ==> !Enabled(ss[0].regs, j)
    ensures Enabled(ss[k].regs, i) <==> exists d :: d in ss[k].devs && ss[k].devs[d].tfs == i
  {
    hide Enabled, Init, Allowed, Next;
    RunOwned(ss, ts, srs, k);
    RunKeepsInv(ss, ts, srs, k);
    InvParts(ss[k], srs);
    assert Enabled(ss[k].regs, i) ==> Owner(ss[k].devs, i);
  }

  // So in such a run an ATA task of a device without a set is refused for want of one only while every
  // set is held by another device.
  lemma RefusedOnlyWhileHeld(ss: seq<State>, ts: seq<Step>, srs: nat, k: nat, r: Req)
    requires Run(ss, ts, srs) && k <= |ts| && forall j :: 0 <= j < 32 ==> !Enabled(ss[0].regs, j)
    requires Allowed(ss[k], SubmitStep(r)) && r.task.ata && !r.gone && r.attached
    requires exists t :: 0 <= t < |ss[k].slots| && ss[k].slots[t].None?
    ensures Submit(ss[k], r, srs).1 != Queued <==>
            ss[k].devs[r.task.dev].tfs == NOT_MAPPED && forall i: nat :: i < srs ==> Owner(ss[k].devs, i)
  {
    hide Enabled, Init, Next, Submit, Inv;
    RunKeepsInv(ss, ts, srs, k);
    QueuedExactly(ss[k], r, srs);
    forall i: nat | i < srs ensures Enabled(ss[k].regs, i) <==> Owner(ss[k].devs, i) {
      EnabledExactlyWhenHeld(ss, ts, srs, k, i);
    }
  }
}

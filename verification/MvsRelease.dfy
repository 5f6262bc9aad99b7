// Releasing the tasks of a port (mvs_do_release_task): a walk over a list from which slots are taken
// while it is walked, with the lock dropped whenever a task is reported.
module MvsRelease {
  import opened Basics
  import opened MvsSlots

  // A slot that a release of this port, for one device or for all, has to complete.
  ghost predicate Targeted(s: State, port: nat, dev: Option<nat>, i: nat)
    requires i < |s.slots|
  {
    s.slots[i].Some? && s.slots[i].value.port == port && (dev.None? || s.slots[i].value.task.dev == dev.value)
  }

  lemma ListedSlot(s: State, srs: nat, port: nat, i: nat)
    requires MvsSlots.Inv(s, srs) && port < |s.lists|
    ensures i in s.lists[port] <==> i < |s.slots| && s.slots[i].Some? && s.slots[i].value.port == port
    ensures Distinct(s.lists[port])
  {
    assert ListInv(s, port);
    if i < |s.slots| {
      assert SlotInv(s, i);
    }
  }

  lemma CompleteOnly(s: State, i: nat, aborted: bool)
    requires i < |s.slots| && i < |s.tags|
    ensures Complete(s, i, aborted).slots == s.slots[i := None] && Complete(s, i, aborted).queued == s.queued
    ensures s.slots[i].Some? ==>
      Complete(s, i, aborted).done == s.done + if aborted then multiset{} else multiset{s.slots[i].value.task}
  {
  }

  // A release that walks over the slots of `walk` reports task t through task_done.
  ghost predicate Told(s: State, walk: seq<nat>, port: nat, dev: Option<nat>, aborted: set<Task>, t: Task) {
    && t in s.lldd && s.lldd[t] in walk && s.lldd[t] < |s.slots|
    && Targeted(s, port, dev, s.lldd[t]) && t !in aborted
  }

  lemma TellOneMore(s: State, srs: nat, walk: seq<nat>, k: nat, port: nat, dev: Option<nat>, aborted: set<Task>)
    requires MvsSlots.Inv(s, srs) && k < |walk| && walk[k] < |s.slots| && s.slots[walk[k]].Some? && Distinct(walk)
    ensures var i := walk[k];
      var mine := s.slots[i].value.task;
      && !Told(s, walk[..k], port, dev, aborted, mine)
      && (Told(s, walk[..k + 1], port, dev, aborted, mine) <==> Targeted(s, port, dev, i) && mine !in aborted)
      && forall t :: t != mine ==> (Told(s, walk[..k + 1], port, dev, aborted, t) <==>
        Told(s, walk[..k], port, dev, aborted, t))
  {
    var i := walk[k];
    assert SlotInv(s, i);
    assert walk[..k + 1] == walk[..k] + [i];
    forall t | t in s.lldd && s.lldd[t] == i ensures t == s.slots[i].value.task { assert TaskInv(s, t); }
  }

  // The walk of a release has passed over the slots of `walk`.
  ghost predicate Releasing(s0: State, s: State, walk: seq<nat>, port: nat, dev: Option<nat>, aborted: set<Task>) {
    && |s.slots| == |s0.slots| && s.queued == s0.queued
    && (forall i :: 0 <= i < |s.slots| ==>
      s.slots[i] == if i in walk && Targeted(s0, port, dev, i) then None else s0.slots[i])
    && (forall t :: s.done[t] == s0.done[t] + if Told(s0, walk, port, dev, aborted, t) then 1 else 0)
  }

  lemma ReleasingStarts(s: State, walk: seq<nat>, port: nat, dev: Option<nat>, aborted: set<Task>)
    ensures Releasing(s, s, walk[..0], port, dev, aborted)
  {
  }

  // Exactly the targeted slots are free, and exactly their tasks were reported, once each and not if
  // aborted.
  ghost predicate Released(s0: State, s: State, port: nat, dev: Option<nat>, aborted: set<Task>)
    requires port < |s0.lists|
  {
    && |s.slots| == |s0.slots| && s.queued == s0.queued
    && (forall i :: 0 <= i < |s.slots| ==> s.slots[i] == if Targeted(s0, port, dev, i) then None else s0.slots[i])
    && (forall t :: s.done[t] == s0.done[t] + if Told(s0, s0.lists[port], port, dev, aborted, t) then 1 else 0)
  }

  // In terms of the slots alone.
  lemma ReleasedSlots(s0: State, s: State, srs: nat, port: nat, dev: Option<nat>, aborted: set<Task>)
    requires MvsSlots.Inv(s0, srs) && port < |s0.lists| && Released(s0, s, port, dev, aborted)
    ensures |s.slots| == |s0.slots|
    ensures forall i :: 0 <= i < |s.slots| ==>
      s.slots[i] == match s0.slots[i]
                    case None => None
                    case Some(b) => if b.port == port && (dev == None || dev == Some(b.task.dev)) then None else Some(b)
    ensures forall t: Task ::
      s.done[t] == s0.done[t] +
        if t !in aborted && (dev == None || dev == Some(t.dev)) && Some(Busy(t, port)) in s0.slots then 1 else 0
  {
    forall t: Task
      ensures Told(s0, s0.lists[port], port, dev, aborted, t) <==>
              t !in aborted && (dev == None || dev == Some(t.dev)) && Some(Busy(t, port)) in s0.slots
    {
      ToldIs(s0, srs, port, dev, aborted, t);
    }
  }

  lemma ToldIs(s: State, srs: nat, port: nat, dev: Option<nat>, aborted: set<Task>, t: Task)
    requires MvsSlots.Inv(s, srs) && port < |s.lists|
    ensures Told(s, s.lists[port], port, dev, aborted, t) <==>
            t !in aborted && (dev == None || dev == Some(t.dev)) && Some(Busy(t, port)) in s.slots
  {
    assert TaskInv(s, t);
    if t in s.lldd {
      ListedSlot(s, srs, port, s.lldd[t]);
    }
    if Some(Busy(t, port)) in s.slots {
      var i :| 0 <= i < |s.slots| && s.slots[i] == Some(Busy(t, port));
      assert SlotInv(s, i);
    }
  }

  lemma ReleasingEnds(s0: State, s: State, srs: nat, port: nat, dev: Option<nat>, aborted: set<Task>)
    requires MvsSlots.Inv(s0, srs) && port < |s0.lists| && Releasing(s0, s, s0.lists[port], port, dev, aborted)
    ensures Released(s0, s, port, dev, aborted)
  {
    hide MvsSlots.Inv, Told;
    forall i | 0 <= i < |s.slots|
      ensures s.slots[i] == if Targeted(s0, port, dev, i) then None else s0.slots[i]
    {
      ListedSlot(s0, srs, port, i);
    }
  }

  // One turn of the walk, for a slot that is passed over and for one that is completed.
  lemma ReleasingStep(s0: State, s: State, srs: nat, walk: seq<nat>, k: nat, port: nat, dev: Option<nat>,
                      aborted: set<Task>)
    requires MvsSlots.Inv(s0, srs) && MvsSlots.Inv(s, srs) && port < |s0.lists| && walk == s0.lists[port] && k < |walk|
    requires Releasing(s0, s, walk[..k], port, dev, aborted)
    ensures walk[k] < |s.slots| == |s.tags| && s.slots[walk[k]].Some?
    ensures var i := walk[k];
      var task := s.slots[i].value.task;
      if dev.None? || task.dev == dev.value
      then Releasing(s0, Complete(s, i, task in aborted), walk[..k + 1], port, dev, aborted)
      else Releasing(s0, s, walk[..k + 1], port, dev, aborted)
  {
    hide MvsSlots.Inv, Told, Complete;
    var i := walk[k];
    InvParts(s, srs);
    ListedSlot(s0, srs, port, i);
    assert i !in walk[..k];
    assert walk[..k + 1] == walk[..k] + [i];
    TellOneMore(s0, srs, walk, k, port, dev, aborted);
    CompleteOnly(s, i, s.slots[i].value.task in aborted);
  }

  // ---------------------------------------------------------------------------------------------
  // The walk

  // The entry after slot i; None is the head of the list.
  function Succ(list: seq<nat>, i: nat): Option<nat> {
    if list == [] then None
    else if list[0] == i then First(list[1..])
    else Succ(list[1..], i)
  }

  function First(list: seq<nat>): Option<nat> { if list == [] then None else Some(list[0]) }

  // Completions of a number of slots, one after another; those not in use are ignored.
  ghost function CompleteAll(s: State, which: seq<nat>, aborted: set<Task>): (r: State)
    requires |s.slots| == |s.tags|
    ensures |r.slots| == |r.tags| == |s.slots|
  {
    if which == [] then s
    else
      var r, i := CompleteAll(s, which[..|which| - 1], aborted), which[|which| - 1];
      if i < |r.slots| && r.slots[i].Some? then Complete(r, i, r.slots[i].value.task in aborted) else r
  }

  lemma NoneCompleted(s: State, aborted: set<Task>)
    requires |s.slots| == |s.tags|
    ensures CompleteAll(s, [], aborted) == s
  {
  }

  lemma CompletedOneMore(s: State, which: seq<nat>, k: nat, aborted: set<Task>)
    requires |s.slots| == |s.tags| && k < |which|
    ensures var r := CompleteAll(s, which[..k], aborted);
      CompleteAll(s, which[..k + 1], aborted) ==
      if which[k] < |r.slots| && r.slots[which[k]].Some?
      then Complete(r, which[k], r.slots[which[k]].value.task in aborted) else r
  {
    hide Complete;
    assert which[..k + 1][..k] == which[..k];
  }

  // The lock is dropped in the turn of slot i: its task is reported.
  ghost predicate Drops(s: State, dev: Option<nat>, aborted: set<Task>, i: nat) {
    && i < |s.slots| && s.slots[i].Some? && (dev.None? || s.slots[i].value.task.dev == dev.value)
    && s.slots[i].value.task !in aborted
  }

  // A list from its first entry that is not gone.
  function Left(list: seq<nat>, gone: set<nat>): (r: seq<nat>)
    ensures |r| <= |list|
  {
    if list == [] || list[0] !in gone then list else Left(list[1..], gone)
  }

  ghost function GoneAfter(gone: set<nat>, drops: bool, during: seq<nat>): set<nat> {
    if drops then gone + (set x | x in during) else gone
  }

  // A walk of `list` from its first entry, beginning with turn t, when others have completed the
  // slots in `gone` so far and will complete during(t) while the lock is dropped in turn t: it loses
  // its place when in some turn the next entry that was left is completed.
  ghost predicate Loses(s: State, list: seq<nat>, gone: set<nat>, t: nat, dev: Option<nat>, aborted: set<Task>,
                        during: nat -> seq<nat>)
    decreases |list|
  {
    list != [] &&
    var next, gone' := Left(list[1..], gone), GoneAfter(gone, Drops(s, dev, aborted, list[0]), during(t));
    next != [] && (next[0] in gone' || Loses(s, next, gone', t + 1, dev, aborted, during))
  }

  // Slots are only ever freed.
  ghost predicate Shrinks(s: State, s': State) {
    && |s'.slots| == |s.slots| && |s'.lists| == |s.lists| && s'.queued == s.queued
    && forall i :: 0 <= i < |s.slots| ==> s'.slots[i] == s.slots[i] || s'.slots[i].None?
  }

  // The entries of a list whose slots are in use.
  function Kept(list: seq<nat>, slots: seq<Option<Busy>>): seq<nat> {
    if list == [] then []
    else (if list[0] < |slots| && slots[list[0]].Some? then [list[0]] else []) + Kept(list[1..], slots)
  }

  // The walk from state s0 has reached entry k of the list as it was: what is left of the list is
  // in its order, and every targeted slot before k is free.
  ghost predicate Walking(s0: State, s: State, port: nat, dev: Option<nat>, k: nat)
    requires port < |s0.lists|
  {
    var list := s0.lists[port];
    && Shrinks(s0, s) && port < |s.lists| && s.lists[port] == Kept(list, s.slots) && k <= |list|
    && forall j :: 0 <= j < k ==> list[j] < |s.slots| && (Targeted(s0, port, dev, list[j]) ==> s.slots[list[j]].None?)
  }

  lemma WithoutCons(x: nat, rest: seq<nat>, i: nat)
    ensures Without([x] + rest, i) == (if x == i then [] else [x]) + Without(rest, i)
  {
    assert ([x] + rest)[1..] == rest;
  }

  lemma SuccCons(x: nat, rest: seq<nat>, i: nat)
    ensures Succ([x] + rest, i) == if x == i then First(rest) else Succ(rest, i)
  {
    assert ([x] + rest)[1..] == rest;
  }

  lemma {:induction false} WithoutKept(list: seq<nat>, slots: seq<Option<Busy>>, i: nat)
    requires i < |slots|
    ensures Without(Kept(list, slots), i) == Kept(list, slots[i := None])
  {
    if list != [] {
      var rest := Kept(list[1..], slots);
      WithoutKept(list[1..], slots, i);
      WithoutCons(list[0], rest, i);
      assert [] + rest == rest;
    }
  }

  lemma {:induction false} KeptSame(list: seq<nat>, slots: seq<Option<Busy>>, i: nat)
    requires i < |slots| && i !in list
    ensures Kept(list, slots[i := None]) == Kept(list, slots)
  {
    if list != [] {
      assert list[0] != i && i !in list[1..];
      KeptSame(list[1..], slots, i);
    }
  }

  lemma {:induction false} KeptAll(list: seq<nat>, slots: seq<Option<Busy>>)
    requires forall j :: 0 <= j < |list| ==> list[j] < |slots| && slots[list[j]].Some?
    ensures Kept(list, slots) == list
  {
    if list != [] {
      KeptAll(list[1..], slots);
    }
  }

  lemma CompleteKeepsOrder(s0: State, s: State, srs: nat, port: nat, i: nat, aborted: bool)
    requires MvsSlots.Inv(s0, srs) && MvsSlots.Inv(s, srs) && port < |s0.lists| && i < |s.slots| && s.slots[i].Some?
    requires Shrinks(s0, s) && s.lists[port] == Kept(s0.lists[port], s.slots)
    ensures |s.tags| == |s.slots|
    ensures var s' := Complete(s, i, aborted);
      Shrinks(s, s') && s'.slots == s.slots[i := None] && s'.lists[port] == Kept(s0.lists[port], s'.slots)
  {
    hide MvsSlots.Inv, Kept, Without, Uncount;
    InvParts(s, srs);
    UncountKeepsLists(s, s.slots[i].value.task);
    ListedSlot(s0, srs, port, i);
    if s.slots[i].value.port == port {
      WithoutKept(s0.lists[port], s.slots, i);
    } else {
      KeptSame(s0.lists[port], s.slots, i);
    }
  }

  lemma UncountKeepsLists(s: State, task: Task)
    ensures var u := Uncount(s, task); u == s.(regs := u.regs, devs := u.devs)
  {
  }

  // Whatever others complete, what is left of the list keeps its order, and only those slots go.
  lemma {:induction false} OthersKeepOrder(s0: State, s: State, srs: nat, port: nat, which: seq<nat>,
                                           aborted: set<Task>)
    requires MvsSlots.Inv(s0, srs) && MvsSlots.Inv(s, srs) && srs <= 32 && port < |s0.lists|
    requires Shrinks(s0, s) && s.lists[port] == Kept(s0.lists[port], s.slots)
    ensures |s.tags| == |s.slots|
    ensures var s' := CompleteAll(s, which, aborted);
      && MvsSlots.Inv(s', srs) && Shrinks(s, s') && s'.lists[port] == Kept(s0.lists[port], s'.slots)
      && forall i :: 0 <= i < |s.slots| ==> s'.slots[i] == if i in which then None else s.slots[i]
  {
    hide MvsSlots.Inv, Kept, Complete;
    InvParts(s, srs);
    if which != [] {
      var front, i := which[..|which| - 1], which[|which| - 1];
      OthersKeepOrder(s0, s, srs, port, front, aborted);
      var r := CompleteAll(s, front, aborted);
      if i < |r.slots| && r.slots[i].Some? {
        var a := r.slots[i].value.task in aborted;
        CompleteKeepsOrder(s0, r, srs, port, i, a);
        CompleteKeepsInv(r, i, a, srs);
      }
    }
  }

  lemma DistinctTail(list: seq<nat>, k: nat)
    requires Distinct(list) && 0 < k < |list|
    ensures Distinct(list[1..]) && list[0] != list[k] && list[1..][k - 1] == list[k]
  {
    assert forall a :: 0 <= a < |list[1..]| ==> list[1..][a] == list[a + 1];
  }

  // In what is left of the list, the entry after slot list[k] is the next one in use.
  lemma {:induction false} SuccIsNext(list: seq<nat>, slots: seq<Option<Busy>>, k: nat) returns (n: nat)
    requires Distinct(list) && k < |list| && list[k] < |slots| && slots[list[k]].Some?
    requires forall j :: 0 <= j < |list| ==> list[j] < |slots|
    ensures k < n <= |list| && (forall j :: k < j < n ==> slots[list[j]].None?)
    ensures n < |list| ==> slots[list[n]].Some?
    ensures Succ(Kept(list, slots), list[k]) == if n < |list| then Some(list[n]) else None
    decreases |list|
  {
    hide Kept, Succ, First, Distinct;
    var tail := list[1..];
    SuccCons(list[0], Kept(tail, slots), list[k]);
    KeptCons(list, slots);
    if k == 0 {
      n := FirstIsNext(tail, slots);
    } else {
      DistinctTail(list, k);
      n := SuccIsNext(tail, slots, k - 1);
    }
    n := n + 1;
    forall j | k < j < n ensures slots[list[j]].None? { assert list[j] == tail[j - 1]; }
  }

  lemma KeptCons(list: seq<nat>, slots: seq<Option<Busy>>)
    requires list != [] && list[0] < |slots|
    ensures Kept(list, slots) ==
      if slots[list[0]].Some? then [list[0]] + Kept(list[1..], slots) else Kept(list[1..], slots)
  {
    assert [] + Kept(list[1..], slots) == Kept(list[1..], slots);
  }

  lemma {:induction false} FirstIsNext(list: seq<nat>, slots: seq<Option<Busy>>) returns (n: nat)
    requires forall j :: 0 <= j < |list| ==> list[j] < |slots|
    ensures n <= |list| && (forall j :: 0 <= j < n ==> slots[list[j]].None?)
    ensures n < |list| ==> slots[list[n]].Some?
    ensures First(Kept(list, slots)) == if n < |list| then Some(list[n]) else None
  {
    n := 0;
    if list != [] && slots[list[0]].None? {
      n := FirstIsNext(list[1..], slots);
      n := n + 1;
      forall j | 0 <= j < n ensures slots[list[j]].None? { assert j > 0 ==> list[j] == list[1..][j - 1]; }
    }
  }

  lemma WalkStarts(s0: State, srs: nat, port: nat, dev: Option<nat>, aborted: set<Task>)
    requires MvsSlots.Inv(s0, srs) && port < |s0.lists|
    ensures Walking(s0, s0, port, dev, 0) && Releasing(s0, s0, s0.lists[port][..0], port, dev, aborted)
    ensures var list := s0.lists[port]; list != [] ==> list[0] < |s0.slots| && s0.slots[list[0]].Some?
  {
    hide MvsSlots.Inv, Kept, Releasing;
    ListInRange(s0, srs, port);
    KeptAll(s0.lists[port], s0.slots);
    ReleasingStarts(s0, s0.lists[port], port, dev, aborted);
  }

  lemma ListInRange(s: State, srs: nat, port: nat)
    requires MvsSlots.Inv(s, srs) && port < |s.lists|
    ensures Distinct(s.lists[port])
    ensures forall j :: 0 <= j < |s.lists[port]| ==> s.lists[port][j] < |s.slots| && s.slots[s.lists[port][j]].Some?
  {
    assert ListInv(s, port);
  }

  // The saved successor is the next entry of the list that is in use.
  lemma WalkFinds(s0: State, s: State, srs: nat, port: nat, dev: Option<nat>, k: nat) returns (n: nat)
    requires MvsSlots.Inv(s0, srs) && port < |s0.lists| && Walking(s0, s, port, dev, k) && k < |s0.lists[port]|
    requires s0.lists[port][k] < |s.slots| && s.slots[s0.lists[port][k]].Some?
    ensures port < |s.lists| && NextInUse(s0, s, port, k, n)
    ensures Succ(s.lists[port], s0.lists[port][k]) == if n < |s0.lists[port]| then Some(s0.lists[port][n]) else None
  {
    hide MvsSlots.Inv, Kept, Succ, Targeted;
    ListInRange(s0, srs, port);
    n := SuccIsNext(s0.lists[port], s.slots, k);
  }

  ghost predicate NextInUse(s0: State, s: State, port: nat, k: nat, n: nat)
    requires port < |s0.lists|
  {
    var list := s0.lists[port];
    && k < n <= |list|
    && (forall j :: k < j < n ==> list[j] < |s.slots| && s.slots[list[j]].None?)
    && (n < |list| ==> list[n] < |s.slots| && s.slots[list[n]].Some?)
  }

  // What one turn does, with what others did in it.
  ghost function Turned(s: State, i: nat, dev: Option<nat>, aborted: set<Task>, during: seq<nat>): (State, bool)
    requires |s.slots| == |s.tags| && i < |s.slots| && s.slots[i].Some?
  {
    var task := s.slots[i].value.task;
    if dev.None? || task.dev == dev.value then
      var s' := Complete(s, i, task in aborted);
      if task in aborted then (s', false) else (CompleteAll(s', during, aborted), true)
    else (s, false)
  }

  // A turn keeps what is left of the list in order, and loses the saved successor only to others.
  lemma TurnKeepsOrder(s0: State, s: State, srs: nat, port: nat, i: nat, dev: Option<nat>, aborted: set<Task>,
                       during: seq<nat>)
    requires MvsSlots.Inv(s0, srs) && MvsSlots.Inv(s, srs) && srs <= 32 && port < |s0.lists| && i < |s.slots|
    requires s.slots[i].Some?
    requires Shrinks(s0, s) && s.lists[port] == Kept(s0.lists[port], s.slots) && |s.tags| == |s.slots|
    ensures var (s', dropped) := Turned(s, i, dev, aborted, during);
      && MvsSlots.Inv(s', srs) && Shrinks(s, s') && s'.lists[port] == Kept(s0.lists[port], s'.slots)
      && (dev.None? || s.slots[i].value.task.dev == dev.value ==> s'.slots[i].None?)
      && forall x :: 0 <= x < |s.slots| && x != i ==> s'.slots[x] == if dropped && x in during then None else s.slots[x]
  {
    hide MvsSlots.Inv, Kept, Complete, CompleteAll;
    var task := s.slots[i].value.task;
    if dev.None? || task.dev == dev.value {
      CompleteKeepsOrder(s0, s, srs, port, i, task in aborted);
      CompleteKeepsInv(s, i, task in aborted, srs);
      var c := Complete(s, i, task in aborted);
      ShrinksOn(s0, s, c);
      if task !in aborted {
        OthersKeepOrder(s0, c, srs, port, during, aborted);
        ShrinksOn(s, c, CompleteAll(c, during, aborted));
      }
    }
  }

  lemma ShrinksOn(a: State, b: State, c: State)
    requires Shrinks(a, b) && Shrinks(b, c)
    ensures Shrinks(a, c)
  {
  }

  // Of the entries of the list as it was, from k on, exactly those in `gone` are free.
  ghost predicate GoneFrom(s0: State, s: State, port: nat, k: nat, gone: set<nat>)
    requires port < |s0.lists|
  {
    var list := s0.lists[port];
    forall j :: k <= j < |list| ==> list[j] < |s.slots| && (s.slots[list[j]].None? <==> list[j] in gone)
  }

  // So the walk gets to the next entry, unless others completed it.
  lemma TurnDone(s0: State, s: State, srs: nat, port: nat, dev: Option<nat>, aborted: set<Task>, k: nat, n: nat,
                 gone: set<nat>, during: seq<nat>)
    requires MvsSlots.Inv(s0, srs) && MvsSlots.Inv(s, srs) && srs <= 32 && port < |s0.lists| && |s.tags| == |s.slots|
    requires Walking(s0, s, port, dev, k) && NextInUse(s0, s, port, k, n) && GoneFrom(s0, s, port, k, gone)
    requires s0.lists[port][k] < |s.slots| && s.slots[s0.lists[port][k]].Some?
    ensures var (s', dropped) := Turned(s, s0.lists[port][k], dev, aborted, during);
      && Walking(s0, s', port, dev, n) && dropped == Drops(s0, dev, aborted, s0.lists[port][k])
      && GoneFrom(s0, s', port, n, GoneAfter(gone, dropped, during))
  {
    hide MvsSlots.Inv, Kept, Complete, CompleteAll;
    var list, i := s0.lists[port], s0.lists[port][k];
    var (s', dropped) := Turned(s, i, dev, aborted, during);
    ListInRange(s0, srs, port);
    TurnKeepsOrder(s0, s, srs, port, i, dev, aborted, during);
    hide Turned;
    ShrinksOn(s0, s, s');
    assert s.slots[i] == s0.slots[i];
    forall j | 0 <= j < n ensures Targeted(s0, port, dev, list[j]) ==> s'.slots[list[j]].None? {
      if k < j { assert s.slots[list[j]].None?; }
    }
    forall j | n <= j < |list|
      ensures list[j] < |s'.slots| && (s'.slots[list[j]].None? <==> list[j] in GoneAfter(gone, dropped, during))
    {
      assert list[j] != i;
    }
  }

  lemma {:induction false} LeftIs(list: seq<nat>, gone: set<nat>, n: nat)
    requires n <= |list| && (forall j :: 0 <= j < n ==> list[j] in gone) && (n < |list| ==> list[n] !in gone)
    ensures Left(list, gone) == list[n..]
  {
    if n > 0 {
      LeftIs(list[1..], gone, n - 1);
      assert list[1..][n - 1..] == list[n..];
    }
  }

  lemma LosesUnfolds(s0: State, s: State, port: nat, k: nat, n: nat, gone: set<nat>, t: nat, dev: Option<nat>,
                     aborted: set<Task>, during: nat -> seq<nat>)
    requires port < |s0.lists| && NextInUse(s0, s, port, k, n) && GoneFrom(s0, s, port, k, gone)
    ensures var list := s0.lists[port];
      var gone' := GoneAfter(gone, Drops(s0, dev, aborted, list[k]), during(t));
      Loses(s0, list[k..], gone, t, dev, aborted, during) <==>
      n < |list| && (list[n] in gone' || Loses(s0, list[n..], gone', t + 1, dev, aborted, during))
  {
    hide Drops, GoneAfter;
    var list := s0.lists[port];
    var rest := list[k..][1..];
    assert rest == list[k + 1..];
    forall j | 0 <= j < n - k - 1 ensures rest[j] in gone { assert rest[j] == list[k + 1 + j]; }
    assert n < |list| ==> rest[n - k - 1] == list[n];
    LeftIs(rest, gone, n - k - 1);
    assert rest[n - k - 1..] == list[n..];
  }

  lemma NothingGone(s: State, srs: nat, port: nat)
    requires MvsSlots.Inv(s, srs) && port < |s.lists|
    ensures GoneFrom(s, s, port, 0, {})
  {
    hide MvsSlots.Inv;
    ListInRange(s, srs, port);
  }

  lemma GoneAt(s0: State, s: State, port: nat, k: nat, gone: set<nat>)
    requires port < |s0.lists| && k < |s0.lists[port]| && GoneFrom(s0, s, port, k, gone)
    ensures s0.lists[port][k] < |s.slots| && (s.slots[s0.lists[port][k]].None? <==> s0.lists[port][k] in gone)
  {
  }

  lemma NoneLoses(s: State, gone: set<nat>, t: nat, dev: Option<nat>, aborted: set<Task>, during: nat -> seq<nat>)
    ensures !Loses(s, [], gone, t, dev, aborted, during)
  {
  }

  lemma NotLostUndisturbed(s: State, list: seq<nat>, dev: Option<nat>, aborted: set<Task>, during: nat -> seq<nat>)
    ensures (forall u :: during(u) == []) ==> !Loses(s, list, {}, 0, dev, aborted, during)
  {
    hide Loses;
    if forall u :: during(u) == [] {
      NotLost(s, list, {}, 0, dev, aborted, during);
    }
  }

  // A walk is never lost to completions of other slots than those of its list.
  lemma {:induction false} NotLost(s: State, list: seq<nat>, gone: set<nat>, t: nat, dev: Option<nat>,
                                   aborted: set<Task>, during: nat -> seq<nat>)
    requires forall u, x :: t <= u && x in during(u) ==> x !in list
    requires forall x :: x in list ==> x !in gone
    ensures !Loses(s, list, gone, t, dev, aborted, during)
    decreases |list|
  {
    hide Drops;
    if list != [] {
      var next, gone' := Left(list[1..], gone), GoneAfter(gone, Drops(s, dev, aborted, list[0]), during(t));
      LeftIs(list[1..], gone, 0);
      assert forall x :: x in next ==> x in list;
      NotLost(s, next, gone', t + 1, dev, aborted, during);
    }
  }

  // It is lost when the second entry is completed while the task of the first is reported.
  lemma LostAtOnce(s: State, list: seq<nat>, dev: Option<nat>, aborted: set<Task>, during: nat -> seq<nat>)
    requires |list| >= 2 && Drops(s, dev, aborted, list[0]) && list[1] in during(0)
    ensures Loses(s, list, {}, 0, dev, aborted, during)
  {
    LeftIs(list[1..], {}, 0);
  }

  // And that happens: two tasks queued on one port, one device.
  lemma WalkIsLost(regs: MvsRegSets.Regs) returns (ss: seq<State>, ts: seq<Step>)
    ensures Run(ss, ts, 0) && |ts| == 2 && ss[2].lists == [[0, 1]]
    ensures Loses(ss[2], ss[2].lists[0], {}, 0, None, {}, t => [1])
  {
    hide Next, Loses, FirstClear;
    var s0 := State([false, false], [None, None], [[]], map[], map[0 := MvsRegSets.Device(0, MvsRegSets.NOT_MAPPED)],
                    regs, multiset{}, multiset{}, multiset{});
    PlainQueues(s0, 0, 0);
    var s1 := Next(s0, SubmitStep(Plain(0)), 0);
    assert [] + [0] == [0];
    PlainQueues(s1, 1, 1);
    var s2 := Next(s1, SubmitStep(Plain(1)), 0);
    assert [0] + [1] == [0, 1];
    ss, ts := [s0, s1, s2], [SubmitStep(Plain(0)), SubmitStep(Plain(1))];
    LostAtOnce(s2, s2.lists[0], None, {}, t => [1]);
  }

  function Plain(id: nat): Req { Req(Task(id, 0, false), false, 0, true, true, true) }

  lemma PlainQueues(s: State, id: nat, n: nat)
    requires |s.tags| == |s.slots| && n < |s.tags| && !s.tags[n] && (forall j :: 0 <= j < n ==> s.tags[j])
    requires |s.lists| == 1 && 0 in s.devs && Task(id, 0, false) !in s.lldd
    ensures Allowed(s, SubmitStep(Plain(id)))
    ensures var s' := Next(s, SubmitStep(Plain(id)), 0);
      && s'.tags == s.tags[n := true] && s'.slots == s.slots[n := Some(Busy(Task(id, 0, false), 0))]
      && s'.lists == [s.lists[0] + [n]] && s'.lldd == s.lldd[Task(id, 0, false) := n] && 0 in s'.devs
  {
    hide FirstClear;
    FirstClearIs(s.tags, n);
  }

  // Undisturbed, the walk passes over every entry.
  lemma TurnReleases(s0: State, s: State, srs: nat, port: nat, dev: Option<nat>, aborted: set<Task>, k: nat, n: nat)
    requires MvsSlots.Inv(s0, srs) && MvsSlots.Inv(s, srs) && port < |s0.lists| && |s.tags| == |s.slots|
    requires NextInUse(s0, s, port, k, n) && Releasing(s0, s, s0.lists[port][..k], port, dev, aborted)
    requires s0.lists[port][k] < |s.slots| && s.slots[s0.lists[port][k]].Some?
    ensures n == k + 1
    ensures Releasing(s0, Turned(s, s0.lists[port][k], dev, aborted, []).0, s0.lists[port][..n], port, dev, aborted)
  {
    hide MvsSlots.Inv, Complete, Told;
    var list := s0.lists[port];
    ListInRange(s0, srs, port);
    if k + 1 < |list| {
      assert list[k + 1] !in list[..k];
      assert s.slots[list[k + 1]] == s0.slots[list[k + 1]];
    }
    ReleasingStep(s0, s, srs, list, k, port, dev, aborted);
  }

  lemma WalkEnds(s0: State, s: State, srs: nat, port: nat, dev: Option<nat>)
    requires MvsSlots.Inv(s0, srs) && port < |s0.lists| && Walking(s0, s, port, dev, |s0.lists[port]|)
    ensures |s.slots| == |s0.slots|
    ensures forall i :: 0 <= i < |s0.slots| && Targeted(s0, port, dev, i) ==> s.slots[i].None?
  {
    hide MvsSlots.Inv, Kept;
    forall i | 0 <= i < |s0.slots| && Targeted(s0, port, dev, i) ensures s.slots[i].None? {
      ListedSlot(s0, srs, port, i);
    }
  }

  lemma WalkShrinks(s0: State, s: State, port: nat, dev: Option<nat>, k: nat)
    requires port < |s0.lists| && Walking(s0, s, port, dev, k)
    ensures Shrinks(s0, s)
  {
  }
}

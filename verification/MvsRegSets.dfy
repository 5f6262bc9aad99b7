// SATA register sets of the Marvell 64xx chips: sets 0..15 are enabled by bits 16..31 of PCS,
// sets 16..31 by the same bits of CTL.
module MvsRegSets {

  const NOT_MAPPED := 0x7f
  const EN_SATA_REG_SHIFT := 16

  type Word = w: seq<bool> | |w| == 32 witness seq(32, _ => false)

  datatype Regs = Regs(pcs: Word, ctl: Word)

  function Bit(i: nat): (b: nat)
    ensures EN_SATA_REG_SHIFT <= b < 32
  {
    i % 16 + EN_SATA_REG_SHIFT
  }

  predicate Enabled(r: Regs, i: nat) {
    if i < 16 then r.pcs[Bit(i)] else r.ctl[Bit(i)]
  }

  function Switch(r: Regs, i: nat, on: bool): Regs {
    if i < 16 then r.(pcs := r.pcs[Bit(i) := on]) else r.(ctl := r.ctl[Bit(i) := on])
  }

  // The lowest set below n that is not enabled, or n.
  function FirstFree(r: Regs, n: nat): (i: nat)
    ensures i <= n && (i < n ==> !Enabled(r, i)) && (forall j :: 0 <= j < i ==> Enabled(r, j))
  {
    if n == 0 then 0
    else
      var i := FirstFree(r, n - 1);
      if i < n - 1 then i else if Enabled(r, n - 1) then n else n - 1
  }

  lemma FirstFreeIs(r: Regs, n: nat, i: nat)
    requires i < n && !Enabled(r, i) && forall j :: 0 <= j < i ==> Enabled(r, j)
    ensures FirstFree(r, n) == i
  {
    var f := FirstFree(r, n);
    assert f < n ==> !Enabled(r, f);
  }

  lemma AllTaken(r: Regs, n: nat)
    requires forall j :: 0 <= j < n ==> Enabled(r, j)
    ensures FirstFree(r, n) == n
  {
  }

  // Switching one set leaves every other set and the control bits below the enables alone.
  lemma SwitchOnly(r: Regs, i: nat, on: bool, j: nat)
    requires i < 32 && j < 32
    ensures Enabled(Switch(r, i, on), j) == if j == i then on else Enabled(r, j)
    ensures Switch(r, i, on).pcs[..EN_SATA_REG_SHIFT] == r.pcs[..EN_SATA_REG_SHIFT]
    ensures Switch(r, i, on).ctl[..EN_SATA_REG_SHIFT] == r.ctl[..EN_SATA_REG_SHIFT]
  {
  }

  // The enabling bit of set i is bit 16 + i of PCS for the first sixteen, bit i of CTL for the others.
  predicate BitOf(r: Regs, i: nat)
    requires i < 32
  {
    if i < 16 then r.pcs[16 + i] else r.ctl[i]
  }

  function WithBit(r: Regs, i: nat, on: bool): Regs
    requires i < 32
  {
    if i < 16 then r.(pcs := r.pcs[16 + i := on]) else r.(ctl := r.ctl[i := on])
  }

  lemma SetsAreBits(r: Regs, i: nat, on: bool)
    requires i < 32
    ensures Enabled(r, i) == BitOf(r, i) && Switch(r, i, on) == WithBit(r, i, on)
  {
  }

  class Chip {
    var regs: Regs
    var intStat: Word      // interrupt status of the register sets; writing a bit clears it
    const srsSz: nat

    // Acknowledge a pending interrupt of set i.
    method ClearInterrupt(i: nat)
      requires i < 32
      modifies this`intStat
      ensures intStat == old(intStat)[i := false]
    {
      if intStat[i] {
        intStat := intStat[i := false];
      }
    }

    // mvs_64xx_assign_reg_set
    method AssignRegSet(tfs: nat) returns (tfs': nat, rc: nat)
      requires srsSz <= 32
      modifies this
      ensures tfs != NOT_MAPPED ==> rc == 0 && tfs' == tfs && regs == old(regs)
      ensures tfs == NOT_MAPPED && FirstFree(old(regs), srsSz) < srsSz ==>
                rc == 0 && tfs' == FirstFree(old(regs), srsSz) && regs == Switch(old(regs), tfs', true)
      // the set starts without an old interrupt, and no other set's interrupt is lost
      ensures tfs' != tfs ==> tfs' < 32
      ensures intStat == if tfs' != tfs then old(intStat)[tfs' := false] else old(intStat)
      ensures tfs == NOT_MAPPED && FirstFree(old(regs), srsSz) == srsSz ==>
        rc == NOT_MAPPED && tfs' == tfs && regs == old(regs)
      // in bits: the lowest clear one is set, and the call fails iff there is none
      ensures rc == 0 || rc == 0x7f
      ensures rc == NOT_MAPPED <==> tfs == NOT_MAPPED && forall j :: 0 <= j < srsSz ==> BitOf(old(regs), j)
      ensures tfs == NOT_MAPPED && rc == 0 ==>
        && tfs' < srsSz && !BitOf(old(regs), tfs') && (forall j :: 0 <= j < tfs' ==> BitOf(old(regs), j))
        && regs == WithBit(old(regs), tfs', true)
    {
      hide FirstFree;
      forall j | 0 <= j < srsSz ensures Enabled(regs, j) == BitOf(regs, j) { SetsAreBits(regs, j, true); }
      tfs', rc := tfs, 0;
      if tfs != NOT_MAPPED {
        return;
      }
      var tmp := regs.pcs;
      for i := 0 to srsSz
        invariant regs == old(regs) && intStat == old(intStat) && tfs' == tfs && rc == 0
        invariant tmp == if i <= 16 then regs.pcs else regs.ctl
        invariant forall j :: 0 <= j < i ==> Enabled(regs, j)
      {
        if i == 16 {
          tmp := regs.ctl;
        }
        var offs := i % 16 + EN_SATA_REG_SHIFT;
        if !tmp[offs] {
          FirstFreeIs(regs, srsSz, i);
          SetsAreBits(regs, i, true);
          tfs' := i;
          if i < 16 {
            regs := regs.(pcs := tmp[offs := true]);
          } else {
            regs := regs.(ctl := tmp[offs := true]);
          }
          ClearInterrupt(i);
          return;
        }
      }
      AllTaken(regs, srsSz);
      rc := NOT_MAPPED;
    }

    // mvs_64xx_free_reg_set
    method FreeRegSet(tfs: nat) returns (tfs': nat)
      modifies this
      ensures tfs' == NOT_MAPPED
      ensures regs == if tfs == NOT_MAPPED then old(regs) else Switch(old(regs), tfs, false)
      ensures tfs < 32 ==> regs == WithBit(old(regs), tfs, false)
      ensures intStat == if tfs < 32 then old(intStat)[tfs := false] else old(intStat)
    {
      tfs' := NOT_MAPPED;
      if tfs == NOT_MAPPED {
        return;
      }
      var offs := tfs % 16 + EN_SATA_REG_SHIFT;
      if tfs < 16 {
        regs := regs.(pcs := regs.pcs[offs := false]);
      } else {
        regs := regs.(ctl := regs.ctl[offs := false]);
      }
      if tfs < 32 {
        ClearInterrupt(tfs);
      }
    }
  }

  // ---------------------------------------------------------------------------------------------
  // Which device has which set

  // A device: requests of any kind in flight, and its register set.
  datatype Device = Device(running: nat, tfs: nat)

  // Mapped devices have sets of their own, and all of them are enabled.
  ghost predicate Assigned(r: Regs, devs: map<nat, Device>, srs: nat) {
    && (forall d :: d in devs && devs[d].tfs != NOT_MAPPED ==> devs[d].tfs < srs && Enabled(r, devs[d].tfs))
    && (forall d, e :: d in devs && e in devs && d != e && devs[d].tfs == devs[e].tfs ==> devs[d].tfs == NOT_MAPPED)
  }

  // mvs_assign_reg_set for device d: the new register file and device table, or none.
  datatype Assignment = Failed | Done(regs: Regs, devs: map<nat, Device>)

  function Assign(r: Regs, devs: map<nat, Device>, srs: nat, d: nat): Assignment
    requires d in devs
  {
    if devs[d].tfs != NOT_MAPPED then Done(r, devs)
    else
      var i := FirstFree(r, srs);
      if i < srs then Done(Switch(r, i, true), devs[d := devs[d].(tfs := i)]) else Failed
  }

  // mvs_free_reg_set for device d: only an idle device gives its set back.
  function Release(r: Regs, devs: map<nat, Device>, d: nat): (Regs, map<nat, Device>)
    requires d in devs
  {
    if devs[d].running != 0 || devs[d].tfs == NOT_MAPPED then (r, devs)
    else (Switch(r, devs[d].tfs, false), devs[d := devs[d].(tfs := NOT_MAPPED)])
  }

  // Assigning fails exactly when the device has no set and every set is enabled.
  lemma AssignFailsIff(r: Regs, devs: map<nat, Device>, srs: nat, d: nat)
    requires d in devs
    ensures Assign(r, devs, srs, d).Failed? <==> devs[d].tfs == NOT_MAPPED && forall i :: 0 <= i < srs ==> Enabled(r, i)
  {
  }

  lemma AssignKeeps(r: Regs, devs: map<nat, Device>, srs: nat, d: nat)
    requires srs <= 32 && d in devs && Assigned(r, devs, srs) && Assign(r, devs, srs, d).Done?
    ensures var a := Assign(r, devs, srs, d);
            && Assigned(a.regs, a.devs, srs) && a.devs.Keys == devs.Keys && a.devs[d].tfs != NOT_MAPPED
            && forall e :: e in devs ==>
                 a.devs[e].running == devs[e].running && (devs[e].tfs != NOT_MAPPED ==> a.devs[e].tfs == devs[e].tfs)
  {
    var a := Assign(r, devs, srs, d);
    if devs[d].tfs == NOT_MAPPED {
      var i := FirstFree(r, srs);
      forall e | e in devs && devs[e].tfs != NOT_MAPPED
        ensures devs[e].tfs != i && Enabled(a.regs, devs[e].tfs)
      {
        SwitchOnly(r, i, true, devs[e].tfs);
      }
      SwitchOnly(r, i, true, i);
    }
  }

  lemma RecountKeeps(r: Regs, devs: map<nat, Device>, srs: nat, d: nat, n: nat)
    requires d in devs && Assigned(r, devs, srs)
    ensures Assigned(r, devs[d := devs[d].(running := n)], srs)
  {
  }

  lemma ReleaseKeeps(r: Regs, devs: map<nat, Device>, srs: nat, d: nat)
    requires srs <= 32 && d in devs && Assigned(r, devs, srs)
    ensures var (r', devs') := Release(r, devs, d);
            && Assigned(r', devs', srs) && devs'.Keys == devs.Keys
            && forall e :: e in devs ==>
                 devs'[e].running == devs[e].running && (e != d || devs[e].running > 0 ==> devs'[e].tfs == devs[e].tfs)
  {
    if devs[d].running == 0 && devs[d].tfs != NOT_MAPPED {
      var r' := Switch(r, devs[d].tfs, false);
      forall e | e in devs && e != d && devs[e].tfs != NOT_MAPPED
        ensures Enabled(r', devs[e].tfs)
      {
        SwitchOnly(r, devs[d].tfs, false, devs[e].tfs);
      }
    }
  }

  // Every enabled set belongs to a device.
  ghost predicate Owned(r: Regs, devs: map<nat, Device>) {
    forall i :: 0 <= i < 32 && Enabled(r, i) ==> Owner(devs, i)
  }

  ghost predicate Owner(devs: map<nat, Device>, i: nat) { exists d :: d in devs && devs[d].tfs == i }

  lemma AssignOwned(r: Regs, devs: map<nat, Device>, srs: nat, d: nat)
    requires srs <= 32 && d in devs && Owned(r, devs) && Assign(r, devs, srs, d).Done?
    ensures var a := Assign(r, devs, srs, d); Owned(a.regs, a.devs)
  {
    var a := Assign(r, devs, srs, d);
    if devs[d].tfs == NOT_MAPPED {
      var f := FirstFree(r, srs);
      hide Enabled, Switch, FirstFree;
      forall i | 0 <= i < 32 && Enabled(a.regs, i) ensures Owner(a.devs, i) {
        SwitchOnly(r, f, true, i);
        if i == f {
          assert a.devs[d].tfs == i;
        } else {
          var e :| e in devs && devs[e].tfs == i;
          assert a.devs[e].tfs == i;
        }
      }
    }
  }

  lemma RecountOwned(r: Regs, devs: map<nat, Device>, d: nat, n: nat)
    requires d in devs && Owned(r, devs)
    ensures Owned(r, devs[d := devs[d].(running := n)])
  {
    hide Enabled;
    var devs' := devs[d := devs[d].(running := n)];
    forall i | 0 <= i < 32 && Enabled(r, i) ensures Owner(devs', i) {
      var e :| e in devs && devs[e].tfs == i;
      assert devs'[e].tfs == i;
    }
  }

  // Release gives back the set of an idle device, and only that: the device is unmapped and the set
  // disabled.
  lemma ReleaseFrees(r: Regs, devs: map<nat, Device>, srs: nat, d: nat)
    requires srs <= 32 && d in devs && Assigned(r, devs, srs)
    ensures var (r', devs') := Release(r, devs, d);
            && d in devs'
            && (devs'[d].tfs == NOT_MAPPED <==> devs[d].tfs == NOT_MAPPED || devs[d].running == 0)
            && (forall i :: 0 <= i < 32 ==>
                  (Enabled(r', i) <==> Enabled(r, i) && !(devs[d].running == 0 && i == devs[d].tfs)))
  {
    hide Enabled, Switch;
    if devs[d].running == 0 && devs[d].tfs != NOT_MAPPED {
      forall i | 0 <= i < 32
        ensures Enabled(Switch(r, devs[d].tfs, false), i) <==> Enabled(r, i) && i != devs[d].tfs
      {
        SwitchOnly(r, devs[d].tfs, false, i);
      }
    }
  }

  lemma ReleaseOwned(r: Regs, devs: map<nat, Device>, srs: nat, d: nat)
    requires srs <= 32 && d in devs && Assigned(r, devs, srs) && Owned(r, devs)
    ensures var (r', devs') := Release(r, devs, d); Owned(r', devs')
  {
    hide Enabled, Switch;
    ReleaseFrees(r, devs, srs, d);
    var (r', devs') := Release(r, devs, d);
    forall i | 0 <= i < 32 && Enabled(r', i) ensures Owner(devs', i) {
      assert Owner(devs, i);
      var e :| e in devs && devs[e].tfs == i;
      assert devs'[e].tfs == i;
    }
  }
}

// The scatter/gather chain builder of the MPT target driver (mpt_send_tgt_data), the software
// walk of the chain it builds (stmapp_srr_adjust_offset), and the walk the IOC performs from the
// Length, NextChainOffset and Address fields of the chain elements.
module MptChain {
  import opened Basics

  datatype Sge = Sge(address: nat, length: nat)

  // One hardware element.  END_OF_BUFFER is always set together with END_OF_LIST, so `end`
  // stands for both.
  datatype Element =
    | Simple(sge: Sge, last: bool, end: bool)
    | Chain(length: nat, next: nat, address: nat)

  const NUM_SGES := 64
  const NUM_CHAINS := NUM_SGES / 8
  const ELEM_BYTES := 12   // sizeof(SGESimple64_t) == sizeof(SGEChain64_t)

  // ---------------------------------------------------------------------------------------------
  // The layout a finished request has

  function Simples(s: seq<Sge>): seq<Element> {
    seq(|s|, i requires 0 <= i < |s| => Simple(s[i], false, false))
  }

  function MarkLast(es: seq<Element>, end: bool): seq<Element>
    requires |es| > 0 && es[|es| - 1].Simple?
  {
    es[|es| - 1 := es[|es| - 1].(last := true, end := end)]
  }

  // The chain element that points at the segment holding the head of `rest` at chain slot `slot`.
  function ChainTo(rest: seq<Sge>, nc: nat, dma: nat, slot: nat): Element
    requires nc >= 2
  {
    if |rest| <= nc then
      Chain(|rest| * ELEM_BYTES, 0, dma + ELEM_BYTES * slot)
    else
      Chain(nc * ELEM_BYTES, (nc - 1) * ELEM_BYTES / 4, dma + ELEM_BYTES * slot)
  }

  // The elements for `rest` from chain slot `base` on, in segments of `nc` slots.
  function Area(rest: seq<Sge>, nc: nat, dma: nat, base: nat): seq<Element>
    requires |rest| >= 1 && nc >= 2
    decreases |rest|
  {
    if |rest| <= nc then
      MarkLast(Simples(rest), true)
    else
      MarkLast(Simples(rest[..nc - 1]), false)
      + [ChainTo(rest[nc - 1..], nc, dma, base + nc)]
      + Area(rest[nc - 1..], nc, dma, base + nc)
  }

  function FrameLayout(sgl: seq<Sge>, ta: nat, nc: nat, dma: nat): seq<Element>
    requires |sgl| >= 1 && ta >= 2 && nc >= 2
  {
    if |sgl| <= ta then
      MarkLast(Simples(sgl), true)
    else
      MarkLast(Simples(sgl[..ta - 1]), false) + [ChainTo(sgl[ta - 1..], nc, dma, 0)]
  }

  function ChainLayout(sgl: seq<Sge>, ta: nat, nc: nat, dma: nat): seq<Element>
    requires |sgl| >= 1 && ta >= 2 && nc >= 2
  {
    if |sgl| <= ta then [] else Area(sgl[ta - 1..], nc, dma, 0)
  }

  // Number of chain elements needed inside the chain area for r SGEs.
  function Chains(r: nat, nc: nat): nat
    requires nc >= 2
  {
    if r <= nc then 0 else 1 + Chains(r - (nc - 1), nc)
  }

  // Chain slots used: re-emitted data elements plus chain elements.
  function ChainSlots(n: nat, ta: nat, nc: nat): nat
    requires ta >= 2 && nc >= 2
  {
    if n <= ta then 0 else n - (ta - 1) + Chains(n - (ta - 1), nc)
  }

  lemma {:induction false} AreaLength(rest: seq<Sge>, nc: nat, dma: nat, base: nat)
    requires |rest| >= 1 && nc >= 2
    ensures |Area(rest, nc, dma, base)| == |rest| + Chains(|rest|, nc)
    decreases |rest|
  {
    hide ChainTo;
    if |rest| > nc {
      AreaLength(rest[nc - 1..], nc, dma, base + nc);
    }
  }

  lemma ShortArea(rest: seq<Sge>, nc: nat, dma: nat, base: nat)
    requires 1 <= |rest| <= nc && nc >= 2
    ensures var es := Area(rest, nc, dma, base);
            && |es| == |rest|
            && forall q :: 0 <= q < |es| ==> es[q] == Simple(rest[q], q == |es| - 1, q == |es| - 1)
  {
  }

  lemma LongArea(rest: seq<Sge>, nc: nat, dma: nat, base: nat)
    requires |rest| > nc >= 2
    ensures var es := Area(rest, nc, dma, base);
            && |es| > nc + 1
            && (forall q :: 0 <= q < nc - 1 ==> es[q] == Simple(rest[q], q == nc - 2, false))
            && es[nc - 1] == ChainTo(rest[nc - 1..], nc, dma, base + nc)
            && es[nc..] == Area(rest[nc - 1..], nc, dma, base + nc)
  {
    AreaLength(rest[nc - 1..], nc, dma, base + nc);
  }

  // ---------------------------------------------------------------------------------------------
  // The builder

  // While the request frame still has room: i SGEs copied, nothing chained.
  ghost predicate Filling(sgl: seq<Sge>, i: nat, frame: seq<Element>, frame0: seq<Element>) {
    && i <= |sgl| && i <= |frame| == |frame0|
    && (forall q :: 0 <= q < i ==> frame[q] == Simple(sgl[q], false, false))
    && (forall q :: i <= q < |frame| ==> frame[q] == frame0[q])
  }

  // The request frame once it ends in a chain element; `done` when that element's length is filled in.
  ghost predicate FrameChained(sgl: seq<Sge>, ta: nat, nc: nat, dma: nat, done: bool,
                               frame: seq<Element>, frame0: seq<Element>)
    requires ta >= 2 && nc >= 2
  {
    && ta < |sgl| && ta <= |frame| == |frame0|
    && (forall q :: 0 <= q < ta - 1 ==> frame[q] == Simple(sgl[q], q == ta - 2, false))
    && frame[ta - 1].Chain? && frame[ta - 1].address == dma
    && (done ==> frame[ta - 1] == ChainTo(sgl[ta - 1..], nc, dma, 0))
    && (forall q :: ta <= q < |frame| ==> frame[q] == frame0[q])
  }

  // The chain area while the segment at slot `base`, whose first SGE is t, holds SGEs t..i.
  ghost predicate Chaining(sgl: seq<Sge>, nc: nat, dma: nat, full: seq<Element>, t: nat, base: nat, i: nat,
                           chain: seq<Element>, chain0: seq<Element>)
    requires nc >= 2
  {
    && t < i <= |sgl| && i <= t + nc && |chain| == |chain0|
    && base + (i - t) <= |full| <= |chain|
    && full[base..] == Area(sgl[t..], nc, dma, base)
    && (base > 0 ==> full[base - 1] == ChainTo(sgl[t..], nc, dma, base))
    && (base > 0 ==> chain[base - 1].Chain? && chain[base - 1].address == dma + ELEM_BYTES * base)
    && (forall q :: 0 <= q < base - 1 ==> chain[q] == full[q])
    && (forall q :: base <= q < base + (i - t) ==> chain[q] == Simple(sgl[t + q - base], false, false))
    && (forall q :: base + (i - t) <= q < |chain| ==> chain[q] == chain0[q])
  }

  lemma StepArea(sgl: seq<Sge>, t: nat, nc: nat, dma: nat, base: nat, full: seq<Element>)
    requires nc >= 2 && t + nc < |sgl| && base <= |full|
    requires full[base..] == Area(sgl[t..], nc, dma, base)
    ensures base + nc + 1 < |full|
    ensures forall q :: base <= q < base + nc - 1 ==> full[q] == Simple(sgl[t + q - base], q == base + nc - 2, false)
    ensures full[base + nc - 1] == ChainTo(sgl[t + nc - 1..], nc, dma, base + nc)
    ensures full[base + nc..] == Area(sgl[t + nc - 1..], nc, dma, base + nc)
  {
    hide Area;
    var rest, tail := sgl[t..], full[base..];
    LongArea(rest, nc, dma, base);
    assert rest[nc - 1..] == sgl[t + nc - 1..] && tail[nc..] == full[base + nc..];
    assert forall q :: base <= q < base + nc ==> full[q] == tail[q - base];
  }

  // Overwrite the last element of the full frame with a chain element and redo it as chain slot 0.
  method ChainFrame(sgl: seq<Sge>, ta: nat, nc: nat, dma: nat, ghost full: seq<Element>,
                    frame: array<Element>, chain: array<Element>, ghost frame0: seq<Element>,
                    ghost chain0: seq<Element>)
    requires ta >= 2 && nc >= 2 && ta < |sgl| && ta <= frame.Length && frame != chain
    requires full == Area(sgl[ta - 1..], nc, dma, 0) && 2 <= |full| <= chain.Length
    requires Filling(sgl, ta, frame[..], frame0) && chain[..] == chain0
    modifies frame, chain
    ensures FrameChained(sgl, ta, nc, dma, false, frame[..], frame0)
    ensures Chaining(sgl, nc, dma, full, ta - 1, 0, ta, chain[..], chain0)
  {
    frame[ta - 1] := Chain(0, 0, dma);
    frame[ta - 2] := frame[ta - 2].(last := true);
    chain[0] := Simple(sgl[ta - 1], false, false);
  }

  // Fill in the chain element that points at the segment being closed.
  method FixChain(ta: nat, base: nat, length: nat, next: nat, frame: array<Element>, chain: array<Element>)
    requires frame != chain && 1 <= ta <= frame.Length && base <= chain.Length
    requires if base == 0 then frame[ta - 1].Chain? else chain[base - 1].Chain?
    modifies frame, chain
    ensures if base == 0 then
              && frame[..] == old(frame[..])[ta - 1 := Chain(length, next, old(frame[ta - 1]).address)]
              && chain[..] == old(chain[..])
            else
              && chain[..] == old(chain[..])[base - 1 := Chain(length, next, old(chain[base - 1]).address)]
              && frame[..] == old(frame[..])
  {
    if base == 0 {
      frame[ta - 1] := Chain(length, next, frame[ta - 1].address);
    } else {
      chain[base - 1] := Chain(length, next, chain[base - 1].address);
    }
  }

  // Close a full chain segment: overwrite its last element and redo it in the next slot.
  method ChainAgain(sgl: seq<Sge>, ta: nat, nc: nat, dma: nat, ghost full: seq<Element>, ghost t: nat, base: nat,
                    i: nat, frame: array<Element>, chain: array<Element>, ghost frame0: seq<Element>,
                    ghost chain0: seq<Element>)
    requires ta >= 2 && nc >= 2 && t + nc == i < |sgl| && frame != chain && base <= chain.Length
    requires base == 0 ==> t == ta - 1
    requires FrameChained(sgl, ta, nc, dma, base > 0, frame[..], frame0)
    requires Chaining(sgl, nc, dma, full, t, base, i, chain[..], chain0)
    modifies frame, chain
    ensures base + nc < chain.Length
    ensures FrameChained(sgl, ta, nc, dma, true, frame[..], frame0)
    ensures Chaining(sgl, nc, dma, full, t + nc - 1, base + nc, i, chain[..], chain0)
  {
    hide Area, Chaining, FrameChained;
    FixChainKeeps(sgl, ta, nc, dma, full, t, base, i, frame[..], chain[..], frame0, chain0);
    var chainLength: nat := ELEM_BYTES + (nc - 1) * ELEM_BYTES;
    FixChain(ta, base, chainLength, (chainLength - ELEM_BYTES) / 4, frame, chain);
    ghost var fixed := chain[..];
    NextSegmentOpens(sgl, nc, dma, full, t, base, i, fixed, chain0);
    chain[base + nc - 1] := Chain(0, 0, dma + ELEM_BYTES * (base + nc));
    chain[base + nc - 2] := chain[base + nc - 2].(last := true);
    chain[base + nc] := Simple(sgl[i - 1], false, false);
    assert chain[..] == fixed[base + nc - 1 := chain[base + nc - 1]][base + nc - 2 := chain[base + nc - 2]]
      [base + nc := chain[base + nc]];
  }

  // Once the pending chain element is filled in, everything before the current segment is final.
  lemma FixChainKeeps(sgl: seq<Sge>, ta: nat, nc: nat, dma: nat, full: seq<Element>, t: nat, base: nat, i: nat,
                      frame: seq<Element>, chain: seq<Element>, frame0: seq<Element>, chain0: seq<Element>)
    requires ta >= 2 && nc >= 2 && t + nc == i < |sgl| && (base == 0 ==> t == ta - 1)
    requires FrameChained(sgl, ta, nc, dma, base > 0, frame, frame0)
    requires Chaining(sgl, nc, dma, full, t, base, i, chain, chain0)
    ensures if base == 0 then
              var f := frame[ta - 1 := Chain(nc * ELEM_BYTES, (nc - 1) * ELEM_BYTES / 4, frame[ta - 1].address)];
              frame[ta - 1].Chain? && FrameChained(sgl, ta, nc, dma, true, f, frame0)
            else
              var c := chain[base - 1 := Chain(nc * ELEM_BYTES, (nc - 1) * ELEM_BYTES / 4, chain[base - 1].address)];
              && chain[base - 1].Chain? && Chaining(sgl, nc, dma, full, t, base, i, c, chain0)
              && c[base - 1] == full[base - 1]
    ensures ta <= |frame| && base + nc + 1 < |full| <= |chain|
  {
    StepArea(sgl, t, nc, dma, base, full);
  }

  // Rewriting the full segment's last element and repeating it opens the next segment.
  lemma NextSegmentOpens(sgl: seq<Sge>, nc: nat, dma: nat, full: seq<Element>, t: nat, base: nat, i: nat,
                         chain: seq<Element>, chain0: seq<Element>)
    requires nc >= 2 && t + nc == i < |sgl|
    requires Chaining(sgl, nc, dma, full, t, base, i, chain, chain0)
    requires base > 0 ==> chain[base - 1] == full[base - 1]
    ensures base + nc < |chain| && chain[base + nc - 2].Simple?
    ensures var c := chain[base + nc - 1 := Chain(0, 0, dma + ELEM_BYTES * (base + nc))]
                          [base + nc - 2 := chain[base + nc - 2].(last := true)]
                          [base + nc := Simple(sgl[i - 1], false, false)];
            Chaining(sgl, nc, dma, full, t + nc - 1, base + nc, i, c, chain0)
  {
    hide Area;
    StepArea(sgl, t, nc, dma, base, full);
    var c := chain[base + nc - 1 := Chain(0, 0, dma + ELEM_BYTES * (base + nc))]
                  [base + nc - 2 := chain[base + nc - 2].(last := true)]
                  [base + nc := Simple(sgl[i - 1], false, false)];
    assert forall q :: 0 <= q < base + nc - 2 || base + nc < q < |chain| ==> c[q] == chain[q];
  }

  // Fix up the last chain element and flag the last data element.
  method Finish(sgl: seq<Sge>, ta: nat, nc: nat, dma: nat, ghost full: seq<Element>, ghost t: nat, base: nat, j: nat,
                frame: array<Element>, chain: array<Element>, ghost frame0: seq<Element>, ghost chain0: seq<Element>)
    requires ta >= 2 && nc >= 2 && t + j == |sgl| && frame != chain && base + j <= chain.Length
    requires base == 0 ==> t == ta - 1
    requires FrameChained(sgl, ta, nc, dma, base > 0, frame[..], frame0)
    requires Chaining(sgl, nc, dma, full, t, base, |sgl|, chain[..], chain0)
    modifies frame, chain
    ensures FrameChained(sgl, ta, nc, dma, true, frame[..], frame0)
    ensures |full| <= chain.Length == |chain0| && chain[..] == full + chain0[|full|..]
  {
    FixChain(ta, base, j * ELEM_BYTES, 0, frame, chain);
    ghost var tail := full[base..];
    assert |full| == base + j;
    forall q | base <= q < |full|
      ensures full[q] == tail[q - base] == Simple(sgl[t + q - base], q == |full| - 1, q == |full| - 1)
    {
    }
    chain[base + j - 1] := chain[base + j - 1].(last := true, end := true);
  }

  method EmitInFrame(sgl: seq<Sge>, i: nat, frame: array<Element>, ghost frame0: seq<Element>)
    requires i < |sgl| && i < frame.Length && Filling(sgl, i, frame[..], frame0)
    modifies frame
    ensures Filling(sgl, i + 1, frame[..], frame0)
  {
    frame[i] := Simple(sgl[i], false, false);
  }

  method EmitInChain(sgl: seq<Sge>, nc: nat, dma: nat, ghost full: seq<Element>, ghost t: nat, base: nat, i: nat,
                     j: nat, chain: array<Element>, ghost chain0: seq<Element>)
    requires nc >= 2 && t + j == i < |sgl| && j < nc && Chaining(sgl, nc, dma, full, t, base, i, chain[..], chain0)
    modifies chain
    ensures base + j < chain.Length
    ensures Chaining(sgl, nc, dma, full, t, base, i + 1, chain[..], chain0)
  {
    AreaLength(sgl[t..], nc, dma, base);
    chain[base + j] := Simple(sgl[i], false, false);
  }

  method FinishFrame(sgl: seq<Sge>, ta: nat, nc: nat, dma: nat, frame: array<Element>, ghost frame0: seq<Element>)
    requires 1 <= |sgl| <= ta <= frame.Length && ta >= 2 && nc >= 2 && Filling(sgl, |sgl|, frame[..], frame0)
    modifies frame
    ensures |FrameLayout(sgl, ta, nc, dma)| == |sgl| <= |frame0|
    ensures frame[..] == FrameLayout(sgl, ta, nc, dma) + frame0[|sgl|..]
  {
    frame[|sgl| - 1] := frame[|sgl| - 1].(last := true, end := true);
  }

  lemma FrameChainedIsLayout(sgl: seq<Sge>, ta: nat, nc: nat, dma: nat, frame: seq<Element>, frame0: seq<Element>)
    requires ta >= 2 && nc >= 2 && FrameChained(sgl, ta, nc, dma, true, frame, frame0)
    ensures |FrameLayout(sgl, ta, nc, dma)| == ta <= |frame0|
    ensures frame == FrameLayout(sgl, ta, nc, dma) + frame0[ta..]
  {
  }

  // What holds before SGE i is placed, k chain elements having been written.
  ghost predicate Building(sgl: seq<Sge>, ta: nat, nc: nat, dma: nat, k: nat, t: nat, base: nat, j: nat, i: nat,
                           frame: seq<Element>, frame0: seq<Element>, chain: seq<Element>, chain0: seq<Element>)
    requires |sgl| >= 1 && ta >= 2 && nc >= 2
  {
    && ta <= |frame| && ChainSlots(|sgl|, ta, nc) <= |chain|
    && if k == 0 then
         j == i <= ta && base == 0 && t == ta - 1 && Filling(sgl, i, frame, frame0) && chain == chain0
       else
         && t + j == i && j <= nc && base + j <= |chain| && (base == 0 ==> t == ta - 1)
         && FrameChained(sgl, ta, nc, dma, base > 0, frame, frame0)
         && Chaining(sgl, nc, dma, ChainLayout(sgl, ta, nc, dma), t, base, i, chain, chain0)
  }

  method MakeRoom(sgl: seq<Sge>, ta: nat, nc: nat, dma: nat, k: nat, ghost t: nat, base: nat, j: nat, i: nat,
                  frame: array<Element>, chain: array<Element>, ghost frame0: seq<Element>, ghost chain0: seq<Element>)
    returns (k': nat, ghost t': nat, base': nat, j': nat)
    requires i < |sgl| && ta >= 2 && nc >= 2 && frame != chain
    requires Building(sgl, ta, nc, dma, k, t, base, j, i, frame[..], frame0, chain[..], chain0)
    modifies frame, chain
    ensures Building(sgl, ta, nc, dma, k', t', base', j', i, frame[..], frame0, chain[..], chain0)
    ensures if k' == 0 then j' < ta else j' < nc
    ensures k' == k || k' == k + 1
    ensures k' > 0 <==> k > 0 || i >= ta
  {
    hide Filling, FrameChained, Chaining, Area, Chains;
    ghost var full := ChainLayout(sgl, ta, nc, dma);
    k', t', base', j' := k, t, base, j;
    if k == 0 {
      if j == ta {
        AreaLength(sgl[ta - 1..], nc, dma, 0);
        ChainFrame(sgl, ta, nc, dma, full, frame, chain, frame0, chain0);
        k', j' := k + 1, 1;
      }
    } else {
      if j == nc {
        ChainAgain(sgl, ta, nc, dma, full, t, base, i, frame, chain, frame0, chain0);
        k', t', base', j' := k + 1, t + nc - 1, base + nc, 1;
      }
    }
  }

  method Emit(sgl: seq<Sge>, ta: nat, nc: nat, dma: nat, k: nat, ghost t: nat, base: nat, j: nat, i: nat,
              frame: array<Element>, chain: array<Element>, ghost frame0: seq<Element>, ghost chain0: seq<Element>)
    requires i < |sgl| && ta >= 2 && nc >= 2 && frame != chain
    requires Building(sgl, ta, nc, dma, k, t, base, j, i, frame[..], frame0, chain[..], chain0)
    requires if k == 0 then j < ta else j < nc
    modifies frame, chain
    ensures Building(sgl, ta, nc, dma, k, t, base, j + 1, i + 1, frame[..], frame0, chain[..], chain0)
  {
    if k == 0 {
      EmitInFrame(sgl, i, frame, frame0);
    } else {
      EmitInChain(sgl, nc, dma, ChainLayout(sgl, ta, nc, dma), t, base, i, j, chain, chain0);
    }
  }

  lemma BuildingStarts(sgl: seq<Sge>, ta: nat, nc: nat, dma: nat, frame: seq<Element>, chain: seq<Element>)
    requires |sgl| >= 1 && ta >= 2 && nc >= 2 && ta <= |frame| && ChainSlots(|sgl|, ta, nc) <= |chain|
    ensures Building(sgl, ta, nc, dma, 0, ta - 1, 0, 0, 0, frame, frame, chain, chain)
  {
  }

  method FixUpEnd(sgl: seq<Sge>, ta: nat, nc: nat, dma: nat, k: nat, ghost t: nat, base: nat, j: nat,
                  frame: array<Element>, chain: array<Element>, ghost frame0: seq<Element>, ghost chain0: seq<Element>)
    requires |sgl| >= 1 && ta >= 2 && nc >= 2 && frame != chain && (k == 0 <==> |sgl| <= ta)
    requires Building(sgl, ta, nc, dma, k, t, base, j, |sgl|, frame[..], frame0, chain[..], chain0)
    modifies frame, chain
    ensures var f := FrameLayout(sgl, ta, nc, dma);
            |f| <= ta && |f| <= |frame0| && frame[..] == f + frame0[|f|..]
    ensures var c := ChainLayout(sgl, ta, nc, dma);
            |c| == ChainSlots(|sgl|, ta, nc) <= |chain0| && chain[..] == c + chain0[|c|..]
  {
    hide Filling, FrameChained, Chaining, Area, Chains, FrameLayout;
    if k != 0 {
      AreaLength(sgl[ta - 1..], nc, dma, 0);
      Finish(sgl, ta, nc, dma, ChainLayout(sgl, ta, nc, dma), t, base, j, frame, chain, frame0, chain0);
      FrameChainedIsLayout(sgl, ta, nc, dma, frame[..], frame0);
    } else {
      FinishFrame(sgl, ta, nc, dma, frame, frame0);
    }
  }

  // Where the request's chain element is, in words from the start of the request.
  function ChainOffset(n: nat, ta: nat, sglBytes: nat): nat
    requires ta >= 2
  {
    if n <= ta then 0 else (sglBytes + (ta - 1) * ELEM_BYTES) / 4
  }

  // The builder.  For an empty list the loop does nothing and the final flags go to the word in front
  // of the SGL; `outside` says so.
  method BuildSgl(sgl: seq<Sge>, ta: nat, nc: nat, dma: nat, sglBytes: nat,
                  frame: array<Element>, chain: array<Element>)
    returns (chainOffset: nat, outside: bool)
    requires ta >= 2 && nc >= 2
    requires frame != chain && ta <= frame.Length && ChainSlots(|sgl|, ta, nc) <= chain.Length
    modifies frame, chain
    ensures outside <==> sgl == []
    ensures outside ==> frame[..] == old(frame[..]) && chain[..] == old(chain[..]) && chainOffset == 0
    ensures !outside ==> var f := FrameLayout(sgl, ta, nc, dma); |f| <= ta && frame[..] == f + old(frame[..])[|f|..]
    ensures !outside ==> var c := ChainLayout(sgl, ta, nc, dma);
      |c| == ChainSlots(|sgl|, ta, nc) && chain[..] == c + old(chain[..])[|c|..]
    ensures chainOffset == ChainOffset(|sgl|, ta, sglBytes)
    ensures !outside ==> WalkFrame(frame[..], chain[..], dma, 0) == Some(sgl)
    ensures !outside && sglBytes % 4 == 0 ==>
      WalkRequest(frame[..], chain[..], dma, sglBytes, chainOffset) == Some(sgl)
  {
    hide Building, ChainLayout, FrameLayout, ChainSlots;
    outside := |sgl| == 0;
    if outside {
      return 0, true;
    }
    var i, base := 0, 0;   // next SGE; first chain slot of the segment being filled
    ghost var t: nat := ta - 1;
    var j, k := 0, 0;
    chainOffset := 0;
    BuildingStarts(sgl, ta, nc, dma, frame[..], chain[..]);
    while i < |sgl|
      invariant 0 <= i <= |sgl|
      invariant Building(sgl, ta, nc, dma, k, t, base, j, i, frame[..], old(frame[..]), chain[..], old(chain[..]))
      invariant k == 0 <==> i <= ta
      invariant chainOffset == if k == 0 then 0 else (sglBytes + (ta - 1) * ELEM_BYTES) / 4
    {
      var was := k;
      k, t, base, j := MakeRoom(sgl, ta, nc, dma, k, t, base, j, i, frame, chain, old(frame[..]), old(chain[..]));
      if was == 0 && k == 1 {
        chainOffset := (sglBytes + (ta - 1) * ELEM_BYTES) / 4;
      }
      Emit(sgl, ta, nc, dma, k, t, base, j, i, frame, chain, old(frame[..]), old(chain[..]));
      i := i + 1;
      j := j + 1;
    }
    FixUpEnd(sgl, ta, nc, dma, k, t, base, j, frame, chain, old(frame[..]), old(chain[..]));
    hide WalkFrame, WalkRequest;
    BuiltRequestWalks(sgl, ta, nc, dma, frame[..], chain[..], sglBytes);
  }

  // ---------------------------------------------------------------------------------------------
  // The two readers

  // The driver's own walk once it is in the chain area: a chain element leads to the next slot.
  function WalkArea(area: seq<Element>, p: nat): Option<seq<Sge>>
    decreases |area| - p
  {
    if p >= |area| then None
    else match area[p]
      case Chain(_, _, _) => WalkArea(area, p + 1)
      case Simple(s, _, end) => if end then Some([s]) else Prepend([s], WalkArea(area, p + 1))
  }

  // The driver's walk from request frame slot p: the first chain element is followed by address.
  function WalkFrame(frame: seq<Element>, area: seq<Element>, dma: nat, p: nat): Option<seq<Sge>>
    decreases |frame| - p
  {
    if p >= |frame| then None
    else match frame[p]
      case Chain(_, _, address) => if address < dma then None else WalkArea(area, (address - dma) / ELEM_BYTES)
      case Simple(s, _, end) => if end then Some([s]) else Prepend([s], WalkFrame(frame, area, dma, p + 1))
  }

  function Prepend(s: seq<Sge>, r: Option<seq<Sge>>): Option<seq<Sge>> {
    if r.None? then None else Some(s + r.value)
  }

  // n data elements from slot p, the last of them (and only it) flagged.
  function Data(area: seq<Element>, p: nat, n: nat, end: bool): Option<seq<Sge>> {
    if n == 0 || p + n > |area| then None
    else if exists q ::
      p <= q < p + n && !(area[q].Simple? && area[q].last == (q == p + n - 1) && area[q].end == (end && q == p + n - 1))
    then None
    else Some(seq(n, q requires 0 <= q < n && p + n <= |area| && area[p + q].Simple? => area[p + q].sge))
  }

  // An element as the IOC reads it: a word of flags and length, and an address of two words.  Offsets
  // are in words.
  const WORD := 4
  const WIRE_BYTES := WORD + 2 * WORD

  // The slot that starts at byte `at` of elements from byte `start` on.
  function SlotAt(start: nat, at: int): Option<nat> {
    if at < start || (at - start) % WIRE_BYTES != 0 then None else Some((at - start) / WIRE_BYTES)
  }

  // The IOC's walk of the segment a chain element describes, using only its three fields: the segment
  // begins at byte `address` and has `length` bytes, and its chain element is `next` words into it.
  function WalkSegment(area: seq<Element>, dma: nat, c: Element): Option<seq<Sge>>
    requires c.Chain?
    decreases dma + WIRE_BYTES * (|area| + 1) - c.address
  {
    var first := SlotAt(dma, c.address);
    if first.None? || first.value > |area| then None
    else if c.next == 0 then
      if c.length % WIRE_BYTES != 0 then None else Data(area, first.value, c.length / WIRE_BYTES, true)
    else
      var p, q := first.value, SlotAt(dma, c.address + WORD * c.next);
      if q.None? || q.value >= |area| || c.length != WORD * c.next + WIRE_BYTES || !area[q.value].Chain? then None
      else if area[q.value].address <= c.address then None
      else
        var d := Data(area, p, q.value - p, false);
        if d.None? then None else Prepend(d.value, WalkSegment(area, dma, area[q.value]))
  }

  // The IOC's walk of a request whose SGL begins sglBytes into it and whose chain element, if any, is
  // chainOffset words into it (0: none).
  function WalkRequest(frame: seq<Element>, area: seq<Element>, dma: nat, sglBytes: nat, chainOffset: nat)
    : Option<seq<Sge>>
  {
    if chainOffset == 0 then WalkFrame(frame, [], dma, 0)
    else
      var slot := SlotAt(sglBytes, WORD * chainOffset);
      if slot.None? || slot.value >= |frame| || !frame[slot.value].Chain? then None
      else
        var d := Data(frame, 0, slot.value, false);
        if d.None? then None else Prepend(d.value, WalkSegment(area, dma, frame[slot.value]))
  }

  // ---------------------------------------------------------------------------------------------
  // Walking what was built gives back the list

  ghost predicate Holds(area: seq<Element>, base: nat, es: seq<Element>) {
    base + |es| <= |area| && forall q :: base <= q < base + |es| ==> area[q] == es[q - base]
  }

  // Data elements for s from slot p on, none of them the end of the list.
  ghost predicate Carries(area: seq<Element>, p: nat, s: seq<Sge>) {
    && p + |s| <= |area|
    && forall q :: p <= q < p + |s| ==> area[q].Simple? && area[q].sge == s[q - p] && !area[q].end
  }

  lemma {:induction false} WalkAreaOverData(area: seq<Element>, p: nat, s: seq<Sge>)
    requires Carries(area, p, s)
    ensures WalkArea(area, p) == Prepend(s, WalkArea(area, p + |s|))
    decreases |s|
  {
    var r := WalkArea(area, p + |s|);
    if |s| == 0 {
      assert r.Some? ==> [] + r.value == r.value;
    } else {
      WalkAreaOverData(area, p + 1, s[1..]);
      assert r.Some? ==> s + r.value == [s[0]] + (s[1..] + r.value);
    }
  }

  lemma {:induction false} WalkFrameOverData(frame: seq<Element>, area: seq<Element>, dma: nat, p: nat, s: seq<Sge>)
    requires Carries(frame, p, s)
    ensures WalkFrame(frame, area, dma, p) == Prepend(s, WalkFrame(frame, area, dma, p + |s|))
    decreases |s|
  {
    var r := WalkFrame(frame, area, dma, p + |s|);
    if |s| == 0 {
      assert r.Some? ==> [] + r.value == r.value;
    } else {
      WalkFrameOverData(frame, area, dma, p + 1, s[1..]);
      assert r.Some? ==> s + r.value == [s[0]] + (s[1..] + r.value);
    }
  }

  lemma {:induction false} WalkAreaGivesList(area: seq<Element>, rest: seq<Sge>, nc: nat, dma: nat, base: nat)
    requires |rest| >= 1 && nc >= 2 && Holds(area, base, Area(rest, nc, dma, base))
    ensures WalkArea(area, base) == Some(rest)
    decreases |rest|
  {
    hide Area;
    var n := if |rest| <= nc then |rest| - 1 else nc - 1;
    if |rest| <= nc {
      ShortArea(rest, nc, dma, base);
    } else {
      LongArea(rest, nc, dma, base);
      TailHolds(area, base, Area(rest, nc, dma, base), nc);
      WalkAreaGivesList(area, rest[nc - 1..], nc, dma, base + nc);
    }
    assert area[base + n] == Area(rest, nc, dma, base)[n];
    WalkAreaOverData(area, base, rest[..n]);
    assert |rest| <= nc ==> [rest[n]] == rest[n..];
    assert WalkArea(area, base + n) == Some(rest[n..]);
    assert rest == rest[..n] + rest[n..];
  }

  lemma TailHolds(area: seq<Element>, base: nat, es: seq<Element>, n: nat)
    requires Holds(area, base, es) && n <= |es|
    ensures Holds(area, base + n, es[n..])
  {
    forall q | base + n <= q < base + |es|
      ensures area[q] == es[n..][q - base - n]
    {
    }
  }

  // The first segment of the area: its data elements, its chain element and what follows.
  lemma FirstSegment(area: seq<Element>, rest: seq<Sge>, nc: nat, dma: nat, base: nat)
    requires |rest| > nc >= 2 && Holds(area, base, Area(rest, nc, dma, base))
    ensures base + nc < |area|
    ensures Data(area, base, nc - 1, false) == Some(rest[..nc - 1])
    ensures area[base + nc - 1] == ChainTo(rest[nc - 1..], nc, dma, base + nc)
    ensures Holds(area, base + nc, Area(rest[nc - 1..], nc, dma, base + nc))
  {
    hide Area;
    var es := Area(rest, nc, dma, base);
    LongArea(rest, nc, dma, base);
    assert es[..nc - 1] == MarkLast(Simples(rest[..nc - 1]), false);
    DataGivesList(area, base, rest[..nc - 1], false, es);
    assert area[base + nc - 1] == es[nc - 1];
    TailHolds(area, base, es, nc);
  }

  lemma LastSegment(area: seq<Element>, rest: seq<Sge>, nc: nat, dma: nat, base: nat)
    requires 1 <= |rest| <= nc && nc >= 2 && Holds(area, base, Area(rest, nc, dma, base))
    ensures WalkSegment(area, dma, ChainTo(rest, nc, dma, base)) == Some(rest)
  {
    var es := Area(rest, nc, dma, base);
    assert es[..|rest|] == es;
    DataGivesList(area, base, rest, true, es);
    hide Data, Holds, Area, SlotAt;
    SlotIs(dma, base);
    Exact(|rest|);
  }

  lemma Exact(n: nat)
    ensures (n * ELEM_BYTES) % WIRE_BYTES == 0 && (n * ELEM_BYTES) / WIRE_BYTES == n
    ensures WORD * (n * ELEM_BYTES / 4) == n * ELEM_BYTES
  {
    assert n * ELEM_BYTES == 12 * n == 4 * (3 * n);
    DivIs(12 * n, 12, n, 0);
    DivIs(12 * n, 4, 3 * n, 0);
  }

  // Slot p starts where the builder says.
  lemma SlotIs(start: nat, p: nat)
    ensures SlotAt(start, start + ELEM_BYTES * p) == Some(p)
  {
    Exact(p);
  }

  lemma WalkSegmentUnfolds(area: seq<Element>, dma: nat, p: nat, n: nat)
    requires n >= 1 && p + n < |area| && area[p + n].Chain? && area[p + n].address > dma + ELEM_BYTES * p
    ensures var d := Data(area, p, n, false);
            var c := Chain((n + 1) * ELEM_BYTES, n * ELEM_BYTES / 4, dma + ELEM_BYTES * p);
            d.Some? ==> WalkSegment(area, dma, c) == Prepend(d.value, WalkSegment(area, dma, area[p + n]))
  {
    hide Data, SlotAt;
    SlotIs(dma, p);
    SlotIs(dma, p + n);
    Exact(n);
    assert dma + ELEM_BYTES * p + n * ELEM_BYTES == dma + ELEM_BYTES * (p + n);
  }

  lemma {:induction false} WalkSegmentGivesList(area: seq<Element>, rest: seq<Sge>, nc: nat, dma: nat, base: nat)
    requires |rest| >= 1 && nc >= 2 && Holds(area, base, Area(rest, nc, dma, base))
    ensures WalkSegment(area, dma, ChainTo(rest, nc, dma, base)) == Some(rest)
    decreases |rest|
  {
    hide Data, Holds, Area, WalkSegment;
    if |rest| <= nc {
      LastSegment(area, rest, nc, dma, base);
    } else {
      FirstSegment(area, rest, nc, dma, base);
      WalkSegmentGivesList(area, rest[nc - 1..], nc, dma, base + nc);
      WalkSegmentUnfolds(area, dma, base, nc - 1);
      assert rest == rest[..nc - 1] + rest[nc - 1..];
    }
  }

  lemma DataGivesList(area: seq<Element>, p: nat, s: seq<Sge>, end: bool, es: seq<Element>)
    requires |s| >= 1 && Holds(area, p, es) && |s| <= |es| && es[..|s|] == MarkLast(Simples(s), end)
    ensures Data(area, p, |s|, end) == Some(s)
  {
    forall q | p <= q < p + |s|
      ensures area[q] == Simple(s[q - p], q == p + |s| - 1, end && q == p + |s| - 1)
    {
      assert area[q] == es[..|s|][q - p];
    }
    var d := Data(area, p, |s|, end);
    assert d.Some? && |d.value| == |s|;
    assert d.value == s;
  }

  lemma UnchainedRequestWalks(sgl: seq<Sge>, frame: seq<Element>, area: seq<Element>, dma: nat)
    requires |sgl| >= 1 && Holds(frame, 0, MarkLast(Simples(sgl), true))
    ensures WalkFrame(frame, area, dma, 0) == Some(sgl)
  {
    var n := |sgl| - 1;
    assert forall q :: 0 <= q <= n ==> frame[q] == MarkLast(Simples(sgl), true)[q];
    WalkFrameOverData(frame, area, dma, 0, sgl[..n]);
    assert sgl == sgl[..n] + [sgl[n]];
  }

  lemma ChainedRequestWalks(sgl: seq<Sge>, ta: nat, nc: nat, dma: nat, frame: seq<Element>, area: seq<Element>,
                            sglBytes: nat)
    requires ta >= 2 && nc >= 2 && |sgl| > ta
    requires Holds(frame, 0, FrameLayout(sgl, ta, nc, dma)) && Holds(area, 0, Area(sgl[ta - 1..], nc, dma, 0))
    ensures WalkFrame(frame, area, dma, 0) == Some(sgl)
    ensures sglBytes % 4 == 0 ==>
      WalkRequest(frame, area, dma, sglBytes, (sglBytes + (ta - 1) * ELEM_BYTES) / 4) == Some(sgl)
  {
    hide *;
    var n := ta - 1;
    FrameHead(sgl, ta, nc, dma, frame);
    assert sgl == sgl[..n] + sgl[n..];
    assert WalkFrame(frame, area, dma, 0) == Some(sgl) by {
      WalkFrameOverData(frame, area, dma, 0, sgl[..n]);
      WalkAreaGivesList(area, sgl[n..], nc, dma, 0);
      WalkFrameJumps(sgl[n..], nc, frame, area, dma, n);
      PrependSome(sgl[..n], sgl[n..]);
    }
    WalkSegmentGivesList(area, sgl[n..], nc, dma, 0);
    WalkRequestJumps(sgl[..n], sgl[n..], nc, frame, area, dma, n, sglBytes);
  }

  lemma PrependSome(s: seq<Sge>, r: seq<Sge>)
    ensures Prepend(s, Some(r)) == Some(s + r)
  {
  }

  lemma WalkFrameJumps(rest: seq<Sge>, nc: nat, frame: seq<Element>, area: seq<Element>, dma: nat, n: nat)
    requires nc >= 2 && n < |frame| && frame[n] == ChainTo(rest, nc, dma, 0)
    ensures WalkFrame(frame, area, dma, n) == WalkArea(area, 0)
  {
    hide WalkArea;
  }

  lemma WalkRequestJumps(s: seq<Sge>, rest: seq<Sge>, nc: nat, frame: seq<Element>, area: seq<Element>, dma: nat,
                         n: nat, sglBytes: nat)
    requires nc >= 2 && 0 < n < |frame| && frame[n] == ChainTo(rest, nc, dma, 0)
    requires Data(frame, 0, n, false) == Some(s) && WalkSegment(area, dma, frame[n]) == Some(rest)
    ensures sglBytes % 4 == 0 ==>
      WalkRequest(frame, area, dma, sglBytes, (sglBytes + n * ELEM_BYTES) / 4) == Some(s + rest)
  {
    hide Data, WalkSegment, SlotAt;
    if sglBytes % 4 == 0 {
      Words(sglBytes, n);
      SlotIs(sglBytes, n);
    }
  }

  lemma Words(sglBytes: nat, n: nat)
    requires sglBytes % 4 == 0
    ensures WORD * ((sglBytes + n * ELEM_BYTES) / 4) == sglBytes + n * ELEM_BYTES
  {
    var x, q := sglBytes + n * ELEM_BYTES, sglBytes / 4 + 3 * n;
    assert x == 4 * q;
    DivIs(x, 4, q, 0);
  }

  lemma FrameHead(sgl: seq<Sge>, ta: nat, nc: nat, dma: nat, frame: seq<Element>)
    requires ta >= 2 && nc >= 2 && |sgl| > ta && Holds(frame, 0, FrameLayout(sgl, ta, nc, dma))
    ensures Carries(frame, 0, sgl[..ta - 1])
    ensures ta <= |frame| && frame[ta - 1] == ChainTo(sgl[ta - 1..], nc, dma, 0)
    ensures Data(frame, 0, ta - 1, false) == Some(sgl[..ta - 1])
  {
    var es := FrameLayout(sgl, ta, nc, dma);
    assert forall q :: 0 <= q < ta ==> frame[q] == es[q];
    DataGivesList(frame, 0, sgl[..ta - 1], false, es);
  }

  // Whatever the two areas held before, both readers recover exactly the original list.
  lemma BuiltRequestWalks(sgl: seq<Sge>, ta: nat, nc: nat, dma: nat, frame: seq<Element>, area: seq<Element>,
                          sglBytes: nat)
    requires |sgl| >= 1 && ta >= 2 && nc >= 2
    requires Holds(frame, 0, FrameLayout(sgl, ta, nc, dma)) && Holds(area, 0, ChainLayout(sgl, ta, nc, dma))
    ensures WalkFrame(frame, area, dma, 0) == Some(sgl)
    ensures sglBytes % 4 == 0 ==>
      WalkRequest(frame, area, dma, sglBytes, ChainOffset(|sgl|, ta, sglBytes)) == Some(sgl)
  {
    if |sgl| <= ta {
      UnchainedRequestWalks(sgl, frame, area, dma);
      UnchainedRequestWalks(sgl, frame, [], dma);
    } else {
      ChainedRequestWalks(sgl, ta, nc, dma, frame, area, sglBytes);
    }
  }

  // One LAST_ELEMENT per segment, on its last data element; END_OF_LIST on the final element only.
  ghost predicate WellFlagged(es: seq<Element>, final: bool) {
    forall q :: 0 <= q < |es| ==> FlaggedAt(es, q, final)
  }

  ghost predicate FlaggedAt(es: seq<Element>, q: nat, final: bool)
    requires q < |es|
  {
    es[q].Simple? ==>
      && (es[q].last <==> q + 1 == |es| || es[q + 1].Chain?)
      && (es[q].end <==> final && q + 1 == |es|)
  }

  lemma {:induction false} AreaWellFlagged(rest: seq<Sge>, nc: nat, dma: nat, base: nat)
    requires |rest| >= 1 && nc >= 2
    ensures WellFlagged(Area(rest, nc, dma, base), true)
    ensures |Area(rest, nc, dma, base)| >= 1 && Area(rest, nc, dma, base)[0].Simple?
    decreases |rest|
  {
    hide Area;
    if |rest| <= nc {
      ShortArea(rest, nc, dma, base);
    } else {
      LongArea(rest, nc, dma, base);
      var es, tail := Area(rest, nc, dma, base), Area(rest[nc - 1..], nc, dma, base + nc);
      AreaWellFlagged(rest[nc - 1..], nc, dma, base + nc);
      forall q | nc <= q < |es|
        ensures FlaggedAt(es, q, true)
      {
        assert FlaggedAt(tail, q - nc, true);
        assert es[q] == es[nc..][q - nc] == tail[q - nc];
        assert q + 1 < |es| ==> es[q + 1] == es[nc..][q + 1 - nc] == tail[q + 1 - nc];
      }
    }
  }

  lemma BuiltRequestWellFlagged(sgl: seq<Sge>, ta: nat, nc: nat, dma: nat)
    requires |sgl| >= 1 && ta >= 2 && nc >= 2
    ensures WellFlagged(FrameLayout(sgl, ta, nc, dma), |sgl| <= ta)
    ensures WellFlagged(ChainLayout(sgl, ta, nc, dma), true)
  {
    if |sgl| > ta {
      AreaWellFlagged(sgl[ta - 1..], nc, dma, 0);
    }
  }

  // ---------------------------------------------------------------------------------------------
  // The size of the chain area

  // Chains(r, nc) is the ceiling of (r - nc) / (nc - 1).
  lemma {:induction false} ChainsBounds(r: nat, nc: nat)
    requires nc >= 2 && r > nc
    ensures (Chains(r, nc) - 1) * (nc - 1) < r - nc <= Chains(r, nc) * (nc - 1)
    decreases r
  {
    var m := nc - 1;
    if r - m > nc {
      ChainsBounds(r - m, nc);
      var c := Chains(r - m, nc);
      assert (c + 1) * m == c * m + m && (c - 1 + 1) * m == (c - 1) * m + m;
    } else {
      assert Chains(r, nc) == 1;
    }
  }

  lemma ProductMonotone(a: nat, b: nat, x: nat, y: nat)
    requires a <= x && b <= y
    ensures a * b <= x * y
  {
    assert a * b <= x * b <= x * y;
  }

  // sizeof(MPT_SGE), a u32 and a u64: a 64-bit kernel aligns the u64, a 32-bit one does not.
  const SGE_BYTES_64 := 16
  const SGE_BYTES_32 := 12

  // The chain area, NUM_SGES + NUM_CHAINS entries of so many bytes, holds the elements of n SGEs.
  ghost predicate AreaHolds(n: nat, ta: nat, nc: nat, entry: nat)
    requires ta >= 2 && nc >= 2
  {
    ChainSlots(n, ta, nc) * ELEM_BYTES <= (NUM_SGES + NUM_CHAINS) * entry
  }

  lemma ChainSlotsFit(n: nat, ta: nat, nc: nat)
    requires n <= NUM_SGES && ta >= 2 && nc >= 3
    ensures AreaHolds(n, ta, nc, SGE_BYTES_64)
    ensures nc >= 8 ==> AreaHolds(n, ta, nc, SGE_BYTES_32)
  {
    var r := n - (ta - 1);
    if n > ta && r > nc {
      ChainsBounds(r, nc);
      var c := Chains(r, nc);
      if c >= 34 {
        ProductMonotone(33, 2, c - 1, nc - 1);
      } else if c >= 9 && nc >= 8 {
        ProductMonotone(8, 7, c - 1, nc - 1);
      }
    }
  }

  // With the smallest request frame, the area is large enough for every list exactly when a segment
  // has three slots on a 64-bit kernel, and eight on a 32-bit one.
  lemma ChainAreaThreshold(nc: nat)
    requires nc >= 2
    ensures (forall n: nat :: n <= NUM_SGES ==> AreaHolds(n, 2, nc, SGE_BYTES_64)) <==> nc >= 3
    ensures (forall n: nat :: n <= NUM_SGES ==> AreaHolds(n, 2, nc, SGE_BYTES_32)) <==> nc >= 8
  {
    if nc >= 3 {
      forall n: nat | n <= NUM_SGES
        ensures AreaHolds(n, 2, nc, SGE_BYTES_64) && (nc >= 8 ==> AreaHolds(n, 2, nc, SGE_BYTES_32))
      {
        ChainSlotsFit(n, 2, nc);
      }
    }
    if nc < 8 {
      var c := Chains(63, nc);
      ChainsBounds(63, nc);
      if c <= 9 {
        ProductMonotone(c, nc - 1, 9, 6);
      }
      assert !AreaHolds(NUM_SGES, 2, nc, SGE_BYTES_32);
      assert nc == 2 ==> !AreaHolds(NUM_SGES, 2, nc, SGE_BYTES_64);
    }
  }
}

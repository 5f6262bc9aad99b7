// Scattered data buffers: a list of chunks and the flat byte string it stands for.
module Scatter {
  import opened Basics

  function Flat(chunks: seq<seq<byte>>): seq<byte> {
    if chunks == [] then [] else chunks[0] + Flat(chunks[1..])
  }

  // The chunks a walk with scst_get_buf_next can reach: a zero length reads as the end of the list.
  function Usable(chunks: seq<seq<byte>>): (us: seq<seq<byte>>)
    ensures us <= chunks && (forall i :: 0 <= i < |us| ==> us[i] != [])
    ensures |us| < |chunks| ==> chunks[|us|] == []
  {
    if chunks == [] || chunks[0] == [] then [] else [chunks[0]] + Usable(chunks[1..])
  }

  // Where chunk i starts in the flat buffer.
  function Start(chunks: seq<seq<byte>>, i: nat): nat
    requires i <= |chunks|
  {
    if i == 0 then 0 else Start(chunks, i - 1) + |chunks[i - 1]|
  }

  lemma {:induction false} StartOfTail(chunks: seq<seq<byte>>, i: nat)
    requires 1 <= i <= |chunks|
    ensures Start(chunks, i) == |chunks[0]| + Start(chunks[1..], i - 1)
  {
    if i > 1 {
      StartOfTail(chunks, i - 1);
    }
  }

  // Chunk i is the stretch of the flat buffer that begins at Start(chunks, i).
  lemma {:induction false} ChunkInFlat(chunks: seq<seq<byte>>, i: nat)
    requires i < |chunks|
    ensures Start(chunks, i + 1) <= |Flat(chunks)|
    ensures Flat(chunks)[Start(chunks, i)..Start(chunks, i + 1)] == chunks[i]
  {
    if i > 0 {
      StartOfTail(chunks, i);
      StartOfTail(chunks, i + 1);
      ChunkInFlat(chunks[1..], i - 1);
    }
  }

  lemma {:induction false} FlatLength(chunks: seq<seq<byte>>)
    ensures |Flat(chunks)| == Start(chunks, |chunks|)
  {
    if chunks != [] {
      FlatLength(chunks[1..]);
      StartOfTail(chunks, |chunks|);
    }
  }

  lemma {:induction false} StartMonotone(chunks: seq<seq<byte>>, i: nat, j: nat)
    requires i <= j <= |chunks|
    ensures Start(chunks, i) <= Start(chunks, j)
  {
    if i < j {
      StartMonotone(chunks, i, j - 1);
    }
  }
}

// The scull device of scull0/scull.c: a linked list of arrays of quanta that stores a sparse file.
module ScullStore {
  import opened Basics

  type Ptr = nat   // 0 is the null pointer

  // scull_qset and scull_quantum; both are 10 in the source, and nothing here depends on that.
  type Size = n: int | n > 0 witness 10

  const QSET: Size
  const QUANTUM: Size
  const SIZE: Size := Area(QSET, QUANTUM)   // scull.size

  const INT_MAX := 0x7fff_ffff

  // What vmalloc hands out.
  datatype Block = Node(next: Ptr, data: Ptr) | Table(quanta: seq<Ptr>) | Quantum(bytes: seq<byte>)
  type Heap = map<Ptr, Block>

  // How a read or write ends: with a count, -EINVAL, -EFAULT, -EAGAIN, or the use of a null pointer.
  datatype Status = Ok | Interrupted | Nothing | Again | Fault

  // ---------------------------------------------------------------------------------------------
  // Where a byte lives

  datatype Place = Place(index: nat, pos: nat, offset: nat)

  function Split(off: nat): (p: Place)
    ensures p.pos < QSET && p.offset < QUANTUM
  {
    var res := off % SIZE;
    PosInRange(res);
    Place(off / SIZE, res / QUANTUM, res % QUANTUM)
  }

  function Area(a: Size, b: Size): Size
  {
    MultipleBound(a, b);
    a * b
  }

  lemma PosInRange(res: nat)
    requires res < SIZE
    ensures 0 <= res / QUANTUM < QSET
  {
    var q, r := res / QUANTUM, res % QUANTUM;
    assert res == q * QUANTUM + r;
    Distributes(q, QSET, QUANTUM);
    MultipleBound(q - QSET, QUANTUM);
    MultipleBound(q, QUANTUM);
  }

  // Number of the quantum at (i, pos), counting from the start of the file.
  function QuantumNumber(i: nat, pos: nat): int { i * QSET + pos }

  function Join(p: Place): int { QuantumNumber(p.index, p.pos) * QUANTUM + p.offset }

  lemma JoinIs(p: Place)
    ensures Join(p) == p.index * SIZE + p.pos * QUANTUM + p.offset
    ensures Join(p) >= 0
  {
    Distributes(p.index * QSET, p.pos, QUANTUM);
    assert p.index * QSET * QUANTUM == p.index * (QSET * QUANTUM);
    NotNegative(p.index, SIZE);
    NotNegative(p.pos, QUANTUM);
  }

  lemma NotNegative(a: nat, b: nat)
    ensures a * b >= 0
  {
  }

  lemma WithinSize(pos: nat, offset: nat)
    requires pos < QSET && offset < QUANTUM
    ensures 0 <= pos * QUANTUM + offset < SIZE
  {
    NotNegative(pos, QUANTUM);
    Distributes(QSET, pos, QUANTUM);
    MultipleBound(QSET - pos, QUANTUM);
  }

  // The split is a bijection between the offsets and the places, whatever the two sizes are.
  lemma JoinSplit(p: Place)
    requires p.pos < QSET && p.offset < QUANTUM
    ensures Join(p) >= 0 && Split(Join(p)) == p && Join(p) / QUANTUM == QuantumNumber(p.index, p.pos)
  {
    JoinIs(p);
    WithinSize(p.pos, p.offset);
    DivIs(Join(p), SIZE, p.index, p.pos * QUANTUM + p.offset);
    DivIs(p.pos * QUANTUM + p.offset, QUANTUM, p.pos, p.offset);
    DivIs(Join(p), QUANTUM, QuantumNumber(p.index, p.pos), p.offset);
  }

  lemma SplitJoin(off: nat)
    ensures Join(Split(off)) == off
  {
    var q, res := off / SIZE, off % SIZE;
    assert off == q * SIZE + res;
    assert res == (res / QUANTUM) * QUANTUM + res % QUANTUM;
    JoinIs(Split(off));
  }

  // Offsets that differ by less than what is left of a quantum are in the same quantum.
  lemma SplitWithin(off: nat, k: nat)
    requires Split(off).offset + k < QUANTUM
    ensures Split(off + k) == Split(off).(offset := Split(off).offset + k)
    ensures (off + k) / QUANTUM == off / QUANTUM
  {
    hide Split;
    var p := Split(off);
    SplitJoin(off);
    JoinSplit(p);
    JoinSplit(p.(offset := p.offset + k));
  }

  lemma SameQuantum(a: nat, b: nat)
    ensures a / QUANTUM == b / QUANTUM <==> Split(a).index == Split(b).index && Split(a).pos == Split(b).pos
  {
    hide Split;
    var p, q := Split(a), Split(b);
    SplitJoin(a);
    SplitJoin(b);
    JoinSplit(p);
    JoinSplit(q);
    DivIs(QuantumNumber(p.index, p.pos), QSET, p.index, p.pos);
    DivIs(QuantumNumber(q.index, q.pos), QSET, q.index, q.pos);
  }

  // ---------------------------------------------------------------------------------------------
  // The structure in memory

  // What a block of the device is used for.
  datatype Role = NodeAt(i: nat) | TableOf(i: nat) | QuantumOf(i: nat, pos: nat)

  // Memory, the device's list nodes in order, and the role of each of the device's blocks.
  datatype Store = Store(heap: Heap, nodes: seq<Ptr>, owner: map<Ptr, Role>)

  function NextOf(nodes: seq<Ptr>, i: nat): Ptr { if i < |nodes| then nodes[i] else 0 }

  ghost predicate QuantumOk(h: Heap, owner: map<Ptr, Role>, i: nat, pos: nat, p: Ptr) {
    p != 0 ==> p in h && h[p].Quantum? && |h[p].bytes| == QUANTUM && p in owner && owner[p] == QuantumOf(i, pos)
  }

  ghost predicate TableOk(h: Heap, owner: map<Ptr, Role>, i: nat, t: Ptr) {
    t != 0 ==>
      && t in h && h[t].Table? && |h[t].quanta| == QSET && t in owner && owner[t] == TableOf(i)
      && forall pos :: 0 <= pos < QSET ==> QuantumOk(h, owner, i, pos, h[t].quanta[pos])
  }

  ghost predicate NodeOk(s: Store, i: nat)
    requires i < |s.nodes|
  {
    var p := s.nodes[i];
    && p != 0 && p in s.heap && s.heap[p].Node? && s.heap[p].next == NextOf(s.nodes, i + 1)
    && p in s.owner && s.owner[p] == NodeAt(i)
    && TableOk(s.heap, s.owner, i, s.heap[p].data)
  }

  // The table of node i, and the quantum at (i, pos); 0 where there is none.
  function TableAt(s: Store, i: nat): Ptr {
    if i < |s.nodes| && s.nodes[i] in s.heap && s.heap[s.nodes[i]].Node? then s.heap[s.nodes[i]].data else 0
  }

  function QuantumAt(s: Store, i: nat, pos: nat): Ptr {
    var t := TableAt(s, i);
    if t in s.heap && s.heap[t].Table? && pos < |s.heap[t].quanta| then s.heap[t].quanta[pos] else 0
  }

  // A block with a role is where its role says.
  ghost predicate InPlace(s: Store, p: Ptr)
    requires p in s.owner
  {
    p in s.heap && p != 0 &&
    match s.owner[p]
    case NodeAt(i) => i < |s.nodes| && s.nodes[i] == p
    case TableOf(i) => i < |s.nodes| && TableAt(s, i) == p
    case QuantumOf(i, pos) => i < |s.nodes| && pos < QSET && QuantumAt(s, i, pos) == p
  }

  // The list is well linked, and exactly the blocks reachable from it have a role.
  ghost predicate Formed(s: Store) {
    && 0 !in s.heap
    && (forall i :: 0 <= i < |s.nodes| ==> NodeOk(s, i))
    && (forall p :: p in s.owner ==> InPlace(s, p))
  }

  // ---------------------------------------------------------------------------------------------
  // What the structure means: a sparse byte store

  function ByteIn(h: Heap, q: Ptr, offset: nat): Option<byte> {
    if q in h && h[q].Quantum? && offset < |h[q].bytes| then Some(h[q].bytes[offset]) else None
  }

  function ByteAt(s: Store, off: nat): Option<byte> {
    var p := Split(off);
    ByteIn(s.heap, QuantumAt(s, p.index, p.pos), p.offset)
  }

  ghost function Contents(s: Store): imap<nat, byte> {
    imap off: nat | ByteAt(s, off).Some? :: ByteAt(s, off).value
  }

  // Everything in memory that is not the device's.
  function Foreign(s: Store): Heap { s.heap - s.owner.Keys }

  // Two stores with the same bytes everywhere hold the same contents.
  lemma SameContents(s: Store, t: Store)
    requires forall off: nat :: ByteAt(t, off) == ByteAt(s, off)
    ensures Contents(t) == Contents(s)
  {
  }

  // ---------------------------------------------------------------------------------------------
  // The four changes the code makes

  // Follow links a zeroed node at the end of the list.
  function AppendNode(s: Store, p: Ptr): Store
    requires |s.nodes| > 0 ==> s.nodes[|s.nodes| - 1] in s.heap && s.heap[s.nodes[|s.nodes| - 1]].Node?
  {
    var h := s.heap[p := Node(0, 0)];
    var n := |s.nodes|;
    var linked := if n == 0 || s.nodes[n - 1] == p then h else h[s.nodes[n - 1] := h[s.nodes[n - 1]].(next := p)];
    Store(linked, s.nodes + [p], s.owner[p := NodeAt(n)])
  }

  // Write gives node i a zeroed table,
  function AddTable(s: Store, i: nat, t: Ptr): Store
    requires i < |s.nodes| && s.nodes[i] in s.heap && s.heap[s.nodes[i]].Node?
  {
    var n := s.heap[s.nodes[i]];
    Store(s.heap[t := Table(seq(QSET, _ => 0))][s.nodes[i] := n.(data := t)], s.nodes, s.owner[t := TableOf(i)])
  }

  // a zeroed quantum,
  function AddQuantum(s: Store, i: nat, pos: nat, q: Ptr): Store
    requires var t := TableAt(s, i); t in s.heap && s.heap[t].Table? && pos < |s.heap[t].quanta|
  {
    var t := TableAt(s, i);
    var b := s.heap[t];
    Store(s.heap[q := Quantum(seq(QUANTUM, _ => 0))][t := b.(quanta := b.quanta[pos := q])], s.nodes,
          s.owner[q := QuantumOf(i, pos)])
  }

  // and new bytes in that quantum.
  function PutBytes(s: Store, q: Ptr, offset: nat, d: seq<byte>): Store
    requires q in s.heap && s.heap[q].Quantum? && offset + |d| <= |s.heap[q].bytes|
  {
    var b := s.heap[q].bytes;
    s.(heap := s.heap[q := Quantum(b[..offset] + d + b[offset + |d|..])])
  }

  // ---------------------------------------------------------------------------------------------
  // Each of them keeps the structure well formed

  // Nothing under a table changes while h grows or changes only elsewhere.
  lemma TableFrame(h: Heap, k: Heap, owner: map<Ptr, Role>, own: map<Ptr, Role>, i: nat, t: Ptr)
    requires TableOk(h, owner, i, t)
    requires forall p :: p in owner ==> p in own && own[p] == owner[p]
    requires forall p ::
      p in h && p in owner && (owner[p] == TableOf(i) || (owner[p].QuantumOf? && owner[p].i == i)) ==>
        p in k && k[p] == h[p]
    ensures TableOk(k, own, i, t)
  {
    if t != 0 {
      forall pos | 0 <= pos < QSET ensures QuantumOk(k, own, i, pos, k[t].quanta[pos]) {
        assert QuantumOk(h, owner, i, pos, h[t].quanta[pos]);
      }
    }
  }

  // A new address plays no part in the structure yet.
  lemma NewIsUnowned(s: Store, p: Ptr)
    requires Formed(s) && p !in s.heap
    ensures p !in s.owner && p !in s.nodes
  {
    assert p in s.owner ==> InPlace(s, p);
    forall i | 0 <= i < |s.nodes| ensures s.nodes[i] != p { assert NodeOk(s, i); }
  }

  lemma AppendKeepsNode(s: Store, p: Ptr, i: nat)
    requires Formed(s) && p !in s.heap && p != 0 && i <= |s.nodes|
    requires |s.nodes| > 0 ==> NodeOk(s, |s.nodes| - 1)
    ensures NodeOk(AppendNode(s, p), i)
  {
    NewIsUnowned(s, p);
    var r := AppendNode(s, p);
    if i < |s.nodes| {
      assert NodeOk(s, i);
      TableFrame(s.heap, r.heap, s.owner, r.owner, i, s.heap[s.nodes[i]].data);
    }
  }

  lemma AppendTables(s: Store, p: Ptr, i: nat, pos: nat)
    requires Formed(s) && p !in s.heap && p != 0
    requires |s.nodes| > 0 ==> NodeOk(s, |s.nodes| - 1)
    ensures TableAt(AppendNode(s, p), i) == TableAt(s, i)
    ensures QuantumAt(AppendNode(s, p), i, pos) == QuantumAt(s, i, pos)
  {
    NewIsUnowned(s, p);
    if i < |s.nodes| { assert NodeOk(s, i); }
  }

  lemma AppendKeepsFormed(s: Store, p: Ptr)
    requires Formed(s) && p !in s.heap && p != 0
    ensures |s.nodes| > 0 ==> NodeOk(s, |s.nodes| - 1)
    ensures Formed(AppendNode(s, p))
  {
    assert |s.nodes| > 0 ==> NodeOk(s, |s.nodes| - 1);
    NewIsUnowned(s, p);
    var r := AppendNode(s, p);
    forall i | 0 <= i < |r.nodes| ensures NodeOk(r, i) { AppendKeepsNode(s, p, i); }
    forall x | x in r.owner ensures InPlace(r, x) {
      if x != p {
        assert InPlace(s, x);
        match s.owner[x] {
          case NodeAt(i) =>
          case TableOf(i) => AppendTables(s, p, i, 0);
          case QuantumOf(i, pos) => AppendTables(s, p, i, pos);
        }
      }
    }
  }

  // Reading the quantum pointers of a well formed store.
  lemma TableHeld(s: Store, i: nat)
    requires Formed(s)
    ensures i < |s.nodes| ==> NodeOk(s, i)
    ensures TableOk(s.heap, s.owner, i, TableAt(s, i))
  {
  }

  lemma QuantumHeld(s: Store, i: nat, pos: nat)
    requires Formed(s)
    ensures QuantumOk(s.heap, s.owner, i, pos, QuantumAt(s, i, pos))
  {
    TableHeld(s, i);
  }

  lemma NodesDiffer(s: Store, i: nat, k: nat)
    requires Formed(s) && i < |s.nodes| && k < |s.nodes| && i != k
    ensures s.nodes[i] != s.nodes[k]
  {
    TableHeld(s, i);
    TableHeld(s, k);
  }

  lemma AddTableNode(s: Store, i: nat, t: Ptr, k: nat)
    requires Formed(s) && i < |s.nodes| && NodeOk(s, i) && TableAt(s, i) == 0 && t !in s.heap && t != 0
    requires k < |s.nodes|
    ensures NodeOk(AddTable(s, i, t), k)
  {
    NewIsUnowned(s, t);
    TableHeld(s, k);
    var r := AddTable(s, i, t);
    if k != i {
      NodesDiffer(s, i, k);
      TableFrame(s.heap, r.heap, s.owner, r.owner, k, s.heap[s.nodes[k]].data);
    }
  }

  lemma AddTableTables(s: Store, i: nat, t: Ptr, k: nat, pos: nat)
    requires Formed(s) && i < |s.nodes| && NodeOk(s, i) && TableAt(s, i) == 0 && t !in s.heap && t != 0
    ensures k != i ==> TableAt(AddTable(s, i, t), k) == TableAt(s, k)
    ensures QuantumAt(AddTable(s, i, t), k, pos) == QuantumAt(s, k, pos)
  {
    NewIsUnowned(s, t);
    TableHeld(s, k);
    if k != i && k < |s.nodes| { NodesDiffer(s, i, k); }
  }

  lemma AddTableKeepsFormed(s: Store, i: nat, t: Ptr)
    requires Formed(s) && i < |s.nodes| && NodeOk(s, i) && TableAt(s, i) == 0 && t !in s.heap && t != 0
    ensures Formed(AddTable(s, i, t)) && TableAt(AddTable(s, i, t), i) == t
  {
    NewIsUnowned(s, t);
    var r := AddTable(s, i, t);
    forall k | 0 <= k < |r.nodes| ensures NodeOk(r, k) { AddTableNode(s, i, t, k); }
    forall x | x in r.owner ensures InPlace(r, x) {
      if x != t {
        assert InPlace(s, x);
        match s.owner[x] {
          case NodeAt(k) =>
          case TableOf(k) => AddTableTables(s, i, t, k, 0);
          case QuantumOf(k, pos) => AddTableTables(s, i, t, k, pos);
        }
      }
    }
  }

  // Node i has a table with no quantum at pos.
  ghost predicate Lacks(s: Store, i: nat, pos: nat, q: Ptr) {
    && Formed(s) && i < |s.nodes| && pos < QSET && q !in s.heap && q != 0
    && TableAt(s, i) != 0 && QuantumAt(s, i, pos) == 0
    && TableOk(s.heap, s.owner, i, TableAt(s, i))
  }

  lemma AddQuantumNode(s: Store, i: nat, pos: nat, q: Ptr, k: nat)
    requires Lacks(s, i, pos, q) && k < |s.nodes|
    ensures NodeOk(AddQuantum(s, i, pos, q), k)
  {
    NewIsUnowned(s, q);
    TableHeld(s, k);
    var r := AddQuantum(s, i, pos, q);
    if k != i {
      TableFrame(s.heap, r.heap, s.owner, r.owner, k, s.heap[s.nodes[k]].data);
    } else {
      var t := TableAt(s, i);
      forall j | 0 <= j < QSET ensures QuantumOk(r.heap, r.owner, i, j, r.heap[t].quanta[j]) {
        assert QuantumOk(s.heap, s.owner, i, j, s.heap[t].quanta[j]);
      }
    }
  }

  lemma AddQuantumQuanta(s: Store, i: nat, pos: nat, q: Ptr, k: nat, j: nat)
    requires Lacks(s, i, pos, q)
    ensures TableAt(AddQuantum(s, i, pos, q), k) == TableAt(s, k)
    ensures QuantumAt(AddQuantum(s, i, pos, q), k, j) == if k == i && j == pos then q else QuantumAt(s, k, j)
  {
    NewIsUnowned(s, q);
    TableHeld(s, k);
    TableHeld(s, i);
  }

  lemma AddQuantumKeepsFormed(s: Store, i: nat, pos: nat, q: Ptr)
    requires Lacks(s, i, pos, q)
    ensures Formed(AddQuantum(s, i, pos, q)) && QuantumAt(AddQuantum(s, i, pos, q), i, pos) == q
  {
    NewIsUnowned(s, q);
    var r := AddQuantum(s, i, pos, q);
    forall k | 0 <= k < |r.nodes| ensures NodeOk(r, k) { AddQuantumNode(s, i, pos, q, k); }
    AddQuantumQuanta(s, i, pos, q, i, pos);
    forall x | x in r.owner ensures InPlace(r, x) {
      if x != q {
        assert InPlace(s, x);
        match s.owner[x] {
          case NodeAt(k) =>
          case TableOf(k) => AddQuantumQuanta(s, i, pos, q, k, 0);
          case QuantumOf(k, j) => AddQuantumQuanta(s, i, pos, q, k, j);
        }
      }
    }
  }

  // The quantum at (i, pos) has room for d at offset.
  ghost predicate Fits(s: Store, i: nat, pos: nat, offset: nat, d: seq<byte>) {
    Formed(s) && i < |s.nodes| && pos < QSET && offset + |d| <= QUANTUM && QuantumAt(s, i, pos) != 0 &&
    QuantumOk(s.heap, s.owner, i, pos, QuantumAt(s, i, pos))
  }

  lemma PutBytesNode(s: Store, i: nat, pos: nat, offset: nat, d: seq<byte>, k: nat)
    requires Fits(s, i, pos, offset, d) && k < |s.nodes|
    ensures NodeOk(PutBytes(s, QuantumAt(s, i, pos), offset, d), k)
  {
    var q := QuantumAt(s, i, pos);
    var r := PutBytes(s, q, offset, d);
    TableHeld(s, k);
    var t := TableAt(s, k);
    if t != 0 {
      forall j | 0 <= j < QSET ensures QuantumOk(r.heap, r.owner, k, j, r.heap[t].quanta[j]) {
        assert QuantumOk(s.heap, s.owner, k, j, s.heap[t].quanta[j]);
      }
    }
  }

  lemma PutBytesQuanta(s: Store, i: nat, pos: nat, offset: nat, d: seq<byte>, k: nat, j: nat)
    requires Fits(s, i, pos, offset, d)
    ensures TableAt(PutBytes(s, QuantumAt(s, i, pos), offset, d), k) == TableAt(s, k)
    ensures QuantumAt(PutBytes(s, QuantumAt(s, i, pos), offset, d), k, j) == QuantumAt(s, k, j)
  {
    TableHeld(s, k);
  }

  lemma PutBytesKeepsFormed(s: Store, i: nat, pos: nat, offset: nat, d: seq<byte>)
    requires Fits(s, i, pos, offset, d)
    ensures Formed(PutBytes(s, QuantumAt(s, i, pos), offset, d))
  {
    var r := PutBytes(s, QuantumAt(s, i, pos), offset, d);
    forall k | 0 <= k < |r.nodes| ensures NodeOk(r, k) { PutBytesNode(s, i, pos, offset, d, k); }
    forall x | x in r.owner ensures InPlace(r, x) {
      assert InPlace(s, x);
      match s.owner[x] {
        case NodeAt(k) =>
        case TableOf(k) => PutBytesQuanta(s, i, pos, offset, d, k, 0);
        case QuantumOf(k, j) => PutBytesQuanta(s, i, pos, offset, d, k, j);
      }
    }
  }

  // ---------------------------------------------------------------------------------------------
  // What each of them does to the contents

  lemma AppendKeepsBytes(s: Store, p: Ptr)
    requires Formed(s) && p !in s.heap && p != 0
    ensures |s.nodes| > 0 ==> NodeOk(s, |s.nodes| - 1)
    ensures Contents(AppendNode(s, p)) == Contents(s) && Foreign(AppendNode(s, p)) == Foreign(s)
  {
    hide Split;
    assert |s.nodes| > 0 ==> NodeOk(s, |s.nodes| - 1);
    NewIsUnowned(s, p);
    var r := AppendNode(s, p);
    forall off: nat ensures ByteAt(r, off) == ByteAt(s, off) {
      var a := Split(off);
      AppendTables(s, p, a.index, a.pos);
      QuantumHeld(s, a.index, a.pos);
    }
    SameContents(s, r);
  }

  lemma AddTableKeepsBytes(s: Store, i: nat, t: Ptr)
    requires Formed(s) && i < |s.nodes| && NodeOk(s, i) && TableAt(s, i) == 0 && t !in s.heap && t != 0
    ensures Contents(AddTable(s, i, t)) == Contents(s) && Foreign(AddTable(s, i, t)) == Foreign(s)
  {
    hide Split;
    NewIsUnowned(s, t);
    var r := AddTable(s, i, t);
    forall off: nat ensures ByteAt(r, off) == ByteAt(s, off) {
      var a := Split(off);
      AddTableTables(s, i, t, a.index, a.pos);
      QuantumHeld(s, a.index, a.pos);
    }
    SameContents(s, r);
  }

  lemma AddQuantumByte(s: Store, i: nat, pos: nat, q: Ptr, off: nat)
    requires Lacks(s, i, pos, q)
    ensures ByteAt(AddQuantum(s, i, pos, q), off) ==
      if Split(off).index == i && Split(off).pos == pos then Some(0) else ByteAt(s, off)
  {
    hide Split;
    NewIsUnowned(s, q);
    var a := Split(off);
    AddQuantumQuanta(s, i, pos, q, a.index, a.pos);
    QuantumHeld(s, a.index, a.pos);
  }

  lemma PutByte(s: Store, i: nat, pos: nat, offset: nat, d: seq<byte>, off: nat)
    requires Fits(s, i, pos, offset, d)
    ensures var a := Split(off);
      ByteAt(PutBytes(s, QuantumAt(s, i, pos), offset, d), off) ==
      if a.index == i && a.pos == pos && offset <= a.offset < offset + |d| then Some(d[a.offset - offset])
      else ByteAt(s, off)
  {
    hide Split;
    var a := Split(off);
    PutBytesQuanta(s, i, pos, offset, d, a.index, a.pos);
    QuantumHeld(s, a.index, a.pos);
  }

  // ---------------------------------------------------------------------------------------------
  // Flat writes and reads of the sparse store

  // Offset x lies in a quantum that a write of n bytes at off reaches; even an empty write reaches one.
  predicate Touched(off: nat, n: nat, x: nat) {
    off / QUANTUM <= x / QUANTUM <= (if n == 0 then off else off + n - 1) / QUANTUM
  }

  // One write of all of d at off, with zeroes in the rest of the quanta it brings into being.
  ghost function FlatWrite(c: imap<nat, byte>, off: nat, d: seq<byte>): imap<nat, byte> {
    imap x: nat | x in c || Touched(off, |d|, x) ::
      if off <= x < off + |d| then d[x - off] else if x in c then c[x] else 0
  }

  // The bytes one call moves.
  function Share(off: nat, len: nat): nat { Min(len, QUANTUM - Split(off).offset) }

  // n bytes from off are all of the request, or what is left of the quantum that off is in.
  ghost predicate AllOrRest(off: nat, len: nat, n: nat) {
    n <= len && off % QUANTUM + n <= QUANTUM && (n == len || (off + n) % QUANTUM == 0)
  }

  lemma ShareIsMost(off: nat, len: nat)
    ensures AllOrRest(off, len, Share(off, len)) && (len > 0 ==> Share(off, len) > 0)
  {
    hide Split;
    var p, n := Split(off), Share(off, len);
    SplitJoin(off);
    var q := QuantumNumber(p.index, p.pos);
    DivIs(off, QUANTUM, q, p.offset);
    if n < len {
      Distributes(q, 1, QUANTUM);
      DivIs(off + n, QUANTUM, q + 1, 0);
    }
  }

  ghost function ByteOr0(c: imap<nat, byte>, x: nat): byte { if x in c then c[x] else 0 }

  ghost function Slice(c: imap<nat, byte>, off: nat, n: nat): seq<byte> { seq(n, (k: nat) => ByteOr0(c, off + k)) }

  lemma SliceAt(c: imap<nat, byte>, off: nat, n: nat, k: nat)
    requires k < n
    ensures |Slice(c, off, n)| == n && Slice(c, off, n)[k] == ByteOr0(c, off + k)
  {
  }

  // One read: nothing at an offset whose quantum is missing, else what is left of that quantum.
  ghost function ReadAt(c: imap<nat, byte>, off: nat, len: nat): Option<seq<byte>> {
    if off in c then Some(Slice(c, off, Share(off, len))) else None
  }

  // A caller that keeps writing until everything is out, and one that keeps reading.
  ghost function Writes(c: imap<nat, byte>, off: nat, d: seq<byte>): imap<nat, byte>
    decreases |d|
  {
    if d == [] then c
    else
      var n := Share(off, |d|);
      Writes(FlatWrite(c, off, d[..n]), off + n, d[n..])
  }

  ghost function Reads(c: imap<nat, byte>, off: nat, len: nat): Option<seq<byte>>
    decreases len
  {
    if len == 0 then Some([])
    else if ReadAt(c, off, len) == None then None
    else
      var b := ReadAt(c, off, len).value;
      var rest := Reads(c, off + |b|, len - |b|);
      if rest == None then None else Some(b + rest.value)
  }

  lemma TouchedJoin(off: nat, n: nat, m: nat, x: nat)
    requires n > 0 && m > 0
    ensures Touched(off, n + m, x) <==> Touched(off, n, x) || Touched(off + n, m, x)
  {
    NextQuantum(off + n - 1);
    QuantumMonotone(off, off + n - 1);
    QuantumMonotone(off + n, off + n + m - 1);
  }

  lemma NextQuantum(x: nat)
    ensures x / QUANTUM <= (x + 1) / QUANTUM <= x / QUANTUM + 1
  {
    var q, r := x / QUANTUM, x % QUANTUM;
    assert x == q * QUANTUM + r;
    if r + 1 < QUANTUM {
      DivIs(x + 1, QUANTUM, q, r + 1);
    } else {
      Distributes(q, 1, QUANTUM);
      DivIs(x + 1, QUANTUM, q + 1, 0);
    }
  }

  lemma QuantumMonotone(x: nat, y: nat)
    requires x <= y
    ensures x / QUANTUM <= y / QUANTUM
  {
    var p, q := x / QUANTUM, y / QUANTUM;
    assert x == p * QUANTUM + x % QUANTUM;
    assert y == q * QUANTUM + y % QUANTUM;
    Distributes(p, q, QUANTUM);
    MultipleBound(p - q, QUANTUM);
  }

  lemma FlatByte(c: imap<nat, byte>, off: nat, d: seq<byte>, x: nat)
    ensures var w := FlatWrite(c, off, d);
      && (x in w <==> x in c || Touched(off, |d|, x))
      && (x in w ==> w[x] == if off <= x < off + |d| then d[x - off] else ByteOr0(c, x))
  {
  }

  // Two adjacent writes are one.
  lemma WriteOn(c: imap<nat, byte>, off: nat, d: seq<byte>, n: nat)
    requires 0 < n < |d|
    ensures FlatWrite(FlatWrite(c, off, d[..n]), off + n, d[n..]) == FlatWrite(c, off, d)
  {
    hide FlatWrite, Touched;
    var b := FlatWrite(c, off, d[..n]);
    var l, r := FlatWrite(b, off + n, d[n..]), FlatWrite(c, off, d);
    forall x: nat ensures (x in l <==> x in r) && (x in r ==> l[x] == r[x]) {
      TouchedJoin(off, n, |d| - n, x);
      if off <= x < off + n { InTouched(off, n, x); }
      FlatByte(c, off, d[..n], x);
      FlatByte(b, off + n, d[n..], x);
      FlatByte(c, off, d, x);
    }
  }

  // However short each write is, writing on until done is one flat write.
  lemma {:induction false} RepeatedWrites(c: imap<nat, byte>, off: nat, d: seq<byte>)
    requires d != []
    ensures Writes(c, off, d) == FlatWrite(c, off, d)
    decreases |d|
  {
    hide FlatWrite, Split;
    var n := Share(off, |d|);
    if n < |d| {
      RepeatedWrites(FlatWrite(c, off, d[..n]), off + n, d[n..]);
      WriteOn(c, off, d, n);
    } else {
      assert d[..n] == d;
    }
  }

  // A quantum is there as a whole or not at all.
  ghost predicate Granular(c: imap<nat, byte>) {
    forall x: nat, y: nat :: x in c && x / QUANTUM == y / QUANTUM ==> y in c
  }

  lemma WriteKeepsGranular(c: imap<nat, byte>, off: nat, d: seq<byte>)
    requires Granular(c)
    ensures Granular(FlatWrite(c, off, d))
  {
  }

  ghost predicate Present(c: imap<nat, byte>, off: nat, n: nat) {
    forall x: nat :: off <= x < off + n ==> x in c
  }

  lemma ShareIsPresent(c: imap<nat, byte>, off: nat, n: nat)
    requires Granular(c) && off in c
    ensures Present(c, off, Share(off, n))
  {
    hide Split;
    forall x: nat | off <= x < off + Share(off, n) ensures x in c {
      SplitWithin(off, x - off);
    }
  }

  // Reading on gives exactly the bytes asked for when all of them are there, and nothing otherwise.
  lemma {:induction false} RepeatedReads(c: imap<nat, byte>, off: nat, n: nat)
    requires Granular(c)
    ensures Reads(c, off, n) == if Present(c, off, n) then Some(Slice(c, off, n)) else None
    decreases n
  {
    hide Split, Granular;
    if n > 0 && off in c {
      var k := Share(off, n);
      ShareIsPresent(c, off, n);
      RepeatedReads(c, off + k, n - k);
      assert Present(c, off, n) <==> Present(c, off + k, n - k);
      assert Slice(c, off, n) == Slice(c, off, k) + Slice(c, off + k, n - k);
    } else if n > 0 {
      assert off <= off < off + n;
    } else {
      assert Slice(c, off, n) == [];
    }
  }

  lemma WrittenByte(c: imap<nat, byte>, off: nat, d: seq<byte>, k: nat)
    requires k < |d|
    ensures off + k in FlatWrite(c, off, d) && FlatWrite(c, off, d)[off + k] == d[k]
  {
    InTouched(off, |d|, off + k);
    FlatByte(c, off, d, off + k);
  }

  // Round trip: short writes until done, then short reads until done, give the bytes back; every other
  // byte of the store is as it was.
  lemma WritesReadBack(c: imap<nat, byte>, off: nat, d: seq<byte>)
    requires Granular(c) && d != []
    ensures Reads(Writes(c, off, d), off, |d|) == Some(d)
    ensures forall x: nat :: !(off <= x < off + |d|) && (x in c || x in Writes(c, off, d)) ==>
      x in Writes(c, off, d) && Writes(c, off, d)[x] == ByteOr0(c, x)
  {
    hide Touched, FlatWrite, Writes, Reads, Granular;
    RepeatedWrites(c, off, d);
    WriteKeepsGranular(c, off, d);
    var w := FlatWrite(c, off, d);
    RepeatedReads(w, off, |d|);
    forall x: nat | off <= x < off + |d| ensures x in w { WrittenByte(c, off, d, x - off); }
    forall k: nat | k < |d| ensures Slice(w, off, |d|)[k] == d[k] {
      SliceAt(w, off, |d|, k);
      WrittenByte(c, off, d, k);
    }
    assert Slice(w, off, |d|) == d;
    forall x: nat | !(off <= x < off + |d|) && (x in c || x in w) ensures x in w && w[x] == ByteOr0(c, x) {
      FlatByte(c, off, d, x);
    }
  }

  lemma InTouched(off: nat, n: nat, x: nat)
    requires off <= x < off + n
    ensures Touched(off, n, x)
  {
    QuantumMonotone(off, x);
    QuantumMonotone(x, off + n - 1);
  }

  lemma ContentsGranular(s: Store)
    requires Formed(s)
    ensures Granular(Contents(s))
  {
    hide Split;
    var c := Contents(s);
    forall x: nat, y: nat | x in c && x / QUANTUM == y / QUANTUM ensures y in c {
      SameQuantum(x, y);
      QuantumHeld(s, Split(x).index, Split(x).pos);
    }
  }

  // ---------------------------------------------------------------------------------------------
  // Writing, in terms of contents

  // The quantum a write needs is there once it is allocated; the rest of it reads as zeroes.
  lemma AddQuantumIsEmptyWrite(s: Store, off: nat, q: Ptr)
    requires Lacks(s, Split(off).index, Split(off).pos, q)
    ensures Contents(AddQuantum(s, Split(off).index, Split(off).pos, q)) == FlatWrite(Contents(s), off, [])
    ensures Foreign(AddQuantum(s, Split(off).index, Split(off).pos, q)) == Foreign(s)
  {
    hide Split;
    var a := Split(off);
    var r := AddQuantum(s, a.index, a.pos, q);
    AddQuantumForeign(s, a.index, a.pos, q);
    forall x: nat ensures ByteAt(r, x) == if x / QUANTUM == off / QUANTUM then Some(0) else ByteAt(s, x) {
      hide QuantumAt, ByteIn;
      AddQuantumByte(s, a.index, a.pos, q, x);
      SameQuantum(x, off);
    }
    forall x: nat | x / QUANTUM == off / QUANTUM ensures ByteAt(s, x) == None {
      MissingByte(s, off, x);
    }
    ZeroedIsEmptyWrite(s, r, off);
  }

  lemma AddQuantumForeign(s: Store, i: nat, pos: nat, q: Ptr)
    requires Lacks(s, i, pos, q)
    ensures Foreign(AddQuantum(s, i, pos, q)) == Foreign(s)
  {
    NewIsUnowned(s, q);
  }

  lemma MissingByte(s: Store, off: nat, x: nat)
    requires 0 !in s.heap && QuantumAt(s, Split(off).index, Split(off).pos) == 0 && x / QUANTUM == off / QUANTUM
    ensures ByteAt(s, x) == None
  {
    hide Split, QuantumAt;
    SameQuantum(x, off);
  }

  lemma ZeroedIsEmptyWrite(s: Store, r: Store, off: nat)
    requires forall x: nat :: ByteAt(r, x) == if x / QUANTUM == off / QUANTUM then Some(0) else ByteAt(s, x)
    requires forall x: nat :: x / QUANTUM == off / QUANTUM ==> ByteAt(s, x) == None
    ensures Contents(r) == FlatWrite(Contents(s), off, [])
  {
    hide ByteAt;
  }

  lemma PresentIsEmptyWrite(s: Store, off: nat)
    requires Formed(s) && QuantumAt(s, Split(off).index, Split(off).pos) != 0
    ensures Contents(s) == FlatWrite(Contents(s), off, [])
  {
    hide Split;
    var a := Split(off);
    QuantumHeld(s, a.index, a.pos);
    forall x: nat | x / QUANTUM == off / QUANTUM ensures ByteAt(s, x).Some? {
      SameQuantum(x, off);
    }
  }

  // Position x is k bytes past off and in its quantum, or the other way round.
  lemma InRange(off: nat, n: nat, x: nat)
    requires Split(off).offset + n <= QUANTUM
    ensures off <= x < off + n <==>
      Split(x).index == Split(off).index && Split(x).pos == Split(off).pos &&
      Split(off).offset <= Split(x).offset < Split(off).offset + n
    ensures off <= x < off + n ==> Split(x).offset - Split(off).offset == x - off
  {
    hide Split;
    SplitJoin(off);
    SplitJoin(x);
    if off <= x < off + n { SplitWithin(off, x - off); }
  }

  lemma PutBytesIsWrite(s: Store, off: nat, d: seq<byte>)
    requires Fits(s, Split(off).index, Split(off).pos, Split(off).offset, d)
    ensures var q := QuantumAt(s, Split(off).index, Split(off).pos);
      && Contents(PutBytes(s, q, Split(off).offset, d)) == FlatWrite(Contents(s), off, d)
      && Foreign(PutBytes(s, q, Split(off).offset, d)) == Foreign(s)
  {
    hide Split, FlatWrite, Touched, QuantumAt, ByteAt, Formed;
    var a := Split(off);
    var q := QuantumAt(s, a.index, a.pos);
    var r := PutBytes(s, q, a.offset, d);
    PutBytesForeign(s, q, a.offset, d);
    var c, w := Contents(s), FlatWrite(Contents(s), off, d);
    forall x: nat ensures (x in Contents(r) <==> x in w) && (x in w ==> Contents(r)[x] == w[x]) {
      PutByteInRange(s, off, d, x);
      TouchedIsThere(s, off, d, x);
      FlatByte(c, off, d, x);
      if off <= x < off + |d| { InTouched(off, |d|, x); }
    }
  }

  lemma PutBytesForeign(s: Store, q: Ptr, offset: nat, d: seq<byte>)
    requires q in s.heap && s.heap[q].Quantum? && offset + |d| <= |s.heap[q].bytes| && q in s.owner
    ensures Foreign(PutBytes(s, q, offset, d)) == Foreign(s)
  {
  }

  lemma PutByteInRange(s: Store, off: nat, d: seq<byte>, x: nat)
    requires Fits(s, Split(off).index, Split(off).pos, Split(off).offset, d)
    ensures ByteAt(PutBytes(s, QuantumAt(s, Split(off).index, Split(off).pos), Split(off).offset, d), x) ==
      if off <= x < off + |d| then Some(d[x - off]) else ByteAt(s, x)
  {
    hide Split, ByteAt, QuantumAt, Formed;
    var a := Split(off);
    PutByte(s, a.index, a.pos, a.offset, d, x);
    InRange(off, |d|, x);
  }

  lemma TouchedIsThere(s: Store, off: nat, d: seq<byte>, x: nat)
    requires Fits(s, Split(off).index, Split(off).pos, Split(off).offset, d)
    ensures Touched(off, |d|, x) ==> ByteAt(s, x).Some?
  {
    hide Split, Touched, QuantumAt;
    if Touched(off, |d|, x) {
      WithinQuantum(off, |d|, x);
      SameQuantum(x, off);
    }
  }

  lemma WithinQuantum(off: nat, n: nat, x: nat)
    requires Split(off).offset + n <= QUANTUM && Touched(off, n, x)
    ensures x / QUANTUM == off / QUANTUM
  {
    hide Split;
    if n > 0 { SplitWithin(off, n - 1); }
  }

  // A write over an earlier one at the same place leaves no trace of it, as when a failed write is
  // tried again.
  lemma WriteOver(c: imap<nat, byte>, off: nat, x: seq<byte>, d: seq<byte>)
    requires |x| <= |d|
    ensures FlatWrite(FlatWrite(c, off, x), off, d) == FlatWrite(c, off, d)
  {
    hide FlatWrite, Touched;
    var b := FlatWrite(c, off, x);
    var l, r := FlatWrite(b, off, d), FlatWrite(c, off, d);
    forall y: nat ensures (y in l <==> y in r) && (y in r ==> l[y] == r[y]) {
      TouchedByMore(off, |x|, |d|, y);
      FlatByte(c, off, x, y);
      FlatByte(b, off, d, y);
      FlatByte(c, off, d, y);
    }
  }

  lemma TouchedByMore(off: nat, m: nat, n: nat, x: nat)
    requires m <= n
    ensures Touched(off, m, x) ==> Touched(off, n, x)
  {
    if m > 0 {
      QuantumMonotone(off + m - 1, off + n - 1);
    } else if n > 0 {
      QuantumMonotone(off, off + n - 1);
    }
  }

  // ---------------------------------------------------------------------------------------------
  // What trim frees

  // The blocks of the nodes before i, and the quanta of node i before pos.
  function Gone(s: Store, i: nat, pos: nat): set<Ptr> {
    set p | p in s.owner && (s.owner[p].i < i || (s.owner[p].QuantumOf? && s.owner[p].i == i && s.owner[p].pos < pos))
  }

  lemma GoneNextQuantum(s: Store, i: nat, pos: nat)
    requires Formed(s) && pos < QSET
    ensures var q := QuantumAt(s, i, pos);
      Gone(s, i, pos + 1) == Gone(s, i, pos) + (if q == 0 then {} else {q})
    ensures QuantumAt(s, i, pos) != 0 ==> QuantumAt(s, i, pos) in s.heap && QuantumAt(s, i, pos) !in Gone(s, i, pos)
    ensures QuantumAt(s, i, pos) != 0 ==> QuantumAt(s, i, pos) != TableAt(s, i)
  {
    QuantumHeld(s, i, pos);
    TableHeld(s, i);
    forall p | p in Gone(s, i, pos + 1) && p !in Gone(s, i, pos) ensures p == QuantumAt(s, i, pos) != 0 {
      assert InPlace(s, p);
    }
  }

  lemma GoneNextNode(s: Store, i: nat)
    requires Formed(s) && i < |s.nodes|
    ensures Gone(s, i + 1, 0) ==
      Gone(s, i, if TableAt(s, i) == 0 then 0 else QSET) + (if TableAt(s, i) == 0 then {} else {TableAt(s, i)}) +
        {s.nodes[i]}
    ensures s.nodes[i] !in Gone(s, i, QSET) && TableAt(s, i) !in Gone(s, i, QSET) && s.nodes[i] != TableAt(s, i)
  {
    TableHeld(s, i);
    var t := TableAt(s, i);
    var n := if t == 0 then 0 else QSET;
    assert 0 in s.owner ==> InPlace(s, 0);
    forall p | p in Gone(s, i + 1, 0) && p !in Gone(s, i, n) && p != s.nodes[i] ensures p == t != 0 {
      assert InPlace(s, p);
    }
    forall p | p in Gone(s, i, n) ensures p in Gone(s, i + 1, 0) { }
  }

  lemma AllGone(s: Store)
    requires Formed(s)
    ensures Gone(s, |s.nodes|, 0) == s.owner.Keys
  {
    forall p | p in s.owner ensures p in Gone(s, |s.nodes|, 0) { assert InPlace(s, p); }
  }

  // The log names each address freed since h0, once.
  ghost predicate Logged(h0: Heap, h: Heap, freed: seq<Ptr>) {
    && (forall p :: p in freed <==> p in h0 && p !in h)
    && (forall j, k :: 0 <= j < k < |freed| ==> freed[j] != freed[k])
  }

  lemma LogFree(h0: Heap, h: Heap, freed: seq<Ptr>, p: Ptr)
    requires Logged(h0, h, freed) && p in h && p in h0
    ensures Logged(h0, h - {p}, freed + [p])
  {
    assert p !in freed;
  }

  lemma LogUpdate(h0: Heap, h: Heap, freed: seq<Ptr>, p: Ptr, b: Block)
    requires Logged(h0, h, freed) && p in h
    ensures Logged(h0, h[p := b], freed)
  {
  }

  // Apart from t, memory h is g without `gone`: freeing q and rewriting t keep it so.
  lemma FreeOne(h: Heap, g: Heap, gone: set<Ptr>, t: Ptr, q: Ptr)
    requires h - {t} == g - gone - {t} && q in g && q !in gone && q != t
    ensures q in h && h - {q} - {t} == g - (gone + {q}) - {t}
  {
    assert q in g - gone - {t};
    assert q in h;
    forall p | p in h - {q} - {t} ensures p in g - (gone + {q}) - {t} && g[p] == h[p] {
      assert p in h - {t};
    }
    forall p | p in g - (gone + {q}) - {t} ensures p in h - {q} - {t} {
      assert p in g - gone - {t};
    }
  }

  lemma RewriteOne(h: Heap, t: Ptr, b: Block)
    ensures h[t := b] - {t} == h - {t}
  {
  }

  lemma GoneStarts(s: Store)
    requires Formed(s)
    ensures Gone(s, 0, 0) == {} && s.heap - Gone(s, 0, 0) == s.heap && 0 !in s.heap
  {
  }

  lemma GoneGrows(s: Store, i: nat, j: nat, k: nat)
    requires j <= k
    ensures Gone(s, i, j) <= Gone(s, i, k)
  {
  }

  lemma LoggedAll(s: Store, h: Heap, freed: seq<Ptr>)
    requires Formed(s) && h == s.heap - s.owner.Keys && Logged(s.heap, h, freed)
    ensures forall p :: p in freed <==> p in s.owner
  {
    forall p | p in s.owner ensures p in s.heap { assert InPlace(s, p); }
  }

  lemma NothingLeft(s: Store)
    requires 0 !in s.heap && s.nodes == [] && s.owner == map[]
    ensures Formed(s) && Contents(s) == imap[]
  {
    forall off: nat ensures ByteAt(s, off) == None { }
  }

  // Some address is not in use.
  lemma FreshExists(h: set<Ptr>)
    ensures exists p: Ptr :: p !in h && p != 0
  {
    var b := Above(h);
    assert b !in h;
  }

  ghost function Above(h: set<Ptr>): (b: Ptr)
    ensures b != 0 && forall p :: p in h ==> p < b
  {
    if h == {} then 1
    else
      var x :| x in h;
      var b := Above(h - {x});
      assert forall p :: p in h ==> p == x || p in h - {x};
      if x < b then b else x + 1
  }

  lemma NodeBefore(s: Store, i: nat)
    requires Formed(s) && i <= |s.nodes|
    ensures i < |s.nodes| ==> s.nodes[i] != 0
    ensures i > 0 ==> NodeOk(s, i - 1)
  {
    if i < |s.nodes| { assert NodeOk(s, i); }
  }

  lemma NodeHasData(s: Store, i: nat)
    requires Formed(s) && i < |s.nodes|
    ensures s.nodes[i] in s.heap && s.heap[s.nodes[i]].Node? && s.heap[s.nodes[i]].data == TableAt(s, i)
    ensures s.heap[s.nodes[i]].next == NextOf(s.nodes, i + 1) && NodeOk(s, i)
    ensures TableAt(s, i) != 0 ==>
      TableAt(s, i) in s.heap && s.heap[TableAt(s, i)].Table? && |s.heap[TableAt(s, i)].quanta| == QSET
    ensures TableAt(s, i) == 0 ==> forall pos: nat :: QuantumAt(s, i, pos) == 0
    ensures TableAt(s, i) != 0 ==> forall pos: nat :: pos < QSET ==>
      QuantumAt(s, i, pos) == s.heap[TableAt(s, i)].quanta[pos]
  {
    assert NodeOk(s, i);
  }

  lemma IndexIs(off: nat)
    ensures Split(off).index == off / SIZE
  {
  }

  // What a call finds at the quantum of off.
  lemma FoundIs(s: Store, off: nat, len: nat)
    requires Formed(s)
    ensures var q := QuantumAt(s, Split(off).index, Split(off).pos);
      && (q == 0 ==> ReadAt(Contents(s), off, len) == None)
      && (q != 0 ==> q in s.heap && s.heap[q].Quantum? && |s.heap[q].bytes| == QUANTUM)
      && (q != 0 ==> ReadAt(Contents(s), off, len) ==
                     Some(s.heap[q].bytes[Split(off).offset..Split(off).offset + Share(off, len)]))
  {
    hide Split;
    var a := Split(off);
    var q := QuantumAt(s, a.index, a.pos);
    var c := Contents(s);
    QuantumHeld(s, a.index, a.pos);
    if q != 0 {
      var n := Share(off, len);
      var b := s.heap[q].bytes;
      forall k: nat | k < n ensures Slice(c, off, n)[k] == b[a.offset + k] {
        SplitWithin(off, k);
        SliceAt(c, off, n, k);
      }
      assert Slice(c, off, n) == b[a.offset..a.offset + n];
    }
  }

  // How many allocations a call needs: list nodes, and for a write the table and the quantum.
  function Missing(have: nat, idx: nat): nat { if idx < have then 0 else idx + 1 - have }

  function Needed(s: Store, off: nat): nat {
    var a := Split(off);
    Missing(|s.nodes|, a.index) + (if TableAt(s, a.index) == 0 then 1 else 0) +
      (if QuantumAt(s, a.index, a.pos) == 0 then 1 else 0)
  }

  ghost predicate Fails(alloc: nat -> bool, n: nat) {
    exists k: nat :: k < n && !alloc(k)
  }

  // The same tables and quanta at the same places.
  ghost predicate SameBlocks(s: Store, r: Store) {
    && (forall i: nat :: TableAt(r, i) == TableAt(s, i))
    && (forall i: nat, pos: nat :: QuantumAt(r, i, pos) == QuantumAt(s, i, pos))
  }

  lemma BlocksAreTheSame(s: Store)
    ensures SameBlocks(s, s)
  {
  }

  lemma BlocksStaySame(s: Store, r: Store, t: Store)
    requires SameBlocks(s, r) && SameBlocks(r, t)
    ensures SameBlocks(s, t)
  {
    hide TableAt, QuantumAt;
  }

  lemma BlocksAt(s: Store, r: Store, i: nat, pos: nat)
    requires SameBlocks(s, r)
    ensures TableAt(r, i) == TableAt(s, i) && QuantumAt(r, i, pos) == QuantumAt(s, i, pos)
  {
    hide TableAt, QuantumAt;
  }

  lemma AppendKeepsBlocks(s: Store, p: Ptr)
    requires Formed(s) && p !in s.heap && p != 0
    ensures |s.nodes| > 0 ==> NodeOk(s, |s.nodes| - 1)
    ensures SameBlocks(s, AppendNode(s, p))
  {
    assert |s.nodes| > 0 ==> NodeOk(s, |s.nodes| - 1);
    hide TableAt, QuantumAt, Formed, TableOk;
    forall i: nat ensures TableAt(AppendNode(s, p), i) == TableAt(s, i) { AppendTables(s, p, i, 0); }
    forall i: nat, pos: nat
      ensures QuantumAt(AppendNode(s, p), i, pos) == QuantumAt(s, i, pos)
    {
      AppendTables(s, p, i, pos);
    }
  }

  class Scull {
    var heap: Heap          // all of memory
    var data: Ptr           // scull.data
    ghost var nodes: seq<Ptr>
    ghost var owner: map<Ptr, Role>

    ghost function View(): Store
      reads this
    {
      Store(heap, nodes, owner)
    }

    ghost predicate Valid()
      reads this
    {
      Formed(View()) && data == NextOf(nodes, 0)
    }

    constructor (memory: Heap)
      requires 0 !in memory
      ensures Valid() && heap == memory && data == 0 && Contents(View()) == imap[] && Foreign(View()) == memory
    {
      heap, data, nodes, owner := memory, 0, [], map[];
    }

    // vmalloc and the memset that follows it.  A failed vmalloc returns NULL.
    method Vmalloc(b: Block, ok: bool) returns (p: Ptr)
      modifies this`heap
      ensures ok ==> p !in old(heap) && p != 0 && heap == old(heap)[p := b]
      ensures !ok ==> p == 0 && heap == old(heap)
    {
      if !ok {
        return 0;
      }
      FreshExists(heap.Keys);
      p :| p !in heap.Keys && p != 0;
      heap := heap[p := b];
    }

    method Vfree(p: Ptr)
      requires p in heap
      modifies this`heap
      ensures heap == old(heap) - {p}
    {
      heap := heap - {p};
    }

    // Walks to node idx, extending the list as needed: contents and all other memory stay.  alloc(k)
    // is whether the k-th allocation succeeds.  IS_ERR does not catch NULL, so a failed allocation
    // is not reported: the memset that follows faults, and it does iff a needed allocation fails.
    method Follow(idx: nat, alloc: nat -> bool) returns (cur: Ptr, used: nat, fault: bool)
      requires Valid() && idx < INT_MAX
      modifies this
      ensures Valid() && (fault <==> Fails(alloc, Missing(|old(nodes)|, idx)))
      ensures !fault ==> idx < |nodes| && cur == nodes[idx] && used == Missing(|old(nodes)|, idx)
      ensures !fault ==> |nodes| == |old(nodes)| + used == if idx < |old(nodes)| then |old(nodes)| else idx + 1
      ensures !fault ==> SameBlocks(old(View()), View())
      ensures Contents(View()) == old(Contents(View())) && Foreign(View()) == old(Foreign(View()))
    {
      hide Formed, Contents, Foreign, SameBlocks;
      cur, used, fault := 0, 0, false;
      var i: nat := 0;
      BlocksAreTheSame(View());
      while i <= idx
        invariant 0 <= i <= idx + 1 && i <= |nodes|
        invariant Valid() && cur == (if i == 0 then 0 else nodes[i - 1])
        invariant used == (if i <= |old(nodes)| then 0 else i - |old(nodes)|) && |nodes| == |old(nodes)| + used
        invariant forall k :: 0 <= k < used ==> alloc(k)
        invariant SameBlocks(old(View()), View())
        invariant Contents(View()) == old(Contents(View())) && Foreign(View()) == old(Foreign(View()))
      {
        ghost var s := View();
        var made;
        cur, made := Step(cur, i, alloc(used));
        if cur == 0 {
          return 0, used, true;
        }
        BlocksStaySame(old(View()), s, View());
        if made {
          used := used + 1;
        }
        i := i + 1;
      }
    }

    // One turn of the walk: the node after cur, made if there is none.
    method Step(cur: Ptr, ghost i: nat, ok: bool) returns (p: Ptr, made: bool)
      requires Valid() && i <= |nodes| && cur == (if i == 0 then 0 else nodes[i - 1])
      modifies this
      ensures Valid() && (made <==> i == |old(nodes)|) && (p == 0 <==> made && !ok)
      ensures p == 0 ==> View() == old(View())
      ensures p != 0 ==> i < |nodes| && p == nodes[i] && |nodes| == |old(nodes)| + (if made then 1 else 0)
      ensures SameBlocks(old(View()), View())
      ensures Contents(View()) == old(Contents(View())) && Foreign(View()) == old(Foreign(View()))
    {
      hide Formed, Contents, Foreign, TableOk, SameBlocks;
      ghost var s := View();
      NodeBefore(s, i);
      BlocksAreTheSame(s);
      p := if cur == 0 then data else heap[cur].next;
      made := p == 0;
      if made {
        p := Vmalloc(Node(0, 0), ok);
        if p != 0 {
          if cur == 0 {
            data := p;
          } else {
            heap := heap[cur := heap[cur].(next := p)];
          }
          nodes, owner := nodes + [p], owner[p := NodeAt(i)];
          AppendKeepsFormed(s, p);
          AppendKeepsBytes(s, p);
          AppendKeepsBlocks(s, p);
        }
      }
    }

    // One read at *off.  `interrupted` is whether the wait for the semaphore was, `copied` whether
    // copy_to_user succeeded.
    method Read(off: nat, len: nat, alloc: nat -> bool, interrupted: bool, copied: bool)
      returns (st: Status, r: seq<byte>, pos': nat)
      requires Valid() && off / SIZE < INT_MAX
      modifies this
      ensures Valid() && (st == Interrupted <==> interrupted) && (interrupted ==> View() == old(View()))
      ensures st == Fault <==> !interrupted && Fails(alloc, Missing(|old(nodes)|, off / SIZE))
      ensures st != Interrupted && st != Fault ==>
        match ReadAt(old(Contents(View())), off, len)
        case None => st == Nothing
        case Some(d) => if copied then st == Ok && r == d else st == Again
      ensures pos' == off + |r| && (st != Ok ==> r == []) && (st == Ok ==> AllOrRest(off, len, |r|))
      ensures Contents(View()) == old(Contents(View())) && Foreign(View()) == old(Foreign(View()))
    {
      hide Formed, Contents, Foreign, Split, ReadAt, SameBlocks, AllOrRest;
      r, pos' := [], off;
      ShareIsMost(off, len);
      if interrupted {
        return Interrupted, r, pos';
      }
      var a := Split(off);
      IndexIs(off);
      var cur, used, fault := Follow(a.index, alloc);
      if fault {
        return Fault, r, pos';
      }
      FoundIs(View(), off, len);
      NodeHasData(View(), a.index);
      var t := heap[cur].data;
      if t == 0 || heap[t].quanta[a.pos] == 0 {
        return Nothing, r, pos';
      }
      if !copied {
        return Again, r, pos';
      }
      var q := heap[t].quanta[a.pos];
      var count := Min(len, QUANTUM - a.offset);
      st, r, pos' := Ok, heap[q].bytes[a.offset..a.offset + count], off + count;
    }

    // The two allocations of a write.
    method NeedTable(cur: Ptr, ghost i: nat, ok: bool) returns (t: Ptr, made: bool)
      requires Valid() && i < |nodes| && cur == nodes[i]
      modifies this
      ensures Valid() && nodes == old(nodes) && t == TableAt(View(), i)
      ensures (made <==> TableAt(old(View()), i) == 0) && (t == 0 <==> made && !ok)
      ensures forall pos: nat :: QuantumAt(View(), i, pos) == QuantumAt(old(View()), i, pos)
      ensures Contents(View()) == old(Contents(View())) && Foreign(View()) == old(Foreign(View()))
    {
      hide Formed, Contents, Foreign, TableOk, QuantumAt;
      ghost var s := View();
      NodeHasData(s, i);
      t := heap[cur].data;
      made := t == 0;
      if made {
        t := Vmalloc(Table(seq(QSET, _ => 0)), ok);
        if t != 0 {
          heap := heap[cur := heap[cur].(data := t)];
          owner := owner[t := TableOf(i)];
          AddTableKeepsFormed(s, i, t);
          AddTableKeepsBytes(s, i, t);
          forall pos: nat ensures QuantumAt(View(), i, pos) == QuantumAt(s, i, pos) { AddTableTables(s, i, t, i, pos); }
        }
      }
    }

    method NeedQuantum(t: Ptr, off: nat, ok: bool) returns (q: Ptr, made: bool)
      requires Valid() && Split(off).index < |nodes| && t == TableAt(View(), Split(off).index) && t != 0
      modifies this
      ensures Valid() && nodes == old(nodes) && q == QuantumAt(View(), Split(off).index, Split(off).pos)
      ensures (made <==> QuantumAt(old(View()), Split(off).index, Split(off).pos) == 0) && (q == 0 <==> made && !ok)
      ensures Contents(View()) == if q == 0 then old(Contents(View())) else FlatWrite(old(Contents(View())), off, [])
      ensures Foreign(View()) == old(Foreign(View()))
    {
      hide Formed, Contents, Foreign, TableOk, Split, FlatWrite, QuantumAt, TableAt;
      ghost var s := View();
      var a := Split(off);
      NodeHasData(s, a.index);
      TableHeld(s, a.index);
      q := heap[t].quanta[a.pos];
      made := q == 0;
      if !made {
        PresentIsEmptyWrite(s, off);
        return;
      }
      q := Vmalloc(Quantum(seq(QUANTUM, _ => 0)), ok);
      if q != 0 {
        heap := heap[t := heap[t].(quanta := heap[t].quanta[a.pos := q])];
        owner := owner[q := QuantumOf(a.index, a.pos)];
        AddQuantumKeepsFormed(s, a.index, a.pos, q);
        AddQuantumIsEmptyWrite(s, off, q);
      }
    }

    // Finds or makes the quantum of off.
    method Reach(off: nat, alloc: nat -> bool) returns (q: Ptr)
      requires Valid() && off / SIZE < INT_MAX
      modifies this
      ensures Valid() && (q == 0 <==> Fails(alloc, Needed(old(View()), off)))
      ensures q != 0 ==> Split(off).index < |nodes| && q == QuantumAt(View(), Split(off).index, Split(off).pos)
      ensures Contents(View()) == if q == 0 then old(Contents(View())) else FlatWrite(old(Contents(View())), off, [])
      ensures Foreign(View()) == old(Foreign(View()))
    {
      hide Formed, Contents, Foreign, TableOk, Split, FlatWrite, QuantumAt, TableAt, SameBlocks;
      var a := Split(off);
      IndexIs(off);
      var cur, used, fault := Follow(a.index, alloc);
      if fault {
        return 0;
      }
      BlocksAt(old(View()), View(), a.index, a.pos);
      var t, made := NeedTable(cur, a.index, alloc(used));
      if t == 0 {
        assert !alloc(used);
        return 0;
      }
      if made {
        used := used + 1;
      }
      q, made := NeedQuantum(t, off, alloc(used));
      assert q == 0 ==> !alloc(used);
    }

    // One write at *off: it stores what fits in the quantum of off, as a flat write of those bytes
    // would; or it faults, iff one of the allocations it needs fails.  `landed` is what a failed
    // copy_from_user leaves in the place of the bytes.
    method Write(off: nat, buffer: seq<byte>, alloc: nat -> bool, interrupted: bool, landed: Option<seq<byte>>)
      returns (st: Status, count: nat, pos': nat)
      requires Valid() && off / SIZE < INT_MAX && (landed.Some? ==> |landed.value| == Share(off, |buffer|))
      modifies this
      ensures Valid() && (st == Interrupted <==> interrupted) && (interrupted ==> View() == old(View()))
      ensures st == Fault <==> !interrupted && Fails(alloc, Needed(old(View()), off))
      ensures st != Interrupted && st != Fault ==> st == if landed.None? then Ok else Again
      ensures count == (if st == Ok then Share(off, |buffer|) else 0) && pos' == off + count
      ensures st == Ok ==> AllOrRest(off, |buffer|, count)
      ensures st == Ok ==> Contents(View()) == FlatWrite(old(Contents(View())), off, buffer[..count])
      ensures st == Again ==> Contents(View()) == FlatWrite(old(Contents(View())), off, landed.value)
      ensures st != Ok && st != Again ==> Contents(View()) == old(Contents(View()))
      ensures Foreign(View()) == old(Foreign(View()))
    {
      hide Formed, Contents, Foreign, TableOk, Split, FlatWrite, QuantumAt, TableAt, Needed, AllOrRest;
      ShareIsMost(off, |buffer|);
      if interrupted {
        return Interrupted, 0, off;
      }
      var a := Split(off);
      var q := Reach(off, alloc);
      if q == 0 {
        return Fault, 0, off;
      }
      count := Min(|buffer|, QUANTUM - a.offset);
      var d := if landed.Some? then landed.value else buffer[..count];
      CopyIn(off, q, d);
      WriteOver(old(Contents(View())), off, [], d);
      if landed.Some? {
        return Again, 0, off;
      }
      st, pos' := Ok, off + count;
    }

    // copy_from_user into the quantum.
    method CopyIn(off: nat, q: Ptr, d: seq<byte>)
      requires Valid() && |d| == Share(off, |d|) && Split(off).index < |nodes|
      requires q == QuantumAt(View(), Split(off).index, Split(off).pos) && q != 0
      modifies this`heap
      ensures Valid() && Contents(View()) == FlatWrite(old(Contents(View())), off, d)
      ensures Foreign(View()) == old(Foreign(View()))
    {
      hide Formed, Contents, Foreign, TableOk, Split, FlatWrite, QuantumAt, TableAt;
      var a := Split(off);
      ghost var s := View();
      QuantumHeld(s, a.index, a.pos);
      var b := heap[q].bytes;
      heap := heap[q := Quantum(b[..a.offset] + d + b[a.offset + |d|..])];
      PutBytesKeepsFormed(s, a.index, a.pos, a.offset, d);
      PutBytesIsWrite(s, off, d);
    }

    // Frees every block of the device once and nothing else; nothing is left to read.
    method Trim(interrupted: bool) returns (ghost freed: seq<Ptr>)
      requires Valid()
      modifies this
      ensures Valid() && (interrupted ==> View() == old(View()) && freed == [])
      ensures !interrupted ==> data == 0 && heap == old(Foreign(View())) && Contents(View()) == imap[]
      ensures !interrupted ==> forall p :: p in freed <==> p in old(owner)
      ensures forall j, k :: 0 <= j < k < |freed| ==> freed[j] != freed[k]
    {
      hide Formed, Contents, TableOk, Gone;
      ghost var s := View();
      ghost var i: nat := 0;
      freed := [];
      if interrupted {
        return;
      }
      GoneStarts(s);
      var qtr := data;
      while qtr != 0
        invariant i <= |s.nodes| && qtr == NextOf(s.nodes, i)
        invariant heap == s.heap - Gone(s, i, 0) && Logged(s.heap, heap, freed)
        invariant nodes == s.nodes && owner == s.owner && data == old(data)
        decreases |s.nodes| - i
      {
        qtr, freed := TrimNode(qtr, s, i, freed);
        i := i + 1;
      }
      NodeBefore(s, i);
      AllGone(s);
      LoggedAll(s, heap, freed);
      data, nodes, owner := 0, [], map[];
      NothingLeft(View());
    }

    // One turn of trim: the quanta, the table and the node itself.
    method TrimNode(qtr: Ptr, ghost s: Store, ghost i: nat, ghost freed: seq<Ptr>)
      returns (next: Ptr, ghost log: seq<Ptr>)
      requires Formed(s) && i < |s.nodes| && qtr == s.nodes[i]
      requires heap == s.heap - Gone(s, i, 0) && Logged(s.heap, heap, freed)
      modifies this`heap
      ensures next == NextOf(s.nodes, i + 1)
      ensures heap == s.heap - Gone(s, i + 1, 0) && Logged(s.heap, heap, log)
    {
      hide Formed, TableOk, Gone, Logged;
      log := freed;
      NodeHasData(s, i);
      GoneNextNode(s, i);
      GoneGrows(s, i, 0, QSET);
      var t := heap[qtr].data;
      if t != 0 {
        log := TrimTable(t, s, i, log);
        LogUpdate(s.heap, heap, log, qtr, heap[qtr].(data := 0));
        heap := heap[qtr := heap[qtr].(data := 0)];
      }
      next := heap[qtr].next;
      LogFree(s.heap, heap, log, qtr);
      Vfree(qtr);
      log := log + [qtr];
    }

    method TrimTable(t: Ptr, ghost s: Store, ghost i: nat, ghost freed: seq<Ptr>) returns (ghost log: seq<Ptr>)
      requires Formed(s) && i < |s.nodes| && t == TableAt(s, i) && t != 0
      requires heap == s.heap - Gone(s, i, 0) && Logged(s.heap, heap, freed)
      modifies this`heap
      ensures heap == s.heap - Gone(s, i, QSET) - {t} && Logged(s.heap, heap, log)
    {
      hide Formed, TableOk, Gone, Logged;
      log := freed;
      NodeHasData(s, i);
      GoneNextNode(s, i);
      GoneGrows(s, i, 0, QSET);
      ghost var quanta := s.heap[t].quanta;
      for pos := 0 to QSET
        invariant t in heap && heap[t].Table? && |heap[t].quanta| == QSET
        invariant forall k :: pos <= k < QSET ==> heap[t].quanta[k] == quanta[k]
        invariant heap - {t} == s.heap - Gone(s, i, pos) - {t} && Logged(s.heap, heap, log)
      {
        GoneNextQuantum(s, i, pos);
        var q := heap[t].quanta[pos];
        if q != 0 {
          FreeOne(heap, s.heap, Gone(s, i, pos), t, q);
          LogFree(s.heap, heap, log, q);
          Vfree(q);
          log := log + [q];
        }
        LogUpdate(s.heap, heap, log, t, Table(heap[t].quanta[pos := 0]));
        RewriteOne(heap, t, Table(heap[t].quanta[pos := 0]));
        heap := heap[t := Table(heap[t].quanta[pos := 0])];
      }
      LogFree(s.heap, heap, log, t);
      Vfree(t);
      log := log + [t];
    }
  }
}

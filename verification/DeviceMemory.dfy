/**
 Device allocations and the buffers that own them. Allocations are tokens: a device address
 is never reissued, so "freed exactly once" can be said of each `cudaMalloc`.
 */
module DeviceMemory {
  import opened Outcomes

  /** The allocator: sizes of the live allocations, the next token, and what was freed, in order. */
  datatype Heap = Heap(live: map<nat, nat>, next: nat, freed: seq<nat>)

  const EMPTY_HEAP := Heap(map[], 1, [])

  /** The fields of a `DeviceBuffer`; address 0 is null. */
  datatype Buffer = Buffer(data: nat, bytes: nat)

  const NULL_BUFFER := Buffer(0, 0)

  // ------------------------------------------------------ operations on values

  function Allocated(h: Heap, bytes: nat): Heap { Heap(h.live[h.next := bytes], h.next + 1, h.freed) }

  function Freed(h: Heap, p: nat): Heap { Heap(h.live - {p}, h.next, h.freed + [p]) }

  function ReleaseHeap(h: Heap, b: Buffer): Heap { if b.data != 0 then Freed(h, b.data) else h }

  function ReleaseBuffer(b: Buffer): Buffer { if b.data != 0 then NULL_BUFFER else b }

  /** `reset`: release, then allocate if asked to; `ok` is whether `cudaMalloc` succeeds. */
  function ResetHeap(h: Heap, b: Buffer, bytes: nat, ok: bool): Heap {
    var h' := ReleaseHeap(h, b);
    if bytes > 0 && ok then Allocated(h', bytes) else h'
  }

  function ResetBuffer(h: Heap, b: Buffer, bytes: nat, ok: bool): Buffer {
    if bytes > 0 && ok then Buffer(h.next, bytes) else ReleaseBuffer(b)
  }

  // ------------------------------------------------------------------ classes

  class Device {
    var heap: Heap

    constructor ()
      ensures heap == EMPTY_HEAP
    {
      heap := EMPTY_HEAP;
    }

    /** `cudaMalloc`, checked by `cuda_check`. */
    method Malloc(bytes: nat, ok: bool) returns (r: Result<nat>)
      modifies this
      ensures r == if ok then Ok(old(heap.next)) else Err(RuntimeError)
      ensures heap == if ok then Allocated(old(heap), bytes) else old(heap)
    {
      if !ok {
        return Err(RuntimeError);
      }
      r := Ok(heap.next);
      heap := Heap(heap.live[heap.next := bytes], heap.next + 1, heap.freed);
    }

    /** `cudaFree` */
    method Free(p: nat)
      modifies this
      ensures heap == Freed(old(heap), p)
    {
      heap := Heap(heap.live - {p}, heap.next, heap.freed + [p]);
    }
  }

  /** The RAII owner of one allocation. */
  class DeviceBuffer {
    const device: Device
    var data: nat
    var bytes: nat

    function Value(): Buffer
      reads this
    {
      Buffer(data, bytes)
    }

    constructor (device: Device)
      ensures this.device == device && Value() == NULL_BUFFER
    {
      this.device := device;
      data, bytes := 0, 0;
    }

    method Release()
      modifies this, device
      ensures device.heap == ReleaseHeap(old(device.heap), old(Value()))
      ensures Value() == ReleaseBuffer(old(Value()))
    {
      if data != 0 {
        device.Free(data);
        data := 0;
        bytes := 0;
      }
    }

    method Reset(newBytes: nat, ok: bool) returns (r: Result<()>)
      modifies this, device
      ensures r == if newBytes == 0 || ok then Ok(()) else Err(RuntimeError)
      ensures device.heap == ResetHeap(old(device.heap), old(Value()), newBytes, ok)
      ensures Value() == ResetBuffer(old(device.heap), old(Value()), newBytes, ok)
    {
      Release();
      if newBytes > 0 {
        var p := device.Malloc(newBytes, ok);
        if p.Err? {
          return Err(p.error);
        }
        data := p.value;
        bytes := newBytes;
      }
      return Ok(());
    }

    /** Move construction: take the allocation, leave the source empty. */
    constructor FromMove(other: DeviceBuffer)
      modifies other
      ensures device == other.device && Value() == old(other.Value()) && other.Value() == NULL_BUFFER
    {
      device := other.device;
      data, bytes := other.data, other.bytes;
      new;
      other.data := 0;
      other.bytes := 0;
    }

    /** Move assignment; self-assignment does nothing. */
    method MoveAssign(other: DeviceBuffer)
      requires other.device == device
      modifies this, other, device
      ensures other == this ==> Value() == old(Value()) && device.heap == old(device.heap)
      ensures other != this ==>
        && Value() == old(other.Value()) && other.Value() == NULL_BUFFER
        && device.heap == ReleaseHeap(old(device.heap), old(Value()))
    {
      if this != other {
        Release();
        data := other.data;
        bytes := other.bytes;
        other.data := 0;
        other.bytes := 0;
      }
    }
  }

  /** The allocating constructor: an object, or an exception and nothing allocated. */
  method NewDeviceBuffer(device: Device, bytes: nat, ok: bool) returns (r: Result<DeviceBuffer>)
    modifies device
    ensures r.Ok? <==> bytes == 0 || ok
    ensures device.heap == ResetHeap(old(device.heap), NULL_BUFFER, bytes, ok)
    ensures r.Ok? ==> fresh(r.value) && r.value.device == device
                      && r.value.Value() == ResetBuffer(old(device.heap), NULL_BUFFER, bytes, ok)
  {
    var b := new DeviceBuffer(device);
    b.bytes := bytes;
    if bytes > 0 {
      var p := device.Malloc(bytes, ok);
      if p.Err? {
        return Err(p.error);
      }
      b.data := p.value;
    }
    return Ok(b);
  }

  // ---------------------------------------------------------------- ownership

  /** The allocator's books balance: every token issued is live or was freed, once. */
  ghost predicate Balanced(h: Heap) {
    && h.next > 0
    && (forall p :: p in h.live ==> 0 < p < h.next && h.live[p] > 0)
    && (forall i :: 0 <= i < |h.freed| ==> 0 < h.freed[i] < h.next && h.freed[i] !in h.live)
    && (forall i, j :: 0 <= i < j < |h.freed| ==> h.freed[i] != h.freed[j])
    && (forall p :: 0 < p < h.next ==> p in h.live || p in h.freed)
  }

  ghost predicate Backed(h: Heap, b: Buffer) {
    (b.data == 0 <==> b.bytes == 0) && (b.data != 0 ==> b.data in h.live && h.live[b.data] == b.bytes)
  }

  /** Some buffer owns `p`. */
  ghost predicate Owned(slots: map<string, Buffer>, p: nat) {
    exists s :: s in slots && slots[s].data == p
  }

  /**
   The live allocations are the disjoint union of what the buffers own and of `foreign`
   allocations owned elsewhere.
   */
  ghost predicate Owns(h: Heap, slots: map<string, Buffer>, foreign: set<nat>) {
    && Balanced(h)
    && foreign <= h.live.Keys
    && (forall s :: s in slots ==> Backed(h, slots[s]) && slots[s].data !in foreign)
    && (forall s, t :: s in slots && t in slots && s != t && slots[s].data == slots[t].data ==> slots[s].data == 0)
    && (forall p :: p in h.live && p !in foreign ==> Owned(slots, p))
  }

  lemma FreedBalanced(h: Heap, p: nat)
    requires Balanced(h) && p in h.live
    ensures Balanced(Freed(h, p))
  {
    var h' := Freed(h, p);
    assert h'.freed[|h.freed|] == p;
    forall q | 0 < q < h'.next ensures q in h'.live || q in h'.freed {
      if q in h.freed { var i :| 0 <= i < |h.freed| && h.freed[i] == q; assert h'.freed[i] == q; }
    }
  }

  lemma ReleaseKeeps(h: Heap, slots: map<string, Buffer>, foreign: set<nat>, s: string)
    requires Owns(h, slots, foreign) && s in slots
    ensures ReleaseBuffer(slots[s]) == NULL_BUFFER
    ensures Owns(ReleaseHeap(h, slots[s]), slots[s := NULL_BUFFER], foreign)
  {
    var h', slots' := ReleaseHeap(h, slots[s]), slots[s := NULL_BUFFER];
    if slots[s].data != 0 { FreedBalanced(h, slots[s].data); }
    forall p | p in h'.live && p !in foreign ensures Owned(slots', p) {
      var t :| t in slots && slots[t].data == p;
      assert slots'[t].data == p;
    }
  }

  lemma AllocatedBalanced(h: Heap, bytes: nat)
    requires Balanced(h) && bytes > 0
    ensures Balanced(Allocated(h, bytes)) && h.next !in h.live
  {}

  lemma AcquireKeeps(h: Heap, slots: map<string, Buffer>, foreign: set<nat>, s: string, bytes: nat)
    requires Owns(h, slots, foreign) && bytes > 0
    requires s in slots ==> slots[s].data == 0
    ensures Owns(Allocated(h, bytes), slots[s := Buffer(h.next, bytes)], foreign)
  {
    var h', slots' := Allocated(h, bytes), slots[s := Buffer(h.next, bytes)];
    AllocatedBalanced(h, bytes);
    forall p | p in h'.live && p !in foreign ensures Owned(slots', p) {
      if p == h.next {
        assert slots'[s].data == p;
      } else {
        var t :| t in slots && slots[t].data == p;
        assert slots'[t].data == p;
      }
    }
  }

  lemma ForgetKeeps(h: Heap, slots: map<string, Buffer>, foreign: set<nat>, s: string)
    requires Owns(h, slots, foreign) && (s in slots ==> slots[s].data == 0)
    ensures Owns(h, slots - {s}, foreign)
  {
    forall p | p in h.live && p !in foreign ensures Owned(slots - {s}, p) {
      var t :| t in slots && slots[t].data == p;
      assert (slots - {s})[t].data == p;
    }
  }

  lemma EmptySlotKeeps(h: Heap, slots: map<string, Buffer>, foreign: set<nat>, s: string)
    requires Owns(h, slots, foreign) && s !in slots
    ensures Owns(h, slots[s := NULL_BUFFER], foreign)
  {
    forall p | p in h.live && p !in foreign ensures Owned(slots[s := NULL_BUFFER], p) {
      var t :| t in slots && slots[t].data == p;
      assert slots[s := NULL_BUFFER][t].data == p;
    }
  }

  lemma TransferKeeps(h: Heap, slots: map<string, Buffer>, foreign: set<nat>, dst: string, src: string)
    requires Owns(h, slots, foreign) && src in slots && dst != src
    requires dst in slots ==> slots[dst].data == 0
    ensures Owns(h, slots[dst := slots[src]][src := NULL_BUFFER], foreign)
  {
    var slots' := slots[dst := slots[src]][src := NULL_BUFFER];
    forall p | p in h.live && p !in foreign ensures Owned(slots', p) {
      var t :| t in slots && slots[t].data == p;
      assert slots'[if t == src then dst else t].data == p;
    }
  }

  lemma AcquireAfterRelease(h: Heap, slots: map<string, Buffer>, foreign: set<nat>, s: string, bytes: nat)
    requires Owns(h, slots[s := NULL_BUFFER], foreign) && bytes > 0
    ensures Owns(Allocated(h, bytes), slots[s := Buffer(h.next, bytes)], foreign)
  {
    AcquireKeeps(h, slots[s := NULL_BUFFER], foreign, s, bytes);
    assert slots[s := NULL_BUFFER][s := Buffer(h.next, bytes)] == slots[s := Buffer(h.next, bytes)];
  }

  lemma ResetKeeps(h: Heap, slots: map<string, Buffer>, foreign: set<nat>, s: string, bytes: nat, ok: bool)
    requires Owns(h, slots, foreign) && s in slots
    ensures Owns(ResetHeap(h, slots[s], bytes, ok), slots[s := ResetBuffer(h, slots[s], bytes, ok)], foreign)
  {
    ReleaseKeeps(h, slots, foreign, s);
    if bytes > 0 && ok {
      AcquireAfterRelease(ReleaseHeap(h, slots[s]), slots, foreign, s, bytes);
    }
  }

  /** The allocations in `ps` are live in both heaps, with the same sizes. */
  ghost predicate SameOn(h: Heap, h': Heap, ps: set<nat>) {
    forall p :: p in ps ==> p in h.live && p in h'.live && h.live[p] == h'.live[p]
  }

  /** The buffer a name denotes; indexing a map default-inserts an empty one. */
  function Current(slots: map<string, Buffer>, s: string): Buffer { if s in slots then slots[s] else NULL_BUFFER }

  /** `buffers[s].reset(bytes)` on a map of buffers. */
  function RebindSlots(h: Heap, slots: map<string, Buffer>, s: string, bytes: nat, ok: bool): map<string, Buffer> {
    slots[s := ResetBuffer(h, Current(slots, s), bytes, ok)]
  }

  lemma ReleaseSame(h: Heap, slots: map<string, Buffer>, foreign: set<nat>, s: string)
    requires Owns(h, slots, foreign) && s in slots
    ensures SameOn(h, ReleaseHeap(h, slots[s]), foreign)
  {}

  lemma AllocatedSame(h: Heap, h': Heap, foreign: set<nat>, bytes: nat)
    requires SameOn(h, h', foreign) && (forall p :: p in h'.live ==> p < h'.next)
    ensures SameOn(h, Allocated(h', bytes), foreign)
  {}

  // ---------------------------------------------------------------- whole runs

  /** What a program does with named buffers. */
  datatype Op =
    | Construct(slot: string, bytes: nat, ok: bool)
    | MoveConstruct(slot: string, from: string)
    | MoveAssign(slot: string, from: string)
    | Reset(slot: string, bytes: nat, ok: bool)
    | Release(slot: string)
    | Destroy(slot: string)

  /** A well-typed program constructs into new variables and uses existing ones. */
  predicate Enabled(slots: map<string, Buffer>, op: Op) {
    match op
    case Construct(s, _, _) => s !in slots
    case MoveConstruct(s, from) => s !in slots && from in slots
    case MoveAssign(s, from) => s in slots && from in slots
    case Reset(s, _, _) => s in slots
    case Release(s) => s in slots
    case Destroy(s) => s in slots
  }

  datatype Memory = Memory(heap: Heap, slots: map<string, Buffer>)

  function Step(m: Memory, op: Op): Memory
    requires Enabled(m.slots, op)
  {
    match op
    case Construct(s, n, ok) =>
      Memory(ResetHeap(m.heap, NULL_BUFFER, n, ok),
             if n > 0 && !ok then m.slots else m.slots[s := ResetBuffer(m.heap, NULL_BUFFER, n, ok)])
    case MoveConstruct(s, from) =>
      Memory(m.heap, m.slots[s := m.slots[from]][from := NULL_BUFFER])
    case MoveAssign(s, from) =>
      if s == from then m
      else Memory(ReleaseHeap(m.heap, m.slots[s]), m.slots[s := m.slots[from]][from := NULL_BUFFER])
    case Reset(s, n, ok) =>
      Memory(ResetHeap(m.heap, m.slots[s], n, ok), m.slots[s := ResetBuffer(m.heap, m.slots[s], n, ok)])
    case Release(s) =>
      Memory(ReleaseHeap(m.heap, m.slots[s]), m.slots[s := ReleaseBuffer(m.slots[s])])
    case Destroy(s) =>
      Memory(ReleaseHeap(m.heap, m.slots[s]), m.slots - {s})
  }

  lemma MoveAssignKeeps(m: Memory, s: string, from: string, foreign: set<nat>)
    requires Owns(m.heap, m.slots, foreign) && s in m.slots && from in m.slots
    ensures var m' := Step(m, MoveAssign(s, from)); Owns(m'.heap, m'.slots, foreign)
  {
    if s != from {
      ReleaseKeeps(m.heap, m.slots, foreign, s);
      TransferKeeps(ReleaseHeap(m.heap, m.slots[s]), m.slots[s := NULL_BUFFER], foreign, s, from);
      assert m.slots[s := NULL_BUFFER][s := m.slots[from]] == m.slots[s := m.slots[from]];
    }
  }

  lemma DestroyKeeps(m: Memory, s: string, foreign: set<nat>)
    requires Owns(m.heap, m.slots, foreign) && s in m.slots
    ensures var m' := Step(m, Destroy(s)); Owns(m'.heap, m'.slots, foreign)
  {
    ReleaseKeeps(m.heap, m.slots, foreign, s);
    ForgetKeeps(ReleaseHeap(m.heap, m.slots[s]), m.slots[s := NULL_BUFFER], foreign, s);
    assert m.slots[s := NULL_BUFFER] - {s} == m.slots - {s};
  }

  lemma ConstructKeeps(m: Memory, s: string, n: nat, ok: bool, foreign: set<nat>)
    requires Owns(m.heap, m.slots, foreign) && s !in m.slots
    ensures var m' := Step(m, Construct(s, n, ok)); Owns(m'.heap, m'.slots, foreign)
  {
    if n == 0 {
      EmptySlotKeeps(m.heap, m.slots, foreign, s);
    } else if ok {
      AcquireKeeps(m.heap, m.slots, foreign, s, n);
    }
  }

  lemma StepKeeps(m: Memory, op: Op, foreign: set<nat>)
    requires Owns(m.heap, m.slots, foreign) && Enabled(m.slots, op)
    ensures Owns(Step(m, op).heap, Step(m, op).slots, foreign)
  {
    match op
    case Construct(s, n, ok) => ConstructKeeps(m, s, n, ok, foreign);
    case MoveConstruct(s, from) => TransferKeeps(m.heap, m.slots, foreign, s, from);
    case MoveAssign(s, from) => MoveAssignKeeps(m, s, from, foreign);
    case Reset(s, n, ok) => ResetKeeps(m.heap, m.slots, foreign, s, n, ok);
    case Release(s) => ReleaseKeeps(m.heap, m.slots, foreign, s);
    case Destroy(s) => DestroyKeeps(m, s, foreign);
  }

  /** `m'` is reached from `m` by a sequence of enabled operations. */
  ghost predicate Runs(m: Memory, ops: seq<Op>, m': Memory)
    decreases |ops|
  {
    if ops == [] then m' == m
    else Enabled(m.slots, ops[0]) && Runs(Step(m, ops[0]), ops[1..], m')
  }

  /** Ownership holds after every run, whichever allocations fail. */
  lemma {:induction false} RunKeeps(m: Memory, ops: seq<Op>, m': Memory, foreign: set<nat>)
    requires Owns(m.heap, m.slots, foreign) && Runs(m, ops, m')
    ensures Owns(m'.heap, m'.slots, foreign)
    decreases |ops|
  {
    if ops != [] {
      StepKeeps(m, ops[0], foreign);
      RunKeeps(Step(m, ops[0]), ops[1..], m', foreign);
    }
  }

  lemma StepSame(m: Memory, op: Op, foreign: set<nat>)
    requires Owns(m.heap, m.slots, foreign) && Enabled(m.slots, op)
    ensures SameOn(m.heap, Step(m, op).heap, foreign)
  {
    match op
    case Construct(s, n, ok) => AllocatedSame(m.heap, m.heap, foreign, n);
    case MoveConstruct(s, from) =>
    case MoveAssign(s, from) => ReleaseSame(m.heap, m.slots, foreign, s);
    case Reset(s, n, ok) =>
      ReleaseSame(m.heap, m.slots, foreign, s);
      AllocatedSame(m.heap, ReleaseHeap(m.heap, m.slots[s]), foreign, n);
    case Release(s) => ReleaseSame(m.heap, m.slots, foreign, s);
    case Destroy(s) => ReleaseSame(m.heap, m.slots, foreign, s);
  }

  /** Allocations owned elsewhere are left alone by every run. */
  lemma {:induction false} RunSame(m: Memory, ops: seq<Op>, m': Memory, foreign: set<nat>)
    requires Owns(m.heap, m.slots, foreign) && Runs(m, ops, m')
    ensures SameOn(m.heap, m'.heap, foreign)
    decreases |ops|
  {
    if ops != [] {
      StepSame(m, ops[0], foreign);
      StepKeeps(m, ops[0], foreign);
      RunSame(Step(m, ops[0]), ops[1..], m', foreign);
    }
  }

  /** A run that starts and ends without buffers leaves the device as it was. */
  lemma RunRestores(m: Memory, ops: seq<Op>, m': Memory)
    requires Owns(m.heap, m.slots, m.heap.live.Keys) && Runs(m, ops, m') && m'.slots == map[]
    ensures m'.heap.live == m.heap.live
  {
    RunKeeps(m, ops, m', m.heap.live.Keys);
    RunSame(m, ops, m', m.heap.live.Keys);
    assert forall p :: p in m'.heap.live ==> p in m.heap.live.Keys || Owned(map[], p);
  }

  lemma {:induction false} RunsConcat(a: Memory, ops: seq<Op>, b: Memory, more: seq<Op>, c: Memory)
    requires Runs(a, ops, b) && Runs(b, more, c)
    ensures Runs(a, ops + more, c)
    decreases |ops|
  {
    if ops == [] {
      assert ops + more == more;
    } else {
      assert (ops + more)[1..] == ops[1..] + more;
      RunsConcat(Step(a, ops[0]), ops[1..], b, more, c);
    }
  }

  lemma RunsOne(m: Memory, op: Op)
    requires Enabled(m.slots, op)
    ensures Runs(m, [op], Step(m, op))
  {
    assert Runs(Step(m, op), [op][1..], Step(m, op));
  }

  /** As a program: construct if missing, then reset. */
  lemma RebindRuns(h: Heap, slots: map<string, Buffer>, s: string, bytes: nat, ok: bool) returns (ops: seq<Op>)
    ensures Runs(Memory(h, slots), ops,
                 Memory(ResetHeap(h, Current(slots, s), bytes, ok), RebindSlots(h, slots, s, bytes, ok)))
  {
    var m := Memory(h, slots);
    if s in slots {
      ops := [Reset(s, bytes, ok)];
      RunsOne(m, Reset(s, bytes, ok));
    } else {
      var m1 := Step(m, Construct(s, 0, true));
      ops := [Construct(s, 0, true)] + [Reset(s, bytes, ok)];
      RunsOne(m, Construct(s, 0, true));
      RunsOne(m1, Reset(s, bytes, ok));
      RunsConcat(m, [Construct(s, 0, true)], m1, [Reset(s, bytes, ok)], Step(m1, Reset(s, bytes, ok)));
      var after := ResetBuffer(h, NULL_BUFFER, bytes, ok);
      assert m1.slots[s := after] == slots[s := after];
    }
  }

  /** Once every buffer is gone nothing is live, and every allocation ever made was freed exactly once. */
  lemma NoLeak(ops: seq<Op>, m: Memory)
    requires Runs(Memory(EMPTY_HEAP, map[]), ops, m) && m.slots == map[]
    ensures m.heap.live == map[]
    ensures forall p :: 0 < p < m.heap.next ==> multiset(m.heap.freed)[p] == 1
  {
    RunKeeps(Memory(EMPTY_HEAP, map[]), ops, m, {});
    assert forall p :: p in m.heap.live ==> Owned(m.slots, p);
    assert m.heap.live.Keys == {};
    forall p | 0 < p < m.heap.next ensures multiset(m.heap.freed)[p] == 1 {
      assert p in m.heap.freed;
      CountDistinct(m.heap.freed, p);
    }
  }

  lemma {:induction false} CountDistinct(s: seq<nat>, p: nat)
    requires p in s
    requires forall i, j :: 0 <= i < j < |s| ==> s[i] != s[j]
    ensures multiset(s)[p] == 1
  {
    assert s == [s[0]] + s[1..];
    if p == s[0] {
      assert p !in s[1..];
      assert multiset(s[1..])[p] == 0;
    } else {
      CountDistinct(s[1..], p);
    }
  }
}

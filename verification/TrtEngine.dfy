/** The engine wrapper: its bindings and the device memory it owns for them. */
module TrtEngines {
  import opened Outcomes
  import opened Arithmetic
  import opened DeviceMemory

  // ------------------------------------------------------------ descriptions

  datatype DataType = Float | Half | Int8 | Int32 | Bool | Uint8 | Fp8 | Unlisted

  function ElementSize(dt: DataType): nat {
    match dt
    case Float => 4
    case Half => 2
    case Int8 => 1
    case Int32 => 4
    case Bool => 1
    case Uint8 => 1
    case Fp8 => 1
    case Unlisted => 0
  }

  /** Element count of a shape: the product of its dimensions, or 0 when one is dynamic or empty. */
  function Volume(shape: seq<int>): nat {
    if shape == [] then 1
    else if shape[0] <= 0 then 0
    else shape[0] * Volume(shape[1..])
  }

  /** `volume_of` */
  method VolumeOf(shape: seq<int>) returns (v: nat)
    ensures v == Volume(shape)
  {
    v := 1;
    for i := 0 to |shape|
      invariant v * Volume(shape[i..]) == Volume(shape)
    {
      assert shape[i..][1..] == shape[i + 1..];
      if shape[i] <= 0 {
        return 0;
      }
      VolumeStep(v, shape[i], Volume(shape[i + 1..]));
      v := v * shape[i];
    }
  }

  lemma VolumeStep(v: nat, d: nat, rest: nat)
    ensures v * (d * rest) == v * d * rest
  {}

  lemma {:induction false} VolumePositive(shape: seq<int>)
    ensures Volume(shape) > 0 <==> forall i :: 0 <= i < |shape| ==> shape[i] > 0
  {
    if shape != [] {
      VolumePositive(shape[1..]);
      assert forall i :: 0 < i < |shape| ==> shape[i] == shape[1..][i - 1];
      if shape[0] > 0 && Volume(shape[1..]) > 0 { assert shape[0] * Volume(shape[1..]) > 0; }
    }
  }

  datatype BindingInfo = BindingInfo(name: string, shape: seq<int>, elementSize: nat, volume: nat, isInput: bool) {
    function Bytes(): nat { volume * elementSize }
  }

  /** One I/O tensor as the deserialized engine reports it. */
  datatype Tensor = Tensor(name: string, dims: seq<int>, dtype: DataType, isInput: bool) {
    function Info(): BindingInfo {
      BindingInfo(name, dims, ElementSize(dtype), Volume(dims), isInput)
    }
  }

  /** The product law, and the two cases that fix it: the empty shape and a single extent. */
  lemma {:induction false} VolumeConcat(a: seq<int>, b: seq<int>, d: int)
    ensures Volume(a + b) == Times(Volume(a), Volume(b))
    ensures Volume([]) == 1 && Volume([d]) == if d > 0 then d else 0
  {
    assert [d][1..] == [];
    if a == [] {
      assert a + b == b;
    } else {
      assert (a + b)[1..] == a[1..] + b;
      VolumeConcat(a[1..], b, d);
      VolumeHead(a);
      VolumeHead(a + b);
      if a[0] > 0 { TimesAssociative(a[0], Volume(a[1..]), Volume(b)); }
    }
  }

  function Times(x: nat, y: nat): nat { x * y }

  lemma VolumeHead(shape: seq<int>)
    requires shape != []
    ensures Volume(shape) == if shape[0] > 0 then Times(shape[0], Volume(shape[1..])) else 0
  {}

  lemma TimesAssociative(x: nat, y: nat, z: nat)
    ensures Times(Times(x, y), z) == Times(x, Times(y, z))
  {}

  /** How many bytes a binding of each type asks for, an element. */
  lemma TensorBytes(t: Tensor)
    ensures t.Info().volume == Volume(t.dims)
    ensures t.dtype == Float || t.dtype == Int32 ==> t.Info().Bytes() == Volume(t.dims) * 4
    ensures t.dtype == Half ==> t.Info().Bytes() == Volume(t.dims) * 2
    ensures t.dtype in {Int8, Bool, Uint8, Fp8} ==> t.Info().Bytes() == Volume(t.dims)
    ensures t.dtype == Unlisted ==> t.Info().Bytes() == 0
  {}

  lemma BytesPositive(b: BindingInfo)
    ensures b.Bytes() > 0 <==> b.volume > 0 && b.elementSize > 0
  {
    if b.volume > 0 && b.elementSize > 0 { RowStep(0, b.volume, b.elementSize); }
  }

  function Reshaped(b: BindingInfo, shape: seq<int>): BindingInfo { b.(shape := shape, volume := Volume(shape)) }

  const MAX_DIMS := 8

  ghost predicate DistinctNames(bindings: seq<BindingInfo>) {
    forall i, j :: 0 <= i < j < |bindings| ==> bindings[i].name != bindings[j].name
  }

  // ------------------------------------------------------------- the buffers

  /** `setTensorAddress(name, buffer.get())`, unless an exception came first. */
  function RebindAddresses(addresses: map<string, nat>, slots: map<string, Buffer>, name: string, reached: bool)
    : map<string, nat>
  {
    if reached then addresses[name := Current(slots, name).data] else addresses
  }

  /** `std::unordered_map<std::string, DeviceBuffer>` together with the context's tensor addresses. */
  class BufferMap {
    const device: Device
    var buffers: map<string, DeviceBuffer>
    var addresses: map<string, nat>

    ghost predicate Separate()
      reads this`buffers, buffers.Values
    {
      && (forall n :: n in buffers ==> buffers[n].device == device)
      && (forall n, m :: n in buffers && m in buffers && n != m ==> buffers[n] != buffers[m])
    }

    ghost function Slots(): map<string, Buffer>
      reads this`buffers, buffers.Values
    {
      map n | n in buffers :: buffers[n].Value()
    }

    /** The device and this map, as a state of the buffer programs. */
    ghost function State(): Memory
      reads this`buffers, buffers.Values, device
    {
      Memory(device.heap, Slots())
    }

    constructor (device: Device)
      ensures this.device == device && buffers == map[] && addresses == map[]
    {
      this.device := device;
      buffers, addresses := map[], map[];
    }

    /** `device_buffers[name]`: a missing buffer is inserted empty. */
    method Ensure(name: string)
      requires Separate()
      modifies this`buffers
      ensures Separate() && name in buffers && fresh(buffers.Values - old(buffers.Values))
      ensures Slots() == old(Slots())[name := Current(old(Slots()), name)]
    {
      if name !in buffers {
        var b := new DeviceBuffer(device);
        buffers := buffers[name := b];
      }
    }

    /** `buffer.reset(bytes)` on a buffer of the map. */
    method ResetAt(name: string, bytes: nat, ok: bool) returns (r: Result<()>)
      requires Separate() && name in buffers
      modifies buffers[name], device
      ensures r == if bytes == 0 || ok then Ok(()) else Err(RuntimeError)
      ensures device.heap == ResetHeap(old(device.heap), old(Slots())[name], bytes, ok)
      ensures Slots() == old(Slots())[name := ResetBuffer(old(device.heap), old(Slots())[name], bytes, ok)]
    {
      r := buffers[name].Reset(bytes, ok);
    }

    /** `auto& buffer = device_buffers[name]; buffer.reset(bytes)` */
    method ResetNamed(name: string, bytes: nat, ok: bool) returns (r: Result<()>)
      requires Separate()
      modifies this`buffers, buffers.Values, device
      ensures Separate() && fresh(buffers.Values - old(buffers.Values))
      ensures name in buffers
      ensures r == if bytes == 0 || ok then Ok(()) else Err(RuntimeError)
      ensures device.heap == ResetHeap(old(device.heap), Current(old(Slots()), name), bytes, ok)
      ensures Slots() == RebindSlots(old(device.heap), old(Slots()), name, bytes, ok)
    {
      Ensure(name);
      r := ResetAt(name, bytes, ok);
    }

    /** The same, followed by `setTensorAddress(name, buffer.get())` when nothing was thrown. */
    method Rebind(name: string, bytes: nat, ok: bool) returns (r: Result<()>, ghost ops: seq<Op>)
      requires Separate()
      modifies this, buffers.Values, device
      ensures Separate() && fresh(buffers.Values - old(buffers.Values))
      ensures Runs(old(State()), ops, State())
      ensures r == if bytes == 0 || ok then Ok(()) else Err(RuntimeError)
      ensures device.heap == ResetHeap(old(device.heap), Current(old(Slots()), name), bytes, ok)
      ensures Slots() == RebindSlots(old(device.heap), old(Slots()), name, bytes, ok)
      ensures addresses == RebindAddresses(old(addresses), Slots(), name, r.Ok?)
    {
      ops := RebindRuns(device.heap, Slots(), name, bytes, ok);
      r := ResetNamed(name, bytes, ok);
      if r.Ok? {
        addresses := addresses[name := buffers[name].data];
      }
    }

    /** One buffer's destructor. */
    method DestroyOne(name: string)
      requires Separate() && name in buffers
      modifies this`buffers, buffers.Values, device
      ensures Separate() && buffers == old(buffers) - {name}
      ensures device.heap == ReleaseHeap(old(device.heap), old(Slots())[name])
      ensures Slots() == old(Slots()) - {name}
    {
      buffers[name].Release();
      buffers := buffers - {name};
    }

    /** Destruction: every buffer's destructor runs, in any order. */
    method DestroyAll() returns (ghost ops: seq<Op>)
      requires Separate()
      modifies this`buffers, buffers.Values, device
      ensures buffers == map[] && Slots() == map[]
      ensures Runs(old(State()), ops, State())
    {
      ops := [];
      while buffers.Keys != {}
        invariant Separate() && buffers.Values <= old(buffers.Values)
        invariant Runs(old(State()), ops, State())
        decreases buffers.Keys
      {
        var name :| name in buffers.Keys;
        ghost var before := State();
        DestroyOne(name);
        RunsOne(before, Destroy(name));
        RunsConcat(old(State()), ops, before, [Destroy(name)], State());
        ops := ops + [Destroy(name)];
      }
      assert Slots() == map[];
    }
  }

  // -------------------------------------------------------------- the engine

  function Infos(tensors: seq<Tensor>): seq<BindingInfo> {
    seq(|tensors|, i requires 0 <= i < |tensors| => tensors[i].Info())
  }

  /** The first binding with this name, or the length when there is none. */
  function IndexOf(bindings: seq<BindingInfo>, name: string): (i: nat)
    ensures i <= |bindings|
    ensures i < |bindings| ==> bindings[i].name == name
    ensures forall j :: 0 <= j < i ==> bindings[j].name != name
  {
    if bindings == [] || bindings[0].name == name then 0 else 1 + IndexOf(bindings[1..], name)
  }

  /** Every binding's buffer has the size its shape asks for: none, for a dynamic shape. */
  ghost predicate Sized(bindings: seq<BindingInfo>, slots: map<string, Buffer>) {
    forall i :: 0 <= i < |bindings| ==> Current(slots, bindings[i].name).bytes == bindings[i].Bytes()
  }

  /** Every address the context holds is that of the current allocation. */
  ghost predicate AddressesCurrent(addresses: map<string, nat>, slots: map<string, Buffer>) {
    forall n :: n in addresses ==> n in slots && addresses[n] == slots[n].data
  }

  /** Buffers exist only for bindings. */
  ghost predicate SlotsNamed(bindings: seq<BindingInfo>, slots: map<string, Buffer>) {
    forall n :: n in slots ==> IndexOf(bindings, n) < |bindings|
  }

  function AddSlots(h: Heap, slots: map<string, Buffer>, info: BindingInfo, ok: bool): map<string, Buffer> {
    if info.Bytes() > 0 then RebindSlots(h, slots, info.name, info.Bytes(), ok) else slots
  }

  lemma {:induction false} IndexOfAppend(bindings: seq<BindingInfo>, b: BindingInfo, n: string)
    ensures IndexOf(bindings, n) < |bindings| ==> IndexOf(bindings + [b], n) == IndexOf(bindings, n)
    ensures n == b.name ==> IndexOf(bindings + [b], n) <= |bindings|
  {
    if bindings != [] && bindings[0].name != n {
      assert (bindings + [b])[1..] == bindings[1..] + [b];
      IndexOfAppend(bindings[1..], b, n);
    }
  }

  lemma NewNameFree(bindings: seq<BindingInfo>, info: BindingInfo, slots: map<string, Buffer>)
    requires SlotsNamed(bindings, slots) && DistinctNames(bindings + [info])
    ensures info.name !in slots
  {
    forall i | 0 <= i < |bindings| ensures bindings[i].name != info.name {
      assert (bindings + [info])[i].name != (bindings + [info])[|bindings|].name;
    }
  }

  lemma AddSizes(h: Heap, slots: map<string, Buffer>, bindings: seq<BindingInfo>, info: BindingInfo)
    requires SlotsNamed(bindings, slots) && DistinctNames(bindings + [info]) && Sized(bindings, slots)
    ensures Sized(bindings + [info], AddSlots(h, slots, info, true))
  {
    var bindings', slots' := bindings + [info], AddSlots(h, slots, info, true);
    NewNameFree(bindings, info, slots);
    forall i | 0 <= i < |bindings'| ensures Current(slots', bindings'[i].name).bytes == bindings'[i].Bytes() {
      if i < |bindings| { assert bindings'[i].name != bindings'[|bindings|].name; }
    }
  }

  /** What the constructor maintains about bindings, buffers and addresses. */
  ghost predicate Consistent(bindings: seq<BindingInfo>, slots: map<string, Buffer>, addresses: map<string, nat>) {
    && SlotsNamed(bindings, slots)
    && AddressesCurrent(addresses, slots)
    && (DistinctNames(bindings) ==> Sized(bindings, slots))
  }

  function AddAddresses(addresses: map<string, nat>, slots: map<string, Buffer>, info: BindingInfo): map<string, nat> {
    RebindAddresses(addresses, slots, info.name, info.Bytes() > 0)
  }

  lemma AddKeeps(h: Heap, slots: map<string, Buffer>, addresses: map<string, nat>, bindings: seq<BindingInfo>,
                 info: BindingInfo)
    requires Consistent(bindings, slots, addresses)
    ensures var slots' := AddSlots(h, slots, info, true);
            Consistent(bindings + [info], slots', AddAddresses(addresses, slots', info))
  {
    var bindings', slots' := bindings + [info], AddSlots(h, slots, info, true);
    forall n | n in slots' ensures IndexOf(bindings', n) < |bindings'| {
      IndexOfAppend(bindings, info, n);
    }
    if DistinctNames(bindings') {
      assert forall i :: 0 <= i < |bindings| ==> bindings[i] == bindings'[i];
      AddSizes(h, slots, bindings, info);
    }
  }

  /** An engine as a value: the device, the bindings, their buffers, and the context's addresses. */
  datatype EngineState =
    EngineState(heap: Heap, bindings: seq<BindingInfo>, slots: map<string, Buffer>, addresses: map<string, nat>)

  /** A call of `set_input_shape`, with the context's answer and that of `cudaMalloc`. */
  datatype ShapeCall = ShapeCall(name: string, shape: seq<int>, accepted: bool, ok: bool)

  /** Which exception a call throws before it touches the binding, if any. */
  function Refusal(bindings: seq<BindingInfo>, c: ShapeCall): Option<Exception> {
    if |c.shape| > MAX_DIMS then Some(InvalidArgument)
    else if !c.accepted then Some(RuntimeError)
    else if IndexOf(bindings, c.name) == |bindings| then Some(OutOfRange)
    else None
  }

  /** The binding that an accepted call reshapes, in its new shape. */
  function Target(bindings: seq<BindingInfo>, c: ShapeCall): BindingInfo
    requires Refusal(bindings, c) == None
  {
    Reshaped(bindings[IndexOf(bindings, c.name)], c.shape)
  }

  /** The exception that leaves a call, if any. */
  function ShapeThrows(bindings: seq<BindingInfo>, c: ShapeCall): Option<Exception> {
    if Refusal(bindings, c).Some? then Refusal(bindings, c)
    else if Target(bindings, c).Bytes() > 0 && !c.ok then Some(RuntimeError)
    else None
  }

  /** The engine after a call. */
  function Shaped(s: EngineState, c: ShapeCall): EngineState {
    if Refusal(s.bindings, c).Some? then s
    else
      var b := Target(s.bindings, c);
      var slots := RebindSlots(s.heap, s.slots, c.name, b.Bytes(), c.ok);
      EngineState(
        ResetHeap(s.heap, Current(s.slots, c.name), b.Bytes(), c.ok),
        s.bindings[IndexOf(s.bindings, c.name) := b],
        slots,
        RebindAddresses(s.addresses, slots, c.name, b.Bytes() == 0 || c.ok))
  }

  class TrtEngine {
    const impl: BufferMap
    var bindings: seq<BindingInfo>

    ghost function Value(): EngineState
      reads this, impl, impl.buffers.Values, impl.device
    {
      EngineState(impl.device.heap, bindings, impl.Slots(), impl.addresses)
    }

    constructor (impl: BufferMap)
      ensures this.impl == impl && bindings == []
    {
      this.impl := impl;
      bindings := [];
    }

    /** `binding(name)` */
    method Binding(name: string) returns (r: Result<nat>)
      ensures r == if IndexOf(bindings, name) < |bindings| then Ok(IndexOf(bindings, name)) else Err(OutOfRange)
    {
      for i := 0 to |bindings|
        invariant forall j :: 0 <= j < i ==> bindings[j].name != name
      {
        if bindings[i].name == name {
          return Ok(i);
        }
      }
      return Err(OutOfRange);
    }

    /** The allocation of one round, for a binding of known shape. */
    method AllocateFor(info: BindingInfo, ok: bool) returns (r: Result<()>, ghost ops: seq<Op>)
      requires impl.Separate()
      modifies impl, impl.buffers.Values, impl.device
      ensures impl.Separate() && fresh(impl.buffers.Values - old(impl.buffers.Values))
      ensures Runs(old(impl.State()), ops, impl.State())
      ensures r == if info.Bytes() == 0 || ok then Ok(()) else Err(RuntimeError)
      ensures r.Ok? ==> impl.Slots() == AddSlots(old(impl.device.heap), old(impl.Slots()), info, true)
      ensures r.Ok? ==> impl.addresses == AddAddresses(old(impl.addresses), impl.Slots(), info)
    {
      BytesPositive(info);
      if info.volume > 0 && info.elementSize > 0 {
        r, ops := impl.Rebind(info.name, info.volume * info.elementSize, ok);
      } else {
        r, ops := Ok(()), [];
      }
    }

    /** One round of the constructor's loop. */
    method AddBinding(t: Tensor, ok: bool) returns (r: Result<()>, ghost ops: seq<Op>)
      requires impl.Separate()
      modifies this, impl, impl.buffers.Values, impl.device
      ensures impl.Separate() && fresh(impl.buffers.Values - old(impl.buffers.Values))
      ensures Runs(old(impl.State()), ops, impl.State())
      ensures r == if t.Info().Bytes() == 0 || ok then Ok(()) else Err(RuntimeError)
      ensures r.Ok? ==>
        && bindings == old(bindings) + [t.Info()]
        && impl.Slots() == AddSlots(old(impl.device.heap), old(impl.Slots()), t.Info(), true)
        && impl.addresses == AddAddresses(old(impl.addresses), impl.Slots(), t.Info())
    {
      var volume := VolumeOf(t.dims);
      var info := BindingInfo(t.name, t.dims, ElementSize(t.dtype), volume, t.isInput);
      r, ops := AllocateFor(info, ok);
      if r.Ok? {
        bindings := bindings + [info];
      }
    }

    /** The same, with what the constructor maintains. */
    method AddNext(t: Tensor, ok: bool, ghost start: Memory, ghost ops: seq<Op>)
      returns (r: Result<()>, ghost all: seq<Op>)
      requires impl.Separate() && Runs(start, ops, impl.State())
      requires Consistent(bindings, impl.Slots(), impl.addresses)
      modifies this, impl, impl.buffers.Values, impl.device
      ensures impl.Separate() && fresh(impl.buffers.Values - old(impl.buffers.Values))
      ensures Runs(start, all, impl.State())
      ensures r == if t.Info().Bytes() == 0 || ok then Ok(()) else Err(RuntimeError)
      ensures r.Ok? ==> bindings == old(bindings) + [t.Info()] && Consistent(bindings, impl.Slots(), impl.addresses)
    {
      ghost var before := impl.State();
      AddKeeps(impl.device.heap, impl.Slots(), impl.addresses, bindings, t.Info());
      ghost var more;
      r, more := AddBinding(t, ok);
      all := ops + more;
      RunsConcat(start, ops, before, more, impl.State());
    }

    /** The accepted case: the binding takes the new shape, and its buffer is reallocated. */
    method Reshape(i: nat, shape: seq<int>, ok: bool) returns (r: Result<()>, ghost ops: seq<Op>)
      requires impl.Separate() && i < |bindings|
      modifies this, impl, impl.buffers.Values, impl.device
      ensures impl.Separate() && fresh(impl.buffers.Values - old(impl.buffers.Values))
      ensures Runs(old(impl.State()), ops, impl.State())
      ensures bindings == old(bindings)[i := Reshaped(old(bindings)[i], shape)]
      ensures r == if bindings[i].Bytes() == 0 || ok then Ok(()) else Err(RuntimeError)
      ensures impl.device.heap
        == ResetHeap(old(impl.device.heap), Current(old(impl.Slots()), bindings[i].name), bindings[i].Bytes(), ok)
      ensures impl.Slots()
        == RebindSlots(old(impl.device.heap), old(impl.Slots()), bindings[i].name, bindings[i].Bytes(), ok)
      ensures impl.addresses == RebindAddresses(old(impl.addresses), impl.Slots(), bindings[i].name, r.Ok?)
    {
      var volume := VolumeOf(shape);
      bindings := bindings[i := bindings[i].(shape := shape, volume := volume)];
      r, ops := impl.Rebind(bindings[i].name, bindings[i].volume * bindings[i].elementSize, ok);
    }

    /**
     `set_input_shape`. A refusal changes nothing. Otherwise the first binding of that name takes
     the new shape and its buffer is reallocated; when that allocation fails, the old one is
     already gone and the context keeps its address.
     */
    method SetInputShape(name: string, shape: seq<int>, accepted: bool, ok: bool)
      returns (r: Result<()>, ghost ops: seq<Op>)
      requires impl.Separate()
      modifies this, impl, impl.buffers.Values, impl.device
      ensures impl.Separate() && fresh(impl.buffers.Values - old(impl.buffers.Values))
      ensures Runs(old(impl.State()), ops, impl.State())
      ensures r.Err? <==> ShapeThrows(old(bindings), ShapeCall(name, shape, accepted, ok)).Some?
      ensures r.Err? ==> ShapeThrows(old(bindings), ShapeCall(name, shape, accepted, ok)) == Some(r.error)
      ensures Value() == Shaped(old(Value()), ShapeCall(name, shape, accepted, ok))
    {
      if |shape| > MAX_DIMS {
        return Err(InvalidArgument), [];
      }
      if !accepted {
        return Err(RuntimeError), [];
      }
      var found := Binding(name);
      if found.Err? {
        return Err(found.error), [];
      }
      r, ops := Reshape(found.value, shape, ok);
    }
  }

  // ------------------------------------------------------------ main results

  /** Allocation `i` is not needed, or succeeds. */
  predicate Succeeds(tensors: seq<Tensor>, mallocOk: nat -> bool, i: nat)
    requires i < |tensors|
  {
    tensors[i].Info().Bytes() == 0 || mallocOk(i)
  }

  predicate SucceedTo(tensors: seq<Tensor>, mallocOk: nat -> bool, n: nat)
    requires n <= |tensors|
  {
    forall i :: 0 <= i < n ==> Succeeds(tensors, mallocOk, i)
  }

  lemma LoadStep(tensors: seq<Tensor>, mallocOk: nat -> bool, i: nat)
    requires i < |tensors| && SucceedTo(tensors, mallocOk, i)
    ensures SucceedTo(tensors, mallocOk, i + 1) <==> Succeeds(tensors, mallocOk, i)
    ensures !Succeeds(tensors, mallocOk, i) ==> !SucceedTo(tensors, mallocOk, |tensors|)
    ensures Infos(tensors)[..i + 1] == Infos(tensors)[..i] + [tensors[i].Info()]
  {}

  /** Whether the file opens, and whether TensorRT builds its runtime, engine and context from it. */
  datatype Startup = Startup(opens: bool, runtime: bool, engine: bool, context: bool) {
    predicate AllWell() { opens && runtime && engine && context }
  }

  /**
   The constructor. It succeeds exactly when the engine starts up and every allocation it needs
   does; when it throws, part-way included, everything it allocated is freed and the device
   holds what it held before.
   */
  method Load(device: Device, startup: Startup, tensors: seq<Tensor>, mallocOk: nat -> bool)
    returns (r: Result<TrtEngine>, ghost ops: seq<Op>)
    modifies device
    ensures r.Ok? <==> startup.AllWell() && SucceedTo(tensors, mallocOk, |tensors|)
    ensures r.Err? ==> r.error == RuntimeError
    ensures r.Err? ==> Runs(Memory(old(device.heap), map[]), ops, Memory(device.heap, map[]))
    ensures r.Err? && Owns(old(device.heap), map[], old(device.heap).live.Keys) ==>
      device.heap.live == old(device.heap.live)
    ensures r.Ok? ==>
      && fresh(r.value) && fresh(r.value.impl) && r.value.impl.device == device
      && r.value.impl.Separate()
      && Runs(Memory(old(device.heap), map[]), ops, r.value.impl.State())
      && r.value.bindings == Infos(tensors)
      && Consistent(Infos(tensors), r.value.impl.Slots(), r.value.impl.addresses)
  {
    if !startup.opens {
      return Err(RuntimeError), [];
    }
    if !startup.runtime {
      return Err(RuntimeError), [];
    }
    if !startup.engine {
      return Err(RuntimeError), [];
    }
    if !startup.context {
      return Err(RuntimeError), [];
    }
    r, ops := AddAll(device, tensors, mallocOk);
  }

  /** The loop over the I/O tensors. */
  method AddAll(device: Device, tensors: seq<Tensor>, mallocOk: nat -> bool)
    returns (r: Result<TrtEngine>, ghost ops: seq<Op>)
    modifies device
    ensures r.Ok? <==> SucceedTo(tensors, mallocOk, |tensors|)
    ensures r.Err? ==> r.error == RuntimeError
    ensures r.Err? ==> Runs(Memory(old(device.heap), map[]), ops, Memory(device.heap, map[]))
    ensures r.Err? && Owns(old(device.heap), map[], old(device.heap).live.Keys) ==>
      device.heap.live == old(device.heap.live)
    ensures r.Ok? ==>
      && fresh(r.value) && fresh(r.value.impl) && r.value.impl.device == device
      && r.value.impl.Separate()
      && Runs(Memory(old(device.heap), map[]), ops, r.value.impl.State())
      && r.value.bindings == Infos(tensors)
      && Consistent(Infos(tensors), r.value.impl.Slots(), r.value.impl.addresses)
  {
    var impl := new BufferMap(device);
    var engine := new TrtEngine(impl);
    ghost var start := Memory(device.heap, map[]);
    assert impl.Slots() == map[];
    ops := [];
    for i := 0 to |tensors|
      invariant engine.impl == impl && impl.device == device
      invariant impl.Separate() && fresh(impl.buffers.Values)
      invariant Runs(start, ops, impl.State())
      invariant SucceedTo(tensors, mallocOk, i)
      invariant engine.bindings == Infos(tensors)[..i]
      invariant Consistent(engine.bindings, impl.Slots(), impl.addresses)
    {
      LoadStep(tensors, mallocOk, i);
      var added;
      added, ops := engine.AddNext(tensors[i], mallocOk(i), start, ops);
      if added.Err? {
        ops := Unwind(impl, start, ops);
        return Err(added.error), ops;
      }
    }
    return Ok(engine), ops;
  }

  /** Stack unwinding: the members of the half-built engine are destroyed. */
  method Unwind(impl: BufferMap, ghost start: Memory, ghost ops: seq<Op>) returns (ghost all: seq<Op>)
    requires impl.Separate() && start.slots == map[] && Runs(start, ops, impl.State())
    modifies impl`buffers, impl.buffers.Values, impl.device
    ensures Runs(start, all, Memory(impl.device.heap, map[]))
    ensures Owns(start.heap, map[], start.heap.live.Keys) ==> impl.device.heap.live == start.heap.live
  {
    ghost var failed := impl.State();
    var freeing := impl.DestroyAll();
    RunsConcat(start, ops, failed, freeing, impl.State());
    all := ops + freeing;
    if Owns(start.heap, map[], start.heap.live.Keys) {
      RunRestores(start, all, impl.State());
    }
  }

  // -------------------------------------------------- sequences of shapes

  /** The named binding's buffer has the size its shape asks for. */
  predicate SizedAt(s: EngineState, n: string) {
    var i := IndexOf(s.bindings, n);
    i < |s.bindings| ==> Current(s.slots, n).bytes == s.bindings[i].Bytes()
  }

  /** The address that the context holds for the name is that of its current allocation. */
  predicate AddressedAt(s: EngineState, n: string) {
    n in s.addresses ==> n in s.slots && s.addresses[n] == s.slots[n].data
  }

  /** A buffer is null exactly when it is empty; a new allocation is not null. */
  predicate Sane(s: EngineState, n: string) {
    s.heap.next > 0 && (Current(s.slots, n).data == 0 <==> Current(s.slots, n).bytes == 0)
  }

  function ShapeRun(s: EngineState, calls: seq<ShapeCall>): EngineState {
    if calls == [] then s else Shaped(ShapeRun(s, calls[..|calls| - 1]), calls[|calls| - 1])
  }

  /** The last call that reached the named binding returned, or there was none. */
  predicate LastReturned(s: EngineState, calls: seq<ShapeCall>, n: string) {
    calls == [] || (
      var before, c := ShapeRun(s, calls[..|calls| - 1]), calls[|calls| - 1];
      if c.name != n || Refusal(before.bindings, c).Some? then LastReturned(s, calls[..|calls| - 1], n)
      else ShapeThrows(before.bindings, c) == None)
  }

  lemma {:induction false} IndexOfReshaped(bindings: seq<BindingInfo>, i: nat, shape: seq<int>, n: string)
    requires i < |bindings|
    ensures IndexOf(bindings[i := Reshaped(bindings[i], shape)], n) == IndexOf(bindings, n)
  {
    var bindings' := bindings[i := Reshaped(bindings[i], shape)];
    if bindings[0].name != n {
      if i == 0 {
        assert bindings'[1..] == bindings[1..];
      } else {
        assert bindings'[1..] == bindings[1..][i - 1 := Reshaped(bindings[1..][i - 1], shape)];
        IndexOfReshaped(bindings[1..], i - 1, shape, n);
      }
    }
  }

  /** One call: what it names is as the call leaves it, and nothing else is touched. */
  lemma ShapeStep(s: EngineState, c: ShapeCall, n: string)
    requires Sane(s, n)
    ensures Sane(Shaped(s, c), n)
    ensures Refusal(s.bindings, c) == None && c.name == n ==>
              && (SizedAt(Shaped(s, c), n) <==> ShapeThrows(s.bindings, c) == None)
              && (AddressedAt(Shaped(s, c), n)
                  <==> ShapeThrows(s.bindings, c) == None || n !in s.addresses || s.addresses[n] == 0)
    ensures Refusal(s.bindings, c).Some? || c.name != n ==>
              && SizedAt(Shaped(s, c), n) == SizedAt(s, n) && AddressedAt(Shaped(s, c), n) == AddressedAt(s, n)
              && (n in Shaped(s, c).addresses <==> n in s.addresses)
              && (n in s.addresses ==> Shaped(s, c).addresses[n] == s.addresses[n])
  {
    if Refusal(s.bindings, c) == None { IndexOfReshaped(s.bindings, IndexOf(s.bindings, c.name), c.shape, n); }
  }

  /** What a refusal is: more than eight dimensions, then the context's answer, then an unknown name. */
  lemma ShapesRefused(bindings: seq<BindingInfo>, c: ShapeCall)
    ensures Refusal(bindings, c) == Some(InvalidArgument) <==> |c.shape| > 8
    ensures Refusal(bindings, c) == Some(RuntimeError) <==> |c.shape| <= 8 && !c.accepted
    ensures Refusal(bindings, c) == Some(OutOfRange) <==>
            |c.shape| <= 8 && c.accepted && forall b :: b in bindings ==> b.name != c.name
  {
    if i :| 0 <= i < |bindings| && bindings[i].name == c.name {
      assert bindings[i] in bindings;
    }
  }

  /** What the constructor leaves is a sound start for any name, whatever else lives on the device. */
  lemma LoadedIsSound(s: EngineState, foreign: set<nat>, n: string)
    requires Owns(s.heap, s.slots, foreign) && Consistent(s.bindings, s.slots, s.addresses) && DistinctNames(s.bindings)
    ensures Sane(s, n) && SizedAt(s, n) && AddressedAt(s, n)
  {}

  /**
   Any sequence of shape changes, refused, failing or not, on an engine that starts out
   consistent. A binding's buffer has the size of its shape if and only if the last call that
   reached it returned; and the context's address for it is current if and only if that is so,
   or it holds none, or null.
   */
  lemma {:induction false} ShapesOverRun(s: EngineState, calls: seq<ShapeCall>, n: string)
    requires Sane(s, n) && SizedAt(s, n) && AddressedAt(s, n)
    ensures var s' := ShapeRun(s, calls);
            && Sane(s', n)
            && (SizedAt(s', n) <==> LastReturned(s, calls, n))
            && (AddressedAt(s', n) <==> LastReturned(s, calls, n) || n !in s'.addresses || s'.addresses[n] == 0)
  {
    if calls != [] {
      ShapesOverRun(s, calls[..|calls| - 1], n);
      ShapeStep(ShapeRun(s, calls[..|calls| - 1]), calls[|calls| - 1], n);
    }
  }
}

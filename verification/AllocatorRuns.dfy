/**
 Whole runs of the allocator.

 Serve performs any list of calls and is proved to follow the abstract machine whose
 state is a map from handles to bytes (Allowed). Over every run of that machine handles
 are never reused, and bytes written are read back until they are freed or overwritten.
 */
module AllocatorRuns {
  import opened Common
  import opened Extents
  import opened Allocator

  datatype Call =
    | AllocateCall(nbytes: int, alignment: Option<int>)
    | FreeCall(handle: int)
    | WriteCall(handle: int, offset: int, data: seq<byte>)
    | ReadCall(handle: int, offset: int, size: int)

  datatype Reply = Handle(h: int) | Done | Data(bytes: seq<byte>) | Failed(error: Error)

  /** The abstract allocator: what every handle holds, and the next handle. */
  datatype Abs = Abs(tensors: map<int, seq<byte>>, next: int)

  function AbsRange(s: Abs, h: int, offset: int, size: int): Option<Error>
  {
    if h !in s.tensors then Some(UnknownTensor)
    else if offset < 0 || size < 0 then Some(InvalidRequest)
    else if offset + size > |s.tensors[h]| then Some(OutOfBounds)
    else None
  }

  /** One call of the abstract machine. */
  predicate Allowed(s: Abs, c: Call, r: Reply, t: Abs)
  {
    match c
    case AllocateCall(n, _) =>
      if r.Handle? then
        && r.h == s.next && t.next == s.next + 1
        && r.h !in s.tensors && r.h in t.tensors && |t.tensors[r.h]| == n
        && t.tensors == s.tensors[r.h := t.tensors[r.h]]
      else
        && r.Failed? && t == s
        && r.error in {InvalidRequest, OutOfMemory, ValueError} && (n < 0 <==> r.error == InvalidRequest) && n != 0
    case FreeCall(h) =>
      if h in s.tensors then r == Done && t == s.(tensors := s.tensors - {h})
      else r == Failed(UnknownTensor) && t == s
    case WriteCall(h, offset, data) =>
      var bad := AbsRange(s, h, offset, |data|);
      if bad.Some? then r == Failed(bad.value) && t == s
      else r == Done && t == s.(tensors := s.tensors[h := Patch(s.tensors[h], offset, data)])
    case ReadCall(h, offset, size) =>
      var bad := AbsRange(s, h, offset, size);
      t == s && r == if bad.Some? then Failed(bad.value) else Data(s.tensors[h][offset..offset + size])
  }

  /** A run: states between calls, each call allowed. */
  predicate Run(states: seq<Abs>, calls: seq<Call>, replies: seq<Reply>)
  {
    && |states| == |calls| + 1 && |replies| == |calls|
    && (forall h :: h in states[0].tensors ==> h < states[0].next)
    && forall i :: 0 <= i < |calls| ==> Allowed(states[i], calls[i], replies[i], states[i + 1])
  }

  ghost function AbsOf(a: TensorAllocator): Abs
    reads a, a.slabs
  {
    Abs(a.Tensors(), a.nextHandle)
  }

  lemma RangeAgrees(a: TensorAllocator, h: int, offset: int, size: int)
    requires a.Valid()
    ensures AbsRange(AbsOf(a), h, offset, size) == a.RangeError(h, offset, size)
    ensures h in a.Tensors() <==> h in a.records
  {
    hide TensorAllocator.Valid, Addrs;
    if h in a.records {
      a.RecordLength(h);
    }
  }

  /** One call on the allocator is one call of the abstract machine. */
  method Perform(a: TensorAllocator, c: Call) returns (r: Reply)
    requires a.Valid()
    modifies a, a.slabs
    ensures a.Valid()
    ensures Allowed(old(AbsOf(a)), c, r, AbsOf(a))
  {
    hide TensorAllocator.Valid, TensorAllocator.Tensors, TensorAllocator.RangeError, Addrs;
    match c
    case AllocateCall(n, alignment) =>
      RangeAgrees(a, a.nextHandle, 0, 0);
      var got := a.Allocate(n, alignment);
      r := if got.Ok? then Handle(got.value.handle) else Failed(got.error);
    case FreeCall(h) =>
      RangeAgrees(a, h, 0, 0);
      var got := a.Free(h);
      r := if got.Ok? then Done else Failed(got.error);
    case WriteCall(h, offset, data) =>
      RangeAgrees(a, h, offset, |data|);
      var bad := a.Write(h, offset, data);
      r := if bad.None? then Done else Failed(bad.value);
    case ReadCall(h, offset, size) =>
      RangeAgrees(a, h, offset, size);
      var got := a.Read(h, offset, size);
      r := if got.Ok? then Data(got.value) else Failed(got.error);
  }

  /** Any list of calls follows a run of the abstract machine. */
  method Serve(a: TensorAllocator, calls: seq<Call>) returns (replies: seq<Reply>, ghost states: seq<Abs>)
    requires a.Valid()
    modifies a, a.slabs
    ensures a.Valid()
    ensures Run(states, calls, replies)
    ensures states[0] == old(AbsOf(a)) && states[|calls|] == AbsOf(a)
  {
    hide TensorAllocator.Valid, TensorAllocator.Tensors, Allowed;
    replies, states := [], [AbsOf(a)];
    HandlesBelow(a);
    for i := 0 to |calls|
      invariant a.Valid()
      invariant Run(states, calls[..i], replies)
      invariant states[0] == old(AbsOf(a)) && states[i] == AbsOf(a)
    {
      var r := Perform(a, calls[i]);
      RunSnoc(states, calls[..i], replies, calls[i], r, AbsOf(a));
      assert calls[..i + 1] == calls[..i] + [calls[i]];
      replies, states := replies + [r], states + [AbsOf(a)];
    }
    assert calls[..|calls|] == calls;
  }

  lemma HandlesBelow(a: TensorAllocator)
    requires a.Valid()
    ensures forall h :: h in a.Tensors() ==> h < a.nextHandle
  {
    hide Tiles, Gather, Addrs;
  }

  lemma RunSnoc(states: seq<Abs>, calls: seq<Call>, replies: seq<Reply>, c: Call, r: Reply, t: Abs)
    requires Run(states, calls, replies) && Allowed(states[|calls|], c, r, t)
    ensures Run(states + [t], calls + [c], replies + [r])
  {
    hide Allowed;
    var ss, cs, rs := states + [t], calls + [c], replies + [r];
    forall i | 0 <= i < |cs| ensures Allowed(ss[i], cs[i], rs[i], ss[i + 1]) {
      if i < |calls| {
        assert Allowed(states[i], calls[i], replies[i], states[i + 1]);
      }
    }
  }

  // ----- properties of every run -----

  lemma {:induction false} NextGrows(states: seq<Abs>, calls: seq<Call>, replies: seq<Reply>, i: nat, j: nat)
    requires Run(states, calls, replies) && i <= j <= |calls|
    ensures states[i].next <= states[j].next
  {
    if i < j {
      NextGrows(states, calls, replies, i, j - 1);
      assert Allowed(states[j - 1], calls[j - 1], replies[j - 1], states[j - 1 + 1]);
    }
  }

  /** No handle is ever given out twice. */
  lemma HandlesNeverReused(states: seq<Abs>, calls: seq<Call>, replies: seq<Reply>, i: nat, j: nat)
    requires Run(states, calls, replies) && i < j < |calls|
    requires calls[i].AllocateCall? && replies[i].Handle? && calls[j].AllocateCall? && replies[j].Handle?
    ensures replies[i].h < replies[j].h
  {
    assert Allowed(states[i], calls[i], replies[i], states[i + 1]);
    assert Allowed(states[j], calls[j], replies[j], states[j + 1]);
    hide Allowed;
    NextGrows(states, calls, replies, i + 1, j);
  }

  /** A call that neither frees the tensor nor writes into the range. */
  predicate LeavesAlone(c: Call, h: int, offset: int, n: int)
  {
    match c
    case FreeCall(g) => g != h
    case WriteCall(g, at, data) => g != h || at + |data| <= offset || offset + n <= at
    case _ => true
  }

  lemma StepLeavesAlone(s: Abs, c: Call, r: Reply, t: Abs, h: int, offset: nat, n: nat)
    requires Allowed(s, c, r, t) && LeavesAlone(c, h, offset, n)
    requires h in s.tensors && offset + n <= |s.tensors[h]|
    ensures h in t.tensors && |t.tensors[h]| == |s.tensors[h]|
    ensures t.tensors[h][offset..offset + n] == s.tensors[h][offset..offset + n]
  {
  }

  lemma {:induction false} RangeStays(
    states: seq<Abs>, calls: seq<Call>, replies: seq<Reply>, i: nat, j: nat, h: int, offset: nat, n: nat)
    requires Run(states, calls, replies) && i <= j <= |calls|
    requires h in states[i].tensors && offset + n <= |states[i].tensors[h]|
    requires forall k :: i <= k < j ==> LeavesAlone(calls[k], h, offset, n)
    ensures h in states[j].tensors && |states[j].tensors[h]| == |states[i].tensors[h]|
    ensures states[j].tensors[h][offset..offset + n] == states[i].tensors[h][offset..offset + n]
  {
    hide Allowed, LeavesAlone;
    if i < j {
      RangeStays(states, calls, replies, i, j - 1, h, offset, n);
      assert Allowed(states[j - 1], calls[j - 1], replies[j - 1], states[j - 1 + 1]);
      StepLeavesAlone(states[j - 1], calls[j - 1], replies[j - 1], states[j], h, offset, n);
    }
  }

  /** What was written is what a later read returns, until it is freed or overwritten. */
  lemma WrittenIsRead(states: seq<Abs>, calls: seq<Call>, replies: seq<Reply>, i: nat, j: nat)
    requires Run(states, calls, replies) && i < j < |calls|
    requires calls[i].WriteCall? && replies[i] == Done
    requires forall k :: i < k < j ==> LeavesAlone(calls[k], calls[i].handle, calls[i].offset, |calls[i].data|)
    requires calls[j] == ReadCall(calls[i].handle, calls[i].offset, |calls[i].data|)
    ensures replies[j] == Data(calls[i].data)
  {
    hide LeavesAlone;
    var h, offset, data := calls[i].handle, calls[i].offset, calls[i].data;
    assert Allowed(states[i], calls[i], replies[i], states[i + 1]);
    assert AbsRange(states[i], h, offset, |data|).None?;
    assert states[i + 1].tensors[h][offset..offset + |data|] == data;
    RangeStays(states, calls, replies, i + 1, j, h, offset, |data|);
    assert Allowed(states[j], calls[j], replies[j], states[j + 1]);
  }
}

/** Ownership of malloc'd buffers by result objects (clib/streamer.hpp:18-70). */
module Ownership {
  import opened Wrappers

  // ---------- the allocator ----------

  /** Buffers are numbered in the order in which malloc hands them out. */
  datatype HeapState = HeapState(next: nat, live: set<nat>, frees: seq<nat>)

  const EMPTY_HEAP := HeapState(0, {}, [])

  /** The fields of a result. */
  datatype ResultValue = ResultValue(data: Option<nat>, len: nat, error: int, message: string)

  const MESSAGE_CAPACITY: nat := 256

  function Truncated(message: string): string {
    if |message| < MESSAGE_CAPACITY then message else message[..MESSAGE_CAPACITY - 1]
  }

  const DEFAULT_VALUE := ResultValue(None, 0, 0, "")

  function ErrorValue(code: int, message: string): ResultValue {
    ResultValue(None, 0, code, Truncated(message))
  }

  function OwnerValue(data: nat, len: nat): ResultValue {
    ResultValue(Some(data), len, 0, "")
  }

  /** A result after it has given its buffer away or up. */
  function Emptied(v: ResultValue): ResultValue {
    v.(data := None, len := 0)
  }

  function FreedValue(v: ResultValue): ResultValue {
    if v.data.Some? then Emptied(v) else v
  }

  function FreedHeap(h: HeapState, v: ResultValue): HeapState {
    if v.data.Some? then h.(live := h.live - {v.data.value}, frees := h.frees + [v.data.value]) else h
  }

  class Heap {
    var next: nat
    var live: set<nat>
    var frees: seq<nat>

    function State(): HeapState
      reads this
    {
      HeapState(next, live, frees)
    }

    constructor ()
      ensures State() == EMPTY_HEAP
    {
      next, live, frees := 0, {}, [];
    }

    method Malloc() returns (buffer: nat)
      modifies this
      ensures buffer == old(next)
      ensures State() == HeapState(old(next) + 1, old(live) + {buffer}, old(frees))
    {
      buffer := next;
      next, live := next + 1, live + {buffer};
    }

    /** Freeing what is not live is undefined behaviour. */
    method Free(buffer: nat)
      requires buffer in live
      modifies this
      ensures State() == HeapState(old(next), old(live) - {buffer}, old(frees) + [buffer])
    {
      live, frees := live - {buffer}, frees + [buffer];
    }
  }

  class Result {
    var data: Option<nat>
    var len: nat
    var error: int
    var message: string

    function Value(): ResultValue
      reads this
    {
      ResultValue(data, len, error, message)
    }

    constructor Default()
      ensures Value() == DEFAULT_VALUE
    {
      data, len, error, message := None, 0, 0, "";
    }

    constructor FromError(code: int, text: string)
      ensures Value() == ErrorValue(code, text)
    {
      data, len, error, message := None, 0, code, Truncated(text);
    }

    constructor FromBuffer(buffer: nat, size: nat)
      ensures Value() == OwnerValue(buffer, size)
    {
      data, len, error, message := Some(buffer), size, 0, "";
    }

    constructor Move(other: Result)
      modifies other
      ensures Value() == old(other.Value())
      ensures other.Value() == Emptied(old(other.Value()))
    {
      data, len, error, message := other.data, other.len, other.error, other.message;
      new;
      other.data := None;
      other.len := 0;
    }

    method Free(heap: Heap)
      requires data.Some? ==> data.value in heap.live
      modifies this, heap
      ensures Value() == FreedValue(old(Value()))
      ensures heap.State() == FreedHeap(old(heap.State()), old(Value()))
    {
      if data.Some? {
        heap.Free(data.value);
        data := None;
        len := 0;
      }
    }

    /** The move assignment; other may be this object. */
    method MoveAssign(heap: Heap, other: Result)
      requires data.Some? ==> data.value in heap.live
      modifies this, heap, other
      ensures heap.State() == FreedHeap(old(heap.State()), old(Value()))
      ensures this != other ==> Value() == old(other.Value()) && other.Value() == Emptied(old(other.Value()))
      ensures this == other ==> Value() == Emptied(old(Value()))
    {
      Free(heap);
      data := other.data;
      len := other.len;
      error := other.error;
      message := other.message;
      other.data := None;
      other.len := 0;
    }
  }

  // ---------- programs over results ----------

  /** What a program can do; results are named by numbers. */
  datatype Op =
    | Default(r: nat)
    | FromError(r: nat, code: int, text: string)
    | FromMalloc(r: nat, size: nat)
    | MoveConstruct(r: nat, source: nat)
    | MoveAssign(r: nat, source: nat)
    | Free(r: nat)
    | Destroy(r: nat)

  datatype World = World(heap: HeapState, results: map<nat, ResultValue>)

  const EMPTY_WORLD := World(EMPTY_HEAP, map[])

  /** A result is constructed under a new name and used or destroyed while it exists. */
  predicate Enabled(w: World, op: Op) {
    match op
    case Default(r) => r !in w.results
    case FromError(r, _, _) => r !in w.results
    case FromMalloc(r, _) => r !in w.results
    case MoveConstruct(r, source) => r !in w.results && source in w.results
    case MoveAssign(r, source) => r in w.results && source in w.results
    case Free(r) => r in w.results
    case Destroy(r) => r in w.results
  }

  function Step(w: World, op: Op): World
    requires Enabled(w, op)
  {
    match op
    case Default(r) => w.(results := w.results[r := DEFAULT_VALUE])
    case FromError(r, code, text) => w.(results := w.results[r := ErrorValue(code, text)])
    case FromMalloc(r, size) =>
      World(HeapState(w.heap.next + 1, w.heap.live + {w.heap.next}, w.heap.frees),
            w.results[r := OwnerValue(w.heap.next, size)])
    case MoveConstruct(r, source) =>
      w.(results := w.results[r := w.results[source]][source := Emptied(w.results[source])])
    case MoveAssign(r, source) =>
      World(FreedHeap(w.heap, w.results[r]),
            if r == source then w.results[r := Emptied(w.results[r])]
            else w.results[r := w.results[source]][source := Emptied(w.results[source])])
    case Free(r) => World(FreedHeap(w.heap, w.results[r]), w.results[r := FreedValue(w.results[r])])
    case Destroy(r) => World(FreedHeap(w.heap, w.results[r]), w.results - {r})
  }

  predicate Runnable(w: World, ops: seq<Op>)
    decreases |ops|
  {
    ops == [] || (Enabled(w, ops[0]) && Runnable(Step(w, ops[0]), ops[1..]))
  }

  function Run(w: World, ops: seq<Op>): World
    requires Runnable(w, ops)
    decreases |ops|
  {
    if ops == [] then w else Run(Step(w, ops[0]), ops[1..])
  }

  // ---------- the invariant ----------

  predicate Owns(w: World, r: nat, buffer: nat) {
    r in w.results && w.results[r].data == Some(buffer)
  }

  /** Live buffers and owners correspond one to one, and every buffer that was ever allocated is
      either live or has been freed once. */
  ghost predicate Inv(w: World) {
    && (forall r, buffer :: Owns(w, r, buffer) ==> buffer in w.heap.live)
    && (forall buffer | buffer in w.heap.live :: exists r :: Owns(w, r, buffer))
    && (forall r, s, buffer :: Owns(w, r, buffer) && Owns(w, s, buffer) ==> r == s)
    && (forall buffer: nat :: multiset(w.heap.frees)[buffer]
          == if buffer < w.heap.next && buffer !in w.heap.live then 1 else 0)
    && (forall buffer | buffer in w.heap.live :: buffer < w.heap.next)
  }

  /** The invariant speaks of owners only. */
  lemma SameOwners(w: World, v: World)
    requires Inv(w) && v.heap == w.heap
    requires forall r, buffer :: Owns(v, r, buffer) <==> Owns(w, r, buffer)
    ensures Inv(v)
  {
    forall buffer | buffer in v.heap.live
      ensures exists r :: Owns(v, r, buffer)
    {
      var r :| Owns(w, r, buffer);
      assert Owns(v, r, buffer);
    }
  }

  lemma FreeKeeps(w: World, r: nat)
    requires Inv(w) && r in w.results
    ensures Inv(World(FreedHeap(w.heap, w.results[r]), w.results[r := FreedValue(w.results[r])]))
  {
    var v := World(FreedHeap(w.heap, w.results[r]), w.results[r := FreedValue(w.results[r])]);
    if w.results[r].data.Some? {
      var freed := w.results[r].data.value;
      assert Owns(w, r, freed);
      forall s, buffer
        ensures Owns(v, s, buffer) <==> Owns(w, s, buffer) && buffer != freed
      {
      }
      forall buffer | buffer in v.heap.live
        ensures exists s :: Owns(v, s, buffer)
      {
        var s :| Owns(w, s, buffer);
        assert Owns(v, s, buffer);
      }
    } else {
      SameOwners(w, v);
    }
  }

  lemma MallocKeeps(w: World, r: nat, size: nat)
    requires Inv(w) && r !in w.results
    ensures Inv(Step(w, FromMalloc(r, size)))
  {
    var v := Step(w, FromMalloc(r, size));
    forall s, buffer
      ensures Owns(v, s, buffer) <==> Owns(w, s, buffer) || (s == r && buffer == w.heap.next)
    {
    }
    forall buffer | buffer in v.heap.live
      ensures exists s :: Owns(v, s, buffer)
    {
      if buffer == w.heap.next {
        assert Owns(v, r, buffer);
      } else {
        var s :| Owns(w, s, buffer);
        assert Owns(v, s, buffer);
      }
    }
  }

  /** Handing a buffer over to a result that has none. */
  lemma TransferKeeps(w: World, r: nat, source: nat)
    requires Inv(w) && source in w.results && r != source
    requires r in w.results ==> w.results[r].data.None?
    ensures Inv(w.(results := w.results[r := w.results[source]][source := Emptied(w.results[source])]))
  {
    var v := w.(results := w.results[r := w.results[source]][source := Emptied(w.results[source])]);
    forall s, buffer
      ensures Owns(v, s, buffer) <==> (if s == r then Owns(w, source, buffer) else s != source && Owns(w, s, buffer))
    {
    }
    forall buffer | buffer in v.heap.live
      ensures exists s :: Owns(v, s, buffer)
    {
      var s :| Owns(w, s, buffer);
      assert Owns(v, if s == source then r else s, buffer);
    }
  }

  lemma StepKeeps(w: World, op: Op)
    requires Inv(w) && Enabled(w, op)
    ensures Inv(Step(w, op))
  {
    match op
    case Default(r) => SameOwners(w, Step(w, op));
    case FromError(r, code, text) => SameOwners(w, Step(w, op));
    case FromMalloc(r, size) => MallocKeeps(w, r, size);
    case MoveConstruct(r, source) => TransferKeeps(w, r, source);
    case MoveAssign(r, source) =>
      FreeKeeps(w, r);
      var freed := World(FreedHeap(w.heap, w.results[r]), w.results[r := FreedValue(w.results[r])]);
      if r == source {
        SameOwners(freed, Step(w, op));
      } else {
        TransferKeeps(freed, r, source);
        assert freed.results[r := w.results[source]] == w.results[r := w.results[source]];
      }
    case Free(r) => FreeKeeps(w, r);
    case Destroy(r) =>
      FreeKeeps(w, r);
      SameOwners(World(FreedHeap(w.heap, w.results[r]), w.results[r := FreedValue(w.results[r])]), Step(w, op));
  }

  lemma {:induction false} RunKeeps(w: World, ops: seq<Op>)
    requires Inv(w) && Runnable(w, ops)
    ensures Inv(Run(w, ops))
    decreases |ops|
  {
    if ops != [] {
      StepKeeps(w, ops[0]);
      RunKeeps(Step(w, ops[0]), ops[1..]);
    }
  }

  /** Whatever a program does, no buffer ever has two owners or is freed twice, and only what has
      no owner any more has been freed. */
  lemma SingleOwnership(ops: seq<Op>)
    requires Runnable(EMPTY_WORLD, ops)
    ensures var w := Run(EMPTY_WORLD, ops);
            && (forall r, s, buffer :: Owns(w, r, buffer) && Owns(w, s, buffer) ==> r == s)
            && (forall buffer: nat :: multiset(w.heap.frees)[buffer] <= 1)
            && (forall buffer: nat | buffer < w.heap.next ::
                  (exists r :: Owns(w, r, buffer)) <==> buffer !in w.heap.frees)
  {
    RunKeeps(EMPTY_WORLD, ops);
    var w := Run(EMPTY_WORLD, ops);
    forall buffer: nat | buffer < w.heap.next
      ensures (exists r :: Owns(w, r, buffer)) <==> buffer !in w.heap.frees
    {
      assert buffer in w.heap.frees <==> multiset(w.heap.frees)[buffer] > 0;
    }
  }

  /** Once all results are destroyed, every buffer that was allocated has been freed exactly once. */
  lemma NoLeak(ops: seq<Op>)
    requires Runnable(EMPTY_WORLD, ops) && Run(EMPTY_WORLD, ops).results == map[]
    ensures var w := Run(EMPTY_WORLD, ops);
            && w.heap.live == {}
            && (forall buffer: nat | buffer < w.heap.next :: multiset(w.heap.frees)[buffer] == 1)
  {
    RunKeeps(EMPTY_WORLD, ops);
    var w := Run(EMPTY_WORLD, ops);
    assert forall r, buffer :: !Owns(w, r, buffer);
    assert forall buffer :: buffer !in w.heap.live;
  }

  // ---------- lengths and errors ----------

  /** The lengths of the buffers that a program allocates, in the order of allocation. */
  function Sizes(ops: seq<Op>): seq<nat> {
    if ops == [] then [] else SizeOf(ops[0]) + Sizes(ops[1..])
  }

  function SizeOf(op: Op): seq<nat> {
    if op.FromMalloc? then [op.size] else []
  }

  /** A result has the length that its buffer was allocated with, or none. */
  ghost predicate Sized(w: World, sizes: seq<nat>) {
    && |sizes| == w.heap.next
    && forall r | r in w.results ::
         match w.results[r].data
         case Some(buffer) => buffer < |sizes| && w.results[r].len == sizes[buffer]
         case None => w.results[r].len == 0
  }

  lemma StepSized(w: World, op: Op, sizes: seq<nat>)
    requires Enabled(w, op) && Sized(w, sizes)
    ensures Sized(Step(w, op), sizes + SizeOf(op))
  {
  }

  lemma {:induction false} RunSized(w: World, ops: seq<Op>, sizes: seq<nat>)
    requires Runnable(w, ops) && Sized(w, sizes)
    ensures Sized(Run(w, ops), sizes + Sizes(ops))
    decreases |ops|
  {
    if ops == [] {
      assert sizes + Sizes(ops) == sizes;
    } else {
      StepSized(w, ops[0], sizes);
      RunSized(Step(w, ops[0]), ops[1..], sizes + SizeOf(ops[0]));
      Regrouped(sizes, SizeOf(ops[0]), Sizes(ops[1..]));
    }
  }

  lemma Regrouped(a: seq<nat>, b: seq<nat>, c: seq<nat>)
    ensures a + b + c == a + (b + c)
  {
  }

  /** Whatever a program does, the length of a result is that of the buffer it owns, however often
      that has moved, and a result without a buffer has length zero. */
  lemma LengthsTravel(ops: seq<Op>, r: nat)
    requires Runnable(EMPTY_WORLD, ops) && r in Run(EMPTY_WORLD, ops).results
    ensures var v := Run(EMPTY_WORLD, ops).results[r];
            match v.data
            case Some(buffer) => buffer < |Sizes(ops)| && v.len == Sizes(ops)[buffer]
            case None => v.len == 0
  {
    RunSized(EMPTY_WORLD, ops, []);
    assert [] + Sizes(ops) == Sizes(ops);
  }

  /** The result is given a new error or ceases to exist. */
  predicate Replaces(op: Op, r: nat) {
    (op.MoveAssign? || op.Destroy?) && op.r == r
  }

  lemma StepError(w: World, op: Op, r: nat)
    requires Enabled(w, op) && r in w.results && !(Replaces(op, r) && !(op.MoveAssign? && op.source == r))
    ensures r in Step(w, op).results
    ensures Step(w, op).results[r].error == w.results[r].error
    ensures Step(w, op).results[r].message == w.results[r].message
  {
  }

  /** A result keeps its code and message until it is assigned to or destroyed: also when it is
      freed, or its buffer moves away. */
  lemma {:induction false} ErrorKept(w: World, ops: seq<Op>, r: nat)
    requires Runnable(w, ops) && r in w.results
    requires forall i | 0 <= i < |ops| :: !Replaces(ops[i], r)
    ensures var end := Run(w, ops);
            && r in end.results
            && end.results[r].error == w.results[r].error && end.results[r].message == w.results[r].message
    decreases |ops|
  {
    if ops != [] {
      StepError(w, ops[0], r);
      ErrorKept(Step(w, ops[0]), ops[1..], r);
    }
  }

  /** Where a code comes from: the construction, or the result that was moved from. At most 255
      characters of a message are kept. */
  lemma ErrorFrom(w: World, op: Op)
    requires Enabled(w, op)
    ensures var end := Step(w, op);
            match op
            case Default(r) => end.results[r] == ResultValue(None, 0, 0, "")
            case FromError(r, code, text) =>
              var v := end.results[r];
              && v.data == None && v.len == 0 && v.error == code
              && v.message <= text && |v.message| == if |text| < 255 then |text| else 255
            case FromMalloc(r, size) => end.results[r] == ResultValue(Some(w.heap.next), size, 0, "")
            case MoveConstruct(r, source) => end.results[r] == w.results[source]
            case MoveAssign(r, source) => r != source ==> end.results[r] == w.results[source]
            case Free(r) => end.results[r].data == None
            case Destroy(r) => r !in end.results
  {
  }

  // ---------- running a program on result objects ----------

  /** The objects hold exactly the world's values. */
  ghost predicate Represents(heap: Heap, objects: map<nat, Result>, w: World)
    reads heap, objects.Values
  {
    && heap.State() == w.heap
    && objects.Keys == w.results.Keys
    && (forall r | r in objects :: objects[r].Value() == w.results[r])
    && (forall r, s | r in objects && s in objects && r != s :: objects[r] != objects[s])
  }

  /** The constructors. */
  method Construct(heap: Heap, objects: map<nat, Result>, op: Op, ghost w: World) returns (result: Result)
    requires Enabled(w, op) && Represents(heap, objects, w)
    requires op.Default? || op.FromError? || op.FromMalloc? || op.MoveConstruct?
    modifies heap, objects.Values
    ensures fresh(result) && Represents(heap, objects[op.r := result], Step(w, op))
  {
    if op.Default? {
      result := new Result.Default();
    } else if op.FromError? {
      result := new Result.FromError(op.code, op.text);
    } else if op.FromMalloc? {
      var buffer := heap.Malloc();
      result := new Result.FromBuffer(buffer, op.size);
    } else {
      result := new Result.Move(objects[op.source]);
    }
  }

  method Execute(heap: Heap, objects: map<nat, Result>, op: Op, ghost w: World)
    returns (grown: map<nat, Result>)
    requires Inv(w) && Enabled(w, op) && Represents(heap, objects, w)
    modifies heap, objects.Values
    ensures Represents(heap, grown, Step(w, op))
    ensures fresh(grown.Values - objects.Values)
  {
    grown := objects;
    if op.MoveAssign? || op.Free? || op.Destroy? {
      var result := objects[op.r];
      assert forall b :: result.data == Some(b) ==> Owns(w, op.r, b);
      if op.MoveAssign? {
        result.MoveAssign(heap, objects[op.source]);
      } else {
        result.Free(heap);
        if op.Destroy? {
          grown := objects - {op.r};
        }
      }
    } else {
      var result := Construct(heap, objects, op, w);
      grown := objects[op.r := result];
    }
  }

  /** Any program, run on real objects, ends in the world that its steps describe. */
  method RunProgram(ops: seq<Op>) returns (heap: Heap, objects: map<nat, Result>)
    requires Runnable(EMPTY_WORLD, ops)
    ensures Represents(heap, objects, Run(EMPTY_WORLD, ops))
  {
    heap := new Heap();
    objects := map[];
    ghost var w := EMPTY_WORLD;
    assert ops[0..] == ops;
    for i := 0 to |ops|
      invariant fresh(heap) && fresh(objects.Values)
      invariant Inv(w) && Represents(heap, objects, w)
      invariant Runnable(w, ops[i..]) && Run(w, ops[i..]) == Run(EMPTY_WORLD, ops)
    {
      assert ops[i..][0] == ops[i] && ops[i..][1..] == ops[i + 1..];
      StepKeeps(w, ops[i]);
      objects := Execute(heap, objects, ops[i], w);
      w := Step(w, ops[i]);
    }
  }
}

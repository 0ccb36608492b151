/** Mining work as the ASIC layer carries it: components/mining_job/include/asic_job.h and
    components/asic/include/asic_result.h. */
module Work {
  /** `jobId` and `extranonce2` are whole buffers, terminator and all. Hash fields are left out. */
  datatype Job = Job(version: bv32, versionMask: bv32, bits: bv32, poolDiff: real, poolId: nat,
                     sourceType: int, jobId: string, extranonce2: string)

  datatype Context = Context(workGeneration: nat, jobVersion: bv32, cleanJobs: bool, poolWork: bool)

  function DefaultContext(job: Job): Context {
    Context(0, job.version, false, false)
  }
}

/** The table of retained work, components/asic/asic_job_store.c, as operations on its state. */
module JobTable {
  import opened Options
  import opened Work
  import opened Modulo

  const HANDLES := 0x1_0000_0000_0000_0000
  const INVALID_HANDLE := HANDLES - 1
  const GENERATIONS := 0x100_0000_0000_0000  // 2^56: what a handle has room for beside its slot
  const COUNTER := 0x1_0000                  // the slot counter is 16 bits wide

  type Handle = h: int | 0 <= h < HANDLES

  datatype Entry = Entry(handle: Handle, job: Job, context: Context)

  /** A producer's job, known by its address, and the context it is submitted with. */
  datatype Binding = Binding(address: nat, context: Context)

  datatype Table = Table(slots: seq<Option<Entry>>, nextSlot: nat, nextGeneration: nat, binding: Option<Binding>)
  {
    predicate Ok() {
      && 0 < |slots| <= 256 && nextSlot < COUNTER && 0 < nextGeneration < HANDLES
      && forall i :: 0 <= i < |slots| && slots[i].Some? ==> slots[i].value.handle % 256 == i
    }
  }

  function Init(capacity: nat): Table {
    Table(seq(capacity, i => None), 0, 1, None)
  }

  function MakeHandle(generation: nat, slot: nat): Handle {
    (generation * 256 + slot) % HANDLES
  }

  /** The generation after this one; zero is skipped. */
  function NextGeneration(generation: nat): nat {
    if (generation + 1) % HANDLES == 0 then 1 else (generation + 1) % HANDLES
  }

  function ContextFor(t: Table, address: nat, job: Job): Context {
    if t.binding.Some? && t.binding.value.address == address then t.binding.value.context else DefaultContext(job)
  }

  /** A store under a caller's slot, if there is such a slot. The handle is the slot. */
  function StoreSlot(t: Table, slot: nat, address: nat, job: Job): Table {
    if slot >= |t.slots| || slot >= 256 then t
    else t.(slots := t.slots[slot := Some(Entry(slot, job, ContextFor(t, address, job)))])
  }

  function GeneratedSlot(t: Table): nat
    requires |t.slots| > 0
  {
    t.nextSlot % |t.slots| % 256
  }

  function GeneratedHandle(t: Table): Handle
    requires |t.slots| > 0
  {
    MakeHandle(t.nextGeneration, GeneratedSlot(t))
  }

  function StoreGenerated(t: Table, address: nat, job: Job): (r: Table)
    requires t.Ok()
    ensures r.Ok() && |r.slots| == |t.slots|
  {
    hide MakeHandle;
    HandleSlot(t.nextGeneration, GeneratedSlot(t));
    t.(slots := t.slots[GeneratedSlot(t) := Some(Entry(GeneratedHandle(t), job, ContextFor(t, address, job)))],
       nextSlot := (t.nextSlot + 1) % COUNTER, nextGeneration := NextGeneration(t.nextGeneration))
  }

  function Resolve(t: Table, handle: Handle): Option<Entry> {
    if handle != INVALID_HANDLE && handle % 256 < |t.slots| && t.slots[handle % 256].Some?
       && t.slots[handle % 256].value.handle == handle
    then t.slots[handle % 256] else None
  }

  function Release(t: Table, handle: Handle): Table {
    if Resolve(t, handle).Some? then t.(slots := t.slots[handle % 256 := None]) else t
  }

  function InvalidateAll(t: Table): Table {
    t.(slots := seq(|t.slots|, i => None), nextSlot := 0, nextGeneration := NextGeneration(t.nextGeneration))
  }

  // ----- Runs -----

  datatype Op = Generate(address: nat, job: Job) | Put(slot: nat, address: nat, job: Job) | Drop(handle: Handle)
              | Invalidate | Bind(binding: Binding) | Unbind

  function Apply(t: Table, op: Op): (r: Table)
    requires t.Ok()
    ensures r.Ok() && |r.slots| == |t.slots|
  {
    match op
    case Generate(address, job) => StoreGenerated(t, address, job)
    case Put(slot, address, job) => StoreSlot(t, slot, address, job)
    case Drop(handle) => Release(t, handle)
    case Invalidate => InvalidateAll(t)
    case Bind(binding) => t.(binding := Some(binding))
    case Unbind => t.(binding := None)
  }

  lemma HandleSlot(generation: nat, slot: nat)
    requires slot < 256
    ensures MakeHandle(generation, slot) % 256 == slot
    ensures generation < GENERATIONS ==> MakeHandle(generation, slot) == generation * 256 + slot
  {
    var n := generation * 256 + slot;
    assert n % HANDLES == n - n / HANDLES * HANDLES;
    assert HANDLES == GENERATIONS * 256;
    assert n - n / HANDLES * HANDLES == (generation - n / HANDLES * GENERATIONS) * 256 + slot;
  }

  function Run(t: Table, ops: seq<Op>): (r: Table)
    requires t.Ok()
    ensures r.Ok() && |r.slots| == |t.slots|
  {
    if ops == [] then t
    else
      var before := Run(t, ops[..|ops| - 1]);
      Apply(before, ops[|ops| - 1])
  }

  /** Handles collide exactly when their slots agree and their generations do modulo 2^56. */
  lemma HandlesCollideExactly(g1: nat, s1: nat, g2: nat, s2: nat)
    requires s1 < 256 && s2 < 256
    ensures MakeHandle(g1, s1) == MakeHandle(g2, s2) <==> s1 == s2 && g1 % GENERATIONS == g2 % GENERATIONS
  {
    HandleParts(g1, s1);
    HandleParts(g2, s2);
  }

  lemma HandleParts(g: nat, s: nat)
    requires s < 256
    ensures MakeHandle(g, s) == g % GENERATIONS * 256 + s
  {
    var q := g / GENERATIONS;
    assert g * 256 + s == q * HANDLES + (g % GENERATIONS * 256 + s);
  }

  // ----- What a handle can come to -----

  /** A handle generated before now. */
  predicate Past(t: Table, handle: Handle) {
    256 <= handle && handle / 256 < t.nextGeneration
  }

  lemma GenerationStep(t: Table, op: Op)
    requires t.Ok() && t.nextGeneration < GENERATIONS
    ensures t.nextGeneration <= Apply(t, op).nextGeneration <= t.nextGeneration + 1
  {
    hide GeneratedHandle, GeneratedSlot, Resolve, ContextFor;
  }

  lemma {:induction false} GenerationsGrow(t: Table, ops: seq<Op>)
    requires t.Ok() && t.nextGeneration + |ops| <= GENERATIONS
    ensures t.nextGeneration <= Run(t, ops).nextGeneration <= t.nextGeneration + |ops|
  {
    hide Apply;
    if ops != [] {
      GenerationsGrow(t, ops[..|ops| - 1]);
      GenerationStep(Run(t, ops[..|ops| - 1]), ops[|ops| - 1]);
    }
  }

  lemma GeneratedIsNew(t: Table)
    requires t.Ok() && t.nextGeneration < GENERATIONS
    ensures GeneratedHandle(t) / 256 == t.nextGeneration && GeneratedHandle(t) % 256 == GeneratedSlot(t)
  {
    HandleSlot(t.nextGeneration, GeneratedSlot(t));
  }

  /** Below 2^56 generations no generated handle is ever issued again. */
  lemma NeverReissued(t: Table, address: nat, job: Job, ops: seq<Op>)
    requires t.Ok() && t.nextGeneration + |ops| + 1 < GENERATIONS
    ensures GeneratedHandle(Run(StoreGenerated(t, address, job), ops)) != GeneratedHandle(t)
    ensures GeneratedHandle(t) != INVALID_HANDLE
  {
    hide MakeHandle, GeneratedHandle, GeneratedSlot, Run;
    GeneratedIsNew(t);
    GenerationsGrow(StoreGenerated(t, address, job), ops);
    GeneratedIsNew(Run(StoreGenerated(t, address, job), ops));
  }

  lemma OnlyLosesOnce(t: Table, op: Op, handle: Handle)
    requires t.Ok() && t.nextGeneration < GENERATIONS && Past(t, handle)
    ensures Resolve(Apply(t, op), handle) == None || Resolve(Apply(t, op), handle) == Resolve(t, handle)
    ensures Past(Apply(t, op), handle)
  {
    hide MakeHandle, GeneratedHandle, GeneratedSlot;
    match op
    case Generate(_, _) => GeneratedIsNew(t);
    case Put(_, _, _) =>
    case Drop(_) =>
    case Invalidate =>
    case Bind(_) =>
    case Unbind =>
  }

  /** A generated handle never resolves to anything but its own entry, and once gone it stays gone:
      evicted, released or invalidated, nothing brings it back. */
  lemma {:induction false} OnlyLoses(t: Table, ops: seq<Op>, handle: Handle)
    requires t.Ok() && t.nextGeneration + |ops| <= GENERATIONS && Past(t, handle)
    ensures Resolve(Run(t, ops), handle) == None || Resolve(Run(t, ops), handle) == Resolve(t, handle)
    ensures Past(Run(t, ops), handle)
  {
    hide Resolve, Past, Apply;
    if ops != [] {
      OnlyLoses(t, ops[..|ops| - 1], handle);
      GenerationsGrow(t, ops[..|ops| - 1]);
      OnlyLosesOnce(Run(t, ops[..|ops| - 1]), ops[|ops| - 1], handle);
    }
  }

  /** What a store and a later resolve of its handle agree on. */
  lemma ResolvesToItsOwn(t: Table, address: nat, job: Job, ops: seq<Op>)
    requires t.Ok() && t.nextGeneration + |ops| + 1 < GENERATIONS
    ensures var h, after := GeneratedHandle(t), Run(StoreGenerated(t, address, job), ops);
            Resolve(after, h) == None || Resolve(after, h) == Some(Entry(h, job, ContextFor(t, address, job)))
  {
    hide MakeHandle, GeneratedHandle, GeneratedSlot, Run;
    GeneratedIsNew(t);
    OnlyLoses(StoreGenerated(t, address, job), ops, GeneratedHandle(t));
  }

  /** An invalidation takes every handle away; a release takes exactly its own. */
  lemma InvalidateTakesAll(t: Table, handle: Handle)
    ensures Resolve(InvalidateAll(t), handle) == None
    ensures t.Ok() ==> forall h: Handle :: Resolve(Release(t, handle), h) == if h == handle then None else Resolve(t, h)
  {
  }

  /** What every handle resolves to after an operation: a store makes its own handle, a slot's number or the next
      generation's, resolve to its job and the context bound to it, and ends any other handle of that slot. */
  lemma ResolveAfter(t: Table, op: Op, h: Handle)
    requires t.Ok() && t.nextGeneration < GENERATIONS
    ensures Resolve(Apply(t, op), h) ==
              match op
              case Put(slot, address, job) =>
                if slot >= |t.slots| || h % 256 != slot then Resolve(t, h)
                else if h == slot then Some(Entry(h, job, BoundTo(t.binding, address, job)))
                else None
              case Generate(address, job) =>
                if h % 256 != t.nextSlot % |t.slots| then Resolve(t, h)
                else if h / 256 == t.nextGeneration && h != INVALID_HANDLE
                  then Some(Entry(h, job, BoundTo(t.binding, address, job)))
                else None
              case Drop(dropped) => if h == dropped then None else Resolve(t, h)
              case Invalidate => None
              case Bind(_) => Resolve(t, h)
              case Unbind => Resolve(t, h)
  {
    hide GeneratedHandle, GeneratedSlot;
    GeneratedIsNew(t);
    SlotOfCounter(t);
  }

  /** The context given for a job at this address, or a default that says only what the job does. */
  function BoundTo(binding: Option<Binding>, address: nat, job: Job): Context {
    match binding
    case None => Context(0, job.version, false, false)
    case Some(b) => if b.address == address then b.context else Context(0, job.version, false, false)
  }

  /** The counters: every generated store takes the next slot and generation, an invalidation begins again at slot
      0 in a new generation, and nothing else moves them. */
  lemma CountersAfter(t: Table, op: Op)
    requires t.Ok() && t.nextGeneration + 1 < GENERATIONS
    ensures var t' := Apply(t, op);
            && t'.nextGeneration == t.nextGeneration + (if op.Generate? || op.Invalidate? then 1 else 0)
            && (op.Generate? && t.nextSlot < 0xffff ==> t'.nextSlot == t.nextSlot + 1)
            && (op.Invalidate? || (op.Generate? && t.nextSlot == 0xffff) ==> t'.nextSlot == 0)
            && (!op.Generate? && !op.Invalidate? ==> t'.nextSlot == t.nextSlot)
            && t'.binding == if op.Bind? then Some(op.binding) else if op.Unbind? then None else t.binding
  {
    hide GeneratedHandle, GeneratedSlot, Resolve, ContextFor;
  }

  // ----- Retention -----

  predicate KeepsCounter(op: Op, handle: Handle) {
    op.Generate? || op.Bind? || op.Unbind? || (op.Drop? && op.handle != handle)
  }

  function Generates(ops: seq<Op>): nat {
    if ops == [] then 0 else Generates(ops[..|ops| - 1]) + (if ops[|ops| - 1].Generate? then 1 else 0)
  }

  lemma CounterStep(t: Table, op: Op, handle: Handle)
    requires t.Ok() && KeepsCounter(op, handle)
    ensures Apply(t, op).nextSlot == if op.Generate? then (t.nextSlot + 1) % COUNTER else t.nextSlot
  {
    hide GeneratedHandle, GeneratedSlot;
  }

  lemma {:induction false} CounterAdvances(t: Table, ops: seq<Op>, handle: Handle)
    requires t.Ok() && forall i :: 0 <= i < |ops| ==> KeepsCounter(ops[i], handle)
    ensures Run(t, ops).nextSlot == (t.nextSlot + Generates(ops)) % COUNTER
  {
    hide Apply, KeepsCounter;
    if ops != [] {
      CounterAdvances(t, ops[..|ops| - 1], handle);
      CounterStep(Run(t, ops[..|ops| - 1]), ops[|ops| - 1], handle);
    }
  }

  lemma KeptByOther(t: Table, op: Op, handle: Handle)
    requires t.Ok() && KeepsCounter(op, handle) && (op.Generate? ==> GeneratedSlot(t) != handle % 256)
    ensures Resolve(Apply(t, op), handle) == Resolve(t, handle)
  {
    hide GeneratedHandle, GeneratedSlot;
  }

  lemma JustStored(t: Table, address: nat, job: Job)
    requires t.Ok() && t.nextGeneration + 1 < GENERATIONS
    ensures var h := GeneratedHandle(t);
            Resolve(StoreGenerated(t, address, job), h) == Some(Entry(h, job, ContextFor(t, address, job)))
  {
    hide GeneratedSlot, GeneratedHandle;
    GeneratedIsNew(t);
    SlotOfCounter(t);
  }

  lemma StoredCounter(t: Table, address: nat, job: Job)
    requires t.Ok()
    ensures StoreGenerated(t, address, job).nextSlot == (t.nextSlot + 1) % COUNTER
  {
  }

  /** The next store goes elsewhere than one made less than a whole turn before. */
  lemma OtherSlot(t: Table, address: nat, job: Job, ops: seq<Op>)
    requires t.Ok() && t.nextGeneration + 1 < GENERATIONS && COUNTER % |t.slots| == 0
    requires Generates(ops) + 1 < |t.slots| && forall i :: 0 <= i < |ops| ==> KeepsCounter(ops[i], GeneratedHandle(t))
    ensures GeneratedSlot(Run(StoreGenerated(t, address, job), ops)) != GeneratedHandle(t) % 256
  {
    hide Apply, KeepsCounter, GeneratedSlot, GeneratedHandle, Resolve, Run, StoreGenerated, Generates;
    GeneratedIsNew(t);
    StoredCounter(t, address, job);
    CounterAdvances(StoreGenerated(t, address, job), ops, GeneratedHandle(t));
    SlotsDiffer(t.nextSlot, Generates(ops), |t.slots|);
    SlotOfCounter(t);
    SlotOfCounter(Run(StoreGenerated(t, address, job), ops));
  }

  /** While the table's size divides the counter's range, a job outlives the next capacity - 1 stores. */
  lemma {:induction false} RetainedUntilTheTableTurns(t: Table, address: nat, job: Job, ops: seq<Op>)
    requires t.Ok() && t.nextGeneration + 1 < GENERATIONS && COUNTER % |t.slots| == 0
    requires Generates(ops) < |t.slots| && forall i :: 0 <= i < |ops| ==> KeepsCounter(ops[i], GeneratedHandle(t))
    ensures var h := GeneratedHandle(t);
            Resolve(Run(StoreGenerated(t, address, job), ops), h) == Some(Entry(h, job, ContextFor(t, address, job)))
  {
    hide Apply, KeepsCounter, GeneratedSlot, GeneratedHandle, StoreGenerated, Resolve;
    if ops == [] {
      JustStored(t, address, job);
    } else {
      var n := |ops| - 1;
      RetainedUntilTheTableTurns(t, address, job, ops[..n]);
      if ops[n].Generate? {
        OtherSlot(t, address, job, ops[..n]);
      }
      KeptByOther(Run(StoreGenerated(t, address, job), ops[..n]), ops[n], GeneratedHandle(t));
    }
  }

  lemma SlotOfCounter(t: Table)
    requires t.Ok()
    ensures GeneratedSlot(t) == t.nextSlot % |t.slots|
  {
  }

  lemma SlotsDiffer(n: nat, d: nat, capacity: nat)
    requires 0 < capacity && COUNTER % capacity == 0 && d + 1 < capacity
    ensures ((n + 1) % COUNTER + d) % COUNTER % capacity != n % capacity
  {
    assert ((n + 1) % COUNTER + d) % COUNTER == (n + 1 + d) % COUNTER;
    WrapsEvenly(n + 1 + d, COUNTER, capacity);
    Further(n, d + 1, capacity);
  }

  /** The store that comes round to a handle's slot takes it. */
  lemma EvictedWhenItsSlotComesRound(t: Table, ops: seq<Op>, handle: Handle)
    requires t.Ok() && t.nextGeneration + |ops| <= GENERATIONS && Past(t, handle)
    requires ops != [] && ops[|ops| - 1].Generate? && forall i :: 0 <= i < |ops| ==> KeepsCounter(ops[i], handle)
    requires (t.nextSlot + Generates(ops) - 1) % COUNTER % |t.slots| == handle % 256
    ensures Resolve(Run(t, ops), handle) == None
  {
    hide KeepsCounter, GeneratedSlot, GeneratedHandle, Resolve, Apply;
    var n := |ops| - 1;
    var before := Run(t, ops[..n]);
    CounterAdvances(t, ops[..n], handle);
    GenerationsGrow(t, ops[..n]);
    OnlyLoses(t, ops[..n], handle);
    SlotOfCounter(before);
    Overwritten(before, ops[n], handle);
  }

  lemma Overwritten(t: Table, op: Op, handle: Handle)
    requires t.Ok() && t.nextGeneration < GENERATIONS && Past(t, handle) && op.Generate? &&
               GeneratedSlot(t) == handle % 256
    ensures Resolve(Apply(t, op), handle) == None
  {
    hide GeneratedSlot, GeneratedHandle;
    GeneratedIsNew(t);
  }

  /** A size that does not divide the counter's range loses a job early: the one stored as the counter
      wraps goes after 65536 mod capacity more stores. */
  lemma UnevenSizeLosesEarly(t: Table, address: nat, job: Job, ops: seq<Op>)
    requires t.Ok() && t.nextSlot == COUNTER - 1 && COUNTER % |t.slots| != 0 &&
               t.nextGeneration + |ops| + 1 <= GENERATIONS
    requires ops != [] && ops[|ops| - 1].Generate? && Generates(ops) == COUNTER % |t.slots|
    requires forall i :: 0 <= i < |ops| ==> KeepsCounter(ops[i], GeneratedHandle(t))
    ensures Generates(ops) < |t.slots| && Resolve(Run(StoreGenerated(t, address, job), ops), GeneratedHandle(t)) == None
  {
    hide KeepsCounter, GeneratedSlot, GeneratedHandle, Resolve, Generates;
    var n := |t.slots|;
    var r := COUNTER % n;
    GeneratedIsNew(t);
    SlotOfCounter(t);
    Divided(COUNTER, n);
    Remainder(COUNTER / n, r - 1, n);
    Remainder(0, r - 1, n);
    assert (COUNTER - 1) % n == r - 1;
    EvictedWhenItsSlotComesRound(StoreGenerated(t, address, job), ops, GeneratedHandle(t));
  }

  predicate OnlyGenerates(ops: seq<Op>) {
    forall i :: 0 <= i < |ops| ==> ops[i].Generate?
  }

  /** From start-up on, with generated stores only, every job outlives the next capacity - 1 stores. */
  ghost predicate Retains(capacity: nat)
    requires 0 < capacity <= 256
  {
    forall first: seq<Op>, more: seq<Op>, address: nat, job: Job ::
      OnlyGenerates(first) && |first| + 2 < GENERATIONS && OnlyGenerates(more) && |more| < capacity ==>
        RetainedAfter(capacity, first, more, address, job)
  }

  predicate RetainedAfter(capacity: nat, first: seq<Op>, more: seq<Op>, address: nat, job: Job)
    requires 0 < capacity <= 256
  {
    var t := Run(Init(capacity), first);
    Resolve(Run(StoreGenerated(t, address, job), more), GeneratedHandle(t)).Some?
  }

  lemma {:induction false} GeneratesCounts(ops: seq<Op>)
    requires OnlyGenerates(ops)
    ensures Generates(ops) == |ops|
  {
    if ops != [] {
      GeneratesCounts(ops[..|ops| - 1]);
    }
  }

  /** Retention holds of a capacity if and only if it divides the range of the slot counter. */
  lemma RetentionIsExact(capacity: nat, address: nat, job: Job)
    requires 0 < capacity <= 256
    ensures Retains(capacity) <==> COUNTER % capacity == 0
  {
    hide Retains, RetainedAfter, Run, Resolve, Generates, KeepsCounter, GeneratedHandle, StoreGenerated;
    if COUNTER % capacity == 0 {
      EvenRetains(capacity);
    } else {
      UnevenDoesNotRetain(capacity, address, job);
    }
  }

  lemma EvenRetains(capacity: nat)
    requires 0 < capacity <= 256 && COUNTER % capacity == 0
    ensures Retains(capacity)
  {
    hide Run, Resolve, Generates, GeneratedHandle, StoreGenerated;
    forall first: seq<Op>, more: seq<Op>, address: nat, job: Job
      | OnlyGenerates(first) && |first| + 2 < GENERATIONS && OnlyGenerates(more) && |more| < capacity
      ensures RetainedAfter(capacity, first, more, address, job)
    {
      GenerationsGrow(Init(capacity), first);
      GeneratesCounts(more);
      RetainedUntilTheTableTurns(Run(Init(capacity), first), address, job, more);
    }
  }

  lemma UnevenDoesNotRetain(capacity: nat, address: nat, job: Job)
    requires 0 < capacity <= 256 && COUNTER % capacity != 0
    ensures !Retains(capacity)
  {
    hide Run, Resolve, Generates, GeneratedHandle, StoreGenerated;
    var first := seq(COUNTER - 1, i => Generate(address, job));
    var more := seq(COUNTER % capacity, i => Generate(address, job));
    var t := Run(Init(capacity), first);
    GeneratesCounts(first);
    GeneratesCounts(more);
    GenerationsGrow(Init(capacity), first);
    CounterAdvances(Init(capacity), first, GeneratedHandle(t));
    UnevenSizeLosesEarly(t, address, job, more);
    assert !RetainedAfter(capacity, first, more, address, job);
  }
}

/** The table in memory: an array of entries and a few counters, changed in place under a lock. */
module JobStore {
  import opened Options
  import opened Work
  import opened JobTable

  class JobStore {
    const entries: array<Option<Entry>>
    var nextSlot: nat
    var nextGeneration: nat
    var binding: Option<Binding>

    ghost function Contents(): Table
      reads this, entries
    {
      Table(entries[..], nextSlot, nextGeneration, binding)
    }

    constructor (capacity: nat)
      requires 0 < capacity <= 256
      ensures fresh(entries) && Contents() == Init(capacity) && Contents().Ok()
    {
      entries := new Option<Entry>[capacity](_ => None);
      nextSlot, nextGeneration, binding := 0, 1, None;
    }

    method BeginSubmission(address: nat, context: Context)
      modifies this`binding
      ensures Contents() == old(Contents()).(binding := Some(Binding(address, context)))
    {
      binding := Some(Binding(address, context));
    }

    method EndSubmission()
      modifies this`binding
      ensures Contents() == old(Contents()).(binding := None)
    {
      binding := None;
    }

    method SubmissionContext(address: nat, job: Job) returns (bound: bool, context: Context)
      ensures context == ContextFor(Contents(), address, job)
      ensures bound <==> binding.Some? && binding.value.address == address
    {
      bound := binding.Some? && binding.value.address == address;
      context := if bound then binding.value.context else DefaultContext(job);
    }

    /** Put an entry into a slot, with the context its job is bound to or the default one. */
    method StoreEntry(slot: nat, handle: Handle, address: nat, job: Job)
      requires slot < entries.Length
      modifies entries
      ensures entries[..] == old(entries[..])[slot := Some(Entry(handle, job,
                ContextFor(old(Contents()), address, job)))]
    {
      var bound, context := SubmissionContext(address, job);
      entries[slot] := Some(Entry(handle, job, context));
    }

    method StoreSlot(slot: nat, address: nat, job: Job) returns (handle: Option<Handle>)
      requires Contents().Ok() && slot < 256
      modifies entries
      ensures Contents() == JobTable.StoreSlot(old(Contents()), slot, address, job)
      ensures handle == if slot < entries.Length then Some(slot) else None
    {
      if slot >= entries.Length {
        return None;
      }
      StoreEntry(slot, slot, address, job);
      handle := Some(slot);
    }

    method StoreGenerated(address: nat, job: Job) returns (handle: Handle)
      requires Contents().Ok()
      modifies this`nextSlot, this`nextGeneration, entries
      ensures Contents() == JobTable.StoreGenerated(old(Contents()), address, job)
      ensures handle == GeneratedHandle(old(Contents()))
    {
      var slot := nextSlot % entries.Length % 256;
      nextSlot := (nextSlot + 1) % COUNTER;
      var generation := nextGeneration;
      nextGeneration := (nextGeneration + 1) % HANDLES;
      if nextGeneration == 0 {
        nextGeneration := 1;
      }
      handle := MakeHandle(generation, slot);
      StoreEntry(slot, handle, address, job);
    }

    method Snapshot(handle: Handle) returns (found: Option<Entry>)
      requires Contents().Ok()
      ensures found == Resolve(Contents(), handle)
    {
      if handle == INVALID_HANDLE || handle % 256 >= entries.Length {
        return None;
      }
      found := if entries[handle % 256].Some? && entries[handle % 256].value.handle == handle then entries[handle % 256]
          else None;
    }

    method Contains(handle: Handle) returns (found: bool)
      requires Contents().Ok()
      ensures found <==> Resolve(Contents(), handle).Some?
    {
      var entry := Snapshot(handle);
      found := entry.Some?;
    }

    method ReleaseHandle(handle: Handle) returns (released: bool)
      requires Contents().Ok()
      modifies entries
      ensures Contents() == Release(old(Contents()), handle)
      ensures released <==> Resolve(old(Contents()), handle).Some?
    {
      released := Contains(handle);
      if released {
        entries[handle % 256] := None;
      }
    }

    method InvalidateAll()
      requires Contents().Ok()
      modifies this`nextSlot, this`nextGeneration, entries
      ensures Contents() == JobTable.InvalidateAll(old(Contents()))
    {
      var i := 0;
      while i < entries.Length
        modifies entries
        invariant 0 <= i <= entries.Length
        invariant forall k :: 0 <= k < i ==> entries[k] == None
      {
        entries[i] := None;
        i := i + 1;
      }
      nextSlot := 0;
      nextGeneration := (nextGeneration + 1) % HANDLES;
      if nextGeneration == 0 {
        nextGeneration := 1;
      }
    }
  }
}

/** Producers submitting work from many threads, each under the submission lock, while anyone
    releases, invalidates or stores other work. */
module Submissions {
  import opened Options
  import opened Work
  import opened JobTable

  datatype Producer = Outside | Waiting(mine: Binding) | Inside(mine: Binding)

  /** One store: whose job, the context its producer meant, and what the table recorded. */
  datatype Stored = Stored(address: nat, meant: Context, entry: Entry)

  datatype State = State(table: Table, owner: Option<nat>, producers: seq<Producer>, stored: seq<Stored>)

  datatype Action =
    | Request(p: nat, mine: Binding)
    | Enter(p: nat)
    | StoreMine(p: nat, job: Job, slot: Option<nat>)
    | Leave(p: nat)
    | StoreUnbound(address: nat, job: Job, slot: Option<nat>)
    | DropHandle(handle: Handle)
    | InvalidateTable

  /** No producer is submitting, or waiting to submit, a job at this address. */
  predicate Unused(s: State, address: nat) {
    forall p :: 0 <= p < |s.producers| ==> s.producers[p].Outside? || s.producers[p].mine.address != address
  }

  /** A job's own slot in the hardware, or a generated handle. */
  function StoreOp(address: nat, job: Job, slot: Option<nat>): Op {
    match slot case None => Generate(address, job) case Some(n) => Put(n, address, job)
  }

  function StoredHandle(t: Table, slot: Option<nat>): Handle
    requires t.Ok() && (slot.Some? ==> slot.value < |t.slots|)
  {
    match slot case None => GeneratedHandle(t) case Some(n) => n
  }

  function Store(s: State, address: nat, job: Job, slot: Option<nat>, meant: Context): State
    requires s.table.Ok() && (slot.Some? ==> slot.value < |s.table.slots|)
  {
    s.(table := Apply(s.table, StoreOp(address, job, slot)),
       stored := s.stored + [Stored(address, meant,
           Entry(StoredHandle(s.table, slot), job, ContextFor(s.table, address, job)))])
  }

  /** The next state, if the action is possible: the lock is free to enter, the slot exists, and no
      two threads hold a job at one address. */
  function Next(s: State, a: Action): (r: Option<State>)
    requires s.table.Ok()
    ensures r.Some? ==> r.value.table.Ok()
  {
    match a
    case Request(p, mine) =>
      if p < |s.producers| && s.producers[p].Outside? && Unused(s, mine.address)
      then Some(s.(producers := s.producers[p := Waiting(mine)])) else None
    case Enter(p) =>
      if p < |s.producers| && s.producers[p].Waiting? && s.owner.None?
      then Some(s.(producers := s.producers[p := Inside(s.producers[p].mine)], owner := Some(p),
                   table := Apply(s.table, Bind(s.producers[p].mine)))) else None
    case StoreMine(p, job, slot) =>
      if p < |s.producers| && s.producers[p].Inside? && (slot.Some? ==> slot.value < |s.table.slots|)
      then Some(Store(s, s.producers[p].mine.address, job, slot, s.producers[p].mine.context)) else None
    case Leave(p) =>
      if p < |s.producers| && s.producers[p].Inside?
      then Some(s.(producers := s.producers[p := Outside], owner := None, table := Apply(s.table, Unbind))) else None
    case StoreUnbound(address, job, slot) =>
      if Unused(s, address) && (slot.Some? ==> slot.value < |s.table.slots|)
      then Some(Store(s, address, job, slot, DefaultContext(job))) else None
    case DropHandle(handle) => Some(s.(table := Apply(s.table, Drop(handle))))
    case InvalidateTable => Some(s.(table := Apply(s.table, Invalidate)))
  }

  /** Whoever is inside owns the lock and the binding; the jobs in hand are all different. */
  ghost predicate Exclusive(s: State) {
    && s.table.Ok()
    && (forall p :: 0 <= p < |s.producers| ==> (s.producers[p].Inside? <==> s.owner == Some(p)))
    && (s.owner.Some? ==> s.owner.value < |s.producers|)
    && s.table.binding == (if s.owner.Some? && s.owner.value < |s.producers| && s.producers[s.owner.value].Inside?
                           then Some(s.producers[s.owner.value].mine) else None)
    && (forall p, q :: 0 <= p < q < |s.producers| && !s.producers[p].Outside? && !s.producers[q].Outside? ==>
          s.producers[p].mine.address != s.producers[q].mine.address)
  }

  /** Every entry was put there by a recorded store, and every store recorded the context meant. */
  ghost predicate Provenance(s: State) {
    && (forall k :: 0 <= k < |s.stored| ==> s.stored[k].entry.context == s.stored[k].meant)
    && (forall i :: 0 <= i < |s.table.slots| && s.table.slots[i].Some? ==>
          exists k :: 0 <= k < |s.stored| && s.stored[k].entry == s.table.slots[i].value)
  }

  lemma StepIsExclusive(s: State, a: Action)
    requires Exclusive(s) && Next(s, a).Some?
    ensures Exclusive(Next(s, a).value)
  {
    hide GeneratedHandle, GeneratedSlot, Resolve, ContextFor, StoredHandle;
  }

  /** Nobody is shut out: while anyone submits or waits to, someone can enter or leave; and whoever is inside can
      store, what it stores being what its handle resolves to. */
  lemma SomeoneCanGoOn(s: State, p: nat, job: Job)
    requires Exclusive(s) && p < |s.producers|
    ensures !s.producers[p].Outside? ==>
              exists q :: 0 <= q < |s.producers| && (Next(s, Enter(q)).Some? || Next(s, Leave(q)).Some?)
    ensures s.producers[p].Inside? ==> Next(s, StoreMine(p, job, None)).Some?
    ensures s.producers[p].Inside? && s.table.nextGeneration < GENERATIONS ==>
              var handle, mine := GeneratedHandle(s.table), s.producers[p].mine;
              handle != INVALID_HANDLE ==>
                Resolve(Next(s, StoreMine(p, job, None)).value.table, handle) == Some(Entry(handle, job, mine.context))
  {
    hide GeneratedHandle, GeneratedSlot, Resolve;
    if !s.producers[p].Outside? {
      var q := if s.owner.Some? then s.owner.value else p;
      assert Next(s, Enter(q)).Some? || Next(s, Leave(q)).Some?;
    }
    if s.producers[p].Inside? && s.table.nextGeneration < GENERATIONS {
      GeneratedIsNew(s.table);
      SlotOfCounter(s.table);
      ResolveAfter(s.table, Generate(s.producers[p].mine.address, job), GeneratedHandle(s.table));
    }
  }

  lemma StoreKeepsProvenance(s: State, address: nat, job: Job, slot: Option<nat>, meant: Context)
    requires s.table.Ok() && (slot.Some? ==> slot.value < |s.table.slots|) && Provenance(s)
    requires ContextFor(s.table, address, job) == meant
    ensures Provenance(Store(s, address, job, slot, meant))
  {
    hide GeneratedHandle, GeneratedSlot, ContextFor;
    var s' := Store(s, address, job, slot, meant);
    forall i | 0 <= i < |s'.table.slots| && s'.table.slots[i].Some?
      ensures exists k :: 0 <= k < |s'.stored| && s'.stored[k].entry == s'.table.slots[i].value
    {
      if s'.table.slots[i] == s.table.slots[i] {
        var k :| 0 <= k < |s.stored| && s.stored[k].entry == s.table.slots[i].value;
        assert s'.stored[k] == s.stored[k];
      } else {
        assert s'.stored[|s.stored|].entry == s'.table.slots[i].value;
      }
    }
  }

  lemma StepKeepsProvenance(s: State, a: Action)
    requires Exclusive(s) && Provenance(s) && Next(s, a).Some?
    ensures Provenance(Next(s, a).value)
  {
    hide GeneratedHandle, GeneratedSlot, StoredHandle, Provenance;
    match a
    case StoreMine(p, job, slot) =>
      StoreKeepsProvenance(s, s.producers[p].mine.address, job, slot, s.producers[p].mine.context);
    case StoreUnbound(address, job, slot) =>
      StoreKeepsProvenance(s, address, job, slot, DefaultContext(job));
    case _ =>
      FewerEntries(s, Next(s, a).value);
  }

  lemma FewerEntries(s: State, s': State)
    requires Provenance(s) && s'.stored == s.stored && |s'.table.slots| == |s.table.slots|
    requires forall i :: 0 <= i < |s.table.slots| ==> s'.table.slots[i] == s.table.slots[i] || s'.table.slots[i] == None
    ensures Provenance(s')
  {
  }

  function Run(s: State, actions: seq<Action>): (r: Option<State>)
    requires s.table.Ok()
    ensures r.Some? ==> r.value.table.Ok()
  {
    if actions == [] then Some(s)
    else
      match Run(s, actions[..|actions| - 1])
      case None => None
      case Some(before) => Next(before, actions[|actions| - 1])
  }

  function Start(capacity: nat, producers: nat): State
    requires 0 < capacity <= 256
  {
    State(Init(capacity), None, seq(producers, i => Outside), [])
  }

  lemma {:induction false} RunKeepsProvenance(s: State, actions: seq<Action>)
    requires s.table.Ok() && Exclusive(s) && Provenance(s) && Run(s, actions).Some?
    ensures Exclusive(Run(s, actions).value) && Provenance(Run(s, actions).value)
  {
    hide Exclusive, Provenance, Next;
    if actions != [] {
      var n := |actions| - 1;
      RunKeepsProvenance(s, actions[..n]);
      StepIsExclusive(Run(s, actions[..n]).value, actions[n]);
      StepKeepsProvenance(Run(s, actions[..n]).value, actions[n]);
    }
  }

  /** In any interleaving, what a handle resolves to was stored for that very job with the context its
      own producer meant for it: bound by its submission, or the default outside of one. */
  lemma ResolvedContextIsItsProducers(capacity: nat, producers: nat, actions: seq<Action>, handle: Handle)
    requires 0 < capacity <= 256 && Run(Start(capacity, producers), actions).Some?
    requires Resolve(Run(Start(capacity, producers), actions).value.table, handle).Some?
    ensures var s := Run(Start(capacity, producers), actions).value;
            var entry := Resolve(s.table, handle).value;
            entry.handle == handle && exists k ::
                0 <= k < |s.stored| && s.stored[k].entry == entry && entry.context == s.stored[k].meant
  {
    hide Run;
    RunKeepsProvenance(Start(capacity, producers), actions);
  }
}

/** The quota allocator of src/lql_allocator.c: every receiver's instance pays for its own blocks, whoever frees them. */
module Allocator {
  import opened Wrappers

  const LIMIT := 8 * 1024 * 1024
  const SIZE_MAX := 0xffff_ffff_ffff_ffff

  /** A block with its header: the bytes asked for and the instance that pays. */
  datatype Block = Block(size: nat, owner: nat)

  /** lql_impl; receiver is the block that holds the receiver itself. */
  datatype Instance = Instance(liveBytes: nat, count: nat, receiver: nat, receiverDestroyed: bool)

  // ---------------------------------------------------------------- what an instance owes

  /** The charges of the live blocks of an instance. */
  function Charges(blocks: seq<Option<Block>>, owner: nat, header: nat): nat {
    if |blocks| == 0 then 0
    else Charges(blocks[..|blocks| - 1], owner, header) + Charge(blocks[|blocks| - 1], owner, header)
  }

  function Charge(block: Option<Block>, owner: nat, header: nat): nat {
    if block.Some? && block.value.owner == owner then header + block.value.size else 0
  }

  /** How many live blocks it has. */
  function Count(blocks: seq<Option<Block>>, owner: nat): nat {
    if |blocks| == 0 then 0
    else Count(blocks[..|blocks| - 1], owner) + Owned(blocks[|blocks| - 1], owner)
  }

  function Owned(block: Option<Block>, owner: nat): nat { if block.Some? && block.value.owner == owner then 1 else 0 }

  lemma Pushed(blocks: seq<Option<Block>>, block: Option<Block>, owner: nat, header: nat)
    ensures Charges(blocks + [block], owner, header) == Charges(blocks, owner, header) + Charge(block, owner, header)
    ensures Count(blocks + [block], owner) == Count(blocks, owner) + Owned(block, owner)
  {
    assert (blocks + [block])[..|blocks|] == blocks;
  }

  lemma {:induction false} Replaced(blocks: seq<Option<Block>>, k: nat, block: Option<Block>, owner: nat, header: nat)
    requires k < |blocks|
    ensures Charges(blocks[k := block], owner, header) + Charge(blocks[k], owner, header)
         == Charges(blocks, owner, header) + Charge(block, owner, header)
    ensures Count(blocks[k := block], owner) + Owned(blocks[k], owner) == Count(blocks, owner) + Owned(block, owner)
  {
    var n := |blocks| - 1;
    if k < n {
      assert blocks[k := block][..n] == blocks[..n][k := block];
      Replaced(blocks[..n], k, block, owner, header);
    } else {
      assert blocks[k := block][..n] == blocks[..n];
    }
  }

  lemma {:induction false} NoneOwned(blocks: seq<Option<Block>>, owner: nat, header: nat)
    requires forall k :: 0 <= k < |blocks| && blocks[k].Some? ==> blocks[k].value.owner != owner
    ensures Charges(blocks, owner, header) == 0 && Count(blocks, owner) == 0
  {
    if |blocks| > 0 {
      NoneOwned(blocks[..|blocks| - 1], owner, header);
    }
  }

  lemma {:induction false} OwnedCounts(blocks: seq<Option<Block>>, k: nat, owner: nat, header: nat)
    requires k < |blocks| && blocks[k].Some? && blocks[k].value.owner == owner
    ensures Count(blocks, owner) > 0 && Charges(blocks, owner, header) >= header + blocks[k].value.size
  {
    if k < |blocks| - 1 {
      OwnedCounts(blocks[..|blocks| - 1], k, owner, header);
    }
  }

  // ---------------------------------------------------------------- the invariant

  /** The bytes an instance has on its books are its own and those of its live blocks. */
  ghost predicate Balanced(i: Instance, blocks: seq<Option<Block>>, owner: nat, header: nat, implSize: nat) {
    && i.liveBytes == implSize + Charges(blocks, owner, header) && i.liveBytes <= LIMIT
    && i.count == Count(blocks, owner)
  }

  // ---------------------------------------------------------------- the steps

  datatype Step = New(enoughForImpl: bool, enough: bool) | Allocate(owner: nat, size: nat, enough: bool)
                | AllocateZeroed(owner: nat, count: nat, size: nat, enough: bool)
                | Resized(owner: nat, block: Option<nat>, size: nat, enough: bool) | Release(block': nat) | Destroy(owner: nat)

  /** The process between two steps. */
  datatype Ledger = Ledger(instances: map<nat, Instance>, made: nat, blocks: seq<Option<Block>>, released: seq<nat>, retired: set<nat>)

  /** A live block that is no receiver: those go with DestroyReceiver. */
  predicate Usable(instances: map<nat, Instance>, blocks: seq<Option<Block>>, k: nat) {
    && k < |blocks| && blocks[k].Some?
    && forall o :: o in instances && !instances[o].receiverDestroyed ==> instances[o].receiver != k
  }

  /** What the program can ask for: it holds the receiver or the block that the step names. */
  predicate Possible(instances: map<nat, Instance>, blocks: seq<Option<Block>>, step: Step) {
    match step
    case New(_, _) => true
    case Allocate(o, _, _) => o in instances
    case AllocateZeroed(o, _, _, _) => o in instances
    case Resized(o, block, _, _) => o in instances && (block.Some? ==> Usable(instances, blocks, block.value))
    case Release(k) => Usable(instances, blocks, k)
    case Destroy(o) => o in instances && !instances[o].receiverDestroyed
  }

  class Process {
    /** sizeof of the block header, of an instance and of a receiver. */
    const header: nat
    const implSize: nat
    const receiverSize: nat
    var instances: map<nat, Instance>
    var instancesMade: nat
    /** Every block ever handed out; None once it is freed. */
    var blocks: seq<Option<Block>>
    /** The instances given back to the system, in order. */
    ghost var released: seq<nat>
    /** The instances whose receiver was destroyed. */
    ghost var retired: set<nat>

    ghost function At(): Ledger
      reads this
    {
      Ledger(instances, instancesMade, blocks, released, retired)
    }

    ghost predicate Books()
      reads this
    {
      && implSize <= LIMIT
      && (forall o :: o in instances ==> Balanced(instances[o], blocks, o, header, implSize))
      && (forall k :: 0 <= k < |blocks| && blocks[k].Some? ==> blocks[k].value.owner in instances)
    }

    /** An instance is released once, and only after it was made; the others are still there. */
    ghost predicate ReleasedOnce()
      reads this
    {
      && (forall a, b :: 0 <= a < b < |released| ==> released[a] != released[b])
      && (forall o: nat :: o < instancesMade <==> o in instances || o in released)
      && (forall o :: o in instances ==> o !in released)
    }

    /** An instance stays exactly while its receiver lives or one of its blocks does. */
    ghost predicate Valid()
      reads this
    {
      && Books() && ReleasedOnce()
      && (forall o :: o in instances ==> !(instances[o].receiverDestroyed && instances[o].count == 0))
      && (forall o :: o in instances && !instances[o].receiverDestroyed ==> HasReceiver(o))
      && Retired()
    }

    ghost predicate Retired()
      reads this
    {
      && (forall o :: o in instances ==> (instances[o].receiverDestroyed <==> o in retired))
      && (forall o :: o in released ==> o in retired)
      && (forall o :: o in retired ==> o < instancesMade)
    }

    ghost predicate HasReceiver(o: nat)
      requires o in instances
      reads this
    {
      var k := instances[o].receiver;
      k < |blocks| && blocks[k] == Some(Block(receiverSize, o))
    }

    constructor (header: nat, implSize: nat, receiverSize: nat)
      requires implSize <= LIMIT
      ensures Valid() && instances == map[] && blocks == [] && released == [] && retired == {}
    {
      this.header, this.implSize, this.receiverSize := header, implSize, receiverSize;
      instances, instancesMade, blocks, released, retired := map[], 0, [], [], {};
    }

    /** src/lql_allocator.c:201-207. */
    method ReleaseIfIdle(o: nat)
      requires Books() && ReleasedOnce() && o in instances
      modifies this`instances, this`released
      ensures Books() && ReleasedOnce()
      ensures var idle := old(instances[o].receiverDestroyed && instances[o].count == 0);
        && instances == (if idle then old(instances) - {o} else old(instances))
        && released == (if idle then old(released) + [o] else old(released))
    {
      if instances[o].receiverDestroyed && instances[o].count == 0 {
        forall k | 0 <= k < |blocks| && blocks[k].Some? ensures blocks[k].value.owner != o {
          if blocks[k].value.owner == o {
            OwnedCounts(blocks, k, o, header);
          }
        }
        instances := instances - {o};
        released := released + [o];
      }
    }

    // -------------------------------------------------------------- where the operations lead

    /** A new block is charged to its instance, or nothing changes. */
    ghost predicate Granted(l: Ledger, o: nat, size: nat, enough: bool, n: Ledger)
      requires o in l.instances
    {
      var i := l.instances[o];
      n == if enough && size <= SIZE_MAX - header && i.liveBytes + header + size <= LIMIT
           then l.(blocks := l.blocks + [Some(Block(size, o))],
                   instances := l.instances[o := i.(liveBytes := i.liveBytes + header + size, count := i.count + 1)])
           else l
    }

    /** The block is gone, its owner is credited, and released when that was all that kept it. */
    ghost predicate Freed(l: Ledger, k: nat, n: Ledger)
      requires k < |l.blocks| && l.blocks[k].Some?
    {
      var b := l.blocks[k].value;
      && b.owner in l.instances && l.instances[b.owner].count >= 1 && l.instances[b.owner].liveBytes >= header + b.size
      && var i := l.instances[b.owner];
         var m := l.(blocks := l.blocks[k := None]);
         n == if i.receiverDestroyed && i.count == 1
              then m.(instances := l.instances - {b.owner}, released := l.released + [b.owner])
              else m.(instances := l.instances[b.owner := i.(liveBytes := i.liveBytes - header - b.size, count := i.count - 1)])
    }

    /** Without a block as a new one; another owner's block and too large a size change nothing, size zero frees. */
    ghost predicate Resizes(l: Ledger, o: nat, block: Option<nat>, size: nat, enough: bool, n: Ledger)
      requires o in l.instances && (block.Some? ==> Usable(l.instances, l.blocks, block.value))
    {
      if block.None? then Granted(l, o, size, enough, n) else
      var b, i := l.blocks[block.value].value, l.instances[o];
      if size > SIZE_MAX - header || b.owner != o then n == l
      else if size == 0 then Freed(l, block.value, n)
      else
        && i.liveBytes >= b.size
        && n == if enough && i.liveBytes - b.size + size <= LIMIT
                then l.(blocks := l.blocks[block.value := Some(Block(size, o))],
                        instances := l.instances[o := i.(liveBytes := i.liveBytes - b.size + size)])
                else l
    }

    /** The receiver's block goes, and the instance with it unless other blocks keep it. */
    ghost predicate Retires(l: Ledger, o: nat, n: Ledger)
      requires o in l.instances
    {
      var i := l.instances[o];
      && i.receiver < |l.blocks| && i.count >= 1 && i.liveBytes >= header + receiverSize
      && var m := l.(blocks := l.blocks[i.receiver := None], retired := l.retired + {o});
         n == if i.count == 1
              then m.(instances := l.instances - {o}, released := l.released + [o])
              else m.(instances := l.instances[o := Instance(i.liveBytes - header - receiverSize, i.count - 1, i.receiver, true)])
    }

    /** A new instance pays for itself and for its receiver. */
    ghost predicate Opens(l: Ledger, enough: bool, n: Ledger) {
      var bytes := implSize + header + receiverSize;
      n == if enough && receiverSize <= SIZE_MAX - header && bytes <= LIMIT
           then l.(instances := l.instances[l.made := Instance(bytes, 1, |l.blocks|, false)], made := l.made + 1,
                   blocks := l.blocks + [Some(Block(receiverSize, l.made))])
           else l
    }

    /** One step: what it asks for if it is possible, and nothing otherwise. */
    ghost predicate Stepped(l: Ledger, step: Step, n: Ledger) {
      if !Possible(l.instances, l.blocks, step) then n == l else
      match step
      case New(enoughForImpl, enough) => Opens(l, enoughForImpl && enough, n)
      case Allocate(o, size, enough) => Granted(l, o, size, enough, n)
      case AllocateZeroed(o, count, size, enough) => Granted(l, o, Times(count, size), enough, n)
      case Resized(o, block, size, enough) => Resizes(l, o, block, size, enough, n)
      case Release(k) => Freed(l, k, n)
      case Destroy(o) => Retires(l, o, n)
    }

    // -------------------------------------------------------------- the operations

    /** src/lql_allocator.c:15-39; enough tells whether the system has the memory. */
    method Alloc(o: nat, size: nat, enough: bool) returns (r: Option<nat>)
      requires Valid() && o in instances
      modifies this`instances, this`blocks
      ensures Valid()
      ensures r.Some? <==> enough && size <= SIZE_MAX - header && old(instances[o].liveBytes) + header + size <= LIMIT
      ensures r.Some? ==> r.value == |old(blocks)|
      ensures Granted(old(At()), o, size, enough, At())
    {
      hide Charges, Count;
      if size > SIZE_MAX - header {
        return None;
      }
      var charge := header + size;
      if charge > LIMIT - instances[o].liveBytes || !enough {
        return None;
      }
      r := Some(|blocks|);
      Charged(Block(size, o));
    }

    /** A new block goes on the books of its owner. */
    method Charged(block: Block)
      requires Books() && block.owner in instances && instances[block.owner].liveBytes + header + block.size <= LIMIT
      modifies this`instances, this`blocks
      ensures Books() && blocks == old(blocks) + [Some(block)]
      ensures var i := old(instances)[block.owner];
        instances == old(instances)[block.owner := i.(liveBytes := i.liveBytes + header + block.size, count := i.count + 1)]
    {
      var o := block.owner;
      forall p | p in instances
        ensures Charges(blocks + [Some(block)], p, header) == Charges(blocks, p, header) + Charge(Some(block), p, header)
        ensures Count(blocks + [Some(block)], p) == Count(blocks, p) + Owned(Some(block), p)
      {
        Pushed(blocks, Some(block), p, header);
      }
      var i := instances[o];
      blocks := blocks + [Some(block)];
      instances := instances[o := i.(liveBytes := i.liveBytes + header + block.size, count := i.count + 1)];
    }

    /** src/lql_allocator.c:41-51. */
    method Calloc(o: nat, count: nat, size: nat, enough: bool) returns (r: Option<nat>)
      requires Valid() && o in instances
      modifies this`instances, this`blocks
      ensures Valid()
      ensures r.Some? <==> enough && Times(count, size) <= SIZE_MAX - header
                           && old(instances[o].liveBytes) + header + Times(count, size) <= LIMIT
      ensures r.Some? ==> r.value == |old(blocks)|
      ensures Granted(old(At()), o, Times(count, size), enough, At())
    {
      Overflows(count, size);
      if count != 0 && size > SIZE_MAX / count {
        return None;
      }
      r := Alloc(o, Times(count, size), enough);
    }

    /** A block leaves the books of its owner. */
    method Discharge(k: nat)
      requires Books() && k < |blocks| && blocks[k].Some?
      modifies this`instances, this`blocks
      ensures Books() && old(blocks[k].value.owner in instances) && blocks == old(blocks)[k := None]
      ensures var b := old(blocks)[k].value; var i := old(instances)[b.owner];
        && i.liveBytes >= header + b.size && i.count >= 1
        && instances == old(instances)[b.owner := i.(liveBytes := i.liveBytes - header - b.size, count := i.count - 1)]
    {
      var b := blocks[k].value;
      OwnedCounts(blocks, k, b.owner, header);
      forall p | p in instances
        ensures Charges(blocks[k := None], p, header) + Charge(blocks[k], p, header) == Charges(blocks, p, header)
        ensures Count(blocks[k := None], p) + Owned(blocks[k], p) == Count(blocks, p)
      {
        Replaced(blocks, k, None, p, header);
      }
      var i := instances[b.owner];
      blocks := blocks[k := None];
      instances := instances[b.owner := i.(liveBytes := i.liveBytes - header - b.size, count := i.count - 1)];
    }

    /** src/lql_allocator.c:95-118: the owner in the header pays back, whichever receiver the call goes through. */
    method Free(k: nat)
      requires Valid() && Usable(instances, blocks, k)
      modifies this`instances, this`blocks, this`released
      ensures Valid() && Freed(old(At()), k, At())
    {
      hide Balanced;
      var o := blocks[k].value.owner;
      Discharge(k);
      ghost var credited := instances;
      ReleaseIfIdle(o);
      assert credited - {o} == old(instances) - {o};
    }

    /** src/lql_allocator.c:53-93: without a block it allocates; only the receiver that owns a block may resize it, and size zero
        frees it. */
    method Realloc(o: nat, block: Option<nat>, size: nat, enough: bool) returns (r: Option<nat>)
      requires Valid() && o in instances && (block.Some? ==> Usable(instances, blocks, block.value))
      modifies this`instances, this`blocks, this`released
      ensures Valid()
      ensures Resizes(old(At()), o, block, size, enough, At())
      ensures block.None? ==>
        && (r.Some? <==> enough && size <= SIZE_MAX - header && old(instances[o].liveBytes) + header + size <= LIMIT)
        && (r.Some? ==> r.value == |old(blocks)|)
      ensures block.Some? ==> var b := old(blocks)[block.value].value;
        && (r.Some? <==> 0 < size <= SIZE_MAX - header && b.owner == o && enough && old(instances[o].liveBytes) - b.size + size <= LIMIT)
        && (r.Some? ==> r == block)
    {
      hide Charges, Count;
      if block.None? {
        r := Alloc(o, size, enough);
        return;
      }
      if size > SIZE_MAX - header {
        return None;
      }
      var k := block.value;
      if blocks[k].value.owner != o {
        return None;
      }
      if size == 0 {
        Free(k);
        return None;
      }
      OwnedCounts(blocks, k, o, header);
      var oldCharge, newCharge := header + blocks[k].value.size, header + size;
      if newCharge > oldCharge && newCharge - oldCharge > LIMIT - instances[o].liveBytes {
        return None;
      }
      if !enough {
        return None;
      }
      Resize(k, size);
      r := block;
    }

    method Resize(k: nat, size: nat)
      requires Books() && k < |blocks| && blocks[k].Some? && blocks[k].value.owner in instances
      requires instances[blocks[k].value.owner].liveBytes - blocks[k].value.size + size <= LIMIT
      modifies this`instances, this`blocks
      ensures Books() && blocks == old(blocks)[k := Some(Block(size, old(blocks)[k].value.owner))]
      ensures var b := old(blocks)[k].value; var i := old(instances)[b.owner];
        && i.liveBytes >= b.size && instances == old(instances)[b.owner := i.(liveBytes := i.liveBytes - b.size + size)]
    {
      var b := blocks[k].value;
      var next := Some(Block(size, b.owner));
      OwnedCounts(blocks, k, b.owner, header);
      forall p | p in instances
        ensures Charges(blocks[k := next], p, header) + Charge(blocks[k], p, header) == Charges(blocks, p, header) + Charge(next, p, header)
        ensures Count(blocks[k := next], p) + Owned(blocks[k], p) == Count(blocks, p) + Owned(next, p)
      {
        Replaced(blocks, k, next, p, header);
      }
      var i := instances[b.owner];
      blocks := blocks[k := next];
      instances := instances[b.owner := i.(liveBytes := i.liveBytes - b.size + size)];
    }

    /** src/lql.c:112-137: an instance pays for itself and for its receiver. */
    method NewReceiver(enoughForImpl: bool, enough: bool) returns (r: Option<nat>)
      requires Valid()
      modifies this`instances, this`instancesMade, this`blocks
      ensures Valid()
      ensures r.Some? <==> enoughForImpl && enough && receiverSize <= SIZE_MAX - header && implSize + header + receiverSize <= LIMIT
      ensures r.Some? ==> r.value == old(instancesMade)
      ensures Opens(old(At()), enoughForImpl && enough, At())
    {
      hide Charges, Count;
      if !enoughForImpl {
        return None;
      }
      if receiverSize > SIZE_MAX - header || header + receiverSize > LIMIT - implSize || !enough {
        return None;
      }
      var o := Admit();
      Charged(Block(receiverSize, o));
      assert instances == old(instances)[o := Instance(implSize + header + receiverSize, 1, |old(blocks)|, false)];
      r := Some(o);
    }

    /** A new instance with nothing but itself on its books. */
    method Admit() returns (o: nat)
      requires Books() && ReleasedOnce()
      modifies this`instances, this`instancesMade
      ensures Books() && ReleasedOnce() && o == old(instancesMade) && o !in old(instances) && instancesMade == o + 1
      ensures instances == old(instances)[o := Instance(implSize, 0, |blocks|, false)]
    {
      o := instancesMade;
      NoneOwned(blocks, o, header);
      instances := instances[o := Instance(implSize, 0, |blocks|, false)];
      instancesMade := instancesMade + 1;
    }

    /** The receiver is gone; the instance follows at once if it is idle. */
    method Retire(o: nat)
      requires Books() && ReleasedOnce() && o in instances
      modifies this`instances, this`released
      ensures Books() && ReleasedOnce()
      ensures var idle := old(instances[o].count) == 0;
        && instances == (if idle then old(instances) - {o} else old(instances)[o := old(instances[o]).(receiverDestroyed := true)])
        && released == (if idle then old(released) + [o] else old(released))
    {
      instances := instances[o := instances[o].(receiverDestroyed := true)];
      ghost var marked := instances;
      ReleaseIfIdle(o);
      assert marked - {o} == old(instances) - {o};
    }

    /** src/lql.c:268-280: the receiver's block goes, and the instance with it unless other blocks keep it. */
    method DestroyReceiver(o: nat)
      requires Valid() && o in instances && !instances[o].receiverDestroyed
      modifies this`instances, this`blocks, this`released, this`retired
      ensures Valid() && Retires(old(At()), o, At())
    {
      hide Balanced;
      ghost var was := instances[o];
      Discharge(instances[o].receiver);
      ReleaseIfIdle(o);
      ghost var credited := was.(liveBytes := was.liveBytes - header - receiverSize, count := was.count - 1);
      assert instances == old(instances)[o := credited] && released == old(released);
      Retire(o);
      assert was.count == 1 ==> instances == old(instances) - {o};
      assert was.count > 1 ==> instances == old(instances)[o := credited.(receiverDestroyed := true)];
      retired := retired + {o};
    }

    // -------------------------------------------------------------- any sequence of steps

    /** Any steps in any order: each does what it asks for, and every instance is released exactly once, when its receiver is
        gone and no block of it remains. */
    method Run(steps: seq<Step>) returns (ghost trace: seq<Ledger>)
      requires Valid()
      modifies this
      ensures Valid() && old(released) <= released && old(retired) <= retired
      ensures |trace| == |steps| + 1 && trace[0] == old(At()) && trace[|steps|] == At()
      ensures forall i :: 0 <= i < |steps| ==> Stepped(trace[i], steps[i], trace[i + 1])
      ensures forall o: nat :: o < instancesMade ==> (multiset(released)[o] == if IsOver(o) then 1 else 0)
      ensures forall o: nat :: o >= instancesMade ==> o !in released
    {
      hide Valid, Stepped;
      trace := [At()];
      for i := 0 to |steps|
        invariant Valid() && old(released) <= released && old(retired) <= retired
        invariant |trace| == i + 1 && trace[0] == old(At()) && trace[i] == At()
        invariant forall k :: 0 <= k < i ==> Stepped(trace[k], steps[k], trace[k + 1])
      {
        var _ := Perform(steps[i]);
        trace := trace + [At()];
      }
      forall o: nat
        ensures multiset(released)[o] == if o < instancesMade && IsOver(o) then 1 else 0
        ensures o >= instancesMade ==> o !in released
      {
        ReleasedExactly(o);
      }
    }

    /** One step, if the program can take it. */
    method Perform(step: Step) returns (done: bool)
      requires Valid()
      modifies this
      ensures Valid() && done == old(Possible(instances, blocks, step)) && Stepped(old(At()), step, At())
      ensures old(released) <= released && old(retired) <= retired
    {
      hide Books, ReleasedOnce, HasReceiver, Retired;
      done := Possible(instances, blocks, step);
      if !done {
        return;
      }
      match step {
        case New(enoughForImpl, enough) => var _ := NewReceiver(enoughForImpl, enough);
        case Allocate(o, size, enough) => var _ := Alloc(o, size, enough);
        case AllocateZeroed(o, count, size, enough) => var _ := Calloc(o, count, size, enough);
        case Resized(o, block, size, enough) => var _ := Realloc(o, block, size, enough);
        case Release(k) => Free(k);
        case Destroy(o) => DestroyReceiver(o);
      }
    }

    /** The receiver is gone and no block of the instance remains. */
    ghost predicate IsOver(o: nat)
      reads this
    {
      o in retired && forall k :: 0 <= k < |blocks| && blocks[k].Some? ==> blocks[k].value.owner != o
    }

    lemma ReleasedExactly(o: nat)
      requires Valid()
      ensures multiset(released)[o] == if o < instancesMade && IsOver(o) then 1 else 0
      ensures o >= instancesMade ==> o !in released
    {
      hide Balanced, HasReceiver;
      OnceCounts(released, o);
      if o in instances && IsOver(o) {
        NotOver(o);
      }
    }

    /** An instance that is still there is kept by its receiver or by a block. */
    lemma NotOver(o: nat)
      requires Valid() && o in instances
      ensures !IsOver(o)
    {
      if IsOver(o) {
        NoneOwned(blocks, o, header);
      }
    }

    /** With every block freed, no instance is left. */
    lemma NothingLeft()
      requires Valid() && forall k :: 0 <= k < |blocks| ==> blocks[k].None?
      ensures instances == map[] && forall o: nat :: o < instancesMade ==> o in released
    {
      forall o ensures o !in instances {
        NoneOwned(blocks, o, header);
      }
    }
  }

  lemma {:induction false} OnceCounts(s: seq<nat>, o: nat)
    requires forall a, b :: 0 <= a < b < |s| ==> s[a] != s[b]
    ensures multiset(s)[o] == if o in s then 1 else 0
  {
    if |s| > 0 {
      var rest := s[..|s| - 1];
      assert s == rest + [s[|s| - 1]];
      OnceCounts(rest, o);
      assert s[|s| - 1] !in rest;
    }
  }

  function Times(a: nat, b: nat): nat { a * b }

  lemma Overflows(count: nat, size: nat)
    ensures count != 0 ==> (size > SIZE_MAX / count <==> Times(count, size) > SIZE_MAX)
  {
    if count != 0 {
      DivisionBounds(SIZE_MAX, count, size);
    }
  }

  lemma DivisionBounds(m: nat, c: nat, s: nat)
    requires c > 0
    ensures s > m / c <==> c * s > m
  {
    var q, r := m / c, m % c;
    assert m == c * q + r;
    if s > q {
      MulMonotone(c, q + 1, s);
      assert c * (q + 1) == c * q + c;
    } else {
      MulMonotone(c, s, q);
    }
  }

  lemma MulMonotone(c: nat, a: nat, b: nat)
    requires a <= b
    ensures c * a <= c * b
  {
  }
}

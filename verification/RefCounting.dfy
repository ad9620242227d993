/**
 Intrusive reference counting: scoped_refptr handles over objects that delete themselves when
 their last reference is released.

 Objects are named by numbers; pooled frames have the pool's own. A program's handle variables are the cells of
 a sequence: a cell is dead before construction and after destruction, and otherwise stores the handle's pointer.
 */
module RefCounting {

  import opened Base
  import FramePool

  /** A counted object; a pooled one is a frame of the pool, and its destructor frees the frame's slot. */
  datatype Object = Plain(n: nat) | Pooled(f: nat)

  datatype Handle = Dead | Null | To(o: Object)

  function One(b: bool): nat { if b then 1 else 0 }

  /** How many handles point to `o`. */
  function Holders(cells: seq<Handle>, o: Object): nat {
    if cells == [] then 0 else One(cells[0] == To(o)) + Holders(cells[1..], o)
  }

  /** Re-pointing one handle moves exactly one reference. */
  lemma {:induction false} HoldersUpdate(cells: seq<Handle>, h: nat, c: Handle, o: Object)
    requires h < |cells|
    ensures Holders(cells[h := c], o) + One(cells[h] == To(o)) == Holders(cells, o) + One(c == To(o))
    decreases |cells|
  {
    if h == 0 {
      assert cells[h := c][1..] == cells[1..];
    } else {
      HoldersUpdate(cells[1..], h - 1, c, o);
      assert cells[h := c][1..] == cells[1..][h - 1 := c];
    }
  }

  lemma Repoint(cells: seq<Handle>, h: nat, c: Handle)
    requires h < |cells|
    ensures forall o: Object ::
              Holders(cells[h := c], o) + One(cells[h] == To(o)) == Holders(cells, o) + One(c == To(o))
  {
    forall o: Object
      ensures Holders(cells[h := c], o) + One(cells[h] == To(o)) == Holders(cells, o) + One(c == To(o))
    {
      HoldersUpdate(cells, h, c, o);
    }
  }

  lemma {:induction false} SomeHolder(cells: seq<Handle>, h: nat, o: Object)
    requires h < |cells| && cells[h] == To(o)
    ensures Holders(cells, o) > 0
  {
    if h == 0 {
    } else {
      SomeHolder(cells[1..], h - 1, o);
    }
  }

  lemma {:induction false} AllDead(n: nat, o: Object)
    ensures Holders(seq(n, _ => Dead), o) == 0
  {
    if n == 0 {
    } else {
      AllDead(n - 1, o);
      assert seq(n, _ => Dead)[1..] == seq(n - 1, _ => Dead);
    }
  }

  /** What a program can do with handles. */
  datatype Op =
    | Create(o: Object)
    | FromRaw(h: nat, p: Option<Object>)
    | Copy(h: nat, r: nat)
    | Move(h: nat, r: nat)
    | Destroy(h: nat)
    | AssignRaw(h: nat, p: Option<Object>)
    | AssignCopy(h: nat, r: nat)
    | AssignMove(h: nat, r: nat, temp: nat)
    | Swap(h: nat, r: nat)
    | Give(h: nat)                    // release(): the caller now owes one Release
    | RawRelease(o: Object)           // the caller pays it back
    | Worker(step: FramePool.Step)    // the decoder's worker scans, fails to fill, or clears an unused pool
    | Publish(h: nat)                 // the worker wraps the slot it filled in a frame with its first handle

  /** One object's bookkeeping: its count is exact, and it is gone exactly when its last reference is. */
  predicate ObjectOk(count: int, references: nat, isDestroyed: bool, isReferenced: bool) {
    && count == references
    && (isDestroyed <==> isReferenced && references == 0)
    && (references > 0 ==> isReferenced)
  }

  /** Operations whose effect on the handles is decided by the handles alone. */
  predicate OnHandles(op: Op) {
    op.Copy? || op.Move? || op.Destroy? || op.AssignCopy? || op.AssignMove? || op.Swap? || op.Give?
  }

  predicate Lives(cells: seq<Handle>, h: nat) { h < |cells| && !cells[h].Dead? }

  predicate Vacant(cells: seq<Handle>, h: nat) { h < |cells| && cells[h].Dead? }

  /** What such an operation makes of the handles; nothing where it is not possible. */
  function Handled(cells: seq<Handle>, op: Op): seq<Handle>
    requires OnHandles(op)
  {
    match op
    case Copy(h, r) => if Vacant(cells, h) && Lives(cells, r) then cells[h := cells[r]] else cells
    case Move(h, r) => if Vacant(cells, h) && Lives(cells, r) then cells[r := Null][h := cells[r]] else cells
    case Destroy(h) => if Lives(cells, h) then cells[h := Dead] else cells
    case AssignCopy(h, r) => if Lives(cells, h) && Lives(cells, r) then cells[h := cells[r]] else cells
    case AssignMove(h, r, temp) =>
      if Lives(cells, h) && Lives(cells, r) && Vacant(cells, temp) then cells[r := Null][h := cells[r]] else cells
    case Swap(h, r) => if Lives(cells, h) && Lives(cells, r) then cells[h := cells[r]][r := cells[h]] else cells
    case Give(h) => if Lives(cells, h) then cells[h := Null] else cells
  }

  function Holding(p: Option<Object>): Handle {
    match p case None => Null case Some(o) => To(o)
  }

  // ---- what references do to the pool ---------------------------------------------------------

  function PoolAdd(p: FramePool.Pool, o: Object): FramePool.Pool {
    if o.Pooled? && FramePool.Next(p, FramePool.AddRef(o.f)).Some?
    then FramePool.Next(p, FramePool.AddRef(o.f)).value else p
  }

  function PoolRelease(p: FramePool.Pool, o: Object): FramePool.Pool {
    if o.Pooled? && FramePool.Next(p, FramePool.Release(o.f)).Some?
    then FramePool.Next(p, FramePool.Release(o.f)).value else p
  }

  /** Frames other than `o` are as before, in the same slots. */
  ghost predicate OthersKept(p: FramePool.Pool, q: FramePool.Pool, o: Object) {
    && q.nextFrame == p.nextFrame
    && (forall g :: Pooled(g) != o ==> (g in q.frames <==> g in p.frames))
    && (forall g :: Pooled(g) != o && g in q.frames ==> q.frames[g] == p.frames[g])
  }

  lemma AddEffect(p: FramePool.Pool, o: Object)
    requires FramePool.Exclusive(p) && (o.Pooled? ==> o.f in p.frames)
    ensures var q := PoolAdd(p, o);
            && FramePool.Exclusive(q) && OthersKept(p, q, o)
            && (o.Pooled? ==> o.f in q.frames && q.frames[o.f] == p.frames[o.f].(refs := p.frames[o.f].refs + 1))
  {
    hide FramePool.LayoutOf, FramePool.Exclusive;
    if o.Pooled? {
      FramePool.FrameIsOk(p, o.f);
      FramePool.NextKeepsExclusive(p, FramePool.AddRef(o.f));
    }
  }

  lemma ReleaseEffect(p: FramePool.Pool, o: Object)
    requires FramePool.Exclusive(p) && (o.Pooled? ==> o.f in p.frames)
    ensures var q := PoolRelease(p, o);
            && FramePool.Exclusive(q) && OthersKept(p, q, o)
            && (o.Pooled? ==> (o.f in q.frames <==> p.frames[o.f].refs > 1))
            && (o.Pooled? && o.f in q.frames ==> q.frames[o.f] == p.frames[o.f].(refs := p.frames[o.f].refs - 1))
  {
    hide FramePool.LayoutOf, FramePool.Exclusive;
    if o.Pooled? {
      FramePool.FrameIsOk(p, o.f);
      FramePool.NextKeepsExclusive(p, FramePool.Release(o.f));
    }
  }

  predicate WorkerStep(p: FramePool.Pool, step: FramePool.Step) {
    && FramePool.Next(p, step).Some?
    && (step.Begin? || step.Look? || step.FillFailed? || (step.ClearPool? && p.frames == map[]))
  }

  lemma WorkerEffect(p: FramePool.Pool, step: FramePool.Step)
    requires FramePool.Exclusive(p) && WorkerStep(p, step)
    ensures var q := FramePool.Next(p, step).value;
            FramePool.Exclusive(q) && q.frames == p.frames && q.nextFrame == p.nextFrame
  {
    hide FramePool.LayoutOf, FramePool.Exclusive;
    FramePool.NextKeepsExclusive(p, step);
  }

  lemma PublishEffect(p: FramePool.Pool)
    requires FramePool.Exclusive(p) && FramePool.Next(p, FramePool.Publish).Some?
    ensures var q, f := FramePool.Next(p, FramePool.Publish).value, p.nextFrame;
            && FramePool.Exclusive(q) && f !in p.frames && q.nextFrame == f + 1
            && q.frames.Keys == p.frames.Keys + {f} && q.frames[f].refs == 1
            && (forall g :: g in p.frames ==> q.frames[g] == p.frames[g])
  {
    hide FramePool.LayoutOf, FramePool.Exclusive;
    if p.nextFrame in p.frames {
      FramePool.FrameIsOk(p, p.nextFrame);
    }
    FramePool.NextKeepsExclusive(p, FramePool.Publish);
  }

  class RefWorld {
    var count: map<Object, int>       // ref_count_ of every object ever created
    var destroyed: set<Object>
    var cells: seq<Handle>
    var owed: map<Object, nat>        // raw references handed out by release() and not yet paid back
    var referenced: set<Object>       // objects that have had a reference
    var pool: FramePool.Pool
    var slotOf: map<nat, nat>         // the slot of every frame ever published

    /** References that exist: handles plus raw references. */
    ghost function References(o: Object): nat
      requires o in owed
      reads this
    {
      Holders(cells, o) + owed[o]
    }

    predicate Alive(o: Object)
      reads this
    {
      o in count && o !in destroyed
    }

    /** A frame is alive in the pool exactly while its object is, with the same count. */
    ghost predicate Linked(o: Object)
      reads this
    {
      o.Pooled? ==>
        && (o in count <==> o.f < pool.nextFrame) && (o in count <==> o.f in slotOf)
        && (o.f in pool.frames <==> o in count && o !in destroyed)
        && (o.f in pool.frames ==>
              && pool.frames[o.f].refs == count[o] && o in referenced
              && o.f in slotOf && slotOf[o.f] == pool.frames[o.f].slot)
    }

    ghost predicate Ok(o: Object)
      reads this
    {
      && Linked(o)
      && if o in count && o in owed
         then ObjectOk(count[o], References(o), o in destroyed, o in referenced)
         else o !in count && o !in owed && Holders(cells, o) == 0 && o !in destroyed && o !in referenced
    }

    ghost predicate Valid()
      reads this
    {
      FramePool.Exclusive(pool) && forall o: Object :: Ok(o)
    }

    constructor (n: nat)
      ensures Valid() && count == map[] && cells == seq(n, _ => Dead) && pool == FramePool.INITIAL
    {
      count, destroyed, cells, owed, referenced := map[], {}, seq(n, _ => Dead), map[], {};
      pool, slotOf := FramePool.INITIAL, map[];
      new;
      forall o: Object ensures Ok(o) {
        AllDead(n, o);
      }
    }

    predicate Is(h: nat)
      reads this
    {
      h < |cells| && !cells[h].Dead?
    }

    predicate Unborn(h: nat)
      reads this
    {
      h < |cells| && cells[h].Dead?
    }

    method NewObject(o: Object)
      requires Valid() && o !in count && o.Plain?
      modifies this`count, this`owed
      ensures Valid() && Alive(o) && o !in referenced
      ensures count == old(count)[o := 0] && cells == old(cells) && destroyed == old(destroyed)
      ensures owed == old(owed)[o := 0]
    {
      hide Holders, FramePool.Exclusive;
      assert Ok(o);
      count := count[o := 0];
      owed := owed[o := 0];
      forall x: Object ensures Ok(x) {
        assert old(Ok(x));
      }
    }

    method AddRef(o: Object)
      requires Alive(o) && FramePool.Exclusive(pool) && (o.Pooled? ==> o.f in pool.frames)
      modifies `count, `referenced, `pool
      ensures pool == PoolAdd(old(pool), o)
      ensures count == old(count)[o := old(count)[o] + 1] && referenced == old(referenced) + {o}
    {
      count := count[o := count[o] + 1];
      referenced := referenced + {o};
      pool := PoolAdd(pool, o);
    }

    method ReleaseRef(o: Object)
      requires Alive(o) && FramePool.Exclusive(pool) && (o.Pooled? ==> o.f in pool.frames)
      modifies `count, `destroyed, `pool
      ensures pool == PoolRelease(old(pool), o)
      ensures count == old(count)[o := old(count)[o] - 1]
      ensures destroyed == old(destroyed) + (if old(count)[o] == 1 then {o} else {})
    {
      count := count[o := count[o] - 1];
      if count[o] == 0 {
        destroyed := destroyed + {o};
      }
      pool := PoolRelease(pool, o);
    }

    lemma PointsToLive(h: nat)
      requires Valid() && h < |cells| && cells[h].To?
      ensures Alive(cells[h].o) && count[cells[h].o] > 0
    {
      SomeHolder(cells, h, cells[h].o);
      assert Ok(cells[h].o);
    }

    /** The constructor from a raw pointer; a null pointer gives a null handle. */
    method ConstructFromRaw(h: nat, p: Option<Object>)
      requires Valid() && Unborn(h) && (p.Some? ==> Alive(p.value))
      modifies this
      ensures Valid() && cells == old(cells)[h := Holding(p)] && owed == old(owed) && destroyed == old(destroyed)
    {
      hide Holders, FramePool.Exclusive, PoolAdd;
      Repoint(cells, h, Holding(p));
      cells := cells[h := Holding(p)];
      if p.Some? {
        assert old(Ok(p.value));
        AddEffect(pool, p.value);
        AddRef(p.value);
      }
      forall x: Object ensures Ok(x) {
        assert old(Ok(x));
      }
    }

    method CopyConstruct(h: nat, r: nat)
      requires Valid() && Unborn(h) && Is(r)
      modifies this
      ensures Valid() && cells == old(cells)[h := old(cells)[r]] && owed == old(owed) && destroyed == old(destroyed)
    {
      if cells[r].To? {
        PointsToLive(r);
        ConstructFromRaw(h, Some(cells[r].o));
      } else {
        ConstructFromRaw(h, None);
      }
    }

    /** release(): empties the handle without touching the count. */
    method Release(h: nat) returns (p: Option<Object>)
      requires Valid() && Is(h)
      modifies `cells, `owed
      ensures Valid() && cells == old(cells)[h := Null] && old(cells)[h] == Holding(p)
      ensures p.None? ==> owed == old(owed)
      ensures p.Some? ==> p.value in old(owed) && owed == old(owed)[p.value := old(owed)[p.value] + 1]
    {
      hide Holders, FramePool.Exclusive;
      Repoint(cells, h, Null);
      if cells[h].To? {
        PointsToLive(h);
        assert Ok(cells[h].o);
        p := Some(cells[h].o);
        owed := owed[cells[h].o := owed[cells[h].o] + 1];
      } else {
        p := None;
      }
      cells := cells[h := Null];
      forall x: Object ensures Ok(x) {
        assert old(Ok(x));
      }
    }

    /** A new handle stores a pointer whose reference its maker owed. */
    method Adopt(h: nat, p: Option<Object>)
      requires Valid() && Unborn(h) && (p.Some? ==> p.value in owed && owed[p.value] > 0)
      modifies `cells, `owed
      ensures Valid() && cells == old(cells)[h := Holding(p)]
      ensures p.None? ==> owed == old(owed)
      ensures p.Some? ==> owed == old(owed)[p.value := old(owed)[p.value] - 1]
    {
      hide Holders, FramePool.Exclusive;
      Repoint(cells, h, Holding(p));
      cells := cells[h := Holding(p)];
      if p.Some? {
        owed := owed[p.value := owed[p.value] - 1];
      }
      forall x: Object ensures Ok(x) {
        assert old(Ok(x));
      }
    }

    method MoveConstruct(h: nat, r: nat)
      requires Valid() && Unborn(h) && Is(r)
      modifies `cells, `owed
      ensures Valid() && cells == old(cells)[r := Null][h := old(cells)[r]] && owed == old(owed)
    {
      var p := Release(r);
      Adopt(h, p);
      assert p.Some? ==> owed == old(owed)[p.value := old(owed)[p.value]];
    }

    method DestroyHandle(h: nat)
      requires Valid() && Is(h)
      modifies this
      ensures Valid() && cells == old(cells)[h := Dead] && owed == old(owed)
      ensures old(destroyed) <= destroyed
      ensures forall o :: o in destroyed && o !in old(destroyed) ==> old(cells)[h] == To(o)
    {
      hide Holders, FramePool.Exclusive, PoolRelease;
      Repoint(cells, h, Dead);
      var c := cells[h];
      if c.To? {
        PointsToLive(h);
      }
      cells := cells[h := Dead];
      if c.To? {
        assert old(Ok(c.o));
        ReleaseEffect(pool, c.o);
        ReleaseRef(c.o);
      }
      forall x: Object ensures Ok(x) {
        assert old(Ok(x));
      }
    }

    /** AddRef() on a raw pointer: its caller now holds a reference of its own. */
    method TakeRaw(o: Object)
      requires Valid() && Alive(o)
      modifies this
      ensures Valid() && cells == old(cells) && destroyed == old(destroyed)
      ensures o in old(owed) && owed == old(owed)[o := old(owed)[o] + 1]
      ensures count == old(count)[o := old(count)[o] + 1]
    {
      hide Holders, FramePool.Exclusive, PoolAdd;
      assert Ok(o);
      owed := owed[o := owed[o] + 1];
      AddEffect(pool, o);
      AddRef(o);
      forall x: Object ensures Ok(x) {
        assert old(Ok(x));
      }
    }

    /**
     operator=(T*): the new reference is taken, then the old one is dropped, and the pointer is stored last. The new
     reference is held by the operator itself meanwhile.
     */
    method AssignFromRaw(h: nat, p: Option<Object>)
      requires Valid() && Is(h) && (p.Some? ==> Alive(p.value))
      modifies this
      ensures Valid() && cells == old(cells)[h := Holding(p)] && owed == old(owed)
      ensures old(destroyed) <= destroyed
      ensures forall o :: o in destroyed && o !in old(destroyed) ==> old(cells)[h] == To(o) && p != Some(o)
    {
      hide Valid;
      if cells[h].To? {
        PointsToLive(h);
      }
      if p.Some? {
        TakeRaw(p.value);
      }
      ReplacePointer(h, p);
    }

    /** Drops the reference of the pointer held, and then stores one whose reference was owed. */
    method ReplacePointer(h: nat, p: Option<Object>)
      requires Valid() && Is(h) && (p.Some? ==> p.value in owed && owed[p.value] > 0)
      modifies this
      ensures Valid() && cells == old(cells)[h := Holding(p)]
      ensures owed == match p { case None => old(owed) case Some(o) => old(owed)[o := old(owed)[o] - 1] }
      ensures old(cells)[h].To? ==> old(cells)[h].o in old(count)
      ensures destroyed == old(destroyed) +
                           if old(cells)[h].To? && old(count)[old(cells)[h].o] == 1 then {old(cells)[h].o} else {}
    {
      hide Holders, FramePool.Exclusive, PoolRelease;
      Repoint(cells, h, Holding(p));
      var was := cells[h];
      if was.To? {
        PointsToLive(h);
        assert Ok(was.o);
        ReleaseEffect(pool, was.o);
        ReleaseRef(was.o);
      }
      cells := cells[h := Holding(p)];
      if p.Some? {
        assert old(Ok(p.value));
        owed := owed[p.value := owed[p.value] - 1];
      }
      forall x: Object ensures Ok(x) {
        assert old(Ok(x));
      }
    }

    method CopyAssign(h: nat, r: nat)
      requires Valid() && Is(h) && Is(r)
      modifies this
      ensures Valid() && cells == old(cells)[h := old(cells)[r]] && owed == old(owed)
      ensures h == r ==> destroyed == old(destroyed)
    {
      if cells[r].To? {
        PointsToLive(r);
        AssignFromRaw(h, Some(cells[r].o));
      } else {
        AssignFromRaw(h, None);
      }
    }

    method SwapHandles(h: nat, r: nat)
      requires Valid() && Is(h) && Is(r)
      modifies `cells
      ensures Valid() && cells == old(cells)[h := old(cells)[r]][r := old(cells)[h]]
    {
      hide Holders, FramePool.Exclusive;
      var p := cells[h];
      Repoint(cells, h, cells[r]);
      Repoint(cells[h := cells[r]], r, p);
      cells := cells[h := cells[r]];
      cells := cells[r := p];
      forall x: Object ensures Ok(x) {
        assert old(Ok(x));
      }
    }

    /** operator=(scoped_refptr&&): a temporary takes r's pointer, swaps with h, and is destroyed. */
    method MoveAssign(h: nat, r: nat, temp: nat)
      requires Valid() && Is(h) && Is(r) && Unborn(temp)
      modifies this
      ensures Valid() && cells == old(cells)[r := Null][h := old(cells)[r]] && owed == old(owed)
      ensures h == r ==> destroyed == old(destroyed)
    {
      hide Holders, Valid;
      MoveConstruct(temp, r);
      SwapHandles(temp, h);
      DestroyHandle(temp);
    }

    /** The holder of a raw reference calls Release() on the object. */
    method ReleaseRaw(o: Object)
      requires Valid() && o in owed && owed[o] > 0
      modifies this
      ensures Valid() && cells == old(cells) && owed == old(owed)[o := old(owed)[o] - 1]
      ensures o in old(count) && destroyed == old(destroyed) + (if old(count)[o] == 1 then {o} else {})
    {
      hide Holders, FramePool.Exclusive, PoolRelease;
      assert Ok(o);
      owed := owed[o := owed[o] - 1];
      ReleaseEffect(pool, o);
      ReleaseRef(o);
      forall x: Object ensures Ok(x) {
        assert old(Ok(x));
      }
    }

    /** The worker's part of the pool's steps touches no frame. */
    method WorkerDoes(step: FramePool.Step)
      requires Valid() && WorkerStep(pool, step)
      modifies `pool
      ensures Valid() && pool == FramePool.Next(old(pool), step).value
    {
      hide Holders, FramePool.Exclusive, FramePool.Next;
      WorkerEffect(pool, step);
      pool := FramePool.Next(pool, step).value;
      forall x: Object ensures Ok(x) {
        assert old(Ok(x));
      }
    }

    /** The filled slot becomes a frame, held by one new handle. */
    method PublishFrame(h: nat)
      requires Valid() && Unborn(h) && FramePool.Next(pool, FramePool.Publish).Some?
      modifies this
      ensures Valid() && cells == old(cells)[h := To(Pooled(old(pool).nextFrame))]
      ensures pool == FramePool.Next(old(pool), FramePool.Publish).value
    {
      hide Holders, FramePool.Exclusive, FramePool.Next;
      var o := Pooled(pool.nextFrame);
      assert Ok(o);
      PublishEffect(pool);
      Repoint(cells, h, To(o));
      pool := FramePool.Next(pool, FramePool.Publish).value;
      slotOf := slotOf[o.f := pool.frames[o.f].slot];
      cells := cells[h := To(o)];
      count, owed, referenced := count[o := 1], owed[o := 0], referenced + {o};
      forall x: Object ensures Ok(x) {
        assert old(Ok(x));
      }
    }

    /**
     A slot's flag is set exactly when the worker is not filling it and no frame published in it has a reference
     left.
     */
    lemma SlotFreeIff(k: nat)
      requires Valid() && k < FramePool.POOL_SLOTS
      ensures |pool.slots| == FramePool.POOL_SLOTS
      ensures pool.slots[k].free <==>
              && pool.worker != FramePool.Filling(k)
              && (forall f :: f in slotOf && slotOf[f] == k ==> Unreferenced(Pooled(f)))
    {
      hide Holders, FramePool.LayoutOf;
      if pool.slots[k].free {
        FramePool.FreeHasNoOwner(pool, k);
        forall f | f in slotOf && slotOf[f] == k ensures Unreferenced(Pooled(f)) {
          assert Ok(Pooled(f)) && !FramePool.Owns(pool, f, k);
        }
      } else {
        assert FramePool.Owned(pool, k);
        if pool.worker != FramePool.Filling(k) {
          var f :| FramePool.Owns(pool, f, k);
          assert FramePool.FrameOk(pool, pool.frames[f]);
          assert Ok(Pooled(f)) && slotOf[f] == k && !Unreferenced(Pooled(f));
        }
      }
    }

    ghost predicate Unreferenced(o: Object)
      reads this
    {
      o in owed && References(o) == 0
    }

    predicate CanDo(op: Op)
      reads this
    {
      match op
      case Create(o) => o !in count && o.Plain?
      case FromRaw(h, p) => Unborn(h) && (p.Some? ==> Alive(p.value))
      case Copy(h, r) => Unborn(h) && Is(r)
      case Move(h, r) => Unborn(h) && Is(r)
      case Destroy(h) => Is(h)
      case AssignRaw(h, p) => Is(h) && (p.Some? ==> Alive(p.value))
      case AssignCopy(h, r) => Is(h) && Is(r)
      case AssignMove(h, r, temp) => Is(h) && Is(r) && Unborn(temp)
      case Swap(h, r) => Is(h) && Is(r)
      case Give(h) => Is(h)
      case RawRelease(o) => o in owed && owed[o] > 0
      case Worker(step) => WorkerStep(pool, step)
      case Publish(h) => Unborn(h) && FramePool.Next(pool, FramePool.Publish).Some?
    }

    method Do(op: Op)
      requires Valid() && CanDo(op)
      modifies this
      ensures Valid() && (OnHandles(op) ==> cells == Handled(old(cells), op))
    {
      hide Valid;
      match op
      case Create(o) => NewObject(o);
      case FromRaw(h, p) => ConstructFromRaw(h, p);
      case Copy(h, r) => CopyConstruct(h, r);
      case Move(h, r) => MoveConstruct(h, r);
      case Destroy(h) => DestroyHandle(h);
      case AssignRaw(h, p) => AssignFromRaw(h, p);
      case AssignCopy(h, r) => CopyAssign(h, r);
      case AssignMove(h, r, temp) => MoveAssign(h, r, temp);
      case Swap(h, r) => SwapHandles(h, r);
      case Give(h) => var _ := Release(h);
      case RawRelease(o) => ReleaseRaw(o);
      case Worker(step) => WorkerDoes(step);
      case Publish(h) => PublishFrame(h);
    }

    /** Any program over handles; an operation that is not possible where it stands is skipped. */
    method Run(ops: seq<Op>) returns (ghost trace: seq<seq<Handle>>)
      requires Valid()
      modifies this
      ensures |trace| == |ops| + 1 && trace[0] == old(cells) && trace[|ops|] == cells
      ensures forall i :: 0 <= i < |ops| && OnHandles(ops[i]) ==> trace[i + 1] == Handled(trace[i], ops[i])
      ensures forall o :: o in count ==> o in owed && count[o] == Holders(cells, o) + owed[o]
      ensures forall o :: o in count ==> (o in destroyed <==> o in referenced && count[o] == 0)
      ensures forall h :: 0 <= h < |cells| && cells[h].To? ==> Alive(cells[h].o)
      ensures |pool.slots| == FramePool.POOL_SLOTS
      ensures forall k :: 0 <= k < FramePool.POOL_SLOTS ==>
                (pool.slots[k].free <==>
                   && pool.worker != FramePool.Filling(k)
                   && (forall f :: f in slotOf && slotOf[f] == k ==> Unreferenced(Pooled(f))))
    {
      hide FramePool.Exclusive, FramePool.Next, Holders;
      trace := [cells];
      for i := 0 to |ops|
        invariant Valid() && |trace| == i + 1 && trace[0] == old(cells) && trace[i] == cells
        invariant forall k :: 0 <= k < i && OnHandles(ops[k]) ==> trace[k + 1] == Handled(trace[k], ops[k])
      {
        if CanDo(ops[i]) {
          Do(ops[i]);
        }
        trace := trace + [cells];
      }
      assert forall o :: o in count ==> Ok(o);
      SlotFreeIff(0);
      forall k | 0 <= k < FramePool.POOL_SLOTS
        ensures pool.slots[k].free <==>
                  && pool.worker != FramePool.Filling(k)
                  && (forall f :: f in slotOf && slotOf[f] == k ==> Unreferenced(Pooled(f)))
      {
        SlotFreeIff(k);
      }
      forall h | 0 <= h < |cells| && cells[h].To? ensures Alive(cells[h].o) {
        PointsToLive(h);
      }
    }
  }
}

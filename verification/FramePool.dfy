/**
 The six-slot pool of I420 frame memory. One worker acquires slots; frames are dropped by any
 thread, which frees their slot without taking a lock.
 */
module FramePool {

  import opened Base

  // ---- plane layout of one slot ----------------------------------------------------

  datatype Layout = Layout(strideY: nat, strideU: nat, strideV: nat, offU: nat, offV: nat, total: nat)

  function LayoutOf(w: nat, h: nat): Layout {
    var su, hh := (w + 1) / 2, (h + 1) / 2;
    var ou := w * h;
    var ov := ou + su * hh;
    Layout(w, su, su, ou, ov, ov + su * hh)
  }

  datatype Plane = Y | U | V

  function PlaneBase(l: Layout, p: Plane): nat {
    match p case Y => 0 case U => l.offU case V => l.offV
  }

  function PlaneStride(l: Layout, p: Plane): nat {
    match p case Y => l.strideY case U => l.strideU case V => l.strideV
  }

  function PlaneRows(h: nat, p: Plane): nat {
    if p.Y? then h else (h + 1) / 2
  }

  /** Address of a sample: what DataY/DataU/DataV plus row and column reach. */
  function Address(l: Layout, p: Plane, row: nat, col: nat): int {
    PlaneBase(l, p) + Cell(row, PlaneStride(l, p), col)
  }

  predicate InPlane(l: Layout, h: nat, p: Plane, row: nat, col: nat) {
    row < PlaneRows(h, p) && col < PlaneStride(l, p)
  }

  lemma PlaneExtent(w: nat, h: nat, p: Plane)
    ensures var l := LayoutOf(w, h);
            PlaneBase(l, p) + PlaneRows(h, p) * PlaneStride(l, p)
            == match p { case Y => l.offU case U => l.offV case V => l.total }
    ensures LayoutOf(w, h).offU <= LayoutOf(w, h).offV <= LayoutOf(w, h).total
  {
  }

  /** The three planes tile the slot's memory: every byte is one sample of one plane, and only one. */
  lemma PlanesTile(w: nat, h: nat, i: nat)
    requires i < LayoutOf(w, h).total
    ensures exists p, row, col :: IsSample(w, h, p, row, col, i)
    ensures forall p, r1, c1, q, r2, c2 :: IsSample(w, h, p, r1, c1, i) && IsSample(w, h, q, r2, c2, i) ==>
                                             p == q && r1 == r2 && c1 == c2
  {
    hide LayoutOf, Cell;
    var l := LayoutOf(w, h);
    PlaneExtent(w, h, Y);
    var p := if i < l.offU then Y else if i < l.offV then U else V;
    PlaneExtent(w, h, p);
    var row, col := CellOf(i - PlaneBase(l, p), PlaneRows(h, p), PlaneStride(l, p));
    assert IsSample(w, h, p, row, col, i);
    forall p, r1, c1, q, r2, c2 | IsSample(w, h, p, r1, c1, i) && IsSample(w, h, q, r2, c2, i)
      ensures p == q && r1 == r2 && c1 == c2
    {
      SamplesDisjoint(w, h, p, r1, c1, q, r2, c2);
    }
  }

  /** Byte `i` of a slot's memory is that sample. */
  predicate IsSample(w: nat, h: nat, p: Plane, row: nat, col: nat, i: nat) {
    InPlane(LayoutOf(w, h), h, p, row, col) && Address(LayoutOf(w, h), p, row, col) == i
  }

  lemma SampleInPlane(w: nat, h: nat, p: Plane, row: nat, col: nat)
    requires InPlane(LayoutOf(w, h), h, p, row, col)
    ensures var l := LayoutOf(w, h);
            && col < PlaneStride(l, p)
            && PlaneBase(l, p) <= Address(l, p, row, col)
            && Address(l, p, row, col) < match p { case Y => l.offU case U => l.offV case V => l.total }
            && 0 <= l.offU <= l.offV <= l.total
  {
    hide LayoutOf, Cell;
    PlaneExtent(w, h, p);
    CellBounds(row, PlaneRows(h, p), PlaneStride(LayoutOf(w, h), p), col);
  }

  lemma SamplesDisjoint(w: nat, h: nat, p: Plane, r1: nat, c1: nat, q: Plane, r2: nat, c2: nat)
    requires var l := LayoutOf(w, h); InPlane(l, h, p, r1, c1) && InPlane(l, h, q, r2, c2)
    ensures Address(LayoutOf(w, h), p, r1, c1) < LayoutOf(w, h).total
    ensures Address(LayoutOf(w, h), p, r1, c1) == Address(LayoutOf(w, h), q, r2, c2) ==> p == q && r1 == r2 && c1 == c2
  {
    hide LayoutOf, Cell;
    SampleInPlane(w, h, p, r1, c1);
    SampleInPlane(w, h, q, r2, c2);
    if p == q && (r1 != r2 || c1 != c2) {
      CellInjective(r1, c1, r2, c2, PlaneStride(LayoutOf(w, h), p));
    }
  }

  /** The planes hold one luma sample a pixel and one sample of each chroma for every two by two pixels, and no more. */
  lemma SamplesAreOfPixels(w: nat, h: nat, row: nat, col: nat)
    ensures var l := LayoutOf(w, h);
            && (InPlane(l, h, Y, row, col) <==> row < h && col < w)
            && (InPlane(l, h, U, row, col) <==> exists x: nat, y: nat :: Quarter(w, h, x, y, row, col))
            && (InPlane(l, h, V, row, col) <==> exists x: nat, y: nat :: Quarter(w, h, x, y, row, col))
  {
    if 2 * row < h && 2 * col < w {
      assert Quarter(w, h, 2 * col, 2 * row, row, col);
    }
  }

  /** Pixel (x, y) of the picture is one of the four of that chroma sample. */
  predicate Quarter(w: nat, h: nat, x: nat, y: nat, row: nat, col: nat) {
    x < w && y < h && row == y / 2 && col == x / 2
  }

  /** `size` bytes laid out by `l` have the three samples of every pixel. */
  ghost predicate Roomy(l: Layout, size: nat, w: nat, h: nat) {
    forall x: nat, y: nat :: x < w && y < h ==> PixelInside(l, size, h, x, y)
  }

  predicate PixelInside(l: Layout, size: nat, h: nat, x: nat, y: nat) {
    && InPlane(l, h, Y, y, x) && Address(l, Y, y, x) < size
    && InPlane(l, h, U, y / 2, x / 2) && Address(l, U, y / 2, x / 2) < size
    && InPlane(l, h, V, y / 2, x / 2) && Address(l, V, y / 2, x / 2) < size
  }

  lemma EveryPixelHasItsSamples(w: nat, h: nat)
    ensures Roomy(LayoutOf(w, h), LayoutOf(w, h).total, w, h)
  {
    hide LayoutOf, Cell;
    var l := LayoutOf(w, h);
    forall x: nat, y: nat | x < w && y < h ensures PixelInside(l, l.total, h, x, y) {
      SamplesAreOfPixels(w, h, y, x);
      SamplesAreOfPixels(w, h, y / 2, x / 2);
      assert Quarter(w, h, x, y, y / 2, x / 2);
      SampleInPlane(w, h, Y, y, x);
      SampleInPlane(w, h, U, y / 2, x / 2);
      SampleInPlane(w, h, V, y / 2, x / 2);
    }
  }

  // ---- slots and the acquiring loop ----------------------------------------------------

  const POOL_SLOTS: nat := 6

  /** `mem` names an allocation; `size` is how many bytes it has. */
  datatype Slot = Slot(mem: Option<nat>, size: nat, width: nat, height: nat, layout: Layout, free: bool)

  /** Memory, once allocated, is as large as the slot's picture needs, and laid out for it. */
  predicate WellLaid(s: Slot) {
    s.mem.Some? ==> s.layout == LayoutOf(s.width, s.height) && s.size == s.layout.total
  }

  ghost predicate HasRoomFor(s: Slot, w: nat, h: nat) {
    s.mem.Some? && s.width == w && s.height == h && Roomy(s.layout, s.size, w, h)
  }

  predicate Matches(s: Slot, w: nat, h: nat) {
    s.free && s.width == w && s.height == h && s.mem.Some?
  }

  function FirstMatch(slots: seq<Slot>, i: nat, w: nat, h: nat): (k: nat)
    requires i <= |slots|
    ensures i <= k <= |slots| && (k < |slots| ==> Matches(slots[k], w, h))
    ensures forall j :: i <= j < k ==> !Matches(slots[j], w, h)
    decreases |slots| - i
  {
    if i == |slots| || Matches(slots[i], w, h) then i else FirstMatch(slots, i + 1, w, h)
  }

  function FirstFree(slots: seq<Slot>, i: nat): (k: nat)
    requires i <= |slots|
    ensures i <= k <= |slots| && (k < |slots| ==> slots[k].free)
    ensures forall j :: i <= j < k ==> !slots[j].free
    decreases |slots| - i
  {
    if i == |slots| || slots[i].free then i else FirstFree(slots, i + 1)
  }

  function Allocated(w: nat, h: nat, mem: nat): Slot {
    Slot(Some(mem), LayoutOf(w, h).total, w, h, LayoutOf(w, h), false)
  }

  /** What an undisturbed acquisition does to the slots: reuse a matching one, else refill a free one. */
  function Acquire(slots: seq<Slot>, w: nat, h: nat, mem: nat): (seq<Slot>, Option<nat>) {
    var m, f := FirstMatch(slots, 0, w, h), FirstFree(slots, 0);
    if m < |slots| then (slots[m := slots[m].(free := false)], Some(m))
    else if f < |slots| then (slots[f := Allocated(w, h, mem)], Some(f))
    else (slots, None)
  }

  method AcquirePoolSlot(slots: array<Slot>, w: nat, h: nat, mem: nat) returns (r: Option<nat>)
    modifies slots
    ensures (slots[..], r) == Acquire(old(slots[..]), w, h, mem)
    ensures (forall k :: 0 <= k < slots.Length ==> WellLaid(old(slots[..])[k])) ==>
              && (forall k :: 0 <= k < slots.Length ==> WellLaid(slots[k]))
              && (r.Some? ==> r.value < slots.Length && HasRoomFor(slots[r.value], w, h))
  {
    hide Roomy;
    EveryPixelHasItsSamples(w, h);
    ghost var before := slots[..];
    var su := (w + 1) / 2;
    var hh := (h + 1) / 2;
    var ou := w * h;
    var ov := ou + su * hh;
    var total := ov + su * hh;
    var i := 0;
    while i < slots.Length
      invariant 0 <= i <= slots.Length && slots[..] == before
      invariant forall j :: 0 <= j < i ==> !Matches(before[j], w, h)
    {
      if slots[i].free && slots[i].width == w && slots[i].height == h && slots[i].mem.Some? {
        slots[i] := slots[i].(free := false);
        assert FirstMatch(before, 0, w, h) == i;
        assert slots[..] == before[i := before[i].(free := false)];
        return Some(i);
      }
      i := i + 1;
    }
    i := 0;
    while i < slots.Length
      invariant 0 <= i <= slots.Length && slots[..] == before
      invariant forall j :: 0 <= j < i ==> !before[j].free
    {
      if slots[i].free {
        slots[i] := Slot(Some(mem), total, w, h, Layout(w, su, su, ou, ov, total), false);
        assert FirstFree(before, 0) == i;
        assert slots[..] == before[i := Allocated(w, h, mem)];
        return Some(i);
      }
      i := i + 1;
    }
    return None;
  }

  // ---- the pool with its live frames, step by step --------------------------------------

  /** A live PooledI420: the slot whose flag it will set, its memory and its reference count. */
  datatype Frame = Frame(slot: nat, mem: nat, width: nat, height: nat, layout: Layout, refs: nat)

  datatype Worker =
    | Idle
    | Matching(i: nat, w: nat, h: nat)        // first loop, about to look at slot i
    | Refilling(i: nat, w: nat, h: nat)       // second loop
    | Filling(slot: nat)                      // slot taken, pixels being written

  datatype Pool = Pool(
    slots: seq<Slot>,
    frames: map<nat, Frame>,
    worker: Worker,
    nextFrame: nat,
    nextMem: nat,
    allocs: nat,              // allocations since the last ClearPool
    reallocs: nat,            // of these, the ones that replaced existing memory
    late: set<nat>,           // slots freed during this acquisition after the first loop passed them
    races: nat)               // how many slots were freed late since the last ClearPool

  datatype Step =
    | Begin(w: nat, h: nat) | Look | Publish | FillFailed
    | AddRef(f: nat) | Release(f: nat) | ClearPool

  const EMPTY: Slot := Slot(None, 0, 0, 0, Layout(0, 0, 0, 0, 0, 0), true)

  const INITIAL: Pool := Pool([EMPTY, EMPTY, EMPTY, EMPTY, EMPTY, EMPTY], map[], Idle, 0, 0, 0, 0, {}, 0)

  function LookStep(p: Pool): Option<Pool> {
    match p.worker
    case Matching(i, w, h) =>
      if i >= |p.slots| then Some(p.(worker := Refilling(0, w, h)))
      else if Matches(p.slots[i], w, h) then
        Some(p.(slots := p.slots[i := p.slots[i].(free := false)], worker := Filling(i), late := {}))
      else Some(p.(worker := Matching(i + 1, w, h)))
    case Refilling(i, w, h) =>
      if i >= |p.slots| then Some(p.(worker := Idle, late := {}))
      else if p.slots[i].free then
        Some(p.(slots := p.slots[i := Allocated(w, h, p.nextMem)], worker := Filling(i), nextMem := p.nextMem + 1,
                allocs := p.allocs + 1, reallocs := p.reallocs + (if p.slots[i].mem.Some? then 1 else 0), late := {}))
      else Some(p.(worker := Refilling(i + 1, w, h)))
    case _ => None
  }

  /** The first loop of the acquisition in progress has already looked at slot `k`. */
  predicate Passed(worker: Worker, k: nat) {
    worker.Refilling? || (worker.Matching? && k < worker.i)
  }

  function SetRefs(p: Pool, f: nat, n: nat): Pool
    requires f in p.frames
  {
    p.(frames := p.frames[f := p.frames[f].(refs := n)])
  }

  /** The frame's destructor: its slot's flag is set, whatever the worker is doing. */
  function Drop(p: Pool, f: nat): Pool
    requires f in p.frames && p.frames[f].slot < |p.slots|
  {
    var k := p.frames[f].slot;
    var p' := p.(frames := p.frames - {f}, slots := p.slots[k := p.slots[k].(free := true)]);
    if Passed(p.worker, k) then p'.(late := p.late + {k}, races := p.races + 1) else p'
  }

  function ReleaseStep(p: Pool, f: nat): Option<Pool> {
    if f !in p.frames || p.frames[f].refs == 0 || p.frames[f].slot >= |p.slots| then None
    else if p.frames[f].refs > 1 then Some(SetRefs(p, f, p.frames[f].refs - 1))
    else Some(Drop(p, f))
  }

  function Next(p: Pool, step: Step): Option<Pool> {
    match step
    case Begin(w, h) =>
      if p.worker.Idle? && w > 0 && h > 0 then Some(p.(worker := Matching(0, w, h), late := {})) else None
    case Look => LookStep(p)
    case Publish =>
      if p.worker.Filling? && p.worker.slot < |p.slots| && p.slots[p.worker.slot].mem.Some? then
        var s := p.slots[p.worker.slot];
        Some(p.(frames := p.frames[p.nextFrame := Frame(p.worker.slot, s.mem.value, s.width, s.height, s.layout, 1)],
                nextFrame := p.nextFrame + 1, worker := Idle))
      else None
    case FillFailed =>
      if p.worker.Filling? && p.worker.slot < |p.slots| then
        Some(p.(slots := p.slots[p.worker.slot := p.slots[p.worker.slot].(free := true)], worker := Idle))
      else None
    case AddRef(f) =>
      if f in p.frames && p.frames[f].refs > 0 then Some(SetRefs(p, f, p.frames[f].refs + 1)) else None
    case Release(f) => ReleaseStep(p, f)
    case ClearPool =>
      if p.worker.Idle? then
        Some(p.(slots := seq(|p.slots|, k requires 0 <= k < |p.slots| =>
                             p.slots[k].(mem := None, width := 0, height := 0, free := true)),
                allocs := 0, reallocs := 0, races := 0))
      else None
  }

  function Run(p: Pool, steps: seq<Step>): Option<Pool>
    decreases |steps|
  {
    if steps == [] then Some(p)
    else
      match Next(p, steps[0])
      case None => None
      case Some(p') => Run(p', steps[1..])
  }

  // ---- exclusivity -------------------------------------------------------------------------

  predicate Owns(p: Pool, f: nat, k: nat) {
    f in p.frames && p.frames[f].slot == k
  }

  predicate SlotOk(p: Pool, s: Slot) {
    (s.mem.Some? ==> s.mem.value < p.nextMem) && WellLaid(s)
  }

  predicate FrameOk(p: Pool, f: Frame) {
    && f.refs > 0 && f.slot < |p.slots|
    && var s := p.slots[f.slot];
       !s.free && s.mem == Some(f.mem) && s.width == f.width && s.height == f.height && s.layout == f.layout
  }

  ghost predicate MemoryDistinct(slots: seq<Slot>) {
    forall j, k :: 0 <= j < k < |slots| && slots[j].mem.Some? ==> slots[j].mem != slots[k].mem
  }

  ghost predicate FramesOk(p: Pool) {
    && (forall f :: f in p.frames ==> f < p.nextFrame && FrameOk(p, p.frames[f]))
    && (forall f, g, k :: Owns(p, f, k) && Owns(p, g, k) ==> f == g)
  }

  ghost predicate WorkerOk(p: Pool) {
    p.worker.Filling? ==>
      && p.worker.slot < |p.slots| && !p.slots[p.worker.slot].free && p.slots[p.worker.slot].mem.Some?
      && (forall f :: !Owns(p, f, p.worker.slot))
  }

  ghost predicate Owned(p: Pool, k: nat) {
    p.worker == Filling(k) || exists f :: Owns(p, f, k)
  }

  /** Every occupied slot has exactly one owner: one live frame, or the worker filling it. */
  ghost predicate Exclusive(p: Pool) {
    && |p.slots| == POOL_SLOTS
    && (forall k :: 0 <= k < |p.slots| ==> SlotOk(p, p.slots[k]))
    && MemoryDistinct(p.slots)
    && FramesOk(p)
    && WorkerOk(p)
    && (forall k :: 0 <= k < |p.slots| && !p.slots[k].free ==> Owned(p, k))
  }

  /** No frame is alive when the pool is cleared: the restriction the source needs. */
  ghost predicate NoSurvivor(p: Pool, steps: seq<Step>)
    decreases |steps|
  {
    steps != [] ==>
      && (steps[0].ClearPool? ==> p.frames == map[])
      && (Next(p, steps[0]).Some? ==> NoSurvivor(Next(p, steps[0]).value, steps[1..]))
  }

  lemma StillOwned(p: Pool, p': Pool, k: nat)
    requires Owned(p, k) && (p.worker == Filling(k) ==> p'.worker == Filling(k))
    requires forall f :: Owns(p, f, k) ==> Owns(p', f, k)
    ensures Owned(p', k)
  {
    if p.worker != Filling(k) {
      var f :| Owns(p, f, k);
      assert Owns(p', f, k);
    }
  }

  lemma FrameIsOk(p: Pool, f: nat)
    requires Exclusive(p) && f in p.frames
    ensures FrameOk(p, p.frames[f]) && f < p.nextFrame
  {
    hide LayoutOf;
  }

  lemma RefsKeepExclusive(p: Pool, f: nat, n: nat)
    requires Exclusive(p) && f in p.frames && n > 0
    ensures Exclusive(SetRefs(p, f, n))
  {
    hide LayoutOf;
    var p' := SetRefs(p, f, n);
    assert forall g, k :: Owns(p', g, k) <==> Owns(p, g, k);
    FramesStayOk(p, p');
    forall k | 0 <= k < |p'.slots| && !p'.slots[k].free ensures Owned(p', k) {
      StillOwned(p, p', k);
    }
  }

  /** Frames stay what they were, and their slots keep memory and flag. */
  lemma FramesStayOk(p: Pool, p': Pool)
    requires FramesOk(p) && |p'.slots| == |p.slots| && p'.nextFrame == p.nextFrame
    requires forall g :: g in p'.frames ==>
               && g in p.frames && p'.frames[g] == p.frames[g].(refs := p'.frames[g].refs) && p'.frames[g].refs > 0
               && (p.frames[g].slot < |p.slots| ==> p'.slots[p.frames[g].slot] == p.slots[p.frames[g].slot])
    ensures FramesOk(p')
  {
    forall g | g in p'.frames ensures g < p'.nextFrame && FrameOk(p', p'.frames[g]) {
      assert FrameOk(p, p.frames[g]);
    }
    forall f, g, k | Owns(p', f, k) && Owns(p', g, k) ensures f == g {
      assert Owns(p, f, k) && Owns(p, g, k);
    }
  }

  /** Slots change only in their flags, or lose their memory. */
  ghost predicate SlotsOnlyLose(slots: seq<Slot>, slots': seq<Slot>) {
    && |slots| == |slots'|
    && (forall k :: 0 <= k < |slots| ==> slots'[k].mem == None || slots'[k] == slots[k].(free := slots'[k].free))
  }

  lemma LosingKeepsSlots(p: Pool, p': Pool)
    requires (forall k :: 0 <= k < |p.slots| ==> SlotOk(p, p.slots[k])) && MemoryDistinct(p.slots)
    requires SlotsOnlyLose(p.slots, p'.slots) && p'.nextMem == p.nextMem
    ensures (forall k :: 0 <= k < |p'.slots| ==> SlotOk(p', p'.slots[k])) && MemoryDistinct(p'.slots)
  {
    hide LayoutOf;
    forall k | 0 <= k < |p'.slots| ensures SlotOk(p', p'.slots[k]) {
      assert SlotOk(p, p.slots[k]);
    }
  }

  lemma DropKeepsFrames(p: Pool, f: nat)
    requires FramesOk(p) && f in p.frames
    ensures FrameOk(p, p.frames[f]) && FramesOk(Drop(p, f))
  {
    assert FrameOk(p, p.frames[f]);
    var p', k' := Drop(p, f), p.frames[f].slot;
    forall g | g in p'.frames ensures g in p.frames && p.frames[g].slot != k' && p.frames[g].refs > 0 {
      assert FrameOk(p, p.frames[g]);
      assert Owns(p, f, k') && Owns(p, g, p.frames[g].slot);
    }
    FramesStayOk(p, p');
  }

  lemma DropKeepsExclusive(p: Pool, f: nat)
    requires Exclusive(p) && f in p.frames
    ensures FrameOk(p, p.frames[f]) && Exclusive(Drop(p, f))
  {
    hide LayoutOf, FrameOk;
    DropKeepsFrames(p, f);
    var p', k' := Drop(p, f), p.frames[f].slot;
    assert Owns(p, f, k');
    hide FramesOk;
    LosingKeepsSlots(p, p');
    assert forall g, k :: Owns(p', g, k) <==> Owns(p, g, k) && g != f;
    forall k | 0 <= k < |p'.slots| && !p'.slots[k].free ensures Owned(p', k) {
      StillOwned(p, p', k);
    }
  }

  lemma FreeHasNoOwner(p: Pool, k: nat)
    requires FramesOk(p) && k < |p.slots| && p.slots[k].free
    ensures forall f :: !Owns(p, f, k)
  {
    forall f | f in p.frames ensures p.frames[f].slot != k {
      assert FrameOk(p, p.frames[f]);
    }
  }

  lemma TakeKeepsSlots(p: Pool, i: nat, slots: seq<Slot>, mem: nat)
    requires i < |p.slots| && MemoryDistinct(p.slots) && (forall k :: 0 <= k < |p.slots| ==> SlotOk(p, p.slots[k]))
    requires |slots| == |p.slots| && (forall k :: 0 <= k < |slots| && k != i ==> slots[k] == p.slots[k])
    requires p.nextMem <= mem && SlotOk(p.(nextMem := mem), slots[i])
    requires slots[i].mem == p.slots[i].mem || (slots[i].mem.Some? && p.nextMem <= slots[i].mem.value)
    ensures MemoryDistinct(slots)
    ensures forall k :: 0 <= k < |slots| ==> SlotOk(p.(nextMem := mem), slots[k])
  {
    hide LayoutOf;
    forall j, k | 0 <= j < k < |slots| && slots[j].mem.Some? ensures slots[j].mem != slots[k].mem {
      assert SlotOk(p, p.slots[j]) && SlotOk(p, p.slots[k]);
    }
    forall k | 0 <= k < |slots| ensures SlotOk(p.(nextMem := mem), slots[k]) {
      assert SlotOk(p, p.slots[k]);
    }
  }

  lemma LookKeepsExclusive(p: Pool)
    requires Exclusive(p) && LookStep(p).Some?
    ensures Exclusive(LookStep(p).value)
  {
    var p' := LookStep(p).value;
    hide LayoutOf, FrameOk;
    if p'.worker.Filling? {
      var i := p'.worker.slot;
      assert SlotOk(p, p.slots[i]);
      TakeKeepsSlots(p, i, p'.slots, p'.nextMem);
      FreeHasNoOwner(p, i);
      SlotUntouched(p, p', i);
    } else {
      SlotUntouched(p, p', |p.slots|);
    }
    assert forall f, k :: Owns(p', f, k) <==> Owns(p, f, k);
    hide FramesOk, SlotOk, MemoryDistinct;
    forall k | 0 <= k < |p'.slots| && !p'.slots[k].free ensures Owned(p', k) {
      if p'.worker != Filling(k) {
        StillOwned(p, p', k);
      }
    }
  }

  lemma PublishKeepsExclusive(p: Pool)
    requires Exclusive(p) && Next(p, Publish).Some?
    ensures Exclusive(Next(p, Publish).value)
  {
    hide LayoutOf;
    var p', i, n := Next(p, Publish).value, p.worker.slot, p.nextFrame;
    assert n !in p.frames;
    assert forall f, k :: Owns(p', f, k) <==> Owns(p, f, k) || (f == n && k == i);
    forall g | g in p'.frames ensures g < p'.nextFrame && FrameOk(p', p'.frames[g]) {
      if g != n {
        assert FrameOk(p, p.frames[g]);
      }
    }
    forall k | 0 <= k < |p'.slots| && !p'.slots[k].free ensures Owned(p', k) {
      if i == k {
        assert Owns(p', n, k);
      } else {
        StillOwned(p, p', k);
      }
    }
  }

  lemma SlotUntouched(p: Pool, p': Pool, k': nat)
    requires FramesOk(p) && |p'.slots| == |p.slots| && p'.nextFrame == p.nextFrame && p'.frames == p.frames
    requires forall f :: k' < |p.slots| ==> !Owns(p, f, k')
    requires forall k :: 0 <= k < |p.slots| && k != k' ==> p'.slots[k] == p.slots[k]
    ensures FramesOk(p')
  {
    forall g | g in p.frames ensures p.frames[g].slot != k' && p.frames[g].refs > 0 {
      assert FrameOk(p, p.frames[g]);
      assert k' < |p.slots| ==> !Owns(p, g, k');
    }
    FramesStayOk(p, p');
  }

  lemma FillFailedKeepsExclusive(p: Pool)
    requires Exclusive(p) && Next(p, FillFailed).Some?
    ensures Exclusive(Next(p, FillFailed).value)
  {
    hide LayoutOf;
    var p' := Next(p, FillFailed).value;
    LosingKeepsSlots(p, p');
    SlotUntouched(p, p', p.worker.slot);
    assert forall g, k :: Owns(p', g, k) <==> Owns(p, g, k);
    forall k | 0 <= k < |p'.slots| && !p'.slots[k].free ensures Owned(p', k) {
      StillOwned(p, p', k);
    }
  }

  lemma ClearKeepsExclusive(p: Pool)
    requires Exclusive(p) && p.frames == map[] && Next(p, ClearPool).Some?
    ensures Exclusive(Next(p, ClearPool).value)
  {
    hide LayoutOf;
    LosingKeepsSlots(p, Next(p, ClearPool).value);
  }

  lemma BeginKeepsExclusive(p: Pool, w: nat, h: nat)
    requires Exclusive(p) && Next(p, Begin(w, h)).Some?
    ensures Exclusive(Next(p, Begin(w, h)).value)
  {
    hide LayoutOf;
    var p' := Next(p, Begin(w, h)).value;
    SlotUntouched(p, p', |p.slots|);
    assert forall g, k :: Owns(p', g, k) <==> Owns(p, g, k);
    forall k | 0 <= k < |p'.slots| && !p'.slots[k].free ensures Owned(p', k) {
      StillOwned(p, p', k);
    }
  }

  lemma NextKeepsExclusive(p: Pool, step: Step)
    requires Exclusive(p) && Next(p, step).Some?
    requires step.ClearPool? ==> p.frames == map[]
    ensures Exclusive(Next(p, step).value)
  {
    hide Exclusive;
    match step {
      case Begin(w, h) => BeginKeepsExclusive(p, w, h);
      case Look => LookKeepsExclusive(p);
      case Publish => PublishKeepsExclusive(p);
      case FillFailed => FillFailedKeepsExclusive(p);
      case AddRef(f) => RefsKeepExclusive(p, f, p.frames[f].refs + 1);
      case Release(f) =>
        if p.frames[f].refs > 1 { RefsKeepExclusive(p, f, p.frames[f].refs - 1); } else { DropKeepsExclusive(p, f); }
      case ClearPool => ClearKeepsExclusive(p);
    }
  }

  lemma {:induction false} RunKeepsExclusive(p: Pool, steps: seq<Step>)
    requires Exclusive(p) && NoSurvivor(p, steps) && Run(p, steps).Some?
    ensures Exclusive(Run(p, steps).value)
    decreases |steps|
  {
    if steps == [] {
    } else {
      NextKeepsExclusive(p, steps[0]);
      RunKeepsExclusive(Next(p, steps[0]).value, steps[1..]);
    }
  }

  /** Reached from the empty pool without any frame surviving a ClearPool. */
  ghost predicate Reachable(p: Pool) {
    exists steps :: NoSurvivor(INITIAL, steps) && Run(INITIAL, steps) == Some(p)
  }

  lemma ReachableExclusive(p: Pool)
    requires Reachable(p)
    ensures Exclusive(p)
  {
    var steps :| NoSurvivor(INITIAL, steps) && Run(INITIAL, steps) == Some(p);
    RunKeepsExclusive(INITIAL, steps);
  }

  /** A slot is occupied exactly when it has an owner, and it never has two. */
  lemma OneOwner(p: Pool, k: nat)
    requires Reachable(p) && k < POOL_SLOTS
    ensures |p.slots| == POOL_SLOTS
    ensures !p.slots[k].free <==> p.worker == Filling(k) || exists f :: Owns(p, f, k)
    ensures forall f, g :: Owns(p, f, k) && Owns(p, g, k) ==> f == g
    ensures p.worker == Filling(k) ==> forall f :: !Owns(p, f, k)
  {
    ReachableExclusive(p);
    if p.slots[k].free {
      FreeHasNoOwner(p, k);
    } else {
      assert Owned(p, k);
    }
  }

  /** Two live frames never share memory, and a frame's memory has the samples of all its pixels. */
  lemma LiveFramesAreSeparate(p: Pool, f: nat, g: nat)
    requires Reachable(p) && f in p.frames && g in p.frames
    ensures f != g ==> p.frames[f].mem != p.frames[g].mem
    ensures p.frames[f].layout == LayoutOf(p.frames[f].width, p.frames[f].height)
    ensures p.frames[f].slot < |p.slots| && p.slots[p.frames[f].slot].size == p.frames[f].layout.total
    ensures var fr := p.frames[f]; Roomy(fr.layout, p.slots[fr.slot].size, fr.width, fr.height)
  {
    hide LayoutOf, Roomy;
    ReachableExclusive(p);
    EveryPixelHasItsSamples(p.frames[f].width, p.frames[f].height);
    assert FrameOk(p, p.frames[f]) && FrameOk(p, p.frames[g]);
    assert SlotOk(p, p.slots[p.frames[f].slot]);
    assert Owns(p, f, p.frames[f].slot) && Owns(p, g, p.frames[g].slot);
  }

  // ---- how often memory is allocated ------------------------------------------------------

  function Held(slots: seq<Slot>): nat {
    if slots == [] then 0 else (if slots[0].mem.Some? then 1 else 0) + Held(slots[1..])
  }

  lemma {:induction false} HeldUpdate(slots: seq<Slot>, i: nat, s: Slot)
    requires i < |slots|
    ensures Held(slots[i := s]) + (if slots[i].mem.Some? then 1 else 0) == Held(slots) + (if s.mem.Some? then 1 else 0)
  {
    if i == 0 {
      assert slots[i := s][1..] == slots[1..];
    } else {
      HeldUpdate(slots[1..], i - 1, s);
      assert slots[i := s][1..] == slots[1..][i - 1 := s];
    }
  }

  lemma {:induction false} HeldBound(slots: seq<Slot>)
    ensures Held(slots) <= |slots|
    ensures (forall k :: 0 <= k < |slots| ==> slots[k].mem.None?) ==> Held(slots) == 0
  {
    if slots == [] {
    } else {
      HeldBound(slots[1..]);
    }
  }

  predicate IsScanning(worker: Worker) {
    worker.Matching? || worker.Refilling?
  }

  /** What one acquisition knows about the slots when every frame has size (w, h). */
  ghost predicate LateOk(p: Pool) {
    && (forall k :: k in p.late ==> k < |p.slots| && p.slots[k].free && p.slots[k].mem.Some? && Passed(p.worker, k))
    && (forall k :: 0 <= k < |p.slots| && Passed(p.worker, k) && p.slots[k].free && p.slots[k].mem.Some? ==>
                      k in p.late)
  }

  ghost predicate SizesOk(p: Pool, w: nat, h: nat) {
    && (forall k :: 0 <= k < |p.slots| && p.slots[k].mem.Some? ==> p.slots[k].width == w && p.slots[k].height == h)
    && (IsScanning(p.worker) ==> p.worker.w == w && p.worker.h == h)
  }

  ghost predicate OneSize(p: Pool, w: nat, h: nat) {
    && SizesOk(p, w, h)
    && LateOk(p)
    && p.allocs == Held(p.slots) + p.reallocs
    && p.reallocs + |p.late| <= p.races
  }

  lemma LookKeepsLate(p: Pool, w: nat, h: nat)
    requires SizesOk(p, w, h) && LateOk(p) && LookStep(p).Some?
    ensures SizesOk(LookStep(p).value, w, h) && LateOk(LookStep(p).value)
  {
    hide LayoutOf;
  }

  lemma LookKeepsOneSize(p: Pool, w: nat, h: nat)
    requires OneSize(p, w, h) && LookStep(p).Some?
    ensures OneSize(LookStep(p).value, w, h)
  {
    LookKeepsLate(p, w, h);
    hide LayoutOf, Held;
    var p' := LookStep(p).value;
    if p'.worker.Filling? {
      var i := p'.worker.slot;
      HeldUpdate(p.slots, i, p'.slots[i]);
      assert p.slots[i].mem.Some? && p.worker.Refilling? ==> i in p.late;
      hide LateOk, SizesOk;
      if i in p.late {
        assert |p.late| >= 1 by { assert p.late == {i} + (p.late - {i}); }
      }
    }
  }

  lemma DropKeepsLate(p: Pool, f: nat)
    requires f in p.frames && FrameOk(p, p.frames[f]) && LateOk(p)
    ensures p.frames[f].slot !in p.late && LateOk(Drop(p, f))
  {
  }

  lemma DropKeepsOneSize(p: Pool, f: nat, w: nat, h: nat)
    requires f in p.frames && FrameOk(p, p.frames[f]) && OneSize(p, w, h)
    ensures OneSize(Drop(p, f), w, h)
  {
    hide Held;
    var k := p.frames[f].slot;
    HeldUpdate(p.slots, k, p.slots[k].(free := true));
    DropKeepsLate(p, f);
    hide LateOk;
  }

  lemma FillFailedKeepsOneSize(p: Pool, w: nat, h: nat)
    requires OneSize(p, w, h) && Next(p, FillFailed).Some?
    ensures OneSize(Next(p, FillFailed).value, w, h)
  {
    hide LayoutOf;
    var k := p.worker.slot;
    HeldUpdate(p.slots, k, p.slots[k].(free := true));
    hide Held;
  }

  lemma ClearKeepsOneSize(p: Pool, w: nat, h: nat)
    requires OneSize(p, w, h) && Next(p, ClearPool).Some?
    ensures OneSize(Next(p, ClearPool).value, w, h)
  {
    hide LayoutOf;
    HeldBound(Next(p, ClearPool).value.slots);
    assert p.late == {};
    hide Held;
  }

  lemma NextKeepsOneSize(p: Pool, step: Step, w: nat, h: nat)
    requires FramesOk(p) && OneSize(p, w, h) && Next(p, step).Some?
    requires step.Begin? ==> step.w == w && step.h == h
    ensures OneSize(Next(p, step).value, w, h)
  {
    hide LayoutOf, Held;
    match step {
      case Look => LookKeepsOneSize(p, w, h);
      case Release(f) =>
        assert FrameOk(p, p.frames[f]);
        if p.frames[f].refs == 1 { DropKeepsOneSize(p, f, w, h); }
      case FillFailed => FillFailedKeepsOneSize(p, w, h);
      case ClearPool => ClearKeepsOneSize(p, w, h);
      case Begin(_, _) => assert p.late == {};
      case _ =>
    }
  }

  ghost predicate AlwaysSize(steps: seq<Step>, w: nat, h: nat) {
    forall k :: 0 <= k < |steps| && steps[k].Begin? ==> steps[k].w == w && steps[k].h == h
  }

  lemma {:induction false} RunKeepsOneSize(p: Pool, steps: seq<Step>, w: nat, h: nat)
    requires Exclusive(p) && OneSize(p, w, h) && NoSurvivor(p, steps) && AlwaysSize(steps, w, h)
    requires Run(p, steps).Some?
    ensures OneSize(Run(p, steps).value, w, h) && |Run(p, steps).value.slots| == POOL_SLOTS
    decreases |steps|
  {
    if steps == [] {
    } else {
      NextKeepsExclusive(p, steps[0]);
      NextKeepsOneSize(p, steps[0], w, h);
      RunKeepsOneSize(Next(p, steps[0]).value, steps[1..], w, h);
    }
  }

  /** The step drops a frame for good whose slot the first loop of the acquisition in progress has looked at. */
  predicate IsLateDrop(p: Pool, step: Step) {
    && step.Release? && step.f in p.frames && p.frames[step.f].refs == 1
    && (p.worker.Refilling? || (p.worker.Matching? && p.frames[step.f].slot < p.worker.i))
  }

  /** Late drops in a run since the pool was last cleared, if there were `n` before the run. */
  function LateDrops(p: Pool, steps: seq<Step>, n: nat): nat
    decreases |steps|
  {
    if steps == [] || Next(p, steps[0]).None? then n
    else
      LateDrops(Next(p, steps[0]).value, steps[1..],
                if steps[0].ClearPool? then 0 else if IsLateDrop(p, steps[0]) then n + 1 else n)
  }

  lemma StepCountsRaces(p: Pool, step: Step)
    requires Next(p, step).Some?
    ensures Next(p, step).value.races ==
            if step.ClearPool? then 0 else if IsLateDrop(p, step) then p.races + 1 else p.races
  {
    hide LayoutOf;
  }

  lemma {:induction false} RacesAreLateDrops(p: Pool, steps: seq<Step>)
    requires Run(p, steps).Some?
    ensures Run(p, steps).value.races == LateDrops(p, steps, p.races)
    decreases |steps|
  {
    hide Next;
    if steps == [] {
    } else {
      StepCountsRaces(p, steps[0]);
      RacesAreLateDrops(Next(p, steps[0]).value, steps[1..]);
    }
  }

  /**
   Over every run with one frame size: the slots with memory and the replacements account for all allocations,
   so that without late drops there are at most six.
   */
  lemma AllocationBound(steps: seq<Step>, w: nat, h: nat)
    requires NoSurvivor(INITIAL, steps) && AlwaysSize(steps, w, h) && Run(INITIAL, steps).Some?
    ensures var p := Run(INITIAL, steps).value;
            && p.allocs == Held(p.slots) + p.reallocs && Held(p.slots) <= POOL_SLOTS
            && p.reallocs <= LateDrops(INITIAL, steps, 0)
  {
    hide NoSurvivor, Run, Held, Exclusive;
    InitialOneSize(w, h);
    RunKeepsOneSize(INITIAL, steps, w, h);
    RacesAreLateDrops(INITIAL, steps);
    HeldBound(Run(INITIAL, steps).value.slots);
  }

  /**
   Over every run with one frame size: the second loop replaces memory that would have fitted exactly when that
   slot's frame was dropped late, after the first loop had passed the slot.
   */
  lemma ReallocationIffLate(steps: seq<Step>, w: nat, h: nat)
    requires NoSurvivor(INITIAL, steps) && AlwaysSize(steps, w, h) && Run(INITIAL, steps).Some?
    ensures var p := Run(INITIAL, steps).value;
            p.worker.Refilling? && p.worker.i < |p.slots| && p.slots[p.worker.i].free ==>
              LookStep(p).value.reallocs == p.reallocs + (if p.worker.i in p.late then 1 else 0)
  {
    hide NoSurvivor, Run, Held, Exclusive, LayoutOf;
    InitialOneSize(w, h);
    RunKeepsOneSize(INITIAL, steps, w, h);
  }

  lemma InitialOneSize(w: nat, h: nat)
    ensures Exclusive(INITIAL) && OneSize(INITIAL, w, h)
  {
    HeldBound(INITIAL.slots);
  }

  // ---- runs of the scan --------------------------------------------------------------------

  lemma {:induction false} RunAppend(p: Pool, a: seq<Step>, b: seq<Step>)
    requires Run(p, a).Some?
    ensures Run(p, a + b) == Run(Run(p, a).value, b)
    decreases |a|
  {
    if a == [] {
      assert a + b == b;
    } else {
      RunAppend(Next(p, a[0]).value, a[1..], b);
      assert (a + b)[1..] == a[1..] + b;
    }
  }

  lemma OneStep(p: Pool, step: Step)
    requires Next(p, step).Some?
    ensures Run(p, [step]) == Next(p, step)
  {
    assert [step][1..] == [];
  }

  lemma ThreeSteps(p: Pool, a: Step, p1: Pool, b: Step, p2: Pool, c: Step)
    requires Next(p, a) == Some(p1) && Next(p1, b) == Some(p2) && Next(p2, c).Some?
    ensures Run(p, [a, b, c]) == Next(p2, c)
  {
    hide Next;
    assert [a, b, c][1..] == [b, c] && [b, c][1..] == [c];
    OneStep(p2, c);
    assert Run(p1, [b, c]) == Run(p2, [c]);
  }

  function Looks(n: nat): (steps: seq<Step>)
    ensures |steps| == n && forall k :: 0 <= k < n ==> steps[k] == Look
  {
    seq(n, _ => Look)
  }

  lemma {:induction false} MatchingMisses(p: Pool, k: nat)
    requires p.worker.Matching? && p.worker.i <= k <= |p.slots|
    requires forall j :: p.worker.i <= j < k ==> !Matches(p.slots[j], p.worker.w, p.worker.h)
    ensures Run(p, Looks(k - p.worker.i)) == Some(p.(worker := Matching(k, p.worker.w, p.worker.h)))
    decreases k - p.worker.i
  {
    if p.worker.i == k {
    } else {
      var p1 := p.(worker := Matching(p.worker.i + 1, p.worker.w, p.worker.h));
      assert LookStep(p) == Some(p1);
      MatchingMisses(p1, k);
      assert Looks(k - p.worker.i)[1..] == Looks(k - p1.worker.i);
    }
  }

  lemma {:induction false} RefillingMisses(p: Pool, k: nat)
    requires p.worker.Refilling? && p.worker.i <= k <= |p.slots|
    requires forall j :: p.worker.i <= j < k ==> !p.slots[j].free
    ensures Run(p, Looks(k - p.worker.i)) == Some(p.(worker := Refilling(k, p.worker.w, p.worker.h)))
    decreases k - p.worker.i
  {
    if p.worker.i == k {
    } else {
      var p1 := p.(worker := Refilling(p.worker.i + 1, p.worker.w, p.worker.h));
      assert LookStep(p) == Some(p1);
      RefillingMisses(p1, k);
      assert Looks(k - p.worker.i)[1..] == Looks(k - p1.worker.i);
    }
  }

  /** Looks at the slots until the first loop gives up and the second one starts. */
  lemma ToRefilling(p: Pool)
    requires p.worker.Matching?
    requires p.worker.i <= |p.slots|
    requires forall j :: p.worker.i <= j < |p.slots| ==> !Matches(p.slots[j], p.worker.w, p.worker.h)
    ensures Run(p, Looks(|p.slots| - p.worker.i) + [Look])
            == Some(p.(worker := Refilling(0, p.worker.w, p.worker.h)))
  {
    MatchingMisses(p, |p.slots|);
    var q := p.(worker := Matching(|p.slots|, p.worker.w, p.worker.h));
    RunAppend(p, Looks(|p.slots| - p.worker.i), [Look]);
    OneStep(q, Look);
  }

  /** An acquisition that no drop disturbs does what AcquirePoolSlot's contract says. */
  lemma UndisturbedScan(p: Pool, w: nat, h: nat) returns (steps: seq<Step>)
    requires p.worker.Idle? && w > 0 && h > 0
    ensures (forall k :: 0 < k < |steps| ==> steps[k] == Look) && steps != [] && steps[0] == Begin(w, h)
    ensures Run(p, steps).Some?
    ensures var q, r := Run(p, steps).value, Acquire(p.slots, w, h, p.nextMem);
            && q.slots == r.0 && q.frames == p.frames && q.nextFrame == p.nextFrame
            && q.worker == (match r.1 { case Some(k) => Filling(k) case None => Idle })
  {
    var start := p.(worker := Matching(0, w, h), late := {});
    OneStep(p, Begin(w, h));
    var m, f := FirstMatch(p.slots, 0, w, h), FirstFree(p.slots, 0);
    if m < |p.slots| {
      MatchingMisses(start, m);
      var q := start.(worker := Matching(m, w, h));
      OneStep(q, Look);
      RunAppend(start, Looks(m), [Look]);
      steps := [Begin(w, h)] + (Looks(m) + [Look]);
      RunAppend(p, [Begin(w, h)], Looks(m) + [Look]);
    } else {
      ToRefilling(start);
      var again := start.(worker := Refilling(0, w, h));
      RefillingMisses(again, f);
      var q := again.(worker := Refilling(f, w, h));
      OneStep(q, Look);
      RunAppend(again, Looks(f), [Look]);
      var first := Looks(|p.slots|) + [Look];
      RunAppend(start, first, Looks(f) + [Look]);
      steps := [Begin(w, h)] + (first + (Looks(f) + [Look]));
      RunAppend(p, [Begin(w, h)], first + (Looks(f) + [Look]));
    }
  }

  // ---- six allocations are not a bound when drops race with the scan ------------------------

  /** Slot 0 holds the only live frame `f`; the other slots have no memory yet. */
  ghost predicate OneBusy(p: Pool, f: nat, w: nat, h: nat) {
    && |p.slots| == POOL_SLOTS && p.worker.Idle? && p.late == {}
    && p.frames.Keys == {f} && f < p.nextFrame && p.frames[f].refs == 1 && p.frames[f].slot == 0
    && !p.slots[0].free && p.slots[0].mem.Some? && p.slots[0].width == w && p.slots[0].height == h
    && (forall k :: 1 <= k < |p.slots| ==> p.slots[k].free && p.slots[k].mem.None?)
  }

  /** The second loop starting over a free slot 0 allocates there, and the frame is published. */
  lemma RefillFirst(p: Pool)
    requires p.worker.Refilling? && p.worker.i == 0 && |p.slots| == POOL_SLOTS && p.slots[0].free
    requires forall k :: 1 <= k < |p.slots| ==> p.slots[k].free && p.slots[k].mem.None?
    ensures Run(p, [Look, Publish]).Some?
    ensures var q := Run(p, [Look, Publish]).value;
            && q.allocs == p.allocs + 1 && q.nextFrame == p.nextFrame + 1 && q.nextMem == p.nextMem + 1
            && q.worker.Idle? && q.late == {}
            && q.slots == p.slots[0 := Allocated(p.worker.w, p.worker.h, p.nextMem)]
            && q.frames ==
                 p.frames[p.nextFrame :=
                            Frame(0, p.nextMem, p.worker.w, p.worker.h, LayoutOf(p.worker.w, p.worker.h), 1)]
  {
    hide LayoutOf;
    assert [Look, Publish][1..] == [Publish] && [Publish][1..] == [];
    var q := LookStep(p).value;
    assert q.worker == Filling(0);
  }

  function RaceCycle(f: nat, w: nat, h: nat): seq<Step> {
    [Begin(w, h), Look, Release(f)] + ((Looks(5) + [Look]) + [Look, Publish])
  }

  /** Dropping the frame right after the first loop passed it makes the second loop reallocate. */
  lemma RaceReallocates(p: Pool, f: nat, w: nat, h: nat)
    requires OneBusy(p, f, w, h) && w > 0 && h > 0
    ensures Run(p, RaceCycle(f, w, h)).Some?
    ensures var q := Run(p, RaceCycle(f, w, h)).value; OneBusy(q, p.nextFrame, w, h) && q.allocs == p.allocs + 1
  {
    hide LayoutOf;
    var a := [Begin(w, h), Look, Release(f)];
    var p1 := p.(worker := Matching(0, w, h));
    var p2 := p.(worker := Matching(1, w, h));
    assert Next(p, Begin(w, h)) == Some(p1) && Next(p1, Look) == Some(p2);
    var p3 := Drop(p2, f);
    assert Next(p2, Release(f)) == Some(p3);
    ThreeSteps(p, Begin(w, h), p1, Look, p2, Release(f));
    assert p3.frames == map[];
    ToRefilling(p3);
    var p4 := p3.(worker := Refilling(0, w, h));
    RefillFirst(p4);
    RunAppend(p3, Looks(5) + [Look], [Look, Publish]);
    RunAppend(p, a, (Looks(5) + [Look]) + [Look, Publish]);
    var q := Run(p, RaceCycle(f, w, h)).value;
    assert q.frames.Keys == {p.nextFrame};
  }

  function FirstFrame(w: nat, h: nat): seq<Step> {
    [Begin(w, h)] + ((Looks(6) + [Look]) + [Look, Publish])
  }

  lemma FirstFrameIsBusy(p: Pool, w: nat, h: nat)
    requires p.worker.Idle? && |p.slots| == POOL_SLOTS && w > 0 && h > 0
    requires forall k :: 0 <= k < |p.slots| ==> p.slots[k].free && p.slots[k].mem.None?
    ensures Run(p, FirstFrame(w, h)).Some?
    ensures var q := Run(p, FirstFrame(w, h)).value;
            && q.allocs == p.allocs + 1 && q.worker.Idle? && q.late == {} && q.nextFrame == p.nextFrame + 1
            && q.slots == p.slots[0 := Allocated(w, h, p.nextMem)]
            && q.frames == p.frames[p.nextFrame := Frame(0, p.nextMem, w, h, LayoutOf(w, h), 1)]
  {
    hide LayoutOf;
    var p1 := p.(worker := Matching(0, w, h), late := {});
    OneStep(p, Begin(w, h));
    ToRefilling(p1);
    RefillFirst(p1.(worker := Refilling(0, w, h)));
    RunAppend(p1, Looks(6) + [Look], [Look, Publish]);
    RunAppend(p, [Begin(w, h)], (Looks(6) + [Look]) + [Look, Publish]);
  }

  ghost predicate NeverClears(steps: seq<Step>) {
    forall k :: 0 <= k < |steps| ==> !steps[k].ClearPool?
  }

  /** For every n there is a run with one frame size and never two live frames that allocates n + 1 times. */
  lemma {:induction false} AllocationsUnbounded(n: nat, w: nat, h: nat) returns (steps: seq<Step>, f: nat)
    requires w > 0 && h > 0
    ensures AlwaysSize(steps, w, h) && NeverClears(steps)
    ensures Run(INITIAL, steps).Some? && OneBusy(Run(INITIAL, steps).value, f, w, h)
    ensures Run(INITIAL, steps).value.allocs == n + 1
  {
    hide LayoutOf;
    if n == 0 {
      FirstFrameIsBusy(INITIAL, w, h);
      steps, f := FirstFrame(w, h), 0;
      assert Run(INITIAL, steps).value.frames.Keys == {0};
    } else {
      var before, g := AllocationsUnbounded(n - 1, w, h);
      var p := Run(INITIAL, before).value;
      RaceReallocates(p, g, w, h);
      RunAppend(INITIAL, before, RaceCycle(g, w, h));
      steps, f := before + RaceCycle(g, w, h), p.nextFrame;
    }
  }

  // ---- a frame that survives ClearPool breaks exclusivity ------------------------------------

  /** Clearing the pool keeps every occupied slot owned by one owner exactly when no frame is alive. */
  lemma ClearSafeIff(p: Pool)
    requires Exclusive(p) && p.worker.Idle?
    ensures Exclusive(Next(p, ClearPool).value) <==> p.frames == map[]
  {
    hide LayoutOf;
    if p.frames == map[] {
      ClearKeepsExclusive(p);
    } else {
      var f :| f in p.frames;
      assert FrameOk(p, p.frames[f]);
      var q := Next(p, ClearPool).value;
      assert !FrameOk(q, q.frames[f]);
    }
  }

  /** An undisturbed acquisition and the publishing of its frame. */
  lemma AcquireFrame(p: Pool, w: nat, h: nat, k: nat) returns (steps: seq<Step>)
    requires p.worker.Idle? && w > 0 && h > 0 && Acquire(p.slots, w, h, p.nextMem).1 == Some(k) && k < |p.slots|
    ensures Run(p, steps).Some?
    ensures var q := Run(p, steps).value;
            && q.worker.Idle? && q.nextFrame == p.nextFrame + 1 && q.slots == Acquire(p.slots, w, h, p.nextMem).0
            && k < |q.slots| && q.slots[k].mem.Some?
            && q.frames.Keys == p.frames.Keys + {p.nextFrame}
            && (forall f :: f in p.frames && f != p.nextFrame ==> q.frames[f] == p.frames[f])
            && q.frames[p.nextFrame].slot == k && Some(q.frames[p.nextFrame].mem) == q.slots[k].mem
  {
    hide LayoutOf;
    var scan := UndisturbedScan(p, w, h);
    var q := Run(p, scan).value;
    OneStep(q, Publish);
    RunAppend(p, scan, [Publish]);
    steps := scan + [Publish];
  }

  /** The first `n` slots are occupied by frames of one size, the others have no memory. */
  ghost predicate Refilled(p: Pool, n: nat, w: nat, h: nat) {
    && |p.slots| == POOL_SLOTS && p.worker.Idle? && n <= POOL_SLOTS
    && (forall k :: 0 <= k < n ==>
                      !p.slots[k].free && p.slots[k].mem.Some? && p.slots[k].width == w && p.slots[k].height == h)
    && (forall k :: n <= k < POOL_SLOTS ==> p.slots[k].free && p.slots[k].mem.None?)
  }

  lemma AcquiresNext(p: Pool, n: nat, w: nat, h: nat)
    requires Refilled(p, n, w, h) && n < POOL_SLOTS
    ensures Acquire(p.slots, w, h, p.nextMem) == (p.slots[n := Allocated(w, h, p.nextMem)], Some(n))
  {
    assert forall j :: 0 <= j < |p.slots| ==> !Matches(p.slots[j], w, h);
    assert p.slots[n].free && forall j :: 0 <= j < n ==> !p.slots[j].free;
  }

  /** Frames are published one after another until slot `n - 1` holds one; the survivor stays as it was. */
  lemma {:induction false} FillSlots(p: Pool, n: nat, f: nat, w: nat, h: nat) returns (steps: seq<Step>)
    requires Refilled(p, 0, w, h) && n <= POOL_SLOTS && w > 0 && h > 0 && f in p.frames && f < p.nextFrame
    ensures Run(p, steps).Some?
    ensures var q := Run(p, steps).value;
            && Refilled(q, n, w, h) && f in q.frames && q.frames[f] == p.frames[f] && f < q.nextFrame
            && (n > 0 ==>
                  && q.nextFrame - 1 in q.frames && q.nextFrame - 1 != f
                  && Some(q.frames[q.nextFrame - 1].mem) == q.slots[n - 1].mem)
  {
    hide LayoutOf, Next, Acquire;
    if n == 0 {
      steps := [];
    } else {
      var before := FillSlots(p, n - 1, f, w, h);
      var q := Run(p, before).value;
      AcquiresNext(q, n - 1, w, h);
      var one := AcquireFrame(q, w, h, n - 1);
      RunAppend(p, before, one);
      steps := before + one;
    }
  }

  /** The survivor's last handle goes: its slot's flag is set, whoever owns the slot by now. */
  lemma {:induction false} DropSurvivor(p: Pool, f: nat) returns (steps: seq<Step>)
    requires p.worker.Idle? && f in p.frames && p.frames[f].refs > 0 && p.frames[f].slot < |p.slots|
    ensures Run(p, steps).Some?
    ensures var k := p.frames[f].slot;
            Run(p, steps).value == p.(frames := p.frames - {f}, slots := p.slots[k := p.slots[k].(free := true)])
    decreases p.frames[f].refs
  {
    OneStep(p, Release(f));
    if p.frames[f].refs == 1 {
      steps := [Release(f)];
    } else {
      var q := SetRefs(p, f, p.frames[f].refs - 1);
      var rest := DropSurvivor(q, f);
      RunAppend(p, [Release(f)], rest);
      steps := [Release(f)] + rest;
      assert q.frames - {f} == p.frames - {f};
    }
  }

  lemma MatchesFreed(p: Pool, k: nat, w: nat, h: nat)
    requires Refilled(p, k + 1, w, h)
    ensures var freed := p.slots[k := p.slots[k].(free := true)];
            Acquire(freed, w, h, p.nextMem) == (p.slots, Some(k))
  {
    var freed := p.slots[k := p.slots[k].(free := true)];
    assert Matches(freed[k], w, h) && forall j :: 0 <= j < k ==> freed[j] == p.slots[j] && !freed[j].free;
    assert freed[k := freed[k].(free := false)] == p.slots;
  }

  lemma ClearedIsRefilled(p: Pool, w: nat, h: nat)
    requires p.worker.Idle? && |p.slots| == POOL_SLOTS
    ensures Next(p, ClearPool).Some? && Refilled(Next(p, ClearPool).value, 0, w, h)
    ensures Next(p, ClearPool).value.frames == p.frames && Next(p, ClearPool).value.nextFrame == p.nextFrame
  {
  }

  ghost predicate SharedMemory(p: Pool) {
    exists f, g :: f in p.frames && g in p.frames && f != g && p.frames[f].mem == p.frames[g].mem
  }

  /**
   From every reachable state in which the pool is cleared while a frame is alive, there is a continuation in
   which two live frames share memory: slots are refilled up to the survivor's, the survivor goes and frees the
   slot under its new owner, and the next acquisition takes it.
   */
  lemma SurvivorSharesMemory(p: Pool, f: nat, w: nat, h: nat) returns (steps: seq<Step>)
    requires Reachable(p) && p.worker.Idle? && f in p.frames && w > 0 && h > 0
    ensures Run(p, [ClearPool] + steps).Some? && SharedMemory(Run(p, [ClearPool] + steps).value)
  {
    hide LayoutOf, Next, Acquire, Exclusive;
    var k := SurvivorSlot(p, f);
    ClearedIsRefilled(p, w, h);
    var p1 := Next(p, ClearPool).value;
    OneStep(p, ClearPool);
    var fill := FillSlots(p1, k + 1, f, w, h);
    var p2 := Run(p1, fill).value;
    var drop := DropSurvivor(p2, f);
    var p3 := Run(p2, drop).value;
    MatchesFreed(p2, k, w, h);
    var again := AcquireFrame(p3, w, h, k);
    var p4 := Run(p3, again).value;
    RunAppend(p2, drop, again);
    RunAppend(p1, fill, drop + again);
    RunAppend(p, [ClearPool], fill + (drop + again));
    steps := fill + (drop + again);
    var g := p2.nextFrame - 1;
    assert g in p3.frames && g != p3.nextFrame && p4.frames[g] == p2.frames[g];
    assert p4.frames[g].mem == p4.frames[p3.nextFrame].mem;
  }

  lemma SurvivorSlot(p: Pool, f: nat) returns (k: nat)
    requires Reachable(p) && f in p.frames
    ensures k == p.frames[f].slot < POOL_SLOTS == |p.slots| && p.frames[f].refs > 0 && f < p.nextFrame
  {
    hide LayoutOf;
    ReachableExclusive(p);
    assert FrameOk(p, p.frames[f]);
    k := p.frames[f].slot;
  }

  // ---- the end of the pool itself ---------------------------------------------------------------

  /**
   After the decoder is gone, and its slots with it: the frames still alive, and whether one of them has set a flag
   in a slot that no longer exists.
   */
  datatype Aftermath = Aftermath(frames: map<nat, Frame>, dangling: bool)

  function AfterDecoder(p: Pool): Aftermath {
    Aftermath(p.frames, false)
  }

  function Later(a: Aftermath, step: Step): Option<Aftermath> {
    match step
    case AddRef(f) =>
      if f in a.frames then Some(a.(frames := a.frames[f := a.frames[f].(refs := a.frames[f].refs + 1)])) else None
    case Release(f) =>
      if f !in a.frames || a.frames[f].refs == 0 then None
      else if a.frames[f].refs > 1 then Some(a.(frames := a.frames[f := a.frames[f].(refs := a.frames[f].refs - 1)]))
      else Some(Aftermath(a.frames - {f}, true))
    case _ => None
  }

  /** References are counted as while there was a decoder; what a last one does is to set a flag that is gone. */
  lemma LaterCounts(p: Pool, a: Aftermath, step: Step)
    requires (step.AddRef? || step.Release?) && a.frames == p.frames && Next(p, step).Some?
    ensures Later(a, step).Some? && Later(a, step).value.frames == Next(p, step).value.frames
    ensures Later(a, step).value.dangling <==> a.dangling || step.f !in Next(p, step).value.frames
  {
  }

  function RunLater(a: Aftermath, steps: seq<Step>): Option<Aftermath>
    decreases |steps|
  {
    if steps == [] then Some(a)
    else
      match Later(a, steps[0])
      case None => None
      case Some(b) => RunLater(b, steps[1..])
  }

  lemma {:induction false} LastHandleDangles(a: Aftermath, f: nat) returns (steps: seq<Step>)
    requires f in a.frames && a.frames[f].refs > 0
    ensures RunLater(a, steps).Some? && RunLater(a, steps).value.dangling
    decreases a.frames[f].refs
  {
    var b := Later(a, Release(f)).value;
    if a.frames[f].refs == 1 {
      steps := [Release(f)];
      assert steps[1..] == [];
      assert RunLater(b, []) == Some(b);
    } else {
      var rest := LastHandleDangles(b, f);
      steps := [Release(f)] + rest;
      assert steps[1..] == rest;
    }
  }

  lemma NothingDangles(a: Aftermath, steps: seq<Step>)
    requires a.frames == map[] && !a.dangling && RunLater(a, steps).Some?
    ensures !RunLater(a, steps).value.dangling
  {
    assert forall step: Step :: Later(a, step).None?;
  }

  /** No frame ever writes to a slot that is gone exactly if none is alive when the decoder goes. */
  lemma EndSafeIff(p: Pool)
    requires Reachable(p)
    ensures (forall steps :: RunLater(AfterDecoder(p), steps).Some? ==>
                               !RunLater(AfterDecoder(p), steps).value.dangling)
            <==> p.frames == map[]
  {
    hide Exclusive, Reachable, RunLater;
    if p.frames == map[] {
      forall steps | RunLater(AfterDecoder(p), steps).Some?
        ensures !RunLater(AfterDecoder(p), steps).value.dangling
      {
        NothingDangles(AfterDecoder(p), steps);
      }
    } else {
      var f :| f in p.frames;
      var _ := SurvivorSlot(p, f);
      var steps := LastHandleDangles(AfterDecoder(p), f);
    }
  }
}

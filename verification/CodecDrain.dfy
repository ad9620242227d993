/**
 One frame through the codec: queueing its input, draining outputs, delivering pictures. Every call the
 decoder makes on its codec and its sink goes to a log, and a monitor that knows nothing of the decoder's
 code reads the log and breaks at the first call that is out of order.
 */
module CodecDrain {

  import opened Base
  import opened RowCopy
  import opened Nv12Copy
  import AnnexB

  const DEQUEUE_INPUT_TIMEOUT_US := 3000
  const DRAIN_AFTER_QUEUE_SHORT_WAIT_US := 3000
  const DRAIN_ON_INPUT_BACKPRESSURE_US := 3000

  // ---- what the codec may do ---------------------------------------------------------------

  /** Which allocations succeed while this output is copied. */
  datatype Made = Made(nv12: bool, poolSlot: bool, i420: bool)

  /** A dequeued output: its index and info, the buffer behind it (None when the codec returns null). */
  datatype Output = Output(index: nat, offset: nat, size: int, data: Option<seq<Byte>>, made: Made)

  datatype OutEvent = FormatChanged | BuffersChanged | TryAgain | Failed | Ready(output: Output)

  /** An input slot: its index and the buffer's capacity (None when the codec returns null). */
  datatype InputSlot = InputSlot(index: nat, capacity: Option<nat>)

  // ---- the format in force ---------------------------------------------------------------------

  datatype Layout = Layout(width: int, height: int, stride: int, sliceHeight: int, color: int)

  const NO_LAYOUT := Layout(0, 0, 0, 0, 0)

  const COLOR_NV12 := 21
  const COLOR_YUV420_FLEXIBLE := 0x7F420888
  const COLOR_QTI_SURFACE := 2141391876

  predicate IsNv12FamilyOutput(color: int) {
    color == 0 || color == COLOR_NV12 || color == COLOR_YUV420_FLEXIBLE || color == COLOR_QTI_SURFACE
  }

  function AtLeast(reported: Option<int>, least: int): int {
    if reported.Some? && reported.value >= least then reported.value else least
  }

  function Updated(l: Layout, f: Option<Format>): (r: Layout)
    ensures f.Some? ==> r.stride >= r.width && r.sliceHeight >= r.height
  {
    match f
    case None => l
    case Some(f) =>
      var w, h := Or(f.width, l.width), Or(f.height, l.height);
      Layout(w, h, AtLeast(f.stride, w), AtLeast(f.sliceHeight, h), Or(f.color, Or(f.androidColor, l.color)))
  }

  // ---- copying one output ------------------------------------------------------------------------

  datatype Frame =
    | Nv12Frame(width: nat, height: nat, y: seq<Byte>, uv: seq<Byte>)
    | PooledFrame(width: nat, height: nat)
    | PlainFrame(width: nat, height: nat)

  predicate HasSize(l: Layout) { l.width > 0 && l.height > 0 }

  predicate Nv12Accepts(cap: nat, offset: int, l: Layout) {
    || StridedAccepts(cap, offset, l.width, l.height, l.stride, l.sliceHeight)
    || TightAccepts(cap, offset, l.width, l.height)
  }

  /** The planar conversion asks for `sliceHeight / 2` or `height / 2` chroma rows only. */
  predicate StridedPlanarAccepts(cap: nat, offset: int, l: Layout) {
    && HasSize(l) && l.stride >= l.width
    && offset + l.stride * l.sliceHeight + l.stride * (l.sliceHeight / 2) <= cap
  }

  predicate TightPlanarAccepts(cap: nat, offset: int, l: Layout) {
    HasSize(l) && offset >= 0 && offset + (l.width * l.height + l.width * (l.height / 2)) <= cap
  }

  predicate PlanarAccepts(cap: nat, offset: int, l: Layout) {
    StridedPlanarAccepts(cap, offset, l) || TightPlanarAccepts(cap, offset, l)
  }

  /** The conversion reads whole chroma rows, one for every two picture rows, rounded up both ways. */
  predicate PlanarReadsInside(cap: nat, luma: int, chroma: int, stride: nat, width: nat, height: nat) {
    RowsFit(luma, stride, width, height, cap) && RowsFit(chroma, stride, ChromaRowBytes(width), ChromaRows(height), cap)
  }

  predicate StridedPlanarInside(cap: nat, offset: int, l: Layout)
    requires HasSize(l) && l.stride >= l.width
  {
    PlanarReadsInside(cap, offset, offset + l.stride * l.sliceHeight, l.stride, l.width, l.height)
  }

  predicate TightPlanarInside(cap: nat, offset: int, l: Layout)
    requires HasSize(l)
  {
    PlanarReadsInside(cap, offset, offset + l.width * l.height, l.width, l.width, l.height)
  }

  /** Where the last chroma row ends, against the bytes the guard asked for. */
  lemma LastChromaRow(cap: nat, luma: nat, chroma: int, stride: nat, width: nat, height: nat)
    requires width > 0 && height > 0 && width <= stride && luma + stride * height <= chroma
    ensures PlanarReadsInside(cap, luma, chroma, stride, width, height)
            <==> chroma + stride * (ChromaRows(height) - 1) + ChromaRowBytes(width) <= cap
  {
    var rows := ChromaRows(height);
    assert 0 <= (rows - 1) * stride == stride * (rows - 1);
    assert (height - 1) * stride + stride == height * stride == stride * height;
    assert luma + Row(0, stride, height - 1) + width <= luma + stride * height <= chroma;
  }

  /**
   For every buffer its guard accepts the strided conversion stays inside exactly when the slice holds a chroma
   row for every two picture rows and, if it holds just that many, the width is even or the rows are padded.
   */
  lemma StridedPlanarInsideIff(offset: nat, l: Layout)
    requires HasSize(l) && l.stride >= l.width && l.sliceHeight >= l.height
    ensures (forall cap: nat :: StridedPlanarAccepts(cap, offset, l) ==> StridedPlanarInside(cap, offset, l))
            <==> var rows := ChromaRows(l.height);
                 rows < l.sliceHeight / 2 || (rows == l.sliceHeight / 2 && (l.width % 2 == 0 || l.stride > l.width))
  {
    var rows, half := ChromaRows(l.height), l.sliceHeight / 2;
    var y, c := l.stride * l.sliceHeight, l.stride * half;
    var end := l.stride * (rows - 1) + ChromaRowBytes(l.width);
    ChromaEndIff(l.stride, l.width, rows, half);
    ProductMono(l.height, l.sliceHeight, l.stride);
    forall cap: nat ensures StridedPlanarInside(cap, offset, l) <==> offset + y + end <= cap {
      LastChromaRow(cap, offset, offset + y, l.stride, l.width, l.height);
    }
    var least: nat := LeastAccepted(offset, l);
    assert StridedPlanarAccepts(least, offset, l);
    assert least == offset + y + c;
    hide StridedPlanarInside, PlanarReadsInside;
    assert end <= c <==> StridedPlanarInside(least, offset, l);
  }

  lemma ChromaEndIff(stride: nat, width: nat, rows: nat, half: nat)
    requires 0 < width <= stride && 0 < rows <= half + 1
    ensures stride * (rows - 1) + ChromaRowBytes(width) <= stride * half
            <==> rows < half || (rows == half && (width % 2 == 0 || stride > width))
  {
    if rows < half {
      ProductMono(rows + 1, half, stride);
      assert stride * (rows + 1) == stride * (rows - 1) + 2 * stride;
    } else if rows == half {
      assert stride * rows == stride * (rows - 1) + stride;
    }
  }

  function LeastAccepted(offset: nat, l: Layout): (cap: nat)
    requires HasSize(l) && l.stride >= l.width && l.sliceHeight >= l.height
    ensures cap == offset + l.stride * l.sliceHeight + l.stride * (l.sliceHeight / 2)
  {
    ProductMono(0, l.sliceHeight, l.stride);
    ProductMono(0, l.sliceHeight / 2, l.stride);
    offset + l.stride * l.sliceHeight + l.stride * (l.sliceHeight / 2)
  }

  /** The tight conversion stays inside every buffer its guard accepts exactly when width and height are even. */
  lemma TightPlanarInsideIff(offset: nat, l: Layout)
    requires HasSize(l)
    ensures (forall cap: nat :: TightPlanarAccepts(cap, offset, l) ==> TightPlanarInside(cap, offset, l))
            <==> l.width % 2 == 0 && l.height % 2 == 0
  {
    var t := Layout(l.width, l.height, l.width, l.height, l.color);
    StridedPlanarInsideIff(offset, t);
    forall cap: nat ensures TightPlanarAccepts(cap, offset, l) <==> StridedPlanarAccepts(cap, offset, t) {
    }
    forall cap: nat ensures TightPlanarInside(cap, offset, l) <==> StridedPlanarInside(cap, offset, t) {
    }
  }

  /** For an even height the planar fallback accepts no layout the NV12 copy refused. */
  lemma EvenHeightNeedsNoFallback(cap: nat, offset: nat, l: Layout)
    requires l.sliceHeight >= l.height && l.height % 2 == 0
    requires PlanarAccepts(cap, offset, l)
    ensures Nv12Accepts(cap, offset, l)
  {
    var rows := (l.height + 1) / 2;
    assert rows == l.height / 2 <= l.sliceHeight / 2;
    if l.stride >= l.width {
      ProductMono(rows, l.sliceHeight / 2, l.stride);
    }
  }

  /**
   When the NV12 copies refused a buffer and a planar conversion accepts it, the height is odd, and whichever
   conversion the code takes, strided first, its last chroma row ends outside the buffer.
   */
  lemma OddHeightFallbackOverruns(cap: nat, offset: nat, l: Layout)
    requires l.sliceHeight >= l.height && !Nv12Accepts(cap, offset, l) && PlanarAccepts(cap, offset, l)
    ensures l.height % 2 == 1
    ensures StridedPlanarAccepts(cap, offset, l) ==> l.sliceHeight == l.height && !StridedPlanarInside(cap, offset, l)
    ensures !StridedPlanarAccepts(cap, offset, l) ==> !TightPlanarInside(cap, offset, l)
  {
    if l.height % 2 == 0 {
      EvenHeightNeedsNoFallback(cap, offset, l);
    }
    if StridedPlanarAccepts(cap, offset, l) {
      StridedOverruns(cap, offset, l);
    } else {
      TightOverruns(cap, offset, l);
    }
  }

  lemma StridedOverruns(cap: nat, offset: nat, l: Layout)
    requires l.sliceHeight >= l.height && !Nv12Accepts(cap, offset, l) && StridedPlanarAccepts(cap, offset, l)
    ensures l.sliceHeight == l.height && !StridedPlanarInside(cap, offset, l)
  {
    var rows, half := ChromaRows(l.height), l.sliceHeight / 2;
    ProductMono(rows, half, l.stride);
    assert rows > half;
    ProductMono(l.height, l.sliceHeight, l.stride);
    LastChromaRow(cap, offset, offset + l.stride * l.sliceHeight, l.stride, l.width, l.height);
    TightEndsFirst(l.width, l.stride, l.height, rows);
  }

  /** A padded picture ends no earlier than a tight one. */
  lemma TightEndsFirst(width: nat, stride: nat, height: nat, rows: nat)
    requires width <= stride && rows > 0
    ensures width * height + width * rows <= stride * height + stride * (rows - 1) + ChromaRowBytes(width)
  {
    ProductMono(width, stride, height);
    ProductMono(width, stride, rows - 1);
    assert width * rows == width * (rows - 1) + width;
  }

  lemma TightOverruns(cap: nat, offset: nat, l: Layout)
    requires !Nv12Accepts(cap, offset, l) && TightPlanarAccepts(cap, offset, l)
    ensures !TightPlanarInside(cap, offset, l)
  {
    LastChromaRow(cap, offset, offset + l.width * l.height, l.width, l.width, l.height);
    TightEndsFirst(l.width, l.width, l.height, ChromaRows(l.height));
  }

  lemma OddHeightFallbackExample()
    ensures var l := Layout(2, 3, 2, 3, 0);
            PlanarAccepts(8, 0, l) && !Nv12Accepts(8, 0, l)
  {
  }

  /** An NV12 frame shows the output's picture rows, strided if that copy fits and tight otherwise. */
  ghost predicate Shows(f: Frame, o: Output, l: Layout) {
    && f.width == l.width && f.height == l.height
    && (f.Nv12Frame? ==>
          && o.data.Some?
          && var src := o.data.value;
             if StridedAccepts(|src|, o.offset, l.width, l.height, l.stride, l.sliceHeight)
             then PlanesEqual(f, src, o.offset, o.offset + l.stride * l.sliceHeight, l.stride)
             else PlanesEqual(f, src, o.offset, o.offset + l.width * l.height, l.width))
  }

  ghost predicate PlanesEqual(f: Frame, src: seq<Byte>, luma: int, chroma: int, stride: int)
    requires f.Nv12Frame?
  {
    && 0 <= stride
    && RowsFit(0, f.width, f.width, f.height, |f.y|)
    && RowsFit(0, ChromaRowBytes(f.width), f.width, ChromaRows(f.height), |f.uv|)
    && RowsFit(luma, stride, f.width, f.height, |src|)
    && RowsFit(chroma, stride, f.width, ChromaRows(f.height), |src|)
    && RowsEqual(f.y, 0, f.width, src, luma, stride, f.width, f.height)
    && RowsEqual(f.uv, 0, ChromaRowBytes(f.width), src, chroma, stride, f.width, ChromaRows(f.height))
  }

  predicate CopiesAs(o: Output, l: Layout, f: Option<Frame>)
    requires o.data.Some?
  {
    var cap := |o.data.value|;
    match f
    case Some(Nv12Frame(_, _, _, _)) => o.made.nv12 && Nv12Accepts(cap, o.offset, l)
    case Some(PooledFrame(_, _)) =>
      !(o.made.nv12 && Nv12Accepts(cap, o.offset, l)) && o.made.poolSlot && PlanarAccepts(cap, o.offset, l)
    case Some(PlainFrame(_, _)) =>
      && !(o.made.nv12 && Nv12Accepts(cap, o.offset, l))
      && !o.made.poolSlot && o.made.i420 && PlanarAccepts(cap, o.offset, l)
    case None =>
      && !(o.made.nv12 && Nv12Accepts(cap, o.offset, l))
      && !((o.made.poolSlot || o.made.i420) && PlanarAccepts(cap, o.offset, l))
  }

  method CopyNv12(o: Output, l: Layout) returns (frame: Option<Frame>)
    requires l.width > 0 && l.height > 0 && l.sliceHeight >= l.height && o.data.Some?
    ensures frame.Some? <==> o.made.nv12 && Nv12Accepts(|o.data.value|, o.offset, l)
    ensures frame.Some? ==> frame.value.Nv12Frame? && Shows(frame.value, o, l)
  {
    frame := None;
    if o.made.nv12 {
      var nv12 := new Nv12Buffer(l.width, l.height, l.width, ChromaRowBytes(l.width));
      var src := o.data.value;
      hide RowsEqual, RowsFit, RestKept;
      var strided := FillNV12BufferFromNv12(src, o.offset, l.width, l.height, l.stride, l.sliceHeight, nv12);
      var ok := strided.Copied?;
      if !ok {
        ok := FillNV12BufferFromNv12Tight(src, o.offset, l.width, l.height, nv12);
      }
      if ok {
        frame := Some(Nv12Frame(l.width, l.height, nv12.dataY[..], nv12.dataUV[..]));
      }
    }
  }

  /** The copy ladder: NV12, then a pool slot, then a plain planar buffer. A slot is kept only with its frame. */
  method CopyOutput(o: Output, l: Layout) returns (frame: Option<Frame>, slotKept: bool)
    requires l.width > 0 && l.height > 0 && l.sliceHeight >= l.height && o.data.Some?
    ensures CopiesAs(o, l, frame)
    ensures frame.Some? ==> Shows(frame.value, o, l)
    ensures slotKept <==> frame.Some? && frame.value.PooledFrame?
  {
    hide RowsEqual, RowsFit;
    slotKept := false;
    frame := CopyNv12(o, l);
    if frame.None? {
      var cap := |o.data.value|;
      if o.made.poolSlot {
        slotKept := true;
        if StridedPlanarAccepts(cap, o.offset, l) || TightPlanarAccepts(cap, o.offset, l) {
          frame := Some(PooledFrame(l.width, l.height));
        } else {
          slotKept := false;
        }
      }
      if frame.None? && o.made.i420 {
        if StridedPlanarAccepts(cap, o.offset, l) || TightPlanarAccepts(cap, o.offset, l) {
          frame := Some(PlainFrame(l.width, l.height));
        }
      }
    }
  }

  // ---- the log and its monitor -----------------------------------------------------------------------

  datatype Call =
    | Started
    | Destroyed
    | ReadFormat(format: Option<Format>)
    | ReadCallback(present: bool)
    | DequeueOutput(timeoutUs: int, event: OutEvent)
    | Deliver(frame: Frame)
    | ReleaseOutput(index: nat)
    | DequeueInput(timeoutUs: int, slot: Option<InputSlot>)
    | QueueInput(index: nat, bytes: seq<Byte>, pts: int, keyFrame: bool, accepted: bool)

  datatype Phase =
    | Idle
    | FormatStale               // the codec announced a new format that has not been read
    | Unsized(output: Output)   // an output is held and the picture size is not known
    | Holding(output: Output)   // an output is held
    | Shown(output: Output)     // an output is held and its picture was delivered
    | InputHeld(slot: InputSlot)
    | Broken

  /** `delivered` is whether a picture came out since the last input request. */
  datatype Watch = Watch(phase: Phase, layout: Layout, callback: bool, lastPts: int, delivered: bool)

  const START := Watch(Idle, NO_LAYOUT, false, -1, false)

  /** The output is a picture the sink can be given. */
  predicate Deliverable(o: Output, l: Layout) {
    && o.size > 0 && HasSize(l) && l.color in {0, 21, 0x7F420888, 2141391876}
    && o.data.Some? && o.offset + o.size <= |o.data.value| && !CopiesAs(o, l, None)
  }

  function Break(w: Watch): Watch { w.(phase := Broken) }

  /** Who may call what, when; `Broken` once a rule is violated. */
  ghost function Observe(w: Watch, c: Call): Watch {
    match (w.phase, c)
    case (Idle, Started) => w.(lastPts := -1)
    case (Idle, Destroyed) => w.(layout := NO_LAYOUT)
    case (Idle, ReadFormat(f)) => w.(layout := Updated(w.layout, f))
    case (FormatStale, ReadFormat(f)) => w.(layout := Updated(w.layout, f), phase := Idle)
    case (Unsized(o), ReadFormat(f)) => w.(layout := Updated(w.layout, f), phase := Holding(o))
    case (Idle, ReadCallback(p)) => w.(callback := p)
    case (Idle, DequeueOutput(t, e)) =>
      if t > 0 && w.delivered then Break(w) else
      match e {
        case FormatChanged => w.(phase := FormatStale)
        case BuffersChanged => w.(phase := FormatStale)
        case TryAgain => w
        case Failed => w
        case Ready(o) => w.(phase := if o.size > 0 && !HasSize(w.layout) then Unsized(o) else Holding(o))
      }
    case (Holding(o), Deliver(f)) =>
      if w.callback && Deliverable(o, w.layout) && CopiesAs(o, w.layout, Some(f)) && Shows(f, o, w.layout)
      then w.(phase := Shown(o), delivered := true) else Break(w)
    case (Holding(o), ReleaseOutput(i)) =>
      if i == o.index && !(w.callback && Deliverable(o, w.layout)) then w.(phase := Idle) else Break(w)
    case (Shown(o), ReleaseOutput(i)) => if i == o.index then w.(phase := Idle) else Break(w)
    case (Idle, DequeueInput(_, s)) =>
      w.(phase := if s.Some? then InputHeld(s.value) else Idle, delivered := false)
    case (InputHeld(s), QueueInput(i, b, pts, _, ok)) =>
      if i != s.index then Break(w)
      else if b == [] then w.(phase := Idle)
      else if s.capacity.Some? && |b| <= s.capacity.value && pts > w.lastPts
      then w.(phase := if ok then Idle else InputHeld(s), lastPts := pts)
      else Break(w)
    case _ => Break(w)
  }

  ghost function State(log: seq<Call>): Watch {
    Fold(START, Observe, log)
  }

  lemma StateStep(log: seq<Call>, c: Call)
    ensures State(log + [c]) == Observe(State(log), c)
  {
    FoldStep(START, Observe, log, c);
  }

  // ---- what an unbroken log means ------------------------------------------------------------------------

  function Wait(c: Call): int {
    match c case DequeueOutput(t, _) => t case DequeueInput(t, _) => t case _ => 0
  }

  function Waits(log: seq<Call>): int {
    if log == [] then 0 else Waits(log[..|log| - 1]) + Wait(log[|log| - 1])
  }

  lemma WaitsStep(log: seq<Call>, c: Call)
    ensures Waits(log + [c]) == Waits(log) + Wait(c)
  {
    assert (log + [c])[..|log|] == log;
  }

  /** Outputs dequeued, outputs released, inputs dequeued, inputs handed back: indices in order. */
  function Taken(c: Call): seq<nat> {
    if c.DequeueOutput? && c.event.Ready? then [c.event.output.index] else []
  }

  function Freed(c: Call): seq<nat> {
    if c.ReleaseOutput? then [c.index] else []
  }

  function Borrowed(c: Call): seq<nat> {
    if c.DequeueInput? && c.slot.Some? then [c.slot.value.index] else []
  }

  function Returned(c: Call): seq<nat> {
    if c.QueueInput? && (c.accepted || c.bytes == []) then [c.index] else []
  }

  function Gather(log: seq<Call>, f: Call -> seq<nat>): seq<nat> {
    if log == [] then [] else Gather(log[..|log| - 1], f) + f(log[|log| - 1])
  }

  function OutputInHand(p: Phase): seq<nat> {
    match p case Unsized(o) => [o.index] case Holding(o) => [o.index] case Shown(o) => [o.index] case _ => []
  }

  function InputInHand(p: Phase): seq<nat> {
    if p.InputHeld? then [p.slot.index] else []
  }

  /**
   In an unbroken log every output dequeued is released once, in order, except the one in hand; and every
   input dequeued is handed back once, in order, except the one in hand.
   */
  lemma {:induction false} BuffersAreConserved(log: seq<Call>)
    requires State(log).phase != Broken
    ensures Gather(log, Taken) == Gather(log, Freed) + OutputInHand(State(log).phase)
    ensures Gather(log, Borrowed) == Gather(log, Returned) + InputInHand(State(log).phase)
  {
    if log == [] {
    } else {
      var rest := log[..|log| - 1];
      BuffersAreConserved(rest);
      ConservedStep(State(rest), log[|log| - 1]);
      var c := log[|log| - 1];
      var w, v := State(rest), State(log);
      assert v == Observe(w, c);
      hide State, Observe;
      calc {
        Gather(log, Taken);
        Gather(rest, Freed) + OutputInHand(w.phase) + Taken(c);
        { Assoc(Gather(rest, Freed), OutputInHand(w.phase), Taken(c)); }
        Gather(rest, Freed) + (OutputInHand(w.phase) + Taken(c));
        Gather(rest, Freed) + (Freed(c) + OutputInHand(v.phase));
        { Assoc(Gather(rest, Freed), Freed(c), OutputInHand(v.phase)); }
        Gather(log, Freed) + OutputInHand(v.phase);
      }
      Assoc(Gather(rest, Returned), InputInHand(w.phase), Borrowed(c));
      Assoc(Gather(rest, Returned), Returned(c), InputInHand(v.phase));
    }
  }

  lemma ConservedStep(w: Watch, c: Call)
    requires Observe(w, c).phase != Broken
    ensures w.phase != Broken
    ensures OutputInHand(w.phase) + Taken(c) == Freed(c) + OutputInHand(Observe(w, c).phase)
    ensures InputInHand(w.phase) + Borrowed(c) == Returned(c) + InputInHand(Observe(w, c).phase)
  {
  }

  lemma StateAt(log: seq<Call>, k: nat)
    requires k < |log| && State(log).phase != Broken
    ensures State(log[..k + 1]) == Observe(State(log[..k]), log[k])
    ensures State(log[..k]).phase != Broken && State(log[..k + 1]).phase != Broken
  {
    FoldAt(START, Observe, log, k);
    FoldPrefix(START, Observe, (w: Watch) => w.phase != Broken, log, k);
    FoldPrefix(START, Observe, (w: Watch) => w.phase != Broken, log, k + 1);
  }

  predicate Feeds(c: Call) { c.QueueInput? && c.bytes != [] }

  /** Two non-empty inputs of one codec session. */
  ghost predicate SameSession(log: seq<Call>, i: nat, j: nat)
    requires i < |log| && j <= |log|
  {
    j < |log| && Feeds(log[i]) && Feeds(log[j]) && forall k :: i < k < j ==> !log[k].Started?
  }

  lemma PtsStep(w: Watch, c: Call)
    requires Observe(w, c).phase != Broken && !c.Started?
    ensures w.lastPts <= Observe(w, c).lastPts
    ensures Feeds(c) ==> w.lastPts < c.pts == Observe(w, c).lastPts
  {
  }

  lemma {:induction false} PtsKept(log: seq<Call>, i: nat, j: nat)
    requires i <= j <= |log| && State(log).phase != Broken
    requires forall k :: i <= k < j ==> !log[k].Started?
    ensures State(log[..i]).lastPts <= State(log[..j]).lastPts
    decreases j - i
  {
    hide State, Observe;
    if i == j {
    } else {
      PtsKept(log, i, j - 1);
      StateAt(log, j - 1);
      PtsStep(State(log[..j - 1]), log[j - 1]);
    }
  }

  /** Within one codec session no non-empty input repeats or goes behind an earlier timestamp. */
  lemma PtsIncrease(log: seq<Call>, i: nat, j: nat)
    requires i < j < |log| && State(log).phase != Broken
    requires Feeds(log[i]) && Feeds(log[j])
    requires forall k :: i < k < j ==> !log[k].Started?
    ensures log[i].pts < log[j].pts
  {
    hide State, Observe;
    StateAt(log, i);
    StateAt(log, j);
    PtsStep(State(log[..i]), log[i]);
    PtsStep(State(log[..j]), log[j]);
    PtsKept(log, i + 1, j);
  }

  /**
   What becomes of the output dequeued at step `i`: the size is read first if it is unknown, the picture is
   delivered exactly when there is a sink and the output can be copied, and then the buffer is released.
   */
  lemma OutputLifecycle(log: seq<Call>, i: nat, o: Output)
    requires State(log).phase == Idle
    requires i < |log| && log[i].DequeueOutput? && log[i].event == Ready(o)
    ensures exists at :: 0 < at < |log| && HeldFrom(log, i, o, at) && EndsAt(log, o, at)
  {
    hide State, Observe, Deliverable, Shows;
    StateAt(log, i);
    var w := State(log[..i]);
    ReadyStep(w, log[i], o);
    assert log[..|log|] == log;
    var at := i + 1;
    if o.size > 0 && !HasSize(w.layout) {
      StateAt(log, at);
      UnsizedStep(State(log[..at]), log[at], o);
      at := i + 2;
    }
    StateAt(log, at);
    HoldingStep(State(log[..at]), log[at], o);
    if log[at].Deliver? {
      StateAt(log, at + 1);
      ShownStep(State(log[..at + 1]), log[at + 1], o);
    }
    assert HeldFrom(log, i, o, at) && EndsAt(log, o, at);
  }

  lemma ReadyStep(w: Watch, c: Call, o: Output)
    requires Observe(w, c).phase != Broken && c.DequeueOutput? && c.event == Ready(o)
    ensures Observe(w, c).phase == if o.size > 0 && !HasSize(w.layout) then Unsized(o) else Holding(o)
  {
  }

  lemma UnsizedStep(w: Watch, c: Call, o: Output)
    requires Observe(w, c).phase != Broken && w.phase == Unsized(o)
    ensures c.ReadFormat? && Observe(w, c).phase == Holding(o)
  {
  }

  lemma HoldingStep(w: Watch, c: Call, o: Output)
    requires Observe(w, c).phase != Broken && w.phase == Holding(o)
    ensures if w.callback && Deliverable(o, w.layout)
            then c.Deliver? && Shows(c.frame, o, w.layout) && Observe(w, c).phase == Shown(o)
            else c == ReleaseOutput(o.index)
  {
  }

  lemma ShownStep(w: Watch, c: Call, o: Output)
    requires Observe(w, c).phase != Broken && w.phase == Shown(o)
    ensures c == ReleaseOutput(o.index)
  {
  }

  ghost predicate HeldFrom(log: seq<Call>, i: nat, o: Output, at: nat)
    requires i < |log|
  {
    && at <= |log| && State(log[..at]).phase == Holding(o)
    && (if o.size > 0 && !HasSize(State(log[..i]).layout)
        then at == i + 2 && log[i + 1].ReadFormat? else at == i + 1)
  }

  ghost predicate EndsAt(log: seq<Call>, o: Output, at: nat)
    requires at < |log|
  {
    var w := State(log[..at]);
    if w.callback && Deliverable(o, w.layout)
    then
      && at + 1 < |log| && log[at].Deliver? && Shows(log[at].frame, o, w.layout)
      && log[at + 1] == ReleaseOutput(o.index)
    else log[at] == ReleaseOutput(o.index)
  }

  // ---- the decoder -----------------------------------------------------------------------------------------

  /** What the codec is fed for an encoded frame: a byte stream as it is, anything else as samples. */
  ghost function Fed(data: seq<Byte>): seq<Byte> {
    if |data| >= 4 && AnnexB.IsByteStream(data) then data else AnnexB.EncodeAvcc(AnnexB.UnitsOrWhole(data))
  }

  /** The input request at `at` was served by the data, unless there was no slot or the slot was too small. */
  ghost predicate Offered(log: seq<Call>, at: nat, data: seq<Byte>, keyFrame: bool, pts: int) {
    && at < |log| && log[at].DequeueInput? && log[at].timeoutUs == DEQUEUE_INPUT_TIMEOUT_US
    && (log[at].slot.Some? ==>
          && at + 1 < |log| && log[at + 1].QueueInput?
          && var slot := log[at].slot.value;
             if slot.capacity.Some? && |Fed(data)| <= slot.capacity.value
             then log[at + 1] == QueueInput(slot.index, Fed(data), pts, keyFrame, log[at + 1].accepted)
             else log[at + 1].bytes == [])
  }

  // ---- the shape of a drain on the log -----------------------------------------------------------------------

  /** The codec has no output for now, or fails: the drain loop stops. */
  predicate Ending(e: OutEvent) {
    e == TryAgain || e == Failed
  }

  predicate Asks(c: Call, timeoutUs: int) {
    c.DequeueOutput? && c.timeoutUs == timeoutUs
  }

  /** What a turn of the loop does behind its request. */
  predicate Handling(c: Call) {
    c.ReadFormat? || c.Deliver? || c.ReleaseOutput?
  }

  /** The calls from `at` on are one turn of the loop. */
  predicate Turn(log: seq<Call>, at: nat, timeoutUs: int) {
    at < |log| && Asks(log[at], timeoutUs) && forall k :: at < k < |log| ==> Handling(log[k])
  }

  /** The calls from `at` on are the beginning of a drain: the callback is read, and turns follow. */
  predicate Draining(log: seq<Call>, at: nat, first: int) {
    && at < |log| && log[at].ReadCallback?
    && (at + 1 < |log| ==> Asks(log[at + 1], first))
    && forall k :: at < k < |log| ==>
                     Handling(log[k]) || (Asks(log[k], if k == at + 1 then first else 0) && !Ending(log[k].event))
  }

  /**
   The calls from `at` up to `end` are one drain: the callback is read once, the first request waits `first`, all
   others do not wait, and the loop stops at the first request that finds nothing.
   */
  predicate Drain(log: seq<Call>, at: nat, end: nat, first: int) {
    && at + 2 <= end <= |log|
    && Draining(log[..end - 1], at, first)
    && Asks(log[end - 1], if end == at + 2 then first else 0) && Ending(log[end - 1].event)
  }

  predicate Delivers(log: seq<Call>, at: nat, end: nat) {
    end <= |log| && exists k :: at <= k < end && log[k].Deliver?
  }

  /** Two drains: the first does not wait, the second waits 3000 microseconds unless the first delivered a picture. */
  ghost predicate TwoDrains(log: seq<Call>, at: nat) {
    exists mid: nat :: Drain(log, at, mid, 0) && Drain(log, mid, |log|, if Delivers(log, at, mid) then 0 else 3000)
  }

  lemma DrainingTurn(log: seq<Call>, at: nat, first: int, more: seq<Call>)
    requires Draining(log, at, first) && log <= more
    requires Turn(more, |log|, if |log| == at + 1 then first else 0)
    ensures !Ending(more[|log|].event) ==> Draining(more, at, first)
    ensures Ending(more[|log|].event) && |more| == |log| + 1 ==> Drain(more, at, |more|, first)
  {
    assert more[..|log|] == log;
  }

  lemma DeliversJoin(log: seq<Call>, at: nat, more: seq<Call>)
    requires at <= |log| && log <= more
    ensures Delivers(more, at, |more|) <==> Delivers(log, at, |log|) || Delivers(more, |log|, |more|)
  {
    forall k | at <= k < |log| && log[k].Deliver? ensures more[k].Deliver? {
      assert more[k] == log[k];
    }
  }

  lemma DrainStays(log: seq<Call>, at: nat, first: int, more: seq<Call>)
    requires Drain(log, at, |log|, first) && log <= more
    ensures Drain(more, at, |log|, first)
    ensures Delivers(more, at, |log|) <==> Delivers(log, at, |log|)
  {
    assert more[..|log| - 1] == log[..|log| - 1];
    assert forall k :: 0 <= k < |log| ==> more[k] == log[k];
  }

  lemma DrainCalls(log: seq<Call>, at: nat, end: nat, first: int, k: nat)
    requires Drain(log, at, end, first) && at <= k < end
    ensures if k == at then log[k].ReadCallback?
            else || Handling(log[k])
                 || (Asks(log[k], if k == at + 1 then first else 0) && (Ending(log[k].event) <==> k + 1 == end))
    ensures log[at + 1].DequeueOutput?
  {
    if k + 1 < end {
      assert log[..end - 1][k] == log[k];
    }
    if at + 2 < end {
      assert log[..end - 1][at + 1] == log[at + 1];
    }
  }

  /** From `at` on the callback is read at `at` and at `mid`, and nowhere else. */
  predicate ReadsCallbackAt(log: seq<Call>, at: nat, mid: nat) {
    forall j :: at <= j < |log| ==> (log[j].ReadCallback? <==> j == at || j == mid)
  }

  /**
   Behind an accepted input the first request does not wait, and a request that waits comes right behind a first
   drain that ended with nothing to be had and no picture delivered.
   */
  lemma WaitsOnlyForNothing(log: seq<Call>, at: nat, k: nat)
    requires TwoDrains(log, at) && at <= k < |log|
    ensures at + 1 < |log| && Asks(log[at + 1], 0)
    ensures exists mid: nat :: at < mid < |log| && ReadsCallbackAt(log, at, mid)
    ensures log[k].DequeueOutput? && log[k].timeoutUs != 0 ==>
              && log[k].timeoutUs == 3000
              && at + 2 < k && log[k - 1].ReadCallback? && Asks(log[k - 2], 0) && Ending(log[k - 2].event)
              && forall j :: at <= j < k ==> !log[j].Deliver?
  {
    hide Drain;
    var mid: nat :| Drain(log, at, mid, 0) && Drain(log, mid, |log|, if Delivers(log, at, mid) then 0 else 3000);
    var second := if Delivers(log, at, mid) then 0 else 3000;
    DrainSpan(log, at, mid, 0);
    DrainSpan(log, mid, |log|, second);
    DrainCalls(log, at, mid, 0, at + 1);
    forall j | at <= j < |log| ensures log[j].ReadCallback? <==> j == at || j == mid {
      if j < mid { DrainCalls(log, at, mid, 0, j); } else { DrainCalls(log, mid, |log|, second, j); }
    }
    assert ReadsCallbackAt(log, at, mid);
    if k < mid { DrainCalls(log, at, mid, 0, k); } else { DrainCalls(log, mid, |log|, second, k); }
    DrainCalls(log, at, mid, 0, mid - 1);
    DrainCalls(log, mid, |log|, second, mid);
  }

  /** No input is queued in a drain, or in two. */
  lemma DrainsQueueNothing(log: seq<Call>, at: nat)
    ensures forall k, t :: at <= k < |log| && Drain(log, at, |log|, t) ==> !log[k].QueueInput?
    ensures forall k :: at <= k < |log| && TwoDrains(log, at) ==> !log[k].QueueInput?
  {
    hide Drain;
    forall k, t | at <= k < |log| && Drain(log, at, |log|, t) ensures !log[k].QueueInput? {
      DrainCalls(log, at, |log|, t, k);
    }
    if TwoDrains(log, at) {
      var mid: nat :| Drain(log, at, mid, 0) && Drain(log, mid, |log|, if Delivers(log, at, mid) then 0 else 3000);
      forall k | at <= k < |log| ensures !log[k].QueueInput? {
        if k < mid {
          DrainCalls(log, at, mid, 0, k);
        } else {
          DrainCalls(log, mid, |log|, if Delivers(log, at, mid) then 0 else 3000, k);
        }
      }
    }
  }

  lemma NothingYet(log: seq<Call>)
    ensures !Delivers(log, |log|, |log|)
  {
  }

  lemma DrainBegins(log: seq<Call>, cb: bool, first: int)
    ensures Draining(log + [ReadCallback(cb)], |log|, first)
    ensures !Delivers(log + [ReadCallback(cb)], |log|, |log| + 1)
  {
  }

  lemma TurnGrows(log: seq<Call>, at: nat, timeoutUs: int)
    requires Turn(log, at, timeoutUs)
    ensures at < |log|
  {
  }

  lemma DrainSpan(log: seq<Call>, at: nat, end: nat, first: int)
    requires Drain(log, at, end, first)
    ensures at + 2 <= end <= |log|
    ensures Asks(log[end - 1], if end == at + 2 then first else 0) && Ending(log[end - 1].event)
  {
  }

  datatype Job =
    | Configure(created: bool, configured: bool, started: bool)
    | Decode(data: seq<Byte>, keyFrame: bool)
    | Register(present: bool)
    | Destroy

  /** Whether there is a codec after those jobs. */
  function CodecAfter(jobs: seq<Job>, codec: bool): bool {
    if jobs == [] then codec
    else
      match jobs[|jobs| - 1]
      case Configure(created, configured, started) => created && configured && started
      case Destroy => false
      case _ => CodecAfter(jobs[..|jobs| - 1], codec)
  }

  lemma CodecStep(jobs: seq<Job>, k: nat, codec: bool)
    requires k < |jobs|
    ensures CodecAfter(jobs[..k + 1], codec) ==
            match jobs[k] {
              case Configure(created, configured, started) => created && configured && started
              case Destroy => false
              case _ => CodecAfter(jobs[..k], codec)
            }
  {
    assert jobs[..k + 1][..k] == jobs[..k];
  }

  /** The calls from `at` on begin as the job makes them, after those jobs. */
  ghost predicate Does(log: seq<Call>, at: nat, before: seq<Job>, job: Job, codec: bool) {
    match job
    case Configure(created, configured, started) =>
      && at < |log| && log[at] == Destroyed
      && (created && configured && started ==> at + 2 < |log| && log[at + 1] == Started && log[at + 2].ReadFormat?)
    case Decode(data, keyFrame) =>
      CodecAfter(before, codec) && data != [] ==> exists pts :: Offered(log, at, data, keyFrame, pts)
    case Register(_) => true
    case Destroy => at < |log| && log[at] == Destroyed
  }

  lemma DoesStays(log: seq<Call>, at: nat, before: seq<Job>, job: Job, codec: bool, more: seq<Call>)
    requires Does(log, at, before, job, codec) && log <= more
    ensures Does(more, at, before, job, codec)
  {
    if job.Decode? && CodecAfter(before, codec) && job.data != [] {
      var pts :| Offered(log, at, job.data, job.keyFrame, pts);
      assert Offered(more, at, job.data, job.keyFrame, pts);
    }
  }

  predicate HandsBack(c: Call, slot: InputSlot) {
    c.QueueInput? && c.index == slot.index && c.bytes == []
  }

  /** The next answer of a script, and what is left of it. */
  function Answer<T>(script: seq<T>, otherwise: T): T {
    if script == [] then otherwise else script[0]
  }

  function Rest<T>(script: seq<T>): seq<T> {
    if script == [] then [] else script[1..]
  }

  class Decoder {
    // The codec's answers still to come; once a script is used up it answers "try again", "none" or "refused".
    var events: seq<OutEvent>
    var formats: seq<Option<Format>>
    var slots: seq<Option<InputSlot>>
    var accepts: seq<bool>
    // What another thread does to the callback before each drain reads it.
    var registrations: seq<Option<bool>>

    var log: seq<Call>
    var codec: bool
    var callback: bool
    var nextPts: int
    const fmt: OutputFormat

    ghost function InForce(): Layout
      reads fmt
    {
      Layout(fmt.width, fmt.height, fmt.stride, fmt.sliceHeight, fmt.color)
    }

    ghost predicate At(p: Phase)
      reads this, fmt
    {
      && fmt.Sane()
      && State(log).phase == p && State(log).layout == InForce() && State(log).lastPts == nextPts - 1
    }

    /** The whole log so far is in order, and no buffer is in hand. */
    ghost predicate Valid()
      reads this, fmt
    {
      At(Idle)
    }

    constructor (events: seq<OutEvent>, formats: seq<Option<Format>>, slots: seq<Option<InputSlot>>, accepts: seq<bool>,
                 registrations: seq<Option<bool>>)
      ensures Valid() && log == [] && !codec && !callback && fresh(fmt)
      ensures this.events == events && this.formats == formats && this.slots == slots && this.accepts == accepts
      ensures this.registrations == registrations
    {
      this.events, this.formats, this.slots, this.accepts := events, formats, slots, accepts;
      this.registrations := registrations;
      log, codec, callback, nextPts := [], false, false, 0;
      fmt := new OutputFormat();
      new;
      fmt.Reset();
    }

    method Record(c: Call)
      modifies this`log
      ensures log == old(log) + [c]
      ensures State(log) == Observe(old(State(log)), c)
      ensures Waits(log) == old(Waits(log)) + Wait(c)
    {
      log := log + [c];
      StateStep(old(log), c);
      WaitsStep(old(log), c);
    }

    method RefreshOutputFormat()
      requires State(log).phase in {Idle, FormatStale} || State(log).phase.Unsized?
      requires At(State(log).phase) && codec
      modifies this`formats, this`log, fmt
      ensures At(if old(State(log).phase).Unsized? then Holding(old(State(log).phase.output)) else Idle)
      ensures log == old(log) + [ReadFormat(Answer(old(formats), None))] && formats == Rest(old(formats))
      ensures Waits(log) == old(Waits(log))
      ensures State(log).callback == old(State(log).callback) && State(log).delivered == old(State(log).delivered)
    {
      hide State, Waits;
      var f := None;
      if formats != [] {
        f, formats := formats[0], formats[1..];
      }
      if f.Some? {
        fmt.Update(f.value);
      }
      Record(ReadFormat(f));
    }

    method DequeueOutputBuffer(timeoutUs: int) returns (e: OutEvent)
      modifies this`events, this`log
      ensures log == old(log) + [DequeueOutput(timeoutUs, e)]
      ensures State(log) == Observe(old(State(log)), DequeueOutput(timeoutUs, e))
      ensures Waits(log) == old(Waits(log)) + timeoutUs
      ensures e == Answer(old(events), TryAgain) && events == Rest(old(events))
    {
      hide State, Waits;
      e := TryAgain;
      if events != [] {
        e, events := events[0], events[1..];
      }
      Record(DequeueOutput(timeoutUs, e));
    }

    /** From a dequeued output to its release. */
    method HandleOutput(o: Output, cb: bool) returns (delivered: bool)
      requires At(if o.size > 0 && !HasSize(InForce()) then Unsized(o) else Holding(o))
      requires codec && State(log).callback == cb
      modifies this`formats, this`log, fmt
      ensures Valid() && State(log).callback == cb
      ensures State(log).delivered == (old(State(log).delivered) || delivered)
      ensures old(log) <= log && Waits(log) == old(Waits(log))
      ensures forall k :: |old(log)| <= k < |log| ==> Handling(log[k])
      ensures delivered <==> Delivers(log, |old(log)|, |log|)
    {
      hide State, Waits, Shows, CopiesAs;
      delivered := false;
      ghost var shownAt := |log|;
      if o.size > 0 && (fmt.width <= 0 || fmt.height <= 0) {
        RefreshOutputFormat();
      }
      assert At(Holding(o));
      if o.size > 0 && fmt.width > 0 && fmt.height > 0 && cb && IsNv12FamilyOutput(fmt.color) {
        if o.data.Some? && o.offset + o.size <= |o.data.value| {
          var l := Layout(fmt.width, fmt.height, fmt.stride, fmt.sliceHeight, fmt.color);
          var frame, _ := CopyOutput(o, l);
          CopiesSomehow(o, l, frame);
          if frame.Some? {
            shownAt := |log|;
            Record(Deliver(frame.value));
            delivered := true;
          }
        }
      }
      Record(ReleaseOutput(o.index));
      assert delivered ==> log[shownAt].Deliver?;
    }

    /** The callback as it is now: another thread may have registered or cleared one since the last drain. */
    method CurrentCallback() returns (cb: bool)
      modifies this`callback, this`registrations
      ensures cb == callback
      ensures callback == if old(registrations) != [] && old(registrations)[0].Some? then old(registrations)[0].value
                          else old(callback)
      ensures registrations == Rest(old(registrations))
    {
      if registrations != [] {
        if registrations[0].Some? {
          callback := registrations[0].value;
        }
        registrations := registrations[1..];
      }
      cb := callback;
    }

    /** One turn of the drain loop; `more` is whether the loop goes on. */
    method DrainOne(timeoutUs: int, cb: bool) returns (more: bool, shown: bool)
      requires Valid() && codec && State(log).callback == cb && (timeoutUs > 0 ==> !State(log).delivered)
      modifies this`events, this`formats, this`log, fmt
      ensures Valid() && State(log).callback == cb
      ensures State(log).delivered == (old(State(log).delivered) || shown)
      ensures old(log) <= log && Turn(log, |old(log)|, timeoutUs)
      ensures Waits(log) == old(Waits(log)) + timeoutUs
      ensures more ==> |events| < |old(events)|
      ensures !more <==> Ending(log[|old(log)|].event)
      ensures !more ==> |log| == |old(log)| + 1
      ensures shown <==> Delivers(log, |old(log)|, |log|)
    {
      hide State, Waits, Observe;
      more, shown := true, false;
      var e := DequeueOutputBuffer(timeoutUs);
      DequeueStep(old(State(log)), timeoutUs, e);
      ghost var dequeued := log;
      if e == FormatChanged || e == BuffersChanged {
        RefreshOutputFormat();
      } else if e == TryAgain || e == Failed {
        more := false;
      } else {
        shown := HandleOutput(e.output, cb);
        DeliversJoin(dequeued, |old(log)|, log);
      }
    }

    method DrainOutputs(firstTimeoutUs: int) returns (delivered: nat)
      requires Valid() && (firstTimeoutUs > 0 ==> !State(log).delivered)
      modifies this`events, this`formats, this`callback, this`registrations, this`log, fmt
      ensures Valid() && old(log) <= log
      ensures State(log).delivered == (old(State(log).delivered) || delivered > 0)
      ensures Waits(log) == old(Waits(log)) + if codec then firstTimeoutUs else 0
      ensures codec ==> Drain(log, |old(log)|, |log|, firstTimeoutUs) && log[|old(log)|] == ReadCallback(callback)
      ensures delivered > 0 <==> Delivers(log, |old(log)|, |log|)
      ensures !codec ==> log == old(log)
    {
      hide State, Waits, Observe, Draining, Drain, Turn, Delivers;
      delivered := 0;
      NothingYet(log);
      if !codec {
        return;
      }
      var cb := CurrentCallback();
      ReadCallbackStep(State(log), cb);
      Record(ReadCallback(cb));
      DrainBegins(old(log), cb, firstTimeoutUs);
      var usedTimeout := false;
      while true
        invariant Valid() && State(log).callback == cb
        invariant old(log) + [ReadCallback(callback)] <= log && Draining(log, |old(log)|, firstTimeoutUs)
        invariant usedTimeout <==> |log| > |old(log)| + 1
        invariant delivered > 0 <==> Delivers(log, |old(log)|, |log|)
        invariant State(log).delivered == (old(State(log).delivered) || delivered > 0)
        invariant !usedTimeout ==> delivered == 0
        invariant Waits(log) == old(Waits(log)) + if usedTimeout then firstTimeoutUs else 0
        decreases |events|
      {
        var timeout := if !usedTimeout then firstTimeoutUs else 0;
        usedTimeout := true;
        ghost var before := log;
        var more, shown := DrainOne(timeout, cb);
        TurnGrows(log, |before|, timeout);
        DrainingTurn(before, |old(log)|, firstTimeoutUs, log);
        DeliversJoin(before, |old(log)|, log);
        delivered := delivered + if shown then 1 else 0;
        if !more {
          break;
        }
      }
    }

    /** Once the frame is queued: drain without waiting, and wait only if nothing came out. */
    method DrainAfterQueue()
      requires Valid() && codec && !State(log).delivered
      modifies this`events, this`formats, this`callback, this`registrations, this`log, fmt
      ensures Valid() && old(log) <= log && TwoDrains(log, |old(log)|)
      ensures || Waits(log) == old(Waits(log)) + DRAIN_AFTER_QUEUE_SHORT_WAIT_US
              || (Waits(log) == old(Waits(log)) && State(log).delivered)
    {
      hide State, Waits, Observe, Drain, Delivers;
      var delivered := DrainOutputs(0);
      ghost var drained := log;
      if delivered > 0 {
        var _ := DrainOutputs(0);
      } else {
        var _ := DrainOutputs(DRAIN_AFTER_QUEUE_SHORT_WAIT_US);
      }
      DrainStays(drained, |old(log)|, 0, log);
      assert Drain(log, |drained|, |log|, if Delivers(log, |old(log)|, |drained|) then 0 else 3000);
    }

    method DequeueInputBuffer(timeoutUs: int) returns (slot: Option<InputSlot>)
      modifies this`slots, this`log
      ensures slot == Answer(old(slots), None) && slots == Rest(old(slots))
      ensures log == old(log) + [DequeueInput(timeoutUs, slot)]
      ensures State(log) == Observe(old(State(log)), DequeueInput(timeoutUs, slot))
      ensures Waits(log) == old(Waits(log)) + timeoutUs
    {
      hide State, Waits;
      slot := None;
      if slots != [] {
        slot, slots := slots[0], slots[1..];
      }
      Record(DequeueInput(timeoutUs, slot));
    }

    method QueueInputBuffer(index: nat, bytes: seq<Byte>, pts: int, keyFrame: bool) returns (ok: bool)
      modifies this`accepts, this`log
      ensures ok == Answer(old(accepts), false) && accepts == Rest(old(accepts))
      ensures log == old(log) + [QueueInput(index, bytes, pts, keyFrame, ok)]
      ensures State(log) == Observe(old(State(log)), QueueInput(index, bytes, pts, keyFrame, ok))
      ensures Waits(log) == old(Waits(log))
    {
      hide State, Waits;
      ok := false;
      if accepts != [] {
        ok, accepts := accepts[0], accepts[1..];
      }
      Record(QueueInput(index, bytes, pts, keyFrame, ok));
    }

    /**
     Queues the bytes if the slot holds them, and otherwise, or if the codec refuses them, hands the slot back
     empty.
     */
    method FillInput(slot: InputSlot, fed: seq<Byte>, keyFrame: bool) returns (ok: bool)
      requires At(InputHeld(slot)) && fed != []
      modifies this`accepts, this`log, this`nextPts
      ensures Valid() && State(log).delivered == old(State(log).delivered) && Waits(log) == old(Waits(log))
      ensures if slot.capacity.Some? && |fed| <= slot.capacity.value
              then |log| == |old(log)| + (if ok then 1 else 2)
                   && old(log) + [QueueInput(slot.index, fed, old(nextPts), keyFrame, ok)] <= log
              else !ok && |log| == |old(log)| + 1 && old(log) <= log
      ensures !ok ==> HandsBack(log[|log| - 1], slot)
    {
      hide State, Waits, Observe;
      ok := false;
      if slot.capacity.None? || |fed| > slot.capacity.value {
        HandBack(slot);
        return;
      }
      var pts := nextPts;
      nextPts := nextPts + 1;
      ghost var w := State(log);
      ok := QueueInputBuffer(slot.index, fed, pts, keyFrame);
      FeedStep(w, slot, fed, pts, keyFrame, ok);
      if !ok {
        HandBack(slot);
      }
    }

    method HandBack(slot: InputSlot)
      requires At(InputHeld(slot))
      modifies this`accepts, this`log
      ensures Valid() && State(log).delivered == old(State(log).delivered) && Waits(log) == old(Waits(log))
      ensures |log| == |old(log)| + 1 && old(log) <= log && HandsBack(log[|log| - 1], slot)
    {
      hide State, Waits, Observe;
      ghost var w := State(log);
      var ok := QueueInputBuffer(slot.index, [], 0, false);
      ReturnStep(w, slot, 0, false, ok);
    }

    /**
     One encoded frame. The data is offered once, under the next timestamp; whatever the codec answers, the log
     stays in order with no buffer in hand, and the waits asked for stay within 6000 microseconds. The second
     wait is spent exactly when the frame was queued and nothing came out before it, or no input was free.
     */
    method ProcessOneFrame(data: seq<Byte>, keyFrame: bool)
      requires Valid()
      modifies this`events, this`formats, this`slots, this`accepts, this`callback, this`registrations, this`log,
               this`nextPts, fmt
      ensures Valid() && old(log) <= log
      ensures !codec || data == [] ==> log == old(log)
      ensures codec && data != [] ==> Offered(log, |old(log)|, data, keyFrame, old(nextPts))
      ensures forall k :: |old(log)| + 1 < k < |log| && log[k].QueueInput? ==> log[k].bytes == []
      ensures Waits(log) <= old(Waits(log)) + 6000
      ensures codec && data != [] ==>
                var first := log[|old(log)|];
                && (first.slot == None ==>
                      Waits(log) == old(Waits(log)) + 6000 && Drain(log, |old(log)| + 1, |log|, 3000))
                && (first.slot.Some? && Feeds(log[|old(log)| + 1]) && log[|old(log)| + 1].accepted ==>
                      && TwoDrains(log, |old(log)| + 2)
                      && (|| Waits(log) == old(Waits(log)) + 6000
                          || (Waits(log) == old(Waits(log)) + 3000 && State(log).delivered)))
                && (first.slot.Some? && !(Feeds(log[|old(log)| + 1]) && log[|old(log)| + 1].accepted) ==>
                      && Waits(log) == old(Waits(log)) + 3000
                      && |log| == |old(log)| + (if Feeds(log[|old(log)| + 1]) then 3 else 2)
                      && HandsBack(log[|log| - 1], first.slot.value))
    {
      hide State, Waits, Observe, Fed, Drain, TwoDrains, AnnexB.IsByteStream, AnnexB.Print, AnnexB.EncodeAvcc,
           AnnexB.DecodeAvcc, AnnexB.Units, AnnexB.UnitsOrWhole;
      if !codec || |data| == 0 {
        return;
      }
      ghost var at := |log|;
      ghost var w := State(log);
      var fed := AnnexB.Feed(data);
      FedIs(data, fed);
      var got := DequeueInputBuffer(DEQUEUE_INPUT_TIMEOUT_US);
      RequestStep(w, DEQUEUE_INPUT_TIMEOUT_US, got);
      ghost var asked := log;
      if got.None? {
        var _ := DrainOutputs(DRAIN_ON_INPUT_BACKPRESSURE_US);
        assert log[at] == asked[at];
        DrainsQueueNothing(log, at + 1);
        return;
      }
      var ok := FillInput(got.value, fed, keyFrame);
      ghost var queued := log;
      if ok {
        DrainAfterQueue();
        DrainsQueueNothing(log, at + 2);
      }
      assert log[at] == asked[at] && log[at + 1] == queued[at + 1];
    }

    method DestroyCodec()
      requires Valid()
      modifies this`codec, this`log, fmt
      ensures Valid() && !codec && InForce() == NO_LAYOUT
      ensures log == old(log) + [Destroyed] && Waits(log) == old(Waits(log))
    {
      codec := false;
      fmt.Reset();
      Record(Destroyed);
    }

    /** A new session: timestamps start again at zero, and the format is read at once. */
    method ConfigureOnWorker(created: bool, configured: bool, started: bool) returns (ok: bool)
      requires Valid()
      modifies this`codec, this`formats, this`log, this`nextPts, fmt
      ensures Valid() && ok == codec == (created && configured && started)
      ensures ok ==> nextPts == 0 && |log| == |old(log)| + 3 && log[..|old(log)| + 2] == old(log) + [Destroyed, Started]
      ensures ok ==> log[|log| - 1].ReadFormat?
      ensures !ok ==> nextPts == old(nextPts) && log == old(log) + [Destroyed] && InForce() == NO_LAYOUT
    {
      hide State, Waits, Observe;
      DestroyCodec();
      StartStep(State(log));
      if !created || !configured || !started {
        return false;
      }
      codec := true;
      nextPts := 0;
      Record(Started);
      RefreshOutputFormat();
      return true;
    }

    method RegisterDecodeCompleteCallback(present: bool)
      requires Valid()
      modifies this`callback
      ensures Valid() && callback == present
    {
      callback := present;
    }

    /**
     Every run of the worker's jobs, with callbacks registered and cleared at any time, keeps the log in order and
     ends with no buffer in hand: all outputs dequeued are released and all inputs dequeued handed back, in order,
     and timestamps increase within each codec session.
     */
    method Run(jobs: seq<Job>) returns (ghost trace: seq<nat>)
      requires Valid()
      modifies this, fmt
      ensures Valid() && old(log) <= log
      ensures |trace| == |jobs| && forall i :: 0 <= i < |jobs| ==> Does(log, trace[i], jobs[..i], jobs[i], old(codec))
      ensures Gather(log, Taken) == Gather(log, Freed) && Gather(log, Borrowed) == Gather(log, Returned)
      ensures forall i, j :: 0 <= i < j < |log| && SameSession(log, i, j) ==> log[i].pts < log[j].pts
    {
      hide State, Waits, Observe, Fed, Gather;
      trace := [];
      for k := 0 to |jobs|
        invariant Valid() && old(log) <= log && codec == CodecAfter(jobs[..k], old(codec)) && |trace| == k
        invariant forall i :: 0 <= i < k ==> Does(log, trace[i], jobs[..i], jobs[i], old(codec))
      {
        ghost var before := log;
        CodecStep(jobs, k, old(codec));
        match jobs[k] {
          case Configure(created, configured, started) =>
            var _ := ConfigureOnWorker(created, configured, started);
          case Decode(data, keyFrame) => ProcessOneFrame(data, keyFrame);
          case Register(present) => RegisterDecodeCompleteCallback(present);
          case Destroy => DestroyCodec();
        }
        forall i | 0 <= i < k ensures Does(log, trace[i], jobs[..i], jobs[i], old(codec)) {
          DoesStays(before, trace[i], jobs[..i], jobs[i], old(codec), log);
        }
        trace := trace + [|before|];
      }
      assert jobs[..|jobs|] == jobs;
      BuffersAreConserved(log);
      var freed, returned := Gather(log, Freed), Gather(log, Returned);
      assert freed + [] == freed && returned + [] == returned;
      forall i, j | 0 <= i < j < |log| && SameSession(log, i, j) ensures log[i].pts < log[j].pts {
        PtsIncrease(log, i, j);
      }
    }
  }

  lemma CopiesSomehow(o: Output, l: Layout, f: Option<Frame>)
    requires o.data.Some? && CopiesAs(o, l, f)
    ensures f.Some? <==> !CopiesAs(o, l, None)
  {
  }

  lemma ReadCallbackStep(w: Watch, cb: bool)
    requires w.phase == Idle
    ensures Observe(w, ReadCallback(cb)) == w.(callback := cb)
  {
  }

  lemma StartStep(w: Watch)
    requires w.phase == Idle
    ensures Observe(w, Started) == w.(lastPts := -1)
  {
  }

  lemma DequeueStep(w: Watch, timeout: int, e: OutEvent)
    requires w.phase == Idle && (timeout > 0 ==> !w.delivered)
    ensures var v := Observe(w, DequeueOutput(timeout, e));
            && v.layout == w.layout && v.callback == w.callback && v.lastPts == w.lastPts && v.delivered == w.delivered
            && v.phase == match e {
                 case FormatChanged => FormatStale
                 case BuffersChanged => FormatStale
                 case TryAgain => Idle
                 case Failed => Idle
                 case Ready(o) => if o.size > 0 && !HasSize(w.layout) then Unsized(o) else Holding(o)
               }
  {
  }

  lemma FedIs(data: seq<Byte>, fed: seq<Byte>)
    requires |data| >= 4 && AnnexB.IsByteStream(data) ==> fed == data
    requires !(|data| >= 4 && AnnexB.IsByteStream(data)) ==> fed == AnnexB.EncodeAvcc(AnnexB.UnitsOrWhole(data))
    ensures fed == Fed(data)
  {
  }

  lemma RequestStep(w: Watch, timeout: int, s: Option<InputSlot>)
    requires w.phase == Idle
    ensures Observe(w, DequeueInput(timeout, s)) ==
            w.(phase := if s.Some? then InputHeld(s.value) else Idle, delivered := false)
  {
  }

  lemma FeedStep(w: Watch, s: InputSlot, bytes: seq<Byte>, pts: int, keyFrame: bool, ok: bool)
    requires w.phase == InputHeld(s) && bytes != []
    requires s.capacity.Some? && |bytes| <= s.capacity.value && pts > w.lastPts
    ensures Observe(w, QueueInput(s.index, bytes, pts, keyFrame, ok)) ==
            w.(phase := if ok then Idle else InputHeld(s), lastPts := pts)
  {
  }

  lemma ReturnStep(w: Watch, s: InputSlot, pts: int, keyFrame: bool, ok: bool)
    requires w.phase == InputHeld(s)
    ensures Observe(w, QueueInput(s.index, [], pts, keyFrame, ok)) == w.(phase := Idle)
  {
  }
}

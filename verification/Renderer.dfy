/** The video item: a mailbox for the latest frame, and a render node that uploads it and draws. */
module Renderer {

  import opened Base
  import opened PlaneUpload

  // ---- frames and what a draw samples ---------------------------------------------------------

  datatype Frame =
    | OesFrame(texture: nat)
    | Nv12Frame(w: nat, h: nat, y: seq<Byte>, strideY: nat, uv: seq<Byte>, strideUV: nat)
    | I420Frame(w: nat, h: nat, y: seq<Byte>, strideY: nat, u: seq<Byte>, strideU: nat, v: seq<Byte>, strideV: nat)

  /** What the decoder hands over; a foreign buffer comes with the outcome of its conversion to I420. */
  datatype Incoming = NoBuffer | Known(frame: Frame) | Foreign(converted: Option<Frame>)

  datatype Kind = KindY | KindU | KindV | KindUV

  function Bpp(k: Kind): nat { if k == KindUV then 2 else 1 }

  const NO_PLANE := Plane([], 0, 0, 0)

  /** The plane a frame gives each texture. NV12 rounds chroma sizes up, I420 rounds them down. */
  function PlaneOf(f: Frame, k: Kind): Plane {
    match (f, k)
    case (Nv12Frame(w, h, y, sy, _, _), KindY) => Plane(y, sy, w, h)
    case (Nv12Frame(w, h, _, _, uv, suv), KindUV) => Plane(uv, suv, (w + 1) / 2, (h + 1) / 2)
    case (I420Frame(w, h, y, sy, _, _, _, _), KindY) => Plane(y, sy, w, h)
    case (I420Frame(w, h, _, _, u, su, _, _), KindU) => Plane(u, su, w / 2, h / 2)
    case (I420Frame(w, h, _, _, _, _, v, sv), KindV) => Plane(v, sv, w / 2, h / 2)
    case _ => NO_PLANE
  }

  /** Every plane's rows lie apart, and its memory holds them all, the last one padded like the others. */
  predicate SoundFrame(f: Frame) {
    match f
    case OesFrame(_) => true
    case Nv12Frame(w, h, y, sy, uv, suv) =>
      && w <= sy && sy * h <= |y|
      && 2 * ((w + 1) / 2) <= suv && suv * ((h + 1) / 2) <= |uv|
    case I420Frame(w, h, y, sy, u, su, v, sv) =>
      && w <= sy && sy * h <= |y|
      && w / 2 <= su && su * (h / 2) <= |u|
      && w / 2 <= sv && sv * (h / 2) <= |v|
  }

  /** The uploads ask no more of a frame than of its planes. */
  lemma SoundFrameIff(f: Frame)
    ensures SoundFrame(f) <==> forall k: Kind :: Sound(PlaneOf(f, k), Bpp(k))
  {
    if forall k: Kind :: Sound(PlaneOf(f, k), Bpp(k)) {
      assert Sound(PlaneOf(f, KindY), 1) && Sound(PlaneOf(f, KindU), 1) && Sound(PlaneOf(f, KindV), 1);
      assert Sound(PlaneOf(f, KindUV), 2);
    }
  }

  lemma SoundPlanes(f: Frame, k: Kind)
    requires SoundFrame(f)
    ensures Sound(PlaneOf(f, k), Bpp(k))
  {
  }

  function ImageOf(f: Frame, k: Kind, rowLengths: bool): Image {
    Shown(PlaneOf(f, k), Bpp(k), rowLengths)
  }

  /** The shader a draw used and what its textures held; None for a texture nothing was uploaded to. */
  datatype Drawing =
    | NoDraw
    | DrawOes(texture: nat)
    | DrawNv12(y: Option<Image>, uv: Option<Image>)
    | DrawI420(y: Option<Image>, u: Option<Image>, v: Option<Image>)

  /** The drawing that shows one frame and nothing else. */
  function DrawingOf(f: Frame, rowLengths: bool): Drawing {
    match f
    case OesFrame(t) => DrawOes(t)
    case Nv12Frame(_, _, _, _, _, _) =>
      DrawNv12(Some(ImageOf(f, KindY, rowLengths)), Some(ImageOf(f, KindUV, rowLengths)))
    case I420Frame(_, _, _, _, _, _, _, _) =>
      DrawI420(Some(ImageOf(f, KindY, rowLengths)), Some(ImageOf(f, KindU, rowLengths)),
               Some(ImageOf(f, KindV, rowLengths)))
  }

  // ---- the bytes a drawing shows -------------------------------------------------------------------

  /** `i` is `h` rows of `w` pixels, each `n` bytes of `data`, `distance` bytes behind the row before it. */
  ghost predicate RowsOf(i: Image, w: nat, h: nat, data: seq<Byte>, distance: nat, n: nat) {
    && i.w == w && i.h == h && |i.rows| == h
    && forall r :: 0 <= r < h ==>
                     r * distance + n <= |data| && i.rows[r] == data[r * distance..r * distance + n]
  }

  /** A row length counts pixels, so interleaved chroma rows of odd stride are read one byte too close together. */
  function ChromaDistance(strideUV: nat, rowLengths: bool): nat {
    if rowLengths && strideUV % 2 == 1 then strideUV - 1 else strideUV
  }

  /** The image is that plane of the frame, byte for byte. */
  ghost predicate Holds(i: Image, f: Frame, k: Kind, rowLengths: bool) {
    match f
    case OesFrame(_) => i.rows == []
    case Nv12Frame(w, h, y, sy, uv, suv) =>
      if k == KindY then RowsOf(i, w, h, y, sy, w)
      else if k == KindUV
      then RowsOf(i, (w + 1) / 2, (h + 1) / 2, uv, ChromaDistance(suv, rowLengths), 2 * ((w + 1) / 2))
      else i.rows == []
    case I420Frame(w, h, y, sy, u, su, v, sv) =>
      if k == KindY then RowsOf(i, w, h, y, sy, w)
      else if k == KindU then RowsOf(i, w / 2, h / 2, u, su, w / 2)
      else if k == KindV then RowsOf(i, w / 2, h / 2, v, sv, w / 2)
      else i.rows == []
  }

  ghost predicate TextureHolds(t: Option<Image>, f: Frame, k: Kind, rowLengths: bool) {
    t.Some? && Holds(t.value, f, k, rowLengths)
  }

  /** The drawing is made by the frame's own shader from the frame's own bytes. */
  ghost predicate Depicts(d: Drawing, f: Frame, rowLengths: bool) {
    match d
    case NoDraw => false
    case DrawOes(t) => f == OesFrame(t)
    case DrawNv12(y, uv) =>
      f.Nv12Frame? && TextureHolds(y, f, KindY, rowLengths) && TextureHolds(uv, f, KindUV, rowLengths)
    case DrawI420(y, u, v) =>
      && f.I420Frame? && TextureHolds(y, f, KindY, rowLengths)
      && TextureHolds(u, f, KindU, rowLengths) && TextureHolds(v, f, KindV, rowLengths)
  }

  lemma RowsOfRows(w: nat, h: nat, data: seq<Byte>, distance: nat, n: nat, stride: nat)
    requires distance <= stride && n <= stride && stride * h <= |data|
    ensures RowsOf(Image(w, h, Rows(data, distance, n, h)), w, h, data, distance, n)
  {
    var rows := Rows(data, distance, n, h);
    forall r | 0 <= r < h ensures r * distance + n <= |data| && rows[r] == data[r * distance..r * distance + n] {
      RowEndsInside(distance, stride, n, h, r);
    }
  }

  lemma RowsOfShown(p: Plane, bpp: nat, rowLengths: bool, distance: nat)
    requires bpp > 0 && Sound(p, bpp)
    requires distance == if rowLengths then UnpackStride(p.stride / bpp, p.w, bpp) else p.stride
    ensures RowsOf(Shown(p, bpp, rowLengths), p.w, p.h, p.data, distance, p.w * bpp)
  {
    hide RowsOf, Rows, UnpackStride;
    UnpackStrideIs(p.stride, p.w, bpp);
    RowsOfRows(p.w, p.h, p.data, distance, p.w * bpp, p.stride);
  }

  /** What goes up from a plane of a frame is that plane's bytes. */
  lemma ImageHolds(f: Frame, k: Kind, rowLengths: bool)
    requires SoundFrame(f)
    ensures Holds(ImageOf(f, k, rowLengths), f, k, rowLengths)
  {
    hide RowsOf, Shown;
    var p := PlaneOf(f, k);
    SoundPlanes(f, k);
    UnpackStrideIs(p.stride, p.w, Bpp(k));
    RowsOfShown(p, Bpp(k), rowLengths, if rowLengths then UnpackStride(p.stride / Bpp(k), p.w, Bpp(k)) else p.stride);
    if p == NO_PLANE {
      NothingShown(Bpp(k), rowLengths);
    }
  }

  lemma NothingShown(bpp: nat, rowLengths: bool)
    requires bpp > 0
    ensures Shown(NO_PLANE, bpp, rowLengths).rows == []
  {
  }

  /** The drawing of one frame shows that frame's bytes, whatever the context can do. */
  lemma DrawingDepicts(f: Frame, rowLengths: bool)
    requires SoundFrame(f)
    ensures Depicts(DrawingOf(f, rowLengths), f, rowLengths)
  {
    hide Holds, ImageOf;
    ImageHolds(f, KindY, rowLengths);
    ImageHolds(f, KindU, rowLengths);
    ImageHolds(f, KindV, rowLengths);
    ImageHolds(f, KindUV, rowLengths);
  }

  // ---- uploads since a path switch ---------------------------------------------------------------

  /** Whether each plane's staging succeeded; uploads without pixel buffers count as not staged. */
  datatype Outcome = Outcome(y: bool, u: bool, v: bool, uv: bool)

  function Flag(o: Outcome, k: Kind): bool {
    match k case KindY => o.y case KindU => o.u case KindV => o.v case KindUV => o.uv
  }

  predicate Uniform(o: Outcome) { o.y == o.u == o.v == o.uv }

  const DIRECT := Outcome(false, false, false, false)

  /** One frame sent up, and how each plane's staging went. */
  datatype Upload = Upload(frame: Frame, outcome: Outcome)

  function Frames(us: seq<Upload>): (r: seq<Frame>)
    ensures |r| == |us|
  {
    seq(|us|, i requires 0 <= i < |us| => us[i].frame)
  }

  function Flags(us: seq<Upload>, k: Kind): (r: seq<bool>)
    ensures |r| == |us|
  {
    seq(|us|, i requires 0 <= i < |us| => Flag(us[i].outcome, k))
  }

  /** The view of one plane's texture after those uploads. */
  function ViewOf(us: seq<Upload>, k: Kind): View<Frame> {
    After(Frames(us), Flags(us, k))
  }

  lemma ViewStep(us: seq<Upload>, k: Kind, f: Frame, o: Outcome)
    ensures ViewOf(us + [Upload(f, o)], k) == Next(ViewOf(us, k), f, Flag(o, k))
  {
    assert Frames(us + [Upload(f, o)]) == Frames(us) + [f];
    assert Flags(us + [Upload(f, o)], k) == Flags(us, k) + [Flag(o, k)];
    AfterStep(Frames(us), Flags(us, k), f, Flag(o, k));
  }

  /** Which upload a plane's texture shows: the last one, or the one before if the last was staged. */
  function ShownIndex(us: seq<Upload>, k: Kind): int {
    if us != [] && Flag(us[|us| - 1].outcome, k) then |us| - 2 else |us| - 1
  }

  lemma ViewIs(us: seq<Upload>, k: Kind)
    ensures var i := ShownIndex(us, k);
            ViewOf(us, k).shown == if i < 0 then None else Some(us[i].frame)
    ensures ViewOf(us, k).staged ==
            if us != [] && Flag(us[|us| - 1].outcome, k) then Some(us[|us| - 1].frame) else None
  {
    LagByOne(Frames(us), Flags(us, k));
  }

  /** Two planes show the same frame exactly when the last upload staged both or neither, or nothing changed. */
  lemma PlanesAgreeIff(us: seq<Upload>, j: Kind, k: Kind)
    requires ViewOf(us, j).shown.Some? && ViewOf(us, k).shown.Some?
    ensures var n := |us|;
            && n > 0
            && (ViewOf(us, j).shown == ViewOf(us, k).shown
                <==> Flag(us[n - 1].outcome, j) == Flag(us[n - 1].outcome, k)
                     || (n >= 2 && us[n - 2].frame == us[n - 1].frame))
  {
    ViewIs(us, j);
    ViewIs(us, k);
  }

  /** Every plane's texture has been uploaded to once two frames went up, or one went up unstaged. */
  lemma UploadedIff(us: seq<Upload>, k: Kind)
    ensures ViewOf(us, k).shown.Some? <==> |us| >= 2 || (|us| == 1 && !Flag(us[0].outcome, k))
  {
    ViewIs(us, k);
  }

  /** A plane's uploader is in step with the uploads made so far; its texture is empty or holds what they left there. */
  ghost predicate Tracks(up: PlaneUploader, v: View<Frame>, k: Kind, rowLengths: bool)
    reads up
  {
    && up.Valid() && up.bpp == Bpp(k)
    && (up.ready <==> v.staged.Some?)
    && (v.staged.Some? ==> up.Staged(rowLengths) == Some(ImageOf(v.staged.value, k, rowLengths)))
    && (v.shown.Some? ==>
          && SizeOf(v.shown.value, k) in up.sent
          && (up.texture.Some? ==> up.texture == Some(ImageOf(v.shown.value, k, rowLengths))))
  }

  function SizeOf(f: Frame, k: Kind): Size { PlaneSize(PlaneOf(f, k)) }

  /** One plane of one frame goes up; `uploaded` is whether its texture was written. */
  method UploadPlane(up: PlaneUploader, c: Context, f: Frame, k: Kind, stageOk: bool, ghost v: View<Frame>)
    returns (uploaded: bool)
    requires Tracks(up, v, k, SupportsUnpackRowLength(c)) && SoundFrame(f)
    requires up.ids == SupportsPixelUnpackBuffer(c)
    modifies up
    ensures up.ids == old(up.ids) && up.born == old(up.born)
    ensures Tracks(up, Next(v, f, up.ids && stageOk), k, SupportsUnpackRowLength(c))
    ensures uploaded == (v.staged.Some? || !(up.ids && stageOk))
    ensures up.sent == old(up.sent) + (if v.staged.Some? then [SizeOf(v.staged.value, k)] else [])
                                    + (if up.ids && stageOk then [] else [SizeOf(f, k)])
  {
    SoundPlanes(f, k);
    ImageOfSize(f, k, SupportsUnpackRowLength(c));
    if v.staged.Some? {
      ImageOfSize(v.staged.value, k, SupportsUnpackRowLength(c));
    }
    hide Shown, Sound, SoundFrame, PlaneOf, Landed, Rowed;
    if SupportsPixelUnpackBuffer(c) {
      uploaded := up.UploadPlaneViaPboAsync(c, PlaneOf(f, k), stageOk, true);
    } else {
      SoundFits(PlaneOf(f, k), Bpp(k));
      up.UploadPlanePacked(PlaneOf(f, k), SupportsUnpackRowLength(c));
      uploaded := true;
    }
  }

  lemma ImageOfSize(f: Frame, k: Kind, rowLengths: bool)
    ensures ImageSize(ImageOf(f, k, rowLengths)) == SizeOf(f, k)
  {
  }

  // ---- the mailbox ----------------------------------------------------------------------------------

  function Resolve(b: Incoming): Option<Frame> {
    match b
    case NoBuffer => None
    case Known(f) => Some(f)
    case Foreign(c) => if c.Some? && c.value.I420Frame? && c.value.w > 0 && c.value.h > 0 then c else None
  }

  /** A buffer brings the frame it holds, or the non-empty I420 frame it was converted to. */
  predicate Usable(b: Incoming, f: Frame) {
    b == Known(f) || (b == Foreign(Some(f)) && f.I420Frame? && f.w > 0 && f.h > 0)
  }

  /** Takes are of ever later arrivals, the last of which is before `limit`. */
  ghost predicate InOrder(taken: seq<nat>, limit: nat) {
    && (forall i :: 0 <= i < |taken| ==> taken[i] < limit)
    && (forall i, j :: 0 <= i < j < |taken| ==> taken[i] < taken[j])
  }

  /** The video item's slot for the latest frame. */
  class Mailbox {
    var pendingBuffer: Option<Frame>
    var hasVideo: bool
    // Every frame put in the slot, and which of them were taken out.
    ghost var arrived: seq<Frame>
    ghost var taken: seq<nat>

    /** The slot holds the newest arrival or nothing; arrivals are taken in order, none twice. */
    ghost predicate Valid()
      reads this
    {
      && InOrder(taken, |arrived|)
      && (pendingBuffer.Some? ==>
            && arrived != [] && pendingBuffer.value == arrived[|arrived| - 1]
            && InOrder(taken, |arrived| - 1))
    }

    constructor ()
      ensures Valid() && pendingBuffer == None && !hasVideo && arrived == [] && taken == []
    {
      pendingBuffer, hasVideo, arrived, taken := None, false, [], [];
    }

    method OnFrame(b: Incoming)
      requires Valid()
      modifies this
      ensures Valid() && taken == old(taken)
      ensures Resolve(b).Some? ==>
                pendingBuffer == Resolve(b) && hasVideo && arrived == old(arrived) + [Resolve(b).value]
      ensures Resolve(b).None? ==> unchanged(this)
      ensures forall f :: Usable(b, f) ==> pendingBuffer == Some(f) && hasVideo && arrived == old(arrived) + [f]
      ensures (forall f :: !Usable(b, f)) ==> unchanged(this)
    {
      var pending := Resolve(b);
      assert pending.Some? ==> Usable(b, pending.value);
      if pending.None? {
        return;
      }
      pendingBuffer := pending;
      arrived := arrived + [pending.value];
      hasVideo := true;
    }

    /** The newest arrival, unless it was taken already. */
    method TakeFrame() returns (f: Option<Frame>)
      requires Valid()
      modifies this`pendingBuffer, this`taken
      ensures Valid() && pendingBuffer == None && f == old(pendingBuffer)
      ensures taken == old(taken) + if f.Some? then [|arrived| - 1] else []
    {
      f := pendingBuffer;
      pendingBuffer := None;
      if f.Some? {
        taken := taken + [|arrived| - 1];
      }
    }

    method ClearVideoTrack()
      requires Valid()
      modifies this`pendingBuffer, this`hasVideo
      ensures Valid() && pendingBuffer == None && !hasVideo
    {
      pendingBuffer, hasVideo := None, false;
    }
  }

  // ---- the render node ---------------------------------------------------------------------------------

  datatype Path = NoPath | OesPath | Nv12Path | I420Path

  /** Planes the path's shader samples. */
  predicate Samples(p: Path, k: Kind) {
    match p
    case Nv12Path => k == KindY || k == KindUV
    case I420Path => k != KindUV
    case _ => false
  }

  predicate OnPath(p: Path, f: Frame) {
    (p == Nv12Path ==> f.Nv12Frame?) && (p == I420Path ==> f.I420Frame?)
  }

  function PathOf(f: Frame): (p: Path)
    ensures OnPath(p, f)
  {
    if f.OesFrame? then OesPath else if f.Nv12Frame? then Nv12Path else I420Path
  }

  ghost predicate UploadsOk(us: seq<Upload>, p: Path, frames: seq<Frame>) {
    forall i :: 0 <= i < |us| ==> us[i].frame in frames && OnPath(p, us[i].frame)
  }

  ghost predicate AllIn(fs: seq<Frame>, gs: seq<Frame>) {
    forall f :: f in fs ==> f in gs
  }

  ghost predicate AllSound(fs: seq<Frame>) {
    forall f :: f in fs ==> SoundFrame(f)
  }

  /** Every size sent to the plane's texture is the plane's size in one of the frames. */
  ghost predicate SentFrom(sent: seq<Size>, frames: seq<Frame>, k: Kind) {
    forall i :: 0 <= i < |sent| ==> OneOf(sent[i], frames, k)
  }

  ghost predicate OneOf(z: Size, frames: seq<Frame>, k: Kind) {
    exists f :: f in frames && SizeOf(f, k) == z
  }

  /** One life of the GL resources: its context, whether it is the first one, and the frames uploaded in it. */
  datatype Life = Life(context: Context, first: bool, frames: seq<Frame>)

  /** Where the data flag comes from: an upload in this life on this path, or a release that did not reset it. */
  datatype Data = NoData | Carried | Fresh

  /**
   A plane is in step with the uploads. Fresh data means that its texture has been written; carried data that
   its texture is empty unless the uploads wrote it.
   */
  ghost predicate PlaneOk(up: PlaneUploader, k: Kind, us: seq<Upload>, p: Path, g: Life, d: Data)
    reads up
  {
    && up.Valid() && up.bpp == Bpp(k) && up.ids == HasPixelBuffers(g.context)
    && (g.first ==> up.born == NO_SIZE) && (g.context.NoContext? ==> up.sent == [])
    && SentFrom(up.sent, g.frames, k)
    && (Samples(p, k) ==> Tracks(up, ViewOf(us, k), k, SupportsUnpackRowLength(g.context)))
    && (Samples(p, k) && d.Fresh? ==> ViewOf(us, k).shown.Some?)
    && (d.Carried? && up.texture.Some? ==> Samples(p, k) && ViewOf(us, k).shown.Some?)
  }

  method ResetPlane(up: PlaneUploader, k: Kind, ghost us: seq<Upload>, ghost was: Path, ghost p: Path, ghost g: Life,
                    ghost d: Data)
    requires PlaneOk(up, k, us, was, g, d)
    modifies up
    ensures PlaneOk(up, k, [], p, g, NoData) && up.born == old(up.born) && up.sent == old(up.sent)
  {
    hide Landed, SentFrom;
    up.ResetPlaneUploadPbo();
    ViewIs([], k);
  }

  /** What the staging attempts amount to: without pixel buffers nothing is staged. */
  function Effective(o: Outcome, c: Context): Outcome {
    if HasPixelBuffers(c) then o else DIRECT
  }

  /** The last upload changed the plane's texture: it went up directly, or the one before it was staged. */
  predicate UploadedNow(us: seq<Upload>, k: Kind) {
    us != [] && (!Flag(us[|us| - 1].outcome, k) || (|us| >= 2 && Flag(us[|us| - 2].outcome, k)))
  }

  predicate AllUploadedNow(us: seq<Upload>, p: Path) {
    forall k: Kind :: Samples(p, k) ==> UploadedNow(us, k)
  }

  /** Some upload after the first `from` changed every sampled texture. */
  ghost predicate Ever(us: seq<Upload>, p: Path, from: nat) {
    exists n :: from < n <= |us| && AllUploadedNow(us[..n], p)
  }

  lemma EverStep(us: seq<Upload>, p: Path, from: nat, u: Upload)
    requires from <= |us|
    ensures Ever(us + [u], p, from) <==> Ever(us, p, from) || AllUploadedNow(us + [u], p)
  {
    hide AllUploadedNow;
    var vs := us + [u];
    forall n | 0 <= n <= |us| ensures vs[..n] == us[..n] {
    }
    assert vs[..|vs|] == vs;
    if Ever(us, p, from) {
      var n :| from < n <= |us| && AllUploadedNow(us[..n], p);
      assert AllUploadedNow(vs[..n], p);
    }
    if AllUploadedNow(vs, p) {
      assert AllUploadedNow(vs[..|vs|], p);
    }
    if Ever(vs, p, from) && !AllUploadedNow(vs, p) {
      var n :| from < n <= |vs| && AllUploadedNow(vs[..n], p);
      assert n <= |us| && AllUploadedNow(us[..n], p);
    }
  }

  /** Luma staging fails at every second upload and chroma staging at the others. */
  predicate Alternating(us: seq<Upload>) {
    forall i :: 0 <= i < |us| ==> us[i].outcome.y == (i % 2 == 0) && us[i].outcome.uv == (i % 2 == 1)
  }

  lemma AlternatingNeverAll(us: seq<Upload>, n: nat)
    requires Alternating(us) && n <= |us|
    ensures !AllUploadedNow(us[..n], Nv12Path)
  {
    if n % 2 == 1 {
      assert Samples(Nv12Path, KindY) && !UploadedNow(us[..n], KindY);
    } else {
      assert Samples(Nv12Path, KindUV) && !UploadedNow(us[..n], KindUV);
    }
  }

  lemma SentStep(sent: seq<Size>, frames: seq<Frame>, k: Kind, f: Frame, staged: Option<Frame>, direct: bool)
    requires SentFrom(sent, frames, k) && (staged.Some? ==> staged.value in frames)
    ensures SentFrom(sent + (if staged.Some? then [SizeOf(staged.value, k)] else [])
                          + (if direct then [SizeOf(f, k)] else []),
                     frames + [f], k)
  {
    var now := sent + (if staged.Some? then [SizeOf(staged.value, k)] else [])
                    + (if direct then [SizeOf(f, k)] else []);
    forall i | 0 <= i < |now| ensures OneOf(now[i], frames + [f], k) {
      if i < |sent| {
        assert OneOf(sent[i], frames, k);
        var g :| g in frames && SizeOf(g, k) == now[i];
        assert g in frames + [f];
      } else if i == |sent| && staged.Some? {
        assert staged.value in frames + [f];
      } else {
        assert f in frames + [f];
      }
    }
  }

  /** One sampled plane of the pending frame. */
  method UploadSampled(up: PlaneUploader, k: Kind, ghost us: seq<Upload>, p: Path, c: Context, ghost g: Life,
                       ghost d: Data, f: Frame, o: Outcome) returns (uploaded: bool)
    requires PlaneOk(up, k, us, p, g, d) && Samples(p, k) && SoundFrame(f) && g.context == c && c.Context?
    requires UploadsOk(us, p, g.frames)
    modifies up
    ensures PlaneOk(up, k, us + [Upload(f, Effective(o, c))], p, g.(frames := g.frames + [f]),
                    if uploaded then Fresh else d)
    ensures uploaded == UploadedNow(us + [Upload(f, Effective(o, c))], k)
    ensures up.born == old(up.born) && old(up.sent) <= up.sent
  {
    hide SoundFrame, After, ViewOf, ImageOf, Landed, SentFrom, PlaneOf;
    ViewIs(us, k);
    CapabilitiesIff(c);
    ghost var sent, staged := up.sent, ViewOf(us, k).staged;
    uploaded := UploadPlane(up, c, f, k, Flag(o, k), ViewOf(us, k));
    assert Flag(Effective(o, c), k) == (up.ids && Flag(o, k));
    ViewStep(us, k, f, Effective(o, c));
    SentStep(sent, g.frames, k, f, staged, !(up.ids && Flag(o, k)));
    assert !uploaded ==> up.sent == sent;
  }

  lemma NotSampled(up: PlaneUploader, k: Kind, us: seq<Upload>, p: Path, g: Life, d: Data, vs: seq<Upload>,
                   fs: seq<Frame>, e: Data)
    requires PlaneOk(up, k, us, p, g, d) && !Samples(p, k) && (e.Carried? ==> d.Carried?)
    ensures PlaneOk(up, k, vs, p, g.(frames := g.frames + fs), e)
  {
    hide Landed, Tracks, ViewOf, SizeOf;
    forall i | 0 <= i < |up.sent| ensures OneOf(up.sent[i], g.frames + fs, k) {
      assert OneOf(up.sent[i], g.frames, k);
      var f :| f in g.frames && SizeOf(f, k) == up.sent[i];
      assert f in g.frames + fs;
    }
  }

  /** What a draw must show: for each plane the shader samples, the frame the uploads left in its texture. */
  ghost function Expected(us: seq<Upload>, p: Path, oes: nat, rowLengths: bool): Drawing
    requires p == Nv12Path ==> ShownIndex(us, KindY) >= 0 && ShownIndex(us, KindUV) >= 0
    requires p == I420Path ==> ShownIndex(us, KindY) >= 0 && ShownIndex(us, KindU) >= 0 && ShownIndex(us, KindV) >= 0
  {
    match p
    case NoPath => NoDraw
    case OesPath => DrawOes(oes)
    case Nv12Path =>
      DrawNv12(Some(ImageOf(us[ShownIndex(us, KindY)].frame, KindY, rowLengths)),
               Some(ImageOf(us[ShownIndex(us, KindUV)].frame, KindUV, rowLengths)))
    case I420Path =>
      DrawI420(Some(ImageOf(us[ShownIndex(us, KindY)].frame, KindY, rowLengths)),
               Some(ImageOf(us[ShownIndex(us, KindU)].frame, KindU, rowLengths)),
               Some(ImageOf(us[ShownIndex(us, KindV)].frame, KindV, rowLengths)))
  }

  /** A drawing shows the bytes of one received frame and nothing else. */
  ghost predicate ShowsOne(d: Drawing, received: seq<Frame>, rowLengths: bool) {
    exists f :: f in received && Depicts(d, f, rowLengths)
  }

  /** The drawing mixes no frames when the last upload treated all planes alike. */
  lemma UniformShowsOne(us: seq<Upload>, p: Path, received: seq<Frame>, rowLengths: bool)
    requires UploadsOk(us, p, received) && (p == Nv12Path || p == I420Path)
    requires us != [] && Uniform(us[|us| - 1].outcome) && ShownIndex(us, KindY) >= 0
    ensures Expected(us, p, 0, rowLengths) == DrawingOf(us[ShownIndex(us, KindY)].frame, rowLengths)
    ensures AllSound(received) ==> ShowsOne(Expected(us, p, 0, rowLengths), received, rowLengths)
  {
    hide ImageOf, Depicts;
    var f := us[ShownIndex(us, KindY)].frame;
    assert f in received && OnPath(p, f);
    assert Expected(us, p, 0, rowLengths) == DrawingOf(f, rowLengths);
    if AllSound(received) {
      DrawingDepicts(f, rowLengths);
    }
  }

  method CreatePlane(up: PlaneUploader, ghost k: Kind, ghost p: Path, c: Context, ghost g: Life, ghost d: Data)
    requires PlaneOk(up, k, [], p, g, d) && g.context.NoContext? && g.frames == [] && !d.Fresh?
    modifies up
    ensures PlaneOk(up, k, [], p, g.(context := c), d)
    ensures up.texture == None && up.born == old(up.cache) && up.sent == []
  {
    hide SentFrom, After;
    CapabilitiesIff(c);
    up.CreateGl(SupportsPixelUnpackBuffer(c));
    ViewIs([], k);
    NothingSent(k);
  }

  method DestroyPlane(up: PlaneUploader, k: Kind, ghost us: seq<Upload>, ghost p: Path, c: Context, ghost g: Life,
                      ghost d: Data)
    requires PlaneOk(up, k, us, p, g, d) && g.context == c
    modifies up
    ensures PlaneOk(up, k, [], p, Life(NoContext, false, []), if d == NoData then NoData else Carried)
    ensures up.texture == None && up.born == up.cache == old(up.cache) && up.sent == []
  {
    hide Landed, SentFrom, After;
    up.DestroyGl(SupportsPixelUnpackBuffer(c));
    ViewIs([], k);
    NothingSent(k);
    NothingLanded(up.born);
  }

  lemma NothingSent(k: Kind)
    ensures SentFrom([], [], k)
  {
  }

  lemma NothingLanded(born: Size)
    ensures !Landed(born, [])
  {
  }

  /**
   What has happened to a node: the frames it took from the mailbox; the uploads since the last path switch or
   release, and how many of them were made before it last went blank; the frames uploaded in this GL lifetime,
   and whether it is the first; where the data flag comes from.
   */
  datatype Past = Past(
    received: seq<Frame>, uploads: seq<Upload>, blankAt: nat, frames: seq<Frame>, first: bool, data: Data)

  datatype NodeFlags = NodeFlags(
    held: Option<Frame>, pendingUpload: bool, hasData: bool, frameIsNv12: bool, frameIsOes: bool, lastPath: Path,
    initialized: bool, context: Context, oesLinked: bool, oesTexture: nat)

  predicate IsCpu(p: Path) { p == Nv12Path || p == I420Path }

  /**
   There is fresh data on a CPU path exactly if some upload since the node was blank changed every sampled
   texture.
   */
  ghost predicate DataOk(q: Past, p: Path) {
    && (q.first ==> !q.data.Carried?) && q.blankAt <= |q.uploads|
    && (IsCpu(p) ==> (q.data.Fresh? <==> Ever(q.uploads, p, q.blankAt)))
  }

  ghost predicate FramesOk(q: Past, p: Path) {
    UploadsOk(q.uploads, p, q.frames) && AllIn(q.frames, q.received) && AllSound(q.received)
  }

  /** The shader the draw will choose is the one for the path the data came by. */
  predicate GateOk(s: NodeFlags, q: Past) {
    && (s.hasData <==> q.data != NoData)
    && (s.initialized <==> s.context.Context?)
    && (!s.initialized ==> q.uploads == [] && q.frames == [] && !q.data.Fresh? && (q.first ==> s.lastPath == NoPath))
    && (s.hasData ==> s.lastPath != NoPath)
    && (s.frameIsOes ==> s.lastPath == OesPath)
    && (q.data.Fresh? && s.lastPath == OesPath ==> s.frameIsOes && s.oesLinked && OesFrame(s.oesTexture) in q.received)
    && (q.data.Carried? && s.lastPath == OesPath ==> s.oesTexture == 0)
    && (s.hasData && s.lastPath == Nv12Path ==> s.frameIsNv12)
    && (s.hasData && s.lastPath == I420Path ==> !s.frameIsNv12)
    && (s.pendingUpload ==> s.held.Some?) && (s.held.Some? ==> s.held.value in q.received)
  }

  ghost predicate FlagsOk(s: NodeFlags, q: Past) {
    FramesOk(q, s.lastPath) && GateOk(s, q) && DataOk(q, s.lastPath)
  }

  function Switched(q: Past, was: Path, p: Path): Past {
    if was == p then q else q.(uploads := [], blankAt := 0, data := NoData)
  }

  lemma StepReceive(s: NodeFlags, q: Past, f: Frame)
    requires FlagsOk(s, q) && SoundFrame(f)
    ensures FlagsOk(s.(held := Some(f), pendingUpload := true), q.(received := q.received + [f]))
  {
    hide Ever;
  }

  lemma StepTaken(s: NodeFlags, q: Past)
    requires FlagsOk(s, q)
    ensures FlagsOk(s.(held := None, pendingUpload := false), q)
    ensures s.pendingUpload ==> s.held.Some? && s.held.value in q.received && SoundFrame(s.held.value)
  {
  }

  lemma StepBlank(s: NodeFlags, q: Past)
    requires FlagsOk(s, q)
    ensures FlagsOk(s.(held := None, pendingUpload := false, hasData := false),
                    q.(data := NoData, blankAt := |q.uploads|))
  {
  }

  lemma StepOes(s: NodeFlags, q: Past, texture: nat)
    requires FlagsOk(s, q) && s.initialized && OesFrame(texture) in q.received
    ensures FlagsOk(s.(lastPath := OesPath, frameIsOes := s.oesLinked, hasData := s.oesLinked,
                       oesTexture := if s.oesLinked then texture else s.oesTexture),
                    Switched(q, s.lastPath, OesPath).(data := if s.oesLinked then Fresh else NoData))
  {
  }

  lemma StepSwitch(s: NodeFlags, q: Past, p: Path)
    requires FlagsOk(s, q) && IsCpu(p)
    ensures FramesOk(Switched(q, s.lastPath, p), p) && DataOk(Switched(q, s.lastPath, p), p)
    ensures Switched(q, s.lastPath, p).data != NoData <==> s.hasData && s.lastPath == p
  {
  }

  function Made(q: Past, u: Upload, all: bool): Past {
    q.(uploads := q.uploads + [u], frames := q.frames + [u.frame], data := if all then Fresh else q.data)
  }

  lemma StepCpu(s: NodeFlags, q: Past, u: Upload, all: bool, s': NodeFlags)
    requires FlagsOk(s, q) && s.initialized && u.frame in q.received && !u.frame.OesFrame?
    requires all == AllUploadedNow(Switched(q, s.lastPath, PathOf(u.frame)).uploads + [u], PathOf(u.frame))
    requires s'.hasData == ((s.hasData && s.lastPath == PathOf(u.frame)) || all)
    requires s' == s.(lastPath := PathOf(u.frame), frameIsOes := false, hasData := s'.hasData,
                      frameIsNv12 := u.frame.Nv12Frame? && s'.hasData)
    ensures FlagsOk(s', Made(Switched(q, s.lastPath, PathOf(u.frame)), u, all))
  {
    hide Ever, AllUploadedNow;
    var p := PathOf(u.frame);
    StepSwitch(s, q, p);
    var r := Switched(q, s.lastPath, p);
    EverStep(r.uploads, p, r.blankAt, u);
  }

  lemma SwitchedFrames(s: NodeFlags, q: Past, f: Frame)
    requires FlagsOk(s, q) && !f.OesFrame?
    ensures UploadsOk(Switched(q, s.lastPath, PathOf(f)).uploads, PathOf(f), Switched(q, s.lastPath, PathOf(f)).frames)
    ensures s.initialized ==> s.context.Context?
  {
    hide Ever;
    StepSwitch(s, q, PathOf(f));
  }

  lemma MadeUploads(q: Past, u: Upload, all: bool)
    ensures Made(q, u, all).uploads == q.uploads + [u]
  {
  }

  lemma StepInit(s: NodeFlags, q: Past, c: Context, links: bool)
    requires FlagsOk(s, q) && !s.initialized && c.Context?
    ensures FlagsOk(s.(initialized := true, context := c, oesLinked := links), q)
    ensures q.uploads == [] && q.frames == [] && !q.data.Fresh? && s.context.NoContext?
  {
  }

  function Released(q: Past): Past {
    q.(uploads := [], blankAt := 0, frames := [], first := false, data := if q.data == NoData then NoData else Carried)
  }

  lemma StepRelease(s: NodeFlags, q: Past)
    requires FlagsOk(s, q)
    ensures FlagsOk(s.(initialized := false, context := NoContext, oesLinked := false, oesTexture := 0), Released(q))
  {
  }

  lemma StartFlags()
    ensures FlagsOk(NodeFlags(None, false, false, false, false, NoPath, false, NoContext, false, 0),
                    Past([], [], 0, [], true, NoData))
  {
    hide Ever;
  }

  lemma StartPlane(up: PlaneUploader, k: Kind)
    requires up.Valid() && up.bpp == Bpp(k) && !up.ids && !up.ready && up.born == NO_SIZE && up.sent == []
    ensures PlaneOk(up, k, [], NoPath, Life(NoContext, true, []), NoData)
  {
    hide Landed;
  }

  class RenderNode {
    var held: Option<Frame>
    var pendingUpload: bool
    var hasData: bool
    var frameIsNv12: bool
    var frameIsOes: bool
    var lastPath: Path
    var initialized: bool
    var context: Context
    var oesLinked: bool
    var oesTexture: nat
    const y: PlaneUploader
    const u: PlaneUploader
    const v: PlaneUploader
    const uv: PlaneUploader
    ghost var past: Past

    ghost function Up(k: Kind): PlaneUploader {
      match k case KindY => y case KindU => u case KindV => v case KindUV => uv
    }

    ghost function Flags(): NodeFlags
      reads this
    {
      NodeFlags(held, pendingUpload, hasData, frameIsNv12, frameIsOes, lastPath, initialized, context, oesLinked,
                oesTexture)
    }

    /** Still the same GL lifetime: no texture began anew, and what was sent stays sent. */
    twostate predicate SameLife()
      reads y, u, v, uv
    {
      && y.born == old(y.born) && u.born == old(u.born) && v.born == old(v.born) && uv.born == old(uv.born)
      && old(y.sent) <= y.sent && old(u.sent) <= u.sent && old(v.sent) <= v.sent && old(uv.sent) <= uv.sent
    }

    ghost predicate Planes(q: Past, p: Path, c: Context)
      reads y, u, v, uv
    {
      && PlaneOk(y, KindY, q.uploads, p, Life(c, q.first, q.frames), q.data)
      && PlaneOk(u, KindU, q.uploads, p, Life(c, q.first, q.frames), q.data)
      && PlaneOk(v, KindV, q.uploads, p, Life(c, q.first, q.frames), q.data)
      && PlaneOk(uv, KindUV, q.uploads, p, Life(c, q.first, q.frames), q.data)
      && y != u && y != v && y != uv && u != v && u != uv && v != uv
    }

    /** What holds in every reachable state, over any number of GL lifetimes. */
    ghost predicate Valid()
      reads this, y, u, v, uv
    {
      FlagsOk(Flags(), past) && Planes(past, lastPath, context)
    }

    constructor ()
      ensures Valid() && !hasData && !initialized && past == Past([], [], 0, [], true, NoData) && !pendingUpload
      ensures fresh(y) && fresh(u) && fresh(v) && fresh(uv)
    {
      hide FlagsOk, PlaneOk;
      held, pendingUpload, hasData, frameIsNv12, frameIsOes, lastPath := None, false, false, false, false, NoPath;
      initialized, context, oesLinked, oesTexture := false, NoContext, false, 0;
      past := Past([], [], 0, [], true, NoData);
      y := new PlaneUploader(1, false);
      u := new PlaneUploader(1, false);
      v := new PlaneUploader(1, false);
      uv := new PlaneUploader(2, false);
      new;
      StartFlags();
      StartPlane(y, KindY);
      StartPlane(u, KindU);
      StartPlane(v, KindV);
      StartPlane(uv, KindUV);
    }

    lemma BlankPlanes(q: Past, p: Path, c: Context, n: nat)
      requires Planes(q, p, c)
      ensures Planes(q.(data := NoData, blankAt := n), p, c)
    {
      hide Tracks, SentFrom, ViewOf, PlaneUploader.Valid;
    }

    /** Takes the newest frame if there is one; without video the node goes blank. */
    method Sync(item: Mailbox)
      requires Valid() && item.Valid() && (item.pendingBuffer.Some? ==> SoundFrame(item.pendingBuffer.value))
      modifies this`held, this`pendingUpload, this`hasData, this`past, item`pendingBuffer, item`taken
      ensures Valid() && item.Valid() && item.pendingBuffer == None
      ensures item.taken == old(item.taken) + if old(item.pendingBuffer).Some? then [|item.arrived| - 1] else []
      ensures old(item.pendingBuffer).Some? ==>
                && held == old(item.pendingBuffer) && pendingUpload && hasData == old(hasData)
                && past == old(past).(received := old(past).received + [old(item.pendingBuffer).value])
      ensures old(item.pendingBuffer).None? && item.hasVideo ==> unchanged(this)
      ensures old(item.pendingBuffer).None? && !item.hasVideo ==>
                && !hasData && held == None && !pendingUpload
                && past == old(past).(data := NoData, blankAt := |old(past).uploads|)
    {
      hide SoundFrame, FlagsOk, Planes, InOrder;
      var f := item.TakeFrame();
      if f.Some? {
        StepReceive(Flags(), past, f.value);
        SamePlanes(past, lastPath, context, past.received + [f.value]);
        held, pendingUpload := f, true;
        past := past.(received := past.received + [f.value]);
      } else if !item.hasVideo {
        StepBlank(Flags(), past);
        BlankPlanes(past, lastPath, context, |past.uploads|);
        hasData, held, pendingUpload := false, None, false;
        past := past.(data := NoData, blankAt := |past.uploads|);
      }
    }

    lemma SamePlanes(q: Past, p: Path, c: Context, received: seq<Frame>)
      requires Planes(q, p, c)
      ensures Planes(q.(received := received), p, c)
    {
      hide PlaneOk;
    }

    /** Drops what is staged when the path changes; uploads are counted from there. */
    method SwitchPath(p: Path)
      requires Planes(past, lastPath, context)
      modifies this`lastPath, this`past, y, u, v, uv
      ensures lastPath == p && past == Switched(old(past), old(lastPath), p) && Planes(past, p, context) && SameLife()
    {
      hide PlaneOk;
      if lastPath != p {
        ghost var g := Life(context, past.first, past.frames);
        ResetPlane(y, KindY, past.uploads, lastPath, p, g, past.data);
        ResetPlane(u, KindU, past.uploads, lastPath, p, g, past.data);
        ResetPlane(v, KindV, past.uploads, lastPath, p, g, past.data);
        ResetPlane(uv, KindUV, past.uploads, lastPath, p, g, past.data);
        past := Switched(past, lastPath, p);
        lastPath := p;
      }
    }

    lemma PlanesIdle(q: Past, c: Context, e: Data)
      requires Planes(q, OesPath, c) && !e.Carried?
      ensures Planes(q.(data := e), OesPath, c)
    {
      hide Tracks, SentFrom, ViewOf, PlaneUploader.Valid;
    }

    method UploadOes(texture: nat)
      requires Valid() && initialized && OesFrame(texture) in past.received
      modifies this`lastPath, this`hasData, this`frameIsOes, this`oesTexture, this`past, y, u, v, uv
      ensures Valid() && lastPath == OesPath && hasData == oesLinked && SameLife()
      ensures hasData ==> oesTexture == texture
      ensures past == Switched(old(past), old(lastPath), OesPath).(data := if oesLinked then Fresh else NoData)
    {
      hide Planes, FlagsOk, Switched;
      StepOes(Flags(), past, texture);
      SwitchPath(OesPath);
      frameIsOes, hasData := oesLinked, oesLinked;
      PlanesIdle(past, context, if oesLinked then Fresh else NoData);
      past := past.(data := if oesLinked then Fresh else NoData);
      if oesLinked {
        oesTexture := texture;
      }
    }

    method UploadNv12Planes(f: Frame, o: Outcome, ghost q: Past, c: Context) returns (uploaded: bool)
      requires Planes(q, Nv12Path, c) && SoundFrame(f) && c.Context? && UploadsOk(q.uploads, Nv12Path, q.frames)
      modifies y, uv
      ensures uploaded == AllUploadedNow(q.uploads + [Upload(f, Effective(o, c))], Nv12Path) && SameLife()
      ensures Planes(Made(q, Upload(f, Effective(o, c)), uploaded), Nv12Path, c)
    {
      hide PlaneOk, SoundFrame, UploadedNow, UploadsOk;
      ghost var g := Life(c, q.first, q.frames);
      var yUploaded := UploadSampled(y, KindY, q.uploads, Nv12Path, c, g, q.data, f, o);
      var uvUploaded := UploadSampled(uv, KindUV, q.uploads, Nv12Path, c, g, q.data, f, o);
      uploaded := yUploaded && uvUploaded;
      ghost var r := Made(q, Upload(f, Effective(o, c)), uploaded);
      ghost var g' := g.(frames := g.frames + [f]);
      Weaken(y, KindY, r.uploads, Nv12Path, g', if yUploaded then Fresh else q.data, r.data);
      Weaken(uv, KindUV, r.uploads, Nv12Path, g', if uvUploaded then Fresh else q.data, r.data);
      NotSampled(u, KindU, q.uploads, Nv12Path, g, q.data, r.uploads, [f], r.data);
      NotSampled(v, KindV, q.uploads, Nv12Path, g, q.data, r.uploads, [f], r.data);
    }

    method UploadI420Planes(f: Frame, o: Outcome, ghost q: Past, c: Context) returns (uploaded: bool)
      requires Planes(q, I420Path, c) && SoundFrame(f) && c.Context? && UploadsOk(q.uploads, I420Path, q.frames)
      modifies y, u, v
      ensures uploaded == AllUploadedNow(q.uploads + [Upload(f, Effective(o, c))], I420Path) && SameLife()
      ensures Planes(Made(q, Upload(f, Effective(o, c)), uploaded), I420Path, c)
    {
      hide PlaneOk, SoundFrame, UploadedNow, UploadsOk;
      ghost var g := Life(c, q.first, q.frames);
      var yUploaded := UploadSampled(y, KindY, q.uploads, I420Path, c, g, q.data, f, o);
      var uUploaded := UploadSampled(u, KindU, q.uploads, I420Path, c, g, q.data, f, o);
      var vUploaded := UploadSampled(v, KindV, q.uploads, I420Path, c, g, q.data, f, o);
      uploaded := yUploaded && uUploaded && vUploaded;
      ghost var r := Made(q, Upload(f, Effective(o, c)), uploaded);
      ghost var g' := g.(frames := g.frames + [f]);
      Weaken(y, KindY, r.uploads, I420Path, g', if yUploaded then Fresh else q.data, r.data);
      Weaken(u, KindU, r.uploads, I420Path, g', if uUploaded then Fresh else q.data, r.data);
      Weaken(v, KindV, r.uploads, I420Path, g', if vUploaded then Fresh else q.data, r.data);
      NotSampled(uv, KindUV, q.uploads, I420Path, g, q.data, r.uploads, [f], r.data);
    }

    method UploadPlanes(f: Frame, o: Outcome, ghost q: Past, c: Context) returns (uploaded: bool)
      requires Planes(q, PathOf(f), c) && SoundFrame(f) && c.Context? && !f.OesFrame?
      requires UploadsOk(q.uploads, PathOf(f), q.frames)
      modifies y, u, v, uv
      ensures uploaded == AllUploadedNow(q.uploads + [Upload(f, Effective(o, c))], PathOf(f)) && SameLife()
      ensures Planes(Made(q, Upload(f, Effective(o, c)), uploaded), PathOf(f), c)
    {
      hide Planes, SoundFrame, AllUploadedNow, UploadsOk, Made;
      if f.Nv12Frame? {
        uploaded := UploadNv12Planes(f, o, q, c);
      } else {
        uploaded := UploadI420Planes(f, o, q, c);
      }
    }

    /** The NV12 and I420 branches: upload each plane, and note whether there is data to draw. */
    method UploadCpu(f: Frame, o: Outcome)
      requires Valid() && initialized && f in past.received && !f.OesFrame? && SoundFrame(f)
      modifies this`lastPath, this`hasData, this`frameIsOes, this`frameIsNv12, this`past, y, u, v, uv
      ensures Valid() && lastPath == PathOf(f) && SameLife()
      ensures past == Made(Switched(old(past), old(lastPath), lastPath), Upload(f, Effective(o, context)),
                           AllUploadedNow(past.uploads, lastPath))
      ensures hasData == ((old(hasData) && old(lastPath) == lastPath) || AllUploadedNow(past.uploads, lastPath))
      ensures hasData ==> forall k: Kind :: Samples(lastPath, k) ==> Shows(k)
    {
      hide Planes, FlagsOk, SoundFrame, Effective, AllUploadedNow, Switched, Made, PathOf, SameLife, Shows;
      ghost var s, q := Flags(), past;
      var uploaded := SendPlanes(f, o);
      past := Made(past, Upload(f, Effective(o, context)), uploaded);
      hasData := hasData || uploaded;
      frameIsNv12 := f.Nv12Frame? && hasData;
      CpuDone(s, q, Upload(f, Effective(o, context)), uploaded);
      AllShow();
    }

    /** Switches to the frame's path and sends its planes; the history is brought up to date by the caller. */
    method SendPlanes(f: Frame, o: Outcome) returns (uploaded: bool)
      requires Valid() && initialized && !f.OesFrame? && SoundFrame(f)
      modifies this`lastPath, this`hasData, this`frameIsOes, this`frameIsNv12, this`past, y, u, v, uv
      ensures lastPath == PathOf(f) && !frameIsOes && !frameIsNv12 && SameLife()
      ensures hasData == (old(hasData) && old(lastPath) == PathOf(f))
      ensures past == Switched(old(past), old(lastPath), PathOf(f))
      ensures uploaded == AllUploadedNow(past.uploads + [Upload(f, Effective(o, context))], PathOf(f))
      ensures Planes(Made(past, Upload(f, Effective(o, context)), uploaded), PathOf(f), context)
    {
      hide Planes, FlagsOk, SoundFrame, Effective, AllUploadedNow, UploadsOk, Switched, Made, PathOf, OnPath;
      SwitchedFrames(Flags(), past, f);
      BeginCpu(PathOf(f));
      uploaded := UploadPlanes(f, o, past, context);
    }

    /** The books after such an upload: what the flags and the history have become. */
    lemma CpuDone(s: NodeFlags, q: Past, made: Upload, all: bool)
      requires FlagsOk(s, q) && s.initialized && made.frame in q.received && !made.frame.OesFrame?
      requires all == AllUploadedNow(Switched(q, s.lastPath, PathOf(made.frame)).uploads + [made], PathOf(made.frame))
      requires hasData == ((s.hasData && s.lastPath == PathOf(made.frame)) || all)
      requires Flags() == s.(lastPath := PathOf(made.frame), frameIsOes := false, hasData := hasData,
                             frameIsNv12 := made.frame.Nv12Frame? && hasData)
      requires past == Made(Switched(q, s.lastPath, lastPath), made, all)
      ensures FlagsOk(Flags(), past) && all == AllUploadedNow(past.uploads, lastPath)
    {
      hide FlagsOk, AllUploadedNow, Switched, Made, PathOf, OnPath;
      StepCpu(s, q, made, all, Flags());
      MadeUploads(Switched(q, s.lastPath, lastPath), made, all);
    }

    /** Blanks the node if the frame comes by another path than the last one. */
    method BeginCpu(p: Path)
      requires Planes(past, lastPath, context)
      modifies this`lastPath, this`hasData, this`frameIsOes, this`frameIsNv12, this`past, y, u, v, uv
      ensures lastPath == p && !frameIsOes && !frameIsNv12 && hasData == (old(hasData) && old(lastPath) == p)
      ensures past == Switched(old(past), old(lastPath), p) && Planes(past, p, context) && SameLife()
    {
      hide Planes, Switched;
      frameIsOes, frameIsNv12 := false, false;
      var kept := lastPath == p;
      SwitchPath(p);
      hasData := hasData && kept;
    }

    /** Sends the held frame up by its own path. */
    method UploadPendingFrame(o: Outcome)
      requires Valid() && initialized && pendingUpload
      modifies this`held, this`pendingUpload, this`lastPath, this`hasData, this`frameIsOes, this`frameIsNv12,
               this`oesTexture, this`past, y, u, v, uv
      ensures old(held).Some?
      ensures Valid() && !pendingUpload && held == None && lastPath == PathOf(old(held).value) && SameLife()
      ensures past.received == old(past).received && past.first == old(past).first
      ensures lastPath == OesPath ==>
                && hasData == oesLinked && (hasData ==> old(held).value == OesFrame(oesTexture))
                && past == Switched(old(past), old(lastPath), OesPath).(data := if oesLinked then Fresh else NoData)
      ensures lastPath != OesPath ==>
                && hasData == ((old(hasData) && old(lastPath) == lastPath) || AllUploadedNow(past.uploads, lastPath))
                && past == Made(Switched(old(past), old(lastPath), lastPath),
                                Upload(old(held).value, Effective(o, context)), AllUploadedNow(past.uploads, lastPath))
    {
      hide Planes, FlagsOk, SoundFrame, Effective, AllUploadedNow;
      StepTaken(Flags(), past);
      var f := held.value;
      pendingUpload := false;
      held := None;
      if f.OesFrame? {
        UploadOes(f.texture);
      } else {
        UploadCpu(f, o);
      }
    }

    /** The draw gate and the choice of shader. */
    method Draw() returns (d: Drawing)
      ensures d ==
              if !hasData then NoDraw
              else if frameIsOes && oesLinked then DrawOes(oesTexture)
              else if frameIsNv12 then DrawNv12(y.texture, uv.texture)
              else DrawI420(y.texture, u.texture, v.texture)
    {
      if !hasData {
        d := NoDraw;
      } else if frameIsOes && oesLinked {
        d := DrawOes(oesTexture);
      } else if frameIsNv12 {
        d := DrawNv12(y.texture, uv.texture);
      } else {
        d := DrawI420(y.texture, u.texture, v.texture);
      }
    }

    /** First use of a GL context, or the first after a release: capabilities, textures, pixel buffers, shaders. */
    method EnsureInitialized(c: Context, oesLinks: bool) returns (ok: bool)
      requires Valid()
      modifies this`initialized, this`context, this`oesLinked, y, u, v, uv
      ensures Valid() && ok == initialized == (old(initialized) || c.Context?)
      ensures old(initialized) || c.NoContext? ==> unchanged(this, y, u, v, uv)
      ensures !old(initialized) && c.Context? ==> context == c && oesLinked == oesLinks
      ensures !old(initialized) && c.Context? ==>
                forall k: Kind :: Up(k).texture == None && Up(k).born == old(Up(k).cache) && Up(k).sent == []
    {
      hide FlagsOk, Planes;
      if initialized {
        return true;
      }
      if c.NoContext? {
        return false;
      }
      StepInit(Flags(), past, c, oesLinks);
      CreatePlanes(c);
      context := c;
      oesLinked := oesLinks;
      initialized := true;
      return true;
    }

    method CreatePlanes(c: Context)
      requires Planes(past, lastPath, context) && context.NoContext? && past.uploads == [] && past.frames == []
      requires !past.data.Fresh?
      modifies y, u, v, uv
      ensures Planes(past, lastPath, c)
      ensures forall k: Kind :: Up(k).texture == None && Up(k).born == old(Up(k).cache) && Up(k).sent == []
    {
      hide PlaneOk;
      ghost var g := Life(context, past.first, past.frames);
      CreatePlane(y, KindY, lastPath, c, g, past.data);
      CreatePlane(u, KindU, lastPath, c, g, past.data);
      CreatePlane(v, KindV, lastPath, c, g, past.data);
      CreatePlane(uv, KindUV, lastPath, c, g, past.data);
    }

    /**
     A sampled texture holds an image exactly if one could land in this lifetime; it is what the uploads left
     there, the bytes of that plane of that frame.
     */
    ghost predicate Shows(k: Kind)
      reads this, y, u, v, uv
    {
      && (Up(k).texture.Some? <==> Landed(Up(k).born, Up(k).sent))
      && (Up(k).texture.Some? ==>
            && ShownIndex(past.uploads, k) >= 0
            && var f := past.uploads[ShownIndex(past.uploads, k)].frame;
               && Up(k).texture == Some(ImageOf(f, k, HasRowLength(context)))
               && Holds(Up(k).texture.value, f, k, HasRowLength(context)))
    }

    lemma UploadIsSound(i: nat)
      requires Valid() && i < |past.uploads|
      ensures SoundFrame(past.uploads[i].frame)
    {
      hide Planes, SoundFrame, GateOk, DataOk;
      assert past.uploads[i].frame in past.frames;
    }

    lemma SampledShows(k: Kind)
      requires Valid() && hasData && Samples(lastPath, k)
      ensures Shows(k)
      ensures past.first ==> Up(k).texture.Some?
    {
      hide ImageOf, ViewOf, FramesOk, SentFrom, Ever, Landed, Holds;
      CapabilitiesIff(context);
      ViewIs(past.uploads, k);
      if ShownIndex(past.uploads, k) >= 0 {
        UploadIsSound(ShownIndex(past.uploads, k));
        ImageHolds(past.uploads[ShownIndex(past.uploads, k)].frame, k, HasRowLength(context));
      }
      assert PlaneOk(Up(k), k, past.uploads, lastPath, Life(context, past.first, past.frames), past.data);
      if past.first {
        FirstLands(Up(k).sent);
      }
    }

    lemma AllShow()
      requires Valid()
      ensures hasData ==> forall k: Kind :: Samples(lastPath, k) ==> Shows(k)
    {
      hide Valid, Shows;
      forall k: Kind | hasData && Samples(lastPath, k) ensures Shows(k) {
        SampledShows(k);
      }
    }

    /**
     What a draw shows, over any number of GL lifetimes. On a CPU path each sampled texture is empty unless an
     upload of this lifetime could land, and otherwise holds what the uploads since the path switch left there;
     in the first lifetime none is empty. Carried data shows external texture 0 or empty textures.
     */
    ghost predicate Faithful(d: Drawing)
      reads this, y, u, v, uv
    {
      && (d.NoDraw? <==> !hasData || !initialized)
      && (initialized && hasData ==> DrawnAsIs(d))
    }

    ghost predicate DrawnAsIs(d: Drawing)
      reads this, y, u, v, uv
    {
      && (past.data.Fresh? && lastPath == OesPath ==> d == DrawOes(oesTexture))
      && (past.data.Carried? && lastPath == OesPath ==>
            && (d.DrawOes? ==> d.texture == 0)
            && (d.DrawNv12? ==> d.y == None && d.uv == None)
            && (d.DrawI420? ==> d.y == None && d.u == None && d.v == None))
      && (lastPath == Nv12Path ==> d == DrawNv12(y.texture, uv.texture))
      && (lastPath == I420Path ==> d == DrawI420(y.texture, u.texture, v.texture))
      && (forall k: Kind :: Samples(lastPath, k) ==> Shows(k) && (past.first ==> Up(k).texture.Some?))
    }

    lemma CarriedIsEmpty()
      requires Valid() && past.data.Carried? && lastPath == OesPath
      ensures y.texture == None && u.texture == None && v.texture == None && uv.texture == None
    {
      hide Tracks, SentFrom, ViewOf, PlaneUploader.Valid, FlagsOk;
    }

    method Render(c: Context, oesLinks: bool, o: Outcome) returns (d: Drawing)
      requires Valid()
      modifies this, y, u, v, uv
      ensures Valid() && past.received == old(past).received && past.first == old(past).first && Faithful(d)
      ensures old(initialized) ==> initialized && context == old(context)
      ensures old(initialized) ==> forall k: Kind :: old(Up(k).texture.Some?) ==> Up(k).texture.Some?
      ensures initialized ==> !pendingUpload
      ensures var us := past.uploads;
              us == [] || us == old(past).uploads || us[|us| - 1].outcome == Effective(o, context)
    {
      hide Planes, FlagsOk, AllUploadedNow, Effective, Faithful;
      var ok := EnsureInitialized(c, oesLinks);
      if !ok {
        NoContextNoDraw();
        return NoDraw;
      }
      if pendingUpload {
        UploadPendingFrame(o);
      }
      d := Draw();
      DrawIsFaithful(d);
      if old(initialized) {
        StaysFilled();
      }
    }

    /** Within a lifetime a texture that holds an image keeps holding one. */
    twostate lemma StaysFilled()
      requires old(Valid()) && Valid() && SameLife()
      ensures forall k: Kind :: old(Up(k).texture.Some?) ==> Up(k).texture.Some?
    {
      hide Planes, FlagsOk, Landed;
      forall k: Kind | old(Up(k).texture.Some?) ensures Up(k).texture.Some? {
        FilledBefore(k);
        TextureIff(k);
        LandedStays(old(Up(k).born), old(Up(k).sent), Up(k).sent);
      }
    }

    twostate lemma FilledBefore(k: Kind)
      requires old(Valid()) && old(Up(k).texture.Some?)
      ensures Landed(old(Up(k).born), old(Up(k).sent))
    {
      hide Tracks, ViewOf, FlagsOk, SentFrom, Landed;
      assert old(PlaneOk(Up(k), k, past.uploads, lastPath, Life(context, past.first, past.frames), past.data));
    }

    lemma NoContextNoDraw()
      requires Valid() && !initialized
      ensures Faithful(NoDraw)
    {
    }

    lemma DrawIsFaithful(d: Drawing)
      requires Valid() && initialized
      requires d == if !hasData then NoDraw
                    else if frameIsOes && oesLinked then DrawOes(oesTexture)
                    else if frameIsNv12 then DrawNv12(y.texture, uv.texture)
                    else DrawI420(y.texture, u.texture, v.texture)
      ensures Faithful(d)
    {
      hide Planes, FramesOk, DataOk, Shows;
      if past.data.Carried? && lastPath == OesPath {
        CarriedIsEmpty();
      }
      forall k: Kind | hasData && Samples(lastPath, k) ensures Shows(k) && (past.first ==> Up(k).texture.Some?) {
        SampledShows(k);
      }
    }

    /** Once every sampled texture has an image, the drawing is what the uploads since the path switch left there. */
    lemma WholeDrawing(d: Drawing)
      requires Valid() && Faithful(d) && hasData && initialized && IsCpu(lastPath)
      requires forall k: Kind :: Samples(lastPath, k) ==> Up(k).texture.Some?
      ensures forall k: Kind :: Samples(lastPath, k) ==> ShownIndex(past.uploads, k) >= 0
      ensures d == Expected(past.uploads, lastPath, oesTexture, HasRowLength(context))
    {
      hide Planes, FlagsOk, ImageOf, ShownIndex;
      forall k: Kind | Samples(lastPath, k) ensures Shows(k) && ShownIndex(past.uploads, k) >= 0 {
      }
      assert Samples(lastPath, KindY);
      assert Samples(lastPath, KindUV) || (Samples(lastPath, KindU) && Samples(lastPath, KindV));
    }

    /**
     In the first lifetime, if the last upload treated all planes alike, the drawing shows a single received
     frame.
     */
    lemma FaithfulShowsOne(d: Drawing)
      requires Valid() && Faithful(d) && hasData && past.first
      requires past.uploads != [] ==> Uniform(past.uploads[|past.uploads| - 1].outcome)
      ensures ShowsOne(d, past.received, HasRowLength(context))
    {
      hide Planes, Ever, HasRowLength;
      if lastPath == OesPath {
        assert Depicts(d, OesFrame(oesTexture), HasRowLength(context));
      } else {
        WholeDrawing(d);
        assert Samples(lastPath, KindY) && ShownIndex(past.uploads, KindY) >= 0;
        UniformShowsOne(past.uploads, lastPath, past.received, HasRowLength(context));
      }
    }

    /** The scene graph drops the GL resources. Neither the data flag nor the cached sizes are reset. */
    method ReleaseResources(c: Context)
      requires Valid()
      modifies this`initialized, this`context, this`oesLinked, this`oesTexture, this`past, y, u, v, uv
      ensures Valid()
      ensures !old(initialized) || c.NoContext? ==> unchanged(this, y, u, v, uv)
      ensures old(initialized) && c.Context? ==>
                !initialized && !oesLinked && oesTexture == 0 && past == Released(old(past))
      ensures old(initialized) && c.Context? ==>
                forall k: Kind ::
                  Up(k).texture == None && Up(k).born == Up(k).cache == old(Up(k).cache) && Up(k).sent == []
    {
      hide PlaneOk, FlagsOk;
      if !initialized || c.NoContext? {
        return;
      }
      StepRelease(Flags(), past);
      ghost var g := Life(context, past.first, past.frames);
      DestroyPlane(y, KindY, past.uploads, lastPath, context, g, past.data);
      DestroyPlane(u, KindU, past.uploads, lastPath, context, g, past.data);
      DestroyPlane(v, KindV, past.uploads, lastPath, context, g, past.data);
      DestroyPlane(uv, KindUV, past.uploads, lastPath, context, g, past.data);
      oesTexture, oesLinked := 0, false;
      initialized, context := false, NoContext;
      past := Released(past);
    }

    lemma TextureIff(k: Kind)
      requires Valid()
      ensures Up(k).texture.Some? <==> Landed(Up(k).born, Up(k).sent)
    {
      hide Tracks, ViewOf, FlagsOk, SentFrom, Landed;
      assert PlaneOk(Up(k), k, past.uploads, lastPath, Life(context, past.first, past.frames), past.data);
    }

    /**
     Frames whose plane has the size cached when the resources were released never fill that plane's texture,
     however many there are and whatever happens in between.
     */
    lemma SameSizeStaysEmpty(k: Kind)
      requires Valid() && Up(k).born != NO_SIZE
      requires forall f :: f in past.frames ==> SizeOf(f, k) == Up(k).born
      ensures Up(k).texture == None
    {
      hide Tracks, ViewOf, FlagsOk, SizeOf;
      assert PlaneOk(Up(k), k, past.uploads, lastPath, Life(context, past.first, past.frames), past.data);
      forall i | 0 <= i < |Up(k).sent| ensures Up(k).sent[i] == Up(k).born {
        assert OneOf(Up(k).sent[i], past.frames, k);
      }
    }

    /** The first frame of another size that reaches the plane's texture fills it: its counterpart. */
    lemma OtherSizeFills(k: Kind)
      requires Valid() && Samples(lastPath, k) && ShownIndex(past.uploads, k) >= 0
      requires SizeOf(past.uploads[ShownIndex(past.uploads, k)].frame, k) != Up(k).born
      ensures Up(k).texture.Some? && Shows(k)
    {
      hide FlagsOk, SentFrom, ViewOf, ImageOf, SizeOf, Holds;
      CapabilitiesIff(context);
      UploadIsSound(ShownIndex(past.uploads, k));
      ImageHolds(past.uploads[ShownIndex(past.uploads, k)].frame, k, HasRowLength(context));
      assert PlaneOk(Up(k), k, past.uploads, lastPath, Life(context, past.first, past.frames), past.data);
      ViewIs(past.uploads, k);
    }

    /** Alternating staging failures never set the data flag, although both textures fill from the second upload on. */
    lemma AlternatingFailuresShowNothing()
      requires Valid() && past.first && lastPath == Nv12Path && Alternating(past.uploads)
      ensures !hasData
      ensures |past.uploads| >= 2 ==> y.texture.Some? && uv.texture.Some?
    {
      hide ImageOf, SentFrom, FramesOk, AllUploadedNow, Alternating, ViewOf, Landed;
      forall n | 0 <= n <= |past.uploads| ensures !AllUploadedNow(past.uploads[..n], lastPath) {
        AlternatingNeverAll(past.uploads, n);
      }
      UploadedIff(past.uploads, KindY);
      UploadedIff(past.uploads, KindUV);
      if |past.uploads| >= 2 {
        FirstLands(y.sent);
        FirstLands(uv.sent);
      }
    }

    /**
     The first frame after the node went blank, with all planes faring alike. If it is staged, and the last upload
     before the blank was staged too and came by the same path, the picture drawn is the old frame; staged after
     anything else it draws nothing yet; sent directly it is drawn itself.
     */
    method FirstAfterBlank(o: Outcome) returns (d: Drawing)
      requires Valid() && past.first && initialized && !hasData && past.blankAt == |past.uploads|
      requires pendingUpload && held.Some? && !held.value.OesFrame?
      requires HasPixelBuffers(context) && Uniform(o)
      requires past.uploads != [] ==> Uniform(past.uploads[|past.uploads| - 1].outcome)
      modifies this, y, u, v, uv
      ensures Valid()
      ensures var us, rl := old(past).uploads, HasRowLength(context);
              var kept := old(lastPath) == PathOf(old(held).value) && us != [] && us[|us| - 1].outcome.y;
              d == if !o.y then DrawingOf(old(held).value, rl)
                   else if kept then DrawingOf(us[|us| - 1].frame, rl)
                   else NoDraw
    {
      hide Planes, FlagsOk, AllUploadedNow, DrawingOf, Faithful, Shows;
      UploadPendingFrame(o);
      UniformUploads(past.uploads, lastPath);
      d := Draw();
      ContextHeld(Flags(), past);
      DrawIsFaithful(d);
      if hasData {
        FaithfulIs(d);
      }
    }

    /** A track is cleared and another brings its first frame: what is drawn then, under the same conditions. */
    method NewTrack(item: Mailbox, f: Frame, o: Outcome) returns (d: Drawing)
      requires Valid() && item.Valid() && past.first && initialized && SoundFrame(f) && !f.OesFrame?
      requires HasPixelBuffers(context) && Uniform(o)
      requires past.uploads != [] ==> Uniform(past.uploads[|past.uploads| - 1].outcome)
      modifies this, item, y, u, v, uv
      ensures Valid() && item.Valid()
      ensures var us, rl := old(past).uploads, HasRowLength(context);
              var kept := old(lastPath) == PathOf(f) && us != [] && us[|us| - 1].outcome.y;
              d == if !o.y then DrawingOf(f, rl) else if kept then DrawingOf(us[|us| - 1].frame, rl) else NoDraw
    {
      hide Valid, SoundFrame, DrawingOf, InOrder, Uniform, PathOf;
      item.ClearVideoTrack();
      Sync(item);
      item.OnFrame(Known(f));
      Sync(item);
      d := FirstAfterBlank(o);
    }

    /** In the first lifetime, planes faring alike, the drawing is of the frame in the luma texture. */
    lemma FaithfulIs(d: Drawing)
      requires Valid() && Faithful(d) && hasData && initialized && past.first && IsCpu(lastPath)
      requires past.uploads != [] && Uniform(past.uploads[|past.uploads| - 1].outcome)
      ensures ShownIndex(past.uploads, KindY) >= 0
      ensures d == DrawingOf(past.uploads[ShownIndex(past.uploads, KindY)].frame, HasRowLength(context))
    {
      hide Planes, Ever;
      WholeDrawing(d);
      assert Samples(lastPath, KindY);
      UniformShowsOne(past.uploads, lastPath, past.frames, HasRowLength(context));
    }

    /**
     A release and then a frame of the cached size, uploaded directly: the upload is reported, the data flag is
     set, and the node draws from empty textures, whether or not there was data before.
     */
    method SameSizeAfterRelease(c: Context, oesLinks: bool, o: Outcome) returns (d: Drawing)
      requires Valid() && initialized && pendingUpload && held.Some? && held.value.Nv12Frame?
      requires c.Context? && !HasPixelBuffers(c)
      requires y.cache == SizeOf(held.value, KindY) != NO_SIZE && uv.cache == SizeOf(held.value, KindUV) != NO_SIZE
      modifies this, y, u, v, uv
      ensures d == DrawNv12(None, None)
    {
      hide Planes, FramesOk, DataOk, SizeOf, AllUploadedNow;
      ReleaseResources(c);
      var _ := EnsureInitialized(c, oesLinks);
      UploadPendingFrame(o);
      assert past.frames == [old(held).value];
      DirectUploadsAll(past.uploads, lastPath);
      SameSizeStaysEmpty(KindY);
      SameSizeStaysEmpty(KindUV);
      d := Draw();
    }
  }

  // ---- whole runs ---------------------------------------------------------------------------------------

  datatype Op =
    | Arrive(buffer: Incoming)
    | SyncItem
    | RenderFrame(context: Context, oesLinks: bool, outcome: Outcome)
    | ClearTrack
    | ReleaseGl(context: Context)

  predicate SoundOp(op: Op) {
    op.Arrive? && Resolve(op.buffer).Some? ==> SoundFrame(Resolve(op.buffer).value)
  }

  /** Within one GL lifetime, with every upload treating its planes alike. */
  predicate CleanOp(op: Op) {
    SoundOp(op) && (op.RenderFrame? ==> Uniform(op.outcome)) && !op.ReleaseGl?
  }

  /** The node has received exactly the arrivals the mailbox gave out. */
  ghost predicate Linked(received: seq<Frame>, arrived: seq<Frame>, taken: seq<nat>) {
    && |received| == |taken|
    && (forall i :: 0 <= i < |taken| ==> taken[i] < |arrived| && received[i] == arrived[taken[i]])
  }

  lemma LinkedTake(received: seq<Frame>, arrived: seq<Frame>, taken: seq<nat>)
    requires Linked(received, arrived, taken) && arrived != []
    ensures Linked(received + [arrived[|arrived| - 1]], arrived, taken + [|arrived| - 1])
  {
  }

  lemma LinkedArrive(received: seq<Frame>, arrived: seq<Frame>, taken: seq<nat>, f: Frame)
    requires Linked(received, arrived, taken)
    ensures Linked(received, arrived + [f], taken)
  {
  }

  ghost predicate ShowOnes(ds: seq<Drawing>, arrived: seq<Frame>, rowLengths: bool) {
    forall d :: d in ds ==> d.NoDraw? || ShowsOne(d, arrived, rowLengths)
  }

  lemma ShowsReceived(d: Drawing, received: seq<Frame>, arrived: seq<Frame>, taken: seq<nat>, rowLengths: bool)
    requires Linked(received, arrived, taken) && ShowsOne(d, received, rowLengths)
    ensures ShowsOne(d, arrived, rowLengths)
  {
    var f :| f in received && Depicts(d, f, rowLengths);
    assert f in arrived;
  }

  lemma ShowOnesArrive(ds: seq<Drawing>, arrived: seq<Frame>, f: Frame, rowLengths: bool)
    requires ShowOnes(ds, arrived, rowLengths)
    ensures ShowOnes(ds, arrived + [f], rowLengths)
  {
    forall d | d in ds ensures d.NoDraw? || ShowsOne(d, arrived + [f], rowLengths) {
      if !d.NoDraw? {
        var g :| g in arrived && Depicts(d, g, rowLengths);
        assert g in arrived + [f];
      }
    }
  }

  /** The state of a run: both objects in order, linked, and every picture so far one whole frame that arrived. */
  ghost predicate RunOk(item: Mailbox, node: RenderNode, ds: seq<Drawing>)
    reads item, node, node.y, node.u, node.v, node.uv
  {
    && item.Valid() && node.Valid() && Linked(node.past.received, item.arrived, item.taken)
    && (item.pendingBuffer.Some? ==> SoundFrame(item.pendingBuffer.value))
    && (node.past.uploads != [] ==> Uniform(node.past.uploads[|node.past.uploads| - 1].outcome))
    && node.past.first && ShowOnes(ds, item.arrived, HasRowLength(node.context))
    && (!node.initialized ==> forall d :: d in ds ==> d.NoDraw?)
  }

  method RunArrive(item: Mailbox, ghost node: RenderNode, b: Incoming, ghost ds: seq<Drawing>)
    requires RunOk(item, node, ds) && (Resolve(b).Some? ==> SoundFrame(Resolve(b).value))
    modifies item
    ensures RunOk(item, node, ds) && item.arrived == old(item.arrived) + Brought(b)
  {
    hide SoundFrame, ShowOnes, Linked, RenderNode.Valid, InOrder, HasRowLength;
    item.OnFrame(b);
    if Resolve(b).Some? {
      var f := Resolve(b).value;
      LinkedArrive(node.past.received, old(item.arrived), item.taken, f);
      ShowOnesArrive(ds, old(item.arrived), f, HasRowLength(node.context));
    }
  }

  method RunSync(item: Mailbox, node: RenderNode, ghost ds: seq<Drawing>)
    requires RunOk(item, node, ds)
    modifies node`held, node`pendingUpload, node`hasData, node`past, item`pendingBuffer, item`taken
    ensures RunOk(item, node, ds)
  {
    hide SoundFrame, ShowOnes, Linked, RenderNode.Valid, InOrder, HasRowLength;
    if item.pendingBuffer.Some? {
      LinkedTake(node.past.received, item.arrived, item.taken);
    }
    node.Sync(item);
    if old(item.pendingBuffer).None? {
      assert item.taken == old(item.taken);
    }
  }

  method RunRender(item: Mailbox, node: RenderNode, c: Context, oesLinks: bool, o: Outcome, ds: seq<Drawing>)
    returns (drawings: seq<Drawing>)
    requires RunOk(item, node, ds) && Uniform(o)
    modifies node, node.y, node.u, node.v, node.uv
    ensures RunOk(item, node, drawings) && |drawings| == |ds| + 1
  {
    hide SoundFrame, ShowsOne, Linked, RenderNode.Valid, RenderNode.Faithful, InOrder, HasRowLength;
    var d := node.Render(c, oesLinks, o);
    drawings := ds + [d];
    NoDrawWithoutData(node, d);
    if node.hasData {
      node.FaithfulShowsOne(d);
      ShowsReceived(d, node.past.received, item.arrived, item.taken, HasRowLength(node.context));
    }
  }

  lemma NoDrawWithoutData(node: RenderNode, d: Drawing)
    requires node.Valid() && node.Faithful(d) && node.past.first
    ensures !node.hasData ==> d.NoDraw?
    ensures !node.initialized ==> !node.hasData
  {
  }

  /**
   Any run in one GL lifetime in which each upload treats its planes alike (no staging fails, or the context
   has no pixel buffers, or all planes fail together): every picture drawn is one whole frame that arrived.
   */
  method Run(item: Mailbox, node: RenderNode, ops: seq<Op>) returns (drawings: seq<Drawing>)
    requires RunOk(item, node, [])
    requires forall i :: 0 <= i < |ops| ==> CleanOp(ops[i])
    modifies item, node, node.y, node.u, node.v, node.uv
    ensures RunOk(item, node, drawings) && |drawings| == Renders(ops)
    ensures item.arrived == old(item.arrived) + Arrivals(ops)
  {
    hide RunOk, SoundFrame, Uniform, Renders, Arrivals;
    drawings := [];
    RendersStep(ops, 0);
    ArrivalsStep(ops, 0);
    for i := 0 to |ops|
      invariant RunOk(item, node, drawings) && |drawings| == Renders(ops[..i])
      invariant item.arrived == old(item.arrived) + Arrivals(ops[..i])
    {
      RendersStep(ops, i);
      ArrivalsStep(ops, i);
      assert CleanOp(ops[i]);
      match ops[i] {
        case Arrive(b) => RunArrive(item, node, b, drawings);
        case SyncItem => RunSync(item, node, drawings);
        case RenderFrame(c, oesLinks, o) => drawings := RunRender(item, node, c, oesLinks, o, drawings);
        case ClearTrack => RunClear(item, node, drawings);
      }
    }
    assert ops[..|ops|] == ops;
  }

  /**
   Any run at all, over any number of GL lifetimes and whatever staging fails: a texture holds an image exactly
   if some upload since its lifetime began had a size other than the one cached then, or none was cached.
   */
  method RunLifetimes(item: Mailbox, node: RenderNode, ops: seq<Op>)
    requires item.Valid() && node.Valid() && (item.pendingBuffer.Some? ==> SoundFrame(item.pendingBuffer.value))
    requires forall i :: 0 <= i < |ops| ==> SoundOp(ops[i])
    modifies item, node, node.y, node.u, node.v, node.uv
    ensures item.Valid() && node.Valid() && item.arrived == old(item.arrived) + Arrivals(ops)
    ensures forall k: Kind :: node.Up(k).texture.Some? <==> Landed(node.Up(k).born, node.Up(k).sent)
  {
    hide SoundFrame, RenderNode.Valid, RenderNode.Faithful, InOrder, Arrivals;
    ArrivalsStep(ops, 0);
    for i := 0 to |ops|
      invariant item.arrived == old(item.arrived) + Arrivals(ops[..i])
      invariant item.Valid() && node.Valid() && (item.pendingBuffer.Some? ==> SoundFrame(item.pendingBuffer.value))
    {
      assert SoundOp(ops[i]);
      ArrivalsStep(ops, i);
      match ops[i] {
        case Arrive(b) => item.OnFrame(b);
        case SyncItem => node.Sync(item);
        case RenderFrame(c, oesLinks, o) => var _ := node.Render(c, oesLinks, o);
        case ClearTrack => item.ClearVideoTrack();
        case ReleaseGl(c) => node.ReleaseResources(c);
      }
    }
    assert ops[..|ops|] == ops;
    forall k: Kind ensures node.Up(k).texture.Some? <==> Landed(node.Up(k).born, node.Up(k).sent) {
      node.TextureIff(k);
    }
  }

  /** The frames an incoming buffer brings, and those a run brings. */
  function Brought(b: Incoming): seq<Frame> {
    if Resolve(b).Some? then [Resolve(b).value] else []
  }

  function Arrivals(ops: seq<Op>): seq<Frame> {
    if ops == [] then []
    else Arrivals(ops[..|ops| - 1]) + if ops[|ops| - 1].Arrive? then Brought(ops[|ops| - 1].buffer) else []
  }

  lemma ArrivalsStep(ops: seq<Op>, i: nat)
    ensures Arrivals(ops[..0]) == []
    ensures i < |ops| ==> Arrivals(ops[..i + 1]) ==
                            Arrivals(ops[..i]) + if ops[i].Arrive? then Brought(ops[i].buffer) else []
  {
    if i < |ops| {
      assert ops[..i + 1][..i] == ops[..i];
    }
  }

  function Renders(ops: seq<Op>): nat {
    if ops == [] then 0 else Renders(ops[..|ops| - 1]) + if ops[|ops| - 1].RenderFrame? then 1 else 0
  }

  lemma RendersStep(ops: seq<Op>, i: nat)
    ensures Renders(ops[..0]) == 0
    ensures i < |ops| ==> Renders(ops[..i + 1]) == Renders(ops[..i]) + if ops[i].RenderFrame? then 1 else 0
  {
    if i < |ops| {
      assert ops[..i + 1][..i] == ops[..i];
    }
  }

  method RunClear(item: Mailbox, ghost node: RenderNode, ghost ds: seq<Drawing>)
    requires RunOk(item, node, ds)
    modifies item`pendingBuffer, item`hasVideo
    ensures RunOk(item, node, ds)
  {
    hide SoundFrame, ShowOnes, Linked, RenderNode.Valid, InOrder;
    item.ClearVideoTrack();
  }

  lemma UniformUploads(us: seq<Upload>, p: Path)
    requires us != [] && IsCpu(p) && Uniform(us[|us| - 1].outcome)
    requires |us| >= 2 ==> Uniform(us[|us| - 2].outcome)
    ensures AllUploadedNow(us, p) <==> !us[|us| - 1].outcome.y || (|us| >= 2 && us[|us| - 2].outcome.y)
  {
    assert Samples(p, KindY);
  }

  lemma ContextHeld(s: NodeFlags, q: Past)
    requires FlagsOk(s, q)
    ensures s.initialized <==> s.context.Context?
  {
  }

  lemma DirectUploadsAll(us: seq<Upload>, p: Path)
    requires us != [] && us[|us| - 1].outcome == DIRECT
    ensures AllUploadedNow(us, p)
  {
  }

  lemma FirstLands(sent: seq<Size>)
    requires sent != []
    ensures Landed(NO_SIZE, sent)
  {
    assert sent[0] == sent[0];
  }

  lemma Weaken(up: PlaneUploader, k: Kind, us: seq<Upload>, p: Path, g: Life, d: Data, e: Data)
    requires PlaneOk(up, k, us, p, g, d) && (e == d || e == NoData || (d.Fresh? && Samples(p, k)))
    ensures PlaneOk(up, k, us, p, g, e)
  {
    hide Tracks, SentFrom, ViewOf, Landed;
  }
}

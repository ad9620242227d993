/** Interleaved and per-channel audio, and a buffer seen as channels of frequency bands. */
module ChannelBuffer {

  import opened Base

  // ---- interleaving ------------------------------------------------------------------------------

  predicate Channels<T>(d: seq<seq<T>>, samples: nat) {
    forall i :: 0 <= i < |d| ==> |d[i]| == samples
  }

  /** Sample `j` of channel `i` is the interleaved sample `j * channels + i`. */
  ghost predicate Interleaves<T>(s: seq<T>, d: seq<seq<T>>, samples: nat) {
    && |s| == samples * |d| && Channels(d, samples)
    && (forall i, j: nat :: 0 <= i < |d| && j < samples ==> SampleAt(s, d, i, j))
  }

  ghost predicate SampleAt<T>(s: seq<T>, d: seq<seq<T>>, i: int, j: nat) {
    && 0 <= i < |d| && j < |d[i]| && 0 <= Cell(j, |d|, i) < |s|
    && s[Cell(j, |d|, i)] == d[i][j]
  }

  /** The channels determine the interleaved samples. */
  lemma InterleavedUnique<T>(s: seq<T>, t: seq<T>, d: seq<seq<T>>, samples: nat)
    requires Interleaves(s, d, samples) && Interleaves(t, d, samples)
    ensures s == t
  {
    hide Cell;
    forall k | 0 <= k < |s| ensures s[k] == t[k] {
      var j, i := CellOf(k, samples, |d|);
      assert SampleAt(s, d, i, j) && SampleAt(t, d, i, j);
    }
  }

  /** The interleaved samples determine the channels. */
  lemma DeinterleavedUnique<T>(s: seq<T>, d: seq<seq<T>>, e: seq<seq<T>>, samples: nat)
    requires Interleaves(s, d, samples) && Interleaves(s, e, samples) && |d| == |e|
    ensures d == e
  {
    hide Cell;
    forall i | 0 <= i < |d| ensures d[i] == e[i] {
      forall j: nat | j < samples ensures d[i][j] == e[i][j] {
        assert SampleAt(s, d, i, j) && SampleAt(s, e, i, j);
      }
    }
  }

  ghost function Contents<T>(arrays: seq<array<T>>): (r: seq<seq<T>>)
    reads set a | a in arrays
    ensures |r| == |arrays| && forall i :: 0 <= i < |r| ==> r[i] == arrays[i][..]
  {
    seq(|arrays|, i requires 0 <= i < |arrays| reads set a | a in arrays => arrays[i][..])
  }

  predicate AllDistinct<T>(arrays: seq<array<T>>) {
    forall i, j :: 0 <= i < j < |arrays| ==> arrays[i] != arrays[j]
  }

  /** Takes every `channels`-th sample into each channel, with a running index. */
  method Deinterleave<T>(interleaved: seq<T>, samplesPerChannel: nat, deinterleaved: seq<array<T>>)
    requires |interleaved| == samplesPerChannel * |deinterleaved| && AllDistinct(deinterleaved)
    requires forall i :: 0 <= i < |deinterleaved| ==> deinterleaved[i].Length == samplesPerChannel
    modifies set a | a in deinterleaved
    ensures Interleaves(interleaved, Contents(deinterleaved), samplesPerChannel)
  {
    var n := |deinterleaved|;
    for i := 0 to n
      invariant forall c :: 0 <= c < i ==> Column(interleaved, n, c, deinterleaved[c][..], samplesPerChannel)
    {
      ghost var before := Contents(deinterleaved);
      DeinterleaveOne(interleaved, samplesPerChannel, n, i, deinterleaved[i]);
      forall c | 0 <= c < i ensures Column(interleaved, n, c, deinterleaved[c][..], samplesPerChannel) {
        assert deinterleaved[c] != deinterleaved[i];
        assert before[c] == deinterleaved[c][..];
      }
    }
    ColumnsInterleave(interleaved, Contents(deinterleaved), samplesPerChannel);
  }

  /** Channel `c` of `n` holds its samples. */
  ghost predicate Column<T>(s: seq<T>, n: nat, c: nat, channel: seq<T>, samples: nat) {
    && |channel| == samples
    && (forall j: nat :: j < samples ==> ColumnAt(s, n, c, channel, j))
  }

  ghost predicate ColumnAt<T>(s: seq<T>, n: nat, c: nat, channel: seq<T>, j: nat) {
    j < |channel| && 0 <= Cell(j, n, c) < |s| && channel[j] == s[Cell(j, n, c)]
  }

  lemma ColumnsInterleave<T>(s: seq<T>, d: seq<seq<T>>, samples: nat)
    requires |s| == samples * |d|
    requires forall c :: 0 <= c < |d| ==> Column(s, |d|, c, d[c], samples)
    ensures Interleaves(s, d, samples)
  {
    hide Cell;
    forall i, j: nat | 0 <= i < |d| && j < samples ensures SampleAt(s, d, i, j) {
      assert Column(s, |d|, i, d[i], samples);
      assert ColumnAt(s, |d|, i, d[i], j);
    }
  }

  method DeinterleaveOne<T>(interleaved: seq<T>, samples: nat, n: nat, i: nat, channel: array<T>)
    requires i < n && |interleaved| == samples * n && channel.Length == samples
    modifies channel
    ensures Column(interleaved, n, i, channel[..], samples)
  {
    var index := i;
    for j := 0 to samples
      invariant index == Cell(j, n, i)
      invariant forall k: nat :: k < j ==>
                  0 <= Cell(k, n, i) < |interleaved| && channel[k] == interleaved[Cell(k, n, i)]
    {
      CellBounds(j, samples, n, i);
      channel[j] := interleaved[index];
      assert Cell(j + 1, n, i) == Cell(j, n, i) + n;
      index := index + n;
    }
    forall j: nat | j < samples ensures ColumnAt(interleaved, n, i, channel[..], j) {
    }
  }

  /** Writes each channel to every `channels`-th place, with a running index. */
  method Interleave<T>(deinterleaved: seq<seq<T>>, samplesPerChannel: nat, interleaved: array<T>)
    requires interleaved.Length == samplesPerChannel * |deinterleaved| && Channels(deinterleaved, samplesPerChannel)
    modifies interleaved
    ensures Interleaves(interleaved[..], deinterleaved, samplesPerChannel)
  {
    var n := |deinterleaved|;
    for i := 0 to n
      invariant forall c :: 0 <= c < i ==> Column(interleaved[..], n, c, deinterleaved[c], samplesPerChannel)
    {
      ghost var before := interleaved[..];
      InterleaveOne(deinterleaved[i], samplesPerChannel, n, i, interleaved);
      forall c | 0 <= c < i ensures Column(interleaved[..], n, c, deinterleaved[c], samplesPerChannel) {
        ColumnKept(before, interleaved[..], n, i, c, deinterleaved[c], samplesPerChannel);
      }
    }
    ColumnsInterleave(interleaved[..], deinterleaved, samplesPerChannel);
  }

  /** Only cells of column `i` may have changed. */
  ghost predicate OthersKept<T>(was: seq<T>, now: seq<T>, n: nat, i: nat) {
    && |was| == |now|
    && (forall c: nat, j: nat :: c < n && c != i ==> KeptAt(was, now, Cell(j, n, c)))
  }

  ghost predicate KeptAt<T>(was: seq<T>, now: seq<T>, k: int) {
    |was| == |now| && (0 <= k < |was| ==> now[k] == was[k])
  }

  lemma OthersKeptJoin<T>(a: seq<T>, b: seq<T>, c: seq<T>, n: nat, i: nat)
    requires OthersKept(a, b, n, i) && OthersKept(b, c, n, i)
    ensures OthersKept(a, c, n, i)
  {
    hide Cell;
    forall col: nat, j: nat | col < n && col != i ensures KeptAt(a, c, Cell(j, n, col)) {
      assert KeptAt(a, b, Cell(j, n, col)) && KeptAt(b, c, Cell(j, n, col));
    }
  }

  lemma NothingChanged<T>(s: seq<T>, n: nat, i: nat)
    ensures OthersKept(s, s, n, i)
  {
  }

  lemma OneCellChanged<T>(was: seq<T>, now: seq<T>, n: nat, i: nat, j: nat)
    requires |was| == |now| && i < n
    requires forall k :: 0 <= k < |was| && k != Cell(j, n, i) ==> now[k] == was[k]
    ensures OthersKept(was, now, n, i)
  {
    hide Cell;
    forall c: nat, k: nat | c < n && c != i ensures KeptAt(was, now, Cell(k, n, c)) {
      CellInjective(k, c, j, i, n);
    }
  }

  lemma ColumnKept<T>(was: seq<T>, now: seq<T>, n: nat, i: nat, c: nat, channel: seq<T>, samples: nat)
    requires Column(was, n, c, channel, samples) && OthersKept(was, now, n, i) && c < n && c != i
    ensures Column(now, n, c, channel, samples)
  {
    hide Cell;
    forall j: nat | j < samples ensures ColumnAt(now, n, c, channel, j) {
      assert ColumnAt(was, n, c, channel, j) && KeptAt(was, now, Cell(j, n, c));
    }
  }

  method InterleaveOne<T>(channel: seq<T>, samples: nat, n: nat, i: nat, interleaved: array<T>)
    requires i < n && interleaved.Length == samples * n && |channel| == samples
    modifies interleaved
    ensures Column(interleaved[..], n, i, channel, samples)
    ensures OthersKept(old(interleaved[..]), interleaved[..], n, i)
  {
    hide Cell, OthersKept;
    var index := i;
    NothingChanged(interleaved[..], n, i);
    CellStart(n, i);
    for j := 0 to samples
      invariant index == Cell(j, n, i)
      invariant forall k: nat :: k < j ==> ColumnAt(interleaved[..], n, i, channel, k)
      invariant OthersKept(old(interleaved[..]), interleaved[..], n, i)
    {
      CellBounds(j, samples, n, i);
      CellStep(j, n, i);
      ghost var before := interleaved[..];
      interleaved[index] := channel[j];
      forall k: nat | k < j ensures ColumnAt(interleaved[..], n, i, channel, k) {
        assert ColumnAt(before, n, i, channel, k);
        CellInjective(k, i, j, i, n);
      }
      OneCellChanged(before, interleaved[..], n, i, j);
      OthersKeptJoin(old(interleaved[..]), before, interleaved[..], n, i);
      index := index + n;
    }
  }

  lemma CellStart(n: nat, i: nat)
    ensures Cell(0, n, i) == i
  {
  }

  lemma CellStep(j: nat, n: nat, i: nat)
    ensures Cell(j + 1, n, i) == Cell(j, n, i) + n
  {
    assert (j + 1) * n == j * n + n;
  }

  /** Interleaving what was deinterleaved gives the samples back. */
  method InterleaveOfDeinterleave<T>(s: seq<T>, samples: nat, channels: seq<array<T>>, out: array<T>)
    requires |s| == samples * |channels| == out.Length && AllDistinct(channels) && out !in channels
    requires forall i :: 0 <= i < |channels| ==> channels[i].Length == samples
    modifies out, set a | a in channels
    ensures out[..] == s
  {
    Deinterleave(s, samples, channels);
    var d := Read(channels);
    Interleave(d, samples, out);
    InterleavedUnique(s, out[..], d, samples);
  }

  /** Deinterleaving what was interleaved gives the channels back. */
  method DeinterleaveOfInterleave<T>(d: seq<seq<T>>, samples: nat, mid: array<T>, channels: seq<array<T>>)
    requires Channels(d, samples) && |d| == |channels| && mid.Length == samples * |d|
    requires AllDistinct(channels) && mid !in channels
    requires forall i :: 0 <= i < |channels| ==> channels[i].Length == samples
    modifies mid, set a | a in channels
    ensures Contents(channels) == d
  {
    Interleave(d, samples, mid);
    Deinterleave(mid[..], samples, channels);
    DeinterleavedUnique(mid[..], d, Contents(channels), samples);
  }

  method Read<T>(arrays: seq<array<T>>) returns (d: seq<seq<T>>)
    ensures d == Contents(arrays)
  {
    d := [];
    for i := 0 to |arrays|
      invariant d == Contents(arrays)[..i]
    {
      d := d + [arrays[i][..]];
    }
  }

  // ---- channel and band views ----------------------------------------------------------------------

  /** A window on the buffer's data: where it starts and how long it is. */
  datatype View = View(start: nat, length: nat)

  /** The samples of one band of one channel. */
  function ViewOf(frames: nat, bands: nat, ch: nat, band: nat): View
    requires bands > 0
  {
    View(ch * frames + band * (frames / bands), frames / bands)
  }

  predicate InView(v: View, k: int) {
    v.start <= k < v.start + v.length
  }

  /** A channel's bands lie one after another within the channel. */
  lemma BandsFit(frames: nat, bands: nat, band: nat)
    requires bands > 0 && band < bands
    ensures band * (frames / bands) + frames / bands <= bands * (frames / bands) <= frames
  {
    var f := frames / bands;
    assert band * f + f == (band + 1) * f;
    ProductMono(band + 1, bands, f);
    assert frames == bands * f + frames % bands;
  }

  /** A channel's bands begin where the channel begins, and each follows the one before without a gap. */
  lemma BandsFollow(frames: nat, bands: nat, ch: nat, band: nat)
    requires bands > 0
    ensures ViewOf(frames, bands, ch, 0).start == ch * frames
    ensures var v := ViewOf(frames, bands, ch, band); ViewOf(frames, bands, ch, band + 1).start == v.start + v.length
    ensures var n := ViewOf(frames, bands, ch, band).length; n * bands <= frames < (n + 1) * bands
  {
    var f := frames / bands;
    assert (band + 1) * f == band * f + f;
    assert frames == f * bands + frames % bands && (f + 1) * bands == f * bands + bands;
  }

  /** Views stay inside the data. */
  lemma ViewsInside(frames: nat, channels: nat, bands: nat, ch: nat, band: nat)
    requires bands > 0 && ch < channels && band < bands
    ensures var v := ViewOf(frames, bands, ch, band); v.start + v.length <= frames * channels
  {
    BandsFit(frames, bands, band);
    assert ch * frames + frames == (ch + 1) * frames && frames * channels == channels * frames;
    ProductMono(ch + 1, channels, frames);
  }

  /** No sample is in two views. */
  lemma ViewsDisjoint(frames: nat, bands: nat, ch: nat, band: nat, ch2: nat, band2: nat, k: int)
    requires bands > 0 && band < bands && band2 < bands && (ch != ch2 || band != band2)
    ensures !(InView(ViewOf(frames, bands, ch, band), k) && InView(ViewOf(frames, bands, ch2, band2), k))
  {
    if ch < ch2 || (ch == ch2 && band < band2) {
      ViewBefore(frames, bands, ch, band, ch2, band2);
    } else {
      ViewBefore(frames, bands, ch2, band2, ch, band);
    }
  }

  lemma ViewBefore(frames: nat, bands: nat, ch: nat, band: nat, ch2: nat, band2: nat)
    requires bands > 0 && band < bands && band2 < bands && (ch < ch2 || (ch == ch2 && band < band2))
    ensures var v := ViewOf(frames, bands, ch, band); v.start + v.length <= ViewOf(frames, bands, ch2, band2).start
  {
    if ch < ch2 {
      ChannelBefore(frames, bands, ch, band, ch2, band2);
    } else {
      BandBefore(frames, bands, ch, band, band2);
    }
  }

  lemma ChannelBefore(frames: nat, bands: nat, ch: nat, band: nat, ch2: nat, band2: nat)
    requires bands > 0 && band < bands && ch < ch2
    ensures var v := ViewOf(frames, bands, ch, band); v.start + v.length <= ViewOf(frames, bands, ch2, band2).start
  {
    BandsFit(frames, bands, band);
    assert ch * frames + frames == (ch + 1) * frames;
    ProductMono(ch + 1, ch2, frames);
    ProductMono(0, band2, frames / bands);
  }

  lemma BandBefore(frames: nat, bands: nat, ch: nat, band: nat, band2: nat)
    requires bands > 0 && band < band2
    ensures var v := ViewOf(frames, bands, ch, band); v.start + v.length <= ViewOf(frames, bands, ch, band2).start
  {
    var f := frames / bands;
    assert band * f + f == (band + 1) * f;
    ProductMono(band + 1, band2, f);
  }

  ghost predicate Covered(frames: nat, channels: nat, bands: nat, k: int)
    requires bands > 0
  {
    exists ch: nat, band: nat :: ch < channels && band < bands && InView(ViewOf(frames, bands, ch, band), k)
  }

  /** Sample `k` lies in a view of its own channel, if the bands fill the channel. */
  lemma SampleCovered(frames: nat, channels: nat, bands: nat, k: nat)
    requires bands > 0 && frames % bands == 0 && k < frames * channels
    ensures Covered(frames, channels, bands, k)
  {
    hide Cell, Covered;
    assert frames * channels == channels * frames;
    var ch, r := CellOf(k, channels, frames);
    WholeBands(frames, bands);
    var band, i := CellOf(r, bands, frames / bands);
    CellCovered(frames, channels, bands, ch, band, i);
  }

  lemma CellCovered(frames: nat, channels: nat, bands: nat, ch: nat, band: nat, i: nat)
    requires bands > 0 && ch < channels && band < bands && i < frames / bands
    ensures Covered(frames, channels, bands, Cell(ch, frames, Cell(band, frames / bands, i)))
  {
    hide Cell, ViewOf, InView;
    CellInView(frames, bands, ch, band, i);
  }

  lemma WholeBands(frames: nat, bands: nat)
    requires bands > 0 && frames % bands == 0
    ensures frames == bands * (frames / bands)
  {
  }

  lemma CellInView(frames: nat, bands: nat, ch: nat, band: nat, i: nat)
    requires bands > 0 && i < frames / bands
    ensures InView(ViewOf(frames, bands, ch, band), Cell(ch, frames, Cell(band, frames / bands, i)))
  {
  }

  /** The frames left over after the last whole band of the first channel are in no view. */
  lemma LeftoverUncovered(frames: nat, channels: nat, bands: nat)
    requires bands > 0 && frames % bands != 0
    ensures !Covered(frames, channels, bands, bands * (frames / bands)) && 0 <= bands * (frames / bands) < frames
  {
    var f := frames / bands;
    var k := bands * f;
    assert frames == k + frames % bands;
    forall ch: nat, band: nat | ch < channels && band < bands ensures !InView(ViewOf(frames, bands, ch, band), k) {
      BandsFit(frames, bands, band);
      if ch > 0 {
        ProductMono(1, ch, frames);
        ProductMono(0, band, f);
      } else {
        assert ch * frames == 0;
      }
    }
  }

  /** The views tile the data exactly when the bands divide the frames. */
  lemma ViewsTileIff(frames: nat, channels: nat, bands: nat)
    requires bands > 0 && channels > 0
    ensures (forall k :: 0 <= k < frames * channels ==> Covered(frames, channels, bands, k)) <==> frames % bands == 0
  {
    if frames % bands == 0 {
      forall k | 0 <= k < frames * channels ensures Covered(frames, channels, bands, k) {
        SampleCovered(frames, channels, bands, k);
      }
    } else {
      LeftoverUncovered(frames, channels, bands);
      ProductMono(1, channels, frames);
      assert frames * channels == channels * frames;
      assert !Covered(frames, channels, bands, bands * (frames / bands));
    }
  }

  class Buffer<T> {
    const numFrames: nat
    const numChannels: nat
    const numBands: nat
    const data: array<T>
    const channels: array<View>
    const bands: array<View>

    /** Both tables lead to the same window of the data, by band and channel and by channel and band. */
    ghost predicate EntryOk(ch: nat, band: nat)
      requires numBands > 0
      reads channels, bands
    {
      && 0 <= Cell(band, numChannels, ch) < channels.Length && 0 <= Cell(ch, numBands, band) < bands.Length
      && channels[Cell(band, numChannels, ch)] == bands[Cell(ch, numBands, band)]
      && bands[Cell(ch, numBands, band)] == ViewOf(numFrames, numBands, ch, band)
    }

    ghost predicate Valid()
      reads channels, bands
    {
      && numBands > 0 && data.Length == numFrames * numChannels
      && channels.Length == bands.Length == numChannels * numBands
      && (forall ch: nat, band: nat :: ch < numChannels && band < numBands ==> EntryOk(ch, band))
    }

    /** The data is value-initialized: every sample is `zero`. */
    constructor (numFrames: nat, numChannels: nat, numBands: nat, zero: T)
      requires numBands > 0
      ensures fresh(data) && fresh(channels) && fresh(bands)
      ensures forall i :: 0 <= i < data.Length ==> data[i] == zero
      ensures Valid() && this.numFrames == numFrames && this.numChannels == numChannels && this.numBands == numBands
    {
      this.numFrames, this.numChannels, this.numBands := numFrames, numChannels, numBands;
      data := new T[numFrames * numChannels](_ => zero);
      channels := new View[numChannels * numBands](_ => View(0, 0));
      bands := new View[numChannels * numBands](_ => View(0, 0));
      new;
      FillTables();
    }

    method FillTables()
      requires numBands > 0 && channels != bands && channels.Length == bands.Length == numChannels * numBands
      modifies channels, bands
      ensures forall ch: nat, band: nat :: ch < numChannels && band < numBands ==> EntryOk(ch, band)
    {
      hide Cell, ViewOf;
      for ch := 0 to numChannels
        invariant forall c: nat, b: nat :: c < ch && b < numBands ==> EntryOk(c, b)
      {
        for band := 0 to numBands
          invariant forall c: nat, b: nat :: (c < ch && b < numBands) || (c == ch && b < band) ==> EntryOk(c, b)
        {
          SetEntry(ch, band);
        }
      }
    }

    method SetEntry(ch: nat, band: nat)
      requires numBands > 0 && ch < numChannels && band < numBands
      requires channels.Length == bands.Length == numChannels * numBands && channels != bands
      modifies channels, bands
      ensures EntryOk(ch, band)
      ensures forall c: nat, b: nat :: c < numChannels && b < numBands && old(EntryOk(c, b)) ==> EntryOk(c, b)
    {
      hide Cell, ViewOf;
      CellBounds(band, numBands, numChannels, ch);
      CellBounds(ch, numChannels, numBands, band);
      assert numBands * numChannels == numChannels * numBands;
      var v := ViewOf(numFrames, numBands, ch, band);
      channels[Cell(band, numChannels, ch)] := v;
      bands[Cell(ch, numBands, band)] := channels[Cell(band, numChannels, ch)];
      forall c: nat, b: nat | c < numChannels && b < numBands && old(EntryOk(c, b)) ensures EntryOk(c, b) {
        if c != ch || b != band {
          CellInjective(b, c, band, ch, numChannels);
          CellInjective(c, b, ch, band, numBands);
        }
      }
    }
  }
}

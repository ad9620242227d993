/**
 The H.264 byte-stream splitter and the conversion to length-prefixed samples.

 A null pointer and an empty buffer are treated alike by all three source functions,
 so a buffer is a `seq<Byte>` here.
 */
module AnnexB {

  import opened Base

  // ---- start codes ---------------------------------------------------------

  /** Length of the start code that begins at `i`, or 0 when none begins there. */
  function CodeLen(d: seq<Byte>, i: nat): (n: nat)
    ensures n != 0 ==> (n == 3 || n == 4) && i + n <= |d|
  {
    if i + 3 <= |d| && d[i] == 0 && d[i + 1] == 0 && d[i + 2] == 1 then 3
    else if i + 4 <= |d| && d[i] == 0 && d[i + 1] == 0 && d[i + 2] == 0 && d[i + 3] == 1 then 4
    else 0
  }

  function Code(n: nat): seq<Byte> {
    if n == 3 then [0, 0, 1] else [0, 0, 0, 1]
  }

  predicate FreeOfStartCode(u: seq<Byte>) {
    forall k :: 0 <= k && k + 3 <= |u| ==> !(u[k] == 0 && u[k + 1] == 0 && u[k + 2] == 1)
  }

  predicate LooksLikeAnnexB(d: seq<Byte>) {
    && |d| >= 4
    && (|| (d[0] == 0 && d[1] == 0 && d[2] == 1)
        || (d[0] == 0 && d[1] == 0 && d[2] == 0 && d[3] == 1))
  }

  /** First position at or after `i` where a start code begins, or the end of the buffer. */
  function NextCode(d: seq<Byte>, i: nat): (k: nat)
    requires i <= |d|
    ensures i <= k <= |d|
    ensures k < |d| ==> CodeLen(d, k) != 0
    ensures forall j :: i <= j < k ==> CodeLen(d, j) == 0
    decreases |d| - i
  {
    if i == |d| || CodeLen(d, i) != 0 then i else NextCode(d, i + 1)
  }

  lemma NextCodeIs(d: seq<Byte>, i: nat, k: nat)
    requires i <= k <= |d|
    requires k < |d| ==> CodeLen(d, k) != 0
    requires forall j :: i <= j < k ==> CodeLen(d, j) == 0
    ensures NextCode(d, i) == k
  {
  }

  // ---- segments: a start code and the payload behind it ---------------------

  datatype Segment = Segment(code: nat, payload: seq<Byte>)

  predicate Printable(segs: seq<Segment>) {
    forall k :: 0 <= k < |segs| ==> segs[k].code == 3 || segs[k].code == 4
  }

  function Print(segs: seq<Segment>): seq<Byte> {
    if segs == [] then [] else Code(segs[0].code) + segs[0].payload + Print(segs[1..])
  }

  lemma PrintCons(s: Segment, rest: seq<Segment>)
    ensures Print([s] + rest) == Code(s.code) + s.payload + Print(rest)
  {
    assert ([s] + rest)[1..] == rest;
  }

  function Segments(d: seq<Byte>, at: nat): (segs: seq<Segment>)
    requires at <= |d| && (at < |d| ==> CodeLen(d, at) != 0)
    ensures Printable(segs)
    decreases |d| - at
  {
    if at == |d| then []
    else
      var n := CodeLen(d, at);
      var next := NextCode(d, at + n);
      [Segment(n, d[at + n..next])] + Segments(d, next)
  }

  function Payloads(segs: seq<Segment>): seq<seq<Byte>> {
    seq(|segs|, k requires 0 <= k < |segs| => segs[k].payload)
  }

  function NonEmpty(us: seq<seq<Byte>>): seq<seq<Byte>> {
    if us == [] then []
    else (if us[0] == [] then [] else [us[0]]) + NonEmpty(us[1..])
  }

  /** The NAL units of a buffer: the non-empty payloads of its segments, in order. */
  function Units(d: seq<Byte>): seq<seq<Byte>> {
    UnitsFrom(d, 0)
  }

  function UnitsFrom(d: seq<Byte>, i: nat): seq<seq<Byte>>
    requires i <= |d|
  {
    NonEmpty(Payloads(Segments(d, NextCode(d, i))))
  }

  // ---- the splitter ---------------------------------------------------------

  datatype Range = Range(start: nat, size: nat)

  predicate InBounds(d: seq<Byte>, rs: seq<Range>) {
    forall k :: 0 <= k < |rs| ==> 0 < rs[k].size && rs[k].start + rs[k].size <= |d|
  }

  function Slices(d: seq<Byte>, rs: seq<Range>): (us: seq<seq<Byte>>)
    requires InBounds(d, rs)
  {
    seq(|rs|, k requires 0 <= k < |rs| => d[rs[k].start..rs[k].start + rs[k].size])
  }

  lemma SlicesAppend(d: seq<Byte>, rs: seq<Range>, r: Range)
    requires InBounds(d, rs) && 0 < r.size && r.start + r.size <= |d|
    ensures InBounds(d, rs + [r])
    ensures Slices(d, rs + [r]) == Slices(d, rs) + [d[r.start..r.start + r.size]]
  {
  }

  lemma UnitsAtCode(d: seq<Byte>, at: nat, next: nat)
    requires at < |d| && CodeLen(d, at) != 0 && at + CodeLen(d, at) <= next <= |d|
    requires next == NextCode(d, at + CodeLen(d, at))
    ensures var u := d[at + CodeLen(d, at)..next];
            UnitsFrom(d, at) == (if u == [] then [] else [u]) + UnitsFrom(d, next)
  {
    var ps := Payloads(Segments(d, at));
    assert ps[1..] == Payloads(Segments(d, next));
  }

  /** One round of the outer scan: the code at `from`, the payload up to the next code at `j`. */
  lemma PushUnit(d: seq<Byte>, rs: seq<Range>, from: nat, start: nat, j: nat)
    requires InBounds(d, rs)
    requires from < start <= j <= |d| && CodeLen(d, from) == start - from
    requires j < |d| ==> CodeLen(d, j) != 0
    requires forall k :: start <= k < j ==> CodeLen(d, k) == 0
    ensures var rs' := if j > start then rs + [Range(start, j - start)] else rs;
            && InBounds(d, rs')
            && Slices(d, rs') + UnitsFrom(d, j) == Slices(d, rs) + UnitsFrom(d, from)
  {
    hide UnitsFrom, Slices, Code;
    NextCodeIs(d, start, j);
    UnitsAtCode(d, from, j);
    var u, rest := d[start..j], UnitsFrom(d, j);
    if j > start {
      SlicesAppend(d, rs, Range(start, j - start));
      Assoc(Slices(d, rs), [u], rest);
    } else {
      assert [] + rest == rest;
    }
  }

  lemma SkipByte(d: seq<Byte>, i: nat)
    requires i < |d| && CodeLen(d, i) == 0
    ensures UnitsFrom(d, i) == UnitsFrom(d, i + 1)
  {
  }

  lemma SplitEnds(d: seq<Byte>)
    ensures Slices(d, []) == [] && Units(d) == UnitsFrom(d, 0) && UnitsFrom(d, |d|) == []
    ensures |d| < 3 ==> Units(d) == []
  {
    if |d| < 3 {
      NextCodeIs(d, 0, |d|);
    }
  }

  method SplitAnnexB(data: seq<Byte>) returns (nals: seq<Range>)
    ensures InBounds(data, nals)
    ensures Slices(data, nals) == Units(data)
  {
    hide Units, UnitsFrom, Slices, Code;
    nals := [];
    SplitEnds(data);
    if |data| < 3 {
      return;
    }
    var i := 0;
    while i < |data|
      invariant i <= |data|
      invariant InBounds(data, nals)
      invariant Slices(data, nals) + UnitsFrom(data, i) == Units(data)
      decreases |data| - i
    {
      var nalStart := 0;
      ghost var from := i;
      if i + 3 <= |data| && data[i] == 0 && data[i + 1] == 0 && data[i + 2] == 1 {
        nalStart := i + 3;
        i := i + 3;
      } else if i + 4 <= |data| && data[i] == 0 && data[i + 1] == 0 && data[i + 2] == 0 && data[i + 3] == 1 {
        nalStart := i + 4;
        i := i + 4;
      } else {
        SkipByte(data, i);
        i := i + 1;
        continue;
      }
      var j := nalStart;
      while j < |data|
        invariant nalStart <= j <= |data|
        invariant forall k :: nalStart <= k < j ==> CodeLen(data, k) == 0
      {
        if j + 3 <= |data| && data[j] == 0 && data[j + 1] == 0
           && (data[j + 2] == 1 || (j + 4 <= |data| && data[j + 2] == 0 && data[j + 3] == 1)) {
          break;
        }
        j := j + 1;
      }
      assert CodeLen(data, from) == nalStart - from;
      PushUnit(data, nals, from, nalStart, j);
      if j > nalStart {
        nals := nals + [Range(nalStart, j - nalStart)];
      }
      i := j;
    }
  }

  // ---- the split is the one lossless partition of the buffer -----------------

  /** `segs` starts at `at`, and no start code begins inside any of its payloads. */
  ghost predicate NoCodeInside(d: seq<Byte>, at: nat, segs: seq<Segment>)
    decreases |segs|
  {
    segs == [] ||
    var s := segs[0];
    && (forall k :: at + s.code <= k < at + s.code + |s.payload| ==> CodeLen(d, k) == 0)
    && NoCodeInside(d, at + s.code + |s.payload|, segs[1..])
  }

  /** A partition of `d`: a prefix where no start code begins, then codes and payloads. */
  ghost predicate IsPartition(d: seq<Byte>, prefix: seq<Byte>, segs: seq<Segment>) {
    && Printable(segs)
    && d == prefix + Print(segs)
    && (forall k :: 0 <= k < |prefix| ==> CodeLen(d, k) == 0)
    && NoCodeInside(d, |prefix|, segs)
  }

  lemma SegmentsCons(d: seq<Byte>, at: nat, next: nat)
    requires at < |d| && CodeLen(d, at) != 0 && next == NextCode(d, at + CodeLen(d, at))
    ensures Segments(d, at) == [Segment(CodeLen(d, at), d[at + CodeLen(d, at)..next])] + Segments(d, next)
  {
  }

  lemma CodeSlice(d: seq<Byte>, at: nat)
    requires CodeLen(d, at) != 0
    ensures d[at..at + CodeLen(d, at)] == Code(CodeLen(d, at))
  {
  }

  lemma Glue(d: seq<Byte>, at: nat, mid: nat, next: nat)
    requires at <= mid <= next <= |d|
    ensures d[at..] == d[at..mid] + d[mid..next] + d[next..]
  {
    TakeDrop(d, at, mid);
    TakeDrop(d, mid, next);
    Assoc(d[at..mid], d[mid..next], d[next..]);
  }

  lemma {:induction false} SegmentsPrint(d: seq<Byte>, at: nat)
    requires at <= |d| && (at < |d| ==> CodeLen(d, at) != 0)
    ensures d[at..] == Print(Segments(d, at))
    decreases |d| - at
  {
    if at == |d| {
    } else {
      var n := CodeLen(d, at);
      var next := NextCode(d, at + n);
      SegmentsPrint(d, next);
      SegmentsCons(d, at, next);
      hide Segments, Print, Code;
      PrintCons(Segment(n, d[at + n..next]), Segments(d, next));
      CodeSlice(d, at);
      Glue(d, at, at + n, next);
    }
  }

  lemma {:induction false} SegmentsHoldNoCode(d: seq<Byte>, at: nat)
    requires at <= |d| && (at < |d| ==> CodeLen(d, at) != 0)
    ensures NoCodeInside(d, at, Segments(d, at))
    decreases |d| - at
  {
    if at == |d| {
    } else {
      var n := CodeLen(d, at);
      var next := NextCode(d, at + n);
      SegmentsHoldNoCode(d, next);
      SegmentsCons(d, at, next);
      hide Segments, Code;
      assert Segments(d, at)[1..] == Segments(d, next);
    }
  }

  /** Every buffer has a partition, and the splitter returns its non-empty payloads. */
  lemma SplitIsLossless(d: seq<Byte>)
    ensures var p := NextCode(d, 0); IsPartition(d, d[..p], Segments(d, p))
  {
    SegmentsPrint(d, NextCode(d, 0));
    SegmentsHoldNoCode(d, NextCode(d, 0));
    assert d == d[..NextCode(d, 0)] + d[NextCode(d, 0)..];
  }

  lemma CodeLenOfSlice(d: seq<Byte>, at: nat, n: nat)
    requires (n == 3 || n == 4) && at + n <= |d| && d[at..at + n] == Code(n)
    ensures CodeLen(d, at) == n
  {
    assert forall k :: at <= k < at + n ==> d[k] == d[at..at + n][k - at];
  }

  lemma CodeSize(n: nat)
    requires n == 3 || n == 4
    ensures |Code(n)| == n
  {
  }

  lemma PrintHead(segs: seq<Segment>)
    requires segs != []
    ensures Print(segs) == Code(segs[0].code) + segs[0].payload + Print(segs[1..])
  {
  }

  lemma HeadParts(d: seq<Byte>, at: nat, s: Segment, rest: seq<Byte>)
    requires (s.code == 3 || s.code == 4) && at <= |d| && d[at..] == Code(s.code) + s.payload + rest
    ensures at + s.code + |s.payload| <= |d|
    ensures CodeLen(d, at) == s.code
    ensures d[at + s.code..at + s.code + |s.payload|] == s.payload
    ensures d[at + s.code + |s.payload|..] == rest
  {
    hide CodeLen;
    PartsOfSuffix(d, at, Code(s.code), s.payload, rest);
    CodeLenOfSlice(d, at, s.code);
  }

  lemma CodeAtHead(d: seq<Byte>, at: nat, segs: seq<Segment>)
    requires Printable(segs) && segs != [] && at <= |d| && d[at..] == Print(segs)
    ensures at + segs[0].code + |segs[0].payload| <= |d|
    ensures CodeLen(d, at) == segs[0].code
    ensures segs[0].payload == d[at + segs[0].code..at + segs[0].code + |segs[0].payload|]
    ensures d[at + segs[0].code + |segs[0].payload|..] == Print(segs[1..])
  {
    hide Print, CodeLen, Code;
    var s := segs[0];
    CodeSize(s.code);
    PrintHead(segs);
    HeadParts(d, at, s, Print(segs[1..]));
  }

  lemma {:induction false} SegmentsUnique(d: seq<Byte>, at: nat, segs: seq<Segment>)
    requires Printable(segs) && at <= |d| && d[at..] == Print(segs)
    requires NoCodeInside(d, at, segs)
    ensures at < |d| ==> CodeLen(d, at) != 0
    ensures Segments(d, at) == segs
    decreases |segs|
  {
    hide Print, Code, CodeLen;
    if segs == [] {
      PrintNothing();
    } else {
      CodeAtHead(d, at, segs);
      var s := segs[0];
      var next := at + s.code + |s.payload|;
      SegmentsUnique(d, next, segs[1..]);
      NextCodeIs(d, at + s.code, next);
    }
  }

  /** The partition is unique, so the unit list is determined by the buffer alone. */
  lemma PartitionUnique(d: seq<Byte>, prefix: seq<Byte>, segs: seq<Segment>)
    requires IsPartition(d, prefix, segs)
    ensures prefix == d[..NextCode(d, 0)]
    ensures segs == Segments(d, NextCode(d, 0))
    ensures Units(d) == NonEmpty(Payloads(segs))
  {
    assert d[|prefix|..] == Print(segs);
    SegmentsUnique(d, |prefix|, segs);
    NextCodeIs(d, 0, |prefix|);
  }

  lemma {:induction false} SegmentPayloadsClean(d: seq<Byte>, at: nat)
    requires at <= |d| && (at < |d| ==> CodeLen(d, at) != 0)
    ensures forall k :: 0 <= k < |Segments(d, at)| ==> FreeOfStartCode(Segments(d, at)[k].payload)
    decreases |d| - at
  {
    if at == |d| {
    } else {
      var n := CodeLen(d, at);
      var next := NextCode(d, at + n);
      SegmentPayloadsClean(d, next);
      var u := d[at + n..next];
      forall k | 0 <= k && k + 3 <= |u| ensures !(u[k] == 0 && u[k + 1] == 0 && u[k + 2] == 1) {
        assert CodeLen(d, at + n + k) == 0;
      }
      assert Segments(d, at)[1..] == Segments(d, next);
    }
  }

  lemma {:induction false} NonEmptyMembers(us: seq<seq<Byte>>)
    ensures forall u :: u in NonEmpty(us) <==> u in us && u != []
  {
    if us == [] {
    } else {
      NonEmptyMembers(us[1..]);
    }
  }

  lemma UnitsAreClean(d: seq<Byte>)
    ensures forall u :: u in Units(d) ==> u != [] && FreeOfStartCode(u)
  {
    SegmentPayloadsClean(d, NextCode(d, 0));
    NonEmptyMembers(Payloads(Segments(d, NextCode(d, 0))));
  }

  // ---- printing and splitting again -------------------------------------------

  predicate EndsInZero(u: seq<Byte>) {
    u != [] && u[|u| - 1] == 0
  }

  /** A zero byte before a three-byte code reads as part of a four-byte code. */
  predicate Swallowed(segs: seq<Segment>, k: nat)
    requires k < |segs|
  {
    k + 1 < |segs| && segs[k + 1].code == 3 && EndsInZero(segs[k].payload)
  }

  predicate Canonical(segs: seq<Segment>) {
    && Printable(segs)
    && (forall k :: 0 <= k < |segs| ==> FreeOfStartCode(segs[k].payload) && !Swallowed(segs, k))
  }

  lemma CanonicalTail(segs: seq<Segment>)
    requires Canonical(segs) && segs != []
    ensures Canonical(segs[1..])
  {
    var t := segs[1..];
    forall k | 0 <= k < |t| ensures FreeOfStartCode(t[k].payload) && !Swallowed(t, k) {
      assert !Swallowed(segs, k + 1);
    }
  }

  /** A byte of the payload `p` or of what follows it. */
  function At(p: seq<Byte>, rest: seq<Byte>, m: nat): Byte
    requires m < |p| + |rest|
  {
    if m < |p| then p[m] else rest[m - |p|]
  }

  lemma NoCodeAcross(d: seq<Byte>, start: nat, p: seq<Byte>, rest: seq<Byte>, m: nat)
    requires FreeOfStartCode(p) && m < |p| && start + |p| + |rest| == |d|
    requires d[start..start + |p|] == p && d[start + |p|..] == rest
    requires rest == [] || CodeLen(rest, 0) == 4 || (CodeLen(rest, 0) == 3 && !EndsInZero(p))
    ensures CodeLen(d, start + m) == 0
  {
    assert forall k :: start <= k < start + |p| ==> d[k] == d[start..start + |p|][k - start];
    assert forall k :: start + |p| <= k < |d| ==> d[k] == d[start + |p|..][k - start - |p|];
    assert forall k :: start <= k < |d| ==> d[k] == At(p, rest, k - start);
    if m + 3 <= |p| {
      assert !(p[m] == 0 && p[m + 1] == 0 && p[m + 2] == 1);
    }
    if m + 4 <= |p| {
      assert !(p[m + 1] == 0 && p[m + 2] == 0 && p[m + 3] == 1);
    }
  }

  lemma CodeLenOfTail(d: seq<Byte>, at: nat)
    requires at <= |d|
    ensures CodeLen(d[at..], 0) == CodeLen(d, at)
  {
  }

  lemma NoCodeInHeadPayload(d: seq<Byte>, at: nat, segs: seq<Segment>, k: nat)
    requires Canonical(segs) && segs != [] && at <= |d| && d[at..] == Print(segs)
    requires at + segs[0].code <= k < at + segs[0].code + |segs[0].payload|
    ensures CodeLen(d, k) == 0
  {
    hide Print, CodeLen;
    CodeAtHead(d, at, segs);
    var p := segs[0].payload;
    var start := at + segs[0].code;
    var rest := Print(segs[1..]);
    assert !Swallowed(segs, 0);
    if |segs| > 1 {
      CodeAtHead(d, start + |p|, segs[1..]);
      CodeLenOfTail(d, start + |p|);
    } else {
      assert rest == [] by { PrintNothing(); }
    }
    NoCodeAcross(d, start, p, rest, k - start);
  }

  lemma PrintNothing()
    ensures Print([]) == []
  {
  }

  lemma {:induction false} CanonicalHasNoCodeInside(d: seq<Byte>, at: nat, segs: seq<Segment>)
    requires Canonical(segs) && at <= |d| && d[at..] == Print(segs)
    ensures NoCodeInside(d, at, segs)
    decreases |segs|
  {
    hide Print, CodeLen, Code;
    if segs == [] {
    } else {
      CodeAtHead(d, at, segs);
      CanonicalTail(segs);
      CanonicalHasNoCodeInside(d, at + segs[0].code + |segs[0].payload|, segs[1..]);
      forall k | at + segs[0].code <= k < at + segs[0].code + |segs[0].payload|
        ensures CodeLen(d, k) == 0
      {
        NoCodeInHeadPayload(d, at, segs, k);
      }
    }
  }

  /** Moves each swallowed zero from its payload into the start code behind it. */
  function Normalize(segs: seq<Segment>): (r: seq<Segment>)
    ensures |r| == |segs|
    decreases |segs|
  {
    if segs == [] then []
    else if Swallowed(segs, 0) then
      var p := segs[0].payload;
      [segs[0].(payload := p[..|p| - 1])] + Normalize([segs[1].(code := 4)] + segs[2..])
    else [segs[0]] + Normalize(segs[1..])
  }

  lemma MovedZeroPrints(s: Segment, next: Segment, rest: seq<Segment>)
    requires EndsInZero(s.payload) && next.code == 3
    ensures var p := s.payload;
            Code(s.code) + p[..|p| - 1] + Print([next.(code := 4)] + rest) == Print([s] + ([next] + rest))
  {
    hide Print;
    var c, p, q := Code(s.code), s.payload, next.payload + Print(rest);
    var p' := p[..|p| - 1];
    PrintCons(s, [next] + rest);
    PrintCons(next, rest);
    PrintCons(next.(code := 4), rest);
    Assoc(Code(3), next.payload, Print(rest));
    Assoc(Code(4), next.payload, Print(rest));
    assert Code(4) == [0] + Code(3);
    assert p == p' + [0];
    MoveZero(c, p', q);
  }

  lemma MoveZero(c: seq<Byte>, p: seq<Byte>, q: seq<Byte>)
    ensures c + p + (([0] + Code(3)) + q) == c + (p + [0]) + (Code(3) + q)
  {
    Assoc([0], Code(3), q);
    Assoc(c + p, [0], Code(3) + q);
    Assoc(c, p, [0]);
  }

  lemma {:induction false} NormalizePrints(segs: seq<Segment>)
    requires Printable(segs)
    ensures Printable(Normalize(segs))
    ensures segs != [] ==> Normalize(segs)[0].code == segs[0].code
    ensures Print(Normalize(segs)) == Print(segs)
    decreases |segs|
  {
    if segs == [] {
    } else {
      var n := Normalize(segs);
      if Swallowed(segs, 0) {
        var moved := [segs[1].(code := 4)] + segs[2..];
        NormalizePrints(moved);
        assert segs == [segs[0]] + ([segs[1]] + segs[2..]);
        MovedZeroPrints(segs[0], segs[1], segs[2..]);
        assert n == [n[0]] + Normalize(moved);
        PrintCons(n[0], Normalize(moved));
      } else {
        NormalizePrints(segs[1..]);
        assert n[1..] == Normalize(segs[1..]);
        assert Print(n) == Print(segs);
      }
    }
  }

  lemma {:induction false} NormalizeCanonical(segs: seq<Segment>)
    requires Printable(segs)
    requires forall k :: 0 <= k < |segs| ==> FreeOfStartCode(segs[k].payload)
    ensures Canonical(Normalize(segs))
    decreases |segs|
  {
    if segs == [] {
    } else {
      var n := Normalize(segs);
      var rest := if Swallowed(segs, 0) then [segs[1].(code := 4)] + segs[2..] else segs[1..];
      NormalizeCanonical(rest);
      NormalizePrints(rest);
      assert n[1..] == Normalize(rest);
      assert !Swallowed(n, 0);
      forall k | 0 <= k < |n| ensures FreeOfStartCode(n[k].payload) && !Swallowed(n, k) {
        if k > 0 {
          assert n[k] == Normalize(rest)[k - 1];
          assert !Swallowed(Normalize(rest), k - 1);
        }
      }
    }
  }

  /** Splitting printed segments, for every mix of codes and every clean payload. */
  lemma SplitOfPrint(segs: seq<Segment>)
    requires Printable(segs)
    requires forall k :: 0 <= k < |segs| ==> FreeOfStartCode(segs[k].payload)
    ensures Units(Print(segs)) == NonEmpty(Payloads(Normalize(segs)))
  {
    var n := Normalize(segs);
    var d := Print(segs);
    NormalizePrints(segs);
    NormalizeCanonical(segs);
    assert d[0..] == Print(n);
    CanonicalHasNoCodeInside(d, 0, n);
    assert d == [] + Print(n);
    PartitionUnique(d, [], n);
  }

  ghost predicate SurvivesPrinting(segs: seq<Segment>) {
    forall k :: 0 <= k < |segs| ==>
      && segs[k].payload != []
      && FreeOfStartCode(segs[k].payload)
      && !Swallowed(segs, k)
  }

  function TotalSize(us: seq<seq<Byte>>): nat {
    if us == [] then 0 else |us[0]| + TotalSize(us[1..])
  }

  lemma {:induction false} NonEmptyKeepsSize(us: seq<seq<Byte>>)
    ensures TotalSize(NonEmpty(us)) == TotalSize(us)
    ensures (forall k :: 0 <= k < |us| ==> us[k] != []) ==> NonEmpty(us) == us
  {
    if us == [] {
    } else {
      var t := us[1..];
      NonEmptyKeepsSize(t);
      if us[0] != [] {
        assert NonEmpty(us) == [us[0]] + NonEmpty(t);
        hide NonEmpty;
        assert ([us[0]] + NonEmpty(t))[1..] == NonEmpty(t);
        assert us == [us[0]] + t;
      } else {
        assert NonEmpty(us) == [] + NonEmpty(t) == NonEmpty(t);
      }
    }
  }

  lemma PayloadsTail(segs: seq<Segment>)
    requires segs != []
    ensures Payloads(segs)[1..] == Payloads(segs[1..])
  {
  }

  lemma {:induction false} NormalizeSize(segs: seq<Segment>)
    ensures TotalSize(Payloads(Normalize(segs))) <= TotalSize(Payloads(segs))
    ensures (exists k :: 0 <= k < |segs| && Swallowed(segs, k)) ==>
              TotalSize(Payloads(Normalize(segs))) < TotalSize(Payloads(segs))
    ensures (forall k :: 0 <= k < |segs| ==> !Swallowed(segs, k)) ==> Normalize(segs) == segs
    decreases |segs|
  {
    if segs == [] {
    } else {
      var n := Normalize(segs);
      PayloadsTail(segs);
      PayloadsTail(n);
      if Swallowed(segs, 0) {
        var moved := [segs[1].(code := 4)] + segs[2..];
        NormalizeSize(moved);
        assert n[1..] == Normalize(moved);
        assert Payloads(moved) == Payloads(segs[1..]);
      } else {
        NormalizeSize(segs[1..]);
        assert n[1..] == Normalize(segs[1..]);
        forall k | 0 <= k < |segs| && Swallowed(segs, k) ensures Swallowed(segs[1..], k - 1) && k > 0 {
        }
        forall k | 0 <= k < |segs[1..]| && Swallowed(segs[1..], k) ensures Swallowed(segs, k + 1) {
        }
      }
    }
  }

  /**
   Printing then splitting gives the list back exactly when every unit is non-empty,
   free of 00 00 01, and does not end in 00 in front of a three-byte start code.
   */
  lemma RoundTripIff(segs: seq<Segment>)
    requires Printable(segs)
    ensures Units(Print(segs)) == Payloads(segs) <==> SurvivesPrinting(segs)
  {
    var d := Print(segs);
    if SurvivesPrinting(segs) {
      SplitOfPrint(segs);
      NormalizeSize(segs);
      NonEmptyKeepsSize(Payloads(segs));
    }
    if Units(d) == Payloads(segs) {
      UnitsAreClean(d);
      forall k | 0 <= k < |segs|
        ensures segs[k].payload != [] && FreeOfStartCode(segs[k].payload)
      {
        assert Payloads(segs)[k] in Units(d);
      }
      SplitOfPrint(segs);
      NonEmptyKeepsSize(Payloads(Normalize(segs)));
      NormalizeSize(segs);
    }
  }

  // ---- length-prefixed samples --------------------------------------------------

  function Be32(n: nat): (b: seq<Byte>)
    ensures |b| == 4
  {
    [(n / 0x100_0000) % 256, (n / 0x1_0000) % 256, (n / 0x100) % 256, n % 256]
  }

  function Be32Value(b: seq<Byte>): (n: nat)
    requires |b| >= 4
  {
    b[0] as int * 0x100_0000 + b[1] as int * 0x1_0000 + b[2] as int * 0x100 + b[3] as int
  }

  lemma Div16(q: nat, r: nat)
    requires r < 0x1_0000
    ensures (q * 0x1_0000 + r) / 0x1_0000 == q
  {
  }

  lemma Div24(q: nat, r: nat)
    requires r < 0x100_0000
    ensures (q * 0x100_0000 + r) / 0x100_0000 == q
  {
  }

  lemma Mod32(q: nat, r: nat)
    requires r < 0x1_0000_0000
    ensures (q * 0x1_0000_0000 + r) % 0x1_0000_0000 == r
  {
  }

  /** The four bytes are the length's digits to the base 256, the most significant first. */
  lemma Be32Digits(n: nat)
    ensures var b := Be32(n);
            b[0] as int * 0x100_0000 + b[1] as int * 0x1_0000 + b[2] as int * 0x100 + b[3] as int == n % 0x1_0000_0000
    ensures Be32Value(Be32(n)) == n % 0x1_0000_0000
  {
    var n1 := n / 256;
    var n2 := n1 / 256;
    var n3 := n2 / 256;
    var r2 := n1 % 256 * 256 + n % 256;
    var r3 := n2 % 256 * 0x1_0000 + r2;
    var r4 := n3 % 256 * 0x100_0000 + r3;
    Div16(n2, r2);
    Div24(n3, r3);
    Mod32(n3 / 256, r4);
  }

  lemma Be32RoundTrip(n: nat, rest: seq<Byte>)
    ensures Be32Value(Be32(n) + rest) == n % 0x1_0000_0000
  {
    var b := Be32(n);
    Be32Digits(n);
    assert forall k :: 0 <= k < 4 ==> (b + rest)[k] == b[k];
  }

  function Sample(u: seq<Byte>): seq<Byte> {
    Be32(|u|) + u
  }

  function EncodeAvcc(us: seq<seq<Byte>>): seq<Byte> {
    if us == [] then [] else Sample(us[0]) + EncodeAvcc(us[1..])
  }

  /** The reader of section 5.2.3 of ISO/IEC 14496-15 with four-byte lengths. */
  function DecodeAvcc(b: seq<Byte>): Option<seq<seq<Byte>>>
    decreases |b|
  {
    if b == [] then Some([])
    else if |b| < 4 || 4 + Be32Value(b) > |b| then None
    else
      var end := 4 + Be32Value(b);
      match DecodeAvcc(b[end..])
      case None => None
      case Some(rest) => Some([b[4..end]] + rest)
  }

  function UnitsOrWhole(d: seq<Byte>): seq<seq<Byte>> {
    if d == [] then [] else if Units(d) == [] then [d] else Units(d)
  }

  lemma {:induction false} EncodeAvccAppend(us: seq<seq<Byte>>, u: seq<Byte>)
    ensures EncodeAvcc(us + [u]) == EncodeAvcc(us) + Sample(u)
  {
    if us == [] {
      assert us + [u] == [u];
      assert [u][1..] == [];
    } else {
      EncodeAvccAppend(us[1..], u);
      assert (us + [u])[1..] == us[1..] + [u];
    }
  }

  lemma EncodeNothing()
    ensures EncodeAvcc([]) == []
  {
  }

  method AnnexBToAvcc(data: seq<Byte>) returns (out: seq<Byte>)
    ensures out == EncodeAvcc(UnitsOrWhole(data))
  {
    hide Units, Be32, EncodeAvcc, Sample;
    EncodeNothing();
    out := [];
    if |data| == 0 {
      return;
    }
    var nals := SplitAnnexB(data);
    if nals == [] {
      out := Sample(data);
      EncodeAvccAppend([], data);
      assert [] + [data] == [data] && [] + Sample(data) == Sample(data);
      return;
    }
    ghost var us := Slices(data, nals);
    var k := 0;
    while k < |nals|
      invariant 0 <= k <= |nals|
      invariant out == EncodeAvcc(us[..k])
    {
      var r := nals[k];
      EncodeAvccAppend(us[..k], us[k]);
      assert us[..k + 1] == us[..k] + [us[k]];
      out := out + Sample(data[r.start..r.start + r.size]);
      k := k + 1;
    }
    assert us[..k] == us;
  }

  lemma SampleParts(u: seq<Byte>, rest: seq<Byte>)
    ensures Be32Value(Sample(u) + rest) == |u| % 0x1_0000_0000
    ensures (Sample(u) + rest)[4..4 + |u|] == u
    ensures (Sample(u) + rest)[4 + |u|..] == rest
  {
    assert Sample(u) + rest == Be32(|u|) + (u + rest);
    Be32RoundTrip(|u|, u + rest);
  }

  lemma DecodeStep(u: seq<Byte>, rest: seq<Byte>)
    ensures |u| < 0x1_0000_0000 ==>
              DecodeAvcc(Sample(u) + rest) ==
                match DecodeAvcc(rest) { case None => None case Some(us) => Some([u] + us) }
    ensures |u| >= 0x1_0000_0000 ==>
              var r := DecodeAvcc(Sample(u) + rest);
              r == None || r.value == [] || |r.value[0]| != |u|
  {
    SampleParts(u, rest);
    hide Sample, Be32;
    assert |Sample(u)| == 4 + |u| by { SampleSize(u); }
  }

  lemma SampleSize(u: seq<Byte>)
    ensures |Sample(u)| == 4 + |u|
  {
  }

  /** A sample list decodes to its units exactly when every unit is shorter than 2^32. */
  lemma {:induction false} AvccRoundTripIff(us: seq<seq<Byte>>)
    ensures DecodeAvcc(EncodeAvcc(us)) == Some(us)
            <==> forall k :: 0 <= k < |us| ==> |us[k]| < 0x1_0000_0000
    decreases |us|
  {
    if us == [] {
    } else {
      AvccRoundTripIff(us[1..]);
      DecodeStep(us[0], EncodeAvcc(us[1..]));
      var r := DecodeAvcc(EncodeAvcc(us));
      if r == Some(us) {
        assert [us[0]] + us[1..] == us;
        assert |us[0]| < 0x1_0000_0000;
        match DecodeAvcc(EncodeAvcc(us[1..])) {
          case None =>
          case Some(t) =>
            assert us[1..] == ([us[0]] + t)[1..] == t;
        }
        forall k | 0 <= k < |us| ensures |us[k]| < 0x1_0000_0000 {
          if k > 0 { assert us[k] == us[1..][k - 1]; }
        }
      }
      if forall k :: 0 <= k < |us| ==> |us[k]| < 0x1_0000_0000 {
        assert us == [us[0]] + us[1..];
      }
    }
  }

  lemma {:induction false} SegmentsFit(d: seq<Byte>, at: nat)
    requires at <= |d| && (at < |d| ==> CodeLen(d, at) != 0)
    ensures forall k :: 0 <= k < |Segments(d, at)| ==> |Segments(d, at)[k].payload| <= |d|
    decreases |d| - at
  {
    if at == |d| {
    } else {
      var next := NextCode(d, at + CodeLen(d, at));
      SegmentsFit(d, next);
      assert Segments(d, at)[1..] == Segments(d, next);
    }
  }

  lemma UnitsFit(d: seq<Byte>)
    ensures forall u :: u in UnitsOrWhole(d) ==> |u| <= |d|
  {
    SegmentsFit(d, NextCode(d, 0));
    NonEmptyMembers(Payloads(Segments(d, NextCode(d, 0))));
  }

  /** Decoding the converter's output gives the splitter's units, or the whole buffer as one. */
  lemma AvccOfAnnexB(d: seq<Byte>)
    requires |d| < 0x1_0000_0000
    ensures DecodeAvcc(EncodeAvcc(UnitsOrWhole(d))) == Some(UnitsOrWhole(d))
  {
    UnitsFit(d);
    AvccRoundTripIff(UnitsOrWhole(d));
  }

  lemma EncodeEmptyIff(d: seq<Byte>)
    ensures EncodeAvcc(UnitsOrWhole(d)) == [] <==> d == []
  {
  }

  // ---- what the codec is fed --------------------------------------------------------

  /** The buffer is start codes and payloads from its first byte on. */
  ghost predicate IsByteStream(d: seq<Byte>) {
    exists segs :: segs != [] && IsPartition(d, [], segs)
  }

  /** The source's test of the first four bytes decides whether the buffer is a byte stream. */
  lemma LooksLikeAnnexBIff(d: seq<Byte>)
    ensures LooksLikeAnnexB(d) <==> |d| >= 4 && IsByteStream(d)
  {
    if LooksLikeAnnexB(d) {
      SplitIsLossless(d);
      NextCodeIs(d, 0, 0);
      assert d[..0] == [];
      assert IsPartition(d, [], Segments(d, 0));
    }
    if |d| >= 4 && IsByteStream(d) {
      var segs :| segs != [] && IsPartition(d, [], segs);
      PrintedLooksLikeAnnexB(segs);
      assert d == Print(segs);
    }
  }

  lemma PrintedLooksLikeAnnexB(segs: seq<Segment>)
    requires Printable(segs) && |Print(segs)| >= 4
    ensures LooksLikeAnnexB(Print(segs))
  {
    var d := Print(segs);
    assert d[0..] == d;
    CodeAtHead(d, 0, segs);
  }

  method Feed(data: seq<Byte>) returns (fed: seq<Byte>)
    ensures |data| >= 4 && IsByteStream(data) ==> fed == data
    ensures !(|data| >= 4 && IsByteStream(data)) ==> fed == EncodeAvcc(UnitsOrWhole(data))
    ensures !(|data| >= 4 && IsByteStream(data)) && |data| < 0x1_0000_0000 ==>
              DecodeAvcc(fed) == Some(UnitsOrWhole(data))
    ensures forall segs :: Printable(segs) && data == Print(segs) && |data| >= 4 ==> fed == data
    ensures fed == if LooksLikeAnnexB(data) then data else EncodeAvcc(UnitsOrWhole(data))
    ensures fed == [] <==> data == []
  {
    hide Print, UnitsOrWhole;
    LooksLikeAnnexBIff(data);
    forall segs | Printable(segs) && data == Print(segs) && |data| >= 4 ensures LooksLikeAnnexB(data) {
      PrintedLooksLikeAnnexB(segs);
    }
    if LooksLikeAnnexB(data) {
      fed := data;
    } else {
      fed := AnnexBToAvcc(data);
      EncodeEmptyIff(data);
      if |data| < 0x1_0000_0000 {
        AvccOfAnnexB(data);
      }
    }
  }
}

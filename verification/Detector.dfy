/** What becomes of the raw faces that the detection library reports for one image. */
module Detector {
  import opened Basics

  datatype RawFace = RawFace(confidence: real, x: real, y: real, w: real, h: real, embedding: seq<real>)

  datatype DetectedFace = DetectedFace(x: real, y: real, width: real, height: real,
                                       confidence: real, embedding: seq<real>, variance: real)

  datatype Settings = Settings(detectionThreshold: real, blurThreshold: real, minFaceSizePixels: int)

  /** The image: its size, and the sharpness of a region given by its pixel edges. */
  datatype Image = Image(width: nat, height: nat, sharpness: (int, int, int, int) -> real)

  function Clamp(r: real): real {
    if r < 0.0 then 0.0 else if r > 1.0 then 1.0 else r
  }

  function MaxInt(a: int, b: int): int { if a >= b then a else b }

  function MinInt(a: int, b: int): int { if a <= b then a else b }

  // ---------------------------------------------------------------------
  // Which faces pass
  // ---------------------------------------------------------------------

  datatype Verdict = Unsure | TooSmall | Blurry | Passed

  // The pixels of the face that lie in the image; None when there are none.
  datatype Region = Nothing | Region(left: int, top: int, right: int, bottom: int)

  function RegionOf(img: Image, f: RawFace): Region {
    var left, top := MaxInt(0, Truncated(f.x)), MaxInt(0, Truncated(f.y));
    var right, bottom := MinInt(img.width, Truncated(f.x + f.w)), MinInt(img.height, Truncated(f.y + f.h));
    if right > left && bottom > top then Region(left, top, right, bottom) else Nothing
  }

  function Variance(img: Image, f: RawFace): real {
    match RegionOf(img, f)
    case Nothing => 0.0
    case Region(left, top, right, bottom) => img.sharpness(left, top, right, bottom)
  }

  // The first filter that a face fails; a face outside the image is not asked to be sharp.
  function Judge(cfg: Settings, img: Image, f: RawFace): Verdict {
    if f.confidence < cfg.detectionThreshold then Unsure
    else if cfg.minFaceSizePixels > 0 && f.w <= cfg.minFaceSizePixels as real && f.h <= cfg.minFaceSizePixels as real then TooSmall
    else if cfg.blurThreshold > 0.0 && RegionOf(img, f).Region? && Variance(img, f) < cfg.blurThreshold then Blurry
    else Passed
  }

  function Normalised(img: Image, f: RawFace): DetectedFace
    requires img.width > 0 && img.height > 0
  {
    DetectedFace(Clamp(f.x / img.width as real), Clamp(f.y / img.height as real),
                 Clamp(f.w / img.width as real), Clamp(f.h / img.height as real),
                 f.confidence, f.embedding, Variance(img, f))
  }

  function CountOf(cfg: Settings, img: Image, raw: seq<RawFace>, verdict: Verdict): nat {
    if raw == [] then 0
    else
      var n := |raw| - 1;
      CountOf(cfg, img, raw[..n], verdict) + (if Judge(cfg, img, raw[n]) == verdict then 1 else 0)
  }

  function Survivors(cfg: Settings, img: Image, raw: seq<RawFace>): seq<DetectedFace>
    requires img.width > 0 && img.height > 0
  {
    if raw == [] then []
    else
      var n := |raw| - 1;
      Survivors(cfg, img, raw[..n]) + (if Judge(cfg, img, raw[n]) == Passed then [Normalised(img, raw[n])] else [])
  }

  ghost predicate InUnitSquare(f: DetectedFace) {
    0.0 <= f.x <= 1.0 && 0.0 <= f.y <= 1.0 && 0.0 <= f.width <= 1.0 && 0.0 <= f.height <= 1.0
  }

  /** Every raw face is accounted for once: it survives, or one filter counts it. */
  lemma {:induction false} FacesAccountedFor(cfg: Settings, img: Image, raw: seq<RawFace>)
    requires img.width > 0 && img.height > 0
    ensures |Survivors(cfg, img, raw)| + CountOf(cfg, img, raw, Unsure) + CountOf(cfg, img, raw, TooSmall)
            + CountOf(cfg, img, raw, Blurry) == |raw|
    ensures |Survivors(cfg, img, raw)| == CountOf(cfg, img, raw, Passed)
    ensures forall f | f in Survivors(cfg, img, raw) :: InUnitSquare(f) && f.confidence >= cfg.detectionThreshold
    decreases |raw|
  {
    if raw != [] { FacesAccountedFor(cfg, img, raw[..|raw| - 1]); }
  }

  // ---------------------------------------------------------------------
  // What the filters and the results mean
  // ---------------------------------------------------------------------

  predicate InRegion(region: Region, column: int, row: int) {
    region.Region? && region.left <= column < region.right && region.top <= row < region.bottom
  }

  // The pixel is in the image and in the face, whose edges are truncated to whole pixels.
  predicate FacePixel(img: Image, f: RawFace, column: int, row: int) {
    && 0 <= column < img.width && Truncated(f.x) <= column < Truncated(f.x + f.w)
    && 0 <= row < img.height && Truncated(f.y) <= row < Truncated(f.y + f.h)
  }

  /** Sharpness is measured on exactly the pixels that the face and the image share. */
  lemma RegionIsSharedPixels(img: Image, f: RawFace, column: int, row: int)
    ensures InRegion(RegionOf(img, f), column, row) <==> FacePixel(img, f, column, row)
  {
  }

  lemma RegionWhenShared(img: Image, f: RawFace)
    ensures RegionOf(img, f).Region? <==> exists column, row :: FacePixel(img, f, column, row)
  {
    var region := RegionOf(img, f);
    if region.Region? {
      assert FacePixel(img, f, region.left, region.top);
    }
  }

  /** The sharpness is that of these pixels, and zero when there are none. */
  lemma SharpnessOfSharedPixels(img: Image, f: RawFace)
    ensures if exists column, row :: FacePixel(img, f, column, row)
            then Variance(img, f) == img.sharpness(MaxInt(0, Truncated(f.x)), MaxInt(0, Truncated(f.y)),
                                                   MinInt(img.width, Truncated(f.x + f.w)), MinInt(img.height, Truncated(f.y + f.h)))
            else Variance(img, f) == 0.0
  {
    RegionWhenShared(img, f);
  }

  predicate LongEnough(cfg: Settings, f: RawFace) {
    cfg.minFaceSizePixels <= 0 || f.w > cfg.minFaceSizePixels as real || f.h > cfg.minFaceSizePixels as real
  }

  ghost predicate SharpEnough(cfg: Settings, img: Image, f: RawFace) {
    cfg.blurThreshold <= 0.0 || Variance(img, f) >= cfg.blurThreshold || !exists column, row :: FacePixel(img, f, column, row)
  }

  /** A face passes if and only if it is certain enough, one of its sides is longer than the
      minimum (if there is one), and where it shares pixels with the image these are sharp
      enough (if that is asked for); otherwise the first of the three that fails counts it. */
  lemma JudgedExactlyWhen(cfg: Settings, img: Image, f: RawFace)
    ensures Judge(cfg, img, f) == Unsure <==> !(f.confidence >= cfg.detectionThreshold)
    ensures Judge(cfg, img, f) == TooSmall <==> f.confidence >= cfg.detectionThreshold && !LongEnough(cfg, f)
    ensures Judge(cfg, img, f) == Blurry
       <==> f.confidence >= cfg.detectionThreshold && LongEnough(cfg, f) && !SharpEnough(cfg, img, f)
    ensures Judge(cfg, img, f) == Passed
       <==> f.confidence >= cfg.detectionThreshold && LongEnough(cfg, f) && SharpEnough(cfg, img, f)
  {
    RegionWhenShared(img, f);
  }

  ghost predicate Inside(img: Image, f: RawFace) {
    0.0 <= f.x && 0.0 <= f.w && f.x + f.w <= img.width as real && 0.0 <= f.y && 0.0 <= f.h && f.y + f.h <= img.height as real
  }

  // Scaled back to pixels, one edge and one side of the result are those of the face.
  predicate Spans(share: real, size: real, at: real, length: real, n: nat) {
    share * n as real == at && size * n as real == length
  }

  /** A result tells of a raw face: its box is the box of the face, if that lies in the image;
      the rest is passed on, with the sharpness of its pixels. */
  ghost predicate Describes(img: Image, d: DetectedFace, f: RawFace) {
    && d.confidence == f.confidence && d.embedding == f.embedding && d.variance == Variance(img, f)
    && (Inside(img, f) ==> Spans(d.x, d.width, f.x, f.w, img.width) && Spans(d.y, d.height, f.y, f.h, img.height))
  }

  lemma Scaled(part: real, n: nat)
    requires n > 0 && 0.0 <= part <= n as real
    ensures Clamp(part / n as real) * n as real == part
  {
    var share := part / n as real;
    assert share * n as real == part;
    assert share >= 0.0;
    assert share <= 1.0;
  }

  lemma ScaledSpan(at: real, length: real, n: nat)
    requires n > 0 && 0.0 <= at && 0.0 <= length && at + length <= n as real
    ensures Spans(Clamp(at / n as real), Clamp(length / n as real), at, length, n)
  {
    Scaled(at, n);
    Scaled(length, n);
  }

  lemma NormalisedDescribes(img: Image, f: RawFace)
    requires img.width > 0 && img.height > 0
    ensures Describes(img, Normalised(img, f), f)
  {
    if Inside(img, f) {
      ScaledSpan(f.x, f.w, img.width);
      ScaledSpan(f.y, f.h, img.height);
    }
  }

  /** And if the face does not lie in the image, each coordinate is the nearest in [0, 1]. */
  lemma ClampIsNearest(r: real, other: real)
    requires 0.0 <= other <= 1.0
    ensures 0.0 <= Clamp(r) <= 1.0
    ensures if r >= Clamp(r) then r - Clamp(r) <= (if r >= other then r - other else other - r)
            else Clamp(r) - r <= (if r >= other then r - other else other - r)
  {
  }

  // Each result describes a face that passes, and each face that passes is described.
  ghost predicate ReportsPassed(cfg: Settings, img: Image, raw: seq<RawFace>, results: seq<DetectedFace>) {
    && (forall d | d in results :: DescribesOne(cfg, img, raw, d))
    && (forall f | f in raw && Judge(cfg, img, f) == Passed :: exists d :: d in results && Describes(img, d, f))
  }

  ghost predicate DescribesOne(cfg: Settings, img: Image, raw: seq<RawFace>, d: DetectedFace) {
    exists f :: f in raw && Judge(cfg, img, f) == Passed && Describes(img, d, f)
  }

  lemma {:induction false} SurvivorComesFrom(cfg: Settings, img: Image, raw: seq<RawFace>, d: DetectedFace)
    requires img.width > 0 && img.height > 0
    requires d in Survivors(cfg, img, raw)
    ensures exists f :: f in raw && Judge(cfg, img, f) == Passed && d == Normalised(img, f)
    decreases |raw|
  {
    var n := |raw| - 1;
    if d in Survivors(cfg, img, raw[..n]) {
      SurvivorComesFrom(cfg, img, raw[..n], d);
      var f :| f in raw[..n] && Judge(cfg, img, f) == Passed && d == Normalised(img, f);
      assert f in raw;
    } else {
      assert raw[n] in raw;
    }
  }

  lemma {:induction false} PassedSurvives(cfg: Settings, img: Image, raw: seq<RawFace>, f: RawFace)
    requires img.width > 0 && img.height > 0
    requires f in raw && Judge(cfg, img, f) == Passed
    ensures Normalised(img, f) in Survivors(cfg, img, raw)
    decreases |raw|
  {
    var n := |raw| - 1;
    assert raw == raw[..n] + [raw[n]];
    if f in raw[..n] { PassedSurvives(cfg, img, raw[..n], f); }
  }

  lemma SurvivorsReport(cfg: Settings, img: Image, raw: seq<RawFace>, results: seq<DetectedFace>)
    requires img.width > 0 && img.height > 0
    requires multiset(results) == multiset(Survivors(cfg, img, raw))
    ensures ReportsPassed(cfg, img, raw, results)
  {
    var survivors := Survivors(cfg, img, raw);
    forall d | d in results ensures DescribesOne(cfg, img, raw, d) {
      assert d in multiset(results);
      assert d in survivors;
      SurvivorComesFrom(cfg, img, raw, d);
      var f :| f in raw && Judge(cfg, img, f) == Passed && d == Normalised(img, f);
      NormalisedDescribes(img, f);
    }
    forall f | f in raw && Judge(cfg, img, f) == Passed ensures exists d :: d in results && Describes(img, d, f) {
      PassedSurvives(cfg, img, raw, f);
      NormalisedDescribes(img, f);
      assert Normalised(img, f) in multiset(survivors);
      assert Normalised(img, f) in results;
    }
  }

  // ---------------------------------------------------------------------
  // Order
  // ---------------------------------------------------------------------

  ghost predicate Descending(faces: seq<DetectedFace>) {
    forall i, j | 0 <= i < j < |faces| :: faces[i].confidence >= faces[j].confidence
  }

  // sort(key=confidence, reverse=True): stable
  function Sorted(faces: seq<DetectedFace>): seq<DetectedFace> {
    if faces == [] then [] else Insert(faces[0], Sorted(faces[1..]))
  }

  function Insert(f: DetectedFace, faces: seq<DetectedFace>): seq<DetectedFace> {
    if faces == [] || f.confidence >= faces[0].confidence then [f] + faces
    else [faces[0]] + Insert(f, faces[1..])
  }

  // The faces of one confidence, in order.
  function OfConfidence(faces: seq<DetectedFace>, c: real): seq<DetectedFace> {
    if faces == [] then []
    else (if faces[0].confidence == c then [faces[0]] else []) + OfConfidence(faces[1..], c)
  }

  lemma {:induction false} InsertAddsOne(f: DetectedFace, faces: seq<DetectedFace>)
    ensures multiset(Insert(f, faces)) == multiset(faces) + multiset{f}
    decreases |faces|
  {
    if faces != [] && f.confidence < faces[0].confidence {
      InsertAddsOne(f, faces[1..]);
      assert faces == [faces[0]] + faces[1..];
    }
  }

  ghost predicate AtMost(faces: seq<DetectedFace>, c: real) {
    forall i | 0 <= i < |faces| :: faces[i].confidence <= c
  }

  lemma {:induction false} InsertSorts(f: DetectedFace, faces: seq<DetectedFace>, c: real)
    requires Descending(faces) && AtMost(faces, c) && f.confidence <= c
    ensures Descending(Insert(f, faces)) && AtMost(Insert(f, faces), c)
    decreases |faces|
  {
    if faces != [] && f.confidence < faces[0].confidence {
      InsertSorts(f, faces[1..], faces[0].confidence);
    }
  }

  lemma {:induction false} InsertIsStable(f: DetectedFace, faces: seq<DetectedFace>, c: real)
    requires Descending(faces)
    ensures OfConfidence(Insert(f, faces), c) == (if f.confidence == c then [f] else []) + OfConfidence(faces, c)
    decreases |faces|
  {
    var r := Insert(f, faces);
    assert r != [] && OfConfidence(r, c) == (if r[0].confidence == c then [r[0]] else []) + OfConfidence(r[1..], c);
    if faces == [] || f.confidence >= faces[0].confidence {
      assert r[1..] == faces;
    } else {
      InsertIsStable(f, faces[1..], c);
      assert r[1..] == Insert(f, faces[1..]);
      var head := if faces[0].confidence == c then [faces[0]] else [];
      var mine := if f.confidence == c then [f] else [];
      assert OfConfidence(r, c) == head + (mine + OfConfidence(faces[1..], c));
      assert head == [] || mine == [];
    }
  }

  lemma {:induction false} SortedDescends(faces: seq<DetectedFace>)
    ensures Descending(Sorted(faces))
    decreases |faces|
  {
    if faces != [] {
      SortedDescends(faces[1..]);
      var rest, c := Sorted(faces[1..]), faces[0].confidence;
      InsertSorts(faces[0], rest, if rest == [] || c >= rest[0].confidence then c else rest[0].confidence);
    }
  }

  lemma {:induction false} SortedKeepsAll(faces: seq<DetectedFace>)
    ensures multiset(Sorted(faces)) == multiset(faces)
    decreases |faces|
  {
    if faces != [] {
      SortedKeepsAll(faces[1..]);
      InsertAddsOne(faces[0], Sorted(faces[1..]));
      assert faces == [faces[0]] + faces[1..];
    }
  }

  /** Faces of equal confidence keep their order. */
  lemma {:induction false} SortedIsStable(faces: seq<DetectedFace>, c: real)
    ensures OfConfidence(Sorted(faces), c) == OfConfidence(faces, c)
    decreases |faces|
  {
    if faces != [] {
      SortedIsStable(faces[1..], c);
      SortedDescends(faces[1..]);
      InsertIsStable(faces[0], Sorted(faces[1..]), c);
    }
  }

  lemma NextFace(cfg: Settings, img: Image, raw: seq<RawFace>, k: nat)
    requires img.width > 0 && img.height > 0 && k < |raw|
    ensures Survivors(cfg, img, raw[..k + 1])
         == Survivors(cfg, img, raw[..k]) + (if Judge(cfg, img, raw[k]) == Passed then [Normalised(img, raw[k])] else [])
    ensures forall v :: CountOf(cfg, img, raw[..k + 1], v)
                     == CountOf(cfg, img, raw[..k], v) + (if Judge(cfg, img, raw[k]) == v then 1 else 0)
  {
    assert raw[..k + 1][..k] == raw[..k];
  }

  /** The loop over the raw faces with its three counters, and the sort after it. */
  method DetectArray(cfg: Settings, img: Image, raw: seq<RawFace>)
    returns (results: seq<DetectedFace>, byConfidence: nat, bySize: nat, byBlur: nat)
    requires img.width > 0 && img.height > 0
    ensures results == Sorted(Survivors(cfg, img, raw))
    ensures Descending(results) && multiset(results) == multiset(Survivors(cfg, img, raw))
    ensures byConfidence == CountOf(cfg, img, raw, Unsure)
    ensures bySize == CountOf(cfg, img, raw, TooSmall)
    ensures byBlur == CountOf(cfg, img, raw, Blurry)
    ensures |results| + byConfidence + bySize + byBlur == |raw|
    ensures forall i | 0 <= i < |results| :: InUnitSquare(results[i])
    ensures ReportsPassed(cfg, img, raw, results)
  {
    results := [];
    byConfidence, bySize, byBlur := 0, 0, 0;
    var w, h := img.width as real, img.height as real;
    for k := 0 to |raw|
      invariant results == Survivors(cfg, img, raw[..k])
      invariant byConfidence == CountOf(cfg, img, raw[..k], Unsure)
      invariant bySize == CountOf(cfg, img, raw[..k], TooSmall)
      invariant byBlur == CountOf(cfg, img, raw[..k], Blurry)
    {
      NextFace(cfg, img, raw, k);
      var face := raw[k];
      if face.confidence < cfg.detectionThreshold {
        byConfidence := byConfidence + 1;
        continue;
      }
      var x1, y1 := face.x, face.y;
      var x2, y2 := x1 + face.w, y1 + face.h;
      if cfg.minFaceSizePixels > 0 {
        var longestSide := if face.w >= face.h then face.w else face.h;
        if longestSide <= cfg.minFaceSizePixels as real {
          bySize := bySize + 1;
          continue;
        }
      }
      var px1, py1 := MaxInt(0, Truncated(x1)), MaxInt(0, Truncated(y1));
      var px2, py2 := MinInt(img.width, Truncated(x2)), MinInt(img.height, Truncated(y2));
      var variance := 0.0;
      if px2 > px1 && py2 > py1 {
        variance := img.sharpness(px1, py1, px2, py2);
        if cfg.blurThreshold > 0.0 && variance < cfg.blurThreshold {
          byBlur := byBlur + 1;
          continue;
        }
      }
      var detected := DetectedFace(Clamp(x1 / w), Clamp(y1 / h), Clamp((x2 - x1) / w), Clamp((y2 - y1) / h),
                                   face.confidence, face.embedding, variance);
      results := results + [detected];
    }
    assert raw[..|raw|] == raw;
    results := Sorted(results);
    SortedSurvivors(cfg, img, raw);
  }

  lemma SortedSurvivors(cfg: Settings, img: Image, raw: seq<RawFace>)
    requires img.width > 0 && img.height > 0
    ensures var all, survivors := Sorted(Survivors(cfg, img, raw)), Survivors(cfg, img, raw);
            && Descending(all) && multiset(all) == multiset(survivors) && |all| == |survivors|
            && |all| + CountOf(cfg, img, raw, Unsure) + CountOf(cfg, img, raw, TooSmall) + CountOf(cfg, img, raw, Blurry) == |raw|
            && (forall i | 0 <= i < |all| :: InUnitSquare(all[i]))
            && ReportsPassed(cfg, img, raw, all)
  {
    FacesAccountedFor(cfg, img, raw);
    SortedDescends(Survivors(cfg, img, raw));
    SortedKeepsAll(Survivors(cfg, img, raw));
    SameElements(Sorted(Survivors(cfg, img, raw)), Survivors(cfg, img, raw));
    SurvivorsReport(cfg, img, raw, Sorted(Survivors(cfg, img, raw)));
  }

  lemma SameElements(a: seq<DetectedFace>, b: seq<DetectedFace>)
    requires multiset(a) == multiset(b)
    ensures |a| == |b|
    ensures forall i | 0 <= i < |a| :: a[i] in b
  {
    assert |a| == |multiset(a)| == |multiset(b)| == |b|;
    forall i | 0 <= i < |a| ensures a[i] in b {
      assert a[i] in multiset(a);
    }
  }

  // ---------------------------------------------------------------------
  // The best faces of a photo
  // ---------------------------------------------------------------------

  // s[:n], where a negative n counts from the end
  function Slice<T>(s: seq<T>, n: int): seq<T> {
    if n >= |s| then s
    else if n >= 0 then s[..n]
    else if |s| + n >= 0 then s[..|s| + n]
    else []
  }

  function Limited(faces: seq<DetectedFace>, maxFaces: int): seq<DetectedFace> {
    if |faces| > maxFaces then Slice(faces, maxFaces) else faces
  }

  /** Limiting the faces of a photo cuts the least certain ones: the kept and the cut faces are
      together the survivors, none cut is more certain than one kept, and the number kept is
      the smaller of both; a negative setting cuts that many. */
  lemma LimitKeepsTheBest(cfg: Settings, img: Image, raw: seq<RawFace>, maxFaces: int)
    requires img.width > 0 && img.height > 0
    ensures var all := Sorted(Survivors(cfg, img, raw));
            var n := |Limited(all, maxFaces)|;
            && n <= |all| && Limited(all, maxFaces) == all[..n]
            && multiset(all[..n]) + multiset(all[n..]) == multiset(Survivors(cfg, img, raw))
            && (forall k, c | k in all[..n] && c in all[n..] :: c.confidence <= k.confidence)
            && n == (if maxFaces >= 0 then MinInt(maxFaces, |Survivors(cfg, img, raw)|)
                     else MaxInt(0, |Survivors(cfg, img, raw)| + maxFaces))
  {
    var survivors := Survivors(cfg, img, raw);
    SortedDescends(survivors);
    SortedKeepsAll(survivors);
    SameElements(Sorted(survivors), survivors);
    LimitedIsPrefix(Sorted(survivors), maxFaces);
    CutIsWeaker(Sorted(survivors), |Limited(Sorted(survivors), maxFaces)|);
  }

  lemma LimitedIsPrefix(all: seq<DetectedFace>, maxFaces: int)
    ensures var n := |Limited(all, maxFaces)|;
            && n <= |all| && Limited(all, maxFaces) == all[..n]
            && n == (if maxFaces >= 0 then MinInt(maxFaces, |all|) else MaxInt(0, |all| + maxFaces))
  {
  }

  lemma CutIsWeaker(all: seq<DetectedFace>, n: nat)
    requires Descending(all) && n <= |all|
    ensures multiset(all[..n]) + multiset(all[n..]) == multiset(all)
    ensures forall k, c | k in all[..n] && c in all[n..] :: c.confidence <= k.confidence
  {
    assert all == all[..n] + all[n..];
    forall k, c | k in all[..n] && c in all[n..] ensures c.confidence <= k.confidence {
      var i :| 0 <= i < n && all[..n][i] == k;
      var j :| 0 <= j < |all| - n && all[n..][j] == c;
      assert all[i].confidence >= all[n + j].confidence;
    }
  }
}

/**
 * Merging an HRM heart-rate series into a GPX 1.1 tree (`merge_gpx_hrm`).
 *
 * The HRM start is `Date` and `StartTime` from `Params`, read as UTC. For
 * every `trkpt` of the tree, in document order, the point's first `time`
 * child is parsed, its text is rewritten with the same wall-clock time
 * under the requested UTC offset, and the sample at index
 * `int((point instant - start).total_seconds())` of `HRData` is attached
 * as `extensions/TrackPointExtension/hr`. The first exception stops the
 * merge.
 *
 * Two versions exist: the package's version appends the new
 * `TrackPointExtension` to the point's first existing `extensions` child
 * (`reuse`), the older script always adds a new `extensions` child.
 * Parsing and printing ISO 8601 times are foreign and are parameters.
 */
module GpxMerge {
  import opened Wrappers
  import opened Py
  import opened Calendar
  import opened Hrm
  import opened Xml
  import opened GpxUpgrade

  const TRKPT: Name := Gpx11("trkpt")
  const TIME: Name := Gpx11("time")
  const EXTENSIONS: Name := Gpx11("extensions")
  const TPE: Name := Name(GPXTPX_NS, "TrackPointExtension")
  const HR: Name := Name(GPXTPX_NS, "hr")

  /** `iso8601.parse_date` (None when it raises ParseError) and `isoformat`. */
  datatype Clock = Clock(parse: string -> Option<AwareTime>, format: AwareTime -> string)

  /** What the loop over the points works with. */
  datatype Ctx = Ctx(start: int, samples: seq<int>, tzMinutes: int, clock: Clock, reuse: bool)

  // ---------------------------------------------------------------------
  // The HRM side
  // ---------------------------------------------------------------------

  /** The HRM start as a UTC instant and the samples, or the KeyError looking them up raises. */
  function Origin(sections: map<string, Section>): (r: Result<(int, seq<int>), PyError>)
    requires Parsed(sections)
    ensures PARAMS !in sections ==> r == Failure(KeyError(PARAMS))
    ensures PARAMS in sections && sections[PARAMS].params.date.None? ==> r == Failure(KeyError("Date"))
    ensures (PARAMS in sections && sections[PARAMS].params.date.Some? && sections[PARAMS].params.startTime.None?)
      ==> r == Failure(KeyError("StartTime"))
    ensures r.Success? ==> PARAMS in sections && HRDATA in sections && r.value.1 == sections[HRDATA].samples
    ensures r.Success? ==>
      var p := sections[PARAMS].params;
      p.date.Some? && p.startTime.Some? && r.value.0 == Combine(p.date.value, p.startTime.value)
    ensures r.Failure? ==> r.error.KeyError?
  {
    if PARAMS !in sections then Failure(KeyError(PARAMS))
    else
      var p := sections[PARAMS].params;
      if p.date.None? then Failure(KeyError("Date"))
      else if p.startTime.None? then Failure(KeyError("StartTime"))
      else if HRDATA !in sections then Failure(KeyError(HRDATA))
      else Success((Combine(p.date.value, p.startTime.value), sections[HRDATA].samples))
  }

  // ---------------------------------------------------------------------
  // One point
  // ---------------------------------------------------------------------

  /** What processing one point decides: which child is its time, the new time text, the sample. */
  datatype Update = Update(timeIndex: nat, text: string, sample: int)

  /** The offset of a point from the HRM start, in whole seconds truncated toward zero. */
  function Delta(t: AwareTime, start: int): int
  {
    WholeSeconds(Instant(t) - start)
  }

  /** The body of the loop for one point, up to the tree edits. */
  function PointUpdate(p: Element, ctx: Ctx): (r: Result<Update, PyError>)
    ensures FirstChild(p.children, TIME).None? ==> r == Failure(AttributeError)
    ensures r.Success? ==>
      var i := r.value.timeIndex;
      i < |p.children| && FirstChild(p.children, TIME) == Some(i) && p.children[i].text.Some? &&
      ctx.clock.parse(p.children[i].text.value).Some? &&
      var t := ctx.clock.parse(p.children[i].text.value).value;
      r.value.text == ctx.clock.format(Relabel(t, ctx.tzMinutes)) &&
      Index(ctx.samples, Delta(t, ctx.start)) == Some(r.value.sample)
    ensures r.Failure? ==> r.error in {AttributeError, ParseError, IndexError}
  {
    match FirstChild(p.children, TIME)
    case None => Failure(AttributeError)
    case Some(i) =>
      match p.children[i].text
      case None => Failure(ParseError)
      case Some(s) =>
        match ctx.clock.parse(s)
        case None => Failure(ParseError)
        case Some(t) =>
          match Index(ctx.samples, Delta(t, ctx.start))
          case None => Failure(IndexError)
          case Some(hr) => Success(Update(i, ctx.clock.format(Relabel(t, ctx.tzMinutes)), hr))
  }

  /** `TrackPointExtension` holding one `hr` element with text `str(sample)`. */
  function Tpx(sample: int): Element
  {
    Element(TPE, map[], None, [Element(HR, map[], Some(IntToString(sample)), [])])
  }

  /** A fresh `extensions` element holding just `x`. */
  function NewExtensions(x: Element): Element
  {
    Element(EXTENSIONS, map[], None, [x])
  }

  /** The edits to one point: its time text replaced, and the extension added where the version puts it. */
  function Apply(e: Element, u: Update, reuse: bool): (r: Element)
    requires u.timeIndex < |e.children| && e.children[u.timeIndex].tag == TIME
    ensures r.tag == e.tag && r.attrs == e.attrs && r.text == e.text && |r.children| >= |e.children|
    ensures r.children[u.timeIndex] == e.children[u.timeIndex].(text := Some(u.text))
    ensures var j := FirstChild(e.children, EXTENSIONS);
      reuse && j.Some? ==>
        |r.children| == |e.children| &&
        r.children[j.value] == e.children[j.value].(children := e.children[j.value].children + [Tpx(u.sample)]) &&
        forall k :: 0 <= k < |e.children| && k != u.timeIndex && k != j.value ==> r.children[k] == e.children[k]
    ensures !reuse || FirstChild(e.children, EXTENSIONS).None? ==>
      |r.children| == |e.children| + 1 && r.children[|e.children|] == NewExtensions(Tpx(u.sample)) &&
      forall k :: 0 <= k < |e.children| && k != u.timeIndex ==> r.children[k] == e.children[k]
  {
    var i := u.timeIndex;
    var cs := e.children[i := e.children[i].(text := Some(u.text))];
    assert forall k :: 0 <= k < |cs| ==> cs[k].tag == e.children[k].tag;
    FirstChildSameTags(cs, e.children, EXTENSIONS);
    var j := FirstChild(cs, EXTENSIONS);
    if reuse && j.Some? then
      e.(children := cs[j.value := cs[j.value].(children := cs[j.value].children + [Tpx(u.sample)])])
    else
      e.(children := cs + [NewExtensions(Tpx(u.sample))])
  }

  /** `find` looks only at tags. */
  lemma FirstChildSameTags(a: seq<Element>, b: seq<Element>, n: Name)
    requires |a| == |b| && forall k :: 0 <= k < |a| ==> a[k].tag == b[k].tag
    ensures FirstChild(a, n) == FirstChild(b, n)
  {
    if a != [] {
      FirstChildSameTags(a[1..], b[1..], n);
    }
  }

  // ---------------------------------------------------------------------
  // The whole tree
  // ---------------------------------------------------------------------

  /**
   * The merge applied to the subtree at `e`, taking `e` itself as one of
   * the points when it is a `trkpt`: its own check comes first, then its
   * descendants in document order, as in the flat list `findall` returns.
   */
  function MergeTree(e: Element, ctx: Ctx): (r: Result<Element, PyError>)
    ensures r.Success? ==> r.value.tag == e.tag
    decreases e, 1
  {
    if e.tag == TRKPT && PointUpdate(e, ctx).Failure? then Failure(PointUpdate(e, ctx).error)
    else
      match MergeForest(e.children, ctx)
      case Failure(err) => Failure(err)
      case Success(kids) =>
        if e.tag == TRKPT then
          var u := PointUpdate(e, ctx).value;
          Success(Apply(e.(children := kids), u, ctx.reuse))
        else Success(e.(children := kids))
  }

  function MergeForest(cs: seq<Element>, ctx: Ctx): (r: Result<seq<Element>, PyError>)
    ensures r.Success? ==> |r.value| == |cs| && forall k :: 0 <= k < |cs| ==> r.value[k].tag == cs[k].tag
    decreases cs, 0
  {
    if cs == [] then Success([])
    else
      match MergeTree(cs[0], ctx)
      case Failure(err) => Failure(err)
      case Success(x) =>
        match MergeForest(cs[1..], ctx)
        case Failure(err) => Failure(err)
        case Success(xs) => Success([x] + xs)
  }

  /** `merge_gpx_hrm(gpx, hrm, tz)` on the tree's root, for a parser that has parsed its file. */
  function MergeGpxHrm(root: Element, sections: map<string, Section>, tzMinutes: int, clock: Clock, reuse: bool)
    : Result<Element, PyError>
    requires Parsed(sections)
  {
    match Origin(sections)
    case Failure(err) => Failure(err)
    case Success(o) =>
      match MergeForest(root.children, Ctx(o.0, o.1, tzMinutes, clock, reuse))
      case Failure(err) => Failure(err)
      case Success(kids) => Success(root.(children := kids))
  }

  // ---------------------------------------------------------------------
  // Failure: the first point that fails, in document order
  // ---------------------------------------------------------------------

  /** The exception of the first point in `points` whose processing raises one. */
  function FirstFailure(points: seq<Element>, ctx: Ctx): Option<PyError>
  {
    if points == [] then None
    else if PointUpdate(points[0], ctx).Failure? then Some(PointUpdate(points[0], ctx).error)
    else FirstFailure(points[1..], ctx)
  }

  lemma {:induction false} FirstFailureConcat(a: seq<Element>, b: seq<Element>, ctx: Ctx)
    ensures FirstFailure(a + b, ctx) == if FirstFailure(a, ctx).Some? then FirstFailure(a, ctx) else FirstFailure(b, ctx)
  {
    if a == [] {
      assert a + b == b;
    } else {
      assert (a + b)[1..] == a[1..] + b;
      FirstFailureConcat(a[1..], b, ctx);
    }
  }

  /** The subtree fails exactly as the loop would over its points, `e` first if it is one. */
  lemma {:induction false} MergeTreeFailure(e: Element, ctx: Ctx)
    ensures var pts := WithTag([e] + Descendants(e), TRKPT);
      (MergeTree(e, ctx).Failure? <==> FirstFailure(pts, ctx).Some?) &&
      (MergeTree(e, ctx).Failure? ==> MergeTree(e, ctx).error == FirstFailure(pts, ctx).value)
    decreases e, 1
  {
    MergeForestFailure(e.children, ctx);
    var own := WithTag([e], TRKPT);
    assert own == (if e.tag == TRKPT then [e] else []) by {
      assert [e][1..] == [];
    }
    WithTagConcat([e], Descendants(e), TRKPT);
    FirstFailureConcat(own, WithTag(Descendants(e), TRKPT), ctx);
    if e.tag == TRKPT {
      assert own[1..] == [];
    }
  }

  lemma {:induction false} MergeForestFailure(cs: seq<Element>, ctx: Ctx)
    ensures var pts := WithTag(DescendantsOf(cs), TRKPT);
      (MergeForest(cs, ctx).Failure? <==> FirstFailure(pts, ctx).Some?) &&
      (MergeForest(cs, ctx).Failure? ==> MergeForest(cs, ctx).error == FirstFailure(pts, ctx).value)
    decreases cs, 0
  {
    if cs != [] {
      MergeTreeFailure(cs[0], ctx);
      MergeForestFailure(cs[1..], ctx);
      assert DescendantsOf(cs) == ([cs[0]] + Descendants(cs[0])) + DescendantsOf(cs[1..]);
      WithTagConcat([cs[0]] + Descendants(cs[0]), DescendantsOf(cs[1..]), TRKPT);
      FirstFailureConcat(WithTag([cs[0]] + Descendants(cs[0]), TRKPT), WithTag(DescendantsOf(cs[1..]), TRKPT), ctx);
    }
  }

  /**
   * Once the HRM start is known, the merge fails exactly when one of the
   * points `root.findall('.//gpx11:trkpt')` lists fails, and with the
   * exception of the first such point.
   */
  lemma MergeFailsAtFirstBadPoint(root: Element, sections: map<string, Section>, tzMinutes: int, clock: Clock, reuse: bool)
    requires Parsed(sections) && Origin(sections).Success?
    ensures var o := Origin(sections).value;
      var ctx := Ctx(o.0, o.1, tzMinutes, clock, reuse);
      var r := MergeGpxHrm(root, sections, tzMinutes, clock, reuse);
      (r.Failure? <==> FirstFailure(FindAll(root, TRKPT), ctx).Some?) &&
      (r.Failure? ==> r.error == FirstFailure(FindAll(root, TRKPT), ctx).value)
  {
    var o := Origin(sections).value;
    MergeForestFailure(root.children, Ctx(o.0, o.1, tzMinutes, clock, reuse));
  }

  // ---------------------------------------------------------------------
  // Counting what was added
  // ---------------------------------------------------------------------

  /** Points in the subtree (itself included) without an `extensions` child. */
  function BarePoints(e: Element): nat
    decreases e, 1
  {
    (if e.tag == TRKPT && FirstChild(e.children, EXTENSIONS).None? then 1 else 0) + BarePointsOf(e.children)
  }

  function BarePointsOf(cs: seq<Element>): nat
    decreases cs, 0
  {
    if cs == [] then 0 else BarePoints(cs[0]) + BarePointsOf(cs[1..])
  }

  /** How many elements tagged `n` one point's edits add: one TrackPointExtension, one hr, maybe one extensions. */
  function AddedAt(n: Name, newExtensions: bool): nat
  {
    if n == TPE || n == HR then 1 else if n == EXTENSIONS && newExtensions then 1 else 0
  }

  /** How many elements tagged `n` a successful merge adds to the subtree at `e`. */
  function Added(e: Element, n: Name, reuse: bool): nat
  {
    if n == TPE || n == HR then Occurrences(e, TRKPT)
    else if n == EXTENSIONS then (if reuse then BarePoints(e) else Occurrences(e, TRKPT))
    else 0
  }

  function AddedOf(cs: seq<Element>, n: Name, reuse: bool): nat
  {
    if n == TPE || n == HR then OccurrencesOf(cs, TRKPT)
    else if n == EXTENSIONS then (if reuse then BarePointsOf(cs) else OccurrencesOf(cs, TRKPT))
    else 0
  }

  lemma {:induction false} OccurrencesUpdate(cs: seq<Element>, i: nat, x: Element, n: Name)
    requires i < |cs|
    ensures OccurrencesOf(cs[i := x], n) + Occurrences(cs[i], n) == OccurrencesOf(cs, n) + Occurrences(x, n)
    decreases i
  {
    if i > 0 {
      assert cs[i := x][1..] == cs[1..][i - 1 := x];
      OccurrencesUpdate(cs[1..], i - 1, x, n);
    }
  }

  lemma OccurrencesTpx(sample: int, n: Name)
    ensures Occurrences(Tpx(sample), n) == AddedAt(n, false)
    ensures Occurrences(NewExtensions(Tpx(sample)), n) == AddedAt(n, true)
  {
    var hr := Element(HR, map[], Some(IntToString(sample)), []);
    OccurrencesOfOne(hr, n);
    OccurrencesOfOne(Tpx(sample), n);
  }

  /** One point's edits add one TrackPointExtension and one hr, plus one extensions when a new one is made. */
  lemma ApplyOccurrences(e: Element, u: Update, reuse: bool, n: Name)
    requires u.timeIndex < |e.children| && e.children[u.timeIndex].tag == TIME
    requires e.tag == TRKPT
    ensures Occurrences(Apply(e, u, reuse), n) ==
      Occurrences(e, n) + AddedAt(n, !reuse || FirstChild(e.children, EXTENSIONS).None?)
  {
    var i := u.timeIndex;
    var cs := e.children[i := e.children[i].(text := Some(u.text))];
    OccurrencesUpdate(e.children, i, e.children[i].(text := Some(u.text)), n);
    assert forall k :: 0 <= k < |cs| ==> cs[k].tag == e.children[k].tag;
    FirstChildSameTags(cs, e.children, EXTENSIONS);
    var j := FirstChild(cs, EXTENSIONS);
    OccurrencesTpx(u.sample, n);
    if reuse && j.Some? {
      var x := cs[j.value];
      var x' := x.(children := x.children + [Tpx(u.sample)]);
      OccurrencesUpdate(cs, j.value, x', n);
      OccurrencesOfConcat(x.children, [Tpx(u.sample)], n);
      OccurrencesOfOne(Tpx(u.sample), n);
    } else {
      OccurrencesOfConcat(cs, [NewExtensions(Tpx(u.sample))], n);
      OccurrencesOfOne(NewExtensions(Tpx(u.sample)), n);
    }
  }

  /**
   * A successful merge adds, per point of the subtree, exactly one
   * TrackPointExtension and one hr element, and one extensions element per
   * point that gets a new one; no element of any other tag appears or
   * disappears, so nothing that existed is replaced.
   */
  lemma {:induction false} MergeTreeOccurrences(e: Element, ctx: Ctx, n: Name)
    requires MergeTree(e, ctx).Success?
    ensures Occurrences(MergeTree(e, ctx).value, n) == Occurrences(e, n) + Added(e, n, ctx.reuse)
    decreases e, 1
  {
    MergeForestOccurrences(e.children, ctx, n);
    var kids := MergeForest(e.children, ctx).value;
    if e.tag == TRKPT {
      var u := PointUpdate(e, ctx).value;
      var e' := e.(children := kids);
      FirstChildSameTags(kids, e.children, EXTENSIONS);
      ApplyOccurrences(e', u, ctx.reuse, n);
    }
  }

  lemma {:induction false} MergeForestOccurrences(cs: seq<Element>, ctx: Ctx, n: Name)
    requires MergeForest(cs, ctx).Success?
    ensures OccurrencesOf(MergeForest(cs, ctx).value, n) == OccurrencesOf(cs, n) + AddedOf(cs, n, ctx.reuse)
    decreases cs, 0
  {
    if cs != [] {
      MergeTreeOccurrences(cs[0], ctx, n);
      MergeForestOccurrences(cs[1..], ctx, n);
      var xs := MergeForest(cs, ctx).value;
      assert xs[1..] == MergeForest(cs[1..], ctx).value;
    }
  }

  /** After a successful merge, either version, every point has an `extensions` child. */
  lemma {:induction false} MergeTreeLeavesNoBarePoint(e: Element, ctx: Ctx)
    requires MergeTree(e, ctx).Success?
    ensures BarePoints(MergeTree(e, ctx).value) == 0
    decreases e, 1
  {
    MergeForestLeavesNoBarePoint(e.children, ctx);
    var kids := MergeForest(e.children, ctx).value;
    if e.tag == TRKPT {
      ApplyLeavesNoBarePoint(e.(children := kids), PointUpdate(e, ctx).value, ctx.reuse);
    }
  }

  lemma ApplyLeavesNoBarePoint(e: Element, u: Update, reuse: bool)
    requires u.timeIndex < |e.children| && e.children[u.timeIndex].tag == TIME
    requires e.tag == TRKPT && BarePointsOf(e.children) == 0
    ensures BarePoints(Apply(e, u, reuse)) == 0
  {
    var i := u.timeIndex;
    var cs := e.children[i := e.children[i].(text := Some(u.text))];
    BareUpdate(e.children, i, e.children[i].(text := Some(u.text)));
    assert forall k :: 0 <= k < |cs| ==> cs[k].tag == e.children[k].tag;
    FirstChildSameTags(cs, e.children, EXTENSIONS);
    var j := FirstChild(cs, EXTENSIONS);
    var r := Apply(e, u, reuse);
    assert BarePoints(Tpx(u.sample)) == 0 by {
      assert BarePointsOf([Element(HR, map[], Some(IntToString(u.sample)), [])]) == 0;
    }
    if reuse && j.Some? {
      var x := cs[j.value];
      BarePointsOfConcat(x.children, [Tpx(u.sample)]);
      BareUpdate(cs, j.value, x.(children := x.children + [Tpx(u.sample)]));
      assert r.children[j.value].tag == EXTENSIONS;
    } else {
      BarePointsOfConcat(cs, [NewExtensions(Tpx(u.sample))]);
      assert r.children[|cs|].tag == EXTENSIONS;
      assert BarePointsOf([Tpx(u.sample)]) == 0;
    }
  }

  lemma {:induction false} MergeForestLeavesNoBarePoint(cs: seq<Element>, ctx: Ctx)
    requires MergeForest(cs, ctx).Success?
    ensures BarePointsOf(MergeForest(cs, ctx).value) == 0
    decreases cs, 0
  {
    if cs != [] {
      MergeTreeLeavesNoBarePoint(cs[0], ctx);
      MergeForestLeavesNoBarePoint(cs[1..], ctx);
      var xs := MergeForest(cs, ctx).value;
      assert xs[1..] == MergeForest(cs[1..], ctx).value;
    }
  }

  /** Replacing a child by one with the same tag and no bare points below changes the count as expected. */
  lemma {:induction false} BareUpdate(cs: seq<Element>, i: nat, x: Element)
    requires i < |cs| && x.tag == cs[i].tag
    requires x.tag != TRKPT
    requires BarePointsOf(x.children) == BarePointsOf(cs[i].children)
    ensures BarePointsOf(cs[i := x]) == BarePointsOf(cs)
    decreases i
  {
    if i > 0 {
      assert cs[i := x][1..] == cs[1..][i - 1 := x];
      BareUpdate(cs[1..], i - 1, x);
    }
  }

  lemma {:induction false} BarePointsOfConcat(a: seq<Element>, b: seq<Element>)
    ensures BarePointsOf(a + b) == BarePointsOf(a) + BarePointsOf(b)
  {
    if a != [] {
      assert (a + b)[1..] == a[1..] + b;
      assert (a + b)[0] == a[0];
      BarePointsOfConcat(a[1..], b);
    } else {
      assert a + b == b;
    }
  }

  // ---------------------------------------------------------------------
  // The two versions
  // ---------------------------------------------------------------------

  /** No point of the subtree at `e` already has an `extensions` child. */
  predicate NoExtendedPoint(e: Element)
    decreases e
  {
    (e.tag == TRKPT ==> FirstChild(e.children, EXTENSIONS).None?) &&
    forall k :: 0 <= k < |e.children| ==> NoExtendedPoint(e.children[k])
  }

  /** Where no point has an `extensions` child, both versions build the same tree. */
  lemma {:induction false} VersionsAgree(e: Element, ctx: Ctx)
    requires NoExtendedPoint(e)
    ensures MergeTree(e, ctx.(reuse := true)) == MergeTree(e, ctx.(reuse := false))
    decreases e, 1
  {
    VersionsAgreeOf(e.children, ctx);
    var a, b := ctx.(reuse := true), ctx.(reuse := false);
    assert PointUpdate(e, a) == PointUpdate(e, b);
    if MergeForest(e.children, a).Success? && e.tag == TRKPT && PointUpdate(e, a).Success? {
      var kids := MergeForest(e.children, a).value;
      FirstChildSameTags(kids, e.children, EXTENSIONS);
    }
  }

  lemma {:induction false} VersionsAgreeOf(cs: seq<Element>, ctx: Ctx)
    requires forall k :: 0 <= k < |cs| ==> NoExtendedPoint(cs[k])
    ensures MergeForest(cs, ctx.(reuse := true)) == MergeForest(cs, ctx.(reuse := false))
    decreases cs, 0
  {
    if cs != [] {
      VersionsAgree(cs[0], ctx);
      VersionsAgreeOf(cs[1..], ctx);
    }
  }

  /** With no `extensions` element anywhere, no point has one. */
  lemma {:induction false} NoExtensionsNoExtendedPoint(e: Element)
    requires Occurrences(e, EXTENSIONS) == 0
    ensures NoExtendedPoint(e)
    decreases e
  {
    forall k | 0 <= k < |e.children|
      ensures Occurrences(e.children[k], EXTENSIONS) == 0
    {
      OccurrencesOfAt(e.children, k, EXTENSIONS);
    }
    forall k | 0 <= k < |e.children|
      ensures NoExtendedPoint(e.children[k])
    {
      NoExtensionsNoExtendedPoint(e.children[k]);
    }
    if FirstChild(e.children, EXTENSIONS).Some? {
      var j := FirstChild(e.children, EXTENSIONS).value;
      OccurrencesOfAt(e.children, j, EXTENSIONS);
    }
  }

  lemma {:induction false} OccurrencesOfAt(cs: seq<Element>, k: nat, n: Name)
    requires k < |cs|
    ensures Occurrences(cs[k], n) <= OccurrencesOf(cs, n)
    decreases k
  {
    if k > 0 {
      OccurrencesOfAt(cs[1..], k - 1, n);
    }
  }

  /** Where no point has an `extensions` child, every point is bare. */
  lemma {:induction false} NoExtendedPointBare(e: Element)
    requires NoExtendedPoint(e)
    ensures BarePoints(e) == Occurrences(e, TRKPT)
    decreases e, 1
  {
    NoExtendedPointBareOf(e.children);
  }

  lemma {:induction false} NoExtendedPointBareOf(cs: seq<Element>)
    requires forall k :: 0 <= k < |cs| ==> NoExtendedPoint(cs[k])
    ensures BarePointsOf(cs) == OccurrencesOf(cs, TRKPT)
    decreases cs, 0
  {
    if cs != [] {
      NoExtendedPointBare(cs[0]);
      NoExtendedPointBareOf(cs[1..]);
    }
  }

  // ---------------------------------------------------------------------
  // Only points change
  // ---------------------------------------------------------------------

  /** A subtree without points comes out of the merge unchanged. */
  lemma {:induction false} MergeTreeWithoutPoints(e: Element, ctx: Ctx)
    requires Occurrences(e, TRKPT) == 0
    ensures MergeTree(e, ctx) == Success(e)
    decreases e, 1
  {
    MergeForestWithoutPoints(e.children, ctx);
  }

  lemma {:induction false} MergeForestWithoutPoints(cs: seq<Element>, ctx: Ctx)
    requires OccurrencesOf(cs, TRKPT) == 0
    ensures MergeForest(cs, ctx) == Success(cs)
    decreases cs, 0
  {
    if cs != [] {
      MergeTreeWithoutPoints(cs[0], ctx);
      MergeForestWithoutPoints(cs[1..], ctx);
      assert [cs[0]] + cs[1..] == cs;
    }
  }

  /**
   * A point without nested points gets exactly the edits of its own turn of
   * the loop: everything below it except its time text and the new
   * extension is as it was.
   */
  lemma SinglePoint(p: Element, ctx: Ctx)
    requires p.tag == TRKPT && OccurrencesOf(p.children, TRKPT) == 0
    requires PointUpdate(p, ctx).Success?
    ensures MergeTree(p, ctx) == Success(Apply(p, PointUpdate(p, ctx).value, ctx.reuse))
  {
    MergeForestWithoutPoints(p.children, ctx);
    assert p.(children := p.children) == p;
  }

  // ---------------------------------------------------------------------
  // Which point gets which sample
  // ---------------------------------------------------------------------

  /** The merged forest's k-th tree is the merge of the k-th original tree. */
  lemma {:induction false} MergeForestAt(cs: seq<Element>, k: nat, ctx: Ctx)
    requires MergeForest(cs, ctx).Success? && k < |cs|
    ensures MergeTree(cs[k], ctx).Success? && MergeForest(cs, ctx).value[k] == MergeTree(cs[k], ctx).value
    decreases k
  {
    if k > 0 {
      MergeForestAt(cs[1..], k - 1, ctx);
    }
  }

  /** No element strictly above the end of path `p`, `e` included, is a `trkpt`. */
  predicate NoPointAbove(e: Element, p: seq<nat>)
    requires ValidPath(e, p)
    decreases |p|
  {
    p == [] || (e.tag != TRKPT && NoPointAbove(e.children[p[0]], p[1..]))
  }

  /** Below no point, the subtree at `p` of the merged tree is the merge of the subtree at `p`. */
  lemma {:induction false} MergeTreeAt(e: Element, p: seq<nat>, ctx: Ctx)
    requires ValidPath(e, p) && NoPointAbove(e, p) && MergeTree(e, ctx).Success?
    ensures ValidPath(MergeTree(e, ctx).value, p)
    ensures MergeTree(At(e, p), ctx).Success? && At(MergeTree(e, ctx).value, p) == MergeTree(At(e, p), ctx).value
    decreases |p|
  {
    if p != [] {
      MergeForestAt(e.children, p[0], ctx);
      MergeTreeAt(e.children[p[0]], p[1..], ctx);
    }
  }

  /**
   * Each point of a successful merge carries its own sample: a `trkpt` at
   * path `p` below the root, with no point above it or inside it, comes out
   * as exactly its own turn of the loop made it, the TrackPointExtension
   * holding `samples[int((t - start).total_seconds())]` for its own time `t`.
   */
  lemma MergedPointAt(root: Element, sections: map<string, Section>, tzMinutes: int, clock: Clock, reuse: bool, p: seq<nat>)
    requires Parsed(sections) && MergeGpxHrm(root, sections, tzMinutes, clock, reuse).Success?
    requires p != [] && ValidPath(root, p) && NoPointAbove(root.children[p[0]], p[1..])
    requires At(root, p).tag == TRKPT && OccurrencesOf(At(root, p).children, TRKPT) == 0
    ensures var o := Origin(sections).value;
      var ctx := Ctx(o.0, o.1, tzMinutes, clock, reuse);
      var r := MergeGpxHrm(root, sections, tzMinutes, clock, reuse).value;
      PointUpdate(At(root, p), ctx).Success? &&
      ValidPath(r, p) && At(r, p) == Apply(At(root, p), PointUpdate(At(root, p), ctx).value, reuse)
  {
    var o := Origin(sections).value;
    var ctx := Ctx(o.0, o.1, tzMinutes, clock, reuse);
    var r := MergeGpxHrm(root, sections, tzMinutes, clock, reuse).value;
    MergeForestAt(root.children, p[0], ctx);
    var c := root.children[p[0]];
    assert r.children[p[0]] == MergeTree(c, ctx).value;
    MergeTreeAt(c, p[1..], ctx);
    var x := At(root, p);
    assert x == At(c, p[1..]);
    MergeForestWithoutPoints(x.children, ctx);
    assert x.(children := x.children) == x;
  }

  // ---------------------------------------------------------------------
  // Merging twice
  // ---------------------------------------------------------------------

  /**
   * Merging the result a second time adds a second TrackPointExtension to
   * every point under both versions; the script's version also gives every
   * point a second `extensions` child, while the package's version adds
   * `extensions` only on the first merge and only to bare points.
   */
  lemma MergeTwice(e: Element, ctx: Ctx)
    requires MergeTree(e, ctx).Success?
    requires MergeTree(MergeTree(e, ctx).value, ctx).Success?
    ensures var twice := MergeTree(MergeTree(e, ctx).value, ctx).value;
      Occurrences(twice, TPE) == Occurrences(e, TPE) + 2 * Occurrences(e, TRKPT) &&
      Occurrences(twice, EXTENSIONS) ==
        Occurrences(e, EXTENSIONS) + (if ctx.reuse then BarePoints(e) else 2 * Occurrences(e, TRKPT))
  {
    var once := MergeTree(e, ctx).value;
    MergeTreeOccurrences(e, ctx, TRKPT);
    MergeTreeOccurrences(e, ctx, TPE);
    MergeTreeOccurrences(e, ctx, EXTENSIONS);
    MergeTreeOccurrences(once, ctx, TPE);
    MergeTreeOccurrences(once, ctx, EXTENSIONS);
    MergeTreeLeavesNoBarePoint(e, ctx);
  }

  // ---------------------------------------------------------------------
  // Upgrade, then merge
  // ---------------------------------------------------------------------

  /**
   * A tree straight from the upgrade comes out of a successful merge, under
   * either version and with the same result, with exactly as many
   * `extensions`, TrackPointExtension and hr elements as points.
   */
  lemma UpgradeThenMerge(gpx10: Element, sections: map<string, Section>, tzMinutes: int, clock: Clock, reuse: bool)
    requires Parsed(sections)
    requires MergeGpxHrm(ConvertGpx(gpx10), sections, tzMinutes, clock, reuse).Success?
    ensures var r := MergeGpxHrm(ConvertGpx(gpx10), sections, tzMinutes, clock, reuse).value;
      var points := |FindAll(r, TRKPT)|;
      points == |FindAll(ConvertGpx(gpx10), TRKPT)| &&
      |FindAll(r, EXTENSIONS)| == points && |FindAll(r, TPE)| == points && |FindAll(r, HR)| == points
    ensures MergeGpxHrm(ConvertGpx(gpx10), sections, tzMinutes, clock, true) ==
      MergeGpxHrm(ConvertGpx(gpx10), sections, tzMinutes, clock, false)
  {
    var out := ConvertGpx(gpx10);
    var o := Origin(sections).value;
    var ctx := Ctx(o.0, o.1, tzMinutes, clock, reuse);
    var r := MergeGpxHrm(out, sections, tzMinutes, clock, reuse).value;
    var kids := MergeForest(out.children, ctx).value;
    assert r.children == kids;
    forall n | n in {EXTENSIONS, TPE, HR}
      ensures OccurrencesOf(out.children, n) == 0
    {
      UpgradeDropsTheRest(gpx10, n);
      FindAllCount(out, n);
    }
    forall k | 0 <= k < |out.children|
      ensures NoExtendedPoint(out.children[k])
    {
      OccurrencesOfAt(out.children, k, EXTENSIONS);
      NoExtensionsNoExtendedPoint(out.children[k]);
    }
    NoExtendedPointBareOf(out.children);
    MergeForestOccurrences(out.children, ctx, TRKPT);
    MergeForestOccurrences(out.children, ctx, EXTENSIONS);
    MergeForestOccurrences(out.children, ctx, TPE);
    MergeForestOccurrences(out.children, ctx, HR);
    FindAllCount(r, TRKPT);
    FindAllCount(r, EXTENSIONS);
    FindAllCount(r, TPE);
    FindAllCount(r, HR);
    FindAllCount(out, TRKPT);
    VersionsAgreeOf(out.children, ctx);
    assert ctx.(reuse := true) == Ctx(o.0, o.1, tzMinutes, clock, true);
    assert ctx.(reuse := false) == Ctx(o.0, o.1, tzMinutes, clock, false);
  }

  /** On a tree straight from the upgrade the two versions agree, whether the merge succeeds or not. */
  lemma UpgradedVersionsAgree(gpx10: Element, sections: map<string, Section>, tzMinutes: int, clock: Clock)
    requires Parsed(sections)
    ensures MergeGpxHrm(ConvertGpx(gpx10), sections, tzMinutes, clock, true) ==
      MergeGpxHrm(ConvertGpx(gpx10), sections, tzMinutes, clock, false)
  {
    var out := ConvertGpx(gpx10);
    if Origin(sections).Success? {
      var o := Origin(sections).value;
      var ctx := Ctx(o.0, o.1, tzMinutes, clock, true);
      UpgradeDropsTheRest(gpx10, EXTENSIONS);
      FindAllCount(out, EXTENSIONS);
      forall k | 0 <= k < |out.children|
        ensures NoExtendedPoint(out.children[k])
      {
        OccurrencesOfAt(out.children, k, EXTENSIONS);
        NoExtensionsNoExtendedPoint(out.children[k]);
      }
      VersionsAgreeOf(out.children, ctx);
      assert ctx.(reuse := true) == ctx;
      assert ctx.(reuse := false) == Ctx(o.0, o.1, tzMinutes, clock, false);
    }
  }

  // ---------------------------------------------------------------------
  // The index law
  // ---------------------------------------------------------------------

  /**
   * The sample chosen for a point depends on its original instant only:
   * the offset its time text is relabelled with plays no part.
   */
  lemma SampleIgnoresRelabelling(p: Element, ctx: Ctx, tzMinutes: int)
    requires PointUpdate(p, ctx).Success?
    ensures PointUpdate(p, ctx.(tzMinutes := tzMinutes)).Success?
    ensures PointUpdate(p, ctx.(tzMinutes := tzMinutes)).value.sample == PointUpdate(p, ctx).value.sample
  {
  }

  /**
   * A point whose time parses fails with IndexError exactly when its
   * offset lies outside `-len .. len-1`; otherwise negative offsets pick
   * samples from the end of the list.
   */
  lemma IndexErrorOnlyOutOfRange(p: Element, ctx: Ctx, t: AwareTime)
    requires var i := FirstChild(p.children, TIME);
      i.Some? && p.children[i.value].text.Some? && ctx.clock.parse(p.children[i.value].text.value) == Some(t)
    ensures var d := Delta(t, ctx.start);
      (PointUpdate(p, ctx) == Failure(IndexError) <==> !(-|ctx.samples| <= d < |ctx.samples|)) &&
      (0 <= d < |ctx.samples| ==> PointUpdate(p, ctx).value.sample == ctx.samples[d]) &&
      (-|ctx.samples| <= d < 0 ==> PointUpdate(p, ctx).value.sample == ctx.samples[|ctx.samples| + d])
  {
  }

  /** Half a second before the start still counts as offset 0; a whole second before picks the last sample. */
  lemma EarlyPoints(start: int, samples: seq<int>)
    requires |samples| > 0
    ensures Delta(AwareTime(start - MicrosPerSecond / 2, 0), start) == 0
    ensures Delta(AwareTime(start - MicrosPerSecond, 0), start) == -1
    ensures Index(samples, Delta(AwareTime(start - MicrosPerSecond, 0), start)) == Some(samples[|samples| - 1])
  {
  }

  /**
   * The HRM starts at 2018-03-10 17:09:50 UTC; a point stamped 17:09:52
   * UTC, or 18:09:52 at +01:00, attaches sample 2.
   */
  lemma AlignmentExample(samples: seq<int>)
    requires |samples| > 2
    ensures var day := Date(2018, 3, 10);
      var start := Combine(day, TimeOfDay(17, 9, 50, 0));
      Index(samples, Delta(AwareTime(Combine(day, TimeOfDay(17, 9, 52, 0)), 0), start)) == Some(samples[2]) &&
      Index(samples, Delta(AwareTime(Combine(day, TimeOfDay(18, 9, 52, 0)), 60), start)) == Some(samples[2])
  {
    var day := Date(2018, 3, 10);
    assert Combine(day, TimeOfDay(17, 9, 52, 0)) - Combine(day, TimeOfDay(17, 9, 50, 0)) == 2 * MicrosPerSecond;
    assert Combine(day, TimeOfDay(18, 9, 52, 0)) - 60 * MicrosPerMinute - Combine(day, TimeOfDay(17, 9, 50, 0)) == 2 * MicrosPerSecond;
  }
}

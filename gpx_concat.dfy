/**
 * Concatenating GPX 1.1 tracks (`merge_gpxs`).
 *
 * The base tree's first `trk` (found with `find('.//trk')`) receives, after
 * its own children, every `trkseg` of each other tree: tree by tree in the
 * order given, and in document order within a tree. Appending to a missing
 * `trk` is `None.append`, an AttributeError; a base without `trk` and
 * nothing to append comes back unchanged.
 */
module GpxConcat {
  import opened Wrappers
  import opened Py
  import opened Xml
  import opened GpxUpgrade

  const TRK: Name := Gpx11("trk")
  const TRKSEG: Name := Gpx11("trkseg")

  /** Every `trkseg` of the trees `others`, in the order they are appended. */
  function AllSegments(others: seq<Element>): seq<Element>
  {
    if others == [] then [] else FindAll(others[0], TRKSEG) + AllSegments(others[1..])
  }

  /** What the base tree becomes once its first `trk` holds `extra` after its own children. */
  function Appended(base: Element, extra: seq<Element>): Result<Element, PyError>
  {
    match FirstPath(base, TRK)
    case None => if extra == [] then Success(base) else Failure(AttributeError)
    case Some(p) =>
      FirstPathFinds(base, TRK);
      Success(ReplaceAt(base, p, At(base, p).(children := At(base, p).children + extra)))
  }

  /** `merge_gpxs(base, others)`: find the base's `trk`, then append every other tree's segments to it. */
  method MergeGpxs(base: Element, others: seq<Element>) returns (r: Result<Element, PyError>)
    ensures r == Appended(base, AllSegments(others))
  {
    var path := FirstPath(base, TRK);
    FirstPathValid(base, path);
    var trk: Option<seq<Element>> := if path.Some? then Some(At(base, path.value).children) else None;
    var grown := AppendTrees(trk, others);
    AppendedGrown(base, path, trk, AllSegments(others));
    if grown.Failure? {
      return Failure(grown.error);
    }
    if path.None? {
      return Success(base);
    }
    var t := At(base, path.value);
    r := Success(ReplaceAt(base, path.value, t.(children := grown.value.value)));
  }

  /** What appending `extra` to a `trk`'s children gives, when the `trk` may be missing. */
  function Grown(trk: Option<seq<Element>>, extra: seq<Element>): Result<Option<seq<Element>>, PyError>
  {
    match trk
    case None => if extra == [] then Success(None) else Failure(AttributeError)
    case Some(cs) => Success(Some(cs + extra))
  }

  /** Appending in two steps appends the concatenation. */
  lemma GrownConcat(trk: Option<seq<Element>>, a: seq<Element>, b: seq<Element>)
    requires Grown(trk, a).Success?
    ensures Grown(trk, a + b) == Grown(Grown(trk, a).value, b)
  {
    if trk.Some? {
      assert trk.value + a + b == trk.value + (a + b);
    } else {
      assert a + b == b;
    }
  }

  /** The base's merge result, read off the grown `trk`. */
  lemma AppendedGrown(base: Element, path: Option<seq<nat>>, trk: Option<seq<Element>>, extra: seq<Element>)
    requires path == FirstPath(base, TRK)
    requires path.Some? ==> ValidPath(base, path.value) && trk == Some(At(base, path.value).children)
    requires path.None? ==> trk == None
    ensures Grown(trk, extra).Failure? ==> Appended(base, extra) == Failure(Grown(trk, extra).error)
    ensures Grown(trk, extra).Success? && path.None? ==> Appended(base, extra) == Success(base)
    ensures Grown(trk, extra).Success? && path.Some? ==>
      Grown(trk, extra).value.Some? &&
      Appended(base, extra) ==
        Success(ReplaceAt(base, path.value, At(base, path.value).(children := Grown(trk, extra).value.value)))
  {
    if path.Some? {
      AppendedAt(base, path.value, extra);
    }
  }

  /** The outer loop of `merge_gpxs`: every other tree's segments, tree by tree. */
  method AppendTrees(trk: Option<seq<Element>>, others: seq<Element>) returns (r: Result<Option<seq<Element>>, PyError>)
    ensures r == Grown(trk, AllSegments(others))
  {
    var current := trk;
    var i := 0;
    assert Grown(trk, AllSegments(others[..0])) == Success(trk) by {
      if trk.Some? {
        assert trk.value + [] == trk.value;
      }
    }
    while i < |others|
      invariant 0 <= i <= |others|
      invariant Grown(trk, AllSegments(others[..i])) == Success(current)
    {
      var segments := FindAll(others[i], TRKSEG);
      var appended := AppendSegments(current, segments);
      NextTree(others, i);
      GrownConcat(trk, AllSegments(others[..i]), segments);
      if appended.Failure? {
        FailureStays(trk, others, i + 1);
        return Failure(appended.error);
      }
      current := appended.value;
      i := i + 1;
    }
    assert others[..i] == others;
    r := Success(current);
  }

  /** The inner loop, `root_trk.append(trkseg)` for each segment, where the `trk` may be missing. */
  method AppendSegments(trk: Option<seq<Element>>, segments: seq<Element>) returns (r: Result<Option<seq<Element>>, PyError>)
    ensures r.Failure? <==> trk.None? && segments != []
    ensures r.Failure? ==> r.error == AttributeError
    ensures r.Success? ==> r.value == if trk.Some? then Some(trk.value + segments) else None
    ensures r == Grown(trk, segments)
  {
    var current := trk;
    var j := 0;
    assert trk.Some? ==> trk.value + segments[..0] == trk.value;
    while j < |segments|
      invariant 0 <= j <= |segments|
      invariant trk.Some? ==> current == Some(trk.value + segments[..j])
      invariant trk.None? ==> current == None && j == 0
    {
      if current.None? {
        return Failure(AttributeError);
      }
      current := Some(current.value + [segments[j]]);
      assert segments[..j + 1] == segments[..j] + [segments[j]];
      assert trk.value + segments[..j + 1] == trk.value + segments[..j] + [segments[j]];
      j := j + 1;
    }
    assert segments[..j] == segments;
    r := Success(current);
  }

  lemma FirstPathValid(base: Element, path: Option<seq<nat>>)
    requires path == FirstPath(base, TRK)
    ensures path.Some? ==> ValidPath(base, path.value)
  {
    FirstPathFinds(base, TRK);
  }

  /** With a `trk` at `p`, the merge appends to its children. */
  lemma AppendedAt(base: Element, p: seq<nat>, extra: seq<Element>)
    requires FirstPath(base, TRK) == Some(p)
    ensures ValidPath(base, p)
    ensures Appended(base, extra) == Success(ReplaceAt(base, p, At(base, p).(children := At(base, p).children + extra)))
  {
    FirstPathFinds(base, TRK);
  }

  /** Once appending fails, appending the segments of more trees fails the same way. */
  lemma FailureStays(trk: Option<seq<Element>>, others: seq<Element>, i: nat)
    requires i <= |others| && Grown(trk, AllSegments(others[..i])).Failure?
    ensures Grown(trk, AllSegments(others)) == Grown(trk, AllSegments(others[..i]))
  {
    var front := others[..i];
    AllSegmentsEmpty(front);
    AllSegmentsEmpty(others);
    var k :| 0 <= k < |front| && FindAll(front[k], TRKSEG) != [];
    assert front[k] == others[k];
  }

  /** Taking one more tree appends its segments. */
  lemma NextTree(others: seq<Element>, i: nat)
    requires i < |others|
    ensures AllSegments(others[..i + 1]) == AllSegments(others[..i]) + FindAll(others[i], TRKSEG)
  {
    assert others[..i + 1] == others[..i] + [others[i]];
    AllSegmentsConcat(others[..i], [others[i]]);
    assert [others[i]][1..] == [];
  }

  /** The segments of two runs of trees, one after the other, are those of the first run, then of the second. */
  lemma {:induction false} AllSegmentsConcat(a: seq<Element>, b: seq<Element>)
    ensures AllSegments(a + b) == AllSegments(a) + AllSegments(b)
  {
    if a != [] {
      assert (a + b)[1..] == a[1..] + b;
      assert (a + b)[0] == a[0];
      AllSegmentsConcat(a[1..], b);
    } else {
      assert a + b == b;
    }
  }

  /**
   * The merge fails, with AttributeError, exactly when the base has no
   * `trk` while some other tree has a `trkseg`.
   */
  lemma MergeGpxsFails(base: Element, others: seq<Element>)
    ensures Appended(base, AllSegments(others)).Failure? <==>
      FindAll(base, TRK) == [] && exists k :: 0 <= k < |others| && FindAll(others[k], TRKSEG) != []
    ensures Appended(base, AllSegments(others)).Failure? ==> Appended(base, AllSegments(others)).error == AttributeError
  {
    FirstPathFinds(base, TRK);
    AllSegmentsEmpty(others);
  }

  lemma {:induction false} AllSegmentsEmpty(others: seq<Element>)
    ensures AllSegments(others) == [] <==> forall k :: 0 <= k < |others| ==> FindAll(others[k], TRKSEG) == []
  {
    if others != [] {
      var rest := others[1..];
      AllSegmentsEmpty(rest);
      assert forall k :: 0 < k < |others| ==> others[k] == rest[k - 1];
    }
  }

  /**
   * After a successful merge the base's first `trk` holds its old children
   * followed by every appended segment, every subtree off the path to it is
   * as it was, and the root and every element between it and the `trk` keep
   * their tag, attributes, text and number of children.
   */
  lemma MergeGpxsLayout(base: Element, others: seq<Element>, q: seq<nat>)
    requires FindAll(base, TRK) != []
    requires ValidPath(base, q)
    ensures FirstPath(base, TRK).Some?
    ensures var p := FirstPath(base, TRK).value;
      var r := Appended(base, AllSegments(others));
      r.Success? &&
      ValidPath(r.value, p) &&
      At(r.value, p) == FindAll(base, TRK)[0].(children := FindAll(base, TRK)[0].children + AllSegments(others)) &&
      r.value.tag == base.tag && r.value.attrs == base.attrs && r.value.text == base.text &&
      |r.value.children| == |base.children| &&
      (forall k :: 0 < k < |p| ==>
        ValidPath(r.value, p[..k]) && ValidPath(base, p[..k]) &&
        At(r.value, p[..k]).tag == At(base, p[..k]).tag && At(r.value, p[..k]).attrs == At(base, p[..k]).attrs &&
        At(r.value, p[..k]).text == At(base, p[..k]).text &&
        |At(r.value, p[..k]).children| == |At(base, p[..k]).children|) &&
      ((exists k :: 0 <= k < |p| && k < |q| && p[k] != q[k]) ==> ValidPath(r.value, q) && At(r.value, q) == At(base, q))
  {
    FirstPathFinds(base, TRK);
    var p := FirstPath(base, TRK).value;
    var x := At(base, p).(children := At(base, p).children + AllSegments(others));
    AtReplaceAt(base, p, x);
    forall k | 0 < k < |p|
      ensures ValidPath(ReplaceAt(base, p, x), p[..k]) && ValidPath(base, p[..k]) &&
        At(ReplaceAt(base, p, x), p[..k]).tag == At(base, p[..k]).tag &&
        At(ReplaceAt(base, p, x), p[..k]).attrs == At(base, p[..k]).attrs &&
        At(ReplaceAt(base, p, x), p[..k]).text == At(base, p[..k]).text &&
        |At(ReplaceAt(base, p, x), p[..k]).children| == |At(base, p[..k]).children|
    {
      ReplaceAtAbove(base, p, x, k);
      ReplaceAtKeepsRoot(At(base, p[..k]), p[k..], x);
    }
    if exists k :: 0 <= k < |p| && k < |q| && p[k] != q[k] {
      ReplaceAtElsewhere(base, p, q, x);
    }
  }

  /** With nothing to append the base is returned as it was, `trk` or not. */
  lemma NothingToAppend(base: Element)
    ensures Appended(base, []) == Success(base)
  {
    FirstPathFinds(base, TRK);
    if FirstPath(base, TRK).Some? {
      var p := FirstPath(base, TRK).value;
      var t := At(base, p);
      assert t.(children := t.children + []) == t;
      ReplaceAtSame(base, p);
    }
  }

  lemma {:induction false} ReplaceAtSame(e: Element, p: seq<nat>)
    requires ValidPath(e, p)
    ensures ReplaceAt(e, p, At(e, p)) == e
    decreases |p|
  {
    if p != [] {
      ReplaceAtSame(e.children[p[0]], p[1..]);
      assert e.children[p[0] := e.children[p[0]]] == e.children;
    }
  }
}

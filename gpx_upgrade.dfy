/**
 * The GPX 1.0 to 1.1 upgrade: a fresh 1.1 `gpx` root is filled by walking
 * a fixed schema, trk / trkseg / trkpt / {time, fix, sat}. For every
 * schema node, in schema order, each 1.0 descendant with that tag becomes
 * a new 1.1 element; the node's converter copies the source's text or
 * attributes into it, and the node's own children are found the same way
 * below that source element. Anything the schema does not name is dropped.
 */
module GpxUpgrade {
  import opened Wrappers
  import opened Xml

  const GPX_10_NS: string := "http://www.topografix.com/GPX/1/0"
  const GPX_11_NS: string := "http://www.topografix.com/GPX/1/1"
  const GPXTPX_NS: string := "http://www.garmin.com/xmlschemas/TrackPointExtension/v1"

  function Gpx10(local: string): Name { Name(GPX_10_NS, local) }

  function Gpx11(local: string): Name { Name(GPX_11_NS, local) }

  /** What a schema node copies from its source element (`_text_converter`, `_attr_converter`, or nothing). */
  datatype Converter = NoConverter | TextConverter | AttrConverter

  /** One entry of the schema: a local tag name, its converter and its child entries in order. */
  datatype Node = Node(tag: string, converter: Converter, childs: seq<Node>)

  const TIME_NODE: Node := Node("time", TextConverter, [])
  const FIX_NODE: Node := Node("fix", TextConverter, [])
  const SAT_NODE: Node := Node("sat", TextConverter, [])

  const POINT_FIELDS: seq<Node> := [TIME_NODE, FIX_NODE, SAT_NODE]

  const TRKPT_NODE: Node := Node("trkpt", AttrConverter, POINT_FIELDS)

  const TRKSEG_NODE: Node := Node("trkseg", NoConverter, [TRKPT_NODE])

  const TRK_NODE: Node := Node("trk", NoConverter, [TRKSEG_NODE])

  /** `_NODES`. */
  const NODES: seq<Node> := [TRK_NODE]

  /** `_text_converter` sets the text; `_attr_converter` merges the source's attributes in. */
  function ApplyConverter(c: Converter, src: Element, dst: Element): (r: Element)
    ensures r.tag == dst.tag && r.children == dst.children
    ensures c == TextConverter ==> r.text == src.text && r.attrs == dst.attrs
    ensures c == AttrConverter ==> r.text == dst.text && r.attrs.Keys == dst.attrs.Keys + src.attrs.Keys
    ensures c == AttrConverter ==> forall k :: k in src.attrs ==> r.attrs[k] == src.attrs[k]
    ensures c == AttrConverter ==> forall k :: k in dst.attrs && k !in src.attrs ==> r.attrs[k] == dst.attrs[k]
    ensures c == NoConverter ==> r == dst
  {
    match c
    case NoConverter => dst
    case TextConverter => dst.(text := src.text)
    case AttrConverter => dst.(attrs := dst.attrs + src.attrs)
  }

  /** The elements `_convert(nodes, src, dst)` appends to `dst`, in order. */
  function ConvertAll(nodes: seq<Node>, src: Element): seq<Element>
    decreases nodes, 2
  {
    if nodes == [] then []
    else ConvertEach(nodes[0], FindAll(src, Gpx10(nodes[0].tag))) + ConvertAll(nodes[1..], src)
  }

  /** One new element per source element found for `node`, in document order. */
  function ConvertEach(node: Node, srcs: seq<Element>): (r: seq<Element>)
    ensures |r| == |srcs|
    decreases node, 1, |srcs|
  {
    if srcs == [] then [] else [ConvertOne(node, srcs[0])] + ConvertEach(node, srcs[1..])
  }

  /** The i-th element built for a node comes from the i-th source element found. */
  lemma {:induction false} ConvertEachIndex(node: Node, srcs: seq<Element>, i: nat)
    requires i < |srcs|
    ensures ConvertEach(node, srcs)[i] == ConvertOne(node, srcs[i])
    decreases i
  {
    if i > 0 {
      ConvertEachIndex(node, srcs[1..], i - 1);
    }
  }

  /** The 1.1 element built for one source element matched by `node`. */
  function ConvertOne(node: Node, src: Element): Element
    decreases node, 0
  {
    var dst := ApplyConverter(node.converter, src, NewElement(Gpx11(node.tag)));
    dst.(children := dst.children + ConvertAll(node.childs, src))
  }

  /** `_convert(root_node, src_root, dst_root)`: `dst_root` with the converted elements appended. */
  function Convert(nodes: seq<Node>, src: Element, dst: Element): Element
  {
    dst.(children := dst.children + ConvertAll(nodes, src))
  }

  /** `convert_gpx_trk_10_11`: the root of the new tree. */
  function ConvertGpx(gpx10: Element): Element
  {
    Convert(NODES, gpx10, NewElement(Gpx11("gpx")))
  }

  // ---------------------------------------------------------------------
  // What the upgrade produces
  // ---------------------------------------------------------------------

  lemma ConvertAllOne(node: Node, src: Element)
    ensures ConvertAll([node], src) == ConvertEach(node, FindAll(src, Gpx10(node.tag)))
  {
    assert [node][1..] == [];
  }

  /** The 1.1 `time`, `fix` or `sat` element built from a 1.0 one: only the text is kept. */
  function FieldOf(local: string, src: Element): Element
  {
    Element(Gpx11(local), map[], src.text, [])
  }

  /** The 1.1 elements built from a run of 1.0 `time`, `fix` or `sat` elements. */
  function FieldsOf(local: string, srcs: seq<Element>): (r: seq<Element>)
    ensures |r| == |srcs|
  {
    seq(|srcs|, k requires 0 <= k < |srcs| => FieldOf(local, srcs[k]))
  }

  /**
   * The children of an upgraded point come in three groups, all `time`,
   * then all `fix`, then all `sat` elements found below the source point,
   * each group in document order and each child carrying only its source's text.
   */
  lemma UpgradePointChildren(p: Element)
    ensures ConvertOne(TRKPT_NODE, p).children ==
      FieldsOf("time", FindAll(p, Gpx10("time"))) +
      FieldsOf("fix", FindAll(p, Gpx10("fix"))) +
      FieldsOf("sat", FindAll(p, Gpx10("sat")))
  {
    PointFieldGroups(p);
    LeafFields(TIME_NODE, FindAll(p, Gpx10("time")));
    LeafFields(FIX_NODE, FindAll(p, Gpx10("fix")));
    LeafFields(SAT_NODE, FindAll(p, Gpx10("sat")));
  }

  /** The point's children are the converted times, then fixes, then sats. */
  lemma PointFieldGroups(p: Element)
    ensures ConvertOne(TRKPT_NODE, p).children ==
      ConvertEach(TIME_NODE, FindAll(p, Gpx10("time"))) +
      ConvertEach(FIX_NODE, FindAll(p, Gpx10("fix"))) +
      ConvertEach(SAT_NODE, FindAll(p, Gpx10("sat")))
  {
    assert ConvertOne(TRKPT_NODE, p).children == ConvertAll(POINT_FIELDS, p);
    assert POINT_FIELDS[1..] == [FIX_NODE, SAT_NODE];
    assert POINT_FIELDS[1..][1..] == [SAT_NODE];
    ConvertAllOne(SAT_NODE, p);
    assert ConvertAll([FIX_NODE, SAT_NODE], p) ==
      ConvertEach(FIX_NODE, FindAll(p, Gpx10("fix"))) + ConvertAll([SAT_NODE], p);
    assert ConvertAll(POINT_FIELDS, p) ==
      ConvertEach(TIME_NODE, FindAll(p, Gpx10("time"))) + ConvertAll([FIX_NODE, SAT_NODE], p);
  }

  /** A text-only leaf of the schema turns each source into a childless element holding its text. */
  lemma LeafFields(node: Node, srcs: seq<Element>)
    requires node.converter == TextConverter && node.childs == []
    ensures ConvertEach(node, srcs) == FieldsOf(node.tag, srcs)
  {
    forall k | 0 <= k < |srcs|
      ensures ConvertEach(node, srcs)[k] == FieldOf(node.tag, srcs[k])
    {
      ConvertEachIndex(node, srcs, k);
      assert ConvertAll(node.childs, srcs[k]) == [];
    }
  }

  /** An upgraded point carries exactly its source's attributes and no text. */
  lemma UpgradePointAttributes(p: Element)
    ensures var r := ConvertOne(TRKPT_NODE, p);
      r.tag == Gpx11("trkpt") && r.attrs == p.attrs && r.text == None
  {
    assert map[] + p.attrs == p.attrs;
  }

  /** `sg` is the 1.1 `trkseg` built from the 1.0 element `src`: bare, holding one upgraded point per `trkpt` below `src`. */
  predicate SegmentFrom(sg: Element, src: Element)
  {
    var pts := FindAll(src, Gpx10("trkpt"));
    sg.tag == Gpx11("trkseg") && sg.attrs == map[] && sg.text == None && |sg.children| == |pts| &&
    forall k :: 0 <= k < |pts| ==> sg.children[k] == ConvertOne(TRKPT_NODE, pts[k])
  }

  /** `t` is the 1.1 `trk` built from the 1.0 element `src`: bare, holding one segment per `trkseg` below `src`. */
  predicate TrackFrom(t: Element, src: Element)
  {
    var segs := FindAll(src, Gpx10("trkseg"));
    t.tag == Gpx11("trk") && t.attrs == map[] && t.text == None && |t.children| == |segs| &&
    forall j :: 0 <= j < |segs| ==> SegmentFrom(t.children[j], segs[j])
  }

  lemma SegmentLayout(src: Element)
    ensures SegmentFrom(ConvertOne(TRKSEG_NODE, src), src)
  {
    var pts := FindAll(src, Gpx10("trkpt"));
    ConvertAllOne(TRKPT_NODE, src);
    forall k | 0 <= k < |pts|
      ensures ConvertOne(TRKSEG_NODE, src).children[k] == ConvertOne(TRKPT_NODE, pts[k])
    {
      ConvertEachIndex(TRKPT_NODE, pts, k);
    }
  }

  lemma TrackLayout(src: Element)
    ensures TrackFrom(ConvertOne(TRK_NODE, src), src)
  {
    var segs := FindAll(src, Gpx10("trkseg"));
    ConvertAllOne(TRKSEG_NODE, src);
    forall j | 0 <= j < |segs|
      ensures SegmentFrom(ConvertOne(TRK_NODE, src).children[j], segs[j])
    {
      ConvertEachIndex(TRKSEG_NODE, segs, j);
      SegmentLayout(segs[j]);
    }
  }

  /**
   * The layout of the upgraded tree: a `gpx` root without attributes or
   * text whose children are one 1.1 `trk` per 1.0 `trk` descendant, each
   * holding one `trkseg` per `trkseg` below that `trk`, each holding one
   * upgraded point per `trkpt` below that `trkseg`, all in document order.
   */
  lemma UpgradeLayout(gpx10: Element)
    ensures var out := ConvertGpx(gpx10);
      var trks := FindAll(gpx10, Gpx10("trk"));
      out.tag == Gpx11("gpx") && out.attrs == map[] && out.text == None &&
      |out.children| == |trks| &&
      forall i :: 0 <= i < |trks| ==> TrackFrom(out.children[i], trks[i])
  {
    var trks := FindAll(gpx10, Gpx10("trk"));
    ConvertAllOne(TRK_NODE, gpx10);
    assert ConvertGpx(gpx10).children == ConvertEach(TRK_NODE, trks);
    forall i | 0 <= i < |trks|
      ensures TrackFrom(ConvertGpx(gpx10).children[i], trks[i])
    {
      ConvertEachIndex(TRK_NODE, trks, i);
      TrackLayout(trks[i]);
    }
  }

  // ---------------------------------------------------------------------
  // Nothing outside the schema survives
  // ---------------------------------------------------------------------

  /** Every 1.1 tag a schema forest can produce. */
  function SchemaNames(nodes: seq<Node>): set<Name>
    decreases nodes, 1
  {
    if nodes == [] then {} else NodeNames(nodes[0]) + SchemaNames(nodes[1..])
  }

  function NodeNames(node: Node): set<Name>
    decreases node, 0
  {
    {Gpx11(node.tag)} + SchemaNames(node.childs)
  }

  lemma {:induction false} ConvertEachOccurrences(node: Node, srcs: seq<Element>, n: Name)
    requires n !in NodeNames(node)
    ensures OccurrencesOf(ConvertEach(node, srcs), n) == 0
    decreases node, 1, |srcs|
  {
    if srcs != [] {
      var s := srcs[0];
      var dst := ApplyConverter(node.converter, s, NewElement(Gpx11(node.tag)));
      assert ConvertOne(node, s).children == ConvertAll(node.childs, s);
      ConvertAllOccurrences(node.childs, s, n);
      ConvertEachOccurrences(node, srcs[1..], n);
      assert ConvertEach(node, srcs)[1..] == ConvertEach(node, srcs[1..]);
    }
  }

  lemma {:induction false} ConvertAllOccurrences(nodes: seq<Node>, src: Element, n: Name)
    requires n !in SchemaNames(nodes)
    ensures OccurrencesOf(ConvertAll(nodes, src), n) == 0
    decreases nodes, 2
  {
    if nodes != [] {
      ConvertEachOccurrences(nodes[0], FindAll(src, Gpx10(nodes[0].tag)), n);
      ConvertAllOccurrences(nodes[1..], src, n);
      OccurrencesOfConcat(ConvertEach(nodes[0], FindAll(src, Gpx10(nodes[0].tag))), ConvertAll(nodes[1..], src), n);
    }
  }

  /** The upgraded tree holds no element with a tag outside the six 1.1 schema tags. */
  lemma UpgradeDropsTheRest(gpx10: Element, n: Name)
    requires n !in {Gpx11("trk"), Gpx11("trkseg"), Gpx11("trkpt"), Gpx11("time"), Gpx11("fix"), Gpx11("sat")}
    ensures FindAll(ConvertGpx(gpx10), n) == []
  {
    var fields := {Gpx11("time"), Gpx11("fix"), Gpx11("sat")};
    assert SchemaNames(POINT_FIELDS) == fields by {
      var time, fix, sat := POINT_FIELDS[0], POINT_FIELDS[1], POINT_FIELDS[2];
      assert POINT_FIELDS[1..] == [fix, sat];
      assert POINT_FIELDS[1..][1..] == [sat];
      assert [sat][1..] == [];
      assert SchemaNames([sat]) == {Gpx11("sat")};
      assert SchemaNames([fix, sat]) == {Gpx11("fix"), Gpx11("sat")};
    }
    var segNode := TRKSEG_NODE;
    assert SchemaNames([TRKPT_NODE]) == {Gpx11("trkpt")} + fields by {
      assert [TRKPT_NODE][1..] == [];
    }
    assert SchemaNames([segNode]) == {Gpx11("trkseg"), Gpx11("trkpt")} + fields by {
      assert [segNode][1..] == [];
    }
    assert SchemaNames(NODES) == {Gpx11("trk"), Gpx11("trkseg"), Gpx11("trkpt")} + fields by {
      assert NODES[1..] == [];
    }
    ConvertAllOccurrences(NODES, gpx10, n);
    assert ConvertGpx(gpx10).children == ConvertAll(NODES, gpx10);
    FindAllCount(ConvertGpx(gpx10), n);
  }
}

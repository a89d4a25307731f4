/**
 * The driver of the `strvup` package: how `run` names the files it reads
 * and writes and what it merges and uploads, the version gate and root
 * stamping of `process_files`, the older single-file `main` of the
 * top-level script, and the form `upload_activity` posts.
 *
 * Paths are POSIX strings and the `posixpath` helpers the driver calls
 * (`splitext`, `basename`, `dirname`, `join`) are modelled as functions.
 * Trees and HRM files are given as values; the temporary files the driver
 * creates are named by a parameter: `temp(k)` is the name of the `k`-th
 * one created.
 */
module Strvup {
  import opened Wrappers
  import opened Py
  import opened Xml
  import opened Hrm
  import opened GpxUpgrade
  import opened GpxMerge

  // ---------------------------------------------------------------------
  // posixpath
  // ---------------------------------------------------------------------

  /** `s.rfind(c)`: the index of the last `c` in `s`, or -1. */
  function RFind(s: string, c: char): (r: int)
    ensures -1 <= r < |s|
    ensures r >= 0 ==> s[r] == c
    ensures forall i :: r < i < |s| ==> s[i] != c
  {
    if s == [] then -1
    else if s[|s| - 1] == c then |s| - 1
    else RFind(s[..|s| - 1], c)
  }

  /**
   * `os.path.splitext(p)`: the extension is everything from the last `.`
   * of the file name, provided the file name has a character other than
   * `.` before it (so `.bashrc` has none).
   */
  function SplitExt(p: string): (r: (string, string))
    ensures r.0 + r.1 == p
    ensures r.1 == "" || (r.1[0] == '.' && '/' !in r.1 && '.' !in r.1[1..])
    ensures r.1 != "" ==> exists i :: RFind(p, '/') < i < |r.0| && p[i] != '.'
    ensures r.1 == "" ==> forall i, j :: RFind(p, '/') < i < j < |p| && p[j] == '.' ==> p[i] == '.'
  {
    var sepIndex := RFind(p, '/');
    var dotIndex := RFind(p, '.');
    if dotIndex > sepIndex && exists i :: sepIndex + 1 <= i < dotIndex && p[i] != '.' then
      assert p[..dotIndex] + p[dotIndex..] == p;
      assert forall i :: 0 <= i < |p[dotIndex..]| ==> p[dotIndex..][i] == p[dotIndex + i];
      (p[..dotIndex], p[dotIndex..])
    else (p, "")
  }

  /** `os.path.basename(p)`: what follows the last `/`. */
  function BaseName(p: string): (r: string)
    ensures '/' !in r
    ensures |r| <= |p| && p[|p| - |r|..] == r
    ensures |r| == |p| || p[|p| - |r| - 1] == '/'
  {
    p[RFind(p, '/') + 1..]
  }

  /** `s.rstrip(c)`. */
  function RStrip(s: string, c: char): (r: string)
    ensures |r| <= |s| && s[..|r|] == r
    ensures r == [] || r[|r| - 1] != c
    ensures forall i :: |r| <= i < |s| ==> s[i] == c
  {
    if s != [] && s[|s| - 1] == c then RStrip(s[..|s| - 1], c) else s
  }

  /**
   * `os.path.dirname(p)`: what precedes the last `/`, with its trailing
   * slashes removed unless it is nothing but slashes.
   */
  function DirName(p: string): (r: string)
    ensures |r| <= |p| && p[..|r|] == r
    ensures |r| + |BaseName(p)| <= |p|
    ensures r == "" || r[|r| - 1] != '/' || forall i :: 0 <= i < |r| ==> r[i] == '/'
    ensures forall i :: |r| <= i < |p| - |BaseName(p)| ==> p[i] == '/'
    ensures (forall i :: 0 <= i < |p| - |BaseName(p)| ==> p[i] == '/') ==> |r| == |p| - |BaseName(p)|
  {
    var head := p[..RFind(p, '/') + 1];
    if head != "" && exists i :: 0 <= i < |head| && head[i] != '/' then RStrip(head, '/') else head
  }

  /** `os.path.join(a, b)`: an absolute `b` replaces `a`; otherwise a `/` goes between them unless `a` ends in one or is empty. */
  function PathJoin(a: string, b: string): (r: string)
    ensures |b| > 0 && b[0] == '/' ==> r == b
    ensures !(|b| > 0 && b[0] == '/') ==> |a| <= |r| && r[..|a|] == a && |b| <= |r| && r[|r| - |b|..] == b
    ensures !(|b| > 0 && b[0] == '/') ==> |r| == |a| + |b| + (if a == "" || a[|a| - 1] == '/' then 0 else 1)
    ensures |r| > |a| + |b| ==> r[|a|] == '/'
  {
    if |b| > 0 && b[0] == '/' then b
    else if a == "" || a[|a| - 1] == '/' then a + b
    else a + "/" + b
  }

  /** A file name with no `/` is the base name of any path it is joined to. */
  lemma JoinBaseName(a: string, name: string)
    requires '/' !in name
    ensures BaseName(PathJoin(a, name)) == name
    ensures PathJoin(a, name)[..|a|] == a
  {
    if name == [] || name[0] != '/' {
      if a == "" || a[|a| - 1] == '/' {
        RFindAfter(a, name, '/');
        assert PathJoin(a, name)[|a|..] == name;
      } else {
        RFindAfter(a + "/", name, '/');
        assert PathJoin(a, name) == (a + "/") + name;
        assert PathJoin(a, name)[|a| + 1..] == name;
      }
    }
  }

  /** The last `c` of `x + y` is the end of `x`, when `x` ends in `c` (or is empty) and `y` has none. */
  lemma RFindAfter(x: string, y: string, c: char)
    requires c !in y && (x == [] || x[|x| - 1] == c)
    ensures RFind(x + y, c) == |x| - 1
  {
    var s := x + y;
    assert forall i :: |x| <= i < |s| ==> s[i] == y[i - |x|];
    assert x != [] ==> s[|x| - 1] == c;
  }

  // ---------------------------------------------------------------------
  // run: the names of the files
  // ---------------------------------------------------------------------

  /** `os.path.splitext(gpxfname)[0]`. */
  function Stem(p: string): string
  {
    SplitExt(p).0
  }

  /** The companion HRM file: the GPX path with its extension replaced by `.hrm`. */
  function HrmPath(gpx: string): string
  {
    Stem(gpx) + ".hrm"
  }

  /** Where the merged result of file `k` goes: next to the input when it is kept, else the `k`-th temporary file. */
  function OutPath(gpx: string, saveMerged: bool, temp: nat -> string, k: nat): string
  {
    if saveMerged then Stem(gpx) + "_hrm.gpx" else temp(k)
  }

  /** The stems of the input files' base names, in order. */
  function Stems(files: seq<string>): seq<string>
  {
    seq(|files|, k requires 0 <= k < |files| => SplitExt(BaseName(files[k])).0)
  }

  /** The concatenated track's name: the stems joined by `_`, the first file's extension, in the first file's directory. */
  function MergedPath(files: seq<string>): string
    requires files != []
  {
    PathJoin(DirName(files[0]), Join(Stems(files), '_') + SplitExt(files[0]).1)
  }

  /** The HRM path splits back into the GPX path's stem and `.hrm`, when the stem's file name is not all dots. */
  lemma HrmPathReplacesExtension(gpx: string)
    requires exists i :: RFind(Stem(gpx), '/') < i < |Stem(gpx)| && Stem(gpx)[i] != '.'
    ensures SplitExt(HrmPath(gpx)) == (Stem(gpx), ".hrm")
  {
    var stem, p := Stem(gpx), HrmPath(gpx);
    assert p == (stem + ".") + "hrm";
    RFindAfter(stem + ".", "hrm", '.');
    RFindSkip(stem, ".hrm", '/');
    var s := RFind(stem, '/');
    var i :| s < i < |stem| && stem[i] != '.';
    assert p[i] == stem[i];
    assert p[..|stem|] == stem && p[|stem|..] == ".hrm";
    SplitExtAt(p, i);
  }

  /** A path whose last `.` comes after its last `/` and after some other character `p[i]` of the file name splits at that `.`. */
  lemma SplitExtAt(p: string, i: int)
    requires RFind(p, '/') < i < RFind(p, '.') && p[i] != '.'
    ensures SplitExt(p) == (p[..RFind(p, '.')], p[RFind(p, '.')..])
  {
  }

  /** Text with no `c` appended after `x` leaves the last `c` where it was. */
  lemma {:induction false} RFindSkip(x: string, y: string, c: char)
    requires c !in y
    ensures RFind(x + y, c) == RFind(x, c)
    decreases |y|
  {
    var s := x + y;
    if y != [] {
      assert s[..|s| - 1] == x + y[..|y| - 1];
      assert s[|s| - 1] == y[|y| - 1];
      RFindSkip(x, y[..|y| - 1], c);
    } else {
      assert s == x;
    }
  }

  /** A stem is a prefix of a base name, so it has no `/`. */
  lemma StemsNoSlash(files: seq<string>)
    ensures forall k :: 0 <= k < |files| ==> '/' !in Stems(files)[k]
  {
    var stems := Stems(files);
    forall k | 0 <= k < |files|
      ensures '/' !in stems[k]
    {
      var b := BaseName(files[k]);
      assert stems[k] + SplitExt(b).1 == b;
      assert forall i :: 0 <= i < |stems[k]| ==> stems[k][i] == b[i];
    }
  }

  /**
   * The merged name lies in the first file's directory, and its file name
   * is the stems joined by `_` followed by the first file's extension.
   */
  lemma MergedPathParts(files: seq<string>)
    requires files != []
    ensures var name := Join(Stems(files), '_') + SplitExt(files[0]).1;
      MergedPath(files)[..|DirName(files[0])|] == DirName(files[0]) &&
      BaseName(MergedPath(files)) == name
  {
    StemsNoSlash(files);
    JoinAbsent(Stems(files), '_', '/');
    var name := Join(Stems(files), '_') + SplitExt(files[0]).1;
    assert '/' !in name;
    JoinBaseName(DirName(files[0]), name);
  }

  /**
   * The merged file name cuts back at `_` into the stems, the extension
   * staying on the last one, when the extension and every stem are free
   * of `_`.
   */
  lemma MergedNameSplits(files: seq<string>)
    requires files != []
    requires (forall k :: 0 <= k < |files| ==> '_' !in Stems(files)[k]) && '_' !in SplitExt(files[0]).1
    ensures Split(Join(Stems(files), '_') + SplitExt(files[0]).1, '_') ==
      Stems(files)[..|files| - 1] + [Stems(files)[|files| - 1] + SplitExt(files[0]).1]
  {
    var stems := Stems(files);
    var ext := SplitExt(files[0]).1;
    var parts := stems[..|stems| - 1] + [stems[|stems| - 1] + ext];
    JoinLast(stems, ext, '_');
    forall k | 0 <= k < |parts|
      ensures '_' !in parts[k]
    {
      if k < |stems| - 1 {
        assert parts[k] == stems[k];
      }
    }
    SplitJoin(parts, '_');
  }

  /** Text after the last part is text at the end of that part. */
  lemma {:induction false} JoinLast(parts: seq<string>, tail: string, sep: char)
    requires parts != []
    ensures Join(parts, sep) + tail == Join(parts[..|parts| - 1] + [parts[|parts| - 1] + tail], sep)
  {
    if |parts| > 1 {
      var rest := parts[1..];
      JoinLast(rest, tail, sep);
      var front := parts[..|parts| - 1] + [parts[|parts| - 1] + tail];
      assert front[0] == parts[0] && front[1..] == rest[..|rest| - 1] + [rest[|rest| - 1] + tail];
    }
  }

  // ---------------------------------------------------------------------
  // run: the bookkeeping
  // ---------------------------------------------------------------------

  /** One `process_files(gpx, hrm, tz_offset, out)` call. */
  datatype Job = Job(gpx: string, hrm: string, out: string)

  /** The `merge_files(base, others, out)` call. */
  datatype MergeJob = MergeJob(base: string, others: seq<string>, out: string)

  /** The names of the first `n` temporary files, in the order they are created. */
  function Temps(temp: nat -> string, n: nat): seq<string>
  {
    seq(n, k requires 0 <= k < n => temp(k))
  }

  /** The output tracks of the jobs, in order. */
  function Outs(jobs: seq<Job>): seq<string>
  {
    seq(|jobs|, k requires 0 <= k < |jobs| => jobs[k].out)
  }

  /** One (original, track) upload per job, in order. */
  function PerFile(jobs: seq<Job>): seq<(string, string)>
  {
    seq(|jobs|, k requires 0 <= k < |jobs| => (jobs[k].gpx, jobs[k].out))
  }

  /** The tracks of (original, track) pairs. */
  function Tracks(uploads: seq<(string, string)>): seq<string>
  {
    seq(|uploads|, k requires 0 <= k < |uploads| => uploads[k].1)
  }

  lemma TracksPerFile(jobs: seq<Job>)
    ensures Tracks(PerFile(jobs)) == Outs(jobs)
  {
  }

  lemma PerFileSnoc(jobs: seq<Job>, j: Job)
    ensures PerFile(jobs + [j]) == PerFile(jobs) + [(j.gpx, j.out)]
  {
  }

  lemma TempsSnoc(temp: nat -> string, n: nat)
    ensures Temps(temp, n + 1) == Temps(temp, n) + [temp(n)]
  {
  }

  /** The job `run` does for input `k`. */
  function JobFor(files: seq<string>, saveMerged: bool, temp: nat -> string, k: nat): Job
    requires k < |files|
  {
    Job(files[k], HrmPath(files[k]), OutPath(files[k], saveMerged, temp, k))
  }

  /**
   * `run(files, …, no_upload, save_merged, merge)`: the file processed for
   * each input, the concatenation when asked for, the (original, track)
   * pairs to upload, the tracks actually sent, the temporary files removed
   * at the end in the order they are removed, and the exception that ends
   * the run early, if any.
   *
   * `mergeFiles(base, others, out)` is what `merge_files` raises, if
   * anything: it reads the tracks from disk, which is outside the model
   * (`GpxConcat.MergeGpxsFails` says when the concatenation raises
   * AttributeError). A raise skips the uploads and the removal of the
   * temporary files.
   */
  method Run(files: seq<string>, noUpload: bool, saveMerged: bool, merge: bool, temp: nat -> string,
             mergeFiles: (string, seq<string>, string) -> Option<PyError>)
    returns (jobs: seq<Job>, merged: Option<MergeJob>, uploads: seq<(string, string)>, sent: seq<string>,
             unlinks: seq<string>, raised: Option<PyError>)
    ensures |jobs| == |files| && forall k :: 0 <= k < |files| ==> jobs[k] == JobFor(files, saveMerged, temp, k)
    ensures merged.Some? <==> merge && |files| > 1
    ensures merged.Some? ==>
      merged.value.base == jobs[0].out && merged.value.others == Outs(jobs)[1..] &&
      merged.value.out == if saveMerged then MergedPath(files) else temp(|files|)
    ensures raised == if merged.Some? then mergeFiles(merged.value.base, merged.value.others, merged.value.out) else None
    ensures uploads == if merged.Some? && raised.None? then [("merged file", merged.value.out)] else PerFile(jobs)
    ensures sent == if noUpload || raised.Some? then [] else Tracks(uploads)
    ensures unlinks == if saveMerged || raised.Some? then [] else Temps(temp, |files|) + (if merged.Some? then [temp(|files|)] else [])
  {
    var made;
    jobs, uploads, unlinks, made := ProcessAll(files, saveMerged, temp);
    merged := None;
    raised := None;
    if merge && |uploads| > 1 {
      var out;
      if saveMerged {
        out := MergedPath(files);
      } else {
        out := temp(made);
        unlinks := unlinks + [out];
      }
      var outs := Tracks(uploads);
      TracksPerFile(jobs);
      merged := Some(MergeJob(outs[0], outs[1..], out));
      raised := mergeFiles(outs[0], outs[1..], out);
      if raised.Some? {
        sent, unlinks := [], [];
        return;
      }
      uploads := [("merged file", out)];
    }
    sent := [];
    if !noUpload {
      sent := Tracks(uploads);
    }
  }

  /** The loop of `run` over the input files, with the number of temporary files it created. */
  method ProcessAll(files: seq<string>, saveMerged: bool, temp: nat -> string)
    returns (jobs: seq<Job>, uploads: seq<(string, string)>, unlinks: seq<string>, made: nat)
    ensures |jobs| == |files| && forall k :: 0 <= k < |files| ==> jobs[k] == JobFor(files, saveMerged, temp, k)
    ensures uploads == PerFile(jobs)
    ensures made == if saveMerged then 0 else |files|
    ensures unlinks == if saveMerged then [] else Temps(temp, |files|)
  {
    uploads, unlinks, jobs := [], [], [];
    made := 0;
    for i := 0 to |files|
      invariant |jobs| == i && uploads == PerFile(jobs)
      invariant forall k :: 0 <= k < i ==> jobs[k] == JobFor(files, saveMerged, temp, k)
      invariant made == if saveMerged then 0 else i
      invariant unlinks == if saveMerged then [] else Temps(temp, i)
    {
      var basename := SplitExt(files[i]).0;
      var hrm := basename + ".hrm";
      var out;
      if saveMerged {
        out := basename + "_hrm.gpx";
      } else {
        out := temp(made);
        made := made + 1;
        unlinks := unlinks + [out];
        TempsSnoc(temp, i);
      }
      var job := Job(files[i], hrm, out);
      assert job == JobFor(files, saveMerged, temp, i);
      PerFileSnoc(jobs, job);
      jobs := jobs + [job];
      uploads := uploads + [(files[i], out)];
    }
  }

  // ---------------------------------------------------------------------
  // process_files and the older main
  // ---------------------------------------------------------------------

  /** `root.attrib.get('version', '1.0')`. */
  function Version(root: Element): string
  {
    if "version" in root.attrs then root.attrs["version"] else "1.0"
  }

  /** The version gate: a 1.1 tree is used as it is, anything else is upgraded. */
  function Gated(root: Element): Element
  {
    if Version(root) == "1.1" then root else ConvertGpx(root)
  }

  /** `root.attrib.update({'creator': 'strvup.py', 'version': '1.1'})`. */
  function Stamped(root: Element): Element
  {
    root.(attrs := root.attrs["creator" := "strvup.py"]["version" := "1.1"])
  }

  /**
   * `process_files(gpx_path, hrm_path, tz_offset, out_path)` on the parsed
   * GPX root and the HRM file's lines: gate, parse the HRM file, merge with
   * the `strvup.gpx` version, stamp the root. The result is the root that
   * is written out, or the exception that stops the run.
   */
  function ProcessFiles(root: Element, hrmLines: seq<string>, tzMinutes: int, clock: Clock): Result<Element, PyError>
  {
    var tree := Gated(root);
    match ParseHrm(hrmLines)
    case Failure(e) => Failure(e)
    case Success(sections) =>
      ParseFromParsed(map[], hrmLines);
      match MergeGpxHrm(tree, sections, tzMinutes, clock, true)
      case Failure(e) => Failure(e)
      case Success(merged) => Success(Stamped(merged))
  }

  /**
   * The top-level script's `main`: upgrade whatever the version, parse,
   * merge with the always-new-extensions version, stamp the root.
   */
  function MainMerge(root: Element, hrmLines: seq<string>, tzMinutes: int, clock: Clock): Result<Element, PyError>
  {
    var tree := ConvertGpx(root);
    match ParseHrm(hrmLines)
    case Failure(e) => Failure(e)
    case Success(sections) =>
      ParseFromParsed(map[], hrmLines);
      match MergeGpxHrm(tree, sections, tzMinutes, clock, false)
      case Failure(e) => Failure(e)
      case Success(merged) => Success(Stamped(merged))
  }

  /** The merge leaves the root element's own tag and attributes alone. */
  lemma MergeKeepsRoot(root: Element, sections: map<string, Section>, tzMinutes: int, clock: Clock, reuse: bool)
    requires Parsed(sections)
    requires MergeGpxHrm(root, sections, tzMinutes, clock, reuse).Success?
    ensures MergeGpxHrm(root, sections, tzMinutes, clock, reuse).value.attrs == root.attrs
    ensures MergeGpxHrm(root, sections, tzMinutes, clock, reuse).value.tag == root.tag
  {
  }

  /**
   * A processed root says `creator='strvup.py'` and `version='1.1'`; any
   * other attribute is the input's own when the input was already 1.1,
   * and there is none when it was upgraded.
   */
  lemma ProcessedRoot(root: Element, hrmLines: seq<string>, tzMinutes: int, clock: Clock)
    requires ProcessFiles(root, hrmLines, tzMinutes, clock).Success?
    ensures var out := ProcessFiles(root, hrmLines, tzMinutes, clock).value;
      "creator" in out.attrs && out.attrs["creator"] == "strvup.py" &&
      "version" in out.attrs && out.attrs["version"] == "1.1" &&
      forall k :: k != "creator" && k != "version" ==>
        (k in out.attrs <==> Version(root) == "1.1" && k in root.attrs) &&
        (k in out.attrs ==> out.attrs[k] == root.attrs[k])
  {
    var sections := ParseHrm(hrmLines).value;
    ParseFromParsed(map[], hrmLines);
    var merged := MergeGpxHrm(Gated(root), sections, tzMinutes, clock, true);
    assert ProcessFiles(root, hrmLines, tzMinutes, clock) == Success(Stamped(merged.value));
    MergeKeepsRoot(Gated(root), sections, tzMinutes, clock, true);
    if Version(root) != "1.1" {
      assert Gated(root).attrs == map[];
    }
    StampedAttrs(merged.value);
  }

  /** Stamping sets `creator` and `version` and keeps every other attribute. */
  lemma StampedAttrs(e: Element)
    ensures var a := Stamped(e).attrs;
      "creator" in a && a["creator"] == "strvup.py" && "version" in a && a["version"] == "1.1" &&
      forall k :: k != "creator" && k != "version" ==> (k in a <==> k in e.attrs) && (k in a ==> a[k] == e.attrs[k])
  {
  }

  /** What `process_files` writes passes the version gate unchanged when read again. */
  lemma ProcessedPassesGate(root: Element, hrmLines: seq<string>, tzMinutes: int, clock: Clock)
    requires ProcessFiles(root, hrmLines, tzMinutes, clock).Success?
    ensures var out := ProcessFiles(root, hrmLines, tzMinutes, clock).value;
      Version(out) == "1.1" && Gated(out) == out
  {
  }

  /**
   * On a file that is not already 1.1, the package's `process_files` and
   * the older script's `main` write the same tree and fail the same way.
   */
  lemma ProcessMatchesMain(root: Element, hrmLines: seq<string>, tzMinutes: int, clock: Clock)
    requires Version(root) != "1.1"
    ensures ProcessFiles(root, hrmLines, tzMinutes, clock) == MainMerge(root, hrmLines, tzMinutes, clock)
  {
    if ParseHrm(hrmLines).Success? {
      ParseFromParsed(map[], hrmLines);
      UpgradedVersionsAgree(root, ParseHrm(hrmLines).value, tzMinutes, clock);
    }
  }

  // ---------------------------------------------------------------------
  // upload_activity: the form
  // ---------------------------------------------------------------------

  /** A form field's value: `1` or a string. */
  datatype FormValue = IntValue(i: int) | StrValue(s: string)

  /** Python truthiness of an optional string: neither None nor empty. */
  predicate Given(atype: Option<string>)
  {
    atype.Some? && atype.value != ""
  }

  /** The form posted with the track: always private and of type gpx, with the activity type when one is given. */
  function UploadForm(atype: Option<string>): (form: map<string, FormValue>)
    ensures form.Keys == {"private", "data_type"} + (if Given(atype) then {"activity_type"} else {})
    ensures form["private"] == IntValue(1) && form["data_type"] == StrValue("gpx")
    ensures "activity_type" in form ==> form["activity_type"] == StrValue(atype.value)
  {
    var form := map["private" := IntValue(1), "data_type" := StrValue("gpx")];
    if Given(atype) then form["activity_type" := StrValue(atype.value)] else form
  }
}

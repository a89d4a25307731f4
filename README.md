# strvup: the format-merge core, in Dafny

strvup merges a heart-rate recording in the Polar HRM text format into a GPS
track in GPX, and can concatenate several tracks before uploading them to
Strava. This project models the part of strvup that works on data:

- the HRM section parser (`HrmParser`);
- the schema-driven GPX 1.0 to 1.1 upgrade;
- the aligner that attaches a heart-rate sample to every track point;
- the track concatenator;
- the `mbt2hrm` converter, which fills the gaps in a timestamp-to-sample map and writes it out as a minimal HRM file;
- the bookkeeping of the package's `run` and `process_files`: file names, the version gate, root stamping and the upload form.

It also covers the older single-file script `strvup.py`. Its `_get_log_lvl`, `HrmParser`, schema and `convert_gpx_trk_10_11` are line-for-line copies of the package's, so the same members model both. Its `merge_gpx_hrm` is a second version of the aligner, the `reuse := false` case of `GpxMerge.MergeTree`.

The model states properties of each part and proves them: orderings, counts, index laws and round trips.

Modules, one per part of the program:

| module | file | models |
|---|---|---|
| `Wrappers` | wrappers.dfy | `Option` and `Result` |
| `Py` | py.dfy | the Python built-ins the core relies on: `str.replace`, `str.split`, `str`, `int`, `s[i]` with negative indices, `int()` of a float |
| `Calendar` | calendar.dfy | dates, times of day and naive datetimes as microseconds; strict `strptime`/`strftime` for the HRM formats; `replace(tzinfo=…)`; `int(td.total_seconds())` |
| `Xml` | xml.dfy | ElementTree elements as an immutable tree: `findall('.//t')`, `find('t')`, `find('.//t')` |
| `Hrm` | hrm.dfy | `strvup/hrmparser.py` (and the copy in `strvup.py`) |
| `GpxUpgrade` | gpx_upgrade.dfy | `_NODES`, the converters, `_convert`, `convert_gpx_trk_10_11` |
| `GpxMerge` | gpx_merge.dfy | both versions of `merge_gpx_hrm` |
| `GpxConcat` | gpx_concat.dfy | `merge_gpxs` |
| `Mbt2Hrm` | mbt2hrm.dfy | `_get_log_lvl`, `fill_gaps`, `HEADER` and `write_hrm` |
| `Strvup` | strvup.dfy | the `posixpath` helpers, `run`, `process_files`, the older `main`, the `upload_activity` form |

How the source's forms are kept:

- **`HrmParser`** is a class. Its `sections` field is a map that `Parse` updates line by line, exactly as the reading loop does. `ApplyParsers` then replaces each parsed section in place. `_parse_params` and `_parse_hrm_data` are static methods with their accumulating loops.
- **Specification functions.** Each of these methods is proved equal to a function on values: `Scan`/`ParseFrom`, `ParamsOf`, `SamplesOf` and `TransformAll`. The properties are lemmas about those functions.
- **`fill_gaps` and `write_hrm`** are methods with the source's loops, proved equal to the functions `Dense` and `HeaderLines(…) + SampleLines(…)`.
- **`run`'s file loop** and **`merge_gpxs`' two loops** are methods too.
- **The upgrade** is recursion over the schema, as in the source.
- **`merge_gpx_hrm`** is a recursive rebuild of the tree. The source collects the points with `findall` first and then mutates each one in document order; the rebuild visits them in the same order (see "Left out").
- **Instants** are integer microseconds. A timezone offset is signed minutes.
- **`iso8601.parse_date` and `isoformat`** are a `Clock` parameter.
- **Temporary file names** are a parameter as well: `temp(k)` is the name of the `k`-th file created.

Behaviour of the source worth noting, all of it proved about the model:

- A content line before any header, or after a blank line that closed the previous section, raises KeyError: the parser appends it to the section named `''`, which no header has created (`Hrm.OrphanLineFails`, `Hrm.BlankClosesSection`).
- The alignment offset is `int()` of a float, so it is truncated toward zero. A negative offset is not an error: Python's negative indexing picks a sample from the end of the list, and only an offset outside `-len .. len-1` raises IndexError (`GpxMerge.IndexErrorOnlyOutOfRange`, `GpxMerge.EarlyPoints`).
- The concatenator appends to the first `trk` found anywhere below the root. When the base tree has no `trk`, `root_trk` is `None` and the first `append` raises AttributeError, so the merge fails only if some other tree has a `trkseg`. A base without `trk` and nothing to append comes back unchanged (`GpxConcat.MergeGpxsFails`, `GpxConcat.NothingToAppend`).
- `process_files` upgrades only a root whose `version` attribute is not `'1.1'`; a 1.1 tree is merged as it was read. The older `main` upgrades every file, which drops everything outside the schema, 1.1 points included (`Strvup.ProcessedPassesGate`, `Strvup.ProcessMatchesMain`).

## Definitions

The functions that transcribe the source, and the members whose contracts state their properties:

| definition | source | properties proved by |
|---|---|---|
| Calendar.Combine | strvup/gpx.py:94-97 | `Calendar.DateTimeOf`, `GpxMerge.Origin` |
| Calendar.FormatDate | mbt2hrm.py:128 | `Calendar.ParseFormatDate`, `Calendar.FormatParseDate` |
| Calendar.FormatStartTime | mbt2hrm.py:129 | `Calendar.ParseFormatStartTime` |
| Xml.FindAll | strvup/gpx.py:93 | `Xml.FindAllCount`, `Xml.FirstPathFinds` |
| Xml.FirstPath | strvup/gpx.py:127 | `Xml.FirstPathFinds` |
| GpxUpgrade.NODES | strvup/gpx.py:35-58 | `GpxUpgrade.UpgradeLayout`, `GpxUpgrade.UpgradeDropsTheRest` |
| GpxUpgrade.Convert | strvup/gpx.py:60-78 | `GpxUpgrade.UpgradeLayout`, `GpxUpgrade.ConvertEachIndex` |
| GpxUpgrade.ConvertAll | strvup/gpx.py:61-76 | `GpxUpgrade.UpgradeLayout`, `GpxUpgrade.ConvertAllOccurrences` |
| GpxUpgrade.ConvertEach | strvup/gpx.py:66-76 | `GpxUpgrade.ConvertEachIndex` |
| GpxUpgrade.ConvertOne | strvup/gpx.py:67-74 | `GpxUpgrade.UpgradePointChildren`, `GpxUpgrade.UpgradePointAttributes`, `GpxUpgrade.SegmentLayout`, `GpxUpgrade.TrackLayout` |
| GpxUpgrade.ConvertGpx | strvup/gpx.py:80-87 | `GpxUpgrade.UpgradeLayout`, `GpxUpgrade.UpgradeDropsTheRest` |
| Hrm.Clean | strvup/hrmparser.py:52 | `Py.RemoveChar`, `Py.DropNewline` |
| Hrm.IsHeader | strvup/hrmparser.py:53-54 | `Hrm.HeaderStartsFresh` |
| Hrm.Step | strvup/hrmparser.py:52-68 | `Hrm.ScanContent`, `Hrm.HeaderStartsFresh`, `Hrm.BlankClosesSection` |
| Hrm.Scan | strvup/hrmparser.py:51-68 | `Hrm.ScanFailureStops`, `Hrm.ScanErrors`, `Hrm.ScanStoresContentOnly`, `Hrm.OrphanLineFails` |
| Hrm.ParamLine | strvup/hrmparser.py:23-34 | `Hrm.ParamLineFailure`, `Hrm.ZeroIntervalDropped`, `Hrm.UnknownKeyDropped`, `Hrm.LastDateWins` |
| Hrm.ParamsOf | strvup/hrmparser.py:20-35 | `Hrm.ParamsOfFails`, `Hrm.ParamsOfValid`, `Hrm.HrmParser.ParseParams` |
| Hrm.SampleOf | strvup/hrmparser.py:42-43 | `Hrm.SamplesOf` |
| Hrm.Transform | strvup/hrmparser.py:72-82 | `Hrm.TransformAll` |
| Hrm.ParseFrom | strvup/hrmparser.py:47-84 | `Hrm.ParseFromParsed`, `Hrm.HrmParser.Parse` |
| Hrm.ParseHrm | strvup/hrmparser.py:15-84 | `Mbt2Hrm.WrittenHrmParses`, `Mbt2Hrm.ConvertedReadsBack` |
| GpxMerge.MergeTree | strvup/gpx.py:100-120 | `GpxMerge.MergeTreeFailure`, `GpxMerge.MergeTreeOccurrences`, `GpxMerge.MergeTreeAt`, `GpxMerge.SinglePoint` |
| GpxMerge.MergeForest | strvup/gpx.py:100-120 | `GpxMerge.MergeForestAt` |
| GpxMerge.MergeGpxHrm | strvup/gpx.py:90-122 | `GpxMerge.MergeFailsAtFirstBadPoint`, `GpxMerge.MergedPointAt`, `GpxMerge.UpgradeThenMerge` |
| GpxConcat.AllSegments | strvup/gpx.py:129-132 | `GpxConcat.AllSegmentsConcat` |
| GpxConcat.Appended | strvup/gpx.py:124-136 | `GpxConcat.MergeGpxs`, `GpxConcat.MergeGpxsFails`, `GpxConcat.MergeGpxsLayout`, `GpxConcat.NothingToAppend` |
| Mbt2Hrm.Between | mbt2hrm.py:100-112 | `Mbt2Hrm.BetweenFacts`, `Mbt2Hrm.FillGap` |
| Mbt2Hrm.Dense | mbt2hrm.py:87-114 | `Mbt2Hrm.FillGaps`, `Mbt2Hrm.DenseAscending`, `Mbt2Hrm.DenseKeepsSamples`, `Mbt2Hrm.DenseInterpolates`, `Mbt2Hrm.DenseEverySecond` |
| Mbt2Hrm.HeaderLines | mbt2hrm.py:117-131 | `Mbt2Hrm.ParamsReadBack`, `Mbt2Hrm.WrittenHrmParses` |
| Mbt2Hrm.SampleLines | mbt2hrm.py:136-138 | `Mbt2Hrm.SamplesReadBack`, `Mbt2Hrm.WrittenHrmParses` |
| Strvup.HrmPath | strvup/strvup.py:29-30 | `Strvup.HrmPathReplacesExtension` |
| Strvup.OutPath | strvup/strvup.py:32-37 | `Strvup.Run` |
| Strvup.MergedPath | strvup/strvup.py:46-53 | `Strvup.MergedPathParts`, `Strvup.MergedNameSplits` |
| Strvup.Gated | strvup/strvup.py:88-94 | `Strvup.ProcessedPassesGate` |
| Strvup.Stamped | strvup/strvup.py:104-108 | `Strvup.StampedAttrs` |
| Strvup.ProcessFiles | strvup/strvup.py:84-111 | `Strvup.ProcessedRoot`, `Strvup.ProcessedPassesGate`, `Strvup.ProcessMatchesMain` |
| Strvup.MainMerge | strvup.py:287-312 | `Strvup.ProcessMatchesMain` |

## Model

| member | source | states |
|---|---|---|
| Py.RemoveChar | strvup/hrmparser.py:52 | `line.replace('\n', '')` keeps every other character and removes every occurrence of the one given |
| Py.DropNewline | strvup/hrmparser.py:51-52 | a line as file iteration yields it, ending in its newline, comes back without it |
| Py.Split | strvup/hrmparser.py:23 | `split('=')` yields at least one part and no part holds the separator |
| Py.JoinSplit | strvup/hrmparser.py:23 | splitting loses nothing: joining the parts with the separator gives the line back |
| Py.SplitJoin | strvup/strvup.py:52 | joining separator-free parts and splitting again gives exactly those parts |
| Py.SplitCount | strvup/hrmparser.py:23 | a line splits into one more part than it has separators, so `key, value = …` needs exactly one `=` |
| Py.ParseInt | strvup/hrmparser.py:31 | `int(s)` succeeds exactly on an optional sign followed by one or more ASCII digits |
| Py.IntToString | strvup/gpx.py:120 | `str(n)` is non-empty: digits with at most a leading minus sign |
| Py.ParseIntToString | mbt2hrm.py:136-138 | `int(str(n)) == n` for every integer, so a written sample reads back |
| Py.Trunc | mbt2hrm.py:137 | `int()` of a float truncates toward zero, from above or from below |
| Py.IndexFromEnd | strvup/gpx.py:106 | `s[i]` and `s[i - len(s)]` pick the same element, and anything an index picks is an element of the list |
| Calendar.ParseDate | strvup/hrmparser.py:27 | `strptime(value, '%Y%m%d').date()` only yields calendar-valid dates |
| Calendar.ParseFormatDate | mbt2hrm.py:128 | a date written as `%Y%m%d` reads back as the same date |
| Calendar.FormatParseDate | strvup/hrmparser.py:27 | the model's fixed-width date reader accepts only the eight-digit `%Y%m%d` spelling of the date it returns |
| Calendar.ParseTime | strvup/hrmparser.py:29 | `strptime(value, '%H:%M:%S.%f').time()` only yields valid times of day |
| Calendar.ParseFormatStartTime | mbt2hrm.py:129 | a time written as `%H:%M:%S.0` reads back as the same time with the microseconds dropped |
| Calendar.DateTimeOf | mbt2hrm.py:127-129 | `stamp.date()` and `stamp.time()` are valid and `datetime.combine` of them gives `stamp` back |
| Calendar.Relabel | strvup/gpx.py:103 | `replace(tzinfo=tz)` keeps the wall-clock time, takes the new offset and moves the instant by the difference of the offsets |
| Calendar.WholeSeconds | strvup/gpx.py:105 | `int(td.total_seconds())` is the whole number of seconds truncated toward zero, on both sides of zero |
| Xml.FirstChild | strvup/gpx.py:101 | `find('t')` is the first direct child tagged `t`; it finds nothing only when no child has that tag |
| Xml.FindAllCount | strvup/gpx.py:93 | `len(findall('.//t'))` is the number of proper descendants tagged `t` |
| Xml.FirstPathFinds | strvup/gpx.py:127 | `find('.//t')` finds exactly the first element `findall('.//t')` lists, and nothing only when that list is empty |
| Xml.AtReplaceAt | strvup/gpx.py:134 | changing the element a path leads to leaves the path leading to the new element |
| Xml.ReplaceAtElsewhere | strvup/gpx.py:134 | changing one element of a tree leaves every subtree off its path as it was |
| Xml.AtPrefix | strvup/gpx.py:127 | every prefix of a path to an element is a path, and the rest of the path leads on from there to the same element |
| Xml.ReplaceAtAbove | strvup/gpx.py:134 | every element above the changed one is the same element with the change made below it |
| GpxUpgrade.ApplyConverter | strvup/gpx.py:26-33 | `_text_converter` sets the text only; `_attr_converter` merges the source's attributes over the target's and keeps the rest |
| GpxUpgrade.ConvertEachIndex | strvup/gpx.py:66-76 | the i-th element appended for a schema node is built from the i-th source element `findall` returns |
| GpxUpgrade.UpgradePointChildren | strvup/gpx.py:40-52 | an upgraded point's children are all `time`, then all `fix`, then all `sat` elements below the source point, each group in document order, each carrying only its source's text |
| GpxUpgrade.PointFieldGroups | strvup/gpx.py:61-76 | the point's children are what `_convert` builds for the three leaf nodes, in schema order |
| GpxUpgrade.LeafFields | strvup/gpx.py:26-28 | a text-converted leaf of the schema turns each source into a childless element holding only its text |
| GpxUpgrade.UpgradePointAttributes | strvup/gpx.py:31-33 | an upgraded `trkpt` is a 1.1 `trkpt` with exactly its source's attributes and no text |
| GpxUpgrade.SegmentLayout | strvup/gpx.py:38-53 | an upgraded `trkseg` has no attributes or text and one upgraded point per `trkpt` below its source, in order |
| GpxUpgrade.TrackLayout | strvup/gpx.py:36-56 | an upgraded `trk` has no attributes or text and one upgraded segment per `trkseg` below its source, in order |
| GpxUpgrade.UpgradeLayout | strvup/gpx.py:80-87 | the new root is a bare 1.1 `gpx` with one upgraded `trk` per 1.0 `trk` descendant, in document order |
| GpxUpgrade.UpgradeDropsTheRest | strvup/gpx.py:35-58 | the upgraded tree holds no element whose tag is not one of the six 1.1 schema tags |
| Hrm.SectionName | strvup/hrmparser.py:57 | a section name holds no `[` and no `]` |
| Hrm.ScanFailureStops | strvup/hrmparser.py:68 | once a line raises, the lines after it are never read |
| Hrm.ScanContent | strvup/hrmparser.py:68 | content lines are appended, without their newline and in file order, to the current section; nothing else changes |
| Hrm.HeaderStartsFresh | strvup/hrmparser.py:53-60 | a header followed by content lines leaves that section holding exactly those lines, whatever an earlier header of that name collected |
| Hrm.BlankClosesSection | strvup/hrmparser.py:62-66 | after a blank line, a content line has no section to go to and raises KeyError('') unless a `[]` header created that key |
| Hrm.OrphanLineFails | strvup/hrmparser.py:68 | a content line before any header, after any number of blank lines, raises KeyError('') |
| Hrm.ScanErrors | strvup/hrmparser.py:47-68 | reading fails only with KeyError(''), and never when a `[]` header had created that key before reading started; reading never removes a section |
| Hrm.ScanStoresContentOnly | strvup/hrmparser.py:62-68 | blank lines, newlines and header lines are never stored |
| Hrm.ParamLineFailure | strvup/hrmparser.py:23-31 | one `Params` line fails with ValueError exactly when it is unreadable, whatever was read before it |
| Hrm.ParamsOfFails | strvup/hrmparser.py:20-35 | `_parse_params` fails, with ValueError, exactly when some line is unreadable |
| Hrm.ZeroIntervalDropped | strvup/hrmparser.py:30-34 | `Interval=0` parses to a falsy 0 and is dropped, so an earlier Interval survives it |
| Hrm.UnknownKeyDropped | strvup/hrmparser.py:24-34 | a line with any key other than Date, StartTime or Interval is read and dropped |
| Hrm.LastDateWins | strvup/hrmparser.py:26-34 | a later Date line overwrites an earlier one |
| Hrm.ParamsOfValid | strvup/hrmparser.py:26-29 | a parsed `Params` record holds only valid dates and times |
| Hrm.SamplesOf | strvup/hrmparser.py:38-45 | `_parse_hrm_data` succeeds exactly when every line's first tab field is an int; it then has one entry per line, in order, each the int of that field, and otherwise fails with ValueError |
| Hrm.TransformAll | strvup/hrmparser.py:72-82 | the pass after reading fails, with ValueError, exactly when some registered transform fails. On success it keeps every section name; `Params` becomes the record `_parse_params` builds from its lines, `HRData` the list `_parse_hrm_data` builds, and every other section stays raw |
| Hrm.ParseFromParsed | strvup/hrmparser.py:47-84 | a successful parse leaves `Params` as a record with valid date and time and `HRData` as a list of ints |
| Hrm.HrmParser.constructor | strvup/hrmparser.py:15-17 | a new parser has no sections |
| Hrm.HrmParser.ParseParams | strvup/hrmparser.py:20-35 | the accumulating loop of `_parse_params` computes `ParamsOf` |
| Hrm.HrmParser.ParseHrmData | strvup/hrmparser.py:38-45 | the accumulating loop of `_parse_hrm_data` computes `SamplesOf` |
| Hrm.HrmParser.Parse | strvup/hrmparser.py:47-84 | `parse` mutates `sections` line by line, applies the transforms, and returns the parser itself, with sections equal to the specification `ParseFrom`; it fails exactly when that does, with the same exception |
| Hrm.HrmParser.ApplyParsers | strvup/hrmparser.py:72-82 | the in-place pass over the sections computes `TransformAll` of the lines read, failure included |
| GpxMerge.Origin | strvup/gpx.py:94-98 | the HRM start is `combine(Date, StartTime)` as UTC; a missing Params, Date, StartTime or HRData raises KeyError |
| GpxMerge.PointUpdate | strvup/gpx.py:101-106 | a point without a `time` child fails with AttributeError. On success: the new time text is the original instant relabelled with the offset; the sample is `samples[int((t - start).total_seconds())]` with Python indexing. The only other failures are ParseError and IndexError |
| GpxMerge.Apply | strvup/gpx.py:108-120 | one point's edits: the time text is replaced. The package's version appends the new TrackPointExtension to the first existing `extensions` child, or to a new one appended last. The older script's version (`strvup.py`, the `SubElement` calls of its loop) always appends a new `extensions` child. Attributes, tag and every other child stay as they were |
| GpxMerge.MergeTreeFailure | strvup/gpx.py:100-106 | the rebuild of a subtree fails exactly as the loop over its points would, with the exception of the first failing point |
| GpxMerge.MergeFailsAtFirstBadPoint | strvup/gpx.py:93-106 | once the HRM start is known, the merge fails exactly when one of the points `findall('.//gpx11:trkpt')` lists fails, with the exception of the first such point |
| GpxMerge.MergeTreeOccurrences | strvup/gpx.py:108-120 | a successful merge adds one TrackPointExtension and one `hr` per point, plus one `extensions` per point that had none (every point, in the older version); no element of any other tag appears or disappears. Which point gets which sample is `GpxMerge.MergedPointAt` |
| GpxMerge.MergeForestAt | strvup/gpx.py:100-120 | the k-th merged subtree is the merge of the k-th original subtree; a successful merge of a forest merges each of its trees successfully |
| GpxMerge.MergeTreeAt | strvup/gpx.py:100-120 | below no point, the subtree at a path of the merged tree is the merge of the subtree at that path |
| GpxMerge.MergedPointAt | strvup/gpx.py:90-120 | after a successful merge, each point with no point above or inside it is exactly what its own turn of the loop makes of it: its own time relabelled and its own `samples[delta]` attached |
| GpxMerge.MergeTreeLeavesNoBarePoint | strvup/gpx.py:108-112 | after a successful merge every point has an `extensions` child |
| GpxMerge.MergeTreeWithoutPoints | strvup/gpx.py:93-100 | a subtree without points comes out unchanged |
| GpxMerge.SinglePoint | strvup/gpx.py:100-120 | a point with no nested points gets exactly the edits of its own turn of the loop |
| GpxMerge.VersionsAgree | strvup.py:247-249 | where no point has an `extensions` child, the two versions build the same tree |
| GpxMerge.MergeTwice | strvup.py:247-249 | merging twice gives every point a second TrackPointExtension under both versions. The older version also adds a second `extensions` child per point; the package's version adds `extensions` only once, to bare points |
| GpxMerge.UpgradeThenMerge | strvup/gpx.py:90-122 | a freshly upgraded tree that merges has exactly as many `extensions`, TrackPointExtension and `hr` elements as points, the same number of points, and the same result under both versions |
| GpxMerge.UpgradedVersionsAgree | strvup.py:229-258 | on a freshly upgraded tree both versions give the same result, failures included |
| GpxMerge.SampleIgnoresRelabelling | strvup/gpx.py:101-106 | the sample picked for a point depends on its original instant, not on the offset its text is relabelled with |
| GpxMerge.IndexErrorOnlyOutOfRange | strvup/gpx.py:105-106 | a point whose time parses fails with IndexError exactly when its offset is outside `-len .. len-1`; otherwise it gets `samples[delta]`, counted from the end when negative |
| GpxMerge.EarlyPoints | strvup/gpx.py:105-106 | half a second before the start still counts as offset 0; a whole second before takes the last sample |
| GpxMerge.AlignmentExample | strvup/gpx.py:94-106 | with the HRM starting 2018-03-10 17:09:50 UTC, a point at 17:09:52 UTC, or at 18:09:52+01:00, takes sample 2 |
| GpxConcat.MergeGpxs | strvup/gpx.py:124-136 | `merge_gpxs`' loops give the base with its first `trk` holding its children followed by every `trkseg` of the other trees |
| GpxConcat.AppendTrees | strvup/gpx.py:129-134 | the outer loop appends, tree by tree, every other tree's segments |
| GpxConcat.AppendSegments | strvup/gpx.py:133-134 | the inner loop appends each segment in order; it fails with AttributeError exactly when there is no `trk` and a segment to append |
| GpxConcat.AllSegmentsConcat | strvup/gpx.py:129-132 | the segments of two runs of trees are those of the first run followed by those of the second |
| GpxConcat.MergeGpxsFails | strvup/gpx.py:127-134 | the merge fails, with AttributeError, exactly when the base has no `trk` and some other tree has a `trkseg` |
| GpxConcat.MergeGpxsLayout | strvup/gpx.py:124-136 | when the base has a `trk` the merge succeeds, and its first `trk` then holds its old children followed by every appended segment. Every subtree off its path is unchanged, and the root and every element between it and that `trk` keep their tag, attributes, text and number of children |
| GpxConcat.NothingToAppend | strvup/gpx.py:124-136 | with no segments to append the base comes back unchanged, `trk` or not |
| Mbt2Hrm.LogLevel | mbt2hrm.py:47-54 | the level is `LOG_LEVELS[verbosity]`, clamped to WARNING below 0 and to DEBUG above 2 |
| Mbt2Hrm.LogLevelMonotone | mbt2hrm.py:47-54 | more `-v` flags never give a quieter level |
| Mbt2Hrm.SortedStamps | mbt2hrm.py:90 | `sorted(samples.keys())` is strictly ascending and holds exactly the keys |
| Mbt2Hrm.Put | mbt2hrm.py:95 | `ret[k] = v` on an ordered dict whose keys are all below `k` appends the entry |
| Mbt2Hrm.FillGaps | mbt2hrm.py:87-114 | the nested loops of `fill_gaps` compute the specification `Dense` |
| Mbt2Hrm.FillGap | mbt2hrm.py:100-112 | one gap appends the interpolated entries between two stamps, all below the next stamp |
| Mbt2Hrm.InterpolatedWithin | mbt2hrm.py:104-110 | a value `j` seconds into a gap lies between the two neighbouring samples |
| Mbt2Hrm.BetweenFacts | mbt2hrm.py:101-112 | a gap of `int(delta)` seconds gets `gap - 1` entries when `gap > 1` and none otherwise, each a whole number of seconds after the stamp, strictly between the stamps, with a value between theirs |
| Mbt2Hrm.DenseAscending | mbt2hrm.py:90-112 | the output keys are inserted in strictly ascending order; an empty input gives an empty output |
| Mbt2Hrm.DenseKeepsSamples | mbt2hrm.py:90-95 | every input stamp is in the output with its original value |
| Mbt2Hrm.DenseInterpolates | mbt2hrm.py:87-114 | every output entry is an input sample, or a stamp strictly between two neighbouring input stamps with a value between theirs |
| Mbt2Hrm.DenseEverySecond | mbt2hrm.py:100-112 | with whole-second stamps the output has one entry per second from the first stamp to the last, so `(last - first)` seconds plus one entries |
| Mbt2Hrm.DenseNoGap | mbt2hrm.py:103 | where no two neighbouring stamps are two or more whole seconds apart, nothing is inserted |
| Mbt2Hrm.WriteHrm | mbt2hrm.py:126-138 | `write_hrm` writes the header for the first stamp, then one line `int(sample)` per sample in order; an empty series raises IndexError |
| Mbt2Hrm.ParamsReadBack | mbt2hrm.py:117-120 | the written `Params` lines read back as the first stamp's date, its time of day without microseconds, and interval 1 |
| Mbt2Hrm.SamplesReadBack | mbt2hrm.py:136-138 | every written sample line reads as content and parses back to the truncated sample |
| Mbt2Hrm.ScanParamsBlock | mbt2hrm.py:117-121 | reading `[Params]` and its three lines stores exactly those lines |
| Mbt2Hrm.ScanHRDataBlock | mbt2hrm.py:122-138 | reading `[HRData]` and the sample lines stores the sample numbers in order |
| Mbt2Hrm.WrittenHrmScans | mbt2hrm.py:117-138 | scanning the written file yields exactly the sections `Params` and `HRData` with their lines |
| Mbt2Hrm.WrittenHrmParses | mbt2hrm.py:117-138 | round trip: the HRM parser reads what `write_hrm` writes as `Params` (date, start time, Interval 1) and `HRData` equal to the truncated samples in order |
| Mbt2Hrm.ConvertedReadsBack | mbt2hrm.py:160-169 | the converter end to end, for whole-second stamps: the written file parses, and the input sample at stamp `k` sits in `HRData` at index `int((k - first).total_seconds())`, the index the aligner uses |
| Mbt2Hrm.DenseIndex | mbt2hrm.py:100-112 | with whole-second stamps the sample at stamp `k` is entry `int((k - first).total_seconds())` of the output |
| Strvup.RFind | strvup/strvup.py:29 | `rfind` is the last occurrence, or -1 when there is none |
| Strvup.SplitExt | strvup/strvup.py:29 | `splitext` cuts the path in two. The extension is a `.` followed by no `/` and no other `.`, with a character other than `.` before it in the file name; it is empty exactly when the file name has no such character before any of its dots |
| Strvup.BaseName | strvup/strvup.py:50 | `basename` is the longest suffix of the path with no `/`: all of it, or what follows a `/` |
| Strvup.DirName | strvup/strvup.py:53 | `dirname` is a prefix of the path followed only by slashes and then the base name; it has no trailing slash unless it is all slashes, and it keeps every slash of a head that is all slashes |
| Strvup.PathJoin | strvup/strvup.py:53 | `join` returns an absolute second part as it is. Otherwise the result is the first part, then exactly one `/` unless the first part is empty or already ends in one, then the second part |
| Strvup.JoinBaseName | strvup/strvup.py:53 | a file name without `/` joined to a directory is the base name of the result, and the directory its prefix |
| Strvup.HrmPathReplacesExtension | strvup/strvup.py:29-30 | the HRM path is the GPX path with its extension replaced: it splits back into the GPX stem and `.hrm` |
| Strvup.MergedPathParts | strvup/strvup.py:47-53 | the merged file lies in the first file's directory and is named after the stems of the input base names joined by `_`, plus the first file's extension |
| Strvup.MergedNameSplits | strvup/strvup.py:49-52 | the merged name cuts back at `_` into the stems, the extension staying on the last one |
| Strvup.Run | strvup/strvup.py:22-79 | one job per input: its HRM path, and its output, either next to it or a temporary file. Concatenation happens exactly when `merge` is set and more than one file was processed; its base is the first output and the others are the rest, in order. The uploads are then the single merged entry. Nothing is sent with `no_upload`. The temporary files are removed in the order they were created. When `merge_files` raises, `run` ends with that exception: nothing is sent and no temporary file is removed |
| Strvup.ProcessAll | strvup/strvup.py:26-43 | the loop over the files builds the jobs and the upload list in order and records each temporary file it creates |
| Strvup.MergeKeepsRoot | strvup/gpx.py:90-122 | the merge leaves the root's tag and attributes alone |
| Strvup.ProcessedRoot | strvup/strvup.py:88-108 | a processed root says `creator='strvup.py'` and `version='1.1'`; any other attribute is the input's own when it was already 1.1 and absent when it was upgraded |
| Strvup.StampedAttrs | strvup/strvup.py:105-108 | `attrib.update` sets `creator` and `version` and keeps every other attribute |
| Strvup.ProcessedPassesGate | strvup/strvup.py:88-92 | what `process_files` writes passes the version gate unchanged when read again |
| Strvup.ProcessMatchesMain | strvup.py:289-309 | on a file that is not already 1.1, the package's `process_files` and the older `main` write the same tree and fail the same way |
| Strvup.UploadForm | strvup/strvup.py:128-135 | the form always has `private=1` and `data_type='gpx'`, and `activity_type` exactly when a non-empty type is given |

## Left out

- `merge_gpx_hrm` mutates the points of the tree in place, in the order `findall` lists them. The model rebuilds the tree as a value, and the lemmas prove that it visits the points in that same order. Three things are not captured:
  - sharing of elements between the returned tree and the caller's;
  - the edits already made to earlier points when a later point raises (the model returns only the exception);
  - the case where a new `extensions` element would itself be searched (impossible, since `findall` has already run).
- `merge_gpxs` appends the segment elements themselves, so they become shared with the other trees. When another tree is the base itself, the appended segments change during the loop. The model appends copies and takes the other trees as given.
- `process_files` updates `root.attrib` in place; the model computes the new root as a value.
- `ElementTree.parse`, `write`, `open`, `tempfile` and `os.unlink`: the model takes trees and line sequences as inputs and returns what would be written and removed. The csv reading of `parse_csv` is not modelled; its (timestamp, rate) rows are the input map of `fill_gaps`.
- Run: does not model `process_files` raising part way through a run, or the temporary files left behind then. What `merge_files` raises is a parameter, `mergeFiles`, because it reads the tracks back from disk; `GpxConcat.MergeGpxsFails` states when the concatenation it performs raises.
- The OAuth session, the upload POST and the status poll loop of `upload_activity` are network calls, and `strvup/oauth.py` is not part of this model. `Run` returns the tracks it would send.
- The logging configuration (`_get_log_cfg`, `_configure_logging`, `dictConfig`) and the argparse `main` blocks are not modelled. The older `main` is modelled as `MainMerge` on its inputs.
- `iso8601.parse_date` and `isoformat` are foreign: the `Clock` parameter stands for them. `strptime(tz, '%z')` is represented by its result, the offset in minutes.
- Calendar.ParseDate: reads exactly eight digits and is weaker than `strptime('%Y%m%d')`, which also accepts some shorter, unpadded spellings. Calendar.ParseTime does the same with its fixed-width fields.
- Calendar.FormatParseDate: holds of the model's fixed-width date reader only; `strptime('2018310', '%Y%m%d')` also reads an unpadded spelling, as 2018-03-10.
- Py.ParseInt: does not accept the surrounding whitespace, the digit-group underscores or the non-ASCII decimal digits (such as `'٣'`) that Python's `int()` accepts.
- Calendar.FormatDate: years below 1000 are padded to four digits; platforms differ in the width `strftime('%Y')` gives such years.
- Calendar.WholeSeconds: is exact integer truncation of the microsecond difference. CPython's `total_seconds()` divides by 10**6 in double precision, so from about 2^34 seconds (some 544 years) the quotient can round up to the next whole second before `int()` truncates it. `timedelta(microseconds=17179869185*10**6 - 1)` gives 17179869185, where the model gives 17179869184. That float rounding is not modelled; it would reach `delta` in the point update only for points that far from the HRM start, and `stamp_delta` in `fill_gaps` only for a gap that long.
- Mbt2Hrm.FillGaps: sample values are real numbers, so IEEE rounding of `sample_delta / stamp_delta` and of the interpolated values is not modelled.
- Mbt2Hrm.WriteHrm: the file is the sequence of lines it ends up holding; buffering and encoding are not modelled.
- Mbt2Hrm.DenseEverySecond: stated for stamps that are whole seconds, as the csv export produces them. For other stamps `DenseInterpolates` and `DenseAscending` still hold.
- Mbt2Hrm.ConvertedReadsBack: requires whole-second stamps within the years Python's datetime represents.
- Hrm.HrmParser.Parse: requires every section the object already holds to be raw lines, that is, a parser that has not parsed before. Calling `parse` twice on one object would feed already parsed sections back into the reading loop; that case is not modelled. On failure the contract gives only the exception, not the sections the object keeps: the source leaves in it the sections read, and after a transform error those already replaced, before the raise. Neither `process_files` nor `main` uses the parser after that exception.
- Strvup.HrmPathReplacesExtension: requires the stem's file name to have a character other than `.`. Otherwise `splitext` sees no extension in the HRM path.
- Strvup.MergedNameSplits: requires stems and extension free of `_`. Otherwise the joined name does not cut back uniquely.
- XML tails, comments, namespace registration and serialisation details are not modelled.

/**
 * The HRM section parser.
 *
 * An HRM file is read line by line. A line `[Name]` opens section `Name`
 * (and empties it if it was seen before), a blank line closes the current
 * section, and every other line is appended to the current section. Once
 * the whole file is read, the `Params` section becomes a record of the
 * recognised keys and the `HRData` section a list of heart rates; other
 * sections keep their raw lines.
 */
module Hrm {
  import opened Wrappers
  import opened Py
  import opened Calendar

  /** The recognised `Params` keys; a key absent from the dict is None. */
  datatype Params = Params(date: Option<Date>, startTime: Option<TimeOfDay>, interval: Option<int>)

  const NoParams: Params := Params(None, None, None)

  /** A value of the parser's `sections` dict. */
  datatype Section =
    | Raw(lines: seq<string>)
    | ParamsSection(params: Params)
    | HRDataSection(samples: seq<int>)

  const PARAMS: string := "Params"
  const HRDATA: string := "HRData"

  // ---------------------------------------------------------------------
  // The line-by-line state machine
  // ---------------------------------------------------------------------

  /** The line after `line.replace('\n', '')`. */
  function Clean(rawLine: string): string
  {
    RemoveChar(rawLine, '\n')
  }

  /** `line.startswith('[') and line.endswith(']')`. */
  predicate IsHeader(line: string)
  {
    |line| > 0 && line[0] == '[' && line[|line| - 1] == ']'
  }

  /** `line.replace('[', '').replace(']', '')`. */
  function SectionName(line: string): (name: string)
    ensures '[' !in name && ']' !in name
  {
    RemoveChar(RemoveChar(line, '['), ']')
  }

  /** A line that is neither a header nor blank once its newline is gone. */
  predicate IsContent(rawLine: string)
  {
    Clean(rawLine) != "" && !IsHeader(Clean(rawLine))
  }

  /** What the loop carries from one line to the next: `c_section` and the sections read so far. */
  datatype ScanState = ScanState(current: string, sections: map<string, seq<string>>)

  /** One turn of the reading loop. */
  function Step(st: ScanState, rawLine: string): Result<ScanState, PyError>
  {
    var line := Clean(rawLine);
    if IsHeader(line) then
      Success(ScanState(SectionName(line), st.sections[SectionName(line) := []]))
    else if line == "" then
      Success(st.(current := ""))
    else if st.current in st.sections then
      Success(st.(sections := st.sections[st.current := st.sections[st.current] + [line]]))
    else
      Failure(KeyError(st.current))
  }

  /** The reading loop over `lines`, from state `st`. */
  function Scan(st: ScanState, lines: seq<string>): Result<ScanState, PyError>
    decreases |lines|
  {
    if lines == [] then Success(st)
    else
      match Scan(st, lines[..|lines| - 1])
      case Failure(e) => Failure(e)
      case Success(s) => Step(s, lines[|lines| - 1])
  }

  /** The state the parser starts from: no current section. */
  function Start(init: map<string, seq<string>>): ScanState
  {
    ScanState("", init)
  }

  lemma ScanSnoc(st: ScanState, lines: seq<string>, line: string)
    ensures Scan(st, lines + [line]) ==
      match Scan(st, lines)
      case Failure(e) => Failure(e)
      case Success(s) => Step(s, line)
  {
    assert (lines + [line])[..|lines|] == lines;
  }

  /** Once a line fails, the lines after it are never read. */
  lemma {:induction false} ScanFailureStops(st: ScanState, a: seq<string>, b: seq<string>)
    requires Scan(st, a).Failure?
    ensures Scan(st, a + b) == Scan(st, a)
    decreases |b|
  {
    if b == [] {
      assert a + b == a;
    } else {
      var b' := b[..|b| - 1];
      ScanFailureStops(st, a, b');
      assert a + b == (a + b') + [b[|b| - 1]];
      ScanSnoc(st, a + b', b[|b| - 1]);
    }
  }

  lemma {:induction false} ScanConcat(st: ScanState, a: seq<string>, b: seq<string>)
    requires Scan(st, a).Success?
    ensures Scan(st, a + b) == Scan(Scan(st, a).value, b)
    decreases |b|
  {
    if b == [] {
      assert a + b == a;
    } else {
      var b' := b[..|b| - 1];
      ScanConcat(st, a, b');
      assert a + b == (a + b') + [b[|b| - 1]];
      ScanSnoc(st, a + b', b[|b| - 1]);
    }
  }

  /**
   * Lines that are neither headers nor blank are appended, in file order
   * and without their newline, to the current section; nothing else changes.
   */
  lemma {:induction false} ScanContent(st: ScanState, block: seq<string>)
    requires st.current in st.sections
    requires forall i :: 0 <= i < |block| ==> IsContent(block[i])
    ensures Scan(st, block) == Success(st.(sections := st.sections[st.current :=
      st.sections[st.current] + seq(|block|, i requires 0 <= i < |block| => Clean(block[i]))]))
    decreases |block|
  {
    var cleaned := seq(|block|, i requires 0 <= i < |block| => Clean(block[i]));
    if block == [] {
      assert cleaned == [];
      assert st.sections[st.current] + cleaned == st.sections[st.current];
      assert st.sections[st.current := st.sections[st.current]] == st.sections;
    } else {
      var b' := block[..|block| - 1];
      ScanContent(st, b');
      var cleaned' := seq(|b'|, i requires 0 <= i < |b'| => Clean(b'[i]));
      var last := Clean(block[|block| - 1]);
      assert cleaned == cleaned' + [last];
      var mid := st.(sections := st.sections[st.current := st.sections[st.current] + cleaned']);
      assert Scan(st, block) == Step(mid, block[|block| - 1]);
      assert IsContent(block[|block| - 1]);
      assert Step(mid, block[|block| - 1]) ==
        Success(mid.(sections := mid.sections[st.current := mid.sections[st.current] + [last]]));
      assert (st.sections[st.current] + cleaned') + [last] == st.sections[st.current] + cleaned;
      assert mid.sections[st.current := st.sections[st.current] + cleaned] ==
        st.sections[st.current := st.sections[st.current] + cleaned];
    }
  }

  /**
   * A header followed by content lines leaves that section holding exactly
   * those lines, whatever an earlier header of the same name collected.
   */
  lemma HeaderStartsFresh(st: ScanState, header: string, block: seq<string>)
    requires IsHeader(Clean(header))
    requires forall i :: 0 <= i < |block| ==> IsContent(block[i])
    ensures Scan(st, [header] + block).Success?
    ensures var s := Scan(st, [header] + block).value;
      s.current == SectionName(Clean(header)) &&
      s.sections == st.sections[SectionName(Clean(header)) :=
        seq(|block|, i requires 0 <= i < |block| => Clean(block[i]))]
  {
    assert Scan(st, [header]) == Step(st, header) by {
      assert [header][..0] == [];
    }
    var s1 := Scan(st, [header]).value;
    var name := SectionName(Clean(header));
    ScanConcat(st, [header], block);
    ScanContent(s1, block);
    var cleaned := seq(|block|, i requires 0 <= i < |block| => Clean(block[i]));
    assert s1.sections[name] + cleaned == cleaned;
  }

  /** A blank line ends the section: the next content line has nowhere to go unless a `[]` header made one. */
  lemma BlankClosesSection(st: ScanState, blank: string, line: string)
    requires Clean(blank) == "" && IsContent(line)
    requires "" !in st.sections
    ensures Scan(st, [blank, line]) == Failure(KeyError(""))
  {
    assert [blank, line][..1] == [blank];
    assert [blank][..0] == [];
    assert Scan(st, [blank]) == Success(st.(current := ""));
  }

  /** A content line before any header is a KeyError: the parser does not skip it. */
  lemma {:induction false} OrphanLineFails(init: map<string, seq<string>>, blanks: seq<string>, line: string)
    requires "" !in init
    requires forall i :: 0 <= i < |blanks| ==> Clean(blanks[i]) == ""
    requires IsContent(line)
    ensures Scan(Start(init), blanks + [line]) == Failure(KeyError(""))
    decreases |blanks|
  {
    assert Scan(Start(init), blanks) == Success(Start(init)) by {
      BlanksKeepStart(init, blanks);
    }
    ScanSnoc(Start(init), blanks, line);
  }

  lemma {:induction false} BlanksKeepStart(init: map<string, seq<string>>, blanks: seq<string>)
    requires forall i :: 0 <= i < |blanks| ==> Clean(blanks[i]) == ""
    ensures Scan(Start(init), blanks) == Success(Start(init))
    decreases |blanks|
  {
    if blanks != [] {
      BlanksKeepStart(init, blanks[..|blanks| - 1]);
    }
  }

  /**
   * The only way reading fails is a content line while no section is open:
   * the current name is then '' and no `[]` header has created that key.
   */
  lemma {:induction false} ScanErrors(st: ScanState, lines: seq<string>)
    requires st.current == "" || st.current in st.sections
    ensures Scan(st, lines).Failure? ==> Scan(st, lines).error == KeyError("") && "" !in st.sections
    ensures Scan(st, lines).Success? ==>
      var s := Scan(st, lines).value;
      (s.current == "" || s.current in s.sections) && st.sections.Keys <= s.sections.Keys
    decreases |lines|
  {
    if lines != [] {
      ScanErrors(st, lines[..|lines| - 1]);
    }
  }

  /** Blank lines and newlines are never stored, and nothing stored looks like a header. */
  lemma {:induction false} ScanStoresContentOnly(st: ScanState, lines: seq<string>)
    requires forall k, j :: k in st.sections && 0 <= j < |st.sections[k]| ==> StoredLine(st.sections[k][j])
    requires Scan(st, lines).Success?
    ensures var s := Scan(st, lines).value;
      forall k, j :: k in s.sections && 0 <= j < |s.sections[k]| ==> StoredLine(s.sections[k][j])
    decreases |lines|
  {
    if lines != [] {
      ScanStoresContentOnly(st, lines[..|lines| - 1]);
    }
  }

  predicate StoredLine(line: string)
  {
    line != "" && '\n' !in line && !IsHeader(line)
  }

  // ---------------------------------------------------------------------
  // Per-section transforms
  // ---------------------------------------------------------------------

  /** One turn of `_parse_params`' loop. */
  function ParamLine(acc: Params, line: string): Result<Params, PyError>
  {
    var parts := Split(line, '=');
    if |parts| != 2 then Failure(ValueError)
    else
      var key, value := parts[0], parts[1];
      if key == "Date" then
        match ParseDate(value)
        case None => Failure(ValueError)
        case Some(d) => Success(acc.(date := Some(d)))
      else if key == "StartTime" then
        match ParseTime(value)
        case None => Failure(ValueError)
        case Some(t) => Success(acc.(startTime := Some(t)))
      else if key == "Interval" then
        match ParseInt(value)
        case None => Failure(ValueError)
        case Some(n) => if n == 0 then Success(acc) else Success(acc.(interval := Some(n)))
      else Success(acc)
  }

  /** `_parse_params(lines)`: the loop folded over the lines in order. */
  function ParamsOf(lines: seq<string>): Result<Params, PyError>
    decreases |lines|
  {
    if lines == [] then Success(NoParams)
    else
      match ParamsOf(lines[..|lines| - 1])
      case Failure(e) => Failure(e)
      case Success(p) => ParamLine(p, lines[|lines| - 1])
  }

  /** Whether a line can be read as a `Params` line, whatever was read before it. */
  predicate ParamLineOk(line: string)
  {
    ParamLine(NoParams, line).Success?
  }

  lemma ParamLineFailure(acc: Params, line: string)
    ensures ParamLine(acc, line).Success? == ParamLineOk(line)
    ensures ParamLine(acc, line).Failure? ==> ParamLine(acc, line).error == ValueError
  {
  }

  /**
   * `_parse_params` fails (with ValueError) exactly when some line does not
   * split into one key and one value or holds an unreadable Date, StartTime
   * or Interval.
   */
  lemma {:induction false} ParamsOfFails(lines: seq<string>)
    ensures ParamsOf(lines).Success? <==> forall i :: 0 <= i < |lines| ==> ParamLineOk(lines[i])
    ensures ParamsOf(lines).Failure? ==> ParamsOf(lines).error == ValueError
    decreases |lines|
  {
    if lines != [] {
      var init := lines[..|lines| - 1];
      ParamsOfFails(init);
      match ParamsOf(init)
      case Failure(e) =>
      case Success(p) => ParamLineFailure(p, lines[|lines| - 1]);
    }
  }

  lemma ParamsOfSnoc(lines: seq<string>, line: string)
    ensures ParamsOf(lines + [line]) ==
      match ParamsOf(lines)
      case Failure(e) => Failure(e)
      case Success(p) => ParamLine(p, line)
  {
    assert (lines + [line])[..|lines|] == lines;
  }

  /** `Interval=0` parses to a falsy 0 and is dropped: an earlier Interval survives it. */
  lemma ZeroIntervalDropped(lines: seq<string>)
    ensures ParamsOf(lines + ["Interval=0"]) == ParamsOf(lines)
  {
    ParamsOfSnoc(lines, "Interval=0");
    SplitAround("Interval", "0", '=');
    SplitAbsent("0", '=');
    assert "Interval" + ['='] + "0" == "Interval=0";
    assert ParseInt("0") == Some(0) by {
      assert "0"[..0] == [];
    }
  }

  /** A line with any key but Date, StartTime or Interval is read and dropped. */
  lemma UnknownKeyDropped(lines: seq<string>, key: string, value: string)
    requires '=' !in key && '=' !in value
    requires key != "Date" && key != "StartTime" && key != "Interval"
    ensures ParamsOf(lines + [key + "=" + value]) == ParamsOf(lines)
  {
    ParamsOfSnoc(lines, key + "=" + value);
    SplitAround(key, value, '=');
    SplitAbsent(value, '=');
    assert key + ['='] + value == key + "=" + value;
  }

  /** The later of two readable Date lines wins. */
  lemma LastDateWins(lines: seq<string>, d: Date)
    requires ValidDate(d)
    requires ParamsOf(lines).Success?
    ensures ParamsOf(lines + ["Date=" + FormatDate(d)]) == Success(ParamsOf(lines).value.(date := Some(d)))
  {
    ParamsOfSnoc(lines, "Date=" + FormatDate(d));
    SplitAround("Date", FormatDate(d), '=');
    assert '=' !in FormatDate(d) by {
      assert AllDigits(FormatDate(d));
    }
    SplitAbsent(FormatDate(d), '=');
    assert "Date" + ['='] + FormatDate(d) == "Date=" + FormatDate(d);
    ParseFormatDate(d);
  }

  /** A successful `_parse_params` only ever holds calendar-valid dates and times. */
  lemma {:induction false} ParamsOfValid(lines: seq<string>)
    requires ParamsOf(lines).Success?
    ensures var p := ParamsOf(lines).value;
      (p.date.Some? ==> ValidDate(p.date.value)) && (p.startTime.Some? ==> ValidTime(p.startTime.value))
    decreases |lines|
  {
    if lines != [] {
      ParamsOfValid(lines[..|lines| - 1]);
    }
  }

  /** The heart rate of one `HRData` line: `int(line.split('\t')[0])`. */
  function SampleOf(line: string): Result<int, PyError>
  {
    match ParseInt(Split(line, '\t')[0])
    case None => Failure(ValueError)
    case Some(n) => Success(n)
  }

  /** `_parse_hrm_data(lines)`: one heart rate per line, in file order. */
  function SamplesOf(lines: seq<string>): (r: Result<seq<int>, PyError>)
    ensures r.Success? <==> forall i :: 0 <= i < |lines| ==> SampleOf(lines[i]).Success?
    ensures r.Success? ==> |r.value| == |lines|
    ensures r.Success? ==> forall i :: 0 <= i < |lines| ==> r.value[i] == SampleOf(lines[i]).value
    ensures r.Failure? ==> r.error == ValueError
    decreases |lines|
  {
    if lines == [] then Success([])
    else
      match SamplesOf(lines[..|lines| - 1])
      case Failure(e) => Failure(e)
      case Success(hr) =>
        match SampleOf(lines[|lines| - 1])
        case Failure(e) => Failure(e)
        case Success(n) => Success(hr + [n])
  }

  /** The transform registered for a section name (none for names other than Params and HRData). */
  function Transform(name: string, lines: seq<string>): Result<Section, PyError>
  {
    if name == PARAMS then
      match ParamsOf(lines)
      case Failure(e) => Failure(e)
      case Success(p) => Success(ParamsSection(p))
    else if name == HRDATA then
      match SamplesOf(lines)
      case Failure(e) => Failure(e)
      case Success(hr) => Success(HRDataSection(hr))
    else Success(Raw(lines))
  }

  /** The pass over `self.sections.items()` after reading. */
  function TransformAll(m: map<string, seq<string>>): (r: Result<map<string, Section>, PyError>)
    ensures r.Failure? <==> exists k :: k in m && Transform(k, m[k]).Failure?
    ensures r.Failure? ==> r.error == ValueError
    ensures r.Success? ==> r.value.Keys == m.Keys
    ensures r.Success? ==> forall k :: k in m && k != PARAMS && k != HRDATA ==> r.value[k] == Raw(m[k])
    ensures r.Success? && PARAMS in m ==>
      ParamsOf(m[PARAMS]).Success? && r.value[PARAMS] == ParamsSection(ParamsOf(m[PARAMS]).value)
    ensures r.Success? && HRDATA in m ==>
      SamplesOf(m[HRDATA]).Success? && r.value[HRDATA] == HRDataSection(SamplesOf(m[HRDATA]).value)
  {
    if forall k :: k in m ==> Transform(k, m[k]).Success? then
      Success(map k | k in m :: Transform(k, m[k]).value)
    else
      var k :| k in m && Transform(k, m[k]).Failure?;
      ParamsOfFails(m[k]);
      Failure(ValueError)
  }

  /** What `parse` does to a parser whose sections hold the raw lines `init`. */
  function ParseFrom(init: map<string, seq<string>>, lines: seq<string>): Result<map<string, Section>, PyError>
  {
    match Scan(Start(init), lines)
    case Failure(e) => Failure(e)
    case Success(st) => TransformAll(st.sections)
  }

  /** `HrmParser(path).parse().sections` for a file with these lines. */
  function ParseHrm(lines: seq<string>): Result<map<string, Section>, PyError>
  {
    ParseFrom(map[], lines)
  }

  /**
   * What a successful parse leaves behind: `Params`, when present, is a
   * record with valid date and time, and `HRData`, when present, a list of ints.
   */
  predicate Parsed(sections: map<string, Section>)
  {
    (PARAMS in sections ==>
      sections[PARAMS].ParamsSection? &&
      (sections[PARAMS].params.date.Some? ==> ValidDate(sections[PARAMS].params.date.value)) &&
      (sections[PARAMS].params.startTime.Some? ==> ValidTime(sections[PARAMS].params.startTime.value))) &&
    (HRDATA in sections ==> sections[HRDATA].HRDataSection?)
  }

  lemma ParseFromParsed(init: map<string, seq<string>>, lines: seq<string>)
    requires ParseFrom(init, lines).Success?
    ensures Parsed(ParseFrom(init, lines).value)
  {
    var st := Scan(Start(init), lines).value;
    if PARAMS in st.sections {
      ParamsOfValid(st.sections[PARAMS]);
    }
  }

  function Lift(m: map<string, seq<string>>): (r: map<string, Section>)
    ensures r.Keys == m.Keys
  {
    map k | k in m :: Raw(m[k])
  }

  lemma LiftUpdate(m: map<string, seq<string>>, k: string, v: seq<string>)
    ensures Lift(m)[k := Raw(v)] == Lift(m[k := v])
  {
  }

  /**
   * Progress of the pass over the sections: those in `todo` still hold
   * their raw lines, every other one has been replaced by its parsed form.
   */
  predicate Applied(scanned: map<string, seq<string>>, sections: map<string, Section>, todo: set<string>)
  {
    todo <= scanned.Keys && sections.Keys == scanned.Keys &&
    (forall k :: k in todo ==> sections[k] == Raw(scanned[k])) &&
    (forall k :: k in scanned && k !in todo ==>
      Transform(k, scanned[k]).Success? && sections[k] == Transform(k, scanned[k]).value)
  }

  /** Parsing one more section moves it out of `todo`. */
  lemma AppliedStep(scanned: map<string, seq<string>>, sections: map<string, Section>, todo: set<string>, k: string, v: Section)
    requires Applied(scanned, sections, todo) && k in todo
    requires Transform(k, scanned[k]) == Success(v)
    ensures Applied(scanned, sections[k := v], todo - {k})
  {
  }

  /** With nothing left to do, the sections are the transformed ones. */
  lemma AppliedAll(scanned: map<string, seq<string>>, sections: map<string, Section>)
    requires Applied(scanned, sections, {})
    ensures TransformAll(scanned) == Success(sections)
  {
    assert forall k :: k in scanned ==> Transform(k, scanned[k]).Success?;
    assert TransformAll(scanned).value == sections;
  }

  /** The parser object: a path (not modelled) and the `sections` dict it fills. */
  class HrmParser {
    var sections: map<string, Section>

    constructor ()
      ensures sections == map[]
    {
      sections := map[];
    }

    /** `_parse_params`: the accumulating loop over the `Params` lines. */
    static method ParseParams(lines: seq<string>) returns (r: Result<Params, PyError>)
      ensures r == ParamsOf(lines)
    {
      var data := NoParams;
      var i := 0;
      while i < |lines|
        invariant 0 <= i <= |lines|
        invariant ParamsOf(lines[..i]) == Success(data)
      {
        ParamsOfSnoc(lines[..i], lines[i]);
        assert lines[..i + 1] == lines[..i] + [lines[i]];
        var next := ParamLine(data, lines[i]);
        if next.Failure? {
          ParamsOfFails(lines[..i + 1]);
          ParamsOfFails(lines);
          assert !ParamLineOk(lines[i]);
          return Failure(ValueError);
        }
        data := next.value;
        i := i + 1;
      }
      assert lines[..i] == lines;
      r := Success(data);
    }

    /** `_parse_hrm_data`: the accumulating loop over the `HRData` lines. */
    static method ParseHrmData(lines: seq<string>) returns (r: Result<seq<int>, PyError>)
      ensures r == SamplesOf(lines)
    {
      var data: seq<int> := [];
      var i := 0;
      while i < |lines|
        invariant 0 <= i <= |lines|
        invariant |data| == i
        invariant forall j :: 0 <= j < i ==> SampleOf(lines[j]) == Success(data[j])
      {
        var values := Split(lines[i], '\t');
        var n := ParseInt(values[0]);
        if n.None? {
          assert SampleOf(lines[i]).Failure?;
          return Failure(ValueError);
        }
        data := data + [n.value];
        i := i + 1;
      }
      assert SamplesOf(lines).value == data;
      r := Success(data);
    }

    /**
     * `parse`: read the lines, then apply the registered transforms; the
     * parser itself is the result. Reading starts from the sections the
     * object already holds, which must still be raw line lists.
     */
    method Parse(lines: seq<string>) returns (r: Result<HrmParser, PyError>)
      requires forall k :: k in sections ==> sections[k].Raw?
      modifies this
      ensures var init := map k | k in old(sections) :: old(sections)[k].lines;
        var spec := ParseFrom(init, lines);
        (r.Success? <==> spec.Success?) &&
        (r.Success? ==> r.value == this && sections == spec.value) &&
        (r.Failure? ==> r.error == spec.error)
    {
      ghost var init := map k | k in sections :: sections[k].lines;
      ghost var scanned := init;
      assert sections == Lift(init);
      var current := "";
      var i := 0;
      while i < |lines|
        invariant 0 <= i <= |lines|
        invariant sections == Lift(scanned)
        invariant Scan(Start(init), lines[..i]) == Success(ScanState(current, scanned))
      {
        assert lines[..i + 1] == lines[..i] + [lines[i]];
        ScanSnoc(Start(init), lines[..i], lines[i]);
        var line := RemoveChar(lines[i], '\n');
        var isSection := |line| > 0 && line[0] == '[' && line[|line| - 1] == ']';
        if isSection {
          current := RemoveChar(RemoveChar(line, '['), ']');
          LiftUpdate(scanned, current, []);
          sections := sections[current := Raw([])];
          scanned := scanned[current := []];
        } else if line == "" {
          current := "";
        } else if current in sections {
          LiftUpdate(scanned, current, scanned[current] + [line]);
          sections := sections[current := Raw(sections[current].lines + [line])];
          scanned := scanned[current := scanned[current] + [line]];
        } else {
          ScanFailureStops(Start(init), lines[..i + 1], lines[i + 1..]);
          assert lines[..i + 1] + lines[i + 1..] == lines;
          return Failure(KeyError(current));
        }
        i := i + 1;
      }
      assert lines[..i] == lines;
      assert ParseFrom(init, lines) == TransformAll(scanned);
      var ok := ApplyParsers(scanned);
      if ok.Failure? {
        return Failure(ok.error);
      }
      r := Success(this);
    }

    /** The second half of `parse`: each section with a registered parser is replaced by its parsed form. */
    method ApplyParsers(ghost scanned: map<string, seq<string>>) returns (r: Result<(), PyError>)
      requires sections == Lift(scanned)
      modifies this
      ensures r.Success? <==> TransformAll(scanned).Success?
      ensures r.Success? ==> sections == TransformAll(scanned).value
      ensures r.Failure? ==> r.error == TransformAll(scanned).error
    {
      var todo := sections.Keys;
      while todo != {}
        invariant Applied(scanned, sections, todo)
        decreases todo
      {
        var section :| section in todo;
        var raw := sections[section].lines;
        if section == PARAMS {
          var p := ParseParams(raw);
          if p.Failure? {
            ParamsOfFails(raw);
            assert Transform(section, scanned[section]).Failure?;
            return Failure(p.error);
          }
          AppliedStep(scanned, sections, todo, section, ParamsSection(p.value));
          sections := sections[section := ParamsSection(p.value)];
        } else if section == HRDATA {
          var hr := ParseHrmData(raw);
          if hr.Failure? {
            assert Transform(section, scanned[section]).Failure?;
            return Failure(hr.error);
          }
          AppliedStep(scanned, sections, todo, section, HRDataSection(hr.value));
          sections := sections[section := HRDataSection(hr.value)];
        } else {
          AppliedStep(scanned, sections, todo, section, Raw(raw));
          assert sections[section := Raw(raw)] == sections;
        }
        todo := todo - {section};
      }
      AppliedAll(scanned, sections);
      r := Success(());
    }
  }
}

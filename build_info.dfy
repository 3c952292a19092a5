/** Reading what `bb` prints about builds: the fields of the latest successful
    build of a bot (`get_latest_success_build_info`) and the names of the test
    steps of a build (`get_step_names`), in scripts/generate_stats.py. The
    captured output is given as text; `urllib.quote` and today's date are
    parameters. */
module BuildInfo {
  import opened Wrappers
  import opened Text

  const BOT_NAME_PREFIX := "chromium/ci/"
  const BUILD_LINK_PREFIX := "https://ci.chromium.org/p/chromium/builders/ci/"

  /** The fields read from a build listing, by name. */
  type BuildFields = map<string, string>

  // ---------------------------------------------------------------------------
  // The pattern `[0-9]{1,2}:[0-9]{2}:[0-9]{2}`
  // ---------------------------------------------------------------------------

  /** `[0-9]{2}:[0-9]{2}:[0-9]{2}`, the hours taking two digits. */
  predicate Clock8(t: string) {
    && |t| == 8 && IsDigit(t[0]) && IsDigit(t[1]) && t[2] == ':'
    && IsDigit(t[3]) && IsDigit(t[4]) && t[5] == ':' && IsDigit(t[6]) && IsDigit(t[7])
  }

  /** `[0-9]:[0-9]{2}:[0-9]{2}`, the hours taking one digit. */
  predicate Clock7(t: string) {
    && |t| == 7 && IsDigit(t[0]) && t[1] == ':'
    && IsDigit(t[2]) && IsDigit(t[3]) && t[4] == ':' && IsDigit(t[5]) && IsDigit(t[6])
  }

  /** A time of day as the pattern matches it. */
  predicate IsClock(t: string) { Clock7(t) || Clock8(t) }

  /** The length of the match starting at `i` (0 for none): the hours take two
      digits when they can, one otherwise. */
  function ClockAt(s: string, i: nat): (n: nat)
    ensures n == 0 || n == 7 || n == 8
    ensures n > 0 ==> i + n <= |s| && IsClock(s[i..i + n])
    ensures i < |s| && !IsDigit(s[i]) ==> n == 0
  {
    if i + 8 <= |s| && Clock8(s[i..i + 8]) then 8
    else if i + 7 <= |s| && Clock7(s[i..i + 7]) then 7
    else 0
  }

  /** The leftmost index from `from` on where the pattern matches. */
  function FindClock(s: string, from: nat): (r: Option<nat>)
    requires from <= |s|
    ensures r.Some? ==> from <= r.value < |s| && ClockAt(s, r.value) > 0
    ensures r.Some? ==> forall j :: from <= j < r.value ==> ClockAt(s, j) == 0
    ensures r.None? ==> forall j :: from <= j < |s| ==> ClockAt(s, j) == 0
    decreases |s| - from
  {
    if from == |s| then None
    else if ClockAt(s, from) > 0 then Some(from)
    else FindClock(s, from + 1)
  }

  /** `re.findall(pattern, s)[0]`: the leftmost match, `None` when there is
      none (Python raises `IndexError`). */
  function FirstClock(s: string): (r: Option<string>)
    ensures r.Some? ==> IsClock(r.value) && Contains(s, r.value)
    ensures r.None? <==> forall j :: 0 <= j < |s| ==> ClockAt(s, j) == 0
  {
    match FindClock(s, 0)
    case None => None
    case Some(i) =>
      var t := s[i..i + ClockAt(s, i)];
      assert OccursAt(s, t, i);
      Some(t)
  }

  /** A two-digit-hour time preceded by no digit is the one found. */
  lemma ClockFound(p: string, t: string, q: string)
    requires forall c :: c in p ==> !IsDigit(c)
    requires |t| == 8 && IsClock(t)
    ensures FirstClock(p + t + q) == Some(t)
  {
    var s := p + t + q;
    forall j | 0 <= j < |p| ensures ClockAt(s, j) == 0 {
      assert s[j] == p[j];
    }
    assert s[|p|..|p| + 8] == t;
    assert FindClock(s, |p|) == Some(|p|);
    FindClockSkips(s, 0, |p|);
  }

  lemma {:induction false} FindClockSkips(s: string, from: nat, to: nat)
    requires from <= to <= |s|
    requires forall j :: from <= j < to ==> ClockAt(s, j) == 0
    ensures FindClock(s, from) == FindClock(s, to)
    decreases |s| - from
  {
    if from < to {
      FindClockSkips(s, from + 1, to);
    }
  }

  // ---------------------------------------------------------------------------
  // The fields one line gives
  // ---------------------------------------------------------------------------

  /** From the first line: the build name, between the first two `'` of the
      stripped line, and the link made of the name without the bot prefix;
      `IndexError` when either split comes up short. */
  function FirstLineFields(line: string, quote: string -> string): (r: Outcome<(string, string)>)
    ensures r.Raised? ==> r.exception == "IndexError"
  {
    var pieces := Split(Strip(line), "'");
    if |pieces| < 2 then Raised("IndexError")
    else
      var name := pieces[1];
      var parts := Split(name, BOT_NAME_PREFIX);
      if |parts| < 2 then Raised("IndexError")
      else Returned((name, BUILD_LINK_PREFIX + quote(parts[1])))
  }

  /** The time on a `Created` line: the first match before the first comma. */
  function LineTime(line: string): (r: Outcome<string>)
    ensures r.Raised? ==> r.exception == "IndexError"
  {
    match FirstClock(SplitOnce(line, ",")[0])
    case None => Raised("IndexError")
    case Some(t) => Returned(t)
  }

  /** The alphanumeric characters of the second `:`-field of a line. */
  function ColonValue(line: string): (r: Outcome<string>)
    ensures r.Returned? ==> forall c :: c in r.value ==> IsAlnum(c)
    ensures r.Raised? <==> ':' !in line
    ensures r.Raised? ==> r.exception == "IndexError"
  {
    var cols := Split(line, ":");
    ContainsChar(line, ':');
    SplitPieces(line, ":");
    if |cols| < 2 then Raised("IndexError") else Returned(KeepAlnum(cols[1]))
  }

  /** The fields a line sets when it holds the field's marker. */
  datatype Field = Time | Date | AngleRevision | Revision

  function Key(f: Field): string {
    match f
    case Time => "time"
    case Date => "date"
    case AngleRevision => "angle_revision"
    case Revision => "revision"
  }

  function Marker(f: Field): string {
    match f
    case Time => "Created"
    case Date => "Created"
    case AngleRevision => "got_angle_revision"
    case Revision => "\"revision\""
  }

  /** The value a marked line gives the field; the date is today's. */
  function FieldValue(f: Field, line: string, today: string): Outcome<string> {
    match f
    case Time => LineTime(line)
    case Date => Returned(today)
    case _ => ColonValue(line)
  }

  /** Everything the loop body looks at in one line: the name and link it
      would give as the first line, which markers it holds, its time and its
      second `:`-field. */
  datatype Reading = Reading(
    first: Outcome<(string, string)>,
    created: bool, angleMarked: bool, revisionMarked: bool,
    time: Outcome<string>, colon: Outcome<string>)

  function ReadingOf(line: string, quote: string -> string): Reading {
    Reading(FirstLineFields(line, quote),
      Contains(line, "Created"), Contains(line, "got_angle_revision"), Contains(line, "\"revision\""),
      LineTime(line), ColonValue(line))
  }

  function Marked(f: Field, rd: Reading): bool {
    match f
    case Time => rd.created
    case Date => rd.created
    case AngleRevision => rd.angleMarked
    case Revision => rd.revisionMarked
  }

  function Value(f: Field, rd: Reading, today: string): Outcome<string> {
    match f
    case Time => rd.time
    case Date => Returned(today)
    case _ => rd.colon
  }

  /** The reading of a line agrees with the line's markers and values. */
  lemma ReadingAgrees(line: string, quote: string -> string, today: string, f: Field)
    ensures Marked(f, ReadingOf(line, quote)) == Contains(line, Marker(f))
    ensures Value(f, ReadingOf(line, quote), today) == FieldValue(f, line, today)
  {
  }

  function SetField(f: Field, info: BuildFields, rd: Reading, today: string): Outcome<BuildFields> {
    if !Marked(f, rd) then Returned(info)
    else
      match Value(f, rd, today)
      case Raised(e) => Raised(e)
      case Returned(v) => Returned(info[Key(f) := v])
  }

  /** The build name and link, read from the line when they are not yet known. */
  function SetName(info: BuildFields, rd: Reading): Outcome<BuildFields> {
    if "build_name" in info then Returned(info)
    else
      match rd.first
      case Raised(e) => Raised(e)
      case Returned((name, link)) => Returned(info["build_name" := name]["build_link" := link])
  }

  /** One turn of the line loop of `get_latest_success_build_info`. */
  function Step(info: BuildFields, rd: Reading, today: string): Outcome<BuildFields> {
    match SetName(info, rd)
    case Raised(e) => Raised(e)
    case Returned(i1) =>
      match SetField(Time, i1, rd, today)
      case Raised(e) => Raised(e)
      case Returned(i2) =>
        match SetField(Date, i2, rd, today)
        case Raised(e) => Raised(e)
        case Returned(i3) =>
          match SetField(AngleRevision, i3, rd, today)
          case Raised(e) => Raised(e)
          case Returned(i4) => SetField(Revision, i4, rd, today)
  }

  function ReadLine(info: BuildFields, line: string, quote: string -> string, today: string): Outcome<BuildFields> {
    Step(info, ReadingOf(line, quote), today)
  }

  /** The fields after the lines in order, from an empty map; an exception
      ends the loop. */
  function ReadLines(lines: seq<string>, quote: string -> string, today: string): Outcome<BuildFields>
    decreases |lines|
  {
    if lines == [] then Returned(map[])
    else
      match ReadLines(lines[..|lines| - 1], quote, today)
      case Raised(e) => Raised(e)
      case Returned(info) => ReadLine(info, lines[|lines| - 1], quote, today)
  }

  /** `get_latest_success_build_info` on the captured output of `bb ls`. */
  function LatestSuccessBuildInfo(out: string, err: string, quote: string -> string, today: string): Outcome<BuildFields> {
    if err != [] then Raised("ValueError")
    else if out == [] then Raised("ValueError")
    else if !Contains(out, "SUCCESS") then Raised("ValueError")
    else
      match ReadLines(SplitLines(out), quote, today)
      case Raised(e) => Raised(e)
      case Returned(info) => if "build_name" !in info then Raised("ValueError") else Returned(info)
  }

  method GetLatestSuccessBuildInfo(out: string, err: string, quote: string -> string, today: string)
    returns (r: Outcome<BuildFields>)
    ensures r == LatestSuccessBuildInfo(out, err, quote, today)
  {
    if err != [] {
      return Raised("ValueError");
    }
    if out == [] {
      return Raised("ValueError");
    }
    if !Contains(out, "SUCCESS") {
      return Raised("ValueError");
    }
    var read := ReadAll(SplitLines(out), quote, today);
    if read.Raised? {
      return read;
    }
    if "build_name" !in read.value {
      return Raised("ValueError");
    }
    return read;
  }

  /** The line loop of `get_latest_success_build_info`. */
  method ReadAll(lines: seq<string>, quote: string -> string, today: string) returns (r: Outcome<BuildFields>)
    ensures r == ReadLines(lines, quote, today)
  {
    var info: BuildFields := map[];
    var i := 0;
    while i < |lines|
      invariant 0 <= i <= |lines|
      invariant ReadLines(lines[..i], quote, today) == Returned(info)
    {
      var next := ReadLineStep(info, lines[i], quote, today);
      ReadLinesNext(lines, i, quote, today, info, next);
      if next.Raised? {
        return next;
      }
      info := next.value;
      i := i + 1;
    }
    assert lines[..i] == lines;
    return Returned(info);
  }

  /** The body of the line loop of `get_latest_success_build_info`. */
  method ReadLineStep(info: BuildFields, line: string, quote: string -> string, today: string)
    returns (r: Outcome<BuildFields>)
    ensures r == ReadLine(info, line, quote, today)
  {
    r := ReadBuildName(info, line, quote);
    if r.Raised? {
      return;
    }
    r := ReadCreated(r.value, line, quote, today);
    if r.Raised? {
      return;
    }
    r := ReadColonField(AngleRevision, r.value, line, quote, today);
    if r.Raised? {
      return;
    }
    r := ReadColonField(Revision, r.value, line, quote, today);
  }

  /** The part of the loop body for a `Created` line: the time, then today's
      date. */
  method ReadCreated(info: BuildFields, line: string, quote: string -> string, today: string)
    returns (r: Outcome<BuildFields>)
    ensures r == match SetField(Time, info, ReadingOf(line, quote), today)
      case Raised(e) => Raised(e)
      case Returned(timed) => SetField(Date, timed, ReadingOf(line, quote), today)
  {
    var fields := info;
    if Contains(line, "Created") {
      var time := FirstClock(SplitOnce(line, ",")[0]);
      if time.None? {
        return Raised("IndexError");
      }
      fields := fields["time" := time.value];
      fields := fields["date" := today];
    }
    return Returned(fields);
  }

  /** The parts of the loop body for the two revisions, which differ only in
      marker and key. */
  method ReadColonField(f: Field, info: BuildFields, line: string, quote: string -> string, today: string)
    returns (r: Outcome<BuildFields>)
    requires f == AngleRevision || f == Revision
    ensures r == SetField(f, info, ReadingOf(line, quote), today)
  {
    var fields := info;
    if Contains(line, Marker(f)) {
      var cols := Split(line, ":");
      if |cols| < 2 {
        return Raised("IndexError");
      }
      fields := fields[Key(f) := KeepAlnum(cols[1])];
    }
    return Returned(fields);
  }

  /** The first part of the loop body: the build name and link, read while
      the name is unknown. */
  method ReadBuildName(info: BuildFields, line: string, quote: string -> string)
    returns (r: Outcome<BuildFields>)
    ensures r == SetName(info, ReadingOf(line, quote))
  {
    var fields := info;
    if "build_name" !in fields {
      var pieces := Split(Strip(line), "'");
      if |pieces| < 2 {
        return Raised("IndexError");
      }
      fields := fields["build_name" := pieces[1]];
      var parts := Split(fields["build_name"], BOT_NAME_PREFIX);
      if |parts| < 2 {
        return Raised("IndexError");
      }
      fields := fields["build_link" := BUILD_LINK_PREFIX + quote(parts[1])];
    }
    return Returned(fields);
  }

  /** The line after a prefix that read without an exception is read from
      the fields that prefix left. */
  lemma ReadLinesNext(lines: seq<string>, i: nat, quote: string -> string, today: string, info: BuildFields,
                      next: Outcome<BuildFields>)
    requires i < |lines| && ReadLines(lines[..i], quote, today) == Returned(info)
    requires next == ReadLine(info, lines[i], quote, today)
    ensures next.Returned? ==> ReadLines(lines[..i + 1], quote, today) == next
    ensures next.Raised? ==> ReadLines(lines, quote, today) == next
  {
    ReadLinesPrefix(lines, i, quote, today, info);
    if next.Raised? {
      RaisedPersists(lines, i + 1, quote, today);
    }
  }

  /** One more line read after a prefix that left `info`. */
  lemma ReadLinesPrefix(lines: seq<string>, i: nat, quote: string -> string, today: string, info: BuildFields)
    requires i < |lines| && ReadLines(lines[..i], quote, today) == Returned(info)
    ensures ReadLines(lines[..i + 1], quote, today) == ReadLine(info, lines[i], quote, today)
  {
    var pre := lines[..i + 1];
    assert pre[..|pre| - 1] == lines[..i];
    assert pre[|pre| - 1] == lines[i];
  }

  /** Once a line raises, the remaining lines are not read. */
  lemma {:induction false} RaisedPersists(lines: seq<string>, i: nat, quote: string -> string, today: string)
    requires i <= |lines| && ReadLines(lines[..i], quote, today).Raised?
    ensures ReadLines(lines, quote, today) == ReadLines(lines[..i], quote, today)
    decreases |lines| - i
  {
    if i < |lines| {
      assert lines[..i + 1][..i] == lines[..i];
      RaisedPersists(lines, i + 1, quote, today);
    } else {
      assert lines[..i] == lines;
    }
  }

  // ---------------------------------------------------------------------------
  // What one line does
  // ---------------------------------------------------------------------------

  /** The names of all fields the loop can set. */
  const FIELD_KEYS: set<string> := {"build_name", "build_link", "time", "date", "angle_revision", "revision"}

  /** The exceptions a line can raise are all `IndexError`. */
  predicate IndexErrorsOnly(rd: Reading) {
    && (rd.first.Raised? ==> rd.first.exception == "IndexError")
    && (rd.time.Raised? ==> rd.time.exception == "IndexError")
    && (rd.colon.Raised? ==> rd.colon.exception == "IndexError")
  }

  /** A field step changes the field's own key and nothing else. */
  lemma SetFieldFacts(g: Field, info: BuildFields, rd: Reading, today: string)
    ensures IndexErrorsOnly(rd) && SetField(g, info, rd, today).Raised? ==>
      SetField(g, info, rd, today).exception == "IndexError"
    ensures SetField(g, info, rd, today).Returned? ==>
      var info' := SetField(g, info, rd, today).value;
      && info'.Keys == info.Keys + (if Marked(g, rd) then {Key(g)} else {})
      && (forall k :: k in info && k != Key(g) ==> info'[k] == info[k])
      && (Marked(g, rd) ==> Value(g, rd, today) == Returned(info'[Key(g)]))
  {
  }

  /** The name step sets the build name and link when the name is absent and
      changes nothing else. */
  lemma SetNameFacts(info: BuildFields, rd: Reading)
    ensures IndexErrorsOnly(rd) && SetName(info, rd).Raised? ==> SetName(info, rd).exception == "IndexError"
    ensures SetName(info, rd).Returned? ==>
      var info' := SetName(info, rd).value;
      && ("build_name" in info ==> info' == info)
      && ("build_name" !in info ==>
            && info'.Keys == info.Keys + {"build_name", "build_link"}
            && (forall k :: k in info && k != "build_link" ==> info'[k] == info[k])
            && rd.first == Returned((info'["build_name"], info'["build_link"])))
  {
  }

  /** The five steps of a turn of the loop, each from the state the one before
      left. */
  datatype Trace = Trace(named: BuildFields, timed: BuildFields, dated: BuildFields, angled: BuildFields, result: BuildFields)

  predicate TraceOf(t: Trace, info: BuildFields, rd: Reading, today: string) {
    && SetName(info, rd) == Returned(t.named)
    && SetField(Time, t.named, rd, today) == Returned(t.timed)
    && SetField(Date, t.timed, rd, today) == Returned(t.dated)
    && SetField(AngleRevision, t.dated, rd, today) == Returned(t.angled)
    && SetField(Revision, t.angled, rd, today) == Returned(t.result)
  }

  lemma StepTrace(info: BuildFields, rd: Reading, today: string) returns (t: Trace)
    requires Step(info, rd, today).Returned?
    ensures TraceOf(t, info, rd, today)
    ensures t.result == Step(info, rd, today).value
  {
    var n := SetName(info, rd).value;
    var ti := SetField(Time, n, rd, today).value;
    var d := SetField(Date, ti, rd, today).value;
    var a := SetField(AngleRevision, d, rd, today).value;
    t := Trace(n, ti, d, a, SetField(Revision, a, rd, today).value);
  }

  /** The only exception a line raises is `IndexError`. */
  lemma ReadLineRaises(info: BuildFields, line: string, quote: string -> string, today: string)
    ensures ReadLine(info, line, quote, today).Raised? ==> ReadLine(info, line, quote, today).exception == "IndexError"
  {
    var rd := ReadingOf(line, quote);
    assert IndexErrorsOnly(rd);
    StepRaises(info, rd, today);
  }

  lemma StepRaises(info: BuildFields, rd: Reading, today: string)
    requires IndexErrorsOnly(rd)
    ensures Step(info, rd, today).Raised? ==> Step(info, rd, today).exception == "IndexError"
  {
    SetNameFacts(info, rd);
    var o := SetName(info, rd);
    if o.Returned? {
      SetFieldFacts(Time, o.value, rd, today);
      var o2 := SetField(Time, o.value, rd, today);
      if o2.Returned? {
        SetFieldFacts(Date, o2.value, rd, today);
        var o3 := SetField(Date, o2.value, rd, today);
        if o3.Returned? {
          SetFieldFacts(AngleRevision, o3.value, rd, today);
          var o4 := SetField(AngleRevision, o3.value, rd, today);
          if o4.Returned? {
            SetFieldFacts(Revision, o4.value, rd, today);
          }
        }
      }
    }
  }

  /** What one turn does to one field: a marked line sets it to the value it
      gives, any other line leaves it as it was. */
  lemma StepField(info: BuildFields, rd: Reading, today: string, f: Field)
    requires Step(info, rd, today).Returned?
    ensures var info' := Step(info, rd, today).value;
      && (Key(f) in info' <==> Key(f) in info || Marked(f, rd))
      && (Marked(f, rd) ==> Value(f, rd, today) == Returned(info'[Key(f)]))
      && (!Marked(f, rd) && Key(f) in info ==> info'[Key(f)] == info[Key(f)])
  {
    var t := StepTrace(info, rd, today);
    NameKeeps(f, info, rd);
    FieldEffect(Time, f, t.named, rd, today);
    FieldEffect(Date, f, t.timed, rd, today);
    FieldEffect(AngleRevision, f, t.dated, rd, today);
    FieldEffect(Revision, f, t.angled, rd, today);
  }

  /** Field `f` is present in `b` exactly when in `a`, with the same value. */
  predicate Kept(f: Field, a: BuildFields, b: BuildFields) {
    && (Key(f) in b <==> Key(f) in a)
    && (Key(f) in a ==> b[Key(f)] == a[Key(f)])
  }

  /** Field `f` of `b` is what a turn over a line read as `rd` leaves, from
      `a`. */
  predicate Took(f: Field, rd: Reading, today: string, a: BuildFields, b: BuildFields) {
    && (Key(f) in b <==> Key(f) in a || Marked(f, rd))
    && (Marked(f, rd) ==> Value(f, rd, today) == Returned(b[Key(f)]))
    && (!Marked(f, rd) && Key(f) in a ==> b[Key(f)] == a[Key(f)])
  }

  lemma NameKeeps(f: Field, info: BuildFields, rd: Reading)
    requires SetName(info, rd).Returned?
    ensures Kept(f, info, SetName(info, rd).value)
  {
    SetNameFacts(info, rd);
  }

  lemma FieldEffect(g: Field, f: Field, info: BuildFields, rd: Reading, today: string)
    requires SetField(g, info, rd, today).Returned?
    ensures g == f ==> Took(f, rd, today, info, SetField(g, info, rd, today).value)
    ensures g != f ==> Kept(f, info, SetField(g, info, rd, today).value)
  {
    SetFieldFacts(g, info, rd, today);
  }

  /** What one turn does to the build name and link: they are read from the
      line when absent and kept otherwise; no other field is added. */
  lemma StepName(info: BuildFields, rd: Reading, today: string)
    requires Step(info, rd, today).Returned?
    requires "build_name" in info <==> "build_link" in info
    ensures var info' := Step(info, rd, today).value;
      && "build_name" in info' && "build_link" in info'
      && ("build_name" in info ==>
            info'["build_name"] == info["build_name"] && info'["build_link"] == info["build_link"])
      && ("build_name" !in info ==> rd.first == Returned((info'["build_name"], info'["build_link"])))
      && info'.Keys <= info.Keys + FIELD_KEYS
  {
    var t := StepTrace(info, rd, today);
    SetNameFacts(info, rd);
    SetFieldFacts(Time, t.named, rd, today);
    SetFieldFacts(Date, t.timed, rd, today);
    SetFieldFacts(AngleRevision, t.dated, rd, today);
    SetFieldFacts(Revision, t.angled, rd, today);
  }

  // ---------------------------------------------------------------------------
  // What the whole listing gives
  // ---------------------------------------------------------------------------

  /** The index of the last line holding `marker`. */
  function LastWith(lines: seq<string>, marker: string): (r: Option<nat>)
    ensures r.Some? ==> r.value < |lines| && Contains(lines[r.value], marker)
    ensures r.Some? ==> forall j :: r.value < j < |lines| ==> !Contains(lines[j], marker)
    ensures r.None? ==> forall j :: 0 <= j < |lines| ==> !Contains(lines[j], marker)
    decreases |lines|
  {
    if lines == [] then None
    else if Contains(lines[|lines| - 1], marker) then Some(|lines| - 1)
    else
      var p := lines[..|lines| - 1];
      var r := LastWith(p, marker);
      assert forall j :: 0 <= j < |p| ==> p[j] == lines[j];
      r
  }

  /** Each field holds the value given by the last line that holds its
      marker, and is absent when no line does. */
  lemma {:induction false} FieldFromLastLine(lines: seq<string>, quote: string -> string, today: string, f: Field)
    requires ReadLines(lines, quote, today).Returned?
    ensures var info := ReadLines(lines, quote, today).value;
      && (Key(f) in info <==> LastWith(lines, Marker(f)).Some?)
      && (LastWith(lines, Marker(f)).Some? ==>
            FieldValue(f, lines[LastWith(lines, Marker(f)).value], today) == Returned(info[Key(f)]))
    decreases |lines|
  {
    if lines != [] {
      var p, line := lines[..|lines| - 1], lines[|lines| - 1];
      FieldFromLastLine(p, quote, today, f);
      var info := ReadLines(p, quote, today).value;
      StepField(info, ReadingOf(line, quote), today, f);
      ReadingAgrees(line, quote, today, f);
      if !Contains(line, Marker(f)) && LastWith(p, Marker(f)).Some? {
        assert lines[LastWith(p, Marker(f)).value] == p[LastWith(p, Marker(f)).value];
      }
    }
  }

  /** Once a line is read, the build name and link are those of the first line
      and stay so; the loop sets no field beyond the six it knows. */
  lemma {:induction false} NameFromFirstLine(lines: seq<string>, quote: string -> string, today: string)
    requires ReadLines(lines, quote, today).Returned?
    ensures var info := ReadLines(lines, quote, today).value;
      && info.Keys <= FIELD_KEYS
      && ("build_name" in info <==> lines != [])
      && ("build_name" in info <==> "build_link" in info)
      && (lines != [] ==>
            FirstLineFields(lines[0], quote) == Returned((info["build_name"], info["build_link"])))
    decreases |lines|
  {
    if lines != [] {
      var p, line := lines[..|lines| - 1], lines[|lines| - 1];
      NameFromFirstLine(p, quote, today);
      var info := ReadLines(p, quote, today).value;
      StepName(info, ReadingOf(line, quote), today);
      if p != [] {
        assert p[0] == lines[0];
      }
    }
  }

  lemma {:induction false} ReadLinesRaises(lines: seq<string>, quote: string -> string, today: string)
    ensures ReadLines(lines, quote, today).Raised? ==> ReadLines(lines, quote, today).exception == "IndexError"
    decreases |lines|
  {
    if lines != [] {
      var p := lines[..|lines| - 1];
      ReadLinesRaises(p, quote, today);
      if ReadLines(p, quote, today).Returned? {
        ReadLineRaises(ReadLines(p, quote, today).value, lines[|lines| - 1], quote, today);
      }
    }
  }

  /** `ValueError` is raised exactly for an error message or a listing without
      `SUCCESS`: the final check for a missing build name never fires, since a
      listing with `SUCCESS` has a first line. Any other exception is an
      `IndexError` from a line. A result holds the build name and link of the
      first line and nothing beyond the six known fields. */
  lemma BuildInfoOutcome(out: string, err: string, quote: string -> string, today: string)
    ensures var r := LatestSuccessBuildInfo(out, err, quote, today);
      && (r.Raised? && r.exception == "ValueError" <==> err != [] || !Contains(out, "SUCCESS"))
      && (r.Raised? ==> r.exception == "ValueError" || r.exception == "IndexError")
      && (r.Returned? ==>
            && r.value.Keys <= FIELD_KEYS
            && "build_name" in r.value && "build_link" in r.value
            && FirstLineFields(SplitLines(out)[0], quote) == Returned((r.value["build_name"], r.value["build_link"])))
  {
    if err == [] && out != [] && Contains(out, "SUCCESS") {
      var lines := SplitLines(out);
      ReadLinesRaises(lines, quote, today);
      if ReadLines(lines, quote, today).Returned? {
        NameFromFirstLine(lines, quote, today);
      }
    }
  }

  /** The fields of a result: the time has the shape of a time of day, the
      date is today's, the revisions are alphanumeric; each comes from the last
      line holding its marker. */
  lemma BuildInfoFields(out: string, err: string, quote: string -> string, today: string, f: Field)
    requires LatestSuccessBuildInfo(out, err, quote, today).Returned?
    ensures var info := LatestSuccessBuildInfo(out, err, quote, today).value;
      var last := LastWith(SplitLines(out), Marker(f));
      && (Key(f) in info <==> last.Some?)
      && (last.Some? ==> FieldValue(f, SplitLines(out)[last.value], today) == Returned(info[Key(f)]))
      && (Key(f) in info ==> match f
            case Time => IsClock(info[Key(f)])
            case Date => info[Key(f)] == today
            case _ => forall c :: c in info[Key(f)] ==> IsAlnum(c))
  {
    var lines := SplitLines(out);
    FieldFromLastLine(lines, quote, today, f);
    var info := LatestSuccessBuildInfo(out, err, quote, today).value;
    assert info == ReadLines(lines, quote, today).value;
    var last := LastWith(lines, Marker(f));
    if last.Some? {
      FieldShape(f, lines[last.value], today, info[Key(f)]);
    }
  }

  /** The shape of the value a marked line gives a field. */
  lemma FieldShape(f: Field, line: string, today: string, v: string)
    requires FieldValue(f, line, today) == Returned(v)
    ensures match f
      case Time => IsClock(v)
      case Date => v == today
      case _ => forall c :: c in v ==> IsAlnum(c)
  {
  }

  // ---------------------------------------------------------------------------
  // Lines as `bb` prints them
  // ---------------------------------------------------------------------------

  /** On a line such as `Created today at 12:26:39, waited ...`, the time is
      the one before the first comma. */
  lemma CreatedLineTime(p: string, t: string, q: string, rest: string)
    requires forall c :: c in p ==> !IsDigit(c)
    requires |t| == 8 && IsClock(t)
    requires ',' !in p + t + q
    ensures LineTime(p + t + q + "," + rest) == Returned(t)
  {
    var head := p + t + q;
    assert p + t + q + "," + rest == head + [','] + rest;
    FindChar(head, ',', rest);
    assert (head + [','] + rest)[..|head|] == head;
    ClockFound(p, t, q);
  }

  /** The value after the first `:` of a line with a single `:`. */
  lemma ColonValueOf(pre: string, b: string)
    requires ':' !in pre && ':' !in b
    ensures ColonValue(pre + [':'] + b) == Returned(KeepAlnum(b))
  {
    SplitChar(pre, ':', b);
    ContainsChar(b, ':');
    assert Split(pre + [':'] + b, ":") == [pre, b];
  }

  lemma KeepAlnumQuoted(h: string)
    requires forall c :: c in h ==> IsAlnum(c)
    ensures KeepAlnum(" \"" + h + "\",") == h
  {
    KeepAlnumAppend(" \"" + h, "\",");
    KeepAlnumAppend(" \"", h);
    KeepAlnumAll(h);
    assert KeepAlnum(" \"") == [] && KeepAlnum("\",") == [];
  }

  /** On a line such as `"revision": "3b68...",`, the revision is the hash. */
  lemma RevisionLine(pre: string, h: string)
    requires ':' !in pre
    requires forall c :: c in h ==> IsAlnum(c)
    ensures ColonValue(pre + ": \"" + h + "\",") == Returned(h)
  {
    var b := " \"" + h + "\",";
    assert pre + ": \"" + h + "\"," == pre + [':'] + b;
    assert ':' !in b by {
      assert forall c :: c in h ==> c != ':';
    }
    ColonValueOf(pre, b);
    KeepAlnumQuoted(h);
  }

  // ---------------------------------------------------------------------------
  // `get_step_names`
  // ---------------------------------------------------------------------------

  /** The text that marks a line naming a step of interest. */
  const STEP_MARKER := "Step \"angle_"

  /** A line holding the marker holds a `"`, so splitting it on `"` gives at
      least two pieces and Python's `[1]` cannot raise. */
  lemma MarkerHasQuote(line: string)
    requires Contains(line, STEP_MARKER)
    ensures |Split(line, "\"")| >= 2
  {
    var j := Find(line, STEP_MARKER).value;
    assert line[j..j + |STEP_MARKER|] == STEP_MARKER;
    assert line[j + 5] == '"';
    ContainsChar(line, '"');
    SplitPieces(line, "\"");
  }

  /** The step name on one line of `bb get -steps`: the text between its first
      and second `"`, for a line holding the marker. */
  function StepNameOf(line: string): (r: Option<string>)
    ensures r.Some? <==> Contains(line, STEP_MARKER)
  {
    if !Contains(line, STEP_MARKER) then None
    else
      MarkerHasQuote(line);
      Some(Split(line, "\"")[1])
  }

  /** The step names of the lines, in order. */
  function StepNamesOf(lines: seq<string>): seq<string> {
    Present(MapSeq(StepNameOf, lines))
  }

  /** `get_step_names` on the captured output of `bb get -steps`. */
  method GetStepNames(out: string, err: string) returns (r: Outcome<seq<string>>)
    ensures r == if err != [] then Raised("ValueError") else Returned(StepNamesOf(SplitLines(out)))
  {
    if err != [] {
      return Raised("ValueError");
    }
    var lines := SplitLines(out);
    var stepNames: seq<string> := [];
    var i := 0;
    while i < |lines|
      invariant 0 <= i <= |lines|
      invariant stepNames == StepNamesOf(lines[..i])
    {
      var line := lines[i];
      assert lines[..i + 1][..i] == lines[..i];
      assert MapSeq(StepNameOf, lines[..i + 1]) == MapSeq(StepNameOf, lines[..i]) + [StepNameOf(line)];
      i := i + 1;
      if !Contains(line, STEP_MARKER) {
        continue;
      }
      MarkerHasQuote(line);
      stepNames := stepNames + [Split(line, "\"")[1]];
    }
    assert lines[..i] == lines;
    return Returned(stepNames);
  }

  /** The name is the text between the first and the second `"` of its line
      (or the end of the line). */
  lemma StepNameBetweenQuotes(line: string)
    requires StepNameOf(line).Some?
    ensures exists a, b :: QuotedIn(line, a, StepNameOf(line).value, b)
  {
    MarkerHasQuote(line);
    SecondPiece(line);
  }

  /** The second piece of a split on `"` lies between the first and the
      second `"` (or the end of the text). */
  lemma SecondPiece(line: string)
    requires |Split(line, "\"")| >= 2
    ensures exists a, b :: QuotedIn(line, a, Split(line, "\"")[1], b)
  {
    var a, n, b := SecondPieceOf(line, '"');
    assert QuotedIn(line, a, n, b);
  }

  lemma SecondPieceOf(line: string, c: char) returns (a: string, n: string, b: string)
    requires |Split(line, [c])| >= 2
    ensures n == Split(line, [c])[1]
    ensures line == a + [c] + n + b && c !in a && c !in n && (b == [] || b[0] == c)
  {
    var pieces := Split(line, [c]);
    a, n := pieces[0], pieces[1];
    SplitJoin(line, [c]);
    b := JoinSecond(pieces, [c]);
    ContainsChar(a, c);
    ContainsChar(n, c);
  }

  /** A join of two or more pieces is the first piece, the separator, the
      second piece and either nothing or the separator and the rest. */
  lemma JoinSecond(pieces: seq<string>, sep: string) returns (b: string)
    requires |pieces| >= 2
    ensures Join(pieces, sep) == pieces[0] + sep + pieces[1] + b
    ensures b == [] || b == sep + Join(pieces[2..], sep)
  {
    b := if |pieces| == 2 then [] else sep + Join(pieces[2..], sep);
    assert Join(pieces[1..], sep) == pieces[1] + b by {
      if |pieces| > 2 {
        assert pieces[1..][1..] == pieces[2..];
      }
    }
  }

  /** `line` is `a`, a `"`, then `n`, then `b`: no `"` in `a` or `n`, and `b`
      empty or starting with a `"`. */
  predicate QuotedIn(line: string, a: string, n: string, b: string) {
    && line == a + "\"" + n + b
    && '"' !in a && '"' !in n
    && (b == [] || b[0] == '"')
  }

  /** A line that starts naming the step before any other `"` gives the name
      of an `angle_` step: the marker's `angle_` and the text up to the next
      `"`. */
  lemma StepNameOfStepLine(a: string, rest: string)
    requires '"' !in a
    ensures StepNameOf(a + STEP_MARKER + rest) == Some("angle_" + Split(rest, "\"")[0])
  {
    var line := a + STEP_MARKER + rest;
    assert line[|a|..|a| + |STEP_MARKER|] == STEP_MARKER;
    assert OccursAt(line, STEP_MARKER, |a|);
    var u := a + "Step ";
    assert '"' !in u;
    assert line == u + ['"'] + ("angle_" + rest);
    SplitChar(u, '"', "angle_" + rest);
    SplitFirstPiece("angle_", '"', rest);
  }

  lemma StepNamesAppend(a: seq<string>, b: seq<string>)
    ensures StepNamesOf(a + b) == StepNamesOf(a) + StepNamesOf(b)
  {
    MapSeqAppend(StepNameOf, a, b);
    PresentAppend(MapSeq(StepNameOf, a), MapSeq(StepNameOf, b));
  }

  /** The names are those of the marked lines and nothing else. */
  lemma StepNamesMembers(lines: seq<string>, n: string)
    ensures n in StepNamesOf(lines) <==> exists i :: 0 <= i < |lines| && StepNameOf(lines[i]) == Some(n)
  {
    var os := MapSeq(StepNameOf, lines);
    PresentMembers(os, n);
    if exists i :: 0 <= i < |os| && os[i] == Some(n) {
      var i :| 0 <= i < |os| && os[i] == Some(n);
      MapSeqAt(StepNameOf, lines, i);
    }
    if exists i :: 0 <= i < |lines| && StepNameOf(lines[i]) == Some(n) {
      var i :| 0 <= i < |lines| && StepNameOf(lines[i]) == Some(n);
      MapSeqAt(StepNameOf, lines, i);
    }
  }
}

/** Parsing the statistics a test step prints into its log: every line of the
    form `*RESULT: <key>: <value>` contributes to a map from keys to values
    (`get_step_info` and `validate_step_info` in scripts/generate_stats.py). */
module StepStats {
  import opened Wrappers
  import opened Text

  /** The marker that starts a statistics line. */
  const INFO_TAG := "*RESULT"

  /** Sheets refuses cells over 50000 characters; string values stop growing
      below that. */
  const CELL_LIMIT := 50000

  /** The keys whose values should add up to the value of `Total`. */
  const PARTIAL_SUM_KEYS := ["Passed", "Failed", "Skipped", "Not Supported", "Exception", "Crashed"]

  /** A statistic: a number (summed over repeated lines) or a text (joined with
      newlines). */
  datatype Value = IntVal(n: int) | StrVal(s: string)

  type StepInfo = map<string, Value>

  // ---------------------------------------------------------------------------
  // One line
  // ---------------------------------------------------------------------------

  /** The key and the raw value of a statistics line; `None` for a line without
      the tag or whose text after the first tag does not split on `:` into
      exactly three fields. */
  function StatFields(line: string): (r: Option<(string, string)>)
    ensures r.Some? ==> Contains(line, INFO_TAG)
  {
    if !Contains(line, INFO_TAG) then None
    else
      var columns := Split(SplitOnce(line, INFO_TAG)[1], ":");
      if |columns| != 3 then None else Some((Strip(columns[1]), columns[2]))
  }

  /** A statistics line once read: its key, what `int` makes of its value
      (`None` when `int` raises), and the value stripped. */
  datatype Stat = Stat(key: string, parsed: Option<int>, text: string)

  function StatOf(line: string): Option<Stat> {
    match StatFields(line)
    case None => None
    case Some((key, raw)) => Some(Stat(key, ParseInt(raw), Strip(raw)))
  }

  /** A line printed as `*RESULT:<key>:<value>`, with no `:` inside the key or
      the value, is read back as that key and value. */
  lemma StatLine(k: string, v: string)
    requires ':' !in k && ':' !in v
    ensures StatOf(INFO_TAG + ":" + k + ":" + v) == Some(Stat(Strip(k), ParseInt(v), Strip(v)))
  {
    var rest := ":" + k + ":" + v;
    var line := INFO_TAG + rest;
    assert INFO_TAG + ":" + k + ":" + v == line;
    FindAtStart(INFO_TAG, rest);
    assert line[|INFO_TAG|..] == rest;
    assert SplitOnce(line, INFO_TAG)[1] == rest;
    var ws := ["", k, v];
    assert Join(ws[2..], ":") == v;
    assert Join(ws[1..], ":") == k + ":" + v;
    assert Join(ws, ":") == "" + ":" + (k + ":" + v) == rest;
    JoinSplitChar(ws, ':');
    assert StatFields(line) == Some((Strip(k), v));
  }

  /** The statistics of the log, one per statistics line, in order. */
  function StatsOf(lines: seq<string>): seq<Stat> {
    Present(MapSeq(StatOf, lines))
  }

  /** The parser's state between lines: the map built so far and the keys whose
      text already hit the cell limit, or the key at which a `TypeError` was
      raised because an integer and a text met under it. */
  datatype ParseState = Parsing(info: StepInfo, appendErrors: seq<string>) | Clash(key: string)

  /** Storing one statistic: an integer is added to the stored number
      (starting from 0), any other value is stored, or appended after a newline
      while the cell stays below the limit, the key being noted once when it
      does not; a number meeting a text raises `TypeError`. */
  function Record(st: ParseState, stat: Stat): ParseState {
    match st
    case Clash(_) => st
    case Parsing(info, errs) =>
      var key := stat.key;
      match stat.parsed
      case Some(n) =>
        if key !in info then Parsing(info[key := IntVal(0 + n)], errs)
        else if info[key].IntVal? then Parsing(info[key := IntVal(info[key].n + n)], errs)
        else Clash(key)
      case None =>
        if key !in info then Parsing(info[key := StrVal(stat.text)], errs)
        else if info[key].StrVal? then
          var append := "\n" + stat.text;
          if |info[key].s| + |append| < CELL_LIMIT then
            Parsing(info[key := StrVal(info[key].s + append)], errs)
          else if key in errs then st
          else Parsing(info, errs + [key])
        else Clash(key)
  }

  /** The state after storing the statistics in order, from an empty map. */
  function Absorb(stats: seq<Stat>): ParseState
    decreases |stats|
  {
    if stats == [] then Parsing(map[], [])
    else Record(Absorb(stats[..|stats| - 1]), stats[|stats| - 1])
  }

  /** The state after reading the lines of a log. */
  function ParseLines(lines: seq<string>): ParseState {
    Absorb(StatsOf(lines))
  }

  /** Reading one more line. */
  lemma ParseLinesSnoc(lines: seq<string>, line: string)
    ensures ParseLines(lines + [line]) ==
      if StatOf(line).Some? then Record(ParseLines(lines), StatOf(line).value) else ParseLines(lines)
  {
    var all := lines + [line];
    assert all[..|all| - 1] == lines;
    var os := MapSeq(StatOf, all);
    assert os == MapSeq(StatOf, lines) + [StatOf(line)];
    assert os[..|os| - 1] == MapSeq(StatOf, lines);
    var ss := StatsOf(lines);
    if StatOf(line).Some? {
      assert StatsOf(all) == ss + [StatOf(line).value];
      assert (ss + [StatOf(line).value])[..|ss|] == ss;
    } else {
      assert StatsOf(all) == ss;
    }
  }

  // ---------------------------------------------------------------------------
  // Validation and the whole step
  // ---------------------------------------------------------------------------

  /** `int(v)` on a stored value: a number, or a text `int` accepts. */
  predicate IntConvertible(v: Value) {
    v.IntVal? || ParseInt(v.s).Some?
  }

  function IntOf(v: Value): int
    requires IntConvertible(v)
  {
    if v.IntVal? then v.n else ParseInt(v.s).value
  }

  /** The sum of the values of those `keys` present in `info`. */
  function PartialSum(info: StepInfo, keys: seq<string>): int
    requires forall k :: k in keys && k in info ==> IntConvertible(info[k])
    decreases |keys|
  {
    if keys == [] then 0
    else (if keys[0] in info then IntOf(info[keys[0]]) else 0) + PartialSum(info, keys[1..])
  }

  /** What validation concludes: whether the map is kept, and whether the
      warning that the partial counts do not add up to `Total` is logged. */
  datatype Verdict = Verdict(valid: bool, sumWarning: bool)

  /** `validate_step_info`: an empty map is invalid; with a `Total`, the listed
      partial counts are converted with `int` (raising `ValueError` for a text
      it refuses) and compared with it, which at most logs a warning. */
  function ValidateStepInfo(info: StepInfo): (r: Outcome<Verdict>)
    ensures r.Returned? ==> (r.value.valid <==> info != map[])
    ensures r.Raised? <==>
      info != map[] && "Total" in info &&
      exists k :: k in PARTIAL_SUM_KEYS && k in info && !IntConvertible(info[k])
    ensures r.Returned? && r.value.sumWarning ==> "Total" in info
  {
    if info == map[] then Returned(Verdict(false, false))
    else if "Total" !in info then Returned(Verdict(true, false))
    else if exists k :: k in PARTIAL_SUM_KEYS && k in info && !IntConvertible(info[k]) then
      Raised("ValueError")
    else Returned(Verdict(true, info["Total"] != IntVal(PartialSum(info, PARTIAL_SUM_KEYS))))
  }

  /** The result of `get_step_info` for the captured output of `bb log`: `None`
      after an error message or for a map validation rejects, the map
      otherwise; an exception propagates. */
  function StepInfoOf(out: string, err: string): (r: Outcome<Option<StepInfo>>)
    ensures r.Raised? ==> err == []
    ensures r == Returned(None) <==>
      err != [] || (ParseLines(SplitLines(out)).Parsing? && ParseLines(SplitLines(out)).info == map[])
    ensures r.Returned? && r.value.Some? ==>
      ParseLines(SplitLines(out)).Parsing? && r.value.value == ParseLines(SplitLines(out)).info != map[]
  {
    if err != [] then Returned(None)
    else
      match ParseLines(SplitLines(out))
      case Clash(_) => Raised("TypeError")
      case Parsing(info, _) =>
        match ValidateStepInfo(info)
        case Raised(e) => Raised(e)
        case Returned(verdict) => Returned(if verdict.valid then Some(info) else None)
  }

  /** `get_step_info`, with the output and error text of `bb log` given. */
  method GetStepInfo(out: string, err: string) returns (r: Outcome<Option<StepInfo>>)
    ensures r == StepInfoOf(out, err)
  {
    if err != [] {
      return Returned(None);
    }
    var st := ReadStats(SplitLines(out));
    if st.Clash? {
      return Raised("TypeError");
    }
    var verdict := ValidateStepInfo(st.info);
    if verdict.Raised? {
      return Raised(verdict.exception);
    }
    r := Returned(if verdict.value.valid then Some(st.info) else None);
  }

  /** The loop of `get_step_info` over the lines of the log. */
  method ReadStats(lines: seq<string>) returns (st: ParseState)
    ensures st == ParseLines(lines)
  {
    var info: StepInfo := map[];
    var appendErrors: seq<string> := [];
    var i := 0;
    while i < |lines|
      invariant 0 <= i <= |lines|
      invariant ParseLines(lines[..i]) == Parsing(info, appendErrors)
    {
      var line := lines[i];
      assert lines[..i + 1] == lines[..i] + [line];
      ParseLinesSnoc(lines[..i], line);
      i := i + 1;
      if !Contains(line, INFO_TAG) {
        continue;
      }
      var columns := Split(SplitOnce(line, INFO_TAG)[1], ":");
      if |columns| != 3 {
        continue;
      }
      var key := Strip(columns[1]);
      var stat := Stat(key, ParseInt(columns[2]), Strip(columns[2]));
      assert StatOf(line) == Some(stat);
      assert ParseLines(lines[..i]) == Record(Parsing(info, appendErrors), stat);
      var clash;
      clash, info, appendErrors := RecordLine(info, appendErrors, stat);
      if clash {
        ClashPersists(lines, i);
        return Clash(key);
      }
    }
    assert lines[..i] == lines;
    st := Parsing(info, appendErrors);
  }

  /** The part of the loop body of `get_step_info` that stores one value:
      `clash` when Python raises `TypeError`. */
  method RecordLine(info: StepInfo, appendErrors: seq<string>, stat: Stat)
    returns (clash: bool, info': StepInfo, appendErrors': seq<string>)
    ensures clash <==> Record(Parsing(info, appendErrors), stat) == Clash(stat.key)
    ensures !clash ==> Record(Parsing(info, appendErrors), stat) == Parsing(info', appendErrors')
  {
    clash, info', appendErrors' := false, info, appendErrors;
    var key := stat.key;
    if stat.parsed.Some? {
      if key !in info' {
        info' := info'[key := IntVal(0)];
      } else if !info'[key].IntVal? {
        return true, info, appendErrors;
      }
      info' := info'[key := IntVal(info'[key].n + stat.parsed.value)];
    } else if key !in info' {
      info' := info'[key := StrVal(stat.text)];
    } else if !info'[key].StrVal? {
      return true, info, appendErrors;
    } else {
      var append := "\n" + stat.text;
      if |info'[key].s| + |append| < CELL_LIMIT {
        info' := info'[key := StrVal(info'[key].s + append)];
      } else if key !in appendErrors' {
        appendErrors' := appendErrors' + [key];
      }
    }
  }

  /** Once a `TypeError` is raised, the remaining lines are not read. */
  lemma {:induction false} ClashPersists(lines: seq<string>, i: nat)
    requires i <= |lines| && ParseLines(lines[..i]).Clash?
    ensures ParseLines(lines) == ParseLines(lines[..i])
    decreases |lines| - i
  {
    if i < |lines| {
      assert lines[..i + 1] == lines[..i] + [lines[i]];
      ParseLinesSnoc(lines[..i], lines[i]);
      ClashPersists(lines, i + 1);
    } else {
      assert lines[..i] == lines;
    }
  }

  // ---------------------------------------------------------------------------
  // Which lines count
  // ---------------------------------------------------------------------------

  lemma StatsOfAppend(a: seq<string>, b: seq<string>)
    ensures StatsOf(a + b) == StatsOf(a) + StatsOf(b)
  {
    MapSeqAppend(StatOf, a, b);
    PresentAppend(MapSeq(StatOf, a), MapSeq(StatOf, b));
  }

  /** A line without the tag, or without exactly three `:`-fields after it,
      changes nothing, wherever it stands in the log. */
  lemma IgnoredLine(a: seq<string>, line: string, b: seq<string>)
    requires StatOf(line).None?
    ensures ParseLines(a + [line] + b) == ParseLines(a + b)
  {
    StatsOfAppend(a + [line], b);
    StatsOfAppend(a, [line]);
    StatsOfAppend(a, b);
    assert [line][..0] == [];
    assert MapSeq(StatOf, [line]) == [None];
    var none: seq<Option<Stat>> := [None];
    assert none[..0] == [];
    assert StatsOf([line]) == [];
    assert StatsOf(a + [line]) == StatsOf(a);
  }

  // ---------------------------------------------------------------------------
  // What the parsed map holds
  // ---------------------------------------------------------------------------

  /** Does some statistic give `key` a value that is (`isInt`) or is not an
      integer? */
  predicate HasStat(stats: seq<Stat>, key: string, isInt: bool) {
    exists i :: 0 <= i < |stats| && stats[i].key == key && stats[i].parsed.Some? == isInt
  }

  /** The sum of the integer values given for `key`. */
  function IntSum(stats: seq<Stat>, key: string): int
    decreases |stats|
  {
    if stats == [] then 0
    else
      var last := stats[|stats| - 1];
      IntSum(stats[..|stats| - 1], key) + (if last.key == key && last.parsed.Some? then last.parsed.value else 0)
  }

  /** The stripped value of the first statistic for `key`. */
  function FirstText(stats: seq<Stat>, key: string): Option<string>
    decreases |stats|
  {
    if stats == [] then None
    else
      var before := FirstText(stats[..|stats| - 1], key);
      if before.Some? then before
      else if stats[|stats| - 1].key == key then Some(stats[|stats| - 1].text)
      else None
  }

  lemma HasStatSnoc(stats: seq<Stat>, key: string, isInt: bool)
    requires stats != []
    ensures HasStat(stats, key, isInt) <==>
      HasStat(stats[..|stats| - 1], key, isInt) ||
      (stats[|stats| - 1].key == key && stats[|stats| - 1].parsed.Some? == isInt)
  {
    var p := stats[..|stats| - 1];
    if HasStat(p, key, isInt) {
      var i :| 0 <= i < |p| && p[i].key == key && p[i].parsed.Some? == isInt;
      assert stats[i] == p[i];
    }
  }

  /** What the parsed map says about one key, given the statistics read. */
  predicate KeyFacts(stats: seq<Stat>, info: StepInfo, k: string) {
    && (k in info <==> HasStat(stats, k, true) || HasStat(stats, k, false))
    && (k in info && info[k].IntVal? ==> !HasStat(stats, k, false) && info[k].n == IntSum(stats, k))
    && (k in info && info[k].StrVal? ==> !HasStat(stats, k, true))
    && (!HasStat(stats, k, true) ==> IntSum(stats, k) == 0)
  }

  lemma {:induction false} AbsorbKeyFacts(stats: seq<Stat>)
    requires Absorb(stats).Parsing?
    ensures forall k :: KeyFacts(stats, Absorb(stats).info, k)
    decreases |stats|
  {
    if stats != [] {
      var p := stats[..|stats| - 1];
      AbsorbKeyFacts(p);
      forall k ensures KeyFacts(stats, Absorb(stats).info, k) {
        assert KeyFacts(p, Absorb(p).info, k);
        HasStatSnoc(stats, k, true);
        HasStatSnoc(stats, k, false);
      }
    }
  }

  /** The keys of the parsed map are exactly the keys of the statistics; a key
      holds a number exactly when its values are integers, and the number is
      their sum, each counted once. */
  lemma ParsedKeys(stats: seq<Stat>, k: string)
    requires Absorb(stats).Parsing?
    ensures k in Absorb(stats).info <==> HasStat(stats, k, true) || HasStat(stats, k, false)
    ensures k in Absorb(stats).info ==> (Absorb(stats).info[k].IntVal? <==> HasStat(stats, k, true))
    ensures k in Absorb(stats).info ==> (Absorb(stats).info[k].StrVal? <==> HasStat(stats, k, false))
    ensures k in Absorb(stats).info && Absorb(stats).info[k].IntVal? ==>
      Absorb(stats).info[k].n == IntSum(stats, k)
  {
    AbsorbKeyFacts(stats);
    assert KeyFacts(stats, Absorb(stats).info, k);
  }

  /** Python raises `TypeError` exactly when some key is given both an integer
      and a value that is not one. */
  lemma {:induction false} ClashIffMixed(stats: seq<Stat>)
    ensures Absorb(stats).Clash? <==> exists k :: HasStat(stats, k, true) && HasStat(stats, k, false)
    decreases |stats|
  {
    if Absorb(stats).Parsing? {
      forall k ensures !(HasStat(stats, k, true) && HasStat(stats, k, false)) {
        ParsedKeys(stats, k);
      }
    } else {
      var p, last := stats[..|stats| - 1], stats[|stats| - 1];
      if Absorb(p).Clash? {
        ClashIffMixed(p);
        var k :| HasStat(p, k, true) && HasStat(p, k, false);
        HasStatSnoc(stats, k, true);
        HasStatSnoc(stats, k, false);
      } else {
        AbsorbKeyFacts(p);
        assert KeyFacts(p, Absorb(p).info, last.key);
        HasStatSnoc(stats, last.key, true);
        HasStatSnoc(stats, last.key, false);
      }
    }
  }

  /** What the parsed map says about the text stored under one key. */
  predicate TextFacts(stats: seq<Stat>, info: StepInfo, k: string) {
    && (k !in info ==> FirstText(stats, k).None?)
    && (k in info && info[k].StrVal? ==>
          && FirstText(stats, k).Some?
          && FirstText(stats, k).value <= info[k].s
          && (|info[k].s| < CELL_LIMIT || info[k].s == FirstText(stats, k).value))
  }

  lemma {:induction false} AbsorbTextFacts(stats: seq<Stat>)
    requires Absorb(stats).Parsing?
    ensures forall k :: TextFacts(stats, Absorb(stats).info, k)
    decreases |stats|
  {
    if stats != [] {
      var p := stats[..|stats| - 1];
      AbsorbTextFacts(p);
      forall k ensures TextFacts(stats, Absorb(stats).info, k) {
        assert TextFacts(p, Absorb(p).info, k);
      }
    }
  }

  /** A text value starts with the first value given for its key and, once
      anything has been appended, stays below the cell limit. */
  lemma TextBounded(stats: seq<Stat>, k: string)
    requires Absorb(stats).Parsing?
    requires k in Absorb(stats).info && Absorb(stats).info[k].StrVal?
    ensures FirstText(stats, k).Some?
    ensures FirstText(stats, k).value <= Absorb(stats).info[k].s
    ensures |Absorb(stats).info[k].s| < CELL_LIMIT || Absorb(stats).info[k].s == FirstText(stats, k).value
  {
    AbsorbTextFacts(stats);
    assert TextFacts(stats, Absorb(stats).info, k);
  }

  /** The text the cell of `key` holds, looking only at the text values given
      for it: the first one, then each later one after a newline while the
      cell stays below the limit. */
  function TextAfter(stats: seq<Stat>, key: string): Option<string>
    decreases |stats|
  {
    if stats == [] then None
    else
      var before := TextAfter(stats[..|stats| - 1], key);
      var last := stats[|stats| - 1];
      if last.key != key || last.parsed.Some? then before
      else if before.None? then Some(last.text)
      else if |before.value| + 1 + |last.text| < CELL_LIMIT then Some(before.value + "\n" + last.text)
      else before
  }

  /** Whether a text value given for `key` was turned away by the limit. */
  function Refused(stats: seq<Stat>, key: string): bool
    decreases |stats|
  {
    if stats == [] then false
    else
      var p := stats[..|stats| - 1];
      var last := stats[|stats| - 1];
      || Refused(p, key)
      || (last.key == key && last.parsed.None? && TextAfter(p, key).Some?
          && |TextAfter(p, key).value| + 1 + |last.text| >= CELL_LIMIT)
  }

  /** The cell of a key holds text exactly when the reference text exists, and
      then holds that text; the key is noted as capped exactly when one of its
      text values was turned away. */
  lemma {:induction false} TextCell(stats: seq<Stat>, k: string)
    requires Absorb(stats).Parsing?
    ensures TextAfter(stats, k) ==
      (if k in Absorb(stats).info && Absorb(stats).info[k].StrVal? then Some(Absorb(stats).info[k].s) else None)
    ensures k in Absorb(stats).appendErrors <==> Refused(stats, k)
    decreases |stats|
  {
    if stats != [] {
      var p := stats[..|stats| - 1];
      assert Absorb(p).Parsing?;
      TextCell(p, k);
      AppendErrorsDistinct(p);
      var last := stats[|stats| - 1];
      if last.key == k && last.parsed.None? && k in Absorb(p).info && Absorb(p).info[k].StrVal? {
        var v := Absorb(p).info[k].s;
        assert v + ("\n" + last.text) == v + "\n" + last.text;
        assert |"\n" + last.text| == 1 + |last.text|;
      }
    }
  }

  predicate NoDuplicates(xs: seq<string>) {
    forall i, j :: 0 <= i < j < |xs| ==> xs[i] != xs[j]
  }

  /** A key is noted at most once as capped, and only a key holding text is. */
  lemma {:induction false} AppendErrorsDistinct(stats: seq<Stat>)
    requires Absorb(stats).Parsing?
    ensures NoDuplicates(Absorb(stats).appendErrors)
    ensures forall e :: e in Absorb(stats).appendErrors ==>
      e in Absorb(stats).info && Absorb(stats).info[e].StrVal?
    decreases |stats|
  {
    if stats != [] {
      AppendErrorsDistinct(stats[..|stats| - 1]);
    }
  }
}

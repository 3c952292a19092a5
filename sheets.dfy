/** Which sheets the statistics go to, and the header rows and value rows
    written there (`get_sheet_names`, `sheet_exists`, `validate_sheets`,
    `update_headers` and `update_values` in scripts/generate_stats.py). The
    spreadsheet is reduced to the titles of its sheets and the header rows
    read from them; the requests sent to Sheets are returned as values. */
module Sheets {
  import opened Wrappers
  import opened StepStats
  import opened SheetNaming
  import Text

  /** The columns every header row holds. */
  const REQUIRED_COLUMNS := ["build_link", "time", "date", "revision", "angle_revision"]

  /** What was collected for one bot: the fields of its latest build, the
      names of its test steps in order, the statistics of each step, and for
      each step the order in which its statistics' keys are iterated. */
  datatype Bot = Bot(
    name: string,
    fields: map<string, string>,
    stepNames: seq<string>,
    steps: map<string, StepInfo>,
    keyOrder: map<string, seq<string>>)

  /** One pass of the nested loops over bots and their steps. */
  datatype Visit = Visit(bot: Bot, step: string)

  /** The visits of the steps `names` of bot `b`, in order. */
  function StepVisits(b: Bot, names: seq<string>): (vs: seq<Visit>)
    ensures |vs| == |names|
    decreases |names|
  {
    if names == [] then [] else StepVisits(b, names[..|names| - 1]) + [Visit(b, names[|names| - 1])]
  }

  /** The visits of all steps of all bots, bot by bot. */
  function VisitsOf(bots: seq<Bot>): seq<Visit>
    decreases |bots|
  {
    if bots == [] then []
    else
      var last := bots[|bots| - 1];
      VisitsOf(bots[..|bots| - 1]) + StepVisits(last, last.stepNames)
  }

  lemma {:induction false} VisitsAppend(xs: seq<Bot>, ys: seq<Bot>)
    ensures VisitsOf(xs + ys) == VisitsOf(xs) + VisitsOf(ys)
    decreases |ys|
  {
    if ys == [] {
      assert xs + ys == xs;
    } else {
      assert (xs + ys)[..|xs + ys| - 1] == xs + ys[..|ys| - 1];
      VisitsAppend(xs, ys[..|ys| - 1]);
    }
  }

  lemma {:induction false} StepVisitsAppend(b: Bot, xs: seq<string>, ys: seq<string>)
    ensures StepVisits(b, xs + ys) == StepVisits(b, xs) + StepVisits(b, ys)
    decreases |ys|
  {
    if ys == [] {
      assert xs + ys == xs;
    } else {
      assert (xs + ys)[..|xs + ys| - 1] == xs + ys[..|ys| - 1];
      StepVisitsAppend(b, xs, ys[..|ys| - 1]);
    }
  }

  /** A visit inside the nested loops, at step `j` of bot `i`, comes after the
      visits before it, and some visits follow. */
  lemma VisitsSplit(bots: seq<Bot>, i: nat, j: nat) returns (rest: seq<Visit>)
    requires i < |bots| && j <= |bots[i].stepNames|
    ensures VisitsOf(bots) == VisitsOf(bots[..i]) + StepVisits(bots[i], bots[i].stepNames[..j]) + rest
    ensures rest == StepVisits(bots[i], bots[i].stepNames[j..]) + VisitsOf(bots[i + 1..])
  {
    var b := bots[i];
    VisitsAt(bots, i);
    var front, back := b.stepNames[..j], b.stepNames[j..];
    assert front + back == b.stepNames;
    StepVisitsAppend(b, front, back);
    var before, after := VisitsOf(bots[..i]), VisitsOf(bots[i + 1..]);
    rest := StepVisits(b, back) + after;
    Text.AppendAssoc(before, StepVisits(b, front), StepVisits(b, back));
    Text.AppendAssoc(before + StepVisits(b, front), StepVisits(b, back), after);
  }

  lemma VisitsAt(bots: seq<Bot>, i: nat)
    requires i < |bots|
    ensures VisitsOf(bots) == VisitsOf(bots[..i]) + StepVisits(bots[i], bots[i].stepNames) + VisitsOf(bots[i + 1..])
  {
    assert bots == bots[..i + 1] + bots[i + 1..];
    VisitsAppend(bots[..i + 1], bots[i + 1..]);
    VisitsNext(bots, i);
  }

  lemma VisitsNext(bots: seq<Bot>, i: nat)
    requires i < |bots|
    ensures VisitsOf(bots[..i + 1]) == VisitsOf(bots[..i]) + StepVisits(bots[i], bots[i].stepNames)
    ensures |VisitsOf(bots[..i + 1])| == |VisitsOf(bots[..i])| + |bots[i].stepNames|
  {
    assert bots[..i + 1][..i] == bots[..i];
  }

  // ---------------------------------------------------------------------------
  // `get_sheet_names`
  // ---------------------------------------------------------------------------

  /** How a sheet name is formed from a bot name and a step name:
      `format_sheet_name`, which is `SheetNaming.FormatSheetName`. The
      operations below take it as an argument, so that what they do with the
      names does not depend on how the names are spelt. */
  type Naming = (string, string) -> Outcome<string>

  function NameOf(naming: Naming, v: Visit): Outcome<string> {
    naming(v.bot.name, v.step)
  }

  /** The name outcome of each visit, in order. */
  function NameOutcomes(naming: Naming, vs: seq<Visit>): (os: seq<Outcome<string>>)
    ensures |os| == |vs|
    decreases |vs|
  {
    if vs == [] then [] else NameOutcomes(naming, vs[..|vs| - 1]) + [NameOf(naming, vs[|vs| - 1])]
  }

  lemma {:induction false} NameOutcomesAt(naming: Naming, vs: seq<Visit>, k: nat)
    requires k < |vs|
    ensures NameOutcomes(naming, vs)[k] == NameOf(naming, vs[k])
    decreases |vs|
  {
    if k < |vs| - 1 {
      NameOutcomesAt(naming, vs[..|vs| - 1], k);
    }
  }

  /** The names in order, or the first exception. */
  function Collect(os: seq<Outcome<string>>): Outcome<seq<string>>
    decreases |os|
  {
    if os == [] then Returned([])
    else
      match Collect(os[..|os| - 1])
      case Raised(e) => Raised(e)
      case Returned(names) =>
        match os[|os| - 1]
        case Raised(e) => Raised(e)
        case Returned(n) => Returned(names + [n])
  }

  lemma {:induction false} CollectRaisedPersists(os: seq<Outcome<string>>, ps: seq<Outcome<string>>)
    requires Collect(os).Raised?
    ensures Collect(os + ps) == Collect(os)
    decreases |ps|
  {
    if ps != [] {
      var p := ps[..|ps| - 1];
      CollectRaisedPersists(os, p);
      assert (os + ps)[..|os + ps| - 1] == os + p;
    } else {
      assert os + ps == os;
    }
  }

  /** `Collect` fails exactly when one outcome is an exception; otherwise it
      holds every name, one per outcome and in order. */
  lemma {:induction false} CollectSpec(os: seq<Outcome<string>>)
    ensures Collect(os).Raised? <==> exists k :: 0 <= k < |os| && os[k].Raised?
    ensures Collect(os).Returned? ==>
      |Collect(os).value| == |os| && forall k :: 0 <= k < |os| ==> Collect(os).value[k] == os[k].value
    decreases |os|
  {
    if os != [] {
      var p := os[..|os| - 1];
      CollectSpec(p);
      if exists k :: 0 <= k < |p| && p[k].Raised? {
        var k :| 0 <= k < |p| && p[k].Raised?;
        assert os[k] == p[k];
      }
      if Collect(p).Returned? {
        forall k | 0 <= k < |p| ensures os[k].Returned? {
          assert os[k] == p[k];
        }
      }
    }
  }

  /** The result of `get_sheet_names`. */
  function SheetNamesOf(naming: Naming, bots: seq<Bot>): Outcome<seq<string>> {
    Collect(NameOutcomes(naming, VisitsOf(bots)))
  }

  /** A visit whose sheet name can be formed. */
  predicate Named(naming: Naming, v: Visit) {
    NameOf(naming, v).Returned?
  }

  function SheetOf(naming: Naming, v: Visit): string
    requires Named(naming, v)
  {
    NameOf(naming, v).value
  }

  lemma NameOutcomesAppend(naming: Naming, vs: seq<Visit>, ws: seq<Visit>)
    ensures NameOutcomes(naming, vs + ws) == NameOutcomes(naming, vs) + NameOutcomes(naming, ws)
  {
    var l, r := NameOutcomes(naming, vs + ws), NameOutcomes(naming, vs) + NameOutcomes(naming, ws);
    forall k | 0 <= k < |l| ensures l[k] == r[k] {
      NameOutcomesAt(naming, vs + ws, k);
      if k < |vs| {
        NameOutcomesAt(naming, vs, k);
      } else {
        NameOutcomesAt(naming, ws, k - |vs|);
      }
    }
  }

  /** `get_sheet_names`. */
  method GetSheetNames(naming: Naming, bots: seq<Bot>) returns (r: Outcome<seq<string>>)
    ensures r == SheetNamesOf(naming, bots)
  {
    var sheetNames: seq<string> := [];
    var i := 0;
    while i < |bots|
      invariant 0 <= i <= |bots|
      invariant Collect(NameOutcomes(naming, VisitsOf(bots[..i]))) == Returned(sheetNames)
    {
      var bot := bots[i];
      var j := 0;
      assert bot.stepNames[..0] == [];
      assert VisitsOf(bots[..i]) + StepVisits(bot, bot.stepNames[..0]) == VisitsOf(bots[..i]);
      while j < |bot.stepNames|
        invariant 0 <= j <= |bot.stepNames|
        invariant Collect(NameOutcomes(naming, VisitsOf(bots[..i]) + StepVisits(bot, bot.stepNames[..j]))) == Returned(sheetNames)
      {
        ghost var before := VisitsOf(bots[..i]) + StepVisits(bot, bot.stepNames[..j]);
        ghost var v := Visit(bot, bot.stepNames[j]);
        VisitsStep(bots, i, j);
        NameOutcomesAppend(naming, before, [v]);
        var sheetName := naming(bot.name, bot.stepNames[j]);
        assert NameOutcomes(naming, before + [v]) == NameOutcomes(naming, before) + [sheetName];
        if sheetName.Raised? {
          var rest := VisitsSplit(bots, i, j + 1);
          NameOutcomesAppend(naming, before + [v], rest);
          CollectRaisedPersists(NameOutcomes(naming, before + [v]), NameOutcomes(naming, rest));
          return Raised(sheetName.exception);
        }
        sheetNames := sheetNames + [sheetName.value];
        j := j + 1;
      }
      assert bot.stepNames[..j] == bot.stepNames;
      VisitsNext(bots, i);
      i := i + 1;
    }
    assert bots[..i] == bots;
    return Returned(sheetNames);
  }

  lemma {:induction false} StepVisitsMember(b: Bot, names: seq<string>, v: Visit)
    ensures v in StepVisits(b, names) <==> v.bot == b && v.step in names
    decreases |names|
  {
    if names != [] {
      var p := names[..|names| - 1];
      StepVisitsMember(b, p, v);
      assert names == p + [names[|names| - 1]];
    }
  }

  /** The nested loops visit exactly the steps of the bots. */
  lemma {:induction false} VisitsMember(bots: seq<Bot>, v: Visit)
    ensures v in VisitsOf(bots) <==> v.bot in bots && v.step in v.bot.stepNames
    decreases |bots|
  {
    if bots != [] {
      var p, last := bots[..|bots| - 1], bots[|bots| - 1];
      VisitsMember(p, v);
      StepVisitsMember(last, last.stepNames, v);
      assert bots == p + [last];
    }
  }

  /** `get_sheet_names` raises exactly when the name of some step of some bot
      cannot be formed. */
  lemma SheetNamesRaise(naming: Naming, bots: seq<Bot>)
    ensures SheetNamesOf(naming, bots).Raised? <==>
      exists b, s :: b in bots && s in b.stepNames && !Named(naming, Visit(b, s))
  {
    var vs := VisitsOf(bots);
    var os := NameOutcomes(naming, vs);
    CollectSpec(os);
    if Collect(os).Raised? {
      var k :| 0 <= k < |os| && os[k].Raised?;
      NameOutcomesAt(naming, vs, k);
      VisitsMember(bots, vs[k]);
      assert !Named(naming, Visit(vs[k].bot, vs[k].step));
    }
    if exists b, s :: b in bots && s in b.stepNames && !Named(naming, Visit(b, s)) {
      var b, s :| b in bots && s in b.stepNames && !Named(naming, Visit(b, s));
      VisitsMember(bots, Visit(b, s));
      var k :| 0 <= k < |vs| && vs[k] == Visit(b, s);
      NameOutcomesAt(naming, vs, k);
      assert os[k].Raised?;
    }
  }

  /** With `format_sheet_name`, a visit has a name exactly when its step name
      mentions `angle`. */
  lemma FormatNamed(v: Visit)
    ensures Named(FormatSheetName, v) <==> Text.Contains(v.step, "angle")
  {
    SheetNameParts(v.bot.name, v.step);
  }

  /** So `get_sheet_names` raises exactly when some step name of some bot does
      not mention `angle`. */
  lemma SheetNamesNeedAngle(bots: seq<Bot>)
    ensures SheetNamesOf(FormatSheetName, bots).Raised? <==>
      exists b, s :: b in bots && s in b.stepNames && !Text.Contains(s, "angle")
  {
    SheetNamesRaise(FormatSheetName, bots);
    if exists b, s :: b in bots && s in b.stepNames && !Text.Contains(s, "angle") {
      var b, s :| b in bots && s in b.stepNames && !Text.Contains(s, "angle");
      FormatNamed(Visit(b, s));
    }
    if exists b, s :: b in bots && s in b.stepNames && !Named(FormatSheetName, Visit(b, s)) {
      var b, s :| b in bots && s in b.stepNames && !Named(FormatSheetName, Visit(b, s));
      FormatNamed(Visit(b, s));
    }
  }

  lemma VisitsStep(bots: seq<Bot>, i: nat, j: nat)
    requires i < |bots| && j < |bots[i].stepNames|
    ensures VisitsOf(bots[..i]) + StepVisits(bots[i], bots[i].stepNames[..j]) + [Visit(bots[i], bots[i].stepNames[j])] ==
      VisitsOf(bots[..i]) + StepVisits(bots[i], bots[i].stepNames[..j + 1])
  {
    var names := bots[i].stepNames;
    assert names[..j + 1][..j] == names[..j];
  }

  // ---------------------------------------------------------------------------
  // `sheet_exists` and `validate_sheets`
  // ---------------------------------------------------------------------------

  /** `sheet_exists`, on the titles of the spreadsheet's sheets. */
  method SheetExists(titles: seq<string>, name: string) returns (found: bool)
    ensures found <==> name in titles
  {
    var k := 0;
    while k < |titles|
      invariant 0 <= k <= |titles|
      invariant name !in titles[..k]
    {
      if titles[k] == name {
        return true;
      }
      assert titles[..k + 1] == titles[..k] + [titles[k]];
      k := k + 1;
    }
    assert titles[..k] == titles;
    return false;
  }

  /** The names without a sheet, in order. */
  function Missing(titles: seq<string>, names: seq<string>): seq<string>
    decreases |names|
  {
    if names == [] then []
    else
      var last := names[|names| - 1];
      Missing(titles, names[..|names| - 1]) + (if last in titles then [] else [last])
  }

  /** `validate_sheets`: the sheets that need creating. */
  method ValidateSheets(titles: seq<string>, sheetNames: seq<string>) returns (create: seq<string>)
    ensures create == Missing(titles, sheetNames)
  {
    create := [];
    var k := 0;
    while k < |sheetNames|
      invariant 0 <= k <= |sheetNames|
      invariant create == Missing(titles, sheetNames[..k])
    {
      var sheetName := sheetNames[k];
      assert sheetNames[..k + 1][..k] == sheetNames[..k];
      var exists_ := SheetExists(titles, sheetName);
      if !exists_ {
        create := create + [sheetName];
      }
      k := k + 1;
    }
    assert sheetNames[..k] == sheetNames;
  }

  /** The missing names keep their order: the filter distributes over
      concatenation. */
  lemma {:induction false} MissingAppend(titles: seq<string>, xs: seq<string>, ys: seq<string>)
    ensures Missing(titles, xs + ys) == Missing(titles, xs) + Missing(titles, ys)
    decreases |ys|
  {
    if ys == [] {
      assert xs + ys == xs;
    } else {
      assert (xs + ys)[..|xs + ys| - 1] == xs + ys[..|ys| - 1];
      MissingAppend(titles, xs, ys[..|ys| - 1]);
    }
  }

  /** Each name occurs in the result as often as in the input when it has no
      sheet, and not at all when it has one. */
  lemma {:induction false} MissingCount(titles: seq<string>, names: seq<string>, x: string)
    ensures multiset(Missing(titles, names))[x] == if x in titles then 0 else multiset(names)[x]
    decreases |names|
  {
    if names != [] {
      var p, last := names[..|names| - 1], names[|names| - 1];
      MissingCount(titles, p, x);
      assert names == p + [last];
      assert multiset(names) == multiset(p) + multiset{last};
      var tail := if last in titles then [] else [last];
      assert Missing(titles, names) == Missing(titles, p) + tail;
      assert multiset(Missing(titles, names)) == multiset(Missing(titles, p)) + multiset(tail);
    }
  }

  // ---------------------------------------------------------------------------
  // `update_headers`
  // ---------------------------------------------------------------------------

  /** `row` with each of `columns` appended, in order, unless the row already
      holds it. */
  function Merge(row: seq<string>, columns: seq<string>): seq<string>
    decreases |columns|
  {
    if columns == [] then row
    else
      var r := Merge(row, columns[..|columns| - 1]);
      var c := columns[|columns| - 1];
      if c in r then r else r + [c]
  }

  /** `new` is `old` with columns appended, each new to the row it joins. */
  predicate Extends(old_: seq<string>, new_: seq<string>) {
    old_ <= new_ && forall i :: |old_| <= i < |new_| ==> new_[i] !in new_[..i]
  }

  /** Merging keeps the row as a prefix, appends only columns the row lacked
      (and each once), ends up holding exactly the old columns and the
      demanded ones, and leaves the row alone exactly when it already held
      every demanded column. */
  lemma {:induction false} MergeSpec(row: seq<string>, columns: seq<string>)
    ensures Extends(row, Merge(row, columns))
    ensures forall c :: c in Merge(row, columns) <==> c in row || c in columns
    ensures Merge(row, columns) == row <==> forall c :: c in columns ==> c in row
    decreases |columns|
  {
    if columns != [] {
      var p, c := columns[..|columns| - 1], columns[|columns| - 1];
      MergeSpec(row, p);
      assert columns == p + [c];
      var r := Merge(row, p);
      if c !in r {
        var r' := r + [c];
        assert r'[..|r|] == r;
        assert c !in row;
      }
    }
  }

  lemma {:induction false} MergeAppend(row: seq<string>, xs: seq<string>, ys: seq<string>)
    ensures Merge(row, xs + ys) == Merge(Merge(row, xs), ys)
    decreases |ys|
  {
    if ys == [] {
      assert xs + ys == xs;
    } else {
      assert (xs + ys)[..|xs + ys| - 1] == xs + ys[..|ys| - 1];
      MergeAppend(row, xs, ys[..|ys| - 1]);
    }
  }

  /** Merging the same columns twice appends nothing the second time. */
  lemma MergeIdempotent(row: seq<string>, columns: seq<string>)
    ensures Merge(Merge(row, columns), columns) == Merge(row, columns)
  {
    MergeSpec(row, columns);
    MergeSpec(Merge(row, columns), columns);
  }

  /** The columns one visit demands of one sheet, in the order it appends
      them. */
  datatype Target = Target(sheet: string, columns: seq<string>)

  /** Every step of every bot has a sheet name and an order for its keys. */
  predicate Nameable(naming: Naming, bots: seq<Bot>) {
    forall b, s :: b in bots && s in b.stepNames ==> Named(naming, Visit(b, s)) && s in b.keyOrder
  }

  /** What the visit of step `s` of bot `b` demands: the required columns,
      then the step's keys, of the step's sheet. */
  function TargetOf(naming: Naming, b: Bot, s: string): Target
    requires Named(naming, Visit(b, s)) && s in b.keyOrder
  {
    Target(SheetOf(naming, Visit(b, s)), REQUIRED_COLUMNS + b.keyOrder[s])
  }

  function StepTargets(naming: Naming, b: Bot, names: seq<string>): (ts: seq<Target>)
    requires forall s :: s in names ==> Named(naming, Visit(b, s)) && s in b.keyOrder
    decreases |names|
  {
    if names == [] then []
    else StepTargets(naming, b, names[..|names| - 1]) + [TargetOf(naming, b, names[|names| - 1])]
  }

  /** The visits' demands, in the order of the nested loops. */
  function TargetsOf(naming: Naming, bots: seq<Bot>): seq<Target>
    requires Nameable(naming, bots)
    decreases |bots|
  {
    if bots == [] then []
    else
      var last := bots[|bots| - 1];
      TargetsOf(naming, bots[..|bots| - 1]) + StepTargets(naming, last, last.stepNames)
  }

  /** The header rows after the visits, one after the other. A visit to a
      sheet without a header row is where `update_headers` would raise
      `KeyError`; the methods below exclude it and the fold skips it. */
  function HeadersAfter(rows: map<string, seq<string>>, ts: seq<Target>): (r: map<string, seq<string>>)
    ensures r.Keys == rows.Keys
    decreases |ts|
  {
    if ts == [] then rows
    else
      var h := HeadersAfter(rows, ts[..|ts| - 1]);
      var t := ts[|ts| - 1];
      if t.sheet in h then h[t.sheet := Merge(h[t.sheet], t.columns)] else h
  }

  /** The sheets whose header a visit changed, one entry per such visit. */
  function Stale(rows: map<string, seq<string>>, ts: seq<Target>): (r: seq<string>)
    ensures forall k :: 0 <= k < |r| ==> r[k] in rows
    decreases |ts|
  {
    if ts == [] then []
    else
      var h := HeadersAfter(rows, ts[..|ts| - 1]);
      var t := ts[|ts| - 1];
      Stale(rows, ts[..|ts| - 1]) +
        (if t.sheet in h && Merge(h[t.sheet], t.columns) != h[t.sheet] then [t.sheet] else [])
  }

  lemma HeadersSnoc(rows: map<string, seq<string>>, ts: seq<Target>, t: Target)
    ensures HeadersAfter(rows, ts + [t]) ==
      var h := HeadersAfter(rows, ts);
      if t.sheet in h then h[t.sheet := Merge(h[t.sheet], t.columns)] else h
    ensures Stale(rows, ts + [t]) == Stale(rows, ts) +
      var h := HeadersAfter(rows, ts);
      if t.sheet in h && Merge(h[t.sheet], t.columns) != h[t.sheet] then [t.sheet] else []
  {
    assert (ts + [t])[..|ts|] == ts;
  }

  /** All columns the visits demand of sheet `s`, in order. */
  function ColumnsFor(ts: seq<Target>, s: string): seq<string>
    decreases |ts|
  {
    if ts == [] then []
    else
      var t := ts[|ts| - 1];
      ColumnsFor(ts[..|ts| - 1], s) + (if t.sheet == s then t.columns else [])
  }

  /** Each sheet's final header is its old header merged with every column
      the visits demanded of that sheet, in visit order. */
  lemma {:induction false} HeadersPerSheet(rows: map<string, seq<string>>, ts: seq<Target>, s: string)
    requires s in rows
    ensures HeadersAfter(rows, ts)[s] == Merge(rows[s], ColumnsFor(ts, s))
    decreases |ts|
  {
    if ts != [] {
      var p, t := ts[..|ts| - 1], ts[|ts| - 1];
      HeadersPerSheet(rows, p, s);
      if t.sheet == s {
        MergeAppend(rows[s], ColumnsFor(p, s), t.columns);
      } else {
        assert ColumnsFor(ts, s) == ColumnsFor(p, s) + [] == ColumnsFor(p, s);
        assert HeadersAfter(rows, ts)[s] == HeadersAfter(rows, p)[s];
      }
    }
  }

  lemma {:induction false} ColumnsForHold(ts: seq<Target>, k: nat, c: string)
    requires k < |ts| && c in ts[k].columns
    ensures c in ColumnsFor(ts, ts[k].sheet)
    decreases |ts|
  {
    if k < |ts| - 1 {
      ColumnsForHold(ts[..|ts| - 1], k, c);
    }
  }

  /** After the visits, every header holds its old columns first, each
      appended column once, and every column a visit demanded of it. */
  lemma HeadersGrow(rows: map<string, seq<string>>, ts: seq<Target>)
    ensures forall s :: s in rows ==> Extends(rows[s], HeadersAfter(rows, ts)[s])
    ensures forall t, c :: t in ts && t.sheet in rows && c in t.columns ==> c in HeadersAfter(rows, ts)[t.sheet]
  {
    forall s | s in rows ensures Extends(rows[s], HeadersAfter(rows, ts)[s]) {
      HeadersPerSheet(rows, ts, s);
      MergeSpec(rows[s], ColumnsFor(ts, s));
    }
    forall t, c | t in ts && t.sheet in rows && c in t.columns ensures c in HeadersAfter(rows, ts)[t.sheet] {
      var k :| 0 <= k < |ts| && ts[k] == t;
      HeadersPerSheet(rows, ts, t.sheet);
      MergeSpec(rows[t.sheet], ColumnsFor(ts, t.sheet));
      ColumnsForHold(ts, k, c);
    }
  }

  /** A header is among the stale ones exactly when the visits changed it. */
  lemma {:induction false} StaleIff(rows: map<string, seq<string>>, ts: seq<Target>, s: string)
    requires s in rows
    ensures s in Stale(rows, ts) <==> HeadersAfter(rows, ts)[s] != rows[s]
    decreases |ts|
  {
    if ts != [] {
      var p, t := ts[..|ts| - 1], ts[|ts| - 1];
      StaleIff(rows, p, s);
      var h := HeadersAfter(rows, p);
      HeadersPerSheet(rows, p, s);
      MergeSpec(rows[s], ColumnsFor(p, s));
      MergeSpec(h[s], t.columns);
    }
  }

  /** A second pass over the same visits changes no header and finds nothing
      stale. */
  lemma HeadersIdempotent(rows: map<string, seq<string>>, ts: seq<Target>)
    ensures HeadersAfter(HeadersAfter(rows, ts), ts) == HeadersAfter(rows, ts)
    ensures Stale(HeadersAfter(rows, ts), ts) == []
  {
    var h := HeadersAfter(rows, ts);
    var h2 := HeadersAfter(h, ts);
    forall s | s in rows ensures h2[s] == h[s] {
      HeadersPerSheet(rows, ts, s);
      HeadersPerSheet(h, ts, s);
      MergeIdempotent(rows[s], ColumnsFor(ts, s));
    }
    var st := Stale(h, ts);
    if st != [] {
      StaleIff(h, ts, st[0]);
    }
  }

  /** One request of the header batch update. */
  datatype HeaderUpdate = HeaderUpdate(range: string, values: seq<string>)

  /** The requests for the stale sheets, each with the sheet's final header. */
  function UpdatesOf(rows: map<string, seq<string>>, sheets: seq<string>): (r: seq<HeaderUpdate>)
    requires forall k :: 0 <= k < |sheets| ==> sheets[k] in rows
    ensures |r| == |sheets|
    ensures forall k :: 0 <= k < |r| ==> r[k] == HeaderUpdate(sheets[k] + "!A1:Z", rows[sheets[k]])
    decreases |sheets|
  {
    if sheets == [] then []
    else
      var last := sheets[|sheets| - 1];
      UpdatesOf(rows, sheets[..|sheets| - 1]) + [HeaderUpdate(last + "!A1:Z", rows[last])]
  }

  /** Every sheet a visit writes to has a header row. */
  predicate Ready(naming: Naming, bots: seq<Bot>, rows: map<string, seq<string>>) {
    && Nameable(naming, bots)
    && forall b, s :: b in bots && s in b.stepNames ==> SheetOf(naming, Visit(b, s)) in rows
  }

  lemma {:induction false} StepTargetsHold(naming: Naming, b: Bot, names: seq<string>, s: string)
    requires forall x :: x in names ==> Named(naming, Visit(b, x)) && x in b.keyOrder
    requires s in names
    ensures TargetOf(naming, b, s) in StepTargets(naming, b, names)
    decreases |names|
  {
    if names[|names| - 1] != s {
      var p := names[..|names| - 1];
      assert names == p + [names[|names| - 1]];
      StepTargetsHold(naming, b, p, s);
    }
  }

  /** Every step of every bot has its demand among the visits'. */
  lemma {:induction false} TargetsHold(naming: Naming, bots: seq<Bot>, b: Bot, s: string)
    requires Nameable(naming, bots) && b in bots && s in b.stepNames
    ensures TargetOf(naming, b, s) in TargetsOf(naming, bots)
    decreases |bots|
  {
    var p, last := bots[..|bots| - 1], bots[|bots| - 1];
    if b == last {
      StepTargetsHold(naming, b, b.stepNames, s);
    } else {
      assert bots == p + [last];
      TargetsHold(naming, p, b, s);
    }
  }

  /** Every step of one bot has a sheet name, an order for its keys and a
      header row. */
  predicate StepsReady(naming: Naming, b: Bot, rows: map<string, seq<string>>) {
    forall s :: s in b.stepNames ==>
      Named(naming, Visit(b, s)) && s in b.keyOrder && SheetOf(naming, Visit(b, s)) in rows
  }

  /** The outer loop at bot `i`: the bots before it are ready, and so is it. */
  lemma ReadyAt(naming: Naming, bots: seq<Bot>, rows: map<string, seq<string>>, i: nat)
    requires Ready(naming, bots, rows) && i < |bots|
    ensures Ready(naming, bots[..i + 1], rows) && StepsReady(naming, bots[i], rows)
    ensures bots[..i + 1][..i] == bots[..i]
  {
    assert bots[..i + 1][..i] == bots[..i];
    assert bots[i] in bots;
    forall b | b in bots[..i + 1] ensures b in bots {
    }
  }

  lemma TargetsNext(naming: Naming, bots: seq<Bot>, i: nat)
    requires Nameable(naming, bots) && i < |bots|
    ensures Nameable(naming, bots[..i]) && Nameable(naming, bots[..i + 1])
    ensures TargetsOf(naming, bots[..i + 1]) == TargetsOf(naming, bots[..i]) + StepTargets(naming, bots[i], bots[i].stepNames)
  {
    assert bots[..i + 1][..i] == bots[..i];
    assert forall b :: b in bots[..i + 1] ==> b in bots;
    assert forall b :: b in bots[..i] ==> b in bots;
  }

  lemma StatsAt(bots: seq<Bot>, i: nat)
    requires StatsKnown(bots) && i < |bots|
    ensures StatsKnown(bots[..i + 1]) && forall s :: s in bots[i].stepNames ==> s in bots[i].steps
  {
    assert bots[i] in bots;
    forall b | b in bots[..i + 1] ensures b in bots {
    }
  }

  /** The visit of step `j` of `b`, after the visits `done` and the steps
      before it: its sheet has a header row by then, and the header fold and
      the stale list take it in as their last target. */
  lemma HeaderStep(naming: Naming, start: map<string, seq<string>>, b: Bot, j: nat, done: seq<Target>)
    requires StepsReady(naming, b, start) && j < |b.stepNames|
    ensures var t := TargetOf(naming, b, b.stepNames[j]);
      var before := done + StepTargets(naming, b, b.stepNames[..j]);
      var h := HeadersAfter(start, before);
      && t.sheet == naming(b.name, b.stepNames[j]).value
      && t.columns == REQUIRED_COLUMNS + b.keyOrder[b.stepNames[j]]
      && t.sheet in h
      && done + StepTargets(naming, b, b.stepNames[..j + 1]) == before + [t]
      && HeadersAfter(start, before + [t]) == h[t.sheet := Merge(h[t.sheet], t.columns)]
      && Stale(start, before + [t]) ==
           Stale(start, before) + (if Merge(h[t.sheet], t.columns) != h[t.sheet] then [t.sheet] else [])
  {
    var s := b.stepNames[j];
    assert s in b.stepNames;
    var t := TargetOf(naming, b, s);
    var names := b.stepNames[..j + 1];
    assert names[..j] == b.stepNames[..j];
    var before := done + StepTargets(naming, b, b.stepNames[..j]);
    assert done + StepTargets(naming, b, names) == before + [t];
    HeadersSnoc(start, before, t);
  }

  // ---------------------------------------------------------------------------
  // `update_values`
  // ---------------------------------------------------------------------------

  /** The value written under column `key`: the build's field for a required
      column the build has, else the step's statistic, else a blank. */
  function Cell(key: string, b: Bot, info: StepInfo): Value {
    if key in b.fields && key in REQUIRED_COLUMNS then StrVal(b.fields[key])
    else if key in info then info[key]
    else StrVal("")
  }

  /** The row of values for one step, built column by column. */
  function RowOf(header: seq<string>, b: Bot, info: StepInfo): (r: seq<Value>)
    ensures |r| == |header|
    decreases |header|
  {
    if header == [] then []
    else RowOf(header[..|header| - 1], b, info) + [Cell(header[|header| - 1], b, info)]
  }

  /** The row has one value per column, each the value for that column. */
  lemma {:induction false} RowAligned(header: seq<string>, b: Bot, info: StepInfo)
    ensures |RowOf(header, b, info)| == |header|
    ensures forall i :: 0 <= i < |header| ==> RowOf(header, b, info)[i] == Cell(header[i], b, info)
    decreases |header|
  {
    if header != [] {
      RowAligned(header[..|header| - 1], b, info);
    }
  }

  /** A statistic of the step lands in its column, unless the column is a
      required one the build itself fills; a column nothing fills is blank. */
  lemma StatInColumn(header: seq<string>, b: Bot, info: StepInfo, i: nat)
    requires i < |header|
    ensures |RowOf(header, b, info)| == |header|
    ensures header[i] in REQUIRED_COLUMNS && header[i] in b.fields ==>
      RowOf(header, b, info)[i] == StrVal(b.fields[header[i]])
    ensures !(header[i] in REQUIRED_COLUMNS && header[i] in b.fields) && header[i] in info ==>
      RowOf(header, b, info)[i] == info[header[i]]
    ensures !(header[i] in REQUIRED_COLUMNS && header[i] in b.fields) && header[i] !in info ==>
      RowOf(header, b, info)[i] == StrVal("")
  {
    RowAligned(header, b, info);
  }

  /** A row to append to a sheet. */
  datatype ValueRow = ValueRow(sheet: string, values: seq<Value>)

  /** Every step has its statistics. */
  predicate StatsKnown(bots: seq<Bot>) {
    forall b, s :: b in bots && s in b.stepNames ==> s in b.steps
  }

  /** Step `s` of `b` has its statistics, and its key order lists each of
      their keys exactly once, as `dict.keys()` does. */
  predicate KeysListed(b: Bot, s: string) {
    && s in b.steps && s in b.keyOrder
    && NoDuplicates(b.keyOrder[s])
    && (forall k :: k in b.keyOrder[s] ==> k in b.steps[s])
    && (forall k :: k in b.steps[s] ==> k in b.keyOrder[s])
  }

  /** Every step of every bot has its statistics and their key order. */
  predicate KeyOrders(bots: seq<Bot>) {
    forall b, s :: b in bots && s in b.stepNames ==> KeysListed(b, s)
  }

  /** Key orders are only given for steps whose statistics are known. */
  lemma KeyOrdersKnown(bots: seq<Bot>)
    requires KeyOrders(bots)
    ensures StatsKnown(bots)
  {
    forall b, s | b in bots && s in b.stepNames ensures s in b.steps {
      assert KeysListed(b, s);
    }
  }

  /** The row of step `s` of bot `b`, under its sheet's header. */
  function ValueRowOf(naming: Naming, rows: map<string, seq<string>>, b: Bot, s: string): ValueRow
    requires Named(naming, Visit(b, s)) && SheetOf(naming, Visit(b, s)) in rows && s in b.steps
  {
    var sheet := SheetOf(naming, Visit(b, s));
    ValueRow(sheet, RowOf(rows[sheet], b, b.steps[s]))
  }

  function StepRows(naming: Naming, rows: map<string, seq<string>>, b: Bot, names: seq<string>): seq<ValueRow>
    requires forall s :: s in names ==> Named(naming, Visit(b, s)) && SheetOf(naming, Visit(b, s)) in rows && s in b.steps
    decreases |names|
  {
    if names == [] then []
    else StepRows(naming, rows, b, names[..|names| - 1]) + [ValueRowOf(naming, rows, b, names[|names| - 1])]
  }

  /** The rows `update_values` appends, in the order of the nested loops. */
  function ValueRowsOf(naming: Naming, rows: map<string, seq<string>>, bots: seq<Bot>): seq<ValueRow>
    requires Ready(naming, bots, rows) && StatsKnown(bots)
    decreases |bots|
  {
    if bots == [] then []
    else
      var last := bots[|bots| - 1];
      ValueRowsOf(naming, rows, bots[..|bots| - 1]) + StepRows(naming, rows, last, last.stepNames)
  }

  lemma {:induction false} StepRowsFit(naming: Naming, rows: map<string, seq<string>>, b: Bot, names: seq<string>)
    requires forall s :: s in names ==> Named(naming, Visit(b, s)) && SheetOf(naming, Visit(b, s)) in rows && s in b.steps
    ensures |StepRows(naming, rows, b, names)| == |names|
    ensures forall k :: 0 <= k < |names| ==> StepRows(naming, rows, b, names)[k] == ValueRowOf(naming, rows, b, names[k])
    decreases |names|
  {
    if names != [] {
      StepRowsFit(naming, rows, b, names[..|names| - 1]);
    }
  }

  /** Every row goes to a sheet that has a header, one value per column of
      that header. */
  lemma {:induction false} RowsFitHeaders(naming: Naming, rows: map<string, seq<string>>, bots: seq<Bot>)
    requires Ready(naming, bots, rows) && StatsKnown(bots)
    ensures forall r :: r in ValueRowsOf(naming, rows, bots) ==> r.sheet in rows && |r.values| == |rows[r.sheet]|
    decreases |bots|
  {
    if bots != [] {
      var p, last := bots[..|bots| - 1], bots[|bots| - 1];
      RowsFitHeaders(naming, rows, p);
      StepRowsFit(naming, rows, last, last.stepNames);
      forall r | r in StepRows(naming, rows, last, last.stepNames) ensures r.sheet in rows && |r.values| == |rows[r.sheet]| {
        var k :| 0 <= k < |last.stepNames| && StepRows(naming, rows, last, last.stepNames)[k] == r;
        RowAligned(rows[r.sheet], last, last.steps[last.stepNames[k]]);
      }
    }
  }

  /** After `update_headers`, the header of every step's sheet holds the
      required columns and every key of the step's statistics. */
  lemma KeysInHeaders(naming: Naming, bots: seq<Bot>, rows: map<string, seq<string>>)
    requires Ready(naming, bots, rows) && KeyOrders(bots)
    ensures forall b, s, c :: b in bots && s in b.stepNames && s in b.steps && (c in REQUIRED_COLUMNS || c in b.steps[s]) ==>
      c in HeadersAfter(rows, TargetsOf(naming, bots))[SheetOf(naming, Visit(b, s))]
  {
    var ts := TargetsOf(naming, bots);
    HeadersGrow(rows, ts);
    forall b, s, c | b in bots && s in b.stepNames && s in b.steps && (c in REQUIRED_COLUMNS || c in b.steps[s])
      ensures c in HeadersAfter(rows, ts)[SheetOf(naming, Visit(b, s))]
    {
      assert KeysListed(b, s);
      TargetsHold(naming, bots, b, s);
      var t := TargetOf(naming, b, s);
      assert c in REQUIRED_COLUMNS + b.keyOrder[s];
      assert t in ts && t.sheet in rows && c in t.columns;
    }
  }

  /** Writing the values under the headers `update_headers` leaves puts each
      statistic of a step under the column of its key, unless the key names a
      required column the build itself fills. */
  lemma StatWritten(naming: Naming, bots: seq<Bot>, rows: map<string, seq<string>>, b: Bot, s: string, key: string)
    requires Ready(naming, bots, rows) && KeyOrders(bots) && b in bots && s in b.stepNames
    requires s in b.steps && key in b.steps[s]
    requires !(key in REQUIRED_COLUMNS && key in b.fields)
    ensures exists i :: ColumnHolds(HeadersAfter(rows, TargetsOf(naming, bots))[SheetOf(naming, Visit(b, s))], b, s, key, i)
  {
    KeysInHeaders(naming, bots, rows);
    var header := HeadersAfter(rows, TargetsOf(naming, bots))[SheetOf(naming, Visit(b, s))];
    var i :| 0 <= i < |header| && header[i] == key;
    StatInColumn(header, b, b.steps[s], i);
    assert RowOf(header, b, b.steps[s])[i] == b.steps[s][key];
    assert ColumnHolds(header, b, s, key, i);
  }

  /** Column `i` of `header` is `key`, and the row of step `s` holds the
      step's statistic for `key` there. */
  predicate ColumnHolds(header: seq<string>, b: Bot, s: string, key: string, i: int)
    requires s in b.steps && key in b.steps[s]
  {
    0 <= i < |header| && header[i] == key && RowOf(header, b, b.steps[s])[i] == b.steps[s][key]
  }

  // ---------------------------------------------------------------------------
  // The header rows of the spreadsheet, updated in place
  // ---------------------------------------------------------------------------

  class HeaderTable {
    /** The header row of each sheet, by sheet name. */
    var rows: map<string, seq<string>>

    constructor (initial: map<string, seq<string>>)
      ensures rows == initial
    {
      rows := initial;
    }

    /** The loop over one column list: each column the header lacks is
        appended; `stale` says whether any was. */
    method AppendMissing(sheet: string, columns: seq<string>) returns (stale: bool)
      requires sheet in rows
      modifies this
      ensures rows == old(rows)[sheet := Merge(old(rows)[sheet], columns)]
      ensures old(rows)[sheet] <= rows[sheet]
      ensures stale <==> rows[sheet] != old(rows)[sheet]
    {
      stale := false;
      var m := 0;
      while m < |columns|
        invariant 0 <= m <= |columns|
        invariant rows == old(rows)[sheet := Merge(old(rows)[sheet], columns[..m])]
        invariant old(rows)[sheet] <= rows[sheet]
        invariant stale <==> rows[sheet] != old(rows)[sheet]
      {
        assert columns[..m + 1][..m] == columns[..m];
        if columns[m] !in rows[sheet] {
          stale := true;
          rows := rows[sheet := rows[sheet] + [columns[m]]];
        }
        m := m + 1;
      }
      assert columns[..m] == columns;
    }

    /** The body of the loop over steps: the required columns, then the
        step's keys, each appended when the header lacks it. */
    method HeaderVisit(sheetName: string, keys: seq<string>) returns (stale: bool)
      requires sheetName in rows
      modifies this
      ensures rows == old(rows)[sheetName := Merge(old(rows)[sheetName], REQUIRED_COLUMNS + keys)]
      ensures stale <==> rows[sheetName] != old(rows)[sheetName]
    {
      var staleRequired := AppendMissing(sheetName, REQUIRED_COLUMNS);
      var staleKeys := AppendMissing(sheetName, keys);
      MergeAppend(old(rows)[sheetName], REQUIRED_COLUMNS, keys);
      stale := staleRequired || staleKeys;
    }

    /** `update_headers`: every header gets the required columns and the keys
        of every step written to it; the result is the batch of requests for
        the headers that changed, one per visit that changed one. */
    method UpdateHeaders(naming: Naming, bots: seq<Bot>) returns (data: seq<HeaderUpdate>)
      requires Ready(naming, bots, rows) && KeyOrders(bots)
      modifies this
      ensures rows == HeadersAfter(old(rows), TargetsOf(naming, bots))
      ensures data == UpdatesOf(rows, Stale(old(rows), TargetsOf(naming, bots)))
    {
      ghost var start := rows;
      var staleSheets: seq<string> := [];
      var i := 0;
      while i < |bots|
        invariant 0 <= i <= |bots|
        invariant rows == HeadersAfter(start, TargetsOf(naming, bots[..i]))
        invariant staleSheets == Stale(start, TargetsOf(naming, bots[..i]))
      {
        ReadyAt(naming, bots, start, i);
        TargetsNext(naming, bots, i);
        staleSheets := HeaderBot(naming, bots[i], staleSheets, start, TargetsOf(naming, bots[..i]));
        i := i + 1;
      }
      assert bots[..i] == bots;
      assert forall k :: 0 <= k < |staleSheets| ==> staleSheets[k] in rows;
      data := HeaderRequests(staleSheets);
    }

    /** The loop over the steps of one bot, continuing the visits `done`. */
    method HeaderBot(naming: Naming, bot: Bot, staleSheets: seq<string>,
                     ghost start: map<string, seq<string>>, ghost done: seq<Target>)
      returns (stale: seq<string>)
      requires StepsReady(naming, bot, start)
      requires rows == HeadersAfter(start, done) && staleSheets == Stale(start, done)
      modifies this
      ensures rows == HeadersAfter(start, done + StepTargets(naming, bot, bot.stepNames))
      ensures stale == Stale(start, done + StepTargets(naming, bot, bot.stepNames))
    {
      stale := staleSheets;
      var j := 0;
      assert done + StepTargets(naming, bot, bot.stepNames[..0]) == done;
      while j < |bot.stepNames|
        invariant 0 <= j <= |bot.stepNames|
        invariant rows == HeadersAfter(start, done + StepTargets(naming, bot, bot.stepNames[..j]))
        invariant stale == Stale(start, done + StepTargets(naming, bot, bot.stepNames[..j]))
      {
        var stepName := bot.stepNames[j];
        ghost var before := done + StepTargets(naming, bot, bot.stepNames[..j]);
        HeaderStep(naming, start, bot, j, done);
        var sheetName := naming(bot.name, stepName).value;
        var staleStep := HeaderVisit(sheetName, bot.keyOrder[stepName]);
        if staleStep {
          stale := stale + [sheetName];
        }
        j := j + 1;
      }
      assert bot.stepNames[..j] == bot.stepNames;
    }

    /** The requests, built once every header is final: each request shares
        the header row it sends, so later appends show in earlier requests. */
    method HeaderRequests(sheets: seq<string>) returns (data: seq<HeaderUpdate>)
      requires forall k :: 0 <= k < |sheets| ==> sheets[k] in rows
      ensures data == UpdatesOf(rows, sheets)
    {
      data := [];
      var k := 0;
      while k < |sheets|
        invariant 0 <= k <= |sheets|
        invariant data == UpdatesOf(rows, sheets[..k])
      {
        assert sheets[..k + 1][..k] == sheets[..k];
        data := data + [HeaderUpdate(sheets[k] + "!A1:Z", rows[sheets[k]])];
        k := k + 1;
      }
      assert sheets[..k] == sheets;
    }

    /** `update_values`: one row per visit, in visit order, for the visit's
        sheet, holding the value for each column of that sheet's header. */
    method UpdateValues(naming: Naming, bots: seq<Bot>) returns (appends: seq<ValueRow>)
      requires Ready(naming, bots, rows) && StatsKnown(bots)
      ensures appends == ValueRowsOf(naming, rows, bots)
    {
      appends := [];
      var i := 0;
      while i < |bots|
        invariant 0 <= i <= |bots|
        invariant appends == ValueRowsOf(naming, rows, bots[..i])
      {
        ReadyAt(naming, bots, rows, i);
        StatsAt(bots, i);
        var botRows := ValueBot(naming, bots[i]);
        appends := appends + botRows;
        i := i + 1;
      }
      assert bots[..i] == bots;
    }

    /** The loop over the steps of one bot. */
    method ValueBot(naming: Naming, bot: Bot) returns (botRows: seq<ValueRow>)
      requires StepsReady(naming, bot, rows) && forall s :: s in bot.stepNames ==> s in bot.steps
      ensures botRows == StepRows(naming, rows, bot, bot.stepNames)
    {
      botRows := [];
      var j := 0;
      while j < |bot.stepNames|
        invariant 0 <= j <= |bot.stepNames|
        invariant botRows == StepRows(naming, rows, bot, bot.stepNames[..j])
      {
        var stepName := bot.stepNames[j];
        assert bot.stepNames[..j + 1] == bot.stepNames[..j] + [stepName];
        assert stepName in bot.stepNames;
        var sheetName := naming(bot.name, stepName).value;
        var values := ValuesOf(rows[sheetName], bot, bot.steps[stepName]);
        botRows := botRows + [ValueRow(sheetName, values)];
        j := j + 1;
      }
      assert bot.stepNames[..j] == bot.stepNames;
    }

    /** The column loop of `update_values`. */
    method ValuesOf(header: seq<string>, b: Bot, info: StepInfo) returns (values: seq<Value>)
      ensures values == RowOf(header, b, info)
    {
      values := [];
      var m := 0;
      while m < |header|
        invariant 0 <= m <= |header|
        invariant values == RowOf(header[..m], b, info)
      {
        var key := header[m];
        assert header[..m + 1][..m] == header[..m];
        if key in b.fields && key in REQUIRED_COLUMNS {
          values := values + [StrVal(b.fields[key])];
        } else if key in info {
          values := values + [info[key]];
        } else {
          values := values + [StrVal("")];
        }
        m := m + 1;
      }
      assert header[..m] == header;
    }
  }
}

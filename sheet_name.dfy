/** The name of the sheet that holds the statistics of one test step on one
    bot (`format_sheet_name` in scripts/generate_stats.py): the labels of the
    frontend and backend the step's test name mentions, then the bot name
    without the tokens that say nothing about the configuration. */
module SheetNaming {
  import opened Wrappers
  import opened Text

  /** Tokens dropped from bot names, in the order they are removed. */
  const UNNECESSARY_TOKENS := ["FYI", "Release", "Vk", "dEQP", "(", ")"]

  /** A label added when the test name contains `pattern`. The text appended
      is the caption after a space, and also before one when `padded`. */
  datatype Rule = Rule(pattern: string, caption: string, padded: bool)

  /** The frontends a test exercises, in the order their labels come. */
  const FRONTEND_RULES := [
    Rule("_egl_", "EGL", false),
    Rule("_gles2_", "GLES 2.0", true),
    Rule("_gles3_", "GLES 3.0", true),
    Rule("_gles31_", "GLES 3.1", true)]

  /** The backends, after the frontends; the D3D11 pattern has no trailing
      underscore. */
  const BACKEND_RULES := [
    Rule("_d3d9_", "D3D9", true),
    Rule("_d3d11", "D3D11", true),
    Rule("_gl_", "Desktop OpenGL", true),
    Rule("_gles_", "OpenGLES", true),
    Rule("_vulkan_", "Vulkan", true)]

  const RULES := FRONTEND_RULES + BACKEND_RULES

  // ---------------------------------------------------------------------------
  // The bot name
  // ---------------------------------------------------------------------------

  /** The token loop: each token is replaced by nothing, one after the other. */
  function RemoveTokens(s: string, tokens: seq<string>): string
    requires forall k :: 0 <= k < |tokens| ==> tokens[k] != []
    decreases |tokens|
  {
    if tokens == [] then s else RemoveTokens(Replace(s, tokens[0], ""), tokens[1..])
  }

  /** The bot name without the unnecessary tokens, whitespace collapsed. */
  function CleanBotName(bot: string): (r: string)
    ensures Collapsed(r)
    ensures Words(r) == Words(RemoveTokens(bot, UNNECESSARY_TOKENS))
  {
    var s := RemoveTokens(bot, UNNECESSARY_TOKENS);
    CollapseSpec(s);
    Collapse(s)
  }

  /** A name holding none of the tokens loses nothing to the token loop. */
  lemma {:induction false} RemoveAbsentTokens(s: string, tokens: seq<string>)
    requires forall k :: 0 <= k < |tokens| ==> tokens[k] != [] && !Contains(s, tokens[k])
    ensures RemoveTokens(s, tokens) == s
    decreases |tokens|
  {
    if tokens != [] {
      ReplaceAbsent(s, tokens[0], "");
      RemoveAbsentTokens(s, tokens[1..]);
    }
  }

  // ---------------------------------------------------------------------------
  // The test name: `re.findall(r'angle\w*', step)[0]`
  // ---------------------------------------------------------------------------

  /** The longest prefix made of word characters (`\w`). */
  function TakeWordChars(s: string): (r: string)
    ensures |r| <= |s| && r == s[..|r|]
    ensures forall c :: c in r ==> IsWordChar(c)
    ensures |r| < |s| ==> !IsWordChar(s[|r|])
    decreases |s|
  {
    if s == [] || !IsWordChar(s[0]) then [] else [s[0]] + TakeWordChars(s[1..])
  }

  /** The first match of `angle\w*`: from the first `angle` on, as long as the
      word characters go; `None` when there is no `angle` (Python raises
      `IndexError`). */
  function AngleWord(step: string): (r: Option<string>)
    ensures r.Some? <==> Contains(step, "angle")
    ensures r.Some? ==> |r.value| >= 5 && r.value[..5] == "angle" && Contains(step, r.value)
    ensures r.Some? ==> forall c :: c in r.value[5..] ==> IsWordChar(c)
  {
    match Find(step, "angle")
    case None => None
    case Some(i) =>
      var rest := step[i + 5..];
      var w := "angle" + TakeWordChars(rest);
      assert step[i..i + 5] == "angle";
      assert step[i..i + |w|] == w;
      assert OccursAt(step, w, i);
      assert w[5..] == TakeWordChars(rest);
      Some(w)
  }

  // ---------------------------------------------------------------------------
  // The labels
  // ---------------------------------------------------------------------------

  function Piece(r: Rule): string {
    " " + r.caption + (if r.padded then " " else "")
  }

  /** The text the label conditions append, in order. */
  function Pieces(w: string, rules: seq<Rule>): string
    decreases |rules|
  {
    if rules == [] then []
    else
      var last := rules[|rules| - 1];
      Pieces(w, rules[..|rules| - 1]) + (if Contains(w, last.pattern) then Piece(last) else [])
  }

  /** The labels of the rules whose pattern the test name contains, in order. */
  function Labels(w: string, rules: seq<Rule>): seq<string>
    decreases |rules|
  {
    if rules == [] then []
    else
      var last := rules[|rules| - 1];
      Labels(w, rules[..|rules| - 1]) + (if Contains(w, last.pattern) then [last.caption] else [])
  }

  /** The words of the labels, in order. */
  function LabelWords(w: string, rules: seq<Rule>): seq<string>
    decreases |rules|
  {
    if rules == [] then []
    else
      var last := rules[|rules| - 1];
      LabelWords(w, rules[..|rules| - 1]) + (if Contains(w, last.pattern) then Words(last.caption) else [])
  }

  /** A label is a non-empty text in collapsed form. */
  predicate GoodLabel(r: Rule) {
    r.caption != [] && Collapsed(r.caption)
  }

  lemma RulesGood()
    ensures forall k :: 0 <= k < |RULES| ==> GoodLabel(RULES[k])
  {
    forall k | 0 <= k < |RULES| ensures GoodLabel(RULES[k]) {
      if k < 4 {
        assert RULES[k] == FRONTEND_RULES[k];
        FrontendGood(k);
      } else {
        assert RULES[k] == BACKEND_RULES[k - 4];
        BackendGood(k - 4);
      }
    }
  }

  lemma FrontendGood(k: nat)
    requires k < |FRONTEND_RULES|
    ensures GoodLabel(FRONTEND_RULES[k])
  {
    if k == 0 {
      EglLabel();
    } else if k == 1 {
      Gles20Label();
    } else if k == 2 {
      Gles30Label();
    } else {
      Gles31Label();
    }
  }

  lemma BackendGood(k: nat)
    requires k < |BACKEND_RULES|
    ensures GoodLabel(BACKEND_RULES[k])
  {
    if k == 0 {
      D3d9Label();
    } else if k == 1 {
      D3d11Label();
    } else if k == 2 {
      DesktopLabel();
    } else if k == 3 {
      GlesLabel();
    } else {
      VulkanLabel();
    }
  }

  lemma EglLabel() ensures Collapsed("EGL") {}
  lemma Gles20Label() ensures Collapsed("GLES 2.0") {}
  lemma Gles30Label() ensures Collapsed("GLES 3.0") {}
  lemma Gles31Label() ensures Collapsed("GLES 3.1") {}
  lemma D3d9Label() ensures Collapsed("D3D9") {}
  lemma D3d11Label() ensures Collapsed("D3D11") {}
  lemma DesktopLabel() ensures Collapsed("Desktop OpenGL") {}
  lemma GlesLabel() ensures Collapsed("OpenGLES") {}
  lemma VulkanLabel() ensures Collapsed("Vulkan") {}

  lemma PieceWords(r: Rule)
    ensures Words(Piece(r)) == Words(r.caption)
  {
    var tail := if r.padded then " " else "";
    WordsAllSpace(" ");
    WordsAllSpace(tail);
    WordsAppend(" ", r.caption);
    WordsAppend(" " + r.caption, tail);
    assert Words(" ") == [] && Words(tail) == [];
  }

  lemma {:induction false} PiecesWords(w: string, rules: seq<Rule>)
    ensures Words(Pieces(w, rules)) == LabelWords(w, rules)
    decreases |rules|
  {
    if rules != [] {
      var p, last := rules[..|rules| - 1], rules[|rules| - 1];
      PiecesWords(w, p);
      if Contains(w, last.pattern) {
        WordsAppend(Pieces(w, p), Piece(last));
        PieceWords(last);
      } else {
        assert Pieces(w, rules) == Pieces(w, p) + [] == Pieces(w, p);
        assert LabelWords(w, rules) == LabelWords(w, p) + [] == LabelWords(w, p);
      }
    }
  }

  lemma NonEmptyWords(s: string)
    requires s != [] && Collapsed(s)
    ensures Words(s) != []
  {
    JoinWords(s);
  }

  lemma {:induction false} JoinLabelWords(w: string, rules: seq<Rule>)
    requires forall k :: 0 <= k < |rules| ==> GoodLabel(rules[k])
    ensures Join(LabelWords(w, rules), " ") == Join(Labels(w, rules), " ")
    ensures LabelWords(w, rules) == [] <==> Labels(w, rules) == []
    decreases |rules|
  {
    if rules != [] {
      var p, last := rules[..|rules| - 1], rules[|rules| - 1];
      JoinLabelWords(w, p);
      if Contains(w, last.pattern) {
        assert GoodLabel(last);
        NonEmptyWords(last.caption);
        JoinWords(last.caption);
        if Labels(w, p) != [] {
          JoinAppend(Labels(w, p), [last.caption], " ");
          JoinAppend(LabelWords(w, p), Words(last.caption), " ");
        } else {
          assert Labels(w, rules) == [last.caption];
          assert LabelWords(w, rules) == Words(last.caption);
        }
      } else {
        assert Labels(w, rules) == Labels(w, p);
        assert LabelWords(w, rules) == LabelWords(w, p);
      }
    }
  }

  /** The label part of the name is the labels joined by single spaces. */
  lemma LabelPart(w: string)
    ensures Collapse(Pieces(w, RULES)) == Join(Labels(w, RULES), " ")
  {
    RulesGood();
    WordsStrip(Pieces(w, RULES));
    PiecesWords(w, RULES);
    JoinLabelWords(w, RULES);
  }

  lemma {:induction false} LabelsAppend(w: string, xs: seq<Rule>, ys: seq<Rule>)
    ensures Labels(w, xs + ys) == Labels(w, xs) + Labels(w, ys)
    decreases |ys|
  {
    if ys == [] {
      assert xs + ys == xs;
    } else {
      assert (xs + ys)[..|xs + ys| - 1] == xs + ys[..|ys| - 1];
      LabelsAppend(w, xs, ys[..|ys| - 1]);
    }
  }

  // ---------------------------------------------------------------------------
  // The whole name
  // ---------------------------------------------------------------------------

  /** `format_sheet_name`. */
  function FormatSheetName(bot: string, step: string): Outcome<string> {
    match AngleWord(step)
    case None => Raised("IndexError")
    case Some(w) => Returned(Collapse(Pieces(w, RULES)) + " " + CleanBotName(bot))
  }

  /** The name is the frontend labels, then the backend labels, each in table
      order and joined by single spaces, then one space and the cleaned bot
      name; it fails exactly when the step name has no `angle`. */
  lemma SheetNameParts(bot: string, step: string)
    ensures FormatSheetName(bot, step).Raised? <==> !Contains(step, "angle")
    ensures FormatSheetName(bot, step).Raised? ==> FormatSheetName(bot, step).exception == "IndexError"
    ensures AngleWord(step).Some? ==>
      FormatSheetName(bot, step).value ==
        Join(Labels(AngleWord(step).value, FRONTEND_RULES) + Labels(AngleWord(step).value, BACKEND_RULES), " ")
        + " " + CleanBotName(bot)
  {
    if AngleWord(step).Some? {
      var w := AngleWord(step).value;
      LabelPart(w);
      LabelsAppend(w, FRONTEND_RULES, BACKEND_RULES);
    }
  }

  /** A test name that mentions no frontend or backend gives a name that
      starts with a space. */
  lemma NoLabelName(bot: string, step: string)
    requires AngleWord(step).Some? && Labels(AngleWord(step).value, RULES) == []
    ensures FormatSheetName(bot, step) == Returned(" " + CleanBotName(bot))
  {
    var w := AngleWord(step).value;
    SheetNameParts(bot, step);
    LabelsAppend(w, FRONTEND_RULES, BACKEND_RULES);
    var labels := Labels(w, FRONTEND_RULES) + Labels(w, BACKEND_RULES);
    assert labels == [];
    EmptyHead(Join(labels, " "), CleanBotName(bot));
  }

  lemma EmptyHead(e: string, x: string)
    requires e == []
    ensures e + " " + x == " " + x
  {
  }
}

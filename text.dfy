/** The Python 2 `str` operations the statistics script relies on, written out on
    `seq<char>`: substring search, `split`, `strip`, whitespace splitting and
    joining, `replace`, `splitlines`, `filter(str.isalnum, ...)` and `int(...)`. */
module Text {
  import opened Wrappers

  /** `str.isspace` for a byte string: space, tab, newline, carriage return,
      vertical tab and form feed. */
  predicate IsSpace(c: char) {
    c == ' ' || c == '\t' || c == '\n' || c == '\r' || c == '\U{000B}' || c == '\U{000C}'
  }

  predicate IsDigit(c: char) { '0' <= c <= '9' }

  predicate IsAlpha(c: char) { 'a' <= c <= 'z' || 'A' <= c <= 'Z' }

  /** `str.isalnum` on one byte. */
  predicate IsAlnum(c: char) { IsAlpha(c) || IsDigit(c) }

  /** A character of the regular-expression class `\w` (no `re.UNICODE`). */
  predicate IsWordChar(c: char) { IsAlnum(c) || c == '_' }

  predicate NoSpace(s: string) {
    forall c :: c in s ==> !IsSpace(c)
  }

  // ---------------------------------------------------------------------------
  // Substring search (`t in s`, `s.find(t)`)
  // ---------------------------------------------------------------------------

  predicate OccursAt(s: string, t: string, j: int) {
    0 <= j && j + |t| <= |s| && s[j..j + |t|] == t
  }

  /** The index of the first occurrence of `t` in `s`, as `s.find(t)`. */
  function Find(s: string, t: string): (r: Option<nat>)
    ensures r.Some? ==> OccursAt(s, t, r.value)
    ensures r.Some? ==> forall j :: 0 <= j < r.value ==> !OccursAt(s, t, j)
    ensures r.None? ==> forall j :: !OccursAt(s, t, j)
    decreases |s|
  {
    if |t| > |s| then None
    else if s[..|t|] == t then Some(0)
    else
      match Find(s[1..], t)
      case None =>
        forall j | OccursAt(s, t, j) ensures false {
          if j > 0 {
            assert s[1..][j - 1..j - 1 + |t|] == s[j..j + |t|];
            assert OccursAt(s[1..], t, j - 1);
          }
        }
        None
      case Some(i) =>
        assert s[1..][i..i + |t|] == s[i + 1..i + 1 + |t|];
        forall j | 0 <= j < i + 1 && OccursAt(s, t, j) ensures false {
          if j > 0 {
            assert s[1..][j - 1..j - 1 + |t|] == s[j..j + |t|];
            assert OccursAt(s[1..], t, j - 1);
          }
        }
        Some(i + 1)
  }

  /** Python's `t in s`. */
  predicate Contains(s: string, t: string) {
    Find(s, t).Some?
  }

  // ---------------------------------------------------------------------------
  // Splitting on a separator (`s.split(sep)`, `s.split(sep, 1)`) and joining
  // ---------------------------------------------------------------------------

  /** `s.split(sep)` for a non-empty separator: the pieces between successive
      non-overlapping occurrences of `sep`, scanning from the left. */
  function Split(s: string, sep: string): (r: seq<string>)
    requires sep != []
    ensures |r| >= 1
    ensures forall k :: 0 <= k < |r| ==> !Contains(r[k], sep)
    decreases |s|
  {
    match Find(s, sep)
    case None => [s]
    case Some(i) =>
      var rest := Split(s[i + |sep|..], sep);
      assert !Contains(s[..i], sep) by {
        forall j | OccursAt(s[..i], sep, j) ensures false {
          assert s[..i][j..j + |sep|] == s[j..j + |sep|];
          assert OccursAt(s, sep, j);
        }
      }
      [s[..i]] + rest
  }

  /** `s.split(sep, 1)`: the text before the first `sep` and, when there is
      one, the text after it. */
  function SplitOnce(s: string, sep: string): (r: seq<string>)
    ensures 1 <= |r| <= 2
    ensures |r| == 2 <==> Contains(s, sep)
    ensures |r| == 2 ==> s == r[0] + sep + r[1]
    ensures |r| == 1 ==> r[0] == s
  {
    match Find(s, sep)
    case None => [s]
    case Some(i) =>
      assert s == s[..i] + sep + s[i + |sep|..];
      [s[..i], s[i + |sep|..]]
  }

  /** `sep.join(ws)`. */
  function Join(ws: seq<string>, sep: string): string
    decreases |ws|
  {
    if ws == [] then []
    else if |ws| == 1 then ws[0]
    else ws[0] + sep + Join(ws[1..], sep)
  }

  /** Splitting and joining again with the same separator gives back the text. */
  lemma {:induction false} SplitJoin(s: string, sep: string)
    requires sep != []
    ensures Join(Split(s, sep), sep) == s
    decreases |s|
  {
    match Find(s, sep)
    case None =>
    case Some(i) =>
      var rest := s[i + |sep|..];
      var pieces := Split(rest, sep);
      SplitJoin(rest, sep);
      var all := [s[..i]] + pieces;
      assert Split(s, sep) == all;
      assert all[1..] == pieces;
      assert Join(all, sep) == s[..i] + sep + Join(pieces, sep);
      assert OccursAt(s, sep, i);
      assert s[i..i + |sep|] == sep;
      assert s == s[..i] + s[i..i + |sep|] + rest;
  }

  /** A one-character text occurs in `s` exactly when the character does. */
  lemma ContainsChar(s: string, c: char)
    ensures Contains(s, [c]) <==> c in s
  {
    if c in s {
      var j :| 0 <= j < |s| && s[j] == c;
      assert OccursAt(s, [c], j);
    }
    if Contains(s, [c]) {
      var j := Find(s, [c]).value;
      assert s[j..j + 1] == [c];
      assert s[j] == c;
    }
  }

  /** A text found at the very start is found there. */
  lemma FindAtStart(t: string, b: string)
    ensures Find(t + b, t) == Some(0)
  {
    assert (t + b)[0..|t|] == t;
    assert OccursAt(t + b, t, 0);
  }

  /** The first `c` is the one after a prefix that holds none. */
  lemma FindChar(a: string, c: char, b: string)
    requires c !in a
    ensures Find(a + [c] + b, [c]) == Some(|a|)
  {
    var s := a + [c] + b;
    assert s[|a|..|a| + 1] == [c];
    assert OccursAt(s, [c], |a|);
    forall j | 0 <= j < |a| ensures !OccursAt(s, [c], j) {
      assert s[j] == a[j];
    }
  }

  /** There is more than one piece exactly when the separator occurs. */
  lemma SplitPieces(s: string, sep: string)
    requires sep != []
    ensures |Split(s, sep)| >= 2 <==> Contains(s, sep)
  {
  }

  /** Splitting on a one-character separator cuts at its first occurrence. */
  lemma SplitChar(a: string, c: char, b: string)
    requires c !in a
    ensures Split(a + [c] + b, [c]) == [a] + Split(b, [c])
  {
    var s := a + [c] + b;
    FindChar(a, c, b);
    assert s[..|a|] == a;
    assert s[|a| + 1..] == b;
  }

  /** A prefix without the separator stays at the head of the first piece. */
  lemma SplitFirstPiece(u: string, c: char, v: string)
    requires c !in u
    ensures Split(u + v, [c])[0] == u + Split(v, [c])[0]
  {
    ContainsChar(v, c);
    if c in v {
      var i := Find(v, [c]).value;
      assert v[i..i + 1] == [c];
      forall j | 0 <= j < i ensures v[j] != c {
        assert !OccursAt(v, [c], j);
      }
      var v0, v1 := v[..i], v[i + 1..];
      assert v == v0 + [c] + v1;
      assert u + v == (u + v0) + [c] + v1;
      SplitChar(v0, c, v1);
      SplitChar(u + v0, c, v1);
    } else {
      ContainsChar(u + v, c);
    }
  }

  /** Splitting on a one-character separator undoes joining with it when no
      piece holds the separator. */
  lemma {:induction false} JoinSplitChar(ws: seq<string>, c: char)
    requires ws != []
    requires forall k :: 0 <= k < |ws| ==> c !in ws[k]
    ensures Split(Join(ws, [c]), [c]) == ws
    decreases |ws|
  {
    if |ws| == 1 {
      ContainsChar(ws[0], c);
    } else {
      var rest := Join(ws[1..], [c]);
      assert Join(ws, [c]) == ws[0] + [c] + rest;
      FindChar(ws[0], c, rest);
      assert (ws[0] + [c] + rest)[..|ws[0]|] == ws[0];
      assert (ws[0] + [c] + rest)[|ws[0]| + 1..] == rest;
      JoinSplitChar(ws[1..], c);
      assert [ws[0]] + ws[1..] == ws;
    }
  }

  // ---------------------------------------------------------------------------
  // Whitespace: `strip()`, `split()` and `' '.join(...)`
  // ---------------------------------------------------------------------------

  function TrimStart(s: string): (r: string)
    ensures |r| <= |s| && r == s[|s| - |r|..]
    ensures r == [] || !IsSpace(r[0])
    ensures forall k :: 0 <= k < |s| - |r| ==> IsSpace(s[k])
    decreases |s|
  {
    if s != [] && IsSpace(s[0]) then TrimStart(s[1..]) else s
  }

  function TrimEnd(s: string): (r: string)
    ensures |r| <= |s| && r == s[..|r|]
    ensures r == [] || !IsSpace(r[|r| - 1])
    ensures forall k :: |r| <= k < |s| ==> IsSpace(s[k])
    decreases |s|
  {
    if s != [] && IsSpace(s[|s| - 1]) then TrimEnd(s[..|s| - 1]) else s
  }

  /** `s.strip()`: drops leading and trailing whitespace. */
  function Strip(s: string): string {
    TrimEnd(TrimStart(s))
  }

  /** The longest prefix of `s` that holds no whitespace. */
  function TakeWord(s: string): (w: string)
    ensures |w| <= |s| && w == s[..|w|]
    ensures NoSpace(w)
    ensures |w| < |s| ==> IsSpace(s[|w|])
    decreases |s|
  {
    if s == [] || IsSpace(s[0]) then [] else [s[0]] + TakeWord(s[1..])
  }

  /** `s.split()`: the maximal runs of non-whitespace characters, in order. */
  function Words(s: string): seq<string>
    decreases |s|
  {
    if s == [] then []
    else if IsSpace(s[0]) then Words(s[1..])
    else
      var w := TakeWord(s);
      [w] + Words(s[|w|..])
  }

  /** Every word is non-empty and holds no whitespace. */
  lemma {:induction false} WordsAreWords(s: string)
    ensures IsWordList(Words(s))
    decreases |s|
  {
    if s != [] {
      if IsSpace(s[0]) {
        WordsAreWords(s[1..]);
      } else {
        WordsAreWords(s[|TakeWord(s)|..]);
      }
    }
  }

  /** `' '.join(s.strip().split())`: whitespace runs become one space, the ends
      are trimmed. */
  function Collapse(s: string): string {
    Join(Words(Strip(s)), " ")
  }

  /** A text in the form `Collapse` produces: no whitespace other than single
      spaces between non-blank characters. */
  predicate Collapsed(s: string) {
    && (s == [] || (s[0] != ' ' && s[|s| - 1] != ' '))
    && (forall k :: 0 <= k < |s| ==> IsSpace(s[k]) ==> s[k] == ' ')
    && (forall k :: 0 <= k < |s| - 1 ==> s[k] == ' ' ==> s[k + 1] != ' ')
  }

  /** Splitting at a boundary that whitespace already separates does not merge
      or cut words. */
  lemma {:induction false} WordsAppend(a: string, b: string)
    requires a == [] || b == [] || IsSpace(a[|a| - 1]) || IsSpace(b[0])
    ensures Words(a + b) == Words(a) + Words(b)
    decreases |a|, 1
  {
    if a == [] {
      assert a + b == b;
    } else if IsSpace(a[0]) {
      WordsAppendSpace(a, b);
    } else {
      WordsAppendWord(a, b);
    }
  }

  /** `WordsAppend` when `a` starts with whitespace. */
  lemma {:induction false} WordsAppendSpace(a: string, b: string)
    requires a != [] && IsSpace(a[0])
    requires b == [] || IsSpace(a[|a| - 1]) || IsSpace(b[0])
    ensures Words(a + b) == Words(a) + Words(b)
    decreases |a|, 0
  {
    assert (a + b)[1..] == a[1..] + b;
    WordsAppend(a[1..], b);
  }

  /** `WordsAppend` when `a` starts with a word. */
  lemma {:induction false} WordsAppendWord(a: string, b: string)
    requires a != [] && !IsSpace(a[0])
    requires b == [] || IsSpace(a[|a| - 1]) || IsSpace(b[0])
    ensures Words(a + b) == Words(a) + Words(b)
    decreases |a|, 0
  {
    var w := TakeWord(a);
    var ra := a[|w|..];
    assert ra == [] || ra[|ra| - 1] == a[|a| - 1];
    WordsAppend(ra, b);
    WordsHead(a, b);
    WordsCons(a);
    AppendAssoc([w], Words(ra), Words(b));
  }

  lemma AppendAssoc<T>(x: seq<T>, y: seq<T>, z: seq<T>)
    ensures x + (y + z) == (x + y) + z
  {
  }

  /** The first word of `a + b` is the first word of `a`, when whitespace
      separates them. */
  lemma WordsHead(a: string, b: string)
    requires a != [] && !IsSpace(a[0])
    requires b == [] || IsSpace(a[|a| - 1]) || IsSpace(b[0])
    ensures Words(a + b) == [TakeWord(a)] + Words(a[|TakeWord(a)|..] + b)
  {
    var w := TakeWord(a);
    TakeWordAppend(a, b);
    assert (a + b)[|w|..] == a[|w|..] + b;
    WordsCons(a + b);
  }

  lemma WordsCons(s: string)
    requires s != [] && !IsSpace(s[0])
    ensures Words(s) == [TakeWord(s)] + Words(s[|TakeWord(s)|..])
  {
  }

  lemma {:induction false} TakeWordAppend(a: string, b: string)
    requires a != []
    requires b == [] || IsSpace(a[|a| - 1]) || IsSpace(b[0])
    ensures TakeWord(a + b) == TakeWord(a)
    decreases |a|
  {
    if !IsSpace(a[0]) {
      assert (a + b)[1..] == a[1..] + b;
      if |a| > 1 {
        TakeWordAppend(a[1..], b);
      } else {
        assert a[1..] == [] && a[1..] + b == b;
      }
    }
  }

  lemma {:induction false} WordsAllSpace(s: string)
    requires forall k :: 0 <= k < |s| ==> IsSpace(s[k])
    ensures Words(s) == []
    decreases |s|
  {
    if s != [] {
      WordsAllSpace(s[1..]);
    }
  }

  /** `split()` already ignores leading and trailing whitespace. */
  lemma WordsStrip(s: string)
    ensures Words(Strip(s)) == Words(s)
  {
    WordsTrimStart(s);
    WordsTrimEnd(TrimStart(s));
  }

  lemma WordsTrimStart(s: string)
    ensures Words(TrimStart(s)) == Words(s)
  {
    var mid := TrimStart(s);
    var lead := s[..|s| - |mid|];
    assert s == lead + mid;
    WordsAllSpace(lead);
    WordsAppend(lead, mid);
  }

  lemma WordsTrimEnd(s: string)
    ensures Words(TrimEnd(s)) == Words(s)
  {
    var core := TrimEnd(s);
    var trail := s[|core|..];
    assert s == core + trail;
    WordsAllSpace(trail);
    WordsAppend(core, trail);
  }

  /** Joining two non-empty lists of words. */
  lemma {:induction false} JoinAppend(xs: seq<string>, ys: seq<string>, sep: string)
    requires xs != [] && ys != []
    ensures Join(xs + ys, sep) == Join(xs, sep) + sep + Join(ys, sep)
    decreases |xs|
  {
    if |xs| == 1 {
      assert (xs + ys)[1..] == ys;
    } else {
      assert (xs + ys)[1..] == xs[1..] + ys;
      JoinAppend(xs[1..], ys, sep);
    }
  }

  /** A joined list of non-empty words is empty exactly when the list is. */
  lemma {:induction false} JoinEmpty(ws: seq<string>, sep: string)
    requires forall k :: 0 <= k < |ws| ==> ws[k] != []
    ensures Join(ws, sep) == [] <==> ws == []
  {
    if |ws| > 1 {
      assert |Join(ws, sep)| >= |ws[0]|;
    }
  }

  /** A text already in collapsed form is the single-space join of its words. */
  lemma {:induction false} JoinWords(s: string)
    requires Collapsed(s)
    ensures Join(Words(s), " ") == s
    decreases |s|
  {
    if s != [] {
      var w := TakeWord(s);
      WordsCons(s);
      if |w| == |s| {
        assert s[|w|..] == [];
      } else {
        var rest := s[|w| + 1..];
        CollapsedTail(s);
        JoinWords(rest);
        WordsCons(rest);
        assert Words(s) == [w] + Words(rest);
      }
    }
  }

  /** What follows the first word of a collapsed text: nothing, or one space
      and a collapsed non-empty text. */
  lemma CollapsedTail(s: string)
    requires s != [] && Collapsed(s) && |TakeWord(s)| < |s|
    ensures var w := TakeWord(s);
      && s[|w|] == ' ' && s == w + " " + s[|w| + 1..]
      && s[|w| + 1..] != [] && !IsSpace(s[|w| + 1]) && Collapsed(s[|w| + 1..])
      && s[|w|..][1..] == s[|w| + 1..]
      && Words(s[|w|..]) == Words(s[|w| + 1..])
  {
    var w := TakeWord(s);
    var j := |w| + 1;
    assert s[|w|] == ' ';
    assert j < |s| && s[j] != ' ';
    CollapsedSuffix(s, j);
    var rest := s[j..];
    assert s[|w|..][1..] == rest;
    assert s == w + " " + rest;
  }

  /** A suffix of a collapsed text that starts at a non-space is collapsed. */
  lemma CollapsedSuffix(s: string, j: nat)
    requires Collapsed(s) && j < |s| && s[j] != ' '
    ensures Collapsed(s[j..])
  {
    var rest := s[j..];
    forall k | 0 <= k < |rest| ensures IsSpace(rest[k]) ==> rest[k] == ' ' {
      assert rest[k] == s[j + k];
    }
    forall k | 0 <= k < |rest| - 1 ensures rest[k] == ' ' ==> rest[k + 1] != ' ' {
      assert rest[k] == s[j + k] && rest[k + 1] == s[j + k + 1];
    }
    assert rest[0] == s[j] && rest[|rest| - 1] == s[|s| - 1];
  }

  predicate IsWordList(ws: seq<string>) {
    forall k :: 0 <= k < |ws| ==> ws[k] != [] && NoSpace(ws[k])
  }

  /** A word, one space and a collapsed non-empty text form collapsed text. */
  lemma CollapsedCons(w: string, rest: string)
    requires w != [] && NoSpace(w)
    requires rest != [] && Collapsed(rest)
    ensures Collapsed(w + " " + rest)
  {
    var s := w + " " + rest;
    forall k | 0 <= k < |s| ensures IsSpace(s[k]) ==> s[k] == ' ' {
      if k < |w| { assert s[k] in w; }
      else if k > |w| { assert s[k] == rest[k - |w| - 1]; }
    }
    forall k | 0 <= k < |s| - 1 ensures s[k] == ' ' ==> s[k + 1] != ' ' {
      if k < |w| { assert s[k] in w; }
      else if k == |w| { assert s[k + 1] == rest[0]; }
      else { assert s[k] == rest[k - |w| - 1] && s[k + 1] == rest[k - |w|]; }
    }
    assert s[0] in w;
    assert s[|s| - 1] == rest[|rest| - 1];
  }

  /** The single-space join of words is in collapsed form. */
  lemma {:induction false} JoinedCollapsed(ws: seq<string>)
    requires IsWordList(ws)
    ensures Collapsed(Join(ws, " "))
    decreases |ws|
  {
    if |ws| == 1 {
      var w := ws[0];
      assert w[0] in w && w[|w| - 1] in w;
      assert forall k :: 0 <= k < |w| ==> w[k] in w;
    } else if |ws| > 1 {
      JoinedCollapsed(ws[1..]);
      JoinEmpty(ws[1..], " ");
      CollapsedCons(ws[0], Join(ws[1..], " "));
    }
  }

  /** Splitting the single-space join of words gives back the words. */
  lemma {:induction false} JoinedWords(ws: seq<string>)
    requires IsWordList(ws)
    ensures Words(Join(ws, " ")) == ws
    decreases |ws|
  {
    if |ws| == 1 {
      WordOnly(ws[0]);
    } else if |ws| > 1 {
      var w, rest := ws[0], Join(ws[1..], " ");
      JoinedWords(ws[1..]);
      WordOnly(w);
      assert Join(ws, " ") == w + (" " + rest);
      WordsAppend(w, " " + rest);
      assert (" " + rest)[1..] == rest;
    }
  }

  /** A single word splits into itself. */
  lemma WordOnly(w: string)
    requires w != [] && NoSpace(w)
    ensures Words(w) == [w]
  {
    assert w[0] in w;
    TakeWordAll(w);
    assert w[|w|..] == [];
  }

  lemma {:induction false} TakeWordAll(w: string)
    requires NoSpace(w)
    ensures TakeWord(w) == w
    decreases |w|
  {
    if w != [] {
      assert w[0] in w;
      assert forall c :: c in w[1..] ==> c in w;
      TakeWordAll(w[1..]);
    }
  }

  /** `Collapse` yields collapsed text with the same words as its input. */
  lemma CollapseSpec(s: string)
    ensures Collapsed(Collapse(s))
    ensures Words(Collapse(s)) == Words(s)
  {
    WordsStrip(s);
    WordsAreWords(s);
    JoinedCollapsed(Words(s));
    JoinedWords(Words(s));
  }

  // ---------------------------------------------------------------------------
  // `s.replace(t, '')`, `filter(str.isalnum, s)`, `s.splitlines()`
  // ---------------------------------------------------------------------------

  /** `s.replace(t, u)` for a non-empty `t`: occurrences are found left to
      right and do not overlap. */
  function Replace(s: string, t: string, u: string): string
    requires t != []
    decreases |s|
  {
    if |s| < |t| then s
    else if s[..|t|] == t then u + Replace(s[|t|..], t, u)
    else [s[0]] + Replace(s[1..], t, u)
  }

  /** `filter(str.isalnum, s)` (a `str` in Python 2). */
  function KeepAlnum(s: string): (r: string)
    ensures forall c :: c in r ==> IsAlnum(c)
    decreases |s|
  {
    if s == [] then []
    else if IsAlnum(s[0]) then [s[0]] + KeepAlnum(s[1..])
    else KeepAlnum(s[1..])
  }

  predicate IsLineBreak(c: char) { c == '\n' || c == '\r' }

  /** The first line of `s` and what follows its terminator (`\n`, `\r` or `\r\n`). */
  function BreakLine(s: string): (r: (string, string))
    requires s != []
    ensures |r.1| < |s|
    ensures forall c :: c in r.0 ==> !IsLineBreak(c)
    decreases |s|
  {
    if s[0] == '\r' && |s| > 1 && s[1] == '\n' then ([], s[2..])
    else if IsLineBreak(s[0]) then ([], s[1..])
    else if |s| == 1 then (s, [])
    else
      var (line, rest) := BreakLine(s[1..]);
      ([s[0]] + line, rest)
  }

  /** `s.splitlines()` on a byte string: a final terminator does not start an
      empty line, and the empty text has no lines. */
  function SplitLines(s: string): (lines: seq<string>)
    ensures s != [] <==> lines != []
    ensures forall k, c :: 0 <= k < |lines| && c in lines[k] ==> !IsLineBreak(c)
    decreases |s|
  {
    if s == [] then []
    else
      var (line, rest) := BreakLine(s);
      [line] + SplitLines(rest)
  }

  // ---------------------------------------------------------------------------
  // `int(s)` in base 10
  // ---------------------------------------------------------------------------

  predicate AllDigits(s: string) {
    forall c :: c in s ==> IsDigit(c)
  }

  /** The value of a string of decimal digits. */
  function DigitsValue(ds: string): (n: nat)
    requires AllDigits(ds)
    decreases |ds|
  {
    if ds == [] then 0
    else
      assert ds[|ds| - 1] in ds;
      DigitsValue(ds[..|ds| - 1]) * 10 + (ds[|ds| - 1] as int - '0' as int)
  }

  /** `int(s)`: surrounding whitespace is ignored, then an optional sign,
      whitespace after the sign is skipped as well, and at least one decimal
      digit follows. `None` stands for the `ValueError` Python raises. */
  function ParseInt(s: string): Option<int> {
    var t := Strip(s);
    if t != [] && (t[0] == '-' || t[0] == '+') then
      var ds := TrimStart(t[1..]);
      if ds != [] && AllDigits(ds) then
        var n: int := DigitsValue(ds);
        Some(if t[0] == '-' then -n else n)
      else None
    else if t != [] && AllDigits(t) then Some(DigitsValue(t))
    else None
  }

  /** Text made of lines each ended by `\n`, as a command prints them. */
  function Unlines(lines: seq<string>): string
    decreases |lines|
  {
    if lines == [] then [] else lines[0] + "\n" + Unlines(lines[1..])
  }

  lemma {:induction false} BreakLineAt(line: string, rest: string)
    requires forall c :: c in line ==> !IsLineBreak(c)
    ensures BreakLine(line + "\n" + rest) == (line, rest)
    decreases |line|
  {
    var s := line + "\n" + rest;
    if line == [] {
      assert s == "\n" + rest && s[1..] == rest;
    } else {
      assert line[0] in line;
      assert forall c :: c in line[1..] ==> c in line;
      assert s[1..] == line[1..] + "\n" + rest;
      assert s[0] == line[0] && !IsLineBreak(s[0]) && |s| > 1;
      BreakLineAt(line[1..], rest);
      assert [line[0]] + line[1..] == line;
    }
  }

  /** Lines printed one per `\n` are split back into the same lines. */
  lemma {:induction false} SplitUnlines(lines: seq<string>)
    requires forall k, c :: 0 <= k < |lines| && c in lines[k] ==> !IsLineBreak(c)
    ensures SplitLines(Unlines(lines)) == lines
    decreases |lines|
  {
    if lines != [] {
      BreakLineAt(lines[0], Unlines(lines[1..]));
      SplitUnlines(lines[1..]);
    }
  }

  /** `str(n)` for an integer. */
  function Show(n: int): (r: string)
    ensures r != []
  {
    if n < 0 then "-" + ShowNat(-n) else ShowNat(n)
  }

  function ShowNat(n: nat): (r: string)
    ensures r != [] && AllDigits(r)
    decreases n
  {
    var d := [('0' as int + n % 10) as char];
    if n < 10 then d else ShowNat(n / 10) + d
  }

  lemma {:induction false} ShowNatValue(n: nat)
    ensures DigitsValue(ShowNat(n)) == n
    decreases n
  {
    var d := [('0' as int + n % 10) as char];
    if n < 10 {
      assert ShowNat(n)[..0] == [];
    } else {
      ShowNatValue(n / 10);
      var r := ShowNat(n);
      assert r == ShowNat(n / 10) + d;
      assert r[..|r| - 1] == ShowNat(n / 10);
    }
  }

  lemma StripNoSpaceEnds(s: string)
    requires s != [] && !IsSpace(s[0]) && !IsSpace(s[|s| - 1])
    ensures Strip(s) == s
  {
  }

  /** `int(str(n)) == n`. */
  lemma ParseShow(n: int)
    ensures ParseInt(Show(n)) == Some(n)
  {
    if n < 0 {
      ParseShowNegative(n);
    } else {
      var ds := ShowNat(n);
      ShowNatValue(n);
      assert ds[0] in ds && ds[|ds| - 1] in ds;
      StripNoSpaceEnds(ds);
    }
  }

  lemma ParseShowNegative(n: int)
    requires n < 0
    ensures ParseInt(Show(n)) == Some(n)
  {
    ShowNegative(n);
    ShowNatValue(-n);
    var t := Show(n);
    assert DigitsValue(t[1..]) == -n;
    ParseMinus(t);
    assert ParseInt(t) == Some(n);
  }

  lemma ShowNegative(n: int)
    requires n < 0
    ensures |Show(n)| > 1 && Show(n)[0] == '-' && Show(n)[1..] == ShowNat(-n)
  {
    var r := Show(n);
    assert r == "-" + ShowNat(-n);
  }

  /** A minus sign followed by digits parses to the negated value. */
  lemma ParseMinus(t: string)
    requires |t| > 1 && t[0] == '-' && AllDigits(t[1..])
    ensures ParseInt(t) == Some(-(DigitsValue(t[1..]) as int))
  {
    assert t[|t| - 1] == t[1..][|t| - 2] && t[1..][|t| - 2] in t[1..];
    assert t[1..][0] in t[1..];
    StripNoSpaceEnds(t);
  }

  /** Leading whitespace before a text that does not start with whitespace
      is dropped. */
  lemma {:induction false} TrimSpaces(sp: string, rest: string)
    requires forall i :: 0 <= i < |sp| ==> IsSpace(sp[i])
    requires rest == [] || !IsSpace(rest[0])
    ensures TrimStart(sp + rest) == rest
    decreases |sp|
  {
    if sp == [] {
      assert sp + rest == rest;
    } else {
      assert (sp + rest)[0] == sp[0];
      assert (sp + rest)[1..] == sp[1..] + rest;
      TrimSpaces(sp[1..], rest);
    }
  }

  /** A sign, then whitespace, then digits: the whitespace is skipped and the
      sign applies to the digits' value. */
  lemma ParseSignSpace(sign: char, sp: string, ds: string)
    requires sign == '-' || sign == '+'
    requires forall i :: 0 <= i < |sp| ==> IsSpace(sp[i])
    requires ds != [] && AllDigits(ds)
    ensures ParseInt([sign] + sp + ds) == Some(if sign == '-' then -(DigitsValue(ds) as int) else DigitsValue(ds) as int)
  {
    SignedParts(sign, sp, ds);
    ParseSigned([sign] + sp + ds, ds);
  }

  /** A sign, whitespace and digits is already stripped, and dropping the
      whitespace after the sign leaves the digits. */
  lemma SignedParts(sign: char, sp: string, ds: string)
    requires sign == '-' || sign == '+'
    requires forall i :: 0 <= i < |sp| ==> IsSpace(sp[i])
    requires ds != [] && AllDigits(ds)
    ensures var t := [sign] + sp + ds; Strip(t) == t && t != [] && t[0] == sign && TrimStart(t[1..]) == ds
  {
    var t := [sign] + sp + ds;
    assert ds[0] in ds && ds[|ds| - 1] in ds;
    assert t[|t| - 1] == ds[|ds| - 1];
    StripNoSpaceEnds(t);
    assert t[1..] == sp + ds;
    TrimSpaces(sp, ds);
  }

  /** `int` on a stripped text that starts with a sign and whose digits,
      after the whitespace that follows the sign, are `ds`. */
  lemma ParseSigned(t: string, ds: string)
    requires Strip(t) == t && t != [] && (t[0] == '-' || t[0] == '+')
    requires TrimStart(t[1..]) == ds && ds != [] && AllDigits(ds)
    ensures ParseInt(t) == Some(if t[0] == '-' then -(DigitsValue(ds) as int) else DigitsValue(ds) as int)
  {
  }

  /** `int` ignores surrounding whitespace. */
  lemma ParseIntStrip(s: string)
    ensures ParseInt(Strip(s)) == ParseInt(s)
  {
    var t := Strip(s);
    if t != [] {
      StripNoSpaceEnds(t);
    }
  }

  /** `filter(str.isalnum, s)` keeps a text that is already alphanumeric. */
  lemma {:induction false} KeepAlnumAll(s: string)
    requires forall c :: c in s ==> IsAlnum(c)
    ensures KeepAlnum(s) == s
    decreases |s|
  {
    if s != [] {
      assert s[0] in s;
      assert forall c :: c in s[1..] ==> c in s;
      KeepAlnumAll(s[1..]);
    }
  }

  /** `filter` distributes over concatenation. */
  lemma {:induction false} KeepAlnumAppend(a: string, b: string)
    ensures KeepAlnum(a + b) == KeepAlnum(a) + KeepAlnum(b)
    decreases |a|
  {
    if a == [] {
      assert a + b == b;
    } else {
      assert (a + b)[1..] == a[1..] + b;
      KeepAlnumAppend(a[1..], b);
    }
  }

  /** `replace` leaves a text without occurrences untouched. */
  lemma {:induction false} ReplaceAbsent(s: string, t: string, u: string)
    requires t != [] && !Contains(s, t)
    ensures Replace(s, t, u) == s
    decreases |s|
  {
    if |s| >= |t| {
      assert s[0..|t|] == s[..|t|];
      assert !OccursAt(s, t, 0);
      ReplaceAbsent(s[1..], t, u);
      assert s == [s[0]] + s[1..];
    }
  }
}

// The choice of logging level from the `--verbosity` option text.

module Verbosity {
  import opened Text

  /** The logging levels the option can select. */
  datatype Level = Debug | Info | Warning | Error

  /** The level's name, as the option spells it. */
  function LevelName(l: Level): string {
    match l
    case Debug => "DEBUG"
    case Info => "INFO"
    case Warning => "WARNING"
    case Error => "ERROR"
  }

  /** The numeric threshold of the `logging` module for the level: a message
      is shown when its own level is at least this. */
  function Severity(l: Level): (n: nat)
    ensures n % 10 == 0 && 10 <= n <= 40
  {
    match l
    case Debug => 10
    case Info => 20
    case Warning => 30
    case Error => 40
  }

  /** The level `initialize_logging` sets: the names are tried as substrings
      from the most verbose to the least, and `INFO` is the fallback. */
  function LevelOf(verbosity: string): Level {
    if Contains(verbosity, "DEBUG") then Debug
    else if Contains(verbosity, "INFO") then Info
    else if Contains(verbosity, "WARNING") then Warning
    else if Contains(verbosity, "ERROR") then Error
    else Info
  }

  /** Every character of a contained text occurs in the containing one. */
  lemma ContainedChar(s: string, t: string, c: char)
    requires c in t
    ensures Contains(s, t) ==> c in s
  {
    if Contains(s, t) {
      var j := Find(s, t).value;
      var i :| 0 <= i < |t| && t[i] == c;
      assert s[j..j + |t|][i] == s[j + i];
      assert s[j + i] in s;
    }
  }

  /** Every text contains itself. */
  lemma ContainsSelf(s: string)
    ensures Contains(s, s)
  {
    assert s[..|s|] == s;
  }

  /** Each level's own name selects that level. */
  lemma LevelOfName(l: Level)
    ensures LevelOf(LevelName(l)) == l
  {
    ContainsSelf(LevelName(l));
    match l
    case Debug =>
    case Info => InfoNamesOnlyInfo();
    case Warning => WarningNamesOnlyWarning();
    case Error => ErrorNamesOnlyError();
  }

  /** The names tried after `DEBUG` do not contain the names tried before them. */
  lemma InfoNamesOnlyInfo()
    ensures !Contains("INFO", "DEBUG")
  {
    ContainedChar("INFO", "DEBUG", 'D');
  }

  lemma WarningNamesOnlyWarning()
    ensures !Contains("WARNING", "DEBUG") && !Contains("WARNING", "INFO")
  {
    ContainedChar("WARNING", "DEBUG", 'D');
    ContainedChar("WARNING", "INFO", 'F');
  }

  lemma ErrorNamesOnlyError()
    ensures !Contains("ERROR", "DEBUG") && !Contains("ERROR", "INFO") && !Contains("ERROR", "WARNING")
  {
    ContainedChar("ERROR", "DEBUG", 'D');
    ContainedChar("ERROR", "INFO", 'I');
    ContainedChar("ERROR", "WARNING", 'W');
  }

  /** The chosen level is the most verbose one whose name occurs in the text,
      and `INFO` when no name occurs. */
  lemma LevelOfMostVerbose(verbosity: string)
    ensures var l := LevelOf(verbosity);
      && (Contains(verbosity, LevelName(l)) || (l == Info && forall m: Level :: !Contains(verbosity, LevelName(m))))
      && (forall m: Level :: Contains(verbosity, LevelName(m)) ==> Severity(l) <= Severity(m))
  {
  }

  /** A text naming no level leaves the default `INFO`. */
  lemma LevelOfDefault(verbosity: string)
    requires forall m: Level :: !Contains(verbosity, LevelName(m))
    ensures LevelOf(verbosity) == Info
  {
    assert !Contains(verbosity, LevelName(Debug)) && !Contains(verbosity, LevelName(Info));
    assert !Contains(verbosity, LevelName(Warning)) && !Contains(verbosity, LevelName(Error));
  }
}

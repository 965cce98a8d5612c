/**
 * The `SCHEMA_NAME` setting: its default, the check that guards it against
 * SQL injection, and the `SET search_path` statement every new connection runs.
 */
module Database {
  import opened Wrappers
  import opened Counting

  /** The schema used when `SCHEMA_NAME` is not in the environment. */
  const DefaultSchemaName: string := "public"
  /** The longest identifier the pattern admits (the PostgreSQL limit). */
  const MaxIdentifierLength: nat := 63
  const SearchPathCommand: string := "SET search_path TO "
  const SearchPathPrefix: string := SearchPathCommand + "\""

  /** `os.getenv("SCHEMA_NAME", "public")`: a variable that is set, even to "", is used as it is. */
  function SchemaNameSetting(env: Option<string>): (r: string)
    ensures env.Some? ==> r == env.value
    ensures env.None? ==> r == DefaultSchemaName
  {
    env.GetOr(DefaultSchemaName)
  }

  /** `[a-z_]` */
  predicate IsHeadChar(c: char) {
    ('a' <= c <= 'z') || c == '_'
  }

  /** `[a-z0-9_]` */
  predicate IsTailChar(c: char) {
    IsHeadChar(c) || ('0' <= c <= '9')
  }

  /** A lower-case PostgreSQL identifier of 1 to 63 characters. */
  predicate IsSchemaIdentifier(s: string) {
    1 <= |s| <= MaxIdentifierLength && IsHeadChar(s[0]) && forall i :: 1 <= i < |s| ==> IsTailChar(s[i])
  }

  /** Python's `$` (without MULTILINE) matches at the end of the string and just before a final newline. */
  predicate DollarAt(s: string, p: nat) {
    p == |s| || (p == |s| - 1 && s[p] == '\n')
  }

  /**
   * What `re.match(r"^[a-z_][a-z0-9_]{0,62}$", s)` finds: a head character,
   * some count `k` of at most 62 tail characters, and `$` right after them.
   */
  ghost predicate PatternMatches(s: string) {
    1 <= |s| && IsHeadChar(s[0]) && exists p: nat :: RunEndsAt(s, p)
  }

  /** The `{0,62}` repetition stops at position `p`, and `$` matches there. */
  predicate RunEndsAt(s: string, p: nat) {
    1 <= p <= |s| && p <= MaxIdentifierLength && TailRun(s, 1, p) && DollarAt(s, p)
  }

  /** Every character of `s[lo..hi]` is a tail character. */
  predicate TailRun(s: string, lo: nat, hi: nat)
    requires lo <= hi <= |s|
  {
    forall i :: lo <= i < hi ==> IsTailChar(s[i])
  }

  /** The check as the module performs it: an identifier, optionally followed by one newline. */
  function SchemaNameMatches(s: string): bool {
    IsSchemaIdentifier(s) || (|s| >= 1 && s[|s| - 1] == '\n' && IsSchemaIdentifier(s[..|s| - 1]))
  }

  /** The check agrees with the pattern's own semantics, in both directions. */
  lemma SchemaNameMatchesPattern(s: string)
    ensures SchemaNameMatches(s) <==> PatternMatches(s)
  {
    if IsSchemaIdentifier(s) {
      assert RunEndsAt(s, |s|);
    } else if |s| >= 1 && s[|s| - 1] == '\n' && IsSchemaIdentifier(s[..|s| - 1]) {
      var t := s[..|s| - 1];
      assert forall i :: 1 <= i < |t| ==> s[i] == t[i];
      assert RunEndsAt(s, |t|);
    }
    if PatternMatches(s) {
      var p: nat :| RunEndsAt(s, p);
      if p == |s| {
        assert IsSchemaIdentifier(s);
      } else {
        var t := s[..|s| - 1];
        assert |t| == p;
        assert forall i :: 1 <= i < |t| ==> t[i] == s[i];
        assert IsSchemaIdentifier(t);
      }
    }
  }

  function InvalidSchemaNameMessage(s: string): string {
    "Invalid SCHEMA_NAME: '" + s + "'. Must be lowercase alphanumeric with underscores, starting with letter or underscore."
  }

  /** The import-time guard: an accepted name is kept as it is, any other raises `ValueError` with the message. */
  function ValidateSchemaName(s: string): (r: Result<string, string>)
    ensures r.Success? <==> PatternMatches(s)
    ensures r.Success? ==> r.value == s
    ensures r.Failure? ==> r.error == InvalidSchemaNameMessage(s)
  {
    SchemaNameMatchesPattern(s);
    if SchemaNameMatches(s) then Success(s) else Failure(InvalidSchemaNameMessage(s))
  }

  /** An accepted name is a head character followed by tail characters, save for at most one final newline. */
  lemma AcceptedNameShape(s: string)
    requires ValidateSchemaName(s).Success?
    ensures 1 <= |s| <= MaxIdentifierLength + 1 && IsHeadChar(s[0])
    ensures forall i :: 1 <= i < |s| - 1 ==> IsTailChar(s[i])
    ensures IsTailChar(s[|s| - 1]) || s[|s| - 1] == '\n'
    ensures |s| == MaxIdentifierLength + 1 ==> s[|s| - 1] == '\n'
  {
    SchemaNameMatchesPattern(s);
    if !IsSchemaIdentifier(s) {
      var t := s[..|s| - 1];
      assert forall i :: 1 <= i < |t| ==> t[i] == s[i];
    }
  }

  /** Every identifier is accepted; so is the same identifier with one newline after it, but not with two. */
  lemma TrailingNewlineAccepted(s: string)
    requires IsSchemaIdentifier(s)
    ensures ValidateSchemaName(s) == Success(s)
    ensures ValidateSchemaName(s + "\n") == Success(s + "\n")
    ensures ValidateSchemaName(s + "\n\n").Failure?
  {
    assert (s + "\n")[..|s + "\n"| - 1] == s;
    var u := s + "\n\n";
    assert !IsTailChar(u[|u| - 2]);
    assert u[..|u| - 1] == s + "\n";
    SchemaNameMatchesPattern(u);
  }

  /** Left unset, the schema is `public`, which is accepted. */
  lemma DefaultSchemaAccepted()
    ensures ValidateSchemaName(SchemaNameSetting(None)) == Success(DefaultSchemaName)
  {
    assert IsSchemaIdentifier(DefaultSchemaName);
  }

  /** An empty name, an upper-case start and a 64-character name are all refused. */
  lemma SomeNamesRefused(s: string)
    requires s == "" || (|s| >= 1 && 'A' <= s[0] <= 'Z') || (|s| == MaxIdentifierLength + 1 && s[|s| - 1] != '\n')
    ensures ValidateSchemaName(s).Failure?
  {
    if |s| >= 2 {
      assert s[..|s| - 1][0] == s[0];
    }
  }

  /** `f'SET search_path TO "{SCHEMA_NAME}"'` */
  function SearchPathStatement(name: string): (r: string)
    ensures |r| == |SearchPathPrefix| + |name| + 1
    ensures r[..|SearchPathPrefix|] == SearchPathPrefix && r[|r| - 1] == '"'
    ensures r[|SearchPathPrefix|..|r| - 1] == name
  {
    SearchPathPrefix + name + "\""
  }

  /** No accepted name contains a double quote. */
  lemma AcceptedNameHasNoQuote(s: string)
    requires ValidateSchemaName(s).Success?
    ensures '"' !in s
  {
    AcceptedNameShape(s);
  }

  /**
   * The statement for an accepted name holds exactly two double quotes, the
   * ones around the name, so the name cannot close the identifier early.
   */
  lemma AcceptedStatementHasTwoQuotes(s: string)
    requires ValidateSchemaName(s).Success?
    ensures Count(SearchPathStatement(s), '"') == 2
  {
    AcceptedNameHasNoQuote(s);
    CountAppend(SearchPathPrefix, s, '"');
    CountAppend(SearchPathPrefix + s, "\"", '"');
    PrefixHasOneQuote();
  }

  lemma PrefixHasOneQuote()
    ensures Count(SearchPathPrefix, '"') == 1
  {
    CommandHasNoQuote();
    CountAppend(SearchPathCommand, "\"", '"');
  }

  lemma CommandHasNoQuote()
    ensures Count(SearchPathCommand, '"') == 0
  {
    assert forall i :: 0 <= i < |SearchPathCommand| ==> SearchPathCommand[i] != '"';
  }

  /** Reads a statement back: the prefix, a quoted identifier without inner quotes, nothing after it. */
  function ParseSearchPath(stmt: string): (r: Option<string>)
    ensures r.Some? ==> SearchPathStatement(r.value) == stmt && '"' !in r.value
  {
    if |stmt| >= |SearchPathPrefix| + 1 && stmt[..|SearchPathPrefix|] == SearchPathPrefix && stmt[|stmt| - 1] == '"'
       && '"' !in stmt[|SearchPathPrefix|..|stmt| - 1]
    then
      var name := stmt[|SearchPathPrefix|..|stmt| - 1];
      assert SearchPathPrefix + name + "\"" == stmt;
      Some(name)
    else None
  }

  /** The statement for an accepted name reads back as exactly that name. */
  lemma SearchPathRoundTrip(s: string)
    requires ValidateSchemaName(s).Success?
    ensures ParseSearchPath(SearchPathStatement(s)) == Some(s)
  {
    AcceptedNameHasNoQuote(s);
  }

  /** The whole start-up path: read the setting, check it, and build the statement, or raise. */
  function ConnectStatement(env: Option<string>): (r: Result<string, string>)
    ensures r.Success? <==> PatternMatches(SchemaNameSetting(env))
    ensures r.Success? ==> ParseSearchPath(r.value) == Some(SchemaNameSetting(env))
  {
    var name := SchemaNameSetting(env);
    match ValidateSchemaName(name)
    case Failure(e) => Failure(e)
    case Success(n) =>
      SearchPathRoundTrip(n);
      Success(SearchPathStatement(n))
  }

  /** Left unset, every connection runs `SET search_path TO "public"`. */
  lemma DefaultConnectStatement()
    ensures ConnectStatement(None) == Success("SET search_path TO \"public\"")
  {
    DefaultSchemaAccepted();
    assert ConnectStatement(None) == Success(SearchPathStatement(DefaultSchemaName));
    DefaultStatementText();
  }

  lemma DefaultStatementText()
    ensures SearchPathStatement(DefaultSchemaName) == "SET search_path TO \"public\""
  {
    calc {
      SearchPathStatement(DefaultSchemaName);
      SearchPathCommand + "\"" + "public" + "\"";
      "SET search_path TO " + "\"public\"";
    }
  }
}

/**
 * The `.env` reader of Configuration/EnvironmentLoader.cs: the file's lines are
 * applied in order to the process environment. Finding and reading the file is
 * not part of this model; the lines are given.
 */
module EnvironmentLoader {
  import opened Wrappers
  import opened Text
  import opened Env

  datatype Assignment = Assignment(key: string, value: string)

  /** `Unquote`: strips one pair of matching double or single quotes around a value of length two or more. */
  function Unquote(value: string): (r: string)
    ensures IsQuoted(value) ==> r == value[1..|value| - 1]
    ensures !IsQuoted(value) ==> r == value
  {
    if |value| >= 2 then
      if value[0] == '"' && value[|value| - 1] == '"' then value[1..|value| - 1]
      else if value[0] == '\'' && value[|value| - 1] == '\'' then value[1..|value| - 1]
      else value
    else value
  }

  /** A value enclosed in a matching pair of `"` or `'`. */
  predicate IsQuoted(value: string) {
    |value| >= 2 && value[0] == value[|value| - 1] && (value[0] == '"' || value[0] == '\'')
  }

  /** Quoting with either quote character and then unquoting gives the text back. */
  lemma {:induction false} UnquoteQuoted(v: string, q: char)
    requires q == '"' || q == '\''
    ensures Unquote([q] + v + [q]) == v
  {
    var s := [q] + v + [q];
    assert s[1..|s| - 1] == v;
  }

  /** One line of the file, as the body of the line loop reads it: the assignment it holds, if any. */
  function ParseLine(line: string): Option<Assignment> {
    var trimmed := Trim(line);
    if IsBlank(trimmed) || trimmed[0] == '#' then None
    else
      var separatorIndex := IndexOf(trimmed, '=');
      if separatorIndex == |trimmed| || separatorIndex == 0 then None
      else Some(Assignment(Trim(trimmed[..separatorIndex]), Unquote(Trim(trimmed[separatorIndex + 1..]))))
  }

  /**
   * Blank lines, comments (`#` first after trimming) and lines with no `=` or
   * nothing before it assign nothing; every assignment has a non-blank trimmed
   * key without `=`.
   */
  lemma {:induction false} ParseLineCases(line: string)
    ensures var t := Trim(line);
      && (IsBlank(line) ==> ParseLine(line).None?)
      && (t != [] && t[0] == '#' ==> ParseLine(line).None?)
      && ('=' !in t ==> ParseLine(line).None?)
      && (t != [] && t[0] == '=' ==> ParseLine(line).None?)
    ensures ParseLine(line).Some? ==>
      var key := ParseLine(line).value.key;
      !IsBlank(key) && IsTrimmed(key) && '=' !in key
  {
    var t := Trim(line);
    if !IsBlank(t) && t[0] != '#' {
      var n := IndexOf(t, '=');
      if 0 < n < |t| {
        var k := t[..n];
        assert k[0] == t[0];
        assert !IsBlank(k) by { assert !IsWhiteSpace(k[0]); }
        assert '=' !in k;
        TrimSubsequence(k);
      }
    }
  }

  /** Applies one parsed line the way `Environment.SetEnvironmentVariable` does. */
  function ApplyLine(env: Environment, line: string): Environment {
    match ParseLine(line)
    case None => env
    case Some(a) => SetVariable(env, a.key, a.value)
  }

  /** The environment after the lines are applied in file order. */
  function ApplyLines(env: Environment, lines: seq<string>): Environment {
    if lines == [] then env
    else ApplyLine(ApplyLines(env, lines[..|lines| - 1]), lines[|lines| - 1])
  }

  /** The value the last line assigning `key` gives it, if any line does. */
  function LastAssignment(lines: seq<string>, key: string): Option<string> {
    if lines == [] then None
    else
      var p := ParseLine(lines[|lines| - 1]);
      if p.Some? && p.value.key == key then Some(p.value.value)
      else LastAssignment(lines[..|lines| - 1], key)
  }

  /** What a variable holds once the lines are applied: its last assignment, or its old value. */
  function ValueAfterLoad(env: Environment, lines: seq<string>, key: string): Option<string> {
    match LastAssignment(lines, key)
    case None => GetVariable(env, key)
    case Some(v) => if v == "" then None else Some(v)
  }

  /**
   * The line loop of `LoadDotEnvIfAvailable`: every line is parsed and, when it
   * holds an assignment, written to the environment.
   */
  method LoadDotEnv(env: Environment, lines: seq<string>) returns (result: Environment)
    ensures forall key :: GetVariable(result, key) == ValueAfterLoad(env, lines, key)
  {
    result := env;
    for i := 0 to |lines|
      invariant result == ApplyLines(env, lines[..i])
    {
      assert ApplyLines(env, lines[..i + 1]) == ApplyLine(result, lines[i]) by {
        ApplyLinesStep(env, lines, i);
      }
      var assignment := ParseLine(lines[i]);
      if assignment.Some? {
        result := SetVariable(result, assignment.value.key, assignment.value.value);
      }
    }
    assert lines[..|lines|] == lines;
    LoadedValues(env, lines);
  }

  lemma {:induction false} ApplyLinesStep(env: Environment, lines: seq<string>, i: nat)
    requires i < |lines|
    ensures ApplyLines(env, lines[..i + 1]) == ApplyLine(ApplyLines(env, lines[..i]), lines[i])
  {
    assert lines[..i + 1][..i] == lines[..i];
  }

  lemma {:induction false} LoadedValues(env: Environment, lines: seq<string>)
    ensures forall key :: GetVariable(ApplyLines(env, lines), key) == ValueAfterLoad(env, lines, key)
  {
    forall key ensures GetVariable(ApplyLines(env, lines), key) == ValueAfterLoad(env, lines, key) {
      LastAssignmentWins(env, lines, key);
    }
  }

  /** Later lines overwrite earlier ones: a variable ends with the value of the last line that assigns it. */
  lemma {:induction false} LastAssignmentWins(env: Environment, lines: seq<string>, key: string)
    ensures GetVariable(ApplyLines(env, lines), key) == ValueAfterLoad(env, lines, key)
  {
    if lines != [] {
      var init, last := lines[..|lines| - 1], lines[|lines| - 1];
      LastAssignmentWins(env, init, key);
      assert ApplyLines(env, lines) == ApplyLine(ApplyLines(env, init), last);
      match ParseLine(last)
      case None =>
        assert LastAssignment(lines, key) == LastAssignment(init, key);
      case Some(a) =>
        if a.key == key {
          assert LastAssignment(lines, key) == Some(a.value);
        } else {
          assert LastAssignment(lines, key) == LastAssignment(init, key);
        }
    }
  }

  /** A line written as `key="value"` reads back as that assignment. */
  lemma {:induction false} ParseFormattedLine(key: string, value: string)
    requires key != [] && IsTrimmed(key) && '=' !in key && key[0] != '#'
    ensures ParseLine(key + "=\"" + value + "\"") == Some(Assignment(key, value))
  {
    var raw := ['"'] + value + ['"'];
    var line := key + (['='] + raw);
    assert line == key + "=\"" + value + "\"";
    FormattedLineShape(key, raw);
    ParseSplitLine(line, |key|);
    TrimmedIsFixedPoint(key);
    assert IsTrimmed(raw);
    TrimmedIsFixedPoint(raw);
    UnquoteQuoted(value, '"');
  }

  /** `ParseLine` on a trimmed line whose first `=` is at `n`, neither first nor absent. */
  lemma {:induction false} ParseSplitLine(line: string, n: nat)
    requires IsTrimmed(line) && !IsBlank(line) && line[0] != '#'
    requires 0 < n < |line| && IndexOf(line, '=') == n
    ensures ParseLine(line) == Some(Assignment(Trim(line[..n]), Unquote(Trim(line[n + 1..]))))
  {
    TrimmedIsFixedPoint(line);
  }

  /** The pieces `ParseLine` finds in `key=raw`. */
  lemma {:induction false} FormattedLineShape(key: string, raw: string)
    requires key != [] && IsTrimmed(key) && '=' !in key && key[0] != '#'
    requires raw != [] && !IsWhiteSpace(raw[|raw| - 1])
    ensures var line := key + (['='] + raw);
      && IsTrimmed(line) && !IsBlank(line) && line[0] != '#'
      && IndexOf(line, '=') == |key|
      && line[..|key|] == key && line[|key| + 1..] == raw
  {
    var line := key + (['='] + raw);
    assert !IsWhiteSpace(line[0]) && line[|line| - 1] == raw[|raw| - 1];
    assert IndexOf(key, '=') == |key|;
    IndexOfPrefix(key, ['='] + raw, '=');
    assert line[..|key|] == key;
    assert line[|key| + 1..] == raw;
  }
}

/**
 * scripts/utils/env.py: `load_env` reads `KEY=value` lines from a `.env` file
 * into the process environment, never overriding a variable that is already set.
 *
 * The environment is an object whose map the loader updates in place; the file
 * is given as its lines (None when it does not exist).
 */
module Env {
  import opened Wrappers
  import opened Text

  /** The binding a line asks for, or None when the loader skips the line. */
  function ParseLine(line: string): (r: Option<(string, string)>)
    ensures r.None? <==> IsSkipped(line)
  {
    var t := PyStrip(line);
    if t == [] || t[0] == '#' || '=' !in t then None else SplitFirst(t, '=')
  }

  /** `not line or line.startswith("#") or "=" not in line`, after stripping. */
  predicate IsSkipped(line: string) {
    var t := PyStrip(line);
    t == [] || t[0] == '#' || '=' !in t
  }

  /** The line is split at its first `=` only: the key holds no `=`, the value may. */
  lemma ParseLineSplitsAtFirst(line: string)
    requires !IsSkipped(line)
    ensures var r := ParseLine(line);
            r.Some? && PyStrip(line) == r.value.0 + "=" + r.value.1 && '=' !in r.value.0
  {
  }

  /** One line of the file applied to the environment. */
  function ApplyLine(env: map<string, string>, line: string): map<string, string> {
    match ParseLine(line)
    case Some((key, value)) => if key != [] && key !in env then env[key := value] else env
    case None => env
  }

  /** The environment after the lines of the file, loaded one after the other. */
  function EnvAfter(env: map<string, string>, lines: seq<string>): map<string, string> {
    if lines == [] then env else ApplyLine(EnvAfter(env, lines[..|lines| - 1]), lines[|lines| - 1])
  }

  /** `os.environ`. */
  class Environment {
    var vars: map<string, string>

    constructor(initial: map<string, string>)
      ensures vars == initial
    {
      vars := initial;
    }

    /** `load_env(path)`, where `file` holds the lines of `path`, or None when it does not exist. */
    method LoadEnv(file: Option<seq<string>>)
      modifies this
      ensures file.None? ==> vars == old(vars)
      ensures file.Some? ==> vars == EnvAfter(old(vars), file.value)
    {
      if file.None? {
        return;
      }
      var lines := file.value;
      var i := 0;
      while i < |lines|
        invariant 0 <= i <= |lines|
        invariant vars == EnvAfter(old(vars), lines[..i])
      {
        assert lines[..i + 1][..i] == lines[..i];
        var line := PyStrip(lines[i]);
        if line != [] && line[0] != '#' && '=' in line {
          var kv := SplitFirst(line, '=');
          var key, value := kv.value.0, kv.value.1;
          if key != [] && key !in vars {
            vars := vars[key := value];
          }
        }
        i := i + 1;
      }
      assert lines[..i] == lines;
    }
  }

  // ---------------------------------------------------------------------
  // Properties of the loader

  /** A skipped line changes nothing. */
  lemma SkippedLineChangesNothing(env: map<string, string>, line: string)
    requires IsSkipped(line)
    ensures ApplyLine(env, line) == env
  {
  }

  /** A line whose key is empty (it begins with `=`) changes nothing. */
  lemma EmptyKeyIgnored(env: map<string, string>, line: string, value: string)
    requires ParseLine(line) == Some(("", value))
    ensures ApplyLine(env, line) == env
  {
  }

  /** Every binding already present stays as it is; a line adds at most its own key. */
  lemma ApplyLineKeeps(env: map<string, string>, line: string)
    ensures var r := ApplyLine(env, line);
            && (forall k :: k in env ==> k in r && r[k] == env[k])
            && (forall k :: k in r && k !in env ==> ParseLine(line).Some? && ParseLine(line).value == (k, r[k]))
  {
  }

  /** No key is ever removed and every pre-existing binding is preserved. */
  lemma {:induction false} EnvAfterKeeps(env: map<string, string>, lines: seq<string>)
    ensures forall k :: k in env ==> k in EnvAfter(env, lines) && EnvAfter(env, lines)[k] == env[k]
  {
    if lines != [] {
      var before := EnvAfter(env, lines[..|lines| - 1]);
      EnvAfterKeeps(env, lines[..|lines| - 1]);
      ApplyLineKeeps(before, lines[|lines| - 1]);
    }
  }

  /** The value the first line binding `key` gives it (lines with an empty key bind nothing). */
  function FirstBinding(lines: seq<string>, key: string): Option<string> {
    if lines == [] then None
    else match ParseLine(lines[0])
      case Some((k, v)) => if k == key && k != [] then Some(v) else FirstBinding(lines[1..], key)
      case None => FirstBinding(lines[1..], key)
  }

  lemma {:induction false} FirstBindingAppend(lines: seq<string>, line: string, key: string)
    ensures FirstBinding(lines + [line], key)
            == if FirstBinding(lines, key).Some? then FirstBinding(lines, key)
               else if key != [] && ParseLine(line).Some? && ParseLine(line).value.0 == key then Some(ParseLine(line).value.1)
               else None
  {
    if lines == [] {
      assert lines + [line] == [line];
      assert [line][1..] == [];
    } else {
      assert (lines + [line])[0] == lines[0];
      assert (lines + [line])[1..] == lines[1..] + [line];
      FirstBindingAppend(lines[1..], line, key);
    }
  }

  /**
   * The loaded environment in one statement: a variable already set keeps its
   * value; otherwise it is set iff some line binds it, to the value of the first
   * such line.
   */
  lemma {:induction false} EnvAfterIsFirstWins(env: map<string, string>, lines: seq<string>, key: string)
    ensures var r := EnvAfter(env, lines);
            && (key in env ==> key in r && r[key] == env[key])
            && (key !in env ==> (key in r <==> FirstBinding(lines, key).Some?))
            && (key !in env && key in r ==> r[key] == FirstBinding(lines, key).value)
  {
    if lines != [] {
      var init := lines[..|lines| - 1];
      var last := lines[|lines| - 1];
      EnvAfterIsFirstWins(env, init, key);
      FirstBindingAppend(init, last, key);
      assert init + [last] == lines;
      ApplyLineKeeps(EnvAfter(env, init), last);
    }
  }
}

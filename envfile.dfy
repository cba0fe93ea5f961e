/** load_env.py: reading the KEY=VALUE lines of a .env file into the process
    environment, and setting the two Telegram variables. The environment is
    an object whose map the methods update; whether the file exists and the
    lines readlines() returns are inputs. */
module EnvFile {
  import opened Text
  import opened Seq

  /** What one line does: nothing, an assignment, or nothing to unpack
      (a line without '=', on which the unpacking of split raises). */
  datatype Line = Skip | Assign(key: string, value: string) | Malformed

  /** A line after strip(): blank and comment lines are skipped, the rest is
      split at the first '=' and both halves are stripped. */
  function Parse(t: string): Line {
    if t == [] || t[0] == '#' then Skip
    else if '=' !in t then Malformed
    else
      var i := FirstIn(t, {'='});
      Assign(Strip(t[..i]), Strip(t[i + 1..]))
  }

  function ParseLine(line: string): Line {
    Parse(Strip(line))
  }

  /** Every line, parsed. */
  function Parsed(lines: seq<string>): (r: seq<Line>)
    ensures |r| == |lines|
    ensures forall i :: 0 <= i < |lines| ==> r[i] == ParseLine(lines[i])
  {
    seq(|lines|, i requires 0 <= i < |lines| => ParseLine(lines[i]))
  }

  /** The environment, and whether the loop has raised. */
  datatype Load = Load(vars: map<string, string>, raised: bool)

  function Step(s: Load, line: Line): Load {
    if s.raised then s
    else
      match line
      case Skip => s
      case Assign(k, v) => Load(s.vars[k := v], false)
      case Malformed => Load(s.vars, true)
  }

  /** The loop over the parsed lines, from state s. */
  function Fold(s: Load, lines: seq<Line>): Load {
    if lines == [] then s else Step(Fold(s, lines[..|lines| - 1]), lines[|lines| - 1])
  }

  /** The value the last assignment of k among the lines gives, if any. */
  function Latest(lines: seq<Line>, k: string): Option<string> {
    if lines == [] then None
    else
      var last := lines[|lines| - 1];
      if last.Assign? && last.key == k then Some(last.value) else Latest(lines[..|lines| - 1], k)
  }

  function IsMalformed(line: Line): bool {
    line.Malformed?
  }

  /** Python truthiness of an optional string argument. */
  predicate Truthy(x: Option<string>) {
    x.Some? && x.value != ""
  }

  /** The variables set_telegram_env_vars sets. */
  function Provided(botToken: Option<string>, channelId: Option<string>): map<string, string> {
    (if Truthy(botToken) then map["TELEGRAM_BOT_TOKEN" := botToken.value] else map[])
    + (if Truthy(channelId) then map["TELEGRAM_CHANNEL_ID" := channelId.value] else map[])
  }

  /** os.environ. */
  class Environment {
    var vars: map<string, string>

    constructor (initial: map<string, string>)
      ensures vars == initial
    {
      vars := initial;
    }

    /** load_environment_variables: Some(found) when it returns, None when a
        line without '=' makes it raise, with the earlier lines applied. */
    method LoadEnvironmentVariables(found: bool, lines: seq<string>) returns (result: Option<bool>)
      modifies this
      ensures !found ==> result == Some(false) && vars == old(vars)
      ensures found ==> vars == Fold(Load(old(vars), false), Parsed(lines)).vars
      ensures found ==> (result.None? <==> Fold(Load(old(vars), false), Parsed(lines)).raised)
      ensures found && !Fold(Load(old(vars), false), Parsed(lines)).raised ==> result == Some(true)
    {
      if !found {
        return Some(false);
      }
      ghost var parsed := Parsed(lines);
      ghost var start := Load(vars, false);
      for i := 0 to |lines|
        invariant Fold(start, parsed[..i]) == Load(vars, false)
      {
        FoldSnoc(start, parsed, i);
        var ok := ApplyLine(lines[i]);
        if !ok {
          FoldAfterRaise(start, parsed, i);
          return None;
        }
      }
      assert parsed[..|lines|] == parsed;
      return Some(true);
    }

    /** One pass of the loop: strip the line, then skip it, fail on it, or
        assign what its split gives; false when there is no '='. */
    method ApplyLine(raw: string) returns (ok: bool)
      modifies this
      ensures Step(Load(old(vars), false), ParseLine(raw)) == Load(vars, !ok)
    {
      var line := Strip(raw);
      match Parse(line) {
        case Skip =>
          return true;
        case Malformed =>
          return false;
        case Assign(key, value) =>
          vars := vars[key := value];
          return true;
      }
    }

    /** set_telegram_env_vars: each variable is set only when its argument
        is truthy. */
    method SetTelegramEnvVars(botToken: Option<string>, channelId: Option<string>)
      modifies this
      ensures vars == old(vars) + Provided(botToken, channelId)
    {
      if Truthy(botToken) {
        vars := vars["TELEGRAM_BOT_TOKEN" := botToken.value];
      }
      if Truthy(channelId) {
        vars := vars["TELEGRAM_CHANNEL_ID" := channelId.value];
      }
    }
  }

  // Properties

  lemma {:induction false} FoldAppend(s: Load, a: seq<Line>, b: seq<Line>)
    ensures Fold(s, a + b) == Fold(Fold(s, a), b)
    decreases |b|
  {
    if b == [] {
      assert a + b == a;
    } else {
      assert (a + b)[..|a + b| - 1] == a + b[..|b| - 1];
      FoldAppend(s, a, b[..|b| - 1]);
    }
  }

  lemma FoldSnoc(s: Load, lines: seq<Line>, i: nat)
    requires i < |lines|
    ensures Fold(s, lines[..i + 1]) == Step(Fold(s, lines[..i]), lines[i])
  {
    assert lines[..i + 1][..i] == lines[..i];
  }

  /** A raise at line i leaves the state of the first i + 1 lines final. */
  lemma FoldAfterRaise(s: Load, lines: seq<Line>, i: nat)
    requires i < |lines| && Fold(s, lines[..i + 1]).raised
    ensures Fold(s, lines) == Fold(s, lines[..i + 1])
  {
    var head, tail := lines[..i + 1], lines[i + 1..];
    SplitAt(lines, i + 1);
    FoldAppend(s, head, tail);
    FoldRaised(Fold(s, head).vars, tail);
  }

  /** Once raised, no further line changes anything. */
  lemma {:induction false} FoldRaised(vars: map<string, string>, lines: seq<Line>)
    ensures Fold(Load(vars, true), lines) == Load(vars, true)
    decreases |lines|
  {
    if lines != [] {
      FoldRaised(vars, lines[..|lines| - 1]);
    }
  }

  /** Blank and comment lines are skipped; a line without '=' is an error;
      any other line is split at its first '=', so the value may hold more
      of them, and key and value are stripped. */
  lemma ParseSpec(t: string)
    ensures Parse(t).Skip? <==> t == [] || t[0] == '#'
    ensures Parse(t).Malformed? <==> t != [] && t[0] != '#' && '=' !in t
    ensures Parse(t).Assign? ==>
      exists i :: 0 <= i < |t| && t[i] == '=' && '=' !in t[..i]
        && Parse(t).key == Strip(t[..i]) && Parse(t).value == Strip(t[i + 1..])
  {
    if Parse(t).Assign? {
      var i := FirstIn(t, {'='});
      assert '=' !in t[..i] by {
        forall j | 0 <= j < i ensures t[..i][j] != '=' {
          assert t[..i][j] == t[j];
        }
      }
    }
  }

  /** The loop raises exactly when some line lacks '='. */
  lemma {:induction false} FoldRaises(env: map<string, string>, lines: seq<Line>)
    ensures Fold(Load(env, false), lines).raised <==> exists i :: 0 <= i < |lines| && IsMalformed(lines[i])
    decreases |lines|
  {
    if lines != [] {
      var init := lines[..|lines| - 1];
      FoldRaises(env, init);
      assert forall i :: 0 <= i < |init| ==> init[i] == lines[i];
    }
  }

  /** After the first line that lacks '=' nothing more is assigned: the
      environment holds the assignments of the lines before it. */
  lemma FoldStops(env: map<string, string>, lines: seq<Line>)
    requires First(lines, IsMalformed).Some?
    ensures Fold(Load(env, false), lines).vars == Fold(Load(env, false), lines[..First(lines, IsMalformed).value]).vars
  {
    var n := First(lines, IsMalformed).value;
    var before := Fold(Load(env, false), lines[..n]);
    assert lines == lines[..n] + ([lines[n]] + lines[n + 1..]);
    FoldAppend(Load(env, false), lines[..n], [lines[n]] + lines[n + 1..]);
    FoldRaises(env, lines[..n]);
    FoldAppend(before, [lines[n]], lines[n + 1..]);
    assert [lines[n]][..0] == [];
    FoldRaised(before.vars, lines[n + 1..]);
  }

  /** Without a line lacking '=', the last assignment of a key wins, and a
      key no line assigns keeps its value or stays absent. */
  lemma {:induction false} FoldLookup(env: map<string, string>, lines: seq<Line>, k: string)
    requires forall i :: 0 <= i < |lines| ==> !IsMalformed(lines[i])
    ensures !Fold(Load(env, false), lines).raised
    ensures k in Fold(Load(env, false), lines).vars <==> k in env || Latest(lines, k).Some?
    ensures k in Fold(Load(env, false), lines).vars ==>
      Fold(Load(env, false), lines).vars[k] == if Latest(lines, k).Some? then Latest(lines, k).value else env[k]
    decreases |lines|
  {
    if lines != [] {
      var init := lines[..|lines| - 1];
      assert forall i :: 0 <= i < |init| ==> init[i] == lines[i];
      FoldLookup(env, init, k);
    }
  }
}

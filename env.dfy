/**
 * `loadEnv` (app.js): the lines of the `.env` file copied into the process
 * environment as `KEY=value` pairs, with blank lines and `#` comments
 * skipped.
 */
module Env {
  import opened Wrappers
  import opened JsStrings

  datatype Binding = Binding(key: string, value: string)

  /**
   * One line of the file: trimmed; nothing for a blank line or one whose
   * first character is `#`;
   * otherwise the text before the first `=` is the key and everything after
   * it, further `=` signs included, is the value, both trimmed.
   */
  function ParseLine(rawLine: string): (r: Option<Binding>)
    ensures r.None? <==> Trim(rawLine) == [] || Trim(rawLine)[0] == '#'
    ensures r.Some? ==> '=' !in r.value.key
  {
    var line := Trim(rawLine);
    if line == [] || line[0] == '#' then None
    else
      var parts := Split(line, '=');
      assert '=' !in parts[0];
      TrimKeepsOut(parts[0], '=');
      Some(Binding(Trim(parts[0]), Trim(Join(parts[1..], '='))))
  }

  /** Key and value come out trimmed: trimming them again changes nothing. */
  lemma BindingTrimmed(rawLine: string)
    requires ParseLine(rawLine).Some?
    ensures Trim(ParseLine(rawLine).value.key) == ParseLine(rawLine).value.key
    ensures Trim(ParseLine(rawLine).value.value) == ParseLine(rawLine).value.value
  {
    var parts := Split(Trim(rawLine), '=');
    TrimIdempotent(parts[0]);
    TrimIdempotent(Join(parts[1..], '='));
  }

  /** The parsed form of each line, in file order. */
  function ParsedLines(lines: seq<string>): (bs: seq<Option<Binding>>)
    ensures |bs| == |lines|
    ensures forall j :: 0 <= j < |lines| ==> bs[j] == ParseLine(lines[j])
  {
    seq(|lines|, j requires 0 <= j < |lines| => ParseLine(lines[j]))
  }

  /**
   * `process.env[name] = value`: the variable is set, except that an empty
   * name is refused by the operating system's `setenv` and the refusal is
   * not reported, so nothing changes.
   */
  function SetEnv(env: map<string, string>, name: string, value: string): (r: map<string, string>)
    ensures name == "" ==> r == env
    ensures name != "" ==> name in r && r[name] == value
    ensures forall k :: k != name ==> (k in r <==> k in env)
    ensures forall k :: k != name && k in env ==> r[k] == env[k]
  {
    if name == "" then env else env[name := value]
  }

  /** The assignment a parsed line makes, when it binds something. */
  function Assign(env: map<string, string>, b: Option<Binding>): (r: map<string, string>)
    ensures b.None? || b.value.key == "" ==> r == env
    ensures b.Some? && b.value.key != "" ==> b.value.key in r && r[b.value.key] == b.value.value
    ensures forall k :: (b.None? || k != b.value.key) ==> (k in r <==> k in env)
    ensures forall k :: (b.None? || k != b.value.key) && k in env ==> r[k] == env[k]
  {
    match b
    case None => env
    case Some(x) => SetEnv(env, x.key, x.value)
  }

  /** The bindings written in turn. */
  function ApplyBindings(env: map<string, string>, bs: seq<Option<Binding>>): (r: map<string, string>)
    ensures env.Keys <= r.Keys
  {
    if bs == [] then env
    else Assign(ApplyBindings(env, bs[..|bs| - 1]), bs[|bs| - 1])
  }

  /** The environment after the lines of a file, in file order. */
  function ApplyLines(env: map<string, string>, lines: seq<string>): (r: map<string, string>)
    ensures env.Keys <= r.Keys
  {
    ApplyBindings(env, ParsedLines(lines))
  }

  /** One more line of the file is one more assignment. */
  lemma ApplyLinesStep(env: map<string, string>, lines: seq<string>, i: nat)
    requires i < |lines|
    ensures ApplyLines(env, lines[..i + 1]) == Assign(ApplyLines(env, lines[..i]), ParseLine(lines[i]))
  {
    assert lines[..i + 1][..i] == lines[..i];
    var bs := ParsedLines(lines[..i + 1]);
    assert bs[..i] == ParsedLines(lines[..i]);
    assert bs[i] == ParseLine(lines[i]);
  }

  /** A key no binding names keeps its value, or stays absent. */
  lemma {:induction false} UnboundKept(env: map<string, string>, bs: seq<Option<Binding>>, key: string)
    requires forall j :: 0 <= j < |bs| ==> bs[j].None? || bs[j].value.key != key
    ensures key in ApplyBindings(env, bs) <==> key in env
    ensures key in env ==> ApplyBindings(env, bs)[key] == env[key]
  {
    if bs != [] {
      var init := bs[..|bs| - 1];
      assert forall j :: 0 <= j < |init| ==> init[j] == bs[j];
      UnboundKept(env, init, key);
    }
  }

  /** The empty name is never set. */
  lemma {:induction false} EmptyNameUnset(env: map<string, string>, bs: seq<Option<Binding>>)
    ensures "" in ApplyBindings(env, bs) <==> "" in env
    ensures "" in env ==> ApplyBindings(env, bs)[""] == env[""]
  {
    if bs != [] {
      EmptyNameUnset(env, bs[..|bs| - 1]);
    }
  }

  /** The last binding of a named key decides its value. */
  lemma {:induction false} LastWins(env: map<string, string>, bs: seq<Option<Binding>>, j: nat)
    requires j < |bs| && bs[j].Some?
    requires bs[j].value.key != ""
    requires forall j' :: j < j' < |bs| ==> bs[j'].None? || bs[j'].value.key != bs[j].value.key
    ensures bs[j].value.key in ApplyBindings(env, bs)
    ensures ApplyBindings(env, bs)[bs[j].value.key] == bs[j].value.value
  {
    var init := bs[..|bs| - 1];
    if j < |bs| - 1 {
      assert init[j] == bs[j];
      forall j' | j < j' < |init| ensures init[j'].None? || init[j'].value.key != bs[j].value.key {
        assert init[j'] == bs[j'];
      }
      LastWins(env, init, j);
    }
  }

  predicate Binds(line: string, key: string)
  {
    ParseLine(line).Some? && ParseLine(line).value.key == key
  }

  /** The trailing `=`-pair of a line is found whatever spaces surround it, and `=` signs in the value survive. */
  lemma LineBinding(line: string, k: string, v: string)
    requires Trim(line) == k + "=" + v
    requires '=' !in k
    requires k == [] || k[0] != '#'
    ensures ParseLine(line) == Some(Binding(Trim(k), Trim(v)))
  {
    var t := Trim(line);
    assert t == k + ['='] + v;
    assert t[0] != '#' by {
      if k == [] {
        assert t[0] == '=';
      } else {
        assert t[0] == k[0];
      }
    }
    SplitAtFirst(k, v, '=');
    var parts := Split(t, '=');
    assert parts == [k] + Split(v, '=');
    assert parts[0] == k;
    assert parts[1..] == Split(v, '=');
    SplitJoin(v, '=');
    assert Join(parts[1..], '=') == v;
  }

  /** A line without `=` binds its whole trimmed text to the empty value. */
  lemma NoEqualsLine(line: string)
    requires Trim(line) != []
    requires Trim(line)[0] != '#'
    requires '=' !in Trim(line)
    ensures ParseLine(line) == Some(Binding(Trim(line), ""))
  {
    var t := Trim(line);
    SplitWithoutSeparator(t, '=');
    TrimIdempotent(line);
    assert Split(t, '=')[1..] == [];
  }

  /** Comment lines and blank lines bind nothing. */
  lemma CommentLine(line: string)
    requires Trim(line) == [] || StartsWith(Trim(line), "#")
    ensures ParseLine(line) == None
  {
    var t := Trim(line);
    if t != [] {
      assert t[0] == t[..1][0];
    }
  }

  /** A key bound by no line keeps the value it had, or stays absent. */
  lemma UnboundKeyKept(env: map<string, string>, lines: seq<string>, key: string)
    requires forall j :: 0 <= j < |lines| ==> !Binds(lines[j], key)
    ensures key in ApplyLines(env, lines) <==> key in env
    ensures key in env ==> ApplyLines(env, lines)[key] == env[key]
  {
    UnboundKept(env, ParsedLines(lines), key);
  }

  /** The last line that binds a key decides its value: later lines override earlier ones. */
  lemma LastBindingWins(env: map<string, string>, lines: seq<string>, j: nat, v: string)
    requires j < |lines|
    requires ParseLine(lines[j]).Some? && ParseLine(lines[j]).value.value == v
    requires forall j' :: j < j' < |lines| ==> !Binds(lines[j'], ParseLine(lines[j]).value.key)
    ensures ParseLine(lines[j]).value.key != "" ==>
              ParseLine(lines[j]).value.key in ApplyLines(env, lines)
              && ApplyLines(env, lines)[ParseLine(lines[j]).value.key] == v
    ensures ParseLine(lines[j]).value.key == "" ==> ("" in ApplyLines(env, lines) <==> "" in env)
  {
    var bs := ParsedLines(lines);
    var key := ParseLine(lines[j]).value.key;
    if key != "" {
      forall j' | j < j' < |bs| ensures bs[j'].None? || bs[j'].value.key != bs[j].value.key {
        assert !Binds(lines[j'], key);
      }
      LastWins(env, bs, j);
    } else {
      EmptyNameUnset(env, ParsedLines(lines));
    }
  }

  /** The process environment, which `loadEnv` updates in place. */
  class Environment {
    var vars: map<string, string>

    constructor(initial: map<string, string>)
      ensures vars == initial
    {
      vars := initial;
    }

    /**
     * `loadEnv`: `file` is the text of `.env`, or `None` when it cannot be
     * read, in which case the error is swallowed and nothing changes.
     */
    method LoadEnv(file: Option<string>)
      modifies this
      ensures file.None? ==> vars == old(vars)
      ensures file.Some? ==> vars == ApplyLines(old(vars), Split(file.value, '\n'))
    {
      if file.None? {
        return;
      }
      var lines := Split(file.value, '\n');
      var i := 0;
      while i < |lines|
        invariant 0 <= i <= |lines|
        invariant vars == ApplyLines(old(vars), lines[..i])
      {
        ApplyLinesStep(old(vars), lines, i);
        var line := Trim(lines[i]);
        if line != [] && line[0] != '#' {
          var parts := Split(line, '=');
          var key := parts[0];
          var value := Trim(Join(parts[1..], '='));
          vars := SetEnv(vars, Trim(key), value);
        }
        i := i + 1;
      }
      assert lines[..i] == lines;
    }
  }
}

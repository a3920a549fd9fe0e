/**
 * `parseEnvLines` of the MCP page: a `KEY=VALUE` block, one variable per
 * line, becomes an environment map. Blank lines and `#` comments are
 * skipped, each line is split on its FIRST `=`, key and value are trimmed,
 * a line without `=` or starting with `=` is dropped, and a later line for
 * the same key overwrites an earlier one.
 *
 * The map is a plain JavaScript object, so the key `__proto__` is never
 * stored: assigning to it goes to the prototype setter, which ignores a
 * string value.
 */
module EnvLines {
  import opened Wrappers
  import opened Text

  type Env = map<string, string>

  /** The one key a plain object does not store as its own property. */
  const ProtoKey: string := "__proto__"

  /** `env[key] = value` on a plain object. */
  function Assign(env: Env, key: string, value: string): (r: Env)
    ensures key != ProtoKey ==> r == env[key := value]
    ensures key == ProtoKey ==> r == env
  {
    if key == ProtoKey then env else env[key := value]
  }

  /** The (key, value) one line contributes, if any. */
  function EnvEntry(line: string): (r: Option<(string, string)>)
    ensures r.Some? ==> r.value.0 != [] && '=' !in r.value.0
  {
    var trimmed := Trim(line);
    if trimmed == [] || trimmed[0] == '#' then None
    else
      var idx := IndexOf(trimmed, '=');
      if idx > 0 then
        assert !Blank(trimmed[..idx]) by { assert !IsSpace(trimmed[..idx][0]); }
        TrimEmptyIffBlank(trimmed[..idx]);
        TrimWithin(trimmed[..idx]);
        Some((Trim(trimmed[..idx]), Trim(trimmed[idx + 1..])))
      else None
  }

  /** What each line contributes, in order. */
  function Entries(lines: seq<string>): (es: seq<Option<(string, string)>>)
    ensures |es| == |lines|
  {
    MapSeq(EnvEntry, lines)
  }

  function MapSeq<A, B>(f: A -> B, xs: seq<A>): (ys: seq<B>)
    ensures |ys| == |xs| && forall i :: 0 <= i < |xs| ==> ys[i] == f(xs[i])
  {
    seq(|xs|, i requires 0 <= i < |xs| => f(xs[i]))
  }

  lemma MapSeqConcat<A, B>(f: A -> B, a: seq<A>, b: seq<A>)
    ensures MapSeq(f, a + b) == MapSeq(f, a) + MapSeq(f, b)
  {
  }

  /** The environment built from `lines`, first to last. */
  function ParseEnv(lines: seq<string>): Env {
    Collect(Entries(lines))
  }

  /** What `parseEnvLines(text)` returns. */
  function ParseEnvText(text: string): Env {
    if text == [] then map[] else ParseEnv(Split(text, '\n'))
  }

  /** The loop of `parseEnvLines`, filling `env` line by line. */
  method ParseEnvLines(text: string) returns (env: Env)
    ensures env == ParseEnvText(text)
  {
    env := map[];
    if text == [] {
      return;
    }
    var lines := Split(text, '\n');
    for i := 0 to |lines|
      invariant env == ParseEnv(lines[..i])
    {
      ParseEnvSnoc(lines, i);
      ghost var next := Step(env, lines[i]);
      ghost var e := EnvEntry(lines[i]);
      var trimmed := Trim(lines[i]);
      if trimmed == [] || trimmed[0] == '#' {
        assert e == None;
        assert env == next;
        continue;
      }
      var idx := IndexOf(trimmed, '=');
      if idx > 0 {
        var key, value := Trim(trimmed[..idx]), Trim(trimmed[idx + 1..]);
        assert e == Some((key, value));
        if key != ProtoKey {
          env := env[key := value];
        }
        assert env == next;
      } else {
        assert e == None;
        assert env == next;
      }
    }
    assert lines[..|lines|] == lines;
  }

  /** The map after one more line: updated with that line's entry, if it has one. */
  function Step(env: Env, line: string): Env {
    match EnvEntry(line)
    case None => env
    case Some(kv) => Assign(env, kv.0, kv.1)
  }

  /** One more line updates the map with that line's entry, if it has one. */
  lemma ParseEnvSnoc(lines: seq<string>, i: nat)
    requires i < |lines|
    ensures ParseEnv(lines[..i + 1]) == Step(ParseEnv(lines[..i]), lines[i])
  {
    var es := Entries(lines[..i + 1]);
    assert lines[..i + 1] == lines[..i] + [lines[i]];
    MapSeqConcat(EnvEntry, lines[..i], [lines[i]]);
    assert MapSeq(EnvEntry, [lines[i]]) == [EnvEntry(lines[i])];
    assert es[..i] == Entries(lines[..i]);
    assert es[i] == EnvEntry(lines[i]);
  }

  // -----------------------------------------------------------------------
  // Building the map from a sequence of entries

  predicate HasKey(e: Option<(string, string)>, key: string) {
    e.Some? && e.value.0 == key
  }

  /** Entries applied first to last, a later key overwriting an earlier one. */
  function Collect(es: seq<Option<(string, string)>>): Env
    decreases |es|
  {
    if es == [] then map[]
    else
      var env := Collect(es[..|es| - 1]);
      match es[|es| - 1]
      case None => env
      case Some(kv) => Assign(env, kv.0, kv.1)
  }

  lemma {:induction false} CollectKeys(es: seq<Option<(string, string)>>, key: string)
    ensures key in Collect(es) <==> key != ProtoKey && exists i :: 0 <= i < |es| && HasKey(es[i], key)
    decreases |es|
  {
    if es != [] {
      var init := es[..|es| - 1];
      CollectKeys(init, key);
      assert forall i :: 0 <= i < |init| ==> init[i] == es[i];
    }
  }

  lemma {:induction false} CollectLastWins(es: seq<Option<(string, string)>>, i: nat, key: string)
    requires i < |es| && HasKey(es[i], key) && key != ProtoKey
    requires forall j :: i < j < |es| ==> !HasKey(es[j], key)
    ensures key in Collect(es) && Collect(es)[key] == es[i].value.1
    decreases |es|
  {
    var init := es[..|es| - 1];
    if i < |es| - 1 {
      forall j | i < j < |init| ensures !HasKey(init[j], key) {
        assert init[j] == es[j];
      }
      assert init[i] == es[i];
      CollectLastWins(init, i, key);
    }
  }

  lemma {:induction false} CollectSkipsNone(before: seq<Option<(string, string)>>, after: seq<Option<(string, string)>>)
    ensures Collect(before + [None] + after) == Collect(before + after)
    decreases |after|
  {
    if after == [] {
      assert (before + [None])[..|before|] == before;
      assert before + [None] + after == before + [None];
      assert before + after == before;
    } else {
      var init := after[..|after| - 1];
      CollectSkipsNone(before, init);
      assert (before + [None] + after)[..|before + [None] + after| - 1] == before + [None] + init;
      assert (before + after)[..|before + after| - 1] == before + init;
    }
  }

  // -----------------------------------------------------------------------
  // Properties

  predicate Defines(line: string, key: string) {
    HasKey(EnvEntry(line), key)
  }

  /** Every key of the result is non-empty, contains no `=` and is not `__proto__`. */
  lemma KeysNonEmpty(lines: seq<string>)
    ensures forall k :: k in ParseEnv(lines) ==> k != [] && '=' !in k && k != ProtoKey
  {
    var es := Entries(lines);
    forall k | k in ParseEnv(lines) ensures k != [] && '=' !in k && k != ProtoKey {
      CollectKeys(es, k);
      var i :| 0 <= i < |es| && HasKey(es[i], k);
      assert es[i] == EnvEntry(lines[i]);
    }
  }

  /** A key is present exactly when some line defines it and it is not `__proto__`. */
  lemma KeyPresentIffDefined(lines: seq<string>, key: string)
    ensures key in ParseEnv(lines) <==> key != ProtoKey && exists i :: 0 <= i < |lines| && Defines(lines[i], key)
  {
    var es := Entries(lines);
    CollectKeys(es, key);
    assert forall i :: 0 <= i < |lines| ==> es[i] == EnvEntry(lines[i]);
  }

  /** The value of a key is the one on the LAST line that defines it; a
      `__proto__` line, however placed, leaves no key. */
  lemma LastDefinitionWins(lines: seq<string>, i: nat, key: string)
    requires i < |lines| && Defines(lines[i], key)
    requires forall j :: i < j < |lines| ==> !Defines(lines[j], key)
    ensures key != ProtoKey ==> key in ParseEnv(lines) && ParseEnv(lines)[key] == EnvEntry(lines[i]).value.1
    ensures key == ProtoKey ==> key !in ParseEnv(lines)
  {
    var es := Entries(lines);
    assert forall j :: 0 <= j < |lines| ==> es[j] == EnvEntry(lines[j]);
    if key != ProtoKey {
      CollectLastWins(es, i, key);
    } else {
      CollectKeys(es, key);
    }
  }

  /** A line that defines nothing (blank, a comment, no `=`, `=` first) can be
      removed from anywhere without changing the result. */
  lemma InertLineContributesNothing(before: seq<string>, line: string, after: seq<string>)
    requires EnvEntry(line) == None
    ensures ParseEnv(before + [line] + after) == ParseEnv(before + after)
  {
    assert MapSeq(EnvEntry, [line]) == [None];
    MapSeqConcat(EnvEntry, before + [line], after);
    MapSeqConcat(EnvEntry, before, [line]);
    MapSeqConcat(EnvEntry, before, after);
    CollectSkipsNone(Entries(before), Entries(after));
  }

  /** A line is skipped exactly when it is blank, a comment, has no `=`, or has
      `=` as its first non-blank character. */
  lemma SkippedLines(line: string)
    ensures EnvEntry(line) == None <==>
      var t := Trim(line);
      t == [] || t[0] == '#' || '=' !in t || t[0] == '='
    ensures Blank(line) ==> EnvEntry(line) == None
  {
    var t := Trim(line);
    TrimEmptyIffBlank(line);
    if t != [] && t[0] != '#' && '=' in t && t[0] != '=' {
      assert IndexOf(t, '=') != 0;
    }
  }

  predicate WellFormedKey(k: string) {
    k != [] && '=' !in k && '\n' !in k && k[0] != '#' && !IsSpace(k[0]) && !IsSpace(k[|k| - 1])
  }

  predicate WellFormedValue(v: string) {
    '\n' !in v && (v == [] || (!IsSpace(v[0]) && !IsSpace(v[|v| - 1])))
  }

  /** A line `K=V` reads back as (K, V): the split is on the first `=`, so the
      value may itself contain `=`. */
  lemma EntryOfAssignment(k: string, v: string)
    requires WellFormedKey(k) && WellFormedValue(v)
    ensures EnvEntry(k + "=" + v) == Some((k, v))
  {
    var line := k + "=" + v;
    assert line[0] == k[0];
    assert line[|line| - 1] == if v == [] then '=' else v[|v| - 1];
    TrimOfTrimmed(line);
    IndexOfAfterPrefix(k, '=', v);
    assert line[..|k|] == k;
    assert line[|k| + 1..] == v;
    TrimOfTrimmed(k);
    TrimOfTrimmed(v);
  }

  /** Whitespace around the key and around the value is trimmed away:
      `a K b = c V d` reads back as (K, V) for any whitespace a, b, c, d. */
  lemma PaddedAssignment(a: string, k: string, b: string, c: string, v: string, d: string)
    requires Blank(a) && Blank(b) && Blank(c) && Blank(d)
    requires WellFormedKey(k) && WellFormedValue(v)
    ensures EnvEntry(a + k + b + "=" + c + v + d) == Some((k, v))
  {
    var line := a + k + b + "=" + c + v + d;
    var right := if v == [] then [] else c + v;
    PaddedTrim(a, k, b, c, v, d);
    assert '=' !in k + b by {
      forall i | 0 <= i < |b| ensures b[i] != '=' { assert IsSpace(b[i]); }
    }
    assert (k + b)[0] == k[0];
    TrimPadded([], k, b);
    assert [] + k + b == k + b;
    if v != [] {
      TrimPadded(c, v, []);
      assert c + v + [] == c + v;
    }
    EntryOfSplit(line, k + b, right);
  }

  /** The trimmed padded line: the key with its trailing blank, `=`, then the
      value with its leading blank (none when the value is empty). */
  lemma PaddedTrim(a: string, k: string, b: string, c: string, v: string, d: string)
    requires Blank(a) && Blank(b) && Blank(c) && Blank(d)
    requires WellFormedKey(k) && WellFormedValue(v)
    ensures Trim(a + k + b + "=" + c + v + d) == k + b + "=" + (if v == [] then [] else c + v)
  {
    var head := k + b + "=";
    assert head[0] == k[0];
    if v == [] {
      BlankConcat(c, d);
      assert a + k + b + "=" + c + v + d == a + head + (c + d);
      TrimPadded(a, head, c + d);
      assert head + [] == head;
    } else {
      var t := head + (c + v);
      assert t[0] == k[0] && t[|t| - 1] == v[|v| - 1];
      assert a + k + b + "=" + c + v + d == a + t + d;
      TrimPadded(a, t, d);
    }
  }

  /** A line whose trimmed text is `left=right`, with `left` free of `=` and
      starting with neither whitespace nor `#`, gives the trimmed halves. */
  lemma EntryOfSplit(line: string, left: string, right: string)
    requires Trim(line) == left + "=" + right
    requires '=' !in left && left != [] && !IsSpace(left[0]) && left[0] != '#'
    ensures EnvEntry(line) == Some((Trim(left), Trim(right)))
  {
    var t := Trim(line);
    assert t == left + ['='] + right;
    IndexOfAfterPrefix(left, '=', right);
    assert t[..|left|] == left;
    assert t[|left| + 1..] == right;
  }

  /** The `KEY=` placeholder line pre-seeded for each declared variable. */
  function Placeholders(keys: seq<string>): (lines: seq<string>)
    ensures |lines| == |keys|
  {
    seq(|keys|, i requires 0 <= i < |keys| => keys[i] + "=")
  }

  lemma {:induction false} CollectPlaceholders(keys: seq<string>, es: seq<Option<(string, string)>>)
    requires |es| == |keys|
    requires forall i :: 0 <= i < |keys| ==> es[i] == Some((keys[i], ""))
    ensures Collect(es) == map k | k in keys && k != ProtoKey :: ""
    decreases |keys|
  {
    if keys != [] {
      var n := |keys| - 1;
      CollectPlaceholders(keys[..n], es[..n]);
      assert forall k :: k in keys <==> k in keys[..n] || k == keys[n];
      if keys[n] == ProtoKey {
        assert (map k | k in keys[..n] && k != ProtoKey :: "") == map k | k in keys && k != ProtoKey :: "";
      } else {
        assert (map k | k in keys[..n] && k != ProtoKey :: "")[keys[n] := ""] == map k | k in keys && k != ProtoKey :: "";
      }
    }
  }

  lemma ParsePlaceholderLines(keys: seq<string>)
    requires forall i :: 0 <= i < |keys| ==> WellFormedKey(keys[i])
    ensures ParseEnv(Placeholders(keys)) == map k | k in keys && k != ProtoKey :: ""
  {
    var lines := Placeholders(keys);
    var es := Entries(lines);
    forall i | 0 <= i < |keys| ensures es[i] == Some((keys[i], "")) {
      EntryOfAssignment(keys[i], "");
      assert keys[i] + "=" + "" == lines[i];
    }
    CollectPlaceholders(keys, es);
  }

  /** The pre-seeded environment block of a catalogue entry parses to every
      declared key (but `__proto__`) with an empty value. */
  lemma PlaceholderBlockParses(keys: seq<string>)
    requires forall i :: 0 <= i < |keys| ==> WellFormedKey(keys[i])
    ensures ParseEnvText(Join(Placeholders(keys), '\n')) == map k | k in keys && k != ProtoKey :: ""
  {
    var lines := Placeholders(keys);
    if keys == [] {
      assert (map k | k in keys && k != ProtoKey :: "") == map[];
    } else {
      assert lines[0] == keys[0] + "=";
      forall i | 0 <= i < |lines| ensures '\n' !in lines[i] {
        assert lines[i] == keys[i] + "=";
      }
      SplitJoin(lines, '\n');
      assert Join(lines, '\n') != [] by {
        if |lines| == 1 { assert Join(lines, '\n') == lines[0]; }
      }
      ParsePlaceholderLines(keys);
    }
  }

  /** `parseEnvLines` of an empty block is the empty map. */
  lemma EmptyText()
    ensures ParseEnvText("") == map[]
  {
  }
}

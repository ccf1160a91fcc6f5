/** Placeholder substitution in webhook bodies: `render_template` of `crates/core/src/webhook.rs`. */
module Templates {

  function Placeholder(key: string): (r: string)
    ensures |r| == |key| + 4
  {
    "{{" + key + "}}"
  }

  predicate StartsWith(s: string, pat: string) {
    |pat| <= |s| && s[..|pat|] == pat
  }

  /** `str::replace`: every non-overlapping occurrence of `pat`, found from the left, becomes `v`. */
  function Replace(s: string, pat: string, v: string): string
    requires pat != ""
    decreases |s|
  {
    if StartsWith(s, pat) then v + Replace(s[|pat|..], pat, v)
    else if s == "" then ""
    else [s[0]] + Replace(s[1..], pat, v)
  }

  /** One replacement pass for each key, in the order given. */
  function Rendered(template: string, keys: seq<string>, vars: map<string, string>): string
    requires forall k :: k in keys ==> k in vars
  {
    if keys == [] then template
    else
      var n := |keys| - 1;
      Replace(Rendered(template, keys[..n], vars), Placeholder(keys[n]), vars[keys[n]])
  }

  /** `keys` lists the keys of `vars` in the map's iteration order. */
  method RenderTemplate(template: string, keys: seq<string>, vars: map<string, string>) returns (out: string)
    requires forall k :: k in keys ==> k in vars
    ensures out == Rendered(template, keys, vars)
  {
    out := template;
    for i := 0 to |keys|
      invariant out == Rendered(template, keys[..i], vars)
    {
      assert keys[..i + 1][..i] == keys[..i];
      out := Replace(out, Placeholder(keys[i]), vars[keys[i]]);
    }
    assert keys[..|keys|] == keys;
  }

  // ---------------------------------------------------------------- templates as tokens

  datatype Token = Ch(c: char) | Hole(name: string)

  predicate BraceFree(s: string) {
    '{' !in s && '}' !in s
  }

  function TextOf(t: Token): (r: string)
    ensures r != ""
  {
    if t.Ch? then [t.c] else Placeholder(t.name)
  }

  function Text(ts: seq<Token>): string {
    if ts == [] then "" else TextOf(ts[0]) + Text(ts[1..])
  }

  /** Names carry no braces and the literal text between holes contains no double brace. */
  predicate Clean(ts: seq<Token>) {
    ts != [] ==>
      && (ts[0].Hole? ==> BraceFree(ts[0].name))
      && !(ts[0] == Ch('{') && |ts| > 1 && ts[1] == Ch('{'))
      && Clean(ts[1..])
  }

  function Chars(s: string): seq<Token> {
    if s == "" then [] else [Ch(s[0])] + Chars(s[1..])
  }

  /** All holes at once: a known name becomes its value, an unknown one stays as it is. */
  function Substitute(ts: seq<Token>, vars: map<string, string>): string {
    if ts == [] then ""
    else
      (if ts[0].Hole? && ts[0].name in vars then vars[ts[0].name] else TextOf(ts[0])) + Substitute(ts[1..], vars)
  }

  /** The tokens after the pass for one key. */
  function Filled(ts: seq<Token>, key: string, v: string): seq<Token> {
    if ts == [] then []
    else (if ts[0] == Hole(key) then Chars(v) else [ts[0]]) + Filled(ts[1..], key, v)
  }

  // ---------------------------------------------------------------- one pass

  lemma {:induction false} PrefixAt(s: string, pat: string, i: nat)
    requires i < |pat| <= |s|
    ensures StartsWith(s, pat) ==> s[i] == pat[i]
  {
    assert s[..|pat|][i] == s[i];
  }

  lemma {:induction false} ReplaceSkips(a: string, b: string, pat: string, v: string)
    requires pat != "" && pat[0] !in a
    ensures Replace(a + b, pat, v) == a + Replace(b, pat, v)
  {
    if a == "" {
      assert a + b == b;
    } else {
      if |pat| <= |a + b| { PrefixAt(a + b, pat, 0); }
      assert a[0] in a;
      assert (a + b)[1..] == a[1..] + b;
      ReplaceSkips(a[1..], b, pat, v);
      assert [a[0]] + (a[1..] + Replace(b, pat, v)) == a + Replace(b, pat, v);
    }
  }

  lemma {:induction false} ReplaceStep(c: char, b: string, pat: string, v: string)
    requires pat != "" && !StartsWith([c] + b, pat)
    ensures Replace([c] + b, pat, v) == [c] + Replace(b, pat, v)
  {
    assert ([c] + b)[1..] == b;
  }

  lemma {:induction false} ReplaceHere(b: string, pat: string, v: string)
    requires pat != ""
    ensures Replace(pat + b, pat, v) == v + Replace(b, pat, v)
  {
    assert (pat + b)[..|pat|] == pat;
    assert (pat + b)[|pat|..] == b;
  }

  /** The first three characters of a placeholder: two opening braces and no third. */
  lemma {:induction false} PlaceholderHead(key: string)
    requires BraceFree(key)
    ensures Placeholder(key)[0] == '{' && Placeholder(key)[1] == '{' && Placeholder(key)[2] != '{'
  {
    if key != "" { assert key[0] in key; assert Placeholder(key)[2] == key[0]; }
  }

  /** A placeholder in the text starts only where a hole starts. */
  lemma {:induction false} NotAtChar(c: char, rest: seq<Token>, key: string)
    requires Clean([Ch(c)] + rest) && BraceFree(key)
    ensures !StartsWith([c] + Text(rest), Placeholder(key))
  {
    var s, pat := [c] + Text(rest), Placeholder(key);
    PlaceholderHead(key);
    if |pat| <= |s| {
      PrefixAt(s, pat, 0);
      PrefixAt(s, pat, 1);
      PrefixAt(s, pat, 2);
      assert ([Ch(c)] + rest)[1..] == rest;
      assert ([Ch(c)] + rest)[1] == rest[0];
      if rest[0].Ch? {
        assert s[1] == rest[0].c;
      } else {
        assert s[2] == Placeholder(rest[0].name)[1];
      }
    }
  }

  /** Two brace-free names followed by their closing braces agree as far as the first closing one. */
  lemma {:induction false} SameName(n: string, k: string, a: string, b: string)
    requires BraceFree(n) && BraceFree(k) && n + "}" + a == k + "}" + b
    ensures n == k
  {
    FirstBrace(n, a);
    FirstBrace(k, b);
    var s := n + "}" + a;
    assert |n| == |k|;
    assert s[..|n|] == n && (k + "}" + b)[..|k|] == k;
  }

  lemma {:induction false} FirstBrace(n: string, a: string)
    requires BraceFree(n)
    ensures (n + "}" + a)[|n|] == '}' && forall i :: 0 <= i < |n| ==> (n + "}" + a)[i] != '}'
  {
    forall i | 0 <= i < |n| ensures (n + "}" + a)[i] != '}' {
      assert n[i] in n;
    }
  }

  lemma {:induction false} NotAtOtherHole(name: string, b: string, key: string)
    requires BraceFree(name) && BraceFree(key) && name != key
    ensures !StartsWith(Placeholder(name) + b, Placeholder(key))
  {
    var s, pat := Placeholder(name) + b, Placeholder(key);
    if StartsWith(s, pat) {
      var tail := s[|pat|..];
      assert s == pat + tail;
      assert s[2..] == name + "}" + ("}" + b);
      assert (pat + tail)[2..] == key + "}" + ("}" + tail);
      SameName(name, key, "}" + b, "}" + tail);
    }
  }

  lemma {:induction false} NotAtSecondBrace(name: string, b: string, key: string)
    requires BraceFree(name) && BraceFree(key)
    ensures !StartsWith(['{'] + (name + "}}" + b), Placeholder(key))
  {
    var s, pat := ['{'] + (name + "}}" + b), Placeholder(key);
    PlaceholderHead(key);
    PlaceholderHead(name);
    assert Placeholder(name)[2] == s[1];
    if |pat| <= |s| { PrefixAt(s, pat, 1); }
  }

  lemma {:induction false} OtherHoleSurvives(name: string, b: string, key: string, v: string)
    requires BraceFree(name) && BraceFree(key) && name != key
    ensures Replace(Placeholder(name) + b, Placeholder(key), v) == Placeholder(name) + Replace(b, Placeholder(key), v)
  {
    var pat := Placeholder(key);
    var tail := name + "}}";
    PlaceholderHead(key);
    NotAtOtherHole(name, b, key);
    assert Placeholder(name) + b == ['{'] + (['{'] + (tail + b));
    ReplaceStep('{', ['{'] + (tail + b), pat, v);
    NotAtSecondBrace(name, b, key);
    ReplaceStep('{', tail + b, pat, v);
    ReplaceSkips(tail, b, pat, v);
    assert ['{'] + (['{'] + (tail + Replace(b, pat, v))) == Placeholder(name) + Replace(b, pat, v);
  }

  lemma {:induction false} TextJoin(a: seq<Token>, b: seq<Token>)
    ensures Text(a + b) == Text(a) + Text(b)
  {
    if a == [] {
      assert a + b == b;
    } else {
      assert (a + b)[1..] == a[1..] + b;
      TextJoin(a[1..], b);
    }
  }

  lemma {:induction false} CharsText(v: string)
    ensures Text(Chars(v)) == v
  {
    if v != "" {
      CharsText(v[1..]);
      assert Chars(v)[1..] == Chars(v[1..]);
    }
  }

  /** One `replace` call rewrites exactly the holes with that name. */
  lemma {:induction false} OnePass(ts: seq<Token>, key: string, v: string)
    requires Clean(ts) && BraceFree(key)
    ensures Replace(Text(ts), Placeholder(key), v) == Text(Filled(ts, key, v))
  {
    if ts == [] {
    } else {
      var rest := ts[1..];
      OnePass(rest, key, v);
      TextJoin(if ts[0] == Hole(key) then Chars(v) else [ts[0]], Filled(rest, key, v));
      match ts[0]
      case Ch(c) =>
        assert ts == [Ch(c)] + rest;
        NotAtChar(c, rest, key);
        ReplaceStep(c, Text(rest), Placeholder(key), v);
        assert Text([ts[0]]) == [c] by { assert [ts[0]][1..] == []; }
      case Hole(name) =>
        if name == key {
          ReplaceHere(Text(rest), Placeholder(key), v);
          CharsText(v);
        } else {
          OtherHoleSurvives(name, Text(rest), key, v);
          assert Text([ts[0]]) == Placeholder(name) by { assert [ts[0]][1..] == []; }
        }
    }
  }

  // ---------------------------------------------------------------- all passes

  predicate GoodValue(v: string) {
    v != "" && BraceFree(v)
  }

  lemma {:induction false} CharsClean(v: string, ts: seq<Token>)
    requires BraceFree(v) && Clean(ts)
    ensures Clean(Chars(v) + ts)
    ensures v != "" ==> Chars(v) + ts != [] && (Chars(v) + ts)[0] == Ch(v[0])
  {
    if v == "" {
      assert Chars(v) + ts == ts;
    } else {
      assert v[0] in v;
      forall c | c in v[1..] ensures c in v {}
      CharsClean(v[1..], ts);
      assert (Chars(v) + ts)[1..] == Chars(v[1..]) + ts;
    }
  }

  lemma {:induction false} FilledClean(ts: seq<Token>, key: string, v: string)
    requires Clean(ts) && GoodValue(v)
    ensures Clean(Filled(ts, key, v))
    ensures ts != [] ==> Filled(ts, key, v) != [] &&
                         (Filled(ts, key, v)[0] == ts[0] || Filled(ts, key, v)[0] == Ch(v[0]))
  {
    if ts != [] {
      FilledClean(ts[1..], key, v);
      var rest := Filled(ts[1..], key, v);
      if ts[0] == Hole(key) {
        CharsClean(v, rest);
      } else {
        assert v[0] in v;
        assert ([ts[0]] + rest)[1..] == rest;
      }
    }
  }

  lemma {:induction false} SubstituteJoin(a: seq<Token>, b: seq<Token>, vars: map<string, string>)
    ensures Substitute(a + b, vars) == Substitute(a, vars) + Substitute(b, vars)
  {
    if a == [] {
      assert a + b == b;
    } else {
      assert (a + b)[1..] == a[1..] + b;
      SubstituteJoin(a[1..], b, vars);
    }
  }

  lemma {:induction false} CharsSubstitute(v: string, vars: map<string, string>)
    ensures Substitute(Chars(v), vars) == v
  {
    if v != "" {
      CharsSubstitute(v[1..], vars);
      assert Chars(v)[1..] == Chars(v[1..]);
    }
  }

  /** Filling one hole first and the others later is filling them all at once. */
  lemma {:induction false} FillThenSubstitute(ts: seq<Token>, key: string, vars: map<string, string>, v: string)
    requires key !in vars
    ensures Substitute(Filled(ts, key, v), vars) == Substitute(ts, vars[key := v])
  {
    if ts != [] {
      var first := if ts[0] == Hole(key) then Chars(v) else [ts[0]];
      FillThenSubstitute(ts[1..], key, vars, v);
      SubstituteJoin(first, Filled(ts[1..], key, v), vars);
      CharsSubstitute(v, vars);
      if ts[0] != Hole(key) {
        assert [ts[0]][1..] == [];
        assert Substitute([ts[0]], vars) ==
               if ts[0].Hole? && ts[0].name in vars then vars[ts[0].name] else TextOf(ts[0]);
      }
    }
  }

  lemma {:induction false} SubstituteNothing(ts: seq<Token>)
    ensures Substitute(ts, map[]) == Text(ts)
  {
    if ts != [] { SubstituteNothing(ts[1..]); }
  }

  /** `keys` lists each key of `vars` once, in some order. */
  ghost predicate Enumerates(keys: seq<string>, vars: map<string, string>) {
    && (forall k :: k in keys <==> k in vars)
    && (forall i, j :: 0 <= i < j < |keys| ==> keys[i] != keys[j])
  }

  lemma {:induction false} RenderedFrom(template: string, keys: seq<string>, vars: map<string, string>)
    requires keys != [] && forall k :: k in keys ==> k in vars
    ensures Rendered(template, keys, vars) ==
            Rendered(Replace(template, Placeholder(keys[0]), vars[keys[0]]), keys[1..], vars)
    decreases |keys|
  {
    var n := |keys| - 1;
    if n == 0 {
      assert keys[..0] == [];
    } else {
      RenderedFrom(template, keys[..n], vars);
      assert keys[..n][1..] == keys[1..][..n - 1];
    }
  }

  lemma {:induction false} RenderedAgrees(template: string, keys: seq<string>, vars: map<string, string>,
      others: map<string, string>)
    requires forall k :: k in keys ==> k in vars && k in others && vars[k] == others[k]
    ensures Rendered(template, keys, vars) == Rendered(template, keys, others)
  {
    if keys != [] { RenderedAgrees(template, keys[..|keys| - 1], vars, others); }
  }

  /** The passes together are one simultaneous substitution. */
  lemma {:induction false} RendersAtOnce(ts: seq<Token>, keys: seq<string>, vars: map<string, string>)
    requires Clean(ts) && Enumerates(keys, vars)
    requires forall k :: k in vars ==> BraceFree(k) && GoodValue(vars[k])
    ensures Rendered(Text(ts), keys, vars) == Substitute(ts, vars)
    decreases |keys|
  {
    if keys == [] {
      assert vars == map[];
      SubstituteNothing(ts);
    } else {
      var key := keys[0];
      assert key in keys && key in vars;
      var fewer := vars - {key};
      OnePass(ts, key, vars[key]);
      FilledClean(ts, key, vars[key]);
      RenderedFrom(Text(ts), keys, vars);
      RestEnumerates(keys, vars);
      RendersAtOnce(Filled(ts, key, vars[key]), keys[1..], fewer);
      RenderedAgrees(Text(Filled(ts, key, vars[key])), keys[1..], vars, fewer);
      FillThenSubstitute(ts, key, fewer, vars[key]);
      assert fewer[key := vars[key]] == vars;
    }
  }

  lemma {:induction false} FirstNotLater(keys: seq<string>, vars: map<string, string>)
    requires keys != [] && Enumerates(keys, vars)
    ensures keys[0] !in keys[1..]
  {
    forall j | 0 <= j < |keys| - 1 ensures keys[1..][j] != keys[0] {
      assert keys[0] != keys[j + 1];
    }
  }

  lemma {:induction false} RestEnumerates(keys: seq<string>, vars: map<string, string>)
    requires keys != [] && Enumerates(keys, vars)
    ensures Enumerates(keys[1..], vars - {keys[0]})
  {
    var rest := keys[1..];
    forall k ensures k in rest <==> k in vars - {keys[0]} {
      if k in rest {
        var i :| 0 <= i < |rest| && rest[i] == k;
        assert keys[i + 1] == k;
      }
      assert keys == [keys[0]] + rest;
      assert keys[0] !in rest by { FirstNotLater(keys, vars); }
    }
    forall i, j | 0 <= i < j < |rest| ensures rest[i] != rest[j] {
      assert keys[i + 1] != keys[j + 1];
    }
  }

  /** The order of the passes does not matter. */
  lemma {:induction false} OrderIrrelevant(ts: seq<Token>, keys: seq<string>, others: seq<string>,
      vars: map<string, string>)
    requires Clean(ts) && Enumerates(keys, vars) && Enumerates(others, vars)
    requires forall k :: k in vars ==> BraceFree(k) && GoodValue(vars[k])
    ensures Rendered(Text(ts), keys, vars) == Rendered(Text(ts), others, vars)
  {
    RendersAtOnce(ts, keys, vars);
    RendersAtOnce(ts, others, vars);
  }

  /** An unknown placeholder comes out as it went in. */
  lemma {:induction false} UnknownSurvives(before: seq<Token>, name: string, after: seq<Token>, keys: seq<string>,
      vars: map<string, string>)
    requires Clean(before + [Hole(name)] + after) && Enumerates(keys, vars) && name !in vars
    requires forall k :: k in vars ==> BraceFree(k) && GoodValue(vars[k])
    ensures Rendered(Text(before + [Hole(name)] + after), keys, vars) ==
            Substitute(before, vars) + Placeholder(name) + Substitute(after, vars)
  {
    RendersAtOnce(before + [Hole(name)] + after, keys, vars);
    SubstituteJoin(before + [Hole(name)], after, vars);
    SubstituteJoin(before, [Hole(name)], vars);
    assert [Hole(name)][1..] == [];
    assert Substitute([Hole(name)], vars) == Placeholder(name);
  }

  /** Clean tokens are determined by their text, so simultaneous substitution is a function of the
      template string. */
  lemma {:induction false} ReadsOneWay(ts: seq<Token>, us: seq<Token>)
    requires Clean(ts) && Clean(us) && Text(ts) == Text(us)
    ensures ts == us
  {
    if ts == [] || us == [] {
    } else {
      FirstToken(ts, us);
      var n := |TextOf(ts[0])|;
      assert Text(ts[1..]) == Text(ts)[n..] == Text(us)[n..] == Text(us[1..]);
      ReadsOneWay(ts[1..], us[1..]);
      assert ts == [ts[0]] + ts[1..] && us == [us[0]] + us[1..];
    }
  }

  lemma {:induction false} FirstToken(ts: seq<Token>, us: seq<Token>)
    requires ts != [] && us != [] && Clean(ts) && Clean(us) && Text(ts) == Text(us)
    ensures ts[0] == us[0]
  {
    match (ts[0], us[0])
    case (Ch(c), Ch(d)) => assert Text(ts)[0] == c && Text(us)[0] == d;
    case (Ch(_), Hole(_)) => CharIsNoHole(ts, us);
    case (Hole(_), Ch(_)) => CharIsNoHole(us, ts);
    case (Hole(n), Hole(k)) => TwoHoles(n, Text(ts[1..]), k, Text(us[1..]));
  }

  lemma {:induction false} TwoHoles(n: string, a: string, k: string, b: string)
    requires BraceFree(n) && BraceFree(k) && Placeholder(n) + a == Placeholder(k) + b
    ensures n == k
  {
    assert (Placeholder(n) + a)[2..] == n + "}" + ("}" + a);
    assert (Placeholder(k) + b)[2..] == k + "}" + ("}" + b);
    SameName(n, k, "}" + a, "}" + b);
  }

  lemma {:induction false} CharIsNoHole(ts: seq<Token>, us: seq<Token>)
    requires ts != [] && us != [] && Clean(ts) && Clean(us) && ts[0].Ch? && us[0].Hole?
    ensures Text(ts) != Text(us)
  {
    var key := us[0].name;
    assert ts == [ts[0]] + ts[1..];
    NotAtChar(ts[0].c, ts[1..], key);
    assert Text(us)[..|key| + 4] == Placeholder(key);
  }

  // ---------------------------------------------------------------- why the values are restricted

  /** A value that is itself a placeholder makes the result depend on the order. */
  lemma {:induction false} BracedValueOrder()
    ensures var vars := map["a" := "{{b}}", "b" := "x"];
            Rendered("{{a}}", ["a", "b"], vars) == "x" && Rendered("{{a}}", ["b", "a"], vars) == "{{b}}"
  {
    var vars := map["a" := "{{b}}", "b" := "x"];
    WholeHole("a", "{{b}}");
    WholeHole("b", "x");
    TwoPasses("{{a}}", "a", "b", vars);
    TwoPasses("{{a}}", "b", "a", vars);
    OtherHoleSurvives("a", "", "b", "x");
    assert Placeholder("a") + "" == "{{a}}";
    assert Replace("", Placeholder("b"), "x") == "";
  }

  lemma {:induction false} WholeHole(key: string, v: string)
    ensures Replace(Placeholder(key), Placeholder(key), v) == v
  {
    ReplaceHere("", Placeholder(key), v);
    assert Placeholder(key) + "" == Placeholder(key);
    assert Replace("", Placeholder(key), v) == "";
  }

  lemma {:induction false} TwoPasses(s: string, k: string, l: string, vars: map<string, string>)
    requires k in vars && l in vars
    ensures Rendered(s, [k, l], vars) == Replace(Replace(s, Placeholder(k), vars[k]), Placeholder(l), vars[l])
  {
    assert [k, l][..1] == [k] && [k][..0] == [];
    assert Rendered(s, [k], vars) == Replace(Rendered(s, [], vars), Placeholder(k), vars[k]);
  }

  /** So does an empty value, by joining the braces on its two sides. */
  lemma {:induction false} EmptyValueOrder()
    ensures var vars := map["a" := "", "b" := "x"];
            Rendered("{{{a}}{b}}", ["a", "b"], vars) == "x" && Rendered("{{{a}}{b}}", ["b", "a"], vars) == "{{b}}"
  {
    var vars := map["a" := "", "b" := "x"];
    TwoPasses("{{{a}}{b}}", "a", "b", vars);
    TwoPasses("{{{a}}{b}}", "b", "a", vars);
    EmptyFill();
    OtherFill();
    WholeHole("b", "x");
  }

  lemma {:induction false} NotAtBrace(b: string, key: string)
    requires |b| > 1 && b[0] == b[1] == '{' && BraceFree(key)
    ensures !StartsWith("{" + b, Placeholder(key))
  {
    PlaceholderHead(key);
    if |key| + 4 <= |"{" + b| { PrefixAt("{" + b, Placeholder(key), 2); }
  }

  lemma {:induction false} EmptyFill()
    ensures Replace("{{{a}}{b}}", Placeholder("a"), "") == "{{b}}"
  {
    var pat, tail := Placeholder("a"), "{b}}";
    NotAtBrace("{{a}}" + tail, "a");
    assert "{{{a}}{b}}" == ['{'] + ("{{a}}" + tail);
    ReplaceStep('{', "{{a}}" + tail, pat, "");
    assert "{{a}}" == pat;
    ReplaceHere(tail, pat, "");
    OneBrace("a", "");
    assert ['{'] + tail == "{{b}}";
  }

  lemma {:induction false} OneBrace(key: string, v: string)
    requires BraceFree(key)
    ensures Replace("{b}}", Placeholder(key), v) == "{b}}"
  {
    var pat := Placeholder(key);
    PlaceholderHead(key);
    if |pat| <= 4 { PrefixAt("{b}}", pat, 1); }
    assert "{b}}" == ['{'] + "b}}";
    ReplaceStep('{', "b}}", pat, v);
    assert "b}}" + "" == "b}}";
    ReplaceSkips("b}}", "", pat, v);
    assert Replace("", pat, v) == "";
  }

  lemma {:induction false} OtherFill()
    ensures Replace("{{{a}}{b}}", Placeholder("b"), "x") == "{{{a}}{b}}"
  {
    var pat, tail := Placeholder("b"), "{b}}";
    NotAtBrace("{{a}}" + tail, "b");
    assert "{{{a}}{b}}" == ['{'] + ("{{a}}" + tail);
    ReplaceStep('{', "{{a}}" + tail, pat, "x");
    assert "{{a}}" == Placeholder("a");
    OtherHoleSurvives("a", tail, "b", "x");
    OneBrace("b", "x");
  }

  lemma {:induction false} CharSkipped(c: char, rest: string, pat: string, v: string)
    requires pat != "" && pat[0] != c
    ensures Replace([c] + rest, pat, v) == [c] + Replace(rest, pat, v)
  {
    assert ([c] + rest)[1..] == rest;
  }

  lemma {:induction false} PatternTaken(rest: string, pat: string, v: string)
    requires pat != ""
    ensures Replace(pat + rest, pat, v) == v + Replace(rest, pat, v)
  {
    assert (pat + rest)[|pat|..] == rest;
  }

  /** For instance. */
  lemma {:induction false} RendersFlow(vars: map<string, string>)
    requires vars == map["flow" := "12"]
    ensures Rendered("f={{flow}}!", ["flow"], vars) == "f=12!"
  {
    var pat := "{{flow}}";
    assert Placeholder("flow") == pat && ["flow"][..0] == [];
    assert Rendered("f={{flow}}!", [], vars) == "f={{flow}}!";
    assert "f={{flow}}!" == ['f'] + (['='] + (pat + "!"));
    CharSkipped('f', ['='] + (pat + "!"), pat, "12");
    CharSkipped('=', pat + "!", pat, "12");
    PatternTaken("!", pat, "12");
    assert "!" == ['!'] + "";
    CharSkipped('!', "", pat, "12");
    assert Replace("", pat, "12") == "";
    assert ['f'] + (['='] + ("12" + (['!'] + ""))) == "f=12!";
  }
}

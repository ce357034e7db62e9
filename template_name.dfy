/** How the handler turns a route's `response_template` into a file name when
    the route has no match rule (mock-server/main.go:118-127): the captured
    path values are collected in a map keyed by placeholder name, and every
    `{name}` in the template is replaced by the value of `name`, one key at a
    time with `strings.ReplaceAll`. */
module TemplateName {
  import opened Text
  import opened PathPattern

  /** The `params` map: key `keys[i]` gets capture `caps[i]`, in order, so a
      later capture under a repeated name overwrites an earlier one. */
  function ParamsOf(keys: seq<string>, caps: seq<string>): (params: map<string, string>)
    requires |keys| == |caps|
    ensures forall k :: k in params <==> k in keys
  {
    if |keys| == 0 then map[]
    else ParamsOf(keys[..|keys| - 1], caps[..|caps| - 1])[keys[|keys| - 1] := caps[|caps| - 1]]
  }

  /** The value stored for a name is the capture of its LAST occurrence. */
  lemma {:induction false} LaterCaptureWins(keys: seq<string>, caps: seq<string>, j: nat)
    requires |keys| == |caps| && j < |keys|
    requires forall i :: j < i < |keys| ==> keys[i] != keys[j]
    ensures keys[j] in ParamsOf(keys, caps) && ParamsOf(keys, caps)[keys[j]] == caps[j]
  {
    var n := |keys| - 1;
    if j < n {
      var init := keys[..n];
      assert forall i :: j < i < |init| ==> init[i] == keys[i];
      LaterCaptureWins(init, caps[..n], j);
    }
  }

  /** The names of `keys` without repetitions, in order of first appearance:
      the order in which the model visits the `params` map. */
  function Distinct(keys: seq<string>): (d: seq<string>)
    ensures forall k :: k in d <==> k in keys
    ensures forall a, b :: 0 <= a < b < |d| ==> d[a] != d[b]
  {
    if |keys| == 0 then []
    else
      var d := Distinct(keys[..|keys| - 1]);
      var last := keys[|keys| - 1];
      assert keys == keys[..|keys| - 1] + [last];
      if last in d then d else d + [last]
  }

  /** The replacement loop of the handler run over the names in `order`:
      `strings.ReplaceAll(filename, "{"+k+"}", params[k])` for each `k` in turn. */
  function ReplaceInOrder(template: string, order: seq<string>, params: map<string, string>): string
    requires forall j :: 0 <= j < |order| ==> order[j] in params
  {
    if |order| == 0 then template
    else
      var k := order[|order| - 1];
      ReplaceAll(ReplaceInOrder(template, order[..|order| - 1], params), "{" + k + "}", params[k])
  }

  /** The file name computed from a route without a match rule. */
  function SubstituteParams(template: string, keys: seq<string>, caps: seq<string>): string
    requires |keys| == |caps|
  {
    ReplaceInOrder(template, Distinct(keys), ParamsOf(keys, caps))
  }

  // ---------------------------------------------------------------------------
  // Reference: one left-to-right pass over the template
  // ---------------------------------------------------------------------------

  /** Every placeholder `{k}` of the template with `k` in `params` is replaced
      by `params[k]`, in one pass; inserted text is never looked at again. */
  function SubstituteWith(template: string, params: map<string, string>): string {
    if |template| == 0 then ""
    else if OpensHole(template) && HoleNameAt(template) in params then
      var n := HoleNameAt(template);
      params[n] + SubstituteWith(template[|n| + 2..], params)
    else [template[0]] + SubstituteWith(template[1..], params)
  }

  /** Every `{` of the template opens a placeholder `{word}`. */
  predicate Braced(template: string) {
    forall j :: 0 <= j < |template| && template[j] == '{' ==> OpensHole(template[j..])
  }

  /** A value that cannot open a placeholder once substituted. */
  predicate BraceFree(v: string) {
    '{' !in v
  }

  /** What the order-independence result needs of the names and values. */
  predicate CleanParams(params: map<string, string>) {
    forall k :: k in params ==> IsName(k) && BraceFree(params[k])
  }

  /** With nothing to substitute, the template is the name. */
  lemma {:induction false} SubstituteNothing(template: string)
    ensures SubstituteWith(template, map[]) == template
  {
    if |template| > 0 {
      SubstituteNothing(template[1..]);
      assert template == [template[0]] + template[1..];
    }
  }

  lemma {:induction false} SubstitutePassesText(x: string, y: string, params: map<string, string>)
    requires '{' !in x
    ensures SubstituteWith(x + y, params) == x + SubstituteWith(y, params)
  {
    if |x| > 0 {
      var s := x + y;
      assert s[0] == x[0] && s[1..] == x[1..] + y;
      SubstitutePassesText(x[1..], y, params);
      assert [x[0]] + x[1..] == x;
    } else {
      assert x + y == y;
    }
  }

  /** Two different names: the text `{w}` does not start with `{k}`. */
  lemma HoleTextsDiffer(s: string, w: string, k: string)
    requires IsName(w) && IsName(k) && w != k
    requires HasHoleText(s, w)
    ensures !HasPrefix(s, "{" + k + "}")
  {
    var pk := "{" + k + "}";
    var pw := "{" + w + "}";
    assert s[..|pw|] == pw;
    if |k| < |w| {
      assert s[|k| + 1] == pw[|k| + 1] == w[|k|];
      assert s[|k| + 1] != pk[|k| + 1];
    } else if |k| > |w| {
      assert s[|w| + 1] == pw[|w| + 1] == '}';
      assert pk[|w| + 1] == k[|w|];
      assert |s| < |pk| || s[|w| + 1] != pk[|w| + 1];
    } else {
      var i :| 0 <= i < |k| && k[i] != w[i];
      assert s[i + 1] == pw[i + 1] == w[i];
      assert s[i + 1] != pk[i + 1];
    }
  }

  lemma BracedSuffix(t: string, i: nat)
    requires Braced(t) && i <= |t|
    ensures Braced(t[i..])
  {
    forall j | 0 <= j < |t[i..]| && t[i..][j] == '{' ensures OpensHole(t[i..][j..]) {
      assert t[i..][j..] == t[i + j..];
    }
  }

  /** One run of the loop body: replacing `{k}` in the result of a one-pass
      substitution is the one-pass substitution that also knows `k`. */
  lemma {:induction false} ReplaceStep(t: string, params: map<string, string>, k: string, v: string)
    requires Braced(t) && CleanParams(params)
    requires k !in params && IsName(k) && BraceFree(v)
    ensures ReplaceAll(SubstituteWith(t, params), "{" + k + "}", v) == SubstituteWith(t, params[k := v])
    decreases |t|
  {
    if |t| == 0 {
      assert !HasPrefix("", "{" + k + "}");
    } else if OpensHole(t) {
      var w := HoleNameAt(t);
      BracedSuffix(t, |w| + 2);
      ReplaceStep(t[|w| + 2..], params, k, v);
      ReplaceStepAtHole(t, params, k, v);
    } else {
      BracedSuffix(t, 1);
      BracedHead(t);
      ReplaceStep(t[1..], params, k, v);
      ReplaceStepAtLit(t, params, k, v);
    }
  }

  lemma BracedHead(t: string)
    requires Braced(t) && |t| > 0 && !OpensHole(t)
    ensures t[0] != '{'
  {
    assert t[0..] == t;
  }

  /** The step of `ReplaceStep` at a character that opens no placeholder. */
  lemma ReplaceStepAtLit(t: string, params: map<string, string>, k: string, v: string)
    requires |t| > 0 && !OpensHole(t) && t[0] != '{'
    requires ReplaceAll(SubstituteWith(t[1..], params), "{" + k + "}", v) == SubstituteWith(t[1..], params[k := v])
    ensures ReplaceAll(SubstituteWith(t, params), "{" + k + "}", v) == SubstituteWith(t, params[k := v])
  {
    SubstituteAtLit(t, params);
    SubstituteAtLit(t, params[k := v]);
    ReplaceAllSkips([t[0]], SubstituteWith(t[1..], params), "{" + k + "}", v);
  }

  lemma SubstituteAtLit(t: string, params: map<string, string>)
    requires |t| > 0 && !OpensHole(t)
    ensures SubstituteWith(t, params) == [t[0]] + SubstituteWith(t[1..], params)
  {
  }

  /** The step of `ReplaceStep` at a placeholder, given the result for the
      text after it. */
  lemma ReplaceStepAtHole(t: string, params: map<string, string>, k: string, v: string)
    requires OpensHole(t) && CleanParams(params)
    requires k !in params && IsName(k) && BraceFree(v)
    requires var t' := t[|HoleNameAt(t)| + 2..];
      ReplaceAll(SubstituteWith(t', params), "{" + k + "}", v) == SubstituteWith(t', params[k := v])
    ensures ReplaceAll(SubstituteWith(t, params), "{" + k + "}", v) == SubstituteWith(t, params[k := v])
  {
    var pk := "{" + k + "}";
    var p2 := params[k := v];
    var w := HoleNameAt(t);
    var rest := SubstituteWith(t[|w| + 2..], params);
    SubstituteAtHole(t, params);
    SubstituteAtHole(t, p2);
    if w in params {
      assert p2[w] == params[w];
      ReplaceAllSkips(params[w], rest, pk, v);
    } else if w == k {
      ReplaceAllAtPrefix(rest, pk, v);
    } else {
      ReplaceAllPastHole(w, rest, k, v);
    }
  }

  /** The one-pass substitution at a placeholder: its value when it has one,
      the placeholder text itself otherwise. */
  lemma SubstituteAtHole(t: string, params: map<string, string>)
    requires OpensHole(t)
    ensures var w := HoleNameAt(t);
      SubstituteWith(t, params)
      == (if w in params then params[w] else "{" + w + "}") + SubstituteWith(t[|w| + 2..], params)
  {
    var w := HoleNameAt(t);
    if w !in params {
      SubstituteAtFreeHole(t, params);
    }
  }

  lemma SubstituteAtFreeHole(t: string, params: map<string, string>)
    requires OpensHole(t) && HoleNameAt(t) !in params
    ensures var w := HoleNameAt(t);
      SubstituteWith(t, params) == "{" + w + "}" + SubstituteWith(t[|w| + 2..], params)
  {
    var w := HoleNameAt(t);
    var tail := t[|w| + 2..];
    calc {
      SubstituteWith(t, params);
      [t[0]] + SubstituteWith(t[1..], params);
      { assert t[1..] == w + "}" + tail by { assert HasHoleText(t, w); } }
      [t[0]] + SubstituteWith(w + "}" + tail, params);
      { SubstitutePassesText(w + "}", tail, params); }
      [t[0]] + (w + "}" + SubstituteWith(tail, params));
      "{" + w + "}" + SubstituteWith(tail, params);
    }
  }

  lemma ReplaceAllAtPrefix(x: string, pat: string, repl: string)
    requires |pat| > 0
    ensures ReplaceAll(pat + x, pat, repl) == repl + ReplaceAll(x, pat, repl)
  {
    assert (pat + x)[..|pat|] == pat;
    assert (pat + x)[|pat|..] == x;
  }

  /** Replacing `{k}` leaves a placeholder with another name in place. */
  lemma ReplaceAllPastHole(w: string, x: string, k: string, v: string)
    requires IsName(w) && IsName(k) && w != k
    ensures ReplaceAll("{" + w + "}" + x, "{" + k + "}", v) == "{" + w + "}" + ReplaceAll(x, "{" + k + "}", v)
  {
    var s := "{" + w + "}" + x;
    var pk := "{" + k + "}";
    assert !HasPrefix(s, pk) by {
      assert s[..|w| + 2] == "{" + w + "}";
      HoleTextsDiffer(s, w, k);
    }
    calc {
      ReplaceAll(s, pk, v);
      [s[0]] + ReplaceAll(s[1..], pk, v);
      { assert s[1..] == w + "}" + x; }
      [s[0]] + ReplaceAll(w + "}" + x, pk, v);
      { ReplaceAllSkips(w + "}", x, pk, v); }
      [s[0]] + (w + "}" + ReplaceAll(x, pk, v));
      "{" + w + "}" + ReplaceAll(x, pk, v);
    }
  }

  /** The part of `params` whose names occur in `order`. */
  function Restrict(params: map<string, string>, order: seq<string>): map<string, string> {
    map k | k in params && k in order :: params[k]
  }

  /** Running the replacement loop over any duplicate-free order of names gives
      the one-pass substitution restricted to those names. */
  lemma {:induction false} ReplaceInOrderIsSubstitution(t: string, order: seq<string>, params: map<string, string>)
    requires Braced(t) && CleanParams(params)
    requires forall j :: 0 <= j < |order| ==> order[j] in params
    requires forall a, b :: 0 <= a < b < |order| ==> order[a] != order[b]
    ensures ReplaceInOrder(t, order, params) == SubstituteWith(t, Restrict(params, order))
  {
    if |order| == 0 {
      SubstituteNothing(t);
      assert Restrict(params, order) == map[];
    } else {
      var n := |order| - 1;
      var init := order[..n];
      var k := order[n];
      ReplaceInOrderIsSubstitution(t, init, params);
      var r := Restrict(params, init);
      assert k !in init;
      assert CleanParams(r);
      ReplaceStep(t, r, k, params[k]);
      assert r[k := params[k]] == Restrict(params, order) by {
        assert order == init + [k];
      }
    }
  }

  /** Go visits the `params` map in an unspecified order. For a template whose
      every `{` opens a placeholder and captures without braces, every order
      gives the same name: each placeholder replaced once by its value. */
  lemma ParamOrderIrrelevant(t: string, order: seq<string>, params: map<string, string>)
    requires Braced(t) && CleanParams(params)
    requires forall k :: k in order <==> k in params
    requires forall a, b :: 0 <= a < b < |order| ==> order[a] != order[b]
    ensures ReplaceInOrder(t, order, params) == SubstituteWith(t, params)
  {
    ReplaceInOrderIsSubstitution(t, order, params);
    assert Restrict(params, order) == params;
  }

  /** The file name of a route without a match rule, stated without reference
      to the loop: each `{k}` of a braced template is replaced by the capture
      of the last hole named `k`. */
  lemma SubstituteParamsMeaning(template: string, keys: seq<string>, caps: seq<string>)
    requires |keys| == |caps|
    requires Braced(template)
    requires forall j :: 0 <= j < |keys| ==> IsName(keys[j]) && BraceFree(caps[j])
    ensures SubstituteParams(template, keys, caps) == SubstituteWith(template, ParamsOf(keys, caps))
  {
    var params := ParamsOf(keys, caps);
    forall k | k in params ensures IsName(k) && BraceFree(params[k]) {
      var j :| 0 <= j < |keys| && keys[j] == k;
      var last := LastOccurrence(keys, j);
      LaterCaptureWins(keys, caps, last);
    }
    ParamOrderIrrelevant(template, Distinct(keys), params);
  }

  /** The last position holding the same name as position `j`. */
  lemma LastOccurrence(keys: seq<string>, j: nat) returns (last: nat)
    requires j < |keys|
    ensures j <= last < |keys| && keys[last] == keys[j]
    ensures forall i :: last < i < |keys| ==> keys[i] != keys[j]
    decreases |keys| - j
  {
    if exists i :: j < i < |keys| && keys[i] == keys[j] {
      var i :| j < i < |keys| && keys[i] == keys[j];
      last := LastOccurrence(keys, i);
    } else {
      last := j;
    }
  }

  /** Without the braced condition the order does matter: for the template
      `{{a}}` the name is `x` when `a` is replaced before `b`, and `{b}` when
      `b` goes first. */
  lemma ParamOrderMatters()
    ensures var params := map["a" := "b", "b" := "x"];
            ReplaceInOrder("{{a}}", ["a", "b"], params) == "x" &&
            ReplaceInOrder("{{a}}", ["b", "a"], params) == "{b}"
  {
    var params := map["a" := "b", "b" := "x"];
    assert "{" + "a" + "}" == "{a}" && "{" + "b" + "}" == "{b}";
    assert params["a"] == "b" && params["b"] == "x";
    assert ReplaceInOrder("{{a}}", ["a", "b"], params) == "x" by {
      CounterexampleAFirst();
      assert ["a", "b"][..1] == ["a"] && ["a"][..0] == [];
    }
    assert ReplaceInOrder("{{a}}", ["b", "a"], params) == "{b}" by {
      CounterexampleBFirst();
      assert ["b", "a"][..1] == ["b"] && ["b"][..0] == [];
    }
  }

  /** The two replacements when `a` goes first. */
  lemma CounterexampleAFirst()
    ensures ReplaceAll("{{a}}", "{a}", "b") == "{b}"
    ensures ReplaceAll("{b}", "{b}", "x") == "x"
  {
    assert ReplaceAll("{{a}}", "{a}", "b") == "{b}" by {
      assert "{{a}}"[..3][1] != "{a}"[1];
      assert "{{a}}"[1..] == "{a}}";
      assert HasPrefix("{a}}", "{a}");
      assert "{a}}"[3..] == "}";
      assert ReplaceAll("}", "{a}", "b") == "}" by { ReplaceAllAbsent("}", "{a}", "b"); }
    }
    assert ReplaceAll("{b}", "{b}", "x") == "x" by {
      assert HasPrefix("{b}", "{b}");
      assert "{b}"[3..] == "";
    }
  }

  /** The two replacements when `b` goes first. */
  lemma CounterexampleBFirst()
    ensures ReplaceAll("{{a}}", "{b}", "x") == "{{a}}"
    ensures ReplaceAll("{{a}}", "{a}", "b") == "{b}"
  {
    assert ReplaceAll("{{a}}", "{b}", "x") == "{{a}}" by {
      assert "{{a}}"[..3][1] != "{b}"[1];
      assert "{{a}}"[1..] == "{a}}";
      assert "{a}}"[..3][1] != "{b}"[1];
      assert "{a}}"[1..] == "a}}";
      ReplaceAllAbsent("a}}", "{b}", "x");
    }
    CounterexampleAFirst();
  }

}

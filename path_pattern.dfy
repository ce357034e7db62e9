/** Route paths and how the server matches them against a request path
    (mock-server/main.go:101-107, 119).

    A route path such as `/users/{id}/posts` is turned into a regular
    expression by replacing every `{name}` (name made of word characters) with
    `([^/]+)` and anchoring the result at both ends. Here the path becomes a
    sequence of atoms, a literal character or a named hole, and the regular
    expression's leftmost-first, greedy search becomes `Match`. */
module PathPattern {
  import opened Wrappers
  import opened Text

  datatype Atom = Lit(c: char) | Hole(name: string)

  /** `\w` in Go's regexp syntax: ASCII letters, digits and underscore. */
  predicate IsWordChar(c: char) {
    ('a' <= c <= 'z') || ('A' <= c <= 'Z') || ('0' <= c <= '9') || c == '_'
  }

  /** A placeholder name as `\{(\w+)\}` captures it. */
  predicate IsName(n: string) {
    |n| > 0 && forall j :: 0 <= j < |n| ==> IsWordChar(n[j])
  }

  /** Length of the longest prefix of `s` made of word characters. */
  function WordRun(s: string): (n: nat)
    ensures n <= |s|
    ensures forall j :: 0 <= j < n ==> IsWordChar(s[j])
    ensures n < |s| ==> !IsWordChar(s[n])
  {
    if |s| > 0 && IsWordChar(s[0]) then 1 + WordRun(s[1..]) else 0
  }

  /** `s` starts with a placeholder `{name}`. */
  predicate OpensHole(s: string) {
    |s| > 0 && s[0] == '{' &&
    var n := WordRun(s[1..]);
    0 < n && n + 1 < |s| && s[n + 1] == '}'
  }

  /** The name of the placeholder `s` starts with. */
  function HoleNameAt(s: string): (n: string)
    requires OpensHole(s)
    ensures IsName(n) && HasHoleText(s, n)
  {
    s[1..WordRun(s[1..]) + 1]
  }

  /** `s` starts with the text `{n}`. */
  predicate HasHoleText(s: string, n: string) {
    |n| + 2 <= |s| && s[..|n| + 2] == "{" + n + "}"
  }

  /** `rePath.FindAllStringSubmatch` / `ReplaceAllString` over a route path:
      the leftmost placeholders, left to right, with the rest kept as literal
      characters. */
  function Compile(path: string): (pat: seq<Atom>)
    ensures forall j :: 0 <= j < |pat| && pat[j].Hole? ==> IsName(pat[j].name)
  {
    if |path| == 0 then []
    else if OpensHole(path) then
      var n := HoleNameAt(path);
      [Hole(n)] + Compile(path[|n| + 2..])
    else [Lit(path[0])] + Compile(path[1..])
  }

  /** Writes a pattern back as route-path text. */
  function Spell(pat: seq<Atom>): string {
    if |pat| == 0 then ""
    else
      match pat[0]
      case Lit(c) => [c] + Spell(pat[1..])
      case Hole(n) => "{" + n + "}" + Spell(pat[1..])
  }

  /** Compiling loses nothing: spelling the pattern out gives the route path. */
  lemma {:induction false} SpellCompile(path: string)
    ensures Spell(Compile(path)) == path
  {
    if |path| > 0 {
      if OpensHole(path) {
        var n := HoleNameAt(path);
        SpellCompile(path[|n| + 2..]);
        SpellCompileAtHole(path, n, path[|n| + 2..]);
      } else {
        SpellCompile(path[1..]);
        SpellCompileAtLit(path);
      }
    }
  }

  /** The step of `SpellCompile` at a placeholder `{n}` followed by `tail`,
      given the result for `tail`. */
  lemma SpellCompileAtHole(path: string, n: string, tail: string)
    requires OpensHole(path) && n == HoleNameAt(path) && tail == path[|n| + 2..]
    requires Spell(Compile(tail)) == tail
    ensures Spell(Compile(path)) == path
  {
    CompileAtHole(path);
    SpellHole(n, Compile(tail), tail);
    HoleTextSplits(path, n);
  }

  /** The step of `SpellCompile` at a literal character. */
  lemma SpellCompileAtLit(path: string)
    requires |path| > 0 && !OpensHole(path)
    requires Spell(Compile(path[1..])) == path[1..]
    ensures Spell(Compile(path)) == path
  {
    CompileAtLit(path);
    SpellLit(path[0], Compile(path[1..]), path[1..]);
    assert path == [path[0]] + path[1..];
  }

  /** A path that starts with `{n}` is that text followed by the rest. */
  lemma HoleTextSplits(s: string, n: string)
    requires HasHoleText(s, n)
    ensures s == "{" + n + "}" + s[|n| + 2..]
  {
    assert s == s[..|n| + 2] + s[|n| + 2..];
  }

  /** Every placeholder of the route path becomes a hole: no character that
      is compiled as a literal starts a `{name}` in what follows it. */
  lemma {:induction false} CompileFindsEveryHole(path: string)
    ensures var pat := Compile(path);
      forall j :: 0 <= j < |pat| && pat[j].Lit? ==> !OpensHole(Spell(pat[j..]))
  {
    if |path| > 0 {
      var pat := Compile(path);
      if OpensHole(path) {
        var n := HoleNameAt(path);
        var tail := path[|n| + 2..];
        CompileFindsEveryHole(tail);
        CompileAtHole(path);
        forall j | 0 <= j < |pat| && pat[j].Lit?
          ensures !OpensHole(Spell(pat[j..]))
        {
          assert pat[j..] == Compile(tail)[j - 1..];
        }
      } else {
        CompileFindsEveryHole(path[1..]);
        CompileAtLit(path);
        SpellCompile(path);
        forall j | 0 <= j < |pat| && pat[j].Lit?
          ensures !OpensHole(Spell(pat[j..]))
        {
          if j == 0 {
            assert pat[j..] == pat;
          } else {
            assert pat[j..] == Compile(path[1..])[j - 1..];
          }
        }
      }
    }
  }

  lemma CompileAtHole(path: string)
    requires OpensHole(path)
    ensures var n := HoleNameAt(path);
      Compile(path) == [Hole(n)] + Compile(path[|n| + 2..])
  {
  }

  lemma CompileAtLit(path: string)
    requires |path| > 0 && !OpensHole(path)
    ensures Compile(path) == [Lit(path[0])] + Compile(path[1..])
  {
  }

  lemma SpellHole(n: string, pat: seq<Atom>, text: string)
    requires Spell(pat) == text
    ensures Spell([Hole(n)] + pat) == "{" + n + "}" + text
  {
    assert ([Hole(n)] + pat)[1..] == pat;
  }

  lemma SpellLit(c: char, pat: seq<Atom>, text: string)
    requires Spell(pat) == text
    ensures Spell([Lit(c)] + pat) == [c] + text
  {
    assert ([Lit(c)] + pat)[1..] == pat;
  }

  /** The placeholder names of a pattern, left to right (the `keys` of the
      handler, one per capture group). */
  function HoleNames(pat: seq<Atom>): (names: seq<string>)
    ensures |names| == HoleCount(pat)
  {
    if |pat| == 0 then []
    else if pat[0].Hole? then [pat[0].name] + HoleNames(pat[1..])
    else HoleNames(pat[1..])
  }

  function HoleCount(pat: seq<Atom>): nat {
    if |pat| == 0 then 0
    else (if pat[0].Hole? then 1 else 0) + HoleCount(pat[1..])
  }

  /** The placeholder text `{n}` of each name. */
  function HoleTexts(names: seq<string>): (texts: seq<string>)
    ensures |texts| == |names|
    ensures forall j :: 0 <= j < |names| ==> texts[j] == "{" + names[j] + "}"
  {
    if |names| == 0 then [] else ["{" + names[0] + "}"] + HoleTexts(names[1..])
  }

  /** The names are those of the holes, in order: filling every hole with its
      own placeholder text writes the pattern out. */
  lemma {:induction false} HoleNamesSpell(pat: seq<Atom>)
    ensures Fill(pat, HoleTexts(HoleNames(pat))) == Spell(pat)
  {
    if |pat| > 0 {
      HoleNamesSpell(pat[1..]);
      var rest := HoleTexts(HoleNames(pat[1..]));
      match pat[0]
      case Lit(c) =>
        assert HoleNames(pat) == HoleNames(pat[1..]);
      case Hole(n) =>
        assert HoleNames(pat) == [n] + HoleNames(pat[1..]);
        assert ([n] + HoleNames(pat[1..]))[1..] == HoleNames(pat[1..]);
        assert HoleTexts(HoleNames(pat))[1..] == rest;
    }
  }

  /** The keys of the handler are the placeholder names of the route path, in
      order: putting `{k}` back for each of them gives the route path. */
  lemma HoleNamesInPlace(path: string)
    ensures Fill(Compile(path), HoleTexts(HoleNames(Compile(path)))) == path
  {
    HoleNamesSpell(Compile(path));
    SpellCompile(path);
  }

  // ---------------------------------------------------------------------------
  // Matching
  // ---------------------------------------------------------------------------

  /** What `([^/]+)` accepts. */
  predicate IsSegmentText(v: string) {
    |v| > 0 && '/' !in v
  }

  /** Length of the longest prefix of `s` without `/`. */
  function SegmentRun(s: string): (n: nat)
    ensures n <= |s| && '/' !in s[..n]
    ensures n < |s| ==> s[n] == '/'
  {
    if |s| > 0 && s[0] != '/' then
      var n := 1 + SegmentRun(s[1..]);
      assert s[..n] == [s[0]] + s[1..][..n - 1];
      n
    else 0
  }

  /** The request path a pattern stands for once its holes are filled with
      `values`, left to right. */
  function Fill(pat: seq<Atom>, values: seq<string>): string
    requires |values| == HoleCount(pat)
  {
    if |pat| == 0 then ""
    else
      match pat[0]
      case Lit(c) => [c] + Fill(pat[1..], values)
      case Hole(_) => values[0] + Fill(pat[1..], values[1..])
  }

  /** `values` are acceptable captures for the holes of `pat`. */
  predicate Fits(pat: seq<Atom>, values: seq<string>) {
    |values| == HoleCount(pat) && forall j :: 0 <= j < |values| ==> IsSegmentText(values[j])
  }

  /** `re.FindStringSubmatch(path)` for the anchored expression built from
      `pat`: the captured groups in order, or None for no match. Each hole
      first tries the longest run of non-`/` characters and gives back one
      character at a time, as the regular expression's backtracking does. */
  function Match(pat: seq<Atom>, s: string): (r: Option<seq<string>>)
    decreases |pat|, 0
    ensures r.Some? ==> Fits(pat, r.value) && Fill(pat, r.value) == s
  {
    if |pat| == 0 then (if |s| == 0 then Some([]) else None)
    else
      match pat[0]
      case Lit(c) =>
        if |s| > 0 && s[0] == c then
          var r := Match(pat[1..], s[1..]);
          assert r.Some? ==> s == [c] + s[1..];
          r
        else None
      case Hole(_) => MatchHole(pat[1..], s, SegmentRun(s))
  }

  /** The hole in front of `rest` captures `s[..k]` or a shorter non-empty
      prefix: the longest one after which `rest` matches. */
  function MatchHole(rest: seq<Atom>, s: string, k: nat): (r: Option<seq<string>>)
    requires k <= SegmentRun(s)
    decreases |rest|, k
    ensures r.Some? ==> |r.value| >= 1 && IsSegmentText(r.value[0]) && HasPrefix(s, r.value[0])
    ensures r.Some? ==> Fits(rest, r.value[1..]) && Fill(rest, r.value[1..]) == s[|r.value[0]|..]
  {
    if k == 0 then None
    else
      assert s[..k] == s[..SegmentRun(s)][..k];
      match Match(rest, s[k..])
      case Some(caps) =>
        var r := [s[..k]] + caps;
        assert r[1..] == caps;
        Some(r)
      case None => MatchHole(rest, s, k - 1)
  }

  /** Every path the pattern stands for is matched: together with the
      postcondition of `Match`, the match is exactly "the whole path is the
      pattern with each hole replaced by one or more non-`/` characters". */
  lemma {:induction false} MatchComplete(pat: seq<Atom>, values: seq<string>)
    requires Fits(pat, values)
    ensures Match(pat, Fill(pat, values)).Some?
    decreases |pat|, 0
  {
    if |pat| > 0 {
      var s := Fill(pat, values);
      match pat[0]
      case Lit(c) =>
        assert s[1..] == Fill(pat[1..], values);
        MatchComplete(pat[1..], values);
      case Hole(_) =>
        var v := values[0];
        var rest := Fill(pat[1..], values[1..]);
        assert s == v + rest;
        assert Fits(pat[1..], values[1..]) by {
          forall j | 0 <= j < |values[1..]| ensures IsSegmentText(values[1..][j]) {
            assert values[1..][j] == values[j + 1];
          }
        }
        assert IsSegmentText(v);
        SegmentRunCovers(v, rest);
        assert s[..|v|] == v && s[|v|..] == rest;
        MatchHoleComplete(pat[1..], s, SegmentRun(s), v, values[1..]);
    }
  }

  /** A segment followed by anything: its length is at most the segment run. */
  lemma {:induction false} SegmentRunCovers(v: string, t: string)
    requires '/' !in v
    ensures |v| <= SegmentRun(v + t)
  {
    if |v| > 0 {
      assert (v + t)[1..] == v[1..] + t;
      SegmentRunCovers(v[1..], t);
    }
  }

  lemma {:induction false} MatchHoleComplete(rest: seq<Atom>, s: string, k: nat, v: string, values: seq<string>)
    requires k <= SegmentRun(s)
    requires 1 <= |v| <= k && s[..|v|] == v
    requires Fits(rest, values) && Fill(rest, values) == s[|v|..]
    ensures MatchHole(rest, s, k).Some?
    decreases |rest|, k
  {
    if Match(rest, s[k..]).None? {
      if k == |v| {
        MatchComplete(rest, values);
      } else {
        MatchHoleComplete(rest, s, k - 1, v, values);
      }
    }
  }

  /** The first hole takes the longest capture that lets the rest match, as
      the greedy `[^/]+` does. */
  lemma {:induction false} MatchHoleGreedy(rest: seq<Atom>, s: string, k: nat, m: nat)
    requires k <= SegmentRun(s)
    requires MatchHole(rest, s, k).Some?
    requires |MatchHole(rest, s, k).value[0]| < m <= k
    ensures Match(rest, s[m..]).None?
    decreases k
  {
    if Match(rest, s[k..]).None? {
      if m < k {
        MatchHoleGreedy(rest, s, k - 1, m);
      }
    }
  }
}

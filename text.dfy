/** String operations of Go's `strings` package and of JavaScript's `String`
    that the server and the editor rely on, over `seq<char>`. */
module Text {

  /** `strings.HasPrefix(s, p)` in Go, `s.startsWith(p)` in JavaScript. */
  predicate HasPrefix(s: string, p: string) {
    |p| <= |s| && s[..|p|] == p
  }

  // ---------------------------------------------------------------------------
  // Splitting on one character and joining with it
  // ---------------------------------------------------------------------------

  /** `s.split(sep)` in JavaScript and `strings.Split(s, sep)` in Go for a
      one-character separator: the pieces between separators, left to right,
      so that the empty string splits into one empty piece. */
  function Split(s: string, sep: char): (parts: seq<string>)
    ensures |parts| == multiset(s)[sep] + 1
    ensures forall j :: 0 <= j < |parts| ==> sep !in parts[j]
  {
    if |s| == 0 then [""]
    else
      var rest := Split(s[1..], sep);
      assert s == [s[0]] + s[1..];
      if s[0] == sep then [""] + rest
      else [[s[0]] + rest[0]] + rest[1..]
  }

  /** `parts.join(sep)` in JavaScript and `strings.Join` in Go. */
  function Join(parts: seq<string>, sep: char): string {
    if |parts| == 0 then ""
    else if |parts| == 1 then parts[0]
    else parts[0] + [sep] + Join(parts[1..], sep)
  }

  /** Prepending text to the first piece prepends it to the joined string. */
  lemma JoinExtendFirst(x: string, parts: seq<string>, sep: char)
    requires |parts| >= 1
    ensures Join([x + parts[0]] + parts[1..], sep) == x + Join(parts, sep)
  {
    var ps := [x + parts[0]] + parts[1..];
    assert ps[1..] == parts[1..];
  }

  /** Splitting and joining again gives back the original string. */
  lemma {:induction false} JoinSplit(s: string, sep: char)
    ensures Join(Split(s, sep), sep) == s
  {
    if |s| > 0 {
      JoinSplit(s[1..], sep);
      JoinSplitStep(s, sep);
    }
  }

  /** The step of `JoinSplit` at the first character, given the result for
      the rest. */
  lemma JoinSplitStep(s: string, sep: char)
    requires |s| > 0 && Join(Split(s[1..], sep), sep) == s[1..]
    ensures Join(Split(s, sep), sep) == s
  {
    var rest := Split(s[1..], sep);
    SplitCons(s, sep);
    if s[0] == sep {
      JoinCons("", rest, sep);
    } else {
      JoinExtendFirst([s[0]], rest, sep);
    }
    SeqCons(s);
  }

  /** One step of `Split`. */
  lemma SplitCons(s: string, sep: char)
    requires |s| > 0
    ensures var rest := Split(s[1..], sep);
      Split(s, sep) == if s[0] == sep then [""] + rest else [[s[0]] + rest[0]] + rest[1..]
  {
  }

  /** One step of `Join`. */
  lemma JoinCons(x: string, parts: seq<string>, sep: char)
    requires |parts| >= 1
    ensures Join([x] + parts, sep) == x + [sep] + Join(parts, sep)
  {
    assert ([x] + parts)[1..] == parts;
  }

  lemma SeqCons(s: string)
    requires |s| > 0
    ensures s == [s[0]] + s[1..]
  {
  }

  /** A separator-free piece followed by the separator splits off as one piece. */
  lemma {:induction false} SplitLeadingPiece(p: string, t: string, sep: char)
    requires sep !in p
    ensures Split(p + [sep] + t, sep) == [p] + Split(t, sep)
  {
    var s := p + [sep] + t;
    if |p| == 0 {
      assert s[1..] == t;
    } else {
      assert s[1..] == p[1..] + [sep] + t;
      SplitLeadingPiece(p[1..], t, sep);
      assert [p[0]] + p[1..] == p;
    }
  }

  /** A separator-free string splits into itself alone. */
  lemma {:induction false} SplitNoSeparator(p: string, sep: char)
    requires sep !in p
    ensures Split(p, sep) == [p]
  {
    if |p| > 0 {
      SplitNoSeparator(p[1..], sep);
      assert [p[0]] + p[1..] == p;
    }
  }

  /** Joining a non-empty list of separator-free pieces and splitting the
      result gives the pieces back. */
  lemma {:induction false} SplitJoin(parts: seq<string>, sep: char)
    requires |parts| >= 1
    requires forall j :: 0 <= j < |parts| ==> sep !in parts[j]
    ensures Split(Join(parts, sep), sep) == parts
  {
    if |parts| == 1 {
      SplitNoSeparator(parts[0], sep);
    } else {
      SplitJoin(parts[1..], sep);
      SplitLeadingPiece(parts[0], Join(parts[1..], sep), sep);
      assert [parts[0]] + parts[1..] == parts;
    }
  }

  // ---------------------------------------------------------------------------
  // JavaScript's String.prototype.trim
  // ---------------------------------------------------------------------------

  /** The characters `trim` removes: ECMAScript WhiteSpace and LineTerminator. */
  predicate IsJsSpace(c: char) {
    || c == '\t' || c == '\n' || c == '\U{000B}' || c == '\U{000C}' || c == '\r'
    || c == ' ' || c == '\U{00A0}' || c == '\U{1680}'
    || ('\U{2000}' <= c <= '\U{200A}')
    || c == '\U{2028}' || c == '\U{2029}' || c == '\U{202F}' || c == '\U{205F}'
    || c == '\U{3000}' || c == '\U{FEFF}'
  }

  /** Neither starts nor ends with a character `trim` removes. */
  predicate Trimmed(s: string) {
    |s| == 0 || (!IsJsSpace(s[0]) && !IsJsSpace(s[|s| - 1]))
  }

  function TrimStart(s: string): (r: string)
    ensures |r| <= |s| && r == s[|s| - |r|..]
    ensures forall j :: 0 <= j < |s| - |r| ==> IsJsSpace(s[j])
    ensures |r| > 0 ==> !IsJsSpace(r[0])
  {
    if |s| > 0 && IsJsSpace(s[0]) then TrimStart(s[1..]) else s
  }

  function TrimEnd(s: string): (r: string)
    ensures |r| <= |s| && r == s[..|r|]
    ensures forall j :: |r| <= j < |s| ==> IsJsSpace(s[j])
    ensures |r| > 0 ==> !IsJsSpace(r[|r| - 1])
  {
    if |s| > 0 && IsJsSpace(s[|s| - 1]) then TrimEnd(s[..|s| - 1]) else s
  }

  /** `s.trim()`: `s` without the white space at either end. */
  function Trim(s: string): (r: string)
    ensures Trimmed(r) && |r| <= |s|
    ensures Trimmed(s) ==> r == s
    ensures exists i :: SpaceAround(s, r, i)
  {
    var t := TrimStart(s);
    var r := TrimEnd(t);
    assert |r| > 0 ==> r[0] == t[0];
    TrimSpaceAround(s);
    r
  }

  /** Trimming the front and then the back takes only white space away. */
  lemma TrimSpaceAround(s: string)
    ensures SpaceAround(s, TrimEnd(TrimStart(s)), |s| - |TrimStart(s)|)
  {
    PeeledBothEnds(s, TrimStart(s), TrimEnd(TrimStart(s)), IsJsSpace);
  }

  /** A prefix `r` of a tail `t` of `s`, where `p` holds of everything the two
      steps dropped, sits in `s` with only `p`-characters around it. */
  lemma PeeledBothEnds(s: string, t: string, r: string, p: char -> bool)
    requires |t| <= |s| && t == s[|s| - |t|..]
    requires forall j :: 0 <= j < |s| - |t| ==> p(s[j])
    requires |r| <= |t| && r == t[..|r|]
    requires forall j :: |r| <= j < |t| ==> p(t[j])
    ensures Surrounded(s, r, |s| - |t|, p)
  {
    SliceOfTail(s, t, |r|);
    ShiftedTail(s, t, |r|, p);
  }

  /** The first `n` characters of a tail `t` of `s`, as a slice of `s`. */
  lemma SliceOfTail(s: string, t: string, n: nat)
    requires |t| <= |s| && t == s[|s| - |t|..] && n <= |t|
    ensures s[|s| - |t|..|s| - |t| + n] == t[..n]
  {
  }

  /** What holds of the characters of `t` from `lo` on holds of those of `s`
      from the matching position, when `t` is a tail of `s`. */
  lemma ShiftedTail(s: string, t: string, lo: nat, p: char -> bool)
    requires |t| <= |s| && t == s[|s| - |t|..]
    requires forall j :: lo <= j < |t| ==> p(t[j])
    ensures forall j :: |s| - |t| + lo <= j < |s| ==> p(s[j])
  {
    forall j | |s| - |t| + lo <= j < |s|
      ensures p(s[j])
    {
      assert s[j] == t[j - (|s| - |t|)];
    }
  }


  /** `s` is `r` with white space in front (the first `i` characters) and
      white space behind. */
  predicate SpaceAround(s: string, r: string, i: nat) {
    Surrounded(s, r, i, IsJsSpace)
  }

  /** `s` is `r` with `p`-characters in front (the first `i`) and behind. */
  predicate Surrounded(s: string, r: string, i: nat, p: char -> bool) {
    i + |r| <= |s| && s[i..i + |r|] == r
    && (forall j :: 0 <= j < i ==> p(s[j]))
    && (forall j :: i + |r| <= j < |s| ==> p(s[j]))
  }

  // ---------------------------------------------------------------------------
  // Go's strings.ReplaceAll
  // ---------------------------------------------------------------------------

  /** `strings.ReplaceAll(s, old, new)` with a non-empty pattern: scans left to
      right and replaces every non-overlapping occurrence of `pat` by `repl`; the text
      inserted is not scanned again. */
  function ReplaceAll(s: string, pat: string, repl: string): (r: string)
    requires |pat| > 0
    ensures repl == pat ==> r == s
  {
    if HasPrefix(s, pat) then repl + ReplaceAll(s[|pat|..], pat, repl)
    else if |s| == 0 then ""
    else [s[0]] + ReplaceAll(s[1..], pat, repl)
  }

  /** Text that cannot start an occurrence passes through unchanged. */
  lemma {:induction false} ReplaceAllSkips(x: string, y: string, pat: string, repl: string)
    requires |pat| > 0
    requires pat[0] !in x
    ensures ReplaceAll(x + y, pat, repl) == x + ReplaceAll(y, pat, repl)
  {
    if |x| > 0 {
      var s := x + y;
      assert s[0] == x[0];
      assert !HasPrefix(s, pat);
      assert s[1..] == x[1..] + y;
      ReplaceAllSkips(x[1..], y, pat, repl);
      calc {
        ReplaceAll(s, pat, repl);
        [x[0]] + ReplaceAll(x[1..] + y, pat, repl);
        [x[0]] + (x[1..] + ReplaceAll(y, pat, repl));
        { assert [x[0]] + x[1..] == x; }
        x + ReplaceAll(y, pat, repl);
      }
    } else {
      assert x + y == y;
    }
  }

  /** No occurrence of `pat` starts anywhere in `s`: nothing is replaced. */
  lemma {:induction false} ReplaceAllNoOccurrence(s: string, pat: string, repl: string)
    requires |pat| > 0
    requires forall i :: 0 <= i <= |s| ==> !HasPrefix(s[i..], pat)
    ensures ReplaceAll(s, pat, repl) == s
  {
    assert !HasPrefix(s[0..], pat);
    assert s[0..] == s;
    if |s| > 0 {
      forall i | 0 <= i <= |s[1..]|
        ensures !HasPrefix(s[1..][i..], pat)
      {
        assert s[1..][i..] == s[i + 1..];
      }
      ReplaceAllNoOccurrence(s[1..], pat, repl);
      assert s == [s[0]] + s[1..];
    }
  }

  /** Without the first character of `pat`, nothing is replaced. */
  lemma {:induction false} ReplaceAllAbsent(s: string, pat: string, repl: string)
    requires |pat| > 0 && pat[0] !in s
    ensures ReplaceAll(s, pat, repl) == s
  {
    ReplaceAllSkips(s, "", pat, repl);
    assert s + "" == s;
  }
}

/** The two text inputs of the editor that stand for structured values
    (web-ui/pages/index.tsx:197-228): the cases of a match definition, one
    `key=value` per line, and its field list, comma-separated. Each has a
    parser, run on every keystroke, and a renderer that fills the input from
    the current value. */
module EditorCodecs {
  import opened Wrappers
  import opened Text

  // ---------------------------------------------------------------------------
  // Cases: `key=value` lines
  // ---------------------------------------------------------------------------

  /** Assigning to this key of a plain JavaScript object sets its prototype
      instead of an own property; with a string value the assignment is
      ignored, so the key never reaches the cases. */
  const ProtoKey: string := "__proto__"

  /** One line of the cases text: `const [k, v] = line.split('=')`, kept when
      both raw pieces are non-empty (a missing piece counts as empty), and then
      stored trimmed. Pieces after a second `=` are dropped. */
  function ParseLine(line: string): (entry: Option<(string, string)>)
    ensures entry.Some? ==> Trimmed(entry.value.0) && Trimmed(entry.value.1)
    ensures entry.Some? ==> '=' !in entry.value.0 && '=' !in entry.value.1
    ensures '=' !in line ==> entry.None?
  {
    Entry(Split(line, '='))
  }

  /** The destructuring `[k, v]` of the pieces of a line and the test on
      them. */
  function Entry(pieces: seq<string>): (entry: Option<(string, string)>)
    requires |pieces| >= 1
    ensures entry.Some? <==> |pieces| >= 2 && pieces[0] != "" && pieces[1] != ""
    ensures entry.Some? ==> entry.value == (Trim(pieces[0]), Trim(pieces[1]))
  {
    var k := pieces[0];
    var v := if |pieces| > 1 then pieces[1] else "";
    if k != "" && v != "" then Some((Trim(k), Trim(v))) else None
  }

  /** The object the lines build, one assignment per accepted line, in
      order. */
  function ParseLines(lines: seq<string>): (cases: map<string, string>)
    ensures ProtoKey !in cases
  {
    if |lines| == 0 then map[]
    else Assign(ParseLines(lines[..|lines| - 1]), lines[|lines| - 1])
  }

  /** `if (k && v) obj[k.trim()] = v.trim()` for one line. */
  function Assign(obj: map<string, string>, line: string): map<string, string> {
    var entry := ParseLine(line);
    if entry.Some? && entry.value.0 != ProtoKey then obj[entry.value.0 := entry.value.1] else obj
  }

  /** The cases the textarea's change handler stores. */
  function ParseCases(text: string): (cases: map<string, string>)
    ensures ProtoKey !in cases
    ensures forall k :: k in cases ==> Trimmed(k) && '=' !in k && Trimmed(cases[k]) && '=' !in cases[k]
  {
    ParseLinesShape(Split(text, '\n'));
    ParseLines(Split(text, '\n'))
  }

  /** Every stored key and value is trimmed and free of `=`. */
  lemma {:induction false} ParseLinesShape(lines: seq<string>)
    ensures var cases := ParseLines(lines);
      forall k :: k in cases ==> Trimmed(k) && '=' !in k && Trimmed(cases[k]) && '=' !in cases[k]
  {
    if |lines| > 0 {
      ParseLinesShape(lines[..|lines| - 1]);
    }
  }

  /** The change handler as written: a loop over the lines filling `obj`. */
  method ParseCasesText(text: string) returns (obj: map<string, string>)
    ensures obj == ParseCases(text)
  {
    var lines := Split(text, '\n');
    obj := map[];
    for n := 0 to |lines|
      invariant obj == ParseLines(lines[..n])
    {
      assert ParseLines(lines[..n + 1]) == Assign(ParseLines(lines[..n]), lines[n]) by {
        assert lines[..n + 1][..n] == lines[..n];
      }
      var entry := ParseLine(lines[n]);
      if entry.Some? && entry.value.0 != ProtoKey {
        obj := obj[entry.value.0 := entry.value.1];
      }
      assert obj == Assign(ParseLines(lines[..n]), lines[n]);
    }
    assert lines[..|lines|] == lines;
  }

  /** A line `k=v` with non-empty, `=`-free pieces gives the trimmed pair. */
  lemma ParseLineWellFormed(k: string, v: string)
    requires k != "" && v != "" && '=' !in k && '=' !in v
    ensures ParseLine(k + "=" + v) == Some((Trim(k), Trim(v)))
  {
    TwoPieces(k, v);
  }

  /** `k=v` with `=`-free pieces splits into exactly those pieces. */
  lemma TwoPieces(k: string, v: string)
    requires '=' !in k && '=' !in v
    ensures Split(k + "=" + v, '=') == [k, v]
  {
    SplitLeadingPiece(k, v, '=');
    SplitNoSeparator(v, '=');
  }

  /** Whatever follows a second `=` does not matter. */
  lemma ParseLineIgnoresRest(k: string, v: string, rest: string)
    requires '=' !in k && '=' !in v
    ensures ParseLine(k + "=" + v + "=" + rest) == ParseLine(k + "=" + v)
  {
    ThreePieces(k, v, rest);
    TwoPieces(k, v);
  }

  /** `k=v=rest` with `=`-free `k` and `v` splits into `k`, `v` and the pieces
      of `rest`. */
  lemma ThreePieces(k: string, v: string, rest: string)
    requires '=' !in k && '=' !in v
    ensures Split(k + "=" + v + "=" + rest, '=') == [k, v] + Split(rest, '=')
  {
    Regroup(k, v, rest);
    SplitLeadingPiece(k, v + "=" + rest, '=');
    SplitLeadingPiece(v, rest, '=');
    PrependTwo(k, v, Split(rest, '='));
  }

  lemma Regroup(k: string, v: string, rest: string)
    ensures k + "=" + v + "=" + rest == k + "=" + (v + "=" + rest)
  {
  }

  lemma PrependTwo(k: string, v: string, tail: seq<string>)
    ensures [k] + ([v] + tail) == [k, v] + tail
  {
  }

  /** A line with an empty key or an empty value is dropped, even when the
      other piece is there. */
  lemma ParseLineEmptyPiece(k: string, v: string)
    requires '=' !in k && '=' !in v && (k == "" || v == "")
    ensures ParseLine(k + "=" + v) == None
  {
    TwoPieces(k, v);
  }

  /** Line `line` is accepted with key `k`. */
  predicate GivesKey(line: string, k: string) {
    ParseLine(line).Some? && ParseLine(line).value.0 == k
  }

  lemma AssignKeys(obj: map<string, string>, line: string, k: string)
    ensures k in Assign(obj, line) <==> k in obj || (GivesKey(line, k) && k != ProtoKey)
  {
  }

  /** The key `k` is in the parsed cases exactly when some line was accepted
      with that key (and it is not the prototype key). */
  lemma {:induction false} ParseLinesKeys(lines: seq<string>, k: string)
    ensures k in ParseLines(lines) <==>
            k != ProtoKey && exists j :: 0 <= j < |lines| && GivesKey(lines[j], k)
  {
    if k in ParseLines(lines) {
      var j := KeyHasLine(lines, k);
    }
    if k != ProtoKey && exists j :: 0 <= j < |lines| && GivesKey(lines[j], k) {
      var j :| 0 <= j < |lines| && GivesKey(lines[j], k);
      LineGivesKey(lines, j, k);
    }
  }

  lemma {:induction false} KeyHasLine(lines: seq<string>, k: string) returns (j: nat)
    requires k in ParseLines(lines)
    ensures j < |lines| && GivesKey(lines[j], k)
  {
    var init := lines[..|lines| - 1];
    var last := lines[|lines| - 1];
    AssignKeys(ParseLines(init), last, k);
    if k in ParseLines(init) {
      j := KeyHasLine(init, k);
      assert lines[j] == init[j];
    } else {
      j := |lines| - 1;
    }
  }

  lemma {:induction false} LineGivesKey(lines: seq<string>, j: nat, k: string)
    requires j < |lines| && GivesKey(lines[j], k) && k != ProtoKey
    ensures k in ParseLines(lines)
  {
    var init := lines[..|lines| - 1];
    var last := lines[|lines| - 1];
    AssignKeys(ParseLines(init), last, k);
    if j < |lines| - 1 {
      assert init[j] == lines[j];
      LineGivesKey(init, j, k);
    }
  }

  /** A later line with the same key overwrites an earlier one: the value
      stored is the one of the last accepted line with that key. */
  lemma {:induction false} ParseLinesLastWins(lines: seq<string>, j: nat, k: string, v: string)
    requires j < |lines| && ParseLine(lines[j]) == Some((k, v)) && k != ProtoKey
    requires forall i :: j < i < |lines| ==> !GivesKey(lines[i], k)
    ensures k in ParseLines(lines) && ParseLines(lines)[k] == v
  {
    var init := lines[..|lines| - 1];
    var last := lines[|lines| - 1];
    if j < |lines| - 1 {
      InitAgrees(lines, init, j, k);
      ParseLinesLastWins(init, j, k, v);
      AssignKeeps(ParseLines(init), last, k);
    } else {
      AssignAccepted(ParseLines(init), last, k, v);
    }
  }

  /** Dropping the last line keeps line `j` and the lines after it but the
      last. */
  lemma InitAgrees(lines: seq<string>, init: seq<string>, j: nat, k: string)
    requires j < |lines| - 1 && init == lines[..|lines| - 1]
    requires forall i :: j < i < |lines| ==> !GivesKey(lines[i], k)
    ensures init[j] == lines[j]
    ensures forall i :: j < i < |init| ==> !GivesKey(init[i], k)
  {
  }

  /** A line that does not give key `k` leaves its entry alone. */
  lemma AssignKeeps(obj: map<string, string>, line: string, k: string)
    requires !GivesKey(line, k) && k in obj
    ensures k in Assign(obj, line) && Assign(obj, line)[k] == obj[k]
  {
  }

  /** The text the textarea shows: `k=v` for each entry, joined by newlines.
      `listing` is the entries in the order `Object.entries` gives them. */
  function RenderCases(listing: seq<(string, string)>): (text: string)
    ensures |listing| == 0 ==> text == ""
    ensures |listing| > 0 && NewlineFree(listing) ==> Split(text, '\n') == CaseLines(listing)
  {
    var text := Join(CaseLines(listing), '\n');
    if |listing| > 0 && NewlineFree(listing) then
      CaseLinesNoNewline(listing);
      SplitJoin(CaseLines(listing), '\n');
      text
    else text
  }

  /** No key or value of the listing holds a newline. */
  predicate NewlineFree(listing: seq<(string, string)>) {
    forall i :: 0 <= i < |listing| ==> '\n' !in listing[i].0 && '\n' !in listing[i].1
  }

  /** Line `i` of the text: `k=v` for entry `i`. */
  function CaseLines(listing: seq<(string, string)>): (lines: seq<string>)
    ensures |lines| == |listing|
    ensures forall i :: 0 <= i < |listing| ==> lines[i] == listing[i].0 + "=" + listing[i].1
  {
    if |listing| == 0 then []
    else CaseLines(listing[..|listing| - 1]) + [listing[|listing| - 1].0 + "=" + listing[|listing| - 1].1]
  }

  /** The map an entry listing stands for. */
  function ToMap(listing: seq<(string, string)>): map<string, string> {
    if |listing| == 0 then map[]
    else ToMap(listing[..|listing| - 1])[listing[|listing| - 1].0 := listing[|listing| - 1].1]
  }

  /** `listing` lists the entries of `cases`, each key once. */
  predicate Lists(listing: seq<(string, string)>, cases: map<string, string>) {
    ToMap(listing) == cases
    && forall i, j :: 0 <= i < j < |listing| ==> listing[i].0 != listing[j].0
  }

  /** A key or value the textarea can carry unchanged. */
  predicate CaseText(s: string) {
    s != "" && '=' !in s && '\n' !in s && Trimmed(s)
  }

  /** The entries the round trip needs: every key and value is `CaseText` and
      no key is the prototype key. */
  predicate RoundTrips(cases: map<string, string>) {
    forall k :: k in cases ==> CaseText(k) && CaseText(cases[k]) && k != ProtoKey
  }

  lemma {:induction false} ToMapKeys(listing: seq<(string, string)>, k: string)
    ensures k in ToMap(listing) <==> exists i :: 0 <= i < |listing| && listing[i].0 == k
  {
    if |listing| > 0 {
      var init := listing[..|listing| - 1];
      ToMapKeys(init, k);
      forall i | 0 <= i < |init| ensures init[i] == listing[i] { }
    }
  }

  lemma {:induction false} ToMapValue(listing: seq<(string, string)>, i: nat)
    requires i < |listing|
    requires forall a, b :: 0 <= a < b < |listing| ==> listing[a].0 != listing[b].0
    ensures listing[i].0 in ToMap(listing) && ToMap(listing)[listing[i].0] == listing[i].1
  {
    var init := listing[..|listing| - 1];
    if i < |listing| - 1 {
      assert init[i] == listing[i];
      ToMapValue(init, i);
    }
  }

  /** Parsing the rendered lines of a listing of well-formed entries gives the
      entries back. */
  lemma {:induction false} ParseCaseLines(listing: seq<(string, string)>)
    requires forall i :: 0 <= i < |listing| ==> CaseText(listing[i].0) && CaseText(listing[i].1) && listing[i].0 != ProtoKey
    ensures ParseLines(CaseLines(listing)) == ToMap(listing)
  {
    if |listing| > 0 {
      var init := listing[..|listing| - 1];
      var (k, v) := listing[|listing| - 1];
      var lines := CaseLines(listing);
      assert lines[..|lines| - 1] == CaseLines(init);
      assert lines[|lines| - 1] == k + "=" + v;
      ParseCaseLines(init);
      AssignEntry(ToMap(init), k, v);
    }
  }

  /** The line of a well-formed entry assigns that entry, unless its key is
      the prototype key. */
  lemma AssignEntry(obj: map<string, string>, k: string, v: string)
    requires CaseText(k) && CaseText(v)
    ensures Assign(obj, k + "=" + v) == if k == ProtoKey then obj else obj[k := v]
  {
    ParseLineWellFormed(k, v);
    AssignAccepted(obj, k + "=" + v, k, v);
  }

  lemma AssignAccepted(obj: map<string, string>, line: string, k: string, v: string)
    requires ParseLine(line) == Some((k, v))
    ensures Assign(obj, line) == if k == ProtoKey then obj else obj[k := v]
  {
  }

  lemma {:induction false} CaseLinesNoNewline(listing: seq<(string, string)>)
    requires NewlineFree(listing)
    ensures forall j :: 0 <= j < |listing| ==> '\n' !in CaseLines(listing)[j]
  {
    if |listing| > 0 {
      var init := listing[..|listing| - 1];
      CaseLinesNoNewline(init);
      var lines := CaseLines(listing);
      forall j | 0 <= j < |listing| ensures '\n' !in lines[j] {
        if j < |listing| - 1 {
          assert lines[j] == CaseLines(init)[j];
        }
      }
    }
  }

  /** Rendering the cases and parsing the text back gives the same cases,
      whatever order the entries are listed in. */
  lemma CasesRoundTrip(listing: seq<(string, string)>, cases: map<string, string>)
    requires Lists(listing, cases) && RoundTrips(cases)
    ensures ParseCases(RenderCases(listing)) == cases
  {
    forall i | 0 <= i < |listing|
      ensures CaseText(listing[i].0) && CaseText(listing[i].1) && listing[i].0 != ProtoKey
    {
      ToMapValue(listing, i);
    }
    ParseCaseLines(listing);
    if |listing| == 0 {
      assert Split("", '\n') == [""];
      assert ParseLine("") == None;
    } else {
      CaseLinesNoNewline(listing);
      SplitJoin(CaseLines(listing), '\n');
    }
  }

  /** One entry renders as one line. */
  lemma RenderOne(k: string, v: string)
    requires CaseText(k) && CaseText(v)
    ensures Split(RenderCases([(k, v)]), '\n') == [k + "=" + v]
  {
    assert CaseLines([(k, v)]) == [k + "=" + v];
    SplitNoSeparator(k + "=" + v, '\n');
  }

  lemma ProtoKeyIsCaseText()
    ensures CaseText(ProtoKey)
  {
  }

  /** A single entry comes back as itself, unless its key is the prototype
      key. */
  lemma OneEntry(k: string, v: string)
    requires CaseText(k) && CaseText(v)
    ensures ParseCases(RenderCases([(k, v)])) == if k == ProtoKey then map[] else map[k := v]
  {
    var line := k + "=" + v;
    RenderOne(k, v);
    assert ParseLines([line]) == Assign(ParseLines([]), line) by {
      assert [line][..0] == [];
    }
    AssignEntry(map[], k, v);
  }

  /** The prototype key does not survive the round trip. */
  lemma ProtoKeyLost(v: string)
    requires CaseText(v)
    ensures ParseCases(RenderCases([(ProtoKey, v)])) == map[]
  {
    ProtoKeyIsCaseText();
    OneEntry(ProtoKey, v);
  }

  // ---------------------------------------------------------------------------
  // Fields: a comma-separated list
  // ---------------------------------------------------------------------------

  /** `e.target.value.split(',').map((s) => s.trim())`. */
  function ParseFields(text: string): (fields: seq<string>)
    ensures |fields| == multiset(text)[','] + 1
    ensures forall j :: 0 <= j < |fields| ==> Trimmed(fields[j]) && ',' !in fields[j]
    ensures forall j :: 0 <= j < |fields| ==> fields[j] == Trim(Split(text, ',')[j])
  {
    TrimAll(Split(text, ','))
  }

  function TrimAll(parts: seq<string>): (r: seq<string>)
    ensures |r| == |parts|
    ensures forall j :: 0 <= j < |r| ==> r[j] == Trim(parts[j])
  {
    if |parts| == 0 then [] else [Trim(parts[0])] + TrimAll(parts[1..])
  }

  /** `r.match?.fields?.join(',') || ''`: the text the input shows. */
  function RenderFields(fields: Option<seq<string>>): (text: string)
    ensures fields.None? ==> text == ""
  {
    match fields
    case Some(fs) => Join(fs, ',')
    case None => ""
  }

  /** A non-empty list of trimmed, comma-free entries survives rendering and
      parsing. */
  lemma FieldsRoundTrip(fs: seq<string>)
    requires |fs| >= 1
    requires forall j :: 0 <= j < |fs| ==> ',' !in fs[j] && Trimmed(fs[j])
    ensures ParseFields(RenderFields(Some(fs))) == fs
  {
    SplitJoin(fs, ',');
  }

  /** The empty list does not: it shows as an empty input, which parses as a
      list holding one empty name. */
  lemma EmptyFieldsBecomeOneEmptyName()
    ensures RenderFields(Some([])) == "" && ParseFields("") == [""]
  {
    assert Trimmed("");
  }
}

/** The route-list editor of the web UI (web-ui/pages/index.tsx:3-27, 41-65):
    the list of routes being edited and the operations the form applies to
    it. Every operation builds a new list from the old one (array spread,
    `filter`, object spread) and replaces the state with it, so each is a
    function from the old list to the new one. */
module RouteEditor {
  import opened Wrappers

  /** `source: 'body' | 'query'`. */
  datatype Source = Query | Body

  /** `MatchDefinition` as the editor holds it; `field` and `fields` are
      optional members. */
  datatype MatchDef = MatchDef(
    field: Option<string>,
    fields: Option<seq<string>>,
    source: Source,
    cases: map<string, string>,
    default: string)

  /** `Route` as the editor holds it; `delay` and `match` are optional. */
  datatype Route = Route(
    httpMethod: string,
    path: string,
    responseTemplate: string,
    auth: bool,
    delay: Option<int>,
    matchRule: Option<MatchDef>)

  /** The match definition a route without one starts from: a query match
      with no cases and an empty default. */
  const EmptyMatch: MatchDef := MatchDef(None, None, Query, map[], "")

  /** `emptyRoute`: the route the "Add Route" button appends. */
  const EmptyRoute: Route := Route("GET", "/new-path", "new_response.json", false, Some(0), Some(EmptyMatch))

  // ---------------------------------------------------------------------------
  // Adding and deleting
  // ---------------------------------------------------------------------------

  /** `handleAdd`: a copy of `emptyRoute` goes at the end. */
  function Add(routes: seq<Route>): (r: seq<Route>)
    ensures |r| == |routes| + 1
    ensures forall j :: 0 <= j < |routes| ==> r[j] == routes[j]
    ensures r[|routes|] == EmptyRoute
    ensures r[|routes|].httpMethod == "GET" && r[|routes|].path == "/new-path"
    ensures r[|routes|].responseTemplate == "new_response.json"
    ensures !r[|routes|].auth && r[|routes|].delay == Some(0)
    ensures r[|routes|].matchRule == Some(MatchDef(None, None, Query, map[], ""))
  {
    routes + [EmptyRoute]
  }

  /** `handleDelete(index)`: keeps exactly the routes whose position is not
      `index`, written as the `filter` walks the list. */
  function Delete(routes: seq<Route>, index: int): (r: seq<Route>)
    decreases |routes|
    ensures 0 <= index < |routes| ==> |r| == |routes| - 1
    ensures 0 <= index < |routes| ==> forall j :: 0 <= j < index ==> r[j] == routes[j]
    ensures 0 <= index < |routes| ==> forall j :: index <= j < |r| ==> r[j] == routes[j + 1]
    ensures !(0 <= index < |routes|) ==> r == routes
  {
    if |routes| == 0 then []
    else if index == 0 then routes[1..]
    else [routes[0]] + Delete(routes[1..], index - 1)
  }

  /** Deleting a route and the route that was there: the list is the part
      before it followed by the part after it. */
  lemma DeleteSplits(routes: seq<Route>, index: int)
    requires 0 <= index < |routes|
    ensures Delete(routes, index) == routes[..index] + routes[index + 1..]
  {
  }

  /** Deleting the route just added gives the list back. */
  lemma DeleteUndoesAdd(routes: seq<Route>)
    ensures Delete(Add(routes), |routes|) == routes
  {
    DeleteSplits(Add(routes), |routes|);
    assert Add(routes)[..|routes|] == routes;
  }

  // ---------------------------------------------------------------------------
  // Changing one field of a route
  // ---------------------------------------------------------------------------

  /** The fields of a route the form edits through `handleChange`. */
  datatype Field = MethodField | PathField | TemplateField | AuthField | DelayField

  /** `handleChange(i, key, value)`: the key together with its value. The
      delay input always supplies a number. */
  datatype RouteEdit =
    | SetMethod(verb: string)
    | SetPath(path: string)
    | SetTemplate(template: string)
    | SetAuth(auth: bool)
    | SetDelay(delay: int)

  function FieldOf(edit: RouteEdit): Field {
    match edit
    case SetMethod(_) => MethodField
    case SetPath(_) => PathField
    case SetTemplate(_) => TemplateField
    case SetAuth(_) => AuthField
    case SetDelay(_) => DelayField
  }

  /** `a` and `b` hold the same value in field `f`. */
  predicate Agree(a: Route, b: Route, f: Field) {
    match f
    case MethodField => a.httpMethod == b.httpMethod
    case PathField => a.path == b.path
    case TemplateField => a.responseTemplate == b.responseTemplate
    case AuthField => a.auth == b.auth
    case DelayField => a.delay == b.delay
  }

  /** The edited field of `route` holds the edit's value. */
  predicate Holds(route: Route, edit: RouteEdit) {
    match edit
    case SetMethod(v) => route.httpMethod == v
    case SetPath(v) => route.path == v
    case SetTemplate(v) => route.responseTemplate == v
    case SetAuth(v) => route.auth == v
    case SetDelay(v) => route.delay == Some(v)
  }

  /** `{ ...route, [key]: value }`. */
  function SetField(route: Route, edit: RouteEdit): (r: Route)
    ensures Holds(r, edit)
    ensures forall f :: f != FieldOf(edit) ==> Agree(route, r, f)
    ensures r.matchRule == route.matchRule
  {
    match edit
    case SetMethod(v) => route.(httpMethod := v)
    case SetPath(v) => route.(path := v)
    case SetTemplate(v) => route.(responseTemplate := v)
    case SetAuth(v) => route.(auth := v)
    case SetDelay(v) => route.(delay := Some(v))
  }

  /** The edit that puts back what `route` holds in field `f`; a missing
      delay has no such edit. */
  function Restore(route: Route, f: Field): (e: Option<RouteEdit>)
    ensures e.Some? ==> FieldOf(e.value) == f && Holds(route, e.value)
    ensures e.None? <==> f == DelayField && route.delay.None?
  {
    match f
    case MethodField => Some(SetMethod(route.httpMethod))
    case PathField => Some(SetPath(route.path))
    case TemplateField => Some(SetTemplate(route.responseTemplate))
    case AuthField => Some(SetAuth(route.auth))
    case DelayField => if route.delay.Some? then Some(SetDelay(route.delay.value)) else None
  }

  /** Routes that agree in every field the form edits and in their match
      definition are the same route. */
  lemma AgreeEverywhere(a: Route, b: Route)
    requires forall f :: Agree(a, b, f)
    requires a.matchRule == b.matchRule
    ensures a == b
  {
    assert Agree(a, b, MethodField) && Agree(a, b, PathField) && Agree(a, b, TemplateField);
    assert Agree(a, b, AuthField) && Agree(a, b, DelayField);
  }

  /** Setting a field and then putting its old value back restores the route:
      nothing but the one field was touched. */
  lemma {:induction false} SetFieldUndo(route: Route, edit: RouteEdit)
    requires Restore(route, FieldOf(edit)).Some?
    ensures SetField(SetField(route, edit), Restore(route, FieldOf(edit)).value) == route
  {
    var back := SetField(SetField(route, edit), Restore(route, FieldOf(edit)).value);
    forall f ensures Agree(route, back, f) {
      if f == FieldOf(edit) {
        match edit
        case SetMethod(_) =>
        case SetPath(_) =>
        case SetTemplate(_) =>
        case SetAuth(_) =>
        case SetDelay(_) =>
      }
    }
    AgreeEverywhere(route, back);
  }

  /** Setting a field to the value it already holds changes nothing. */
  lemma SetFieldIdempotent(route: Route, edit: RouteEdit)
    requires Holds(route, edit)
    ensures SetField(route, edit) == route
  {
  }

  /** `handleChange(index, key, value)` on the list: only route `index` is
      replaced, by itself with the one field set. */
  function Change(routes: seq<Route>, index: nat, edit: RouteEdit): (r: seq<Route>)
    requires index < |routes|
    ensures |r| == |routes|
    ensures forall j :: 0 <= j < |routes| && j != index ==> r[j] == routes[j]
    ensures Holds(r[index], edit)
    ensures forall f :: f != FieldOf(edit) ==> Agree(routes[index], r[index], f)
    ensures r[index].matchRule == routes[index].matchRule
  {
    routes[index := SetField(routes[index], edit)]
  }

  // ---------------------------------------------------------------------------
  // Changing one member of a route's match definition
  // ---------------------------------------------------------------------------

  /** The members of a match definition. */
  datatype MatchField = FieldMember | FieldsMember | SourceMember | CasesMember | DefaultMember

  /** `handleMatchChange(i, key, val)`: the key together with its value. */
  datatype MatchEdit =
    | SetFieldName(field: string)
    | SetFieldList(fields: seq<string>)
    | SetSource(source: Source)
    | SetCases(cases: map<string, string>)
    | SetDefault(default: string)

  function MemberOf(edit: MatchEdit): MatchField {
    match edit
    case SetFieldName(_) => FieldMember
    case SetFieldList(_) => FieldsMember
    case SetSource(_) => SourceMember
    case SetCases(_) => CasesMember
    case SetDefault(_) => DefaultMember
  }

  predicate MatchAgree(a: MatchDef, b: MatchDef, f: MatchField) {
    match f
    case FieldMember => a.field == b.field
    case FieldsMember => a.fields == b.fields
    case SourceMember => a.source == b.source
    case CasesMember => a.cases == b.cases
    case DefaultMember => a.default == b.default
  }

  predicate MatchHolds(m: MatchDef, edit: MatchEdit) {
    match edit
    case SetFieldName(v) => m.field == Some(v)
    case SetFieldList(v) => m.fields == Some(v)
    case SetSource(v) => m.source == v
    case SetCases(v) => m.cases == v
    case SetDefault(v) => m.default == v
  }

  /** `{ ...prev, [key]: val }`. */
  function SetMatchMember(m: MatchDef, edit: MatchEdit): (r: MatchDef)
    ensures MatchHolds(r, edit)
    ensures forall f :: f != MemberOf(edit) ==> MatchAgree(m, r, f)
  {
    match edit
    case SetFieldName(v) => m.(field := Some(v))
    case SetFieldList(v) => m.(fields := Some(v))
    case SetSource(v) => m.(source := v)
    case SetCases(v) => m.(cases := v)
    case SetDefault(v) => m.(default := v)
  }

  /** `handleMatchChange(index, key, val)` on the list: route `index` gets a
      match definition with the one member set, starting from its own match
      definition or, when it has none, from the empty query match. */
  function ChangeMatch(routes: seq<Route>, index: nat, edit: MatchEdit): (r: seq<Route>)
    requires index < |routes|
    ensures |r| == |routes|
    ensures forall j :: 0 <= j < |routes| && j != index ==> r[j] == routes[j]
    ensures forall f :: Agree(routes[index], r[index], f)
    ensures r[index].matchRule.Some? && MatchHolds(r[index].matchRule.value, edit)
    ensures routes[index].matchRule.Some? ==>
              forall f :: f != MemberOf(edit) ==> MatchAgree(routes[index].matchRule.value, r[index].matchRule.value, f)
    ensures routes[index].matchRule.None? ==>
              forall f :: f != MemberOf(edit) ==> MatchAgree(EmptyMatch, r[index].matchRule.value, f)
  {
    var prev := routes[index].matchRule.GetOr(EmptyMatch);
    routes[index := routes[index].(matchRule := Some(SetMatchMember(prev, edit)))]
  }

  /** On a route without a match definition, setting one member leaves the
      others at the empty query match's values: source `query`, no cases, an
      empty default and neither `field` nor `fields`. */
  lemma ChangeMatchFromNothing(routes: seq<Route>, index: nat, edit: MatchEdit)
    requires index < |routes| && routes[index].matchRule.None?
    ensures var m := ChangeMatch(routes, index, edit)[index].matchRule.value;
            (MemberOf(edit) != SourceMember ==> m.source == Query)
            && (MemberOf(edit) != CasesMember ==> m.cases == map[])
            && (MemberOf(edit) != DefaultMember ==> m.default == "")
            && (MemberOf(edit) != FieldMember ==> m.field.None?)
            && (MemberOf(edit) != FieldsMember ==> m.fields.None?)
  {
    var m := ChangeMatch(routes, index, edit)[index].matchRule.value;
    assert MatchAgree(EmptyMatch, m, SourceMember) || MemberOf(edit) == SourceMember;
    assert MatchAgree(EmptyMatch, m, CasesMember) || MemberOf(edit) == CasesMember;
    assert MatchAgree(EmptyMatch, m, DefaultMember) || MemberOf(edit) == DefaultMember;
    assert MatchAgree(EmptyMatch, m, FieldMember) || MemberOf(edit) == FieldMember;
    assert MatchAgree(EmptyMatch, m, FieldsMember) || MemberOf(edit) == FieldsMember;
  }

  /** Two match edits of different members commute. */
  lemma MatchEditsCommute(routes: seq<Route>, index: nat, e1: MatchEdit, e2: MatchEdit)
    requires index < |routes| && MemberOf(e1) != MemberOf(e2)
    ensures ChangeMatch(ChangeMatch(routes, index, e1), index, e2)
            == ChangeMatch(ChangeMatch(routes, index, e2), index, e1)
  {
  }
}

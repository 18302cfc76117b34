/** Rendering of the server URL template (`renderServerURL`) for the part of
    Go's `text/template` language that server templates use: literal text
    and `{{ .Field }}` actions naming one of the four variables. The
    template is parsed completely before it is executed, as in Go, so a
    syntax error anywhere wins over an unknown field. */
module ServerTemplate {
  import opened Text
  import opened Wrappers

  datatype Vars = Vars(domain: Bytes, project: Bytes, namespace: Bytes, name: Bytes)

  datatype TemplateError =
    | UnclosedAction
    | MissingValue
      /** an action other than a single field reference */
    | UnsupportedAction(action: Bytes)
      /** a field the variables do not have */
    | UnknownField(field: Bytes)

  datatype Segment = Text(text: Bytes) | Field(field: Bytes)

  const LeftBrace: uint8 := 123
  const RightBrace: uint8 := 125
  const Dot: uint8 := 46

  const DomainField: Bytes := Lit("Domain")
  const ProjectField: Bytes := Lit("Project")
  const NamespaceField: Bytes := Lit("Namespace")
  const NameField: Bytes := Lit("Name")

  /** Bytes `a b` start at index `k` of `t`. */
  predicate PairAt(t: Bytes, a: uint8, b: uint8, k: int) {
    0 <= k && k + 1 < |t| && t[k] == a && t[k + 1] == b
  }

  /** The first index `i >= from` where bytes `a b` start, if any. */
  function FindPair(t: Bytes, a: uint8, b: uint8, from: nat): (r: Option<nat>)
    requires from <= |t|
    ensures r.Some? ==> from <= r.value && PairAt(t, a, b, r.value)
    ensures r.Some? ==> forall k :: from <= k < r.value ==> !PairAt(t, a, b, k)
    ensures r.None? ==> forall k :: from <= k ==> !PairAt(t, a, b, k)
    decreases |t| - from
  {
    if from + 1 >= |t| then None
    else if PairAt(t, a, b, from) then Some(from)
    else FindPair(t, a, b, from + 1)
  }

  predicate IsIdentStart(c: uint8) {
    (65 <= c <= 90) || (97 <= c <= 122) || c == 95
  }

  predicate IsIdentByte(c: uint8) {
    IsIdentStart(c) || (48 <= c <= 57)
  }

  /** A Go identifier (ASCII letters, digits and `_`, not starting with a digit). */
  predicate IsIdent(s: Bytes) {
    |s| > 0 && IsIdentStart(s[0]) && forall i :: 0 < i < |s| ==> IsIdentByte(s[i])
  }

  /** The meaning of one action, given the trimmed text between the delimiters. */
  function ParseAction(action: Bytes): Result<Segment, TemplateError> {
    if action == [] then Err(MissingValue)
    else if action[0] == Dot && IsIdent(action[1..]) then Ok(Field(action[1..]))
    else Err(UnsupportedAction(action))
  }

  /** Split a template into literal text and field references. */
  function Parse(t: Bytes): (r: Result<seq<Segment>, TemplateError>)
    decreases |t|
  {
    match FindPair(t, LeftBrace, LeftBrace, 0)
    case None => Ok(if t == [] then [] else [Text(t)])
    case Some(i) =>
      var rest := t[i + 2..];
      match FindPair(rest, RightBrace, RightBrace, 0)
      case None => Err(UnclosedAction)
      case Some(j) =>
        match ParseAction(TrimSpace(rest[..j]))
        case Err(e) => Err(e)
        case Ok(seg) =>
          Prepend(t[..i], seg, Parse(rest[j + 2..]))
  }

  /** The segments of a template whose first action follows the literal
      `lit`, given the parse of what comes after that action. */
  function Prepend(lit: Bytes, seg: Segment, tail: Result<seq<Segment>, TemplateError>)
    : Result<seq<Segment>, TemplateError>
  {
    match tail
    case Err(e) => Err(e)
    case Ok(segs) => Ok((if lit == [] then [] else [Text(lit)]) + [seg] + segs)
  }

  /** The value of a field of `serverVars`. */
  function FieldValue(vars: Vars, field: Bytes): Result<Bytes, TemplateError> {
    if field == DomainField then Ok(vars.domain)
    else if field == ProjectField then Ok(vars.project)
    else if field == NamespaceField then Ok(vars.namespace)
    else if field == NameField then Ok(vars.name)
    else Err(UnknownField(field))
  }

  function Execute(segs: seq<Segment>, vars: Vars): Result<Bytes, TemplateError> {
    if |segs| == 0 then Ok([])
    else
      var head :- (match segs[0]
                   case Text(t) => Ok(t)
                   case Field(f) => FieldValue(vars, f));
      var tail :- Execute(segs[1..], vars);
      Ok(head + tail)
  }

  /** `renderServerURL`: an error and no URL when the template does not
      parse or does not execute. */
  function RenderServerUrl(tmpl: Bytes, vars: Vars): (r: Result<Bytes, TemplateError>)
    ensures Parse(tmpl).Err? ==> r == Err(Parse(tmpl).error)
    ensures Parse(tmpl).Ok? ==> r == Execute(Parse(tmpl).value, vars)
  {
    var segs :- Parse(tmpl);
    Execute(segs, vars)
  }

  // ---- the intended reading: printing a template and rendering it ----

  predicate IsVariable(field: Bytes) {
    field == DomainField || field == ProjectField || field == NamespaceField || field == NameField
  }

  /** Templates written with literal text free of `{` and actions that name
      one of the four variables. */
  predicate WellFormed(segs: seq<Segment>) {
    forall i :: 0 <= i < |segs| ==>
      match segs[i]
      case Text(t) => t != [] && LeftBrace !in t
      case Field(f) => IsVariable(f)
  }

  /** The template text of a segment list, actions written `{{ .Field }}`. */
  function Print(segs: seq<Segment>): Bytes {
    if |segs| == 0 then []
    else
      (match segs[0]
       case Text(t) => t
       case Field(f) => ActionText(f))
      + Print(segs[1..])
  }

  /** The intended output: each variable replaced by its value. */
  function Substitute(segs: seq<Segment>, vars: Vars): Bytes
    requires WellFormed(segs)
  {
    if |segs| == 0 then []
    else
      (match segs[0]
       case Text(t) => t
       case Field(f) =>
         if f == DomainField then vars.domain
         else if f == ProjectField then vars.project
         else if f == NamespaceField then vars.namespace
         else vars.name)
      + Substitute(segs[1..], vars)
  }

  /** Rendering the text of a well-formed template succeeds and substitutes
      the four variables. */
  lemma RenderPrinted(segs: seq<Segment>, vars: Vars)
    requires WellFormed(segs)
    ensures RenderServerUrl(Print(segs), vars) == Ok(Substitute(segs, vars))
  {
    ParsePrintedFrom([], segs);
    ExecuteNormal([], segs, vars);
    assert [] + Print(segs) == Print(segs);
    assert [] + Substitute(segs, vars) == Substitute(segs, vars);
  }

  /** A template without `{{` is literal text and renders to itself. */
  lemma NoActionRendersItself(tmpl: Bytes, vars: Vars)
    requires FindPair(tmpl, LeftBrace, LeftBrace, 0).None?
    ensures RenderServerUrl(tmpl, vars) == Ok(tmpl)
  {
    if tmpl != [] {
      assert Parse(tmpl) == Ok([Text(tmpl)]);
      assert [Text(tmpl)][1..] == [];
      assert Execute([], vars) == Ok([]);
      assert tmpl + [] == tmpl;
      assert Execute([Text(tmpl)], vars) == Ok(tmpl);
    }
  }

  /** A `{{` that is never closed is an error. */
  lemma UnclosedIsError(tmpl: Bytes, vars: Vars, i: nat)
    requires FindPair(tmpl, LeftBrace, LeftBrace, 0) == Some(i)
    requires FindPair(tmpl[i + 2..], RightBrace, RightBrace, 0).None?
    ensures RenderServerUrl(tmpl, vars).Err?
  {
  }

  // ---- proof: parsing a printed template ----

  /** What `Parse` yields for `pending + Print(segs)` when `pending` is
      literal text not yet emitted: runs of text merged, each action kept. */
  function Normal(pending: Bytes, segs: seq<Segment>): seq<Segment>
    decreases |segs|
  {
    if |segs| == 0 then (if pending == [] then [] else [Text(pending)])
    else
      match segs[0]
      case Text(t) => Normal(pending + t, segs[1..])
      case Field(f) => (if pending == [] then [] else [Text(pending)]) + [Field(f)] + Normal([], segs[1..])
  }

  lemma ParseText(a: Bytes)
    requires LeftBrace !in a
    ensures Parse(a) == Ok(if a == [] then [] else [Text(a)])
  {
    assert FindPair(a, LeftBrace, LeftBrace, 0).None?;
  }

  lemma FieldBytes()
    ensures DomainField == [68, 111, 109, 97, 105, 110]
    ensures ProjectField == [80, 114, 111, 106, 101, 99, 116]
    ensures NamespaceField == [78, 97, 109, 101, 115, 112, 97, 99, 101]
    ensures NameField == [78, 97, 109, 101]
  {
  }

  lemma IdentBytes(f: Bytes)
    requires |f| > 0 && forall k :: 0 <= k < |f| ==> IsIdentStart(f[k])
    ensures IsIdent(f) && RightBrace !in f && forall k :: 0 <= k < |f| ==> !IsSpace(f[k])
  {
  }

  lemma VariableIsIdent(f: Bytes)
    requires IsVariable(f)
    ensures IsIdent(f) && RightBrace !in f && forall k :: 0 <= k < |f| ==> !IsSpace(f[k])
  {
    FieldBytes();
    IdentBytes(f);
  }

  /** `FindPair` finds the first occurrence. */
  lemma {:induction false} FindPairAt(t: Bytes, a: uint8, b: uint8, from: nat, i: nat)
    requires from <= i && i + 1 < |t| && t[i] == a && t[i + 1] == b
    requires forall k :: from <= k < i ==> t[k] != a
    ensures FindPair(t, a, b, from) == Some(i)
    decreases i - from
  {
    if from < i {
      FindPairAt(t, a, b, from + 1, i);
    }
  }

  lemma WellFormedTail(segs: seq<Segment>)
    requires |segs| > 0 && WellFormed(segs)
    ensures WellFormed(segs[1..])
    ensures segs[0].Text? ==> segs[0].text != [] && LeftBrace !in segs[0].text
    ensures segs[0].Field? ==> IsVariable(segs[0].field)
  {
    assert forall i :: 0 <= i < |segs[1..]| ==> segs[1..][i] == segs[i + 1];
  }

  /** The text of one action, `{{ .f }}`. */
  function ActionText(f: Bytes): (r: Bytes)
    ensures r == Lit("{{ .") + f + Lit(" }}")
  {
    [LeftBrace, LeftBrace, 32, Dot] + f + [32, RightBrace, RightBrace]
  }

  /** One step of `Parse` on a template whose first action is found. */
  lemma ParseUnfold(t: Bytes, i: nat, j: nat, seg: Segment)
    requires FindPair(t, LeftBrace, LeftBrace, 0) == Some(i)
    requires FindPair(t[i + 2..], RightBrace, RightBrace, 0) == Some(j)
    requires ParseAction(TrimSpace(t[i + 2..][..j])) == Ok(seg)
    ensures Parse(t) == Prepend(t[..i], seg, Parse(t[i + 2..][j + 2..]))
  {
  }

  lemma TrimAction(f: Bytes)
    requires IsVariable(f)
    ensures ParseAction(TrimSpace([32, Dot] + f + [32])) == Ok(Field(f))
  {
    VariableIsIdent(f);
    var s: Bytes := [32, Dot] + f + [32];
    assert FirstNonSpace(s, 0) == 1;
    assert EndOfNonSpace(s, 1, |s|) == |s| - 1;
    assert s[1..|s| - 1] == [Dot] + f;
    assert ([Dot] + f)[1..] == f;
  }

  lemma FindOpen(a: Bytes, f: Bytes, u: Bytes)
    requires LeftBrace !in a
    ensures FindPair(a + ActionText(f) + u, LeftBrace, LeftBrace, 0) == Some(|a|)
  {
    var t := a + ActionText(f) + u;
    assert t[|a|] == LeftBrace && t[|a| + 1] == LeftBrace;
    assert forall k :: 0 <= k < |a| ==> t[k] == a[k];
    FindPairAt(t, LeftBrace, LeftBrace, 0, |a|);
  }

  lemma FindClose(f: Bytes, u: Bytes)
    requires IsVariable(f)
    ensures var rest := [32, Dot] + f + [32, RightBrace, RightBrace] + u;
      && FindPair(rest, RightBrace, RightBrace, 0) == Some(|f| + 3)
      && rest[..|f| + 3] == [32, Dot] + f + [32]
      && rest[|f| + 5..] == u
  {
    VariableIsIdent(f);
    var rest := [32, Dot] + f + [32, RightBrace, RightBrace] + u;
    var j := |f| + 3;
    assert forall k :: 0 <= k < |f| ==> rest[k + 2] == f[k];
    assert forall k :: 0 <= k < j ==> rest[k] != RightBrace;
    FindPairAt(rest, RightBrace, RightBrace, 0, j);
    assert rest[..j] == [32, Dot] + f + [32];
    assert rest[j + 2..] == u;
  }

  lemma ActionSlices(a: Bytes, f: Bytes, u: Bytes)
    ensures var t := a + ActionText(f) + u;
      && t[..|a|] == a
      && t[|a| + 2..] == [32, Dot] + f + [32, RightBrace, RightBrace] + u
  {
  }

  lemma ParseTextThenAction(a: Bytes, f: Bytes, u: Bytes)
    requires LeftBrace !in a && IsVariable(f)
    ensures Parse(a + ActionText(f) + u) ==
      match Parse(u)
      case Err(e) => Err(e)
      case Ok(tail) => Ok((if a == [] then [] else [Text(a)]) + [Field(f)] + tail)
  {
    var t := a + ActionText(f) + u;
    FindOpen(a, f, u);
    ActionSlices(a, f, u);
    FindClose(f, u);
    TrimAction(f);
    ParseUnfold(t, |a|, |f| + 3, Field(f));
  }

  lemma {:induction false} ParsePrintedFrom(pending: Bytes, segs: seq<Segment>)
    requires LeftBrace !in pending && WellFormed(segs)
    ensures Parse(pending + Print(segs)) == Ok(Normal(pending, segs))
    decreases |segs|
  {
    if |segs| == 0 {
      assert pending + Print(segs) == pending;
      ParseText(pending);
    } else {
      WellFormedTail(segs);
      match segs[0]
      case Text(t) =>
        ParsePrintedFrom(pending + t, segs[1..]);
        PrintText(pending, segs);
      case Field(f) =>
        ParsePrintedFrom([], segs[1..]);
        ParsePrintedField(pending, segs);
    }
  }

  lemma PrintText(pending: Bytes, segs: seq<Segment>)
    requires |segs| > 0 && segs[0].Text?
    ensures pending + Print(segs) == (pending + segs[0].text) + Print(segs[1..])
    ensures Normal(pending, segs) == Normal(pending + segs[0].text, segs[1..])
  {
  }

  lemma PrintField(pending: Bytes, segs: seq<Segment>)
    requires |segs| > 0 && segs[0].Field?
    ensures pending + Print(segs) == pending + ActionText(segs[0].field) + Print(segs[1..])
    ensures Normal(pending, segs) ==
      (if pending == [] then [] else [Text(pending)]) + [segs[0]] + Normal([], segs[1..])
  {
    assert Print(segs) == ActionText(segs[0].field) + Print(segs[1..]);
  }

  lemma ParsePrintedField(pending: Bytes, segs: seq<Segment>)
    requires |segs| > 0 && segs[0].Field? && IsVariable(segs[0].field)
    requires LeftBrace !in pending
    requires Parse([] + Print(segs[1..])) == Ok(Normal([], segs[1..]))
    ensures Parse(pending + Print(segs)) == Ok(Normal(pending, segs))
  {
    var f := segs[0].field;
    var u := Print(segs[1..]);
    assert [] + u == u;
    ParseTextThenAction(pending, f, u);
    PrintField(pending, segs);
  }

  /** Executing pending text, a field and an executed tail. */
  lemma ExecuteFieldStep(pending: Bytes, f: Bytes, n: seq<Segment>, vars: Vars, v: Bytes, rest: Bytes)
    requires FieldValue(vars, f) == Ok(v)
    requires Execute(n, vars) == Ok(rest)
    ensures Execute((if pending == [] then [] else [Text(pending)]) + [Field(f)] + n, vars) == Ok(pending + (v + rest))
  {
    assert Execute([Field(f)] + n, vars) == Ok(v + rest) by {
      assert ([Field(f)] + n)[1..] == n;
    }
    if pending != [] {
      assert ([Text(pending)] + [Field(f)] + n)[1..] == [Field(f)] + n;
    } else {
      assert [] + [Field(f)] + n == [Field(f)] + n;
      assert pending + (v + rest) == v + rest;
    }
  }

  lemma {:induction false} ExecuteNormal(pending: Bytes, segs: seq<Segment>, vars: Vars)
    requires WellFormed(segs)
    ensures Execute(Normal(pending, segs), vars) == Ok(pending + Substitute(segs, vars))
    decreases |segs|
  {
    if |segs| == 0 {
      assert pending + [] == pending;
    } else {
      WellFormedTail(segs);
      var rest := Substitute(segs[1..], vars);
      match segs[0]
      case Text(t) =>
        ExecuteNormal(pending + t, segs[1..], vars);
        assert pending + t + rest == pending + (t + rest);
      case Field(f) =>
        ExecuteNormal([], segs[1..], vars);
        var n := Normal([], segs[1..]);
        assert Execute(n, vars) == Ok(rest) by { assert [] + rest == rest; }
        var v := FieldValue(vars, f).value;
        assert Substitute(segs, vars) == v + rest;
        ExecuteFieldStep(pending, f, n, vars, v, rest);
    }
  }
}

/** The structural comparison of two API descriptions (internal/monitor/analyze/openapi/diff.go). */
module OpenApi {
  import opened Strs
  import opened Sorting
  import opened Tallies

  datatype OpKey = OpKey(verb: string, path: string)

  /** A request parameter; `place` is the source's `In`. */
  datatype Param = Param(name: string, place: string, required: bool, typ: string, enum: seq<string>)

  datatype Operation = Operation(
    key: OpKey, deprecated: bool, sunset: string, params: map<string, Param>,
    bodyRequired: bool, bodyProps: set<string>, responses: map<string, map<string, bool>>,
    statuses: seq<string>, security: seq<string>, hasSecurity: bool)

  datatype Doc = Doc(infoVersion: string, servers: seq<string>, operations: map<OpKey, Operation>,
                     security: seq<string>, paths: set<string>)

  datatype Signal =
    | PathRemoved | OperationRemoved | RequiredParamAdded | ParamNowRequired | ParamRemoved
    | BodyNowRequired | BodyPropRequired | TypeNarrowed | EnumValueRemoved | ResponseFieldGone
    | StatusRemoved | AuthChanged | ScopeAdded | Deprecated | Sunset | ServerChanged | Additive
    | MajorVersionBump | ParamRenamed

  function SignalName(s: Signal): string {
    match s
    case PathRemoved => "openapi.path_removed"
    case OperationRemoved => "openapi.operation_removed"
    case RequiredParamAdded => "openapi.required_param_added"
    case ParamNowRequired => "openapi.param_now_required"
    case ParamRemoved => "openapi.param_removed"
    case BodyNowRequired => "openapi.request_body_required"
    case BodyPropRequired => "openapi.request_body_prop_required"
    case TypeNarrowed => "openapi.type_narrowed"
    case EnumValueRemoved => "openapi.enum_value_removed"
    case ResponseFieldGone => "openapi.response_field_removed"
    case StatusRemoved => "openapi.success_status_removed"
    case AuthChanged => "openapi.auth_changed"
    case ScopeAdded => "openapi.scope_added"
    case Deprecated => "openapi.deprecated"
    case Sunset => "openapi.sunset_announced"
    case ServerChanged => "openapi.server_changed"
    case Additive => "openapi.additive"
    case MajorVersionBump => "openapi.version_major_bump"
    case ParamRenamed => "openapi.path_param_renamed"
  }

  datatype Change = Change(kind: Signal, op: OpKey, pointer: string, before: string, after: string, breaking: bool)

  const WHOLE_DOC := OpKey("", "")

  // ----- small parts

  function Lower(c: char): char {
    if 'A' <= c <= 'Z' then c + ('a' - 'A') else c
  }

  function ToLower(s: string): string {
    seq(|s|, i requires 0 <= i < |s| => Lower(s[i]))
  }

  predicate IsPathParam(p: Param) {
    ToLower(p.place) == "path"
  }

  function Absent(before: seq<string>, after: seq<string>): seq<string> {
    if before == [] then []
    else
      var n := |before| - 1;
      Absent(before[..n], after) + (if before[n] in after then [] else [before[n]])
  }

  /** The entries of `before` that `after` does not have, sorted. */
  function Missing(before: seq<string>, after: seq<string>): seq<string> {
    StableSort(LexLess, Absent(before, after))
  }

  method MissingLoop(before: seq<string>, after: seq<string>) returns (out: seq<string>)
    ensures out == Missing(before, after)
  {
    var have := set s | s in after;
    out := [];
    for i := 0 to |before|
      invariant out == Absent(before[..i], after)
    {
      assert before[..i + 1][..i] == before[..i];
      if before[i] !in have {
        out := out + [before[i]];
      }
    }
    assert before[..|before|] == before;
    out := StableSort(LexLess, out);
  }

  lemma {:induction false} MissingMembers(before: seq<string>, after: seq<string>)
    ensures forall s :: s in Missing(before, after) <==> s in before && s !in after
    ensures Missing(before, after) == [] <==> forall s :: s in before ==> s in after
  {
    AbsentMembers(before, after);
    SortMembers(LexLess, Absent(before, after));
    SortMultiset(LexLess, Absent(before, after));
    if Missing(before, after) != [] {
      assert Missing(before, after)[0] in Missing(before, after);
    }
  }

  lemma {:induction false} AbsentMembers(before: seq<string>, after: seq<string>)
    ensures forall s :: s in Absent(before, after) <==> s in before && s !in after
  {
    if before != [] {
      AbsentMembers(before[..|before| - 1], after);
      assert before == before[..|before| - 1] + [before[|before| - 1]];
    }
  }

  /** The security requirement became stricter. */
  predicate Tightened(before: seq<string>, after: seq<string>) {
    (before == [] && after != []) || (Missing(before, after) == [] && |after| > |before|)
  }

  predicate IsSuccess(code: string) {
    if code == "default" then false
    else match Atoi(TrimSpace(code))
      case Some(n) => 200 <= n < 300
      case None => HasPrefix(code, "2")
  }

  function Successes(codes: seq<string>): seq<string> {
    if codes == [] then []
    else
      var n := |codes| - 1;
      Successes(codes[..n]) + (if IsSuccess(codes[n]) then [codes[n]] else [])
  }

  function MissingSuccess(before: seq<string>, after: seq<string>): seq<string> {
    if Successes(after) == [] then [] else Missing(Successes(before), Successes(after))
  }

  // ----- JSON pointers

  /** One token of a JSON pointer, encoded. */
  function EscapePointer(s: string): string {
    ReplaceAll(ReplaceAll(s, "~", "~0"), "/", "~1")
  }

  /** The decoding applied when a reference is followed. */
  function UnescapePointer(s: string): string {
    ReplaceAll(ReplaceAll(s, "~1", "/"), "~0", "~")
  }

  function PathPointer(path: string): string {
    "#/paths/" + EscapePointer(path)
  }

  function OpPointer(k: OpKey): string {
    PathPointer(k.path) + "/" + ToLower(k.verb)
  }

  // ----- one operation

  /** A parameter that a rename of the path does not concern. */
  predicate Concerns(p: Param, renamed: bool) {
    !(renamed && IsPathParam(p))
  }

  function SharedParamChanges(key: OpKey, name: string, bp: Param, hp: Param): seq<Change> {
    var at := OpPointer(key) + "/parameters/" + name;
    (if !bp.required && hp.required then [Change(ParamNowRequired, key, at, "optional", "required", true)] else [])
    + (if bp.typ != "" && hp.typ != "" && bp.typ != hp.typ
       then [Change(TypeNarrowed, key, at, bp.typ, hp.typ, true)] else [])
    + (if Missing(bp.enum, hp.enum) != []
       then [Change(EnumValueRemoved, key, at, Strs.Join(Missing(bp.enum, hp.enum), ", "), "", true)] else [])
  }

  /** What the first parameter loop says about a parameter of the base. */
  function BaseParamChanges(b: Operation, h: Operation, renamed: bool, name: string): seq<Change>
    requires name in b.params
  {
    if !Concerns(b.params[name], renamed) then []
    else if name !in h.params then
      [Change(ParamRemoved, b.key, OpPointer(b.key) + "/parameters/" + name, name, "", false)]
    else SharedParamChanges(b.key, name, b.params[name], h.params[name])
  }

  /** What the second parameter loop says about a parameter of the head. */
  function HeadParamChanges(b: Operation, h: Operation, renamed: bool, name: string): seq<Change>
    requires name in h.params
  {
    var at := OpPointer(b.key) + "/parameters/" + name;
    if name in b.params || !Concerns(h.params[name], renamed) then []
    else if h.params[name].required then [Change(RequiredParamAdded, b.key, at, "", name, true)]
    else [Change(Additive, b.key, at, "", name, false)]
  }

  function BodyPropChange(b: Operation, name: string): Change {
    Change(BodyPropRequired, b.key, OpPointer(b.key) + "/requestBody/required/" + name, "", name, true)
  }

  function BodyRequiredChanges(b: Operation, h: Operation): seq<Change> {
    if !b.bodyRequired && h.bodyRequired
    then [Change(BodyNowRequired, b.key, OpPointer(b.key) + "/requestBody", "optional", "required", true)] else []
  }

  predicate FieldGone(b: Operation, h: Operation, code: string, name: string) {
    && IsSuccess(code) && code in b.responses && code in h.responses
    && name in b.responses[code] && name !in h.responses[code]
  }

  function FieldChange(b: Operation, code: string, name: string): Change
    requires code in b.responses && name in b.responses[code]
  {
    Change(ResponseFieldGone, b.key, OpPointer(b.key) + "/responses/" + code + "/" + name, name, "",
           b.responses[code][name])
  }

  function TailChanges(b: Operation, h: Operation): seq<Change> {
    var gone := MissingSuccess(b.statuses, h.statuses);
    var breaking := Tightened(b.security, h.security);
    (if gone != []
     then [Change(StatusRemoved, b.key, OpPointer(b.key) + "/responses", Strs.Join(gone, ", "), "", false)] else [])
    + (if b.security != h.security && (b.hasSecurity || h.hasSecurity)
       then [Change(if !breaking && |h.security| == |b.security| then ScopeAdded else AuthChanged, b.key,
                    OpPointer(b.key) + "/security", Strs.Join(b.security, ", "), Strs.Join(h.security, ", "), breaking)]
       else [])
    + (if !b.deprecated && h.deprecated
       then [Change(Deprecated, b.key, OpPointer(b.key) + "/deprecated", "", "true", false)] else [])
    + (if b.sunset == "" && h.sunset != ""
       then [Change(Sunset, b.key, OpPointer(b.key) + "/x-sunset", "", h.sunset, false)] else [])
  }

  /** `c` is said about one of these parameters of the base, of the head, or of these body properties. */
  ghost predicate BaseSays(b: Operation, h: Operation, renamed: bool, names: set<string>, c: Change) {
    exists name :: name in names && name in b.params && c in BaseParamChanges(b, h, renamed, name)
  }

  ghost predicate HeadSays(b: Operation, h: Operation, renamed: bool, names: set<string>, c: Change) {
    exists name :: name in names && name in h.params && c in HeadParamChanges(b, h, renamed, name)
  }

  ghost predicate PropSays(b: Operation, names: set<string>, c: Change) {
    exists name :: name in names && name !in b.bodyProps && c == BodyPropChange(b, name)
  }

  /** `c` is one of the changes between two versions of an operation. */
  ghost predicate OpChange(b: Operation, h: Operation, renamed: bool, c: Change) {
    || BaseSays(b, h, renamed, b.params.Keys, c)
    || HeadSays(b, h, renamed, h.params.Keys, c)
    || c in BodyRequiredChanges(b, h)
    || PropSays(b, h.bodyProps, c)
    || (exists code, name :: FieldGone(b, h, code, name) && c == FieldChange(b, code, name))
    || c in TailChanges(b, h)
  }

  // ----- the same changes with their multiplicities

  ghost function BaseOf(b: Operation, h: Operation, renamed: bool): string -> multiset<Change> {
    name => if name in b.params then multiset(BaseParamChanges(b, h, renamed, name)) else multiset{}
  }

  ghost function HeadOf(b: Operation, h: Operation, renamed: bool): string -> multiset<Change> {
    name => if name in h.params then multiset(HeadParamChanges(b, h, renamed, name)) else multiset{}
  }

  ghost function PropOf(b: Operation): string -> multiset<Change> {
    name => if name in b.bodyProps then multiset{} else multiset{BodyPropChange(b, name)}
  }

  ghost function FieldOf(b: Operation, h: Operation, code: string): string -> multiset<Change> {
    name => if FieldGone(b, h, code, name) then multiset{FieldChange(b, code, name)} else multiset{}
  }

  ghost function CodeOf(b: Operation, h: Operation): string -> multiset<Change> {
    code => if code in b.responses then Total(b.responses[code].Keys, FieldOf(b, h, code)) else multiset{}
  }

  ghost function ParamChanges(b: Operation, h: Operation, renamed: bool): multiset<Change> {
    Total(b.params.Keys, BaseOf(b, h, renamed)) + Total(h.params.Keys, HeadOf(b, h, renamed))
  }

  ghost function BodyChanges(b: Operation, h: Operation): multiset<Change> {
    multiset(BodyRequiredChanges(b, h)) + Total(h.bodyProps, PropOf(b))
  }

  /** Every change between two versions of an operation, as often as the two loops and the tests after them say it. */
  ghost function OpChanges(b: Operation, h: Operation, renamed: bool): multiset<Change> {
    ParamChanges(b, h, renamed) + BodyChanges(b, h) + Total(b.responses.Keys, CodeOf(b, h))
    + multiset(TailChanges(b, h))
  }

  lemma CodeMembers(b: Operation, h: Operation, c: Change)
    ensures c in Total(b.responses.Keys, CodeOf(b, h))
       <==> exists code, name :: FieldGone(b, h, code, name) && c == FieldChange(b, code, name)
  {
    var f := CodeOf(b, h);
    TotalMembers(b.responses.Keys, f, c);
    forall code | code in b.responses
      ensures c in f(code) <==> exists name :: FieldGone(b, h, code, name) && c == FieldChange(b, code, name)
    {
      TotalMembers(b.responses[code].Keys, FieldOf(b, h, code), c);
      if name :| FieldGone(b, h, code, name) && c == FieldChange(b, code, name) {
        assert c in FieldOf(b, h, code)(name);
      }
    }
  }

  lemma OpChangesMembers(b: Operation, h: Operation, renamed: bool, c: Change)
    ensures c in OpChanges(b, h, renamed) <==> OpChange(b, h, renamed, c)
  {
    TotalMembers(b.params.Keys, BaseOf(b, h, renamed), c);
    TotalMembers(h.params.Keys, HeadOf(b, h, renamed), c);
    TotalMembers(h.bodyProps, PropOf(b), c);
    CodeMembers(b, h, c);
    hide BaseParamChanges, HeadParamChanges, TailChanges, BodyRequiredChanges, Total, FieldGone;
    assert BaseSays(b, h, renamed, b.params.Keys, c) <==> c in Total(b.params.Keys, BaseOf(b, h, renamed));
    assert HeadSays(b, h, renamed, h.params.Keys, c) <==> c in Total(h.params.Keys, HeadOf(b, h, renamed));
    assert PropSays(b, h.bodyProps, c) <==> c in Total(h.bodyProps, PropOf(b));
  }

  lemma ParamParts(b: Operation, h: Operation, renamed: bool, name: string)
    ensures name in b.params ==> BaseOf(b, h, renamed)(name) == multiset(BaseParamChanges(b, h, renamed, name))
    ensures name in h.params ==> HeadOf(b, h, renamed)(name) == multiset(HeadParamChanges(b, h, renamed, name))
  {
  }

  method DiffParams(b: Operation, h: Operation, renamed: bool) returns (out: seq<Change>)
    ensures multiset(out) == ParamChanges(b, h, renamed)
  {
    hide BaseParamChanges, HeadParamChanges, BaseOf, HeadOf, Total, Gathered;
    out := [];
    GatherNone(out, b.params.Keys, BaseOf(b, h, renamed));
    var todo := b.params.Keys;
    while todo != {}
      invariant todo <= b.params.Keys && Gathered(out, multiset([]), b.params.Keys, todo, BaseOf(b, h, renamed))
    {
      var name :| name in todo;
      var more := BaseParamChanges(b, h, renamed, name);
      ParamParts(b, h, renamed, name);
      GatherMore(out, multiset([]), b.params.Keys, todo, BaseOf(b, h, renamed), name, more);
      out := out + more;
      todo := todo - {name};
    }
    GatherAll(out, multiset([]), b.params.Keys, BaseOf(b, h, renamed));
    ghost var first := multiset(out);
    GatherNone(out, h.params.Keys, HeadOf(b, h, renamed));
    todo := h.params.Keys;
    while todo != {}
      invariant todo <= h.params.Keys && Gathered(out, first, h.params.Keys, todo, HeadOf(b, h, renamed))
    {
      var name :| name in todo;
      var more := HeadParamChanges(b, h, renamed, name);
      ParamParts(b, h, renamed, name);
      GatherMore(out, first, h.params.Keys, todo, HeadOf(b, h, renamed), name, more);
      out := out + more;
      todo := todo - {name};
    }
    GatherAll(out, first, h.params.Keys, HeadOf(b, h, renamed));
  }

  method DiffBody(b: Operation, h: Operation) returns (out: seq<Change>)
    ensures multiset(out) == BodyChanges(b, h)
  {
    hide BodyRequiredChanges, BodyPropChange, Total, Gathered;
    out := BodyRequiredChanges(b, h);
    ghost var first := multiset(out);
    GatherNone(out, h.bodyProps, PropOf(b));
    var todo := h.bodyProps;
    while todo != {}
      invariant todo <= h.bodyProps && Gathered(out, first, h.bodyProps, todo, PropOf(b))
    {
      var name :| name in todo;
      var more := if name !in b.bodyProps then [BodyPropChange(b, name)] else [];
      GatherMore(out, first, h.bodyProps, todo, PropOf(b), name, more);
      out := out + more;
      todo := todo - {name};
    }
    GatherAll(out, first, h.bodyProps, PropOf(b));
  }

  /** Nothing is said about a response that is no success, or that the head does not describe. */
  lemma {:induction false} NoFields(b: Operation, h: Operation, code: string, names: set<string>)
    requires !IsSuccess(code) || code !in h.responses
    ensures Total(names, FieldOf(b, h, code)) == multiset{}
  {
    if names != {} { NoFields(b, h, code, names - {Pick(names)}); }
  }

  lemma FieldParts(b: Operation, h: Operation, code: string, name: string)
    requires IsSuccess(code) && code in b.responses && code in h.responses && name in b.responses[code]
    ensures FieldOf(b, h, code)(name)
         == multiset(if name in h.responses[code] then [] else [FieldChange(b, code, name)])
  {
  }

  method DiffFields(b: Operation, h: Operation, code: string) returns (out: seq<Change>)
    requires code in b.responses
    ensures multiset(out) == CodeOf(b, h)(code)
  {
    out := [];
    ghost var f := FieldOf(b, h, code);
    assert CodeOf(b, h)(code) == Total(b.responses[code].Keys, f);
    if !IsSuccess(code) || code !in h.responses {
      NoFields(b, h, code, b.responses[code].Keys);
      return;
    }
    var names := SortedKeys(b.responses[code].Keys);
    assert NoRepeats(names) by {
      assert forall i, j :: 0 <= i < j < |names| ==> Same(names[i]) != Same(names[j]);
    }
    hide *;
    ListNone(names, f);
    for i := 0 to |names|
      invariant multiset(out) == Total(Elements(names[..i]), f)
    {
      assert names[i] in names;
      var more := if names[i] in h.responses[code] then [] else [FieldChange(b, code, names[i])];
      FieldParts(b, h, code, names[i]);
      ListMore(out, names, i, f, more);
      out := out + more;
    }
    ListAll(names, b.responses[code].Keys);
  }

  method DiffResponses(b: Operation, h: Operation) returns (out: seq<Change>)
    ensures multiset(out) == Total(b.responses.Keys, CodeOf(b, h))
  {
    hide *;
    out := [];
    GatherNone(out, b.responses.Keys, CodeOf(b, h));
    var todo: set<string> := b.responses.Keys;
    while todo != {}
      invariant todo <= b.responses.Keys && Gathered(out, multiset([]), b.responses.Keys, todo, CodeOf(b, h))
    {
      var code :| code in todo;
      var fields := DiffFields(b, h, code);
      GatherMore(out, multiset([]), b.responses.Keys, todo, CodeOf(b, h), code, fields);
      out := out + fields;
      todo := todo - {code};
    }
    GatherAll(out, multiset([]), b.responses.Keys, CodeOf(b, h));
  }

  /** diffOperationOpts: every change between two operations, each as often as it is due, in no promised order. */
  method DiffOperation(b: Operation, h: Operation, renamed: bool) returns (out: seq<Change>)
    ensures multiset(out) == OpChanges(b, h, renamed)
    ensures forall c :: c in out <==> OpChange(b, h, renamed, c)
  {
    var params := DiffParams(b, h, renamed);
    var body := DiffBody(b, h);
    var responses := DiffResponses(b, h);
    out := params + body + responses + TailChanges(b, h);
    forall c ensures c in out <==> OpChange(b, h, renamed, c) {
      OpChangesMembers(b, h, renamed, c);
      assert c in out <==> c in multiset(out);
    }
  }
}

/** What the operation diff promises: without a breaking change the old requests still pass. */
module OpenApiLaws {
  import opened Strs
  import opened OpenApi

  /** A value a caller sends, by its type name and its text. */
  datatype Value = Value(typ: string, text: string)

  /** A request: parameters by name, and the names of the properties of its body. */
  datatype Request = Request(params: map<string, Value>, body: Option<set<string>>)

  ghost predicate Conforms(p: Param, v: Value) {
    && (p.typ == "" || v.typ == p.typ)
    && (p.enum == [] || v.text in p.enum)
  }

  ghost predicate ParamAccepts(p: Param, sent: map<string, Value>, name: string) {
    && (p.required ==> name in sent)
    && (name in sent ==> Conforms(p, sent[name]))
  }

  /** The server takes the request; a parameter it does not declare is ignored. */
  ghost predicate Accepts(op: Operation, r: Request, renamed: bool) {
    && (forall name :: name in op.params && Concerns(op.params[name], renamed) ==>
                         ParamAccepts(op.params[name], r.params, name))
    && (op.bodyRequired ==> r.body.Some?)
    && (r.body.Some? ==> op.bodyProps <= r.body.value)
  }

  /** Every request `b` accepts that sends only what `b` declares is accepted by `h`. */
  ghost predicate Compatible(b: Operation, h: Operation, renamed: bool) {
    forall r :: Accepts(b, r, renamed) && r.params.Keys <= b.params.Keys ==> Accepts(h, r, renamed)
  }

  predicate RequestSide(s: Signal) {
    || s.RequiredParamAdded? || s.ParamNowRequired? || s.BodyNowRequired? || s.BodyPropRequired?
    || s.TypeNarrowed? || s.EnumValueRemoved?
  }

  ghost predicate NothingBreaks(b: Operation, h: Operation, renamed: bool) {
    forall c :: OpChange(b, h, renamed, c) && RequestSide(c.kind) ==> !c.breaking
  }

  /** A parameter is filed under its place, so both sides agree whether a shared one is in the path. */
  ghost predicate SamePlaces(b: Operation, h: Operation) {
    forall name :: name in b.params && name in h.params ==> (IsPathParam(b.params[name]) <==> IsPathParam(h.params[name]))
  }

  ghost predicate Shared(b: Operation, h: Operation, renamed: bool, name: string) {
    name in b.params && name in h.params && Concerns(b.params[name], renamed)
  }

  /** A type or an enumeration appears where there was none: the diff says nothing. */
  predicate SilentlyNarrowed(bp: Param, hp: Param) {
    (bp.typ == "" && hp.typ != "") || (bp.enum == [] && hp.enum != [])
  }

  ghost predicate DeclaredAlike(b: Operation, h: Operation, renamed: bool) {
    forall name :: Shared(b, h, renamed, name) ==>
                     && (b.params[name].typ == "" <==> h.params[name].typ == "")
                     && (b.params[name].enum == [] <==> h.params[name].enum == [])
  }

  // ----- one parameter

  predicate Flagged(bp: Param, hp: Param) {
    || (!bp.required && hp.required)
    || (bp.typ != "" && hp.typ != "" && bp.typ != hp.typ)
    || Missing(bp.enum, hp.enum) != []
  }

  lemma SharedBreaks(b: Operation, h: Operation, renamed: bool, name: string)
    requires Shared(b, h, renamed, name)
    ensures Flagged(b.params[name], h.params[name]) <==>
            exists c :: c in SharedParamChanges(b.key, name, b.params[name], h.params[name])
    ensures forall c :: c in SharedParamChanges(b.key, name, b.params[name], h.params[name]) ==>
              c.breaking && RequestSide(c.kind)
  {
    var cs := SharedParamChanges(b.key, name, b.params[name], h.params[name]);
    if Flagged(b.params[name], h.params[name]) {
      assert |cs| > 0;
      assert cs[0] in cs;
    }
  }

  /** What a parameter refuses of the values another one takes. */
  predicate Narrower(bp: Param, hp: Param) {
    || (hp.typ != "" && hp.typ != bp.typ)
    || (hp.enum != [] && (bp.enum == [] || Missing(bp.enum, hp.enum) != []))
  }

  function Longest(xs: seq<string>): (n: nat)
    ensures forall s :: s in xs ==> |s| <= n
  {
    if xs == [] then 0
    else
      assert forall s :: s in xs ==> s == xs[0] || s in xs[1..];
      var n := Longest(xs[1..]);
      if |xs[0]| > n then |xs[0]| else n
  }

  function Accepted(p: Param): (v: Value)
    ensures Conforms(p, v)
  {
    Value(p.typ, if p.enum == [] then "" else p.enum[0])
  }

  /** A value that one parameter takes and a narrower one does not. */
  lemma Witness(bp: Param, hp: Param) returns (v: Value)
    requires Narrower(bp, hp)
    ensures Conforms(bp, v) && !Conforms(hp, v)
  {
    var text := if bp.enum == [] then "" else bp.enum[0];
    if hp.typ != "" && hp.typ != bp.typ {
      v := Value(if bp.typ == "" then hp.typ + "x" else bp.typ, text);
    } else if bp.enum == [] {
      v := Value(bp.typ, seq(Longest(hp.enum) + 1, i => 'x'));
    } else {
      MissingMembers(bp.enum, hp.enum);
      var gone :| gone in bp.enum && gone !in hp.enum;
      v := Value(bp.typ, gone);
    }
  }

  lemma WidensToo(bp: Param, hp: Param, v: Value)
    requires !Narrower(bp, hp) && Conforms(bp, v)
    ensures Conforms(hp, v)
  {
    MissingMembers(bp.enum, hp.enum);
  }

  // ----- one operation

  /** A parameter that the base does not know is required. */
  ghost predicate AddsRequired(b: Operation, h: Operation, renamed: bool, name: string) {
    name in h.params && name !in b.params && Concerns(h.params[name], renamed) && h.params[name].required
  }

  /** The head asks for no more than the base did. */
  ghost predicate Fits(b: Operation, h: Operation, renamed: bool) {
    && (forall name :: Shared(b, h, renamed, name) ==>
                         !Narrower(b.params[name], h.params[name]) && (h.params[name].required ==> b.params[name].required))
    && (forall name :: !AddsRequired(b, h, renamed, name))
    && (h.bodyRequired ==> b.bodyRequired)
    && h.bodyProps <= b.bodyProps
  }

  lemma FitsAccepts(b: Operation, h: Operation, renamed: bool, r: Request)
    requires SamePlaces(b, h) && Fits(b, h, renamed)
    requires Accepts(b, r, renamed) && r.params.Keys <= b.params.Keys
    ensures Accepts(h, r, renamed)
  {
    forall name | name in h.params && Concerns(h.params[name], renamed)
      ensures ParamAccepts(h.params[name], r.params, name)
    {
      if name in b.params {
        assert Shared(b, h, renamed, name);
        assert ParamAccepts(b.params[name], r.params, name);
        if name in r.params {
          WidensToo(b.params[name], h.params[name], r.params[name]);
        }
      } else {
        assert !AddsRequired(b, h, renamed, name) && name !in r.params.Keys;
      }
    }
  }

  /** A request the operation takes: every parameter it declares, with a body. */
  function Full(op: Operation): (r: Request)
    ensures r.params.Keys == op.params.Keys
    ensures forall renamed :: Accepts(op, r, renamed)
  {
    Request(map name | name in op.params :: Accepted(op.params[name]), Some(op.bodyProps))
  }

  /** Whatever does not fit refuses some request. */
  lemma Refused(b: Operation, h: Operation, renamed: bool) returns (r: Request)
    requires SamePlaces(b, h) && !Fits(b, h, renamed)
    ensures Accepts(b, r, renamed) && r.params.Keys <= b.params.Keys && !Accepts(h, r, renamed)
  {
    var full := Full(b);
    if name :| Shared(b, h, renamed, name) && Narrower(b.params[name], h.params[name]) {
      var v := Witness(b.params[name], h.params[name]);
      r := full.(params := full.params[name := v]);
      assert !ParamAccepts(h.params[name], r.params, name);
    } else if name :| Shared(b, h, renamed, name) && h.params[name].required && !b.params[name].required {
      r := full.(params := full.params - {name});
      assert !ParamAccepts(h.params[name], r.params, name);
    } else if name :| AddsRequired(b, h, renamed, name) {
      r := full;
      assert !ParamAccepts(h.params[name], r.params, name);
    } else if h.bodyRequired && !b.bodyRequired {
      r := full.(body := None);
    } else {
      r := full;
    }
  }

  lemma CompatibleIsFits(b: Operation, h: Operation, renamed: bool)
    requires SamePlaces(b, h)
    ensures Compatible(b, h, renamed) <==> Fits(b, h, renamed)
  {
    if Fits(b, h, renamed) {
      forall r | Accepts(b, r, renamed) && r.params.Keys <= b.params.Keys ensures Accepts(h, r, renamed) {
        FitsAccepts(b, h, renamed, r);
      }
    } else {
      var r := Refused(b, h, renamed);
    }
  }

  /** Exactly the demands the diff flags are the breaking ones. */
  ghost predicate Unflagged(b: Operation, h: Operation, renamed: bool) {
    && (forall name :: Shared(b, h, renamed, name) ==> !Flagged(b.params[name], h.params[name]))
    && (forall name :: !AddsRequired(b, h, renamed, name))
    && (h.bodyRequired ==> b.bodyRequired)
    && h.bodyProps <= b.bodyProps
  }

  lemma FlaggedBreaks(b: Operation, h: Operation, renamed: bool) returns (c: Change)
    requires !Unflagged(b, h, renamed)
    ensures OpChange(b, h, renamed, c) && RequestSide(c.kind) && c.breaking
  {
    if name :| Shared(b, h, renamed, name) && Flagged(b.params[name], h.params[name]) {
      SharedBreaks(b, h, renamed, name);
      c :| c in SharedParamChanges(b.key, name, b.params[name], h.params[name]);
      assert c in BaseParamChanges(b, h, renamed, name);
    } else if name :| AddsRequired(b, h, renamed, name) {
      c := HeadParamChanges(b, h, renamed, name)[0];
      assert c in HeadParamChanges(b, h, renamed, name);
    } else if h.bodyRequired && !b.bodyRequired {
      c := BodyRequiredChanges(b, h)[0];
    } else {
      var name :| name in h.bodyProps && name !in b.bodyProps;
      c := BodyPropChange(b, name);
    }
  }

  /** Every request-side change comes from a flagged condition. */
  lemma UnflaggedHasNone(b: Operation, h: Operation, renamed: bool, c: Change)
    requires Unflagged(b, h, renamed) && OpChange(b, h, renamed, c)
    ensures !RequestSide(c.kind)
  {
    if BaseSays(b, h, renamed, b.params.Keys, c) {
      UnflaggedBase(b, h, renamed, c);
    } else if HeadSays(b, h, renamed, h.params.Keys, c) {
      var name :| name in h.params && c in HeadParamChanges(b, h, renamed, name);
      assert !AddsRequired(b, h, renamed, name);
    } else {
      TailIsNotRequestSide(b, h);
      hide TailChanges;
    }
  }

  lemma UnflaggedBase(b: Operation, h: Operation, renamed: bool, c: Change)
    requires Unflagged(b, h, renamed) && BaseSays(b, h, renamed, b.params.Keys, c)
    ensures !RequestSide(c.kind)
  {
    var name :| name in b.params && c in BaseParamChanges(b, h, renamed, name);
    if Shared(b, h, renamed, name) {
      SharedBreaks(b, h, renamed, name);
    }
  }

  lemma TailIsNotRequestSide(b: Operation, h: Operation)
    ensures forall c :: c in TailChanges(b, h) ==> !RequestSide(c.kind)
  {
    hide Missing, Tightened, MissingSuccess, OpPointer;
  }

  lemma NothingBreaksIsUnflagged(b: Operation, h: Operation, renamed: bool)
    ensures NothingBreaks(b, h, renamed) <==> Unflagged(b, h, renamed)
  {
    if Unflagged(b, h, renamed) {
      forall c | OpChange(b, h, renamed, c) ensures !RequestSide(c.kind) {
        UnflaggedHasNone(b, h, renamed, c);
      }
    } else {
      var c := FlaggedBreaks(b, h, renamed);
    }
  }

  /** Where both sides declare types and enumerations alike, "nothing breaks" is exactly compatibility. */
  lemma NoBreakingChangeIsCompatible(b: Operation, h: Operation, renamed: bool)
    requires SamePlaces(b, h) && DeclaredAlike(b, h, renamed)
    ensures NothingBreaks(b, h, renamed) <==> Compatible(b, h, renamed)
  {
    CompatibleIsFits(b, h, renamed);
    NothingBreaksIsUnflagged(b, h, renamed);
    forall name | Shared(b, h, renamed, name)
      ensures Narrower(b.params[name], h.params[name]) || (h.params[name].required && !b.params[name].required)
              <==> Flagged(b.params[name], h.params[name])
    {
      MissingMembers(b.params[name].enum, h.params[name].enum);
    }
  }

  /** On all inputs: a quiet diff is compatible exactly when nothing was narrowed from "undeclared". */
  lemma QuietDiffIsCompatibleIff(b: Operation, h: Operation, renamed: bool)
    requires SamePlaces(b, h) && NothingBreaks(b, h, renamed)
    ensures Compatible(b, h, renamed) <==>
            forall name :: Shared(b, h, renamed, name) ==> !SilentlyNarrowed(b.params[name], h.params[name])
  {
    CompatibleIsFits(b, h, renamed);
    NothingBreaksIsUnflagged(b, h, renamed);
    forall name | Shared(b, h, renamed, name)
      ensures Narrower(b.params[name], h.params[name]) <==> SilentlyNarrowed(b.params[name], h.params[name])
    {
      assert !Flagged(b.params[name], h.params[name]);
    }
  }

  /** An operation with one optional query parameter `q` of this type. */
  function OneParam(typ: string): Operation {
    Operation(OpKey("GET", "/a"), false, "", map["q" := Param("q", "query", false, typ, [])], false, {}, map[], [], [],
              false)
  }

  /** A parameter that had no type and becomes an integer: nothing is reported, and text is no longer accepted. */
  lemma TypeAddedSilently(typ: string)
    requires typ == "integer"
    ensures NothingBreaks(OneParam(""), OneParam(typ), false)
    ensures var r := Request(map["q" := Value("string", "x")], None);
            Accepts(OneParam(""), r, false) && !Accepts(OneParam(typ), r, false)
  {
    NothingBreaksIsUnflagged(OneParam(""), OneParam(typ), false);
    MissingMembers([], []);
    var query := "query";
    assert ToLower(query) != "path" by { assert ToLower(query)[0] == 'q'; }
    var sent := Value("string", "x");
    assert sent.typ != typ && !Conforms(OneParam(typ).params["q"], sent) by { assert sent.typ[0] != typ[0]; }
    assert !ParamAccepts(OneParam(typ).params["q"], map["q" := sent], "q");
  }

  /** What the base promises at a success code that both sides describe is still there. */
  ghost predicate PromisesKept(b: Operation, h: Operation) {
    forall code, name ::
      IsSuccess(code) && code in b.responses && code in h.responses && name in b.responses[code] && b.responses[code][name]
      ==> name in h.responses[code]
  }

  ghost predicate NoFieldBreaks(b: Operation, h: Operation, renamed: bool) {
    forall c :: OpChange(b, h, renamed, c) && c.kind.ResponseFieldGone? ==> !c.breaking
  }

  lemma FieldGoneIsSource(b: Operation, h: Operation, renamed: bool, c: Change)
    requires OpChange(b, h, renamed, c) && c.kind.ResponseFieldGone?
    ensures exists code, name :: FieldGone(b, h, code, name) && c == FieldChange(b, code, name)
  {
    PartKinds(b, h, renamed);
    hide BaseParamChanges, HeadParamChanges, BodyRequiredChanges, TailChanges, FieldGone;
  }

  ghost predicate NoneAboutFields(cs: seq<Change>) {
    forall c :: c in cs ==> !c.kind.ResponseFieldGone?
  }

  lemma PartKinds(b: Operation, h: Operation, renamed: bool)
    ensures forall name :: name in b.params ==> NoneAboutFields(BaseParamChanges(b, h, renamed, name))
    ensures forall name :: name in h.params ==> NoneAboutFields(HeadParamChanges(b, h, renamed, name))
    ensures NoneAboutFields(BodyRequiredChanges(b, h)) && NoneAboutFields(TailChanges(b, h))
  {
    hide Missing, Tightened, MissingSuccess, OpPointer;
    forall name | name in b.params && name in h.params
      ensures NoneAboutFields(SharedParamChanges(b.key, name, b.params[name], h.params[name]))
    {
    }
  }

  lemma FieldGoneIsChange(b: Operation, h: Operation, renamed: bool, code: string, name: string)
    requires FieldGone(b, h, code, name)
    ensures OpChange(b, h, renamed, FieldChange(b, code, name))
  {
  }

  /** Promised response fields survive exactly when no removed field is reported as breaking. */
  lemma PromisedFieldsSurvive(b: Operation, h: Operation, renamed: bool)
    ensures NoFieldBreaks(b, h, renamed) <==> PromisesKept(b, h)
  {
    if NoFieldBreaks(b, h, renamed) {
      forall code, name | FieldGone(b, h, code, name) ensures !b.responses[code][name] {
        FieldGoneIsChange(b, h, renamed, code, name);
      }
      assert PromisesKept(b, h) by {
        assert forall code, name :: FieldGone(b, h, code, name) ==> !b.responses[code][name];
      }
    }
    if PromisesKept(b, h) {
      forall c | OpChange(b, h, renamed, c) && c.kind.ResponseFieldGone? ensures !c.breaking {
        FieldGoneIsSource(b, h, renamed, c);
      }
    }
  }

  lemma SelfParams(op: Operation, renamed: bool)
    ensures forall name :: name in op.params ==> BaseParamChanges(op, op, renamed, name) == []
    ensures forall name :: name in op.params ==> HeadParamChanges(op, op, renamed, name) == []
  {
    hide OpPointer;
    forall name | name in op.params ensures BaseParamChanges(op, op, renamed, name) == [] {
      MissingMembers(op.params[name].enum, op.params[name].enum);
    }
  }

  lemma SelfTail(op: Operation)
    ensures TailChanges(op, op) == [] && BodyRequiredChanges(op, op) == []
  {
    MissingMembers(Successes(op.statuses), Successes(op.statuses));
    hide Missing, OpPointer, Successes;
  }

  /** An operation does not differ from itself. */
  lemma SelfDiffEmpty(op: Operation, renamed: bool)
    ensures forall c :: !OpChange(op, op, renamed, c)
  {
    SelfParams(op, renamed);
    SelfTail(op);
    hide BaseParamChanges, HeadParamChanges, TailChanges, BodyRequiredChanges;
  }
}

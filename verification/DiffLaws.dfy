/**
 What each change of the structural diff stands for (internal/monitor/analyze/openapi/diff.go),
 signal by signal: exactly when it is reported, with which texts, and whether it counts as breaking.
 */
module DiffLaws {
  import opened Strs
  import opened Sorting
  import opened OpenApi
  import opened OpenApiLaws
  import opened OpenApiDoc

  // ----- success codes

  predicate Blank(c: char) {
    c in " \t\n\r\U{000b}\U{000c}"
  }

  predicate IsSpace(s: string) {
    forall i :: 0 <= i < |s| ==> Blank(s[i])
  }

  lemma {:induction false} TrimsSpace(pre: string, body: string, post: string)
    requires IsSpace(pre) && IsSpace(post)
    requires body != "" && !Blank(body[0]) && !Blank(body[|body| - 1])
    ensures TrimSpace(pre + body + post) == body
    decreases |pre| + |post|
  {
    var s := pre + body + post;
    if pre != "" {
      assert s == [pre[0]] + (pre[1..] + body + post);
      assert s[0] == pre[0] && s[1..] == pre[1..] + body + post;
      TrimsSpace(pre[1..], body, post);
    } else if post != "" {
      var n := |post| - 1;
      assert s[0] == body[0] && s[|s| - 1] == post[n] && s[..|s| - 1] == pre + body + post[..n];
      TrimsSpace(pre, body, post[..n]);
    } else {
      assert s == body;
    }
  }

  lemma ThreeDigits(d: string)
    requires |d| == 3 && AllDigits(d)
    ensures Atoi(d).Some? && (200 <= Atoi(d).value < 300 <==> d[0] == '2')
  {
    var a, b := d[..2], d[..1];
    assert Number("") == 0;
    assert b[..0] == "" && Number(b) == d[0] as int - '0' as int;
    assert a[..1] == b && Number(a) == 10 * Number(b) + (d[1] as int - '0' as int);
    assert Number(d) == 10 * Number(a) + (d[2] as int - '0' as int);
  }

  /** A three-digit code, with or without space around it, is a success exactly when it starts with 2. */
  lemma SuccessStartsWithTwo(pre: string, d: string, post: string)
    requires IsSpace(pre) && IsSpace(post) && |d| == 3 && AllDigits(d)
    ensures IsSuccess(pre + d + post) <==> d[0] == '2'
  {
    TrimsSpace(pre, d, post);
    ThreeDigits(d);
    var code, deflt := pre + d + post, "default";
    assert d[0] in code && code[|pre|] == d[0];
    assert d[0] !in deflt;
  }

  predicate OfNumbers(c: char) {
    IsDigit(c) || c in "+- \t\n\r\U{000b}\U{000c}"
  }

  lemma {:induction false} TrimKeeps(s: string, i: nat)
    requires i < |s| && !OfNumbers(s[i])
    ensures exists k :: 0 <= k < |TrimSpace(s)| && TrimSpace(s)[k] == s[i]
    decreases |s|
  {
    if Blank(s[0]) {
      assert i > 0 && s[1..][i - 1] == s[i];
      TrimKeeps(s[1..], i - 1);
      assert TrimSpace(s) == TrimSpace(s[1..]);
    } else if Blank(s[|s| - 1]) {
      assert i < |s| - 1 && s[..|s| - 1][i] == s[i];
      TrimKeeps(s[..|s| - 1], i);
      assert TrimSpace(s) == TrimSpace(s[..|s| - 1]);
    } else {
      assert TrimSpace(s)[i] == s[i];
    }
  }

  /** A code that is no number at all is a success exactly when it starts with 2; "default" is none. */
  lemma NoNumberIsSuccessIff(code: string)
    requires exists i :: 0 <= i < |code| && !OfNumbers(code[i])
    ensures IsSuccess(code) <==> code[0] == '2'
  {
    var i :| 0 <= i < |code| && !OfNumbers(code[i]);
    TrimKeeps(code, i);
    var t := TrimSpace(code);
    var k :| 0 <= k < |t| && t[k] == code[i];
    assert Atoi(t) == None by {
      if t[0] == '+' || t[0] == '-' { assert t[1..][k - 1] == code[i]; }
    }
  }

  lemma {:induction false} LongNumber(d: string)
    requires d != "" && AllDigits(d) && d[0] != '0'
    ensures Number(d) >= 1 && (|d| > 3 ==> Number(d) >= 1000) && (|d| < 3 ==> Number(d) < 100)
    ensures |d| == 3 ==> Number(d) >= 100
    ensures |d| == 2 ==> Number(d) >= 10
    ensures |d| == 1 ==> Number(d) < 10
  {
    var n := |d| - 1;
    if n == 0 {
      assert d[..0] == "" && Number(d) == d[0] as int - '0' as int;
    } else {
      LongNumber(d[..n]);
    }
  }

  lemma {:induction false} ReadsDigits(d: string)
    requires d != "" && AllDigits(d)
    ensures Atoi(d) == if Number(d) <= 0x7fff_ffff_ffff_ffff then Some(Number(d)) else None
  {
    assert IsDigit(d[0]);
    hide Number;
  }

  /** A number of another length is none, unless it is too large to be read and starts with 2. */
  lemma {:induction false} OtherLengthsAreNone(d: string)
    requires d != "" && AllDigits(d) && d[0] != '0' && |d| != 3
    ensures IsSuccess(d) <==> d[0] == '2' && Number(d) >= 0x8000_0000_0000_0000
  {
    assert IsDigit(d[0]) && IsDigit(d[|d| - 1]);
    NoSpace(d[0]);
    NoSpace(d[|d| - 1]);
    NotTrimmed(d);
    LongNumber(d);
    ReadsDigits(d);
    var deflt := "default";
    assert deflt[0] != d[0];
    hide TrimSpace, Number, Atoi, Blank, AllDigits;
  }

  lemma DefaultIsNone()
    ensures !IsSuccess("default")
  {
  }

  // ----- one operation, signal by signal

  /** The parameter stands in the path, in whatever case its place is written. */
  predicate InPath(p: Param) {
    |p.place| == 4 && p.place[0] in "pP" && p.place[1] in "aA" && p.place[2] in "tT" && p.place[3] in "hH"
  }

  /** A parameter both sides have, and that a rename of the path is not about. */
  predicate Common(b: Operation, h: Operation, renamed: bool, name: string) {
    name in b.params && name in h.params && !(renamed && InPath(b.params[name]))
  }

  predicate Gone(b: Operation, h: Operation, renamed: bool, name: string) {
    name in b.params && name !in h.params && !(renamed && InPath(b.params[name]))
  }

  predicate NewParam(b: Operation, h: Operation, renamed: bool, name: string) {
    name in h.params && name !in b.params && !(renamed && InPath(h.params[name]))
  }

  function ParamAt(b: Operation, name: string): string {
    OpPointer(b.key) + "/parameters/" + name
  }

  /** Everything the head requires of a caller is required by the base, and something more. */
  predicate Stricter(before: seq<string>, after: seq<string>) {
    if before == [] then after != []
    else |after| > |before| && forall s :: s in before ==> s in after
  }

  /** When a change of a parameter of the base is reported, and as what. */
  ghost predicate BaseParamDue(b: Operation, h: Operation, renamed: bool, c: Change) {
    match c.kind
    case ParamRemoved =>
      exists name :: Gone(b, h, renamed, name) && c == Change(c.kind, c.op, ParamAt(b, name), name, "", false)
    case ParamNowRequired =>
      exists name :: Common(b, h, renamed, name) && !b.params[name].required && h.params[name].required
                     && c == Change(c.kind, c.op, ParamAt(b, name), "optional", "required", true)
    case TypeNarrowed =>
      exists name :: Common(b, h, renamed, name) && b.params[name].typ != h.params[name].typ
                     && b.params[name].typ != "" && h.params[name].typ != ""
                     && c == Change(c.kind, c.op, ParamAt(b, name), b.params[name].typ, h.params[name].typ, true)
    case EnumValueRemoved =>
      exists name :: Common(b, h, renamed, name)
                     && (exists v :: v in b.params[name].enum && v !in h.params[name].enum)
                     && c == Change(c.kind, c.op, ParamAt(b, name),
                                    Strs.Join(Missing(b.params[name].enum, h.params[name].enum), ", "), "", true)
    case _ => false
  }

  /** A new parameter of the head breaks callers exactly if it is required. */
  ghost predicate HeadParamDue(b: Operation, h: Operation, renamed: bool, c: Change) {
    match c.kind
    case RequiredParamAdded =>
      exists name :: NewParam(b, h, renamed, name) && h.params[name].required
                     && c == Change(c.kind, c.op, ParamAt(b, name), "", name, true)
    case Additive =>
      exists name :: NewParam(b, h, renamed, name) && !h.params[name].required
                     && c == Change(c.kind, c.op, ParamAt(b, name), "", name, false)
    case _ => false
  }

  ghost predicate BodyDue(b: Operation, h: Operation, c: Change) {
    match c.kind
    case BodyNowRequired =>
      !b.bodyRequired && h.bodyRequired
      && c == Change(c.kind, c.op, OpPointer(b.key) + "/requestBody", "optional", "required", true)
    case BodyPropRequired =>
      exists name :: name in h.bodyProps && name !in b.bodyProps
                     && c == Change(c.kind, c.op, OpPointer(b.key) + "/requestBody/required/" + name, "", name, true)
    case _ => false
  }

  /** A field gone from a success answer breaks callers exactly if it was promised. */
  ghost predicate FieldDue(b: Operation, h: Operation, c: Change) {
    c.kind.ResponseFieldGone?
    && exists code, name ::
        && code in b.responses && code in h.responses && IsSuccess(code)
        && name in b.responses[code] && name !in h.responses[code]
        && c == Change(c.kind, c.op, OpPointer(b.key) + "/responses/" + code + "/" + name, name, "",
                       b.responses[code][name])
  }

  ghost predicate TailDue(b: Operation, h: Operation, c: Change) {
    match c.kind
    case StatusRemoved =>
      && (exists s :: s in h.statuses && IsSuccess(s))
      && (exists s :: s in b.statuses && IsSuccess(s) && s !in h.statuses)
      && c == Change(c.kind, c.op, OpPointer(b.key) + "/responses",
                     Strs.Join(MissingSuccess(b.statuses, h.statuses), ", "), "", false)
    case AuthChanged =>
      SecurityDue(b, h, c) && (Stricter(b.security, h.security) || |h.security| != |b.security|)
    case ScopeAdded =>
      SecurityDue(b, h, c) && !Stricter(b.security, h.security) && |h.security| == |b.security|
    case Deprecated =>
      !b.deprecated && h.deprecated && c == Change(c.kind, c.op, OpPointer(b.key) + "/deprecated", "", "true", false)
    case Sunset =>
      b.sunset == "" && h.sunset != "" && c == Change(c.kind, c.op, OpPointer(b.key) + "/x-sunset", "", h.sunset, false)
    case _ => false
  }

  /** When a change of each kind between two operations is reported, and as what. */
  ghost predicate Due(b: Operation, h: Operation, renamed: bool, c: Change) {
    && c.op == b.key
    && (|| BaseParamDue(b, h, renamed, c) || HeadParamDue(b, h, renamed, c)
        || BodyDue(b, h, c) || FieldDue(b, h, c) || TailDue(b, h, c))
  }

  predicate SecurityDue(b: Operation, h: Operation, c: Change) {
    b.security != h.security && (b.hasSecurity || h.hasSecurity)
    && c == Change(c.kind, c.op, OpPointer(b.key) + "/security", Strs.Join(b.security, ", "),
                   Strs.Join(h.security, ", "), Stricter(b.security, h.security))
  }

  lemma PlaceIs(p: Param)
    ensures IsPathParam(p) <==> InPath(p)
  {
    var path := "path";
    if IsPathParam(p) {
      assert |p.place| == 4;
      assert forall i :: 0 <= i < 4 ==> Lower(p.place[i]) == path[i];
    }
    if InPath(p) {
      assert ToLower(p.place) == path;
    }
  }

  lemma TightenedIs(before: seq<string>, after: seq<string>)
    ensures Tightened(before, after) <==> Stricter(before, after)
  {
    MissingMembers(before, after);
  }

  lemma EnumIs(before: seq<string>, after: seq<string>)
    ensures Missing(before, after) != [] <==> exists v :: v in before && v !in after
  {
    MissingMembers(before, after);
  }

  lemma {:induction false} SuccessesAre(codes: seq<string>)
    ensures forall s :: s in Successes(codes) <==> s in codes && IsSuccess(s)
  {
    if codes != [] {
      SuccessesAre(codes[..|codes| - 1]);
      assert codes == codes[..|codes| - 1] + [codes[|codes| - 1]];
    }
  }

  lemma StatusIs(before: seq<string>, after: seq<string>)
    ensures MissingSuccess(before, after) != []
       <==> (exists s :: s in after && IsSuccess(s)) && exists s :: s in before && IsSuccess(s) && s !in after
  {
    SuccessesAre(before);
    SuccessesAre(after);
    MissingMembers(Successes(before), Successes(after));
    hide IsSuccess, Missing;
    if Successes(after) != [] { assert Successes(after)[0] in Successes(after); }
  }

  /** What the first parameter loop says of one parameter. */
  ghost predicate BaseDue(b: Operation, h: Operation, renamed: bool, name: string, c: Change)
    requires name in b.params
  {
    var at, bp := ParamAt(b, name), b.params[name];
    || (Gone(b, h, renamed, name) && c == Change(ParamRemoved, b.key, at, name, "", false))
    || (Common(b, h, renamed, name) && !bp.required && h.params[name].required
        && c == Change(ParamNowRequired, b.key, at, "optional", "required", true))
    || (Common(b, h, renamed, name) && bp.typ != h.params[name].typ && bp.typ != "" && h.params[name].typ != ""
        && c == Change(TypeNarrowed, b.key, at, bp.typ, h.params[name].typ, true))
    || (Common(b, h, renamed, name) && (exists v :: v in bp.enum && v !in h.params[name].enum)
        && c == Change(EnumValueRemoved, b.key, at, Strs.Join(Missing(bp.enum, h.params[name].enum), ", "), "", true))
  }

  lemma BaseIs(b: Operation, h: Operation, renamed: bool, name: string, c: Change)
    requires name in b.params
    ensures c in BaseParamChanges(b, h, renamed, name) <==> BaseDue(b, h, renamed, name, c)
  {
    PlaceIs(b.params[name]);
    if name in h.params { EnumIs(b.params[name].enum, h.params[name].enum); }
    hide OpPointer, Missing, Strs.Join, InPath, IsPathParam;
  }

  lemma HeadIs(b: Operation, h: Operation, renamed: bool, name: string, c: Change)
    requires name in h.params
    ensures c in HeadParamChanges(b, h, renamed, name)
       <==> NewParam(b, h, renamed, name)
            && c == Change(if h.params[name].required then RequiredParamAdded else Additive, b.key,
                           ParamAt(b, name), "", name, h.params[name].required)
  {
    PlaceIs(h.params[name]);
    hide OpPointer, InPath, IsPathParam;
  }

  lemma FourParts(p: bool, w: Change, q: bool, x: Change, r: bool, y: Change, t: bool, z: Change, c: Change)
    ensures c in (if p then [w] else []) + (if q then [x] else []) + (if r then [y] else []) + (if t then [z] else [])
       <==> (p && c == w) || (q && c == x) || (r && c == y) || (t && c == z)
  {
  }

  function StatusChange(b: Operation, h: Operation): Change {
    Change(StatusRemoved, b.key, OpPointer(b.key) + "/responses",
           Strs.Join(MissingSuccess(b.statuses, h.statuses), ", "), "", false)
  }

  function AuthChange(b: Operation, h: Operation, stricter: bool): Change {
    Change(if !stricter && |h.security| == |b.security| then ScopeAdded else AuthChanged, b.key,
           OpPointer(b.key) + "/security", Strs.Join(b.security, ", "), Strs.Join(h.security, ", "), stricter)
  }

  function OldChange(b: Operation): Change {
    Change(Deprecated, b.key, OpPointer(b.key) + "/deprecated", "", "true", false)
  }

  function EndChange(b: Operation, h: Operation): Change {
    Change(Sunset, b.key, OpPointer(b.key) + "/x-sunset", "", h.sunset, false)
  }

  predicate InTail(b: Operation, h: Operation, c: Change) {
    || (MissingSuccess(b.statuses, h.statuses) != [] && c == StatusChange(b, h))
    || (b.security != h.security && (b.hasSecurity || h.hasSecurity)
        && c == AuthChange(b, h, Tightened(b.security, h.security)))
    || (!b.deprecated && h.deprecated && c == OldChange(b))
    || (b.sunset == "" && h.sunset != "" && c == EndChange(b, h))
  }

  lemma TailMembers(b: Operation, h: Operation, c: Change)
    ensures c in TailChanges(b, h) <==> InTail(b, h, c)
  {
    hide OpPointer, MissingSuccess, Strs.Join, Tightened;
    FourParts(MissingSuccess(b.statuses, h.statuses) != [], StatusChange(b, h),
              b.security != h.security && (b.hasSecurity || h.hasSecurity),
              AuthChange(b, h, Tightened(b.security, h.security)),
              !b.deprecated && h.deprecated, OldChange(b), b.sunset == "" && h.sunset != "", EndChange(b, h), c);
  }

  lemma TailIs(b: Operation, h: Operation, c: Change)
    ensures c in TailChanges(b, h) <==> c.op == b.key && TailDue(b, h, c)
  {
    TightenedIs(b.security, h.security);
    StatusIs(b.statuses, h.statuses);
    hide OpPointer, Missing, MissingSuccess, Strs.Join, Tightened, Stricter, IsSuccess, TailChanges;
    TailMembers(b, h, c);
  }

  lemma BaseSaysIs(b: Operation, h: Operation, renamed: bool, c: Change)
    ensures BaseSays(b, h, renamed, b.params.Keys, c) <==> c.op == b.key && BaseParamDue(b, h, renamed, c)
  {
    hide OpPointer, Missing, Strs.Join, InPath, BaseParamChanges;
    if BaseSays(b, h, renamed, b.params.Keys, c) {
      var name :| name in b.params && c in BaseParamChanges(b, h, renamed, name);
      BaseIs(b, h, renamed, name, c);
    }
    if c.op == b.key && BaseParamDue(b, h, renamed, c) {
      var name :| name in b.params && BaseDue(b, h, renamed, name, c);
      BaseIs(b, h, renamed, name, c);
    }
  }

  lemma HeadSaysIs(b: Operation, h: Operation, renamed: bool, c: Change)
    ensures HeadSays(b, h, renamed, h.params.Keys, c) <==> c.op == b.key && HeadParamDue(b, h, renamed, c)
  {
    hide OpPointer, InPath, HeadParamChanges;
    if HeadSays(b, h, renamed, h.params.Keys, c) {
      var name :| name in h.params && c in HeadParamChanges(b, h, renamed, name);
      HeadIs(b, h, renamed, name, c);
    }
    if c.op == b.key && HeadParamDue(b, h, renamed, c) {
      assert c.after in h.params;
      HeadIs(b, h, renamed, c.after, c);
    }
  }

  ghost predicate FieldSays(b: Operation, h: Operation, c: Change) {
    exists code, name :: FieldGone(b, h, code, name) && c == FieldChange(b, code, name)
  }

  lemma FieldIs(b: Operation, h: Operation, c: Change)
    ensures FieldSays(b, h, c) <==> c.op == b.key && FieldDue(b, h, c)
  {
    hide OpPointer, IsSuccess;
    if c.op == b.key && FieldDue(b, h, c) {
      var code, name :| code in b.responses && code in h.responses && IsSuccess(code)
                        && name in b.responses[code] && name !in h.responses[code]
                        && c == Change(c.kind, c.op, OpPointer(b.key) + "/responses/" + code + "/" + name, name, "",
                                       b.responses[code][name]);
      assert FieldGone(b, h, code, name) && c == FieldChange(b, code, name);
    }
  }

  lemma BodyIs(b: Operation, h: Operation, c: Change)
    ensures c in BodyRequiredChanges(b, h) || PropSays(b, h.bodyProps, c) <==> c.op == b.key && BodyDue(b, h, c)
  {
    hide OpPointer;
    if c.op == b.key && c.kind.BodyPropRequired? && BodyDue(b, h, c) {
      assert c == BodyPropChange(b, c.after);
    }
  }

  /** Between two versions of an operation exactly the changes that are due are reported. */
  lemma ReportedIffDue(b: Operation, h: Operation, renamed: bool, c: Change)
    ensures OpChange(b, h, renamed, c) <==> Due(b, h, renamed, c)
  {
    BaseSaysIs(b, h, renamed, c);
    HeadSaysIs(b, h, renamed, c);
    BodyIs(b, h, c);
    FieldIs(b, h, c);
    TailIs(b, h, c);
    hide BaseSays, HeadSays, PropSays, BodyRequiredChanges, FieldGone, FieldChange, TailChanges, BaseParamDue, HeadParamDue,
         BodyDue, FieldDue, TailDue;
  }

  lemma OnlyFields(b: Operation, h: Operation, renamed: bool, c: Change)
    requires c.kind.ResponseFieldGone?
    ensures Due(b, h, renamed, c) <==> c.op == b.key && FieldDue(b, h, c)
  {
    hide FieldDue;
  }

  /** A field promised at a code of three digits that starts with 2, and promised no more, is a breaking change. */
  lemma RemovedPromiseBreaks(b: Operation, h: Operation, renamed: bool, code: string, name: string)
    requires code in b.responses && code in h.responses && name in b.responses[code] && name !in h.responses[code]
    requires |code| == 3 && AllDigits(code)
    ensures OpChange(b, h, renamed, Change(ResponseFieldGone, b.key,
                                           OpPointer(b.key) + "/responses/" + code + "/" + name, name, "",
                                           b.responses[code][name]))
       <==> code[0] == '2'
  {
    var c := Change(ResponseFieldGone, b.key, OpPointer(b.key) + "/responses/" + code + "/" + name, name, "",
                    b.responses[code][name]);
    SuccessStartsWithTwo("", code, "");
    assert "" + code + "" == code;
    FieldIs(b, h, c);
    ReportedIffDue(b, h, renamed, c);
    OnlyFields(b, h, renamed, c);
    hide OpPointer, IsSuccess, Due, OpChange;
    if FieldSays(b, h, c) {
      var code', name' :| FieldGone(b, h, code', name') && c == FieldChange(b, code', name');
      SamePointer(OpPointer(b.key), code, code', name);
    }
    if code[0] == '2' {
      assert FieldGone(b, h, code, name) && c == FieldChange(b, code, name);
    }
  }

  lemma SamePointer(at: string, code: string, code': string, name: string)
    requires at + "/responses/" + code + "/" + name == at + "/responses/" + code' + "/" + name
    ensures code == code'
  {
    var s := at + "/responses/" + code + "/" + name;
    assert |code| == |code'|;
    var n := |at| + |"/responses/"|;
    assert s[n..n + |code|] == code && s[n..n + |code|] == code';
  }

  /** Where no field breaks, what was promised at a code in the two hundreds is still there. */
  lemma PromisesAtTwoHundreds(b: Operation, h: Operation, renamed: bool, code: string, name: string)
    requires NoFieldBreaks(b, h, renamed) && |code| == 3 && AllDigits(code) && code[0] == '2'
    requires code in b.responses && code in h.responses && name in b.responses[code] && b.responses[code][name]
    ensures name in h.responses[code]
  {
    if name !in h.responses[code] {
      RemovedPromiseBreaks(b, h, renamed, code, name);
      assert false;
    }
  }

  /** An operation that answers "200" with these fields, each with whether it is promised. */
  function Answers200(fields: map<string, bool>): Operation {
    Operation(OpKey("GET", "/a"), false, "", map[], false, {}, map["200" := fields], ["200"], [], false)
  }

  /** The field "id", promised at "200" and then gone, is reported as a breaking removal. */
  lemma PromiseAt200()
    ensures exists c :: OpChange(Answers200(map["id" := true]), Answers200(map[]), false, c)
                        && c.kind == ResponseFieldGone && c.before == "id" && c.breaking
  {
    var b, h := Answers200(map["id" := true]), Answers200(map[]);
    RemovedPromiseBreaks(b, h, false, "200", "id");
  }

  /** Requiring a credential where none was required breaks callers; requiring none any more does not. */
  lemma SecurityAddedBreaks(b: Operation, h: Operation, renamed: bool, c: Change)
    requires OpChange(b, h, renamed, c) && (c.kind.AuthChanged? || c.kind.ScopeAdded?)
    ensures b.security == [] ==> c.kind.AuthChanged? && c.breaking
    ensures h.security == [] ==> c.kind.AuthChanged? && !c.breaking
    ensures c.breaking ==> c.kind.AuthChanged? && |h.security| > |b.security|
    ensures b.security != [] && |h.security| > |b.security| && (forall s :: s in b.security ==> s in h.security)
            ==> c.kind.AuthChanged? && c.breaking
  {
    ReportedIffDue(b, h, renamed, c);
    hide BaseParamDue, HeadParamDue, BodyDue, FieldDue, OpPointer, Strs.Join;
    OnlyTail(b, h, renamed, c);
  }

  lemma OnlyTail(b: Operation, h: Operation, renamed: bool, c: Change)
    requires Due(b, h, renamed, c) && (c.kind.AuthChanged? || c.kind.ScopeAdded?)
    ensures TailDue(b, h, c)
  {
    hide TailDue;
  }

  // ----- whole documents

  /** What is reported of the documents as such. */
  predicate WideDue(base: Doc, head: Doc, c: Change) {
    c.op == OpKey("", "") && match c.kind
    case ServerChanged =>
      base.servers != [] && base.servers != head.servers
      && c == Change(c.kind, c.op, "#/servers", Strs.Join(base.servers, ", "), Strs.Join(head.servers, ", "), true)
    case AuthChanged =>
      base.security != head.security
      && c == Change(c.kind, c.op, "#/security", Strs.Join(base.security, ", "), Strs.Join(head.security, ", "),
                     Stricter(base.security, head.security))
    case MajorVersionBump =>
      MajorBump(base.infoVersion, head.infoVersion)
      && c == Change(c.kind, c.op, "#/info/version", base.infoVersion, head.infoVersion, false)
    case _ => false
  }

  lemma WideIs(base: Doc, head: Doc, c: Change)
    ensures c in WideChanges(base, head) <==> WideDue(base, head, c)
  {
    TightenedIs(base.security, head.security);
    hide Strs.Join, Tightened, Stricter, MajorBump;
  }

  /** The path of the base is gone: renamed to the first path of its template, or removed. */
  ghost predicate PathDue(base: Doc, head: Doc, p: string, c: Change) {
    && p in base.paths && p !in head.paths
    && ((exists q :: Stands(head.paths, NormalizeTemplate(p), q)
                     && c == Change(ParamRenamed, OpKey("", p), PathPointer(p), p, q, false))
        || ((forall q :: !Stands(head.paths, NormalizeTemplate(p), q))
            && c == Change(PathRemoved, OpKey("", p), PathPointer(p), p, "", true)))
  }

  /** What is reported of an operation of the base. */
  ghost predicate KeyDue(base: Doc, head: Doc, key: OpKey, c: Change)
    requires key in base.operations
  {
    var b := base.operations[key];
    if key in head.operations then Due(b, head.operations[key], false, c)
    else if key.path in head.paths then
      c == Change(OperationRemoved, key, OpPointer(key), key.verb + " " + key.path, "", true)
    else exists q :: Stands(head.paths, NormalizeTemplate(key.path), q) && OpKey(key.verb, q) in head.operations
                     && Due(b, head.operations[OpKey(key.verb, q)], true, c)
  }

  lemma StandsAlone(paths: set<string>, t: string, p: string, q: string)
    requires Stands(paths, t, p) && Stands(paths, t, q)
    ensures p == q
  {
    LexTotal(p, q);
  }

  lemma IndexIs(paths: set<string>, index: map<string, string>, t: string)
    requires Indexed(paths, index)
    ensures forall q :: Stands(paths, t, q) <==> t in index && index[t] == q
  {
    forall q | Stands(paths, t, q) ensures t in index && index[t] == q {
      StandsAlone(paths, t, index[t], q);
    }
  }

  lemma PathIs(base: Doc, head: Doc, index: map<string, string>, p: string, c: Change)
    requires Indexed(head.paths, index)
    ensures p in base.paths && p !in head.paths && c == PathChange(p, index) <==> PathDue(base, head, p, c)
  {
    IndexIs(head.paths, index, NormalizeTemplate(p));
    hide NormalizeTemplate, Stands, PathPointer;
  }

  lemma KeyIs(base: Doc, head: Doc, index: map<string, string>, key: OpKey, c: Change)
    requires Indexed(head.paths, index) && key in base.operations
    ensures KeySays(base, head, index, key, c) <==> KeyDue(base, head, key, c)
  {
    var b := base.operations[key];
    if key in head.operations { ReportedIffDue(b, head.operations[key], false, c); }
    IndexIs(head.paths, index, NormalizeTemplate(key.path));
    hide NormalizeTemplate, Stands, OpPointer, Due, OpChange;
    if Followed(head, index, key) { ReportedIffDue(b, head.operations[Follow(index, key)], true, c); }
  }

  ghost predicate SomePathDue(base: Doc, head: Doc, c: Change) {
    exists p :: PathDue(base, head, p, c)
  }

  ghost predicate SomeKeyDue(base: Doc, head: Doc, c: Change) {
    exists key :: key in base.operations && KeyDue(base, head, key, c)
  }

  /** An operation that the base does not have. */
  predicate NewDue(base: Doc, head: Doc, c: Change) {
    && c.op in head.operations && c.op !in base.operations
    && c == Change(Additive, c.op, OpPointer(c.op), "", c.op.verb + " " + c.op.path, false)
  }

  lemma PathsAre(base: Doc, head: Doc, index: map<string, string>, c: Change)
    requires Indexed(head.paths, index)
    ensures (exists p :: p in base.paths && p !in head.paths && c == PathChange(p, index)) <==> SomePathDue(base, head, c)
  {
    hide PathChange, PathDue, Indexed;
    forall p ensures p in base.paths && p !in head.paths && c == PathChange(p, index) <==> PathDue(base, head, p, c) {
      PathIs(base, head, index, p, c);
    }
  }

  lemma KeysAre(base: Doc, head: Doc, index: map<string, string>, c: Change)
    requires Indexed(head.paths, index)
    ensures (exists key :: key in base.operations && KeySays(base, head, index, key, c)) <==> SomeKeyDue(base, head, c)
  {
    hide KeySays, KeyDue, Indexed;
    forall key | key in base.operations ensures KeySays(base, head, index, key, c) <==> KeyDue(base, head, key, c) {
      KeyIs(base, head, index, key, c);
    }
  }

  lemma NewAre(base: Doc, head: Doc, c: Change)
    ensures (exists key :: key in head.operations && key !in base.operations && c == OpAdded(key)) <==> NewDue(base, head, c)
  {
    hide OpPointer;
  }

  /** Between two documents exactly the changes that are due are reported. */
  lemma DocReportedIffDue(base: Doc, head: Doc, index: map<string, string>, c: Change)
    requires Indexed(head.paths, index)
    ensures DocChange(base, head, index, c)
       <==> WideDue(base, head, c) || SomePathDue(base, head, c) || SomeKeyDue(base, head, c) || NewDue(base, head, c)
  {
    WideIs(base, head, c);
    PathsAre(base, head, index, c);
    KeysAre(base, head, index, c);
    NewAre(base, head, c);
    hide PathChange, KeySays, WideChanges, OpAdded, WideDue, SomePathDue, SomeKeyDue, NewDue;
  }

  // ----- templates and versions

  /** No slash and no closing brace. */
  predicate Inner(x: string) {
    '/' !in x && '}' !in x
  }

  /** The first slash or closing brace of `a` is that of whatever `a` starts. */
  lemma FirstStays(a: string, rest: string)
    requires IndexAny(a, "/}") >= 0
    ensures IndexAny(a + rest, "/}") == IndexAny(a, "/}")
  {
    var i := IndexAny(a, "/}");
    assert (a + rest)[i] == a[i];
    assert forall k :: 0 <= k < i ==> (a + rest)[k] == a[k];
  }

  lemma FirstBehind(a: string, rest: string)
    requires IndexAny(a, "/}") < 0 && rest != "" && rest[0] == '}'
    ensures IndexAny(a + rest, "/}") == |a|
  {
    assert (a + rest)[|a|] == '}';
    assert forall k :: 0 <= k < |a| ==> (a + rest)[k] == a[k];
  }

  lemma NoneInside(x: string)
    requires Inner(x)
    ensures IndexAny("{" + x, "/}") < 0 && forall a :: IndexAny(a, "/}") < 0 ==> IndexAny(a + "{" + x, "/}") < 0
  {
    forall a | IndexAny(a, "/}") < 0 ensures IndexAny(a + "{" + x, "/}") < 0 {
      var s := a + "{" + x;
      forall k | 0 <= k < |s| ensures s[k] !in "/}" {
        if k < |a| { assert s[k] == a[k]; } else if k == |a| { assert s[k] == '{'; } else { assert s[k] in x; }
      }
    }
    assert IndexAny("", "/}") < 0 && "" + "{" + x == "{" + x;
  }

  lemma {:induction false} StepParam(p: string)
    requires p != "" && p[0] == '{' && IndexAny(p[1..], "/}") >= 0 && p[1..][IndexAny(p[1..], "/}")] == '}'
    ensures NormalizeTemplate(p) == "{}" + NormalizeTemplate(p[IndexAny(p[1..], "/}") + 2..])
  {
    hide IndexAny;
  }

  lemma {:induction false} StepPlain(p: string)
    requires p != "" && (p[0] != '{' || IndexAny(p[1..], "/}") < 0 || p[1..][IndexAny(p[1..], "/}")] != '}')
    ensures NormalizeTemplate(p) == [p[0]] + NormalizeTemplate(p[1..])
  {
    hide IndexAny;
  }

  lemma {:induction false} Opens(inner: string, c: string)
    requires IndexAny(inner, "/}") < 0
    ensures NormalizeTemplate("{" + (inner + ("}" + c))) == "{}" + NormalizeTemplate(c)
  {
    hide NormalizeTemplate;
    FirstBehind(inner, "}" + c);
    var p := "{" + (inner + ("}" + c));
    assert p[1..] == inner + ("}" + c) && p[|inner| + 2..] == c;
    StepParam(p);
  }

  lemma {:induction false} Passes(b: char, t: string)
    requires b != '{' || (IndexAny(t, "/}") >= 0 && t[IndexAny(t, "/}")] == '/')
    ensures NormalizeTemplate([b] + t) == [b] + NormalizeTemplate(t)
  {
    hide NormalizeTemplate;
    assert ([b] + t)[1..] == t;
    StepPlain([b] + t);
  }

  lemma {:induction false} Skips(t: string)
    requires IndexAny(t, "/}") >= 0 && t[IndexAny(t, "/}")] == '}'
    ensures NormalizeTemplate("{" + t) == "{}" + NormalizeTemplate(t[IndexAny(t, "/}") + 1..])
  {
    hide NormalizeTemplate;
    var p := "{" + t;
    assert p[1..] == t && p[IndexAny(t, "/}") + 2..] == t[IndexAny(t, "/}") + 1..];
    StepParam(p);
  }

  lemma {:induction false} OpensAtOnce(x: string, c: string)
    requires Inner(x)
    ensures NormalizeTemplate(WithParam("", x, c)) == "{}" + NormalizeTemplate(c)
  {
    hide NormalizeTemplate;
    assert IndexAny(x, "/}") < 0;
    Opens(x, c);
    assert WithParam("", x, c) == "{" + (x + ("}" + c));
  }

  lemma {:induction false} OpensEarlier(t: string, x: string, c: string)
    requires Inner(x) && IndexAny(t, "/}") < 0
    ensures NormalizeTemplate("{" + WithParam(t, x, c)) == "{}" + NormalizeTemplate(c)
  {
    hide NormalizeTemplate;
    NoneInside(x);
    Opens(t + "{" + x, c);
    assert WithParam(t, x, c) == t + "{" + x + ("}" + c);
  }

  lemma {:induction false} SkipsOne(t: string, x: string, c: string)
    requires IndexAny(t, "/}") >= 0 && t[IndexAny(t, "/}")] == '}'
    ensures NormalizeTemplate("{" + WithParam(t, x, c))
         == "{}" + NormalizeTemplate(WithParam(t[IndexAny(t, "/}") + 1..], x, c))
  {
    hide NormalizeTemplate;
    var i := IndexAny(t, "/}");
    FirstStays(t, "{" + x + "}" + c);
    assert WithParam(t, x, c) == t + ("{" + x + "}" + c);
    Skips(WithParam(t, x, c));
    assert WithParam(t, x, c)[i + 1..] == WithParam(t[i + 1..], x, c);
  }

  lemma {:induction false} PassesOne(b: char, t: string, x: string, c: string)
    requires b != '{' || (IndexAny(t, "/}") >= 0 && t[IndexAny(t, "/}")] == '/')
    ensures NormalizeTemplate([b] + WithParam(t, x, c)) == [b] + NormalizeTemplate(WithParam(t, x, c))
  {
    hide NormalizeTemplate;
    if b == '{' {
      FirstStays(t, "{" + x + "}" + c);
      assert WithParam(t, x, c) == t + ("{" + x + "}" + c);
    }
    Passes(b, WithParam(t, x, c));
  }

  /** The path `a` and then a parameter. */
  function WithParam(a: string, x: string, c: string): string {
    a + "{" + x + "}" + c
  }

  lemma Unrolled(a: string, x: string, c: string)
    requires a != ""
    ensures WithParam(a, x, c) == [a[0]] + WithParam(a[1..], x, c)
  {
    assert a == [a[0]] + a[1..];
  }

  /** Renaming a path parameter leaves the template as it is, wherever the parameter stands. */
  lemma {:induction false} RenamedKeepsTemplate(a: string, x: string, y: string, c: string)
    requires Inner(x) && Inner(y)
    ensures NormalizeTemplate(WithParam(a, x, c)) == NormalizeTemplate(WithParam(a, y, c))
    decreases |a|
  {
    hide NormalizeTemplate, WithParam, Inner;
    if a == "" {
      OpensAtOnce(x, c);
      OpensAtOnce(y, c);
    } else {
      var t := a[1..];
      Unrolled(a, x, c);
      Unrolled(a, y, c);
      var i := IndexAny(t, "/}");
      if a[0] == '{' && i < 0 {
        OpensEarlier(t, x, c);
        OpensEarlier(t, y, c);
      } else if a[0] == '{' && t[i] == '}' {
        RenamedKeepsTemplate(t[i + 1..], x, y, c);
        SkipsOne(t, x, c);
        SkipsOne(t, y, c);
      } else {
        RenamedKeepsTemplate(t, x, y, c);
        PassesOne(a[0], t, x, c);
        PassesOne(a[0], t, y, c);
      }
    }
  }

  /** A path without parameters is its own template. */
  lemma {:induction false} PlainIsTemplate(p: string)
    requires '{' !in p
    ensures NormalizeTemplate(p) == p
  {
    if p != "" { PlainIsTemplate(p[1..]); }
  }

  /** A version is its major number, perhaps behind a "v", and whatever follows a dot, dash or plus. */
  predicate Version(v: string, d: string, rest: string) {
    && (v == d + rest || v == "v" + d + rest)
    && d != "" && AllDigits(d) && Number(d) <= 0x7fff_ffff_ffff_ffff
    && (rest == "" || (rest[0] in ".-+" && !Blank(rest[|rest| - 1])))
  }

  lemma {:induction false} UpToSeparator(d: string, rest: string)
    requires d != "" && AllDigits(d) && (rest == "" || rest[0] in ".-+")
    ensures IndexAny(d + rest, ".-+") == if rest == "" then -1 else |d|
  {
    var s := d + rest;
    assert forall k :: 0 <= k < |d| ==> s[k] == d[k] && IsDigit(s[k]);
    if rest != "" { assert s[|d|] == rest[0]; }
  }

  lemma {:induction false} NotTrimmed(v: string)
    requires v != "" && !Blank(v[0]) && !Blank(v[|v| - 1])
    ensures TrimSpace(v) == v
  {
  }

  lemma NoSpace(c: char)
    requires IsDigit(c)
    ensures !Blank(c) && c != 'v'
  {
  }

  lemma {:induction false} Ends(d: string, rest: string)
    requires d != "" && AllDigits(d) && (rest == "" || !Blank(rest[|rest| - 1]))
    ensures var s := d + rest; !Blank(s[0]) && s[0] != 'v' && !Blank(s[|s| - 1])
  {
    assert IsDigit(d[0]) && IsDigit(d[|d| - 1]);
    NoSpace(d[0]);
    NoSpace(d[|d| - 1]);
  }

  lemma {:induction false} StripsV(v: string, d: string, rest: string)
    requires Version(v, d, rest)
    ensures TrimSpace(v) == v && (if HasPrefix(v, "v") then v[1..] else v) == d + rest
  {
    var s := d + rest;
    Ends(d, rest);
    assert v == s || v == "v" + s by { assert "v" + d + rest == "v" + s; }
    assert !Blank('v');
    hide TrimSpace, Number, AllDigits, Blank;
    NotTrimmed(v);
    if v != s { assert v[1..] == s; }
  }

  lemma {:induction false} MajorIs(v: string, d: string, rest: string)
    requires Version(v, d, rest)
    ensures MajorOf(v) == Some(Number(d))
  {
    StripsV(v, d, rest);
    UpToSeparator(d, rest);
    ReadsDigits(d);
    var s := d + rest;
    assert s[..|d|] == d;
    assert rest == "" ==> s == d;
    hide TrimSpace, Number, Atoi, AllDigits, HasPrefix;
  }

  /** The major version grew exactly when its number did. */
  lemma MajorBumpIff(v: string, d: string, rest: string, v': string, d': string, rest': string)
    requires Version(v, d, rest) && Version(v', d', rest')
    ensures MajorBump(v, v') <==> Number(d) < Number(d')
  {
    MajorIs(v, d, rest);
    MajorIs(v', d', rest');
  }

  lemma FromOneToTwo()
    ensures MajorBump("1.9.0", "v2.0.0") && !MajorBump("1.2.0", "1.9.0") && !MajorBump("2.0.0", "1.9.0")
  {
    OneDigit("1");
    OneDigit("2");
    hide MajorOf, Number, AllDigits;
    OneDotted("1.9.0", "1", ".9.0");
    OneDotted("1.2.0", "1", ".2.0");
    OneDotted("2.0.0", "2", ".0.0");
    OneDotted("v2.0.0", "2", ".0.0");
    hide *;
    MajorBumpIff("1.9.0", "1", ".9.0", "v2.0.0", "2", ".0.0");
    MajorBumpIff("1.2.0", "1", ".2.0", "1.9.0", "1", ".9.0");
    MajorBumpIff("2.0.0", "2", ".0.0", "1.9.0", "1", ".9.0");
  }

  lemma OneDotted(v: string, d: string, rest: string)
    requires |d| == 1 && IsDigit(d[0]) && (v == d + rest || v == "v" + d + rest)
    requires rest != "" && rest[0] == '.' && rest[|rest| - 1] == '0'
    ensures Version(v, d, rest)
  {
    OneDigit(d);
    hide Number;
  }

  lemma OneDigit(d: string)
    requires |d| == 1 && IsDigit(d[0])
    ensures AllDigits(d) && Number(d) == d[0] as int - '0' as int
  {
    assert d[..0] == "" && Number("") == 0;
  }

  /** A text that does not start with a number, after a "v" or not, has no major version. */
  lemma NoMajor(v: string)
    requires v != "" && v[0] !in "v+- \t\n\r\U{000b}\U{000c}" && !IsDigit(v[0])
    ensures MajorOf(v) == None
  {
    var t := TrimSpace(v);
    TrimStart(v);
    var i := IndexAny(t, ".-+");
    var part := if i >= 0 then t[..i] else t;
    if part != "" { assert part[0] == v[0]; }
  }

  lemma {:induction false} TrimStart(s: string)
    requires s != "" && !Blank(s[0])
    ensures TrimSpace(s) != "" && TrimSpace(s)[0] == s[0]
    decreases |s|
  {
    if Blank(s[|s| - 1]) { TrimStart(s[..|s| - 1]); }
  }
}

/** Indexed calls and their canonical order (internal/index/model.go). */
module Calls {
  import opened Strs
  import opened Sorting

  datatype Status = Active | Removed

  datatype Lifecycle = Lifecycle(firstScan: string, firstCommit: string, lastScan: string, lastCommit: string,
                                 status: Status, missing: int)

  datatype Confidence = Low | Medium | High

  function ConfidenceFor(score: int): Confidence {
    if score >= 80 then High else if score >= 50 then Medium else Low
  }

  /** One call site; `detail` stands for the recorded fields that neither merging nor ordering reads. */
  datatype Call = Call(
    id: string, fingerprint: string, kind: string, host: string, hostKind: string, verb: string, path: string,
    file: string, line: int, column: int, client: string,
    vendor: string, language: string, score: int,
    confidence: Option<Confidence>, flags: seq<string>, blockers: seq<string>, queryKeys: seq<string>,
    detail: string, life: Lifecycle)

  function Id(c: Call): string { c.id }

  predicate LessByPosition(a: Call, b: Call) {
    if a.file != b.file then LexLess(a.file, b.file)
    else if a.line != b.line then a.line < b.line
    else if a.column != b.column then a.column < b.column
    else if a.fingerprint != b.fingerprint then LexLess(a.fingerprint, b.fingerprint)
    else LexLess(a.client, b.client)
  }

  predicate CanonicalLess(a: Call, b: Call) {
    if LessByPosition(a, b) then true
    else if LessByPosition(b, a) then false
    else LexLess(a.id, b.id)
  }

  function SortCalls(calls: seq<Call>): seq<Call> {
    StableSort(CanonicalLess, calls)
  }

  /** `a` is no further on than `b`: by file, then line, then column. */
  predicate NoLater(a: Call, b: Call) {
    LexLess(a.file, b.file)
    || (a.file == b.file && (a.line < b.line || (a.line == b.line && a.column <= b.column)))
  }

  lemma {:induction false} PlaceTransitive(x: Call, y: Call, z: Call)
    requires NoLater(x, y) && NoLater(y, z)
    ensures NoLater(x, z)
  {
    LexTotal(x.file, y.file);
    LexTotal(y.file, z.file);
    LexTotal(x.file, z.file);
    if !LexLess(y.file, x.file) && !LexLess(z.file, y.file) { LexTransitive(z.file, y.file, x.file); }
  }

  /** Both orders go by place first. */
  lemma {:induction false} PlaceOrder()
    ensures Coarsens(NoLater, CanonicalLess) && Coarsens(NoLater, LessByPosition)
  {
    forall x: Call, y: Call ensures if CanonicalLess(x, y) then NoLater(x, y) else NoLater(y, x) {
      LexTotal(x.file, y.file);
    }
    forall x: Call, y: Call ensures if LessByPosition(x, y) then NoLater(x, y) else NoLater(y, x) {
      LexTotal(x.file, y.file);
    }
    forall x: Call, y: Call, z: Call | NoLater(x, y) && NoLater(y, z) ensures NoLater(x, z) {
      PlaceTransitive(x, y, z);
    }
  }
}

/** What it means that a call is declared (internal/monitor/coverage.go), spelled out in texts. */
module DeclaredLaws {
  import opened Strs
  import opened OpenApi
  import opened Declared

  // ----- methods

  /** The two letters are the same but for their case. */
  predicate SameLetter(c: char, d: char) {
    || c == d
    || ('a' <= c <= 'z' && d as int == c as int - 32)
    || ('a' <= d <= 'z' && c as int == d as int - 32)
  }

  predicate SameLetters(a: string, b: string) {
    |a| == |b| && forall i :: 0 <= i < |a| ==> SameLetter(a[i], b[i])
  }

  lemma {:induction false} LettersMean(a: string, b: string)
    ensures ToUpper(a) == ToUpper(b) <==> SameLetters(a, b)
  {
    if ToUpper(a) == ToUpper(b) {
      forall i | 0 <= i < |a| ensures SameLetter(a[i], b[i]) {
        assert ToUpper(a)[i] == ToUpper(b)[i];
      }
    }
  }

  predicate Listed(verb: string) {
    || SameLetters(verb, "GET") || SameLetters(verb, "POST") || SameLetters(verb, "PUT") || SameLetters(verb, "PATCH")
    || SameLetters(verb, "DELETE") || SameLetters(verb, "HEAD") || SameLetters(verb, "OPTIONS")
  }

  /** A declared method answers its own calls, in any case; "any" answers all, and calls of any method take all. */
  lemma {:induction false} AnswersIff(called: string, declared: string)
    ensures Answers(called, declared)
       <==> || SameLetters(declared, "ANY")
            || (if called == "ANY" then Listed(declared) else SameLetters(declared, called))
  {
    UpperVerbs();
    LettersMean(declared, "ANY");
    LettersMean(declared, called);
    LettersMean(declared, "GET");
    LettersMean(declared, "POST");
    LettersMean(declared, "PUT");
    LettersMean(declared, "PATCH");
    LettersMean(declared, "DELETE");
    LettersMean(declared, "HEAD");
    LettersMean(declared, "OPTIONS");
    hide ToUpper, SameLetters;
    assert VERBS[0] == "GET" && VERBS[1] == "POST" && VERBS[2] == "PUT" && VERBS[3] == "PATCH" && VERBS[4] == "DELETE"
           && VERBS[5] == "HEAD" && VERBS[6] == "OPTIONS" && |VERBS| == 7;
  }

  // ----- paths

  /** What is left of a path behind a server's: nothing but a root, or what starts with a slash. */
  predicate LeftBehind(path: string, base: string, rest: string) {
    && base != "" && base != "/"
    && (if rest == "/" then path == base || path == base + "/" else path == base + rest && "/" <= rest && path != base)
  }

  lemma {:induction false} StrippedIff(path: string, base: string, rest: string)
    ensures StripPrefixPath(path, base) == Some(rest) <==> LeftBehind(path, base, rest)
  {
    StripMeans(path, base, rest);
    assert rest == "/" ==> base + "/" != base by { assert |base + "/"| == |base| + 1; }
  }

  /** The call's path, or what is left of it behind a server of some document. */
  ghost predicate May(docs: seq<SpecDoc>, called: string, path: string) {
    path == called || exists doc, b :: doc in docs && b in doc.bases && LeftBehind(called, b, path)
  }

  /** The operation's path, as it is or behind one of the document's servers, is this one. */
  predicate Declares(norm: string -> string, doc: SpecDoc, op: OpKey, path: string) {
    norm(op.path) == path || exists b :: b in doc.bases && norm(b + op.path) == path
  }

  ghost predicate Finds(norm: string -> string, docs: seq<SpecDoc>, t: Target, doc: SpecDoc, op: OpKey, path: string) {
    && doc in docs && op in doc.ops && May(docs, t.path, path) && Declares(norm, doc, op, path)
    && (|| SameLetters(op.verb, "ANY")
        || (if t.verb == "ANY" then Listed(op.verb) else SameLetters(op.verb, t.verb)))
  }

  lemma {:induction false} MayIs(docs: seq<SpecDoc>, t: Target, path: string)
    ensures Candidate(docs, t, path) <==> May(docs, t.path, path)
  {
    forall b ensures StripPrefixPath(t.path, b) == Some(path) <==> LeftBehind(t.path, b, path) {
      StrippedIff(t.path, b, path);
    }
    hide LeftBehind, StripPrefixPath;
  }

  /** A call is documented exactly when some document declares an operation of its path that answers its method. */
  lemma {:induction false} DocumentedIff(norm: string -> string, docs: seq<SpecDoc>, t: Target)
    ensures Documented(norm, docs, t) <==> exists doc, op, path :: Finds(norm, docs, t, doc, op, path)
  {
    hide Answers, SameLetters, Listed, Candidate, May;
    if Documented(norm, docs, t) {
      var doc, op :| Names(norm, docs, t, doc, op);
      var path :| Candidate(docs, t, path) && Spelled(norm, doc, op, path);
      MayIs(docs, t, path);
      AnswersIff(t.verb, op.verb);
      assert Finds(norm, docs, t, doc, op, path);
    }
    if doc, op, path :| Finds(norm, docs, t, doc, op, path) {
      MayIs(docs, t, path);
      AnswersIff(t.verb, op.verb);
      assert Spelled(norm, doc, op, path) && Names(norm, docs, t, doc, op);
    }
  }
}

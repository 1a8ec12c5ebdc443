/** Splitting a format string into text and verbs (parseFormat, internal/resolve/resolve.go). */
module FormatStrings {
  import opened Strs

  /** A verb's `argIndex` is negative when it takes the next positional argument. */
  datatype Piece = Text(text: string) | Verb(text: string, argIndex: int, name: string)

  /** What the run of text gathered so far contributes. */
  function Flush(lit: string): seq<Piece> {
    if lit == "" then [] else [Text(lit)]
  }

  const FLAGS := "+-# 0123456789.*"

  /** How many flag, width and precision characters `f` starts with. */
  function FlagRun(f: string): (n: nat)
    ensures n <= |f| && (n < |f| ==> f[n] !in FLAGS)
  {
    if f == "" || f[0] !in FLAGS then 0 else 1 + FlagRun(f[1..])
  }

  /** The verb written `{...}` whose inside, format spec included, is `inner`. */
  function BraceVerb(inner: string): Piece {
    var k := IndexAny(inner, ":!");
    var head := if k >= 0 then inner[..k] else inner;
    var text := "{" + inner + "}";
    if head == "" then Verb(text, -1, "")
    else match Atoi(head)
      case Some(n) => Verb(text, n, "")
      case None => Verb(text, -1, head)
  }

  /** One turn of parseFormat's loop at a non-empty `f`: characters consumed and the piece read. */
  datatype Token = Plain(width: nat, text: string) | Slot(width: nat, verb: Piece)

  function Next(f: string): (t: Token)
    requires f != ""
    ensures 0 < t.width <= |f| && (t.Slot? ==> t.verb.Verb?)
  {
    var c := f[0];
    if c == '%' then
      var j := 1 + FlagRun(f[1..]);
      if |f| > 1 && f[1] == '%' then Plain(2, "%")
      else if j < |f| && IsLetter(f[j]) then Slot(j + 1, Verb(f[..j + 1], -1, ""))
      else Plain(1, [c])
    else if c == '{' then
      var j := IndexByte(f, '}');
      if |f| > 1 && f[1] == '{' then Plain(2, "{")
      else if j < 0 then Plain(1, [c])
      else Slot(j + 1, BraceVerb(f[1..j]))
    else if c == '}' && |f| > 1 && f[1] == '}' then Plain(2, "}")
    else if c == '$' && |f| > 1 && '1' <= f[1] <= '9' then
      Slot(2, Verb(f[..2], f[1] as int - '0' as int - 1, ""))
    else Plain(1, [c])
  }

  /** The pieces of `f` when the text `lit` is still waiting to be flushed. */
  function Parse(f: string, lit: string): seq<Piece>
    decreases |f|
  {
    if f == "" then Flush(lit)
    else match Next(f)
      case Plain(w, t) => Parse(f[w..], lit + t)
      case Slot(w, v) => Flush(lit) + [v] + Parse(f[w..], "")
  }

  lemma ParseStep(f: string, lit: string)
    requires f != ""
    ensures var t := Next(f);
            Parse(f, lit) == if t.Plain? then Parse(f[t.width..], lit + t.text)
                             else Flush(lit) + [t.verb] + Parse(f[t.width..], "")
  {
  }

  method ParseFormat(f: string) returns (out: seq<Piece>)
    ensures out == Parse(f, "")
  {
    hide Next, Flush;
    out := [];
    var lit := "";
    var i := 0;
    ghost var rest := f;
    while i < |f|
      invariant 0 <= i <= |f| && rest == f[i..]
      invariant Parse(f, "") == out + Parse(rest, lit)
    {
      var token := Next(f[i..]);
      ParseStep(rest, lit);
      i := i + token.width;
      rest := rest[token.width..];
      if token.Plain? {
        lit := lit + token.text;
      } else {
        out := out + Flush(lit) + [token.verb];
        lit := "";
      }
    }
    out := out + Flush(lit);
  }

  /** Text as a caller would write it so that no `%`, `{` or `}` in it is a verb. */
  function Escape(t: string): string {
    if t == "" then ""
    else (if t[0] in "%{}" then [t[0], t[0]] else [t[0]]) + Escape(t[1..])
  }

  /** `$1` to `$9` have no escaped spelling. */
  predicate HasDollarDigit(t: string) {
    |t| > 1 && ((t[0] == '$' && '1' <= t[1] <= '9') || HasDollarDigit(t[1..]))
  }

  predicate AllText(ps: seq<Piece>) {
    forall i :: 0 <= i < |ps| ==> ps[i].Text?
  }

  lemma EscapedHead(t: string)
    requires t != ""
    ensures var f, rest := Escape(t), t[1..];
            if t[0] in "%{}" then f[2..] == Escape(rest) && Next(f) == Plain(2, [t[0]])
            else if t[0] == '$' && rest != "" && '1' <= rest[0] <= '9' then Next(f).Slot?
            else f[1..] == Escape(rest) && Next(f) == Plain(1, [t[0]])
  {
    var f, rest := Escape(t), t[1..];
    if t[0] in "%{}" {
      assert f[0] == f[1] == t[0];
      assert f[2..] == Escape(rest);
    } else {
      assert f[0] == t[0];
      assert f[1..] == Escape(rest);
      assert rest != "" ==> Escape(rest)[0] == rest[0];
    }
  }

  /** Escaped text parses back to itself exactly when it writes no `$` verb. */
  lemma {:induction false} EscapeRoundTrip(t: string, lit: string)
    ensures !HasDollarDigit(t) ==> Parse(Escape(t), lit) == Flush(lit + t)
    ensures HasDollarDigit(t) ==> !AllText(Parse(Escape(t), lit))
    decreases |t|
  {
    if t == "" {
      assert lit + t == lit;
    } else {
      EscapedHead(t);
      EscapeRoundTrip(t[1..], lit + [t[0]]);
      assert lit + [t[0]] + t[1..] == lit + t;
      ParseStep(Escape(t), lit);
      if Next(Escape(t)).Slot? {
        assert Parse(Escape(t), lit)[|Flush(lit)|] == Next(Escape(t)).verb;
        assert Next(Escape(t)).verb.Verb?;
      }
    }
  }
}

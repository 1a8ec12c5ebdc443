/**
 How a format writes its verbs (parseFormat, internal/resolve/resolve.go): each spelling, whatever
 stands around it, is read as the argument it names.
 */
module VerbLaws {
  import opened Strs
  import opened FormatStrings

  /** At `f` a verb is written, and read as `verb`. */
  ghost predicate ReadAs(token: string, rest: string, verb: Piece) {
    forall lit :: Parse(token + rest, lit) == Flush(lit) + [verb] + Parse(rest, "")
  }

  lemma {:induction false} SlotReads(token: string, rest: string, verb: Piece)
    requires token != "" && Next(token + rest) == Slot(|token|, verb)
    ensures ReadAs(token, rest, verb)
  {
    var f := token + rest;
    forall lit ensures Parse(f, lit) == Flush(lit) + [verb] + Parse(rest, "") {
      ParseStep(f, lit);
      assert f[|token|..] == rest;
    }
  }

  /** Signs, padding, width and precision. */
  predicate Decoration(flags: string) {
    forall k :: 0 <= k < |flags| ==> flags[k] in "+-# 0123456789.*"
  }

  lemma {:induction false} FlagRunIs(flags: string, f: string)
    requires Decoration(flags) && (f == "" || f[0] !in FLAGS)
    ensures FlagRun(flags + f) == |flags|
  {
    if flags == "" {
      assert flags + f == f;
    } else {
      assert (flags + f)[1..] == flags[1..] + f && (flags + f)[0] == flags[0];
      FlagRunIs(flags[1..], f);
    }
  }

  lemma {:induction false} LetterIsNoFlag(c: char)
    requires IsLetter(c)
    ensures c !in FLAGS && c != '%'
  {
  }

  /** "%", any decoration and a letter take the next argument. */
  lemma {:induction false} PercentVerb(flags: string, letter: char, rest: string)
    requires Decoration(flags) && IsLetter(letter)
    ensures var token := "%" + flags + [letter]; ReadAs(token, rest, Verb(token, -1, ""))
  {
    var token, tail := "%" + flags + [letter], [letter] + rest;
    var f := token + rest;
    LetterIsNoFlag(letter);
    FlagRunIs(flags, tail);
    assert f[0] == '%' && f[1..] == flags + tail;
    assert f[1] == (flags + tail)[0];
    assert f[1] != '%' by { if flags != "" { assert f[1] == flags[0]; } }
    assert f[1 + |flags|] == letter && f[..2 + |flags|] == token;
    hide FlagRun;
    SlotReads(token, rest, Verb(token, -1, ""));
  }

  lemma {:induction false} BraceCloses(inner: string, rest: string)
    requires '}' !in inner
    ensures IndexByte("{" + inner + "}" + rest, '}') == |inner| + 1
  {
    var f := "{" + inner + "}" + rest;
    assert f[|inner| + 1] == '}';
    assert forall k :: 0 <= k < |inner| ==> f[k + 1] == inner[k] && inner[k] in inner;
  }

  lemma {:induction false} BraceReads(inner: string, rest: string)
    requires '}' !in inner && (inner == "" || inner[0] != '{')
    ensures ReadAs("{" + inner + "}", rest, BraceVerb(inner))
  {
    var token := "{" + inner + "}";
    var f := token + rest;
    BraceCloses(inner, rest);
    assert f == "{" + inner + "}" + rest;
    assert f[1] == if inner == "" then '}' else inner[0];
    assert f[1..|inner| + 1] == inner;
    hide BraceVerb, IndexByte;
    SlotReads(token, rest, BraceVerb(inner));
  }

  /** Empty braces take the next argument. */
  lemma {:induction false} EmptyBraces(rest: string)
    ensures ReadAs("{}", rest, Verb("{}", -1, ""))
  {
    BraceReads("", rest);
    assert "{" + "" + "}" == "{}";
  }

  /** What may follow a colon or an exclamation mark inside braces. */
  predicate Spec(spec: string) {
    '}' !in spec && (spec == "" || spec[0] == ':' || spec[0] == '!')
  }

  lemma {:induction false} HeadIs(head: string, spec: string)
    requires Spec(spec) && ':' !in head && '!' !in head
    ensures var k := IndexAny(head + spec, ":!"); head == if k >= 0 then (head + spec)[..k] else head + spec
  {
    var s := head + spec;
    var k := IndexAny(s, ":!");
    assert forall i :: 0 <= i < |head| ==> s[i] == head[i] && s[i] in head;
    if spec == "" {
      assert s == head;
    } else {
      assert s[|head|] == spec[0];
      assert k == |head|;
    }
  }

  /** A number in braces, with a format spec or without, takes the argument at that index. */
  lemma {:induction false} NumberedBraces(digits: string, spec: string, rest: string)
    requires digits != "" && AllDigits(digits) && Number(digits) <= 0x7fff_ffff_ffff_ffff && Spec(spec)
    ensures var token := "{" + digits + spec + "}"; ReadAs(token, rest, Verb(token, Number(digits), ""))
  {
    hide Number;
    var inner := digits + spec;
    assert forall c :: c in digits ==> IsDigit(c);
    HeadIs(digits, spec);
    assert inner[0] == digits[0] && IsDigit(digits[0]);
    assert Atoi(digits) == Some(Number(digits));
    BraceReads(inner, rest);
    assert "{" + inner + "}" == "{" + digits + spec + "}";
  }

  /** A name in braces names itself and takes no argument. */
  lemma {:induction false} NamedBraces(name: string, spec: string, rest: string)
    requires name != "" && IsLetter(name[0]) && ':' !in name && '!' !in name && '}' !in name && Spec(spec)
    ensures var token := "{" + name + spec + "}"; ReadAs(token, rest, Verb(token, -1, name))
  {
    var inner := name + spec;
    HeadIs(name, spec);
    assert inner[0] == name[0];
    assert Atoi(name) == None by { assert !IsDigit(name[0]); }
    BraceReads(inner, rest);
    assert "{" + inner + "}" == "{" + name + spec + "}";
  }

  /** A dollar sign and a digit from 1 take the argument before that number. */
  lemma {:induction false} DollarVerb(d: char, rest: string)
    requires '1' <= d <= '9'
    ensures ReadAs(['$', d], rest, Verb(['$', d], d as int - '1' as int, ""))
  {
    var f := ['$', d] + rest;
    assert f[0] == '$' && f[1] == d && f[..2] == ['$', d];
    SlotReads(['$', d], rest, Verb(['$', d], d as int - '1' as int, ""));
  }

  /** A doubled percent sign or brace is text, and so is every character that starts no verb. */
  lemma {:induction false} DoubledIsText(c: char, rest: string, lit: string)
    requires c in "%{}"
    ensures Parse([c, c] + rest, lit) == Parse(rest, lit + [c])
  {
    var f := [c, c] + rest;
    ParseStep(f, lit);
    assert f[0] == c && f[1] == c && f[2..] == rest;
  }

  lemma {:induction false} PlainIsText(c: char, rest: string, lit: string)
    requires c !in "%{}$"
    ensures Parse([c] + rest, lit) == Parse(rest, lit + [c])
  {
    var f := [c] + rest;
    ParseStep(f, lit);
    assert f[0] == c && f[1..] == rest;
  }

  /** A percent sign that starts no verb, an unclosed brace, a lone closing one: text as well. */
  lemma {:induction false} StrayIsText(c: char, rest: string, lit: string)
    requires (c == '%' && (rest == "" || (rest[0] !in FLAGS && !IsLetter(rest[0]) && rest[0] != '%')))
          || (c == '{' && '}' !in rest && (rest == "" || rest[0] != '{'))
          || (c == '}' && (rest == "" || rest[0] != '}'))
          || (c == '$' && (rest == "" || !('1' <= rest[0] <= '9')))
    ensures Parse([c] + rest, lit) == Parse(rest, lit + [c])
  {
    var f := [c] + rest;
    ParseStep(f, lit);
    assert f[0] == c && f[1..] == rest && (rest != "" ==> f[1] == rest[0]);
    if c == '%' {
      FlagRunIs("", rest);
      assert "" + rest == rest;
    } else if c == '{' {
      assert '}' !in f;
    }
  }
}

/** The few operations of Go's `strings` package that the modelled code relies on. */
module Strs {
  datatype Option<+T> = None | Some(value: T)

  predicate HasPrefix(s: string, prefix: string) {
    prefix <= s
  }

  predicate HasSuffix(s: string, suffix: string) {
    |suffix| <= |s| && s[|s| - |suffix|..] == suffix
  }

  /** The first position of `c` in `s`, or -1. */
  function IndexByte(s: string, c: char): (i: int)
    ensures -1 <= i < |s|
    ensures i < 0 ==> c !in s
    ensures i >= 0 ==> s[i] == c && c !in s[..i]
  {
    if s == "" then -1
    else if s[0] == c then 0
    else
      var i := IndexByte(s[1..], c);
      if i < 0 then -1 else
      assert s[..i + 1] == [s[0]] + s[1..][..i];
      i + 1
  }

  /** The first position holding one of `chars`, or -1. */
  function IndexAny(s: string, chars: string): (i: int)
    ensures -1 <= i < |s|
    ensures i < 0 ==> forall k :: 0 <= k < |s| ==> s[k] !in chars
    ensures i >= 0 ==> s[i] in chars && forall k :: 0 <= k < i ==> s[k] !in chars
  {
    if s == "" then -1
    else if s[0] in chars then 0
    else
      var i := IndexAny(s[1..], chars);
      if i < 0 then
        assert forall k :: 1 <= k < |s| ==> s[k] == s[1..][k - 1];
        -1
      else
        assert forall k :: 1 <= k < i + 1 ==> s[k] == s[1..][k - 1];
        i + 1
  }

  /** The last position holding one of `chars`, or -1. */
  function LastIndexAny(s: string, chars: string): (i: int)
    ensures -1 <= i < |s|
    ensures i < 0 ==> forall k :: 0 <= k < |s| ==> s[k] !in chars
    ensures i >= 0 ==> s[i] in chars && forall k :: i < k < |s| ==> s[k] !in chars
  {
    if s == "" then -1
    else if s[|s| - 1] in chars then |s| - 1
    else LastIndexAny(s[..|s| - 1], chars)
  }

  function TrimSuffix(s: string, suffix: string): string {
    if HasSuffix(s, suffix) then s[..|s| - |suffix|] else s
  }

  /** strings.TrimSpace on ASCII text. */
  function TrimSpace(s: string): string {
    if s == "" then ""
    else if s[0] in " \t\n\r\U{000b}\U{000c}" then TrimSpace(s[1..])
    else if s[|s| - 1] in " \t\n\r\U{000b}\U{000c}" then TrimSpace(s[..|s| - 1])
    else s
  }

  function Join(parts: seq<string>, sep: string): string {
    if parts == [] then ""
    else if |parts| == 1 then parts[0]
    else parts[0] + sep + Join(parts[1..], sep)
  }

  /** strings.ReplaceAll for a non-empty needle. */
  function ReplaceAll(s: string, needle: string, with: string): string
    requires needle != ""
    decreases |s|
  {
    if s == "" then ""
    else if needle <= s then with + ReplaceAll(s[|needle|..], needle, with)
    else [s[0]] + ReplaceAll(s[1..], needle, with)
  }

  predicate IsDigit(c: char) {
    '0' <= c <= '9'
  }

  predicate IsLetter(c: char) {
    'a' <= c <= 'z' || 'A' <= c <= 'Z'
  }

  predicate AllDigits(s: string) {
    forall k :: 0 <= k < |s| ==> IsDigit(s[k])
  }

  /** The number a run of decimal digits writes. */
  function Number(s: string): nat
    requires AllDigits(s)
  {
    if s == "" then 0
    else Number(s[..|s| - 1]) * 10 + (s[|s| - 1] as int - '0' as int)
  }

  const MAX_INT: int := 0x7fff_ffff_ffff_ffff

  /** strconv.Atoi on a 64-bit platform: an optional sign, then digits, in range. */
  function Atoi(s: string): Option<int> {
    var body := if s != "" && (s[0] == '+' || s[0] == '-') then s[1..] else s;
    if body == "" || !AllDigits(body) then None
    else
      var n := (if s[0] == '-' then -1 else 1) * Number(body);
      if -MAX_INT - 1 <= n <= MAX_INT then Some(n) else None
  }

  /** strconv.Itoa of a natural number. */
  function Itoa(n: nat): (s: string)
    ensures s != "" && AllDigits(s) && Number(s) == n
  {
    var last := ['0' + (n % 10) as char];
    if n < 10 then
      assert last[..0] == "";
      last
    else
      var s := Itoa(n / 10) + last;
      assert s[..|s| - 1] == Itoa(n / 10);
      s
  }

  lemma {:induction false} FirstSlash(p: string, v: string)
    requires '/' !in p
    ensures IndexByte(p + "/" + v, '/') == |p|
  {
    if p == "" {
      assert (p + "/" + v)[0] == '/';
    } else {
      FirstSlash(p[1..], v);
      assert (p + "/" + v)[1..] == p[1..] + "/" + v;
    }
  }

  /** A text with a slash has one part before its first slash. */
  lemma OneSlash(p: string, v: string, q: string, w: string)
    requires p + "/" + v == q + "/" + w && '/' !in p && '/' !in q
    ensures p == q && v == w
  {
    FirstSlash(p, v);
    FirstSlash(q, w);
    var s := p + "/" + v;
    assert p == s[..|p|] && q == s[..|q|];
    assert v == s[|p| + 1..] && w == s[|q| + 1..];
  }
}

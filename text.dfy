/**
 * The few Python `str` operations the bot relies on, over ASCII: `strip`,
 * `rstrip`, `lower`, `in`, `find`, `replace("\n", "\n> ")`, slicing and
 * `str()` of integers and of absent values.
 */
module Text {
  import opened Wrappers

  /** The ASCII characters Python's `str.isspace` accepts. */
  predicate IsSpace(c: char) {
    c == ' ' || ('\t' <= c <= '\r') || ('\U{1C}' <= c <= '\U{1F}')
  }

  /** `s.lstrip()`: drops the leading whitespace and nothing else. */
  function StripLeft(s: string): (r: string)
    ensures |r| <= |s| && r == s[|s| - |r|..]
    ensures r == [] || !IsSpace(r[0])
    ensures forall i :: 0 <= i < |s| - |r| ==> IsSpace(s[i])
  {
    if s != [] && IsSpace(s[0]) then StripLeft(s[1..]) else s
  }

  /** `s.rstrip()`: drops the trailing whitespace and nothing else. */
  function StripRight(s: string): (r: string)
    ensures |r| <= |s| && r == s[..|r|]
    ensures r == [] || !IsSpace(r[|r| - 1])
    ensures forall i :: |r| <= i < |s| ==> IsSpace(s[i])
  {
    if s != [] && IsSpace(s[|s| - 1]) then StripRight(s[..|s| - 1]) else s
  }

  /** `s.strip()`. */
  function Strip(s: string): (r: string)
    ensures r == [] || (!IsSpace(r[0]) && !IsSpace(r[|r| - 1]))
  {
    StripRight(StripLeft(s))
  }

  /** Neither the first nor the last character is whitespace. */
  predicate Trimmed(s: string) {
    s == [] || (!IsSpace(s[0]) && !IsSpace(s[|s| - 1]))
  }

  lemma StripIsTrimmed(s: string)
    ensures Trimmed(Strip(s))
  {
    var r := Strip(s);
    assert r == [] || (!IsSpace(r[0]) && !IsSpace(r[|r| - 1]));
  }

  predicate OccursAt(hay: string, needle: string, i: int) {
    0 <= i && i + |needle| <= |hay| && hay[i..i + |needle|] == needle
  }

  /** Python's `needle in hay` on strings. */
  predicate Contains(hay: string, needle: string) {
    exists i | 0 <= i <= |hay| :: OccursAt(hay, needle, i)
  }

  predicate StartsWith(s: string, prefix: string) {
    |prefix| <= |s| && s[..|prefix|] == prefix
  }

  predicate EndsWith(s: string, suffix: string) {
    |suffix| <= |s| && s[|s| - |suffix|..] == suffix
  }

  /** `hay.find(needle, from)`, as the leftmost occurrence at or after `from`. */
  function FindFrom(hay: string, needle: string, from: nat): (r: Option<nat>)
    ensures r.Some? ==> from <= r.value && OccursAt(hay, needle, r.value)
    ensures r.Some? ==> forall j :: from <= j < r.value ==> !OccursAt(hay, needle, j)
    ensures r.None? ==> forall j :: from <= j ==> !OccursAt(hay, needle, j)
    decreases |hay| - from
  {
    if from + |needle| > |hay| then None
    else if hay[from..from + |needle|] == needle then Some(from)
    else FindFrom(hay, needle, from + 1)
  }

  function LowerChar(c: char): char {
    if 'A' <= c <= 'Z' then (c as int + 32) as char else c
  }

  function UpperChar(c: char): char {
    if 'a' <= c <= 'z' then (c as int - 32) as char else c
  }

  /** `s.lower()` on ASCII letters. */
  function Lower(s: string): (r: string)
    ensures |r| == |s|
  {
    seq(|s|, i requires 0 <= i < |s| => LowerChar(s[i]))
  }

  /** `s.upper()` on ASCII letters. */
  function Upper(s: string): (r: string)
    ensures |r| == |s|
  {
    seq(|s|, i requires 0 <= i < |s| => UpperChar(s[i]))
  }

  /** Lower-casing forgets whatever case the text had. */
  lemma LowerOfUpper(s: string)
    ensures Lower(Upper(s)) == Lower(s)
  {
    assert forall i :: 0 <= i < |s| ==> Lower(Upper(s))[i] == Lower(s)[i];
  }

  /** `s.replace("\n", "\n> ")`: every newline opens a new quoted line. */
  function QuoteNewlines(s: string): (r: string)
    ensures |r| >= |s|
    ensures forall i :: 0 <= i < |r| && r[i] == '\n' ==> i + 2 < |r| && r[i + 1] == '>' && r[i + 2] == ' '
  {
    if s == [] then []
    else (if s[0] == '\n' then "\n> " else [s[0]]) + QuoteNewlines(s[1..])
  }

  /** The inverse of `QuoteNewlines`: every "\n> " goes back to "\n". */
  function Unquote(s: string): string {
    if s == [] then []
    else if |s| >= 3 && s[..3] == "\n> " then "\n" + Unquote(s[3..])
    else [s[0]] + Unquote(s[1..])
  }

  /** Quoting loses nothing: the original text can be read back. */
  lemma {:induction false} UnquoteQuoteNewlines(s: string)
    ensures Unquote(QuoteNewlines(s)) == s
  {
    if s != [] {
      var rest := QuoteNewlines(s[1..]);
      UnquoteQuoteNewlines(s[1..]);
      if s[0] == '\n' {
        assert QuoteNewlines(s) == "\n> " + rest;
        assert (("\n> " + rest)[..3]) == "\n> ";
        assert ("\n> " + rest)[3..] == rest;
        assert s == "\n" + s[1..];
      } else {
        var q := [s[0]] + rest;
        assert QuoteNewlines(s) == q;
        assert q[0] != '\n';
        assert q[1..] == rest;
        assert s == [s[0]] + s[1..];
      }
    }
  }

  /** A string occurs in any concatenation where it stands in the middle. */
  lemma OccursInMiddle(x: string, y: string, z: string)
    ensures OccursAt(x + y + z, y, |x|)
  {
    assert (x + y + z)[|x|..|x| + |y|] == y;
  }

  lemma FirstOfAppend<T>(a: seq<T>, b: seq<T>)
    requires a != []
    ensures (a + b)[0] == a[0]
  {
  }

  lemma LastOfAppend<T>(a: seq<T>, b: seq<T>)
    requires b != []
    ensures (a + b)[|a + b| - 1] == b[|b| - 1]
  {
  }

  /** Equal strings with equal starts have equal rests. */
  lemma CancelPrefix<T>(a: seq<T>, x: seq<T>, y: seq<T>)
    requires a + x == a + y
    ensures x == y
  {
    assert x == (a + x)[|a|..];
  }

  lemma EndsWithAppend(a: string, b: string)
    ensures EndsWith(a + b, b)
  {
    assert (a + b)[|a|..] == b;
  }

  lemma AppendAssoc<T>(a: seq<T>, b: seq<T>, c: seq<T>)
    ensures (a + b) + c == a + (b + c)
  {
  }

  /** Python's `s[:n]` for `n >= 0`. */
  function Take<T>(s: seq<T>, n: nat): (r: seq<T>)
    ensures |r| == if |s| <= n then |s| else n
    ensures r == s[..|r|]
  {
    if |s| <= n then s else s[..n]
  }

  /** `a or b` where `a` is an optional string and "" is falsy. */
  function OrText(a: Option<string>, b: string): (r: string)
    ensures a.Some? && a.value != "" ==> r == a.value
    ensures (a.None? || a.value == "") ==> r == b
  {
    if a.Some? && a.value != "" then a.value else b
  }

  function DigitChar(d: nat): char
    requires d < 10
  {
    "0123456789"[d]
  }

  /** `str(n)` for a natural number. */
  function NatToString(n: nat): (r: string)
    ensures r != []
    decreases n
  {
    if n < 10 then [DigitChar(n)] else NatToString(n / 10) + [DigitChar(n % 10)]
  }

  /** `str(i)` for a Python `int`. */
  function IntToString(i: int): string {
    if i < 0 then "-" + NatToString(-i) else NatToString(i)
  }

  /** An f-string hole holding an `Optional[str]`: `None` prints as "None". */
  function ShowText(o: Option<string>): string {
    match o
    case Some(s) => s
    case None => "None"
  }

  /** An f-string hole holding an `Optional[int]`. */
  function ShowInt(o: Option<int>): string {
    match o
    case Some(i) => IntToString(i)
    case None => "None"
  }

  /** Stripping keeps a text that neither begins nor ends with whitespace. */
  lemma StripKeepsTrimmed(s: string)
    requires s != [] && !IsSpace(s[0]) && !IsSpace(s[|s| - 1])
    ensures Strip(s) == s
  {
    var l := StripLeft(s);
    assert !IsSpace(s[0]);
    assert l == s;
    var r := StripRight(l);
    assert !IsSpace(l[|l| - 1]);
  }

  /** Stripping a text that begins with a non-space only trims its end. */
  lemma StripOfTrimmedStart(s: string)
    requires s != [] && !IsSpace(s[0])
    ensures Strip(s) == StripRight(s)
  {
    var l := StripLeft(s);
    assert !IsSpace(s[0]);
    assert l == s;
  }

  /** Trailing whitespace of `b` is all `rstrip` removes from `a + b` when `b` has a non-space. */
  lemma StripRightAppend(a: string, b: string)
    requires StripRight(b) != []
    ensures StripRight(a + b) == a + StripRight(b)
  {
    var rb := StripRight(b);
    var r := StripRight(a + b);
    var k := |a| + |rb| - 1;
    assert (a + b)[k] == rb[|rb| - 1];
    assert !IsSpace((a + b)[k]);
    assert |r| > k;
    assert forall i :: |rb| <= i < |b| ==> (a + b)[|a| + i] == b[i];
    assert r == (a + b)[..|a| + |rb|];
    assert (a + b)[..|a| + |rb|] == a + b[..|rb|];
  }

  /** An occurrence inside the kept suffix `s[d..]` moves left by `d`. */
  lemma OccursInSuffix(s: string, needle: string, k: nat, d: nat)
    requires OccursAt(s, needle, k) && d <= k
    ensures OccursAt(s[d..], needle, k - d)
  {
    assert s[d..][k - d..k - d + |needle|] == s[k..k + |needle|];
  }

  /** An occurrence that ends inside the kept prefix `s[..m]` stays where it is. */
  lemma OccursInPrefix(s: string, needle: string, k: nat, m: nat)
    requires OccursAt(s, needle, k) && k + |needle| <= m <= |s|
    ensures OccursAt(s[..m], needle, k)
  {
    assert s[..m][k..k + |needle|] == s[k..k + |needle|];
  }

  /** `lstrip` keeps a needle that begins with a non-space. */
  lemma StripLeftKeepsInfix(s: string, needle: string, k: nat) returns (k': nat)
    requires OccursAt(s, needle, k) && needle != [] && !IsSpace(needle[0])
    ensures OccursAt(StripLeft(s), needle, k')
  {
    var l := StripLeft(s);
    var d := |s| - |l|;
    assert s[k..k + |needle|][0] == s[k] == needle[0];
    assert !IsSpace(s[k]);
    assert d <= k;
    OccursInSuffix(s, needle, k, d);
    k' := k - d;
  }

  /** `rstrip` keeps a needle that ends with a non-space. */
  lemma StripRightKeepsInfix(s: string, needle: string, k: nat)
    requires OccursAt(s, needle, k) && needle != [] && !IsSpace(needle[|needle| - 1])
    ensures OccursAt(StripRight(s), needle, k)
  {
    var r := StripRight(s);
    var last := k + |needle| - 1;
    assert s[k..k + |needle|][|needle| - 1] == s[last] == needle[|needle| - 1];
    assert !IsSpace(s[last]);
    OccursInPrefix(s, needle, k, |r|);
  }

  /** A needle that begins and ends with non-space survives stripping around it. */
  lemma StripKeepsInfix(s: string, needle: string, k: nat)
    requires OccursAt(s, needle, k) && needle != []
    requires !IsSpace(needle[0]) && !IsSpace(needle[|needle| - 1])
    ensures Contains(Strip(s), needle)
  {
    var k' := StripLeftKeepsInfix(s, needle, k);
    StripRightKeepsInfix(StripLeft(s), needle, k');
    assert OccursAt(Strip(s), needle, k');
  }
}

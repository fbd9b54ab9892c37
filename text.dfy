/** String operations the handlers rely on: Python's `str.strip()`,
    `str.upper()`/`str.lower()` (ASCII letters only), `startswith`,
    `endswith`, the extension part of `os.path.splitext`, and the decimal
    rendering of a status code. */
module Text {

  import opened Outcomes

  /** The characters for which Python's `str.isspace()` holds. */
  const SPACE_CHARS: set<char> := {
    ' ', '\t', '\n', '\r', '\U{000B}', '\U{000C}',
    '\U{001C}', '\U{001D}', '\U{001E}', '\U{001F}',
    '\U{0085}', '\U{00A0}', '\U{1680}',
    '\U{2000}', '\U{2001}', '\U{2002}', '\U{2003}', '\U{2004}', '\U{2005}',
    '\U{2006}', '\U{2007}', '\U{2008}', '\U{2009}', '\U{200A}',
    '\U{2028}', '\U{2029}', '\U{202F}', '\U{205F}', '\U{3000}'}

  predicate IsSpace(c: char) {
    c in SPACE_CHARS
  }

  predicate AllSpace(s: string) {
    forall i :: 0 <= i < |s| ==> IsSpace(s[i])
  }

  /** Every character of `s` outside the index range [lo, hi) is whitespace. */
  predicate SpaceOutside(s: string, lo: int, hi: int) {
    forall k :: 0 <= k < |s| && (k < lo || hi <= k) ==> IsSpace(s[k])
  }

  /** The index of the first character at or after `i` that is not
      whitespace, or `|s|` when there is none: where `s.lstrip()` starts. */
  function SkipSpace(s: string, i: nat): (j: nat)
    requires i <= |s|
    ensures i <= j <= |s|
    ensures forall k :: i <= k < j ==> IsSpace(s[k])
    ensures j == |s| || !IsSpace(s[j])
    decreases |s| - i
  {
    if i == |s| || !IsSpace(s[i]) then i else SkipSpace(s, i + 1)
  }

  /** The end of `s[lo..hi]` once its trailing whitespace is cut off, as
      `rstrip` does. */
  function TrimEnd(s: string, lo: nat, hi: nat): (e: nat)
    requires lo <= hi <= |s|
    ensures lo <= e <= hi
    ensures forall k :: e <= k < hi ==> IsSpace(s[k])
    ensures e == lo || !IsSpace(s[e - 1])
    decreases hi - lo
  {
    if hi == lo || !IsSpace(s[hi - 1]) then hi else TrimEnd(s, lo, hi - 1)
  }

  /** `s.strip()`: the text between the leading and the trailing whitespace. */
  function Strip(s: string): (r: string)
    ensures r == [] || (!IsSpace(r[0]) && !IsSpace(r[|r| - 1]))
    ensures var i := SkipSpace(s, 0);
      i + |r| <= |s| && r == s[i..i + |r|] && SpaceOutside(s, i, i + |r|)
  {
    var i := SkipSpace(s, 0);
    s[i..TrimEnd(s, i, |s|)]
  }

  /** Python's `not s or not s.strip()`: empty, or whitespace only. */
  predicate IsBlank(s: string) {
    Strip(s) == []
  }

  /** A text is blank exactly when every character in it is whitespace. */
  lemma BlankIffAllSpace(s: string)
    ensures IsBlank(s) <==> AllSpace(s)
  {
    var i := SkipSpace(s, 0);
    if IsBlank(s) {
      assert SpaceOutside(s, i, i);
    } else {
      var r := Strip(s);
      assert s[i] == r[0];
    }
  }

  /** Stripping twice is stripping once. */
  lemma StripIdempotent(s: string)
    ensures Strip(Strip(s)) == Strip(s)
  {
    var t := Strip(s);
    if t != [] {
      assert SkipSpace(t, 0) == 0;
      assert TrimEnd(t, 0, |t|) == |t|;
    }
  }

  function UpperChar(c: char): char {
    if 'a' <= c <= 'z' then (c as int - 32) as char else c
  }

  function LowerChar(c: char): char {
    if 'A' <= c <= 'Z' then (c as int + 32) as char else c
  }

  /** `s.upper()` on ASCII letters. */
  function Upper(s: string): (r: string)
    ensures |r| == |s|
    ensures forall i :: 0 <= i < |s| ==> r[i] == UpperChar(s[i])
  {
    seq(|s|, i requires 0 <= i < |s| => UpperChar(s[i]))
  }

  /** `s.lower()` on ASCII letters. */
  function Lower(s: string): (r: string)
    ensures |r| == |s|
    ensures forall i :: 0 <= i < |s| ==> r[i] == LowerChar(s[i])
  {
    seq(|s|, i requires 0 <= i < |s| => LowerChar(s[i]))
  }

  predicate StartsWith(s: string, prefix: string) {
    |prefix| <= |s| && s[..|prefix|] == prefix
  }

  predicate EndsWith(s: string, suffix: string) {
    |suffix| <= |s| && s[|s| - |suffix|..] == suffix
  }

  /** The index of the last '.' in `s`, if any. */
  function LastDot(s: string): (r: Option<nat>)
    ensures r.Some? ==>
      && r.value < |s| && s[r.value] == '.'
      && forall j :: r.value < j < |s| ==> s[j] != '.'
    ensures r.None? ==> forall j :: 0 <= j < |s| ==> s[j] != '.'
  {
    if s == [] then None
    else if s[|s| - 1] == '.' then Some(|s| - 1)
    else LastDot(s[..|s| - 1])
  }

  /** The extension `os.path.splitext` returns for a name without '/':
      from the last '.' on, provided some character before that dot is not
      a dot (so ".bashrc" and "..x" have no extension). */
  function Extension(name: string): (ext: string)
    ensures EndsWith(name, ext)
    ensures ext == [] || (ext[0] == '.' && forall j :: 0 < j < |ext| ==> ext[j] != '.')
    ensures ext != [] <==> exists i, d :: 0 <= i < d < |name| && name[i] != '.' && name[d] == '.'
  {
    match LastDot(name)
    case None => []
    case Some(d) =>
      if exists i :: 0 <= i < d && name[i] != '.' then name[d..] else []
  }

  function DigitChar(d: nat): char
    requires d < 10
  {
    "0123456789"[d]
  }

  /** `str(n)` for a natural number. */
  function NatToString(n: nat): (s: string)
    ensures s != [] && IsDigits(s)
  {
    if n < 10 then [DigitChar(n)] else NatToString(n / 10) + [DigitChar(n % 10)]
  }

  predicate IsDigits(s: string) {
    forall i :: 0 <= i < |s| ==> '0' <= s[i] <= '9'
  }

  /** The value of a string of decimal digits. */
  function DigitsValue(s: string): nat
    requires IsDigits(s)
  {
    if s == [] then 0 else DigitsValue(s[..|s| - 1]) * 10 + (s[|s| - 1] as int - '0' as int)
  }

  /** Rendering a number in decimal loses nothing: reading it back gives it. */
  lemma {:induction false} NatToStringRoundTrip(n: nat)
    ensures DigitsValue(NatToString(n)) == n
  {
    if n >= 10 {
      NatToStringRoundTrip(n / 10);
      var s := NatToString(n);
      assert s[..|s| - 1] == NatToString(n / 10);
    }
  }

  /** Starlette's text for an HTTPException, which is what `str(e)` gives
      when a broad `except Exception` handler catches one. */
  function HttpExceptionText(status: nat, detail: string): (m: string)
    ensures StartsWith(m, NatToString(status) + ": ")
    ensures m[|NatToString(status)| + 2..] == detail
  {
    NatToString(status) + ": " + detail
  }

  /** The text gives back both the status and the detail: no two different
      exceptions read the same once turned into text. */
  lemma HttpExceptionTextDetermines(status1: nat, detail1: string, status2: nat, detail2: string)
    requires HttpExceptionText(status1, detail1) == HttpExceptionText(status2, detail2)
    ensures status1 == status2 && detail1 == detail2
  {
    var m := HttpExceptionText(status1, detail1);
    var a, b := NatToString(status1), NatToString(status2);
    assert m == a + ": " + detail1 && m == b + ": " + detail2;
    assert forall k :: 0 <= k < |a| ==> m[k] == a[k];
    assert forall k :: 0 <= k < |b| ==> m[k] == b[k];
    assert m[|a|] == ':' && m[|b|] == ':';
    assert |a| == |b|;
    assert a == m[..|a|] && b == m[..|b|];
    NatToStringRoundTrip(status1);
    NatToStringRoundTrip(status2);
    assert detail1 == m[|a| + 2..] == detail2;
  }
}

/** String helpers with the meaning the Python standard library gives them:
    `pathlib.PurePath.suffix`, `os.path.splitext`, `str.lower`/`str.upper`
    (restricted to ASCII letters), `str.replace`, `sub in s`, `str(int)`,
    `int(str)` and `"%0*d"` zero padding. */
module Text {
  import opened Wrappers

  // ---------------------------------------------------------------------
  // Character case (ASCII letters only)
  // ---------------------------------------------------------------------

  function LowerChar(c: char): char {
    if 'A' <= c <= 'Z' then (c as int + 32) as char else c
  }

  function UpperChar(c: char): char {
    if 'a' <= c <= 'z' then (c as int - 32) as char else c
  }

  /** `s.lower()` for ASCII text: every character mapped on its own. */
  function Lower(s: string): (r: string)
    ensures |r| == |s|
    ensures forall i :: 0 <= i < |s| ==> r[i] == LowerChar(s[i])
  {
    seq(|s|, i requires 0 <= i < |s| => LowerChar(s[i]))
  }

  /** `s.upper()` for ASCII text. */
  function Upper(s: string): (r: string)
    ensures |r| == |s|
    ensures forall i :: 0 <= i < |s| ==> r[i] == UpperChar(s[i])
  {
    seq(|s|, i requires 0 <= i < |s| => UpperChar(s[i]))
  }

  /** Changing the case of a string keeps its lower-case form: the two case
      transformations differ from the original only in letter case. */
  lemma CaseChangesOnlyCase(s: string)
    ensures Lower(Upper(s)) == Lower(s)
    ensures Lower(Lower(s)) == Lower(s)
  {
    assert forall i :: 0 <= i < |s| ==> LowerChar(UpperChar(s[i])) == LowerChar(s[i]);
  }

  // ---------------------------------------------------------------------
  // Dots, suffixes and extensions
  // ---------------------------------------------------------------------

  predicate NoDot(s: string) {
    forall i :: 0 <= i < |s| ==> s[i] != '.'
  }

  predicate AllDots(s: string) {
    forall i :: 0 <= i < |s| ==> s[i] == '.'
  }

  /** `s.rfind(c)`: the index of the last occurrence of `c`, or -1. */
  function RFind(s: string, c: char): (r: int)
    ensures -1 <= r < |s|
    ensures r >= 0 ==> s[r] == c && forall j :: r < j < |s| ==> s[j] != c
    ensures r == -1 ==> forall j :: 0 <= j < |s| ==> s[j] != c
  {
    if s == [] then -1
    else if s[|s| - 1] == c then |s| - 1
    else RFind(s[..|s| - 1], c)
  }

  /** `PurePath(name).suffix` of a single path component: the text from the
      last dot on, provided that dot is neither the first nor the last
      character. */
  function Suffix(name: string): (r: string)
    ensures r == [] || (|r| >= 2 && r[0] == '.' && NoDot(r[1..]) && |r| < |name|)
  {
    var i := RFind(name, '.');
    if 0 < i < |name| - 1 then name[i..] else []
  }

  /** Appending a proper extension to a non-empty stem gives a name whose
      suffix is exactly that extension. */
  lemma SuffixOfStemAndExtension(stem: string, ext: string)
    requires |stem| > 0 && |ext| >= 2 && ext[0] == '.' && NoDot(ext[1..])
    ensures Suffix(stem + ext) == ext
  {
    var name := stem + ext;
    var i := RFind(name, '.');
    assert name[|stem|] == '.';
    forall j | |stem| < j < |name| ensures name[j] != '.' {
      assert name[j] == ext[1..][j - |stem| - 1];
    }
    assert i == |stem|;
    assert name[i..] == ext;
  }

  /** `os.path.splitext(p)` for a path with no separator: split at the last
      dot unless everything before that dot is dots (a leading dot does not
      start an extension). */
  function SplitExt(p: string): (r: (string, string))
    ensures r.0 + r.1 == p
    ensures r.1 == [] || (r.1[0] == '.' && NoDot(r.1[1..]) && !AllDots(r.0))
  {
    var dot := RFind(p, '.');
    if dot >= 0 && !AllDots(p[..dot]) then (p[..dot], p[dot..]) else (p, [])
  }

  /** Splitting a stem joined to an extension gives the two parts back. */
  lemma SplitExtOfJoin(stem: string, ext: string)
    requires !AllDots(stem) && |ext| >= 1 && ext[0] == '.' && NoDot(ext[1..])
    ensures SplitExt(stem + ext) == (stem, ext)
  {
    var p := stem + ext;
    var dot := RFind(p, '.');
    assert p[|stem|] == '.';
    forall j | |stem| < j < |p| ensures p[j] != '.' {
      assert p[j] == ext[1..][j - |stem| - 1];
    }
    assert dot == |stem|;
    assert p[..dot] == stem && p[dot..] == ext;
  }

  // ---------------------------------------------------------------------
  // Substrings and `str.replace`
  // ---------------------------------------------------------------------

  predicate StartsWith(s: string, prefix: string) {
    |prefix| <= |s| && s[..|prefix|] == prefix
  }

  /** Python's `sub in s`. */
  predicate Contains(s: string, sub: string)
    decreases |s|
  {
    StartsWith(s, sub) || (|s| > 0 && Contains(s[1..], sub))
  }

  /** `s.replace(pat, rep)`: every non-overlapping occurrence of `pat`,
      scanning left to right, is replaced by `rep`. */
  function Replace(s: string, pat: string, rep: string): string
    requires |pat| > 0
    decreases |s|
  {
    if |s| < |pat| then s
    else if s[..|pat|] == pat then rep + Replace(s[|pat|..], pat, rep)
    else [s[0]] + Replace(s[1..], pat, rep)
  }

  /** Text without the pattern is left as it is. */
  lemma {:induction false} ReplaceAbsent(s: string, pat: string, rep: string)
    requires |pat| > 0 && !Contains(s, pat)
    ensures Replace(s, pat, rep) == s
    decreases |s|
  {
    if |s| >= |pat| {
      assert s[..|pat|] != pat;
      ReplaceAbsent(s[1..], pat, rep);
      assert [s[0]] + s[1..] == s;
    }
  }

  /** Text made of the pattern and a pattern-free tail: the pattern is
      replaced and the tail kept. */
  lemma ReplaceLeadingPattern(pat: string, tail: string, rep: string)
    requires |pat| > 0 && !Contains(tail, pat)
    ensures Replace(pat + tail, pat, rep) == rep + tail
  {
    var s := pat + tail;
    assert s[..|pat|] == pat;
    assert s[|pat|..] == tail;
    ReplaceAbsent(tail, pat, rep);
  }

  /** No character of `s` is `c`. */
  predicate Avoids(s: string, c: char) {
    forall i :: 0 <= i < |s| ==> s[i] != c
  }

  /** Text in front that cannot start an occurrence is copied as it is,
      and the replacement goes on behind it. */
  lemma {:induction false} ReplaceSkipsPlain(a: string, s: string, pat: string, rep: string)
    requires |pat| > 0 && Avoids(a, pat[0])
    ensures Replace(a + s, pat, rep) == a + Replace(s, pat, rep)
    decreases |a|
  {
    var t := a + s;
    if a == [] {
      assert t == s;
    } else if |t| < |pat| {
      assert Replace(s, pat, rep) == s;
    } else {
      assert t[..|pat|][0] == a[0] != pat[0];
      assert t[1..] == a[1..] + s;
      ReplaceSkipsPlain(a[1..], s, pat, rep);
      assert [a[0]] + (a[1..] + Replace(s, pat, rep)) == a + Replace(s, pat, rep);
    }
  }

  /** The first occurrence of the pattern, after text that cannot start
      one, is replaced, and the replacement goes on behind it: applied
      repeatedly, every occurrence is replaced from left to right. */
  lemma ReplaceOccurrence(a: string, b: string, pat: string, rep: string)
    requires |pat| > 0 && Avoids(a, pat[0])
    ensures Replace(a + pat + b, pat, rep) == a + rep + Replace(b, pat, rep)
  {
    var t := pat + b;
    assert t[..|pat|] == pat && t[|pat|..] == b;
    assert a + pat + b == a + t;
    ReplaceSkipsPlain(a, t, pat, rep);
  }

  // ---------------------------------------------------------------------
  // Decimal digits
  // ---------------------------------------------------------------------

  predicate IsDigit(c: char) {
    '0' <= c <= '9'
  }

  predicate AllDigits(s: string) {
    forall i :: 0 <= i < |s| ==> IsDigit(s[i])
  }

  function DigitChar(n: nat): (c: char)
    requires n < 10
    ensures IsDigit(c)
  {
    ('0' as int + n) as char
  }

  /** The number a string of decimal digits denotes. */
  function DigitsValue(s: string): nat
    requires AllDigits(s)
    decreases |s|
  {
    if s == [] then 0
    else DigitsValue(s[..|s| - 1]) * 10 + (s[|s| - 1] as int - '0' as int)
  }

  function Pow10(n: nat): (r: nat)
    ensures r >= 1
  {
    if n == 0 then 1 else 10 * Pow10(n - 1)
  }

  /** `str(n)` for a natural number: digits without leading zeros, which
      read back as `n`. */
  function NatToString(n: nat): (r: string)
    ensures |r| >= 1 && AllDigits(r)
    ensures DigitsValue(r) == n
    ensures |r| > 1 ==> r[0] != '0'
    decreases n
  {
    if n < 10 then [DigitChar(n)]
    else
      var prefix := NatToString(n / 10);
      var r := prefix + [DigitChar(n % 10)];
      assert r[..|r| - 1] == prefix;
      r
  }

  /** Decimal notation is injective. */
  lemma NatToStringInjective(a: nat, b: nat)
    requires NatToString(a) == NatToString(b)
    ensures a == b
  {
  }

  /** A number below 10^w takes at most w digits. */
  lemma {:induction false} NatToStringLength(n: nat, w: nat)
    requires 1 <= w && n < Pow10(w)
    ensures |NatToString(n)| <= w
    decreases n
  {
    if n >= 10 {
      assert w >= 2;
      NatToStringLength(n / 10, w - 1);
    }
  }

  function Zeros(k: nat): (r: string)
    ensures |r| == k && AllDigits(r)
  {
    seq(k, _ => '0')
  }

  /** Leading zeros do not change the value of a digit string. */
  lemma {:induction false} LeadingZerosValue(k: nat, s: string)
    requires AllDigits(s)
    ensures AllDigits(Zeros(k) + s) && DigitsValue(Zeros(k) + s) == DigitsValue(s)
    decreases |s|
  {
    var t := Zeros(k) + s;
    assert forall i :: 0 <= i < |t| ==> IsDigit(t[i]);
    if s == [] {
      assert t == Zeros(k);
      ZerosValue(k);
    } else {
      var init := s[..|s| - 1];
      LeadingZerosValue(k, init);
      assert t[..|t| - 1] == Zeros(k) + init;
    }
  }

  lemma {:induction false} ZerosValue(k: nat)
    ensures DigitsValue(Zeros(k)) == 0
  {
    if k > 0 {
      assert Zeros(k)[..k - 1] == Zeros(k - 1);
      ZerosValue(k - 1);
    }
  }

  /** `"%0*d" % (w, n)`: decimal notation, padded with zeros on the left
      to at least `w` characters. */
  function PadNat(n: nat, w: nat): string {
    var s := NatToString(n);
    if |s| >= w then s else Zeros(w - |s|) + s
  }

  /** A number below 10^w pads to exactly w digits that read back as it. */
  lemma PadNatValue(n: nat, w: nat)
    requires 1 <= w && n < Pow10(w)
    ensures |PadNat(n, w)| == w && AllDigits(PadNat(n, w))
    ensures DigitsValue(PadNat(n, w)) == n
  {
    var s := NatToString(n);
    NatToStringLength(n, w);
    LeadingZerosValue(w - |s|, s);
  }

  // ---------------------------------------------------------------------
  // `str(int)` and `int(str)`
  // ---------------------------------------------------------------------

  function IntToString(n: int): string {
    if n < 0 then "-" + NatToString(-n) else NatToString(n)
  }

  /** `int(s)` for an optional sign followed by ASCII digits; anything else
      raises `ValueError`, rendered as `None`. */
  function ParseInt(s: string): Option<int> {
    if |s| >= 2 && s[0] == '-' && AllDigits(s[1..]) then Some(-(DigitsValue(s[1..]) as int))
    else if |s| >= 2 && s[0] == '+' && AllDigits(s[1..]) then Some(DigitsValue(s[1..]))
    else if |s| >= 1 && AllDigits(s) then Some(DigitsValue(s))
    else None
  }

  /** `int(str(n)) == n`. */
  lemma ParseIntOfIntToString(n: int)
    ensures ParseInt(IntToString(n)) == Some(n)
  {
    if n < 0 {
      var s := IntToString(n);
      assert s[1..] == NatToString(-n);
    }
  }
}

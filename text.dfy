/**
 * String operations shared by the Python back end and the browser script:
 * whitespace stripping (Python's `str.strip()` and JavaScript's `String.prototype.trim()`,
 * which disagree on a few characters), `replace`, `split` on one character, `join`,
 * ASCII lower-casing, substring search and decimal digits.
 */
module Text {

  // ---------------------------------------------------------------------------
  // Whitespace
  // ---------------------------------------------------------------------------

  /** The characters for which Python's `str.isspace()` holds, i.e. what `str.strip()` removes. */
  predicate IsPySpace(c: char) {
    var n := c as int;
    (0x09 <= n <= 0x0D) || (0x1C <= n <= 0x20) || n == 0x85 || n == 0xA0 || n == 0x1680
    || (0x2000 <= n <= 0x200A) || n == 0x2028 || n == 0x2029 || n == 0x202F || n == 0x205F
    || n == 0x3000
  }

  /** The WhiteSpace and LineTerminator characters that JavaScript's `trim()` removes. */
  predicate IsJsSpace(c: char) {
    var n := c as int;
    (0x09 <= n <= 0x0D) || n == 0x20 || n == 0xA0 || n == 0x1680
    || (0x2000 <= n <= 0x200A) || n == 0x2028 || n == 0x2029 || n == 0x202F || n == 0x205F
    || n == 0x3000 || n == 0xFEFF
  }

  /** Drops the leading characters satisfying `ws`. */
  function TrimStart(s: string, ws: char -> bool): (t: string)
    ensures |t| <= |s| && t == s[|s| - |t|..]
    ensures forall i :: 0 <= i < |s| - |t| ==> ws(s[i])
    ensures t == [] || !ws(t[0])
  {
    if s != [] && ws(s[0]) then
      var t := TrimStart(s[1..], ws);
      assert forall i :: 1 <= i < |s| ==> s[i] == s[1..][i - 1];
      t
    else s
  }

  /** Drops the trailing characters satisfying `ws`. */
  function TrimEnd(s: string, ws: char -> bool): (t: string)
    ensures |t| <= |s| && t == s[..|t|]
    ensures forall i :: |t| <= i < |s| ==> ws(s[i])
    ensures t == [] || !ws(t[|t| - 1])
  {
    if s != [] && ws(s[|s| - 1]) then
      var t := TrimEnd(s[..|s| - 1], ws);
      assert forall i :: 0 <= i < |s| - 1 ==> s[i] == s[..|s| - 1][i];
      t
    else s
  }

  /** Drops leading and trailing characters satisfying `ws`. */
  function Strip(s: string, ws: char -> bool): (t: string)
    ensures |t| <= |s|
    ensures t == [] || (!ws(t[0]) && !ws(t[|t| - 1]))
  {
    TrimEnd(TrimStart(s, ws), ws)
  }

  /** Python `s.strip()`. */
  function PyStrip(s: string): string {
    Strip(s, IsPySpace)
  }

  /** JavaScript `s.trim()`. */
  function JsTrim(s: string): string {
    Strip(s, IsJsSpace)
  }

  /** Stripping only removes characters. */
  lemma StripChars(s: string, ws: char -> bool)
    ensures forall c :: c in Strip(s, ws) ==> c in s
  {
    var u := TrimStart(s, ws);
    var t := TrimEnd(u, ws);
    assert t == s[|s| - |u|..][..|t|];
  }

  /** A string with no whitespace at either end is its own stripped form. */
  lemma StripUnchanged(s: string, ws: char -> bool)
    requires s == [] || (!ws(s[0]) && !ws(s[|s| - 1]))
    ensures Strip(s, ws) == s
  {
  }

  /** Stripping twice is stripping once. */
  lemma StripIdempotent(s: string, ws: char -> bool)
    ensures Strip(Strip(s, ws), ws) == Strip(s, ws)
  {
    StripUnchanged(Strip(s, ws), ws);
  }

  /** A string strips to nothing exactly when all of its characters are whitespace. */
  lemma StripEmptyIff(s: string, ws: char -> bool)
    ensures Strip(s, ws) == [] <==> forall i :: 0 <= i < |s| ==> ws(s[i])
  {
    var u := TrimStart(s, ws);
    assert |u| <= |s| && u == s[|s| - |u|..];
  }

  /**
   * Each part stripped, the parts that strip to nothing dropped, order kept: Python's
   * `[s.strip() for s in parts if s.strip()]` and JavaScript's
   * `parts.map(s => s.trim()).filter(Boolean)`.
   */
  function StripEach(parts: seq<string>, ws: char -> bool): (r: seq<string>)
    ensures |r| <= |parts|
    ensures forall x :: x in r ==> x != [] && Strip(x, ws) == x
  {
    if parts == [] then []
    else
      var t := Strip(parts[0], ws);
      StripIdempotent(parts[0], ws);
      (if t != [] then [t] else []) + StripEach(parts[1..], ws)
  }

  /** A character absent from every part is absent from every kept entry. */
  lemma {:induction false} StripEachAvoids(parts: seq<string>, ws: char -> bool, c: char)
    requires forall p :: p in parts ==> c !in p
    ensures forall x :: x in StripEach(parts, ws) ==> c !in x
  {
    if parts != [] {
      StripChars(parts[0], ws);
      assert forall p :: p in parts[1..] ==> p in parts;
      StripEachAvoids(parts[1..], ws, c);
    }
  }

  /** Parts that are already stripped and non-blank come through unchanged. */
  lemma {:induction false} StripEachKeeps(xs: seq<string>, ws: char -> bool)
    requires forall x :: x in xs ==> x != [] && Strip(x, ws) == x
    ensures StripEach(xs, ws) == xs
  {
    if xs != [] {
      assert forall x :: x in xs[1..] ==> x in xs;
      StripEachKeeps(xs[1..], ws);
      assert [xs[0]] + xs[1..] == xs;
    }
  }

  // ---------------------------------------------------------------------------
  // Replace, remove, split, join
  // ---------------------------------------------------------------------------

  /** Python `s.replace(pat, rep)`: every non-overlapping occurrence, scanned left to right. */
  function ReplaceAll(s: string, pat: string, rep: string): string
    requires pat != []
    decreases |s|
  {
    if |s| < |pat| then s
    else if s[..|pat|] == pat then rep + ReplaceAll(s[|pat|..], pat, rep)
    else [s[0]] + ReplaceAll(s[1..], pat, rep)
  }

  /** `s` with every occurrence of the character `c` deleted. */
  function Without(s: string, c: char): (r: string)
    ensures forall x :: x in r ==> x in s && x != c
    ensures |r| <= |s|
  {
    if s == [] then [] else (if s[0] == c then [] else [s[0]]) + Without(s[1..], c)
  }

  /** Without a first character of the pattern in `s`, replacing changes nothing. */
  lemma {:induction false} ReplaceAllAbsent(s: string, pat: string, rep: string)
    requires pat != []
    requires forall i :: 0 <= i < |s| ==> s[i] != pat[0]
    ensures ReplaceAll(s, pat, rep) == s
  {
    if |s| >= |pat| {
      assert s[..|pat|][0] == s[0];
      ReplaceAllAbsent(s[1..], pat, rep);
    }
  }

  /** A prefix free of the pattern's first character passes through a replacement untouched. */
  lemma {:induction false} ReplaceAllPrefixAbsent(a: string, b: string, pat: string, rep: string)
    requires pat != []
    requires forall i :: 0 <= i < |a| ==> a[i] != pat[0]
    ensures ReplaceAll(a + b, pat, rep) == a + ReplaceAll(b, pat, rep)
  {
    if a != [] {
      var s := a + b;
      if |s| < |pat| {
        assert ReplaceAll(s, pat, rep) == s;
        assert ReplaceAll(b, pat, rep) == b;
      } else {
        assert s[..|pat|] != pat by {
          assert s[..|pat|][0] == a[0];
        }
        assert s[1..] == a[1..] + b;
        assert ReplaceAll(s, pat, rep) == [a[0]] + ReplaceAll(a[1..] + b, pat, rep);
        ReplaceAllPrefixAbsent(a[1..], b, pat, rep);
        assert [a[0]] + a[1..] == a;
      }
    } else {
      assert a + b == b;
    }
  }

  /** Replacing a one-character pattern by nothing is deleting that character. */
  lemma {:induction false} ReplaceCharByNothing(s: string, c: char)
    ensures ReplaceAll(s, [c], "") == Without(s, c)
  {
    if s != [] {
      ReplaceCharByNothing(s[1..], c);
      if s[0] == c {
        assert s[..1] == [c];
        assert s[1..] == s[|[c]|..];
      } else {
        assert s[..1] != [c];
      }
    }
  }

  /** JavaScript `s.split(sep)` and Python `s.split(sep)` for a one-character separator. */
  function Split(s: string, sep: char): (parts: seq<string>)
    ensures |parts| >= 1
    ensures forall p :: p in parts ==> sep !in p
    decreases |s|
  {
    if s == [] then [""]
    else
      var rest := Split(s[1..], sep);
      if s[0] == sep then [""] + rest else [[s[0]] + rest[0]] + rest[1..]
  }

  /** JavaScript `parts.join(sep)` for a one-character separator. */
  function Join(parts: seq<string>, sep: char): string {
    if parts == [] then ""
    else if |parts| == 1 then parts[0]
    else parts[0] + [sep] + Join(parts[1..], sep)
  }

  lemma {:induction false} SplitWithoutSeparator(a: string, sep: char)
    requires sep !in a
    ensures Split(a, sep) == [a]
  {
    if a != [] {
      SplitWithoutSeparator(a[1..], sep);
      assert [a[0]] + a[1..] == a;
    }
  }

  lemma {:induction false} SplitAtFirstSeparator(a: string, b: string, sep: char)
    requires sep !in a
    ensures Split(a + [sep] + b, sep) == [a] + Split(b, sep)
  {
    var s := a + [sep] + b;
    if a == [] {
      assert s[1..] == b;
    } else {
      assert s[1..] == a[1..] + [sep] + b;
      SplitAtFirstSeparator(a[1..], b, sep);
      assert [a[0]] + a[1..] == a;
    }
  }

  /** Splitting at a separator concatenates the splits of the two sides. */
  lemma {:induction false} SplitConcat(a: string, b: string, sep: char)
    ensures Split(a + [sep] + b, sep) == Split(a, sep) + Split(b, sep)
  {
    var s := a + [sep] + b;
    if a == [] {
      assert s[1..] == b;
    } else {
      assert s[1..] == a[1..] + [sep] + b;
      SplitConcat(a[1..], b, sep);
    }
  }

  lemma {:induction false} WithoutConcat(a: string, b: string, c: char)
    ensures Without(a + b, c) == Without(a, c) + Without(b, c)
  {
    if a == [] {
      assert a + b == b;
    } else {
      assert (a + b)[1..] == a[1..] + b;
      WithoutConcat(a[1..], b, c);
    }
  }

  lemma {:induction false} WithoutAbsent(s: string, c: char)
    requires c !in s
    ensures Without(s, c) == s
  {
    if s != [] {
      WithoutAbsent(s[1..], c);
      assert [s[0]] + s[1..] == s;
    }
  }

  /** Splitting a joined list gives the list back when no element contains the separator. */
  lemma {:induction false} SplitJoin(parts: seq<string>, sep: char)
    requires |parts| >= 1
    requires forall p :: p in parts ==> sep !in p
    ensures Split(Join(parts, sep), sep) == parts
  {
    if |parts| == 1 {
      SplitWithoutSeparator(parts[0], sep);
    } else {
      SplitJoin(parts[1..], sep);
      SplitAtFirstSeparator(parts[0], Join(parts[1..], sep), sep);
      assert [parts[0]] + parts[1..] == parts;
    }
  }

  // ---------------------------------------------------------------------------
  // Case, prefixes, substrings
  // ---------------------------------------------------------------------------

  /** Lower-cases the ASCII letters A-Z and leaves every other character alone. */
  function LowerChar(c: char): char {
    if 'A' <= c <= 'Z' then (c as int + 32) as char else c
  }

  /** `toLowerCase()` restricted to ASCII letters. */
  function Lower(s: string): (r: string)
    ensures |r| == |s|
  {
    seq(|s|, i requires 0 <= i < |s| => LowerChar(s[i]))
  }

  predicate StartsWith(s: string, prefix: string) {
    |prefix| <= |s| && s[..|prefix|] == prefix
  }

  /** A string starts with every prefix of each of its prefixes. */
  lemma StartsWithShorter(s: string, a: string, b: string)
    requires StartsWith(s, a + b)
    ensures StartsWith(s, a)
  {
    assert s[..|a|] == s[..|a + b|][..|a|] == (a + b)[..|a|];
  }

  predicate EndsWith(s: string, suffix: string) {
    |suffix| <= |s| && s[|s| - |suffix|..] == suffix
  }

  /** JavaScript `s.includes(sub)`. */
  predicate Contains(s: string, sub: string)
    decreases |s|
  {
    StartsWith(s, sub) || (s != [] && Contains(s[1..], sub))
  }

  // ---------------------------------------------------------------------------
  // Decimal digits
  // ---------------------------------------------------------------------------

  predicate IsDigit(c: char) {
    '0' <= c <= '9'
  }

  predicate AllDigits(s: string) {
    forall i :: 0 <= i < |s| ==> IsDigit(s[i])
  }

  /** A string of digits holds no other character. */
  lemma DigitsExclude(s: string, c: char)
    requires AllDigits(s) && !IsDigit(c)
    ensures c !in s
  {
  }

  function DigitValue(c: char): (d: nat)
    requires IsDigit(c)
    ensures d < 10
  {
    c as int - '0' as int
  }

  function DigitChar(d: nat): (c: char)
    requires d < 10
    ensures IsDigit(c) && DigitValue(c) == d
  {
    ('0' as int + d) as char
  }

  function Pow10(k: nat): (p: nat)
    ensures p >= 1
  {
    if k == 0 then 1 else 10 * Pow10(k - 1)
  }

  /** The number written by a string of decimal digits (leading zeros allowed). */
  function DigitsValue(s: string): nat
    requires AllDigits(s)
  {
    if s == [] then 0 else DigitsValue(s[..|s| - 1]) * 10 + DigitValue(s[|s| - 1])
  }

  /** Reading digits written after other digits shifts the first ones by a power of ten. */
  lemma {:induction false} DigitsValueAppend(a: string, b: string)
    requires AllDigits(a) && AllDigits(b)
    ensures AllDigits(a + b)
    ensures DigitsValue(a + b) == DigitsValue(a) * Pow10(|b|) + DigitsValue(b)
  {
    AllDigitsConcat(a, b);
    if b != [] {
      var b' := b[..|b| - 1];
      var d := DigitValue(b[|b| - 1]);
      AllDigitsConcat(a, b');
      DigitsValueAppend(a, b');
      var x, y, p := DigitsValue(a), DigitsValue(b'), Pow10(|b'|);
      DigitsValueLast(a + b, a + b', b[|b| - 1]);
      assert DigitsValue(b) == y * 10 + d;
      assert Pow10(|b|) == 10 * p;
      ShiftArith(x, p, y, d);
    } else {
      assert a + b == a;
    }
  }

  lemma AllDigitsConcat(a: string, b: string)
    requires AllDigits(a) && AllDigits(b)
    ensures AllDigits(a + b)
  {
    forall i | 0 <= i < |a + b| ensures IsDigit((a + b)[i]) {
      if i < |a| {
        assert (a + b)[i] == a[i];
      } else {
        assert (a + b)[i] == b[i - |a|];
      }
    }
  }

  /** The value of digits is the value of all but the last, shifted, plus the last. */
  lemma DigitsValueLast(s: string, init: string, c: char)
    requires AllDigits(s) && s != [] && init == s[..|s| - 1] && c == s[|s| - 1]
    ensures AllDigits(init) && DigitsValue(s) == DigitsValue(init) * 10 + DigitValue(c)
  {
  }

  lemma ShiftArith(x: int, p: int, y: int, d: int)
    ensures (x * p + y) * 10 + d == x * (10 * p) + (y * 10 + d)
  {
  }

  /** Python `str(n)` / JavaScript `String(n)` for a natural number: shortest decimal form. */
  function DecimalString(n: nat): (s: string)
    ensures |s| >= 1 && AllDigits(s) && DigitsValue(s) == n
    ensures s[0] != '0' || n == 0
  {
    if n < 10 then [DigitChar(n)]
    else
      var p := DecimalString(n / 10);
      assert (p + [DigitChar(n % 10)])[..|p|] == p;
      p + [DigitChar(n % 10)]
  }

  /** Digits without a leading zero are the shortest decimal form of their value. */
  lemma {:induction false} CanonicalDigits(s: string)
    requires AllDigits(s) && s != [] && (s[0] != '0' || |s| == 1)
    ensures s == DecimalString(DigitsValue(s))
    decreases |s|
  {
    var c := s[|s| - 1];
    if |s| == 1 {
      assert DigitChar(DigitValue(c)) == c;
    } else {
      var init := s[..|s| - 1];
      DigitsValueLast(s, init, c);
      assert init[0] == s[0];
      CanonicalDigits(init);
      var v := DigitsValue(init);
      assert v != 0;
      var n := DigitsValue(s);
      assert n / 10 == v && n % 10 == DigitValue(c);
      assert DigitChar(DigitValue(c)) == c;
      assert s == init + [c];
    }
  }

  /** Python `str(n)` / JavaScript `String(n)` for any integer. */
  function IntString(n: int): string {
    if n < 0 then "-" + DecimalString(-n) else DecimalString(n)
  }
}

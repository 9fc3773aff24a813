/**
 * The value normalisers of the Python back end: `clean_int` (a forgiving string-to-int
 * parser for prices and quantities), `normalize_images_db` (images column to list) and
 * the `price_ars` template filter. `core/helpers.py` and `app.py` carry identical copies
 * of the first two; this module models them once.
 */
module Helpers {
  import opened Wrappers
  import opened Text
  import opened Json

  // ---------------------------------------------------------------------------
  // Python int() on a str
  // ---------------------------------------------------------------------------

  /** What `int()` accepts after the sign: digits, with single underscores between digits. */
  predicate IsPyDigitBody(b: string) {
    && |b| > 0
    && IsDigit(b[0])
    && IsDigit(b[|b| - 1])
    && (forall i :: 0 <= i < |b| ==> IsDigit(b[i]) || b[i] == '_')
    && (forall i :: 0 <= i < |b| - 1 ==> !(b[i] == '_' && b[i + 1] == '_'))
  }

  lemma BodyDigitsAreDigits(b: string)
    requires IsPyDigitBody(b)
    ensures AllDigits(Without(b, '_')) && Without(b, '_') != []
  {
    var d := Without(b, '_');
    forall i | 0 <= i < |d| ensures IsDigit(d[i]) {
      assert d[i] in d;
    }
    assert d == [b[0]] + Without(b[1..], '_');
  }

  /** The value of an `int()` body, None when it is not one. */
  function BodyValue(b: string): (r: Option<nat>)
  {
    if IsPyDigitBody(b) then
      BodyDigitsAreDigits(b);
      Some(DigitsValue(Without(b, '_')))
    else None
  }

  /** `int()` after stripping: an optional sign, then a body. */
  function SignedValue(t: string): Option<int> {
    if t == [] then None
    else if t[0] == '-' then (
      match BodyValue(t[1..])
      case Some(v) => Some(-(v as int))
      case None => None
    )
    else if t[0] == '+' then BodyValue(t[1..])
    else BodyValue(t)
  }

  /** Python `int(s)` in base 10, or None where Python raises ValueError. */
  function PyInt(s: string): Option<int> {
    SignedValue(PyStrip(s))
  }

  /** The characters a string accepted by `int()` may contain. */
  predicate IntChar(c: char) {
    IsDigit(c) || c == '_' || c == '+' || c == '-' || IsPySpace(c)
  }

  lemma SignedValueChars(t: string)
    requires SignedValue(t).Some?
    ensures forall i :: 0 <= i < |t| ==> IntChar(t[i])
  {
    var signed := t[0] == '-' || t[0] == '+';
    var body := if signed then t[1..] else t;
    assert IsPyDigitBody(body);
    forall i | 0 <= i < |t| ensures IntChar(t[i]) {
      if i > 0 || !signed {
        assert t[i] == body[if signed then i - 1 else i];
      }
    }
  }

  /** `int()` rejects any string holding a character other than digits, `_`, a sign or whitespace. */
  lemma PyIntChars(x: string)
    requires PyInt(x).Some?
    ensures forall i :: 0 <= i < |x| ==> IntChar(x[i])
  {
    var u := TrimStart(x, IsPySpace);
    var t := TrimEnd(u, IsPySpace);
    SignedValueChars(t);
    forall i | 0 <= i < |x| ensures IntChar(x[i]) {
      if i >= |x| - |u| {
        var k := i - (|x| - |u|);
        assert x[i] == u[k];
        if k < |t| {
          assert u[k] == t[k];
        }
      }
    }
  }

  lemma BodyValueOfDigits(d: string)
    requires AllDigits(d) && d != []
    ensures BodyValue(d) == Some(DigitsValue(d))
  {
    WithoutAbsent(d, '_');
  }

  /** The signed number written as an optional minus and decimal digits. */
  function Signed(neg: bool, v: nat): int {
    if neg then -(v as int) else v
  }

  function SignText(neg: bool): string {
    if neg then "-" else ""
  }

  /** A sign followed by plain decimal digits reads as that signed number. */
  lemma PyIntOfDigits(neg: bool, d: string)
    requires AllDigits(d) && d != []
    ensures PyInt(SignText(neg) + d) == Some(Signed(neg, DigitsValue(d)))
  {
    if neg {
      PyIntOfMinusDigits(d);
    } else {
      PyIntOfUnsignedDigits(d);
    }
  }

  lemma {:induction false} PyIntOfMinusDigits(d: string)
    requires AllDigits(d) && d != []
    ensures PyInt(SignText(true) + d) == Some(Signed(true, DigitsValue(d)))
  {
    var s := SignText(true) + d;
    MinusPrefix(d);
    PyIntOfNegativeDigits(s, d);
  }

  lemma MinusPrefix(d: string)
    ensures var s := SignText(true) + d; |s| == |d| + 1 && s[0] == '-' && s[1..] == d
  {
    var s := SignText(true) + d;
    assert s[1..] == d;
  }

  lemma {:induction false} PyIntOfUnsignedDigits(d: string)
    requires AllDigits(d) && d != []
    ensures PyInt(SignText(false) + d) == Some(Signed(false, DigitsValue(d)))
  {
    assert SignText(false) + d == d;
    PyIntOfPlainDigits(d);
  }

  lemma DigitNotSpace(c: char)
    requires IsDigit(c)
    ensures !IsPySpace(c) && c != '-' && c != '+'
  {
  }

  /** A string with no whitespace at either end is read without stripping. */
  lemma PyIntUnstripped(s: string)
    requires s != [] && !IsPySpace(s[0]) && !IsPySpace(s[|s| - 1])
    ensures PyInt(s) == SignedValue(s)
  {
    StripUnchanged(s, IsPySpace);
  }

  lemma {:induction false} PyIntOfPlainDigits(d: string)
    requires AllDigits(d) && d != []
    ensures PyInt(d) == Some(DigitsValue(d))
  {
    DigitNotSpace(d[0]);
    DigitNotSpace(d[|d| - 1]);
    PyIntUnstripped(d);
    assert SignedValue(d) == BodyValue(d);
    BodyValueOfDigits(d);
  }

  lemma {:induction false} PyIntOfNegativeDigits(s: string, d: string)
    requires AllDigits(d) && d != [] && |s| > 1 && s[0] == '-' && s[1..] == d
    ensures PyInt(s) == Some(Signed(true, DigitsValue(d)))
  {
    assert s[|s| - 1] == d[|d| - 1];
    DigitNotSpace(d[|d| - 1]);
    PyIntUnstripped(s);
    BodyValueOfDigits(d);
    NegatedSignedValue(s, DigitsValue(d));
  }

  lemma NegatedSignedValue(t: string, v: nat)
    requires t != [] && t[0] == '-' && BodyValue(t[1..]) == Some(v)
    ensures SignedValue(t) == Some(-(v as int))
  {
  }

  // ---------------------------------------------------------------------------
  // clean_int
  // ---------------------------------------------------------------------------

  /** `s.replace(".", "").replace(",", "")` */
  function DropSeparators(s: string): string {
    ReplaceAll(ReplaceAll(s, ".", ""), ",", "")
  }

  /** `s.replace("ARS", "").replace("ars", "")` */
  function DropCurrency(s: string): string {
    ReplaceAll(ReplaceAll(s, "ARS", ""), "ars", "")
  }

  /** `s.replace("k", "000").replace("K", "000")` */
  function ExpandThousands(s: string): string {
    ReplaceAll(ReplaceAll(s, "k", "000"), "K", "000")
  }

  /** The deletions and substitutions `clean_int` applies before calling `int()`, in its order. */
  function Scrub(s: string): string {
    ExpandThousands(DropCurrency(DropSeparators(s)))
  }

  /** `clean_int` once `str(value)` is known: blank gives the default, so does anything `int()` rejects. */
  function CleanStr(s: string, default: int): int {
    var t := PyStrip(s);
    if t == [] then default else PyInt(Scrub(t)).GetOr(default)
  }

  /**
   * `clean_int(value, default)`. Form fields arrive as strings or None; a JSON payload may
   * also carry numbers and booleans, which `str()` renders first. `str()` of a list or a
   * dict starts with '[' or '{', which neither the replacements nor `int()` accept.
   */
  function CleanInt(value: Json, default: int): int {
    match value
    case JNull => default
    case JStr(s) => CleanStr(s, default)
    case JNum(n) => CleanStr(IntString(n), default)
    case JBool(b) => CleanStr(if b then "True" else "False", default)
    case JArr(_) => default
    case JObj(_) => default
  }

  /** The digits of a price written with '.' or ',' separators. */
  function SeparatedDigits(s: string): string {
    Without(Without(s, '.'), ',')
  }

  /** Only digits and the two thousands separators. */
  predicate SeparatedNumeral(s: string) {
    forall i :: 0 <= i < |s| ==> IsDigit(s[i]) || s[i] == '.' || s[i] == ','
  }

  lemma SeparatedDigitsAreDigits(s: string)
    requires SeparatedNumeral(s)
    ensures AllDigits(SeparatedDigits(s))
  {
    var d := SeparatedDigits(s);
    forall i | 0 <= i < |d| ensures IsDigit(d[i]) {
      assert d[i] in d;
      assert d[i] in Without(s, '.');
    }
  }

  /** A string of an optional minus sign and digits. */
  predicate SignedDigits(s: string) {
    forall i :: 0 <= i < |s| ==> IsDigit(s[i]) || s[i] == '-'
  }

  lemma SignedDigitsConcat(neg: bool, d: string)
    requires AllDigits(d)
    ensures SignedDigits(SignText(neg) + d)
  {
    var s := SignText(neg) + d;
    forall i | 0 <= i < |s| ensures IsDigit(s[i]) || s[i] == '-' {
      if i >= |SignText(neg)| {
        assert s[i] == d[i - |SignText(neg)|];
      }
    }
  }

  /** Digits and minus signs pass through the currency and thousands replacements. */
  lemma ScrubSignedDigits(s: string)
    requires SignedDigits(s)
    ensures ExpandThousands(DropCurrency(s)) == s
  {
    ReplaceAllAbsent(s, "ARS", "");
    ReplaceAllAbsent(s, "ars", "");
    ReplaceAllAbsent(s, "k", "000");
    ReplaceAllAbsent(s, "K", "000");
  }

  lemma DropSeparatorsSigned(neg: bool, body: string)
    ensures DropSeparators(SignText(neg) + body) == SignText(neg) + SeparatedDigits(body)
  {
    var sign := SignText(neg);
    ReplaceCharByNothing(sign + body, '.');
    WithoutConcat(sign, body, '.');
    assert Without(sign, '.') == sign;
    ReplaceCharByNothing(sign + Without(body, '.'), ',');
    WithoutConcat(sign, Without(body, '.'), ',');
    assert Without(sign, ',') == sign;
  }

  lemma ScrubSeparated(neg: bool, body: string)
    requires SeparatedNumeral(body)
    ensures AllDigits(SeparatedDigits(body))
    ensures Scrub(SignText(neg) + body) == SignText(neg) + SeparatedDigits(body)
  {
    SeparatedDigitsAreDigits(body);
    DropSeparatorsSigned(neg, body);
    SignedDigitsConcat(neg, SeparatedDigits(body));
    ScrubSignedDigits(SignText(neg) + SeparatedDigits(body));
  }

  /** A string with no surrounding whitespace goes straight to the replacements and `int()`. */
  lemma CleanStrScrubbed(s: string, default: int)
    requires s != [] && !IsPySpace(s[0]) && !IsPySpace(s[|s| - 1])
    ensures CleanStr(s, default) == PyInt(Scrub(s)).GetOr(default)
  {
    StripUnchanged(s, IsPySpace);
  }

  /** None, or a string of whitespace only, gives the default. */
  lemma CleanIntBlank(s: string, default: int)
    requires forall i :: 0 <= i < |s| ==> IsPySpace(s[i])
    ensures CleanInt(JStr(s), default) == default
    ensures CleanInt(JNull, default) == default
  {
    StripEmptyIff(s, IsPySpace);
  }

  /**
   * '.' and ',' are deleted before parsing, so a numeral written with thousands separators
   * (and an optional minus sign) reads as its digits.
   */
  lemma CleanIntSeparated(neg: bool, body: string, default: int)
    requires SeparatedNumeral(body) && SeparatedDigits(body) != []
    ensures AllDigits(SeparatedDigits(body))
    ensures CleanInt(JStr(SignText(neg) + body), default) == Signed(neg, DigitsValue(SeparatedDigits(body)))
  {
    var s := SignText(neg) + body;
    ScrubSeparated(neg, body);
    assert s[|s| - 1] == body[|body| - 1];
    assert s[0] == if neg then '-' else body[0];
    CleanStrScrubbed(s, default);
    PyIntOfDigits(neg, SeparatedDigits(body));
  }

  /** A plain string of ASCII digits reads as its decimal value. */
  lemma CleanIntDigits(d: string, default: int)
    requires AllDigits(d) && d != []
    ensures CleanInt(JStr(d), default) == DigitsValue(d)
  {
    WithoutAbsent(d, '.');
    WithoutAbsent(d, ',');
    CleanIntSeparated(false, d, default);
    assert SignText(false) + d == d;
  }

  /** `str()` then `clean_int` gives a number back unchanged. */
  lemma CleanIntOfNumber(n: int, default: int)
    ensures CleanInt(JNum(n), default) == n
  {
    var d := DecimalString(if n < 0 then -n else n);
    WithoutAbsent(d, '.');
    WithoutAbsent(d, ',');
    CleanIntSeparated(n < 0, d, default);
    assert IntString(n) == SignText(n < 0) + d;
  }

  lemma ExpandThousandsSuffix(d: string, upper: bool)
    requires AllDigits(d)
    ensures ExpandThousands(d + (if upper then "K" else "k")) == d + "000"
  {
    var suffix := if upper then "K" else "k";
    var z := d + "000";
    assert AllDigits(z);
    ReplaceAllPrefixAbsent(d, suffix, "k", "000");
    ReplaceAllPrefixAbsent(d, suffix, "K", "000");
    if upper {
      ReplaceAllAbsent(d + suffix, "k", "000");
      assert ReplaceAll("K", "K", "000") == "000";
    } else {
      assert ReplaceAll("k", "k", "000") == "000";
      ReplaceAllAbsent(z, "K", "000");
    }
  }

  lemma ThousandDigits()
    ensures AllDigits("000") && DigitsValue("000") == 0 && Pow10(3) == 1000
  {
    assert "000"[..2] == "00" && "00"[..1] == "0" && "0"[..0] == "";
    assert DigitsValue("0") == 0;
    assert DigitsValue("00") == 0;
    assert Pow10(1) == 10 && Pow10(2) == 100;
  }

  lemma {:induction false} ScrubThousandsSuffix(d: string, upper: bool)
    requires AllDigits(d)
    ensures Scrub(d + (if upper then "K" else "k")) == d + "000"
  {
    var s := d + (if upper then "K" else "k");
    forall i | 0 <= i < |s| ensures s[i] != '.' && s[i] != ',' && s[i] != 'A' && s[i] != 'a' {
      if i < |d| {
        assert s[i] == d[i];
      }
    }
    ReplaceAllAbsent(s, ".", "");
    ReplaceAllAbsent(s, ",", "");
    ReplaceAllAbsent(s, "ARS", "");
    ReplaceAllAbsent(s, "ars", "");
    ExpandThousandsSuffix(d, upper);
  }

  lemma {:induction false} ThousandsValue(d: string)
    requires AllDigits(d) && d != []
    ensures AllDigits(d + "000") && DigitsValue(d + "000") == DigitsValue(d) * 1000
  {
    ThousandDigits();
    DigitsValueAppend(d, "000");
  }

  /** Each 'k' or 'K' becomes "000", so "15k" reads as 15000. */
  lemma {:induction false} CleanIntThousandsSuffix(d: string, upper: bool, default: int)
    requires AllDigits(d) && d != []
    ensures CleanInt(JStr(d + (if upper then "K" else "k")), default) == DigitsValue(d) * 1000
  {
    var s := d + (if upper then "K" else "k");
    var z := d + "000";
    assert s[0] == d[0] && (s[|s| - 1] == 'k' || s[|s| - 1] == 'K');
    DigitNotSpace(d[0]);
    CleanStrScrubbed(s, default);
    ScrubThousandsSuffix(d, upper);
    ThousandsValue(d);
    PyIntOfPlainDigits(z);
    assert CleanInt(JStr(s), default) == PyInt(z).GetOr(default);
  }

  lemma {:induction false} ScrubCurrencySuffix(d: string, upper: bool)
    requires AllDigits(d)
    ensures Scrub(d + (if upper then "ARS" else "ars")) == d
  {
    var cur := if upper then "ARS" else "ars";
    var s := d + cur;
    forall i | 0 <= i < |s| ensures s[i] != '.' && s[i] != ',' {
      if i < |d| {
        assert s[i] == d[i];
      }
    }
    ReplaceAllAbsent(s, ".", "");
    ReplaceAllAbsent(s, ",", "");
    assert DropSeparators(s) == s;
    assert ReplaceAll(cur, cur, "") == "";
    if upper {
      ReplaceAllPrefixAbsent(d, cur, "ARS", "");
      ReplaceAllAbsent(d, "ars", "");
    } else {
      forall i | 0 <= i < |s| ensures s[i] != 'A' {
        if i < |d| {
          assert s[i] == d[i];
        }
      }
      ReplaceAllAbsent(s, "ARS", "");
      ReplaceAllPrefixAbsent(d, cur, "ars", "");
    }
    assert d + "" == d;
    ReplaceAllAbsent(d, "k", "000");
    ReplaceAllAbsent(d, "K", "000");
  }

  /** "ARS" and "ars" are deleted, so a price written "1500ARS" or "1500ars" reads as 1500. */
  lemma {:induction false} CleanIntCurrencySuffix(d: string, upper: bool, default: int)
    requires AllDigits(d) && d != []
    ensures CleanInt(JStr(d + (if upper then "ARS" else "ars")), default) == DigitsValue(d)
  {
    var s := d + (if upper then "ARS" else "ars");
    assert s[0] == d[0] && (s[|s| - 1] == 'S' || s[|s| - 1] == 's');
    DigitNotSpace(d[0]);
    CleanStrScrubbed(s, default);
    ScrubCurrencySuffix(d, upper);
    PyIntOfPlainDigits(d);
    assert CleanInt(JStr(s), default) == PyInt(d).GetOr(default);
  }

  /** Any residue holding a character `int()` can never accept gives the default. */
  lemma CleanIntRejects(s: string, default: int, i: nat)
    requires PyStrip(s) != []
    requires i < |Scrub(PyStrip(s))| && !IntChar(Scrub(PyStrip(s))[i])
    ensures CleanInt(JStr(s), default) == default
  {
    if PyInt(Scrub(PyStrip(s))).Some? {
      PyIntChars(Scrub(PyStrip(s)));
    }
  }

  lemma DigitsValue1500()
    ensures AllDigits("1500") && DigitsValue("1500") == 1500
    ensures AllDigits("15") && DigitsValue("15") == 15
  {
    assert "1500"[..3] == "150";
    assert "150"[..2] == "15";
    assert "15"[..1] == "1";
    assert "1"[..0] == "";
  }

  /** Deleting a non-digit from digits, one character, digits touches only that character. */
  lemma WithoutAroundDigits(a: string, mid: char, b: string, c: char)
    requires AllDigits(a) && AllDigits(b) && !IsDigit(c)
    ensures Without(a + [mid] + b, c) == a + (if mid == c then [] else [mid]) + b
  {
    DigitsExclude(a, c);
    DigitsExclude(b, c);
    WithoutConcat(a + [mid], b, c);
    WithoutConcat(a, [mid], c);
    WithoutAbsent(a, c);
    WithoutAbsent(b, c);
    assert Without([mid], c) == if mid == c then [] else [mid];
  }

  /** Digits, one separator, digits: the separator is dropped. */
  lemma SeparatedGroups(a: string, sep: char, b: string)
    requires AllDigits(a) && AllDigits(b) && (sep == '.' || sep == ',')
    ensures SeparatedNumeral(a + [sep] + b)
    ensures SeparatedDigits(a + [sep] + b) == a + b
  {
    var s := a + [sep] + b;
    forall i | 0 <= i < |s| ensures IsDigit(s[i]) || s[i] == '.' || s[i] == ',' {
      if i < |a| {
        assert s[i] == a[i];
      } else if i > |a| {
        assert s[i] == b[i - |a| - 1];
      }
    }
    WithoutAroundDigits(a, sep, b, '.');
    if sep == '.' {
      assert a + [] + b == a + b;
      AllDigitsConcat(a, b);
      DigitsExclude(a + b, ',');
      WithoutAbsent(a + b, ',');
    } else {
      WithoutAroundDigits(a, sep, b, ',');
    }
  }

  /** A price written with a thousands separator reads as the digits around it: "1.500" and "1,500" as 1500. */
  lemma CleanIntGrouped(a: string, sep: char, b: string, default: int)
    requires AllDigits(a) && AllDigits(b) && a + b != [] && (sep == '.' || sep == ',')
    ensures AllDigits(a + b)
    ensures CleanInt(JStr(a + [sep] + b), default) == DigitsValue(a + b)
  {
    SeparatedGroups(a, sep, b);
    CleanIntSeparated(false, a + [sep] + b, default);
    assert SignText(false) + (a + [sep] + b) == a + [sep] + b;
  }

  /** "15k" reads as 15000. */
  lemma CleanIntSuffixExample(default: int)
    ensures CleanInt(JStr("15k"), default) == 15000
  {
    DigitsValue1500();
    CleanIntThousandsSuffix("15", false, default);
    assert "15" + "k" == "15k";
  }

  /** A leading character that neither the replacements touch nor `int()` accepts gives the default: "$100". */
  lemma CleanIntLeadingSymbol(sym: char, d: string, default: int)
    requires AllDigits(d) && d != []
    requires !IntChar(sym) && sym !in ".,aAkK"
    ensures CleanInt(JStr([sym] + d), default) == default
  {
    var s := [sym] + d;
    forall j | 0 <= j < |s| ensures s[j] !in ".,aAkK" {
      if j > 0 {
        assert s[j] == d[j - 1];
      }
    }
    assert s[|s| - 1] == d[|d| - 1];
    StripUnchanged(s, IsPySpace);
    ScrubUntouched(s);
    CleanIntRejects(s, default, 0);
  }

  /** A space between digit groups makes `int()` fail, so "1 000" gives the default. */
  lemma CleanIntInnerSpace(a: string, b: string, default: int)
    requires AllDigits(a) && AllDigits(b) && a != [] && b != []
    ensures CleanInt(JStr(a + " " + b), default) == default
  {
    var s := a + " " + b;
    InnerSpaceUntouched(a, b);
    assert s[0] == a[0] && s[|s| - 1] == b[|b| - 1];
    CleanStrScrubbed(s, default);
    InnerSpaceNotInt(a, b);
  }

  lemma InnerSpaceUntouched(a: string, b: string)
    requires AllDigits(a) && AllDigits(b)
    ensures Scrub(a + " " + b) == a + " " + b
  {
    var s := a + " " + b;
    forall j | 0 <= j < |s| ensures s[j] !in ".,aAkK" {
      if j < |a| {
        assert s[j] == a[j];
      } else if j > |a| {
        assert s[j] == b[j - |a| - 1];
      }
    }
    ScrubUntouched(s);
  }

  lemma InnerSpaceNotInt(a: string, b: string)
    requires AllDigits(a) && AllDigits(b) && a != [] && b != []
    ensures PyInt(a + " " + b) == None
  {
    var s := a + " " + b;
    assert s[0] == a[0] && s[|s| - 1] == b[|b| - 1];
    StripUnchanged(s, IsPySpace);
    assert s[|a|] == ' ';
    assert !IsPyDigitBody(s);
    assert SignedValue(s) == BodyValue(s);
  }

  /** A string without '.', ',', 'a', 'A', 'k' or 'K' passes through the replacements. */
  lemma ScrubUntouched(s: string)
    requires forall j :: 0 <= j < |s| ==> s[j] !in ".,aAkK"
    ensures Scrub(s) == s
  {
    ReplaceAllAbsent(s, ".", "");
    ReplaceAllAbsent(s, ",", "");
    ReplaceAllAbsent(s, "ARS", "");
    ReplaceAllAbsent(s, "ars", "");
    ReplaceAllAbsent(s, "k", "000");
    ReplaceAllAbsent(s, "K", "000");
  }

  // ---------------------------------------------------------------------------
  // normalize_images_db
  // ---------------------------------------------------------------------------

  /**
   * `normalize_images_db(images_value)`: whatever the images column holds, a list.
   * `parse` is `json.loads`, None where it raises.
   */
  function NormalizeImagesDb(value: Json, parse: string -> Option<Json>): (r: seq<Json>)
    ensures value.JArr? ==> r == value.items
  {
    match value
    case JNull => []
    case JArr(items) => items
    case JStr(s) =>
      var t := PyStrip(s);
      if t == [] then [] else ParsedImages(value, parse(t))
    case JObj(fields) => Values(fields)
    case _ => []
  }

  /** The list made of the parsed text: the text itself when it is not JSON. */
  function ParsedImages(text: Json, parsed: Option<Json>): seq<Json> {
    match parsed
    case None => [text]
    case Some(JArr(items)) => items
    case Some(JObj(fields)) => Values(fields)
    case Some(_) => []
  }

  /**
   * The cases of `normalize_images_db` that do not read text: None and scalars give [],
   * a list comes back as it is, a dict gives its values.
   */
  lemma {:induction false} NormalizeImagesDbCases(value: Json, parse: string -> Option<Json>)
    ensures value.JNull? ==> NormalizeImagesDb(value, parse) == []
    ensures value.JArr? ==> NormalizeImagesDb(value, parse) == value.items
    ensures value.JObj? ==> NormalizeImagesDb(value, parse) == Values(value.fields)
    ensures value.JBool? || value.JNum? ==> NormalizeImagesDb(value, parse) == []
  {
  }

  /** A blank string gives []. */
  lemma {:induction false} NormalizeImagesDbBlank(s: string, parse: string -> Option<Json>)
    requires forall i :: 0 <= i < |s| ==> IsPySpace(s[i])
    ensures NormalizeImagesDb(JStr(s), parse) == []
  {
    StripEmptyIff(s, IsPySpace);
  }

  /**
   * Other text is parsed after stripping: a list is taken as is, a dict gives its values,
   * any other JSON value gives [], and text that is not JSON becomes a list of itself.
   */
  lemma {:induction false} NormalizeImagesDbText(s: string, parse: string -> Option<Json>)
    requires PyStrip(s) != []
    ensures var p := parse(PyStrip(s));
            NormalizeImagesDb(JStr(s), parse) ==
              if p.None? then [JStr(s)]
              else if p.value.JArr? then p.value.items
              else if p.value.JObj? then Values(p.value.fields)
              else []
  {
    var p := parse(PyStrip(s));
    assert NormalizeImagesDb(JStr(s), parse) == ParsedImages(JStr(s), p);
    match p
    case None =>
    case Some(j) =>
  }

  // ---------------------------------------------------------------------------
  // price_ars
  // ---------------------------------------------------------------------------

  /** Python `int(value)` for the values a template may pass, None where it raises. */
  function PyIntOf(value: Json): Option<int> {
    match value
    case JNum(n) => Some(n)
    case JBool(b) => Some(if b then 1 else 0)
    case JStr(s) => PyInt(s)
    case _ => None
  }

  /** Three digits with leading zeros. */
  function Pad3(k: nat): (s: string)
    requires k < 1000
    ensures |s| == 3 && AllDigits(s) && DigitsValue(s) == k
  {
    var a, b, c := DigitChar(k / 100), DigitChar(k / 10 % 10), DigitChar(k % 10);
    var s := [a, b, c];
    assert s[..2] == [a, b] && [a, b][..1] == [a] && [a][..0] == [];
    assert DigitsValue([a]) == DigitValue(a);
    assert DigitsValue([a, b]) == DigitValue(a) * 10 + DigitValue(b);
    assert DigitsValue(s) == (DigitValue(a) * 10 + DigitValue(b)) * 10 + DigitValue(c);
    assert k / 10 == k / 100 * 10 + k / 10 % 10;
    assert k == k / 10 * 10 + k % 10;
    s
  }

  /** Python's `,` thousands-separator format of a natural number, with '.' in place of ','. */
  function GroupThousands(n: nat): string
    decreases n
  {
    if n < 1000 then DecimalString(n)
    else GroupThousands(n / 1000) + "." + Pad3(n % 1000)
  }

  /** The `price_ars` template filter: "$" and the integer grouped by thousands with '.'; "$0" on error. */
  function PriceArs(value: Json): (r: string)
    ensures |r| >= 2 && r[0] == '$'
  {
    match PyIntOf(value)
    case None => "$0"
    case Some(n) => "$" + (if n < 0 then "-" + GroupThousands(-n) else GroupThousands(n))
  }

  /** The grouped form holds only digits and '.'. */
  lemma {:induction false} GroupThousandsNumeral(n: nat)
    ensures SeparatedNumeral(GroupThousands(n)) && ',' !in GroupThousands(n)
  {
    var g := GroupThousands(n);
    if n < 1000 {
      DigitsExclude(g, ',');
    } else {
      var head := GroupThousands(n / 1000);
      var tail := Pad3(n % 1000);
      GroupThousandsNumeral(n / 1000);
      assert g == head + "." + tail;
      forall i | 0 <= i < |g| ensures IsDigit(g[i]) || g[i] == '.' {
        if i < |head| {
          assert g[i] == head[i];
        } else if i > |head| {
          assert g[i] == tail[i - |head| - 1];
        }
      }
      DigitsExclude(tail, ',');
    }
  }

  /** Deleting the dots of the grouped form leaves the decimal digits of the number. */
  lemma {:induction false} GroupThousandsDigits(n: nat)
    ensures AllDigits(Without(GroupThousands(n), '.'))
    ensures DigitsValue(Without(GroupThousands(n), '.')) == n
    ensures Without(GroupThousands(n), '.') == DecimalString(n)
  {
    var g := GroupThousands(n);
    if n < 1000 {
      DigitsExclude(g, '.');
      WithoutAbsent(g, '.');
    } else {
      var head := GroupThousands(n / 1000);
      var tail := Pad3(n % 1000);
      GroupThousandsDigits(n / 1000);
      assert g == head + "." + tail;
      WithoutDotGroup(head, tail);
      var w := Without(head, '.');
      ThreeDigitsAppended(w, tail);
      assert w[0] != '0';
      assert (w + tail)[0] == w[0];
      CanonicalDigits(w + tail);
    }
  }

  lemma WithoutDotGroup(head: string, tail: string)
    requires AllDigits(tail)
    ensures Without(head + "." + tail, '.') == Without(head, '.') + tail
  {
    var dot := ".";
    var w := Without(head, '.');
    WithoutConcat(head + dot, tail, '.');
    WithoutConcat(head, dot, '.');
    DigitsExclude(tail, '.');
    WithoutAbsent(tail, '.');
    assert Without(dot, '.') == [];
    assert w + [] == w;
  }

  lemma ThreeDigitsAppended(w: string, tail: string)
    requires AllDigits(w) && AllDigits(tail) && |tail| == 3
    ensures AllDigits(w + tail) && DigitsValue(w + tail) == DigitsValue(w) * 1000 + DigitsValue(tail)
  {
    DigitsValueAppend(w, tail);
    ThousandDigits();
  }

  /** Between the dots every group has exactly three digits; the leading group has one to three. */
  lemma {:induction false} GroupThousandsShape(n: nat)
    ensures var groups := Split(GroupThousands(n), '.');
            && 1 <= |groups[0]| <= 3
            && forall k :: 1 <= k < |groups| ==> |groups[k]| == 3
  {
    if n < 1000 {
      var d := DecimalString(n);
      DigitsExclude(d, '.');
      SplitWithoutSeparator(d, '.');
      assert n < 10 ==> |d| == 1;
      assert 10 <= n < 100 ==> |DecimalString(n / 10)| == 1;
      assert 100 <= n ==> |DecimalString(n / 10)| == 2 by {
        if 100 <= n {
          assert |DecimalString(n / 100)| == 1;
        }
      }
    } else {
      var head := GroupThousands(n / 1000);
      var tail := Pad3(n % 1000);
      GroupThousandsShape(n / 1000);
      SplitConcat(head, tail, '.');
      DigitsExclude(tail, '.');
      SplitWithoutSeparator(tail, '.');
      assert GroupThousands(n) == head + ['.'] + tail;
    }
  }

  /** `clean_int` reads a formatted price (without its "$") back as the same integer. */
  lemma PriceArsRoundTrip(n: int, default: int)
    ensures CleanInt(JStr(PriceArs(JNum(n))[1..]), default) == n
  {
    var m := if n < 0 then -n else n;
    var g := GroupThousands(m);
    GroupThousandsNumeral(m);
    GroupThousandsDigits(m);
    WithoutAbsent(Without(g, '.'), ',');
    assert SeparatedDigits(g) == Without(g, '.');
    assert Without(g, '.') != [];
    CleanIntSeparated(n < 0, g, default);
    if n < 0 {
      assert PriceArs(JNum(n))[1..] == "-" + g;
    } else {
      assert PriceArs(JNum(n))[1..] == "" + g;
    }
  }
}

/** `parse_money_amount`: a currency-formatted cell of a bank export, such as
    "£1,234.50", read as a number. The text is cleaned (symbol removed, then
    thousands separators, then surrounding whitespace) and read as a decimal. */
module Money {
  import opened Basics

  /** A cell as pandas hands it over: Python `None`, a float NaN (a blank CSV
      cell), or text. A numeric cell is modelled by its text. */
  datatype Cell = Null | NaN | Text(s: string)

  // ---------------------------------------------------------------- cleaning

  /** `s.replace(pat, "")`: every non-overlapping occurrence of `pat`, scanning
      left to right, removed; an empty pattern leaves `s` unchanged. */
  function RemoveAll(s: string, pat: string): string
    decreases |s|
  {
    if pat == [] || s == [] then s
    else if |pat| <= |s| && s[..|pat|] == pat then RemoveAll(s[|pat|..], pat)
    else [s[0]] + RemoveAll(s[1..], pat)
  }

  /** The characters Python's `str.isspace` accepts, which `strip()` removes. */
  predicate IsSpace(c: char) {
    || c == ' ' || ('\t' <= c <= '\r') || ('\U{1C}' <= c <= '\U{1F}')
    || c == '\U{85}' || c == '\U{A0}' || c == '\U{1680}' || ('\U{2000}' <= c <= '\U{200A}')
    || c == '\U{2028}' || c == '\U{2029}' || c == '\U{202F}' || c == '\U{205F}' || c == '\U{3000}'
  }

  function StripLeft(s: string): string {
    if s != [] && IsSpace(s[0]) then StripLeft(s[1..]) else s
  }

  function StripRight(s: string): string {
    if s != [] && IsSpace(s[|s| - 1]) then StripRight(s[..|s| - 1]) else s
  }

  /** `s.strip()`. */
  function Strip(s: string): string {
    StripRight(StripLeft(s))
  }

  /** `str(value).replace(symbol, "").replace(",", "").strip()`. */
  function Clean(s: string, symbol: string): string {
    Strip(RemoveAll(RemoveAll(s, symbol), ","))
  }

  // ---------------------------------------------------------------- numbers

  predicate IsDigit(c: char) {
    '0' <= c <= '9'
  }

  predicate AllDigits(s: string) {
    forall i :: 0 <= i < |s| ==> IsDigit(s[i])
  }

  /** The number a string of decimal digits denotes (0 for the empty string). */
  function DigitsValue(s: string): nat
    requires AllDigits(s)
  {
    if s == [] then 0 else 10 * DigitsValue(s[..|s| - 1]) + (s[|s| - 1] as int - '0' as int)
  }

  function Pow10(n: nat): (p: nat)
    ensures p >= 1
  {
    if n == 0 then 1 else 10 * Pow10(n - 1)
  }

  /** Position of the first '.', or |s| when there is none. */
  function DotIndex(s: string): (k: nat)
    ensures k <= |s|
    ensures forall i :: 0 <= i < k ==> s[i] != '.'
    ensures k < |s| ==> s[k] == '.'
  {
    if s == [] then 0 else if s[0] == '.' then 0 else 1 + DotIndex(s[1..])
  }

  /** The value of the digits after a decimal point. */
  function Fraction(frac: string): real
    requires AllDigits(frac)
  {
    DigitsValue(frac) as real / Pow10(|frac|) as real
  }

  /** Digits with at most one decimal point, and at least one digit. */
  function ParseUnsigned(s: string): Option<real> {
    var k := DotIndex(s);
    var whole := s[..k];
    var frac := if k < |s| then s[k + 1..] else "";
    if AllDigits(whole) && AllDigits(frac) && |whole| + |frac| > 0 then
      Some(DigitsValue(whole) as real + Fraction(frac))
    else None
  }

  /** `float(text)` on a plain decimal numeral with an optional sign;
      `None` stands for the ValueError of any other text. */
  function ParseDecimal(s: string): Option<real> {
    if s != [] && s[0] == '-' then
      match ParseUnsigned(s[1..])
      case Some(x) => Some(-x)
      case None => None
    else if s != [] && s[0] == '+' then ParseUnsigned(s[1..])
    else ParseUnsigned(s)
  }

  // ------------------------------------------------------------ the parser

  /** `parse_money_amount(value, symbol)`. */
  function ParseMoneyAmount(value: Cell, symbol: string): (r: Result<real>)
    ensures value.Null? || value.NaN? ==> r == Success(0.0)
    ensures value.Text? && Clean(value.s, symbol) == "" ==> r == Success(0.0)
    ensures value.Text? && Clean(value.s, symbol) != "" ==>
              r == (match ParseDecimal(Clean(value.s, symbol))
                    case Some(x) => Success(x)
                    case None => Failure(ValueError))
  {
    match value
    case Null => Success(0.0)
    case NaN => Success(0.0)
    case Text(s) =>
      var text := Clean(s, symbol);
      if text == "" then Success(0.0)
      else match ParseDecimal(text)
        case Some(x) => Success(x)
        case None => Failure(ValueError)
  }

  // ------------------------------------------------------------- properties

  lemma {:induction false} RemoveAllSubset(s: string, pat: string)
    ensures forall c :: c in RemoveAll(s, pat) ==> c in s
    decreases |s|
  {
    if pat == [] || s == [] {
    } else if |pat| <= |s| && s[..|pat|] == pat {
      RemoveAllSubset(s[|pat|..], pat);
    } else {
      RemoveAllSubset(s[1..], pat);
    }
  }

  lemma {:induction false} RemoveCharGone(s: string, c: char)
    ensures c !in RemoveAll(s, [c])
    decreases |s|
  {
    if s != [] {
      if s[..1] == [c] {
        RemoveCharGone(s[1..], c);
      } else {
        RemoveCharGone(s[1..], c);
      }
    }
  }

  lemma {:induction false} RemoveCharAbsent(s: string, c: char)
    requires c !in s
    ensures RemoveAll(s, [c]) == s
    decreases |s|
  {
    if s != [] {
      assert s[0] in s && s[..1] == [s[0]];
      RemoveCharAbsent(s[1..], c);
    }
  }

  lemma {:induction false} RemoveCharAppend(a: string, b: string, c: char)
    ensures RemoveAll(a + b, [c]) == RemoveAll(a, [c]) + RemoveAll(b, [c])
    decreases |a|
  {
    if a == [] {
      assert a + b == b;
    } else {
      assert (a + b)[..1] == a[..1];
      assert (a + b)[1..] == a[1..] + b;
      RemoveCharAppend(a[1..], b, c);
    }
  }

  lemma {:induction false} StripLeftSuffix(s: string)
    ensures |StripLeft(s)| <= |s| && StripLeft(s) == s[|s| - |StripLeft(s)|..]
    ensures StripLeft(s) != [] ==> !IsSpace(StripLeft(s)[0])
  {
    if s != [] && IsSpace(s[0]) {
      StripLeftSuffix(s[1..]);
    }
  }

  lemma {:induction false} StripRightPrefix(s: string)
    ensures |StripRight(s)| <= |s| && StripRight(s) == s[..|StripRight(s)|]
    ensures StripRight(s) != [] ==> !IsSpace(StripRight(s)[|StripRight(s)| - 1])
  {
    if s != [] && IsSpace(s[|s| - 1]) {
      StripRightPrefix(s[..|s| - 1]);
    }
  }

  /** Where `StripLeft` cuts: everything before the cut is whitespace. */
  lemma {:induction false} StripLeftCut(s: string) returns (a: nat)
    ensures a <= |s| && StripLeft(s) == s[a..]
    ensures forall i :: 0 <= i < a ==> IsSpace(s[i])
  {
    if s != [] && IsSpace(s[0]) {
      var a' := StripLeftCut(s[1..]);
      a := a' + 1;
      assert s[1..][a'..] == s[a..];
      forall i | 0 <= i < a
        ensures IsSpace(s[i])
      {
        if i > 0 {
          assert s[i] == s[1..][i - 1];
        }
      }
    } else {
      a := 0;
    }
  }

  /** Where `StripRight` cuts: everything from the cut on is whitespace. */
  lemma {:induction false} StripRightCut(s: string) returns (b: nat)
    ensures b <= |s| && StripRight(s) == s[..b]
    ensures forall i :: b <= i < |s| ==> IsSpace(s[i])
  {
    if s != [] && IsSpace(s[|s| - 1]) {
      var init := s[..|s| - 1];
      b := StripRightCut(init);
      assert init[..b] == s[..b];
      forall i | b <= i < |s|
        ensures IsSpace(s[i])
      {
        if i < |s| - 1 {
          assert s[i] == init[i];
        }
      }
    } else {
      b := |s|;
    }
  }

  /** Where `strip()` cuts on either side. */
  lemma StripSlice(s: string) returns (a: nat, b: nat)
    ensures a <= b <= |s| && Strip(s) == s[a..b]
    ensures forall i :: 0 <= i < a ==> IsSpace(s[i])
    ensures forall i :: b <= i < |s| ==> IsSpace(s[i])
  {
    var l := StripLeft(s);
    a := StripLeftCut(s);
    var m := StripRightCut(l);
    b := a + m;
    assert StripRight(l) == s[a..b];
    forall i | b <= i < |s|
      ensures IsSpace(s[i])
    {
      assert s[i] == l[i - a];
    }
  }

  lemma StripEnds(s: string)
    ensures Strip(s) != [] ==> !IsSpace(Strip(s)[0]) && !IsSpace(Strip(s)[|Strip(s)| - 1])
  {
    var l := StripLeft(s);
    StripLeftSuffix(s);
    StripRightPrefix(l);
    if StripRight(l) != [] {
      assert StripRight(l)[0] == l[0];
    }
  }

  /** `strip()` removes exactly the leading and the trailing whitespace: what
      it keeps is a slice of its argument with only whitespace before and
      after it, and that neither starts nor ends in whitespace. */
  lemma StripShape(s: string)
    ensures exists a, b :: 0 <= a <= b <= |s| && Strip(s) == s[a..b]
              && (forall i :: 0 <= i < a ==> IsSpace(s[i]))
              && (forall i :: b <= i < |s| ==> IsSpace(s[i]))
    ensures forall c :: c in Strip(s) ==> c in s
    ensures Strip(s) != [] ==> !IsSpace(Strip(s)[0]) && !IsSpace(Strip(s)[|Strip(s)| - 1])
  {
    var a, b := StripSlice(s);
    var r := Strip(s);
    forall c | c in r
      ensures c in s
    {
      var i :| 0 <= i < |r| && r[i] == c;
      assert s[a + i] == c;
    }
    StripEnds(s);
  }

  lemma StripFixed(s: string)
    requires s != [] ==> !IsSpace(s[0]) && !IsSpace(s[|s| - 1])
    ensures Strip(s) == s
  {
  }

  /** Cleaning a cell twice changes nothing more, for a one-character symbol
      such as "£" (a longer symbol can reappear once an inner copy is removed). */
  lemma CleanIdempotent(s: string, symbol: string)
    requires |symbol| == 1
    ensures Clean(Clean(s, symbol), symbol) == Clean(s, symbol)
  {
    var c := symbol[0];
    assert symbol == [c];
    var once := RemoveAll(s, symbol);
    var twice := RemoveAll(once, ",");
    var t := Clean(s, symbol);
    RemoveCharGone(s, c);
    RemoveCharGone(once, ',');
    RemoveAllSubset(once, ",");
    StripShape(twice);
    assert c !in t && ',' !in t;
    RemoveCharAbsent(t, c);
    RemoveCharAbsent(t, ',');
    StripFixed(t);
  }

  /** Cleaning leaves no thousands separator behind. */
  lemma CleanHasNoSeparator(s: string, symbol: string)
    ensures ',' !in Clean(s, symbol)
  {
    RemoveCharGone(RemoveAll(s, symbol), ',');
    StripShape(RemoveAll(RemoveAll(s, symbol), ","));
  }

  // ------------------------------------------------------------- numerals

  function DigitChar(d: nat): (c: char)
    requires d < 10
    ensures IsDigit(c) && c as int - '0' as int == d
  {
    ('0' as int + d) as char
  }

  /** The decimal numeral of `n`, without leading zeros. */
  function Numeral(n: nat): (r: string)
    ensures AllDigits(r) && r != []
  {
    if n < 10 then [DigitChar(n)] else Numeral(n / 10) + [DigitChar(n % 10)]
  }

  /** The `k` lowest decimal digits of `f`, zero-padded: a fraction part. */
  function Padded(f: nat, k: nat): (r: string)
    ensures AllDigits(r) && |r| == k
  {
    if k == 0 then "" else Padded(f / 10, k - 1) + [DigitChar(f % 10)]
  }

  lemma {:induction false} DigitsValueSnoc(s: string, d: nat)
    requires AllDigits(s) && d < 10
    ensures AllDigits(s + [DigitChar(d)]) && DigitsValue(s + [DigitChar(d)]) == 10 * DigitsValue(s) + d
  {
    var t := s + [DigitChar(d)];
    assert t[..|t| - 1] == s;
  }

  /** Reading a numeral gives back its number. */
  lemma {:induction false} NumeralValue(n: nat)
    ensures DigitsValue(Numeral(n)) == n
  {
    if n >= 10 {
      NumeralValue(n / 10);
      DigitsValueSnoc(Numeral(n / 10), n % 10);
    } else {
      DigitsValueSnoc("", n);
      assert "" + [DigitChar(n)] == [DigitChar(n)];
    }
  }

  /** Reading a padded fraction part gives back its number, when it fits. */
  lemma {:induction false} PaddedValue(f: nat, k: nat)
    requires f < Pow10(k)
    ensures DigitsValue(Padded(f, k)) == f
  {
    if k > 0 {
      PaddedValue(f / 10, k - 1);
      DigitsValueSnoc(Padded(f / 10, k - 1), f % 10);
    }
  }

  /** In digits, a '.' and more text, the first '.' is the one after the digits. */
  lemma {:induction false} DotAfterDigits(w: string, f: string)
    requires AllDigits(w)
    ensures DotIndex(w + ['.'] + f) == |w|
  {
    if w != [] {
      var s := w + ['.'] + f;
      assert s[0] == w[0];
      assert s[1..] == w[1..] + ['.'] + f;
      DotAfterDigits(w[1..], f);
    } else {
      assert w + ['.'] + f == ['.'] + f;
    }
  }

  /** Reading text whose first '.' sits at `k`, from its two sides. */
  lemma ParseUnsignedAt(s: string, k: nat, whole: string, frac: string)
    requires DotIndex(s) == k < |s| && s[..k] == whole && s[k + 1..] == frac
    requires AllDigits(whole) && AllDigits(frac) && |whole| + |frac| > 0
    ensures ParseUnsigned(s).Some? && ParseUnsigned(s).value == DigitsValue(whole) as real + Fraction(frac)
  {
  }

  /** Digits, a '.', and digits read as the whole part plus the fraction. */
  lemma ParseUnsignedPoint(w: string, f: string)
    requires AllDigits(w) && AllDigits(f) && |w| + |f| > 0
    ensures ParseUnsigned(w + ['.'] + f).Some?
    ensures ParseUnsigned(w + ['.'] + f).value == DigitsValue(w) as real + Fraction(f)
  {
    var s := w + ['.'] + f;
    DotAfterDigits(w, f);
    assert s[..|w|] == w;
    assert s[|w| + 1..] == f;
    ParseUnsignedAt(s, |w|, w, f);
  }

  /** Text without a '.' reads as its digits. */
  lemma ParseUnsignedNoDot(s: string)
    requires DotIndex(s) == |s| && AllDigits(s) && s != []
    ensures ParseUnsigned(s).Some? && ParseUnsigned(s).value == DigitsValue(s) as real
  {
    assert s[..|s|] == s;
    FractionEmpty();
  }

  lemma FractionEmpty()
    ensures Fraction("") == 0.0
  {
  }

  /** Digits alone read as their number. */
  lemma ParseUnsignedWhole(w: string)
    requires AllDigits(w) && w != []
    ensures ParseUnsigned(w).Some? && ParseUnsigned(w).value == DigitsValue(w) as real
  {
    assert DotIndex(w) == |w| by {
      if DotIndex(w) < |w| {
        assert IsDigit(w[DotIndex(w)]);
      }
    }
    ParseUnsignedNoDot(w);
  }

  /** A leading '-' negates whatever the rest reads as, and fails when it fails. */
  lemma ParseDecimalNegative(t: string)
    ensures ParseUnsigned(t).Some? ==> ParseDecimal(['-'] + t).Some? && ParseDecimal(['-'] + t).value == -ParseUnsigned(t).value
    ensures ParseUnsigned(t).None? ==> ParseDecimal(['-'] + t).None?
  {
    assert (['-'] + t)[1..] == t;
  }

  /** A leading '+' changes nothing, and neither does its absence before a digit. */
  lemma ParseDecimalPositive(t: string)
    requires t != [] && IsDigit(t[0])
    ensures ParseDecimal(t) == ParseUnsigned(t)
    ensures ParseDecimal(['+'] + t) == ParseUnsigned(t)
  {
    assert (['+'] + t)[1..] == t;
  }

  /** A padded fraction part stands for `f / 10^k`. */
  lemma PaddedFraction(f: nat, k: nat)
    requires f < Pow10(k)
    ensures Fraction(Padded(f, k)) == f as real / Pow10(k) as real
  {
    PaddedValue(f, k);
  }

  /** Text that starts with a digit and reads as `v` reads as `v` after a
      '+' and as `-v` after a '-'. */
  lemma SignedReads(t: string, v: real)
    requires t != [] && IsDigit(t[0]) && ParseUnsigned(t).Some? && ParseUnsigned(t).value == v
    ensures ParseDecimal(t).Some? && ParseDecimal(t).value == v
    ensures ParseDecimal(['+'] + t).Some? && ParseDecimal(['+'] + t).value == v
    ensures ParseDecimal(['-'] + t).Some? && ParseDecimal(['-'] + t).value == -v
  {
    ParseDecimalPositive(t);
    ParseDecimalNegative(t);
  }

  /** A printed decimal `n.f` with `k` fraction digits reads back as its value,
      with or without a leading '+', and as its negation after a '-'. */
  lemma DecimalRoundTrip(n: nat, f: nat, k: nat)
    requires f < Pow10(k)
    ensures var text := Numeral(n) + ['.'] + Padded(f, k);
      var value := n as real + f as real / Pow10(k) as real;
      && ParseDecimal(text).Some? && ParseDecimal(text).value == value
      && ParseDecimal(['+'] + text).Some? && ParseDecimal(['+'] + text).value == value
      && ParseDecimal(['-'] + text).Some? && ParseDecimal(['-'] + text).value == -value
  {
    var text := Numeral(n) + ['.'] + Padded(f, k);
    var value := n as real + f as real / Pow10(k) as real;
    PaddedFraction(f, k);
    assert ParseUnsigned(text).Some? && ParseUnsigned(text).value == value by {
      NumeralValue(n);
      ParseUnsignedPoint(Numeral(n), Padded(f, k));
    }
    assert text[0] == Numeral(n)[0];
    SignedReads(text, value);
  }

  /** A printed whole number reads back as itself, signed as written. */
  lemma WholeRoundTrip(n: nat)
    ensures ParseDecimal(Numeral(n)).Some? && ParseDecimal(Numeral(n)).value == n as real
    ensures ParseDecimal(['+'] + Numeral(n)).Some? && ParseDecimal(['+'] + Numeral(n)).value == n as real
    ensures ParseDecimal(['-'] + Numeral(n)).Some? && ParseDecimal(['-'] + Numeral(n)).value == -(n as real)
  {
    assert ParseUnsigned(Numeral(n)).Some? && ParseUnsigned(Numeral(n)).value == n as real by {
      NumeralValue(n);
      ParseUnsignedWhole(Numeral(n));
    }
    SignedReads(Numeral(n), n as real);
  }

  /** Text with a character other than a digit, a sign at the front or a
      single '.' is a ValueError. */
  lemma ParseDecimalRejects(s: string, i: nat)
    requires i < |s| && !IsDigit(s[i]) && s[i] != '.' && (i > 0 || (s[i] != '-' && s[i] != '+'))
    ensures ParseDecimal(s).None?
  {
    var t := if s[0] == '-' || s[0] == '+' then s[1..] else s;
    var j := if s[0] == '-' || s[0] == '+' then i - 1 else i;
    assert t[j] == s[i];
    var k := DotIndex(t);
    if j < k {
      assert t[..k][j] == t[j];
    } else {
      assert j > k;
      assert t[k + 1..][j - k - 1] == t[j];
    }
  }

  /** Reading an already cleaned cell gives the same result, for a
      one-character symbol. */
  lemma ParseCleaned(s: string, symbol: string)
    requires |symbol| == 1
    ensures ParseMoneyAmount(Text(Clean(s, symbol)), symbol) == ParseMoneyAmount(Text(s), symbol)
  {
    CleanIdempotent(s, symbol);
  }

  lemma RemoveCharHead(c: char, rest: string, x: char)
    ensures RemoveAll([c] + rest, [x]) == (if c == x then [] else [c]) + RemoveAll(rest, [x])
  {
    assert ([c] + rest)[..1] == [c];
    assert ([c] + rest)[1..] == rest;
  }

  /** A cell holding only the symbol and spaces reads as zero. */
  lemma ExampleBlankAmount()
    ensures ParseMoneyAmount(Text(" £ "), "£") == Success(0.0)
  {
    assert " £ " == [' '] + (['£'] + [' ']);
    BlankCleaned(' ');
  }

  lemma BlankCleaned(sp: char)
    requires IsSpace(sp) && sp != '£' && sp != ','
    ensures Clean([sp] + (['£'] + [sp]), "£") == ""
  {
    assert "£" == ['£'] && "," == [','];
    var rest := ['£'] + [sp];
    RemoveCharHead('£', [sp], '£');
    RemoveCharAbsent([sp], '£');
    assert RemoveAll(rest, ['£']) == [sp];
    RemoveCharHead(sp, rest, '£');
    var spaces := [sp] + [sp];
    assert RemoveAll([sp] + rest, ['£']) == spaces;
    RemoveCharAbsent(spaces, ',');
    assert spaces[0] == sp && spaces[1..] == [sp] && [sp][1..] == [];
    assert StripLeft([sp]) == StripLeft([]) == [];
    assert StripLeft(spaces) == [];
  }

  /** "£1,234.50" reads as 1234.5. */
  lemma ExampleThousands()
    ensures ParseMoneyAmount(Text("£1,234.50"), "£") == Success(1234.5)
  {
    ExampleThousandsClean();
    ExampleThousandsValue();
  }

  lemma ExampleThousandsClean()
    ensures Clean("£1,234.50", "£") == "1234.50"
  {
    ThousandsCleaned("234.50", "1234.50");
    assert ['£'] + (['1'] + ([','] + "234.50")) == "£1,234.50";
  }

  lemma ThousandsCleaned(tail: string, cleaned: string)
    requires '£' !in tail && ',' !in tail && tail != [] && !IsSpace(tail[|tail| - 1])
    requires cleaned == ['1'] + tail
    ensures Clean(['£'] + (['1'] + ([','] + tail)), "£") == cleaned
  {
    SymbolRemoved(['1'] + ([','] + tail));
    SeparatorRemoved(tail);
    assert cleaned[0] == '1' && cleaned[|cleaned| - 1] == tail[|tail| - 1];
    StripFixed(cleaned);
  }

  lemma SymbolRemoved(rest: string)
    requires '£' !in rest
    ensures RemoveAll(['£'] + rest, "£") == rest
  {
    assert "£" == ['£'];
    RemoveCharHead('£', rest, '£');
    RemoveCharAbsent(rest, '£');
  }

  lemma SeparatorRemoved(tail: string)
    requires ',' !in tail
    ensures RemoveAll(['1'] + ([','] + tail), ",") == ['1'] + tail
  {
    assert "," == [','];
    RemoveCharHead('1', [','] + tail, ',');
    RemoveCharHead(',', tail, ',');
    RemoveCharAbsent(tail, ',');
  }

  lemma ExampleThousandsValue()
    ensures ParseDecimal("1234.50") == Some(1234.5)
  {
    ExampleDotIndex();
    assert "1234.50"[..4] == "1234" && "1234.50"[5..] == "50";
    ExampleDigits();
    assert Pow10(2) == 100;
  }

  lemma ExampleDotIndex()
    ensures DotIndex("1234.50") == 4
  {
    assert "1234.50"[1..] == "234.50" && "234.50"[1..] == "34.50" && "34.50"[1..] == "4.50" && "4.50"[1..] == ".50";
  }

  lemma ExampleDigits()
    ensures AllDigits("1234") && DigitsValue("1234") == 1234
    ensures AllDigits("50") && DigitsValue("50") == 50
  {
    assert "1234"[..3] == "123" && "123"[..2] == "12" && "12"[..1] == "1" && "1"[..0] == "";
    assert "50"[..1] == "5" && "5"[..0] == "";
  }
}

/**
 * Amounts in integer cents and their text forms: the decimal text Python's
 * `float()` reads, the pt_BR display text "R$ 1.234,56" shown in the table,
 * and the transform that turns display text back into decimal text.
 */
module Money {
  import opened Wrappers
  import opened Text

  predicate IsDigit(c: char) {
    '0' <= c <= '9'
  }

  predicate AllDigits(s: string) {
    forall i :: 0 <= i < |s| ==> IsDigit(s[i])
  }

  function DigitValue(c: char): (d: nat)
    requires IsDigit(c)
    ensures d < 10
  {
    c as int - '0' as int
  }

  function DigitChar(d: nat): (c: char)
    requires d < 10
    ensures IsDigit(c) && DigitValue(c) == d
  {
    ('0' as int + d) as char
  }

  /** The number a string of decimal digits denotes. */
  function Value(s: string): nat
    requires AllDigits(s)
  {
    if s == [] then 0 else Value(s[..|s| - 1]) * 10 + DigitValue(s[|s| - 1])
  }

  /** Decimal digits of `n`, without leading zeros. */
  function Digits(n: nat): (s: string)
    ensures s != [] && AllDigits(s) && Value(s) == n
  {
    if n < 10 then [DigitChar(n)]
    else
      var s := Digits(n / 10) + [DigitChar(n % 10)];
      assert s[..|s| - 1] == Digits(n / 10);
      s
  }

  /** Exactly two digits, as cents are written. */
  function TwoDigits(n: nat): (s: string)
    requires n < 100
    ensures |s| == 2 && AllDigits(s)
  {
    [DigitChar(n / 10), DigitChar(n % 10)]
  }

  /** Cents denoted by the zero, one or two digits after the decimal point. */
  function FractionCents(f: string): nat
    requires AllDigits(f) && |f| <= 2
  {
    if |f| == 0 then 0
    else if |f| == 1 then DigitValue(f[0]) * 10
    else DigitValue(f[0]) * 10 + DigitValue(f[1])
  }

  /** Position of the first occurrence of `c`. */
  function IndexOf(s: string, c: char): (r: Option<nat>)
    ensures r.None? ==> c !in s
    ensures r.Some? ==> r.value < |s| && s[r.value] == c && c !in s[..r.value]
  {
    if s == [] then None
    else if s[0] == c then Some(0)
    else
      match IndexOf(s[1..], c)
      case None => None
      case Some(i) =>
        assert s[..i + 1] == [s[0]] + s[1..][..i];
        Some(i + 1)
  }

  /** `t` splits at position `i` into a non-empty digit run, a '.', and at most two digits. */
  predicate PointAt(t: string, i: int) {
    0 < i < |t| && t[i] == '.' && AllDigits(t[..i]) && AllDigits(t[i + 1..]) && |t| - i - 1 <= 2
  }

  /** The decimal texts money is written in: digits, optionally followed by '.' and up to two digits. */
  predicate IsDecimal(t: string) {
    (t != [] && AllDigits(t)) || exists i :: 0 < i < |t| && PointAt(t, i)
  }

  /**
   * The information separators U+001C to U+001F: white space to `str.strip()`, but not
   * to `float()`, which skips only the other white-space characters around a number.
   */
  predicate IsSeparatorControl(c: char) {
    '\U{001C}' <= c <= '\U{001F}'
  }

  predicate NoSeparatorControl(s: string) {
    forall i :: 0 <= i < |s| ==> !IsSeparatorControl(s[i])
  }

  /**
   * Python's `float(text)` on the decimal texts money is written in: surrounding
   * whitespace, then digits, then optionally a '.' and at most two more digits.
   * `float()` strips the white space `Trim` strips except the information separators;
   * since a decimal text holds none, it reads `text` exactly when `text` holds no
   * separator and its `Trim` is decimal.
   * The model rejects every other text, including some Python accepts (signs, exponents,
   * '_', "inf", "nan", ".5", more decimals, non-ASCII digits).
   */
  function ParseCents(text: string): (r: Option<nat>)
    ensures r.Some? <==> NoSeparatorControl(text) && IsDecimal(Trim(text))
    ensures r.Some? ==> ',' !in Trim(text) && '$' !in Trim(text)
  {
    if NoSeparatorControl(text) then ParseDecimal(Trim(text)) else None
  }

  /** An information separator before a number makes `float()` fail, though `strip()` drops it. */
  lemma SeparatorRejected()
    ensures ParseCents(['\U{001C}', '5']) == None
  {
    assert IsSeparatorControl(['\U{001C}', '5'][0]);
  }

  /** The digits-and-point part of `ParseCents`, on text already stripped. */
  function ParseDecimal(t: string): (r: Option<nat>)
    ensures r.Some? <==> IsDecimal(t)
    ensures t != [] && AllDigits(t) ==> r == Some(Value(t) * 100)
    ensures forall i :: PointAt(t, i) ==> r == Some(Value(t[..i]) * 100 + FractionCents(t[i + 1..]))
    ensures r.Some? ==> ',' !in t && '$' !in t
  {
    match IndexOf(t, '.')
    case None =>
      NoPoint(t);
      if t != [] && AllDigits(t) then Some(Value(t) * 100) else None
    case Some(i) =>
      var whole, frac := t[..i], t[i + 1..];
      OnlyPoint(t, i);
      if whole != [] && AllDigits(whole) && AllDigits(frac) && |frac| <= 2 then
        assert PointAt(t, i);
        PointChars(t, i);
        Some(Value(whole) * 100 + FractionCents(frac))
      else None
  }

  /** Text that splits at a point holds only digits and that '.'. */
  lemma PointChars(t: string, i: int)
    requires PointAt(t, i)
    ensures ',' !in t && '$' !in t
  {
    assert t == t[..i] + [t[i]] + t[i + 1..];
    assert forall k :: 0 <= k < |t| ==> IsDigit(t[k]) || t[k] == '.';
  }

  /** Text without a '.' splits at no point. */
  lemma NoPoint(t: string)
    requires '.' !in t
    ensures forall i :: !PointAt(t, i)
  {
  }

  /** The first '.' is the only place text with a point can split, and the text is not all digits. */
  lemma OnlyPoint(t: string, i: nat)
    requires IndexOf(t, '.') == Some(i)
    ensures forall j :: PointAt(t, j) ==> j == i
    ensures !AllDigits(t)
  {
    assert !IsDigit(t[i]);
    forall j | PointAt(t, j) ensures IndexOf(t, '.') == Some(j) {
      assert '.' !in t[..j];
      IndexOfAt(t, '.', j);
    }
  }

  /** Digits, a '.', and at most two digits split at the point. */
  lemma PointAfter(w: string, f: string)
    requires w != [] && AllDigits(w) && AllDigits(f) && |f| <= 2
    ensures var t := w + ['.'] + f; PointAt(t, |w|) && t[..|w|] == w && t[|w| + 1..] == f
  {
    var t := w + ['.'] + f;
    assert t[..|w|] == w && t[|w| + 1..] == f;
  }

  /** A typed whole amount, "12", is read as that many reais, unless an information separator surrounds it. */
  lemma ParseWhole(text: string, w: string)
    requires Trim(text) == w && w != [] && AllDigits(w)
    ensures ParseCents(text) == if NoSeparatorControl(text) then Some(Value(w) * 100) else None
  {
  }

  /**
   * A typed amount with a point, "12.5", is read as reais plus the cents its fraction names,
   * unless an information separator surrounds it.
   */
  lemma ParseFraction(text: string, w: string, f: string)
    requires Trim(text) == w + ['.'] + f
    requires w != [] && AllDigits(w) && AllDigits(f) && |f| <= 2
    ensures ParseCents(text) == if NoSeparatorControl(text) then Some(Value(w) * 100 + FractionCents(f)) else None
  {
    ParseAt(w + ['.'] + f, w, f);
  }

  lemma ParseAt(t: string, w: string, f: string)
    requires t == w + ['.'] + f
    requires w != [] && AllDigits(w) && AllDigits(f) && |f| <= 2
    ensures ParseDecimal(t) == Some(Value(w) * 100 + FractionCents(f))
  {
    PointAfter(w, f);
  }

  /**
   * One text `float()` reads as the amount, "1234.56"; the file's own text is what Python's
   * float printing makes of it, a different text for the same value.
   */
  function FormatDecimal(cents: nat): (s: string)
    ensures s != [] && ',' !in s && IsTrimmed(s) && NoSeparatorControl(s)
  {
    var w, f := Digits(cents / 100), TwoDigits(cents % 100);
    var s := w + "." + f;
    assert forall k :: 0 <= k < |s| ==> IsDigit(s[k]) || s[k] == '.';
    assert !IsDigit(',') && !IsSpace(s[0]) && !IsSpace(s[|s| - 1]);
    s
  }

  lemma TwoDigitsCents(n: nat)
    requires n < 100
    ensures FractionCents(TwoDigits(n)) == n
  {
  }

  /** The first occurrence of `c` is found where it is. */
  lemma {:induction false} IndexOfAt(s: string, c: char, i: nat)
    requires i < |s| && s[i] == c && c !in s[..i]
    ensures IndexOf(s, c) == Some(i)
  {
    if i > 0 {
      assert s[0] == s[..i][0];
      assert s[1..][..i - 1] == s[1..i];
      assert s[1..i] == s[..i][1..];
      IndexOfAt(s[1..], c, i - 1);
    }
  }

  /** Reading back the stored text of an amount gives the amount. */
  lemma ParseFormatDecimal(cents: nat)
    ensures ParseCents(FormatDecimal(cents)) == Some(cents)
  {
    var w, f := Digits(cents / 100), TwoDigits(cents % 100);
    var s := w + ['.'] + f;
    assert s == FormatDecimal(cents);
    TrimTrimmed(s);
    assert ParseCents(s) == ParseDecimal(s);
    ParseAt(s, w, f);
    TwoDigitsCents(cents % 100);
    assert Value(w) * 100 + FractionCents(f) == cents;
  }

  /** Decimal digits grouped in threes from the right with '.' as pt_BR writes them. */
  function Group(d: string): (g: string)
    ensures |g| >= |d|
    decreases |d|
  {
    if |d| <= 3 then d else Group(d[..|d| - 3]) + "." + d[|d| - 3..]
  }

  /**
   * The pt_BR currency text of an amount, "R$ 1.234,56", as `locale.currency(v, grouping=True)`
   * renders it in that locale.
   */
  function FormatBRL(cents: nat): (s: string)
    ensures |s| >= 7 && s[0] == 'R' && s[1] == '$' && s[2] == ' ' && s[|s| - 3] == ','
    ensures DigitsOrDots(s[3..|s| - 3]) && AllDigits(s[|s| - 2..])
  {
    var w := Digits(cents / 100);
    GroupMarks(w);
    var s := "R$ " + Group(w) + "," + TwoDigits(cents % 100);
    assert s[3..|s| - 3] == Group(w);
    assert s[|s| - 2..] == TwoDigits(cents % 100);
    s
  }

  /** `s.replace('R$', '')`: one left-to-right pass removing non-overlapping "R$". */
  function RemoveSymbol(s: string): (r: string)
    ensures Count(r, ',') == Count(s, ',')
  {
    if |s| >= 2 && s[0] == 'R' && s[1] == '$' then
      assert s == "R$" + s[2..];
      CountAppend("R$", s[2..], ',');
      RemoveSymbol(s[2..])
    else if s == [] then []
    else
      var r := [s[0]] + RemoveSymbol(s[1..]);
      assert r[1..] == RemoveSymbol(s[1..]);
      r
  }

  /** `s.replace('.', '')`. */
  function RemoveDots(s: string): (r: string)
    ensures '.' !in r
    ensures Count(r, ',') == Count(s, ',')
  {
    if s == [] then []
    else
      var rest := RemoveDots(s[1..]);
      if s[0] == '.' then rest
      else
        var r := [s[0]] + rest;
        assert r[1..] == rest;
        r
  }

  /** `s.replace(',', '.')`: every ',' becomes '.', every other character stays where it was. */
  function CommaToDot(s: string): (r: string)
    ensures |r| == |s|
    ensures forall i :: 0 <= i < |s| ==> r[i] == if s[i] == ',' then '.' else s[i]
  {
    if s == [] then [] else [if s[0] == ',' then '.' else s[0]] + CommaToDot(s[1..])
  }

  /** The display text of an amount turned back into decimal text (the amount key of a delete). */
  function CurrencyToDecimal(display: string): (r: string)
    ensures ',' !in r
    ensures Count(r, '.') == Count(display, ',')
  {
    var d := RemoveDots(RemoveSymbol(display));
    CommaToDotCounts(d);
    assert Count(d, '.') == 0;
    CommaToDot(d)
  }

  lemma {:induction false} CommaToDotCounts(s: string)
    ensures Count(CommaToDot(s), '.') == Count(s, '.') + Count(s, ',')
    ensures ',' !in CommaToDot(s)
  {
    if s != [] {
      CommaToDotCounts(s[1..]);
      assert CommaToDot(s)[1..] == CommaToDot(s[1..]);
    }
  }

  lemma {:induction false} CommaToDotPlain(s: string)
    ensures ',' !in s ==> CommaToDot(s) == s
  {
    if s != [] && ',' !in s {
      CommaToDotPlain(s[1..]);
      assert s == [s[0]] + s[1..];
    }
  }

  /** Every '$' of `s` stands right after an 'R'. */
  predicate DollarAfterR(s: string) {
    forall i :: 0 <= i < |s| && s[i] == '$' ==> i > 0 && s[i - 1] == 'R'
  }

  lemma {:induction false} RemoveSymbolClean(s: string)
    requires DollarAfterR(s)
    ensures '$' !in RemoveSymbol(s)
  {
    if |s| >= 2 && s[0] == 'R' && s[1] == '$' {
      var t := s[2..];
      assert forall i :: 0 <= i < |t| && t[i] == '$' ==> i > 0 && t[i - 1] == 'R' by {
        forall i | 0 <= i < |t| && t[i] == '$' ensures i > 0 && t[i - 1] == 'R' {
          assert s[i + 2] == '$';
        }
      }
      RemoveSymbolClean(t);
    } else if s != [] {
      assert s[0] != '$';
      var t := s[1..];
      assert forall i :: 0 <= i < |t| && t[i] == '$' ==> i > 0 && t[i - 1] == 'R' by {
        forall i | 0 <= i < |t| && t[i] == '$' ensures i > 0 && t[i - 1] == 'R' {
          assert s[i + 1] == '$';
        }
      }
      RemoveSymbolClean(t);
    }
  }

  lemma {:induction false} RemoveDotsKeepsOut(s: string, c: char)
    requires c !in s
    ensures c !in RemoveDots(s)
  {
    if s != [] {
      RemoveDotsKeepsOut(s[1..], c);
    }
  }

  /**
   * When every '$' of the display text belongs to an "R$", the decimal text has no "R$"
   * (indeed no '$') left.
   */
  lemma CurrencyToDecimalNoSymbol(display: string)
    requires DollarAfterR(display)
    ensures '$' !in CurrencyToDecimal(display)
  {
    RemoveSymbolClean(display);
    RemoveDotsKeepsOut(RemoveSymbol(display), '$');
  }

  /** A single pass of `replace('R$', '')` can leave an "R$" behind. */
  lemma CurrencyToDecimalSinglePass()
    ensures CurrencyToDecimal("RR$$") == "R$"
  {
    assert RemoveSymbol("RR$$") == "R$" by {
      assert "RR$$"[1..] == "R$$";
      assert "R$$"[2..] == "$";
      assert RemoveSymbol("$") == "$";
    }
    assert RemoveDots("R$") == "R$" by {
      assert "R$"[1..] == "$";
    }
  }

  lemma {:induction false} RemoveSymbolPlain(s: string)
    requires 'R' !in s
    ensures RemoveSymbol(s) == s
  {
    if s != [] {
      RemoveSymbolPlain(s[1..]);
      assert s == [s[0]] + s[1..];
    }
  }

  lemma {:induction false} RemoveDotsAppend(a: string, b: string)
    ensures RemoveDots(a + b) == RemoveDots(a) + RemoveDots(b)
  {
    if a == [] {
      assert a + b == b;
    } else {
      assert (a + b)[1..] == a[1..] + b;
      RemoveDotsAppend(a[1..], b);
    }
  }

  lemma {:induction false} RemoveDotsPlain(s: string)
    requires '.' !in s
    ensures RemoveDots(s) == s
  {
    if s != [] {
      RemoveDotsPlain(s[1..]);
      assert s == [s[0]] + s[1..];
    }
  }

  predicate DigitsOrDots(s: string) {
    forall i :: 0 <= i < |s| ==> IsDigit(s[i]) || s[i] == '.'
  }

  lemma DigitsOrDotsAppend(a: string, b: string)
    requires DigitsOrDots(a) && DigitsOrDots(b)
    ensures DigitsOrDots(a + b)
  {
  }

  /** Grouped digits hold nothing but digits and grouping dots. */
  lemma {:induction false} GroupMarks(d: string)
    requires AllDigits(d)
    ensures DigitsOrDots(Group(d))
    decreases |d|
  {
    if |d| > 3 {
      GroupMarks(d[..|d| - 3]);
      DigitsOrDotsAppend(Group(d[..|d| - 3]), ".");
      DigitsOrDotsAppend(Group(d[..|d| - 3]) + ".", d[|d| - 3..]);
    }
  }

  lemma MarksFree(s: string)
    requires DigitsOrDots(s)
    ensures 'R' !in s && ',' !in s && ' ' !in s
  {
  }

  lemma DigitsFree(s: string)
    requires AllDigits(s)
    ensures 'R' !in s && ',' !in s && '.' !in s && ' ' !in s
  {
  }

  /** Removing the grouping dots gives back the digits. */
  lemma {:induction false} RemoveDotsGroup(d: string)
    requires AllDigits(d)
    ensures RemoveDots(Group(d)) == d
    decreases |d|
  {
    if |d| <= 3 {
      DigitsFree(d);
      RemoveDotsPlain(d);
    } else {
      var hi, lo := d[..|d| - 3], d[|d| - 3..];
      var g := Group(hi);
      assert Group(d) == g + "." + lo;
      RemoveDotsGroup(hi);
      RemoveDotsAppend(g, ".");
      assert RemoveDots(".") == [];
      assert RemoveDots(g + ".") == hi;
      DigitsFree(lo);
      RemoveDotsPlain(lo);
      RemoveDotsAppend(g + ".", lo);
      assert RemoveDots(g + "." + lo) == hi + lo;
      assert hi + lo == d;
    }
  }

  lemma SymbolStep(tail: string)
    requires 'R' !in tail
    ensures RemoveSymbol("R$" + tail) == tail
  {
    assert ("R$" + tail)[2..] == tail;
    RemoveSymbolPlain(tail);
  }

  lemma DotsStep(w: string, f: string)
    requires AllDigits(w) && AllDigits(f)
    ensures RemoveDots(" " + Group(w) + "," + f) == " " + w + "," + f
  {
    DigitsFree(f);
    RemoveDotsAppend(" " + Group(w) + ",", f);
    RemoveDotsAppend(" " + Group(w), ",");
    RemoveDotsAppend(" ", Group(w));
    RemoveDotsGroup(w);
    RemoveDotsPlain(" ");
    RemoveDotsPlain(",");
    RemoveDotsPlain(f);
  }

  lemma CommaStep(w: string, f: string)
    requires AllDigits(w) && AllDigits(f)
    ensures CommaToDot(" " + w + "," + f) == " " + w + "." + f
  {
    var d, e := " " + w + "," + f, " " + w + "." + f;
    forall i | 0 <= i < |d| ensures CommaToDot(d)[i] == e[i] {
      if i == 0 {
      } else if i <= |w| {
        assert d[i] == w[i - 1] == e[i];
      } else if i == |w| + 1 {
      } else {
        assert d[i] == f[i - |w| - 2] == e[i];
      }
    }
  }

  lemma {:induction false} CurrencyToDecimalParts(w: string, f: string)
    requires AllDigits(w) && AllDigits(f)
    ensures CurrencyToDecimal("R$ " + Group(w) + "," + f) == " " + w + "." + f
  {
    GroupMarks(w);
    MarksFree(Group(w));
    DigitsFree(f);
    var tail := " " + Group(w) + "," + f;
    assert "R$ " + Group(w) + "," + f == "R$" + tail;
    SymbolStep(tail);
    DotsStep(w, f);
    CommaStep(w, f);
  }

  /** The display text of an amount turns back into its stored decimal text, after one blank. */
  lemma CurrencyToDecimalFormat(cents: nat)
    ensures CurrencyToDecimal(FormatBRL(cents)) == [' '] + FormatDecimal(cents)
  {
    var w, f := Digits(cents / 100), TwoDigits(cents % 100);
    CurrencyToDecimalParts(w, f);
    assert " " + w + "." + f == [' '] + FormatDecimal(cents);
  }

  /** An amount shown in the table parses back, through the delete path, to the same amount. */
  lemma ParseDisplayed(cents: nat)
    ensures ParseCents(CurrencyToDecimal(FormatBRL(cents))) == Some(cents)
  {
    var x := FormatDecimal(cents);
    CurrencyToDecimalFormat(cents);
    assert NoSeparatorControl([' '] + x) by {
      assert forall i :: 1 <= i < |x| + 1 ==> ([' '] + x)[i] == x[i - 1];
    }
    TrimLeadingBlank(x);
    TrimTrimmed(x);
    assert Trim([' '] + x) == Trim(x);
    ParseFormatDecimal(cents);
  }
}

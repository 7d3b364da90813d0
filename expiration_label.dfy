/** The expiration selector: each expiration date is shown as
    "<days>d (<date>)" and the chosen label is parsed back into the date
    with `choice.split(' ')[1].strip('()')`. */
module ExpirationLabel {

  datatype Option<T> = None | Some(value: T)

  /** The characters stripped from the date part. */
  const Parens: set<char> := {'(', ')'}

  // ---------------------------------------------------------------------
  // Formatting an integer as Python's `str(int)` does

  function DigitChar(d: nat): (c: char)
    requires d < 10
    ensures '0' <= c <= '9' && c as int - '0' as int == d
  {
    ('0' as int + d) as char
  }

  /** Decimal digits of `n`, most significant first, without leading zeros. */
  function NatToDecimal(n: nat): (r: string)
    ensures |r| >= 1
    ensures forall i :: 0 <= i < |r| ==> '0' <= r[i] <= '9'
    ensures |r| > 1 ==> r[0] != '0'
    decreases n
  {
    if n < 10 then [DigitChar(n)] else NatToDecimal(n / 10) + [DigitChar(n % 10)]
  }

  predicate IsDigits(s: string)
  {
    forall i :: 0 <= i < |s| ==> '0' <= s[i] <= '9'
  }

  /** The value of a string of decimal digits. */
  function DecimalValue(s: string): nat
    requires IsDigits(s)
  {
    if s == [] then 0
    else DecimalValue(s[..|s| - 1]) * 10 + (s[|s| - 1] as int - '0' as int)
  }

  /** `str(n)`: an optional minus sign, then the digits. */
  function IntToString(n: int): (r: string)
    ensures ' ' !in r && '(' !in r && ')' !in r
    ensures |r| >= 1
  {
    if n < 0 then "-" + NatToDecimal(-n) else NatToDecimal(n)
  }

  /** Reads back a string written by `IntToString`; `None` for a string
      that is not an optional minus sign followed by digits. */
  function IntValue(s: string): Option<int>
  {
    if s == [] then None
    else if s[0] == '-' && |s| >= 2 && IsDigits(s[1..]) then Some(-(DecimalValue(s[1..]) as int))
    else if IsDigits(s) then Some(DecimalValue(s))
    else None
  }

  lemma {:induction false} DecimalRoundTrip(n: nat)
    ensures DecimalValue(NatToDecimal(n)) == n
    decreases n
  {
    if n >= 10 {
      DecimalRoundTrip(n / 10);
      var r := NatToDecimal(n);
      assert r[..|r| - 1] == NatToDecimal(n / 10);
    }
  }

  /** A minus sign followed by digits reads back as the negated value. */
  lemma NegativeValue(digits: string)
    requires |digits| >= 1 && IsDigits(digits)
    ensures IntValue("-" + digits) == Some(-(DecimalValue(digits) as int))
  {
    var s := "-" + digits;
    assert s[1..] == digits;
  }

  /** Formatting an integer loses nothing: it can be read back exactly. */
  lemma {:induction false} IntRoundTrip(n: int)
    ensures IntValue(IntToString(n)) == Some(n)
  {
    if n < 0 {
      var m: nat := -n;
      var digits := NatToDecimal(m);
      assert IntToString(n) == "-" + digits;
      DecimalRoundTrip(m);
      NegativeValue(digits);
    } else {
      DecimalRoundTrip(n);
      var digits := NatToDecimal(n);
      assert IsDigits(digits) && digits[0] != '-';
    }
  }

  // ---------------------------------------------------------------------
  // Python's `str.split(sep)` and `str.strip(chars)`

  /** `s.split(sep)` with an explicit one-character separator: the pieces
      between separators, empty ones included; never an empty list. */
  function Split(s: string, sep: char): (parts: seq<string>)
    ensures |parts| >= 1
    ensures forall i :: 0 <= i < |parts| ==> sep !in parts[i]
    ensures |parts| >= 2 <==> sep in s
  {
    if s == [] then [[]]
    else
      var rest := Split(s[1..], sep);
      assert s == [s[0]] + s[1..];
      if s[0] == sep then [[]] + rest
      else [[s[0]] + rest[0]] + rest[1..]
  }

  /** `sep.join(parts)`. */
  function Join(parts: seq<string>, sep: char): string
  {
    if parts == [] then []
    else if |parts| == 1 then parts[0]
    else parts[0] + [sep] + Join(parts[1..], sep)
  }

  /** Splitting loses nothing: joining the pieces gives the string back. */
  lemma {:induction false} JoinSplit(s: string, sep: char)
    ensures Join(Split(s, sep), sep) == s
  {
    if s != [] {
      JoinSplit(s[1..], sep);
      var rest := Split(s[1..], sep);
      if s[0] == sep {
        assert ([[]] + rest)[1..] == rest;
      } else {
        var parts := [[s[0]] + rest[0]] + rest[1..];
        if |rest| > 1 {
          assert parts[1..] == rest[1..];
        }
      }
    }
  }

  /** A prefix without separators joins the first piece of the rest. */
  lemma {:induction false} SplitAfterPlain(a: string, t: string, sep: char)
    requires sep !in a
    ensures Split(a + t, sep) == [a + Split(t, sep)[0]] + Split(t, sep)[1..]
  {
    var p := Split(t, sep);
    if a != [] {
      assert (a + t)[1..] == a[1..] + t;
      SplitAfterPlain(a[1..], t, sep);
      assert [a[0]] + (a[1..] + p[0]) == a + p[0];
    } else {
      assert a + t == t && a + p[0] == p[0];
      assert p == [p[0]] + p[1..];
    }
  }

  /** A string without the separator is a single piece. */
  lemma SplitPlain(a: string, sep: char)
    requires sep !in a
    ensures Split(a, sep) == [a]
  {
    SplitAfterPlain(a, [], sep);
    assert a + [] == a;
  }

  /** A separator-free piece before the first separator comes off first. */
  lemma SplitFirst(a: string, sep: char, t: string)
    requires sep !in a
    ensures Split(a + [sep] + t, sep) == [a] + Split(t, sep)
  {
    var q := Split([sep] + t, sep);
    assert ([sep] + t)[1..] == t;
    assert q == [[]] + Split(t, sep);
    SplitAfterPlain(a, [sep] + t, sep);
    assert a + [sep] + t == a + ([sep] + t);
    assert a + q[0] == a;
  }

  /** Two separator-free pieces joined by one separator split back apart. */
  lemma SplitTwo(a: string, b: string, sep: char)
    requires sep !in a && sep !in b
    ensures Split(a + [sep] + b, sep) == [a, b]
  {
    SplitFirst(a, sep, b);
    SplitPlain(b, sep);
  }

  /** `s.lstrip(chars)`: drops the leading characters that are in `chars`. */
  function StripLeading(s: string, chars: set<char>): (r: string)
    ensures |r| <= |s| && r == s[|s| - |r|..]
    ensures forall i :: 0 <= i < |s| - |r| ==> s[i] in chars
    ensures r == [] || r[0] !in chars
  {
    if s != [] && s[0] in chars then StripLeading(s[1..], chars) else s
  }

  /** `s.rstrip(chars)`: drops the trailing characters that are in `chars`. */
  function StripTrailing(s: string, chars: set<char>): (r: string)
    ensures |r| <= |s| && r == s[..|r|]
    ensures forall i :: |r| <= i < |s| ==> s[i] in chars
    ensures r == [] || r[|r| - 1] !in chars
  {
    if s != [] && s[|s| - 1] in chars then StripTrailing(s[..|s| - 1], chars) else s
  }

  /** `s.strip(chars)`. */
  function Strip(s: string, chars: set<char>): (r: string)
    ensures |r| <= |s|
    ensures forall c :: c in r ==> c in s
    ensures r == [] || (r[0] !in chars && r[|r| - 1] !in chars)
  {
    var left := StripLeading(s, chars);
    var r := StripTrailing(left, chars);
    assert r == s[|s| - |left|..][..|r|];
    r
  }

  // ---------------------------------------------------------------------
  // The label and its parse

  /** `f"{days}d ({exp})"`. */
  function Label(days: int, exp: string): (r: string)
    ensures |r| == |IntToString(days)| + |exp| + 4
    ensures ' ' in r && r[|r| - 1] == ')'
  {
    var r := IntToString(days) + "d (" + exp + ")";
    assert r[|IntToString(days)| + 1] == ' ';
    r
  }

  /** `choice.split(' ')[1].strip('()')`; `None` where indexing the second
      piece would fail because the label has no space. */
  function SelectedExpiration(choice: string): (r: Option<string>)
    ensures r.Some? <==> ' ' in choice
    ensures r.Some? ==> ' ' !in r.value
    ensures r.Some? ==> r.value == [] || (r.value[0] !in Parens && r.value[|r.value| - 1] !in Parens)
  {
    var parts := Split(choice, ' ');
    if |parts| < 2 then None else Some(Strip(parts[1], Parens))
  }

  /** A leading stripped character is dropped. */
  lemma StripLeadingDrops(c: char, t: string, chars: set<char>)
    requires c in chars
    ensures StripLeading([c] + t, chars) == StripLeading(t, chars)
  {
    assert ([c] + t)[1..] == t;
  }

  /** A trailing stripped character is dropped. */
  lemma StripTrailingDrops(t: string, c: char, chars: set<char>)
    requires c in chars
    ensures StripTrailing(t + [c], chars) == StripTrailing(t, chars)
  {
    assert (t + [c])[..|t|] == t;
  }

  /** Parenthesising a date that neither starts nor ends with a parenthesis
      and stripping the parentheses gives the date back. */
  lemma StripParenthesised(exp: string)
    requires exp == [] || (exp[0] !in Parens && exp[|exp| - 1] !in Parens)
    ensures Strip("(" + exp + ")", Parens) == exp
  {
    var closed := exp + [')'];
    assert "(" + exp + ")" == ['('] + closed;
    StripLeadingDrops('(', closed, Parens);
    if exp == [] {
      assert closed == [')'] + [];
      StripLeadingDrops(')', [], Parens);
    } else {
      assert closed[0] == exp[0];
      assert StripLeading(closed, Parens) == closed;
      StripTrailingDrops(exp, ')', Parens);
    }
  }

  /** A space-free prefix, a space and a parenthesised date parse back to
      the date. */
  lemma ParseParenthesised(front: string, exp: string)
    requires ' ' !in front && ' ' !in exp
    requires exp == [] || (exp[0] !in Parens && exp[|exp| - 1] !in Parens)
    ensures SelectedExpiration(front + [' '] + ("(" + exp + ")")) == Some(exp)
  {
    SplitTwo(front, "(" + exp + ")", ' ');
    StripParenthesised(exp);
  }

  /** The label is the day count with its unit, a space, and the date in
      parentheses. */
  lemma LabelParts(days: int, exp: string)
    ensures Label(days, exp) == (IntToString(days) + "d") + [' '] + ("(" + exp + ")")
  {
  }

  /** The selected label parses back to the expiration date it was built
      from, for any day count and any date without spaces that neither
      starts nor ends with a parenthesis (yfinance's "YYYY-MM-DD"). */
  lemma ExpirationRoundTrip(days: int, exp: string)
    requires ' ' !in exp
    requires exp == [] || (exp[0] !in Parens && exp[|exp| - 1] !in Parens)
    ensures SelectedExpiration(Label(days, exp)) == Some(exp)
  {
    LabelParts(days, exp);
    ParseParenthesised(IntToString(days) + "d", exp);
  }

  /** Stripping an opening parenthesis off a date that neither starts nor
      ends with one gives the date. */
  lemma StripOpenParen(pre: string)
    requires pre != [] && pre[0] !in Parens && pre[|pre| - 1] !in Parens
    ensures Strip("(" + pre, Parens) == pre
  {
    StripLeadingDrops('(', pre, Parens);
    assert StripLeading(pre, Parens) == pre;
  }

  /** After a space-free prefix and a space, the second piece runs up to
      the next space. */
  lemma SecondPiece(front: string, middle: string, back: string)
    requires ' ' !in front && ' ' !in middle
    ensures |Split(front + [' '] + (middle + [' '] + back), ' ')| >= 2
    ensures Split(front + [' '] + (middle + [' '] + back), ' ')[1] == middle
  {
    SplitFirst(front, ' ', middle + [' '] + back);
    SplitFirst(middle, ' ', back);
  }

  /** A date containing a space is not recovered: the parse keeps only the
      part before its first space, whatever follows. */
  lemma SpacedDateIsTruncated(days: int, pre: string, post: string)
    requires ' ' !in pre
    requires pre != [] && pre[0] !in Parens && pre[|pre| - 1] !in Parens
    ensures SelectedExpiration(Label(days, pre + " " + post)) == Some(pre)
  {
    var front := IntToString(days) + "d";
    var middle := "(" + pre;
    var back := post + ")";
    LabelParts(days, pre + " " + post);
    assert "(" + (pre + " " + post) + ")" == middle + [' '] + back;
    SecondPiece(front, middle, back);
    StripOpenParen(pre);
  }
}

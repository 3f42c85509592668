/** Metric strings: `split` on a string stream and `parse_metric`. */
module Metrics {

  import opened Bits

  // ---- splitting ----

  /** Position of the first delimiter, or the length. */
  function FirstDelimiter(s: string, d: char): (i: nat)
    ensures i <= |s|
    ensures d !in s[..i] && (i < |s| ==> s[i] == d)
  {
    if s == "" || s[0] == d then 0
    else
      var i := 1 + FirstDelimiter(s[1..], d);
      assert s[..i] == [s[0]] + s[1..][..i - 1];
      i
  }

  /** All parts between delimiters, empty ones included. */
  function Parts(s: string, d: char): (parts: seq<string>)
    ensures |parts| >= 1
    decreases |s|
  {
    var i := FirstDelimiter(s, d);
    if i == |s| then [s] else [s[..i]] + Parts(s[i + 1..], d)
  }

  /** A list without one trailing empty part. */
  function DropEmpty(parts: seq<string>): seq<string>
    requires parts != []
  {
    if parts[|parts| - 1] == "" then parts[..|parts| - 1] else parts
  }

  /** What `split` returns. */
  function Tokens(s: string, d: char): seq<string>
  {
    DropEmpty(Parts(s, d))
  }

  function Join(tokens: seq<string>, d: char): string
  {
    if |tokens| == 0 then ""
    else if |tokens| == 1 then tokens[0]
    else tokens[0] + [d] + Join(tokens[1..], d)
  }

  predicate DelimiterFree(tokens: seq<string>, d: char)
  {
    forall i :: 0 <= i < |tokens| ==> d !in tokens[i]
  }

  /** The first delimiter is where nothing before it is one. */
  lemma {:induction false} FirstIs(s: string, d: char, i: nat)
    requires i <= |s| && d !in s[..i] && (i < |s| ==> s[i] == d)
    ensures FirstDelimiter(s, d) == i
    decreases |s|
  {
    if i > 0 {
      assert s[0] in s[..i];
      assert s[1..][..i - 1] == s[..i][1..];
      FirstIs(s[1..], d, i - 1);
    }
  }

  lemma DropEmptyCons(token: string, rest: seq<string>)
    requires rest != []
    ensures DropEmpty([token] + rest) == [token] + DropEmpty(rest)
  {
    var all := [token] + rest;
    assert all[|all| - 1] == rest[|rest| - 1];
    assert all[..|all| - 1] == [token] + rest[..|rest| - 1];
  }

  /** One token after the other. */
  lemma TokensStep(s: string, d: char)
    ensures var n := FirstDelimiter(s, d);
      Tokens(s, d) ==
        if n < |s| then [s[..n]] + Tokens(s[n + 1..], d)
        else if s == "" then []
        else [s]
  {
    var n := FirstDelimiter(s, d);
    if n < |s| {
      DropEmptyCons(s[..n], Parts(s[n + 1..], d));
    }
  }

  /** The same inside a longer text, for the token from pos to `end`. */
  lemma TokensFrom(text: string, pos: nat, end: nat, d: char)
    requires pos <= end <= |text| && d !in text[pos..end]
    requires end < |text| ==> text[end] == d
    ensures Tokens(text[pos..], d) ==
      if end < |text| then [text[pos..end]] + Tokens(text[end + 1..], d)
      else if pos == end then []
      else [text[pos..end]]
  {
    var s, n := text[pos..], end - pos;
    assert s[..n] == text[pos..end];
    FirstIs(s, d, n);
    TokensStep(s, d);
    if end < |text| {
      assert s[n + 1..] == text[end + 1..];
    } else {
      assert s == text[pos..end];
    }
  }

  /** The tokens of a stream from its position on; none at its end. */
  function Remaining(text: string, pos: nat, eof: bool, d: char): seq<string>
    requires pos <= |text|
  {
    if eof then [] else Tokens(text[pos..], d)
  }

  function Got(ok: bool, token: string): seq<string>
  {
    if ok then [token] else []
  }

  /** `std::getline` on a string stream: fails on a stream at its end or when nothing could be
      extracted; a delimiter is extracted but not stored. */
  method GetLine(text: string, pos: nat, eof: bool, d: char) returns (ok: bool, token: string, pos': nat, eof': bool)
    requires pos <= |text|
    ensures pos <= pos' <= |text|
    ensures ok ==> !eof && (pos < pos' || eof')
    ensures !ok ==> eof'
    ensures Remaining(text, pos, eof, d) == Got(ok, token) + Remaining(text, pos', eof', d)
  {
    ok, token, pos', eof' := false, "", pos, eof;
    if eof {
      return;
    }
    while pos' < |text| && text[pos'] != d
      invariant pos <= pos' <= |text|
      invariant token == text[pos..pos'] && d !in token
    {
      token := token + [text[pos']];
      pos' := pos' + 1;
    }
    TokensFrom(text, pos, pos', d);
    if pos' == |text| {
      eof' := true;
      ok := token != "";
    } else {
      pos' := pos' + 1;
      ok := true;
    }
  }

  /** `split`. */
  method Split(s: string, d: char) returns (tokens: seq<string>)
    ensures tokens == Tokens(s, d)
  {
    ghost var rest := Tokens(s, d);
    assert s[0..] == s;
    tokens := [];
    var ok, token, pos, eof := GetLine(s, 0, false, d);
    while ok
      invariant pos <= |s| && (!ok ==> eof)
      invariant rest == Got(ok, token) + Remaining(s, pos, eof, d)
      invariant tokens + rest == Tokens(s, d)
      decreases |s| - pos, !eof, ok
    {
      MoveFirst(tokens, token, rest);
      tokens := tokens + [token];
      rest := rest[1..];
      ok, token, pos, eof := GetLine(s, pos, eof, d);
    }
  }

  lemma MoveFirst(tokens: seq<string>, token: string, rest: seq<string>)
    requires rest != [] && rest[0] == token
    ensures tokens + rest == tokens + [token] + rest[1..]
  {
  }

  // ---- splitting and joining ----

  lemma JoinCons(token: string, rest: seq<string>, d: char)
    requires rest != []
    ensures Join([token] + rest, d) == token + [d] + Join(rest, d)
  {
    assert ([token] + rest)[1..] == rest;
  }

  lemma {:induction false} JoinParts(s: string, d: char)
    ensures Join(Parts(s, d), d) == s
    decreases |s|
  {
    var n := FirstDelimiter(s, d);
    if n < |s| {
      JoinParts(s[n + 1..], d);
      JoinCons(s[..n], Parts(s[n + 1..], d), d);
      assert s == s[..n] + [d] + s[n + 1..];
    }
  }

  lemma FirstInJoin(a: string, d: char, rest: string)
    requires d !in a
    ensures FirstDelimiter(a + [d] + rest, d) == |a|
    ensures FirstDelimiter(a, d) == |a|
  {
    assert (a + [d] + rest)[..|a|] == a && a[..|a|] == a;
    FirstIs(a + [d] + rest, d, |a|);
    FirstIs(a, d, |a|);
  }

  lemma PartsCons(token: string, d: char, rest: string)
    requires d !in token
    ensures Parts(token + [d] + rest, d) == [token] + Parts(rest, d)
  {
    FirstInJoin(token, d, rest);
    var s := token + [d] + rest;
    assert s[..|token|] == token && s[|token| + 1..] == rest;
  }

  /** Splitting a join of delimiter-free parts gives the parts back. */
  lemma {:induction false} PartsJoin(tokens: seq<string>, d: char)
    requires tokens != [] && DelimiterFree(tokens, d)
    ensures Parts(Join(tokens, d), d) == tokens
    decreases |tokens|
  {
    if |tokens| == 1 {
      FirstInJoin(tokens[0], d, "");
    } else {
      var rest := Join(tokens[1..], d);
      PartsJoin(tokens[1..], d);
      PartsCons(tokens[0], d, rest);
    }
  }

  /** For lists of delimiter-free tokens, splitting undoes joining exactly if the list does not
      end in an empty token. */
  lemma SplitJoin(tokens: seq<string>, d: char)
    requires DelimiterFree(tokens, d)
    ensures Tokens(Join(tokens, d), d) == tokens <==> (tokens == [] || tokens[|tokens| - 1] != "")
  {
    if tokens == [] {
      TokensStep("", d);
    } else {
      PartsJoin(tokens, d);
    }
  }

  lemma ConsFree(token: string, rest: seq<string>, d: char)
    requires d !in token && DelimiterFree(rest, d) && rest != []
    ensures var parts := [token] + rest;
      DelimiterFree(parts, d) && parts[|parts| - 1] == rest[|rest| - 1]
  {
  }

  lemma {:induction false} LastPart(s: string, d: char)
    ensures var parts := Parts(s, d);
      && (parts[|parts| - 1] == "" <==> s == "" || s[|s| - 1] == d)
      && DelimiterFree(parts, d)
    decreases |s|
  {
    var n := FirstDelimiter(s, d);
    if n < |s| {
      var rest := s[n + 1..];
      LastPart(rest, d);
      assert rest != "" ==> rest[|rest| - 1] == s[|s| - 1];
      ConsFree(s[..n], Parts(rest, d), d);
    } else {
      assert s[..n] == s;
      assert s != "" ==> s[|s| - 1] in s;
    }
  }

  lemma {:induction false} JoinDropsEmpty(parts: seq<string>, d: char)
    requires |parts| >= 2 && parts[|parts| - 1] == ""
    ensures Join(parts, d) == Join(parts[..|parts| - 1], d) + [d]
    decreases |parts|
  {
    if |parts| > 2 {
      JoinDropsEmpty(parts[1..], d);
      assert parts[1..][..|parts| - 2] == parts[..|parts| - 1][1..];
    } else {
      assert parts[1..] == [""] && parts[..1] == [parts[0]];
    }
  }

  /** Joining what `split` returns gives the string back, up to one trailing delimiter. */
  lemma JoinSplit(s: string, d: char)
    ensures Join(Tokens(s, d), d) == if s != "" && s[|s| - 1] == d then s[..|s| - 1] else s
  {
    JoinParts(s, d);
    LastPart(s, d);
    var parts := Parts(s, d);
    if parts[|parts| - 1] == "" && |parts| >= 2 {
      JoinDropsEmpty(parts, d);
    } else if parts[|parts| - 1] == "" {
      assert parts == [""];
      assert Tokens(s, d) == [];
    }
  }

  /** The strings that split into two tokens: one delimiter with something after it, or two of
      which the second ends the string. */
  predicate TwoTokens(s: string, d: char, a: string, b: string)
  {
    d !in a && d !in b && ((s == a + [d] + b && b != "") || s == a + [d] + b + [d])
  }

  lemma JoinTwo(a: string, b: string, d: char)
    ensures Join([a, b], d) == a + [d] + b
    ensures Join([a, b, ""], d) == a + [d] + b + [d]
  {
    JoinCons(a, [b], d);
    JoinCons(b, [""], d);
    JoinCons(a, [b, ""], d);
    assert [a] + [b] == [a, b] && [b] + [""] == [b, ""] && [a] + [b, ""] == [a, b, ""];
    assert a + [d] + (b + [d] + "") == a + [d] + b + [d];
  }

  lemma TwoTokensIf(s: string, d: char, a: string, b: string)
    requires TwoTokens(s, d, a, b)
    ensures Tokens(s, d) == [a, b]
  {
    JoinTwo(a, b, d);
    if s == a + [d] + b && b != "" {
      PartsJoin([a, b], d);
    } else {
      PartsJoin([a, b, ""], d);
      assert [a, b, ""][..2] == [a, b];
    }
  }

  lemma TwoParts(parts: seq<string>, d: char, a: string, b: string)
    requires parts != [] && DropEmpty(parts) == [a, b] && DelimiterFree(parts, d)
    ensures TwoTokens(Join(parts, d), d, a, b)
  {
    JoinTwo(a, b, d);
    assert parts[0] == DropEmpty(parts)[0] && parts[1] == DropEmpty(parts)[1];
    if parts[|parts| - 1] == "" {
      assert parts == [a, b, ""];
    } else {
      assert parts == [a, b];
    }
  }

  lemma TwoTokensOnlyIf(s: string, d: char, a: string, b: string)
    requires Tokens(s, d) == [a, b]
    ensures TwoTokens(s, d, a, b)
  {
    JoinParts(s, d);
    LastPart(s, d);
    TwoParts(Parts(s, d), d, a, b);
  }

  // ---- numbers ----

  predicate IsDigit(c: char)
  {
    '0' <= c <= '9'
  }

  predicate IsSpace(c: char)
  {
    c == ' ' || '\t' <= c <= '\r'
  }

  function Digit(c: char): nat
    requires IsDigit(c)
  {
    c as int - '0' as int
  }

  function DigitsValue(digits: string): nat
    requires AllDigits(digits)
  {
    if digits == "" then 0
    else DigitsValue(digits[..|digits| - 1]) * 10 + Digit(digits[|digits| - 1])
  }

  /** The longest run of digits at the front. */
  function LeadingDigits(s: string): (n: nat)
    ensures n <= |s|
    ensures forall i :: 0 <= i < n ==> IsDigit(s[i])
    ensures n < |s| ==> !IsDigit(s[n])
  {
    if s == "" || !IsDigit(s[0]) then 0 else 1 + LeadingDigits(s[1..])
  }

  function SkipSpace(s: string): string
  {
    if s != "" && IsSpace(s[0]) then SkipSpace(s[1..]) else s
  }

  datatype Number = Value(n: nat) | NoDigits | TooLarge

  /** `std::stoul`: white space, an optional sign, decimal digits, anything after them; a
      negative number is its two's complement, a magnitude of 2^64 or more is out of range. */
  function Stoul(s: string): Number
  {
    var t := SkipSpace(s);
    var negative := t != "" && t[0] == '-';
    var u := if t != "" && (t[0] == '-' || t[0] == '+') then t[1..] else t;
    var n := LeadingDigits(u);
    if n == 0 then NoDigits
    else
      var v := DigitsValue(u[..n]);
      if v >= WORD64 then TooLarge
      else if negative && v > 0 then Value(WORD64 - v)
      else Value(v)
  }

  /** Printing a number in decimal. */
  function Decimal(n: nat): (s: string)
    ensures s != "" && forall i :: 0 <= i < |s| ==> IsDigit(s[i])
  {
    if n < 10 then [('0' as int + n) as char]
    else Decimal(n / 10) + [('0' as int + n % 10) as char]
  }

  lemma {:induction false} DecimalValue(n: nat)
    ensures DigitsValue(Decimal(n)) == n
  {
    if n < 10 {
      assert Decimal(n)[..0] == "";
    } else {
      DecimalValue(n / 10);
      var s := Decimal(n);
      assert s[..|s| - 1] == Decimal(n / 10);
    }
  }

  predicate AllDigits(s: string)
  {
    forall i :: 0 <= i < |s| ==> IsDigit(s[i])
  }

  predicate AllSpaces(s: string)
  {
    forall i :: 0 <= i < |s| ==> IsSpace(s[i])
  }

  /** The six characters `isspace` knows, and the ten digits. */
  lemma Characters(c: char)
    ensures IsSpace(c) <==> c in " \t\n\r" || c as int == 11 || c as int == 12
    ensures IsDigit(c) <==> c in "0123456789"
  {
  }

  /** Nothing, or something that does not start with a digit. */
  predicate Trailing(rest: string)
  {
    rest == "" || !IsDigit(rest[0])
  }

  /** A decimal number is worth ten times what precedes its last digit, and the digit. */
  lemma DigitsSnoc(digits: string, c: char)
    requires AllDigits(digits) && IsDigit(c)
    ensures AllDigits(digits + [c])
    ensures DigitsValue(digits + [c]) == 10 * DigitsValue(digits) + (c as int - '0' as int)
    ensures DigitsValue("") == 0
  {
    assert (digits + [c])[..|digits|] == digits;
  }

  lemma {:induction false} DigitsThen(digits: string, rest: string)
    requires AllDigits(digits) && Trailing(rest)
    ensures LeadingDigits(digits + rest) == |digits|
    decreases |digits|
  {
    if digits == "" {
      assert digits + rest == rest;
    } else {
      assert (digits + rest)[0] == digits[0] && (digits + rest)[1..] == digits[1..] + rest;
      DigitsThen(digits[1..], rest);
    }
  }

  lemma {:induction false} SkipSpaces(w: string, s: string)
    requires AllSpaces(w) && (s == "" || !IsSpace(s[0]))
    ensures SkipSpace(w + s) == s
    decreases |w|
  {
    if w == "" {
      assert w + s == s;
    } else {
      assert (w + s)[0] == w[0] && (w + s)[1..] == w[1..] + s;
      SkipSpaces(w[1..], s);
    }
  }

  /** A string as `stoul` reads it: white space, a sign or none, digits, and the rest. */
  predicate NumberForm(s: string, w: string, sign: string, digits: string, rest: string)
  {
    && s == w + (sign + (digits + rest))
    && AllSpaces(w) && (sign == "" || sign == "+" || sign == "-") && AllDigits(digits) && Trailing(rest)
    && (digits == "" && sign == "" ==> rest == "" || (!IsSpace(rest[0]) && rest[0] != '+' && rest[0] != '-'))
  }

  /** What `stoul` makes of it: a magnitude of 2^64 or more is out of range, a negative number is
      its two's complement, and the rest does not matter. */
  lemma StoulOf(s: string, w: string, sign: string, digits: string, rest: string)
    requires NumberForm(s, w, sign, digits, rest)
    ensures Stoul(s) ==
      if digits == "" then NoDigits
      else if DigitsValue(digits) >= 0x1_0000_0000_0000_0000 then TooLarge
      else if sign == "-" then Value((0x1_0000_0000_0000_0000 - DigitsValue(digits)) % 0x1_0000_0000_0000_0000)
      else Value(DigitsValue(digits))
  {
    var u := digits + rest;
    var t := sign + u;
    assert digits != "" ==> u[0] == digits[0];
    assert sign != "" ==> t[0] == sign[0] && t[1..] == u;
    assert sign == "" ==> t == u;
    SkipSpaces(w, t);
    DigitsThen(digits, rest);
    assert u[..|digits|] == digits;
  }

  /** Every string has such a form. */
  lemma FormOf(s: string) returns (w: string, sign: string, digits: string, rest: string)
    ensures NumberForm(s, w, sign, digits, rest)
  {
    var t;
    w, t := Spaces(s);
    var u;
    if t != "" && (t[0] == '+' || t[0] == '-') {
      sign, u := t[..1], t[1..];
    } else {
      sign, u := "", t;
    }
    var n := LeadingDigits(u);
    digits, rest := u[..n], u[n..];
    assert u == digits + rest && t == sign + u;
    assert digits == "" ==> rest == u;
  }

  lemma {:induction false} Spaces(s: string) returns (w: string, t: string)
    ensures s == w + t && AllSpaces(w) && (t == "" || !IsSpace(t[0]))
    decreases |s|
  {
    if s != "" && IsSpace(s[0]) {
      var w';
      w', t := Spaces(s[1..]);
      w := [s[0]] + w';
    } else {
      w, t := "", s;
    }
  }

  /** A printed number, with white space before it, a sign or none, and any text behind it. */
  lemma StoulPrinted(w: string, sign: string, p: nat, rest: string)
    requires AllSpaces(w) && (sign == "" || sign == "+" || sign == "-") && Trailing(rest)
    ensures Stoul(w + (sign + (Decimal(p) + rest))) ==
      if p >= 0x1_0000_0000_0000_0000 then TooLarge
      else if sign == "-" then Value((0x1_0000_0000_0000_0000 - p) % 0x1_0000_0000_0000_0000)
      else Value(p)
  {
    DecimalValue(p);
    StoulOf(w + (sign + (Decimal(p) + rest)), w, sign, Decimal(p), rest);
  }

  lemma StoulDecimal(p: nat)
    ensures Stoul(Decimal(p)) == if p < 0x1_0000_0000_0000_0000 then Value(p) else TooLarge
  {
    StoulPrinted("", "", p, "");
    assert "" + ("" + (Decimal(p) + "")) == Decimal(p);
  }

  // ---- parse_metric ----

  datatype Metric = Parsed(event: string, period: nat) | Invalid | OutOfRange

  /** Name and period; the period is cut to 32 bits. */
  function ParseSpec(metric: string): Metric
  {
    var tokens := Tokens(metric, '@');
    if |tokens| != 2 then Invalid
    else
      match Stoul(tokens[1])
      case Value(n) => Parsed(tokens[0], n % WORD32)
      case NoDigits => Invalid
      case TooLarge => OutOfRange
  }

  method ParseMetric(metric: string) returns (r: Metric)
    ensures r == ParseSpec(metric)
  {
    var substrings := Split(metric, '@');
    if |substrings| != 2 {
      return Invalid;
    }
    match Stoul(substrings[1]) {
      case Value(n) => r := Parsed(substrings[0], n % WORD32);
      case NoDigits => r := Invalid;
      case TooLarge => r := OutOfRange;
    }
  }

  lemma NoneInDigits(p: nat, w: string, sign: string, rest: string)
    requires AllSpaces(w) && (sign == "" || sign == "+" || sign == "-") && '@' !in rest
    ensures '@' !in w + (sign + (Decimal(p) + rest))
  {
    var d := Decimal(p);
    assert '@' !in d by {
      assert forall i :: 0 <= i < |d| ==> IsDigit(d[i]);
    }
    assert '@' !in w by {
      assert forall i :: 0 <= i < |w| ==> IsSpace(w[i]);
    }
  }

  /** Printing and parsing, with white space and a sign before the number and any text behind it:
      the name comes back, and the period modulo 2^32; from 2^64 on it is out of range. */
  lemma PrintParse(name: string, w: string, sign: string, p: nat, rest: string)
    requires '@' !in name && '@' !in rest
    requires AllSpaces(w) && (sign == "" || sign == "+" || sign == "-") && Trailing(rest)
    ensures ParseSpec(name + "@" + (w + (sign + (Decimal(p) + rest)))) ==
      if p >= 0x1_0000_0000_0000_0000 then OutOfRange
      else if sign == "-" then
        Parsed(name, (0x1_0000_0000_0000_0000 - p) % 0x1_0000_0000_0000_0000 % 0x1_0000_0000)
      else Parsed(name, p % 0x1_0000_0000)
  {
    var number := w + (sign + (Decimal(p) + rest));
    NoneInDigits(p, w, sign, rest);
    assert ['@'] == "@";
    TwoTokensIf(name + "@" + number, '@', name, number);
    StoulPrinted(w, sign, p, rest);
  }

  lemma PrintPlain(name: string, p: nat)
    requires '@' !in name
    ensures ParseSpec(name + "@" + Decimal(p)) ==
      if p < 0x1_0000_0000_0000_0000 then Parsed(name, p % 0x1_0000_0000) else OutOfRange
  {
    var number := Decimal(p);
    PrintParse(name, "", "", p, "");
    assert "" + ("" + (number + "")) == number;
  }

  /** So a plainly printed period survives exactly if it is below 2^32. */
  lemma PeriodSurvivesIff(name: string, p: nat)
    requires '@' !in name
    ensures ParseSpec(name + "@" + Decimal(p)) == Parsed(name, p) <==> p < 0x1_0000_0000
  {
    PrintPlain(name, p);
    CutIff(p);
  }

  lemma CutIff(p: nat)
    ensures p % 0x1_0000_0000 == p <==> p < 0x1_0000_0000
  {
  }

  /** A trailing blank does no harm. */
  lemma TrailingBlank()
    ensures ParseSpec("Load@1800 ") == Parsed("Load", 1800)
  {
    assert Decimal(18) == "18" by { assert Decimal(1) == "1"; }
    assert Decimal(180) == "180";
    assert Decimal(1800) == "1800";
    PrintParse("Load", "", "", 1800, " ");
    assert "Load" + "@" + ("" + ("" + ("1800" + " "))) == "Load@1800 ";
  }

  /** The two tokens of a metric string, and the second as `stoul` reads it. */
  predicate MetricForm(metric: string, event: string, number: string,
                       w: string, sign: string, digits: string, rest: string)
  {
    TwoTokens(metric, '@', event, number) && NumberForm(number, w, sign, digits, rest)
  }

  lemma ParseOf(metric: string, event: string, number: string, w: string, sign: string, digits: string, rest: string)
    requires MetricForm(metric, event, number, w, sign, digits, rest)
    ensures ParseSpec(metric) ==
      if digits == "" then Invalid
      else if DigitsValue(digits) >= 0x1_0000_0000_0000_0000 then OutOfRange
      else if sign == "-" then
        Parsed(event, (0x1_0000_0000_0000_0000 - DigitsValue(digits)) % 0x1_0000_0000_0000_0000 % 0x1_0000_0000)
      else Parsed(event, DigitsValue(digits) % 0x1_0000_0000)
  {
    TwoTokensIf(metric, '@', event, number);
    StoulOf(number, w, sign, digits, rest);
  }

  /** A metric string that is not rejected for its tokens has the form above. */
  lemma MetricFormOf(metric: string)
    returns (event: string, number: string, w: string, sign: string, digits: string, rest: string)
    requires |Tokens(metric, '@')| == 2
    ensures MetricForm(metric, event, number, w, sign, digits, rest)
  {
    var tokens := Tokens(metric, '@');
    event, number := tokens[0], tokens[1];
    assert tokens == [event, number];
    TwoTokensOnlyIf(metric, '@', event, number);
    w, sign, digits, rest := FormOf(number);
  }

  /** Exactly the strings name@number and name@number@ are accepted, where the number has a digit
      after white space and a sign and is below 2^64; and this is what they parse to. */
  lemma AcceptedIff(metric: string, event: string, period: nat)
    ensures ParseSpec(metric) == Parsed(event, period) <==>
      exists number, w, sign, digits, rest :: MetricForm(metric, event, number, w, sign, digits, rest)
        && digits != "" && DigitsValue(digits) < 0x1_0000_0000_0000_0000
        && period == (if sign == "-" then (0x1_0000_0000_0000_0000 - DigitsValue(digits)) % 0x1_0000_0000_0000_0000
                      else DigitsValue(digits)) % 0x1_0000_0000
  {
    if ParseSpec(metric) == Parsed(event, period) {
      var event', number, w, sign, digits, rest := MetricFormOf(metric);
      ParseOf(metric, event', number, w, sign, digits, rest);
      assert MetricForm(metric, event, number, w, sign, digits, rest);
    }
    forall number, w, sign, digits, rest | MetricForm(metric, event, number, w, sign, digits, rest)
      ensures ParseSpec(metric) ==
        if digits == "" then Invalid
        else if DigitsValue(digits) >= 0x1_0000_0000_0000_0000 then OutOfRange
        else if sign == "-" then
          Parsed(event, (0x1_0000_0000_0000_0000 - DigitsValue(digits)) % 0x1_0000_0000_0000_0000 % 0x1_0000_0000)
        else Parsed(event, DigitsValue(digits) % 0x1_0000_0000)
    {
      ParseOf(metric, event, number, w, sign, digits, rest);
    }
  }

  /** Out of range are exactly those whose digits are worth 2^64 or more. */
  lemma OutOfRangeIff(metric: string)
    ensures ParseSpec(metric) == OutOfRange <==>
      exists event, number, w, sign, digits, rest :: MetricForm(metric, event, number, w, sign, digits, rest)
        && DigitsValue(digits) >= 0x1_0000_0000_0000_0000
  {
    if ParseSpec(metric) == OutOfRange {
      var event, number, w, sign, digits, rest := MetricFormOf(metric);
      ParseOf(metric, event, number, w, sign, digits, rest);
    }
    forall event, number, w, sign, digits, rest | MetricForm(metric, event, number, w, sign, digits, rest)
        && DigitsValue(digits) >= 0x1_0000_0000_0000_0000
      ensures ParseSpec(metric) == OutOfRange
    {
      ParseOf(metric, event, number, w, sign, digits, rest);
    }
  }

  /** Invalid are exactly those that have not two tokens or no digit where the number should be. */
  lemma InvalidIff(metric: string)
    ensures ParseSpec(metric) == Invalid <==>
      forall event, number, w, sign, digits, rest ::
        MetricForm(metric, event, number, w, sign, digits, rest) ==> digits == ""
  {
    if |Tokens(metric, '@')| == 2 {
      var event, number, w, sign, digits, rest := MetricFormOf(metric);
      ParseOf(metric, event, number, w, sign, digits, rest);
    }
    forall event, number, w, sign, digits, rest | MetricForm(metric, event, number, w, sign, digits, rest)
      ensures ParseSpec(metric) == Invalid <==> digits == ""
    {
      ParseOf(metric, event, number, w, sign, digits, rest);
    }
  }
}

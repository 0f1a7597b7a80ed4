/** `cleanAmount` of `csv.go`: which numeric value and sign an amount cell denotes, and the proof that
    every usual way of printing an amount is read back exactly. Values are exact decimals. */
module Amount {

  import opened Options
  import opened WhiteSpace
  import opened Digits

  /** units / 10^scale */
  datatype Decimal = Decimal(units: nat, scale: nat)

  // ---------- Numerals ----------

  predicate Numeric(c: char) {
    IsDigit(c) || c == '.'
  }

  /** The state of a decimal literal being read; `Bad` after a second point. */
  datatype Reading = Reading(units: nat, scale: nat, point: bool, digits: bool) | Bad

  function ReadChar(r: Reading, c: char): Reading {
    if r.Bad? then Bad
    else if c == '.' then if r.point then Bad else r.(point := true)
    else if IsDigit(c) then
      Reading(10 * r.units + DigitValue(c), r.scale + if r.point then 1 else 0, r.point, true)
    else Bad
  }

  function Read(r: Reading, s: string): Reading {
    if s == [] then r else ReadChar(Read(r, s[..|s| - 1]), s[|s| - 1])
  }

  const START := Reading(0, 0, false, false)

  /** `ParseFloat` on text made of digits and points. */
  function ParseDecimal(s: string): Option<Decimal> {
    var r := Read(START, s);
    if r.Bad? || !r.digits then None else Some(Decimal(r.units, r.scale))
  }

  lemma {:induction false} ReadConcat(r: Reading, s: string, t: string)
    ensures Read(r, s + t) == Read(Read(r, s), t)
    decreases |t|
  {
    if t == [] {
      assert s + t == s;
    } else {
      ReadConcat(r, s, t[..|t| - 1]);
      assert (s + t)[..|s + t| - 1] == s + t[..|t| - 1];
    }
  }

  // ---------- cleanAmount ----------

  /** The characters that survive: digits and points. */
  function Kept(s: string): string {
    if s == [] then []
    else Kept(s[..|s| - 1]) + if Numeric(s[|s| - 1]) then [s[|s| - 1]] else []
  }

  predicate Parenthesised(s: string) {
    |s| >= 2 && s[0] == '(' && s[|s| - 1] == ')'
  }

  /** Value and sign, or None when there is no numeral. */
  function Cleaned(s: string): Option<(Decimal, bool)> {
    match ParseDecimal(Kept(s))
    case None => None
    case Some(v) => Some((v, Parenthesised(Trim(s)) || '-' in s))
  }

  lemma {:induction false} KeptConcat(s: string, t: string)
    ensures Kept(s + t) == Kept(s) + Kept(t)
    decreases |t|
  {
    if t == [] {
      assert s + t == s;
    } else {
      KeptConcat(s, t[..|t| - 1]);
      assert (s + t)[..|s + t| - 1] == s + t[..|t| - 1];
    }
  }

  lemma {:induction false} KeptNone(s: string)
    requires forall i :: 0 <= i < |s| ==> !Numeric(s[i])
    ensures Kept(s) == []
    decreases |s|
  {
    if s != [] {
      KeptNone(s[..|s| - 1]);
    }
  }

  lemma {:induction false} KeptAll(s: string)
    requires forall i :: 0 <= i < |s| ==> Numeric(s[i])
    ensures Kept(s) == s
    decreases |s|
  {
    if s != [] {
      KeptAll(s[..|s| - 1]);
    }
  }

  /** Trimming removes nothing that matters. */
  lemma {:induction false} KeptOfTrim(s: string)
    ensures Kept(Trim(s)) == Kept(s) && ('-' in Trim(s) <==> '-' in s)
    decreases |s|
  {
    if s != [] && IsSpace(s[0]) {
      KeptOfTrim(s[1..]);
      assert s == [s[0]] + s[1..];
      KeptConcat([s[0]], s[1..]);
      KeptNone([s[0]]);
    } else if s != [] && IsSpace(s[|s| - 1]) {
      KeptOfTrim(s[..|s| - 1]);
      assert s == s[..|s| - 1] + [s[|s| - 1]];
    }
  }

  lemma {:induction false} TrimTwice(s: string)
    ensures Trim(Trim(s)) == Trim(s)
    decreases |s|
  {
    if s != [] && IsSpace(s[0]) {
      TrimTwice(s[1..]);
    } else if s != [] && IsSpace(s[|s| - 1]) {
      TrimTwice(s[..|s| - 1]);
    }
  }

  /** Cleaning a trimmed cell is cleaning the cell. */
  lemma CleanedOfTrim(s: string)
    ensures Cleaned(Trim(s)) == Cleaned(s)
  {
    TrimTwice(s);
    KeptOfTrim(s);
  }

  /** Characters before and after that are not numeric do not matter. */
  lemma KeptBetween(a: string, s: string, b: string)
    requires Kept(a) == [] && Kept(b) == []
    ensures Kept(a + s + b) == Kept(s)
  {
    KeptConcat(a + s, b);
    KeptConcat(a, s);
    assert [] + Kept(s) + [] == Kept(s);
  }

  lemma KeptInside(t: string)
    requires Parenthesised(t)
    ensures Kept(t[1..|t| - 1]) == Kept(t) && ('-' in t[1..|t| - 1] <==> '-' in t)
  {
    var inner, last := t[1..|t| - 1], |t| - 1;
    assert t == [t[0]] + inner + [t[last]];
    KeptNone([t[0]]);
    KeptNone([t[last]]);
    KeptBetween([t[0]], inner, [t[last]]);
  }

  lemma KeptNext(t: string, i: nat)
    requires i < |t|
    ensures Kept(t[..i + 1]) == Kept(t[..i]) + if Numeric(t[i]) then [t[i]] else []
    ensures '-' in t[..i + 1] <==> '-' in t[..i] || t[i] == '-'
  {
    assert t[..i + 1] == t[..i] + [t[i]];
    assert t[..i + 1][..i] == t[..i];
  }

  // ---------- Which texts are amounts ----------

  predicate HasDigit(s: string) {
    exists i :: 0 <= i < |s| && IsDigit(s[i])
  }

  function Points(s: string): nat {
    if s == [] then 0 else Points(s[..|s| - 1]) + if s[|s| - 1] == '.' then 1 else 0
  }

  /** Every digit, wherever it stands, is a nought. */
  predicate AllNoughts(s: string) {
    forall i :: 0 <= i < |s| && IsDigit(s[i]) ==> s[i] == '0'
  }

  lemma TextNext(s: string, c: char)
    ensures HasDigit(s + [c]) <==> HasDigit(s) || IsDigit(c)
    ensures AllNoughts(s + [c]) <==> AllNoughts(s) && (IsDigit(c) ==> c == '0')
    ensures Points(s + [c]) == Points(s) + if c == '.' then 1 else 0
  {
    var t := s + [c];
    assert t[..|s|] == s && t[|s|] == c;
    if i :| 0 <= i < |s| && IsDigit(s[i]) {
      assert t[i] == s[i];
    }
    if AllNoughts(t) {
      forall i | 0 <= i < |s| && IsDigit(s[i]) ensures s[i] == '0' {
        assert t[i] == s[i];
      }
    }
  }

  lemma ReadNext(r: Reading, s: string, c: char)
    ensures Read(r, Kept(s + [c])) == if Numeric(c) then ReadChar(Read(r, Kept(s)), c) else Read(r, Kept(s))
  {
    assert (s + [c])[..|s|] == s;
    if Numeric(c) {
      assert (Kept(s) + [c])[..|Kept(s)|] == Kept(s);
    } else {
      assert Kept(s) + [] == Kept(s);
    }
  }

  /** What reading the kept characters has found out about the text. */
  ghost predicate Describes(r: Reading, s: string) {
    && (r.Bad? <==> Points(s) >= 2)
    && (!r.Bad? ==> (r.point <==> Points(s) == 1) && (r.digits <==> HasDigit(s)) && (r.units == 0 <==> AllNoughts(s)))
  }

  lemma DescribesNext(r: Reading, s: string, c: char)
    requires Describes(r, s)
    ensures Describes(if Numeric(c) then ReadChar(r, c) else r, s + [c])
  {
    TextNext(s, c);
  }

  lemma {:induction false} ReadOfKept(s: string)
    ensures Describes(Read(START, Kept(s)), s)
    decreases |s|
  {
    if s != [] {
      var t, c := s[..|s| - 1], s[|s| - 1];
      ReadOfKept(t);
      DescribesNext(Read(START, Kept(t)), t, c);
      ReadNext(START, t, c);
      assert t + [c] == s;
    }
  }

  /** An amount is unreadable exactly when it has no digit or more than one point. */
  lemma UnreadableIff(s: string)
    ensures Cleaned(s).None? <==> !HasDigit(s) || Points(s) >= 2
  {
    ReadOfKept(s);
  }

  /** A readable amount is zero exactly when all its digits are noughts. */
  lemma ZeroIff(s: string)
    requires Cleaned(s).Some?
    ensures Cleaned(s).value.0.units == 0 <==> AllNoughts(s)
  {
    ReadOfKept(s);
  }

  /** A readable amount is negative exactly when it holds a minus anywhere, or stands in parentheses. */
  lemma NegativeIff(s: string)
    requires Cleaned(s).Some?
    ensures Cleaned(s).value.1 <==>
              '-' in s || exists inner: string :: Bare(s, IsSpace, "(" + inner + ")")
  {
    TrimIs(s);
    var r := Trim(s);
    if Parenthesised(r) {
      assert "(" + r[1..|r| - 1] + ")" == r;
    }
    if inner: string :| Bare(s, IsSpace, "(" + inner + ")") {
      BareIsUnique(s, IsSpace, r, "(" + inner + ")");
    }
  }

  /** The loop over the characters. The empty builder is the "no numeric value" error. */
  method CleanAmount(s: string) returns (r: Option<(Decimal, bool)>)
    ensures r == Cleaned(s)
  {
    var t, neg := Trim(s), false;
    KeptOfTrim(s);
    if Parenthesised(t) {
      KeptInside(t);
      neg := true;
      t := t[1..|t| - 1];
    }
    ghost var paren := neg;
    var b := "";
    for i := 0 to |t|
      invariant b == Kept(t[..i])
      invariant neg <==> paren || '-' in t[..i]
    {
      KeptNext(t, i);
      if IsDigit(t[i]) || t[i] == '.' {
        b := b + [t[i]];
      } else if t[i] == '-' {
        neg := true;
      }
    }
    assert t[..|t|] == t;
    if |b| == 0 {
      return None;
    }
    var v := ParseDecimal(b);
    if v.None? {
      return None;
    }
    return Some((v.value, neg));
  }

  // ---------- Printing amounts ----------

  function Digits3(n: nat): string
    requires n < 1000
  {
    [DigitChar(n / 100), DigitChar(n / 10 % 10), DigitChar(n % 10)]
  }

  /** Decimal digits without leading zeros, below 1000. */
  function Short(n: nat): string
    requires n < 1000
  {
    if n < 10 then [DigitChar(n)]
    else if n < 100 then [DigitChar(n / 10), DigitChar(n % 10)]
    else Digits3(n)
  }

  /** With a comma before every group of three digits. */
  function Grouped(n: nat): string {
    if n < 1000 then Short(n) else Grouped(n / 1000) + "," + Digits3(n % 1000)
  }

  function Cents2(n: nat): string
    requires n < 100
  {
    [DigitChar(n / 10), DigitChar(n % 10)]
  }

  datatype Style = Plain | LeadingMinus | MinusAfterSymbol | TrailingMinus | Accounting

  function Number(cents: nat): string {
    Grouped(cents / 100) + "." + Cents2(cents % 100)
  }

  function BeforeSymbol(style: Style): string {
    if style == LeadingMinus then "-" else if style == Accounting then "(" else ""
  }

  function AfterSymbol(style: Style): string {
    if style == MinusAfterSymbol then "-" else ""
  }

  function AfterNumber(style: Style): string {
    if style == TrailingMinus then "-" else if style == Accounting then ")" else ""
  }

  /** An amount as statements print it: a currency symbol, grouping, two decimals, and a sign style. */
  function Print(symbol: string, style: Style, cents: nat): string {
    BeforeSymbol(style) + symbol + AfterSymbol(style) + Number(cents) + AfterNumber(style)
  }

  /** The five styles, with the digits in groups of three between commas, no leading nought, and two decimals. */
  lemma PrintIs(symbol: string, cents: nat) returns (whole: string, decimals: string)
    ensures Print(symbol, Plain, cents) == symbol + whole + "." + decimals
    ensures Print(symbol, LeadingMinus, cents) == "-" + symbol + whole + "." + decimals
    ensures Print(symbol, MinusAfterSymbol, cents) == symbol + "-" + whole + "." + decimals
    ensures Print(symbol, TrailingMinus, cents) == symbol + whole + "." + decimals + "-"
    ensures Print(symbol, Accounting, cents) == "(" + symbol + whole + "." + decimals + ")"
    ensures |decimals| == 2 && IsDigit(decimals[0]) && IsDigit(decimals[1])
    ensures whole != "" && (cents >= 100 ==> whole[0] != '0')
    ensures forall i :: 0 <= i < |whole| ==> if i % 4 == 3 then FromRight(whole, i) == ',' else IsDigit(FromRight(whole, i))
  {
    whole, decimals := Grouped(cents / 100), Cents2(cents % 100);
    InGroups(cents / 100);
    NoNought(cents / 100);
    Spell(symbol, whole, decimals);
  }

  function FromRight(s: string, i: nat): char
    requires i < |s|
  {
    s[|s| - 1 - i]
  }

  lemma Spell(symbol: string, whole: string, decimals: string)
    ensures "" + symbol + "" + (whole + "." + decimals) + "" == symbol + whole + "." + decimals
    ensures "-" + symbol + "" + (whole + "." + decimals) + "" == "-" + symbol + whole + "." + decimals
    ensures "" + symbol + "-" + (whole + "." + decimals) + "" == symbol + "-" + whole + "." + decimals
    ensures "" + symbol + "" + (whole + "." + decimals) + "-" == symbol + whole + "." + decimals + "-"
    ensures "(" + symbol + "" + (whole + "." + decimals) + ")" == "(" + symbol + whole + "." + decimals + ")"
  {}

  lemma {:induction false} NoNought(n: nat)
    ensures Grouped(n) != "" && (n > 0 ==> Grouped(n)[0] != '0')
    decreases n
  {
    if n >= 1000 {
      NoNought(n / 1000);
    }
  }

  lemma {:induction false} InGroups(n: nat)
    ensures forall i :: 0 <= i < |Grouped(n)| ==>
              if i % 4 == 3 then FromRight(Grouped(n), i) == ',' else IsDigit(FromRight(Grouped(n), i))
    decreases n
  {
    if n >= 1000 {
      InGroups(n / 1000);
      GroupOnRight(Grouped(n / 1000), Digits3(n % 1000));
    }
  }

  lemma GroupOnRight(head: string, group: string)
    requires |group| == 3 && forall i :: 0 <= i < 3 ==> IsDigit(group[i])
    requires forall i :: 0 <= i < |head| ==> if i % 4 == 3 then FromRight(head, i) == ',' else IsDigit(FromRight(head, i))
    ensures forall i :: 0 <= i < |head| + 4 ==>
              if i % 4 == 3 then FromRight(head + "," + group, i) == ',' else IsDigit(FromRight(head + "," + group, i))
  {
    var s := head + "," + group;
    forall i | 0 <= i < |s| ensures if i % 4 == 3 then FromRight(s, i) == ',' else IsDigit(FromRight(s, i)) {
      if i >= 4 {
        assert FromRight(s, i) == FromRight(head, i - 4) && (i - 4) % 4 == i % 4;
      }
    }
  }

  lemma ReadDigit(r: Reading, d: nat)
    requires !r.Bad? && d < 10
    ensures Read(r, [DigitChar(d)]) == Reading(10 * r.units + d, r.scale + if r.point then 1 else 0, r.point, true)
  {
    assert [DigitChar(d)][..0] == [];
  }

  lemma ReadTwo(r: Reading, c: nat, d: nat)
    requires !r.Bad? && c < 10 && d < 10
    ensures Read(r, [DigitChar(c), DigitChar(d)])
         == Reading(100 * r.units + 10 * c + d, r.scale + if r.point then 2 else 0, r.point, true)
  {
    assert [DigitChar(c), DigitChar(d)] == [DigitChar(c)] + [DigitChar(d)];
    ReadConcat(r, [DigitChar(c)], [DigitChar(d)]);
    ReadDigit(r, c);
    ReadDigit(Read(r, [DigitChar(c)]), d);
  }

  lemma ReadDigits3(r: Reading, h: nat, t: nat, u: nat)
    requires !r.Bad? && !r.point && h < 10 && t < 10 && u < 10
    ensures Read(r, [DigitChar(h), DigitChar(t), DigitChar(u)])
         == Reading(1000 * r.units + 100 * h + 10 * t + u, r.scale, false, true)
  {
    assert [DigitChar(h), DigitChar(t), DigitChar(u)] == [DigitChar(h)] + [DigitChar(t), DigitChar(u)];
    ReadConcat(r, [DigitChar(h)], [DigitChar(t), DigitChar(u)]);
    ReadDigit(r, h);
    ReadTwo(Read(r, [DigitChar(h)]), t, u);
  }

  lemma ThreeDigits(n: nat)
    requires n < 1000
    ensures n / 100 < 10 && 100 * (n / 100) + 10 * (n / 10 % 10) + n % 10 == n
  {
    assert n / 100 == n / 10 / 10;
  }

  lemma ReadThree(r: Reading, n: nat)
    requires !r.Bad? && !r.point && n < 1000
    ensures Read(r, Digits3(n)) == Reading(1000 * r.units + n, r.scale, false, true)
  {
    ThreeDigits(n);
    ReadDigits3(r, n / 100, n / 10 % 10, n % 10);
  }

  lemma ReadShort(n: nat)
    requires n < 1000
    ensures Read(START, Short(n)) == Reading(n, 0, false, true)
  {
    if n < 10 {
      ReadDigit(START, n);
    } else if n < 100 {
      ReadTwo(START, n / 10, n % 10);
    } else {
      ReadThree(START, n);
    }
  }

  /** One more group of three digits. */
  lemma ReadGroup(head: string, q: nat, r: nat)
    requires Read(START, Kept(head)) == Reading(q, 0, false, true) && r < 1000
    ensures Read(START, Kept(head + "," + Digits3(r))) == Reading(1000 * q + r, 0, false, true)
  {
    KeptGroup(head, r);
    ReadConcat(START, Kept(head), Digits3(r));
    ReadThree(Reading(q, 0, false, true), r);
  }

  lemma KeptGroup(head: string, r: nat)
    requires r < 1000
    ensures Kept(head + "," + Digits3(r)) == Kept(head) + Digits3(r)
  {
    KeptConcat(head + ",", Digits3(r));
    KeptConcat(head, ",");
    KeptNone(",");
    KeptAll(Digits3(r));
    assert Kept(head) + [] == Kept(head);
  }

  lemma {:induction false} ReadGrouped(n: nat)
    ensures Read(START, Kept(Grouped(n))) == Reading(n, 0, false, true)
    decreases n
  {
    if n < 1000 {
      KeptAll(Short(n));
      ReadShort(n);
    } else {
      ReadGrouped(n / 1000);
      ReadGroup(Grouped(n / 1000), n / 1000, n % 1000);
    }
  }

  lemma KeptNumber(cents: nat)
    ensures Kept(Number(cents)) == Kept(Grouped(cents / 100)) + "." + Cents2(cents % 100)
  {
    KeptConcat(Grouped(cents / 100) + ".", Cents2(cents % 100));
    KeptConcat(Grouped(cents / 100), ".");
    KeptAll(".");
    KeptAll(Cents2(cents % 100));
  }

  lemma ReadPoint(r: Reading)
    requires !r.Bad? && !r.point
    ensures Read(r, ".") == r.(point := true)
  {
    assert "."[..0] == [];
  }

  lemma ReadCents2(r: Reading, n: nat)
    requires !r.Bad? && r.point && n < 100
    ensures Read(r, Cents2(n)) == Reading(100 * r.units + n, r.scale + 2, true, true)
  {
    ReadTwo(r, n / 10, n % 10);
  }

  /** A printed number reads as its cents, with two decimals. */
  lemma ReadNumber(cents: nat)
    ensures Read(START, Kept(Number(cents))) == Reading(cents, 2, true, true)
  {
    var whole, k := cents / 100, Kept(Grouped(cents / 100));
    KeptNumber(cents);
    ReadConcat(START, k + ".", Cents2(cents % 100));
    ReadConcat(START, k, ".");
    ReadGrouped(whole);
    ReadPoint(Reading(whole, 0, false, true));
    ReadCents2(Reading(whole, 0, true, true), cents % 100);
  }

  lemma {:induction false} GroupedHasNoMinus(n: nat)
    ensures '-' !in Grouped(n) && Grouped(n) != []
    decreases n
  {
    if n >= 1000 {
      GroupedHasNoMinus(n / 1000);
    }
  }

  lemma NumberEnds(cents: nat)
    ensures var s := Number(cents); '-' !in s && s != [] && IsDigit(s[|s| - 1])
  {
    GroupedHasNoMinus(cents / 100);
  }

  /** What survives of a printed amount: what survives of the symbol, then the number. */
  lemma KeptOfPrint(symbol: string, style: Style, cents: nat)
    ensures Kept(Print(symbol, style, cents)) == Kept(symbol) + Kept(Number(cents))
  {
    var a, b, c := BeforeSymbol(style), AfterSymbol(style), AfterNumber(style);
    KeptNone(a);
    KeptNone(b);
    KeptNone(c);
    KeptConcat(a + symbol + b + Number(cents), c);
    KeptConcat(a + symbol + b, Number(cents));
    KeptConcat(a + symbol, b);
    KeptConcat(a, symbol);
    assert [] + Kept(symbol) + [] == Kept(symbol);
  }

  /** The sign read back: the style's, or a minus in the symbol. */
  lemma SignOfPrint(symbol: string, style: Style, cents: nat)
    ensures var s := Print(symbol, style, cents);
            (Parenthesised(Trim(s)) || '-' in s) <==> style != Plain || '-' in symbol
  {
    var s, n := Print(symbol, style, cents), Number(cents);
    NumberEnds(cents);
    TrimKeepsEnds(s);
    match style
    case Plain =>
      assert s == symbol + n;
      assert s[|s| - 1] == n[|n| - 1];
    case LeadingMinus =>
      assert s[0] == '-';
    case MinusAfterSymbol =>
      assert s[|symbol|] == '-';
    case TrailingMinus =>
      assert s[|s| - 1] == '-';
    case Accounting =>
      assert s[0] == '(' && s[|s| - 1] == ')';
  }

  /** A currency symbol with a point spoils the numeral, one with a minus spoils the sign. */
  predicate GoodSymbol(symbol: string) {
    forall i :: 0 <= i < |symbol| ==> !Numeric(symbol[i]) && symbol[i] != '-'
  }

  /** Printing and cleaning: the value and the sign come back, in every style. */
  lemma PrintedAmountsRoundTrip(symbol: string, style: Style, cents: nat)
    requires GoodSymbol(symbol)
    ensures Cleaned(Print(symbol, style, cents)) == Some((Decimal(cents, 2), style != Plain))
  {
    KeptOfPrint(symbol, style, cents);
    KeptNone(symbol);
    assert [] + Kept(Number(cents)) == Kept(Number(cents));
    ReadNumber(cents);
    SignOfPrint(symbol, style, cents);
  }

  lemma {:induction false} PointsSpoil(s: string)
    requires (forall i :: 0 <= i < |s| ==> !IsDigit(s[i])) && '.' in s
    ensures Read(START, Kept(s)).Bad? || Read(START, Kept(s)).point
    decreases |s|
  {
    var t, c := s[..|s| - 1], s[|s| - 1];
    assert s == t + [c];
    if c == '.' {
      OnlyPoints(t);
      ReadConcat(START, Kept(t), ".");
      assert "."[..0] == [];
    } else {
      PointsSpoil(t);
      assert Kept(t) + [] == Kept(t);
    }
  }

  lemma {:induction false} OnlyPoints(s: string)
    requires forall i :: 0 <= i < |s| ==> !IsDigit(s[i])
    ensures var r := Read(START, Kept(s)); r.Bad? || (r.units == 0 && r.scale == 0 && !r.digits)
    decreases |s|
  {
    if s != [] {
      OnlyPoints(s[..|s| - 1]);
      ReadConcat(START, Kept(s[..|s| - 1]), ".");
      assert "."[..0] == [];
      assert Kept(s[..|s| - 1]) + [] == Kept(s[..|s| - 1]);
    }
  }

  lemma {:induction false} BadStaysBad(r: Reading, s: string)
    requires r.Bad? || (r.point && '.' in s)
    ensures Read(r, s).Bad?
    decreases |s|
  {
    if s != [] {
      var t := s[..|s| - 1];
      assert s == t + [s[|s| - 1]];
      if r.Bad? || '.' in t {
        BadStaysBad(r, t);
      } else {
        PointStays(r, t);
      }
    }
  }

  lemma {:induction false} PointStays(r: Reading, s: string)
    requires !r.Bad? && r.point
    ensures Read(r, s).Bad? || Read(r, s).point
    decreases |s|
  {
    if s != [] {
      PointStays(r, s[..|s| - 1]);
    }
  }

  /** Among symbols without digits, exactly those with neither point nor minus round-trip every amount
      in every style: "Rs." does not. */
  lemma SymbolRoundTripsIff(symbol: string)
    requires forall i :: 0 <= i < |symbol| ==> !IsDigit(symbol[i])
    ensures (forall style, cents: nat :: Cleaned(Print(symbol, style, cents)) == Some((Decimal(cents, 2), style != Plain)))
       <==> '.' !in symbol && '-' !in symbol
  {
    if '.' !in symbol && '-' !in symbol {
      assert GoodSymbol(symbol);
      forall style, cents: nat ensures Cleaned(Print(symbol, style, cents)) == Some((Decimal(cents, 2), style != Plain)) {
        PrintedAmountsRoundTrip(symbol, style, cents);
      }
    } else {
      KeptOfPrint(symbol, Plain, 0);
      SignOfPrint(symbol, Plain, 0);
      if '.' in symbol {
        PointsSpoil(symbol);
        ReadConcat(START, Kept(symbol), Kept(Number(0)));
        NumberHasPoint(0);
        BadStaysBad(Read(START, Kept(symbol)), Kept(Number(0)));
      }
      assert Cleaned(Print(symbol, Plain, 0)) != Some((Decimal(0, 2), false));
    }
  }

  lemma NumberHasPoint(cents: nat)
    ensures '.' in Kept(Number(cents))
  {
    KeptNumber(cents);
  }
}

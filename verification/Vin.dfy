/** Vehicle identification numbers: the format test and the check digit of section
    565.15(c) of 49 CFR Part 565. Upper-casing is that of ASCII. */
module Vin {

  const WEIGHTS: seq<int> := [8, 7, 6, 5, 4, 3, 2, 10, 0, 9, 8, 7, 6, 5, 4, 3, 2]
  const CHECK := 8

  function UpperChar(c: char): char { if 'a' <= c <= 'z' then c - 'a' + 'A' else c }

  function Upper(s: string): (u: string)
    ensures |u| == |s| && forall i :: 0 <= i < |s| ==> u[i] == UpperChar(s[i])
  {
    seq(|s|, i requires 0 <= i < |s| => UpperChar(s[i]))
  }

  /** Letters without I, O and Q, and digits. */
  predicate InAlphabet(c: char) { ('A' <= c <= 'Z' && c != 'I' && c != 'O' && c != 'Q') || '0' <= c <= '9' }

  lemma AlphabetIs(c: char)
    ensures InAlphabet(c) <==> c in {
              'A', 'B', 'C', 'D', 'E', 'F', 'G', 'H', 'J', 'K', 'L', 'M', 'N', 'P',
              'R', 'S', 'T', 'U', 'V', 'W', 'X', 'Y', 'Z',
              '0', '1', '2', '3', '4', '5', '6', '7', '8', '9'}
  {
  }

  predicate WellFormed(v: string) { |v| == 17 && forall i :: 0 <= i < 17 ==> InAlphabet(v[i]) }

  /** The pattern ends in `$`, which also matches before a final newline. */
  predicate ValidateVin(vin: string) {
    WellFormed(Upper(vin)) || (|vin| == 18 && vin[17] == '\n' && WellFormed(Upper(vin[..17])))
  }

  /** Values of the characters; one that has none counts as nothing. */
  function Value(c: char): int {
    match c
    case 'A' => 1 case 'B' => 2 case 'C' => 3 case 'D' => 4 case 'E' => 5 case 'F' => 6 case 'G' => 7 case 'H' => 8
    case 'J' => 1 case 'K' => 2 case 'L' => 3 case 'M' => 4 case 'N' => 5 case 'P' => 7 case 'R' => 9
    case 'S' => 2 case 'T' => 3 case 'U' => 4 case 'V' => 5 case 'W' => 6 case 'X' => 7 case 'Y' => 8 case 'Z' => 9
    case _ => if '0' <= c <= '9' then c as int - '0' as int else 0
  }

  /** The letters count up from A, from J and from S, the last run beginning with two; the
      digits stand for themselves. */
  lemma ValueByRun(c: char)
    requires InAlphabet(c)
    ensures Value(c) == if c <= '9' then c as int - '0' as int
                        else if c <= 'H' then c as int - 'A' as int + 1
                        else if c <= 'R' then c as int - 'J' as int + 1
                        else c as int - 'S' as int + 2
  {
  }

  /** The weights fall from eight to two, then ten and none for the check character, and
      from nine to two. */
  lemma WeightByPosition(p: nat)
    requires p < 17
    ensures WEIGHTS[p] == if p < 7 then 8 - p else if p == 7 then 10 else if p == CHECK then 0 else 18 - p
  {
  }

  function Term(i: nat, c: char): int { if i < |WEIGHTS| then Value(c) * WEIGHTS[i] else 0 }

  function Sum(term: (nat, char) -> int, v: string): int {
    if v == "" then 0 else Sum(term, v[..|v| - 1]) + term(|v| - 1, v[|v| - 1])
  }

  /** Pairs every character with its weight, as far as both go. */
  function Total(v: string): int { Sum(Term, v) }

  function Expected(remainder: int): char
    requires 0 <= remainder < 11
  {
    if remainder == 10 then 'X' else ('0' as int + remainder) as char
  }

  predicate Accepts(v: string) { |v| > CHECK && v[CHECK] == Expected(Total(v) % 11) }

  /** A text too short to have a check digit is refused, not an error. */
  predicate CheckDigitValid(vin: string) { Accepts(Upper(vin)) }

  // ------------------------------------------------------------------
  // How the sum moves
  // ------------------------------------------------------------------

  lemma {:induction false} SumUpdate(term: (nat, char) -> int, v: string, p: nat, c: char)
    requires p < |v|
    ensures Sum(term, v[p := c]) == Sum(term, v) + term(p, c) - term(p, v[p])
  {
    var n := |v| - 1;
    if p == n {
      assert v[p := c][..n] == v[..n];
    } else {
      assert v[p := c][..n] == v[..n][p := c];
      SumUpdate(term, v[..n], p, c);
    }
  }

  lemma SumSwap(term: (nat, char) -> int, v: string, p: nat, q: nat)
    requires p < |v| && q < |v| && p != q
    ensures Sum(term, Swap(v, p, q)) == Sum(term, v) + term(p, v[q]) - term(p, v[p]) + term(q, v[p]) - term(q, v[q])
  {
    SumUpdate(term, v, p, v[q]);
    SumUpdate(term, v[p := v[q]], q, v[p]);
  }

  lemma TotalUpdate(v: string, p: nat, c: char)
    requires p < |v|
    ensures Total(v[p := c]) == Total(v) + if p < 17 then (Value(c) - Value(v[p])) * WEIGHTS[p] else 0
  {
    SumUpdate(Term, v, p, c);
    if p < 17 { Difference(Value(v[p]), Value(c), WEIGHTS[p]); }
  }

  lemma Difference(a: int, b: int, w: int)
    ensures b * w - a * w == (b - a) * w
  {
  }

  lemma Exchanged(a: int, b: int, w: int, x: int)
    ensures b * w - a * w + a * x - b * x == (b - a) * (w - x)
  {
  }

  lemma ValueRange(c: char)
    ensures 0 <= Value(c) <= 9
  {
  }

  /** Eleven is prime, so a small change times a small weight never cancels. */
  lemma NoCancel(t: int, change: int, w: int)
    requires -9 <= change <= 9 && -10 <= w <= 10
    ensures (t + change * w) % 11 == t % 11 <==> change == 0 || w == 0
  {
    var m := change * w;
    assert (t + m) % 11 == t % 11 <==> m % 11 == 0;
    Multiples(change, w);
  }

  lemma Multiples(a: int, b: int)
    requires -9 <= a <= 9 && -10 <= b <= 10
    ensures a * b % 11 == 0 <==> a == 0 || b == 0
  {
    if a < 0 { Positive(-a, b); assert a * b == -(-a * b); } else if a > 0 { Positive(a, b); }
  }

  lemma Positive(a: int, b: int)
    requires 1 <= a <= 9 && -10 <= b <= 10
    ensures a * b % 11 == 0 <==> b == 0
  {
    if a == 1 { } else if a == 2 { } else if a == 3 { } else if a == 4 { } else if a == 5 { }
    else if a == 6 { } else if a == 7 { } else if a == 8 { } else { assert a == 9; }
  }

  // ------------------------------------------------------------------
  // What the check digit detects
  // ------------------------------------------------------------------

  /** Replacing one character of an accepted number is noticed unless the value is the
      same; the check character itself has to be the very same. Characters after the
      seventeenth are not looked at. */
  lemma Substitution(v: string, p: nat, c: char)
    requires Accepts(v) && p < |v|
    ensures p == CHECK ==> (Accepts(v[p := c]) <==> c == v[p])
    ensures p != CHECK && p < 17 ==> (Accepts(v[p := c]) <==> Value(c) == Value(v[p]))
    ensures p >= 17 ==> Accepts(v[p := c])
  {
    if p < 17 && p != CHECK { SubstitutionInBody(v, p, c); } else { TotalUpdate(v, p, c); }
  }

  lemma SubstitutionInBody(v: string, p: nat, c: char)
    requires Accepts(v) && p < |v| && p < 17 && p != CHECK
    ensures Accepts(v[p := c]) <==> Value(c) == Value(v[p])
  {
    ValueRange(c);
    ValueRange(v[p]);
    TotalUpdate(v, p, c);
    NoCancel(Total(v), Value(c) - Value(v[p]), WEIGHTS[p]);
    SameRemainder(Total(v), Total(v[p := c]));
  }

  lemma SameRemainder(t: int, u: int)
    ensures Expected(t % 11) == Expected(u % 11) <==> t % 11 == u % 11
  {
  }

  function Swap(v: string, p: nat, q: nat): string
    requires p < |v| && q < |v|
  {
    v[p := v[q]][q := v[p]]
  }

  lemma SwapTotal(v: string, p: nat, q: nat)
    requires p < |v| && q < |v| && p < 17 && q < 17 && p != q
    ensures Total(Swap(v, p, q)) == Total(v) + (Value(v[q]) - Value(v[p])) * (WEIGHTS[p] - WEIGHTS[q])
  {
    SumSwap(Term, v, p, q);
    Exchanged(Value(v[p]), Value(v[q]), WEIGHTS[p], WEIGHTS[q]);
  }

  /** Exchanging two characters other than the check character goes unnoticed exactly
      when their positions weigh the same or their values are the same. */
  lemma Exchange(v: string, p: nat, q: nat)
    requires Accepts(v) && p < q < |v| && q < 17 && p != CHECK && q != CHECK
    ensures Accepts(Swap(v, p, q)) <==> WEIGHTS[p] == WEIGHTS[q] || Value(v[p]) == Value(v[q])
  {
    SwapTotal(v, p, q);
    ValueRange(v[p]);
    ValueRange(v[q]);
    NoCancel(Total(v), Value(v[q]) - Value(v[p]), WEIGHTS[p] - WEIGHTS[q]);
    SameRemainder(Total(v), Total(Swap(v, p, q)));
  }

  ghost predicate OnlyAccepted(v: string, c: char)
    requires |v| > CHECK
  {
    forall x: char :: AcceptsWith(v, x) <==> x == c
  }

  predicate AcceptsWith(v: string, x: char)
    requires |v| > CHECK
  {
    Accepts(v[CHECK := x])
  }

  /** Every body has exactly one check character, whatever stood there before. */
  lemma OneCheckCharacter(v: string)
    requires |v| > CHECK
    ensures exists c: char :: OnlyAccepted(v, c)
  {
    var c := Expected(Total(v) % 11);
    forall x: char ensures AcceptsWith(v, x) <==> x == c { TotalUpdate(v, CHECK, x); }
    assert OnlyAccepted(v, c);
  }

  predicate IsDigit(c: char) { '0' <= c <= '9' }

  /** What a check character says the sum leaves. */
  predicate IsCheck(c: char) { IsDigit(c) || c == 'X' }

  function CheckValue(c: char): int { if c == 'X' then 10 else Value(c) }

  /** The digit that, weighing w, can stand in for a check character X. */
  function XPartner(w: int): char {
    match w
    case 2 => '8' case 3 => '5' case 4 => '1' case 5 => '2' case 6 => '9' case 7 => '6' case 8 => '0' case 9 => '4'
    case _ => 'X'
  }

  /** Characters that may be exchanged unnoticed, one of them the check character and
      the other of weight w: equal ones, two digits if w is ten, and X with the one
      digit that goes with w. */
  predicate Interchangeable(w: int, a: char, b: char) {
    || a == b
    || (IsDigit(a) && IsDigit(b) && w == 10)
    || (a == 'X' && b == XPartner(w))
    || (b == 'X' && a == XPartner(w))
  }

  /** Exchanging the check character with any other one. */
  lemma CheckDigitExchange(v: string, p: nat)
    requires Accepts(v) && p < |v| && p < 17 && p != CHECK
    ensures Accepts(Swap(v, p, CHECK)) <==> Interchangeable(WEIGHTS[p], v[p], v[CHECK])
  {
    SwapTotal(v, p, CHECK);
    ExpectedIs(v[CHECK], Total(v) % 11);
    ExpectedIs(v[p], Total(Swap(v, p, CHECK)) % 11);
    if IsCheck(v[p]) {
      CheckArithmetic(Total(v), v[p], v[CHECK], WEIGHTS[p]);
    }
  }

  lemma ExpectedIs(c: char, remainder: int)
    requires 0 <= remainder < 11
    ensures c == Expected(remainder) <==> IsCheck(c) && CheckValue(c) == remainder
  {
  }

  lemma CheckArithmetic(t: int, a: char, b: char, w: int)
    requires IsCheck(a) && IsCheck(b) && t % 11 == CheckValue(b) && 2 <= w <= 10
    ensures (t + (Value(b) - Value(a)) * (w - 0)) % 11 == CheckValue(a) <==> Interchangeable(w, a, b)
  {
    if IsDigit(a) && IsDigit(b) {
      DigitsInterchange(t, Value(a), Value(b), w);
    } else if a == 'X' && b == 'X' {
    } else if a == 'X' {
      XForDigit(t, Value(b), w);
    } else {
      DigitForX(t, Value(a), w);
    }
  }

  lemma DigitsInterchange(t: int, a: int, b: int, w: int)
    requires 0 <= a <= 9 && 0 <= b <= 9 && t % 11 == b && 2 <= w <= 10
    ensures (t + (b - a) * w) % 11 == a <==> w == 10 || a == b
  {
    Regroup(t, a, b, w);
    if w == 10 { Eleven(t, b - a); } else { NoCancel(t, b - a, w + 1); }
  }

  lemma Eleven(t: int, d: int)
    ensures (t + d * 11) % 11 == t % 11
  {
  }

  lemma Regroup(t: int, a: int, b: int, w: int)
    requires 0 <= a < 11 && t % 11 == b
    ensures (t + (b - a) * w) % 11 == a <==> (t + (b - a) * (w + 1)) % 11 == t % 11
  {
    var m := (b - a) * w;
    assert (b - a) * (w + 1) == m + b - a;
  }

  /** The value of a digit d and of the X that replaces it or that it replaces. */
  lemma XForDigit(t: int, d: int, w: int)
    requires 0 <= d <= 9 && t % 11 == d && 2 <= w <= 10
    ensures (t + (d - 7) * w) % 11 == 10 <==> d == Value(XPartner(w)) && w != 10
  {
    Remainder(t, (d - 7) * w, d);
    XTable(d, w);
  }

  lemma DigitForX(t: int, d: int, w: int)
    requires 0 <= d <= 9 && t % 11 == 10 && 2 <= w <= 10
    ensures (t + (7 - d) * w) % 11 == d <==> d == Value(XPartner(w)) && w != 10
  {
    assert (7 - d) * w == -((d - 7) * w);
    Remainder(t, (7 - d) * w, 10);
    XTable(d, w);
  }

  lemma Remainder(t: int, m: int, r: int)
    requires t % 11 == r
    ensures (t + m) % 11 == (r + m) % 11
  {
  }

  lemma XTable(d: int, w: int)
    requires 0 <= d <= 9 && 2 <= w <= 10
    ensures (d + (d - 7) * w) % 11 == 10 <==> d == Value(XPartner(w)) && w != 10
    ensures (10 - (d - 7) * w) % 11 == d <==> d == Value(XPartner(w)) && w != 10
  {
    if w == 2 { } else if w == 3 { } else if w == 4 { } else if w == 5 { } else if w == 6 { }
    else if w == 7 { } else if w == 8 { } else if w == 9 { } else { assert w == 10; }
  }

  /** Exchanging neighbours anywhere: unnoticed are equal values in the body, any two
      digits in the eighth and ninth positions, and X with 4 in the ninth and tenth. */
  lemma AdjacentExchange(v: string, p: nat)
    requires Accepts(v) && p + 1 < |v| && p + 1 < 17
    ensures Accepts(Swap(v, p, p + 1)) <==>
            if p == 7 then v[p] == v[p + 1] || (IsDigit(v[p]) && IsDigit(v[p + 1]))
            else if p == CHECK then v[p] == v[p + 1] || (v[p] == 'X' && v[p + 1] == '4') || (v[p] == '4' && v[p + 1] == 'X')
            else Value(v[p]) == Value(v[p + 1])
  {
    if p == 7 {
      CheckDigitExchange(v, p);
    } else if p == CHECK {
      CheckDigitExchange(v, p + 1);
      assert Swap(v, p, p + 1) == Swap(v, p + 1, p);
    } else {
      Exchange(v, p, p + 1);
      assert WEIGHTS[p] != WEIGHTS[p + 1];
    }
  }

  lemma {:induction false} ZeroSum(v: string)
    requires forall i :: 0 <= i < |v| ==> v[i] == '0'
    ensures Total(v) == 0
  {
    if v != "" { ZeroSum(v[..|v| - 1]); }
  }

  /** Both are accepted though an X has changed places. */
  lemma XExchangeExample()
    ensures var v := "50000000X40000000"; WellFormed(v) && Accepts(v) && Accepts(Swap(v, 8, 9))
    ensures Swap("50000000X40000000", 8, 9) == "500000004X0000000"
  {
    var zeros := seq(17, _ => '0');
    ZeroSum(zeros);
    TotalUpdate(zeros, 0, '5');
    TotalUpdate(zeros[0 := '5'], 8, 'X');
    TotalUpdate(zeros[0 := '5'][8 := 'X'], 9, '4');
    var v := "50000000X40000000";
    assert v == zeros[0 := '5'][8 := 'X'][9 := '4'];
    assert Total(v) == 76;
    AdjacentExchange(v, 8);
  }

  /** Equal, or a small letter and its capital. */
  predicate SameLetter(c: char, d: char) {
    || c == d
    || ('a' <= c <= 'z' && d as int == c as int - 32)
    || ('a' <= d <= 'z' && c as int == d as int - 32)
  }

  /** Neither test tells small letters from capitals. */
  lemma CaseIsIgnored(v: string, w: string)
    requires |v| == |w| && forall i :: 0 <= i < |v| ==> SameLetter(v[i], w[i])
    ensures (ValidateVin(v) <==> ValidateVin(w)) && (CheckDigitValid(v) <==> CheckDigitValid(w))
  {
    forall i | 0 <= i < |v| ensures UpperChar(v[i]) == UpperChar(w[i]) { assert SameLetter(v[i], w[i]); }
    assert Upper(v) == Upper(w);
    if |v| == 18 {
      assert SameLetter(v[17], w[17]);
      assert Upper(v[..17]) == Upper(w[..17]);
    }
  }

  /** The format test passes seventeen characters of the alphabet, small or capital, with
      at most a newline after them. */
  lemma FormatIs(v: string)
    ensures ValidateVin(v) <==>
              && (|v| == 17 || (|v| == 18 && v[17] == '\n'))
              && forall i :: 0 <= i < 17 ==> InAlphabet(v[i]) || ('a' <= v[i] <= 'z' && InAlphabet((v[i] as int - 32) as char))
  {
    forall c: char ensures InAlphabet(UpperChar(c)) <==> InAlphabet(c) || ('a' <= c <= 'z' && InAlphabet((c as int - 32) as char)) {}
    if |v| == 18 { assert forall i :: 0 <= i < 17 ==> v[..17][i] == v[i]; }
  }

  /** A newline after a well-formed number passes the format test and does not reach
      the check digit. */
  lemma TrailingNewline(v: string)
    requires WellFormed(Upper(v))
    ensures ValidateVin(v + "\n") && (CheckDigitValid(v + "\n") <==> CheckDigitValid(v))
  {
    var w := Upper(v + "\n");
    assert (v + "\n")[..17] == v;
    assert w[..17] == Upper(v);
    assert Total(w) == Total(w[..17]);
  }
}

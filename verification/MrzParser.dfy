/** Parsing the three lines of the zone by position, against printing them in the
    documented layout. The regular-expression search for fields outside the zone is a
    parameter. */
module MrzParser {
  import opened Wrappers
  import opened MrzText
  import Vin

  datatype Fields = Fields(
    vin: Option<string>,
    reg: Option<string>,
    last: Option<string>,
    first: Option<string>,
    middle: Option<string>,
    egn: Option<string>
  )

  predicate IsLetter(c: char) { 'A' <= c <= 'Z' }

  predicate IsDigit(c: char) { '0' <= c <= '9' }

  predicate AllLetters(s: string) { forall i :: 0 <= i < |s| ==> IsLetter(s[i]) }

  predicate AllDigits(s: string) { forall i :: 0 <= i < |s| ==> IsDigit(s[i]) }

  // ------------------------------------------------------------------
  // Registration plate
  // ------------------------------------------------------------------

  /** The plate a field starts with: one or two letters, four digits, then as many of
      two letters as there are. */
  function MatchReg(field: string): Option<string> {
    var p := if |field| >= 2 && IsLetter(field[1]) then 2 else 1;
    if |field| >= p + 5 && AllLetters(field[..p]) && AllDigits(field[p..p + 4]) && IsLetter(field[p + 4])
    then Some(field[..if |field| > p + 5 && IsLetter(field[p + 5]) then p + 6 else p + 5])
    else None
  }

  function FieldLength(s: string): (n: nat)
    ensures n <= |s| && (forall i :: 0 <= i < n ==> s[i] != '<') && (n < |s| ==> s[n] == '<')
  {
    if s == "" || s[0] == '<' then 0 else 1 + FieldLength(s[1..])
  }

  /** The first field, between fillers, that starts like a plate. */
  function FindRegInMrz1(line: string): Option<string>
    decreases |line|
  {
    var n := FieldLength(line);
    match MatchReg(Vin.Upper(line[..n]))
    case Some(plate) => Some(plate)
    case None => if n == |line| then None else FindRegInMrz1(line[n + 1..])
  }

  /** The characters from i to i + n are one field. */
  predicate FieldAt(line: string, i: nat, n: nat) {
    && i + n <= |line| && (i == 0 || line[i - 1] == '<') && (i + n == |line| || line[i + n] == '<')
    && forall k :: i <= k < i + n ==> line[k] != '<'
  }

  function PlateAt(line: string, i: nat, n: nat): Option<string>
    requires i + n <= |line|
  {
    MatchReg(Vin.Upper(line[i..i + n]))
  }

  ghost predicate NoPlateBefore(line: string, i: nat) {
    forall p: nat, n: nat :: p < i && FieldAt(line, p, n) ==> PlateAt(line, p, n) == None
  }

  /** The plate is that of the first field that starts like one; there is none exactly
      when no field does. */
  lemma {:induction false} FirstPlate(line: string)
    ensures FindRegInMrz1(line).Some? ==>
              exists i: nat, n: nat :: FieldAt(line, i, n) && NoPlateBefore(line, i) && PlateAt(line, i, n) == FindRegInMrz1(line)
    ensures FindRegInMrz1(line) == None ==> NoPlateBefore(line, |line| + 1)
    decreases |line|
  {
    var n := FieldLength(line);
    assert FieldAt(line, 0, n) && line[0..0 + n] == line[..n];
    if PlateAt(line, 0, n).Some? {
      assert NoPlateBefore(line, 0);
    } else if n == |line| {
      forall p: nat, m: nat | p < |line| + 1 && FieldAt(line, p, m) ensures p == 0 && m == n { FirstField(line, p, m); }
    } else {
      FirstPlate(line[n + 1..]);
      LaterPlate(line, n);
    }
  }

  lemma FirstField(line: string, p: nat, m: nat)
    requires FieldAt(line, p, m)
    ensures p == 0 ==> m == FieldLength(line)
    ensures p == 0 || p > FieldLength(line)
  {
    var n := FieldLength(line);
    assert n < |line| ==> line[n] == '<';
  }

  lemma FieldLater(line: string, n: nat, p: nat, m: nat)
    requires n < |line| && line[n] == '<'
    ensures FieldAt(line, n + 1 + p, m) <==> FieldAt(line[n + 1..], p, m)
    ensures FieldAt(line[n + 1..], p, m) ==> PlateAt(line, n + 1 + p, m) == PlateAt(line[n + 1..], p, m)
  {
    var rest := line[n + 1..];
    if p + m <= |rest| { assert rest[p..p + m] == line[n + 1 + p..n + 1 + p + m]; }
    if FieldAt(line, n + 1 + p, m) {
      forall k | p <= k < p + m ensures rest[k] != '<' { assert rest[k] == line[n + 1 + k]; }
    }
    if FieldAt(rest, p, m) {
      forall k | n + 1 + p <= k < n + 1 + p + m ensures line[k] != '<' { assert line[k] == rest[k - n - 1]; }
    }
  }

  lemma NoPlateThere(line: string, rest: string, n: nat, i: nat, q: nat, m: nat)
    requires n < |line| && line[n] == '<' && rest == line[n + 1..] && NoPlateBefore(rest, i)
    requires q < i && FieldAt(line, n + 1 + q, m)
    ensures PlateAt(line, n + 1 + q, m) == None
  {
    FieldLater(line, n, q, m);
    assert FieldAt(rest, q, m);
  }

  lemma NoPlateAt(line: string, rest: string, n: nat, i: nat, p: nat, m: nat)
    requires n < |line| && line[n] == '<' && rest == line[n + 1..] && NoPlateBefore(rest, i) && PlateAt(line, 0, n) == None
    requires (p == 0 && m == n) || n < p < n + 1 + i
    requires FieldAt(line, p, m)
    ensures PlateAt(line, p, m) == None
  {
    if p != 0 {
      var q: nat := p - n - 1;
      assert p == n + 1 + q;
      NoPlateThere(line, rest, n, i, q, m);
    }
  }

  lemma NoPlateLater(line: string, n: nat, i: nat)
    requires n == FieldLength(line) < |line| && PlateAt(line, 0, n) == None && NoPlateBefore(line[n + 1..], i)
    ensures NoPlateBefore(line, n + 1 + i)
  {
    var rest := line[n + 1..];
    assert line[n] == '<';
    forall p: nat, m: nat | p < n + 1 + i && FieldAt(line, p, m) ensures PlateAt(line, p, m) == None {
      FirstField(line, p, m);
      NoPlateAt(line, rest, n, i, p, m);
    }
  }

  lemma LaterPlate(line: string, n: nat)
    requires n == FieldLength(line) < |line| && PlateAt(line, 0, n) == None
    requires var rest := line[n + 1..];
             FindRegInMrz1(rest).Some? ==>
               exists i: nat, m: nat :: FieldAt(rest, i, m) && NoPlateBefore(rest, i) && PlateAt(rest, i, m) == FindRegInMrz1(rest)
    requires FindRegInMrz1(line[n + 1..]) == None ==> NoPlateBefore(line[n + 1..], |line[n + 1..]| + 1)
    ensures FindRegInMrz1(line).Some? ==>
              exists i: nat, m: nat :: FieldAt(line, i, m) && NoPlateBefore(line, i) && PlateAt(line, i, m) == FindRegInMrz1(line)
    ensures FindRegInMrz1(line) == None ==> NoPlateBefore(line, |line| + 1)
  {
    var rest := line[n + 1..];
    assert line[0..0 + n] == line[..n];
    if FindRegInMrz1(rest).Some? {
      var i: nat, m: nat :| FieldAt(rest, i, m) && NoPlateBefore(rest, i) && PlateAt(rest, i, m) == FindRegInMrz1(rest);
      FieldLater(line, n, i, m);
      NoPlateLater(line, n, i);
    } else {
      NoPlateLater(line, n, |rest| + 1);
    }
  }

  /** One or two letters, four digits, one or two letters. */
  predicate IsPlate(plate: string) {
    var p := if |plate| >= 2 && IsLetter(plate[1]) then 2 else 1;
    && p + 5 <= |plate| <= p + 6
    && AllLetters(plate[..p]) && AllDigits(plate[p..p + 4]) && AllLetters(plate[p + 4..])
  }

  /** p letters, four digits and e letters. */
  ghost predicate Shape(s: string, p: nat, e: nat) {
    && p in {1, 2} && e in {1, 2} && |s| == p + 4 + e
    && (forall i :: 0 <= i < p || p + 4 <= i < |s| ==> 'A' <= s[i] <= 'Z')
    && (forall i :: p <= i < p + 4 ==> '0' <= s[i] <= '9')
  }

  lemma PlatesAre(plate: string)
    ensures IsPlate(plate) <==> exists p: nat, e: nat :: Shape(plate, p, e)
  {
    if IsPlate(plate) { PlateShape(plate); }
    forall p: nat, e: nat | Shape(plate, p, e) ensures IsPlate(plate) { ShapedPlate(plate, p, e); }
  }

  lemma PlateShape(plate: string)
    requires IsPlate(plate)
    ensures exists p: nat, e: nat :: Shape(plate, p, e)
  {
    var p := if |plate| >= 2 && IsLetter(plate[1]) then 2 else 1;
    forall i | 0 <= i < p ensures 'A' <= plate[i] <= 'Z' { assert plate[..p][i] == plate[i]; }
    forall i | p + 4 <= i < |plate| ensures 'A' <= plate[i] <= 'Z' { assert plate[p + 4..][i - p - 4] == plate[i]; }
    forall i | p <= i < p + 4 ensures '0' <= plate[i] <= '9' { assert plate[p..p + 4][i - p] == plate[i]; }
    assert Shape(plate, p, |plate| - p - 4);
  }

  lemma ShapedPlate(plate: string, p: nat, e: nat)
    requires Shape(plate, p, e)
    ensures IsPlate(plate)
  {
    assert IsLetter(plate[1]) <==> p == 2;
    forall i | 0 <= i < p ensures IsLetter(plate[..p][i]) { assert plate[..p][i] == plate[i]; }
    var digits, letters := plate[p..p + 4], plate[p + 4..];
    forall i | 0 <= i < e ensures IsLetter(letters[i]) { assert letters[i] == plate[p + 4 + i]; }
    forall i | 0 <= i < 4 ensures IsDigit(digits[i]) { assert digits[i] == plate[p + i]; }
  }

  /** What is matched is the longest beginning of the field in the shape of a plate, and
      nothing is exactly when none has it. */
  lemma MatchRegIs(field: string)
    ensures MatchReg(field).Some? ==>
              MatchReg(field).value <= field && exists p: nat, e: nat :: Shape(MatchReg(field).value, p, e)
    ensures forall n: nat, p: nat, e: nat :: n <= |field| && Shape(field[..n], p, e) ==>
              MatchReg(field).Some? && n <= |MatchReg(field).value|
  {
    if MatchReg(field).Some? { MatchedShape(field); }
    forall n: nat, p: nat, e: nat | n <= |field| && Shape(field[..n], p, e)
      ensures MatchReg(field).Some? && n <= |MatchReg(field).value|
    {
      ShapeMatches(field, n, p, e);
    }
  }

  lemma MatchedShape(field: string)
    requires MatchReg(field).Some?
    ensures MatchReg(field).value <= field && exists p: nat, e: nat :: Shape(MatchReg(field).value, p, e)
  {
    var p := if |field| >= 2 && IsLetter(field[1]) then 2 else 1;
    var plate := MatchReg(field).value;
    var e := |plate| - p - 4;
    assert plate == field[..p + 4 + e];
    var letters, digits := field[..p], field[p..p + 4];
    assert AllLetters(letters) && AllDigits(digits) && IsLetter(field[p + 4]);
    forall i | 0 <= i < p ensures 'A' <= plate[i] <= 'Z' { assert letters[i] == plate[i]; }
    forall i | p + 4 <= i < |plate| ensures 'A' <= plate[i] <= 'Z' { assert i == p + 4 || i == p + 5; }
    forall i | p <= i < p + 4 ensures '0' <= plate[i] <= '9' { assert digits[i - p] == plate[i]; }
    assert Shape(plate, p, e);
  }

  lemma ShapeMatches(field: string, n: nat, p: nat, e: nat)
    requires n <= |field| && Shape(field[..n], p, e)
    ensures MatchReg(field).Some? && n <= |MatchReg(field).value|
  {
    var s := field[..n];
    assert forall i :: 0 <= i < n ==> s[i] == field[i];
    forall i | 0 <= i < p ensures IsLetter(field[..p][i]) { assert s[i] == field[i]; }
    var digits := field[p..p + 4];
    forall i | 0 <= i < 4 ensures IsDigit(digits[i]) { assert s[p + i] == field[p + i]; }
    assert s[1] == field[1] && s[p] == field[p] && s[p + 4] == field[p + 4];
    if e == 2 { assert s[p + 5] == field[p + 5]; }
  }

  /** The character after the plate is no letter, so the plate is matched whole. */
  lemma MatchRegOfPlate(plate: string, check: char)
    requires IsPlate(plate) && IsDigit(check)
    ensures MatchReg(plate + [check]) == Some(plate)
  {
    var field := plate + [check];
    var p := if |plate| >= 2 && IsLetter(plate[1]) then 2 else 1;
    assert field[..p] == plate[..p] && field[p..p + 4] == plate[p..p + 4];
    assert field[p + 4] == plate[p + 4] == plate[p + 4..][0];
    if |plate| == p + 6 {
      assert field[p + 5] == plate[p + 4..][1] && field[..p + 6] == plate;
    } else {
      assert field[..p + 5] == plate;
    }
  }

  lemma FieldLengthIs(field: string, rest: string)
    requires '<' !in field
    ensures FieldLength(field + "<" + rest) == |field|
    ensures (field + "<" + rest)[..|field|] == field && (field + "<" + rest)[|field| + 1..] == rest
  {
    var s := field + "<" + rest;
    var n := FieldLength(s);
    assert forall i :: 0 <= i < |field| ==> s[i] == field[i];
    assert s[|field|] == '<';
  }

  predicate Word(s: string) { forall i :: 0 <= i < |s| ==> IsLetter(s[i]) || IsDigit(s[i]) }

  /** A field that starts like no plate is passed over. */
  lemma FindRegField(field: string, rest: string)
    requires Word(field)
    ensures FindRegInMrz1(field + "<" + rest) == if MatchReg(field).Some? then MatchReg(field) else FindRegInMrz1(rest)
  {
    FieldLengthIs(field, rest);
    assert Vin.Upper(field) == field;
  }

  // ------------------------------------------------------------------
  // Names
  // ------------------------------------------------------------------

  function StripFillers(s: string): string { if s != "" && s[|s| - 1] == '<' then StripFillers(s[..|s| - 1]) else s }

  /** Where the first double filler is. */
  function PartLength(s: string): (n: nat)
    ensures n <= |s| && (n < |s| ==> n + 1 < |s| && s[n] == '<' && s[n + 1] == '<')
  {
    if |s| < 2 then |s| else if s[0] == '<' && s[1] == '<' then 0 else 1 + PartLength(s[1..])
  }

  function Blanks(s: string): (t: string)
    ensures |t| == |s| && forall i :: 0 <= i < |s| ==> t[i] == if s[i] == '<' then ' ' else s[i]
  {
    seq(|s|, i requires 0 <= i < |s| => if s[i] == '<' then ' ' else s[i])
  }

  function OrNone(s: string): Option<string> { if s == "" then None else Some(s) }

  /** First and middle name: the first two fields. */
  function ParseGiven(given: string): (Option<string>, Option<string>) {
    var k := FieldLength(given);
    var first := OrNone(Strip(given[..k]));
    if k == |given| then (first, None)
    else
      var rest := given[k + 1..];
      (first, OrNone(Strip(rest[..FieldLength(rest)])))
  }

  /** Last, first and middle name. */
  function ParseMrzName(line: string): (Option<string>, Option<string>, Option<string>) {
    var s := StripFillers(line);
    var n := PartLength(s);
    var last := OrNone(Strip(Blanks(s[..n])));
    if n == |s| then (last, None, None)
    else
      var given := s[n + 2..];
      var names := ParseGiven(given[..PartLength(given)]);
      (last, names.0, names.1)
  }

  /** A name that is not there is none, not an empty one. */
  lemma NamesAreNotEmpty(line: string)
    ensures var (last, first, middle) := ParseMrzName(line); last != Some("") && first != Some("") && middle != Some("")
  {
  }

  // ------------------------------------------------------------------
  // The parser
  // ------------------------------------------------------------------

  function Latinised(s: string): (t: string)
    ensures |t| == |s|
  {
    seq(|s|, i requires 0 <= i < |s| => Latin(s[i]))
  }

  /** The first run of seventeen characters of the alphabet. */
  function SearchVin(text: string): Option<string> {
    if |text| < 17 then None
    else if Vin.WellFormed(text[..17]) then NormalizeVin(text[..17])
    else SearchVin(text[1..])
  }

  function FindVin(text: string): Option<string> { SearchVin(Vin.Upper(Latinised(text))) }

  function JoinLines(lines: seq<string>): string {
    if lines == [] then "" else if |lines| == 1 then lines[0] else JoinLines(lines[..|lines| - 1]) + "\n" + lines[|lines| - 1]
  }

  function ParseMrzPositional(findReg: string -> Option<string>, lines: seq<string>): Fields
    requires lines != []
  {
    var line2 := if |lines| >= 2 then lines[1] else "";
    var vin := if |line2| >= 17 then NormalizeVin(line2[..17]) else FindVin(line2);
    var egn := if |line2| >= 27 && AllDigits(line2[17..27]) then Some(line2[17..27]) else None;
    var names := if |lines| >= 3 then ParseMrzName(lines[2]) else (None, None, None);
    var reg := FindRegInMrz1(lines[0]);
    Fields(vin, if reg.Some? then reg else findReg(JoinLines(lines)), names.0, names.1, names.2, egn)
  }

  /** When no field of the first line starts like a plate, the whole zone is searched for
      one, its lines one below the other. */
  lemma WholeZoneIsSearched(findReg: string -> Option<string>, lines: seq<string>)
    requires |lines| >= 2 && NoPlateBefore(lines[0], |lines[0]| + 1)
    ensures ParseMrzPositional(findReg, lines).reg == findReg(JoinLines(lines))
    ensures |lines| == 2 ==> JoinLines(lines) == lines[0] + "\n" + lines[1]
    ensures |lines| == 3 ==> JoinLines(lines) == lines[0] + "\n" + lines[1] + "\n" + lines[2]
  {
    FirstPlate(lines[0]);
    NoPlateFound(lines[0]);
    assert lines[..|lines| - 1][..1] == [lines[0]];
  }

  lemma NoPlateFound(line: string)
    requires NoPlateBefore(line, |line| + 1)
    ensures FindRegInMrz1(line) == None
  {
    FirstPlate(line);
  }

  /** How much of what matters was found, whichever parser found it. */
  function ConfidenceStep1(data: Fields): real {
    (if data.vin.Some? then 0.5 else 0.0) + (if data.reg.Some? then 0.3 else 0.0) + (if data.last.Some? then 0.2 else 0.0)
  }

  predicate SameFound(f: Fields, g: Fields) {
    (f.vin.Some? <==> g.vin.Some?) && (f.reg.Some? <==> g.reg.Some?) && (f.last.Some? <==> g.last.Some?)
  }

  predicate OnlyVin(f: Fields) { f.vin.Some? && f.reg.None? && f.last.None? }

  predicate AllButVin(f: Fields) { f.vin.None? && f.reg.Some? && f.last.Some? }

  /** The value tells which fields were found, except that a number alone counts as
      much as a plate and a name without a number. */
  lemma ConfidenceTells(f: Fields, g: Fields)
    ensures ConfidenceStep1(f) == ConfidenceStep1(g) <==>
              SameFound(f, g) || (OnlyVin(f) && AllButVin(g)) || (AllButVin(f) && OnlyVin(g))
    ensures ConfidenceStep1(f) == 1.0 <==> f.vin.Some? && f.reg.Some? && f.last.Some?
  {
  }

  /** Fewer than two recognised lines leave the text to the fallback. */
  method ParseStep1(findReg: string -> Option<string>, fallback: string -> Fields, text: string)
    returns (data: Fields, confidence: real)
    ensures var zone := Recognised(SplitLines(text));
            data == if |zone| >= 2 then ParseMrzPositional(findReg, zone) else fallback(text)
    ensures confidence == ConfidenceStep1(data)
  {
    var lines := DetectMrzLines(text);
    if |lines| >= 2 {
      data := ParseMrzPositional(findReg, lines);
    } else {
      data := fallback(text);
    }
    confidence := ConfidenceStep1(data);
  }

  ghost predicate WindowAt(text: string, i: nat) { i + 17 <= |text| && Vin.WellFormed(text[i..i + 17]) }

  /** The search returns the first seventeen characters in a row that are all of the
      alphabet, and nothing exactly when there are none. */
  lemma {:induction false} SearchIs(text: string)
    ensures SearchVin(text).Some? ==>
              exists i: nat :: WindowAt(text, i) && (forall j: nat :: j < i ==> !WindowAt(text, j)) && SearchVin(text) == Some(text[i..i + 17])
    ensures SearchVin(text) == None ==> forall i: nat :: !WindowAt(text, i)
  {
    if |text| >= 17 {
      assert text[0..0 + 17] == text[..17];
      if Vin.WellFormed(text[..17]) {
        WellFormedIsKept(text[..17]);
        assert WindowAt(text, 0);
      } else {
        SearchIs(text[1..]);
        forall i: nat ensures WindowAt(text[1..], i) <==> WindowAt(text, i + 1) {
          if i + 18 <= |text| { assert text[1..][i..i + 17] == text[i + 1..i + 18]; }
        }
        LaterWindow(text);
      }
    }
  }

  lemma LaterWindow(text: string)
    requires |text| >= 17 && !WindowAt(text, 0) && SearchVin(text) == SearchVin(text[1..])
    requires forall i: nat :: WindowAt(text[1..], i) <==> WindowAt(text, i + 1)
    requires var rest := text[1..];
             SearchVin(rest).Some? ==>
               exists i: nat :: WindowAt(rest, i) && (forall j: nat :: j < i ==> !WindowAt(rest, j)) && SearchVin(rest) == Some(rest[i..i + 17])
    requires SearchVin(text[1..]) == None ==> forall i: nat :: !WindowAt(text[1..], i)
    ensures SearchVin(text).Some? ==>
              exists i: nat :: WindowAt(text, i) && (forall j: nat :: j < i ==> !WindowAt(text, j)) && SearchVin(text) == Some(text[i..i + 17])
    ensures SearchVin(text) == None ==> forall i: nat :: !WindowAt(text, i)
  {
    var rest := text[1..];
    if SearchVin(rest).Some? {
      var i: nat :| WindowAt(rest, i) && (forall j: nat :: j < i ==> !WindowAt(rest, j)) && SearchVin(rest) == Some(rest[i..i + 17]);
      assert rest[i..i + 17] == text[i + 1..i + 1 + 17] && WindowAt(text, i + 1);
      forall j: nat | j < i + 1 ensures !WindowAt(text, j) { if j > 0 { assert !WindowAt(rest, j - 1); } }
    } else {
      forall i: nat ensures !WindowAt(text, i) { if i > 0 { assert !WindowAt(rest, i - 1); } }
    }
  }

  lemma WellFormedIsKept(v: string)
    requires Vin.WellFormed(v)
    ensures NormalizeVin(v) == Some(v)
  {
    SameIsMisread(v);
    NormalizeVinRecovers(v, v);
  }

  lemma {:induction false} SameIsMisread(v: string)
    requires forall i :: 0 <= i < |v| ==> Vin.InAlphabet(v[i])
    ensures MisreadOf(v, v)
  {
    if v != "" { SameIsMisread(v[1..]); }
  }

  /** From seventeen characters on, the second line gives its first seventeen, repaired,
      and from twenty-seven on the ten digits that follow, if they are digits. */
  lemma SecondLine(findReg: string -> Option<string>, lines: seq<string>)
    requires |lines| >= 2 && |lines[1]| >= 17
    ensures ParseMrzPositional(findReg, lines).vin == NormalizeVin(lines[1][..17])
    ensures var egn := ParseMrzPositional(findReg, lines).egn;
            if |lines[1]| >= 27 && forall i :: 17 <= i < 27 ==> '0' <= lines[1][i] <= '9' then egn == Some(lines[1][17..27])
            else egn == None
  {
    var line := lines[1];
    if |line| >= 27 {
      var digits := line[17..27];
      assert forall i :: 17 <= i < 27 ==> digits[i - 17] == line[i];
      assert forall i :: 0 <= i < 10 ==> digits[i] == line[17 + i];
    }
  }

  /** The search in a second line too short for a number never finds one. */
  lemma ShortLineHasNoVin(line: string)
    requires |line| < 17
    ensures FindVin(line) == None
  {
  }

  // ------------------------------------------------------------------
  // Printing
  // ------------------------------------------------------------------

  function Fillers(n: nat): (s: string)
    ensures |s| == n && forall i :: 0 <= i < n ==> s[i] == '<'
  {
    seq(n, _ => '<')
  }

  function Filled(s: string): (t: string)
    ensures |t| == |s| && forall i :: 0 <= i < |s| ==> t[i] == if s[i] == ' ' then '<' else s[i]
  {
    seq(|s|, i requires 0 <= i < |s| => if s[i] == ' ' then '<' else s[i])
  }

  function Line1(doc: string, plate: string, check1: char, check2: char): string {
    "M" + "<" + ("BGR" + "<" + (doc + "<" + ((plate + [check1]) + "<" + ([check2] + "<" + "<"))))
  }

  function Line2(vin: string, egn: string, rest: string): string { vin + egn + rest }

  function Given(first: string, middle: Option<string>): string { if middle.Some? then first + "<" + middle.value else first }

  function Line3(last: string, first: string, middle: Option<string>, fill: nat): string {
    Filled(last) + "<<" + Given(first, middle) + Fillers(fill)
  }

  /** Words of letters with single blanks between them. */
  predicate IsLastName(s: string) {
    && s != "" && IsLetter(s[0]) && IsLetter(s[|s| - 1])
    && (forall i :: 0 <= i < |s| ==> IsLetter(s[i]) || s[i] == ' ')
    && (forall i :: 0 <= i < |s| - 1 ==> s[i] != ' ' || s[i + 1] != ' ')
  }

  predicate IsGivenName(s: string) { s != "" && AllLetters(s) }

  predicate IsGiven(first: string, middle: Option<string>) { IsGivenName(first) && (middle.Some? ==> IsGivenName(middle.value)) }

  // --- line 1 ---

  lemma Line1Reads(doc: string, plate: string, check1: char, check2: char)
    requires Word(doc) && IsPlate(plate) && IsDigit(check1) && IsDigit(check2)
    ensures FindRegInMrz1(Line1(doc, plate, check1, check2)) == if MatchReg(doc).Some? then MatchReg(doc) else Some(plate)
  {
    var tail := [check2] + "<" + "<";
    var series := plate + [check1];
    MatchRegOfPlate(plate, check1);
    PlateIsWord(plate);
    FindRegField(series, tail);
    FindRegField(doc, series + "<" + tail);
    FindRegField("BGR", doc + "<" + (series + "<" + tail));
    FindRegField("M", "BGR" + "<" + (doc + "<" + (series + "<" + tail)));
  }

  /** The plate is read back exactly when the document number does not itself start
      like another plate. */
  lemma Line1ReadsBack(doc: string, plate: string, check1: char, check2: char)
    requires Word(doc) && IsPlate(plate) && IsDigit(check1) && IsDigit(check2)
    ensures FindRegInMrz1(Line1(doc, plate, check1, check2)) == Some(plate) <==> MatchReg(doc) in {None, Some(plate)}
  {
    Line1Reads(doc, plate, check1, check2);
  }

  lemma PlateIsWord(plate: string)
    requires IsPlate(plate)
    ensures Word(plate)
  {
    var p := if |plate| >= 2 && IsLetter(plate[1]) then 2 else 1;
    forall i | 0 <= i < |plate| ensures IsLetter(plate[i]) || IsDigit(plate[i]) {
      if i < p { assert plate[i] == plate[..p][i]; }
      else if i < p + 4 { assert plate[i] == plate[p..p + 4][i - p]; }
      else { assert plate[i] == plate[p + 4..][i - p - 4]; }
    }
  }

  // --- line 3 ---

  lemma {:induction false} StripFillersOf(s: string, n: nat)
    requires s != "" && s[|s| - 1] != '<'
    ensures StripFillers(s + Fillers(n)) == s
  {
    if n == 0 {
      assert s + Fillers(0) == s;
    } else {
      assert (s + Fillers(n))[..|s| + n - 1] == s + Fillers(n - 1);
      StripFillersOf(s, n - 1);
    }
  }

  /** No two fillers in a row. */
  predicate Single(s: string) { forall i :: 0 <= i < |s| - 1 ==> s[i] != '<' || s[i + 1] != '<' }

  lemma {:induction false} PartLengthIs(part: string, rest: string)
    requires part != "" && Single(part) && part[|part| - 1] != '<'
    ensures PartLength(part) == |part| && PartLength(part + "<<" + rest) == |part|
  {
    var s := part + "<<" + rest;
    if |part| == 1 {
      assert s[0] == part[0] && s[1..][0] == '<' && s[1..][1] == '<';
      assert PartLength(s[1..]) == 0;
    } else {
      assert s[0] == part[0] && s[1] == part[1] && part[0] == part[..][0];
      assert s[1..] == part[1..] + "<<" + rest;
      forall i | 0 <= i < |part[1..]| - 1 ensures part[1..][i] != '<' || part[1..][i + 1] != '<' {
        assert part[i + 1] != '<' || part[i + 2] != '<';
      }
      PartLengthIs(part[1..], rest);
    }
  }

  lemma FieldLengthWhole(s: string)
    requires '<' !in s
    ensures FieldLength(s) == |s|
  {
  }

  /** The names are read back, the last one with its inner blanks. */
  lemma Line3ReadsBack(last: string, first: string, middle: Option<string>, fill: nat)
    requires IsLastName(last) && IsGiven(first, middle)
    ensures ParseMrzName(Line3(last, first, middle, fill)) == (Some(last), Some(first), middle)
  {
    var given := Given(first, middle);
    var core := Filled(last) + "<<" + given;
    GivenShape(first, middle);
    StripFillersOf(core, fill);
    assert Line3(last, first, middle, fill) == core + Fillers(fill);
    CoreParts(last, given);
    assert given[..|given|] == given;
    GivenReadsBack(first, middle);
  }

  lemma CoreParts(last: string, given: string)
    requires IsLastName(last) && given != "" && Single(given) && given[|given| - 1] != '<'
    ensures var core := Filled(last) + "<<" + given;
            PartLength(core) == |last| && core[..|last|] == Filled(last) && core[|last| + 2..] == given
    ensures Strip(Blanks(Filled(last))) == last && PartLength(given) == |given|
  {
    LastNameFilled(last);
    PartLengthIs(Filled(last), given);
    Slices(Filled(last), given);
    PartLengthIs(given, "");
  }

  lemma LastNameFilled(last: string)
    requires IsLastName(last)
    ensures Single(Filled(last)) && Filled(last)[|last| - 1] != '<' && Strip(Blanks(Filled(last))) == last
  {
    assert Blanks(Filled(last)) == last;
    StripKeeps(last);
  }

  lemma Slices(part: string, rest: string)
    ensures (part + "<<" + rest)[..|part|] == part && (part + "<<" + rest)[|part| + 2..] == rest
  {
  }

  lemma GivenShape(first: string, middle: Option<string>)
    requires IsGiven(first, middle)
    ensures var given := Given(first, middle); given != "" && Single(given) && given[|given| - 1] != '<'
  {
  }

  lemma GivenReadsBack(first: string, middle: Option<string>)
    requires IsGiven(first, middle)
    ensures ParseGiven(Given(first, middle)) == (Some(first), middle)
  {
    StripKeeps(first);
    if middle.Some? {
      FieldLengthIs(first, middle.value);
      FieldLengthWhole(middle.value);
      StripKeeps(middle.value);
      assert middle.value[..|middle.value|] == middle.value;
    } else {
      FieldLengthWhole(first);
      assert first[..|first|] == first;
    }
  }

  // --- all three ---

  lemma ZoneLine(s: string)
    requires AllZone(s)
    ensures forall i :: 0 <= i < |s| ==> !IsBreak(s[i])
  {
  }

  lemma Line3IsZone(last: string, first: string, middle: Option<string>, fill: nat)
    requires IsLastName(last) && IsGiven(first, middle)
    ensures AllZone(Line3(last, first, middle, fill))
  {
    assert AllZone(Filled(last)) && AllZone(Given(first, middle)) && AllZone(Fillers(fill)) && AllZone("<<");
  }

  lemma Line1IsZone(doc: string, plate: string, check1: char, check2: char)
    requires Word(doc) && |doc| == 10 && IsPlate(plate) && IsDigit(check1) && IsDigit(check2)
    ensures Strict(Line1(doc, plate, check1, check2))
  {
    PlateIsWord(plate);
  }

  function Page(line1: string, line2: string, line3: string): string { line1 + "\n" + (line2 + "\n" + line3) }

  /** The lines of a page of the zone; a short third line is not recognised. */
  lemma PageLines(line1: string, line2: string, line3: string)
    requires Strict(line1) && Strict(line2) && AllZone(line3) && line3 != ""
    ensures Recognised(SplitLines(Page(line1, line2, line3))) == [line1, line2] + if |line3| >= 20 then [line3] else []
  {
    PageSplits(line1, line2, line3);
    StrictIsRecognised(line1);
    StrictIsRecognised(line2);
    if |line3| >= 20 { StrictIsRecognised(line3); } else { ShortIsNotRecognised(line3); }
    ThreeLines(line1, line2, line3);
  }

  lemma PageSplits(line1: string, line2: string, line3: string)
    requires AllZone(line1) && AllZone(line2) && AllZone(line3) && line3 != ""
    ensures SplitLines(Page(line1, line2, line3)) == [line1, line2, line3]
  {
    ZoneLine(line1);
    ZoneLine(line2);
    ZoneLine(line3);
    SplitLinesNext(line1, line2 + "\n" + line3);
    SplitLinesNext(line2, line3);
    assert SplitLines(line3) == [line3];
    assert line1 + "\n" + (line2 + "\n" + line3) == Page(line1, line2, line3);
  }

  lemma ThreeLines(a: string, b: string, c: string)
    requires Recognise(a) == Some(a) && Recognise(b) == Some(b)
    ensures Recognised([a, b, c]) == [a, b] + if Recognise(c).Some? then [Recognise(c).value] else []
  {
    var lines := [a, b, c];
    assert lines[..2] == [a, b] && [a, b][..1] == [a] && [a][..0] == [];
    assert Recognised([a]) == Recognised([]) + [a];
    assert Recognised([a, b]) == Recognised([a]) + [b];
  }

  lemma ShortIsNotRecognised(s: string)
    requires AllZone(s) && |s| < 20
    ensures Recognise(s) == None
  {
    StripKeeps(s);
    RemoveSpacesNone(s);
    assert Vin.Upper(s) == s;
  }

  // ------------------------------------------------------------------
  // Round trip
  // ------------------------------------------------------------------

  datatype Certificate = Certificate(
    doc: string,
    plate: string,
    check1: char,
    check2: char,
    vin: string,
    egn: string,
    last: string,
    first: string,
    middle: Option<string>
  )

  ghost predicate Printable(c: Certificate) {
    && Word(c.doc) && |c.doc| == 10 && IsPlate(c.plate) && IsDigit(c.check1) && IsDigit(c.check2)
    && Vin.WellFormed(c.vin) && |c.egn| == 10 && AllDigits(c.egn)
    && IsLastName(c.last) && IsGiven(c.first, c.middle)
  }

  /** What OCR sees where the vehicle number was printed. */
  ghost predicate ReadAs(vin: string, seen: string) { |seen| == 17 && AllZone(seen) && MisreadOf(vin, seen) }

  function Printed(c: Certificate, seen: string, rest: string, fill: nat): string {
    Page(Line1(c.doc, c.plate, c.check1, c.check2), Line2(seen, c.egn, rest), Line3(c.last, c.first, c.middle, fill))
  }

  lemma Line2ReadsBack(vin: string, seen: string, egn: string, rest: string)
    requires Vin.WellFormed(vin) && ReadAs(vin, seen) && |egn| == 10 && AllDigits(egn) && AllZone(rest)
    ensures var line := Line2(seen, egn, rest); Strict(line) && NormalizeVin(line[..17]) == Some(vin) && line[17..27] == egn
  {
    NormalizeVinRecovers(vin, seen);
    assert Line2(seen, egn, rest)[..17] == seen && Line2(seen, egn, rest)[17..27] == egn;
  }

  /** Printing a certificate, misreading zeros and ones of its number, and parsing the
      page gives the certificate back. The names are lost when their line is shorter
      than twenty characters. */
  lemma RoundTrip(findReg: string -> Option<string>, c: Certificate, seen: string, rest: string, fill: nat)
    requires Printable(c) && ReadAs(c.vin, seen) && AllZone(rest) && MatchReg(c.doc) in {None, Some(c.plate)}
    ensures var zone := Recognised(SplitLines(Printed(c, seen, rest, fill)));
            |zone| >= 2 && ParseMrzPositional(findReg, zone) ==
            if |Line3(c.last, c.first, c.middle, fill)| >= 20
            then Fields(Some(c.vin), Some(c.plate), Some(c.last), Some(c.first), c.middle, Some(c.egn))
            else Fields(Some(c.vin), Some(c.plate), None, None, None, Some(c.egn))
  {
    var line1, line2, line3 := Line1(c.doc, c.plate, c.check1, c.check2), Line2(seen, c.egn, rest), Line3(c.last, c.first, c.middle, fill);
    Line1IsZone(c.doc, c.plate, c.check1, c.check2);
    Line1ReadsBack(c.doc, c.plate, c.check1, c.check2);
    Line2ReadsBack(c.vin, seen, c.egn, rest);
    Line3IsZone(c.last, c.first, c.middle, fill);
    Line3ReadsBack(c.last, c.first, c.middle, fill);
    PageLines(line1, line2, line3);
    ParsedLines(findReg, line1, line2, line3);
  }

  lemma ParsedLines(findReg: string -> Option<string>, line1: string, line2: string, line3: string)
    requires FindRegInMrz1(line1).Some? && |line2| >= 27 && AllDigits(line2[17..27])
    ensures var (last, first, middle) := ParseMrzName(line3);
            ParseMrzPositional(findReg, [line1, line2, line3]) ==
            Fields(NormalizeVin(line2[..17]), FindRegInMrz1(line1), last, first, middle, Some(line2[17..27]))
    ensures ParseMrzPositional(findReg, [line1, line2]) ==
            Fields(NormalizeVin(line2[..17]), FindRegInMrz1(line1), None, None, None, Some(line2[17..27]))
  {
  }

  /** A document number that starts like a plate is taken for it. */
  lemma DocumentTakenForPlate(findReg: string -> Option<string>, c: Certificate, seen: string, rest: string, fill: nat)
    requires Printable(c) && ReadAs(c.vin, seen) && AllZone(rest) && MatchReg(c.doc) !in {None, Some(c.plate)}
    ensures var zone := Recognised(SplitLines(Printed(c, seen, rest, fill)));
            |zone| >= 2 && ParseMrzPositional(findReg, zone).reg == MatchReg(c.doc) != Some(c.plate)
  {
    var line1, line2, line3 := Line1(c.doc, c.plate, c.check1, c.check2), Line2(seen, c.egn, rest), Line3(c.last, c.first, c.middle, fill);
    Line1IsZone(c.doc, c.plate, c.check1, c.check2);
    Line1Reads(c.doc, c.plate, c.check1, c.check2);
    Line2ReadsBack(c.vin, seen, c.egn, rest);
    Line3IsZone(c.last, c.first, c.middle, fill);
    PageLines(line1, line2, line3);
    ParsedLines(findReg, line1, line2, line3);
  }
}

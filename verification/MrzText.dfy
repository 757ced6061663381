/** Reading the machine-readable zone of a registration certificate out of OCR text:
    repairing the vehicle number, and picking out the lines that belong to the zone.
    Upper-casing is that of ASCII. */
module MrzText {
  import opened Wrappers
  import Vin

  // ------------------------------------------------------------------
  // Repairing a vehicle number
  // ------------------------------------------------------------------

  /** Cyrillic letters that look like Latin ones. */
  function Latin(c: char): char {
    match c
    case '\U{0410}' => 'A' case '\U{0412}' => 'B' case '\U{0421}' => 'C' case '\U{0415}' => 'E'
    case '\U{041A}' => 'K' case '\U{041C}' => 'M' case '\U{041D}' => 'H' case '\U{041E}' => 'O'
    case '\U{0420}' => 'P' case '\U{0422}' => 'T' case '\U{0425}' => 'X'
    case '\U{0430}' => 'a' case '\U{0432}' => 'b' case '\U{0441}' => 'c' case '\U{0435}' => 'e'
    case '\U{043A}' => 'k' case '\U{043C}' => 'm' case '\U{043D}' => 'h' case '\U{043E}' => 'o'
    case '\U{0440}' => 'p' case '\U{0442}' => 't' case '\U{0445}' => 'x'
    case _ => c
  }

  function Repair(c: char): char {
    var u := Vin.UpperChar(Latin(c));
    if u == 'O' || u == 'Q' then '0' else if u == 'I' then '1' else u
  }

  /** The repaired characters that belong to the alphabet. */
  function Clean(raw: string): string {
    if raw == "" then ""
    else (if Vin.InAlphabet(Repair(raw[0])) then [Repair(raw[0])] else "") + Clean(raw[1..])
  }

  function NormalizeVin(raw: string): Option<string> {
    var cleaned := Clean(raw);
    if |cleaned| >= 17 && Vin.WellFormed(cleaned[..17]) then Some(cleaned[..17]) else None
  }

  lemma {:induction false} CleanIsInAlphabet(raw: string)
    ensures forall i :: 0 <= i < |Clean(raw)| ==> Vin.InAlphabet(Clean(raw)[i])
  {
    if raw != "" { CleanIsInAlphabet(raw[1..]); }
  }

  lemma {:induction false} CleanKeeps(s: string)
    requires forall i :: 0 <= i < |s| ==> Vin.InAlphabet(s[i])
    ensures Clean(s) == s
  {
    if s != "" {
      CleanKeeps(s[1..]);
      assert Repair(s[0]) == s[0];
      assert s == [s[0]] + s[1..];
    }
  }

  /** Whatever is returned is a well-formed number, normalising it again changes
      nothing, and a number is found exactly when seventeen characters survive. */
  lemma NormalizeVinIsStable(raw: string)
    ensures NormalizeVin(raw).Some? <==> |Clean(raw)| >= 17
    ensures NormalizeVin(raw).Some? ==> Vin.WellFormed(NormalizeVin(raw).value)
    ensures NormalizeVin(raw).Some? ==> NormalizeVin(NormalizeVin(raw).value) == NormalizeVin(raw)
  {
    CleanIsInAlphabet(raw);
    if |Clean(raw)| >= 17 {
      CleanKeeps(Clean(raw)[..17]);
      assert Clean(raw)[..17][..17] == Clean(raw)[..17];
    }
  }

  /** What OCR may print for a character: zero as O or Q, one as I, any letter small or
      as the Cyrillic letter of the same shape. */
  predicate Confusable(c: char, read: char) {
    var u := Vin.UpperChar(Latin(read));
    u == c || (c == '0' && (u == 'O' || u == 'Q')) || (c == '1' && u == 'I')
  }

  /** `raw` is a misreading of `v` with any other characters strewn in. */
  ghost predicate MisreadOf(v: string, raw: string) {
    if raw == "" then
      v == ""
    else
      || (!Vin.InAlphabet(Repair(raw[0])) && MisreadOf(v, raw[1..]))
      || (v != "" && Confusable(v[0], raw[0]) && MisreadOf(v[1..], raw[1..]))
  }

  lemma RepairConfusable(c: char, read: char)
    requires Vin.InAlphabet(c) && Confusable(c, read)
    ensures Repair(read) == c
  {
  }

  lemma {:induction false} CleanMisread(v: string, raw: string)
    requires (forall i :: 0 <= i < |v| ==> Vin.InAlphabet(v[i])) && MisreadOf(v, raw)
    ensures Clean(raw) == v
  {
    if raw != "" {
      if !Vin.InAlphabet(Repair(raw[0])) && MisreadOf(v, raw[1..]) {
        CleanMisread(v, raw[1..]);
      } else {
        RepairConfusable(v[0], raw[0]);
        CleanMisread(v[1..], raw[1..]);
        assert v == [v[0]] + v[1..];
      }
    }
  }

  /** Every misreading of a well-formed number is repaired. */
  lemma NormalizeVinRecovers(v: string, raw: string)
    requires Vin.WellFormed(v) && MisreadOf(v, raw)
    ensures NormalizeVin(raw) == Some(v)
  {
    CleanMisread(v, raw);
    assert v[..17] == v;
  }

  // ------------------------------------------------------------------
  // Recognising a line of the zone
  // ------------------------------------------------------------------

  /** Python's white space. */
  predicate IsSpace(c: char) {
    '\t' <= c <= '\r' || '\U{001C}' <= c <= ' ' || c == '\U{0085}' || c == '\U{00A0}' || c == '\U{1680}' || '\U{2000}' <= c <= '\U{200A}'
    || c == '\U{2028}' || c == '\U{2029}' || c == '\U{202F}' || c == '\U{205F}' || c == '\U{3000}'
  }

  lemma SpacesAre(c: char)
    ensures IsSpace(c) <==> c in {
              '\t', '\n', '\U{000B}', '\U{000C}', '\r', '\U{001C}', '\U{001D}', '\U{001E}', '\U{001F}', ' ',
              '\U{0085}', '\U{00A0}', '\U{1680}', '\U{2000}', '\U{2001}', '\U{2002}', '\U{2003}', '\U{2004}', '\U{2005}',
              '\U{2006}', '\U{2007}', '\U{2008}', '\U{2009}', '\U{200A}', '\U{2028}', '\U{2029}', '\U{202F}', '\U{205F}', '\U{3000}'}
  {
  }

  function StripLeft(s: string): string { if s != "" && IsSpace(s[0]) then StripLeft(s[1..]) else s }

  function StripRight(s: string): string { if s != "" && IsSpace(s[|s| - 1]) then StripRight(s[..|s| - 1]) else s }

  function Strip(s: string): string { StripRight(StripLeft(s)) }

  predicate AllSpace(s: string) { forall i :: 0 <= i < |s| ==> IsSpace(s[i]) }

  lemma {:induction false} LeftStripped(s: string) returns (n: nat)
    ensures n <= |s| && AllSpace(s[..n]) && StripLeft(s) == s[n..] && (n < |s| ==> !IsSpace(s[n]))
  {
    n := 0;
    if s != "" && IsSpace(s[0]) {
      var m := LeftStripped(s[1..]);
      n := m + 1;
      assert s[1..][m..] == s[n..] && s[..n] == [s[0]] + s[1..][..m];
    }
  }

  lemma {:induction false} RightStripped(s: string) returns (n: nat)
    ensures n <= |s| && AllSpace(s[n..]) && StripRight(s) == s[..n] && (n > 0 ==> !IsSpace(s[n - 1]))
  {
    n := |s|;
    if s != "" && IsSpace(s[|s| - 1]) {
      var init := s[..|s| - 1];
      n := RightStripped(init);
      assert init[..n] == s[..n] && s[n..] == init[n..] + [s[|s| - 1]];
    }
  }

  /** Stripping takes white space off both ends and leaves none there. */
  lemma Stripped(s: string) returns (a: string, b: string)
    ensures s == a + Strip(s) + b && AllSpace(a) && AllSpace(b)
    ensures Strip(s) != "" ==> !IsSpace(Strip(s)[0]) && !IsSpace(Strip(s)[|Strip(s)| - 1])
  {
    var n := LeftStripped(s);
    var m := RightStripped(StripLeft(s));
    a, b := s[..n], StripLeft(s)[m..];
    assert s == s[..n] + s[n..] && StripLeft(s) == StripLeft(s)[..m] + StripLeft(s)[m..];
  }

  function RemoveSpaces(s: string): string {
    if s == "" then "" else (if s[0] == ' ' then "" else [s[0]]) + RemoveSpaces(s[1..])
  }

  predicate ZoneChar(c: char) { 'A' <= c <= 'Z' || '0' <= c <= '9' || c == '<' }

  predicate AllZone(s: string) { forall i :: 0 <= i < |s| ==> ZoneChar(s[i]) }

  predicate Strict(s: string) { |s| >= 20 && AllZone(s) }

  predicate Substitute(c: char) { c == '-' || c == '.' || IsSpace(c) }

  predicate Loose(s: string) { |s| >= 20 && forall i :: 0 <= i < |s| ==> ZoneChar(s[i]) || Substitute(s[i]) }

  function Fix(s: string): (t: string)
    ensures |t| == |s| && forall i :: 0 <= i < |s| ==> t[i] == if Substitute(s[i]) then '<' else s[i]
  {
    seq(|s|, i requires 0 <= i < |s| => if Substitute(s[i]) then '<' else s[i])
  }

  /** The zone line a line of text stands for, if it does: as it is once spaces are
      removed, or else with dashes, dots and spaces read as fillers. */
  function Recognise(line: string): Option<string> {
    var loose := Vin.Upper(Strip(line));
    if Strict(RemoveSpaces(loose)) then Some(RemoveSpaces(loose))
    else if Loose(loose) && Strict(RemoveSpaces(Fix(loose))) then Some(RemoveSpaces(Fix(loose)))
    else None
  }

  function AsList(l: Option<string>): seq<string> { match l case Some(s) => [s] case None => [] }

  function Recognised(lines: seq<string>): seq<string> {
    if lines == [] then [] else Recognised(lines[..|lines| - 1]) + AsList(Recognise(lines[|lines| - 1]))
  }

  // --- spaces and fillers ---

  lemma {:induction false} RemoveSpacesNone(s: string)
    requires ' ' !in s
    ensures RemoveSpaces(s) == s
  {
    if s != "" {
      RemoveSpacesNone(s[1..]);
      assert s == [s[0]] + s[1..];
    }
  }

  lemma {:induction false} RemoveSpacesCut(a: string, b: string)
    ensures RemoveSpaces(a + b) == RemoveSpaces(a) + RemoveSpaces(b)
  {
    if a == "" {
      assert a + b == b;
    } else {
      assert (a + b)[1..] == a[1..] + b;
      RemoveSpacesCut(a[1..], b);
    }
  }

  /** Zone characters and blanks only: stripping takes blanks off the ends. */
  predicate Spaced(s: string) { forall i :: 0 <= i < |s| ==> ZoneChar(s[i]) || s[i] == ' ' }

  lemma {:induction false} StripLeftSpaced(s: string)
    requires Spaced(s)
    ensures Spaced(StripLeft(s)) && RemoveSpaces(StripLeft(s)) == RemoveSpaces(s)
  {
    if s != "" && IsSpace(s[0]) { StripLeftSpaced(s[1..]); }
  }

  lemma {:induction false} StripRightSpaced(s: string)
    requires Spaced(s)
    ensures Spaced(StripRight(s)) && RemoveSpaces(StripRight(s)) == RemoveSpaces(s)
  {
    if s != "" && IsSpace(s[|s| - 1]) {
      var n := |s| - 1;
      StripRightSpaced(s[..n]);
      RemoveSpacesCut(s[..n], s[n..]);
      assert s == s[..n] + s[n..];
      assert RemoveSpaces(s[n..]) == "" by { assert s[n..][1..] == ""; }
    }
  }

  lemma UpperOfZone(s: string)
    requires Spaced(s)
    ensures Vin.Upper(s) == s
  {
  }

  /** Blanks that OCR put anywhere into a line of the zone are undone. */
  lemma SpacesAreUndone(line: string, zone: string)
    requires Strict(zone) && Spaced(line) && RemoveSpaces(line) == zone
    ensures Recognise(line) == Some(zone)
  {
    StripLeftSpaced(line);
    StripRightSpaced(StripLeft(line));
    UpperOfZone(Strip(line));
  }

  lemma StrictIsRecognised(zone: string)
    requires Strict(zone)
    ensures Recognise(zone) == Some(zone)
  {
    RemoveSpacesNone(zone);
    SpacesAreUndone(zone, zone);
  }

  /** What is recognised is a line of the zone, and is recognised as itself. */
  lemma RecogniseIsStable(line: string)
    ensures Recognise(line).Some? ==> Strict(Recognise(line).value) && Recognise(Recognise(line).value) == Recognise(line)
  {
    if Recognise(line).Some? { StrictIsRecognised(Recognise(line).value); }
  }

  lemma StripKeeps(s: string)
    requires s != "" ==> !IsSpace(s[0]) && !IsSpace(s[|s| - 1])
    ensures Strip(s) == s
  {
  }

  ghost predicate FillersMisread(line: string, zone: string) {
    |line| == |zone| && forall i :: 0 <= i < |zone| ==> FillerMisread(line[i], zone[i])
  }

  predicate FillerMisread(read: char, c: char) { read == c || (c == '<' && (read == '-' || read == '.')) }

  lemma MisreadStays(line: string, zone: string)
    requires Strict(zone) && FillersMisread(line, zone)
    ensures Vin.Upper(Strip(line)) == line && RemoveSpaces(line) == line
  {
    assert forall i :: 0 <= i < |line| ==> FillerMisread(line[i], zone[i]) && !IsSpace(line[i]);
    StripKeeps(line);
    assert Vin.Upper(line) == line;
    RemoveSpacesNone(line);
  }

  lemma MisreadFixed(line: string, zone: string)
    requires Strict(zone) && FillersMisread(line, zone)
    ensures Loose(line) && Fix(line) == zone && (Strict(line) ==> line == zone)
  {
    forall i | 0 <= i < |zone|
      ensures Fix(line)[i] == zone[i] && if ZoneChar(line[i]) then line[i] == zone[i] else Substitute(line[i])
    {
      assert FillerMisread(line[i], zone[i]);
    }
  }

  /** Fillers misread as dashes or dots are undone in a line without blanks. */
  lemma FillersAreUndone(line: string, zone: string)
    requires Strict(zone) && FillersMisread(line, zone)
    ensures Recognise(line) == Some(zone)
  {
    MisreadStays(line, zone);
    MisreadFixed(line, zone);
    RemoveSpacesNone(zone);
  }

  // ------------------------------------------------------------------
  // Lines of a text
  // ------------------------------------------------------------------

  /** Python's line boundaries. */
  predicate IsBreak(c: char) {
    '\n' <= c <= '\r' || '\U{001C}' <= c <= '\U{001E}' || c == '\U{0085}' || c == '\U{2028}' || c == '\U{2029}'
  }

  lemma BreaksAre(c: char)
    ensures IsBreak(c) <==> c in {
              '\n', '\U{000B}', '\U{000C}', '\r', '\U{001C}', '\U{001D}', '\U{001E}', '\U{0085}', '\U{2028}', '\U{2029}'}
  {
  }

  function LineLength(s: string): (n: nat)
    ensures n <= |s| && (forall i :: 0 <= i < n ==> !IsBreak(s[i])) && (n < |s| ==> IsBreak(s[n]))
  {
    if s == "" || IsBreak(s[0]) then 0 else 1 + LineLength(s[1..])
  }

  /** `splitlines`: a carriage return and a line feed are one boundary. */
  function SplitLines(s: string): seq<string>
    decreases |s|
  {
    if s == "" then []
    else
      var n := LineLength(s);
      if n == |s| then [s]
      else [s[..n]] + SplitLines(if s[n] == '\r' && n + 1 < |s| && s[n + 1] == '\n' then s[n + 2..] else s[n + 1..])
  }

  lemma SplitLinesNext(line: string, rest: string)
    requires forall i :: 0 <= i < |line| ==> !IsBreak(line[i])
    ensures SplitLines(line + "\n" + rest) == [line] + SplitLines(rest)
  {
    var s := line + "\n" + rest;
    assert s[|line|] == '\n' && s[..|line|] == line && s[|line| + 1..] == rest;
    assert forall i :: 0 <= i < |line| ==> s[i] == line[i];
  }

  lemma LineLengthIs(line: string, rest: string)
    requires forall i :: 0 <= i < |line| ==> !IsBreak(line[i])
    requires rest == "" || IsBreak(rest[0])
    ensures LineLength(line + rest) == |line|
  {
    var s := line + rest;
    assert forall i :: 0 <= i < |line| ==> s[i] == line[i];
    if rest != "" { assert s[|line|] == rest[0]; }
  }

  /** A text without a line boundary is one line, or none if it is empty; and a line ends
      at one boundary character, or at a carriage return and a line feed together. */
  lemma LinesAre(line: string, rest: string, c: char)
    requires forall i :: 0 <= i < |line| ==> !IsBreak(line[i])
    ensures SplitLines(line) == if line == "" then [] else [line]
    ensures IsBreak(c) && !(c == '\r' && rest != "" && rest[0] == '\n') ==>
              SplitLines(line + ([c] + rest)) == [line] + SplitLines(rest)
    ensures SplitLines(line + (['\r', '\n'] + rest)) == [line] + SplitLines(rest)
  {
    LineLengthIs(line, "");
    assert line + "" == line;
    if IsBreak(c) && !(c == '\r' && rest != "" && rest[0] == '\n') { OneBreak(line, rest, c); }
    TwoBreaks(line, rest);
  }

  lemma OneBreak(line: string, rest: string, c: char)
    requires IsBreak(c) && !(c == '\r' && rest != "" && rest[0] == '\n')
    requires forall i :: 0 <= i < |line| ==> !IsBreak(line[i])
    ensures SplitLines(line + ([c] + rest)) == [line] + SplitLines(rest)
  {
    LineLengthIs(line, [c] + rest);
    var s, n := line + ([c] + rest), |line|;
    assert s[n] == c && s[..n] == line && s[n + 1..] == rest;
    if rest != "" { assert s[n + 1] == rest[0]; }
  }

  lemma TwoBreaks(line: string, rest: string)
    requires forall i :: 0 <= i < |line| ==> !IsBreak(line[i])
    ensures SplitLines(line + (['\r', '\n'] + rest)) == [line] + SplitLines(rest)
  {
    LineLengthIs(line, ['\r', '\n'] + rest);
    var s, n := line + (['\r', '\n'] + rest), |line|;
    assert s[n] == '\r' && s[n + 1] == '\n' && s[..n] == line && s[n + 2..] == rest;
  }

  /** The lines of the zone, in the order of the text. */
  method DetectMrzLines(text: string) returns (result: seq<string>)
    ensures result == Recognised(SplitLines(text))
  {
    result := [];
    var lines := SplitLines(text);
    for k := 0 to |lines|
      invariant result == Recognised(lines[..k])
    {
      assert lines[..k + 1][..k] == lines[..k];
      var stripped := Strip(lines[k]);
      var normalised := RemoveSpaces(Vin.Upper(stripped));
      if Strict(normalised) {
        result := result + [normalised];
        continue;
      }
      var loose := Vin.Upper(stripped);
      if Loose(loose) {
        var fixed := RemoveSpaces(Fix(loose));
        if Strict(fixed) {
          result := result + [fixed];
        }
      }
    }
    assert lines[..|lines|] == lines;
  }
}

/** The line handling of a scraper child process. Its output arrives in chunks on two
    streams; each stream keeps the text after its last newline in a buffer, and every
    finished line is handled as soon as it is known. `significant` says which lines
    are worth logging. */
module LineSplitter {
  import opened Wrappers

  // ------------------------------------------------------------------
  // Splitting
  // ------------------------------------------------------------------

  /** `split('\n')`: never empty; the last part is the unfinished line. */
  function Split(s: string): (parts: seq<string>)
    ensures |parts| > 0
  {
    if s == "" then [""]
    else
      var parts, c := Split(s[..|s| - 1]), s[|s| - 1];
      if c == '\n' then parts + [""] else parts[..|parts| - 1] + [parts[|parts| - 1] + [c]]
  }

  /** The finished lines of a text. */
  function Complete(s: string): seq<string> { Split(s)[..|Split(s)| - 1] }

  /** What follows its last newline. */
  function Tail(s: string): string { Split(s)[|Split(s)| - 1] }

  lemma SplitNext(s: string, c: char)
    ensures Complete(s + [c]) == Complete(s) + if c == '\n' then [Tail(s)] else []
    ensures Tail(s + [c]) == if c == '\n' then "" else Tail(s) + [c]
  {
    assert (s + [c])[..|s|] == s;
    assert Split(s) == Complete(s) + [Tail(s)];
  }

  /** Cutting a text anywhere: the finished lines of the first part stay, and the rest
      continues its unfinished line. */
  lemma {:induction false} SplitCut(a: string, b: string)
    ensures Complete(a + b) == Complete(a) + Complete(Tail(a) + b)
    ensures Tail(a + b) == Tail(Tail(a) + b)
  {
    if b == "" {
      assert a + b == a && Tail(a) + b == Tail(a);
      TailHasNoNewline(a);
      NoNewline(Tail(a));
    } else {
      var init, c := b[..|b| - 1], b[|b| - 1];
      SplitCut(a, init);
      assert a + b == (a + init) + [c] && Tail(a) + b == (Tail(a) + init) + [c];
      CutNext(a + init, Tail(a) + init, Complete(a), c);
    }
  }

  /** Two texts that split alike after some lines still do with one more character. */
  lemma CutNext(whole: string, part: string, lines: seq<string>, c: char)
    requires Complete(whole) == lines + Complete(part) && Tail(whole) == Tail(part)
    ensures Complete(whole + [c]) == lines + Complete(part + [c]) && Tail(whole + [c]) == Tail(part + [c])
  {
    SplitNext(whole, c);
    SplitNext(part, c);
    if c == '\n' { assert lines + Complete(part) + [Tail(part)] == lines + (Complete(part) + [Tail(part)]); }
  }

  lemma {:induction false} TailHasNoNewline(s: string)
    ensures '\n' !in Tail(s)
  {
    if s != "" {
      TailHasNoNewline(s[..|s| - 1]);
      assert s == s[..|s| - 1] + [s[|s| - 1]];
      SplitNext(s[..|s| - 1], s[|s| - 1]);
    }
  }

  lemma {:induction false} NoNewline(s: string)
    requires '\n' !in s
    ensures Complete(s) == [] && Tail(s) == s
  {
    if s != "" {
      NoNewline(s[..|s| - 1]);
      assert s == s[..|s| - 1] + [s[|s| - 1]];
      SplitNext(s[..|s| - 1], s[|s| - 1]);
    }
  }

  function Join(parts: seq<string>): string
    requires |parts| > 0
  {
    if |parts| == 1 then parts[0] else Join(parts[..|parts| - 1]) + "\n" + parts[|parts| - 1]
  }

  lemma JoinOneMore(parts: seq<string>, last: string)
    requires |parts| > 0
    ensures Join(parts + [last]) == Join(parts) + "\n" + last
  {
    assert (parts + [last])[..|parts|] == parts;
  }

  lemma JoinLonger(parts: seq<string>, last: string, c: char)
    requires |parts| > 0 && parts[|parts| - 1] == last
    ensures Join(parts[..|parts| - 1] + [last + [c]]) == Join(parts) + [c]
  {
    var init := parts[..|parts| - 1];
    assert parts == init + [last];
    if init != [] {
      JoinOneMore(init, last);
      JoinOneMore(init, last + [c]);
      assert Join(init) + "\n" + (last + [c]) == Join(init) + "\n" + last + [c];
    }
  }

  /** Joining the parts gives the text back, so no character is lost or moved. */
  lemma {:induction false} SplitJoins(s: string)
    ensures Join(Split(s)) == s && forall p :: p in Split(s) ==> '\n' !in p
  {
    if s != "" {
      var init, c := s[..|s| - 1], s[|s| - 1];
      SplitJoins(init);
      var parts := Split(init);
      assert s == init + [c];
      if c == '\n' { JoinOneMore(parts, ""); } else { JoinLonger(parts, parts[|parts| - 1], c); }
    }
  }

  // ------------------------------------------------------------------
  // One line
  // ------------------------------------------------------------------

  predicate IsSpace(c: char) {
    '\t' <= c <= '\r' || c == ' ' || c == '\U{00A0}' || c == '\U{1680}' || '\U{2000}' <= c <= '\U{200A}'
    || c == '\U{2028}' || c == '\U{2029}' || c == '\U{202F}' || c == '\U{205F}' || c == '\U{3000}' || c == '\U{FEFF}'
  }

  /** White space as the regular expressions of the language understand it. */
  lemma SpacesAre(c: char)
    ensures IsSpace(c) <==> c in {
              '\t', '\n', '\U{000B}', '\U{000C}', '\r', ' ', '\U{00A0}', '\U{1680}', '\U{2000}', '\U{2001}', '\U{2002}',
              '\U{2003}', '\U{2004}', '\U{2005}', '\U{2006}', '\U{2007}', '\U{2008}', '\U{2009}', '\U{200A}', '\U{2028}',
              '\U{2029}', '\U{202F}', '\U{205F}', '\U{3000}', '\U{FEFF}'}
  {
  }

  function TrimLeft(s: string): string { if s != "" && IsSpace(s[0]) then TrimLeft(s[1..]) else s }

  function TrimRight(s: string): string { if s != "" && IsSpace(s[|s| - 1]) then TrimRight(s[..|s| - 1]) else s }

  function Trim(s: string): string { TrimRight(TrimLeft(s)) }

  predicate AllSpace(s: string) { forall i :: 0 <= i < |s| ==> IsSpace(s[i]) }

  lemma {:induction false} LeftTrimmed(s: string) returns (n: nat)
    ensures n <= |s| && AllSpace(s[..n]) && TrimLeft(s) == s[n..] && (n < |s| ==> !IsSpace(s[n]))
  {
    n := 0;
    if s != "" && IsSpace(s[0]) {
      var m := LeftTrimmed(s[1..]);
      n := m + 1;
      assert s[1..][m..] == s[n..] && s[..n] == [s[0]] + s[1..][..m];
    }
  }

  lemma {:induction false} RightTrimmed(s: string) returns (n: nat)
    ensures n <= |s| && AllSpace(s[n..]) && TrimRight(s) == s[..n] && (n > 0 ==> !IsSpace(s[n - 1]))
  {
    n := |s|;
    if s != "" && IsSpace(s[|s| - 1]) {
      var init := s[..|s| - 1];
      n := RightTrimmed(init);
      assert init[..n] == s[..n] && s[n..] == init[n..] + [s[|s| - 1]];
    }
  }

  /** Trimming takes white space off both ends and leaves none there. */
  lemma Trimmed(s: string) returns (a: string, b: string)
    ensures s == a + Trim(s) + b && AllSpace(a) && AllSpace(b)
    ensures Trim(s) != "" ==> !IsSpace(Trim(s)[0]) && !IsSpace(Trim(s)[|Trim(s)| - 1])
  {
    var n := LeftTrimmed(s);
    var m := RightTrimmed(TrimLeft(s));
    a, b := s[..n], TrimLeft(s)[m..];
    assert s == s[..n] + s[n..] && TrimLeft(s) == TrimLeft(s)[..m] + TrimLeft(s)[m..];
  }

  predicate Blank(s: string) { Trim(s) == "" }

  predicate IsDigit(c: char) { '0' <= c <= '9' }

  function Fold(c: char): char { if 'A' <= c <= 'Z' then c - 'A' + 'a' else c }

  /** "Total:" in any case. */
  predicate WordAt(s: string) {
    |s| >= 6 && Fold(s[0]) == 't' && Fold(s[1]) == 'o' && Fold(s[2]) == 't' && Fold(s[3]) == 'a' && Fold(s[4]) == 'l' && s[5] == ':'
  }

  lemma WordIs(s: string)
    ensures WordAt(s) <==> |s| >= 6 && s[0] in {'t', 'T'} && s[1] in {'o', 'O'} && s[2] in {'t', 'T'} && s[3] in {'a', 'A'}
                           && s[4] in {'l', 'L'} && s[5] == ':'
  {
  }

  /** The value of the digits a text starts with. */
  function Number(s: string, value: nat): nat
    decreases |s|
  {
    if s != "" && IsDigit(s[0]) then Number(s[1..], 10 * value + (s[0] as int - '0' as int)) else value
  }

  /** The first place where "total:", white space and a digit follow each other. */
  function TotalOf(line: string): Option<nat>
    decreases |line|
  {
    if line == "" then None
    else
      var rest := if WordAt(line) then TrimLeft(line[6..]) else "";
      if rest != "" && IsDigit(rest[0]) then Some(Number(rest, 0)) else TotalOf(line[1..])
  }

  /** The word begins at i, and after white space alone a digit follows at j. */
  predicate FoundAt(line: string, i: nat, j: nat) {
    && i + 6 <= j < |line| && WordAt(line[i..])
    && (forall k :: i + 6 <= k < j ==> IsSpace(line[k])) && IsDigit(line[j])
  }

  /** What the text that begins at i is found to hold. */
  function ValueAt(line: string): Option<nat> {
    var rest := if WordAt(line) then TrimLeft(line[6..]) else "";
    if rest != "" && IsDigit(rest[0]) then Some(Number(rest, 0)) else None
  }

  lemma ValueAtIs(line: string)
    ensures ValueAt(line).Some? ==> exists j: nat :: FoundAt(line, 0, j) && ValueAt(line).value == Number(line[j..], 0)
    ensures ValueAt(line) == None ==> forall j: nat :: !FoundAt(line, 0, j)
  {
    assert line[0..] == line;
    if WordAt(line) {
      var n := LeftTrimmed(line[6..]);
      assert line[6..][n..] == line[6 + n..];
      forall k | 6 <= k < 6 + n ensures IsSpace(line[k]) { assert line[6..][..n][k - 6] == line[k]; }
      if ValueAt(line).Some? { assert FoundAt(line, 0, 6 + n); }
      forall j: nat | FoundAt(line, 0, j) ensures j == 6 + n { SameDigit(line, j, 6 + n); }
    }
  }

  /** White space is followed by one first character that is none. */
  lemma SameDigit(line: string, j: nat, m: nat)
    requires FoundAt(line, 0, j) && 6 <= m <= |line| && forall k :: 6 <= k < m ==> IsSpace(line[k])
    requires m < |line| ==> !IsSpace(line[m])
    ensures j == m
  {
  }

  ghost predicate NoneBefore(line: string, i: nat) { forall p: nat, q: nat :: p < i ==> !FoundAt(line, p, q) }

  /** The total of a line is the number at the first place where one is found, and there
      is none exactly when there is no such place. */
  lemma {:induction false} TotalIsFirst(line: string)
    ensures TotalOf(line).Some? ==>
              exists i: nat, j: nat :: FoundAt(line, i, j) && NoneBefore(line, i) && TotalOf(line).value == Number(line[j..], 0)
    ensures TotalOf(line) == None ==> NoneBefore(line, |line|)
    decreases |line|
  {
    if line != "" {
      ValueAtIs(line);
      if ValueAt(line).Some? {
        var j: nat :| FoundAt(line, 0, j) && ValueAt(line).value == Number(line[j..], 0);
        assert NoneBefore(line, 0);
      } else {
        TotalIsFirst(line[1..]);
        LaterTotal(line);
      }
    }
  }

  lemma FoundLater(line: string, i: nat, j: nat)
    requires line != ""
    ensures FoundAt(line, i + 1, j + 1) <==> FoundAt(line[1..], i, j)
  {
    if i <= |line[1..]| { assert line[1..][i..] == line[i + 1..]; }
    if FoundAt(line, i + 1, j + 1) {
      forall k | i + 6 <= k < j ensures IsSpace(line[1..][k]) { assert line[1..][k] == line[k + 1]; }
    }
    if FoundAt(line[1..], i, j) {
      forall k | i + 7 <= k < j + 1 ensures IsSpace(line[k]) { assert line[1..][k - 1] == line[k]; }
    }
  }

  lemma NoneBeforeLater(line: string, i: nat)
    requires line != "" && (forall j: nat :: !FoundAt(line, 0, j)) && NoneBefore(line[1..], i)
    ensures NoneBefore(line, i + 1)
  {
    forall p: nat, q: nat | p < i + 1 ensures !FoundAt(line, p, q) {
      if p > 0 && q > 0 { FoundLater(line, p - 1, q - 1); }
    }
  }

  lemma LaterTotal(line: string)
    requires line != "" && ValueAt(line) == None && forall j: nat :: !FoundAt(line, 0, j)
    requires var rest := line[1..];
             TotalOf(rest).Some? ==>
               exists i: nat, j: nat :: FoundAt(rest, i, j) && NoneBefore(rest, i) && TotalOf(rest).value == Number(rest[j..], 0)
    requires TotalOf(line[1..]) == None ==> NoneBefore(line[1..], |line[1..]|)
    ensures TotalOf(line).Some? ==>
              exists i: nat, j: nat :: FoundAt(line, i, j) && NoneBefore(line, i) && TotalOf(line).value == Number(line[j..], 0)
    ensures TotalOf(line) == None ==> NoneBefore(line, |line|)
  {
    var rest := line[1..];
    if TotalOf(rest).Some? {
      var i: nat, j: nat :| FoundAt(rest, i, j) && NoneBefore(rest, i) && TotalOf(rest).value == Number(rest[j..], 0);
      FoundLater(line, i, j);
      NoneBeforeLater(line, i);
      assert rest[j..] == line[j + 1..];
    } else {
      NoneBeforeLater(line, |rest|);
    }
  }

  /** The mark of the error stream hides no total and makes none. */
  lemma MarkIsTransparent(line: string)
    ensures TotalOf("[stderr] " + line) == TotalOf(line)
  {
    var s := "[stderr] " + line;
    assert forall k :: 0 <= k < 9 ==> s[k] == "[stderr] "[k];
    Peel(s, 0, 9);
    assert s[9..] == line && s[0..] == s;
  }

  lemma {:induction false} Peel(s: string, k: nat, n: nat)
    requires k <= n <= |s| && forall m :: k <= m < n ==> !WordAt(s[m..])
    ensures TotalOf(s[k..]) == TotalOf(s[n..])
    decreases n - k
  {
    if k < n {
      assert s[k..][1..] == s[k + 1..];
      Peel(s, k + 1, n);
    }
  }

  predicate AllDigits(s: string) { forall i :: 0 <= i < |s| ==> IsDigit(s[i]) }

  /** The number that decimal digits stand for. */
  function ReadDecimal(s: string): int {
    if s == "" then 0 else 10 * ReadDecimal(s[..|s| - 1]) + (s[|s| - 1] as int - '0' as int)
  }

  lemma {:induction false} NumberNext(ds: string, c: char, rest: string, value: nat) returns (scanned: nat)
    requires AllDigits(ds) && IsDigit(c)
    ensures Number(ds + [c] + rest, value) == Number(rest, 10 * scanned + (c as int - '0' as int))
    ensures forall r: string :: r == "" || !IsDigit(r[0]) ==> Number(ds + r, value) == scanned
  {
    if ds == "" {
      scanned := value;
      assert ds + [c] + rest == [c] + rest && ([c] + rest)[1..] == rest;
      forall r: string | r == "" || !IsDigit(r[0]) ensures Number(ds + r, value) == scanned { assert ds + r == r; }
    } else {
      var tail, v := ds[1..], 10 * value + (ds[0] as int - '0' as int);
      assert (ds + [c] + rest)[1..] == tail + [c] + rest;
      scanned := NumberNext(tail, c, rest, v);
      forall r: string | r == "" || !IsDigit(r[0]) ensures Number(ds + r, value) == scanned {
        assert (ds + r)[1..] == tail + r && (ds + r)[0] == ds[0];
        assert Number(ds + r, value) == Number(tail + r, v);
      }
    }
  }

  /** The number read is that of all the digits that follow one another. */
  lemma {:induction false} NumberIs(ds: string, rest: string)
    requires AllDigits(ds) && (rest == "" || !IsDigit(rest[0]))
    ensures Number(ds + rest, 0) == ReadDecimal(ds)
    decreases |ds|
  {
    if ds == "" {
      assert ds + rest == rest;
    } else {
      var init, c := ds[..|ds| - 1], ds[|ds| - 1];
      var scanned := NumberNext(init, c, rest, 0);
      NumberIs(init, rest);
      assert ds + rest == init + [c] + rest;
      assert Number(init + rest, 0) == scanned;
    }
  }

  function Decimal(n: nat): string { if n < 10 then [Digit(n)] else Decimal(n / 10) + [Digit(n % 10)] }

  lemma {:induction false} NumberReads(n: nat, rest: string, value: nat) returns (scale: nat)
    requires rest == "" || !IsDigit(rest[0])
    ensures Number(Decimal(n) + rest, value) == value * scale + n && scale > 0
  {
    scale := NumberReadsDigits(n, rest, value);
    assert Number(rest, value * scale + n) == value * scale + n;
  }

  function Digit(d: nat): char
    requires d < 10
  {
    ('0' as int + d) as char
  }

  lemma NumberReadsDigit(d: nat, rest: string, value: nat)
    requires d < 10
    ensures Number([Digit(d)] + rest, value) == Number(rest, 10 * value + d)
  {
    assert ([Digit(d)] + rest)[1..] == rest;
  }

  lemma {:induction false} NumberReadsDigits(n: nat, rest: string, value: nat) returns (scale: nat)
    ensures Number(Decimal(n) + rest, value) == Number(rest, value * scale + n) && scale > 0
    decreases n
  {
    if n < 10 {
      scale := 10;
      NumberReadsDigit(n, rest, value);
    } else {
      var more := [Digit(n % 10)] + rest;
      var high := NumberReadsDigits(n / 10, more, value);
      assert Decimal(n) + rest == Decimal(n / 10) + more;
      NumberReadsDigit(n % 10, rest, value * high + n / 10);
      scale := 10 * high;
      Shifted(value, high, n);
    }
  }

  lemma Shifted(value: nat, high: nat, n: nat)
    ensures 10 * (value * high + n / 10) + n % 10 == value * (10 * high) + n
  {
    assert value * (10 * high) == 10 * (value * high);
  }

  const WORD := "Total: "

  /** The progress line of the scraper, rewritten in place with carriage returns and
      no newline, is one line: its first total counts and later ones do not. */
  lemma FirstTotalOnTheLine(before: string, n: nat, rest: string)
    requires rest == "" || !IsDigit(rest[0])
    requires forall i :: 0 <= i < |before| ==> Fold(before[i]) != 't'
    ensures TotalOf(before + (WORD + (Decimal(n) + rest))) == Some(n)
  {
    var number := Decimal(n) + rest;
    var scale := NumberReads(n, rest, 0);
    DecimalStarts(n);
    TotalHere(number, n);
    Skips(before, WORD + number);
  }

  lemma TotalHere(number: string, n: nat)
    requires number != "" && IsDigit(number[0]) && Number(number, 0) == n
    ensures TotalOf(WORD + number) == Some(n)
  {
    var word := WORD + number;
    assert word[6..] == [' '] + number && ([' '] + number)[1..] == number;
    assert TrimLeft([' '] + number) == TrimLeft(number) == number;
  }

  /** Nothing is found before a "t". */
  lemma {:induction false} Skips(pre: string, line: string)
    requires forall i :: 0 <= i < |pre| ==> Fold(pre[i]) != 't'
    ensures TotalOf(pre + line) == TotalOf(line)
  {
    if pre == "" {
      assert pre + line == line;
    } else {
      assert (pre + line)[0] == pre[0] && (pre + line)[1..] == pre[1..] + line;
      Skips(pre[1..], line);
    }
  }

  lemma {:induction false} DecimalStarts(n: nat)
    ensures Decimal(n) != "" && IsDigit(Decimal(n)[0])
  {
    if n >= 10 { DecimalStarts(n / 10); }
  }

  /** What the lines have done so far. */
  datatype Sink = Sink(total: nat, log: seq<string>)

  const EMPTY := Sink(0, [])

  function Handle(significant: string -> bool, s: Sink, line: string): Sink {
    match TotalOf(line)
    case Some(n) => s.(total := n)
    case None => if significant(line) then s.(log := s.log + [Trim(line)]) else s
  }

  function HandleAll(significant: string -> bool, s: Sink, lines: seq<string>): Sink {
    if lines == [] then s
    else Handle(significant, HandleAll(significant, s, lines[..|lines| - 1]), lines[|lines| - 1])
  }

  lemma {:induction false} HandleAllCut(significant: string -> bool, s: Sink, a: seq<string>, b: seq<string>)
    ensures HandleAll(significant, s, a + b) == HandleAll(significant, HandleAll(significant, s, a), b)
  {
    if b == [] {
      assert a + b == a;
    } else {
      HandleAllCut(significant, s, a, b[..|b| - 1]);
      assert (a + b)[..|a + b| - 1] == a + b[..|b| - 1];
    }
  }

  // ------------------------------------------------------------------
  // The error stream: blank lines are skipped, the others marked
  // ------------------------------------------------------------------

  const MARK := "[stderr] "

  function Marked(lines: seq<string>): seq<string> {
    if lines == [] then []
    else Marked(lines[..|lines| - 1]) + if Blank(lines[|lines| - 1]) then [] else [MARK + lines[|lines| - 1]]
  }

  lemma MarkedNext(lines: seq<string>, k: nat)
    requires k < |lines|
    ensures Marked(lines[..k + 1]) == if Blank(lines[k]) then Marked(lines[..k]) else Marked(lines[..k]) + [MARK + lines[k]]
  {
    assert lines[..k + 1][..k] == lines[..k];
  }

  lemma {:induction false} MarkedCut(a: seq<string>, b: seq<string>)
    ensures Marked(a + b) == Marked(a) + Marked(b)
  {
    if b == [] {
      assert a + b == a;
    } else {
      MarkedCut(a, b[..|b| - 1]);
      assert (a + b)[..|a + b| - 1] == a + b[..|b| - 1];
    }
  }

  // ------------------------------------------------------------------
  // Two streams
  // ------------------------------------------------------------------

  datatype Event = Stdout(chunk: string) | Stderr(chunk: string)

  /** A line as it is handled, and the stream it came from. */
  datatype Line = Line(err: bool, text: string)

  function Lines(err: bool, texts: seq<string>): (lines: seq<Line>)
    ensures |lines| == |texts| && forall i :: 0 <= i < |texts| ==> lines[i] == Line(err, texts[i])
  {
    seq(|texts|, i requires 0 <= i < |texts| => Line(err, texts[i]))
  }

  function OutText(events: seq<Event>): string {
    if events == [] then ""
    else OutText(events[..|events| - 1]) + match events[|events| - 1] case Stdout(c) => c case Stderr(_) => ""
  }

  function ErrText(events: seq<Event>): string {
    if events == [] then ""
    else ErrText(events[..|events| - 1]) + match events[|events| - 1] case Stderr(c) => c case Stdout(_) => ""
  }

  /** The buffers and every line handled so far, in order. */
  datatype State = State(outBuf: string, errBuf: string, handled: seq<Line>)

  function Receive(s: State, e: Event): State {
    match e
    case Stdout(c) => s.(outBuf := Tail(s.outBuf + c), handled := s.handled + Lines(false, Complete(s.outBuf + c)))
    case Stderr(c) => s.(errBuf := Tail(s.errBuf + c), handled := s.handled + Lines(true, Marked(Complete(s.errBuf + c))))
  }

  function Run(events: seq<Event>): State {
    if events == [] then State("", "", []) else Receive(Run(events[..|events| - 1]), events[|events| - 1])
  }

  function OutEnd(s: string): seq<string> { if Blank(s) then [] else [s] }

  function ErrEnd(s: string): seq<string> { if Blank(s) then [] else [MARK + s] }

  /** Every line handled once the child has closed. */
  function Finish(s: State): seq<Line> { s.handled + Lines(false, OutEnd(s.outBuf)) + Lines(true, ErrEnd(s.errBuf)) }

  function Of(err: bool, lines: seq<Line>): seq<string> {
    if lines == [] then []
    else Of(err, lines[..|lines| - 1]) + if lines[|lines| - 1].err == err then [lines[|lines| - 1].text] else []
  }

  lemma {:induction false} OfCut(err: bool, a: seq<Line>, b: seq<Line>)
    ensures Of(err, a + b) == Of(err, a) + Of(err, b)
  {
    if b == [] {
      assert a + b == a;
    } else {
      OfCut(err, a, b[..|b| - 1]);
      assert (a + b)[..|a + b| - 1] == a + b[..|b| - 1];
    }
  }

  lemma {:induction false} OfLines(err: bool, texts: seq<string>, which: bool)
    ensures Of(which, Lines(err, texts)) == if which == err then texts else []
  {
    if texts != [] {
      OfLines(err, texts[..|texts| - 1], which);
      assert Lines(err, texts)[..|texts| - 1] == Lines(err, texts[..|texts| - 1]);
    }
  }

  /** However the output is cut and interleaved, the lines handled from each stream so
      far are the finished lines of all of its text so far. */
  lemma {:induction false} RunSeesWholeLines(events: seq<Event>)
    ensures Run(events).outBuf == Tail(OutText(events)) && Run(events).errBuf == Tail(ErrText(events))
    ensures Of(false, Run(events).handled) == Complete(OutText(events))
    ensures Of(true, Run(events).handled) == Marked(Complete(ErrText(events)))
  {
    if events != [] {
      var before, e := events[..|events| - 1], events[|events| - 1];
      RunSeesWholeLines(before);
      ReceiveSeesWholeLines(Run(before), OutText(before), ErrText(before), e);
      assert OutText(before) + "" == OutText(before) && ErrText(before) + "" == ErrText(before);
    }
  }

  lemma ReceiveSeesWholeLines(s: State, out: string, err: string, e: Event)
    requires s.outBuf == Tail(out) && Of(false, s.handled) == Complete(out)
    requires s.errBuf == Tail(err) && Of(true, s.handled) == Marked(Complete(err))
    ensures var out' := if e.Stdout? then out + e.chunk else out;
            Receive(s, e).outBuf == Tail(out') && Of(false, Receive(s, e).handled) == Complete(out')
    ensures var err' := if e.Stderr? then err + e.chunk else err;
            Receive(s, e).errBuf == Tail(err') && Of(true, Receive(s, e).handled) == Marked(Complete(err'))
  {
    match e
    case Stdout(c) =>
      SplitCut(out, c);
      var added := Complete(s.outBuf + c);
      OfCut(false, s.handled, Lines(false, added));
      OfCut(true, s.handled, Lines(false, added));
      OfLines(false, added, false);
      OfLines(false, added, true);
    case Stderr(c) =>
      SplitCut(err, c);
      var added := Complete(s.errBuf + c);
      MarkedCut(Complete(err), added);
      OfCut(false, s.handled, Lines(true, Marked(added)));
      OfCut(true, s.handled, Lines(true, Marked(added)));
      OfLines(true, Marked(added), false);
      OfLines(true, Marked(added), true);
  }

  /** All lines of a text, the last only if it is not blank. */
  function OutLines(text: string): seq<string> { Complete(text) + OutEnd(Tail(text)) }

  function ErrLines(text: string): seq<string> { Marked(Complete(text)) + ErrEnd(Tail(text)) }

  lemma FinishOf(s: State, which: bool)
    ensures Of(which, Finish(s)) == Of(which, s.handled) + if which then ErrEnd(s.errBuf) else OutEnd(s.outBuf)
  {
    var o, e := OutEnd(s.outBuf), ErrEnd(s.errBuf);
    OfCut(which, s.handled + Lines(false, o), Lines(true, e));
    OfCut(which, s.handled, Lines(false, o));
    OfLines(false, o, which);
    OfLines(true, e, which);
    assert Of(which, s.handled) + [] == Of(which, s.handled);
  }

  /** The lines handled from a stream are a function of its text alone. */
  lemma ChunksAreInvisible(events: seq<Event>)
    ensures Of(false, Finish(Run(events))) == OutLines(OutText(events))
    ensures Of(true, Finish(Run(events))) == ErrLines(ErrText(events))
  {
    RunSeesWholeLines(events);
    FinishOf(Run(events), false);
    FinishOf(Run(events), true);
  }

  function Texts(lines: seq<Line>): seq<string> {
    if lines == [] then [] else Texts(lines[..|lines| - 1]) + [lines[|lines| - 1].text]
  }

  /** What the child's output leads to. */
  function Outcome(significant: string -> bool, events: seq<Event>): Sink {
    HandleAll(significant, EMPTY, Texts(Finish(Run(events))))
  }

  lemma {:induction false} TextsOfOut(lines: seq<Line>)
    requires Of(true, lines) == []
    ensures Texts(lines) == Of(false, lines)
  {
    if lines != [] { TextsOfOut(lines[..|lines| - 1]); }
  }

  /** If nothing but blank lines is written to the error stream, total and log are
      those of the output's lines handled one by one, however it was cut. */
  lemma OutcomeOfOutput(significant: string -> bool, events: seq<Event>)
    requires ErrLines(ErrText(events)) == []
    ensures Outcome(significant, events) == HandleAll(significant, EMPTY, OutLines(OutText(events)))
  {
    ChunksAreInvisible(events);
    TextsOfOut(Finish(Run(events)));
  }

  // ------------------------------------------------------------------
  // Which total wins
  // ------------------------------------------------------------------

  /** The total of the last line that has one. */
  function LastTotal(lines: seq<string>): Option<nat> {
    if lines == [] then None
    else if TotalOf(lines[|lines| - 1]).Some? then TotalOf(lines[|lines| - 1])
    else LastTotal(lines[..|lines| - 1])
  }

  function OrElse(a: Option<nat>, b: Option<nat>): Option<nat> { if a.Some? then a else b }

  lemma {:induction false} LastTotalCut(a: seq<string>, b: seq<string>)
    ensures LastTotal(a + b) == OrElse(LastTotal(b), LastTotal(a))
  {
    if b == [] {
      assert a + b == a;
    } else {
      LastTotalCut(a, b[..|b| - 1]);
      assert (a + b)[..|a + b| - 1] == a + b[..|b| - 1];
    }
  }

  lemma {:induction false} TotalIsLast(significant: string -> bool, lines: seq<string>)
    ensures HandleAll(significant, EMPTY, lines).total == match LastTotal(lines) case Some(n) => n case None => 0
  {
    if lines != [] { TotalIsLast(significant, lines[..|lines| - 1]); }
  }

  /** In a merge of two streams the last total is the last one of either stream. */
  lemma {:induction false} LastOfMerge(lines: seq<Line>)
    ensures LastTotal(Of(false, lines)) == None ==> LastTotal(Texts(lines)) == LastTotal(Of(true, lines))
    ensures LastTotal(Of(true, lines)) == None ==> LastTotal(Texts(lines)) == LastTotal(Of(false, lines))
    ensures LastTotal(Texts(lines)) in {LastTotal(Of(false, lines)), LastTotal(Of(true, lines))}
  {
    if lines != [] {
      var init, l := lines[..|lines| - 1], lines[|lines| - 1];
      LastOfMerge(init);
      LastTotalCut(Of(l.err, init), [l.text]);
      LastTotalCut(Texts(init), [l.text]);
      assert LastTotal([l.text]) == TotalOf(l.text) by { assert [l.text][..0] == []; }
      assert Of(!l.err, lines) == Of(!l.err, init);
    }
  }

  lemma {:induction false} TextsCut(a: seq<Line>, b: seq<Line>)
    ensures Texts(a + b) == Texts(a) + Texts(b)
  {
    if b == [] {
      assert a + b == a;
    } else {
      TextsCut(a, b[..|b| - 1]);
      assert (a + b)[..|a + b| - 1] == a + b[..|b| - 1];
    }
  }

  lemma TextsOfEnd(err: bool, texts: seq<string>)
    requires |texts| <= 1
    ensures Texts(Lines(err, texts)) == texts
  {
    var lines := Lines(err, texts);
    if texts != [] { assert lines[..0] == [] && Texts(lines) == Texts(lines[..0]) + [lines[0].text]; }
  }

  lemma FinishTotal(s: State)
    ensures LastTotal(Texts(Finish(s))) ==
            OrElse(LastTotal(ErrEnd(s.errBuf)), OrElse(LastTotal(OutEnd(s.outBuf)), LastTotal(Texts(s.handled))))
  {
    var o, e := Lines(false, OutEnd(s.outBuf)), Lines(true, ErrEnd(s.errBuf));
    TextsCut(s.handled + o, e);
    TextsCut(s.handled, o);
    TextsOfEnd(false, OutEnd(s.outBuf));
    TextsOfEnd(true, ErrEnd(s.errBuf));
    LastTotalCut(Texts(s.handled + o), Texts(e));
    LastTotalCut(Texts(s.handled), Texts(o));
  }

  ghost predicate Produces(events: seq<Event>, out: string, err: string) { OutText(events) == out && ErrText(events) == err }

  ghost predicate SameTotal(significant: string -> bool, e1: seq<Event>, e2: seq<Event>) {
    Outcome(significant, e1).total == Outcome(significant, e2).total
  }

  /** The total is the same for every way of cutting and interleaving the streams. */
  ghost predicate TotalIsDetermined(significant: string -> bool, out: string, err: string) {
    forall e1, e2 :: Produces(e1, out, err) && Produces(e2, out, err) ==> SameTotal(significant, e1, e2)
  }

  /** Unfinished last lines are handled at the end, the error stream's last; otherwise
      only one stream may have finished lines with totals, or both end on the same. */
  predicate OneTotal(out: string, err: string) {
    || LastTotal(ErrEnd(Tail(err))).Some?
    || LastTotal(OutEnd(Tail(out))).Some?
    || LastTotal(Complete(out)) == None
    || LastTotal(Marked(Complete(err))) == None
    || LastTotal(Complete(out)) == LastTotal(Marked(Complete(err)))
  }

  function Value(t: Option<nat>): nat { match t case Some(n) => n case None => 0 }

  lemma OutcomeTotal(significant: string -> bool, events: seq<Event>)
    ensures var s := Run(events);
            Outcome(significant, events).total ==
            Value(OrElse(LastTotal(ErrEnd(Tail(ErrText(events)))),
                         OrElse(LastTotal(OutEnd(Tail(OutText(events)))), LastTotal(Texts(s.handled)))))
    ensures var t := LastTotal(Texts(Run(events).handled));
            var o, e := LastTotal(Complete(OutText(events))), LastTotal(Marked(Complete(ErrText(events))));
            (o == None ==> t == e) && (e == None ==> t == o) && (t == o || t == e)
  {
    RunSeesWholeLines(events);
    TotalIsLast(significant, Texts(Finish(Run(events))));
    FinishTotal(Run(events));
    LastOfMerge(Run(events).handled);
  }

  /** The lines of a stream that arrives in one chunk. */
  function Alone(e: Event): seq<string> { match e case Stdout(c) => Complete(c) case Stderr(c) => Marked(Complete(c)) }

  /** The whole of one stream, then the whole of the other. */
  lemma OneAfterTheOther(a: Event, b: Event) returns (events: seq<Event>)
    requires a.Stdout? <==> b.Stderr?
    ensures Produces(events, if a.Stdout? then a.chunk else b.chunk, if a.Stdout? then b.chunk else a.chunk)
    ensures LastTotal(Texts(Run(events).handled)) == OrElse(LastTotal(Alone(b)), LastTotal(Alone(a)))
  {
    events := [a, b];
    TwoEvents(a, b);
    var start := State("", "", []);
    FirstChunk(start, a);
    FirstChunk(Receive(start, a), b);
    var x, y := Lines(a.Stderr?, Alone(a)), Lines(b.Stderr?, Alone(b));
    TotalOfTwo(x, y, Alone(a), Alone(b));
    assert Run(events).handled == x + y by { assert [] + x == x; }
  }

  lemma FirstChunk(s: State, e: Event)
    requires if e.Stdout? then s.outBuf == "" else s.errBuf == ""
    ensures Receive(s, e).handled == s.handled + Lines(e.Stderr?, Alone(e))
    ensures if e.Stdout? then Receive(s, e).errBuf == s.errBuf else Receive(s, e).outBuf == s.outBuf
  {
    assert "" + e.chunk == e.chunk;
  }

  lemma TotalOfTwo(a: seq<Line>, b: seq<Line>, x: seq<string>, y: seq<string>)
    requires exists e: bool :: a == Lines(e, x) && b == Lines(!e, y)
    ensures LastTotal(Texts(a + b)) == OrElse(LastTotal(y), LastTotal(x))
  {
    var e: bool :| a == Lines(e, x) && b == Lines(!e, y);
    TextsOfLines(e, x);
    TextsOfLines(!e, y);
    TextsCut(a, b);
    LastTotalCut(x, y);
  }

  lemma {:induction false} TextsOfLines(err: bool, texts: seq<string>)
    ensures Texts(Lines(err, texts)) == texts
  {
    if texts != [] {
      TextsOfLines(err, texts[..|texts| - 1]);
      assert Lines(err, texts)[..|texts| - 1] == Lines(err, texts[..|texts| - 1]);
    }
  }

  lemma TwoEvents(a: Event, b: Event)
    ensures Run([a, b]) == Receive(Receive(State("", "", []), a), b)
    ensures a.Stdout? && b.Stderr? ==> OutText([a, b]) == a.chunk && ErrText([a, b]) == b.chunk
    ensures a.Stderr? && b.Stdout? ==> OutText([a, b]) == b.chunk && ErrText([a, b]) == a.chunk
  {
    assert [a, b][..1] == [a] && [a][..0] == [];
    assert Run([a]) == Receive(Run([]), a);
    assert OutText([a]) == OutText([]) + (match a case Stdout(c) => c case Stderr(_) => "");
    assert ErrText([a]) == ErrText([]) + (match a case Stderr(c) => c case Stdout(_) => "");
  }

  lemma Determined(significant: string -> bool, e1: seq<Event>, e2: seq<Event>)
    requires OutText(e1) == OutText(e2) && ErrText(e1) == ErrText(e2) && OneTotal(OutText(e1), ErrText(e1))
    ensures SameTotal(significant, e1, e2)
  {
    OutcomeTotal(significant, e1);
    OutcomeTotal(significant, e2);
  }

  lemma Differ(significant: string -> bool, out: string, err: string, e1: seq<Event>, e2: seq<Event>)
    requires !OneTotal(out, err) && Produces(e1, out, err) && Produces(e2, out, err)
    requires LastTotal(Texts(Run(e1).handled)) == LastTotal(Marked(Complete(err)))
    requires LastTotal(Texts(Run(e2).handled)) == LastTotal(Complete(out))
    ensures !SameTotal(significant, e1, e2)
  {
    OutcomeTotal(significant, e1);
    OutcomeTotal(significant, e2);
  }

  lemma Undetermined(significant: string -> bool, out: string, err: string)
    requires !OneTotal(out, err)
    ensures !TotalIsDetermined(significant, out, err)
  {
    var e1 := OneAfterTheOther(Stdout(out), Stderr(err));
    var e2 := OneAfterTheOther(Stderr(err), Stdout(out));
    Differ(significant, out, err, e1, e2);
  }

  /** The total depends only on the two texts exactly when one of them settles it. */
  lemma TotalDeterminedExactlyWhen(significant: string -> bool, out: string, err: string)
    ensures TotalIsDetermined(significant, out, err) <==> OneTotal(out, err)
  {
    if OneTotal(out, err) {
      forall e1, e2 | Produces(e1, out, err) && Produces(e2, out, err) ensures SameTotal(significant, e1, e2) {
        Determined(significant, e1, e2);
      }
    } else {
      Undetermined(significant, out, err);
    }
  }
}

/** The promise that runs the scraper: its three event handlers and the local
    variables they share. */
module ScraperRun {
  import opened Wrappers
  import opened LineSplitter

  class Scraper {
    const significant: string -> bool
    var stdoutBuf: string
    var stderrBuf: string
    var lastTotal: nat
    var log: seq<string>
    ghost var events: seq<Event>

    /** Buffers, total and log are those of the events so far. */
    ghost predicate Valid()
      reads this
    {
      && stdoutBuf == Run(events).outBuf && stderrBuf == Run(events).errBuf
      && Done() == HandleAll(significant, EMPTY, Texts(Run(events).handled))
    }

    function Done(): Sink
      reads this
    {
      Sink(lastTotal, log)
    }

    constructor (significant: string -> bool)
      ensures Valid() && events == [] && this.significant == significant
    {
      this.significant := significant;
      stdoutBuf, stderrBuf, lastTotal, log, events := "", "", 0, [], [];
    }

    method HandleLine(line: string)
      modifies `lastTotal, `log
      ensures Done() == Handle(significant, old(Done()), line)
    {
      match TotalOf(line)
      case Some(total) => lastTotal := total;
      case None => if significant(line) { log := log + [Trim(line)]; }
    }

    method HandleLines(lines: seq<string>)
      modifies `lastTotal, `log
      ensures Done() == HandleAll(significant, old(Done()), lines)
    {
      for k := 0 to |lines|
        invariant Done() == HandleAll(significant, old(Done()), lines[..k])
      {
        HandleLine(lines[k]);
        assert lines[..k + 1][..k] == lines[..k];
      }
      assert lines[..|lines|] == lines;
    }

    /** `filter` and the prefix of error lines. */
    method HandleErrorLines(lines: seq<string>)
      modifies `lastTotal, `log
      ensures Done() == HandleAll(significant, old(Done()), Marked(lines))
    {
      for k := 0 to |lines|
        invariant Done() == HandleAll(significant, old(Done()), Marked(lines[..k]))
      {
        MarkedNext(lines, k);
        if !Blank(lines[k]) {
          HandleLine(MARK + lines[k]);
          assert (Marked(lines[..k]) + [MARK + lines[k]])[..|Marked(lines[..k])|] == Marked(lines[..k]);
        }
      }
      assert lines[..|lines|] == lines;
    }

    method OnStdout(chunk: string)
      requires Valid()
      modifies `stdoutBuf, `lastTotal, `log, `events
      ensures Valid() && events == old(events) + [Stdout(chunk)]
    {
      ghost var s := Run(events);
      var lines := Split(stdoutBuf + chunk);
      stdoutBuf := lines[|lines| - 1];
      HandleLines(lines[..|lines| - 1]);
      Received(s, events, Stdout(chunk), lines[..|lines| - 1]);
      events := events + [Stdout(chunk)];
    }

    method OnStderr(chunk: string)
      requires Valid()
      modifies `stderrBuf, `lastTotal, `log, `events
      ensures Valid() && events == old(events) + [Stderr(chunk)]
    {
      ghost var s := Run(events);
      var lines := Split(stderrBuf + chunk);
      stderrBuf := lines[|lines| - 1];
      HandleErrorLines(lines[..|lines| - 1]);
      Received(s, events, Stderr(chunk), Marked(lines[..|lines| - 1]));
      events := events + [Stderr(chunk)];
    }

    /** Flushes the unfinished lines; the promise resolves with the last total unless
        the child failed. */
    method OnClose(code: Option<int>) returns (r: Result<nat, Option<int>>)
      requires Valid()
      modifies `lastTotal, `log
      ensures Done() == Outcome(significant, events)
      ensures r == if code == Some(0) then Ok(Outcome(significant, events).total) else Result.Err(code)
    {
      if !Blank(stdoutBuf) { HandleLine(stdoutBuf); }
      if !Blank(stderrBuf) { HandleLine(MARK + stderrBuf); }
      Finished(Run(events));
      r := if code == Some(0) then Ok(lastTotal) else Result.Err(code);
    }

    lemma Received(s: State, before: seq<Event>, e: Event, texts: seq<string>)
      requires s == Run(before) && Receive(s, e).handled == s.handled + Lines(e.Stderr?, texts)
      ensures Run(before + [e]) == Receive(s, e)
      ensures HandleAll(significant, EMPTY, Texts(Receive(s, e).handled)) ==
              HandleAll(significant, HandleAll(significant, EMPTY, Texts(s.handled)), texts)
    {
      assert (before + [e])[..|before|] == before;
      TextsCut(s.handled, Lines(e.Stderr?, texts));
      TextsOfLines(e.Stderr?, texts);
      HandleAllCut(significant, EMPTY, Texts(s.handled), texts);
    }

    lemma Finished(s: State)
      ensures HandleAll(significant, EMPTY, Texts(Finish(s))) ==
              var done := HandleAll(significant, EMPTY, Texts(s.handled));
              HandleAll(significant, HandleAll(significant, done, OutEnd(s.outBuf)), ErrEnd(s.errBuf))
    {
      var o, e := Lines(false, OutEnd(s.outBuf)), Lines(true, ErrEnd(s.errBuf));
      TextsCut(s.handled + o, e);
      TextsCut(s.handled, o);
      TextsOfLines(false, OutEnd(s.outBuf));
      TextsOfLines(true, ErrEnd(s.errBuf));
      HandleAllCut(significant, EMPTY, Texts(s.handled + o), ErrEnd(s.errBuf));
      HandleAllCut(significant, EMPTY, Texts(s.handled), OutEnd(s.outBuf));
    }
  }
}

/** Requests that present the same refresh token. Each reads the key, removes it,
    looks the user up and stores a new token, in four statements between which the
    others run; the key may also expire or be removed by someone else at any time. */
module RefreshProtocol {
  import opened Wrappers

  type Store = map<string, string>

  function Prefix(tenant: string): string { tenant + ":auth:refresh:" }

  function Key(tenant: string, jti: string): string { Prefix(tenant) + jti }

  predicate Stored(data: Store, tenant: string, jti: string) { Key(tenant, jti) in data && data[Key(tenant, jti)] != "" }

  lemma KeysDiffer(tenant: string, a: string, b: string)
    requires a != b
    ensures Key(tenant, a) != Key(tenant, b)
  {
    assert Key(tenant, a)[|Prefix(tenant)|..] == a && Key(tenant, b)[|Prefix(tenant)|..] == b;
  }

  /** What the signed token says. */
  datatype Token = Token(tenant: string, user: string, jti: string)

  /** The next statement of a request. */
  datatype Pc = Get | Del | FindUser | Issue | Served | Refused

  /** `newJti` is the identifier drawn for the token the request would issue. */
  datatype Request = Request(newJti: string, pc: Pc)

  /** `Lost`: the statement took effect but the answer never arrived. For the look-up
      anything but `Works` means that no user was found. */
  datatype Outcome = Works | Breaks | Lost

  datatype State = State(data: Store, requests: seq<Request>)

  /** `Vanish`: the key expires or another party removes it. */
  datatype Label = Step(k: nat, o: Outcome) | Vanish

  function RequestStep(t: Token, data: Store, r: Request, o: Outcome): (Store, Pc) {
    match r.pc
    case Get => (data, if o.Works? && Stored(data, t.tenant, t.jti) then Del else Refused)
    case Del => (if o.Breaks? then data else data - {Key(t.tenant, t.jti)}, if o.Works? then FindUser else Refused)
    case FindUser => (data, if o.Works? then Issue else Refused)
    case Issue => (if o.Breaks? then data else data[Key(t.tenant, r.newJti) := t.user], if o.Works? then Served else Refused)
    case _ => (data, r.pc)
  }

  /** A statement that breaks changes nothing, and none touches another key than the old
      token's and the new one's. */
  lemma OnlyOwnKeys(t: Token, data: Store, r: Request, o: Outcome)
    ensures o.Breaks? ==> RequestStep(t, data, r, o).0 == data
    ensures o.Breaks? && !r.pc.Served? ==> RequestStep(t, data, r, o).1 == Refused
    ensures var after := RequestStep(t, data, r, o).0;
            forall k :: k != Key(t.tenant, t.jti) && k != Key(t.tenant, r.newJti) ==>
              (k in after <==> k in data) && (k in data ==> after[k] == data[k])
  {
  }

  function Next(t: Token, s: State, l: Label): (s': State)
    ensures |s'.requests| == |s.requests|
  {
    match l
    case Vanish => s.(data := s.data - {Key(t.tenant, t.jti)})
    case Step(k, o) =>
      if k >= |s.requests| then s
      else
        var (data, pc) := RequestStep(t, s.data, s.requests[k], o);
        State(data, s.requests[k := s.requests[k].(pc := pc)])
  }

  /** Requests that have arrived and done nothing yet. */
  function Start(data: Store, ids: seq<string>): State {
    State(data, seq(|ids|, i requires 0 <= i < |ids| => Request(ids[i], Get)))
  }

  function Exec(t: Token, s: State, run: seq<Label>): (s': State)
    ensures |s'.requests| == |s.requests|
  {
    if run == [] then s else Next(t, Exec(t, s, run[..|run| - 1]), run[|run| - 1])
  }

  /** New identifiers are fresh. */
  predicate Fresh(t: Token, ids: seq<string>) {
    && t.jti !in ids
    && forall i, j :: 0 <= i < j < |ids| ==> ids[i] != ids[j]
  }

  predicate Ended(s: State) { forall k :: 0 <= k < |s.requests| ==> s.requests[k].pc.Served? || s.requests[k].pc.Refused? }

  function ServedOf(s: State): set<nat> { set k: nat | k < |s.requests| && s.requests[k].pc.Served? }

  // ------------------------------------------------------------------
  // What a run did to the key
  // ------------------------------------------------------------------

  /** The label is a read by request k, or removes the key. */
  predicate ReadsNow(s: State, l: Label) {
    l.Step? && l.k < |s.requests| && s.requests[l.k].pc.Get? && l.o.Works?
  }

  predicate RemovesNow(s: State, l: Label) {
    l.Vanish? || (l.k < |s.requests| && s.requests[l.k].pc.Del? && !l.o.Breaks?)
  }

  /** A request that has read the key fails in a later statement. */
  predicate FailsNow(s: State, l: Label) {
    && l.Step? && l.k < |s.requests| && !l.o.Works?
    && (s.requests[l.k].pc.Del? || s.requests[l.k].pc.FindUser? || s.requests[l.k].pc.Issue?)
  }

  /** The key was not there, or some step of the run removed it. */
  predicate Gone(t: Token, s: State, run: seq<Label>) {
    if run == [] then !Stored(s.data, t.tenant, t.jti)
    else Gone(t, s, run[..|run| - 1]) || RemovesNow(Exec(t, s, run[..|run| - 1]), run[|run| - 1])
  }

  /** The requests whose read came before the first removal. */
  function EarlyReaders(t: Token, s: State, run: seq<Label>): set<nat> {
    if run == [] then {}
    else
      var init, l := run[..|run| - 1], run[|run| - 1];
      EarlyReaders(t, s, init) + if !Gone(t, s, init) && ReadsNow(Exec(t, s, init), l) then {l.k} else {}
  }

  /** How many reads came before the first removal. */
  function EarlyReads(t: Token, s: State, run: seq<Label>): nat {
    if run == [] then 0
    else
      var init, l := run[..|run| - 1], run[|run| - 1];
      EarlyReads(t, s, init) + if !Gone(t, s, init) && ReadsNow(Exec(t, s, init), l) then 1 else 0
  }

  function FailedLater(t: Token, s: State, run: seq<Label>): set<nat> {
    if run == [] then {}
    else
      var init, l := run[..|run| - 1], run[|run| - 1];
      FailedLater(t, s, init) + if FailsNow(Exec(t, s, init), l) then {l.k} else {}
  }

  // ------------------------------------------------------------------
  // Who is served
  // ------------------------------------------------------------------

  ghost predicate RequestOk(early: set<nat>, failed: set<nat>, r: Request, k: nat) {
    match r.pc
    case Get => k !in early && k !in failed
    case Del | FindUser | Issue | Served => k in early && k !in failed
    case Refused => k in early ==> k in failed
  }

  ghost predicate Inv(t: Token, ids: seq<string>, s: State, gone: bool, early: set<nat>, failed: set<nat>) {
    && |s.requests| == |ids|
    && (gone <==> !Stored(s.data, t.tenant, t.jti))
    && (forall k :: 0 <= k < |ids| ==> s.requests[k].newJti == ids[k] && RequestOk(early, failed, s.requests[k], k))
    && (forall k :: k in early ==> k < |ids|)
  }

  lemma StepKeepsKey(t: Token, ids: seq<string>, s: State, l: Label)
    requires Fresh(t, ids) && |s.requests| == |ids| && forall k :: 0 <= k < |ids| ==> s.requests[k].newJti == ids[k]
    ensures Stored(Next(t, s, l).data, t.tenant, t.jti) <==> Stored(s.data, t.tenant, t.jti) && !RemovesNow(s, l)
  {
    if l.Step? && l.k < |ids| { KeysDiffer(t.tenant, ids[l.k], t.jti); }
  }

  lemma StepKeeps(t: Token, ids: seq<string>, s: State, gone: bool, early: set<nat>, failed: set<nat>, l: Label)
    requires Fresh(t, ids) && Inv(t, ids, s, gone, early, failed)
    ensures Inv(t, ids, Next(t, s, l), gone || RemovesNow(s, l),
                early + (if !gone && ReadsNow(s, l) then {l.k} else {}), failed + (if FailsNow(s, l) then {l.k} else {}))
  {
    StepKeepsKey(t, ids, s, l);
  }

  lemma {:induction false} Reachable(t: Token, data: Store, ids: seq<string>, run: seq<Label>)
    requires Fresh(t, ids)
    ensures var s := Start(data, ids);
            Inv(t, ids, Exec(t, s, run), Gone(t, s, run), EarlyReaders(t, s, run), FailedLater(t, s, run))
  {
    if run != [] {
      var s, init := Start(data, ids), run[..|run| - 1];
      Reachable(t, data, ids, init);
      StepKeeps(t, ids, Exec(t, s, init), Gone(t, s, init), EarlyReaders(t, s, init), FailedLater(t, s, init), run[|run| - 1]);
    }
  }

  /** In every run of any number of requests: once all have ended, served are exactly
      those whose read came before the first removal of the key and that did not fail
      afterwards; at any moment no others are. */
  lemma ServedExactly(t: Token, data: Store, ids: seq<string>, run: seq<Label>)
    requires Fresh(t, ids)
    ensures var s := Start(data, ids); ServedOf(Exec(t, s, run)) <= EarlyReaders(t, s, run) - FailedLater(t, s, run)
    ensures var s := Start(data, ids);
            Ended(Exec(t, s, run)) ==> ServedOf(Exec(t, s, run)) == EarlyReaders(t, s, run) - FailedLater(t, s, run)
  {
    Reachable(t, data, ids, run);
  }

  /** A request reads once, so early readers number as many as early reads. */
  lemma {:induction false} ReadsAreReaders(t: Token, data: Store, ids: seq<string>, run: seq<Label>)
    requires Fresh(t, ids)
    ensures EarlyReads(t, Start(data, ids), run) == |EarlyReaders(t, Start(data, ids), run)|
  {
    if run != [] {
      ReadsAreReaders(t, data, ids, run[..|run| - 1]);
      Reachable(t, data, ids, run[..|run| - 1]);
    }
  }

  /** When no later statement fails and every user is found, as many requests are
      served as reads came before the first removal, so a token is good at most once
      exactly when at most one read did. */
  lemma AtMostOneServedExactlyWhen(t: Token, data: Store, ids: seq<string>, run: seq<Label>)
    requires Fresh(t, ids) && Ended(Exec(t, Start(data, ids), run)) && FailedLater(t, Start(data, ids), run) == {}
    ensures var s := Start(data, ids);
            && |ServedOf(Exec(t, s, run))| == EarlyReads(t, s, run)
            && (|ServedOf(Exec(t, s, run))| <= 1 <==> EarlyReads(t, s, run) <= 1)
  {
    var s := Start(data, ids);
    ServedExactly(t, data, ids, run);
    ReadsAreReaders(t, data, ids, run);
    assert EarlyReaders(t, s, run) - {} == EarlyReaders(t, s, run);
  }

  /** Whatever fails, as long as only one request reads before the first removal, as
      when they come one after the other, at most one is ever served. */
  lemma SpentOnce(t: Token, data: Store, ids: seq<string>, run: seq<Label>)
    requires Fresh(t, ids) && EarlyReads(t, Start(data, ids), run) <= 1
    ensures |ServedOf(Exec(t, Start(data, ids), run))| <= 1
  {
    var s := Start(data, ids);
    ServedExactly(t, data, ids, run);
    ReadsAreReaders(t, data, ids, run);
    SubsetSize(ServedOf(Exec(t, s, run)), EarlyReaders(t, s, run));
  }

  // ------------------------------------------------------------------
  // Live successors
  // ------------------------------------------------------------------

  ghost predicate Alive(t: Token, s: State) {
    forall k :: k in ServedOf(s) ==>
      var key := Key(t.tenant, s.requests[k].newJti); key in s.data && s.data[key] == t.user
  }

  lemma StepKeepsAlive(t: Token, ids: seq<string>, s: State, l: Label)
    requires Fresh(t, ids) && |s.requests| == |ids| && forall k :: 0 <= k < |ids| ==> s.requests[k].newJti == ids[k]
    requires Alive(t, s)
    ensures Alive(t, Next(t, s, l))
  {
    var s' := Next(t, s, l);
    forall k | k in ServedOf(s')
      ensures var key := Key(t.tenant, s'.requests[k].newJti); key in s'.data && s'.data[key] == t.user
    {
      KeysDiffer(t.tenant, ids[k], t.jti);
      assert k in ServedOf(s) || (l.Step? && l.k == k);
    }
  }

  /** Every served request has left its user a token of its own. */
  lemma {:induction false} ServedHoldTokens(t: Token, data: Store, ids: seq<string>, run: seq<Label>)
    requires Fresh(t, ids)
    ensures Alive(t, Exec(t, Start(data, ids), run))
  {
    if run != [] {
      ServedHoldTokens(t, data, ids, run[..|run| - 1]);
      Reachable(t, data, ids, run[..|run| - 1]);
      StepKeepsAlive(t, ids, Exec(t, Start(data, ids), run[..|run| - 1]), run[|run| - 1]);
    }
  }

  /** No two of these tokens are one. */
  lemma TokensAreTheirOwn(t: Token, data: Store, ids: seq<string>, run: seq<Label>, j: nat, k: nat)
    requires Fresh(t, ids) && j < k && j in ServedOf(Exec(t, Start(data, ids), run)) && k in ServedOf(Exec(t, Start(data, ids), run))
    ensures var rs := Exec(t, Start(data, ids), run).requests; Key(t.tenant, rs[j].newJti) != Key(t.tenant, rs[k].newJti)
  {
    Reachable(t, data, ids, run);
    KeysDiffer(t.tenant, ids[j], ids[k]);
  }

  // ------------------------------------------------------------------
  // All can be served
  // ------------------------------------------------------------------

  lemma Append(t: Token, s: State, run: seq<Label>, l: Label)
    ensures Exec(t, s, run + [l]) == Next(t, Exec(t, s, run), l)
  {
    assert (run + [l])[..|run|] == run;
  }

  /** The first n requests read the key. */
  lemma {:induction false} ReadAll(t: Token, data: Store, ids: seq<string>, n: nat) returns (run: seq<Label>)
    requires n <= |ids| && Stored(data, t.tenant, t.jti)
    ensures var s := Exec(t, Start(data, ids), run);
            s.data == data && forall k :: 0 <= k < |ids| ==> s.requests[k] == Request(ids[k], if k < n then Del else Get)
  {
    if n == 0 {
      run := [];
    } else {
      var before := ReadAll(t, data, ids, n - 1);
      run := before + [Step(n - 1, Works)];
      Append(t, Start(data, ids), before, Step(n - 1, Works));
    }
  }

  /** Request k's next statement works. */
  lemma MoveOne(t: Token, s: State, before: seq<Label>, k: nat) returns (run: seq<Label>)
    requires k < |s.requests|
    ensures var a, b := Exec(t, s, before), Exec(t, s, run);
            b.requests == a.requests[k := a.requests[k].(pc := RequestStep(t, a.data, a.requests[k], Works).1)]
  {
    Append(t, s, before, Step(k, Works));
    run := before + [Step(k, Works)];
  }

  /** One request goes from its removal to the end. */
  lemma FinishOne(t: Token, s: State, before: seq<Label>, k: nat) returns (run: seq<Label>)
    requires k < |s.requests| && Exec(t, s, before).requests[k].pc.Del?
    ensures var a, b := Exec(t, s, before), Exec(t, s, run); b.requests == a.requests[k := a.requests[k].(pc := Served)]
  {
    run := MoveOne(t, s, before, k);
    run := MoveOne(t, s, run, k);
    run := MoveOne(t, s, run, k);
  }

  lemma {:induction false} FinishAll(t: Token, data: Store, ids: seq<string>, n: nat) returns (run: seq<Label>)
    requires n <= |ids| && Stored(data, t.tenant, t.jti)
    ensures var s := Exec(t, Start(data, ids), run);
            forall k :: 0 <= k < |ids| ==> s.requests[k] == Request(ids[k], if k < n then Served else Del)
  {
    if n == 0 {
      run := ReadAll(t, data, ids, |ids|);
    } else {
      var before := FinishAll(t, data, ids, n - 1);
      run := FinishOne(t, Start(data, ids), before, n - 1);
    }
  }

  /** Any number of requests that all read before any removes are all served, and the
      user ends up with as many live tokens. */
  lemma SpentByAllWhenOverlapping(t: Token, data: Store, ids: seq<string>) returns (run: seq<Label>)
    requires Fresh(t, ids) && Stored(data, t.tenant, t.jti)
    ensures var s := Exec(t, Start(data, ids), run);
            forall k :: 0 <= k < |ids| ==>
              s.requests[k].pc.Served? && Key(t.tenant, ids[k]) in s.data && s.data[Key(t.tenant, ids[k])] == t.user
  {
    run := FinishAll(t, data, ids, |ids|);
    ServedHoldTokens(t, data, ids, run);
    assert forall k :: 0 <= k < |ids| ==> k in ServedOf(Exec(t, Start(data, ids), run));
  }

  /** Two requests, one token: both read, then both go on, and two tokens are live. */
  lemma SpentTwiceWhenOverlapping(t: Token, data: Store, first: string, second: string)
    requires Fresh(t, [first, second]) && Stored(data, t.tenant, t.jti)
    ensures exists run :: |ServedOf(Exec(t, Start(data, [first, second]), run))| == 2
  {
    var run := SpentByAllWhenOverlapping(t, data, [first, second]);
    assert ServedOf(Exec(t, Start(data, [first, second]), run)) == {0, 1};
  }
}

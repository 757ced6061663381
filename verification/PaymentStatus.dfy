/** What the status of a payment says about the policy it paid for. A failed event
    that comes after a succeeded one marks the payment failed and leaves the policy
    active. */
module PaymentStatus {
  import opened Wrappers
  import opened PaymentProtocol
  import opened PaymentActivation
  import opened PaymentCounterexamples

  /** What the next statement of a handler writes into the status of payment i. */
  function MarkOf(h: Handler, o: Outcome, i: nat): Option<Status> {
    if !o.Works? then None
    else if h.task == OnSucceeded(EventOf(h.task), i) && h.pc.MarkSucceeded? then Some(Succeeded)
    else if h.task == OnFailed(EventOf(h.task), i) && h.pc.MarkFailed? then Some(Failed)
    else None
  }

  function EventOf(task: Task): nat { if task.CreateIntent? then 0 else task.event }

  /** The status written last into payment i during the run. */
  function LastMark(foreign: map<nat, Policy>, run: seq<Label>, i: nat): Status
    decreases |run|
  {
    if run == [] then Pending
    else
      var s, l := Exec(Start(foreign), run[..|run| - 1]), run[|run| - 1];
      var mark := if l.Move? && l.k < |s.handlers| && !s.handlers[l.k].stopped then MarkOf(s.handlers[l.k], l.o, i) else None;
      if mark.Some? then mark.value else LastMark(foreign, run[..|run| - 1], i)
  }

  /** The handler has found the payment of its event. */
  predicate HasPayment(h: Handler) {
    (h.task.OnSucceeded? && !h.pc.CheckEvent? && !h.pc.FindPayment? && !h.pc.Done?) || (h.task.OnFailed? && h.pc.MarkFailed?)
  }

  predicate Paid(payments: map<nat, Payment>, i: nat) { i in payments && payments[i].status != Pending }

  /** A handler works on a payment that is there, and saves a policy only for one it
      has marked. */
  predicate Found(h: Handler, payments: map<nat, Payment>) {
    && (HasPayment(h) ==> h.task.intent in payments)
    && (h.task.OnSucceeded? && (h.pc.SetMethod? || h.pc.SavePolicy?) ==> Paid(payments, h.task.intent))
  }

  lemma CreateKeepsStatus(db: Db, h: Handler, o: Outcome, i: nat)
    requires h.task.CreateIntent?
    ensures var p := HandlerStep(db, h, o).db.payments;
            if i in db.payments then i in p && p[i] == db.payments[i] else i in p ==> p[i].status == Pending
  {
  }

  lemma SucceededMarks(db: Db, h: Handler, o: Outcome, i: nat)
    requires h.task.OnSucceeded?
    ensures var p := HandlerStep(db, h, o).db.payments;
            && (i in p <==> i in db.payments)
            && (i in p ==> p[i].status == (var m := MarkOf(h, o, i); if m.Some? then m.value else db.payments[i].status))
  {
  }

  lemma FailedMarks(db: Db, h: Handler, o: Outcome, i: nat)
    requires h.task.OnFailed?
    ensures var p := HandlerStep(db, h, o).db.payments;
            && (i in p <==> i in db.payments)
            && (i in p ==> p[i].status == (var m := MarkOf(h, o, i); if m.Some? then m.value else db.payments[i].status))
  {
  }

  lemma StaysFound(db: Db, h: Handler, o: Outcome)
    requires Found(h, db.payments)
    ensures var e := HandlerStep(db, h, o); Found(h.(pc := e.pc, stopped := e.stopped), e.db.payments)
  {
  }

  ghost predicate AllFound(s: State, foreign: map<nat, Policy>) {
    && (forall k :: 0 <= k < |s.handlers| ==> Found(s.handlers[k], s.db.payments))
    && forall i :: i in s.db.policies && i !in foreign ==> Paid(s.db.payments, i)
  }

  /** Payments stay, and a marked one is never pending again. */
  lemma PaymentsStay(db: Db, h: Handler, o: Outcome, i: nat)
    requires i in db.payments
    ensures var p := HandlerStep(db, h, o).db.payments; i in p && (Paid(db.payments, i) ==> Paid(p, i))
  {
    match h.task
    case CreateIntent(_) => CreateKeepsStatus(db, h, o, i);
    case OnSucceeded(_, _) => SucceededMarks(db, h, o, i);
    case OnFailed(_, _) => FailedMarks(db, h, o, i);
  }

  lemma OthersFound(db: Db, h: Handler, o: Outcome, other: Handler)
    requires Found(other, db.payments)
    ensures Found(other, HandlerStep(db, h, o).db.payments)
  {
    if HasPayment(other) { PaymentsStay(db, h, o, other.task.intent); }
  }

  lemma PoliciesPaid(s: State, k: nat, o: Outcome, i: nat)
    requires k < |s.handlers| && Found(s.handlers[k], s.db.payments) && i in Moved(s, k, o).db.policies
    requires i in s.db.policies ==> Paid(s.db.payments, i)
    ensures Paid(Moved(s, k, o).db.payments, i)
  {
    var h := s.handlers[k];
    if h.task.OnSucceeded? { MovedHandlerKeepsPolicies(s.db, h, o); } else { QuietStep(s.db, h, o); }
    PaymentsStay(s.db, h, o, i);
  }

  lemma MovedFound(s: State, k: nat, o: Outcome, foreign: map<nat, Policy>)
    requires AllFound(s, foreign) && k < |s.handlers|
    ensures AllFound(Moved(s, k, o), foreign)
  {
    var h, t := s.handlers[k], Moved(s, k, o);
    assert Found(h, s.db.payments);
    StaysFound(s.db, h, o);
    forall m | 0 <= m < |t.handlers| ensures Found(t.handlers[m], t.db.payments) {
      if m != k { OthersFound(s.db, h, o, s.handlers[m]); }
    }
    forall i | i in t.db.policies && i !in foreign ensures Paid(t.db.payments, i) { PoliciesPaid(s, k, o, i); }
  }

  lemma MovedStatus(s: State, k: nat, o: Outcome, foreign: map<nat, Policy>, i: nat)
    requires AllFound(s, foreign) && k < |s.handlers|
    ensures Written(Moved(s, k, o), i) == (var m := MarkOf(s.handlers[k], o, i); if m.Some? then m.value else Written(s, i))
  {
    var h := s.handlers[k];
    assert Found(h, s.db.payments);
    match h.task
    case CreateIntent(_) => CreateKeepsStatus(s.db, h, o, i);
    case OnSucceeded(_, _) => SucceededMarks(s.db, h, o, i);
    case OnFailed(_, _) => FailedMarks(s.db, h, o, i);
  }

  /** The status of payment i; a payment that is not there yet is pending. */
  function Written(s: State, i: nat): Status { if i in s.db.payments then s.db.payments[i].status else Pending }

  lemma {:induction false} WrittenIsLastMark(foreign: map<nat, Policy>, run: seq<Label>, i: nat)
    ensures var s := Exec(Start(foreign), run); AllFound(s, foreign) && Written(s, i) == LastMark(foreign, run, i)
    decreases |run|
  {
    if run != [] {
      WrittenIsLastMark(foreign, run[..|run| - 1], i);
      var s, l := Exec(Start(foreign), run[..|run| - 1]), run[|run| - 1];
      if l.Move? && l.k < |s.handlers| && !s.handlers[l.k].stopped {
        MovedFound(s, l.k, l.o, foreign);
        MovedStatus(s, l.k, l.o, foreign, i);
      }
    }
  }

  /** In every run a payment has succeeded exactly when its last mark came from a
      succeeded event. A policy that the webhook created is active and its payment was
      marked, but as failed if the last mark came from a failed event. */
  lemma PaidExactlyWhen(foreign: map<nat, Policy>, run: seq<Label>, i: nat)
    ensures var db, last := Exec(Start(foreign), run).db, LastMark(foreign, run, i);
            && (i in db.payments && db.payments[i].status == Succeeded <==> last == Succeeded)
            && (i in db.payments && db.payments[i].status == Failed <==> last == Failed)
            && (i in db.policies && i !in foreign ==> db.policies[i].active && i in db.payments && last != Pending)
  {
    if i !in foreign { AtMostOnce(foreign, run, i); }
    WrittenIsLastMark(foreign, run, i);
  }

  // ----- an active policy whose payment failed -----

  /** A running handler of a succeeded event is about to mark payment i. */
  predicate AboutToMark(h: Handler, i: nat) { h.task.OnSucceeded? && h.task.intent == i && h.pc.MarkSucceeded? && !h.stopped }

  predicate Contradicted(db: Db, i: nat) {
    i in db.policies && db.policies[i].active && i in db.payments && db.payments[i].status == Failed
  }

  ghost predicate Stuck(s: State, i: nat) {
    Contradicted(s.db, i) && forall k :: 0 <= k < |s.handlers| ==> !AboutToMark(s.handlers[k], i)
  }

  lemma {:induction false} StuckStays(s: State, more: seq<Label>, i: nat)
    requires Stuck(s, i)
    ensures Stuck(Exec(s, more), i)
    decreases |more|
  {
    if more != [] {
      StuckStays(s, more[..|more| - 1], i);
      var t, l := Exec(s, more[..|more| - 1]), more[|more| - 1];
      if l.Move? && l.k < |t.handlers| && !t.handlers[l.k].stopped { MovedStuck(t, l.k, l.o, i); }
    }
  }

  lemma MovedStuck(s: State, k: nat, o: Outcome, i: nat)
    requires Stuck(s, i) && k < |s.handlers| && !s.handlers[k].stopped
    ensures Stuck(Moved(s, k, o), i)
  {
    var h := s.handlers[k];
    assert !AboutToMark(h, i);
    match h.task
    case CreateIntent(_) =>
      CreateKeepsStatus(s.db, h, o, i);
      QuietStep(s.db, h, o);
    case OnSucceeded(_, _) =>
      SucceededMarks(s.db, h, o, i);
      MovedHandlerKeepsPolicies(s.db, h, o);
      NotAboutToMark(s.db, h, o, i);
    case OnFailed(_, _) =>
      FailedMarks(s.db, h, o, i);
      QuietStep(s.db, h, o);
  }

  /** No handler gets past an active policy to the payment. */
  lemma NotAboutToMark(db: Db, h: Handler, o: Outcome, i: nat)
    requires h.task.OnSucceeded? && !h.stopped && !AboutToMark(h, i) && Contradicted(db, i)
    ensures var e := HandlerStep(db, h, o); !AboutToMark(h.(pc := e.pc, stopped := e.stopped), i)
  {
  }

  ghost predicate CanBeMended(s: State, i: nat) {
    exists more :: var db := Exec(s, more).db; i in db.payments && db.payments[i].status == Succeeded
  }

  /** Once a payment is failed and its policy active, some continuation marks it
      succeeded again exactly when a running handler of a succeeded event has already
      passed the look-up of the policy and is about to. A later delivery never does. */
  lemma MendedExactlyWhen(s: State, i: nat)
    requires Contradicted(s.db, i)
    ensures CanBeMended(s, i) <==> exists k :: 0 <= k < |s.handlers| && AboutToMark(s.handlers[k], i)
  {
    if k :| 0 <= k < |s.handlers| && AboutToMark(s.handlers[k], i) {
      Extend(s, [], s, Move(k, Works(0)));
      SucceededMarks(s.db, s.handlers[k], Works(0), i);
      assert Exec(s, [] + [Move(k, Works(0))]).db.payments[i].status == Succeeded;
    } else {
      forall more ensures Contradicted(Exec(s, more).db, i) { StuckStays(s, more, i); }
    }
  }

  ghost predicate CanBeStuck(foreign: map<nat, Policy>, i: nat) { exists run :: Stuck(Exec(Start(foreign), run), i) }

  /** Every intent can end so: it is paid, its policy is active or made active, and
      then a failed event arrives. */
  lemma FailedAfterSucceeded(foreign: map<nat, Policy>, i: nat)
    ensures CanBeStuck(foreign, i)
  {
    var run, a;
    if i in foreign && foreign[i].active { run, a := Pay(Start(foreign), i); } else { run, a := PayAndSucceed(foreign, i); }
    run, a := Fail(Start(foreign), run, a, i);
  }

  lemma PayAndSucceed(foreign: map<nat, Policy>, i: nat) returns (run: seq<Label>, a: State)
    requires i in foreign ==> !foreign[i].active
    ensures Exec(Start(foreign), run) == a && BeforeFailure(a, i)
  {
    var s := Start(foreign);
    var p;
    run, a := Pay(s, i);
    run, a := Arrive(s, run, a, i, 1);
    run, a, p := LookUp(s, run, a, i, 1);
    run, a := Mark(s, run, a, i, 1, p, i in foreign);
    run, a := SaveAfterMark(s, run, a, i, p, i in foreign);
  }

  lemma SaveAfterMark(s: State, run: seq<Label>, a: State, i: nat, p: Payment, existing: bool)
    returns (longer: seq<Label>, b: State)
    requires Exec(s, run) == a && |a.handlers| == 2 && 2 !in a.known && Paid(a.db.payments, i) && a.db.payments[i].status == Succeeded
    requires a.handlers[1] == Handler(OnSucceeded(1, i), SavePolicy(p, existing), false) && a.handlers[0].task.CreateIntent?
    requires existing <==> i in a.db.policies
    ensures Exec(s, longer) == b && BeforeFailure(b, i)
  {
    longer, b := MoveOne(s, run, a, 1, Works(0));
  }

  predicate BeforeFailure(s: State, i: nat) {
    && 2 !in s.known && i in s.db.payments && s.db.payments[i].status != Failed
    && i in s.db.policies && s.db.policies[i].active
    && forall k :: 0 <= k < |s.handlers| ==> !AboutToMark(s.handlers[k], i)
  }

  lemma Fail(s: State, run: seq<Label>, a: State, i: nat) returns (longer: seq<Label>, b: State)
    requires Exec(s, run) == a && BeforeFailure(a, i)
    ensures Exec(s, longer) == b && Stuck(b, i)
  {
    var l, k := Deliver(2, StripeEvent(i, false)), |a.handlers|;
    Extend(s, run, a, l);
    longer, b := run + [l], Next(a, l);
    longer, b := MoveOne(s, longer, b, k, Works(0));
    longer, b := MoveOne(s, longer, b, k, Works(0));
  }
}

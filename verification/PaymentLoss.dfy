/** When the PDF job of an active policy is lost for good, and when it is certain. */
module PaymentLoss {
  import opened PaymentProtocol
  import opened PaymentActivation
  import opened PaymentCounterexamples

  predicate ActivePolicy(db: Db, i: nat) { i in db.policies && db.policies[i].active }

  // ----- who can still queue the job of an active policy -----

  /** A running handler that found the policy inactive, or is past saving it, and
      whose event nobody has recorded; or one about to queue. One that found no policy
      throws when it saves its own, since there is one now. */
  predicate CanQueue(db: Db, h: Handler, i: nat) {
    && !h.stopped && h.task.OnSucceeded? && h.task.intent == i
    && match h.pc
       case MarkSucceeded(_, existing) => existing && !HasEvent(db.events, h.task.event)
       case SetMethod(_, existing) => existing && !HasEvent(db.events, h.task.event)
       case SavePolicy(_, existing) => existing && !HasEvent(db.events, h.task.event)
       case InsertEvent(_) => !HasEvent(db.events, h.task.event)
       case QueuePdf => true
       case _ => false
  }

  ghost predicate SomeoneCanQueue(s: State, i: nat) { exists k :: 0 <= k < |s.handlers| && CanQueue(s.db, s.handlers[k], i) }

  lemma EventStays(db: Db, h: Handler, o: Outcome, event: nat)
    requires HasEvent(db.events, event)
    ensures HasEvent(HandlerStep(db, h, o).db.events, event)
  {
    var events := HandlerStep(db, h, o).db.events;
    if h.task.OnSucceeded? { MovedHandlerKeepsPolicies(db, h, o); } else { QuietStep(db, h, o); }
    var k :| 0 <= k < |db.events| && db.events[k].Activated? && db.events[k].stripeEvent == event;
    assert events[k] == db.events[k];
  }

  lemma OthersCannot(db: Db, h: Handler, o: Outcome, other: Handler, i: nat)
    requires !CanQueue(db, other, i)
    ensures !CanQueue(HandlerStep(db, h, o).db, other, i)
  {
    if other.task.OnSucceeded? && HasEvent(db.events, other.task.event) { EventStays(db, h, o, other.task.event); }
  }

  lemma StaysActive(db: Db, h: Handler, o: Outcome, i: nat)
    requires ActivePolicy(db, i)
    ensures ActivePolicy(HandlerStep(db, h, o).db, i)
  {
    if h.task.OnSucceeded? { MovedHandlerKeepsPolicies(db, h, o); } else { QuietStep(db, h, o); }
  }

  /** Nobody gets past the look-up of an active policy, and an event is recorded once. */
  lemma MoverCannot(db: Db, h: Handler, o: Outcome, i: nat)
    requires ActivePolicy(db, i) && !h.stopped && !CanQueue(db, h, i)
    ensures var e := HandlerStep(db, h, o); !CanQueue(e.db, h.(pc := e.pc, stopped := e.stopped), i)
  {
    if h.task.OnSucceeded? && h.task.intent == i {
      if HasEvent(db.events, h.task.event) { EventStays(db, h, o, h.task.event); }
      OwnMoverCannot(db, h, o, i);
    }
  }

  lemma OwnMoverCannot(db: Db, h: Handler, o: Outcome, i: nat)
    requires ActivePolicy(db, i) && !h.stopped && !CanQueue(db, h, i) && h.task.OnSucceeded? && h.task.intent == i
    requires HasEvent(db.events, h.task.event) ==> HasEvent(HandlerStep(db, h, o).db.events, h.task.event)
    ensures var e := HandlerStep(db, h, o); !CanQueue(e.db, h.(pc := e.pc, stopped := e.stopped), i)
  {
  }

  lemma SameJobs(db: Db, h: Handler, o: Outcome, i: nat)
    requires !h.stopped && !CanQueue(db, h, i)
    ensures Jobs(HandlerStep(db, h, o).db.pdfQueue, i) == Jobs(db.pdfQueue, i)
  {
    if h.task.OnSucceeded? {
      MovedHandlerKeepsPolicies(db, h, o);
      CountSnoc(db.events, PdfQueued(0), db.pdfQueue, h.task.intent, i);
    } else {
      QuietStep(db, h, o);
    }
  }

  lemma MovedCannot(s: State, k: nat, o: Outcome, i: nat)
    requires ActivePolicy(s.db, i) && !SomeoneCanQueue(s, i) && k < |s.handlers| && !s.handlers[k].stopped
    ensures var t := Moved(s, k, o);
            ActivePolicy(t.db, i) && !SomeoneCanQueue(t, i) && Jobs(t.db.pdfQueue, i) == Jobs(s.db.pdfQueue, i)
  {
    var h, t := s.handlers[k], Moved(s, k, o);
    StaysActive(s.db, h, o, i);
    SameJobs(s.db, h, o, i);
    forall m | 0 <= m < |t.handlers| ensures !CanQueue(t.db, t.handlers[m], i) {
      if m == k { MoverCannot(s.db, h, o, i); } else { OthersCannot(s.db, h, o, s.handlers[m], i); }
    }
  }

  /** If nobody can, nobody ever will, whatever is delivered. */
  lemma {:induction false} NeverQueued(s: State, more: seq<Label>, i: nat)
    requires ActivePolicy(s.db, i) && !SomeoneCanQueue(s, i)
    ensures var t := Exec(s, more);
            ActivePolicy(t.db, i) && !SomeoneCanQueue(t, i) && Jobs(t.db.pdfQueue, i) == Jobs(s.db.pdfQueue, i)
    decreases |more|
  {
    if more != [] {
      NeverQueued(s, more[..|more| - 1], i);
      var t, l := Exec(s, more[..|more| - 1]), more[|more| - 1];
      match l
      case Move(k, o) => if k < |t.handlers| && !t.handlers[k].stopped { MovedCannot(t, k, o, i); }
      case Call(key) =>
      case Deliver(event, what) =>
      case Crash(k) =>
      case ForgetKey(key) =>
    }
  }

  function Distance(pc: Pc): nat {
    match pc
    case MarkSucceeded(_, _) => 4
    case SetMethod(_, _) => 3
    case SavePolicy(_, _) => 2
    case InsertEvent(_) => 1
    case _ => 0
  }

  lemma Advances(db: Db, h: Handler, i: nat)
    requires i in db.policies && CanQueue(db, h, i) && !h.pc.QueuePdf?
    ensures var e := HandlerStep(db, h, Works(0));
            && i in e.db.policies && e.db.pdfQueue == db.pdfQueue
            && CanQueue(e.db, h.(pc := e.pc, stopped := e.stopped), i) && Distance(e.pc) == Distance(h.pc) - 1
  {
  }

  /** A handler that can queue does so if it goes on alone. */
  lemma {:induction false} GoesOn(s: State, run: seq<Label>, a: State, k: nat, i: nat) returns (longer: seq<Label>)
    requires Exec(s, run) == a && k < |a.handlers| && i in a.db.policies && CanQueue(a.db, a.handlers[k], i)
    ensures Jobs(Exec(s, longer).db.pdfQueue, i) == Jobs(a.db.pdfQueue, i) + 1
    decreases if k < |a.handlers| then Distance(a.handlers[k].pc) else 0
  {
    var b;
    if a.handlers[k].pc.QueuePdf? {
      longer, b := MoveOne(s, run, a, k, Works(0));
      CountSnoc(a.db.events, PdfQueued(0), a.db.pdfQueue, i, i);
    } else {
      Advances(a.db, a.handlers[k], i);
      longer, b := MoveOne(s, run, a, k, Works(0));
      longer := GoesOn(s, longer, b, k, i);
    }
  }

  ghost predicate CanBeQueued(s: State, i: nat) {
    exists more :: Jobs(Exec(s, more).db.pdfQueue, i) > Jobs(s.db.pdfQueue, i)
  }

  /** Once a policy is active, some continuation queues its PDF once more exactly when a
      handler is under way that can. A later delivery never does. */
  lemma QueuedLaterExactlyWhen(s: State, i: nat)
    requires ActivePolicy(s.db, i)
    ensures CanBeQueued(s, i) <==> SomeoneCanQueue(s, i)
  {
    if SomeoneCanQueue(s, i) {
      var k: nat :| k < |s.handlers| && CanQueue(s.db, s.handlers[k], i);
      var more := GoesOn(s, [], s, k, i);
    } else {
      forall more ensures Jobs(Exec(s, more).db.pdfQueue, i) == Jobs(s.db.pdfQueue, i) { NeverQueued(s, more, i); }
    }
  }

  // ----- a lost job -----

  /** The policy is active and its PDF is not queued, now or in any continuation. */
  ghost predicate JobLost(s: State, i: nat) {
    ActivePolicy(s.db, i) && forall more :: Jobs(Exec(s, more).db.pdfQueue, i) == 0
  }

  /** The job of an active policy is lost exactly when it is not queued and nobody under
      way can queue it: the next delivery finds the policy active and returns. */
  lemma LostForever(s: State, i: nat)
    requires ActivePolicy(s.db, i)
    ensures JobLost(s, i) <==> Jobs(s.db.pdfQueue, i) == 0 && !SomeoneCanQueue(s, i)
  {
    assert Exec(s, []) == s;
    QueuedLaterExactlyWhen(s, i);
  }

  /** A policy that the webhook inserted has lost its job exactly when the handler that
      inserted it stopped before queueing. */
  lemma LostByItsCreator(foreign: map<nat, Policy>, run: seq<Label>, i: nat)
    requires i !in foreign && i in Exec(Start(foreign), run).db.policies
    ensures var s := Exec(Start(foreign), run);
            && i in s.creator && s.creator[i] < |s.handlers|
            && var c := s.handlers[s.creator[i]];
               (JobLost(s, i) <==> c.stopped && (c.pc.InsertEvent? || c.pc.QueuePdf?))
  {
    var s := Exec(Start(foreign), run);
    Reachable(foreign, run);
    assert PolicyOk(s, i);
    var c := s.creator[i];
    LostForever(s, i);
    assert HandlerOk(s, s.handlers[c], foreign);
    if s.handlers[c].pc.InsertEvent? { NewEvent(s, i, s.handlers[c].task.event); }
    forall k | 0 <= k < |s.handlers| && k != c ensures !CanQueue(s.db, s.handlers[k], i) {
      assert HandlerOk(s, s.handlers[k], foreign);
    }
  }

  // ----- which intents can lose their job -----

  /** The policy was not active at some moment of the run. */
  ghost predicate WasNotActive(foreign: map<nat, Policy>, run: seq<Label>, i: nat) {
    exists p: nat :: p <= |run| && !ActivePolicy(Exec(Start(foreign), run[..p]).db, i)
  }

  ghost predicate LosesJob(foreign: map<nat, Policy>, run: seq<Label>, i: nat) {
    WasNotActive(foreign, run, i) && JobLost(Exec(Start(foreign), run), i)
  }

  ghost predicate CanBeLost(foreign: map<nat, Policy>, i: nat) { exists run :: LosesJob(foreign, run, i) }

  /** A client pays, the event arrives, its handler inserts the policy, or activates
      the one that was there, and crashes. */
  lemma CrashAfterPolicy(foreign: map<nat, Policy>, i: nat) returns (run: seq<Label>)
    requires i in foreign ==> !foreign[i].active
    ensures LosesJob(foreign, run, i)
  {
    var s := Start(foreign);
    var a, p;
    run, a := Pay(s, i);
    run, a := Arrive(s, run, a, i, 1);
    run, a, p := LookUp(s, run, a, i, 1);
    run, a := Mark(s, run, a, i, 1, p, i in foreign);
    run, a := SaveNow(s, run, a, i, p, i in foreign);
    run, a := CrashNow(s, run, a, i);
    assert run[..0] == [];
  }

  predicate OnlyOneWorks(s: State, i: nat) {
    |s.handlers| == 2 && s.handlers[0].task.CreateIntent? && s.db.pdfQueue == [] && ActivePolicy(s.db, i)
  }

  lemma SaveNow(s: State, run: seq<Label>, a: State, i: nat, p: Payment, existing: bool)
    returns (longer: seq<Label>, b: State)
    requires Exec(s, run) == a && |a.handlers| == 2 && a.db.pdfQueue == [] && a.handlers[0].task.CreateIntent?
    requires a.handlers[1] == Handler(OnSucceeded(1, i), SavePolicy(p, existing), false) && (existing <==> i in a.db.policies)
    ensures Exec(s, longer) == b && OnlyOneWorks(b, i)
  {
    longer, b := MoveOne(s, run, a, 1, Works(0));
  }

  lemma CrashNow(s: State, run: seq<Label>, a: State, i: nat) returns (longer: seq<Label>, b: State)
    requires Exec(s, run) == a && OnlyOneWorks(a, i)
    ensures Exec(s, longer) == b && JobLost(b, i)
  {
    Extend(s, run, a, Crash(1));
    longer, b := run + [Crash(1)], Next(a, Crash(1));
    LostForever(b, i);
  }

  /** Some run makes a policy active and loses its PDF job exactly when the policy was
      not active before. */
  lemma LostExactlyWhen(foreign: map<nat, Policy>, i: nat)
    ensures CanBeLost(foreign, i) <==> (i in foreign ==> !foreign[i].active)
  {
    if i in foreign && foreign[i].active {
      forall run ensures !WasNotActive(foreign, run, i) {
        forall p: nat | p <= |run| ensures ActivePolicy(Exec(Start(foreign), run[..p]).db, i) {
          ActivePolicyIsLeftAlone(foreign, run[..p], i);
        }
      }
    } else {
      var run := CrashAfterPolicy(foreign, i);
    }
  }

  // ----- when nothing fails -----

  /** No handler crashes, and no statement of a handler of a succeeded event fails but
      for the unique indexes. */
  ghost predicate Undisturbed(foreign: map<nat, Policy>, run: seq<Label>) {
    forall p: nat :: p < |run| ==> NothingFails(Exec(Start(foreign), run[..p]), run[p])
  }

  predicate NothingFails(s: State, l: Label) {
    !l.Crash? && (l.Move? && l.k < |s.handlers| && s.handlers[l.k].task.OnSucceeded? ==> l.o.Works?)
  }

  /** A handler stops only because another has inserted its policy first. */
  ghost predicate StopsAtSave(s: State, foreign: map<nat, Policy>) {
    forall k :: 0 <= k < |s.handlers| ==> StopOk(s, s.handlers[k], foreign)
  }

  predicate StopOk(s: State, h: Handler, foreign: map<nat, Policy>) {
    h.stopped && h.task.OnSucceeded? && h.task.intent !in foreign ==> h.pc.SavePolicy? && h.task.intent in s.db.policies
  }

  lemma MovedStopOk(s: State, k: nat, o: Outcome, foreign: map<nat, Policy>)
    requires Inv(s, foreign) && StopsAtSave(s, foreign) && k < |s.handlers| && !s.handlers[k].stopped
    requires s.handlers[k].task.OnSucceeded? ==> o.Works?
    ensures StopsAtSave(Moved(s, k, o), foreign)
  {
    var h, t := s.handlers[k], Moved(s, k, o);
    assert HandlerOk(s, h, foreign);
    MovedHandlerOk(s, k, o, foreign);
    forall m | 0 <= m < |t.handlers| ensures StopOk(t, t.handlers[m], foreign) {
      if m == k {
        if h.task.OnSucceeded? { StoppedBySave(s.db, h, o); }
      } else {
        assert StopOk(s, s.handlers[m], foreign);
      }
    }
  }

  lemma StoppedBySave(db: Db, h: Handler, o: Outcome)
    requires h.task.OnSucceeded? && o.Works? && !h.stopped
    ensures var e := HandlerStep(db, h, o);
            e.stopped ==> e.pc == h.pc && h.pc.SavePolicy? && (!h.pc.existing ==> h.task.intent in db.policies)
  {
  }

  lemma UndisturbedBefore(foreign: map<nat, Policy>, run: seq<Label>, init: seq<Label>)
    requires Undisturbed(foreign, run) && run != [] && init == run[..|run| - 1]
    ensures Undisturbed(foreign, init) && NothingFails(Exec(Start(foreign), init), run[|run| - 1])
  {
    forall p: nat | p < |init| ensures NothingFails(Exec(Start(foreign), init[..p]), init[p]) {
      assert init[..p] == run[..p] && NothingFails(Exec(Start(foreign), run[..p]), run[p]);
    }
    var n: nat := |run| - 1;
    assert NothingFails(Exec(Start(foreign), run[..n]), run[n]);
  }

  lemma StepStops(s: State, l: Label, foreign: map<nat, Policy>)
    requires Inv(s, foreign) && StopsAtSave(s, foreign) && NothingFails(s, l)
    ensures StopsAtSave(Next(s, l), foreign)
  {
    if l.Move? && l.k < |s.handlers| && !s.handlers[l.k].stopped {
      MovedStopOk(s, l.k, l.o, foreign);
    }
  }

  lemma {:induction false} OnlyLosersStop(foreign: map<nat, Policy>, run: seq<Label>)
    requires Undisturbed(foreign, run)
    ensures StopsAtSave(Exec(Start(foreign), run), foreign)
    decreases |run|
  {
    if run != [] {
      var init := run[..|run| - 1];
      UndisturbedBefore(foreign, run, init);
      OnlyLosersStop(foreign, init);
      Reachable(foreign, init);
      StepStops(Exec(Start(foreign), init), run[|run| - 1], foreign);
    }
  }

  /** When no statement fails but for the unique indexes, and all handlers have ended:
      every intent of which one succeeded delivery found its payment has one policy, one
      activation and one job, however many deliveries raced and lost. */
  lemma ExactlyOnceWhenNothingFails(foreign: map<nat, Policy>, run: seq<Label>, k: nat)
    requires Undisturbed(foreign, run)
    requires var s := Exec(Start(foreign), run);
             && (forall m :: 0 <= m < |s.handlers| ==> s.handlers[m].pc.Done? || s.handlers[m].stopped)
             && k < |s.handlers| && s.handlers[k].task.OnSucceeded? && s.handlers[k].pc != Done(false)
             && s.handlers[k].task.intent !in foreign
    ensures var s := Exec(Start(foreign), run);
            var i := s.handlers[k].task.intent;
            ActivePolicy(s.db, i) && Activations(s.db.events, i) == 1 && Jobs(s.db.pdfQueue, i) == 1
  {
    var s := Exec(Start(foreign), run);
    OnlyLosersStop(foreign, run);
    Reachable(foreign, run);
    assert HandlerOk(s, s.handlers[k], foreign) && StopOk(s, s.handlers[k], foreign);
    var i := s.handlers[k].task.intent;
    assert PolicyOk(s, i);
    assert StopOk(s, s.handlers[s.creator[i]], foreign);
  }
}

/** Runs in which a PDF is queued twice, and exactly when there are such runs. */
module PaymentCounterexamples {
  import opened PaymentProtocol
  import opened PaymentActivation

  lemma Extend(s: State, run: seq<Label>, a: State, l: Label)
    requires Exec(s, run) == a
    ensures Exec(s, run + [l]) == Next(a, l)
  {
    assert (run + [l])[..|run|] == run;
  }

  lemma MoveOne(s: State, run: seq<Label>, a: State, k: nat, o: Outcome) returns (longer: seq<Label>, b: State)
    requires Exec(s, run) == a && k < |a.handlers| && !a.handlers[k].stopped
    ensures Exec(s, longer) == b
    ensures var e := HandlerStep(a.db, a.handlers[k], o);
            b.db == e.db && b.handlers == a.handlers[k := a.handlers[k].(pc := e.pc, stopped := e.stopped)]
    ensures b.known == a.known && (!Inserts(a.db, a.handlers[k], o) ==> b.creator == a.creator)
  {
    Extend(s, run, a, Move(k, o));
    longer, b := run + [Move(k, o)], Moved(a, k, o);
  }

  const QUOTE := Key(1, 1)

  /** A client pays for quote 1 with intent i, whose payment is recorded. */
  lemma Pay(s: State, i: nat) returns (run: seq<Label>, a: State)
    requires s.handlers == [] && s.db.payments == map[] && s.db.stripe == map[] && s.db.keys == map[]
    ensures Exec(s, run) == a && |a.handlers| == 1 && i in a.db.payments && a.known == s.known && a.creator == s.creator
    ensures a.db.policies == s.db.policies && a.db.events == s.db.events && a.db.pdfQueue == s.db.pdfQueue
    ensures a.db.payments[i].status == Pending && a.handlers[0].task.CreateIntent?
  {
    Extend(s, [], s, Call(QUOTE));
    run, a := [] + [Call(QUOTE)], Next(s, Call(QUOTE));
    run, a := MoveOne(s, run, a, 0, Works(0));
    assert Fee(100, 0.0) == 0;
    run, a := MoveOne(s, run, a, 0, Quoted(100, 0.0));
    run, a := MoveOne(s, run, a, 0, Works(i));
    run, a := MoveOne(s, run, a, 0, Works(0));
  }

  lemma Arrive(s: State, run: seq<Label>, a: State, i: nat, event: nat) returns (longer: seq<Label>, b: State)
    requires Exec(s, run) == a && event !in a.known
    ensures Exec(s, longer) == b && b.db == a.db && b.known == a.known[event := StripeEvent(i, true)] && b.creator == a.creator
    ensures b.handlers == a.handlers + [Handler(OnSucceeded(event, i), CheckEvent, false)]
  {
    Extend(s, run, a, Deliver(event, StripeEvent(i, true)));
    longer, b := run + [Deliver(event, StripeEvent(i, true))], Next(a, Deliver(event, StripeEvent(i, true)));
  }

  /** Handler k looks everything up and finds no active policy. */
  lemma LookUp(s: State, run: seq<Label>, a: State, i: nat, k: nat) returns (longer: seq<Label>, b: State, p: Payment)
    requires Exec(s, run) == a && k < |a.handlers| && a.handlers[k].task.OnSucceeded? && a.handlers[k].task.intent == i
    requires a.handlers[k].pc.CheckEvent? && !a.handlers[k].stopped && a.db.events == []
    requires i in a.db.payments && (i in a.db.policies ==> !a.db.policies[i].active)
    ensures Exec(s, longer) == b && b.db == a.db && b.creator == a.creator && b.known == a.known
    ensures b.handlers == a.handlers[k := a.handlers[k].(pc := MarkSucceeded(p, i in a.db.policies))]
  {
    longer, b := MoveOne(s, run, a, k, Works(0));
    longer, b := MoveOne(s, longer, b, k, Works(0));
    longer, b := MoveOne(s, longer, b, k, Works(0));
    p := a.db.payments[i];
  }

  /** Handler k marks the payment. */
  lemma Mark(s: State, run: seq<Label>, a: State, i: nat, k: nat, p: Payment, existing: bool) returns (longer: seq<Label>, b: State)
    requires Exec(s, run) == a && k < |a.handlers| && a.handlers[k].task.OnSucceeded? && a.handlers[k].task.intent == i
    requires a.handlers[k].pc == MarkSucceeded(p, existing) && !a.handlers[k].stopped
    ensures Exec(s, longer) == b && b.db.policies == a.db.policies && b.db.events == a.db.events && b.db.pdfQueue == a.db.pdfQueue
    ensures b.known == a.known && b.db.payments == Marked(a.db.payments, i, Succeeded)
    ensures b.handlers == a.handlers[k := a.handlers[k].(pc := SavePolicy(p, existing))]
  {
    longer, b := MoveOne(s, run, a, k, Works(0));
    longer, b := MoveOne(s, longer, b, k, Works(0));
  }

  /** Handler k goes on to activate the policy that was there. */
  lemma Activate(s: State, run: seq<Label>, a: State, i: nat, k: nat, p: Payment) returns (longer: seq<Label>, b: State)
    requires Exec(s, run) == a && k < |a.handlers| && a.handlers[k].task.OnSucceeded? && a.handlers[k].task.intent == i
    requires a.handlers[k].pc == MarkSucceeded(p, true) && !a.handlers[k].stopped && i in a.db.policies
    ensures Exec(s, longer) == b && i in b.db.policies && b.db.events == a.db.events && b.db.pdfQueue == a.db.pdfQueue
    ensures b.handlers == a.handlers[k := a.handlers[k].(pc := InsertEvent(p))]
  {
    longer, b := Mark(s, run, a, i, k, p, true);
    longer, b := MoveOne(s, longer, b, k, Works(0));
  }

  /** Handler k records its event and queues the PDF. */
  lemma Queue(s: State, run: seq<Label>, a: State, i: nat, k: nat, p: Payment) returns (longer: seq<Label>, b: State)
    requires Exec(s, run) == a && k < |a.handlers| && a.handlers[k].task.OnSucceeded? && a.handlers[k].task.intent == i
    requires a.handlers[k].pc == InsertEvent(p) && !a.handlers[k].stopped && i in a.db.policies
    requires !HasEvent(a.db.events, a.handlers[k].task.event)
    ensures Exec(s, longer) == b && i in b.db.policies
    ensures b.db.events == a.db.events + [Activated(i, a.handlers[k].task.event)] && b.db.pdfQueue == a.db.pdfQueue + [i]
    ensures b.handlers == a.handlers[k := a.handlers[k].(pc := LogQueued)]
  {
    longer, b := MoveOne(s, run, a, k, Works(0));
    longer, b := MoveOne(s, longer, b, k, Works(0));
  }

  // ----- two jobs -----

  /** Both events arrive and both handlers look the policy up. */
  lemma BothLookUp(foreign: map<nat, Policy>, i: nat) returns (run: seq<Label>, a: State, p: Payment, q: Payment)
    requires i in foreign && !foreign[i].active
    ensures Exec(Start(foreign), run) == a && |a.handlers| == 3 && i in a.db.policies && a.db.events == [] && a.db.pdfQueue == []
    ensures a.handlers[1] == Handler(OnSucceeded(1, i), MarkSucceeded(p, true), false)
    ensures a.handlers[2] == Handler(OnSucceeded(2, i), MarkSucceeded(q, true), false)
  {
    var s := Start(foreign);
    run, a := Pay(s, i);
    run, a := Arrive(s, run, a, i, 1);
    run, a := Arrive(s, run, a, i, 2);
    run, a, p := LookUp(s, run, a, i, 1);
    run, a, q := LookUp(s, run, a, i, 2);
  }

  lemma BothQueue(s: State, run: seq<Label>, a: State, i: nat, p: Payment, q: Payment) returns (longer: seq<Label>, b: State)
    requires Exec(s, run) == a && |a.handlers| == 3 && i in a.db.policies && a.db.events == [] && a.db.pdfQueue == []
    requires a.handlers[1] == Handler(OnSucceeded(1, i), InsertEvent(p), false)
    requires a.handlers[2] == Handler(OnSucceeded(2, i), InsertEvent(q), false)
    ensures Exec(s, longer) == b
    ensures b.db.events == [Activated(i, 1)] + [Activated(i, 2)] && b.db.pdfQueue == [i] + [i]
  {
    longer, b := Queue(s, run, a, i, 1, p);
    longer, b := Queue(s, longer, b, i, 2, q);
  }

  lemma CountTwo(e: seq<PolicyEvent>, q: seq<nat>, i: nat)
    requires e == [Activated(i, 1)] + [Activated(i, 2)] && q == [i] + [i]
    ensures Activations(e, i) == 2 && Jobs(q, i) == 2
  {
    CountSnoc([Activated(i, 1)], Activated(i, 2), [i], i, i);
    CountSnoc([], Activated(i, 1), [], i, i);
    assert [] + [Activated(i, 1)] == [Activated(i, 1)] && [] + [i] == [i];
  }

  /** If an inactive policy existed before, two different succeeded events of its
      intent, interleaved, activate it twice and queue its PDF twice. */
  lemma TwoEventsTwoJobs(foreign: map<nat, Policy>, i: nat) returns (run: seq<Label>)
    requires i in foreign && !foreign[i].active
    ensures var db := Exec(Start(foreign), run).db; Jobs(db.pdfQueue, i) == 2 && Activations(db.events, i) == 2
  {
    var s := Start(foreign);
    var a, p, q;
    run, a, p, q := BothLookUp(foreign, i);
    run, a := Activate(s, run, a, i, 1, p);
    run, a := Activate(s, run, a, i, 2, q);
    run, a := BothQueue(s, run, a, i, p, q);
    CountTwo(a.db.events, a.db.pdfQueue, i);
  }

  predicate OneJob(foreign: map<nat, Policy>, run: seq<Label>, i: nat) { Jobs(Exec(Start(foreign), run).db.pdfQueue, i) <= 1 }

  ghost predicate NeverTwoJobs(foreign: map<nat, Policy>, i: nat) { forall run :: OneJob(foreign, run, i) }

  /** No run queues an intent's PDF twice exactly when its policy did not come from
      elsewhere, or came active. */
  lemma NeverTwoJobsExactlyWhen(foreign: map<nat, Policy>, i: nat)
    ensures NeverTwoJobs(foreign, i) <==> (i in foreign ==> foreign[i].active)
  {
    if i in foreign && !foreign[i].active {
      var run := TwoEventsTwoJobs(foreign, i);
      assert !OneJob(foreign, run, i);
    } else {
      forall run ensures OneJob(foreign, run, i) {
        if i in foreign { ActivePolicyIsLeftAlone(foreign, run, i); } else { AtMostOnce(foreign, run, i); }
      }
    }
  }
}

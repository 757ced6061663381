/** One policy, one activation, one PDF job. */
module PaymentActivation {
  import opened Wrappers
  import opened PaymentProtocol

  function Activations(events: seq<PolicyEvent>, i: nat): nat {
    if events == [] then 0
    else var e := events[|events| - 1];
         Activations(events[..|events| - 1], i) + (if e.Activated? && e.policy == i then 1 else 0)
  }

  function Jobs(queue: seq<nat>, i: nat): nat {
    if queue == [] then 0
    else Jobs(queue[..|queue| - 1], i) + (if queue[|queue| - 1] == i then 1 else 0)
  }

  lemma CountSnoc(events: seq<PolicyEvent>, e: PolicyEvent, queue: seq<nat>, q: nat, i: nat)
    ensures Activations(events + [e], i) == Activations(events, i) + (if e.Activated? && e.policy == i then 1 else 0)
    ensures Jobs(queue + [q], i) == Jobs(queue, i) + (if q == i then 1 else 0)
  {
    assert (events + [e])[..|events|] == events && (queue + [q])[..|queue|] == queue;
  }

  lemma {:induction false} NoActivations(events: seq<PolicyEvent>, i: nat)
    ensures Activations(events, i) == 0 <==>
              forall k :: 0 <= k < |events| && events[k].Activated? ==> events[k].policy != i
    decreases |events|
  {
    if events != [] {
      var init := events[..|events| - 1];
      NoActivations(init, i);
      assert forall k :: 0 <= k < |init| ==> init[k] == events[k];
    }
  }

  /** Past the insertion or activation of the policy, and not yet finished. */
  predicate Late(pc: Pc) { pc.InsertEvent? || pc.QueuePdf? || pc.LogQueued? || pc.Confirm? }

  // ----- what holds of each row and each handler -----

  ghost predicate HandlerOk(s: State, h: Handler, foreign: map<nat, Policy>) {
    match h.task
    case CreateIntent(_) => h.pc.CheckKey? || h.pc.LoadQuote? || h.pc.CallStripe? || h.pc.SavePayment? || h.pc.SavePending? || h.pc.Done?
    case OnFailed(e, i) => h.pc.FindFailedPayment? || h.pc.MarkFailed? || h.pc.FailPending? || h.pc.Done?
    case OnSucceeded(e, i) =>
      && e in s.known && s.known[e] == StripeEvent(i, true)
      && match h.pc
         case CheckEvent | FindPayment | FindPolicy(_) => true
         case MarkSucceeded(_, existing) => i !in foreign ==> !existing
         case SetMethod(_, existing) => i !in foreign ==> !existing
         case SavePolicy(_, existing) => i !in foreign ==> !existing
         case InsertEvent(_) | QueuePdf | LogQueued | Confirm => i in s.db.policies
         case Done(found) => found ==> i in s.db.policies
         case _ => false
  }

  ghost predicate EventsOk(s: State) {
    && (forall k :: 0 <= k < |s.db.events| && s.db.events[k].Activated? ==>
          var e := s.db.events[k];
          e.policy in s.db.policies && e.stripeEvent in s.known && s.known[e.stripeEvent] == StripeEvent(e.policy, true))
    && (forall k, l :: 0 <= k < l < |s.db.events| && s.db.events[k].Activated? && s.db.events[l].Activated? ==>
          s.db.events[k].stripeEvent != s.db.events[l].stripeEvent)
  }

  /** How far the handler that created policy i has got is how far the policy is. */
  ghost predicate CreatedBy(s: State, i: nat, c: nat)
    requires i in s.db.policies
  {
    && c < |s.handlers| && s.handlers[c].task.OnSucceeded? && s.handlers[c].task.intent == i
    && s.db.policies[i].active
    && (match s.handlers[c].pc
        case InsertEvent(_) => Activations(s.db.events, i) == 0 && Jobs(s.db.pdfQueue, i) == 0
        case QueuePdf => Activations(s.db.events, i) == 1 && Jobs(s.db.pdfQueue, i) == 0
        case LogQueued | Confirm | Done(_) => Activations(s.db.events, i) == 1 && Jobs(s.db.pdfQueue, i) == 1
        case _ => false)
    && forall k :: 0 <= k < |s.handlers| && k != c && s.handlers[k].task.OnSucceeded? && s.handlers[k].task.intent == i ==>
         !Late(s.handlers[k].pc)
  }

  ghost predicate PolicyOk(s: State, i: nat) {
    if i in s.db.policies then i in s.creator && CreatedBy(s, i, s.creator[i])
    else Jobs(s.db.pdfQueue, i) == 0
  }

  ghost predicate Inv(s: State, foreign: map<nat, Policy>) {
    && (forall i :: i in foreign ==> i in s.db.policies)
    && (forall k :: 0 <= k < |s.handlers| ==> HandlerOk(s, s.handlers[k], foreign))
    && EventsOk(s)
    && forall i :: i !in foreign ==> PolicyOk(s, i)
  }

  // ----- steps -----

  /** Policies and known events are only added. */
  lemma HandlerStays(s: State, t: State, h: Handler, foreign: map<nat, Policy>)
    requires HandlerOk(s, h, foreign)
    requires forall i :: i in s.db.policies ==> i in t.db.policies
    requires forall e :: e in s.known ==> e in t.known && t.known[e] == s.known[e]
    ensures HandlerOk(t, h, foreign)
  {
  }

  predicate Untouched(a: Db, b: Db) { b.policies == a.policies && b.events == a.events && b.pdfQueue == a.pdfQueue }

  lemma CreateIsQuiet(db: Db, h: Handler, o: Outcome)
    requires h.task.CreateIntent?
    ensures Untouched(db, CreateStep(db, h, o).db)
  {
  }

  lemma FailedIsQuiet(db: Db, h: Handler, o: Outcome)
    requires h.task.OnFailed?
    ensures Untouched(db, FailedStep(db, h, o).db)
  {
  }

  /** Only the handlers of succeeded events touch policies, events and the queue. */
  lemma QuietStep(db: Db, h: Handler, o: Outcome)
    requires !h.task.OnSucceeded?
    ensures Untouched(db, HandlerStep(db, h, o).db)
  {
    if h.task.CreateIntent? { CreateIsQuiet(db, h, o); } else { FailedIsQuiet(db, h, o); }
  }

  lemma MovedHandlerOk(s: State, k: nat, o: Outcome, foreign: map<nat, Policy>)
    requires Inv(s, foreign) && k < |s.handlers| && !s.handlers[k].stopped
    ensures var t := Moved(s, k, o);
            && (forall i :: i in s.db.policies ==> i in t.db.policies)
            && HandlerOk(t, t.handlers[k], foreign)
  {
    var h, t := s.handlers[k], Moved(s, k, o);
    assert HandlerOk(s, h, foreign);
    match h.task
    case OnSucceeded(event, i) =>
      if i !in foreign { assert PolicyOk(s, i); }
      PoliciesMove(s.db, h, o);
      if o.Works? { SucceededHandlerOk(s, t, h, o, foreign); }
    case _ => QuietStep(s.db, h, o);
  }

  /** An event that has been recorded is about a policy that exists. */
  lemma RecordedEvent(s: State, event: nat, i: nat)
    requires EventsOk(s) && HasEvent(s.db.events, event) && event in s.known && s.known[event].intent == i
    ensures i in s.db.policies
  {
    var m :| 0 <= m < |s.db.events| && s.db.events[m].Activated? && s.db.events[m].stripeEvent == event;
  }

  lemma SucceededHandlerOk(s: State, t: State, h: Handler, o: Outcome, foreign: map<nat, Policy>)
    requires EventsOk(s) && HandlerOk(s, h, foreign) && h.task.OnSucceeded? && o.Works?
    requires h.task.intent !in foreign && h.task.intent in s.db.policies ==> s.db.policies[h.task.intent].active
    requires t.known == s.known && t.db == HandlerStep(s.db, h, o).db
    requires forall i :: i in s.db.policies ==> i in t.db.policies
    ensures HandlerOk(t, h.(pc := HandlerStep(s.db, h, o).pc, stopped := HandlerStep(s.db, h, o).stopped), foreign)
  {
    if HasEvent(s.db.events, h.task.event) { RecordedEvent(s, h.task.event, h.task.intent); }
  }

  lemma MovedEventsOk(s: State, k: nat, o: Outcome, foreign: map<nat, Policy>)
    requires Inv(s, foreign) && k < |s.handlers|
    ensures EventsOk(Moved(s, k, o))
  {
    var h, t := s.handlers[k], Moved(s, k, o);
    assert HandlerOk(s, h, foreign);
    if h.task.OnSucceeded? {
      MovedHandlerKeepsPolicies(s.db, h, o);
    } else {
      QuietStep(s.db, h, o);
    }
  }

  lemma MovedHandlerKeepsPolicies(db: Db, h: Handler, o: Outcome)
    requires h.task.OnSucceeded?
    ensures var e := HandlerStep(db, h, o);
            && (forall i :: i in db.policies ==> i in e.db.policies && (db.policies[i].active ==> e.db.policies[i].active))
            && (e.db.events == db.events
                || (h.pc.InsertEvent? && o.Works? && !HasEvent(db.events, h.task.event)
                    && e.db.events == db.events + [Activated(h.task.intent, h.task.event)])
                || (h.pc.LogQueued? && e.db.events == db.events + [PdfQueued(h.task.intent)]))
            && (e.db.pdfQueue == db.pdfQueue || (h.pc.QueuePdf? && e.db.pdfQueue == db.pdfQueue + [h.task.intent]))
            && (forall i :: i in e.db.policies && i !in db.policies ==> i == h.task.intent && Inserts(db, h, o))
            && (forall i :: i in db.policies && i != h.task.intent ==> e.db.policies[i] == db.policies[i])
  {
    PoliciesMove(db, h, o);
    QueueMoves(db, h, o);
  }

  /** What a statement that breaks does: nothing to the tables; it stops the handler,
      except that putting aside, confirming and failing a commission are only tried. */
  lemma BrokenStep(db: Db, h: Handler)
    requires !h.stopped && !h.pc.Done? && HandlerPc(h)
    ensures HandlerStep(db, h, Breaks).db == db
    ensures HandlerStep(db, h, Breaks).stopped <==> !h.pc.SavePending? && !h.pc.Confirm? && !h.pc.FailPending?
    ensures HandlerStep(db, h, Breaks).pc == if HandlerStep(db, h, Breaks).stopped then h.pc else Done(true)
  {
  }

  predicate HandlerPc(h: Handler) {
    match h.task
    case CreateIntent(_) => h.pc.CheckKey? || h.pc.LoadQuote? || h.pc.CallStripe? || h.pc.SavePayment? || h.pc.SavePending?
    case OnSucceeded(_, _) =>
      h.pc.CheckEvent? || h.pc.FindPayment? || h.pc.FindPolicy? || h.pc.MarkSucceeded? || h.pc.SetMethod? || h.pc.SavePolicy?
      || h.pc.InsertEvent? || h.pc.QueuePdf? || h.pc.LogQueued? || h.pc.Confirm?
    case OnFailed(_, _) => h.pc.FindFailedPayment? || h.pc.MarkFailed? || h.pc.FailPending?
  }

  /** A handler ends as one that found no payment only where it looked for one in vain. */
  lemma OnlyMissingPayments(db: Db, h: Handler, o: Outcome)
    requires !h.pc.Done?
    ensures HandlerStep(db, h, o).pc == Done(false) <==>
              && o.Works? && !h.task.CreateIntent? && h.task.intent !in db.payments
              && (h.pc == if h.task.OnSucceeded? then FindPayment else FindFailedPayment)
  {
  }

  /** The creating step is the one that makes the policy appear. */
  lemma InsertsExactlyWhen(db: Db, h: Handler, o: Outcome, i: nat)
    ensures i !in db.policies && i in HandlerStep(db, h, o).db.policies <==> Inserts(db, h, o) && h.task.intent == i
  {
    if h.task.OnSucceeded? { PoliciesMove(db, h, o); } else { QuietStep(db, h, o); }
  }

  lemma StalledStep(db: Db, h: Handler, o: Outcome)
    requires h.task.OnSucceeded? && !o.Works?
    ensures var e := SucceededStep(db, h, o); e.db == db && (e.pc == h.pc || (h.pc.Confirm? && e.pc.Done?))
  {
  }

  lemma PoliciesMove(db: Db, h: Handler, o: Outcome)
    requires h.task.OnSucceeded?
    ensures var e := HandlerStep(db, h, o);
            && (forall i :: i in db.policies ==> i in e.db.policies && (db.policies[i].active ==> e.db.policies[i].active))
            && (forall i :: i in e.db.policies && i !in db.policies ==> i == h.task.intent && Inserts(db, h, o))
            && (forall i :: i in db.policies && i != h.task.intent ==> e.db.policies[i] == db.policies[i])
  {
    if !o.Works? { StalledStep(db, h, o); } else if !h.pc.SavePolicy? { PoliciesKept(db, h, o); }
  }

  lemma PoliciesKept(db: Db, h: Handler, o: Outcome)
    requires h.task.OnSucceeded? && o.Works? && !h.pc.SavePolicy?
    ensures SucceededStep(db, h, o).db.policies == db.policies
  {
  }

  /** A policy that the moving handler has nothing to do with. */
  lemma OtherPolicyOk(s: State, k: nat, o: Outcome, i: nat)
    requires k < |s.handlers| && PolicyOk(s, i)
    requires s.handlers[k].task.OnSucceeded? ==> s.handlers[k].task.intent != i
    ensures PolicyOk(Moved(s, k, o), i)
  {
    var h, t := s.handlers[k], Moved(s, k, o);
    CountSnoc(s.db.events, PdfQueued(0), s.db.pdfQueue, 0, i);
    if h.task.OnSucceeded? {
      MovedHandlerKeepsPolicies(s.db, h, o);
      CountSnoc(s.db.events, Activated(h.task.intent, h.task.event), s.db.pdfQueue, h.task.intent, i);
      CountSnoc(s.db.events, PdfQueued(h.task.intent), s.db.pdfQueue, h.task.intent, i);
    } else {
      QuietStep(s.db, h, o);
    }
    if i in s.db.policies {
      assert t.handlers[s.creator[i]].pc == s.handlers[s.creator[i]].pc;
    }
  }

  /** The handler that creates the policy. */
  lemma InsertingOk(s: State, k: nat, o: Outcome, foreign: map<nat, Policy>)
    requires Inv(s, foreign) && k < |s.handlers| && !s.handlers[k].stopped && Inserts(s.db, s.handlers[k], o)
    requires s.handlers[k].task.intent !in foreign
    ensures PolicyOk(Moved(s, k, o), s.handlers[k].task.intent)
  {
    var i, t := s.handlers[k].task.intent, Moved(s, k, o);
    assert PolicyOk(s, i);
    NoActivations(s.db.events, i);
    forall m | 0 <= m < |s.handlers| && m != k && s.handlers[m].task.OnSucceeded? && s.handlers[m].task.intent == i
      ensures !Late(t.handlers[m].pc)
    {
      assert HandlerOk(s, s.handlers[m], foreign);
    }
  }

  /** A handler of a policy that another handler has created never gets past it. */
  lemma LatecomerOk(s: State, k: nat, o: Outcome, foreign: map<nat, Policy>)
    requires Inv(s, foreign) && k < |s.handlers| && !s.handlers[k].stopped && s.handlers[k].task.OnSucceeded?
    requires var i := s.handlers[k].task.intent; i !in foreign && i in s.db.policies && s.creator[i] != k
    ensures PolicyOk(Moved(s, k, o), s.handlers[k].task.intent)
  {
    var h, t := s.handlers[k], Moved(s, k, o);
    var i := h.task.intent;
    assert PolicyOk(s, i) && HandlerOk(s, h, foreign);
    MovedHandlerKeepsPolicies(s.db, h, o);
    assert !Late(t.handlers[k].pc);
  }

  /** The creator's own next step. */
  lemma CreatorOk(s: State, k: nat, o: Outcome, foreign: map<nat, Policy>)
    requires Inv(s, foreign) && k < |s.handlers| && !s.handlers[k].stopped && s.handlers[k].task.OnSucceeded?
    requires var i := s.handlers[k].task.intent; i !in foreign && i in s.db.policies && s.creator[i] == k
    ensures PolicyOk(Moved(s, k, o), s.handlers[k].task.intent)
  {
    var h, t := s.handlers[k], Moved(s, k, o);
    var i := h.task.intent;
    assert PolicyOk(s, i) && HandlerOk(s, h, foreign);
    MovedHandlerKeepsPolicies(s.db, h, o);
    NoActivations(s.db.events, i);
    CountSnoc(s.db.events, Activated(i, h.task.event), s.db.pdfQueue, i, i);
    CountSnoc(s.db.events, PdfQueued(i), s.db.pdfQueue, i, i);
    if h.pc.InsertEvent? { NewEvent(s, i, h.task.event); }
  }

  lemma NewEvent(s: State, i: nat, event: nat)
    requires EventsOk(s) && Activations(s.db.events, i) == 0 && event in s.known && s.known[event].intent == i
    ensures !HasEvent(s.db.events, event)
  {
    NoActivations(s.db.events, i);
  }

  lemma MovedPolicyOk(s: State, k: nat, o: Outcome, foreign: map<nat, Policy>, i: nat)
    requires Inv(s, foreign) && k < |s.handlers| && !s.handlers[k].stopped && i !in foreign
    ensures PolicyOk(Moved(s, k, o), i)
  {
    var h := s.handlers[k];
    assert PolicyOk(s, i) && HandlerOk(s, h, foreign);
    if !h.task.OnSucceeded? || h.task.intent != i {
      OtherPolicyOk(s, k, o, i);
    } else if i in s.db.policies {
      if s.creator[i] == k { CreatorOk(s, k, o, foreign); } else { LatecomerOk(s, k, o, foreign); }
    } else if Inserts(s.db, h, o) {
      InsertingOk(s, k, o, foreign);
    } else {
      MovedHandlerKeepsPolicies(s.db, h, o);
    }
  }

  lemma MovedInv(s: State, k: nat, o: Outcome, foreign: map<nat, Policy>)
    requires Inv(s, foreign) && k < |s.handlers| && !s.handlers[k].stopped
    ensures Inv(Moved(s, k, o), foreign)
  {
    var t := Moved(s, k, o);
    MovedHandlerOk(s, k, o, foreign);
    MovedEventsOk(s, k, o, foreign);
    forall m | 0 <= m < |t.handlers| ensures HandlerOk(t, t.handlers[m], foreign) {
      if m != k {
        assert HandlerOk(s, s.handlers[m], foreign);
        HandlerStays(s, t, s.handlers[m], foreign);
      }
    }
    forall i | i !in foreign ensures PolicyOk(t, i) { MovedPolicyOk(s, k, o, foreign, i); }
  }

  /** Adding a handler that has done nothing yet, or stopping one. */
  lemma SamePolicies(s: State, t: State, foreign: map<nat, Policy>)
    requires Inv(s, foreign) && t.db.policies == s.db.policies && t.db.events == s.db.events && t.db.pdfQueue == s.db.pdfQueue
    requires t.creator == s.creator && |t.handlers| >= |s.handlers|
    requires forall k :: 0 <= k < |s.handlers| ==> t.handlers[k].task == s.handlers[k].task && t.handlers[k].pc == s.handlers[k].pc
    requires forall k :: |s.handlers| <= k < |t.handlers| ==> !Late(t.handlers[k].pc) && HandlerOk(t, t.handlers[k], foreign)
    requires forall e :: e in s.known ==> e in t.known && t.known[e] == s.known[e]
    ensures Inv(t, foreign)
  {
    forall k | 0 <= k < |t.handlers| ensures HandlerOk(t, t.handlers[k], foreign) {
      if k < |s.handlers| { assert HandlerOk(s, s.handlers[k], foreign); }
    }
    forall i | i !in foreign ensures PolicyOk(t, i) { assert PolicyOk(s, i); }
  }

  lemma StepInv(s: State, l: Label, foreign: map<nat, Policy>)
    requires Inv(s, foreign)
    ensures Inv(Next(s, l), foreign)
  {
    match l
    case Move(k, o) => if k < |s.handlers| && !s.handlers[k].stopped { MovedInv(s, k, o, foreign); }
    case Call(key) => SamePolicies(s, Next(s, l), foreign);
    case Deliver(event, what) => SamePolicies(s, Next(s, l), foreign);
    case Crash(k) => SamePolicies(s, Next(s, l), foreign);
    case ForgetKey(key) => SamePolicies(s, Next(s, l), foreign);
  }

  lemma {:induction false} Reachable(foreign: map<nat, Policy>, run: seq<Label>)
    ensures Inv(Exec(Start(foreign), run), foreign)
    decreases |run|
  {
    if run != [] {
      Reachable(foreign, run[..|run| - 1]);
      StepInv(Exec(Start(foreign), run[..|run| - 1]), run[|run| - 1], foreign);
    }
  }

  // ----- the main results, for policies that only the webhook creates -----

  /** In every interleaving of any number of deliveries, duplicates and retries
      included, with crashes and failing statements anywhere: an intent whose policy
      did not come from elsewhere is activated at most once and its PDF is queued at
      most once, never before the activation; and there is a policy only if a
      succeeded event was delivered. */
  lemma AtMostOnce(foreign: map<nat, Policy>, run: seq<Label>, i: nat)
    requires i !in foreign
    ensures var s := Exec(Start(foreign), run);
            && Jobs(s.db.pdfQueue, i) <= Activations(s.db.events, i) <= 1
            && (i in s.db.policies ==> s.db.policies[i].active && exists e :: e in s.known && s.known[e] == StripeEvent(i, true))
            && (i !in s.db.policies ==> Activations(s.db.events, i) == 0)
  {
    Reachable(foreign, run);
    var s := Exec(Start(foreign), run);
    assert PolicyOk(s, i);
    NoActivations(s.db.events, i);
    if i in s.db.policies { assert HandlerOk(s, s.handlers[s.creator[i]], foreign); }
  }

  /** The PDF is queued exactly when the handler that inserted the policy got past
      the queueing statement. A later delivery of any event does not make up for it. */
  lemma QueuedExactlyWhen(foreign: map<nat, Policy>, run: seq<Label>, i: nat)
    requires i !in foreign
    ensures var s := Exec(Start(foreign), run);
            i in s.db.policies ==>
              && i in s.creator && s.creator[i] < |s.handlers|
              && var pc := s.handlers[s.creator[i]].pc;
              && (Jobs(s.db.pdfQueue, i) == 1 <==> !pc.InsertEvent? && !pc.QueuePdf?)
              && (Activations(s.db.events, i) == 1 <==> !pc.InsertEvent?)
  {
    Reachable(foreign, run);
    assert PolicyOk(Exec(Start(foreign), run), i);
  }

  predicate CreatorFinished(s: State, i: nat) {
    i in s.creator && s.creator[i] < |s.handlers| ==> s.handlers[s.creator[i]].pc.Done?
  }

  /** A delivery has found the payment and gone through to its end. */
  ghost predicate WentThrough(s: State, i: nat) {
    exists k :: 0 <= k < |s.handlers| && s.handlers[k].task.OnSucceeded? && s.handlers[k].task.intent == i && s.handlers[k].pc == Done(true)
  }

  /** Whatever the other handlers of the intent do, throw or crash: once the one that
      inserted the policy has finished, there is one policy, one activation and one job. */
  lemma ExactlyOnce(foreign: map<nat, Policy>, run: seq<Label>, i: nat)
    requires var s := Exec(Start(foreign), run);
             i !in foreign && CreatorFinished(s, i) && (i in s.db.policies || WentThrough(s, i))
    ensures var s := Exec(Start(foreign), run);
            && i in s.db.policies && s.db.policies[i].active
            && Activations(s.db.events, i) == 1 && Jobs(s.db.pdfQueue, i) == 1
  {
    Reachable(foreign, run);
    var s := Exec(Start(foreign), run);
    if k :| 0 <= k < |s.handlers| && s.handlers[k].task.OnSucceeded? && s.handlers[k].task.intent == i && s.handlers[k].pc == Done(true) {
      assert HandlerOk(s, s.handlers[k], foreign);
    }
    assert PolicyOk(s, i);
  }

  // ----- with policies that came from elsewhere -----

  function AtQueue(hs: seq<Handler>, i: nat): nat {
    if hs == [] then 0 else AtQueue(hs[1..], i) + Waits(hs[0], i)
  }

  function Waits(h: Handler, i: nat): nat {
    if h.task.OnSucceeded? && h.task.intent == i && h.pc.QueuePdf? then 1 else 0
  }

  lemma {:induction false} AtQueueUpdate(hs: seq<Handler>, k: nat, h: Handler, i: nat)
    requires k < |hs|
    ensures AtQueue(hs[k := h], i) == AtQueue(hs, i) - Waits(hs[k], i) + Waits(h, i)
  {
    if k == 0 {
      assert hs[k := h][1..] == hs[1..];
    } else {
      assert hs[k := h][1..] == hs[1..][k - 1 := h];
      AtQueueUpdate(hs[1..], k - 1, h, i);
    }
  }

  lemma {:induction false} AtQueueSnoc(hs: seq<Handler>, h: Handler, i: nat)
    ensures AtQueue(hs + [h], i) == AtQueue(hs, i) + Waits(h, i)
  {
    if hs == [] {
      assert hs + [h] == [h];
    } else {
      assert (hs + [h])[1..] == hs[1..] + [h];
      AtQueueSnoc(hs[1..], h, i);
    }
  }

  /** Each queued job belongs to one activation event. */
  ghost predicate Paired(s: State, i: nat) {
    Activations(s.db.events, i) == Jobs(s.db.pdfQueue, i) + AtQueue(s.handlers, i)
  }

  /** A handler enters the queueing statement by its activation event and leaves it
      by queueing. */
  predicate QueueMove(db: Db, h: Handler, o: Outcome, db': Db, pc': Pc)
    requires h.task.OnSucceeded?
  {
    var id := h.task.intent;
    if !o.Works? then
      db'.events == db.events && db'.pdfQueue == db.pdfQueue && (pc'.QueuePdf? <==> h.pc.QueuePdf?)
    else if h.pc.InsertEvent? && !HasEvent(db.events, h.task.event) then
      db'.events == db.events + [Activated(id, h.task.event)] && db'.pdfQueue == db.pdfQueue && pc'.QueuePdf?
    else if h.pc.QueuePdf? then
      db'.events == db.events && db'.pdfQueue == db.pdfQueue + [id] && !pc'.QueuePdf?
    else if h.pc.LogQueued? then
      db'.events == db.events + [PdfQueued(id)] && db'.pdfQueue == db.pdfQueue && !pc'.QueuePdf?
    else
      db'.events == db.events && db'.pdfQueue == db.pdfQueue && !pc'.QueuePdf?
  }

  lemma QueueMoves(db: Db, h: Handler, o: Outcome)
    requires h.task.OnSucceeded?
    ensures QueueMove(db, h, o, SucceededStep(db, h, o).db, SucceededStep(db, h, o).pc)
  {
    if !o.Works? { StalledStep(db, h, o); }
  }

  function Balance(db: Db, h: Handler, i: nat): int {
    Activations(db.events, i) - Jobs(db.pdfQueue, i) - Waits(h, i)
  }

  lemma SucceededPairs(db: Db, h: Handler, o: Outcome, db': Db, h': Handler, i: nat)
    requires h.task.OnSucceeded? && h'.task == h.task && QueueMove(db, h, o, db', h'.pc)
    ensures Balance(db', h', i) == Balance(db, h, i)
  {
    CountSnoc(db.events, Activated(h.task.intent, h.task.event), db.pdfQueue, h.task.intent, i);
    CountSnoc(db.events, PdfQueued(h.task.intent), db.pdfQueue, h.task.intent, i);
  }

  lemma MovedPaired(s: State, k: nat, o: Outcome, i: nat)
    requires k < |s.handlers| && Paired(s, i)
    ensures Paired(Moved(s, k, o), i)
  {
    var h := s.handlers[k];
    var e := HandlerStep(s.db, h, o);
    AtQueueUpdate(s.handlers, k, h.(pc := e.pc, stopped := e.stopped), i);
    if h.task.OnSucceeded? {
      QueueMoves(s.db, h, o);
      SucceededPairs(s.db, h, o, e.db, h.(pc := e.pc, stopped := e.stopped), i);
    } else {
      QuietStep(s.db, h, o);
    }
  }

  lemma {:induction false} AllPaired(foreign: map<nat, Policy>, run: seq<Label>, i: nat)
    ensures Paired(Exec(Start(foreign), run), i)
    decreases |run|
  {
    if run != [] {
      AllPaired(foreign, run[..|run| - 1], i);
      var s, l := Exec(Start(foreign), run[..|run| - 1]), run[|run| - 1];
      match l
      case Move(k, o) => if k < |s.handlers| && !s.handlers[k].stopped { MovedPaired(s, k, o, i); }
      case Call(key) => AtQueueSnoc(s.handlers, Handler(CreateIntent(key), CheckKey, false), i);
      case Deliver(event, what) => AtQueueSnoc(s.handlers, Handler(TaskOf(event, what), FirstPc(what), false), i);
      case Crash(k) => if k < |s.handlers| { AtQueueUpdate(s.handlers, k, s.handlers[k].(stopped := true), i); }
      case ForgetKey(key) =>
    }
  }

  /** The succeeded events of intent i among those delivered. */
  function SucceededEvents(known: map<nat, StripeEvent>, i: nat): set<nat> {
    set e | e in known && known[e] == StripeEvent(i, true)
  }

  function ActivatingEvents(events: seq<PolicyEvent>, i: nat): set<nat> {
    if events == [] then {}
    else var e := events[|events| - 1];
         ActivatingEvents(events[..|events| - 1], i) + (if e.Activated? && e.policy == i then {e.stripeEvent} else {})
  }

  lemma {:induction false} ActivatingAre(events: seq<PolicyEvent>, i: nat)
    ensures forall x :: x in ActivatingEvents(events, i) <==>
              exists k :: 0 <= k < |events| && events[k] == Activated(i, x)
    decreases |events|
  {
    if events != [] {
      var init := events[..|events| - 1];
      ActivatingAre(init, i);
      forall x ensures x in ActivatingEvents(events, i) <==> exists k :: 0 <= k < |events| && events[k] == Activated(i, x) {
        if k :| 0 <= k < |events| && events[k] == Activated(i, x) {
          if k < |init| { assert init[k] == Activated(i, x); }
        }
        if x in ActivatingEvents(init, i) {
          var k :| 0 <= k < |init| && init[k] == Activated(i, x);
          assert events[k] == Activated(i, x);
        }
      }
    }
  }

  lemma {:induction false} ActivatingCount(events: seq<PolicyEvent>, i: nat)
    requires forall k, l :: 0 <= k < l < |events| && events[k].Activated? && events[l].Activated? ==>
               events[k].stripeEvent != events[l].stripeEvent
    ensures |ActivatingEvents(events, i)| == Activations(events, i)
    decreases |events|
  {
    if events != [] {
      var init, e := events[..|events| - 1], events[|events| - 1];
      ActivatingCount(init, i);
      ActivatingAre(init, i);
      if e.Activated? && e.policy == i {
        assert e.stripeEvent !in ActivatingEvents(init, i);
      }
    }
  }

  /** Even for a policy that existed, inactive, before: at most one activation and
      one PDF job per succeeded event, thanks to the unique index on the event id.
      Two interleaved handlers of one event queue one job between them. */
  lemma OneJobPerEvent(foreign: map<nat, Policy>, run: seq<Label>, i: nat)
    ensures var s := Exec(Start(foreign), run);
            Jobs(s.db.pdfQueue, i) <= Activations(s.db.events, i) <= |SucceededEvents(s.known, i)|
  {
    Reachable(foreign, run);
    AllPaired(foreign, run, i);
    var s := Exec(Start(foreign), run);
    ActivatingCount(s.db.events, i);
    ActivatingAre(s.db.events, i);
    SubsetSize(ActivatingEvents(s.db.events, i), SucceededEvents(s.known, i));
  }

  /** A policy that existed and was active: its handlers never get past looking it up. */
  ghost predicate LeftAlone(s: State, i: nat) {
    && i in s.db.policies && s.db.policies[i].active && Jobs(s.db.pdfQueue, i) == 0 && i !in s.creator
    && forall k :: 0 <= k < |s.handlers| && s.handlers[k].task.OnSucceeded? && s.handlers[k].task.intent == i ==>
         Early(s.handlers[k].pc)
  }

  predicate Early(pc: Pc) { pc.CheckEvent? || pc.FindPayment? || pc.FindPolicy? || pc.Done? }

  /** A handler before the look-up of an active policy returns there. */
  lemma EarlyStep(db: Db, h: Handler, o: Outcome)
    requires h.task.OnSucceeded? && Early(h.pc) && h.task.intent in db.policies && db.policies[h.task.intent].active
    ensures HandlerStep(db, h, o).db == db && Early(HandlerStep(db, h, o).pc) && !Inserts(db, h, o)
  {
  }

  /** A step about another intent. */
  lemma OtherStep(db: Db, h: Handler, o: Outcome, i: nat)
    requires i in db.policies && (h.task.OnSucceeded? ==> h.task.intent != i)
    ensures var e := HandlerStep(db, h, o);
            i in e.db.policies && e.db.policies[i] == db.policies[i] && Jobs(e.db.pdfQueue, i) == Jobs(db.pdfQueue, i)
  {
    if h.task.OnSucceeded? {
      MovedHandlerKeepsPolicies(db, h, o);
      CountSnoc(db.events, PdfQueued(0), db.pdfQueue, h.task.intent, i);
    } else {
      QuietStep(db, h, o);
    }
  }

  lemma MovedLeftAlone(s: State, k: nat, o: Outcome, i: nat)
    requires LeftAlone(s, i) && k < |s.handlers|
    ensures LeftAlone(Moved(s, k, o), i)
  {
    var h := s.handlers[k];
    if h.task.OnSucceeded? && h.task.intent == i { EarlyStep(s.db, h, o); } else { OtherStep(s.db, h, o, i); }
  }

  lemma {:induction false} ActivePolicyIsLeftAlone(foreign: map<nat, Policy>, run: seq<Label>, i: nat)
    requires i in foreign && foreign[i].active
    ensures LeftAlone(Exec(Start(foreign), run), i)
    decreases |run|
  {
    if run != [] {
      ActivePolicyIsLeftAlone(foreign, run[..|run| - 1], i);
      var s, l := Exec(Start(foreign), run[..|run| - 1]), run[|run| - 1];
      if l.Move? && l.k < |s.handlers| && !s.handlers[l.k].stopped { MovedLeftAlone(s, l.k, l.o, i); }
    }
  }
}

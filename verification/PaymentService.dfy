/** The handlers themselves, run from start to end over one database. Each is proved
    to be a run of PaymentProtocol, so its results hold of the real tables. */
module PaymentService {
  import opened Wrappers
  import opened PaymentProtocol
  import opened PaymentActivation

  /** Statements `from` to `to` of a handler all work. */
  predicate Work(works: nat -> bool, from: nat, to: nat) { forall n :: from <= n <= to ==> works(n) }

  /** The first of the statements decides first. */
  lemma WorkFrom(works: nat -> bool, from: nat)
    ensures forall to: nat :: from <= to ==> (Work(works, from, to) <==> works(from) && Work(works, from + 1, to))
  {
    forall to: nat | from <= to && works(from) && Work(works, from + 1, to) ensures Work(works, from, to) {
      forall n | from <= n <= to ensures works(n) { if n != from { assert Work(works, from + 1, to); } }
    }
  }

  /** The payment, if it is marked, has failed; so has its commission, if it is settled,
      whose fee stays; every other payment and commission is as it was. */
  predicate FailedIn(a: Db, b: Db, i: nat, marks: bool, settles: bool) {
    && (marks && i in a.payments ==> i in b.payments && b.payments[i].status == Failed)
    && (settles && i in a.pending ==>
          i in b.pending && b.pending[i].status == Failed && b.pending[i].fee == a.pending[i].fee)
    && (forall j :: j in a.payments && j != i ==> j in b.payments && b.payments[j] == a.payments[j])
    && (forall j :: j in a.pending && j != i ==> j in b.pending && b.pending[j] == a.pending[j])
  }

  /** The policy as a succeeded payment leaves it: an existing one keeps its amounts. */
  function Insured(policies: map<nat, Policy>, i: nat, p: Payment): Policy {
    if i in policies then policies[i].(active := true) else Policy(true, p.amount, p.fee, p.rate)
  }

  /** The event is new, and it is about a payment without an active policy. */
  predicate ActivatesPolicy(db: Db, event: nat, i: nat) {
    !HasEvent(db.events, event) && i in db.payments && !(i in db.policies && db.policies[i].active)
  }

  /** The tables after the statements from number `from` on of the handler that makes
      a policy of payment p, up to the first one that throws: 0 marks the payment, 2
      saves the policy, 3 records the event, 4 queues the PDF, 5 records that, and 6
      confirms the commission. */
  function Handled(db: Db, event: nat, i: nat, p: Payment, works: nat -> bool, from: nat): Db {
    db.(payments := if from == 0 && Work(works, from, 0) then Marked(db.payments, i, Succeeded) else db.payments,
        policies := if from <= 2 && Work(works, from, 2) then db.policies[i := Insured(db.policies, i, p)] else db.policies,
        events := db.events + (if from <= 3 && Work(works, from, 3) then [Activated(i, event)] else [])
                            + (if Work(works, from, 5) then [PdfQueued(i)] else []),
        pdfQueue := db.pdfQueue + (if Work(works, from, 4) then [i] else []),
        pending := if Work(works, from, 6) then Settled(db.pending, i, Succeeded) else db.pending)
  }

  /** When every statement works: an active policy, one activation and one job more, and
      a confirmed commission. Otherwise the first statement that throws decides which of
      them are missing; nothing is counted for another intent. */
  lemma HandledCounts(db: Db, event: nat, i: nat, p: Payment, works: nat -> bool, j: nat)
    ensures var after := Handled(db, event, i, p, works, 0);
            && Activations(after.events, j) == Activations(db.events, j) + (if j == i && Work(works, 0, 3) then 1 else 0)
            && Jobs(after.pdfQueue, j) == Jobs(db.pdfQueue, j) + (if j == i && Work(works, 0, 4) then 1 else 0)
            && (Work(works, 0, 2) ==> i in after.policies && after.policies[i].active)
            && (Work(works, 0, 6) && i in db.pending ==> after.pending[i].status == Succeeded)
  {
    var activated := db.events + (if Work(works, 0, 3) then [Activated(i, event)] else []);
    assert activated + [] == activated && db.events + [] == db.events && db.pdfQueue + [] == db.pdfQueue;
    CountSnoc(activated, PdfQueued(i), db.pdfQueue, i, j);
    CountSnoc(db.events, Activated(i, event), db.pdfQueue, i, j);
  }

  predicate Sellable(quote: Option<(Cents, real)>) {
    quote.Some? && quote.value.0 > 0 && 0.0 <= quote.value.1 <= 1.0 && Fee(quote.value.0, quote.value.1) >= 0
  }

  /** What one purchase leaves in the tables and what it tells the client: Stripe's side
      is kept even when its answer is lost, and a commission only beside a payment. */
  predicate Bought(a: Db, b: Db, key: Key, quote: Option<(Cents, real)>, newId: nat,
                   stripeAnswers: bool, saves: bool, savesPending: bool, r: Option<nat>)
    requires Sellable(quote)
  {
    var (amount, rate) := quote.value;
    var fee := Fee(amount, rate);
    var (paid, id) := StripeCreate(a, key, amount, fee, newId);
    if id.Some? && stripeAnswers && saves && id.value !in a.payments then
      && r == id
      && b == paid.(payments := a.payments[id.value := Payment(key, amount, fee, rate, Pending)],
                    pending := if savesPending && id.value !in a.pending
                               then a.pending[id.value := Commission(fee, Pending)] else a.pending)
    else
      r == None && b == paid
  }

  predicate Starts(s: State, l: Label, task: Task, pc: Pc) {
    || (task.CreateIntent? && l == Call(task.key) && pc == CheckKey)
    || (l.Deliver? && task == TaskOf(l.event, l.what) && pc == FirstPc(l.what)
        && (l.event in s.known ==> s.known[l.event] == l.what))
  }

  lemma Started(s: State, l: Label, task: Task, pc: Pc)
    requires Starts(s, l, task, pc)
    ensures Next(s, l).db == s.db && Next(s, l).handlers == s.handlers + [Handler(task, pc, false)]
  {
  }

  lemma ExecSnoc(s: State, run: seq<Label>, l: Label)
    ensures Exec(s, run + [l]) == Next(Exec(s, run), l)
  {
    assert (run + [l])[..|run|] == run;
  }

  class Pipeline {
    var stripe: map<nat, Intent>
    var keys: map<Key, nat>
    var payments: map<nat, Payment>
    var pending: map<nat, Commission>
    var policies: map<nat, Policy>
    var events: seq<PolicyEvent>
    var pdfQueue: seq<nat>
    ghost const foreign: map<nat, Policy>
    ghost var run: seq<Label>
    ghost var machine: State

    ghost function Contents(): Db
      reads this
    {
      Db(stripe, keys, payments, pending, policies, events, pdfQueue)
    }

    /** The tables are the tables of PaymentProtocol after the run so far. */
    ghost predicate Valid()
      reads this
    {
      Contents() == machine.db && machine == Exec(Start(foreign), run)
    }

    ghost predicate At(k: nat, task: Task, pc: Pc)
      reads this
    {
      k < |machine.handlers| && machine.handlers[k] == Handler(task, pc, false)
    }

    /** The handler has returned, or stopped where a statement threw. */
    ghost predicate Ended(k: nat)
      reads this
    {
      k < |machine.handlers| && (machine.handlers[k].stopped || machine.handlers[k].pc.Done?)
    }

    /** From position `from` on, the run consists of statements of handler k alone. */
    ghost predicate OnlyMoved(k: nat, from: nat)
      requires from <= |run|
      reads this
    {
      forall m :: from <= m < |run| ==> run[m].Move? && run[m].k == k
    }

    constructor (initial: map<nat, Policy>)
      ensures Valid() && run == [] && foreign == initial
    {
      stripe, keys, payments, pending, policies, events, pdfQueue := map[], map[], map[], map[], initial, [], [];
      foreign, run, machine := initial, [], Start(initial);
    }

    ghost method Begin(l: Label, task: Task, pc: Pc) returns (k: nat)
      requires machine == Exec(Start(foreign), run)
      requires Starts(machine, l, task, pc)
      modifies this`run, this`machine
      ensures machine == Exec(Start(foreign), run) && machine.db == old(machine).db && run == old(run) + [l]
      ensures k == |old(machine).handlers| && At(k, task, pc)
    {
      k := |machine.handlers|;
      Started(machine, l, task, pc);
      ExecSnoc(Start(foreign), run, l);
      run, machine := run + [l], Next(machine, l);
    }

    /** Handler k, about to run statement `pc`, runs it. */
    ghost method Step(k: nat, task: Task, pc: Pc, o: Outcome)
      requires machine == Exec(Start(foreign), run) && At(k, task, pc)
      modifies this`run, this`machine
      ensures machine == Exec(Start(foreign), run) && run == old(run) + [Move(k, o)]
      ensures var e := HandlerStep(old(machine).db, Handler(task, pc, false), o);
              machine.db == e.db && k < |machine.handlers| && machine.handlers[k] == Handler(task, e.pc, e.stopped)
    {
      ExecSnoc(Start(foreign), run, Move(k, o));
      run, machine := run + [Move(k, o)], Moved(machine, k, o);
    }

    // ----- createIntent -----

    /** `quote` is None if the quote cannot be bought or the tenant may not sell.
        The result is the intent the client is told to pay, if any. */
    method CreateIntent(key: Key, quote: Option<(Cents, real)>, newId: nat, stripeAnswers: bool, saves: bool, savesPending: bool)
      returns (r: Option<nat>)
      requires Valid()
      modifies this
      ensures Valid() && Ended(|old(machine).handlers|)
      ensures old(run) + [Call(key)] <= run && OnlyMoved(|old(machine).handlers|, |old(run)| + 1)
      ensures r.Some? ==> r.value in payments && payments[r.value].key == key
      ensures HasKey(old(payments), key) || !Sellable(quote) ==> Contents() == old(Contents()) && (r.Some? <==> HasKey(old(payments), key))
      ensures !HasKey(old(payments), key) && Sellable(quote) ==>
                Bought(old(Contents()), Contents(), key, quote, newId, stripeAnswers, saves, savesPending, r)
    {
      ghost var task := Task.CreateIntent(key);
      ghost var k := Begin(Call(key), task, CheckKey);
      Step(k, task, CheckKey, Works(0));
      if i :| i in payments && payments[i].key == key { return Some(i); }
      r := BuyQuote(k, key, quote, newId, stripeAnswers, saves, savesPending);
    }

    method BuyQuote(ghost k: nat, key: Key, quote: Option<(Cents, real)>, newId: nat,
                    stripeAnswers: bool, saves: bool, savesPending: bool)
      returns (r: Option<nat>)
      requires Valid() && At(k, Task.CreateIntent(key), LoadQuote) && !HasKey(payments, key)
      modifies this
      ensures Valid() && old(run) <= run && Ended(k) && OnlyMoved(k, |old(run)|)
      ensures r.Some? ==> r.value in payments && payments[r.value].key == key
      ensures !Sellable(quote) ==> Contents() == old(Contents()) && r == None
      ensures Sellable(quote) ==> Bought(old(Contents()), Contents(), key, quote, newId, stripeAnswers, saves, savesPending, r)
    {
      ghost var task := Task.CreateIntent(key);
      if quote.None? || quote.value.0 == 0 || !(0.0 <= quote.value.1 <= 1.0) || Fee(quote.value.0, quote.value.1) < 0 {
        Step(k, task, LoadQuote, Breaks);
        return None;
      }
      Step(k, task, LoadQuote, Quoted(quote.value.0, quote.value.1));
      r := PayAndSave(k, key, quote.value.0, quote.value.1, newId, stripeAnswers, saves, savesPending);
    }

    method PayAndSave(ghost k: nat, key: Key, amountCents: Cents, rate: real, newId: nat,
                      stripeAnswers: bool, saves: bool, savesPending: bool)
      returns (r: Option<nat>)
      requires Sellable(Some((amountCents, rate))) && !HasKey(payments, key)
      requires Valid() && At(k, Task.CreateIntent(key), CallStripe(amountCents, Fee(amountCents, rate), rate))
      modifies this
      ensures Valid() && old(run) <= run && Ended(k) && OnlyMoved(k, |old(run)|)
      ensures r.Some? ==> r.value in payments && payments[r.value].key == key
      ensures Bought(old(Contents()), Contents(), key, Some((amountCents, rate)), newId, stripeAnswers, saves, savesPending, r)
    {
      ghost var task := Task.CreateIntent(key);
      var feeCents := Fee(amountCents, rate);
      r := StripeCreatePaymentIntent(key, amountCents, feeCents, newId);
      if !stripeAnswers { Step(k, task, CallStripe(amountCents, feeCents, rate), Lost(newId)); return None; }
      Step(k, task, CallStripe(amountCents, feeCents, rate), Works(newId));
      if r.None? { return; }
      r := Save(k, key, r.value, amountCents, feeCents, rate, saves, savesPending);
    }

    method StripeCreatePaymentIntent(key: Key, amount: Cents, fee: Cents, newId: nat) returns (r: Option<nat>)
      modifies this`stripe, this`keys
      ensures (Contents(), r) == StripeCreate(old(Contents()), key, amount, fee, newId)
    {
      if key in keys {
        var id := keys[key];
        r := if id in stripe && stripe[id] == Intent(key, amount, fee) then Some(id) else None;
      } else if newId in stripe {
        r := None;
      } else {
        stripe, keys, r := stripe[newId := Intent(key, amount, fee)], keys[key := newId], Some(newId);
      }
    }

    method Save(ghost k: nat, key: Key, id: nat, amount: Cents, fee: Cents, rate: real, saves: bool, savesPending: bool)
      returns (r: Option<nat>)
      requires Valid() && At(k, Task.CreateIntent(key), SavePayment(id, amount, fee, rate))
      modifies this
      ensures Valid() && old(run) <= run && Ended(k) && OnlyMoved(k, |old(run)|)
      ensures r == if saves && id !in old(payments) && !HasKey(old(payments), key) then Some(id) else None
      ensures Contents() == if r.None? then old(Contents()) else old(Contents()).(
                payments := old(payments)[id := Payment(key, amount, fee, rate, Pending)],
                pending := if savesPending && id !in old(pending) then old(pending)[id := Commission(fee, Pending)] else old(pending))
    {
      ghost var task := Task.CreateIntent(key);
      if !saves || id in payments || exists i :: i in payments && payments[i].key == key {
        Step(k, task, SavePayment(id, amount, fee, rate), if saves then Works(0) else Breaks);
        return None;
      }
      payments := payments[id := Payment(key, amount, fee, rate, Pending)];
      Step(k, task, SavePayment(id, amount, fee, rate), Works(0));
      SavePendingCommission(k, key, id, fee, savesPending);
      r := Some(id);
    }

    /** A failure here is only logged. */
    method SavePendingCommission(ghost k: nat, key: Key, id: nat, fee: Cents, savesPending: bool)
      requires Valid() && At(k, Task.CreateIntent(key), SavePending(id, fee))
      modifies this
      ensures Valid() && old(run) <= run && Ended(k) && OnlyMoved(k, |old(run)|)
      ensures Contents() == old(Contents()).(
                pending := if savesPending && id !in old(pending) then old(pending)[id := Commission(fee, Pending)] else old(pending))
    {
      if savesPending && id !in pending { pending := pending[id := Commission(fee, Pending)]; }
      Step(k, Task.CreateIntent(key), SavePending(id, fee), if savesPending then Works(0) else Breaks);
    }

    // ----- payment_intent.succeeded -----

    /** `works(n)` tells whether the n-th writing statement succeeds. */
    method HandlePaymentSucceeded(event: nat, intent: nat, works: nat -> bool)
      requires Valid() && (event in machine.known ==> machine.known[event] == StripeEvent(intent, true))
      modifies this
      ensures Valid() && Ended(|old(machine).handlers|)
      ensures old(run) + [Deliver(event, StripeEvent(intent, true))] <= run && OnlyMoved(|old(machine).handlers|, |old(run)| + 1)
      ensures !ActivatesPolicy(old(Contents()), event, intent) ==> Contents() == old(Contents())
      ensures ActivatesPolicy(old(Contents()), event, intent) ==>
                Contents() == Handled(old(Contents()), event, intent, old(payments)[intent], works, 0)
    {
      ghost var task := OnSucceeded(event, intent);
      assert Starts(machine, Deliver(event, StripeEvent(intent, true)), task, CheckEvent);
      ghost var k := Begin(Deliver(event, StripeEvent(intent, true)), task, CheckEvent);
      CheckAndActivate(k, event, intent, works);
    }

    method CheckAndActivate(ghost k: nat, event: nat, intent: nat, works: nat -> bool)
      requires Valid() && At(k, OnSucceeded(event, intent), CheckEvent)
      modifies this
      ensures Valid() && old(run) <= run && Ended(k) && OnlyMoved(k, |old(run)|)
      ensures !ActivatesPolicy(old(Contents()), event, intent) ==> Contents() == old(Contents())
      ensures ActivatesPolicy(old(Contents()), event, intent) ==>
                Contents() == Handled(old(Contents()), event, intent, old(payments)[intent], works, 0)
    {
      Step(k, OnSucceeded(event, intent), CheckEvent, Works(0));
      if HasEvent(events, event) { return; }
      FindAndActivate(k, event, intent, works);
    }

    method FindAndActivate(ghost k: nat, event: nat, intent: nat, works: nat -> bool)
      requires Valid() && At(k, OnSucceeded(event, intent), FindPayment) && !HasEvent(events, event)
      modifies this
      ensures Valid() && old(run) <= run && Ended(k) && OnlyMoved(k, |old(run)|)
      ensures !ActivatesPolicy(old(Contents()), event, intent) ==> Contents() == old(Contents())
      ensures ActivatesPolicy(old(Contents()), event, intent) ==>
                Contents() == Handled(old(Contents()), event, intent, old(payments)[intent], works, 0)
    {
      ghost var task := OnSucceeded(event, intent);
      Step(k, task, FindPayment, Works(0));
      if intent !in payments { return; }
      ActivatePaid(k, event, intent, payments[intent], works);
    }

    method ActivatePaid(ghost k: nat, event: nat, intent: nat, payment: Payment, works: nat -> bool)
      requires Valid() && At(k, OnSucceeded(event, intent), FindPolicy(payment)) && !HasEvent(events, event)
      requires intent in payments && payment == payments[intent]
      modifies this
      ensures Valid() && old(run) <= run && Ended(k) && OnlyMoved(k, |old(run)|)
      ensures !ActivatesPolicy(old(Contents()), event, intent) ==> Contents() == old(Contents())
      ensures ActivatesPolicy(old(Contents()), event, intent) ==>
                Contents() == Handled(old(Contents()), event, intent, payment, works, 0)
    {
      ghost var task := OnSucceeded(event, intent);
      Step(k, task, FindPolicy(payment), Works(0));
      if intent in policies && policies[intent].active { return; }
      MarkPaid(k, event, intent, payment, intent in policies, works);
    }

    method MarkPaid(ghost k: nat, event: nat, intent: nat, payment: Payment, existing: bool, works: nat -> bool)
      requires Valid() && At(k, OnSucceeded(event, intent), MarkSucceeded(payment, existing))
      requires existing == (intent in policies) && !HasEvent(events, event)
      modifies this
      ensures Valid() && old(run) <= run && Ended(k) && OnlyMoved(k, |old(run)|)
      ensures Contents() == Handled(old(Contents()), event, intent, payment, works, 0)
    {
      WorkFrom(works, 0);
      ghost var task := OnSucceeded(event, intent);
      if !works(0) { Step(k, task, MarkSucceeded(payment, existing), Breaks); return; }
      payments := Marked(payments, intent, Succeeded);
      Step(k, task, MarkSucceeded(payment, existing), Works(0));
      RecordMethod(k, event, intent, payment, existing, works);
    }

    /** The wallet lookup has its own catch block; only the update can throw. */
    method RecordMethod(ghost k: nat, event: nat, intent: nat, payment: Payment, existing: bool, works: nat -> bool)
      requires Valid() && At(k, OnSucceeded(event, intent), SetMethod(payment, existing))
      requires existing == (intent in policies) && !HasEvent(events, event)
      modifies this
      ensures Valid() && old(run) <= run && Ended(k) && OnlyMoved(k, |old(run)|)
      ensures Contents() == Handled(old(Contents()), event, intent, payment, works, 1)
    {
      WorkFrom(works, 1);
      ghost var task := OnSucceeded(event, intent);
      if !works(1) { Step(k, task, SetMethod(payment, existing), Breaks); return; }
      Step(k, task, SetMethod(payment, existing), Works(0));
      Activate(k, event, intent, payment, existing, works);
    }

    method Activate(ghost k: nat, event: nat, intent: nat, payment: Payment, existing: bool, works: nat -> bool)
      requires Valid() && At(k, OnSucceeded(event, intent), SavePolicy(payment, existing))
      requires existing == (intent in policies) && !HasEvent(events, event)
      modifies this
      ensures Valid() && old(run) <= run && Ended(k) && OnlyMoved(k, |old(run)|)
      ensures Contents() == Handled(old(Contents()), event, intent, payment, works, 2)
    {
      WorkFrom(works, 2);
      ghost var task := OnSucceeded(event, intent);
      if !works(2) { Step(k, task, SavePolicy(payment, existing), Breaks); return; }
      policies := policies[intent := if existing then policies[intent].(active := true)
                                     else Policy(true, payment.amount, payment.fee, payment.rate)];
      Step(k, task, SavePolicy(payment, existing), Works(0));
      Announce(k, event, intent, payment, works);
    }

    method Announce(ghost k: nat, event: nat, intent: nat, payment: Payment, works: nat -> bool)
      requires Valid() && At(k, OnSucceeded(event, intent), InsertEvent(payment))
      modifies this
      ensures Valid() && old(run) <= run && Ended(k) && OnlyMoved(k, |old(run)|)
      ensures HasEvent(old(events), event) ==> Contents() == old(Contents())
      ensures !HasEvent(old(events), event) ==>
                Contents() == Handled(old(Contents()), event, intent, payment, works, 3)
    {
      WorkFrom(works, 3);
      ghost var task := OnSucceeded(event, intent);
      if !works(3) { Step(k, task, InsertEvent(payment), Breaks); return; }
      if HasEvent(events, event) { Step(k, task, InsertEvent(payment), Works(0)); return; }
      events := events + [Activated(intent, event)];
      Step(k, task, InsertEvent(payment), Works(0));
      Queue(k, event, intent, works);
    }

    method Queue(ghost k: nat, event: nat, intent: nat, works: nat -> bool)
      requires Valid() && At(k, OnSucceeded(event, intent), QueuePdf)
      modifies this
      ensures Valid() && old(run) <= run && Ended(k) && OnlyMoved(k, |old(run)|)
      ensures Contents() == old(Contents()).(
                events := old(events) + (if Work(works, 4, 5) then [PdfQueued(intent)] else []),
                pdfQueue := old(pdfQueue) + (if Work(works, 4, 4) then [intent] else []),
                pending := if Work(works, 4, 6) then Settled(old(pending), intent, Succeeded) else old(pending))
    {
      WorkFrom(works, 4);
      if !works(4) { Step(k, OnSucceeded(event, intent), QueuePdf, Breaks); return; }
      pdfQueue := pdfQueue + [intent];
      Step(k, OnSucceeded(event, intent), QueuePdf, Works(0));
      LogAndConfirm(k, event, intent, works);
    }

    method LogAndConfirm(ghost k: nat, event: nat, intent: nat, works: nat -> bool)
      requires Valid() && At(k, OnSucceeded(event, intent), LogQueued)
      modifies this
      ensures Valid() && old(run) <= run && Ended(k) && OnlyMoved(k, |old(run)|)
      ensures Contents() == old(Contents()).(
                events := old(events) + (if Work(works, 5, 5) then [PdfQueued(intent)] else []),
                pending := if Work(works, 5, 6) then Settled(old(pending), intent, Succeeded) else old(pending))
    {
      WorkFrom(works, 5);
      if !works(5) { Step(k, OnSucceeded(event, intent), LogQueued, Breaks); return; }
      events := events + [PdfQueued(intent)];
      Step(k, OnSucceeded(event, intent), LogQueued, Works(0));
      ConfirmCommission(k, event, intent, works);
    }

    method ConfirmCommission(ghost k: nat, event: nat, intent: nat, works: nat -> bool)
      requires Valid() && At(k, OnSucceeded(event, intent), Confirm)
      modifies this
      ensures Valid() && old(run) <= run && Ended(k) && OnlyMoved(k, |old(run)|)
      ensures Contents() == old(Contents()).(pending := if works(6) then Settled(old(pending), intent, Succeeded) else old(pending))
    {
      if works(6) && intent in pending { pending := pending[intent := pending[intent].(status := Succeeded)]; }
      Step(k, OnSucceeded(event, intent), Confirm, if works(6) then Works(0) else Breaks);
    }

    // ----- payment_intent.payment_failed -----

    method HandlePaymentFailed(event: nat, intent: nat, works: nat -> bool)
      requires Valid() && (event in machine.known ==> machine.known[event] == StripeEvent(intent, false))
      modifies this
      ensures Valid() && Ended(|old(machine).handlers|)
      ensures old(run) + [Deliver(event, StripeEvent(intent, false))] <= run && OnlyMoved(|old(machine).handlers|, |old(run)| + 1)
      ensures Contents() == (var fails := intent in old(payments) && old(payments)[intent].status != Failed;
                             old(Contents()).(
                               payments := if fails && works(0) then Marked(old(payments), intent, Failed) else old(payments),
                               pending := if fails && Work(works, 0, 1) then Settled(old(pending), intent, Failed) else old(pending)))
      ensures var fails := intent in old(payments) && old(payments)[intent].status != Failed;
              FailedIn(old(Contents()), Contents(), intent, fails && works(0), fails && works(0) && works(1))
    {
      ghost var task := OnFailed(event, intent);
      assert Starts(machine, Deliver(event, StripeEvent(intent, false)), task, FindFailedPayment);
      ghost var k := Begin(Deliver(event, StripeEvent(intent, false)), task, FindFailedPayment);
      FindAndFail(k, event, intent, works);
    }

    method FindAndFail(ghost k: nat, event: nat, intent: nat, works: nat -> bool)
      requires Valid() && At(k, OnFailed(event, intent), FindFailedPayment)
      modifies this
      ensures Valid() && old(run) <= run && Ended(k) && OnlyMoved(k, |old(run)|)
      ensures Contents() == (var fails := intent in old(payments) && old(payments)[intent].status != Failed;
                             old(Contents()).(
                               payments := if fails && works(0) then Marked(old(payments), intent, Failed) else old(payments),
                               pending := if fails && Work(works, 0, 1) then Settled(old(pending), intent, Failed) else old(pending)))
      ensures var fails := intent in old(payments) && old(payments)[intent].status != Failed;
              FailedIn(old(Contents()), Contents(), intent, fails && works(0), fails && works(0) && works(1))
    {
      Step(k, OnFailed(event, intent), FindFailedPayment, Works(0));
      if intent !in payments || payments[intent].status == Failed { return; }
      MarkPaymentFailed(k, event, intent, works);
    }

    method MarkPaymentFailed(ghost k: nat, event: nat, intent: nat, works: nat -> bool)
      requires Valid() && At(k, OnFailed(event, intent), MarkFailed) && intent in payments
      modifies this
      ensures Valid() && old(run) <= run && Ended(k) && OnlyMoved(k, |old(run)|)
      ensures Contents() == old(Contents()).(
                payments := if works(0) then Marked(old(payments), intent, Failed) else old(payments),
                pending := if Work(works, 0, 1) then Settled(old(pending), intent, Failed) else old(pending))
      ensures FailedIn(old(Contents()), Contents(), intent, works(0), works(0) && works(1))
    {
      WorkFrom(works, 0);
      if !works(0) { Step(k, OnFailed(event, intent), MarkFailed, Breaks); return; }
      payments := payments[intent := payments[intent].(status := Failed)];
      Step(k, OnFailed(event, intent), MarkFailed, Works(0));
      FailCommission(k, event, intent, works);
    }

    method FailCommission(ghost k: nat, event: nat, intent: nat, works: nat -> bool)
      requires Valid() && At(k, OnFailed(event, intent), FailPending)
      modifies this
      ensures Valid() && old(run) <= run && Ended(k) && OnlyMoved(k, |old(run)|)
      ensures Contents() == old(Contents()).(pending := if works(1) then Settled(old(pending), intent, Failed) else old(pending))
      ensures FailedIn(old(Contents()), Contents(), intent, false, works(1))
    {
      if works(1) && intent in pending { pending := pending[intent := pending[intent].(status := Failed)]; }
      Step(k, OnFailed(event, intent), FailPending, if works(1) then Works(0) else Breaks);
    }
  }
}

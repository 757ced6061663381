/** The fee computed once is the fee everywhere. */
module PaymentMoney {
  import opened PaymentProtocol

  /** Between nothing and the whole amount, and within half a cent of the exact fee. */
  predicate FeeOk(amount: Cents, fee: int, rate: real) {
    && 0 <= fee <= amount
    && -0.5 <= fee as real - amount as real * rate <= 0.5
  }

  lemma FeeIsFair(amount: Cents, rate: real)
    requires 0.0 <= rate <= 1.0
    ensures FeeOk(amount, Fee(amount, rate), rate)
  {
    var exact := amount as real * rate;
    assert 0.0 <= exact <= amount as real;
  }

  predicate SameMoney(p: Payment, q: Payment) {
    p.key == q.key && p.amount == q.amount && p.fee == q.fee && p.rate == q.rate
  }

  ghost predicate PaymentOk(db: Db, i: nat)
    requires i in db.payments
  {
    var p := db.payments[i];
    && i in db.stripe && db.stripe[i] == Intent(p.key, p.amount, p.fee)
    && p.amount > 0 && FeeOk(p.amount, p.fee, p.rate)
  }

  ghost predicate PolicyOk(db: Db, i: nat)
    requires i in db.policies
  {
    && i in db.payments
    && db.policies[i].commission == db.payments[i].fee
    && db.policies[i].amount == db.payments[i].amount
    && db.policies[i].rate == db.payments[i].rate
  }

  ghost predicate DbOk(db: Db, foreign: map<nat, Policy>) {
    && (forall i :: i in db.payments ==> PaymentOk(db, i))
    && (forall i, j :: i in db.payments && j in db.payments && db.payments[i].key == db.payments[j].key ==> i == j)
    && (forall k :: k in db.keys ==> db.keys[k] in db.stripe && db.stripe[db.keys[k]].key == k)
    && (forall i :: i in db.pending ==> i in db.payments && db.pending[i].fee == db.payments[i].fee)
    && (forall i :: i in db.policies && i !in foreign ==> PolicyOk(db, i))
  }

  /** What the locals of a handler say about the database. */
  ghost predicate LocalsOk(db: Db, h: Handler) {
    match h.pc
    case CallStripe(amount, fee, rate) => amount > 0 && FeeOk(amount, fee, rate)
    case SavePayment(id, amount, fee, rate) =>
      && h.task.CreateIntent? && id in db.stripe && db.stripe[id] == Intent(h.task.key, amount, fee)
      && amount > 0 && FeeOk(amount, fee, rate)
    case SavePending(id, fee) => id in db.payments && db.payments[id].fee == fee
    case FindPolicy(p) => Snapshot(db, h, p)
    case MarkSucceeded(p, _) => Snapshot(db, h, p)
    case SetMethod(p, _) => Snapshot(db, h, p)
    case SavePolicy(p, _) => Snapshot(db, h, p)
    case InsertEvent(p) => Snapshot(db, h, p)
    case _ => true
  }

  ghost predicate Snapshot(db: Db, h: Handler, p: Payment) {
    h.task.OnSucceeded? && h.task.intent in db.payments && SameMoney(p, db.payments[h.task.intent])
  }

  /** Intents and payments are only added; what they say about money stays. */
  ghost predicate Grows(a: Db, b: Db) {
    && (forall i :: i in a.stripe ==> i in b.stripe && b.stripe[i] == a.stripe[i])
    && (forall i :: i in a.payments ==> i in b.payments && SameMoney(a.payments[i], b.payments[i]))
  }

  lemma PoliciesStay(a: Db, b: Db, foreign: map<nat, Policy>)
    requires DbOk(a, foreign) && Grows(a, b) && b.policies == a.policies
    ensures forall i :: i in b.policies && i !in foreign ==> PolicyOk(b, i)
  {
    forall i | i in b.policies && i !in foreign ensures PolicyOk(b, i) { assert PolicyOk(a, i); }
  }

  lemma PaymentsStay(a: Db, b: Db, foreign: map<nat, Policy>)
    requires DbOk(a, foreign) && Grows(a, b) && b.payments.Keys == a.payments.Keys
    ensures forall i :: i in b.payments ==> PaymentOk(b, i)
    ensures forall i, j :: i in b.payments && j in b.payments && b.payments[i].key == b.payments[j].key ==> i == j
  {
    forall i | i in b.payments ensures PaymentOk(b, i) { assert PaymentOk(a, i) && SameMoney(a.payments[i], b.payments[i]); }
    forall i, j | i in b.payments && j in b.payments && b.payments[i].key == b.payments[j].key ensures i == j {
      assert SameMoney(a.payments[i], b.payments[i]) && SameMoney(a.payments[j], b.payments[j]);
    }
  }

  lemma StripeCreateOk(db: Db, key: Key, amount: Cents, fee: Cents, newId: nat, foreign: map<nat, Policy>)
    requires DbOk(db, foreign)
    ensures var (db', id) := StripeCreate(db, key, amount, fee, newId);
            && DbOk(db', foreign) && Grows(db, db')
            && (id.Some? ==> id.value in db'.stripe && db'.stripe[id.value] == Intent(key, amount, fee))
  {
    if key !in db.keys && newId !in db.stripe { NewIntentOk(db, newId, Intent(key, amount, fee), foreign); }
  }

  lemma NewIntentOk(db: Db, id: nat, intent: Intent, foreign: map<nat, Policy>)
    requires DbOk(db, foreign) && id !in db.stripe
    ensures var db' := db.(stripe := db.stripe[id := intent], keys := db.keys[intent.key := id]); DbOk(db', foreign) && Grows(db, db')
  {
    var db' := db.(stripe := db.stripe[id := intent], keys := db.keys[intent.key := id]);
    PaymentsStay(db, db', foreign);
    PoliciesStay(db, db', foreign);
  }

  lemma StatusesStay(a: Db, b: Db, foreign: map<nat, Policy>)
    requires DbOk(a, foreign) && Grows(a, b) && b == a.(payments := b.payments) && b.payments.Keys == a.payments.Keys
    ensures DbOk(b, foreign)
  {
    PaymentsStay(a, b, foreign);
    PoliciesStay(a, b, foreign);
    forall i | i in b.pending ensures i in b.payments && b.pending[i].fee == b.payments[i].fee {
      assert a.pending[i].fee == a.payments[i].fee;
    }
  }

  lemma PaymentStatusOk(db: Db, id: nat, status: Status, foreign: map<nat, Policy>)
    requires DbOk(db, foreign)
    ensures DbOk(SetPaymentStatus(db, id, status), foreign) && Grows(db, SetPaymentStatus(db, id, status))
  {
    var db' := SetPaymentStatus(db, id, status);
    assert Grows(db, db');
    StatusesStay(db, db', foreign);
  }

  lemma PendingOk(db: Db, pending: map<nat, Commission>, foreign: map<nat, Policy>)
    requires DbOk(db, foreign)
    requires forall i :: i in pending ==> i in db.payments && pending[i].fee == db.payments[i].fee
    ensures DbOk(db.(pending := pending), foreign) && Grows(db, db.(pending := pending))
  {
    PaymentsStay(db, db.(pending := pending), foreign);
    PoliciesStay(db, db.(pending := pending), foreign);
  }

  lemma CommissionOk(db: Db, id: nat, status: Status, foreign: map<nat, Policy>)
    requires DbOk(db, foreign)
    ensures DbOk(SetCommission(db, id, status), foreign) && Grows(db, SetCommission(db, id, status))
  {
    if id in db.pending { PendingOk(db, db.pending[id := db.pending[id].(status := status)], foreign); }
  }

  lemma QueuesOk(db: Db, events: seq<PolicyEvent>, queue: seq<nat>, foreign: map<nat, Policy>)
    requires DbOk(db, foreign)
    ensures var db' := db.(events := events, pdfQueue := queue); DbOk(db', foreign) && Grows(db, db')
  {
    PaymentsStay(db, db.(events := events, pdfQueue := queue), foreign);
    PoliciesStay(db, db.(events := events, pdfQueue := queue), foreign);
  }

  lemma SavePaymentOk(db: Db, id: nat, p: Payment, foreign: map<nat, Policy>)
    requires DbOk(db, foreign) && id !in db.payments && !HasKey(db.payments, p.key)
    requires id in db.stripe && db.stripe[id] == Intent(p.key, p.amount, p.fee) && p.amount > 0 && FeeOk(p.amount, p.fee, p.rate)
    ensures var db' := db.(payments := db.payments[id := p]); DbOk(db', foreign) && Grows(db, db')
  {
    var db' := db.(payments := db.payments[id := p]);
    forall i | i in db'.payments ensures PaymentOk(db', i) { if i != id { assert PaymentOk(db, i); } }
    PoliciesStay(db, db', foreign);
  }

  /** A step of one handler keeps the database and its own locals right. */
  ghost predicate StepOk(db: Db, h: Handler, e: Effect, foreign: map<nat, Policy>) {
    DbOk(e.db, foreign) && Grows(db, e.db) && LocalsOk(e.db, h.(pc := e.pc, stopped := e.stopped))
  }

  lemma CallStripeOk(db: Db, h: Handler, o: Outcome, foreign: map<nat, Policy>)
    requires h.task.CreateIntent? && DbOk(db, foreign) && LocalsOk(db, h) && h.pc.CallStripe?
    ensures StepOk(db, h, CreateStep(db, h, o), foreign)
  {
    if o.Works? || o.Lost? { StripeCreateOk(db, h.task.key, h.pc.amount, h.pc.fee, o.newId, foreign); }
  }

  lemma SavingPaymentOk(db: Db, h: Handler, o: Outcome, foreign: map<nat, Policy>)
    requires h.task.CreateIntent? && DbOk(db, foreign) && LocalsOk(db, h) && h.pc.SavePayment?
    ensures StepOk(db, h, CreateStep(db, h, o), foreign)
  {
    if o.Works? && h.pc.id !in db.payments && !HasKey(db.payments, h.task.key) {
      SavePaymentOk(db, h.pc.id, Payment(h.task.key, h.pc.amount, h.pc.fee, h.pc.rate, Pending), foreign);
    }
  }

  lemma SavingPendingOk(db: Db, h: Handler, o: Outcome, foreign: map<nat, Policy>)
    requires h.task.CreateIntent? && DbOk(db, foreign) && LocalsOk(db, h) && h.pc.SavePending?
    ensures StepOk(db, h, CreateStep(db, h, o), foreign)
  {
    if o.Works? && h.pc.id !in db.pending {
      PendingOk(db, db.pending[h.pc.id := Commission(h.pc.fee, Pending)], foreign);
    }
  }

  lemma CreateStepOk(db: Db, h: Handler, o: Outcome, foreign: map<nat, Policy>)
    requires h.task.CreateIntent? && DbOk(db, foreign) && LocalsOk(db, h)
    ensures StepOk(db, h, CreateStep(db, h, o), foreign)
  {
    match h.pc
    case CallStripe(_, _, _) => CallStripeOk(db, h, o, foreign);
    case SavePayment(_, _, _, _) => SavingPaymentOk(db, h, o, foreign);
    case SavePending(_, _) => SavingPendingOk(db, h, o, foreign);
    case LoadQuote => if o.Quoted? && 0.0 <= o.rate <= 1.0 { FeeIsFair(o.price, o.rate); }
    case _ =>
  }

  lemma PolicySaved(db: Db, id: nat, p: Policy, foreign: map<nat, Policy>)
    requires DbOk(db, foreign) && id in db.payments
    requires id !in foreign ==>
      p.commission == db.payments[id].fee && p.amount == db.payments[id].amount && p.rate == db.payments[id].rate
    ensures var db' := db.(policies := db.policies[id := p]); DbOk(db', foreign) && Grows(db, db')
  {
    var db' := db.(policies := db.policies[id := p]);
    PaymentsStay(db, db', foreign);
    forall i | i in db'.policies && i !in foreign ensures PolicyOk(db', i) {
      if i != id { assert PolicyOk(db, i); }
    }
  }

  lemma SavePolicyOk(db: Db, h: Handler, o: Outcome, foreign: map<nat, Policy>)
    requires h.task.OnSucceeded? && DbOk(db, foreign) && LocalsOk(db, h) && h.pc.SavePolicy?
    ensures StepOk(db, h, SucceededStep(db, h, o), foreign)
  {
    if o.Works? && h.pc.existing && h.task.intent in db.policies { ActivatingOk(db, h, o, foreign); }
    if o.Works? && !h.pc.existing && h.task.intent !in db.policies { InsertingOk(db, h, o, foreign); }
  }

  lemma ActivatingOk(db: Db, h: Handler, o: Outcome, foreign: map<nat, Policy>)
    requires h.task.OnSucceeded? && DbOk(db, foreign) && LocalsOk(db, h) && h.pc.SavePolicy? && o.Works?
    requires h.pc.existing && h.task.intent in db.policies
    ensures StepOk(db, h, SucceededStep(db, h, o), foreign)
  {
    var id := h.task.intent;
    if id !in foreign { assert PolicyOk(db, id); }
    PolicySaved(db, id, db.policies[id].(active := true), foreign);
  }

  lemma InsertingOk(db: Db, h: Handler, o: Outcome, foreign: map<nat, Policy>)
    requires h.task.OnSucceeded? && DbOk(db, foreign) && LocalsOk(db, h) && h.pc.SavePolicy? && o.Works?
    requires !h.pc.existing && h.task.intent !in db.policies
    ensures StepOk(db, h, SucceededStep(db, h, o), foreign)
  {
    var p := h.pc.payment;
    PolicySaved(db, h.task.intent, Policy(true, p.amount, p.fee, p.rate), foreign);
  }

  lemma MarkingOk(db: Db, h: Handler, o: Outcome, foreign: map<nat, Policy>)
    requires h.task.OnSucceeded? && DbOk(db, foreign) && LocalsOk(db, h) && h.pc.MarkSucceeded?
    ensures StepOk(db, h, SucceededStep(db, h, o), foreign)
  {
    if o.Works? { PaymentStatusOk(db, h.task.intent, Succeeded, foreign); }
  }

  lemma ConfirmingOk(db: Db, h: Handler, o: Outcome, foreign: map<nat, Policy>)
    requires h.task.OnSucceeded? && DbOk(db, foreign) && LocalsOk(db, h) && h.pc.Confirm?
    ensures StepOk(db, h, SucceededStep(db, h, o), foreign)
  {
    if o.Works? { CommissionOk(db, h.task.intent, Succeeded, foreign); }
  }

  lemma QueuingOk(db: Db, h: Handler, o: Outcome, foreign: map<nat, Policy>)
    requires h.task.OnSucceeded? && DbOk(db, foreign) && LocalsOk(db, h)
    requires h.pc.InsertEvent? || h.pc.QueuePdf? || h.pc.LogQueued?
    ensures StepOk(db, h, SucceededStep(db, h, o), foreign)
  {
    if o.Works? {
      var db' := SucceededStep(db, h, o).db;
      assert db' == db.(events := db'.events, pdfQueue := db'.pdfQueue);
      QueuesOk(db, db'.events, db'.pdfQueue, foreign);
    } else {
      assert SucceededStep(db, h, o) == Stop(db, h);
    }
  }

  lemma SucceededStepOk(db: Db, h: Handler, o: Outcome, foreign: map<nat, Policy>)
    requires h.task.OnSucceeded? && DbOk(db, foreign) && LocalsOk(db, h)
    ensures StepOk(db, h, SucceededStep(db, h, o), foreign)
  {
    if h.pc.SavePolicy? {
      SavePolicyOk(db, h, o, foreign);
    } else if h.pc.MarkSucceeded? {
      MarkingOk(db, h, o, foreign);
    } else if h.pc.Confirm? {
      ConfirmingOk(db, h, o, foreign);
    } else if h.pc.InsertEvent? || h.pc.QueuePdf? || h.pc.LogQueued? {
      QueuingOk(db, h, o, foreign);
    } else {
      assert SucceededStep(db, h, o).db == db;
    }
  }

  lemma MarkFailedOk(db: Db, h: Handler, o: Outcome, foreign: map<nat, Policy>)
    requires h.task.OnFailed? && DbOk(db, foreign) && LocalsOk(db, h) && h.pc.MarkFailed?
    ensures StepOk(db, h, FailedStep(db, h, o), foreign)
  {
    PaymentStatusOk(db, h.task.intent, Failed, foreign);
  }

  lemma FailPendingOk(db: Db, h: Handler, o: Outcome, foreign: map<nat, Policy>)
    requires h.task.OnFailed? && DbOk(db, foreign) && LocalsOk(db, h) && h.pc.FailPending?
    ensures StepOk(db, h, FailedStep(db, h, o), foreign)
  {
    CommissionOk(db, h.task.intent, Failed, foreign);
  }

  lemma FailedStepOk(db: Db, h: Handler, o: Outcome, foreign: map<nat, Policy>)
    requires h.task.OnFailed? && DbOk(db, foreign) && LocalsOk(db, h)
    ensures StepOk(db, h, FailedStep(db, h, o), foreign)
  {
    if h.pc.MarkFailed? {
      MarkFailedOk(db, h, o, foreign);
    } else if h.pc.FailPending? {
      FailPendingOk(db, h, o, foreign);
    } else {
      assert FailedStep(db, h, o).db == db;
    }
  }

  lemma LocalsStay(a: Db, b: Db, h: Handler)
    requires Grows(a, b) && LocalsOk(a, h)
    ensures LocalsOk(b, h)
  {
  }

  ghost predicate MoneyInv(s: State, foreign: map<nat, Policy>) {
    DbOk(s.db, foreign) && forall k :: 0 <= k < |s.handlers| ==> LocalsOk(s.db, s.handlers[k])
  }

  lemma HandlerStepOk(db: Db, h: Handler, o: Outcome, foreign: map<nat, Policy>)
    requires DbOk(db, foreign) && LocalsOk(db, h)
    ensures StepOk(db, h, HandlerStep(db, h, o), foreign)
  {
    match h.task
    case CreateIntent(_) => CreateStepOk(db, h, o, foreign);
    case OnSucceeded(_, _) => SucceededStepOk(db, h, o, foreign);
    case OnFailed(_, _) => FailedStepOk(db, h, o, foreign);
  }

  lemma MoneyMoved(s: State, k: nat, o: Outcome, foreign: map<nat, Policy>)
    requires MoneyInv(s, foreign) && k < |s.handlers|
    ensures MoneyInv(Moved(s, k, o), foreign)
  {
    HandlerStepOk(s.db, s.handlers[k], o, foreign);
    OthersStay(s, k, HandlerStep(s.db, s.handlers[k], o));
  }

  lemma OthersStay(s: State, k: nat, e: Effect)
    requires k < |s.handlers| && Grows(s.db, e.db)
    requires forall j :: 0 <= j < |s.handlers| ==> LocalsOk(s.db, s.handlers[j])
    requires LocalsOk(e.db, s.handlers[k].(pc := e.pc, stopped := e.stopped))
    ensures var hs := s.handlers[k := s.handlers[k].(pc := e.pc, stopped := e.stopped)];
            forall j :: 0 <= j < |hs| ==> LocalsOk(e.db, hs[j])
  {
    forall j | 0 <= j < |s.handlers| && j != k ensures LocalsOk(e.db, s.handlers[j]) {
      LocalsStay(s.db, e.db, s.handlers[j]);
    }
  }

  lemma MoneyStep(s: State, l: Label, foreign: map<nat, Policy>)
    requires MoneyInv(s, foreign)
    ensures MoneyInv(Next(s, l), foreign)
  {
    match l
    case Move(k, o) => if k < |s.handlers| && !s.handlers[k].stopped { MoneyMoved(s, k, o, foreign); }
    case ForgetKey(key) =>
      var s' := Next(s, l);
      forall i | i in s'.db.payments ensures PaymentOk(s'.db, i) { assert PaymentOk(s.db, i); }
      forall i | i in s'.db.policies && i !in foreign ensures PolicyOk(s'.db, i) { assert PolicyOk(s.db, i); }
      forall j | 0 <= j < |s'.handlers| ensures LocalsOk(s'.db, s'.handlers[j]) { LocalsStay(s.db, s'.db, s.handlers[j]); }
    case Crash(k) =>
    case Call(key) =>
    case Deliver(event, what) =>
  }

  lemma {:induction false} MoneyHolds(foreign: map<nat, Policy>, run: seq<Label>)
    ensures MoneyInv(Exec(Start(foreign), run), foreign)
    decreases |run|
  {
    if run != [] {
      MoneyHolds(foreign, run[..|run| - 1]);
      MoneyStep(Exec(Start(foreign), run[..|run| - 1]), run[|run| - 1], foreign);
    }
  }

  /** Money conservation. In every run, with retries, crashes, lost answers, failed
      writes, rate changes and forgotten keys: a tenant and quote have at most one
      payment; the fee lies between 0 and the amount and within half a cent of
      amount times the rate recorded with it; and Stripe's intent, the pending
      commission and the policy's snapshot carry that same fee. */
  lemma MoneyConserved(foreign: map<nat, Policy>, run: seq<Label>, i: nat)
    ensures var db := Exec(Start(foreign), run).db;
            && (i in db.payments ==>
                  var p := db.payments[i];
                  && FeeOk(p.amount, p.fee, p.rate)
                  && i in db.stripe && db.stripe[i] == Intent(p.key, p.amount, p.fee)
                  && (forall j :: j in db.payments && db.payments[j].key == p.key ==> j == i))
            && (i in db.pending ==> i in db.payments && db.pending[i].fee == db.payments[i].fee)
            && (i in db.policies && i !in foreign ==>
                  && i in db.payments && db.policies[i].commission == db.payments[i].fee
                  && db.policies[i].rate == db.payments[i].rate)
  {
    MoneyHolds(foreign, run);
    var db := Exec(Start(foreign), run).db;
    if i in db.payments { assert PaymentOk(db, i); }
    if i in db.policies && i !in foreign { assert PolicyOk(db, i); }
  }
}

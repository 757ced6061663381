/** From a quote to an active policy: createIntent calls and Stripe webhook
    deliveries over one database, interleaving between statements.

    Amounts are integer cents. A payment and its policy are named by their Stripe
    intent, which is unique in both tables. */
module PaymentProtocol {
  import opened Wrappers

  type Cents = nat

  /** The idempotency key of createIntent. */
  datatype Key = Key(tenant: nat, quote: nat)

  /** Math.round for non-negative arguments. */
  function Round(x: real): int { (x + 0.5).Floor }

  function Fee(amount: Cents, rate: real): int { Round(amount as real * rate) }

  datatype Intent = Intent(key: Key, amount: Cents, fee: Cents)

  datatype Status = Pending | Succeeded | Failed

  datatype Payment = Payment(key: Key, amount: Cents, fee: Cents, rate: real, status: Status)

  datatype Commission = Commission(fee: Cents, status: Status)

  datatype Policy = Policy(active: bool, amount: Cents, commission: Cents, rate: real)

  datatype PolicyEvent = Activated(policy: nat, stripeEvent: nat) | PdfQueued(policy: nat)

  /** `stripe` and `keys` are Stripe's side: every intent ever created, and the
      idempotency keys it still remembers. */
  datatype Db = Db(
    stripe: map<nat, Intent>,
    keys: map<Key, nat>,
    payments: map<nat, Payment>,
    pending: map<nat, Commission>,
    policies: map<nat, Policy>,
    events: seq<PolicyEvent>,
    pdfQueue: seq<nat>
  )

  datatype Task = CreateIntent(key: Key) | OnSucceeded(event: nat, intent: nat) | OnFailed(event: nat, intent: nat)

  /** The next statement of a handler, with the locals it still needs. */
  datatype Pc =
    // createIntent
    | CheckKey
    | LoadQuote
    | CallStripe(amount: Cents, fee: Cents, rate: real)
    | SavePayment(id: nat, amount: Cents, fee: Cents, rate: real)
    | SavePending(id: nat, fee: Cents)
    // payment_intent.succeeded
    | CheckEvent
    | FindPayment
    | FindPolicy(payment: Payment)
    | MarkSucceeded(payment: Payment, existing: bool)
    | SetMethod(payment: Payment, existing: bool)
    | SavePolicy(payment: Payment, existing: bool)
    | InsertEvent(payment: Payment)
    | QueuePdf
    | LogQueued
    | Confirm
    // payment_intent.payment_failed
    | FindFailedPayment
    | MarkFailed
    | FailPending
    | Done(found: bool)  // found: the payment existed

  /** A stopped handler threw or crashed; its statement had no effect. */
  datatype Handler = Handler(task: Task, pc: Pc, stopped: bool)

  /** `Lost`: Stripe did the work but the answer never arrived. `Quoted` is what the
      quote and the commission matrix say when createIntent reads them. */
  datatype Outcome = Works(newId: nat) | Breaks | Lost(newId: nat) | Quoted(price: Cents, rate: real)

  predicate HasKey(payments: map<nat, Payment>, key: Key) {
    exists i :: i in payments && payments[i].key == key
  }

  predicate HasEvent(events: seq<PolicyEvent>, event: nat) {
    exists k :: 0 <= k < |events| && events[k].Activated? && events[k].stripeEvent == event
  }

  /** The new database, the next statement, and whether the handler stopped. */
  datatype Effect = Effect(db: Db, pc: Pc, stopped: bool)

  function Go(db: Db, pc: Pc): Effect { Effect(db, pc, false) }

  function Stop(db: Db, h: Handler): Effect { Effect(db, h.pc, true) }

  /** Stripe answers a repeated key with the first intent if the parameters agree
      and with an error otherwise. */
  function StripeCreate(db: Db, key: Key, amount: Cents, fee: Cents, newId: nat): (Db, Option<nat>) {
    if key in db.keys then
      var id := db.keys[key];
      if id in db.stripe && db.stripe[id] == Intent(key, amount, fee) then (db, Some(id)) else (db, None)
    else if newId in db.stripe then (db, None)
    else (db.(stripe := db.stripe[newId := Intent(key, amount, fee)], keys := db.keys[key := newId]), Some(newId))
  }

  function CreateStep(db: Db, h: Handler, o: Outcome): Effect
    requires h.task.CreateIntent?
  {
    var key := h.task.key;
    match h.pc
    case CheckKey => if o.Breaks? then Stop(db, h) else if HasKey(db.payments, key) then Go(db, Done(true)) else Go(db, LoadQuote)
    case LoadQuote =>
      if o.Quoted? && o.price > 0 && 0.0 <= o.rate <= 1.0 && Fee(o.price, o.rate) >= 0
      then Go(db, CallStripe(o.price, Fee(o.price, o.rate), o.rate))
      else Stop(db, h)
    case CallStripe(amount, fee, rate) =>
      (match o
       case Works(newId) =>
         var (db', id) := StripeCreate(db, key, amount, fee, newId);
         if id.Some? then Go(db', SavePayment(id.value, amount, fee, rate)) else Stop(db, h)
       case Lost(newId) => Stop(StripeCreate(db, key, amount, fee, newId).0, h)
       case _ => Stop(db, h))
    case SavePayment(id, amount, fee, rate) =>
      if !o.Works? || id in db.payments || HasKey(db.payments, key) then Stop(db, h)
      else Go(db.(payments := db.payments[id := Payment(key, amount, fee, rate, Pending)]), SavePending(id, fee))
    case SavePending(id, fee) =>
      if !o.Works? || id in db.pending then Go(db, Done(true))
      else Go(db.(pending := db.pending[id := Commission(fee, Pending)]), Done(true))
    case _ => Effect(db, h.pc, h.stopped)
  }

  function Marked(payments: map<nat, Payment>, i: nat, status: Status): map<nat, Payment> {
    if i in payments then payments[i := payments[i].(status := status)] else payments
  }

  function Settled(pending: map<nat, Commission>, i: nat, status: Status): map<nat, Commission> {
    if i in pending then pending[i := pending[i].(status := status)] else pending
  }

  function SetPaymentStatus(db: Db, id: nat, status: Status): Db { db.(payments := Marked(db.payments, id, status)) }

  function SetCommission(db: Db, id: nat, status: Status): Db { db.(pending := Settled(db.pending, id, status)) }

  function SucceededStep(db: Db, h: Handler, o: Outcome): Effect
    requires h.task.OnSucceeded?
  {
    var id := h.task.intent;
    if !o.Works? && !h.pc.Done? then
      // only the confirmation has a catch block that goes on
      if h.pc.Confirm? then Go(db, Done(true)) else Stop(db, h)
    else
    match h.pc
    case CheckEvent => if HasEvent(db.events, h.task.event) then Go(db, Done(true)) else Go(db, FindPayment)
    case FindPayment => if id in db.payments then Go(db, FindPolicy(db.payments[id])) else Go(db, Done(false))
    case FindPolicy(p) =>
      if id in db.policies && db.policies[id].active then Go(db, Done(true))
      else Go(db, MarkSucceeded(p, id in db.policies))
    case MarkSucceeded(p, existing) => Go(SetPaymentStatus(db, id, Succeeded), SetMethod(p, existing))
    case SetMethod(p, existing) => Go(db, SavePolicy(p, existing))
    case SavePolicy(p, existing) =>
      if existing then
        if id in db.policies then Go(db.(policies := db.policies[id := db.policies[id].(active := true)]), InsertEvent(p))
        else Stop(db, h)
      else if id in db.policies then Stop(db, h)
      else Go(db.(policies := db.policies[id := Policy(true, p.amount, p.fee, p.rate)]), InsertEvent(p))
    case InsertEvent(p) =>
      if HasEvent(db.events, h.task.event) then Go(db, Done(true))
      else Go(db.(events := db.events + [Activated(id, h.task.event)]), QueuePdf)
    case QueuePdf => Go(db.(pdfQueue := db.pdfQueue + [id]), LogQueued)
    case LogQueued => Go(db.(events := db.events + [PdfQueued(id)]), Confirm)
    case Confirm => Go(SetCommission(db, id, Succeeded), Done(true))
    case _ => Effect(db, h.pc, h.stopped)
  }

  function FailedStep(db: Db, h: Handler, o: Outcome): Effect
    requires h.task.OnFailed?
  {
    var id := h.task.intent;
    if !o.Works? && !h.pc.Done? then
      if h.pc.FailPending? then Go(db, Done(true)) else Stop(db, h)
    else
    match h.pc
    case FindFailedPayment =>
      if id !in db.payments then Go(db, Done(false))
      else if db.payments[id].status == Failed then Go(db, Done(true))
      else Go(db, MarkFailed)
    case MarkFailed => Go(SetPaymentStatus(db, id, Failed), FailPending)
    case FailPending => Go(SetCommission(db, id, Failed), Done(true))
    case _ => Effect(db, h.pc, h.stopped)
  }

  function HandlerStep(db: Db, h: Handler, o: Outcome): Effect {
    match h.task
    case CreateIntent(_) => CreateStep(db, h, o)
    case OnSucceeded(_, _) => SucceededStep(db, h, o)
    case OnFailed(_, _) => FailedStep(db, h, o)
  }

  // ----- the whole system -----

  datatype StripeEvent = StripeEvent(intent: nat, succeeded: bool)

  /** `known`: what each event id delivered so far is about. `creator`: the handler
      that inserted a policy, kept for the statements about it. */
  datatype State = State(db: Db, handlers: seq<Handler>, known: map<nat, StripeEvent>, creator: map<nat, nat>)

  datatype Label =
    | Call(key: Key)                          // a client calls createIntent
    | Deliver(event: nat, what: StripeEvent)  // Stripe delivers an event, maybe again
    | Move(k: nat, o: Outcome)                // handler k makes its next statement
    | Crash(k: nat)
    | ForgetKey(key: Key)                     // Stripe drops an old idempotency key

  function FirstPc(what: StripeEvent): Pc { if what.succeeded then CheckEvent else FindFailedPayment }

  function TaskOf(event: nat, what: StripeEvent): Task {
    if what.succeeded then OnSucceeded(event, what.intent) else OnFailed(event, what.intent)
  }

  predicate Inserts(db: Db, h: Handler, o: Outcome) {
    h.task.OnSucceeded? && o.Works? && h.pc.SavePolicy? && !h.pc.existing && h.task.intent !in db.policies
  }

  function Moved(s: State, k: nat, o: Outcome): State
    requires k < |s.handlers|
  {
    var h := s.handlers[k];
    var e := HandlerStep(s.db, h, o);
    State(e.db, s.handlers[k := h.(pc := e.pc, stopped := e.stopped)], s.known,
          if Inserts(s.db, h, o) then s.creator[h.task.intent := k] else s.creator)
  }

  function Next(s: State, l: Label): State {
    match l
    case Call(key) => s.(handlers := s.handlers + [Handler(CreateIntent(key), CheckKey, false)])
    case Deliver(event, what) =>
      if event in s.known && s.known[event] != what then s
      else s.(handlers := s.handlers + [Handler(TaskOf(event, what), FirstPc(what), false)],
              known := s.known[event := what])
    case Move(k, o) => if k < |s.handlers| && !s.handlers[k].stopped then Moved(s, k, o) else s
    case Crash(k) => if k < |s.handlers| then s.(handlers := s.handlers[k := s.handlers[k].(stopped := true)]) else s
    case ForgetKey(key) => s.(db := s.db.(keys := s.db.keys - {key}))
  }

  function Exec(s: State, run: seq<Label>): State
    decreases |run|
  {
    if run == [] then s else Next(Exec(s, run[..|run| - 1]), run[|run| - 1])
  }

  /** Nothing but policies that came from elsewhere. */
  function Start(foreign: map<nat, Policy>): State {
    State(Db(map[], map[], map[], map[], foreign, [], []), [], map[], map[])
  }
}

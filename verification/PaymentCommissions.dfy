/** What becomes of the commission that is put aside when an intent is created. */
module PaymentCommissions {
  import opened Wrappers
  import opened PaymentProtocol

  /** The statement puts the commission of intent i aside. */
  predicate PutsAside(db: Db, h: Handler, o: Outcome, i: nat) {
    h.task.CreateIntent? && h.pc.SavePending? && h.pc.id == i && o.Works? && i !in db.pending
  }

  /** What the statement settles the commission of intent i as: a failed event fails it,
      a succeeded one confirms it. */
  function Settlement(h: Handler, o: Outcome, i: nat): Option<Status> {
    if !o.Works? then None
    else if h.task.OnFailed? && h.task.intent == i && h.pc.FailPending? then Some(Failed)
    else if h.task.OnSucceeded? && h.task.intent == i && h.pc.Confirm? then Some(Succeeded)
    else None
  }

  /** The status that the last working settlement since the commission was put aside gives
      it; pending if there was none. */
  function LastSettlement(foreign: map<nat, Policy>, run: seq<Label>, i: nat): Status
    decreases |run|
  {
    if run == [] then Pending
    else
      var s, l := Exec(Start(foreign), run[..|run| - 1]), run[|run| - 1];
      var before := LastSettlement(foreign, run[..|run| - 1], i);
      if !l.Move? || l.k >= |s.handlers| || s.handlers[l.k].stopped then before
      else if PutsAside(s.db, s.handlers[l.k], l.o, i) then Pending
      else match Settlement(s.handlers[l.k], l.o, i) case Some(status) => status case None => before
  }

  lemma CreateCommission(db: Db, h: Handler, o: Outcome, i: nat)
    requires h.task.CreateIntent?
    ensures var p := HandlerStep(db, h, o).db.pending;
            if PutsAside(db, h, o, i) then i in p && p[i] == Commission(h.pc.fee, Pending)
            else if i in db.pending then i in p && p[i] == db.pending[i] else i !in p
  {
  }

  lemma SettlingStep(db: Db, h: Handler, o: Outcome, i: nat)
    requires !h.task.CreateIntent?
    ensures var p := HandlerStep(db, h, o).db.pending;
            if i in db.pending then
              i in p && p[i].fee == db.pending[i].fee
              && p[i].status == match Settlement(h, o, i) case Some(status) => status case None => db.pending[i].status
            else i !in p
  {
    if h.task.OnSucceeded? { SucceededSettles(db, h, o, i); } else { FailedSettles(db, h, o, i); }
  }

  lemma SucceededSettles(db: Db, h: Handler, o: Outcome, i: nat)
    requires h.task.OnSucceeded?
    ensures var p := SucceededStep(db, h, o).db.pending;
            p == if h.pc.Confirm? && o.Works? && h.task.intent in db.pending
                 then db.pending[h.task.intent := Commission(db.pending[h.task.intent].fee, Succeeded)] else db.pending
  {
  }

  lemma FailedSettles(db: Db, h: Handler, o: Outcome, i: nat)
    requires h.task.OnFailed?
    ensures var p := FailedStep(db, h, o).db.pending;
            p == if h.pc.FailPending? && o.Works? && h.task.intent in db.pending
                 then db.pending[h.task.intent := Commission(db.pending[h.task.intent].fee, Failed)] else db.pending
  {
  }

  /** In every run a commission that is there has failed exactly when its last settlement
      was that of a failed event, is confirmed exactly when it was that of a succeeded
      one, and is pending exactly when there was none. */
  lemma {:induction false} SettledExactlyWhen(foreign: map<nat, Policy>, run: seq<Label>, i: nat)
    ensures var db := Exec(Start(foreign), run).db;
            i in db.pending ==> db.pending[i].status == LastSettlement(foreign, run, i)
    decreases |run|
  {
    if run != [] {
      var s, l := Exec(Start(foreign), run[..|run| - 1]), run[|run| - 1];
      SettledExactlyWhen(foreign, run[..|run| - 1], i);
      if l.Move? && l.k < |s.handlers| && !s.handlers[l.k].stopped {
        if s.handlers[l.k].task.CreateIntent? {
          CreateCommission(s.db, s.handlers[l.k], l.o, i);
        } else {
          SettlingStep(s.db, s.handlers[l.k], l.o, i);
        }
      }
    }
  }

  /** A commission once put aside stays, with its fee. */
  lemma FeeStays(s: State, l: Label, i: nat)
    requires i in s.db.pending
    ensures var t := Next(s, l); i in t.db.pending && t.db.pending[i].fee == s.db.pending[i].fee
  {
    if l.Move? && l.k < |s.handlers| && !s.handlers[l.k].stopped {
      if s.handlers[l.k].task.CreateIntent? {
        CreateCommission(s.db, s.handlers[l.k], l.o, i);
      } else {
        SettlingStep(s.db, s.handlers[l.k], l.o, i);
      }
    }
  }
}

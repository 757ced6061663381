/** The login of one account over its user row. */
module AuthService {
  import opened Wrappers
  import opened Lockout

  datatype Answer = TooManyRequests | Unauthorized | Accepted

  /** What a login alone does to the failures since the last success. */
  ghost predicate Answered(s: State, slot: nat, now: int, correct: bool, answer: Answer, t: State)
    requires slot < |s.underWay| == |t.underWay|
  {
    && t.underWay[slot] == None
    && if Locked(s.row, now) then answer == TooManyRequests && t.failures == s.failures
       else if correct then answer == Accepted && t.failures == []
       else && |t.failures| == |s.failures| + 1 && s.failures <= t.failures
            && answer == if |t.failures| >= MAX_FAILED_ATTEMPTS then TooManyRequests else Unauthorized
  }

  lemma LoginAlone(s: State, slot: nat, now: int, correct: bool)
    requires slot < |s.underWay| && s.underWay[slot] == None
    ensures Locked(s.row, now) ==> Next(s, Begin(slot, now)) == s
    ensures !Locked(s.row, now) ==>
              var t := Next(Next(s, Begin(slot, now)), Finish(slot, now, correct));
              t.underWay[slot] == None && t.failures == if correct then [] else s.failures + [Failure(now, slot, |s.failures|)]
  {
  }

  class Account {
    const slots: nat
    var row: Row
    ghost var events: seq<Event>

    ghost predicate Valid()
      reads this
    {
      Monotone(events) && row == Run(slots, events).row
    }

    constructor (slots: nat)
      ensures Valid() && events == [] && this.slots == slots
    {
      this.slots, row, events := slots, FRESH, [];
    }

    /** Reads the row and checks the lock, before the password is looked at. */
    method CheckLock(slot: nat, now: int) returns (refused: Option<Answer>)
      requires Valid() && slot < slots && Run(slots, events).underWay[slot] == None
      requires events != [] ==> events[|events| - 1].now <= now
      modifies `events
      ensures Valid() && events == old(events) + [Begin(slot, now)]
      ensures Run(slots, events) == Next(Run(slots, old(events)), Begin(slot, now))
      ensures refused == if Run(slots, events).underWay[slot].Some? then None else Some(TooManyRequests)
      ensures refused.Some? <==>
              |Run(slots, old(events)).failures| >= MAX_FAILED_ATTEMPTS
              && now < Run(slots, old(events)).failures[|Run(slots, old(events)).failures| - 1].at + LOCKOUT_MS
    {
      refused := if row.lockedUntil.Some? && row.lockedUntil.value > now then Some(TooManyRequests) else None;
      LockedIffFive(slots, events);
      Append(slots, events, Begin(slot, now));
      events := events + [Begin(slot, now)];
    }

    /** Compares the password and updates the row. The answer to a wrong one says
        whether the account is now locked. */
    method ComparePassword(slot: nat, now: int, correct: bool) returns (answer: Answer)
      requires Valid() && slot < slots && Run(slots, events).underWay[slot].Some?
      requires events != [] ==> events[|events| - 1].now <= now
      modifies `row, `events
      ensures Valid() && events == old(events) + [Finish(slot, now, correct)]
      ensures Run(slots, events) == Next(Run(slots, old(events)), Finish(slot, now, correct))
      ensures answer == Accepted <==> correct
      ensures answer == TooManyRequests <==> !correct && |Run(slots, events).failures| >= MAX_FAILED_ATTEMPTS
    {
      LockedIffFive(slots, events);
      Append(slots, events, Finish(slot, now, correct));
      events := events + [Finish(slot, now, correct)];
      LockedIffFive(slots, events);
      if !correct {
        var lockedUntil := IncrementAndMaybeLock(MAX_FAILED_ATTEMPTS, LOCKOUT_MS, now);
        return if lockedUntil.Some? then TooManyRequests else Unauthorized;
      }
      ResetFailedLoginCount();
      return Accepted;
    }

    /** A login that no other login of the account overlaps: no password is compared
        within fifteen minutes of the last of five or more failures, a right one clears
        them, and a wrong one adds to them. */
    method Login(slot: nat, now: int, correct: bool) returns (answer: Answer)
      requires Valid() && slot < slots && Run(slots, events).underWay[slot] == None
      requires events != [] ==> events[|events| - 1].now <= now
      modifies `row, `events
      ensures Valid() && old(events) <= events
      ensures Answered(Run(slots, old(events)), slot, now, correct, answer, Run(slots, events))
    {
      ghost var s := Run(slots, events);
      LoginAlone(s, slot, now, correct);
      LockedIffFive(slots, events);
      var refused := CheckLock(slot, now);
      if refused.Some? { return refused.value; }
      answer := ComparePassword(slot, now, correct);
    }

    /** One statement: the count goes up, and from the limit on the lock is renewed. */
    method IncrementAndMaybeLock(maxAttempts: nat, lockoutMs: int, now: int) returns (lockedUntil: Option<int>)
      modifies `row
      ensures row.failedLoginCount == old(row.failedLoginCount) + 1
      ensures row.lockedUntil == if row.failedLoginCount >= maxAttempts then Some(now + lockoutMs) else old(row.lockedUntil)
      ensures lockedUntil == row.lockedUntil
    {
      var count := row.failedLoginCount + 1;
      row := Row(count, if count >= maxAttempts then Some(now + lockoutMs) else row.lockedUntil);
      lockedUntil := row.lockedUntil;
    }

    method ResetFailedLoginCount()
      modifies `row
      ensures row == FRESH
    {
      row := Row(0, None);
    }
  }
}

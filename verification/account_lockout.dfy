/** Password lockout: the failed-login counter and the lock of one account, and the rate at
    which passwords can be guessed against it, also by logins that overlap. Instants are whole
    microseconds. */
module AccountLockout {
  import opened Options

  const MAX_FAILED_LOGINS := 10
  const LOCKOUT := 15 * 60 * 1_000_000

  datatype Lock = Lock(failedLogins: nat, lockedUntil: Option<int>)

  datatype LoginResult = InvalidCredentials | AccountLocked | Authenticated

  predicate Locked(l: Lock, now: int) {
    l.lockedUntil.Some? && l.lockedUntil.value > now
  }

  function AfterWrongPassword(l: Lock, now: int): Lock {
    if l.failedLogins + 1 >= MAX_FAILED_LOGINS then Lock(0, Some(now + LOCKOUT))
      else l.(failedLogins := l.failedLogins + 1)
  }

  const UNLOCKED := Lock(0, None)

  /** One login attempt: `known` says whether an active account with this address exists,
      `matches` whether the password is right. */
  function Attempted(l: Lock, now: int, known: bool, matches: bool): (Lock, LoginResult) {
    if !known then (l, InvalidCredentials)
    else if Locked(l, now) then (l, AccountLocked)
    else if !matches then (AfterWrongPassword(l, now), InvalidCredentials)
    else (UNLOCKED, Authenticated)
  }

  class Account {
    var failedLoginCount: nat
    var lockedUntil: Option<int>

    ghost function State(): Lock
      reads this
    {
      Lock(failedLoginCount, lockedUntil)
    }

    constructor ()
      ensures State() == UNLOCKED
    {
      failedLoginCount, lockedUntil := 0, None;
    }

    method Authenticate(now: int, known: bool, matches: bool) returns (r: LoginResult)
      modifies this
      ensures (State(), r) == Attempted(old(State()), now, known, matches)
    {
      if !known {
        return InvalidCredentials;
      }
      if lockedUntil.Some? && lockedUntil.value > now {
        return AccountLocked;
      }
      if !matches {
        failedLoginCount := failedLoginCount + 1;
        if failedLoginCount >= MAX_FAILED_LOGINS {
          lockedUntil := Some(now + LOCKOUT);
          failedLoginCount := 0;
        }
        return InvalidCredentials;
      }
      failedLoginCount := 0;
      lockedUntil := None;
      return Authenticated;
    }

    /** The part of a password reset that concerns the lock. */
    method ResetPassword()
      modifies this
      ensures State() == UNLOCKED
    {
      failedLoginCount := 0;
      lockedUntil := None;
    }
  }

  // ---------------------------------------------------------------- overlapping logins

  /** A login that has read the unlocked account row at `now` and is still checking the password:
      the row takes no lock meanwhile. */
  datatype Flight = Flight(now: int, read: Lock, open: bool)

  /** What such a login writes on top of the row as it is by then: the columns it changed, computed
      from the row as it read it. */
  function Written(l: Lock, f: Flight, matches: bool): Lock {
    if matches then
      Lock(if f.read.failedLogins == 0 then l.failedLogins else 0, if f.read.lockedUntil.None? then l.lockedUntil
           else None)
    else
      var changed := AfterWrongPassword(f.read, f.now);
      Lock(changed.failedLogins, if changed.lockedUntil == f.read.lockedUntil then l.lockedUntil
           else changed.lockedUntil)
  }

  datatype State = State(lock: Lock, flights: seq<Flight>)

  /** Attempt: a login that nothing overlaps. Read and Commit: one that others may overlap; a commit
      names its login by the position of its read. */
  datatype Event =
    | Attempt(now: int, known: bool, matches: bool)
    | Reset(now: int)
    | Read(now: int, known: bool)
    | Commit(now: int, k: nat, matches: bool)

  predicate Commits(s: State, e: Event) {
    e.Commit? && e.k < |s.flights| && s.flights[e.k].open
  }

  function Apply(s: State, e: Event): State {
    match e
    case Attempt(now, known, matches) => s.(lock := Attempted(s.lock, now, known, matches).0)
    case Reset(_) => s.(lock := UNLOCKED)
    case Read(now, known) =>
      if known && !Locked(s.lock, now) then s.(flights := s.flights + [Flight(now, s.lock, true)]) else s
    case Commit(_, k, matches) =>
      if !Commits(s, e) then s
      else State(Written(s.lock, s.flights[k], matches), s.flights[k := s.flights[k].(open := false)])
  }

  /** What an event answers its caller: a login that is still checking the password nothing yet. */
  function Answer(s: State, e: Event): Option<LoginResult> {
    match e
    case Attempt(now, known, matches) => Some(Attempted(s.lock, now, known, matches).1)
    case Reset(_) => None
    case Read(now, known) =>
      if !known then Some(InvalidCredentials) else if Locked(s.lock, now) then Some(AccountLocked) else None
    case Commit(_, _, matches) =>
      if !Commits(s, e) then None else Some(if matches then Authenticated else InvalidCredentials)
  }

  /** A login that nothing overlaps is one that is read and committed at once, unless the read is
      already refused. */
  lemma AloneItIsOneStep(s: State, now: int, matches: bool)
    ensures var after, whole := Apply(s, Read(now, true)), Attempt(now, true, matches);
            var commit := Commit(now, |s.flights|, matches);
            && Apply(after, commit).lock == Apply(s, whole).lock
            && Answer(s, whole) == if Answer(s, Read(now, true)).Some? then Answer(s, Read(now, true))
                                   else Answer(after, commit)
  {}

  /** Does a lock of the row reach past this instant? */
  predicate HeldAt(s: State, now: int) {
    match s.lock.lockedUntil
    case None => false
    case Some(until) => now < until
  }

  /** Which answer a login gets, at any point of any run: it is let in exactly when its address is
      known, its password matches and no lock reaches past its instant, and it is told of the lock
      exactly when the address is known; then, and for an unknown address, the row stays as it is. */
  lemma WhoIsLetIn(s: State, events: seq<Event>, n: nat)
    requires n < |events| && events[n].Attempt?
    ensures var before, e, after := Run(s, events, n), events[n], Run(s, events, n + 1);
            && (Answer(before, e) == Some(Authenticated) <==> e.known && e.matches && !HeldAt(before, e.now))
            && (Answer(before, e) == Some(AccountLocked) <==> e.known && HeldAt(before, e.now))
            && (Answer(before, e) == Some(InvalidCredentials)
                <==> !e.known || (!e.matches && !HeldAt(before, e.now)))
            && (!e.known || HeldAt(before, e.now) ==> after == before)
            && (Answer(before, e) == Some(Authenticated) ==> after.lock == Lock(0, None))
  {
    assert Run(s, events, n + 1) == Apply(Run(s, events, n), events[n]);
  }

  /** The same for a login that others overlap: it is told of the lock when it reads the row, and
      whether its password matches when it commits, whatever locks were set meanwhile. */
  lemma WhoIsLetInMeanwhile(s: State, events: seq<Event>, n: nat)
    requires n < |events|
    ensures var before, e := Run(s, events, n), events[n];
            && (e.Read? ==>
                  && (Answer(before, e) == Some(AccountLocked) <==> e.known && HeldAt(before, e.now))
                  && (Answer(before, e) == Some(InvalidCredentials) <==> !e.known)
                  && Answer(before, e) != Some(Authenticated))
            && (Commits(before, e) ==>
                  && Answer(before, e) == Some(if e.matches then Authenticated else InvalidCredentials))
  {}

  /** What a commit that others overlapped leaves in the row: the columns it did not change keep what the
      others wrote, and its own follow from the row as it read it. */
  lemma OverlappedCommit(s: State, e: Event)
    requires Commits(s, e)
    ensures var read, at, row, after := s.flights[e.k].read, s.flights[e.k].now, s.lock, Apply(s, e).lock;
            && (e.matches ==> after.failedLogins == if read.failedLogins == 0 then row.failedLogins else 0)
            && (e.matches ==> after.lockedUntil == if read.lockedUntil == None then row.lockedUntil else None)
            && (!e.matches && read.failedLogins < 9 ==> after == row.(failedLogins := read.failedLogins + 1))
            && (!e.matches && read.failedLogins >= 9 ==>
                  after.failedLogins == 0
                  && (read.lockedUntil == Some(at + 900_000_000) || after.lockedUntil == Some(at + 900_000_000)))
  {}

  function Run(s: State, events: seq<Event>, n: nat): State
    requires n <= |events|
  {
    if n == 0 then s else Apply(Run(s, events, n - 1), events[n - 1])
  }

  // ---------------------------------------------------------------- guesses

  /** A wrong password whose check was actually carried out. */
  predicate Guess(s: State, e: Event) {
    || (e.Attempt? && e.known && !e.matches && !HeldAt(s, e.now))
    || (Commits(s, e) && !e.matches)
  }

  predicate Success(s: State, e: Event) {
    e.Attempt? && e.known && e.matches && !HeldAt(s, e.now)
  }

  predicate Within(e: Event, lo: int, hi: int) {
    lo <= e.now < hi
  }

  /** What is counted of a run. */
  datatype Kind = Guesses | Successes | Resets | Overlaps

  predicate Counts(kind: Kind, s: State, e: Event) {
    match kind
    case Guesses => Guess(s, e)
    case Successes => Success(s, e)
    case Resets => e.Reset?
    case Overlaps => Commits(s, e)
  }

  /** How many of the first `n` events in the half-open interval are of this kind. */
  function Count(kind: Kind, s: State, events: seq<Event>, n: nat, lo: int, hi: int): nat
    requires n <= |events|
  {
    if n == 0 then 0
    else Count(kind, s, events, n - 1, lo, hi)
         + (if Within(events[n - 1], lo, hi) && Counts(kind, Run(s, events, n - 1), events[n - 1]) then 1 else 0)
  }

  ghost predicate ClockForward(events: seq<Event>) {
    forall i, j :: 0 <= i < j < |events| ==> events[i].now <= events[j].now
  }

  /** Counters stay below the limit, that of the row and those that were read. */
  predicate BelowLimit(s: State) {
    s.lock.failedLogins < MAX_FAILED_LOGINS
    && forall f :: f in s.flights ==> f.read.failedLogins < MAX_FAILED_LOGINS
  }

  lemma StepStaysBelowLimit(s: State, e: Event)
    requires BelowLimit(s)
    ensures BelowLimit(Apply(s, e))
  {
    var after := Apply(s, e);
    forall f | f in after.flights ensures f.read.failedLogins < MAX_FAILED_LOGINS {
      if Commits(s, e) {
        assert s.flights[e.k] in s.flights;
        assert f in s.flights || f == s.flights[e.k].(open := false);
      }
    }
    if Commits(s, e) { assert s.flights[e.k] in s.flights; }
  }

  lemma {:induction false} RunStaysBelowLimit(s: State, events: seq<Event>, n: nat)
    requires n <= |events| && BelowLimit(s)
    ensures BelowLimit(Run(s, events, n))
  {
    if n > 0 {
      RunStaysBelowLimit(s, events, n - 1);
      StepStaysBelowLimit(Run(s, events, n - 1), events[n - 1]);
    }
  }

  /** Guesses still possible before `hi` without a success, a reset or an overlap. */
  function Budget(l: Lock, hi: int): int {
    if l.lockedUntil.Some? && l.lockedUntil.value >= hi then 0 else MAX_FAILED_LOGINS - l.failedLogins
  }

  /** What one event gives back: nine guesses a success, ten a reset, and eleven a commit that
      others overlap, its own guess included. */
  function Returned(s: State, e: Event): nat {
    (if Counts(Successes, s, e) then 9 else 0) + (if Counts(Resets, s, e) then 10 else 0)
    + (if Counts(Overlaps, s, e) then 11 else 0)
  }

  lemma BudgetPays(s: State, e: Event, lo: int)
    requires BelowLimit(s) && BelowLimit(Apply(s, e)) && Within(e, lo, lo + LOCKOUT)
    ensures Budget(Apply(s, e).lock, lo + LOCKOUT)
         <= Budget(s.lock, lo + LOCKOUT) - (if Counts(Guesses, s, e) then 1 else 0) + Returned(s, e)
  {}

  /** All that was given back by the first `n` events in an interval. */
  function Allowance(s: State, events: seq<Event>, n: nat, lo: int, hi: int): nat
    requires n <= |events|
  {
    9 * Count(Successes, s, events, n, lo, hi) + 10 * Count(Resets, s, events, n, lo, hi)
    + 11 * Count(Overlaps, s, events, n, lo, hi)
  }

  /** In one lockout period: guesses made so far and guesses still possible are paid for by the
      ten guesses of one cycle and by what was given back. */
  lemma {:induction false} PeriodBudget(s: State, events: seq<Event>, n: nat, lo: int)
    requires n <= |events| && ClockForward(events) && BelowLimit(s)
    requires n > 0 ==> events[n - 1].now < lo + LOCKOUT
    ensures n > 0 && lo <= events[n - 1].now ==>
      Count(Guesses, s, events, n, lo, lo + LOCKOUT) + Budget(Run(s, events, n).lock, lo + LOCKOUT)
      <= 10 + Allowance(s, events, n, lo, lo + LOCKOUT)
    ensures n == 0 || events[n - 1].now < lo ==> Count(Guesses, s, events, n, lo, lo + LOCKOUT) == 0
  {
    if n > 0 {
      PeriodBudget(s, events, n - 1, lo);
      RunStaysBelowLimit(s, events, n - 1);
      RunStaysBelowLimit(s, events, n);
      var before, e := Run(s, events, n - 1), events[n - 1];
      if lo <= e.now { BudgetPays(before, e, lo); }
    }
  }

  /** At most ten guesses in one period of 15 minutes, plus what was given back. */
  lemma {:induction false} PeriodBound(s: State, events: seq<Event>, n: nat, lo: int)
    requires n <= |events| && ClockForward(events) && BelowLimit(s)
    ensures Count(Guesses, s, events, n, lo, lo + LOCKOUT) <= 10 + Allowance(s, events, n, lo, lo + LOCKOUT)
  {
    if n > 0 && events[n - 1].now >= lo + LOCKOUT {
      PeriodBound(s, events, n - 1, lo);
    } else {
      PeriodBudget(s, events, n, lo);
      RunStaysBelowLimit(s, events, n);
    }
  }

  lemma {:induction false} CountsAddUp(kind: Kind, s: State, events: seq<Event>, n: nat, lo: int, mid: int, hi: int)
    requires n <= |events| && lo <= mid <= hi
    ensures Count(kind, s, events, n, lo, hi) == Count(kind, s, events, n, lo, mid) + Count(kind, s, events, n, mid, hi)
  {
    if n > 0 { CountsAddUp(kind, s, events, n - 1, lo, mid, hi); }
  }

  lemma {:induction false} NothingInEmptyInterval(kind: Kind, s: State, events: seq<Event>, n: nat, lo: int)
    requires n <= |events|
    ensures Count(kind, s, events, n, lo, lo) == 0
  {
    if n > 0 { NothingInEmptyInterval(kind, s, events, n - 1, lo); }
  }

  /** Lockout rate: in any run, the wrong passwords checked against one account in any half-open
      interval of `periods` * 15 minutes number at most ten per period, plus nine for every
      successful login, ten for every reset and eleven for every overlapping login in the interval. */
  lemma {:induction false} LockoutRate(s: State, events: seq<Event>, lo: int, periods: nat)
    requires ClockForward(events) && BelowLimit(s)
    ensures var n, hi := |events|, lo + periods * 900_000_000;
            Count(Guesses, s, events, n, lo, hi)
            <= 10 * periods + 9 * Count(Successes, s, events, n, lo, hi) + 10 * Count(Resets, s, events, n, lo, hi)
               + 11 * Count(Overlaps, s, events, n, lo, hi)
  {
    var n := |events|;
    if periods == 0 {
      NothingInEmptyInterval(Guesses, s, events, n, lo);
    } else {
      var mid := lo + (periods - 1) * LOCKOUT;
      LockoutRate(s, events, lo, periods - 1);
      PeriodBound(s, events, n, mid);
      assert lo + periods * LOCKOUT == mid + LOCKOUT;
      CountsAddUp(Guesses, s, events, n, lo, mid, mid + LOCKOUT);
      CountsAddUp(Successes, s, events, n, lo, mid, mid + LOCKOUT);
      CountsAddUp(Resets, s, events, n, lo, mid, mid + LOCKOUT);
      CountsAddUp(Overlaps, s, events, n, lo, mid, mid + LOCKOUT);
    }
  }

  // ---------------------------------------------------------------- the lock itself

  predicate WrongPassword(e: Event) {
    e.Attempt? && e.known && !e.matches
  }

  lemma {:induction false} WrongPasswordsAreCounted(s: State, events: seq<Event>, n: nat)
    requires n <= |events| && s.lock.failedLogins + n < MAX_FAILED_LOGINS
    requires forall i :: 0 <= i < n ==> WrongPassword(events[i]) && !Locked(s.lock, events[i].now)
    ensures Run(s, events, n) == s.(lock := s.lock.(failedLogins := s.lock.failedLogins + n))
  {
    if n > 0 { WrongPasswordsAreCounted(s, events, n - 1); }
  }

  /** The bound is met: of an unlocked account with no failures, exactly ten wrong passwords in a
      row are checked; then even the right password is refused for 15 minutes, and no longer. */
  lemma TenthWrongPasswordLocks(s: State, events: seq<Event>, now: int)
    requires |events| == 10 && s.lock.failedLogins == 0
    requires forall i :: 0 <= i < 10 ==> WrongPassword(events[i]) && !Locked(s.lock, events[i].now)
    ensures forall i :: 0 <= i < 10 ==> Guess(Run(s, events, i), events[i])
    ensures var after := Run(s, events, 10);
            && (forall matches :: now < events[9].now + 900_000_000 ==>
                  Answer(after, Attempt(now, true, matches)) == Some(AccountLocked))
            && (now >= events[9].now + 900_000_000 ==> Answer(after, Attempt(now, true, true)) == Some(Authenticated))
  {
    forall i | 0 <= i < 10 ensures Run(s, events, i) == s.(lock := s.lock.(failedLogins := i)) {
      WrongPasswordsAreCounted(s, events, i);
    }
    assert Run(s, events, 10) == Apply(Run(s, events, 9), events[9]);
  }

  // ---------------------------------------------------------------- the lock from the outside

  /** What a run looks like from the outside: how many passwords were checked and found wrong since
      the last success or reset, and when the last of them was. */
  datatype Streak = Streak(wrong: nat, last: int)

  function StreakAfter(s: State, events: seq<Event>, n: nat): Streak
    requires n <= |events|
  {
    if n == 0 then Streak(0, 0)
    else
      var before, e := StreakAfter(s, events, n - 1), events[n - 1];
      var answer := Answer(Run(s, events, n - 1), e);
      if e.Reset? || answer == Some(Authenticated) then Streak(0, 0)
      else if e.Attempt? && e.known && answer == Some(InvalidCredentials) then Streak(before.wrong + 1, e.now)
      else before
  }

  /** The row against the streak: the counter starts over at every tenth, and a lock that may still
      be held is that of the last one. */
  ghost predicate Mirrors(s: State, k: Streak, now: int) {
    && s.lock.failedLogins == k.wrong % 10
    && (k.wrong > 0 ==> k.last <= now)
    && (if k.wrong > 0 && k.wrong % 10 == 0 then s.lock.lockedUntil == Some(k.last + 900_000_000) else !HeldAt(s, now))
  }

  lemma NextTenth(k: nat)
    ensures (k + 1) % 10 == if k % 10 == 9 then 0 else k % 10 + 1
  {}

  lemma {:induction false} StreakIsMirrored(events: seq<Event>, n: nat, now: int)
    requires n <= |events| && ClockForward(events) && (n > 0 ==> events[n - 1].now <= now)
    requires forall e :: e in events ==> e.Attempt? || e.Reset?
    ensures Mirrors(Run(State(UNLOCKED, []), events, n), StreakAfter(State(UNLOCKED, []), events, n), now)
  {
    if n > 0 {
      var s, e := State(UNLOCKED, []), events[n - 1];
      StreakIsMirrored(events, n - 1, e.now);
      NextTenth(StreakAfter(s, events, n - 1).wrong);
      assert e in events;
    }
  }

  /** When an account is locked, said by its answers alone: in a run that nothing overlaps a login is
      refused as locked exactly when the wrong passwords since the last success or reset have reached
      a multiple of ten, the last of them less than 15 minutes ago. */
  lemma LockedIff(events: seq<Event>, n: nat)
    requires n < |events| && ClockForward(events) && (forall e :: e in events ==> e.Attempt? || e.Reset?)
    requires events[n].Attempt? && events[n].known
    ensures var s, e, streak := State(UNLOCKED, []), events[n], StreakAfter(State(UNLOCKED, []), events, n);
            Answer(Run(s, events, n), e) == Some(AccountLocked)
            <==> streak.wrong > 0 && streak.wrong % 10 == 0 && e.now < streak.last + 900_000_000
  {
    StreakIsMirrored(events, n, events[n].now);
  }

  /** `wave` reads at one instant, and then their commits with wrong passwords. */
  function Wave(now: int, wave: nat): (events: seq<Event>)
    ensures |events| == 2 * wave
    ensures forall i :: 0 <= i < |events| ==>
      events[i] == if i < wave then Read(now, true) else Commit(now, i - wave, false)
  {
    seq(2 * wave, i requires 0 <= i < 2 * wave => if i < wave then Read(now, true) else Commit(now, i - wave, false))
  }

  lemma {:induction false} ReadsTakeOff(s: State, now: int, wave: nat, n: nat)
    requires s == State(UNLOCKED, []) && n <= wave
    ensures Run(s, Wave(now, wave), n) == State(UNLOCKED, seq(n, _ => Flight(now, UNLOCKED, true)))
    ensures Count(Guesses, s, Wave(now, wave), n, now, now + 1) == 0
  {
    if n > 0 { ReadsTakeOff(s, now, wave, n - 1); }
  }

  lemma {:induction false} CommitsLand(s: State, now: int, wave: nat, n: nat)
    requires s == State(UNLOCKED, []) && n <= wave
    ensures var after := Run(s, Wave(now, wave), wave + n);
            && after.lock == (if n == 0 then UNLOCKED else Lock(1, None)) && |after.flights| == wave
            && (forall k :: 0 <= k < wave ==> after.flights[k] == Flight(now, UNLOCKED, k >= n))
    ensures Count(Guesses, s, Wave(now, wave), wave + n, now, now + 1) == n
  {
    if n == 0 {
      ReadsTakeOff(s, now, wave, wave);
    } else {
      CommitsLand(s, now, wave, n - 1);
    }
  }

  /** Overlapping logins do exceed ten: any number of them that read the same unlocked row all have
      their password checked, and together count as one. */
  lemma OverlappingLoginsCountOnce(now: int, wave: nat)
    requires wave > 0
    ensures ClockForward(Wave(now, wave))
    ensures Count(Guesses, State(UNLOCKED, []), Wave(now, wave), 2 * wave, now, now + 1) == wave
    ensures Run(State(UNLOCKED, []), Wave(now, wave), 2 * wave).lock == Lock(1, None)
  {
    CommitsLand(State(UNLOCKED, []), now, wave, wave);
  }
}

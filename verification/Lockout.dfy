/** Account lockout: the counters in a user row, and how slowly they let passwords be guessed.
    Time is in seconds. */
module Lockout {
  import opened Values

  datatype Policy = Policy(maxAttempts: int, lock: nat, window: nat)
  {
    predicate Enabled() { maxAttempts > 0 }

    predicate IsLocked(lockedUntil: Option<int>, now: int) {
      lockedUntil.Some? && lockedUntil.value > now
    }

    /** The counter and lock expiry after one more failed attempt. */
    function NextState(failures: nat, lastFailure: Option<int>, now: int): (nat, Option<int>) {
      var counted := (if lastFailure.Some? && now - lastFailure.value > window then 0 else failures) + 1;
      (counted, if Enabled() && counted >= maxAttempts then Some(now + lock) else None)
    }
  }

  datatype Counters = Counters(failures: nat, lastFailure: Option<int>, lockedUntil: Option<int>)

  const CLEARED := Counters(0, None, None)

  /** One guess reads the clock three times: to check the lock, to compute the next state, and
      to stamp the failure. */
  datatype Guess = Guess(check: int, at: int, stamp: int)

  function Failed(p: Policy, c: Counters, g: Guess): Counters {
    var (failures, lockedUntil) := p.NextState(c.failures, c.lastFailure, g.at);
    Counters(failures, Some(g.stamp), lockedUntil)
  }

  datatype Outcome = LockedOut | Refused | SignedIn

  class Account {
    var counters: Counters
    var lastLogin: Option<int>

    constructor ()
      ensures counters == CLEARED && lastLogin == None
    {
      counters, lastLogin := CLEARED, None;
    }

    /** A locked account is refused before the password is looked at; a wrong password counts,
        and a right one clears the counters. */
    method Login(p: Policy, matches: bool, active: bool, g: Guess) returns (o: Outcome)
      modifies this
      ensures o == if p.IsLocked(old(counters).lockedUntil, g.check) then LockedOut
                   else if matches && active then SignedIn else Refused
      ensures counters == match o
                          case LockedOut => old(counters)
                          case Refused => if p.Enabled() then Failed(p, old(counters), g) else old(counters)
                          case SignedIn => if old(counters).failures == 0 && old(counters).lockedUntil.None?
                                           then old(counters) else CLEARED
      ensures lastLogin == if o.SignedIn? then Some(g.stamp) else old(lastLogin)
    {
      if p.IsLocked(counters.lockedUntil, g.check) {
        return LockedOut;
      }
      if !matches || !active {
        if p.Enabled() {
          RecordFailure(p, g);
        }
        return Refused;
      }
      lastLogin := Some(g.stamp);
      if counters.failures != 0 || counters.lockedUntil.Some? {
        counters := CLEARED;
      }
      return SignedIn;
    }

    method RecordFailure(p: Policy, g: Guess)
      modifies `counters
      ensures counters == Failed(p, old(counters), g)
    {
      var (failures, lockedUntil) := p.NextState(counters.failures, counters.lastFailure, g.at);
      counters := Counters(failures, Some(g.stamp), lockedUntil);
    }
  }

  // ----- guessing -----

  /** Guesses that were verified and failed, one after another with no success in between:
      each found the account unlocked, and began after the one before was written down. */
  predicate Verified(p: Policy, c: Counters, guesses: seq<Guess>)
    decreases |guesses|
  {
    guesses == [] ||
    (var g := guesses[0];
     && g.check <= g.at <= g.stamp && !p.IsLocked(c.lockedUntil, g.check)
     && (|guesses| > 1 ==> g.stamp <= guesses[1].check)
     && Verified(p, Failed(p, c, g), guesses[1..]))
  }

  function Shortest(p: Policy): nat { if p.lock <= p.window then p.lock else p.window }

  lemma {:induction false} TimesRise(p: Policy, c: Counters, guesses: seq<Guess>, i: nat, j: nat)
    requires Verified(p, c, guesses) && i <= j < |guesses|
    ensures guesses[i].at <= guesses[j].at
    ensures i < j ==> guesses[i].stamp <= guesses[j].check
    decreases j
  {
    if i > 0 {
      TimesRise(p, Failed(p, c, guesses[0]), guesses[1..], i - 1, j - 1);
    } else if j > 1 {
      TimesRise(p, Failed(p, c, guesses[0]), guesses[1..], 0, j - 1);
    } else if j == 1 {
      assert Verified(p, Failed(p, c, guesses[0]), guesses[1..]);
      assert guesses[1..][0] == guesses[1];
    }
  }

  /** With `done` failures counted since `start`, the guess after the last free one comes at
      least a lock or a window later. */
  lemma {:induction false} GuessesTakeTime(p: Policy, c: Counters, guesses: seq<Guess>, start: int, done: nat)
    requires Verified(p, c, guesses) && guesses != [] && guesses[0].at >= start
    requires done <= c.failures && done < p.maxAttempts < done + |guesses|
    requires done > 0 ==> c.lastFailure.Some? && c.lastFailure.value >= start
    ensures guesses[|guesses| - 1].at >= start + Shortest(p)
    decreases |guesses|
  {
    var g, next := guesses[0], Failed(p, c, guesses[0]);
    TimesRise(p, c, guesses, 0, |guesses| - 1);
    if done == 0 || g.at - c.lastFailure.value <= p.window {
      TimesRise(p, c, guesses, 0, 1);
      TimesRise(p, c, guesses, 1, |guesses| - 1);
      assert guesses[1..][0] == guesses[1] && Verified(p, next, guesses[1..]);
      if done + 1 < p.maxAttempts {
        GuessesTakeTime(p, next, guesses[1..], start, done + 1);
      } else {
        assert next.lockedUntil == Some(g.at + p.lock);
      }
    }
  }

  /** Whatever the row held before, any max_attempts + 1 verified failing guesses span at least
      the lock or the window, whichever is shorter. */
  lemma ManyGuessesTakeTime(p: Policy, c: Counters, guesses: seq<Guess>)
    requires p.Enabled() && Verified(p, c, guesses) && |guesses| == p.maxAttempts + 1
    ensures guesses[|guesses| - 1].at - guesses[0].at >= Shortest(p)
  {
    GuessesTakeTime(p, c, guesses, guesses[0].at, 0);
  }

  function After(p: Policy, c: Counters, guesses: seq<Guess>): Counters
    decreases |guesses|
  {
    if guesses == [] then c else After(p, Failed(p, c, guesses[0]), guesses[1..])
  }

  lemma {:induction false} VerifiedSplits(p: Policy, c: Counters, guesses: seq<Guess>, n: nat)
    requires Verified(p, c, guesses) && n <= |guesses|
    ensures Verified(p, c, guesses[..n]) && Verified(p, After(p, c, guesses[..n]), guesses[n..])
    decreases |guesses|
  {
    if n > 0 {
      VerifiedSplits(p, Failed(p, c, guesses[0]), guesses[1..], n - 1);
      assert guesses[..n][1..] == guesses[1..][..n - 1] && guesses[n..] == guesses[1..][n - 1..];
    } else {
      assert guesses[0..] == guesses;
    }
  }

  lemma OneMoreRound(rounds: nat, x: nat)
    requires rounds > 0
    ensures 0 <= (rounds - 1) * x && rounds * x == (rounds - 1) * x + x
  {
  }

  lemma RoundTakesTime(p: Policy, c: Counters, guesses: seq<Guess>, before: nat)
    requires p.Enabled() && Verified(p, c, guesses) && before + p.maxAttempts < |guesses|
    ensures guesses[before + p.maxAttempts].at >= guesses[before].at + Shortest(p)
  {
    hide Verified, After, Shortest;
    VerifiedSplits(p, c, guesses, before);
    var rest := guesses[before..];
    VerifiedSplits(p, After(p, c, guesses[..before]), rest, p.maxAttempts + 1);
    ManyGuessesTakeTime(p, After(p, c, guesses[..before]), rest[..p.maxAttempts + 1]);
  }

  /** Every max_attempts guesses cost another lock or window. */
  lemma {:induction false} RoundsTakeTime(p: Policy, c: Counters, guesses: seq<Guess>, rounds: nat)
    requires p.Enabled() && Verified(p, c, guesses) && |guesses| > rounds * p.maxAttempts
    ensures guesses[rounds * p.maxAttempts].at >= guesses[0].at + rounds * Shortest(p)
    decreases rounds
  {
    hide Verified, After, Shortest;
    if rounds > 0 {
      OneMoreRound(rounds, p.maxAttempts);
      OneMoreRound(rounds, Shortest(p));
      RoundsTakeTime(p, c, guesses, rounds - 1);
      RoundTakesTime(p, c, guesses, (rounds - 1) * p.maxAttempts);
    }
  }

  /** A stretch of time admits only so many guesses. */
  lemma GuessesBounded(p: Policy, c: Counters, guesses: seq<Guess>, stretch: nat)
    requires p.Enabled() && Verified(p, c, guesses) && Shortest(p) > 0 && guesses != []
    requires guesses[|guesses| - 1].at - guesses[0].at <= stretch
    ensures |guesses| <= p.maxAttempts * (stretch / Shortest(p) + 1)
  {
    var rounds := stretch / Shortest(p) + 1;
    if |guesses| > rounds * p.maxAttempts {
      RoundsTakeTime(p, c, guesses, rounds);
      TimesRise(p, c, guesses, rounds * p.maxAttempts, |guesses| - 1);
      DivisionBound(stretch, Shortest(p));
    }
    assert rounds * p.maxAttempts == p.maxAttempts * rounds;
  }

  lemma DivisionBound(a: nat, b: nat)
    requires b > 0
    ensures (a / b + 1) * b > a
  {
    assert a == a / b * b + a % b;
  }

  /** No guess after the first comes longer than the window after the one before. */
  predicate NeverIdle(p: Policy, guesses: seq<Guess>) {
    forall i :: 0 <= i < |guesses| - 1 ==> guesses[i + 1].at - guesses[i].stamp <= p.window
  }

  /** Once the account was locked, and without an idle gap longer than the window, every later
      guess locks it again: they are at least one lock apart. */
  lemma {:induction false} LockedGuessesApart(p: Policy, c: Counters, guesses: seq<Guess>, i: nat)
    requires p.Enabled() && Verified(p, c, guesses) && NeverIdle(p, guesses)
    requires guesses != [] && p.maxAttempts <= Failed(p, c, guesses[0]).failures
    requires i + 1 < |guesses|
    ensures guesses[i + 1].at >= guesses[i].at + p.lock
    decreases |guesses|
  {
    var next, rest := Failed(p, c, guesses[0]), guesses[1..];
    assert Verified(p, next, rest) && rest[0] == guesses[1];
    if i > 0 {
      assert NeverIdle(p, rest) by {
        forall k | 0 <= k < |rest| - 1 ensures rest[k + 1].at - rest[k].stamp <= p.window {
          assert guesses[k + 2].at - guesses[k + 1].stamp <= p.window;
        }
      }
      assert guesses[0 + 1].at - guesses[0].stamp <= p.window;
      LockedGuessesApart(p, next, rest, i - 1);
    }
  }

  /** Every guess comes longer than the window after the failure before it. */
  predicate Sparse(p: Policy, last: Option<int>, guesses: seq<Guess>)
    decreases |guesses|
  {
    guesses == [] || ((last.Some? ==> guesses[0].at - last.value > p.window) && Sparse(p, Some(guesses[0].stamp), guesses[1..]))
  }

  /** Somebody who mistypes now and then never accumulates a lock, however often. */
  lemma {:induction false} SparseFailuresNeverLock(p: Policy, c: Counters, guesses: seq<Guess>)
    requires p.maxAttempts >= 2 && Sparse(p, c.lastFailure, guesses) && c.lockedUntil.None?
    requires c.failures <= 1 || c.lastFailure.Some?
    requires c.lastFailure.None? ==> c.failures == 0
    ensures After(p, c, guesses).lockedUntil.None?
    decreases |guesses|
  {
    if guesses == [] {
    } else {
      SparseFailuresNeverLock(p, Failed(p, c, guesses[0]), guesses[1..]);
    }
  }

  /** With no idle gap every failure counts once. */
  lemma {:induction false} EveryFailureCounts(p: Policy, c: Counters, guesses: seq<Guess>)
    requires guesses != [] && NeverIdle(p, guesses)
    requires c.lastFailure.Some? ==> c.failures == 0 || guesses[0].at - c.lastFailure.value <= p.window
    ensures var n, last := c.failures + |guesses|, guesses[|guesses| - 1];
            After(p, c, guesses) == Counters(n, Some(last.stamp),
              if 0 < p.maxAttempts <= n then Some(last.at + p.lock) else None)
    decreases |guesses|
  {
    if |guesses| == 1 {
      assert After(p, Failed(p, c, guesses[0]), guesses[1..]) == Failed(p, c, guesses[0]);
    } else {
      var rest := guesses[1..];
      assert NeverIdle(p, rest) by {
        forall k | 0 <= k < |rest| - 1 ensures rest[k + 1].at - rest[k].stamp <= p.window {
          assert guesses[k + 2].at - guesses[k + 1].stamp <= p.window;
        }
      }
      assert guesses[0 + 1].at - guesses[0].stamp <= p.window;
      EveryFailureCounts(p, Failed(p, c, guesses[0]), rest);
    }
  }

  /** The last idle gap is before guess k. */
  predicate RunStartsAt(p: Policy, guesses: seq<Guess>, k: nat) {
    && k < |guesses| && NeverIdle(p, guesses[k..])
    && (k > 0 ==> guesses[k].at - guesses[k - 1].stamp > p.window)
  }

  /** From a cleared row the counter is the number of failures since the last gap longer than
      the window, and the account is locked exactly when they are max_attempts or more, until
      exactly one lock after the last of them. */
  lemma LocksExactlyAtLimit(p: Policy, guesses: seq<Guess>, k: nat, now: int)
    requires p.Enabled() && RunStartsAt(p, guesses, k)
    ensures var c, last := After(p, CLEARED, guesses), guesses[|guesses| - 1];
      && c.failures == |guesses| - k && c.lastFailure == Some(last.stamp)
      && (p.IsLocked(c.lockedUntil, now) <==> |guesses| - k >= p.maxAttempts && now < last.at + p.lock)
  {
    hide After, NeverIdle;
    AfterSplits(p, CLEARED, guesses, k);
    var c := After(p, CLEARED, guesses[..k]);
    if k == 0 {
      assert guesses[..0] == [] && guesses[0..] == guesses;
      NothingGuessed(p, CLEARED);
      EveryFailureCounts(p, CLEARED, guesses);
    } else {
      LastIsStamped(p, CLEARED, guesses[..k]);
      GapClears(p, c, guesses[k..]);
      EveryFailureCounts(p, c.(failures := 0), guesses[k..]);
    }
  }

  lemma NothingGuessed(p: Policy, c: Counters)
    ensures After(p, c, []) == c
  {
  }

  lemma {:induction false} AfterSplits(p: Policy, c: Counters, guesses: seq<Guess>, k: nat)
    requires k <= |guesses|
    ensures After(p, c, guesses) == After(p, After(p, c, guesses[..k]), guesses[k..])
    decreases |guesses|
  {
    if k == 0 {
      assert guesses[..0] == [] && guesses[0..] == guesses;
    } else {
      assert guesses[..k][1..] == guesses[1..][..k - 1] && guesses[k..] == guesses[1..][k - 1..];
      AfterSplits(p, Failed(p, c, guesses[0]), guesses[1..], k - 1);
    }
  }

  lemma {:induction false} LastIsStamped(p: Policy, c: Counters, guesses: seq<Guess>)
    requires guesses != []
    ensures After(p, c, guesses).lastFailure == Some(guesses[|guesses| - 1].stamp)
    decreases |guesses|
  {
    if |guesses| == 1 {
      NothingGuessed(p, Failed(p, c, guesses[0]));
    } else {
      LastIsStamped(p, Failed(p, c, guesses[0]), guesses[1..]);
    }
  }

  /** After an idle gap what was counted before does not matter. */
  lemma GapClears(p: Policy, c: Counters, guesses: seq<Guess>)
    requires guesses != [] && c.lastFailure.Some? && guesses[0].at - c.lastFailure.value > p.window
    ensures After(p, c, guesses) == After(p, c.(failures := 0), guesses)
  {
    assert Failed(p, c, guesses[0]) == Failed(p, c.(failures := 0), guesses[0]);
  }
}

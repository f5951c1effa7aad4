/**
 * The two synchronisation objects: the shared counter made by `tk_atom`
 * (incremented by `tk_atom_closure`) and the mutex made by `tk_mutex` (used
 * through `tk_mutex_closure`).
 *
 * Each holds a binary semaphore, modelled as its count. One caller's
 * sequential effect is modelled, starting from a free lock. A ghost trace
 * records the semaphore, clock, sleep and body steps of every call, in order.
 * The calls made into Lua modules (the clock, the sleep, loading
 * `santoku.error`, the body under the mutex) are inputs: each returns a value
 * or raises an error.
 */
module Sync {
  import opened Lua

  /** One observable step of a call. A call into a Lua module either returns or raises. */
  datatype Step =
    | SemWait
    | SemPost
    | ReadClock(time: Result<real>)
    | Sleep(seconds: real, raised: Option<Error>)
    | RunBody(fn: Value, args: seq<Value>)

  /**
   * Runs the semaphore steps of `trace` from a state where the lock is held
   * (`held`) or free. The result is the final state, or `None` when a post
   * comes without a wait, or a wait comes while this caller already holds the
   * lock (that wait would never return).
   */
  function LockAfter(held: bool, trace: seq<Step>): Option<bool>
    decreases |trace|
  {
    if trace == [] then Some(held)
    else
      match trace[0]
      case SemWait => if held then None else LockAfter(true, trace[1..])
      case SemPost => if held then LockAfter(false, trace[1..]) else None
      case _ => LockAfter(held, trace[1..])
  }

  /** Waits and posts alternate, starting with a wait, and the lock is free at the end. */
  predicate Balanced(trace: seq<Step>)
  {
    LockAfter(false, trace) == Some(false)
  }

  lemma {:induction false} LockAfterAppend(held: bool, a: seq<Step>, b: seq<Step>)
    ensures LockAfter(held, a + b) ==
              match LockAfter(held, a)
              case None => None
              case Some(h) => LockAfter(h, b)
    decreases |a|
  {
    if a == [] {
      assert a + b == b;
    } else {
      assert (a + b)[0] == a[0] && (a + b)[1..] == a[1..] + b;
      match a[0]
      case SemWait => if !held { LockAfterAppend(true, a[1..], b); }
      case SemPost => if held { LockAfterAppend(false, a[1..], b); }
      case _ => LockAfterAppend(held, a[1..], b);
    }
  }

  /** Balanced histories compose: a call that is balanced keeps the whole trace balanced. */
  lemma BalancedAppend(a: seq<Step>, b: seq<Step>)
    requires Balanced(a) && Balanced(b)
    ensures Balanced(a + b)
  {
    LockAfterAppend(false, a, b);
  }

  /**
   * Once a call has left the lock held, the next wait on the semaphore never
   * returns, whatever follows it.
   */
  lemma HeldLockBlocksNextWait(trace: seq<Step>, rest: seq<Step>)
    requires LockAfter(false, trace) == Some(true)
    ensures LockAfter(false, trace + [SemWait] + rest) == None
  {
    LockAfterAppend(false, trace + [SemWait], rest);
    LockAfterAppend(false, trace, [SemWait]);
  }

  /** `luaL_optnumber(L, n, 1)` and the like: a missing number takes its default. */
  function OrDefault(x: Option<real>, default: real): real
  {
    if x.Some? then x.value else default
  }

  /**
   * The throttle decision of `tk_atom_closure`: with `now` read after taking the
   * lock, it sleeps for `throttle - (now - last)` exactly when less than
   * `throttle` has passed since `last`.
   */
  function ThrottleDelay(throttle: real, last: real, now: real): (d: Option<real>)
    ensures d.Some? <==> now - last < throttle
    ensures d.Some? ==> d.value > 0.0 && now + d.value == last + throttle
  {
    if now - last < throttle then Some(throttle - (now - last)) else None
  }

  /**
   * The error a throttled increment raises while it holds the lock, if any.
   * The first clock reading, the sleep (made only when one is needed) and the
   * second clock reading are unprotected calls into Lua modules (`now1`,
   * `slept`, `now2` say how each ended), and the first that raises ends the
   * call.
   */
  function ThrottledRaise(throttle: real, last: real, now1: Result<real>, slept: Option<Error>, now2: Result<real>)
    : Option<Error>
  {
    if now1.Err? then Some(now1.error)
    else if ThrottleDelay(throttle, last, now1.value).Some? && slept.Some? then slept
    else if now2.Err? then Some(now2.error)
    else None
  }

  /** The error an increment of a counter with this `throttle` raises, if any; an unthrottled one calls nothing. */
  function IncrementRaise(throttle: real, last: real, now1: Result<real>, slept: Option<Error>, now2: Result<real>)
    : Option<Error>
  {
    if throttle > 0.0 then ThrottledRaise(throttle, last, now1, slept, now2) else None
  }

  /** The steps of one increment, up to the return or the first call that raises. */
  function IncrementSteps(throttle: real, last: real, now1: Result<real>, slept: Option<Error>, now2: Result<real>)
    : seq<Step>
  {
    if throttle <= 0.0 then [SemWait, SemPost]
    else if now1.Err? then [SemWait, ReadClock(now1)]
    else
      var d := ThrottleDelay(throttle, last, now1.value);
      var sleep := if d.Some? then [Sleep(d.value, slept)] else [];
      if d.Some? && slept.Some? then [SemWait, ReadClock(now1)] + sleep
      else if now2.Err? then [SemWait, ReadClock(now1)] + sleep + [ReadClock(now2)]
      else [SemWait, ReadClock(now1)] + sleep + [ReadClock(now2), SemPost]
  }

  /** A step that does not touch the semaphore. */
  predicate Quiet(step: Step)
  {
    !step.SemWait? && !step.SemPost?
  }

  lemma {:induction false} QuietSteps(held: bool, mid: seq<Step>)
    requires forall i :: 0 <= i < |mid| ==> Quiet(mid[i])
    ensures LockAfter(held, mid) == Some(held)
    decreases |mid|
  {
    if mid != [] {
      QuietSteps(held, mid[1..]);
    }
  }

  /** A wait followed by steps that leave the semaphore alone ends with the lock held. */
  lemma HeldSection(mid: seq<Step>)
    requires forall i :: 0 <= i < |mid| ==> Quiet(mid[i])
    ensures LockAfter(false, [SemWait] + mid) == Some(true)
  {
    var s := [SemWait] + mid;
    assert s[0] == SemWait && s[1..] == mid;
    QuietSteps(true, mid);
  }

  /** A wait, steps that leave the semaphore alone, and a post: one critical section. */
  lemma CriticalSection(mid: seq<Step>)
    requires forall i :: 0 <= i < |mid| ==> Quiet(mid[i])
    ensures Balanced([SemWait] + mid + [SemPost])
  {
    var s := [SemWait] + mid + [SemPost];
    assert s[0] == SemWait && s[1..] == mid + [SemPost];
    LockAfterAppend(true, mid, [SemPost]);
    QuietSteps(true, mid);
    assert [SemPost][1..] == [];
  }

  /**
   * An increment waits on the semaphore once. It posts it once, leaving the
   * lock free, exactly when no call made under the lock raised; when one
   * raised, the lock is left held.
   */
  lemma IncrementStepsLock(throttle: real, last: real, now1: Result<real>, slept: Option<Error>, now2: Result<real>)
    ensures LockAfter(false, IncrementSteps(throttle, last, now1, slept, now2)) ==
              Some(IncrementRaise(throttle, last, now1, slept, now2).Some?)
  {
    var steps := IncrementSteps(throttle, last, now1, slept, now2);
    if throttle <= 0.0 {
      CriticalSection([]);
      assert steps == [SemWait] + [] + [SemPost];
    } else if now1.Err? {
      HeldSection([ReadClock(now1)]);
    } else {
      var d := ThrottleDelay(throttle, last, now1.value);
      var sleep := if d.Some? then [Sleep(d.value, slept)] else [];
      if d.Some? && slept.Some? {
        HeldSection([ReadClock(now1)] + sleep);
        assert steps == [SemWait] + ([ReadClock(now1)] + sleep);
      } else if now2.Err? {
        HeldSection([ReadClock(now1)] + sleep + [ReadClock(now2)]);
        assert steps == [SemWait] + ([ReadClock(now1)] + sleep + [ReadClock(now2)]);
      } else {
        CriticalSection([ReadClock(now1)] + sleep + [ReadClock(now2)]);
        assert steps == [SemWait] + ([ReadClock(now1)] + sleep + [ReadClock(now2)]) + [SemPost];
      }
    }
  }

  /**
   * As written, a throttled increment whose first clock reading raises leaves
   * the lock held, so the next increment's wait never returns.
   */
  lemma ClockRaiseBlocksNextIncrement(e: Error)
    ensures var first := IncrementSteps(1.0, 0.0, Err(e), None, Ok(0.0));
            var next := IncrementSteps(1.0, 0.0, Ok(2.0), None, Ok(2.0));
            LockAfter(false, first + next) == None
  {
    var first := IncrementSteps(1.0, 0.0, Err(e), None, Ok(0.0));
    var next := IncrementSteps(1.0, 0.0, Ok(2.0), None, Ok(2.0));
    IncrementStepsLock(1.0, 0.0, Err(e), None, Ok(0.0));
    assert IncrementRaise(1.0, 0.0, Err(e), None, Ok(0.0)) == Some(e);
    assert next[0] == SemWait && first + next == first + [SemWait] + next[1..];
    HeldLockBlocksNextWait(first, next[1..]);
  }

  /**
   * The steps of an increment that posts the semaphore before passing on an
   * error raised under the lock, and is otherwise the increment above.
   */
  function ReleasingIncrementSteps(throttle: real, last: real, now1: Result<real>, slept: Option<Error>, now2: Result<real>)
    : seq<Step>
  {
    var steps := IncrementSteps(throttle, last, now1, slept, now2);
    if IncrementRaise(throttle, last, now1, slept, now2).Some? then steps + [SemPost] else steps
  }

  /** The releasing increment is a critical section on every path, raise or not. */
  lemma ReleasingIncrementBalanced(throttle: real, last: real, now1: Result<real>, slept: Option<Error>, now2: Result<real>)
    ensures Balanced(ReleasingIncrementSteps(throttle, last, now1, slept, now2))
  {
    IncrementStepsLock(throttle, last, now1, slept, now2);
    LockAfterAppend(false, IncrementSteps(throttle, last, now1, slept, now2), [SemPost]);
  }

  /**
   * If the clock honours the sleep (the second reading is no earlier than the
   * first plus the delay), a throttled increment stores a time at least
   * `throttle` after the one it found.
   */
  lemma ThrottleSpacing(throttle: real, last: real, now1: real, now2: real)
    requires throttle > 0.0
    requires now2 >= now1 + (var d := ThrottleDelay(throttle, last, now1); if d.Some? then d.value else 0.0)
    ensures now2 - last >= throttle
  {
  }

  /**
   * The counter of `tk_atom`: the shared `value` and `last`, its `throttle`,
   * and its semaphore. `trace` holds the steps of every call so far.
   */
  class Counter {
    var value: real
    var last: real
    const throttle: real
    var sem: nat
    ghost var trace: seq<Step>

    /** The count agrees with the history: 1 once every wait is matched by a post, 0 while the lock is held. */
    ghost predicate Valid()
      reads this
    {
      sem <= 1 && LockAfter(false, trace) == Some(sem == 0)
    }

    /**
     * `tk_atom(def, throttle)`: the value starts at `def` (default 1), the last
     * update time at 0, the throttle defaults to -1 (off), the semaphore is free.
     */
    constructor (def: Option<real>, throttle: Option<real>)
      ensures Valid() && sem == 1
      ensures value == OrDefault(def, 1.0) && last == 0.0 && this.throttle == OrDefault(throttle, -1.0)
      ensures trace == []
    {
      value := OrDefault(def, 1.0);
      last := 0.0;
      this.throttle := OrDefault(throttle, -1.0);
      sem := 1;
      trace := [];
    }

    /**
     * `tk_atom_closure(inc)`: adds `inc` (default 1) to the value under the
     * lock and returns the value before. When throttled it reads the clock
     * (`now1`), sleeps if too little time has passed since `last` (`slept` is
     * how the sleep ended), reads the clock again (`now2`), and stores that
     * reading as the new `last`. A raise from any of these calls propagates at
     * once: the value and `last` are not updated and the semaphore is not
     * posted.
     */
    method Increment(inc: Option<real>, now1: Result<real>, slept: Option<Error>, now2: Result<real>)
      returns (r: Result<real>)
      requires Valid() && sem == 1
      modifies this
      ensures Valid()
      ensures var raised := IncrementRaise(throttle, old(last), now1, slept, now2);
        && (raised.Some? ==> r == Err(raised.value) && sem == 0 && value == old(value) && last == old(last))
        && (raised.None? ==> r == Ok(old(value)) && sem == 1 && value == old(value) + OrDefault(inc, 1.0)
                               && last == (if throttle > 0.0 then now2.value else old(last)))
      ensures trace == old(trace) + IncrementSteps(throttle, old(last), now1, slept, now2)
    {
      var delta := OrDefault(inc, 1.0);
      ghost var steps := IncrementSteps(throttle, last, now1, slept, now2);
      IncrementStepsLock(throttle, last, now1, slept, now2);
      LockAfterAppend(false, trace, steps);
      if throttle > 0.0 {
        sem := sem - 1;
        trace := trace + [SemWait];
        var before := last;
        trace := trace + [ReadClock(now1)];
        if now1.Err? {
          assert trace == old(trace) + steps;
          return Err(now1.error);
        }
        var d := ThrottleDelay(throttle, before, now1.value);
        if d.Some? {
          trace := trace + [Sleep(d.value, slept)];
          if slept.Some? {
            assert trace == old(trace) + steps;
            return Err(slept.value);
          }
        }
        trace := trace + [ReadClock(now2)];
        if now2.Err? {
          assert trace == old(trace) + steps;
          return Err(now2.error);
        }
        var prev := value;
        value := prev + delta;
        last := now2.value;
        sem := sem + 1;
        trace := trace + [SemPost];
        assert trace == old(trace) + steps;
        r := Ok(prev);
      } else {
        sem := sem - 1;
        trace := trace + [SemWait];
        var prev := value;
        value := prev + delta;
        sem := sem + 1;
        trace := trace + [SemPost];
        assert trace == old(trace) + steps;
        r := Ok(prev);
      }
    }

    /**
     * The increment with the lock released on every exit: as `Increment`, but
     * a raise from a call made under the lock posts the semaphore before it
     * is passed on.
     */
    method IncrementReleasing(inc: Option<real>, now1: Result<real>, slept: Option<Error>, now2: Result<real>)
      returns (r: Result<real>)
      requires Valid() && sem == 1
      modifies this
      ensures Valid() && sem == 1
      ensures var raised := IncrementRaise(throttle, old(last), now1, slept, now2);
        && (raised.Some? ==> r == Err(raised.value) && value == old(value) && last == old(last))
        && (raised.None? ==> r == Ok(old(value)) && value == old(value) + OrDefault(inc, 1.0)
                               && last == (if throttle > 0.0 then now2.value else old(last)))
      ensures trace == old(trace) + ReleasingIncrementSteps(throttle, old(last), now1, slept, now2)
    {
      r := Increment(inc, now1, slept, now2);
      if r.Err? {
        LockAfterAppend(false, trace, [SemPost]);
        sem := sem + 1;
        trace := trace + [SemPost];
      }
    }
  }

  /**
   * `n` unit increments of an unthrottled counter return the values
   * `v0, v0 + 1, ..., v0 + n - 1` in turn and leave `v0 + n`.
   */
  method IncrementMany(c: Counter, n: nat) returns (prevs: seq<real>)
    requires c.Valid() && c.sem == 1 && c.throttle <= 0.0
    modifies c
    ensures c.Valid() && c.sem == 1
    ensures c.value == old(c.value) + n as real
    ensures |prevs| == n && forall k :: 0 <= k < n ==> prevs[k] == old(c.value) + k as real
  {
    prevs := [];
    var i := 0;
    while i < n
      invariant 0 <= i <= n
      invariant c.Valid() && c.sem == 1
      invariant c.value == old(c.value) + i as real
      invariant |prevs| == i && forall k :: 0 <= k < i ==> prevs[k] == old(c.value) + k as real
    {
      var p := c.IncrementReleasing(Some(1.0), Ok(0.0), None, Ok(0.0));
      prevs := prevs + [p.value];
      i := i + 1;
    }
  }

  /**
   * The steps of `tk_mutex_closure(fn, ...)`: the wait, then, unless loading
   * `santoku.error` raised (`loadError`), the body and the post.
   */
  function WithLockSteps(fn: Value, rest: seq<Value>, loadError: Option<Error>): seq<Step>
  {
    if loadError.Some? then [SemWait] else [SemWait, RunBody(fn, rest), SemPost]
  }

  /** As written, the mutex is left held exactly when loading `santoku.error` raised. */
  lemma WithLockStepsLock(fn: Value, rest: seq<Value>, loadError: Option<Error>)
    ensures LockAfter(false, WithLockSteps(fn, rest, loadError)) == Some(loadError.Some?)
  {
    if loadError.Some? {
      HeldSection([]);
      assert [SemWait] + [] == [SemWait];
    } else {
      CriticalSection([RunBody(fn, rest)]);
      assert [SemWait] + [RunBody(fn, rest)] + [SemPost] == [SemWait, RunBody(fn, rest), SemPost];
    }
  }

  /** As written, a call whose loading of `santoku.error` raised makes the next call's wait never return. */
  lemma LoadErrorBlocksNextLock(e: Error, fn: Value, rest: seq<Value>)
    ensures LockAfter(false, WithLockSteps(fn, rest, Some(e)) + WithLockSteps(fn, rest, None)) == None
  {
    WithLockStepsLock(fn, rest, Some(e));
    var next := WithLockSteps(fn, rest, None);
    assert WithLockSteps(fn, rest, Some(e)) + next == WithLockSteps(fn, rest, Some(e)) + [SemWait] + next[1..];
    HeldLockBlocksNextWait(WithLockSteps(fn, rest, Some(e)), next[1..]);
  }

  /** The steps of a mutex call that posts the semaphore before passing on a failure to load `santoku.error`. */
  function ReleasingWithLockSteps(fn: Value, rest: seq<Value>, loadError: Option<Error>): seq<Step>
  {
    if loadError.Some? then [SemWait, SemPost] else WithLockSteps(fn, rest, loadError)
  }

  /** The releasing mutex call is a critical section on every path. */
  lemma ReleasingWithLockBalanced(fn: Value, rest: seq<Value>, loadError: Option<Error>)
    ensures Balanced(ReleasingWithLockSteps(fn, rest, loadError))
  {
    if loadError.Some? {
      CriticalSection([]);
      assert [SemWait] + [] + [SemPost] == [SemWait, SemPost];
    } else {
      WithLockStepsLock(fn, rest, loadError);
    }
  }

  /** The mutex of `tk_mutex`: a semaphore guarding whatever the body does. */
  class Mutex {
    var sem: nat
    ghost var trace: seq<Step>

    /** The count agrees with the history, as for the counter. */
    ghost predicate Valid()
      reads this
    {
      sem <= 1 && LockAfter(false, trace) == Some(sem == 0)
    }

    constructor ()
      ensures Valid() && sem == 1 && trace == []
    {
      sem := 1;
      trace := [];
    }

    /**
     * `tk_mutex_closure(fn, ...)`. With no arguments it returns no values and
     * leaves the semaphore alone. Otherwise it waits, then loads
     * `santoku.error` for its `pcall` (`loadError` is the error when that
     * raises, which ends the call with the lock held). The body `fn(...)` runs
     * under the protected call (`body` is its outcome), the semaphore is
     * posted, and only then are the body's results returned or its error
     * re-raised by `checkok`.
     */
    method WithLock(args: seq<Value>, loadError: Option<Error>, body: Result<seq<Value>>) returns (r: Result<seq<Value>>)
      requires Valid() && (|args| > 0 ==> sem == 1)
      modifies this
      ensures Valid()
      ensures |args| == 0 ==> r == Ok([]) && sem == old(sem) && trace == old(trace)
      ensures |args| > 0 && loadError.Some? ==>
                r == Err(loadError.value) && sem == 0 && trace == old(trace) + [SemWait]
      ensures |args| > 0 && loadError.None? ==>
                r == body && sem == 1 && trace == old(trace) + [SemWait, RunBody(args[0], args[1..]), SemPost]
      ensures |args| > 0 ==> trace == old(trace) + WithLockSteps(args[0], args[1..], loadError)
    {
      if |args| == 0 {
        return Ok([]);
      }
      if loadError.Some? {
        HeldSection([]);
        assert [SemWait] + [] == [SemWait];
        LockAfterAppend(false, trace, [SemWait]);
        sem := sem - 1;
        trace := trace + [SemWait];
        return Err(loadError.value);
      }
      ghost var steps := [SemWait, RunBody(args[0], args[1..]), SemPost];
      CriticalSection([RunBody(args[0], args[1..])]);
      assert steps == [SemWait] + [RunBody(args[0], args[1..])] + [SemPost];
      LockAfterAppend(false, trace, steps);
      sem := sem - 1;
      trace := trace + [SemWait];
      var outcome := body;
      trace := trace + [RunBody(args[0], args[1..])];
      sem := sem + 1;
      trace := trace + [SemPost];
      assert trace == old(trace) + steps;
      if outcome.Err? {
        return Err(outcome.error);
      }
      r := Ok(outcome.value);
    }

    /**
     * The mutex call with the lock released on every exit: as `WithLock`, but
     * a failure to load `santoku.error` posts the semaphore before it is
     * passed on.
     */
    method WithLockReleasing(args: seq<Value>, loadError: Option<Error>, body: Result<seq<Value>>)
      returns (r: Result<seq<Value>>)
      requires Valid() && (|args| > 0 ==> sem == 1)
      modifies this
      ensures Valid() && sem == old(sem)
      ensures |args| == 0 ==> r == Ok([]) && trace == old(trace)
      ensures |args| > 0 ==> r == (if loadError.Some? then Err(loadError.value) else body)
      ensures |args| > 0 ==> trace == old(trace) + ReleasingWithLockSteps(args[0], args[1..], loadError)
    {
      r := WithLock(args, loadError, body);
      if |args| > 0 && loadError.Some? {
        LockAfterAppend(false, trace, [SemPost]);
        sem := sem + 1;
        trace := trace + [SemPost];
        assert trace == old(trace) + [SemWait, SemPost];
      }
    }
  }
}

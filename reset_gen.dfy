/** The retriggerable reset stretcher: a counter in a reset-less clock
    domain that a trigger sends back to 0 and that otherwise climbs to
    `n - 1` and stays there; the reset output is asserted until it arrives. */
module ResetGeneration {
  import opened Signals

  /** The counter is `Signal(max=n)`, so it needs `n >= 1`. */
  type Window = n: nat | n >= 1 witness 1

  /** The window the control core instantiates. */
  const DefaultWindow: Window := 128

  /** The reset output: asserted while the counter is below its top. */
  predicate ResetOf(n: Window, counter: nat)
  {
    counter != n - 1
  }

  /** The counter at the next clock edge: a trigger wins and restarts the
      window; otherwise it counts only while reset is asserted. */
  function NextCounter(n: Window, counter: nat, trigger: bool): (c: nat)
    requires counter < n
    ensures c < n
    ensures !trigger && !ResetOf(n, counter) ==> c == counter
  {
    if trigger then 0
    else if ResetOf(n, counter) then counter + 1
    else counter
  }

  /** The counter after one step per element of `ts`, each the trigger input
      of that cycle. */
  function RunCounter(n: Window, counter: nat, ts: seq<bool>): (c: nat)
    requires counter < n
    ensures c < n
    decreases |ts|
  {
    if ts == [] then counter else RunCounter(n, NextCounter(n, counter, ts[0]), ts[1..])
  }

  /** No trigger among the inputs. */
  predicate Quiet(ts: seq<bool>)
  {
    forall i :: 0 <= i < |ts| ==> !ts[i]
  }

  /** Running over `a + b` is running over `a` and then over `b`. */
  lemma {:induction false} RunAppend(n: Window, counter: nat, a: seq<bool>, b: seq<bool>)
    requires counter < n
    ensures RunCounter(n, counter, a + b) == RunCounter(n, RunCounter(n, counter, a), b)
    decreases |a|
  {
    if a == [] {
      assert a + b == b;
    } else {
      assert (a + b)[0] == a[0];
      assert (a + b)[1..] == a[1..] + b;
      RunAppend(n, NextCounter(n, counter, a[0]), a[1..], b);
    }
  }

  /** Without triggers the counter climbs one per step and saturates at
      `n - 1`. */
  lemma {:induction false} QuietClimb(n: Window, counter: nat, ts: seq<bool>)
    requires counter < n && Quiet(ts)
    ensures RunCounter(n, counter, ts) == Min(counter + |ts|, n - 1)
    decreases |ts|
  {
    if ts != [] {
      assert !ts[0];
      assert Quiet(ts[1..]) by {
        forall i | 0 <= i < |ts[1..]| ensures !ts[1..][i] {
          assert ts[1..][i] == ts[i + 1];
        }
      }
      QuietClimb(n, NextCounter(n, counter, false), ts[1..]);
    }
  }

  /** A trigger, whatever came before it, followed by `k` steps without a
      trigger leaves the counter at `min(k, n - 1)`: reset is asserted for
      exactly the first `n - 1` of those steps and deasserted after. A later
      trigger restarts the whole window from its own cycle. */
  lemma Retrigger(n: Window, counter: nat, before: seq<bool>, after: seq<bool>)
    requires counter < n && Quiet(after)
    ensures RunCounter(n, counter, before + [true] + after) == Min(|after|, n - 1)
    ensures ResetOf(n, RunCounter(n, counter, before + [true] + after)) <==> |after| < n - 1
  {
    RunAppend(n, counter, before + [true], after);
    RunAppend(n, counter, before, [true]);
    var c := RunCounter(n, counter, before);
    assert RunCounter(n, c, [true]) == RunCounter(n, 0, []);
    QuietClimb(n, 0, after);
  }

  /** From power-up (counter 0) reset is held for the first `n - 1` cycles. */
  lemma PowerUpWindow(n: Window, ts: seq<bool>)
    requires Quiet(ts)
    ensures ResetOf(n, RunCounter(n, 0, ts)) <==> |ts| < n - 1
  {
    QuietClimb(n, 0, ts);
  }

  /** Once deasserted, reset stays deasserted until the next trigger. */
  lemma StaysReleased(n: Window, counter: nat, ts: seq<bool>)
    requires counter < n && !ResetOf(n, counter) && Quiet(ts)
    ensures !ResetOf(n, RunCounter(n, counter, ts))
  {
    QuietClimb(n, counter, ts);
  }

  /** The stretcher as a module with its counter register. */
  class ResetGen {
    const n: Window
    var counter: nat

    ghost predicate Valid()
      reads this
    {
      counter < n
    }

    /** The combinational `reset` output. */
    function Reset(): bool
      reads this
    {
      ResetOf(n, counter)
    }

    /** The counter sits in a reset-less domain and starts at 0, so reset
        is asserted from power-up. */
    constructor (n: Window)
      ensures Valid() && this.n == n && counter == 0
    {
      this.n := n;
      counter := 0;
    }

    /** One clock cycle with the `trigger` input. */
    method Step(trigger: bool)
      requires Valid()
      modifies this
      ensures Valid()
      ensures counter == NextCounter(n, old(counter), trigger)
    {
      if trigger {
        counter := 0;
      } else if counter != n - 1 {
        counter := counter + 1;
      }
    }
  }
}

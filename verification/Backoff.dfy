/** Reconnect delays, after `reconnect_delay` of src/data_sync/protocol.rs. Durations are nanoseconds. */
module Backoff {
  import opened Arithmetic

  const SECOND: nat := 1_000_000_000
  const MAX_DURATION: nat := 0x1_0000_0000_0000_0000 * SECOND - 1

  type Jitter = j: nat | 80 <= j <= 120 witness 80

  function ReconnectDelay(delays: seq<nat>, attempt: nat, jitter: Jitter): nat {
    if delays == [] then SECOND
    else
      var base := delays[attempt % |delays|];
      if base * jitter > MAX_DURATION then base else base * jitter / 100
  }

  function Floor(base: nat): nat { base * 80 / 100 }

  lemma DelayIsJittered(delays: seq<nat>, attempt: nat, jitter: Jitter)
    requires delays != []
    ensures var base := delays[attempt % |delays|];
            Floor(base) <= ReconnectDelay(delays, attempt, jitter)
                && 100 * ReconnectDelay(delays, attempt, jitter) <= 120 * base
  {
    Scaled(delays[attempt % |delays|], jitter);
  }

  /** Exactly: the configured entry scaled by the jitter and rounded down, unless that overflows; a second if nothing
      is configured. */
  lemma DelayMeaning(delays: seq<nat>, attempt: nat, jitter: Jitter)
    ensures var delay := ReconnectDelay(delays, attempt, jitter);
            if delays == [] then delay == 1_000_000_000
            else
              var base := delays[Turn(0, attempt, |delays|)];
              if base * jitter <= MAX_DURATION then 100 * delay <= base * jitter < 100 * (delay + 1) else delay == base
  {
  }

  lemma Scaled(base: nat, jitter: Jitter)
    ensures base * 80 <= base * jitter <= base * 120
  {
  }

  ghost function Sum(values: seq<nat>): nat {
    if values == [] then 0 else Sum(values[..|values| - 1]) + values[|values| - 1]
  }

  ghost function Floors(delays: seq<nat>): (floors: seq<nat>)
    ensures |floors| == |delays|
  {
    seq(|delays|, i requires 0 <= i < |delays| => Floor(delays[i]))
  }

  lemma {:induction false} SumAppends(a: seq<nat>, b: seq<nat>)
    ensures Sum(a + b) == Sum(a) + Sum(b)
  {
    if b == [] {
      assert a + b == a;
    } else {
      SumAppends(a, b[..|b| - 1]);
      assert (a + b)[..|a + b| - 1] == a + b[..|b| - 1];
    }
  }

  lemma {:induction false} SumIsMonotone(a: seq<nat>, b: seq<nat>)
    requires |a| == |b| && forall i :: 0 <= i < |a| ==> a[i] <= b[i]
    ensures Sum(a) <= Sum(b)
  {
    if a != [] {
      SumIsMonotone(a[..|a| - 1], b[..|b| - 1]);
    }
  }

  /** The entry whose turn it is, `k` attempts after the first. */
  function Turn(first: nat, k: nat, length: nat): (i: nat)
    requires length > 0
    ensures i < length
  {
    (first + k) % length
  }

  ghost predicate HasTurn(first: nat, i: int, length: nat) {
    exists k :: 0 <= k < length && Turn(first, k, length) == i
  }

  /** As many consecutive attempts as there are entries visit every entry exactly once. */
  lemma CycleVisitsEachOnce(first: nat, length: nat)
    requires length > 0
    ensures forall i :: 0 <= i < length ==> HasTurn(first, i, length)
    ensures forall j, k :: 0 <= j < k < length ==> Turn(first, j, length) != Turn(first, k, length)
  {
    var r := first % length;
    forall k | 0 <= k < length ensures Turn(first, k, length) == if r + k < length then r + k else r + k - length {
      RotatedIndex(first, k, length);
    }
    forall i | 0 <= i < length ensures HasTurn(first, i, length) {
      var k := if i >= r then i - r else i - r + length;
      assert 0 <= k < length && Turn(first, k, length) == i;
    }
  }

  /** So together they wait at least the floors of the whole list. */
  lemma FullCycleWaits(delays: seq<nat>, first: nat, waits: seq<nat>)
    requires delays != [] && |waits| == |delays|
    requires forall k :: 0 <= k < |waits| ==> Floor(delays[(first + k) % |delays|]) <= waits[k]
    ensures Sum(Floors(delays)) <= Sum(waits)
  {
    var floors := Floors(delays);
    var r := first % |delays|;
    forall k | 0 <= k < |delays| ensures (floors[r..] + floors[..r])[k] <= waits[k] {
      RotatedFloor(delays, first, r, k);
    }
    RotationBound(floors, r, waits);
  }

  lemma RotatedFloor(delays: seq<nat>, first: nat, r: nat, k: nat)
    requires k < |delays| && r == first % |delays|
    ensures (Floors(delays)[r..] + Floors(delays)[..r])[k] == Floor(delays[(first + k) % |delays|])
  {
    RotatedIndex(first, k, |delays|);
  }

  lemma RotationBound(floors: seq<nat>, r: nat, waits: seq<nat>)
    requires r <= |floors| == |waits|
    requires forall k :: 0 <= k < |waits| ==> (floors[r..] + floors[..r])[k] <= waits[k]
    ensures Sum(floors) <= Sum(waits)
  {
    SumIsMonotone(floors[r..] + floors[..r], waits);
    SumAppends(floors[r..], floors[..r]);
    SumAppends(floors[..r], floors[r..]);
    assert floors[..r] + floors[r..] == floors;
  }

  lemma RotatedIndex(first: nat, k: nat, L: nat)
    requires k < L
    ensures (first + k) % L == if first % L + k < L then first % L + k else first % L + k - L
  {
    var q := first / L;
    var r := first % L + k;
    assert first + k == q * L + r;
    if r < L {
      Residue(first + k, q, L, r);
    } else {
      assert first + k == (q + 1) * L + (r - L);
      Residue(first + k, q + 1, L, r - L);
    }
  }
}

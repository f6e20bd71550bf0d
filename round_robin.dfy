/** The payout rotation.  After a cycle paid to the member holding payout
    order `current`, the next cycle pays the member holding
    `(current % totalMembers) + 1`; from order 1 this visits 1, 2, ..., N, 1, ... */
module RoundRobin {

  /** Next payout order after `current` in a group of `total` members. */
  function NextPayoutOrder(current: int, total: nat): (next: int)
    requires total > 0 && current >= 0
    ensures 1 <= next <= total
    ensures current < total ==> next == current + 1
    ensures current == total ==> next == 1
  {
    ModSmall(current, total);
    ModUnique(total, total, 1, 0);
    (current % total) + 1
  }

  /** Payout order of the recipient of cycle number `n` (cycles are numbered from 1). */
  function RecipientOrder(n: int, total: nat): (k: int)
    requires total > 0 && n >= 1
    ensures 1 <= k <= total
    ensures n <= total ==> k == n
  {
    ModSmall(n - 1, total);
    ((n - 1) % total) + 1
  }

  /** The order reached after `k` rollovers from cycle 1, by applying NextPayoutOrder `k` times. */
  function Rotation(k: nat, total: nat): (order: int)
    requires total > 0
    ensures 1 <= order <= total
  {
    if k == 0 then 1 else NextPayoutOrder(Rotation(k - 1, total), total)
  }

  lemma ModSmall(x: int, total: nat)
    requires total > 0 && 0 <= x
    ensures x < total ==> x % total == x
  {
    if x < total { ModUnique(x, total, 0, x); }
  }

  /** Dafny's `%` is Euclidean: a remainder in [0, total) with a matching quotient is THE remainder. */
  lemma ModUnique(x: int, total: nat, q: int, r: int)
    requires total > 0 && x == q * total + r && 0 <= r < total
    ensures x % total == r
  {
    var q', r' := x / total, x % total;
    assert x == q' * total + r';
    assert (q - q') * total == q * total - q' * total;
    if q > q' {
      MulAtLeast(q - q', total);
    } else if q < q' {
      assert (q' - q) * total == q' * total - q * total;
      MulAtLeast(q' - q, total);
    }
  }

  lemma {:induction false} MulAtLeast(d: nat, total: nat)
    requires d >= 1
    ensures d * total >= total
  {
    if d > 1 {
      MulAtLeast(d - 1, total);
      assert d * total == (d - 1) * total + total;
    }
  }

  /** Rolling over from cycle `n` to cycle `n + 1` moves the recipient's order by NextPayoutOrder. */
  lemma RecipientOrderNext(n: int, total: nat)
    requires total > 0 && n >= 1
    ensures RecipientOrder(n + 1, total) == NextPayoutOrder(RecipientOrder(n, total), total)
  {
    var q, a := (n - 1) / total, (n - 1) % total;
    assert n - 1 == q * total + a;
    if a + 1 < total {
      ModUnique(n, total, q, a + 1);
      ModUnique(a + 1, total, 0, a + 1);
    } else {
      assert n == (q + 1) * total + 0;
      ModUnique(n, total, q + 1, 0);
      ModUnique(a + 1, total, 1, 0);
    }
  }

  /** `k` rollovers from cycle 1 reach the recipient order of cycle `k + 1`. */
  lemma {:induction false} RotationIsRecipientOrder(k: nat, total: nat)
    requires total > 0
    ensures Rotation(k, total) == RecipientOrder(k + 1, total)
  {
    if k == 0 {
      ModUnique(0, total, 0, 0);
    } else {
      RotationIsRecipientOrder(k - 1, total);
      RecipientOrderNext(k, total);
    }
  }

  /** The rotation repeats with period `total`: every member is paid once per round. */
  lemma RotationPeriodic(k: nat, total: nat)
    requires total > 0
    ensures Rotation(k + total, total) == Rotation(k, total)
  {
    RotationIsRecipientOrder(k + total, total);
    RotationIsRecipientOrder(k, total);
    ShiftMod(k, total);
  }

  lemma ShiftMod(k: nat, total: nat)
    requires total > 0
    ensures (k + total) % total == k % total
  {
    var q, r := k / total, k % total;
    assert k == q * total + r;
    assert (q + 1) * total == q * total + total;
    ModUnique(k + total, total, q + 1, r);
  }

  /** The first round pays orders 1, 2, ..., total in that order. */
  lemma RotationFirstRound(k: nat, total: nat)
    requires total > 0 && k < total
    ensures Rotation(k, total) == k + 1
  {
    RotationIsRecipientOrder(k, total);
  }
}

/**
 The chance with which an entry that was drawn is taken, over real numbers. Each refusal raises it by a fifth, so
 that some draw must succeed; after how many refusals every draw does is stated exactly.
 */
module AddrChance {
  import opened AddrTables

  const RECENT: int := 600
  const ROLLS: nat := 0x4000_0000
  // After so many refusals nothing is refused any more.
  const PATIENCE: nat := 44

  function RealPow(b: real, n: nat): real {
    if n == 0 then 1.0 else b * RealPow(b, n - 1)
  }

  // An entry tried in the last ten minutes, and one with failed attempts, is less likely to be taken.
  function GetChance(i: AddrInfo, now: int): real {
    (if now - i.lastTry < RECENT then 0.01 else 1.0) * RealPow(0.66, if i.attempts < 8 then i.attempts else 8)
  }

  // The roll of 30 bits against the chance, raised by k refusals.
  predicate Taken(i: AddrInfo, now: int, k: nat, roll: nat) {
    roll as real < RealPow(1.2, k) * GetChance(i, now) * (ROLLS as real)
  }

  lemma {:induction false} RealPowAdds(b: real, m: nat, n: nat)
    ensures RealPow(b, m + n) == RealPow(b, m) * RealPow(b, n)
  {
    if m > 0 { RealPowAdds(b, m - 1, n); }
  }

  lemma {:induction false} RealPowUp(n: nat)
    ensures RealPow(1.2, n) >= 1.0
  {
    if n > 0 { RealPowUp(n - 1); }
  }

  lemma {:induction false} RealPowDown(m: nat, n: nat)
    requires m <= n
    ensures 0.0 < RealPow(0.66, n) <= RealPow(0.66, m) <= 1.0
    decreases n
  {
    if m < n {
      RealPowDown(m, n - 1);
    } else if m > 0 {
      RealPowDown(m - 1, n - 1);
    }
  }

  lemma EightAttempts()
    ensures RealPow(0.66, 8) == 0.66 * 0.66 * 0.66 * 0.66 * 0.66 * 0.66 * 0.66 * 0.66
    ensures 1.0 / 28.0 < RealPow(0.66, 8) < 1.0 / 27.0
  {
    assert RealPow(0.66, 2) == 0.66 * 0.66;
    RealPowAdds(0.66, 2, 2);
    RealPowAdds(0.66, 4, 4);
  }

  lemma ChanceIsBounded(i: AddrInfo, now: int)
    ensures 0.01 * RealPow(0.66, 8) <= GetChance(i, now) <= 1.0
  {
    RealPowDown(if i.attempts < 8 then i.attempts else 8, 8);
  }

  lemma SquaredTwice(b: real, n: nat, low: real, high: real)
    requires 0.0 <= low <= RealPow(b, n) <= high
    ensures low * low <= RealPow(b, 2 * n) <= high * high
  {
    RealPowAdds(b, n, n);
    var p := RealPow(b, n);
    assert low * low <= low * p <= p * p <= p * high <= high * high;
  }

  lemma Doublings()
    ensures RealPow(1.2, 1) == 1.2 && RealPow(1.2, 2) == 1.44 && RealPow(1.2, 4) == 2.0736
    ensures 4.29 <= RealPow(1.2, 8) <= 4.3 && 338.5 <= RealPow(1.2, 32) <= 341.9
  {
    assert RealPow(1.2, 1) == 1.2 * RealPow(1.2, 0);
    RealPowAdds(1.2, 1, 1);
    RealPowAdds(1.2, 2, 2);
    RealPowAdds(1.2, 4, 4);
    SquaredTwice(1.2, 8, 4.2998, 4.2999);
    SquaredTwice(1.2, 16, 18.48, 18.489);
  }

  lemma AllRefusals()
    ensures RealPow(1.2, 43) <= 2600.0 && 2800.0 <= RealPow(1.2, 44)
  {
    Doublings();
    RealPowAdds(1.2, 8, 2);
    RealPowAdds(1.2, 8, 4);
    RealPowAdds(1.2, 10, 1);
    RealPowAdds(1.2, 32, 11);
    RealPowAdds(1.2, 32, 12);
    Between(RealPow(1.2, 32), RealPow(1.2, 11), 338.5, 341.9, 7.4, 7.5);
    Between(RealPow(1.2, 32), RealPow(1.2, 12), 338.5, 341.9, 8.8, 9.0);
  }

  lemma Between(x: real, y: real, a: real, b: real, c: real, d: real)
    requires 0.0 <= a <= x <= b && 0.0 <= c <= y <= d
    ensures a * c <= x * y <= b * d
  {
    assert a * c <= a * y <= x * y <= x * d <= b * d;
  }

  lemma {:induction false} RealPowGrows(m: nat, n: nat)
    requires m <= n
    ensures RealPow(1.2, m) <= RealPow(1.2, n)
  {
    RealPowUp(m);
    if m < n {
      RealPowGrows(m, n - 1);
      RealPowUp(n - 1);
    }
  }

  // Whatever entry comes up, at whatever time, with whatever roll.
  ghost predicate AlwaysTaken(k: nat) {
    forall i: AddrInfo, now: int, roll: nat | roll < ROLLS :: Taken(i, now, k, roll)
  }

  lemma TakenInTheEnd(i: AddrInfo, now: int, k: nat, roll: nat)
    requires k >= PATIENCE && roll < ROLLS
    ensures Taken(i, now, k, roll)
  {
    hide RealPow, GetChance;
    AllRefusals();
    RealPowGrows(PATIENCE, k);
    ChanceIsBounded(i, now);
    EightAttempts();
    Raised(RealPow(1.2, k), GetChance(i, now));
  }

  lemma Raised(p: real, c: real)
    requires p >= 2800.0 && c >= 1.0 / 2800.0
    ensures p * c * (ROLLS as real) >= ROLLS as real
  {
    assert p * c >= 2800.0 * c >= 1.0;
  }

  // An entry just tried, after eight failures, is refused by the highest roll until then.
  lemma RefusedBefore(i: AddrInfo, now: int, k: nat)
    requires k < PATIENCE && i.lastTry == now && i.attempts >= 8
    ensures !Taken(i, now, k, ROLLS - 1)
  {
    hide RealPow;
    AllRefusals();
    RealPowGrows(k, 43);
    RealPowUp(k);
    EightAttempts();
    assert GetChance(i, now) == 0.01 * RealPow(0.66, 8);
    hide GetChance;
    Lowered(RealPow(1.2, k), GetChance(i, now));
  }

  lemma Lowered(p: real, c: real)
    requires 0.0 <= p <= 2600.0 && 0.0 <= c <= 0.01 / 27.0
    ensures p * c * (ROLLS as real) <= (ROLLS - 1) as real
  {
    Between(p, c, 0.0, 2600.0, 0.0, 0.01 / 27.0);
    assert p * c <= 0.97;
  }

  // Every draw succeeds if and only if it comes after 44 refusals or more.
  lemma AlwaysTakenIff(k: nat)
    ensures AlwaysTaken(k) <==> k >= PATIENCE
  {
    hide Taken;
    if k >= PATIENCE {
      forall i: AddrInfo, now: int, roll: nat | roll < ROLLS ensures Taken(i, now, k, roll) {
        TakenInTheEnd(i, now, k, roll);
      }
    } else {
      var worst := AddrInfo(Service(0, 0), 0, {}, 0, 0, 0, 0, 8, 0, false, 0);
      RefusedBefore(worst, 0, k);
      assert !Taken(worst, 0, k, ROLLS - 1);
    }
  }
}

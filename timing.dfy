/** The per-class cycle budgets `CYCLES_800_T0H`, `CYCLES_800_T1H`,
    `CYCLES_800` and their 400 kHz counterparts: integer divisions of the
    core clock frequency `F_CPU`. */
module Timing {

  /** High time of a 0 bit, high time of a 1 bit, and the whole bit period,
      all in core clock cycles. */
  datatype CycleBudget = CycleBudget(t0h: nat, t1h: nat, period: nat)

  /** The 800 kHz class: 0.4 us, 0.8 us and 1.25 us. */
  function Budget800(fcpu: nat): (b: CycleBudget)
    ensures b.t0h <= b.t1h <= b.period
  {
    CycleBudget(fcpu / 2500000, fcpu / 1250000, fcpu / 800000)
  }

  /** The 400 kHz class: 0.5 us, 1.2 us and 2.5 us. */
  function Budget400(fcpu: nat): (b: CycleBudget)
    ensures b.t0h <= b.t1h <= b.period
  {
    CycleBudget(fcpu / 2000000, fcpu / 833333, fcpu / 400000)
  }

  /** From 2.5 MHz up, each class keeps its three budgets strictly ordered,
      so a 1 bit is high longer than a 0 bit and both fit in the period. */
  lemma BudgetsOrdered(fcpu: nat)
    requires fcpu >= 2500000
    ensures Budget800(fcpu).t0h < Budget800(fcpu).t1h < Budget800(fcpu).period
    ensures Budget400(fcpu).t0h < Budget400(fcpu).t1h < Budget400(fcpu).period
  {
    // 800 kHz: t1h is at least twice t0h, and the period is at least t1h + 1.
    var q := fcpu / 2500000;
    assert fcpu >= 1250000 * (2 * q);
    var r := fcpu / 1250000;
    assert r >= 2;
    assert fcpu >= 1250000 * r;
    assert fcpu >= 800000 * (r + 1) by {
      assert 1250000 * r >= 800000 * (r + 1);
    }
    // 400 kHz: the same steps with the 400 kHz divisors.
    var q4 := fcpu / 2000000;
    assert q4 >= 1;
    assert fcpu >= 833333 * (2 * q4);
    var r4 := fcpu / 833333;
    assert r4 >= 3;
    assert fcpu >= 833333 * r4;
    assert fcpu >= 400000 * (r4 + 1) by {
      assert 833333 * r4 >= 400000 * (r4 + 1);
    }
  }

  /** The ESP8266's two core clock settings. */
  lemma BudgetsAt80And160MHz()
    ensures Budget800(80000000) == CycleBudget(32, 64, 100)
    ensures Budget400(80000000) == CycleBudget(40, 96, 200)
    ensures Budget800(160000000) == CycleBudget(64, 128, 200)
    ensures Budget400(160000000) == CycleBudget(80, 192, 400)
  {
  }
}

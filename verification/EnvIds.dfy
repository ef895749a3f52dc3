/** Environment identifiers: how env_alloc makes them and when two of them can be confused. */
module EnvIds {
  const NENV := 1024
  const ENVGEN := 4096              // 1 << ENVGENSHIFT
  const GENERATIONS := 524287       // 2^19 - 1 different generations before they repeat

  datatype Status = FREE | DYING | RUNNABLE | RUNNING | NOT_RUNNABLE

  /** The value a 32-bit signed register keeps of x. */
  function ToInt32(x: int): int { (x + 0x8000_0000) % 0x1_0000_0000 - 0x8000_0000 }

  /** x & ~(NENV - 1), on two's complement numbers. */
  function ClearLow(x: int): int { x - x % NENV }

  /** ENVX(id) == id & (NENV - 1) */
  function EnvX(id: int): (i: nat)
    ensures i < NENV
  {
    id % NENV
  }

  /** The identifier env_alloc gives to a slot whose previous identifier was `id`. */
  function NextId(id: int, slot: nat): int {
    var generation := ClearLow(ToInt32(id + ENVGEN));
    (if generation <= 0 then ENVGEN else generation) + slot
  }

  /** The identifier of the k-th environment that lives in a slot; env_init stores 0. */
  function KthId(k: nat, slot: nat): int {
    if k == 0 then 0 else NextId(KthId(k - 1, slot), slot)
  }

  /** ToInt32 leaves small numbers alone and turns those just above 2^31 negative. */
  lemma SmallInt32(x: int)
    ensures 0 <= x < 0x8000_0000 ==> ToInt32(x) == x
    ensures 0x8000_0000 <= x < 0x1_0000_0000 ==> ToInt32(x) == x - 0x1_0000_0000
  {
  }

  lemma ClearLowIs(a: int, slot: nat)
    requires slot < NENV
    ensures ClearLow(a * NENV + slot) == a * NENV
  {
    MultipleMod(a, NENV, slot);
  }

  /** One step of the generation counter, with the wrap of a 32-bit signed integer. */
  lemma NextGeneration(g: nat, slot: nat)
    requires 1 <= g <= GENERATIONS && slot < NENV
    ensures NextId(g * ENVGEN + slot, slot) == (if g == GENERATIONS then 1 else g + 1) * ENVGEN + slot
  {
    hide ToInt32, ClearLow;
    var x := g * ENVGEN + slot + ENVGEN;
    SmallInt32(x);
    if g == GENERATIONS {
      ClearLowIs(-0x20_0000, slot);
    } else {
      ClearLowIs((g + 1) * 4, slot);
    }
  }

  lemma ModStep(a: nat, m: nat)
    requires 0 < m
    ensures (a + 1) % m == if a % m + 1 == m then 0 else a % m + 1
  {
    if a % m + 1 == m {
      assert a + 1 == (a / m + 1) * m + 0;
      MultipleMod(a / m + 1, m, 0);
    } else {
      MultipleMod(a / m, m, a % m + 1);
    }
  }

  /** The k-th identifier in closed form. */
  lemma {:induction false} KthIdFormula(k: nat, slot: nat)
    requires 0 < k && slot < NENV
    ensures KthId(k, slot) == ((k - 1) % GENERATIONS + 1) * ENVGEN + slot
    ensures 0 < KthId(k, slot) < 0x8000_0000 && EnvX(KthId(k, slot)) == slot
  {
    if k == 1 {
      assert ToInt32(ENVGEN) == ENVGEN && ClearLow(ENVGEN) == ENVGEN;
      assert KthId(0, slot) == 0;
    } else {
      KthIdFormula(k - 1, slot);
      NextGeneration((k - 2) % GENERATIONS + 1, slot);
      ModStep(k - 2, GENERATIONS);
    }
    IdShape((k - 1) % GENERATIONS + 1, slot);
  }

  lemma IdShape(g: nat, slot: nat)
    requires 1 <= g <= GENERATIONS && slot < NENV
    ensures 0 < g * ENVGEN + slot < 0x8000_0000 && EnvX(g * ENVGEN + slot) == slot
  {
    assert g * ENVGEN + slot == (g * 4) * NENV + slot;
    MultipleMod(g * 4, NENV, slot);
  }

  /** Two environments of one slot share an identifier exactly when a whole number of full turns of
      the generation counter lies between them. */
  lemma StaleIdCollides(j: nat, k: nat, slot: nat)
    requires 0 < j <= k && slot < NENV
    ensures KthId(j, slot) == KthId(k, slot) <==> (k - j) % GENERATIONS == 0
  {
    KthIdFormula(j, slot);
    KthIdFormula(k, slot);
    ModDifference(j - 1, k - 1, GENERATIONS);
  }

  lemma ModDifference(a: nat, b: nat, m: nat)
    requires a <= b && 0 < m
    ensures a % m == b % m <==> (b - a) % m == 0
  {
    var qa, ra, qb, rb := a / m, a % m, b / m, b % m;
    assert b - a == (qb - qa) * m + (rb - ra);
    if ra == rb {
      MultipleMod(qb - qa, m, 0);
    } else if ra < rb {
      MultipleMod(qb - qa, m, rb - ra);
    } else {
      assert (qb - qa) * m == (qb - qa - 1) * m + m;
      MultipleMod(qb - qa - 1, m, rb - ra + m);
    }
  }

  lemma MultipleMod(q: int, m: nat, r: nat)
    requires r < m
    ensures (q * m + r) % m == r
  {
    var n := q * m + r;
    var d := n / m - q;
    assert n == (n / m) * m + n % m;
    assert (n / m) * m == q * m + d * m;
    assert r == d * m + n % m;
    MulBounds(d, m);
  }

  lemma MulBounds(d: int, m: nat)
    ensures d >= 1 ==> d * m >= m
    ensures d <= -1 ==> d * m + m <= 0
  {
  }
}

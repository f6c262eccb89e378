/**
 The random number generator: a ring of 55 words that steps an additive recurrence in place, and
 the sampling functions that reject what does not fit their range.
 */
module Rng {

  const STATE_SIZE := 55
  const WORD := 0x4000_0000       // words have 30 bits
  const RAW := 0x100_0000         // and the low 6 are dropped from the output
  const UINT := 0x1_0000_0000

  // ----- the recurrence

  /** The n-th word: seeded Fibonacci numbers, then sums of the words 55 and 27 back. */
  function Word(seed: int, n: nat): (w: nat)
    ensures w < WORD
  {
    if n == 0 then seed % WORD
    else if n == 1 then 1
    else if n < STATE_SIZE then (Word(seed, n - 1) + Word(seed, n - 2)) % WORD
    else (Word(seed, n - 55) + Word(seed, n - 27)) % WORD
  }

  /** The numbers in full: seed and one, sums of the two before up to word 54, then of those 55 and 27 back. */
  lemma WordsExactly(seed: int, n: nat)
    ensures Word(seed, 0) == seed % 0x4000_0000 && Word(seed, 1) == 1
    ensures 2 <= n < 55 ==> Word(seed, n) == (Word(seed, n - 1) + Word(seed, n - 2)) % 0x4000_0000
    ensures n >= 55 ==> Word(seed, n) == (Word(seed, n - 55) + Word(seed, n - 27)) % 0x4000_0000
  {
  }

  /** What call number `k` (counted from 0) returns. */
  function Raw(seed: int, k: nat): (r: nat)
    ensures r < RAW
  {
    Word(seed, k + STATE_SIZE) / 64
  }

  // ----- one step, on values

  datatype Ring = Ring(words: seq<nat>, i1: nat, i2: nat)

  /** The second index stays 28 places ahead of the first. */
  ghost predicate RingOk(r: Ring) {
    && |r.words| == STATE_SIZE && r.i1 < STATE_SIZE
    && r.i2 == (r.i1 + 28) % STATE_SIZE
    && forall i :: 0 <= i < STATE_SIZE ==> r.words[i] < WORD
  }

  function Next(i: nat): nat {
    if i + 1 == STATE_SIZE then 0 else i + 1
  }

  /** The 32-bit sum, masked to 30 bits. */
  function Sum(a: nat, b: nat): nat {
    (a + b) % UINT % WORD
  }

  function Step(r: Ring): Ring
    requires r.i1 < |r.words| && r.i2 < |r.words|
  {
    Ring(r.words[r.i1 := Sum(r.words[r.i1], r.words[r.i2])], Next(r.i1), Next(r.i2))
  }

  lemma SumNeverOverflows(a: nat, b: nat)
    requires a < WORD && b < WORD
    ensures a + b < UINT && Sum(a, b) == (a + b) % WORD < WORD
  {
  }

  lemma StepKeepsOk(r: Ring)
    requires RingOk(r)
    ensures RingOk(Step(r))
  {
    SumNeverOverflows(r.words[r.i1], r.words[r.i2]);
  }

  /** Two different states never step to the same one: no information is lost. */
  lemma StepInjective(r: Ring, s: Ring)
    requires RingOk(r) && RingOk(s) && Step(r) == Step(s)
    ensures r == s
  {
    assert r.i1 == s.i1 && r.i2 == s.i2 && r.i1 != r.i2;
    var i, j := r.i1, r.i2;
    assert forall k :: 0 <= k < STATE_SIZE && k != i ==> r.words[k] == Step(r).words[k] == s.words[k];
    assert Step(r).words[i] == Step(s).words[i];
    SumInjective(r.words[i], s.words[i], r.words[j]);
    assert forall k :: 0 <= k < STATE_SIZE ==> r.words[k] == s.words[k];
  }

  lemma SumInjective(a: nat, b: nat, c: nat)
    requires a < WORD && b < WORD && c < WORD && Sum(a, c) == Sum(b, c)
    ensures a == b
  {
    SumNeverOverflows(a, c);
    SumNeverOverflows(b, c);
  }

  /** The seed, a one, and then sums of the two words before. */
  ghost predicate SeedsRing(words: seq<nat>, seed: int) {
    && |words| == STATE_SIZE && words[0] == seed % UINT % WORD && words[1] == 1
    && forall i {:trigger words[i]} :: 2 <= i < STATE_SIZE ==> words[i] == Sum(words[i - 1], words[i - 2])
  }

  lemma SeedFits(seed: int)
    ensures seed % UINT % WORD == seed % WORD
  {
  }

  lemma SeededWord(seed: int, i: nat)
    requires 2 <= i < STATE_SIZE
    ensures Word(seed, i) == Sum(Word(seed, i - 1), Word(seed, i - 2))
  {
    SumNeverOverflows(Word(seed, i - 1), Word(seed, i - 2));
  }

  lemma SeededObeys(seed: int)
    ensures SeedsRing(Seeded(seed).words, seed)
  {
    var words := Seeded(seed).words;
    SeedFits(seed);
    forall i {:trigger words[i]} | 2 <= i < STATE_SIZE ensures words[i] == Sum(words[i - 1], words[i - 2]) {
      SeededWord(seed, i);
    }
  }

  ghost predicate HasOdd(r: Ring) {
    exists i :: 0 <= i < |r.words| && r.words[i] % 2 == 1
  }

  /** If a step left only even words there were only even words before it. */
  lemma StepKeepsOdd(r: Ring)
    requires RingOk(r) && HasOdd(r)
    ensures HasOdd(Step(r))
  {
    var k :| 0 <= k < STATE_SIZE && r.words[k] % 2 == 1;
    var s := Step(r);
    if k != r.i1 {
      assert s.words[k] % 2 == 1;
    } else if r.words[r.i2] % 2 == 1 {
      assert s.words[r.i2] % 2 == 1;
    } else {
      SumOfOddAndEven(r.words[r.i1], r.words[r.i2]);
      assert s.words[k] % 2 == 1;
    }
  }

  lemma SumOfOddAndEven(a: nat, b: nat)
    requires a < WORD && b < WORD && a % 2 == 1 && b % 2 == 0
    ensures Sum(a, b) % 2 == 1
  {
    SumNeverOverflows(a, b);
  }

  function Steps(r: Ring, k: nat): (s: Ring)
    requires RingOk(r)
    ensures RingOk(s)
  {
    if k == 0 then r else
    var s := Steps(r, k - 1);
    StepKeepsOk(s);
    Step(s)
  }

  function Seeded(seed: int): (r: Ring)
    ensures RingOk(r)
  {
    Ring(seq(STATE_SIZE, i requires 0 <= i => Word(seed, i)), 0, 28)
  }

  /** For every seed and any number of calls some word is odd, so the state never collapses to zero. */
  lemma {:induction false} NeverCollapses(seed: int, k: nat)
    ensures HasOdd(Steps(Seeded(seed), k))
  {
    if k == 0 {
      assert Seeded(seed).words[1] == 1;
    } else {
      NeverCollapses(seed, k - 1);
      StepKeepsOdd(Steps(Seeded(seed), k - 1));
    }
  }

  // ----- the ring holds a window of the recurrence

  /** The one number in [k, k + 55) that has remainder `i`, when `at` is the remainder of `k`. */
  function Slot(k: nat, at: nat, i: nat): int {
    if i >= at then k + (i - at) else k + (i - at) + STATE_SIZE
  }

  /** The ring holds words k to k + 54, each where its number modulo 55 says. */
  ghost predicate Window(r: Ring, seed: int, k: nat) {
    && RingOk(r) && r.i1 == k % STATE_SIZE
    && forall i :: 0 <= i < STATE_SIZE ==> var n := Slot(k, r.i1, i); n >= 0 && r.words[i] == Word(seed, n)
  }

  lemma Wraps(k: nat)
    ensures (k + 1) % STATE_SIZE == Next(k % STATE_SIZE)
  {
  }

  lemma Recurs(seed: int, k: nat)
    ensures Word(seed, k + STATE_SIZE) == (Word(seed, k) + Word(seed, k + 28)) % WORD
  {
  }

  /** When the window moves on, only the oldest word's slot gets a new number. */
  lemma SlotMoves(k: nat, at: nat, i: nat)
    requires at < STATE_SIZE && i < STATE_SIZE
    ensures Slot(k + 1, Next(at), i) == if i == at then k + STATE_SIZE else Slot(k, at, i)
  {
  }

  /** The word a step computes is the next one of the recurrence. */
  lemma SumIsNextWord(r: Ring, seed: int, k: nat)
    requires Window(r, seed, k)
    ensures Sum(r.words[r.i1], r.words[r.i2]) == Word(seed, k + STATE_SIZE)
  {
    Recurs(seed, k);
    SumNeverOverflows(r.words[r.i1], r.words[r.i2]);
    SlotsAt(k, r.i1, r.i2);
  }

  lemma SlotsAt(k: nat, at: nat, other: nat)
    requires at < STATE_SIZE && other == (at + 28) % STATE_SIZE
    ensures Slot(k, at, at) == k && Slot(k, at, other) == k + 28
  {
  }

  lemma StepKeepsWindow(r: Ring, seed: int, k: nat)
    requires Window(r, seed, k)
    ensures Window(Step(r), seed, k + 1) && Step(r).words[r.i1] == Word(seed, k + STATE_SIZE)
  {
    Wraps(k);
    StepKeepsOk(r);
    SumIsNextWord(r, seed, k);
    forall i | 0 <= i < STATE_SIZE
      ensures var n := Slot(k + 1, Next(r.i1), i); n >= 0 && Step(r).words[i] == Word(seed, n)
    {
      SlotMoves(k, r.i1, i);
    }
  }

  /** After any number of steps from the seeded ring. */
  lemma {:induction false} RingIsWindow(seed: int, k: nat)
    ensures Window(Steps(Seeded(seed), k), seed, k)
  {
    if k > 0 {
      RingIsWindow(seed, k - 1);
      StepKeepsWindow(Steps(Seeded(seed), k - 1), seed, k - 1);
    }
  }

  // ----- sampling, on values

  function Pow2(n: nat): nat {
    if n == 0 then 1 else 2 * Pow2(n - 1)
  }

  /** Doubling from 2 until it is at least `span`. */
  function PowerOf(span: int): nat {
    DoubleTo(2, span)
  }

  function DoubleTo(power: nat, span: int): (p: nat)
    requires power > 0
    ensures p >= power
    decreases span - power
  {
    if power < span then DoubleTo(2 * power, span) else power
  }

  /** The least power of two from 2 on that is at least `span`. */
  lemma {:induction false} DoublingFindsPower(n: nat, span: int) returns (m: nat)
    requires span >= 2 && (n == 1 || Pow2(n) < 2 * span) && Pow2(n) >= 2
    ensures DoubleTo(Pow2(n), span) == Pow2(m)
    ensures span <= Pow2(m) < 2 * span
    decreases span - Pow2(n)
  {
    if Pow2(n) < span {
      assert Pow2(n + 1) == 2 * Pow2(n);
      m := DoublingFindsPower(n + 1, span);
    } else {
      m := n;
    }
  }

  lemma {:induction false} PowersDivide(m: nat, n: nat)
    requires m <= n
    ensures Pow2(n) == Pow2(m) * Pow2(n - m) && Pow2(n) >= 1
    decreases n - m
  {
    if m < n {
      PowersDivide(m, n - 1);
      assert Pow2(n) == 2 * (Pow2(m) * Pow2(n - 1 - m)) == Pow2(m) * (2 * Pow2(n - 1 - m));
    } else {
      PowersPositive(n);
    }
  }

  lemma {:induction false} PowersPositive(n: nat)
    ensures Pow2(n) >= 1
  {
    if n > 0 {
      PowersPositive(n - 1);
    }
  }

  /** The raw values below `limit` that leave remainder `v`. */
  ghost function Leaving(limit: nat, power: nat, v: nat): set<nat>
    requires power > 0
  {
    set x: nat | x < limit && x % power == v
  }

  lemma {:induction false} CountLeaving(q: nat, power: nat, limit: nat, v: nat)
    requires v < power && limit == q * power
    ensures |Leaving(limit, power, v)| == q
    decreases q
  {
    if q == 0 {
      assert Leaving(limit, power, v) == {};
    } else {
      var base := limit - power;
      assert base == (q - 1) * power;
      CountLeaving(q - 1, power, base, v);
      LeavingGrows(q - 1, power, base, v);
    }
  }

  lemma LeavingGrows(q: nat, power: nat, base: nat, v: nat)
    requires v < power && base == q * power
    ensures Leaving(base + power, power, v) == Leaving(base, power, v) + {base + v}
    ensures base + v !in Leaving(base, power, v)
  {
    forall x: nat | base <= x < base + power ensures x % power == x - base {
      DivModUnique(x, power, q, x - base);
    }
  }

  lemma DivModUnique(x: nat, m: nat, q: nat, r: nat)
    requires m > 0 && r < m && x == q * m + r
    ensures x % m == r && x / m == q
  {
    var q', r' := x / m, x % m;
    assert x == q' * m + r';
    assert q' < q ==> (q' + 1) * m <= q * m;
    assert q < q' ==> (q + 1) * m <= q' * m;
  }

  /**
   No value is favoured. The masked outputs are the numbers below the power; those below the span
   are the results. Each result has the same number of raw outputs behind it, and fewer than half
   of the masked outputs are thrown away.
   */
  lemma NoValueFavoured(span: int, v: nat)
    requires 2 <= span <= RAW && v < span
    ensures var power := PowerOf(span);
            && span <= power && RAW % power == 0 && |Leaving(RAW, power, v)| == RAW / power
            && 2 * (power - span) < power
  {
    var n := DoublingFindsPower(1, span);
    var power := Pow2(n);
    PowerOfRaw();
    if n > 24 {
      assert Pow2(n) == 2 * Pow2(n - 1);
      PowersDivide(24, n - 1);
      AtLeastFactor(RAW, Pow2(n - 1 - 24));
    }
    PowersDivide(n, 24);
    ShareOut(power, Pow2(24 - n), v);
  }

  lemma ShareOut(power: nat, q: nat, v: nat)
    requires v < power && power * q == RAW
    ensures RAW % power == 0 && RAW / power == q && |Leaving(RAW, power, v)| == q
  {
    CountLeaving(q, power, RAW, v);
    DivModUnique(RAW, power, q, 0);
  }

  lemma PowerOfRaw()
    ensures Pow2(24) == RAW
  {
    assert Pow2(2) == 4;
    assert Pow2(4) == 16;
    assert Pow2(6) == 64;
    PowersDivide(6, 12);
    PowersDivide(12, 24);
  }

  lemma PowerOfPercent()
    ensures Pow2(7) == 128
  {
    assert Pow2(3) == 8;
    PowersDivide(3, 7);
    assert Pow2(4) == 16;
  }

  lemma AtLeastFactor(a: nat, b: nat)
    requires b >= 1
    ensures a * b >= a
  {
  }

  // ----- the generator object

  ghost predicate Accepted(seed: int, k: nat, power: nat, span: int)
    requires power > 0
  {
    Raw(seed, k) % power < span
  }

  /** Among the `horizon` outputs from number `k` on there is one the range accepts. */
  ghost predicate Comes(seed: int, k: nat, power: nat, span: int, horizon: nat)
    requires power > 0
  {
    exists i: nat :: k <= i < k + horizon && Accepted(seed, i, power, span)
  }

  /** The outputs numbered from `a` up to `b` are all thrown away. */
  ghost predicate AllRejected(seed: int, a: nat, b: int, power: nat, span: int)
    requires power > 0
  {
    forall k: nat :: a <= k < b ==> !Accepted(seed, k, power, span)
  }

  // ----- rejection ends, for every seed

  /** How far the word is below the next multiple of `m`. */
  function Gap(seed: int, n: nat, m: nat): nat
    requires m > 0
  {
    m - Word(seed, n) % m
  }

  lemma LowBits(w: nat, power: nat)
    requires power > 0
    ensures w % (64 * power) == 64 * (w / 64 % power) + w % 64
  {
    var q, r := w / 64 / power, w / 64 % power;
    assert w / 64 == q * power + r;
    assert 64 * (q * power) == q * (64 * power);
    DivModUnique(w, 64 * power, q, 64 * r + w % 64);
  }

  /** A rejected output comes from a word in the upper half modulo 64 times the power. */
  lemma RejectedIsHigh(seed: int, k: nat, power: nat, span: int)
    requires power > 0 && power < 2 * span && !Accepted(seed, k, power, span)
    ensures Gap(seed, k + STATE_SIZE, 64 * power) <= 32 * power
  {
    LowBits(Word(seed, k + STATE_SIZE), power);
  }

  lemma ModOfMod(x: nat, m: nat, n: nat, q: nat)
    requires m > 0 && n > 0 && n == m * q
    ensures x % n % m == x % m
  {
    var y := x % n;
    Remainder(x, m, n, q, x / n, y / m, y % m);
  }

  lemma Remainder(x: nat, m: nat, n: nat, q: nat, c: nat, d: nat, r: nat)
    requires r < m && n == m * q && x == c * n + (d * m + r)
    ensures x % m == r
  {
    Associate(c, q, m);
    Distribute(c * q, d, m);
    DivModUnique(x, m, c * q + d, r);
  }

  lemma Associate(c: nat, q: nat, m: nat)
    ensures c * (m * q) == (c * q) * m
  {
  }

  lemma Distribute(a: nat, b: nat, m: nat)
    ensures a * m + b * m == (a + b) * m
  {
  }

  lemma RemainderOfSum(a: nat, b: nat, m: nat)
    requires m > 0 && a % m + b % m >= m
    ensures (a + b) % m == a % m + b % m - m
  {
    Distribute(a / m, b / m, m);
    Distribute(a / m + b / m, 1, m);
    DivModUnique(a + b, m, a / m + b / m + 1, a % m + b % m - m);
  }

  /** While words stay in the upper half, their gaps add up as whole numbers: nothing wraps around. */
  lemma GapsAdd(seed: int, n: nat, m: nat, q: nat)
    requires n >= STATE_SIZE && m > 0 && m * q == WORD
    requires 2 * Gap(seed, n - 55, m) <= m && 2 * Gap(seed, n - 27, m) <= m
    ensures Gap(seed, n, m) == Gap(seed, n - 55, m) + Gap(seed, n - 27, m)
  {
    var a, b := Word(seed, n - 55), Word(seed, n - 27);
    RemainderOfSum(a, b, m);
    ModOfMod(a + b, m, WORD, q);
    assert Word(seed, n) == (a + b) % WORD;
  }

  /** So the gaps grow, one at least every 27 words. */
  lemma {:induction false} GapsGrow(seed: int, from: nat, m: nat, q: nat, j: nat)
    requires m > 0 && m * q == WORD
    requires forall n: nat :: from <= n < from + 55 + 27 * j ==> 2 * Gap(seed, n, m) <= m
    ensures Gap(seed, from + 55 + 27 * j, m) > j
    decreases j
  {
    if j > 0 {
      GapsGrow(seed, from, m, q, j - 1);
      GapsAdd(seed, from + 55 + 27 * j, m, q);
    }
  }

  /** More outputs in a row than this are never all rejected. */
  function Horizon(power: nat): nat {
    56 + 27 * (32 * power)
  }

  /** Whatever the seed and however many numbers have been drawn, an acceptable output is to come. */
  lemma AcceptedComes(seed: int, k: nat, n: nat, power: nat, span: int)
    requires n >= 1 && power == Pow2(n) && power < 2 * span
    ensures power > 0 && Comes(seed, k, power, span, Horizon(power))
  {
    PowersPositive(n - 1);
    PowerOfRaw();
    if n > 24 {
      PowersDivide(24, n - 1);
      PowersPositive(n - 1 - 24);
      AtLeastFactor(RAW, Pow2(n - 1 - 24));
      LargePowerComes(seed, k, power, span);
    } else {
      PowersDivide(n, 24);
      SmallPowerComes(seed, k, power, Pow2(24 - n), span);
    }
  }

  lemma LargePowerComes(seed: int, k: nat, power: nat, span: int)
    requires 2 * RAW <= power < 2 * span
    ensures Comes(seed, k, power, span, Horizon(power))
  {
    DivModUnique(Raw(seed, k), power, 0, Raw(seed, k));
    assert Accepted(seed, k, power, span);
  }

  lemma SmallPowerComes(seed: int, k: nat, power: nat, q: nat, span: int)
    requires power > 0 && power < 2 * span && power * q == RAW
    ensures Comes(seed, k, power, span, Horizon(power))
  {
    if AllRejected(seed, k, k + Horizon(power), power, span) {
      var m, h := 64 * power, 32 * power;
      assert m * q == 64 * (power * q) == WORD;
      forall n: nat | k + STATE_SIZE <= n < k + STATE_SIZE + Horizon(power) ensures Gap(seed, n, m) <= h {
        RejectedIsHigh(seed, n - STATE_SIZE, power, span);
      }
      GapsGrow(seed, k + STATE_SIZE, m, q, h);
      assert false;
    }
  }

  /** One throw of a die with `size` sides takes the first output from number `c` on it can use, number `b - 1`. */
  ghost predicate Throw(seed: int, c: nat, b: nat, size: int) {
    && c < b && AllRejected(seed, c, b - 1, PowerOf(size), size) && Accepted(seed, b - 1, PowerOf(size), size)
  }

  ghost function Pips(seed: int, b: nat, size: int): int
    requires b > 0
  {
    1 + Raw(seed, b - 1) % PowerOf(size)
  }

  /** `n` throws use up the outputs numbered from `a` up to `b` and add up to `sum`. */
  ghost predicate Thrown(seed: int, a: nat, b: nat, n: nat, size: int, sum: int) {
    if n == 0 then a == b && sum == 0
    else exists c: nat :: Throw(seed, c, b, size) && Thrown(seed, a, c, n - 1, size, sum - Pips(seed, b, size))
  }

  lemma ThrowOnce(seed: int, c: nat, b: nat, b': nat, size: int)
    requires Throw(seed, c, b, size) && Throw(seed, c, b', size)
    ensures b == b'
  {
  }

  /** Seed, number of outputs so far and dice settle the sum and the number of outputs after. */
  lemma {:induction false} ThrowsAreSettled(seed: int, a: nat, b: nat, b': nat, n: nat, size: int, sum: int, sum': int)
    requires Thrown(seed, a, b, n, size, sum) && Thrown(seed, a, b', n, size, sum')
    ensures b == b' && sum == sum'
  {
    if n > 0 {
      var c: nat :| Throw(seed, c, b, size) && Thrown(seed, a, c, n - 1, size, sum - Pips(seed, b, size));
      var c': nat :| Throw(seed, c', b', size) && Thrown(seed, a, c', n - 1, size, sum' - Pips(seed, b', size));
      ThrowsAreSettled(seed, a, c, c', n - 1, size, sum - Pips(seed, b, size), sum' - Pips(seed, b', size));
      ThrowOnce(seed, c, b, b', size);
    }
  }

  lemma {:induction false} ThrowsInRange(seed: int, a: nat, b: nat, n: nat, size: int, sum: int)
    requires Thrown(seed, a, b, n, size, sum)
    ensures n <= sum <= n * size && a <= b
  {
    if n > 0 {
      var c: nat :| Throw(seed, c, b, size) && Thrown(seed, a, c, n - 1, size, sum - Pips(seed, b, size));
      ThrowsInRange(seed, a, c, n - 1, size, sum - Pips(seed, b, size));
      assert n * size == (n - 1) * size + size;
    }
  }

  class KnuthRng {
    var state: array<nat>  // two indices, then the ring
    ghost const seed: int
    ghost var calls: nat

    ghost predicate Valid()
      reads this, state
    {
      && state.Length == 2 + STATE_SIZE
      && Window(Held(), seed, calls)
    }

    ghost function Held(): Ring
      requires state.Length == 2 + STATE_SIZE
      reads this, state
    {
      Ring(state[2..], state[0], state[1])
    }

    constructor (seed: int)
      ensures Valid() && fresh(state) && this.seed == seed && calls == 0 && Held() == Seeded(seed)
    {
      state := new nat[2 + STATE_SIZE];
      this.seed, calls := seed, 0;
      new;
      state[0] := 0;
      state[1] := STATE_SIZE - STATE_SIZE / 2;
      SeededObeys(seed);
      FillRing(seed, Seeded(seed).words);
      assert Held() == Seeded(seed);
      RingIsWindow(seed, 0);
    }

    method FillRing(seed: int, ghost words: seq<nat>)
      requires state.Length == 2 + STATE_SIZE && SeedsRing(words, seed)
      modifies state
      ensures state[..2] == old(state[..2])
      ensures state[2..] == words
    {
      state[2] := seed % UINT % WORD;
      state[3] := 1;
      for i := 2 to STATE_SIZE
        invariant state[..2] == old(state[..2])
        invariant forall j :: 0 <= j < i ==> state[2 + j] == words[j]
      {
        state[2 + i] := Sum(state[2 + i - 1], state[2 + i - 2]);
      }
    }

    method NumberMm() returns (r: int)
      requires Valid()
      modifies this`calls, state
      ensures Valid() && calls == old(calls) + 1
      ensures r == Raw(seed, old(calls)) == Word(seed, old(calls) + 55) / 64
    {
      ghost var before := Held();
      StepKeepsWindow(before, seed, calls);
      var state1, state2 := state[0], state[1];
      var rand := Sum(state[2 + state1], state[2 + state2]);
      state[2 + state1] := rand;
      state1 := state1 + 1;
      if state1 == STATE_SIZE {
        state1 := 0;
      }
      state2 := state2 + 1;
      if state2 == STATE_SIZE {
        state2 := 0;
      }
      state[0], state[1] := state1, state2;
      calls := calls + 1;
      assert Held() == Step(before);
      return rand / 64;
    }

    method Power(span: int) returns (power: nat)
      ensures power == PowerOf(span)
    {
      power := 2;
      while power < span
        invariant power >= 2 && DoubleTo(power, span) == PowerOf(span)
        decreases span - power
      {
        power := 2 * power;
      }
    }

    /** Draws until the masked output is below `span`; the rejected draws are gone. */
    method Draw(power: nat, span: int) returns (v: int)
      requires Valid() && power > 0 && Comes(seed, calls, power, span, Horizon(power))
      modifies this`calls, state
      ensures Valid() && old(calls) < calls <= old(calls) + Horizon(power)
      ensures 0 <= v < span && v == Raw(seed, calls - 1) % power
      ensures AllRejected(seed, old(calls), calls - 1, power, span)
    {
      ghost var accepted: nat :| calls <= accepted < calls + Horizon(power) && Accepted(seed, accepted, power, span);
      var raw := NumberMm();
      v := raw % power;
      while v >= span
        invariant Valid() && old(calls) < calls <= accepted + 1
        invariant v == Raw(seed, calls - 1) % power
        invariant AllRejected(seed, old(calls), calls - 1, power, span)
        decreases accepted - calls
      {
        raw := NumberMm();
        v := raw % power;
      }
    }

    /** `number_range`; the source is only defined while the span fits 30 bits. */
    method NumberRange(from: int, to: int) returns (r: int)
      requires Valid() && to - from < WORD
      modifies this`calls, state
      ensures Valid() && old(calls) <= calls
      ensures from <= to ==> from <= r <= to
      ensures from > to ==> r == from
      ensures from >= to ==> calls == old(calls) && state[..] == old(state[..])
      ensures from < to ==> old(calls) < calls && r == from + Raw(seed, calls - 1) % PowerOf(to - from + 1)
      ensures from < to ==> calls <= old(calls) + Horizon(PowerOf(to - from + 1))
      ensures from < to ==> AllRejected(seed, old(calls), calls - 1, PowerOf(to - from + 1), to - from + 1)
    {
      if from == 0 && to == 0 {
        return 0;
      }
      var span := to - from + 1;
      if span <= 1 {
        return from;
      }
      var power := Power(span);
      ghost var n := DoublingFindsPower(1, span);
      AcceptedComes(seed, calls, n, power, span);
      var v := Draw(power, span);
      return from + v;
    }

    method NumberPercent() returns (percent: int)
      requires Valid()
      modifies this`calls, state
      ensures Valid() && old(calls) < calls <= old(calls) + Horizon(128)
      ensures 1 <= percent <= 100 && percent == 1 + Raw(seed, calls - 1) % 128
      ensures AllRejected(seed, old(calls), calls - 1, 128, 100)
    {
      PowerOfPercent();
      AcceptedComes(seed, calls, 7, 128, 100);
      percent := Draw(128, 100);
      percent := 1 + percent;
    }

    /** `dice`: the sum of `number` throws, with the shortcuts for no sides and one side. */
    method Dice(number: int, size: int) returns (sum: int)
      requires Valid() && size < WORD
      modifies this`calls, state
      ensures Valid()
      ensures number >= 0 && size >= 1 ==> number <= sum <= number * size
      ensures number >= 0 && size > 1 ==> Thrown(seed, old(calls), calls, number, size, sum)
      ensures size == 0 || (number < 0 && size != 1) ==> sum == 0
      ensures size == 1 || (number >= 0 && size < 0) ==> sum == number
    {
      if size == 0 {
        return 0;
      }
      if size == 1 {
        return number;
      }
      sum := 0;
      var i := 0;
      while i < number
        invariant 0 <= i && (i == 0 || i <= number)
        invariant Valid() && old(calls) <= calls
        invariant size > 1 ==> Thrown(seed, old(calls), calls, i, size, sum)
        invariant size < 0 ==> sum == i
      {
        var n := ThrowDie(size);
        if size > 1 {
          assert Thrown(seed, old(calls), calls, i + 1, size, sum + n);
        }
        sum := sum + n;
        i := i + 1;
      }
      if number >= 0 && size > 1 {
        ThrowsInRange(seed, old(calls), calls, number, size, sum);
      }
    }

    method ThrowDie(size: int) returns (n: int)
      requires Valid() && size < WORD
      modifies this`calls, state
      ensures Valid() && old(calls) <= calls
      ensures size <= 1 ==> n == 1
      ensures size > 1 ==> Throw(seed, old(calls), calls, size) && n == Pips(seed, calls, size)
    {
      n := NumberRange(1, size);
    }
  }
}

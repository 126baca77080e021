/** Header validity, difficulty and gas limit (core/block_validator.go), and
    the header generator (core/chain_makers.go). */
module Consensus {
  import opened Basics
  import opened TxTypes
  import opened ChainTypes
  import opened Positional

  const MAXIMUM_EXTRA_DATA_SIZE := 65
  const MINIMUM_DIFFICULTY := 131072
  const DIFFICULTY_BOUND_DIVISOR := 2048
  const DURATION_LIMIT := 13
  const EXP_DIFF_PERIOD := 100000
  const GAS_LIMIT_BOUND_DIVISOR := 4096
  const MIN_GAS_LIMIT := 700000000
  const MAX_BIG := 0x1_0000_0000_0000_0000_0000_0000_0000_0000_0000_0000_0000_0000_0000_0000_0000_0000 - 1
  const NANOSECOND_2017_TIMESTAMP := 1483228800_000000000
  const NANOSECONDS_PER_SECOND := 1_000000000

  datatype ChainConfig = ChainConfig(homesteadBlock: Option<nat>)

  const MAKE_CHAIN_CONFIG := ChainConfig(Some(0))

  datatype HeaderError = ExtraTooLong | TimeTooBig | FutureTime | TimeNotAfterParent | WrongDifficulty
    | WrongGasLimit | WrongNumber

  predicate IsHomestead(config: ChainConfig, number: nat) {
    config.homesteadBlock.Some? && number >= config.homesteadBlock.value
  }

  /** The low 64 bits. */
  function Uint64(x: nat): nat {
    x % (MAX_UINT64 + 1)
  }

  // ---- difficulty ----

  function CalcDifficulty(config: ChainConfig, time: nat, parentTime: nat, parentNumber: nat, parentDiff: nat): nat {
    if IsHomestead(config, parentNumber + 1)
    then CalcDifficultyHomestead(time, parentTime, parentNumber, parentDiff)
    else CalcDifficultyFrontier(time, parentTime, parentNumber, parentDiff)
  }

  /** The exponential term added to the difficulty. */
  function Bomb(parentNumber: nat): nat {
    var periodCount := (parentNumber + 1) / EXP_DIFF_PERIOD;
    if periodCount > 1 then Pow(2, periodCount - 2) else 0
  }

  function CalcDifficultyHomestead(time: nat, parentTime: nat, parentNumber: nat, parentDiff: nat): nat {
    var steps := Max(1 - (time - parentTime) / 10, -99);
    var x := parentDiff + parentDiff / DIFFICULTY_BOUND_DIVISOR * steps;
    Max(x, MINIMUM_DIFFICULTY) + Bomb(parentNumber)
  }

  function CalcDifficultyFrontier(time: nat, parentTime: nat, parentNumber: nat, parentDiff: nat): nat {
    var adjust := parentDiff / DIFFICULTY_BOUND_DIVISOR;
    var moved := if time - parentTime < DURATION_LIMIT then parentDiff + adjust else parentDiff - adjust;
    var diff := Max(moved, MINIMUM_DIFFICULTY);
    if (parentNumber + 1) / EXP_DIFF_PERIOD > 1 then Max(diff + Bomb(parentNumber), MINIMUM_DIFFICULTY) else diff
  }

  /** The difficulty never falls below the minimum. Without the exponential
      term it falls by at most 99/2048 of the parent's (1/2048 before Homestead),
      if it stays above the minimum; it rises by at most 1/2048, unless under
      Homestead the truncated time is before the parent's. */
  lemma DifficultyBounds(config: ChainConfig, time: nat, parentTime: nat, parentNumber: nat, parentDiff: nat)
    ensures var d := CalcDifficulty(config, time, parentTime, parentNumber, parentDiff);
      var step := parentDiff / DIFFICULTY_BOUND_DIVISOR;
      && d >= MINIMUM_DIFFICULTY + Bomb(parentNumber)
      && d - Bomb(parentNumber) >= parentDiff - (if IsHomestead(config, parentNumber + 1) then 99 else 1) * step
      && (parentTime <= time || !IsHomestead(config, parentNumber + 1) ==>
            d - Bomb(parentNumber) <= Max(parentDiff + step, MINIMUM_DIFFICULTY))
  {
    var step := parentDiff / DIFFICULTY_BOUND_DIVISOR;
    var steps := Max(1 - (time - parentTime) / 10, -99);
    assert -99 <= steps && (parentTime <= time ==> steps <= 1);
    Scaled(step, steps);
  }

  lemma Scaled(step: nat, steps: int)
    requires -99 <= steps
    ensures -99 * step <= step * steps && (steps <= 1 ==> step * steps <= step)
  {
    assert step * (steps + 99) >= 0;
    assert steps <= 1 ==> step * (1 - steps) >= 0;
  }

  // ---- difficulty and time ----

  lemma TimesTen(y: int, k: int)
    ensures y * (k - 1) == y * k - y
  {
  }

  /** Under Homestead ten more seconds lower the difficulty by 1/2048 of the
      parent's, down to the minimum, until a thousand seconds have passed. */
  lemma TenSecondsLater(config: ChainConfig, time: nat, parentTime: nat, parentNumber: nat, parentDiff: nat)
    requires IsHomestead(config, parentNumber + 1)
    ensures var d := CalcDifficulty(config, time, parentTime, parentNumber, parentDiff);
      var d' := CalcDifficulty(config, time + 10, parentTime, parentNumber, parentDiff);
      d' == if time < parentTime + 1000 then Max(d - parentDiff / 2048, 131072 + Bomb(parentNumber)) else d
  {
    var k, y := (time - parentTime) / 10, parentDiff / 2048;
    assert (time + 10 - parentTime) / 10 == k + 1;
    TimesTen(y, 1 - k);
    assert y * (1 - (k + 1)) == y * (1 - k) - y;
  }

  /** A block within ten seconds of its parent raises the difficulty by 1/2048 of
      the parent's; one after a thousand seconds or more lowers it by 99/2048. */
  lemma DifficultyByTime(config: ChainConfig, time: nat, parentTime: nat, parentNumber: nat, parentDiff: nat)
    requires IsHomestead(config, parentNumber + 1)
    ensures var d := CalcDifficulty(config, time, parentTime, parentNumber, parentDiff) - Bomb(parentNumber);
      && (parentTime <= time < parentTime + 10 ==> d == Max(parentDiff + parentDiff / 2048, 131072))
      && (parentTime + 1000 <= time ==> d == Max(parentDiff - 99 * (parentDiff / 2048), 131072))
  {
    var k, y := (time - parentTime) / 10, parentDiff / 2048;
    assert parentTime <= time < parentTime + 10 ==> k == 0;
    assert parentTime + 1000 <= time ==> k >= 100;
    assert y * 1 == y && y * -99 == -99 * y;
  }

  /** It is the same all ten seconds. */
  lemma SameTenSeconds(config: ChainConfig, time: nat, later: nat, parentTime: nat, parentNumber: nat, parentDiff: nat)
    requires IsHomestead(config, parentNumber + 1) && (later - parentTime) / 10 == (time - parentTime) / 10
    ensures CalcDifficulty(config, later, parentTime, parentNumber, parentDiff) ==
            CalcDifficulty(config, time, parentTime, parentNumber, parentDiff)
  {
  }

  /** Before Homestead the difficulty goes up below 13 seconds and down from there. */
  lemma DifficultyBeforeHomestead(config: ChainConfig, time: nat, parentTime: nat, parentNumber: nat, parentDiff: nat)
    requires !IsHomestead(config, parentNumber + 1)
    ensures var d := CalcDifficulty(config, time, parentTime, parentNumber, parentDiff) - Bomb(parentNumber);
      d == Max(if time < parentTime + 13 then parentDiff + parentDiff / 2048 else parentDiff - parentDiff / 2048, 131072)
  {
  }

  /** A later block never has a higher difficulty. */
  lemma DifficultyFallsWithTime(config: ChainConfig, time: nat, later: nat, parentTime: nat, parentNumber: nat, parentDiff: nat)
    requires time <= later
    ensures CalcDifficulty(config, later, parentTime, parentNumber, parentDiff) <=
            CalcDifficulty(config, time, parentTime, parentNumber, parentDiff)
  {
    var k, k' := Max(1 - (time - parentTime) / 10, -99), Max(1 - (later - parentTime) / 10, -99);
    assert k' <= k;
    Ordered(parentDiff / DIFFICULTY_BOUND_DIVISOR, k', k);
  }

  lemma Ordered(y: nat, k: int, k': int)
    requires k <= k'
    ensures y * k <= y * k'
  {
    assert y * (k' - k) >= 0;
  }

  /** The exponential term of a block at height `h`: nothing below 200000, then 1,
      and twice as much every 100000 blocks. */
  lemma BombDoubles(h: nat)
    requires h > 0
    ensures h < 200000 ==> Bomb(h - 1) == 0
    ensures 200000 <= h < 300000 ==> Bomb(h - 1) == 1
    ensures 200000 <= h ==> Bomb(h - 1 + 100000) == 2 * Bomb(h - 1)
  {
    assert (h + 100000) / EXP_DIFF_PERIOD == h / EXP_DIFF_PERIOD + 1;
  }

  lemma DifficultyAtLeastMinimum(config: ChainConfig, time: nat, parentTime: nat, parentNumber: nat, parentDiff: nat)
    ensures CalcDifficulty(config, time, parentTime, parentNumber, parentDiff) >= MINIMUM_DIFFICULTY
  {
  }

  // ---- validity ----

  function Abs(x: int): nat {
    if x < 0 then -x else x
  }

  predicate GasLimitOk(parentLimit: int, limit: int) {
    Abs(parentLimit - limit) < parentLimit / GAS_LIMIT_BOUND_DIVISOR && limit >= MIN_GAS_LIMIT
  }

  /** The checks in the order they are made; `now` is the wall clock in
      nanoseconds. Signatures are not part of this model. */
  function ValidateHeader(config: ChainConfig, now: nat, header: Header, parent: Header, uncle: bool): Option<HeaderError> {
    if header.extra > MAXIMUM_EXTRA_DATA_SIZE then Some(ExtraTooLong)
    else if uncle && header.time > MAX_BIG then Some(TimeTooBig)
    else if !uncle && now <= NANOSECOND_2017_TIMESTAMP && header.time > now / NANOSECONDS_PER_SECOND then Some(FutureTime)
    else if header.time <= parent.time then Some(TimeNotAfterParent)
    else if header.difficulty !=
            CalcDifficulty(config, Uint64(header.time), Uint64(parent.time), parent.number, parent.difficulty)
    then Some(WrongDifficulty)
    else if !GasLimitOk(parent.gasLimit, header.gasLimit) then Some(WrongGasLimit)
    else if header.number - parent.number != 1 then Some(WrongNumber)
    else None
  }

  /** The rules that an accepted header keeps, and which of them a refused one
      breaks. */
  lemma HeaderRules(config: ChainConfig, now: nat, header: Header, parent: Header, uncle: bool)
    ensures var e := ValidateHeader(config, now, header, parent, uncle);
      && (e.None? <==>
            && header.extra <= 65 && header.time > parent.time && header.number == parent.number + 1
            && (if uncle then header.time <= MAX_BIG else now > NANOSECOND_2017_TIMESTAMP || header.time <= now / 1_000000000)
            && header.difficulty == CalcDifficulty(config, header.time % 0x1_0000_0000_0000_0000,
                                                   parent.time % 0x1_0000_0000_0000_0000, parent.number, parent.difficulty)
            && header.gasLimit >= 700000000
            && parent.gasLimit - parent.gasLimit / 4096 < header.gasLimit < parent.gasLimit + parent.gasLimit / 4096)
      && (e == Some(ExtraTooLong) <==> header.extra > 65)
      && (e == Some(TimeTooBig) ==> uncle && header.time > MAX_BIG)
      && (e == Some(FutureTime) ==> !uncle && header.time > now / 1_000000000)
      && (e == Some(TimeNotAfterParent) ==> header.time <= parent.time)
      && (e == Some(WrongNumber) ==> header.number != parent.number + 1)
  {
  }

  /** A run of headers, each accepted on top of the one before. */
  ghost predicate Accepted(config: ChainConfig, clocks: seq<nat>, chain: seq<Header>) {
    && |chain| > 0 && |clocks| == |chain|
    && forall i {:trigger chain[i]} :: 0 < i < |chain| ==> ValidateHeader(config, clocks[i], chain[i], chain[i - 1], false) == None
  }

  /** Numbers rise by one and times strictly. */
  lemma {:induction false} NumbersAndTimes(config: ChainConfig, clocks: seq<nat>, chain: seq<Header>, i: nat, j: nat)
    requires Accepted(config, clocks, chain) && i <= j < |chain|
    ensures chain[j].number == chain[i].number + (j - i)
    ensures i < j ==> chain[i].time < chain[j].time && chain[j].difficulty >= MINIMUM_DIFFICULTY
    decreases j
  {
    if i < j {
      NumbersAndTimes(config, clocks, chain, i, j - 1);
      assert ValidateHeader(config, clocks[j], chain[j], chain[j - 1], false) == None;
      DifficultyAtLeastMinimum(config, Uint64(chain[j].time), Uint64(chain[j - 1].time), chain[j - 1].number, chain[j - 1].difficulty);
    }
  }

  /** Each header names the one before as its parent. */
  ghost predicate Linked(chain: seq<Header>) {
    forall i {:trigger chain[i]} :: 0 < i < |chain| ==> chain[i].parent == HashOf(chain[i - 1])
  }

  /** Every accepted header adds at least the minimum difficulty to the total. */
  lemma {:induction false} TotalDifficultyRises(config: ChainConfig, clocks: seq<nat>, chain: seq<Header>, i: nat, j: nat)
    requires Accepted(config, clocks, chain) && Linked(chain) && i <= j < |chain|
    ensures TotalDifficulty(chain[j], chain[0]) >= TotalDifficulty(chain[i], chain[0]) + (j - i) * MINIMUM_DIFFICULTY
    decreases j
  {
    if i < j {
      TotalDifficultyRises(config, clocks, chain, i, j - 1);
      NumbersAndTimes(config, clocks, chain, 0, j);
      assert chain[j].parent == HashOf(chain[j - 1]);
    }
  }

  // ---- drift of the gas limit ----

  lemma OneStepDrift(g: int, g': int)
    requires GasLimitOk(g, g')
    ensures g > 0 && g' > 0
    ensures g * (GAS_LIMIT_BOUND_DIVISOR - 1) <= g' * GAS_LIMIT_BOUND_DIVISOR <= g * (GAS_LIMIT_BOUND_DIVISOR + 1)
  {
  }

  /** After `n` blocks the gas limit g_n satisfies
      g_0 * (D-1)^n <= g_n * D^n <= g_0 * (D+1)^n for the bound divisor D. */
  lemma {:induction false} GasLimitDrift(config: ChainConfig, clocks: seq<nat>, chain: seq<Header>, n: nat)
    requires Accepted(config, clocks, chain) && n < |chain|
    ensures var D := GAS_LIMIT_BOUND_DIVISOR;
      && chain[0].gasLimit * Pow(D - 1, n) <= chain[n].gasLimit * Pow(D, n)
      && chain[n].gasLimit * Pow(D, n) <= chain[0].gasLimit * Pow(D + 1, n)
    decreases n
  {
    if n > 0 {
      var D := GAS_LIMIT_BOUND_DIVISOR;
      GasLimitDrift(config, clocks, chain, n - 1);
      assert ValidateHeader(config, clocks[n], chain[n], chain[n - 1], false) == None;
      assert ValidateHeader(config, clocks[1], chain[1], chain[0], false) == None;
      OneStepDrift(chain[0].gasLimit, chain[1].gasLimit);
      var g, g' := chain[n - 1].gasLimit, chain[n].gasLimit;
      OneStepDrift(g, g');
      DriftUp(chain[0].gasLimit, g, g', D, D + 1, Pow(D, n - 1), Pow(D + 1, n - 1));
      DriftDown(chain[0].gasLimit, g, g', D, D - 1, Pow(D, n - 1), Pow(D - 1, n - 1));
    }
  }

  lemma DriftUp(g0: nat, g: nat, g': nat, d: nat, e: nat, p: nat, q: nat)
    requires g' * d <= g * e && g * p <= g0 * q
    ensures g' * (d * p) <= g0 * (e * q)
  {
    calc {
      g' * (d * p);
      { MulAssoc(g', d, p); }
      (g' * d) * p;
    <= { MulMono(g' * d, g * e, p); }
      (g * e) * p;
      { MulAssoc(g, e, p); MulAssoc(g, p, e); }
      (g * p) * e;
    <= { MulMono(g * p, g0 * q, e); }
      (g0 * q) * e;
      { MulAssoc(g0, q, e); }
      g0 * (e * q);
    }
  }

  lemma DriftDown(g0: nat, g: nat, g': nat, d: nat, e: nat, p: nat, q: nat)
    requires g * e <= g' * d && g0 * q <= g * p
    ensures g0 * (e * q) <= g' * (d * p)
  {
    DriftUp(g', g, g0, q, p, e, d);
  }

  // ---- generator ----

  /** The gas limit that the generator proposes on top of a parent. */
  function CalcGasLimit(target: nat, parent: Header): int {
    var contrib := parent.gasUsed * 3 / 2 / GAS_LIMIT_BOUND_DIVISOR;
    var decay := parent.gasLimit / GAS_LIMIT_BOUND_DIVISOR - 1;
    var gl := Max(parent.gasLimit - decay + contrib, MIN_GAS_LIMIT);
    if gl < target then Min(parent.gasLimit + decay, target) else gl
  }

  /** From a parent that used no more than its limit, and whose limit is
      allowed, the proposed limit passes the validator's rule. */
  lemma GeneratorMeetsValidator(target: nat, parent: Header)
    requires parent.gasUsed <= parent.gasLimit && parent.gasLimit >= MIN_GAS_LIMIT
    ensures GasLimitOk(parent.gasLimit, CalcGasLimit(target, parent))
  {
    var L, D := parent.gasLimit, GAS_LIMIT_BOUND_DIVISOR;
    var contrib := parent.gasUsed * 3 / 2 / D;
    assert contrib <= L * 3 / 2 / D;
    assert L * 3 / 2 / D <= L / D + L / D / 2 + 2;
  }

  /** How the proposed limit moves. Without a target it rises exactly if at least
      two thirds of the limit, rounded down to whole 4096ths, were used; it falls
      exactly if less than one 4096th below that was used and it is not at the
      minimum. A target above that pulls it up, as far as the validator lets it. */
  lemma GasLimitMoves(target: nat, parent: Header)
    requires parent.gasUsed <= parent.gasLimit && parent.gasLimit >= MIN_GAS_LIMIT
    ensures var L, free, limit := parent.gasLimit, CalcGasLimit(0, parent), CalcGasLimit(target, parent);
      && (free > L <==> 3 * parent.gasUsed >= 2 * 4096 * (L / 4096))
      && (free < L <==> 3 * parent.gasUsed < 2 * 4096 * (L / 4096 - 1) && L > MIN_GAS_LIMIT)
      && (target <= free ==> limit == free)
      && (target > free ==> free < limit <= target && (limit == target || limit == L + L / 4096 - 1))
  {
    var L, D := parent.gasLimit, GAS_LIMIT_BOUND_DIVISOR;
    Contribution(parent.gasUsed, L / D);
    Contribution(parent.gasUsed, L / D - 1);
    assert parent.gasUsed * 3 / 2 / D <= L * 3 / 2 / D <= L / D + L / D / 2 + 2;
  }

  lemma Contribution(used: nat, k: nat)
    ensures used * 3 / 2 / GAS_LIMIT_BOUND_DIVISOR >= k <==> 3 * used >= 2 * 4096 * k
  {
  }

  /** The header of the next generated block, ten seconds after its parent. */
  function MakeHeader(target: nat, parent: Header): Header {
    var time := parent.time + 10;
    Header(HashOf(parent), parent.number + 1,
           CalcDifficulty(MAKE_CHAIN_CONFIG, Uint64(time), Uint64(time - 10), parent.number, parent.difficulty),
           time, CalcGasLimit(target, parent), 0, 0, parent.coinbase, [], [], 0)
  }

  /** A generated header follows its parent after ten seconds, so its difficulty
      stays, unless it is below the minimum, and the exponential term comes on
      top. */
  lemma GeneratedHeader(target: nat, parent: Header)
    ensures var h := MakeHeader(target, parent);
      && h.parent == HashOf(parent) && h.number == parent.number + 1 && h.time == parent.time + 10
      && h.coinbase == parent.coinbase && h.gasUsed == 0 && h.txs == [] && h.uncles == []
      && (parent.time + 10 <= MAX_UINT64 ==> h.difficulty == Max(parent.difficulty, 131072) + Bomb(parent.number))
  {
  }

  /** The checks on the wall clock: none in the nanosecond age. */
  predicate ClockOk(now: nat, header: Header) {
    now > NANOSECOND_2017_TIMESTAMP || header.time <= now / NANOSECONDS_PER_SECOND
  }

  /** What finishing the header made for `parent` may change: transactions,
      uncles, gas used up to the limit, extra data of an allowed size, and the
      time together with the difficulty. */
  predicate Filled(parent: Header, h: Header, h': Header) {
    && h'.parent == h.parent && h'.number == h.number
    && h'.gasLimit == h.gasLimit && (h.gasLimit >= 0 ==> h'.gasUsed <= h.gasLimit)
    && h'.extra <= MAXIMUM_EXTRA_DATA_SIZE && h'.time > parent.time
    && h'.difficulty == CalcDifficulty(MAKE_CHAIN_CONFIG, Uint64(h'.time), Uint64(parent.time), parent.number, parent.difficulty)
  }

  /** OffsetTime; None where it panics. */
  function OffsetTime(parent: Header, h: Header, seconds: int): Option<Header> {
    if h.time + seconds <= parent.time then None
    else
      Some(h.(time := h.time + seconds,
              difficulty := CalcDifficulty(MAKE_CHAIN_CONFIG, Uint64(h.time + seconds), Uint64(parent.time),
                                           parent.number, parent.difficulty)))
  }

  /** Moving the time keeps a header fit to be finished. */
  lemma OffsetKeepsFilled(parent: Header, made: Header, h: Header, seconds: int)
    requires Filled(parent, made, h) && OffsetTime(parent, h, seconds).Some?
    ensures Filled(parent, made, OffsetTime(parent, h, seconds).value)
  {
  }

  /** A finished header is accepted under the generator's configuration, unless
      the wall clock objects. */
  lemma GeneratedAccepted(target: nat, now: nat, parent: Header, h: Header)
    requires parent.gasUsed <= parent.gasLimit && parent.gasLimit >= MIN_GAS_LIMIT
    requires Filled(parent, MakeHeader(target, parent), h)
    ensures ValidateHeader(MAKE_CHAIN_CONFIG, now, h, parent, false) == if ClockOk(now, h) then None else Some(FutureTime)
  {
    GeneratorMeetsValidator(target, parent);
  }

  /** Every chain made by the generator, `fill` finishing each header, is
      accepted as a whole exactly if the wall clock never objects. */
  method GenerateChain(target: nat, parent: Header, n: nat, fill: (nat, Header, Header) -> Header, ghost clocks: seq<nat>)
    returns (chain: seq<Header>)
    requires forall i, p :: Filled(p, MakeHeader(target, p), fill(i, p, MakeHeader(target, p)))
    requires parent.gasUsed <= parent.gasLimit && parent.gasLimit >= MIN_GAS_LIMIT && |clocks| == n + 1
    ensures |chain| == n + 1 && chain[0] == parent && Linked(chain)
    ensures Accepted(MAKE_CHAIN_CONFIG, clocks, chain) <==> forall i :: 0 < i <= n ==> ClockOk(clocks[i], chain[i])
  {
    chain := [parent];
    var last := parent;
    for i := 0 to n
      invariant |chain| == i + 1 && chain[0] == parent && last == chain[i]
      invariant last.gasUsed <= last.gasLimit && last.gasLimit >= MIN_GAS_LIMIT
      invariant Linked(chain)
      invariant forall j {:trigger chain[j]} :: 0 < j <= i ==>
        (ValidateHeader(MAKE_CHAIN_CONFIG, clocks[j], chain[j], chain[j - 1], false) == None <==> ClockOk(clocks[j], chain[j]))
    {
      var header := MakeHeader(target, last);
      var block := fill(i, last, header);
      assert Filled(last, header, block);
      GeneratedAccepted(target, clocks[i + 1], last, block);
      GeneratorMeetsValidator(target, last);
      chain := chain + [block];
      last := block;
    }
  }
}

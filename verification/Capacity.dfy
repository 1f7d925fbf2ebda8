/** Bounded capacity planning and the scaling recommendation. */
module Capacity {
  import opened Common
  import opened Sums

  // ---------- The plan ----------

  datatype Request = Request(
    partitions: int,
    hostCpu: Option<int>,
    hostMemoryMb: Option<int>,
    minParallelism: int,
    maxParallelism: Option<int>,
    slotsPerTaskmanager: int,
    reservedCpu: int,
    reservedMemoryMb: int,
    memoryPerSlotMb: int,
    eventsPerSecond: Option<real>,
    eventsPerSecondPerSlot: real)

  datatype Warning = MaxExceedsPartitions | CapacityLimited | PartitionsNotPowerOfTwo | SharedTaskManager

  datatype CapacityPlan = CapacityPlan(
    partitions: int,
    hostCpu: int,
    hostMemoryMb: int,
    minParallelism: int,
    maxParallelism: int,
    parallelism: int,
    slotsPerTaskmanager: int,
    taskmanagerReplicas: int,
    totalSlots: int,
    estimatedCapacity: real,
    capacityLimited: bool,
    warnings: seq<Warning>)

  const DEFAULT_MEMORY_MB := 4096

  /** `value or fallback`: a missing number and zero both give the fallback. */
  function Or(value: Option<int>, fallback: int): int {
    if value.Some? && value.value != 0 then value.value else fallback
  }

  function Ceil(x: real): int { -((-x).Floor) }

  function RateOf(q: Request): real {
    if q.eventsPerSecondPerSlot < 1.0 then 1.0 else q.eventsPerSecondPerSlot
  }

  function PartitionsOf(q: Request): int { Max(1, q.partitions) }

  function CpuOf(q: Request, cpuCount: int): int { Max(1, Or(q.hostCpu, if cpuCount == 0 then 1 else cpuCount)) }

  function MemoryOf(q: Request): int { Max(256, Or(q.hostMemoryMb, DEFAULT_MEMORY_MB)) }

  function MinOf(q: Request): int { Max(1, q.minParallelism) }

  function MaxOf(q: Request): int { Max(MinOf(q), Or(q.maxParallelism, PartitionsOf(q))) }

  function SlotsOf(q: Request): int { Max(1, q.slotsPerTaskmanager) }

  /** Slots the memory pays for. The divisor is positive, so `/` is the floor. */
  function MemoryLimit(q: Request): int {
    Max(q.memoryPerSlotMb, MemoryOf(q) - Max(0, q.reservedMemoryMb)) / Max(1, q.memoryPerSlotMb)
  }

  function ResourceLimit(q: Request, cpuCount: int): int {
    Min(Max(1, CpuOf(q, cpuCount) - Max(0, q.reservedCpu)), MemoryLimit(q))
  }

  function ThroughputTarget(q: Request): Option<int> {
    if q.eventsPerSecond.None? then None else Some(Max(1, Ceil(q.eventsPerSecond.value / RateOf(q))))
  }

  function Requested(q: Request): int {
    Max(MinOf(q), if ThroughputTarget(q).Some? then ThroughputTarget(q).value else PartitionsOf(q))
  }

  function Parallelism(q: Request, cpuCount: int): int {
    Max(1, Min(Min(Min(Requested(q), MaxOf(q)), PartitionsOf(q)), ResourceLimit(q, cpuCount)))
  }

  /** Bitwise `and` of two non-negative numbers. */
  function And(a: nat, b: nat): nat {
    if a == 0 || b == 0 then 0 else 2 * And(a / 2, b / 2) + (a % 2) * (b % 2)
  }

  function CeilDiv(a: int, b: int): int
    requires b > 0
  {
    -((-a) / b)
  }

  function PlanCapacity(q: Request, cpuCount: int): CapacityPlan {
    var partitions, slots, parallelism := PartitionsOf(q), SlotsOf(q), Parallelism(q, cpuCount);
    var totalSlots := CeilDiv(parallelism, slots) * slots;
    CapacityPlan(
      partitions, CpuOf(q, cpuCount), MemoryOf(q), MinOf(q), MaxOf(q), parallelism, slots,
      Max(1, CeilDiv(totalSlots, slots)), totalSlots,
      (parallelism as real) * RateOf(q),
      Requested(q) > parallelism,
      (if MaxOf(q) > partitions then [MaxExceedsPartitions] else [])
      + (if Requested(q) > parallelism then [CapacityLimited] else [])
      + (if And(partitions, partitions - 1) != 0 then [PartitionsNotPowerOfTwo] else [])
      + (if slots > 1 then [SharedTaskManager] else []))
  }

  /** The parallelism never exceeds a limit, and misses the request only where a limit forces it: the
      flag is raised exactly when the partitions, the maximum or the floored resources fall short. */
  lemma PlanIsBounded(q: Request, cpuCount: int)
    ensures var plan := PlanCapacity(q, cpuCount);
            && 1 <= plan.parallelism <= plan.partitions
            && plan.parallelism <= plan.maxParallelism
            && plan.parallelism <= Max(1, ResourceLimit(q, cpuCount))
            && (plan.capacityLimited <==>
                Requested(q) > plan.partitions || Requested(q) > plan.maxParallelism
                || Requested(q) > Max(1, ResourceLimit(q, cpuCount)))
            && (!plan.capacityLimited ==> plan.parallelism == Requested(q) >= plan.minParallelism)
  {
  }

  // ---------- Load ----------

  lemma CeilIsLeast(x: real)
    ensures (Ceil(x) as real) - 1.0 < x <= Ceil(x) as real
  {
  }

  lemma ProductOrder(x: real, y: real, r: real, product: real)
    requires r > 0.0 && product == y * r
    ensures x <= y ==> x * r <= product
    ensures y < x ==> product < x * r
  {
    if x <= y { Monotone(x, y, r); } else { Scale(y, x, r); }
  }

  lemma CeilingCovers(load: real, r: real, target: int, p: int, capacity: real, less: real)
    requires r > 0.0 && capacity == (p as real) * r && less == ((p - 1) as real) * r && target == Ceil(load / r)
    ensures p >= target ==> capacity >= load
    ensures p <= target ==> less < load
  {
    var x := load / r;
    CeilIsLeast(x);
    Undivided(load, r, x);
    ProductOrder(x, p as real, r, capacity);
    ProductOrder(x, (p - 1) as real, r, less);
  }

  lemma UnlimitedMeetsTarget(q: Request, cpuCount: int, target: int)
    requires q.eventsPerSecond.Some? && target == Ceil(q.eventsPerSecond.value / RateOf(q))
    requires Requested(q) <= Parallelism(q, cpuCount)
    ensures Parallelism(q, cpuCount) >= target
    ensures Parallelism(q, cpuCount) > MinOf(q) ==> Parallelism(q, cpuCount) == target
  {
  }

  /** An unlimited plan covers the load, and above the minimum one slot less would not. */
  lemma PlanCoversLoad(q: Request, cpuCount: int)
    requires q.eventsPerSecond.Some?
    ensures var p, r := Parallelism(q, cpuCount), RateOf(q);
            Requested(q) <= p ==>
              && (p as real) * r >= q.eventsPerSecond.value
              && (p > MinOf(q) ==> ((p - 1) as real) * r < q.eventsPerSecond.value)
  {
    var p, r := Parallelism(q, cpuCount), RateOf(q);
    var target := Ceil(q.eventsPerSecond.value / r);
    if Requested(q) <= p { UnlimitedMeetsTarget(q, cpuCount, target); }
    CeilingCovers(q.eventsPerSecond.value, r, target, p, (p as real) * r, ((p - 1) as real) * r);
  }

  // ---------- Slots ----------

  lemma CeilDivIsLeast(a: int, b: int)
    requires b > 0
    ensures a <= CeilDiv(a, b) * b < a + b
  {
    var k := (-a) / b;
    assert -a == k * b + (-a) % b;
    assert CeilDiv(a, b) * b == -(k * b);
  }

  lemma CeilDivOfMultiple(k: int, b: int, a: int)
    requires b > 0 && a == k * b
    ensures CeilDiv(a, b) == k
  {
    assert -a == (-k) * b + 0;
    QuotientIsUnique(-a, b, -k, 0);
  }

  lemma QuotientIsUnique(a: int, b: int, k: int, rest: int)
    requires b > 0 && a == k * b + rest && 0 <= rest < b
    ensures a / b == k
  {
    var d := a / b - k;
    assert a == (a / b) * b + a % b;
    assert d * b == rest - a % b;
    if d >= 1 { ProductAtLeast(d, b); } else if d <= -1 { ProductAtLeast(-d, b); }
  }

  lemma ProductAtLeast(d: int, b: int)
    requires d >= 1 && b > 0
    ensures d * b >= b
  {
    assert (d - 1) * b >= 0;
  }

  /** Whole task managers, the fewest that hold the parallelism. */
  lemma PlanFillsTaskManagers(q: Request, cpuCount: int)
    ensures var plan := PlanCapacity(q, cpuCount);
            && plan.totalSlots == plan.taskmanagerReplicas * plan.slotsPerTaskmanager
            && plan.parallelism <= plan.totalSlots < plan.parallelism + plan.slotsPerTaskmanager
  {
    var p, slots := Parallelism(q, cpuCount), SlotsOf(q);
    var k := CeilDiv(p, slots);
    CeilDivIsLeast(p, slots);
    CeilDivOfMultiple(k, slots, k * slots);
    if k <= 0 { NotPositive(k, slots, k * slots); }
  }

  lemma NotPositive(k: int, b: int, product: int)
    requires k <= 0 && b > 0 && product == k * b
    ensures product <= 0
  {
    assert (-k) * b >= 0;
  }

  // ---------- Monotonicity ----------

  lemma QuotientGrows(a: int, b: int, d: int)
    requires d > 0 && a <= b
    ensures a / d <= b / d
  {
    var gap := a / d - b / d;
    assert a == (a / d) * d + a % d && b == (b / d) * d + b % d;
    assert gap * d == a - b + b % d - a % d;
    if gap >= 1 { ProductAtLeast(gap, d); }
  }

  lemma LoadGrows(x: real, y: real, r: real)
    requires r >= 1.0 && x <= y
    ensures Ceil(x / r) <= Ceil(y / r)
  {
    var u, v := x / r, y / r;
    Undivided(x, r, u);
    Undivided(y, r, v);
    if v < u { Scale(v, u, r); }
  }

  /** Raising a number from a to b does not lower what is used in its place: zero stands for a fallback,
      so from zero the new number has to reach it. */
  predicate NoLess(a: int, b: int, fallback: int) {
    a <= b && (a != 0 || b == 0 || fallback <= b)
  }

  function Given(value: Option<int>): int { if value.Some? then value.value else 0 }

  /** Two requests that differ in nothing but more partitions, processors, memory or load. */
  predicate Grows(q: Request, q': Request, cpuCount: int) {
    && q.partitions <= q'.partitions
    && NoLess(Given(q.hostCpu), Given(q'.hostCpu), cpuCount)
    && NoLess(Given(q.hostMemoryMb), Given(q'.hostMemoryMb), DEFAULT_MEMORY_MB)
    && (q.eventsPerSecond == q'.eventsPerSecond
        || (q.eventsPerSecond.Some? && q'.eventsPerSecond.Some? && q.eventsPerSecond.value <= q'.eventsPerSecond.value))
    && q' == q.(partitions := q'.partitions, hostCpu := q'.hostCpu, hostMemoryMb := q'.hostMemoryMb,
                eventsPerSecond := q'.eventsPerSecond)
  }

  lemma RequestGrows(q: Request, q': Request, cpuCount: int)
    requires Grows(q, q', cpuCount)
    ensures Requested(q) <= Requested(q')
  {
    if q.eventsPerSecond.Some? { LoadGrows(q.eventsPerSecond.value, q'.eventsPerSecond.value, RateOf(q)); }
  }

  lemma ResourcesGrow(q: Request, q': Request, cpuCount: int)
    requires Grows(q, q', cpuCount)
    ensures ResourceLimit(q, cpuCount) <= ResourceLimit(q', cpuCount)
  {
    var per := q.memoryPerSlotMb;
    QuotientGrows(Max(per, MemoryOf(q) - Max(0, q.reservedMemoryMb)), Max(per, MemoryOf(q') - Max(0, q.reservedMemoryMb)),
                  Max(1, per));
  }

  /** More of anything never lowers the parallelism. */
  lemma PlanIsMonotone(q: Request, q': Request, cpuCount: int)
    requires Grows(q, q', cpuCount)
    ensures Parallelism(q, cpuCount) <= Parallelism(q', cpuCount)
  {
    RequestGrows(q, q', cpuCount);
    ResourcesGrow(q, q', cpuCount);
  }

  /** A request that only the processors, or only the memory, limits. */
  function Unlimited(partitions: int, cpu: int, memory: int): Request {
    Request(partitions, Some(cpu), Some(memory), 1, None, 1, 0, 0, 1, None, 250.0)
  }

  lemma UnlimitedPlan(partitions: int, cpu: int, memory: int, cpuCount: int)
    ensures Parallelism(Unlimited(partitions, cpu, memory), cpuCount) ==
            var q := Unlimited(partitions, cpu, memory);
            Min(Max(1, partitions), Min(CpuOf(q, cpuCount), MemoryOf(q)))
  {
    assert MemoryLimit(Unlimited(partitions, cpu, memory)) == MemoryOf(Unlimited(partitions, cpu, memory));
  }

  predicate CpuKeeps(q: Request, a: int, b: int, cpuCount: int) {
    Parallelism(q.(hostCpu := Some(a)), cpuCount) <= Parallelism(q.(hostCpu := Some(b)), cpuCount)
  }

  /** Raising the processors lowers no plan exactly when it does not start from zero, which stands for the
      host's own count, or reaches that count. */
  lemma MoreCpuIsNoLessIff(a: int, b: int, cpuCount: int)
    requires a <= b
    ensures (forall q :: CpuKeeps(q, a, b, cpuCount)) <==> (a != 0 || b == 0 || cpuCount <= b)
  {
    if NoLess(a, b, cpuCount) {
      forall q ensures CpuKeeps(q, a, b, cpuCount) {
        PlanIsMonotone(q.(hostCpu := Some(a)), q.(hostCpu := Some(b)), cpuCount);
      }
    } else {
      var q := Unlimited(cpuCount, a, Max(1, cpuCount));
      UnlimitedPlan(cpuCount, a, Max(1, cpuCount), cpuCount);
      UnlimitedPlan(cpuCount, b, Max(1, cpuCount), cpuCount);
      assert q.(hostCpu := Some(a)) == q && q.(hostCpu := Some(b)) == Unlimited(cpuCount, b, Max(1, cpuCount));
      assert !CpuKeeps(q, a, b, cpuCount);
    }
  }

  predicate MemoryKeeps(q: Request, a: int, b: int, cpuCount: int) {
    Parallelism(q.(hostMemoryMb := Some(a)), cpuCount) <= Parallelism(q.(hostMemoryMb := Some(b)), cpuCount)
  }

  /** The same for memory, where zero stands for 4096 megabytes. */
  lemma MoreMemoryIsNoLessIff(a: int, b: int, cpuCount: int)
    requires a <= b
    ensures (forall q :: MemoryKeeps(q, a, b, cpuCount)) <==> (a != 0 || b == 0 || DEFAULT_MEMORY_MB <= b)
  {
    var all := DEFAULT_MEMORY_MB;
    if NoLess(a, b, all) {
      forall q ensures MemoryKeeps(q, a, b, cpuCount) {
        PlanIsMonotone(q.(hostMemoryMb := Some(a)), q.(hostMemoryMb := Some(b)), cpuCount);
      }
    } else {
      var q := Unlimited(all, all, a);
      UnlimitedPlan(all, all, a, cpuCount);
      UnlimitedPlan(all, all, b, cpuCount);
      assert q.(hostMemoryMb := Some(a)) == q && q.(hostMemoryMb := Some(b)) == Unlimited(all, all, b);
      assert !MemoryKeeps(q, a, b, cpuCount);
    }
  }

  /** Zero processors, megabytes or maximum are read as "not given". */
  lemma ZeroMeansNotGiven(q: Request, cpuCount: int)
    ensures Parallelism(q.(hostCpu := Some(0)), cpuCount) == Parallelism(q.(hostCpu := None), cpuCount)
    ensures Parallelism(q.(hostMemoryMb := Some(0)), cpuCount) == Parallelism(q.(hostMemoryMb := None), cpuCount)
    ensures Parallelism(q.(maxParallelism := Some(0)), cpuCount) == Parallelism(q.(maxParallelism := None), cpuCount)
  {
  }

  // ---------- The power of two test ----------

  function Power(k: nat): nat {
    if k == 0 then 1 else 2 * Power(k - 1)
  }

  predicate IsPower(n: nat)
  {
    exists k: nat | k <= n :: n == Power(k)
  }

  lemma {:induction false} PowerGrows(k: nat)
    ensures k < Power(k)
  {
    if k > 0 { PowerGrows(k - 1); }
  }

  lemma Halve(n: nat)
    requires n > 1
    ensures IsPower(n) <==> n % 2 == 0 && IsPower(n / 2)
  {
    if IsPower(n) {
      var k: nat :| k <= n && n == Power(k);
      PowerGrows(k - 1);
      assert n / 2 == Power(k - 1);
    }
    if n % 2 == 0 && IsPower(n / 2) {
      var k: nat :| k <= n / 2 && n / 2 == Power(k);
      PowerGrows(k + 1);
      assert n == Power(k + 1);
    }
  }

  lemma {:induction false} AndSelf(n: nat)
    ensures And(n, n) == n
  {
    if n > 0 {
      AndSelf(n / 2);
      var bit := n % 2;
      assert bit * bit == bit by { if bit == 0 {} else { assert bit == 1; } }
    }
  }

  /** The mask test is zero exactly on the powers of two. */
  lemma {:induction false} MaskFindsPowers(n: nat)
    requires n > 0
    ensures And(n, n - 1) == 0 <==> IsPower(n)
  {
    if n == 1 {
      assert n == Power(0);
    } else {
      Halve(n);
      if n % 2 == 0 {
        assert (n - 1) / 2 == n / 2 - 1;
        MaskFindsPowers(n / 2);
      } else {
        assert (n - 1) / 2 == n / 2;
        AndSelf(n / 2);
      }
    }
  }

  /** Which warnings a plan carries, said without the steps that collect them. */
  lemma WarningsSayWhy(q: Request, cpuCount: int)
    ensures var plan := PlanCapacity(q, cpuCount);
            && (MaxExceedsPartitions in plan.warnings <==> plan.maxParallelism > plan.partitions)
            && (CapacityLimited in plan.warnings <==> plan.capacityLimited)
            && (PartitionsNotPowerOfTwo in plan.warnings <==> !IsPower(plan.partitions))
            && (SharedTaskManager in plan.warnings <==> plan.slotsPerTaskmanager > 1)
  {
    MaskFindsPowers(PartitionsOf(q));
  }

  // ---------- The scaling recommendation ----------

  datatype Signals = Signals(
    minParallelism: int,
    maxParallelism: int,
    partitions: int,
    lag: real,
    busyTime: real,
    lagScaleUp: real,
    lagScaleDown: real,
    busyScaleUp: real,
    busyScaleDown: real)

  datatype Action = ScaleUp | ScaleDown | Hold

  datatype ScalingDecision = ScalingDecision(action: Action, target: int)

  function Ceiling(s: Signals): int { Min(s.maxParallelism, Max(1, s.partitions)) }

  function Floor(s: Signals): int { Max(1, s.minParallelism) }

  predicate Up(s: Signals) { s.lag >= s.lagScaleUp && s.busyTime >= s.busyScaleUp }

  predicate Down(s: Signals) { s.lag <= s.lagScaleDown && s.busyTime <= s.busyScaleDown }

  function DecideScaling(s: Signals, currentParallelism: int): ScalingDecision {
    var current := Max(1, currentParallelism);
    var upper, lower := Max(current, Ceiling(s)), Floor(s);
    if Up(s) && current < upper then ScalingDecision(ScaleUp, Min(current + 1, upper))
    else if Down(s) && current > lower then ScalingDecision(ScaleDown, Max(current - 1, lower))
    else ScalingDecision(Hold, current)
  }

  /** The parallelism after following the recommendation n times under the same signals. */
  function Follow(s: Signals, start: int, n: nat): int {
    if n == 0 then Max(1, start) else DecideScaling(s, Follow(s, start, n - 1)).target
  }

  /** How far the recommendation still has to go from `current`. */
  function Distance(s: Signals, current: int): nat {
    (if Up(s) then Max(0, Ceiling(s) - current) else 0) + (if Down(s) then Max(0, current - Floor(s)) else 0)
  }

  /** The signals do not ask for both directions across a range that is more than one point wide. */
  predicate Settles(s: Signals) {
    !(Up(s) && Down(s) && Floor(s) < Ceiling(s))
  }

  lemma {:induction false} DistanceShrinks(s: Signals, start: int, n: nat)
    requires Settles(s)
    ensures Distance(s, Follow(s, start, n)) == Max(0, Distance(s, Max(1, start)) - n)
  {
    if n > 0 { DistanceShrinks(s, start, n - 1); }
  }

  /** Following the recommendation, it says hold from step n on exactly when n has reached the
      distance of the start: the bound on the number of moves is met, not just respected. */
  lemma {:induction false} HoldsAfterDistance(s: Signals, start: int, n: nat)
    requires Settles(s)
    ensures DecideScaling(s, Follow(s, start, n)).action == Hold <==> n >= Distance(s, Max(1, start))
  {
    DistanceShrinks(s, start, n);
    FollowIsPositive(s, start, n);
  }

  lemma {:induction false} FollowIsPositive(s: Signals, start: int, n: nat)
    ensures Follow(s, start, n) >= 1
  {
    if n > 0 { FollowIsPositive(s, start, n - 1); }
  }

  /** The recommendation ever says hold exactly when the signals do not ask for both directions at
      once across a real range; otherwise it swings for ever. */
  lemma EverHoldsIff(s: Signals, start: int)
    ensures (exists n: nat :: DecideScaling(s, Follow(s, start, n)).action == Hold) <==> Settles(s)
  {
    if Settles(s) {
      HoldsAfterDistance(s, start, Distance(s, Max(1, start)));
    } else {
      forall n: nat
        ensures DecideScaling(s, Follow(s, start, n)).action != Hold
      {
        FollowIsPositive(s, start, n);
      }
    }
  }

  /** Thresholds with a gap between them settle whatever the signals are, and only they do when the
      range is wider than a point. */
  lemma SeparatedThresholdsSettle(s: Signals)
    ensures (forall lag: real, busy: real :: Settles(s.(lag := lag, busyTime := busy)))
            <==> s.lagScaleDown < s.lagScaleUp || s.busyScaleDown < s.busyScaleUp || Ceiling(s) <= Floor(s)
  {
    if !(s.lagScaleDown < s.lagScaleUp || s.busyScaleDown < s.busyScaleUp || Ceiling(s) <= Floor(s)) {
      assert !Settles(s.(lag := s.lagScaleUp, busyTime := s.busyScaleUp));
    }
  }

  /** One direction only, and never out of the range once inside it. */
  lemma {:induction false} FollowIsMonotone(s: Signals, start: int, m: nat, n: nat)
    requires m <= n && Settles(s)
    ensures Up(s) && !Down(s) ==> Follow(s, start, m) <= Follow(s, start, n)
    ensures Down(s) && !Up(s) ==> Follow(s, start, m) >= Follow(s, start, n)
    ensures !Up(s) && !Down(s) ==> Follow(s, start, m) == Follow(s, start, n)
  {
    if m < n {
      FollowIsMonotone(s, start, m, n - 1);
      FollowIsPositive(s, start, n - 1);
    }
  }

  lemma {:induction false} FollowStaysInRange(s: Signals, start: int, n: nat)
    requires Floor(s) <= start <= Ceiling(s)
    ensures Floor(s) <= Follow(s, start, n) <= Ceiling(s)
  {
    if n > 0 { FollowStaysInRange(s, start, n - 1); }
  }

  /** The parallelism it settles on. */
  lemma {:induction false} SettlesOn(s: Signals, start: int, n: nat)
    requires Settles(s) && Floor(s) <= start <= Ceiling(s) && n >= Distance(s, start)
    ensures Follow(s, start, n) == if Up(s) then Ceiling(s) else if Down(s) then Floor(s) else start
  {
    FollowStaysInRange(s, start, n);
    DistanceShrinks(s, start, n);
    FollowIsMonotone(s, start, 0, n);
  }
}

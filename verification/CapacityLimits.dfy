/** The plan and the recommendation, told from the numbers of the request alone. */
module CapacityLimits {
  import opened Common
  import opened Sums
  import opened Capacity

  /** n slots are wanted: by the minimum, by the load, which n - 1 slots of `rate` do not carry, or, without a
      load, by the partitions. */
  predicate Wanted(q: Request, rate: real, n: int) {
    || n <= q.minParallelism
    || match q.eventsPerSecond
       case Some(load) => ((n - 1) as real) * rate < load
       case None => n <= q.partitions
  }

  /** n slots are allowed: by the partitions, by the maximum when one is given, by the processors and by the
      memory, after what is reserved; the maximum gives way to the minimum. */
  predicate AllowedBy(q: Request, cpuCount: int, n: int) {
    var cpu := if q.hostCpu == None || q.hostCpu == Some(0) then cpuCount else q.hostCpu.value;
    var memory := if q.hostMemoryMb == None || q.hostMemoryMb == Some(0) then 4096 else q.hostMemoryMb.value;
    && n <= q.partitions
    && (n <= q.minParallelism || q.maxParallelism == None || q.maxParallelism == Some(0) || n <= q.maxParallelism.value)
    && n <= cpu && n + q.reservedCpu <= cpu
    && Needed(q, n) <= Max(256, memory)
  }

  /** The memory that n slots need, and the reserve. */
  function Needed(q: Request, n: int): int {
    n * (if q.memoryPerSlotMb < 1 then 1 else q.memoryPerSlotMb) + if q.reservedMemoryMb < 0 then 0 else q.reservedMemoryMb
  }

  lemma QuotientAtLeast(a: int, d: int, n: int, product: int)
    requires d > 0 && product == n * d
    ensures a / d >= n <==> a >= product
  {
    var k := a / d;
    assert a == k * d + a % d;
    var gap := (k - n) * d;
    assert a - product == gap + a % d;
    if k >= n { assert gap >= 0; } else { ProductAtLeast(n - k, d); assert (n - k) * d == -gap; }
  }

  lemma MemoryAllows(q: Request, n: int)
    requires n >= 2
    ensures MemoryLimit(q) >= n <==> Needed(q, n) <= MemoryOf(q)
  {
    var per, free := Max(1, q.memoryPerSlotMb), MemoryOf(q) - Max(0, q.reservedMemoryMb);
    QuotientAtLeast(Max(q.memoryPerSlotMb, free), per, n, n * per);
    MoreThanOne(n, per, n * per);
  }

  lemma MoreThanOne(n: int, per: int, product: int)
    requires n >= 2 && per >= 1 && product == n * per
    ensures product > per && product >= n
  {
    assert product == per + (n - 1) * per;
    ProductAtLeast(n - 1, per);
    assert product == n + (per - 1) * n;
  }

  lemma LoadWants(load: real, rate: real, n: int, less: real)
    requires rate > 0.0 && less == ((n - 1) as real) * rate
    ensures Ceil(load / rate) >= n <==> less < load
  {
    var target := Ceil(load / rate);
    CeilingCovers(load, rate, target, n, (n as real) * rate, less);
    CeilingCovers(load, rate, target, n - 1, less, ((n - 2) as real) * rate);
  }

  lemma RequestWants(q: Request, rate: real, n: int)
    requires n >= 2 && rate == (if q.eventsPerSecondPerSlot < 1.0 then 1.0 else q.eventsPerSecondPerSlot)
    ensures Requested(q) >= n <==> Wanted(q, rate, n)
  {
    if q.eventsPerSecond.Some? { LoadWants(q.eventsPerSecond.value, rate, n, ((n - 1) as real) * rate); }
  }

  /** The plan has n slots or more exactly when n slots are wanted and allowed; one slot it has always. */
  lemma PlanIsLargest(q: Request, cpuCount: int, n: int, rate: real)
    requires n >= 2 && rate == (if q.eventsPerSecondPerSlot < 1.0 then 1.0 else q.eventsPerSecondPerSlot)
    ensures PlanCapacity(q, cpuCount).parallelism >= n <==> Wanted(q, rate, n) && AllowedBy(q, cpuCount, n)
  {
    RequestWants(q, rate, n);
    MemoryAllows(q, n);
  }

  /** The plan is cut exactly when one slot more is wanted. */
  lemma CutIffMoreIsWanted(q: Request, cpuCount: int, rate: real, p: int)
    requires p == PlanCapacity(q, cpuCount).parallelism
    requires rate == (if q.eventsPerSecondPerSlot < 1.0 then 1.0 else q.eventsPerSecondPerSlot)
    ensures PlanCapacity(q, cpuCount).capacityLimited <==> Wanted(q, rate, p + 1)
  {
    RequestWants(q, rate, p + 1);
  }

  lemma UncutPlanCovers(q: Request, cpuCount: int, load: real, p: int, capacity: real, less: real)
    requires q.eventsPerSecond == Some(load) && q.eventsPerSecondPerSlot >= 1.0 && p == Parallelism(q, cpuCount)
    requires capacity == (p as real) * q.eventsPerSecondPerSlot && less == ((p - 1) as real) * q.eventsPerSecondPerSlot
    ensures Requested(q) <= p ==> capacity >= load && (p > 1 && p > q.minParallelism ==> less < load)
  {
    PlanCoversLoad(q, cpuCount);
  }

  /** A plan that no limit cut carries the load at the given rate of a slot, and with one slot less it would
      not, unless the minimum asks for it. */
  lemma PlanSuffices(q: Request, cpuCount: int, load: real, p: int, capacity: real, less: real)
    requires q.eventsPerSecond == Some(load) && q.eventsPerSecondPerSlot >= 1.0 && p == PlanCapacity(q, cpuCount).parallelism
    requires capacity == (p as real) * q.eventsPerSecondPerSlot && less == ((p - 1) as real) * q.eventsPerSecondPerSlot
    ensures !PlanCapacity(q, cpuCount).capacityLimited ==> capacity >= load && (p > 1 && p > q.minParallelism ==> less < load)
  {
    UncutPlanCovers(q, cpuCount, load, p, capacity, less);
  }

  lemma CapacityIsEstimated(q: Request, cpuCount: int, p: int, rate: real, capacity: real)
    requires q.eventsPerSecondPerSlot >= 1.0 && rate == q.eventsPerSecondPerSlot && capacity == (p as real) * rate
    requires p == PlanCapacity(q, cpuCount).parallelism
    ensures PlanCapacity(q, cpuCount).estimatedCapacity == capacity
  {
    assert p == Parallelism(q, cpuCount);
    assert rate == RateOf(q);
  }

  /** Numbers in range are planned with as they are given. */
  lemma GivenNumbersAreKept(q: Request, cpuCount: int)
    requires q.partitions >= 1 && q.minParallelism >= 1 && q.slotsPerTaskmanager >= 1
    requires q.hostCpu.Some? && q.hostCpu.value >= 1 && q.hostMemoryMb.Some? && q.hostMemoryMb.value >= 256
    requires q.maxParallelism.Some? && q.maxParallelism.value >= q.minParallelism
    ensures var plan := PlanCapacity(q, cpuCount);
            && plan.partitions == q.partitions && plan.minParallelism == q.minParallelism
            && plan.slotsPerTaskmanager == q.slotsPerTaskmanager && Some(plan.hostCpu) == q.hostCpu
            && Some(plan.hostMemoryMb) == q.hostMemoryMb && Some(plan.maxParallelism) == q.maxParallelism
  {
  }

  /** When it recommends to scale, and that it does so by one: both signals past their thresholds, and room
      left in that direction; up goes before down. */
  lemma RecommendationSays(s: Signals, current: int)
    requires current >= 1
    ensures var up := s.lag >= s.lagScaleUp && s.busyTime >= s.busyScaleUp
                      && current < s.maxParallelism && current < Max(1, s.partitions);
            var down := s.lag <= s.lagScaleDown && s.busyTime <= s.busyScaleDown && current > s.minParallelism && current > 1;
            DecideScaling(s, current) == if up then ScalingDecision(ScaleUp, current + 1)
                                         else if down then ScalingDecision(ScaleDown, current - 1)
                                         else ScalingDecision(Hold, current)
  {
  }

  /** Whoever follows the recommendation from inside the given bounds never leaves them, and never goes past
      the partitions. */
  lemma {:induction false} FollowKeepsBounds(s: Signals, start: int, n: nat)
    requires 1 <= s.minParallelism <= start <= s.maxParallelism && start <= s.partitions
    ensures s.minParallelism <= Follow(s, start, n) <= s.maxParallelism && Follow(s, start, n) <= s.partitions
  {
    if n > 0 {
      FollowKeepsBounds(s, start, n - 1);
      RecommendationSays(s, Follow(s, start, n - 1));
    }
  }
}

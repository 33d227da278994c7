/**
 GPU occupancy and the search for the largest register count that reaches a target
 occupancy (device_description.cc).  Products wrap at 64 bits as in the source.
 */
module DeviceOccupancy {
  import opened Arithmetic

  const TWO_TO_64: nat := 0x1_0000_0000_0000_0000
  const TWO_TO_32: nat := 0x1_0000_0000
  const TWO_TO_31: nat := 0x8000_0000
  const UNINITIALIZED: nat := TWO_TO_64 - 1

  datatype Device = Device(
    registersPerThreadLimit: nat,
    threadsPerWarp: nat,
    warpAllocGranularity: nat,
    registerAllocGranularity: nat,
    registersPerBlockLimit: nat,
    sharedMemoryPerCore: nat,
    blocksPerCoreLimit: nat,
    threadsPerCoreLimit: nat,
    sharedMemoryAllocGranularity: nat)
  {
    predicate Initialized() {
      && registersPerThreadLimit != UNINITIALIZED && threadsPerWarp != UNINITIALIZED
      && warpAllocGranularity != UNINITIALIZED && registerAllocGranularity != UNINITIALIZED
      && registersPerBlockLimit != UNINITIALIZED && sharedMemoryPerCore != UNINITIALIZED
      && blocksPerCoreLimit != UNINITIALIZED
    }

    predicate Granular() {
      threadsPerWarp > 0 && warpAllocGranularity > 0 && registerAllocGranularity > 0 && sharedMemoryAllocGranularity > 0
    }
  }

  datatype ThreadDim = ThreadDim(x: nat, y: nat, z: nat)

  /** What is launched: threads per block and shared memory per block. */
  datatype Launch = Launch(dims: ThreadDim, sharedMemory: nat)

  function Wrap(n: nat): nat {
    n % TWO_TO_64
  }

  /** Conversion of an unsigned 64-bit value to a 32-bit int. */
  function ToInt(n: nat): int {
    var low := n % TWO_TO_32;
    if low < TWO_TO_31 then low else low - TWO_TO_32
  }

  function CeilOfRatio(n: nat, d: nat): nat
    requires d > 0
  {
    n / d + (if n > n / d * d then 1 else 0)
  }

  function RoundUp(value: nat, n: nat): nat
    requires n > 0
  {
    Wrap(CeilOfRatio(value, n) * n)
  }

  function RoundDown(value: nat, n: nat): nat
    requires n > 0
  {
    Wrap(value / n * n)
  }

  function Min(a: nat, b: nat): nat {
    if a < b then a else b
  }

  function WarpsPerBlock(d: Device, l: Launch): nat
    requires d.Granular()
  {
    CeilOfRatio(Wrap(Wrap(l.dims.x * l.dims.y) * l.dims.z), d.threadsPerWarp)
  }

  function RegsPerBlock(d: Device, l: Launch, registersPerThread: nat): nat
    requires d.Granular()
  {
    Wrap(RoundUp(WarpsPerBlock(d, l), d.warpAllocGranularity)
         * RoundUp(Wrap(d.threadsPerWarp * registersPerThread), d.registerAllocGranularity))
  }

  function ThreadsAllocated(d: Device, l: Launch): nat
    requires d.Granular()
  {
    Wrap(WarpsPerBlock(d, l) * d.threadsPerWarp)
  }

  /** No divisor on the way is zero. */
  predicate Divides(d: Device, l: Launch, registersPerThread: nat) {
    d.Initialized() && registersPerThread <= d.registersPerThreadLimit ==>
      d.Granular() && RegsPerBlock(d, l, registersPerThread) > 0 && ThreadsAllocated(d, l) > 0
  }

  /** The part of the occupancy that registers do not limit. */
  function OtherLimits(d: Device, l: Launch): nat
    requires d.Granular() && ThreadsAllocated(d, l) > 0
  {
    var allocSmem := RoundUp(l.sharedMemory, d.sharedMemoryAllocGranularity);
    var smemLimit := if allocSmem > 0 then d.sharedMemoryPerCore / allocSmem else d.blocksPerCoreLimit;
    Min(Min(d.blocksPerCoreLimit, smemLimit), d.threadsPerCoreLimit / ThreadsAllocated(d, l))
  }

  function CalculateOccupancy(d: Device, registersPerThread: nat, l: Launch): nat
    requires Divides(d, l, registersPerThread)
  {
    if !d.Initialized() || registersPerThread > d.registersPerThreadLimit then 0
    else Min(OtherLimits(d, l), d.registersPerBlockLimit / RegsPerBlock(d, l, registersPerThread))
  }

  // ---------------------------------------------------------------------------------------
  // What the occupancy is, from the fields of the device and the launch alone.

  /** n is rounded up to a whole number of units. */
  predicate RoundsUpTo(n: nat, unit: nat, units: nat) {
    n <= units * unit < n + unit
  }

  /** What a block takes: warps, and units of warps, of registers per warp and of shared memory. */
  datatype Block = Block(warps: nat, warpUnits: nat, registerUnits: nat, memoryUnits: nat)

  /** Products are 64-bit ones. */
  predicate Takes(d: Device, l: Launch, registersPerThread: nat, b: Block) {
    && RoundsUpTo(l.dims.x * l.dims.y * l.dims.z % 0x1_0000_0000_0000_0000, d.threadsPerWarp, b.warps)
    && RoundsUpTo(b.warps, d.warpAllocGranularity, b.warpUnits)
    && RoundsUpTo(d.threadsPerWarp * registersPerThread % 0x1_0000_0000_0000_0000,
                  d.registerAllocGranularity, b.registerUnits)
    && RoundsUpTo(l.sharedMemory, d.sharedMemoryAllocGranularity, b.memoryUnits)
  }

  function BlockThreads(d: Device, b: Block): nat {
    b.warps * d.threadsPerWarp % 0x1_0000_0000_0000_0000
  }

  function BlockRegisters(d: Device, b: Block): nat {
    (b.warpUnits * d.warpAllocGranularity % 0x1_0000_0000_0000_0000)
    * (b.registerUnits * d.registerAllocGranularity % 0x1_0000_0000_0000_0000) % 0x1_0000_0000_0000_0000
  }

  function BlockMemory(d: Device, b: Block): nat {
    b.memoryUnits * d.sharedMemoryAllocGranularity % 0x1_0000_0000_0000_0000
  }

  /** n blocks at once stay within every resource of a core. */
  predicate Fits(d: Device, b: Block, n: nat) {
    && n <= d.blocksPerCoreLimit
    && n * BlockRegisters(d, b) <= d.registersPerBlockLimit
    && n * BlockMemory(d, b) <= d.sharedMemoryPerCore
    && n * BlockThreads(d, b) <= d.threadsPerCoreLimit
  }

  /** None of the seven fields that are looked at is at its initial value. */
  predicate Known(d: Device) {
    0xFFFF_FFFF_FFFF_FFFF !in {d.registersPerThreadLimit, d.threadsPerWarp, d.warpAllocGranularity,
                               d.registerAllocGranularity, d.registersPerBlockLimit, d.sharedMemoryPerCore,
                               d.blocksPerCoreLimit}
  }

  lemma WrapProduct(a: nat, b: nat)
    ensures Wrap(Wrap(a) * b) == a * b % 0x1_0000_0000_0000_0000
  {
    DivMod(a, TWO_TO_64);
    DivMod(a * b, TWO_TO_64);
    var k := a / TWO_TO_64;
    assert a * b == (k * b) * TWO_TO_64 + Wrap(a) * b by {
      Distribute(k * TWO_TO_64, Wrap(a), b);
    }
    SameRemainder(a * b, k * b, Wrap(a) * b);
  }

  lemma SameRemainder(n: nat, k: nat, rest: nat)
    requires n == k * TWO_TO_64 + rest
    ensures Wrap(n) == Wrap(rest)
  {
    DivMod(rest, TWO_TO_64);
    DivideIs(n, TWO_TO_64, k + rest / TWO_TO_64);
  }

  lemma RoundsUp(n: nat, unit: nat, units: nat)
    requires unit > 0 && RoundsUpTo(n, unit, units)
    ensures CeilOfRatio(n, unit) == units && RoundUp(n, unit) == units * unit % 0x1_0000_0000_0000_0000
  {
    hide CeilOfRatio;
    CeilOfRatioIs(n, unit, units);
  }

  /** The rounded quantities of the code are those that the block takes. */
  lemma TakesWhat(d: Device, l: Launch, r: nat, b: Block)
    requires d.Granular() && Takes(d, l, r, b)
    ensures WarpsPerBlock(d, l) == b.warps && ThreadsAllocated(d, l) == BlockThreads(d, b)
    ensures RegsPerBlock(d, l, r) == BlockRegisters(d, b)
    ensures RoundUp(l.sharedMemory, d.sharedMemoryAllocGranularity) == BlockMemory(d, b)
  {
    hide RoundsUpTo, RoundUp, CeilOfRatio;
    WrapProduct(l.dims.x * l.dims.y, l.dims.z);
    RoundsUp(l.dims.x * l.dims.y * l.dims.z % TWO_TO_64, d.threadsPerWarp, b.warps);
    RoundsUp(b.warps, d.warpAllocGranularity, b.warpUnits);
    RoundsUp(d.threadsPerWarp * r % TWO_TO_64, d.registerAllocGranularity, b.registerUnits);
    RoundsUp(l.sharedMemory, d.sharedMemoryAllocGranularity, b.memoryUnits);
  }

  lemma RoundingExists(n: nat, unit: nat) returns (units: nat)
    requires unit > 0
    ensures RoundsUpTo(n, unit, units)
  {
    units := CeilOfRatio(n, unit);
    CeilOfRatioIs(n, unit, units);
  }

  lemma BlockExists(d: Device, l: Launch, r: nat) returns (b: Block)
    requires d.Granular()
    ensures Takes(d, l, r, b)
  {
    hide RoundsUpTo;
    var warps := RoundingExists(l.dims.x * l.dims.y * l.dims.z % TWO_TO_64, d.threadsPerWarp);
    var warpUnits := RoundingExists(warps, d.warpAllocGranularity);
    var registerUnits := RoundingExists(d.threadsPerWarp * r % TWO_TO_64, d.registerAllocGranularity);
    var memoryUnits := RoundingExists(l.sharedMemory, d.sharedMemoryAllocGranularity);
    b := Block(warps, warpUnits, registerUnits, memoryUnits);
  }

  /** The call is free of divisions by zero exactly if a known device gives a block some registers and threads. */
  lemma DividesExactly(d: Device, l: Launch, r: nat)
    ensures Divides(d, l, r) <==>
              (Known(d) && r <= d.registersPerThreadLimit ==>
                && d.threadsPerWarp > 0 && d.warpAllocGranularity > 0
                && d.registerAllocGranularity > 0 && d.sharedMemoryAllocGranularity > 0
                && exists b :: Takes(d, l, r, b) && BlockRegisters(d, b) > 0 && BlockThreads(d, b) > 0)
  {
    hide RegsPerBlock, ThreadsAllocated, Takes;
    if d.Granular() {
      var b := BlockExists(d, l, r);
      TakesWhat(d, l, r, b);
      forall b' | Takes(d, l, r, b')
        ensures RegsPerBlock(d, l, r) == BlockRegisters(d, b') && ThreadsAllocated(d, l) == BlockThreads(d, b')
      {
        TakesWhat(d, l, r, b');
      }
    }
  }

  /** The occupancy is the largest number of blocks that fit on a known device within its register limit. */
  lemma OccupancyIsLargestFit(d: Device, l: Launch, r: nat, b: Block, n: nat)
    requires Divides(d, l, r) && Takes(d, l, r, b)
    ensures n <= CalculateOccupancy(d, r, l) <==>
              n == 0 || (Known(d) && r <= d.registersPerThreadLimit && Fits(d, b, n))
  {
    hide RegsPerBlock, RoundUp, ThreadsAllocated, Takes, BlockRegisters, BlockMemory, BlockThreads;
    if d.Initialized() && r <= d.registersPerThreadLimit {
      TakesWhat(d, l, r, b);
      QuotientAtLeast(n, d.registersPerBlockLimit, RegsPerBlock(d, l, r));
      QuotientAtLeast(n, d.threadsPerCoreLimit, ThreadsAllocated(d, l));
      var smem := RoundUp(l.sharedMemory, d.sharedMemoryAllocGranularity);
      if smem > 0 {
        QuotientAtLeast(n, d.sharedMemoryPerCore, smem);
      }
    }
  }

  /** Without overflow the limits are the plain products, and no smaller number of warps holds the threads. */
  lemma OccupancyWithoutOverflow(d: Device, l: Launch, r: nat, b: Block, n: nat)
    requires Known(d) && r <= d.registersPerThreadLimit && Divides(d, l, r) && Takes(d, l, r, b)
    requires l.dims.x * l.dims.y * l.dims.z < TWO_TO_64 && b.warps * d.threadsPerWarp < TWO_TO_64
    requires d.threadsPerWarp * r < TWO_TO_64 && b.memoryUnits * d.sharedMemoryAllocGranularity < TWO_TO_64
    requires b.warpUnits * d.warpAllocGranularity * (b.registerUnits * d.registerAllocGranularity) < TWO_TO_64
    ensures forall w: nat :: w * d.threadsPerWarp >= l.dims.x * l.dims.y * l.dims.z <==> w >= b.warps
    ensures n <= CalculateOccupancy(d, r, l) <==>
              && n <= d.blocksPerCoreLimit
              && n * (b.warpUnits * d.warpAllocGranularity * (b.registerUnits * d.registerAllocGranularity))
                 <= d.registersPerBlockLimit
              && n * (b.memoryUnits * d.sharedMemoryAllocGranularity) <= d.sharedMemoryPerCore
              && n * (b.warps * d.threadsPerWarp) <= d.threadsPerCoreLimit
  {
    hide Divides, Takes, Fits, CalculateOccupancy, BlockRegisters, BlockMemory, BlockThreads, Known;
    OccupancyIsLargestFit(d, l, r, b, n);
    FitsExactly(d, b, n);
    LeastWarps(d, l, r, b);
  }

  lemma LeastWarps(d: Device, l: Launch, r: nat, b: Block)
    requires l.dims.x * l.dims.y * l.dims.z < TWO_TO_64 && Takes(d, l, r, b)
    ensures forall w: nat :: w * d.threadsPerWarp >= l.dims.x * l.dims.y * l.dims.z <==> w >= b.warps
  {
    var threads := l.dims.x * l.dims.y * l.dims.z;
    assert RoundsUpTo(threads, d.threadsPerWarp, b.warps);
    forall w: nat ensures w * d.threadsPerWarp >= threads <==> w >= b.warps {
      if w != b.warps {
        MultiplesApart(w, b.warps, d.threadsPerWarp);
      }
    }
  }

  lemma FitsExactly(d: Device, b: Block, n: nat)
    requires b.warps * d.threadsPerWarp < TWO_TO_64 && b.memoryUnits * d.sharedMemoryAllocGranularity < TWO_TO_64
    requires b.warpUnits * d.warpAllocGranularity * (b.registerUnits * d.registerAllocGranularity) < TWO_TO_64
    ensures Fits(d, b, n) <==>
              && n <= d.blocksPerCoreLimit
              && n * (b.warpUnits * d.warpAllocGranularity * (b.registerUnits * d.registerAllocGranularity))
                 <= d.registersPerBlockLimit
              && n * (b.memoryUnits * d.sharedMemoryAllocGranularity) <= d.sharedMemoryPerCore
              && n * (b.warps * d.threadsPerWarp) <= d.threadsPerCoreLimit
  {
    hide BlockRegisters, BlockMemory, BlockThreads;
    ExactRegisters(d, b);
    ExactRest(d, b);
  }

  lemma ExactRest(d: Device, b: Block)
    requires b.warps * d.threadsPerWarp < TWO_TO_64 && b.memoryUnits * d.sharedMemoryAllocGranularity < TWO_TO_64
    ensures BlockMemory(d, b) == b.memoryUnits * d.sharedMemoryAllocGranularity
    ensures BlockThreads(d, b) == b.warps * d.threadsPerWarp
  {
    SmallIsUnwrapped(b.warps * d.threadsPerWarp);
    SmallIsUnwrapped(b.memoryUnits * d.sharedMemoryAllocGranularity);
  }

  lemma ExactRegisters(d: Device, b: Block)
    requires b.warpUnits * d.warpAllocGranularity * (b.registerUnits * d.registerAllocGranularity) < TWO_TO_64
    ensures BlockRegisters(d, b)
         == b.warpUnits * d.warpAllocGranularity * (b.registerUnits * d.registerAllocGranularity)
  {
    var w, r := b.warpUnits * d.warpAllocGranularity, b.registerUnits * d.registerAllocGranularity;
    SmallFactors(w, r);
  }

  lemma SmallFactors(w: nat, r: nat)
    requires w * r < TWO_TO_64
    ensures (w % TWO_TO_64) * (r % TWO_TO_64) % TWO_TO_64 == w * r
  {
    if w > 0 && r > 0 {
      ProductMonotone(1, r, w);
      ProductMonotone(1, w, r);
      SmallIsUnwrapped(w);
      SmallIsUnwrapped(r);
      SmallIsUnwrapped(w * r);
    }
  }

  // ---------------------------------------------------------------------------------------
  // The search.

  /** The register count found, or the division by zero when the step rounds down to zero. */
  datatype Outcome = Found(registers: nat) | DivisionByZero

  /** A 32-bit int, converted back to 64 bits where it is divided by. */
  function RegStep(d: Device): nat
    requires d.threadsPerWarp > 0
  {
    var step := ToInt(d.registerAllocGranularity / d.threadsPerWarp);
    if step >= 0 then step else step + TWO_TO_64
  }

  /** Both conversions keep the value modulo 2^32, and the step is sign-extended. */
  lemma ConversionsTell(d: Device, n: nat)
    requires d.threadsPerWarp > 0
    ensures -0x8000_0000 <= ToInt(n) < 0x8000_0000 && (n - ToInt(n)) % 0x1_0000_0000 == 0
    ensures 0 <= RegStep(d) < 0x8000_0000 || 0xFFFF_FFFF_8000_0000 <= RegStep(d) < 0x1_0000_0000_0000_0000
    ensures (d.registerAllocGranularity / d.threadsPerWarp - RegStep(d)) % 0x1_0000_0000 == 0
  {
    DivMod(n, TWO_TO_32);
    DivMod(d.registerAllocGranularity / d.threadsPerWarp, TWO_TO_32);
  }

  predicate Searchable(d: Device, l: Launch) {
    && d.threadsPerWarp > 0
    && forall r :: 0 < r <= d.registersPerThreadLimit ==> Divides(d, l, r)
  }

  predicate Meets(d: Device, l: Launch, target: nat, r: nat)
    requires Divides(d, l, r)
  {
    CalculateOccupancy(d, r, l) >= target
  }

  method CalculateRegisterLimitForTargetOccupancy(d: Device, l: Launch, target: nat) returns (outcome: Outcome)
    requires Searchable(d, l)
    ensures outcome == Search(d, l, target, ToInt(d.registersPerThreadLimit))
  {
    hide CalculateOccupancy, RegStep, RoundDown, Divides;
    var regStep := RegStep(d);
    var r := ToInt(d.registersPerThreadLimit);
    ToIntSmall(d.registersPerThreadLimit);
    while r > 0
      invariant r <= d.registersPerThreadLimit && r < TWO_TO_31
      invariant Search(d, l, target, r) == Search(d, l, target, ToInt(d.registersPerThreadLimit))
    {
      var occupancy := CalculateOccupancy(d, r, l);
      if occupancy >= target {
        return Found(r);
      }
      if regStep == 0 {
        return DivisionByZero;
      }
      RoundDownBelow(r - 1, regStep);
      r := RoundDown(r - 1, regStep);
    }
    return Found(0);
  }

  /** The candidates are r, then the multiples of the step below it. */
  function Search(d: Device, l: Launch, target: nat, r: int): Outcome
    requires Searchable(d, l) && r <= d.registersPerThreadLimit && r < TWO_TO_31
    decreases if r > 0 then r else 0
  {
    if r <= 0 then Found(0)
    else if Meets(d, l, target, r) then Found(r)
    else if RegStep(d) == 0 then DivisionByZero
    else
      RoundDownIs(r - 1, RegStep(d));
      Search(d, l, target, RoundDown(r - 1, RegStep(d)))
  }

  lemma RoundDownIs(value: nat, n: nat)
    requires n > 0 && value < TWO_TO_64
    ensures RoundDown(value, n) == value / n * n <= value < value / n * n + n
  {
    DivMod(value, n);
  }

  lemma RoundDownBelow(value: nat, n: nat)
    requires n > 0 && value < TWO_TO_64
    ensures RoundDown(value, n) <= value
  {
    RoundDownIs(value, n);
  }

  lemma ToIntSmall(n: nat)
    ensures ToInt(n) <= n && ToInt(n) < TWO_TO_31
  {
  }

  lemma CeilOfRatioIs(n: nat, d: nat, c: nat)
    requires d > 0
    ensures c == CeilOfRatio(n, d) <==> n <= c * d < n + d
  {
    var q := n / d;
    assert n == d * q + n % d;
    var k := CeilOfRatio(n, d);
    assert k * d == q * d + (if n > q * d then d else 0);
    assert n <= k * d < n + d;
    if c != k {
      MultiplesApart(c, k, d);
    }
  }

  // ---------------------------------------------------------------------------------------
  // Without overflow.

  /** Allocated registers per warp, unwrapped. */
  function AllocRegs(d: Device, r: nat): nat
    requires d.Granular()
  {
    CeilOfRatio(d.threadsPerWarp * r, d.registerAllocGranularity) * d.registerAllocGranularity
  }

  /** A device and a launch for which no product up to the register limit wraps. */
  predicate Usable(d: Device, l: Launch) {
    && d.Initialized() && d.Granular()
    && d.registersPerThreadLimit < TWO_TO_31
    && d.registerAllocGranularity / d.threadsPerWarp < TWO_TO_31
    && ThreadsAllocated(d, l) > 0
    && RoundUp(WarpsPerBlock(d, l), d.warpAllocGranularity) > 0
    && d.threadsPerWarp * d.registersPerThreadLimit < TWO_TO_64
    && RoundUp(WarpsPerBlock(d, l), d.warpAllocGranularity) * AllocRegs(d, d.registersPerThreadLimit) < TWO_TO_64
  }

  lemma AllocRegsMonotone(d: Device, r: nat, s: nat)
    requires d.Granular() && r <= s
    ensures AllocRegs(d, r) <= AllocRegs(d, s)
    ensures r > 0 ==> AllocRegs(d, r) > 0
  {
    var t, g := d.threadsPerWarp, d.registerAllocGranularity;
    var a, b := CeilOfRatio(t * r, g), CeilOfRatio(t * s, g);
    ProductMonotone(r, s, t);
    CeilOfRatioIs(t * r, g, a);
    CeilOfRatioIs(t * s, g, b);
    if a > b {
      MultiplesApart(a, b, g);
    }
    ProductMonotone(a, b, g);
    if r > 0 {
      ProductMonotone(1, r, t);
    }
  }

  lemma SmallIsUnwrapped(n: nat)
    requires n < TWO_TO_64
    ensures Wrap(n) == n
  {
  }

  lemma ExactProduct(w: nat, a: nat, top: nat)
    requires 0 < w && 0 < a <= top && w * top < TWO_TO_64
    ensures Wrap(a) == a && Wrap(w * a) == w * a > 0
  {
    hide Wrap;
    ProductMonotone(a, top, w);
    ProductMonotone(1, w, a);
    SmallIsUnwrapped(a);
    SmallIsUnwrapped(w * a);
  }

  lemma RegsPerBlockExact(d: Device, l: Launch, r: nat)
    requires Usable(d, l) && 0 < r <= d.registersPerThreadLimit
    ensures RegsPerBlock(d, l, r) == RoundUp(WarpsPerBlock(d, l), d.warpAllocGranularity) * AllocRegs(d, r) > 0
  {
    hide CeilOfRatio, WarpsPerBlock, ThreadsAllocated, Wrap;
    var w := RoundUp(WarpsPerBlock(d, l), d.warpAllocGranularity);
    ProductMonotone(r, d.registersPerThreadLimit, d.threadsPerWarp);
    SmallIsUnwrapped(d.threadsPerWarp * r);
    AllocRegsMonotone(d, r, d.registersPerThreadLimit);
    ExactProduct(w, AllocRegs(d, r), AllocRegs(d, d.registersPerThreadLimit));
    assert RoundUp(d.threadsPerWarp * r, d.registerAllocGranularity) == Wrap(AllocRegs(d, r));
    hide RoundUp, AllocRegs;
  }

  lemma UsableSearchable(d: Device, l: Launch)
    requires Usable(d, l)
    ensures Searchable(d, l) && RegStep(d) == d.registerAllocGranularity / d.threadsPerWarp
    ensures ToInt(d.registersPerThreadLimit) == d.registersPerThreadLimit
  {
    hide RegsPerBlock, RoundUp, AllocRegs, WarpsPerBlock, ThreadsAllocated;
    forall r | 0 < r <= d.registersPerThreadLimit ensures Divides(d, l, r) {
      RegsPerBlockExact(d, l, r);
    }
    DivMod(d.registerAllocGranularity, d.threadsPerWarp);
  }

  /** More registers per thread never raise the occupancy. */
  lemma OccupancyAntitone(d: Device, l: Launch, r: nat, s: nat)
    requires Usable(d, l) && 0 < r <= s <= d.registersPerThreadLimit
    requires Divides(d, l, r) && Divides(d, l, s)
    ensures CalculateOccupancy(d, r, l) >= CalculateOccupancy(d, s, l)
  {
    hide RegsPerBlock, AllocRegs, OtherLimits;
    RegsPerBlockExact(d, l, r);
    RegsPerBlockExact(d, l, s);
    AllocRegsMonotone(d, r, s);
    ProductMonotone(AllocRegs(d, r), AllocRegs(d, s), RoundUp(WarpsPerBlock(d, l), d.warpAllocGranularity));
    DivideAntitone(d.registersPerBlockLimit, RegsPerBlock(d, l, r), RegsPerBlock(d, l, s));
  }

  /** Register counts that round to the same allocation have the same occupancy. */
  lemma OccupancyPerBucket(d: Device, l: Launch, r: nat, s: nat)
    requires Usable(d, l) && 0 < r <= d.registersPerThreadLimit && 0 < s <= d.registersPerThreadLimit
    requires Divides(d, l, r) && Divides(d, l, s) && AllocRegs(d, r) == AllocRegs(d, s)
    ensures CalculateOccupancy(d, r, l) == CalculateOccupancy(d, s, l)
  {
    RegsPerBlockExact(d, l, r);
    RegsPerBlockExact(d, l, s);
  }

  // ---------------------------------------------------------------------------------------
  // Optimality of the search.

  /** r is the largest count in 1..limit that meets the target, or 0 when there is none. */
  ghost predicate IsMaximum(d: Device, l: Launch, target: nat, r: nat)
    requires Searchable(d, l)
  {
    && r <= d.registersPerThreadLimit
    && (r > 0 ==> Meets(d, l, target, r))
    && forall q :: r < q <= d.registersPerThreadLimit ==> !Meets(d, l, target, q)
  }

  /** The step leaves no allocation bucket out. */
  predicate Exhaustive(threadsPerWarp: nat, granularity: nat)
    requires threadsPerWarp > 0
  {
    granularity >= threadsPerWarp && (granularity % threadsPerWarp == 0 || granularity / threadsPerWarp == 1)
  }

  /** Counts between two candidates share the bucket of the upper one. */
  lemma SkippedShareBucket(d: Device, r: nat, q: nat)
    requires d.Granular() && Exhaustive(d.threadsPerWarp, d.registerAllocGranularity)
    requires var s := d.registerAllocGranularity / d.threadsPerWarp; s > 0 && (r - 1) / s * s < q < r
    ensures AllocRegs(d, q) == AllocRegs(d, r)
  {
    hide CeilOfRatio;
    var t, g := d.threadsPerWarp, d.registerAllocGranularity;
    var s := g / t;
    DivMod(r - 1, s);
    if g % t == 0 {
      DivMod(g, t);
      InBucket(t, s, g, (r - 1) / s, q);
      InBucket(t, s, g, (r - 1) / s, r);
    } else {
      assert false;
    }
  }

  lemma InBucket(t: nat, s: nat, g: nat, k: nat, q: nat)
    requires t > 0 && g > 0 && g == t * s && k * s < q <= k * s + s
    ensures CeilOfRatio(t * q, g) == k + 1
  {
    hide CeilOfRatio;
    ProductMonotone(k * s + 1, q, t);
    ProductMonotone(q, k * s + s, t);
    BucketEnds(t, s, k);
    CeilOfRatioIs(t * q, g, k + 1);
  }

  lemma BucketEnds(t: nat, s: nat, k: nat)
    ensures t * (k * s + 1) == k * (t * s) + t
    ensures t * (k * s + s) == (k + 1) * (t * s) == k * (t * s) + t * s
  {
    assert t * (k * s) == k * (t * s);
  }

  lemma {:induction false} SearchFindsMaximum(d: Device, l: Launch, target: nat, r: nat)
    requires Usable(d, l) && Searchable(d, l) && Exhaustive(d.threadsPerWarp, d.registerAllocGranularity)
    requires r <= d.registersPerThreadLimit
    requires forall q :: r < q <= d.registersPerThreadLimit ==> !Meets(d, l, target, q)
    ensures Search(d, l, target, r).Found?
    ensures IsMaximum(d, l, target, Search(d, l, target, r).registers)
    decreases r
  {
    UsableSearchable(d, l);
    if r > 0 && !Meets(d, l, target, r) {
      var s := RegStep(d);
      assert s > 0 by {
        QuotientPositive(d.registerAllocGranularity, d.threadsPerWarp);
      }
      var r' := RoundDown(r - 1, s);
      RoundDownIs(r - 1, s);
      forall q | r' < q <= d.registersPerThreadLimit ensures !Meets(d, l, target, q) {
        if q < r {
          SkippedShareBucket(d, r, q);
          OccupancyPerBucket(d, l, q, r);
        }
      }
      SearchFindsMaximum(d, l, target, r');
    }
  }

  /** For every device with these two parameters, every launch and every target. */
  ghost predicate AlwaysOptimal(threadsPerWarp: nat, granularity: nat) {
    forall d: Device, l: Launch, target: nat ::
      d.threadsPerWarp == threadsPerWarp && d.registerAllocGranularity == granularity && Usable(d, l)
      ==> SearchIsOptimal(d, l, target)
  }

  ghost predicate SearchIsOptimal(d: Device, l: Launch, target: nat)
    requires Usable(d, l)
  {
    UsableSearchable(d, l);
    var outcome := Search(d, l, target, ToInt(d.registersPerThreadLimit));
    outcome.Found? && IsMaximum(d, l, target, outcome.registers)
  }

  /** One block of one thread on a device where only registers limit the occupancy to 0 or 1. */
  function OneBlockDevice(threadsPerWarp: nat, granularity: nat, registers: nat, limit: nat): Device {
    Device(limit, threadsPerWarp, 1, granularity, registers, 0, 1, threadsPerWarp, 1)
  }

  const ONE_THREAD: Launch := Launch(ThreadDim(1, 1, 1), 0)
  const TWO_TO_30: nat := 0x4000_0000

  lemma OneBlockParts(d: Device)
    requires d == OneBlockDevice(d.threadsPerWarp, d.registerAllocGranularity,
                                 d.registersPerBlockLimit, d.registersPerThreadLimit)
    requires 0 < d.threadsPerWarp < TWO_TO_30 && 0 < d.registerAllocGranularity < TWO_TO_30
    ensures RoundUp(WarpsPerBlock(d, ONE_THREAD), d.warpAllocGranularity) == 1
    ensures ThreadsAllocated(d, ONE_THREAD) == d.threadsPerWarp && OtherLimits(d, ONE_THREAD) == 1
  {
    hide CeilOfRatio;
    CeilOfRatioIs(1, d.threadsPerWarp, 1);
    CeilOfRatioIs(1, 1, 1);
    CeilOfRatioIs(0, 1, 0);
    assert Wrap(Wrap(1 * 1) * 1) == 1;
    assert WarpsPerBlock(d, ONE_THREAD) == 1;
    DivideIs(d.threadsPerWarp, d.threadsPerWarp, 1);
  }

  lemma OneBlockUsable(t: nat, g: nat, registers: nat, limit: nat)
    requires 0 < t < TWO_TO_30 && 0 < g < TWO_TO_30 && limit <= g + 2 && registers < TWO_TO_64 - 1
    ensures Usable(OneBlockDevice(t, g, registers, limit), ONE_THREAD)
  {
    hide CeilOfRatio, RoundUp, ThreadsAllocated;
    var d := OneBlockDevice(t, g, registers, limit);
    OneBlockParts(d);
    ProductMonotone(limit, TWO_TO_30 + 1, t);
    ProductMonotone(t, TWO_TO_30, TWO_TO_30 + 1);
    CeilOfRatioIs(t * limit, g, CeilOfRatio(t * limit, g));
    QuotientAtMost(g, t);
  }

  /** There the target 1 is met exactly while the rounded registers fit. */
  lemma OneBlockMeets(t: nat, g: nat, k: nat, limit: nat, r: nat)
    requires 0 < t < TWO_TO_30 && 0 < g < TWO_TO_30 && limit <= g + 2 && k * g < TWO_TO_64 - 1
    requires 0 < r <= limit
    ensures var d := OneBlockDevice(t, g, k * g, limit);
      Divides(d, ONE_THREAD, r) && (Meets(d, ONE_THREAD, 1, r) <==> t * r <= k * g)
  {
    hide CeilOfRatio, RoundUp, ThreadsAllocated, RegsPerBlock, Usable, OtherLimits;
    var d := OneBlockDevice(t, g, k * g, limit);
    OneBlockUsable(t, g, k * g, limit);
    OneBlockParts(d);
    UsableSearchable(d, ONE_THREAD);
    RegsPerBlockExact(d, ONE_THREAD, r);
    OneBlockOccupancy(d, r);
    var c := CeilOfRatio(t * r, g);
    assert RegsPerBlock(d, ONE_THREAD, r) == c * g;
    CeilOfRatioIs(t * r, g, c);
    if c <= k {
      ProductMonotone(c, k, g);
      QuotientPositive(k * g, c * g);
    } else {
      MultiplesApart(c, k, g);
      DivideIs(k * g, c * g, 0);
    }
  }

  lemma OneBlockOccupancy(d: Device, r: nat)
    requires Usable(d, ONE_THREAD) && 0 < r <= d.registersPerThreadLimit && Divides(d, ONE_THREAD, r)
    requires OtherLimits(d, ONE_THREAD) == 1
    ensures Meets(d, ONE_THREAD, 1, r) <==> d.registersPerBlockLimit / RegsPerBlock(d, ONE_THREAD, r) > 0
  {
    hide RegsPerBlock, ThreadsAllocated, RoundUp, OtherLimits;
  }

  /** Granularity below the warp size: as soon as the first candidate fails, the step is zero. */
  lemma ZeroStepFails(t: nat, g: nat)
    requires 0 < g < t < TWO_TO_30
    ensures !AlwaysOptimal(t, g)
  {
    hide Usable, OneBlockDevice, Divides, CalculateOccupancy;
    var d := OneBlockDevice(t, g, 0 * g, 1);
    assert d.threadsPerWarp == t && d.registerAllocGranularity == g && d.registersPerThreadLimit == 1 by {
      OneBlockFields(t, g, 0 * g, 1);
    }
    OneBlockUsable(t, g, 0 * g, 1);
    OneBlockMeets(t, g, 0, 1, 1);
    UsableSearchable(d, ONE_THREAD);
    DivideIs(g, t, 0);
    assert Search(d, ONE_THREAD, 1, 1) == DivisionByZero;
    assert !SearchIsOptimal(d, ONE_THREAD, 1);
  }

  lemma OneBlockFields(t: nat, g: nat, registers: nat, limit: nat)
    ensures var d := OneBlockDevice(t, g, registers, limit);
      d.threadsPerWarp == t && d.registerAllocGranularity == g && d.registersPerThreadLimit == limit
  {
  }

  /** First bucket whose largest count is no multiple of the step. */
  lemma OddBucket(t: nat, g: nat) returns (k: nat)
    requires 0 < t && g / t >= 2 && g % t != 0
    ensures k <= t && k * (g / t) <= g
    ensures t * (k * (g / t) + 1) <= k * g < t * (k * (g / t) + 2)
  {
    var s, m := g / t, g % t;
    assert g == t * s + m;
    k := CeilOfRatio(t, m);
    CeilOfRatioIs(t, m, k);
    assert k <= t by {
      if k > t {
        MultiplesApart(k, t, m);
        ProductMonotone(1, m, t);
      }
    }
    ProductMonotone(k, t, s);
    assert k * g == t * (k * s) + k * m by {
      assert k * (t * s + m) == t * (k * s) + k * m;
    }
    assert t * (k * s + 1) == t * (k * s) + t;
    assert t * (k * s + 2) == t * (k * s) + 2 * t;
  }

  lemma SkippedBucketFails(t: nat, g: nat)
    requires 0 < t < TWO_TO_30 && g < TWO_TO_30 && g / t >= 2 && g % t != 0
    ensures !AlwaysOptimal(t, g)
  {
    hide Usable, OneBlockDevice, Divides, CalculateOccupancy, RoundDown;
    var s := g / t;
    var k := OddBucket(t, g);
    var best := k * s + 1;
    var d := OneBlockDevice(t, g, k * g, best + 1);
    OneBlockFields(t, g, k * g, best + 1);
    assert g > 0;
    ProductMonotone(k, TWO_TO_30, g);
    ProductMonotone(g, TWO_TO_30, TWO_TO_30);
    OneBlockUsable(t, g, k * g, best + 1);
    UsableSearchable(d, ONE_THREAD);
    OneBlockMeets(t, g, k, best + 1, best + 1);
    OneBlockMeets(t, g, k, best + 1, best);
    RoundDownIs(best, s);
    assert best / s == k by {
      DivideIs(best, s, k);
    }
    assert RoundDown(best, s) == k * s;
    var outcome := Search(d, ONE_THREAD, 1, best + 1);
    assert outcome == Search(d, ONE_THREAD, 1, k * s);
    SearchStaysBelow(d, ONE_THREAD, 1, k * s);
    assert !SearchIsOptimal(d, ONE_THREAD, 1);
  }

  lemma {:induction false} SearchStaysBelow(d: Device, l: Launch, target: nat, r: nat)
    requires Searchable(d, l) && r <= d.registersPerThreadLimit && r < TWO_TO_31
    ensures Search(d, l, target, r).Found? ==> Search(d, l, target, r).registers <= r
    decreases r
  {
    if r > 0 && !Meets(d, l, target, r) && RegStep(d) != 0 {
      RoundDownIs(r - 1, RegStep(d));
      SearchStaysBelow(d, l, target, RoundDown(r - 1, RegStep(d)));
    }
  }

  /**
   The stepped search returns the true maximum for every device, launch and target exactly
   when the register granularity is a multiple of the warp size, or less than twice it
   without being below it.
   */
  lemma OptimalExactlyWhenExhaustive(threadsPerWarp: nat, granularity: nat)
    requires 0 < threadsPerWarp < TWO_TO_30 && 0 < granularity < TWO_TO_30
    ensures AlwaysOptimal(threadsPerWarp, granularity) <==> Exhaustive(threadsPerWarp, granularity)
  {
    hide Usable, Search, IsMaximum;
    if Exhaustive(threadsPerWarp, granularity) {
      forall d: Device, l: Launch, target: nat |
        d.threadsPerWarp == threadsPerWarp && d.registerAllocGranularity == granularity && Usable(d, l)
        ensures SearchIsOptimal(d, l, target)
      {
        SearchIsOptimalWhenExhaustive(d, l, target);
      }
    } else if granularity < threadsPerWarp {
      ZeroStepFails(threadsPerWarp, granularity);
    } else {
      QuotientPositive(granularity, threadsPerWarp);
      SkippedBucketFails(threadsPerWarp, granularity);
    }
  }

  /** The direction callers rely on, without any bound on the parameters. */
  lemma SearchIsOptimalWhenExhaustive(d: Device, l: Launch, target: nat)
    requires Usable(d, l) && Exhaustive(d.threadsPerWarp, d.registerAllocGranularity)
    ensures SearchIsOptimal(d, l, target)
  {
    UsableSearchable(d, l);
    SearchFindsMaximum(d, l, target, d.registersPerThreadLimit);
  }

  /** In terms of what a block takes: the target fits with the count found, and with no larger one. */
  lemma LargestCountThatFits(d: Device, l: Launch, target: nat)
    requires Usable(d, l) && Exhaustive(d.threadsPerWarp, d.registerAllocGranularity) && target > 0
    requires Searchable(d, l)
    ensures var outcome := Search(d, l, target, ToInt(d.registersPerThreadLimit));
      && outcome.Found? && outcome.registers <= d.registersPerThreadLimit
      && (outcome.registers > 0 ==> forall b :: Takes(d, l, outcome.registers, b) ==> Fits(d, b, target))
      && forall r, b :: outcome.registers < r <= d.registersPerThreadLimit && Takes(d, l, r, b) ==> !Fits(d, b, target)
  {
    hide Usable, Search, Takes, Fits, CalculateOccupancy, Divides;
    SearchIsOptimalWhenExhaustive(d, l, target);
    var found := Search(d, l, target, ToInt(d.registersPerThreadLimit)).registers;
    forall r, b | 0 < r <= d.registersPerThreadLimit && Takes(d, l, r, b)
      ensures Meets(d, l, target, r) <==> Fits(d, b, target)
    {
      OccupancyIsLargestFit(d, l, r, b, target);
      UsableIsKnown(d, l);
    }
  }

  lemma UsableIsKnown(d: Device, l: Launch)
    requires Usable(d, l)
    ensures Known(d)
  {
  }
}

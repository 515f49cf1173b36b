/**
 * The two helpers of module_03/solutions/utils.py: `humanbytes`, which renders a
 * byte count in the largest decimal unit it reaches, and `memory_fit`, which says
 * whether a memory requirement fits the CPU RAM, the GPU RAM, or only both together.
 *
 * Byte counts are integers here. The rendered number itself (`'{0}'` or
 * `'{0:.2f}'` of a float) is not modelled: a reading records the exact quotient
 * and which of the two formats prints it.
 */
module ByteUnits {
  import opened Wrappers

  /** The units `humanbytes` chooses among, smallest first. */
  datatype Unit = Byte | KB | MB | GB | TB

  /** The step between units: decimal 1000, although the unit names suggest 1024. */
  const UnitStep: nat := 1000

  function Rank(u: Unit): nat {
    match u
    case Byte => 0
    case KB => 1
    case MB => 2
    case GB => 3
    case TB => 4
  }

  /** Bytes in one unit: `KB`, `KB ** 2`, `KB ** 3`, `KB ** 4`. */
  function Size(u: Unit): nat {
    match u
    case Byte => 1
    case KB => UnitStep
    case MB => UnitStep * UnitStep
    case GB => UnitStep * UnitStep * UnitStep
    case TB => UnitStep * UnitStep * UnitStep * UnitStep
  }

  /** `'{0}'` (the float as Python prints it) or `'{0:.2f}'` (two decimals). */
  datatype Precision = AsIs | TwoDecimals

  /** What `humanbytes` prints: `amount` in `precision`, a space, then `unitName`. */
  datatype Reading = Reading(amount: real, precision: Precision, unit: Unit, unitName: string)

  /**
   * The label of the raw-byte branch. The condition is Python's chained comparison
   * `0 == B > 1`, that is `0 == B and B > 1`.
   */
  function RawByteLabel(b: int): string {
    if 0 == b && b > 1 then "Bytes" else "Byte"
  }

  /**
   * The smallest integer magnitude that `float(B)` refuses with OverflowError:
   * 2^1024 - 2^970, halfway between the largest finite double and 2^1024, where
   * rounding to nearest-even goes up to infinity.
   */
  const FloatOverflow: int := 179769313486231580793728971405303415079934132710037826936173778980444968292764750946649017977587207096330286416692887910946555547851940402630657488671505820681908902000708383676273854845817711531764475730270069855571366959622842914819860834936475292719074168444365510704342711559699508093042880177904174497792

  /** `float(B)` succeeds: the count rounds to a finite double. */
  predicate FitsFloat(b: int) {
    -FloatOverflow < b < FloatOverflow
  }

  /**
   * `humanbytes(B)`: `None` when `float(B)` raises OverflowError, then the if/elif
   * chain of the source, in its order. The final `None` stands for falling off the
   * end of the chain (Python's implicit `None`).
   */
  function HumanBytes(b: int): (r: Option<Reading>)
  {
    var x := b as real;
    if !FitsFloat(b) then
      None
    else if x < Size(KB) as real then
      Some(Reading(x, AsIs, Byte, RawByteLabel(b)))
    else if Size(KB) as real <= x < Size(MB) as real then
      Some(Reading(x / Size(KB) as real, TwoDecimals, KB, "KB"))
    else if Size(MB) as real <= x < Size(GB) as real then
      Some(Reading(x / Size(MB) as real, TwoDecimals, MB, "MB"))
    else if Size(GB) as real <= x < Size(TB) as real then
      Some(Reading(x / Size(GB) as real, TwoDecimals, GB, "GB"))
    else if Size(TB) as real <= x then
      Some(Reading(x / Size(TB) as real, TwoDecimals, TB, "TB"))
    else
      None
  }

  /**
   * Independent description of the unit choice: `u` is the largest unit of which
   * `b` holds at least one whole unit (raw bytes when it holds none).
   */
  ghost predicate IsLargestUnitWithin(b: int, u: Unit) {
    (u == Byte || Size(u) <= b) && forall v :: Rank(u) < Rank(v) ==> b < Size(v)
  }

  /** At most one unit fits that description. */
  lemma LargestUnitUnique(b: int, u: Unit, v: Unit)
    requires IsLargestUnitWithin(b, u) && IsLargestUnitWithin(b, v)
    ensures u == v
  {
  }

  /**
   * A reading comes back exactly when `float(B)` succeeds, so the chain never falls
   * off its end; the unit is the largest one `b` reaches, the amount is `b`
   * divided by that unit's size, and only the raw-byte branch prints as-is.
   */
  lemma HumanBytesChoosesLargestUnit(b: int)
    ensures HumanBytes(b).Some? <==> FitsFloat(b)
    ensures FitsFloat(b) ==> IsLargestUnitWithin(b, HumanBytes(b).value.unit)
    ensures FitsFloat(b) ==> HumanBytes(b).value.amount == b as real / Size(HumanBytes(b).value.unit) as real
    ensures FitsFloat(b) ==> (HumanBytes(b).value.precision == AsIs <==> b < UnitStep)
  {
  }

  /**
   * The thresholds: `[1000^k, 1000^(k+1))` selects unit `k`, and everything from
   * 10^12 up to the float limit is TB.
   */
  lemma HumanBytesThresholds(b: int)
    requires FitsFloat(b)
    ensures b < 1000 <==> HumanBytes(b).value.unit == Byte
    ensures 1000 <= b < 1000000 <==> HumanBytes(b).value.unit == KB
    ensures 1000000 <= b < 1000000000 <==> HumanBytes(b).value.unit == MB
    ensures 1000000000 <= b < 1000000000000 <==> HumanBytes(b).value.unit == GB
    ensures 1000000000000 <= b <==> HumanBytes(b).value.unit == TB
  {
  }

  /** `0 == B > 1` can never hold, so the raw-byte label is always the singular "Byte". */
  lemma RawByteLabelAlwaysSingular(b: int)
    ensures FitsFloat(b) && b < UnitStep ==> HumanBytes(b).value.unitName == "Byte"
    ensures RawByteLabel(b) != "Bytes"
  {
  }

  /**
   * In the KB, MB and GB branches the printed amount lies in [1, 1000); in the TB
   * branch it is at least 1 with no upper bound.
   */
  lemma ScaledAmountBounds(b: int)
    requires FitsFloat(b)
    ensures var r := HumanBytes(b).value;
      r.unit in {KB, MB, GB} ==> 1.0 <= r.amount < 1000.0
    ensures var r := HumanBytes(b).value;
      r.unit == TB ==> 1.0 <= r.amount
  {
  }

  /**
   * Concrete readings: 0 and 500 bytes print as-is with "Byte"; 1500 and 1500000
   * scale to 1.5; a count at the float limit raises instead of printing.
   */
  lemma HumanBytesExamples()
    ensures HumanBytes(0) == Some(Reading(0.0, AsIs, Byte, "Byte"))
    ensures HumanBytes(500) == Some(Reading(500.0, AsIs, Byte, "Byte"))
    ensures HumanBytes(1500) == Some(Reading(1.5, TwoDecimals, KB, "KB"))
    ensures HumanBytes(1500000) == Some(Reading(1.5, TwoDecimals, MB, "MB"))
    ensures HumanBytes(FloatOverflow) == None && HumanBytes(FloatOverflow - 1).Some?
  {
  }

  /** A larger byte count never gets a smaller unit. */
  lemma UnitMonotone(b1: int, b2: int)
    requires b1 <= b2 && FitsFloat(b1) && FitsFloat(b2)
    ensures Rank(HumanBytes(b1).value.unit) <= Rank(HumanBytes(b2).value.unit)
  {
  }

  /** The three answers of `memory_fit`, from best to worst. */
  datatype Verdict = FitsEither | NeedsBoth | DoesNotFit

  /** The verdict of `memory_fit(req_memory, cpu_ram, gpu_ram)`. */
  function Classify(reqMemory: int, cpuRam: int, gpuRam: int): Verdict {
    if reqMemory <= cpuRam || reqMemory <= gpuRam then FitsEither
    else if reqMemory <= cpuRam + gpuRam then NeedsBoth
    else DoesNotFit
  }

  /** The message `memory_fit` returns for each verdict. */
  function Message(v: Verdict): string {
    match v
    case FitsEither => "Yes, fits either CPU or GPU"
    case NeedsBoth => "Yes, but fit needs both CPU and GPU"
    case DoesNotFit => "Nope, does not fit available memory"
  }

  /** `memory_fit(req_memory, cpu_ram, gpu_ram)` */
  function MemoryFit(reqMemory: int, cpuRam: int, gpuRam: int): (msg: string)
    ensures exists v :: msg == Message(v)
  {
    Message(Classify(reqMemory, cpuRam, gpuRam))
  }

  /** Each message names exactly one verdict. */
  lemma MessagesDistinct(v: Verdict, w: Verdict)
    ensures Message(v) == Message(w) ==> v == w
  {
  }

  function Severity(v: Verdict): nat {
    match v
    case FitsEither => 0
    case NeedsBoth => 1
    case DoesNotFit => 2
  }

  /**
   * With non-negative capacities the verdicts nest: the requirement fits somewhere
   * exactly when it fits the combined memory, and it needs both exactly when it
   * fits the combined memory but neither device alone.
   */
  lemma MemoryFitNested(reqMemory: int, cpuRam: int, gpuRam: int)
    requires 0 <= cpuRam && 0 <= gpuRam
    ensures Classify(reqMemory, cpuRam, gpuRam) != DoesNotFit <==> reqMemory <= cpuRam + gpuRam
    ensures Classify(reqMemory, cpuRam, gpuRam) == NeedsBoth
        <==> cpuRam < reqMemory && gpuRam < reqMemory && reqMemory <= cpuRam + gpuRam
  {
  }

  /** More CPU or GPU memory never makes the verdict worse. */
  lemma MemoryFitMonotone(reqMemory: int, cpuRam: int, gpuRam: int, cpuRam': int, gpuRam': int)
    requires cpuRam <= cpuRam' && gpuRam <= gpuRam'
    ensures Severity(Classify(reqMemory, cpuRam', gpuRam')) <= Severity(Classify(reqMemory, cpuRam, gpuRam))
  {
  }

  lemma MemoryFitExamples()
    ensures MemoryFit(8, 16, 0) == "Yes, fits either CPU or GPU"
    ensures MemoryFit(20, 16, 8) == "Yes, but fit needs both CPU and GPU"
    ensures MemoryFit(30, 16, 8) == "Nope, does not fit available memory"
  {
  }

  /** A larger requirement never gets a better verdict. */
  lemma MemoryFitAntitoneInRequirement(req: int, req': int, cpuRam: int, gpuRam: int)
    requires req <= req'
    ensures Severity(Classify(req, cpuRam, gpuRam)) <= Severity(Classify(req', cpuRam, gpuRam))
  {
  }
}

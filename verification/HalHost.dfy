/** The platform layer of the host build (src/hal_host.c): the time base derived from the minor
    cycle counter, the thermistor and the heater line. */
module HalHost {
  import opened Arithmetic
  import opened Octets
  import opened Telemetry

  const TWO32: int := 0x1_0000_0000
  const TWO48: int := 0x1_0000_0000_0000
  const POWER_ON_DC: i16 := 200

  /** The statics of the file, as a value. */
  datatype Board = Board(ticks: u32, epoch: Cuc, sensor: i16, heater: bool)
  {
    function Advance(): Board {
      this.(ticks := (ticks + 1) % TWO32)
    }

    /** Thirty-two bit milliseconds since power-on. */
    function ElapsedMs(): u32 {
      ticks * 100 % TWO32
    }

    /** The elapsed part of the current second in units of 1/65536 s. */
    function Fraction(): u16 {
      ElapsedMs() % 1000 * 65536 / 1000
    }

    function Now(): Cuc {
      var totalFine := epoch.fine as int + Fraction();
      Cuc((epoch.coarse + ElapsedMs() / 1000 + totalFine / 65536) % TWO32, totalFine % 65536)
    }

    /** `hal_set_cuc_time`: two subtractions, each wrapping on its own. */
    function SetTime(time: Cuc): Board {
      this.(epoch := Cuc((time.coarse - ElapsedMs() / 1000) % TWO32, (time.fine - Fraction()) % 65536))
    }

    /** The same with the borrow of the fine subtraction taken from the seconds. */
    function SetTimeBorrowing(time: Cuc): Board {
      var borrow := if time.fine < Fraction() then 1 else 0;
      this.(epoch := Cuc((time.coarse - ElapsedMs() / 1000 - borrow) % TWO32, (time.fine - Fraction()) % 65536))
    }
  }

  const PowerOn: Board := Board(0, Cuc(0, 0), POWER_ON_DC, false)

  /** The last tick count whose milliseconds fit thirty-two bits. */
  const LAST_TICK: nat := 42949672

  /** A time as a single count of 1/65536 s. */
  function Units(time: Cuc): (u: int)
    ensures 0 <= u < TWO48
  {
    (time.coarse as int) * 65536 + time.fine
  }

  /** The units elapsed after n ticks of a tenth of a second. */
  function TickUnits(n: nat): nat {
    n * 100 * 65536 / 1000
  }

  /** The file itself. */
  class Hal {
    var ticks: u32
    var epochCoarse: u32
    var epochFine: u16
    var temperature: i16
    var heaterOn: bool

    ghost function Model(): Board
      reads this
    {
      Board(ticks, Cuc(epochCoarse, epochFine), temperature, heaterOn)
    }

    constructor ()
      ensures Model() == PowerOn
    {
      ticks, epochCoarse, epochFine, temperature, heaterOn := 0, 0, 0, POWER_ON_DC, false;
    }

    method TimeInit()
      modifies this
      ensures Model() == PowerOn
    {
      ticks := 0;
      epochCoarse := 0;
      epochFine := 0;
      temperature := POWER_ON_DC;
      heaterOn := false;
    }

    method TimeAdvance()
      modifies this
      ensures Model() == old(Model()).Advance()
    {
      ticks := (ticks + 1) % TWO32;
    }

    method GetCucTime() returns (coarse: u32, fine: u16)
      ensures Cuc(coarse, fine) == Model().Now()
    {
      var elapsedMs := ticks * 100 % TWO32;
      var totalFine := epochFine as int + elapsedMs % 1000 * 65536 / 1000;
      coarse := (epochCoarse + elapsedMs / 1000 + totalFine / 65536) % TWO32;
      fine := totalFine % 65536;
    }

    method SetCucTime(coarse: u32, fine: u16)
      modifies this
      ensures Model() == old(Model()).SetTime(Cuc(coarse, fine))
    {
      var elapsedMs := ticks * 100 % TWO32;
      epochCoarse := (coarse - elapsedMs / 1000) % TWO32;
      epochFine := (fine - elapsedMs % 1000 * 65536 / 1000) % 65536;
    }

    method InjectTemperature(value: i16)
      modifies this
      ensures Model() == old(Model()).(sensor := value)
    {
      temperature := value;
    }

    method SetHeater(on: bool)
      modifies this
      ensures Model() == old(Model()).(heater := on)
    {
      heaterOn := on;
    }
  }

  // ---- Setting the time ----

  /** Reporting with `extra` whole seconds when setting took `taken` off the seconds. */
  lemma SubtractThenAdd(coarse: int, elapsed: int, taken: int, extra: int)
    ensures ((coarse - elapsed - taken) % TWO32 + elapsed + extra) % TWO32 == (coarse + extra - taken) % TWO32
  {
    ReducedSum(coarse - elapsed - taken, elapsed + extra, TWO32);
  }

  /** The fine subtraction borrows one second exactly when the fraction exceeds the commanded fine
      part; the addition carries it back. */
  lemma FineParts(fine: int, f: int)
    requires 0 <= fine < 65536 && 0 <= f < 65536
    ensures var e := (fine - f) % 65536;
      (e + f) / 65536 == (if fine < f then 1 else 0) && (e + f) % 65536 == fine
  {
    var borrow := if fine < f then 1 else 0;
    Euclid(-borrow, fine - f + 65536 * borrow, 65536);
    Euclid(borrow, fine, 65536);
  }

  /** The commanded time reads back exactly when the fine subtraction needs no borrow; otherwise
      the unit reports one second more than it was told. */
  lemma SetTimeReadBack(b: Board, time: Cuc)
    ensures b.SetTime(time).Now() == time <==> time.fine >= b.Fraction()
    ensures time.fine < b.Fraction() ==> b.SetTime(time).Now() == Cuc((time.coarse + 1) % TWO32, time.fine)
  {
    SameElapsed(b, b.SetTime(time).epoch);
    FineParts(time.fine, b.Fraction());
    SubtractThenAdd(time.coarse, b.ElapsedMs() / 1000, 0, 0);
    SubtractThenAdd(time.coarse, b.ElapsedMs() / 1000, 0, 1);
    Euclid(0, time.coarse, TWO32);
    NextDiffers(time.coarse);
    hide Board.ElapsedMs, Board.Fraction;
  }

  lemma SameElapsed(b: Board, epoch: Cuc)
    ensures b.(epoch := epoch).ElapsedMs() == b.ElapsedMs() && b.(epoch := epoch).Fraction() == b.Fraction()
  {
  }

  lemma NextDiffers(c: u32)
    ensures (c + 1) % TWO32 != c
  {
    if c + 1 < TWO32 {
      Euclid(0, c + 1, TWO32);
    } else {
      Euclid(1, 0, TWO32);
    }
  }

  /** One tick after power-on, one second and no fraction are commanded: two seconds are reported. */
  lemma SetTimeMissesIntent()
    ensures var b := PowerOn.Advance(); b.SetTime(Cuc(1, 0)).Now() == Cuc(2, 0)
  {
    SetTimeReadBack(PowerOn.Advance(), Cuc(1, 0));
  }

  /** With the borrow propagated every commanded time reads back. */
  lemma BorrowingMeetsIntent(b: Board, time: Cuc)
    ensures b.SetTimeBorrowing(time).Now() == time
  {
    var borrow := if time.fine < b.Fraction() then 1 else 0;
    SameElapsed(b, b.SetTimeBorrowing(time).epoch);
    FineParts(time.fine, b.Fraction());
    SubtractThenAdd(time.coarse, b.ElapsedMs() / 1000, borrow, borrow);
    Euclid(0, time.coarse, TWO32);
    hide Board.ElapsedMs, Board.Fraction;
  }

  // ---- Time does not drift ----

  lemma SecondsAndFraction(ms: nat)
    ensures ms / 1000 * 65536 + ms % 1000 * 65536 / 1000 == ms * 65536 / 1000
  {
    var s, r := ms / 1000, ms % 1000;
    var part := r * 65536;
    Euclid(s * 65536 + part / 1000, part % 1000, 1000);
  }

  lemma UnitsOfNow(b: Board)
    ensures Units(b.Now()) == (Units(b.epoch) + b.ElapsedMs() * 65536 / 1000) % TWO48
  {
    var ms: int := b.ElapsedMs();
    SecondsAndFraction(ms);
    var total := b.epoch.fine as int + b.Fraction();
    var seconds := b.epoch.coarse as int + ms / 1000 + total / 65536;
    WholeAndPart(seconds, total % 65536);
    hide Board.ElapsedMs;
    assert Units(b.epoch) + ms * 65536 / 1000 == seconds * 65536 + total % 65536;
  }

  lemma WholeAndPart(seconds: nat, part: nat)
    requires part < 65536
    ensures (seconds * 65536 + part) % TWO48 == seconds % TWO32 * 65536 + part
  {
    var q, r := seconds / TWO32, seconds % TWO32;
    Euclid(q, r * 65536 + part, TWO48);
  }

  /** The reported time is the epoch plus the elapsed time, rounded down once, exactly as long as
      the millisecond counter has not wrapped. */
  lemma DriftFreeExactly(b: Board)
    ensures Units(b.Now()) == (Units(b.epoch) + TickUnits(b.ticks)) % TWO48 <==> b.ticks <= LAST_TICK
  {
    UnitsOfNow(b);
    var totalMs := b.ticks * 100;
    var ms: int := b.ElapsedMs();
    var wraps := totalMs / TWO32;
    assert totalMs == wraps * TWO32 + ms;
    assert wraps == 0 <==> b.ticks <= LAST_TICK;
    var lost := TickUnits(b.ticks) - ms * 65536 / 1000;
    if wraps > 0 {
      assert 0 < wraps < 100;
      LostUnits(ms, wraps);
      ShiftedModulus(Units(b.epoch) + ms * 65536 / 1000, lost);
    }
  }

  lemma LostUnits(ms: nat, wraps: nat)
    requires 0 < wraps < 100
    ensures 0 < (wraps * TWO32 + ms) * 65536 / 1000 - ms * 65536 / 1000 < TWO48
  {
    var a := ms * 65536;
    assert (wraps * TWO32 + ms) * 65536 == wraps * TWO48 + a;
    assert a == a / 1000 * 1000 + a % 1000;
  }

  lemma ShiftedModulus(a: nat, d: nat)
    requires 0 < d < TWO48
    ensures a % TWO48 != (a + d) % TWO48
  {
    DifferenceModulus(a, d);
    Euclid(0, 0, TWO48);
  }

  lemma TickUnitsStep(n: nat)
    ensures TickUnits(n + 1) == TickUnits(n) + 6553 || TickUnits(n + 1) == TickUnits(n) + 6554
    ensures TickUnits(n + 10) == TickUnits(n) + 65536
  {
  }

  lemma AdvanceTicks(b: Board)
    requires b.ticks < LAST_TICK
    ensures b.Advance() == b.(ticks := b.ticks + 1)
  {
  }

  /** Every tick advances the reported time by 6553 or 6554 units. */
  lemma TickAdvances(b: Board)
    requires b.ticks < LAST_TICK
    ensures var d := (Units(b.Advance().Now()) - Units(b.Now())) % TWO48; d == 6553 || d == 6554
  {
    hide TickUnits, Units, Board.Now;
    AdvanceTicks(b);
    DriftFreeExactly(b);
    DriftFreeExactly(b.Advance());
    TickUnitsStep(b.ticks);
    DifferenceModulus(Units(b.epoch) + TickUnits(b.ticks), TickUnits(b.ticks + 1) - TickUnits(b.ticks));
  }

  lemma DifferenceModulus(a: nat, d: nat)
    requires d < TWO48
    ensures ((a + d) % TWO48 - a % TWO48) % TWO48 == d
  {
    var q, p := a / TWO48, (a + d) / TWO48;
    assert (a + d) % TWO48 - a % TWO48 == d - TWO48 * (p - q);
    Shifted(d, p - q, TWO48);
    Euclid(0, d, TWO48);
  }

  function AdvanceBy(b: Board, n: nat): Board
    decreases n
  {
    if n == 0 then b else AdvanceBy(b.Advance(), n - 1)
  }

  lemma {:induction false} TicksAdd(b: Board, n: nat)
    requires b.ticks + n < TWO32
    ensures AdvanceBy(b, n) == b.(ticks := b.ticks + n)
    decreases n
  {
    if n > 0 {
      TicksAdd(b.Advance(), n - 1);
    }
  }

  /** Any ten ticks, whatever their phase, advance it by exactly one second. */
  lemma TenTicksAreOneSecond(b: Board)
    requires b.ticks + 10 <= LAST_TICK
    ensures (Units(AdvanceBy(b, 10).Now()) - Units(b.Now())) % TWO48 == 65536
  {
    hide TickUnits, Units, AdvanceBy, Board.Now;
    TicksAdd(b, 10);
    DriftFreeExactly(b);
    DriftFreeExactly(AdvanceBy(b, 10));
    TickUnitsStep(b.ticks);
    DifferenceModulus(Units(b.epoch) + TickUnits(b.ticks), 65536);
  }
}

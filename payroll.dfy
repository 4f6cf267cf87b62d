/**
 * The salary arithmetic of the browser application: the net salary of a
 * month computed from attendance, overtime, bonuses and deductions, and the
 * month names used to label records.
 */
module Payroll {
  import opened Wrappers
  import opened EmsTypes

  // The values the calculator actually uses: JavaScript `field || default`.

  function BasicOf(r: SalaryInput): real { NumOr(r.basicSalary, 0.0) }
  function PresentOf(r: SalaryInput): int { IntOr(r.presentDays, 0) }
  function HalfOf(r: SalaryInput): int { IntOr(r.halfDays, 0) }
  function OvertimeOf(r: SalaryInput): int { IntOr(r.overtimeHours, 0) }
  function BonusesOf(r: SalaryInput): real { NumOr(r.bonuses, 0.0) }
  function DeductionsOf(r: SalaryInput): real { NumOr(r.deductions, 0.0) }

  /** The working-day divisor: a missing or zero count is read as 1. */
  function WorkingDaysOf(r: SalaryInput): (d: int)
    ensures d != 0
    ensures r.totalWorkingDays.Some? && r.totalWorkingDays.value != 0 ==> d == r.totalWorkingDays.value
    ensures r.totalWorkingDays.None? || r.totalWorkingDays.value == 0 ==> d == 1
  {
    IntOr(r.totalWorkingDays, 1)
  }

  /** Salary per working day. */
  function DailyRate(r: SalaryInput): real {
    BasicOf(r) / WorkingDaysOf(r) as real
  }

  /**
   * Pay for time worked: full days at the daily rate, half days at half of
   * it, and overtime hours at one and a half times the hourly rate (the
   * daily rate over 8).
   */
  function Earned(r: SalaryInput): real {
    var rate := DailyRate(r);
    var attendance := PresentOf(r) as real * rate + HalfOf(r) as real * rate * 0.5;
    var overtimePay := OvertimeOf(r) as real * (rate / 8.0) * 1.5;
    attendance + overtimePay
  }

  /** Pay before deductions: the pay for time worked and the bonuses. */
  function GrossPay(r: SalaryInput): real {
    Earned(r) + BonusesOf(r)
  }

  /**
   * `calculateNetSalary`: gross pay minus deductions, never below zero.
   * When the deductions fit in the gross pay the result and the deductions
   * add back up to it exactly; otherwise the result is 0.
   */
  function CalculateNetSalary(r: SalaryInput): (net: real)
    ensures net >= 0.0
    ensures DeductionsOf(r) <= GrossPay(r) ==> net + DeductionsOf(r) == GrossPay(r)
    ensures DeductionsOf(r) > GrossPay(r) ==> net == 0.0
  {
    var net := GrossPay(r) - DeductionsOf(r);
    if net > 0.0 then net else 0.0
  }

  /**
   * The calculator against a closed formula: with D working days and basic
   * salary B, the result is max(0, (B/D)·(present + half/2 + 3·overtime/16)
   * + bonuses − deductions).
   */
  lemma NetSalaryFormula(r: SalaryInput)
    ensures var rate := BasicOf(r) / WorkingDaysOf(r) as real;
            var v := rate * (PresentOf(r) as real + HalfOf(r) as real / 2.0 + 3.0 * OvertimeOf(r) as real / 16.0)
                     + BonusesOf(r) - DeductionsOf(r);
            CalculateNetSalary(r) == if v > 0.0 then v else 0.0
  {
    EarnedFormula(r);
  }

  lemma EarnedFormula(r: SalaryInput)
    ensures Earned(r) == DailyRate(r) * (PresentOf(r) as real + HalfOf(r) as real / 2.0 + 3.0 * OvertimeOf(r) as real / 16.0)
  {
    ScaledSum(DailyRate(r), PresentOf(r) as real, HalfOf(r) as real, OvertimeOf(r) as real);
  }

  lemma ScaledSum(rate: real, p: real, h: real, o: real)
    ensures p * rate + h * rate * 0.5 + o * (rate / 8.0) * 1.5 == rate * (p + h / 2.0 + 3.0 * o / 16.0)
  {
  }

  /** Raising the bonuses never lowers the net salary. */
  lemma BonusesMonotone(r: SalaryInput, lo: real, hi: real)
    requires lo <= hi
    ensures CalculateNetSalary(r.(bonuses := Some(lo))) <= CalculateNetSalary(r.(bonuses := Some(hi)))
  {
    var a, b := r.(bonuses := Some(lo)), r.(bonuses := Some(hi));
    assert DailyRate(a) == DailyRate(b);
    assert Earned(a) == Earned(b);
    assert BonusesOf(a) <= BonusesOf(b);
  }

  /** Raising the deductions never raises the net salary. */
  lemma DeductionsAntitone(r: SalaryInput, lo: real, hi: real)
    requires lo <= hi
    ensures CalculateNetSalary(r.(deductions := Some(hi))) <= CalculateNetSalary(r.(deductions := Some(lo)))
  {
    var a, b := r.(deductions := Some(lo)), r.(deductions := Some(hi));
    assert DailyRate(a) == DailyRate(b);
    assert GrossPay(a) == GrossPay(b);
    assert DeductionsOf(a) <= DeductionsOf(b);
  }

  /** A record with nothing filled in earns nothing. */
  lemma EmptyInputEarnsNothing()
    ensures CalculateNetSalary(SalaryInput(None, None, None, None, None, None, None)) == 0.0
  {
  }

  /** Omitting the working days and entering 0 are the same as entering 1. */
  lemma MissingDaysIsOne(r: SalaryInput)
    ensures CalculateNetSalary(r.(totalWorkingDays := None)) == CalculateNetSalary(r.(totalWorkingDays := Some(1)))
    ensures CalculateNetSalary(r.(totalWorkingDays := Some(0))) == CalculateNetSalary(r.(totalWorkingDays := Some(1)))
  {
    var a, b, c := r.(totalWorkingDays := None), r.(totalWorkingDays := Some(0)), r.(totalWorkingDays := Some(1));
    assert DailyRate(a) == DailyRate(c) && DailyRate(b) == DailyRate(c);
    assert GrossPay(a) == GrossPay(c) && GrossPay(b) == GrossPay(c);
  }

  /** Worked example: 22 000 over 22 days, all present, nothing else. */
  lemma FullMonthExample()
    ensures CalculateNetSalary(SalaryInput(Some(22000.0), Some(22), Some(22), None, None, None, None)) == 22000.0
  {
    assert DailyRate(SalaryInput(Some(22000.0), Some(22), Some(22), None, None, None, None)) == 1000.0;
  }

  /** Worked example: 20 present days, 2 half days, 3 overtime hours, bonus 500, deduction 1000. */
  lemma MixedMonthExample()
    ensures CalculateNetSalary(SalaryInput(Some(22000.0), Some(22), Some(20), Some(2), Some(3), Some(500.0), Some(1000.0))) == 21062.5
  {
    assert DailyRate(SalaryInput(Some(22000.0), Some(22), Some(20), Some(2), Some(3), Some(500.0), Some(1000.0))) == 1000.0;
  }

  /** Worked example: deductions larger than the pay floor the result at 0. */
  lemma OverDeductedExample()
    ensures CalculateNetSalary(SalaryInput(Some(1000.0), Some(10), Some(1), None, None, None, Some(500.0))) == 0.0
  {
    assert DailyRate(SalaryInput(Some(1000.0), Some(10), Some(1), None, None, None, Some(500.0))) == 100.0;
  }

  /** Worked example: a negative present-day count is used as it is and takes pay away. */
  lemma NegativeDaysExample()
    ensures CalculateNetSalary(SalaryInput(Some(22000.0), Some(22), Some(-5), None, None, Some(10000.0), None)) == 5000.0
  {
    assert DailyRate(SalaryInput(Some(22000.0), Some(22), Some(-5), None, None, Some(10000.0), None)) == 1000.0;
  }

  // ---------------------------------------------------------------------
  // month names
  // ---------------------------------------------------------------------

  const Months: seq<string> := ["January", "February", "March", "April", "May", "June",
    "July", "August", "September", "October", "November", "December"]

  /**
   * `getMonthName`: the English name of a zero-based month index; outside
   * 0..11 the array lookup yields `undefined`, modelled as `None`.
   */
  function GetMonthName(i: int): (r: Option<string>)
    ensures r.Some? <==> 0 <= i < 12
    ensures 0 <= i < 12 ==> r == Some(Months[i])
  {
    if 0 <= i < |Months| then Some(Months[i]) else None
  }

  /** The names are distinct, so a month name determines its index. */
  lemma MonthNameInjective(i: int, j: int)
    requires GetMonthName(i).Some? && GetMonthName(i) == GetMonthName(j)
    ensures i == j
  {
  }

  lemma MonthNameEnds()
    ensures GetMonthName(0) == Some("January") && GetMonthName(11) == Some("December")
  {
  }
}

/** The payroll page: the payout run's stage and the stepper, the approve
    and disburse buttons, the saved stage restored on load, a row's badge,
    and the signed-in employee's pay from their salary structure. */
module PayrollPage {
  import opened Common
  import HrTypes

  /** The five stages, in the order the enum declares them. */
  datatype PayrollStatus = Draft | Verification | FinanceReview | Approved | Disbursed

  function StageName(s: PayrollStatus): string
  {
    match s
    case Draft => "Draft"
    case Verification => "Verification"
    case FinanceReview => "Finance Review"
    case Approved => "Approved"
    case Disbursed => "Disbursed"
  }

  /** The stage's place in `Object.values(PayrollStatus)`. */
  function StageIndex(s: PayrollStatus): (i: nat)
    ensures i < 5
  {
    match s
    case Draft => 0
    case Verification => 1
    case FinanceReview => 2
    case Approved => 3
    case Disbursed => 4
  }

  /** The stage at a place of the stepper. */
  function StageAt(i: nat): (s: PayrollStatus)
    requires i < 5
    ensures StageIndex(s) == i
  {
    if i == 0 then Draft
    else if i == 1 then Verification
    else if i == 2 then FinanceReview
    else if i == 3 then Approved
    else Disbursed
  }

  lemma StageAtIndex(s: PayrollStatus)
    ensures StageAt(StageIndex(s)) == s
  {
  }

  /** The run's status as the page holds it: a stage, or whatever string
      was restored from storage when it names none. */
  datatype RunStatus = Stage(stage: PayrollStatus) | Unrecognised(text: string)

  /** The run starts in finance review. */
  const INITIAL := Stage(FinanceReview)

  /** The restore on load: a non-empty saved string replaces the initial
      status, whether or not it names a stage. */
  function Restore(saved: Option<string>): (r: RunStatus)
    ensures saved.None? || saved == Some("") ==> r == INITIAL
    ensures r.Stage? && saved.Some? && saved.value != "" ==> StageName(r.stage) == saved.value
    ensures r.Unrecognised? ==> saved.Some? && forall s :: StageName(s) != saved.value
  {
    if saved.None? || saved.value == "" then INITIAL
    else if saved.value == "Draft" then Stage(Draft)
    else if saved.value == "Verification" then Stage(Verification)
    else if saved.value == "Finance Review" then Stage(FinanceReview)
    else if saved.value == "Approved" then Stage(Approved)
    else if saved.value == "Disbursed" then Stage(Disbursed)
    else Unrecognised(saved.value)
  }

  /** The restore gives back every stage it saved. */
  lemma RestoreSaved(s: PayrollStatus)
    ensures Restore(Some(StageName(s))) == Stage(s)
  {
  }

  /** `statusOrder.indexOf(runStatus)`: -1 when the status names no
      stage. */
  function CurrentIndex(run: RunStatus): (i: int)
    ensures -1 <= i < 5
    ensures i == -1 <==> run.Unrecognised?
  {
    match run
    case Stage(s) => StageIndex(s)
    case Unrecognised(_) => -1
  }

  /** The stepper shows step `idx` as done, or as the current one. */
  predicate IsCompleted(run: RunStatus, idx: nat) { idx < CurrentIndex(run) }

  predicate IsCurrent(run: RunStatus, idx: nat)
    requires idx < 5
  {
    run == Stage(StageAt(idx))
  }

  /** A recognised status has exactly one current step, its own; the steps
      before it are done and the ones after are not. */
  lemma OneCurrentStep(run: RunStatus, idx: nat)
    requires idx < 5
    ensures IsCurrent(run, idx) <==> run.Stage? && idx == CurrentIndex(run)
    ensures IsCurrent(run, idx) ==> !IsCompleted(run, idx)
  {
    if run.Stage? {
      StageAtIndex(run.stage);
    }
  }

  /** Clicking step `idx` moves there when it is no further than one past
      the current step; otherwise nothing happens. */
  function Click(run: RunStatus, idx: nat): (r: RunStatus)
    requires idx < 5
    ensures idx <= CurrentIndex(run) + 1 ==> r == Stage(StageAt(idx))
    ensures idx > CurrentIndex(run) + 1 ==> r == run
    ensures CurrentIndex(r) <= CurrentIndex(run) + 1
  {
    if idx <= CurrentIndex(run) + 1 then Stage(StageAt(idx)) else run
  }

  /** Every earlier step can be clicked back to. */
  lemma ClickBack(run: RunStatus, idx: nat)
    requires idx < 5 && idx <= CurrentIndex(run)
    ensures CurrentIndex(Click(run, idx)) == idx
  {
  }

  /** From a status that names no stage only the first step responds. */
  lemma UnrecognisedOnlyDraft(text: string, idx: nat)
    requires idx < 5
    ensures Click(Unrecognised(text), idx) == if idx == 0 then Stage(Draft) else Unrecognised(text)
  {
  }

  /** A run of clicks on the stepper, first click first: the run ends where
      it started or on a stage that was clicked. */
  function ClickAll(run: RunStatus, clicks: seq<nat>): (r: RunStatus)
    requires forall k :: 0 <= k < |clicks| ==> clicks[k] < 5
    ensures r == run || exists k :: 0 <= k < |clicks| && r == Stage(StageAt(clicks[k]))
    decreases |clicks|
  {
    if clicks == [] then run
    else
      var r := ClickAll(Click(run, clicks[0]), clicks[1..]);
      assert r != Click(run, clicks[0]) ==> exists k :: 1 <= k < |clicks| && r == Stage(StageAt(clicks[k])) by {
        if r != Click(run, clicks[0]) {
          var k :| 0 <= k < |clicks[1..]| && r == Stage(StageAt(clicks[1..][k]));
          assert clicks[1..][k] == clicks[k + 1];
        }
      }
      r
  }

  /** Clicking never skips a stage: after any clicks the run is at most as
      many stages ahead as there were clicks. */
  lemma {:induction false} ClicksAdvanceOneAtATime(run: RunStatus, clicks: seq<nat>)
    requires forall k :: 0 <= k < |clicks| ==> clicks[k] < 5
    ensures CurrentIndex(ClickAll(run, clicks)) <= CurrentIndex(run) + |clicks|
    decreases |clicks|
  {
    if clicks != [] {
      ClicksAdvanceOneAtATime(Click(run, clicks[0]), clicks[1..]);
    }
  }

  /** Four clicks walk a fresh draft to the end. */
  lemma DraftToDisbursed()
    ensures ClickAll(Stage(Draft), [1, 2, 3, 4]) == Stage(Disbursed)
  {
    assert [1, 2, 3, 4][1..] == [2, 3, 4];
    assert [2, 3, 4][1..] == [3, 4];
    assert [3, 4][1..] == [4];
  }

  /** The approve button is shown only in finance review and the disburse
      button only once approved. */
  predicate CanApprove(run: RunStatus) { run == Stage(FinanceReview) }

  predicate CanDisburse(run: RunStatus) { run == Stage(Approved) }

  /** Pressing a button that is not shown is impossible; modelled as no
      change. */
  function Approve(run: RunStatus): (r: RunStatus)
    ensures CanApprove(run) ==> r == Stage(Approved)
    ensures !CanApprove(run) ==> r == run
  {
    if CanApprove(run) then Stage(Approved) else run
  }

  function Disburse(run: RunStatus): (r: RunStatus)
    ensures CanDisburse(run) ==> r == Stage(Disbursed)
    ensures !CanDisburse(run) ==> r == run
  {
    if CanDisburse(run) then Stage(Disbursed) else run
  }

  /** The buttons take the initial run to the end, approval first; in the
      other order nothing happens at the first press. */
  lemma ButtonsInOrder()
    ensures Disburse(Approve(INITIAL)) == Stage(Disbursed)
    ensures Disburse(INITIAL) == INITIAL
    ensures Approve(Disburse(INITIAL)) == Stage(Approved)
  {
  }

  /** The buttons move forward exactly one stage, or not at all. */
  lemma ButtonsStepOne(run: RunStatus)
    ensures CurrentIndex(Approve(run)) == CurrentIndex(run) ||
            CurrentIndex(Approve(run)) == CurrentIndex(run) + 1
    ensures CurrentIndex(Disburse(run)) == CurrentIndex(run) ||
            CurrentIndex(Disburse(run)) == CurrentIndex(run) + 1
    ensures !CanApprove(Disburse(run)) || run == INITIAL
  {
  }

  /** The restored status after a button press is the new one. */
  lemma ButtonPersists(run: RunStatus)
    requires CanApprove(run) || CanDisburse(run)
    ensures var next := if CanApprove(run) then Approve(run) else Disburse(run);
      Restore(Some(StageName(next.stage))) == next
  {
  }

  /** Each row's badge. */
  function RowBadge(run: RunStatus): (s: string)
    ensures s == "Paid" <==> run == Stage(Disbursed)
    ensures s == "Ready" <==> run != Stage(Disbursed)
  {
    if run == Stage(Disbursed) then "Paid" else "Ready"
  }

  /** A missing salary structure counts as all zeros. */
  function StructureOrZero(s: Option<HrTypes.SalaryStructure>): HrTypes.SalaryStructure
  {
    if s.Some? then s.value else HrTypes.SalaryStructure(0, 0, 0, 0, 0, 0)
  }

  function Earnings(s: Option<HrTypes.SalaryStructure>): (r: int)
    ensures s.None? ==> r == 0
    ensures s.Some? ==> r == s.value.basic + s.value.hra + s.value.specialAllowance
  {
    var t := StructureOrZero(s);
    t.basic + t.hra + t.specialAllowance
  }

  function Deductions(s: Option<HrTypes.SalaryStructure>): (r: int)
    ensures s.None? ==> r == 0
    ensures s.Some? ==> r == s.value.pf + s.value.tds + s.value.professionalTax
  {
    var t := StructureOrZero(s);
    t.pf + t.tds + t.professionalTax
  }

  /** Net pay: earnings less deductions. */
  function NetPay(s: Option<HrTypes.SalaryStructure>): (r: int)
    ensures r + Deductions(s) == Earnings(s)
    ensures s.None? ==> r == 0
  {
    Earnings(s) - Deductions(s)
  }

  /** Raising one earning raises net pay by the same amount. */
  lemma NetPayMonotone(s: HrTypes.SalaryStructure, extra: nat)
    ensures NetPay(Some(s.(basic := s.basic + extra))) == NetPay(Some(s)) + extra
  {
  }

  /** The fixture administrator's structure: 200000 earned, 37200
      deducted, 162800 net. */
  lemma PriyaPay()
    ensures var s := HrTypes.MOCK_EMPLOYEES[0].salaryStructure;
      Earnings(s) == 200000 && Deductions(s) == 37200 && NetPay(s) == 162800
  {
    assert HrTypes.MOCK_EMPLOYEES[0].salaryStructure == Some(HrTypes.SalaryStructure(100000, 40000, 60000, 12000, 25000, 200));
  }
}

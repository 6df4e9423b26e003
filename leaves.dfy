/** The leave page: loading the request list, an administrator's
    approve/reject action, an employee's application, who sees which
    requests, and the three balance figures. */
module LeavesPage {
  import opened Common
  import opened Text
  import opened HrTypes

  /** `loadLeaves`: the stored list, or the fixture list when storage holds
      none. */
  function LoadLeaves(saved: Option<seq<LeaveRequest>>): (r: seq<LeaveRequest>)
    ensures saved.Some? ==> r == saved.value
    ensures saved.None? ==> r == MOCK_LEAVES
  {
    if saved.Some? then saved.value else MOCK_LEAVES
  }

  /** The page writes back what it loaded, so every later load, here or on
      the dashboard, reads the same list. */
  lemma LoadThenStoreStable(saved: Option<seq<LeaveRequest>>)
    ensures LoadLeaves(Some(LoadLeaves(saved))) == LoadLeaves(saved)
  {
  }

  /** `leaves.map(l => l.id === id ? { ...l, status } : l)`. */
  function WithStatus(leaves: seq<LeaveRequest>, id: string, status: LeaveStatus): (r: seq<LeaveRequest>)
    ensures |r| == |leaves|
    ensures forall i :: 0 <= i < |leaves| ==>
      r[i] == if leaves[i].id == id then leaves[i].(status := status) else leaves[i]
  {
    if leaves == [] then []
    else
      [if leaves[0].id == id then leaves[0].(status := status) else leaves[0]]
      + WithStatus(leaves[1..], id, status)
  }

  /** `handleAction`: an administrator sets the status of the request with
      that id; anybody else changes nothing. */
  function HandleAction(leaves: seq<LeaveRequest>, isAdmin: bool, id: string, status: LeaveStatus)
    : (r: seq<LeaveRequest>)
    ensures !isAdmin ==> r == leaves
    ensures |r| == |leaves|
    ensures forall i :: 0 <= i < |leaves| ==> r[i].(status := leaves[i].status) == leaves[i]
    ensures forall i :: 0 <= i < |leaves| ==> (r[i] != leaves[i] ==> isAdmin && leaves[i].id == id)
    ensures isAdmin ==> forall i :: 0 <= i < |leaves| && leaves[i].id == id ==> r[i].status == status
  {
    if isAdmin then WithStatus(leaves, id, status) else leaves
  }

  /** The feedback banner after an action: its text, and whether it is the
      success style. */
  function ActionFeedback(status: LeaveStatus): (r: (string, bool))
    ensures r.1 <==> status == Approved
  {
    match status
    case Pending => ("Request successfully pending.", false)
    case Approved => ("Request successfully approved.", true)
    case Rejected => ("Request successfully rejected.", false)
  }

  lemma HandleActionIdempotent(leaves: seq<LeaveRequest>, isAdmin: bool, id: string, status: LeaveStatus)
    ensures HandleAction(HandleAction(leaves, isAdmin, id, status), isAdmin, id, status)
            == HandleAction(leaves, isAdmin, id, status)
  {
  }

  /** The application form. */
  datatype LeaveForm = LeaveForm(leaveType: LeaveType, startDate: string, endDate: string, reason: string)

  /** The form as it is reset after a submission. */
  const EMPTY_FORM := LeaveForm(Paid, "", "", "")

  predicate FormComplete(form: LeaveForm)
  {
    form.startDate != "" && form.endDate != "" && form.reason != ""
  }

  /** The request built from the form at clock reading `now` on UTC day
      `today`. */
  function NewRequest(form: LeaveForm, applicant: EmployeeProfile, now: nat, today: string): LeaveRequest
  {
    LeaveRequest("l_" + NatToString(now), applicant.employeeId, applicant.fullName, form.leaveType,
                 form.startDate, form.endDate, form.reason, Pending, today)
  }

  /** `handleSubmitLeave`: an incomplete form changes nothing; a complete
      one puts a pending request for the applicant in front. */
  function SubmitLeave(leaves: seq<LeaveRequest>, applicant: EmployeeProfile, form: LeaveForm,
                       now: nat, today: string): (r: seq<LeaveRequest>)
    ensures !FormComplete(form) ==> r == leaves
    ensures FormComplete(form) ==>
      |r| == |leaves| + 1 && r[1..] == leaves &&
      r[0].status == Pending && r[0].employeeId == applicant.employeeId &&
      r[0].employeeName == applicant.fullName && r[0].leaveType == form.leaveType &&
      r[0].startDate == form.startDate && r[0].endDate == form.endDate &&
      r[0].reason == form.reason && r[0].appliedDate == today
  {
    if !FormComplete(form) then leaves
    else [NewRequest(form, applicant, now, today)] + leaves
  }

  /** `userLeaves` (and the dashboard's `fetchLeaves` filter): an
      administrator sees every request, anybody else their own. */
  function VisibleLeaves(leaves: seq<LeaveRequest>, isAdmin: bool, employeeId: string): (r: seq<LeaveRequest>)
    ensures isAdmin ==> r == leaves
    ensures !isAdmin ==> forall l :: l in r <==> l in leaves && l.employeeId == employeeId
    ensures IsSubsequence(r, leaves)
    ensures !isAdmin ==> forall l :: multiset(r)[l] == if l.employeeId == employeeId then multiset(leaves)[l] else 0
  {
    if isAdmin then
      assert IsSubsequence(leaves, leaves) by { SubsequenceReflexive(leaves); }
      leaves
    else
      FilterSubsequence(leaves, (l: LeaveRequest) => l.employeeId == employeeId);
      FilterMultiset(leaves, (l: LeaveRequest) => l.employeeId == employeeId);
      Filter(leaves, (l: LeaveRequest) => l.employeeId == employeeId)
  }

  predicate IsApproved(l: LeaveRequest) { l.status == Approved }

  /** `approved.filter(l => l.type === t).length`. */
  function ApprovedOfType(leaves: seq<LeaveRequest>, t: LeaveType): nat
  {
    |Filter(Filter(leaves, IsApproved), (l: LeaveRequest) => l.leaveType == t)|
  }

  datatype LeaveStats = LeaveStats(paidBalance: nat, sickBalance: nat, unpaidTaken: nat)

  /** `stats`: 14 paid and 8 sick days less the approved ones, never below
      zero, and the approved unpaid days. */
  function Stats(leaves: seq<LeaveRequest>): (s: LeaveStats)
    ensures s.paidBalance <= 14 && s.sickBalance <= 8 && s.unpaidTaken <= |leaves|
    ensures s.paidBalance + ApprovedOfType(leaves, Paid) == 14 || (s.paidBalance == 0 && ApprovedOfType(leaves, Paid) >= 14)
    ensures s.sickBalance + ApprovedOfType(leaves, Sick) == 8 || (s.sickBalance == 0 && ApprovedOfType(leaves, Sick) >= 8)
    ensures s.unpaidTaken == ApprovedOfType(leaves, Unpaid)
  {
    var paid := ApprovedOfType(leaves, Paid);
    var sick := ApprovedOfType(leaves, Sick);
    LeaveStats(if paid >= 14 then 0 else 14 - paid, if sick >= 8 then 0 else 8 - sick,
               ApprovedOfType(leaves, Unpaid))
  }

  /** How one request in front contributes to an approved-of-type count. */
  lemma ApprovedOfTypeCons(h: LeaveRequest, rest: seq<LeaveRequest>, t: LeaveType)
    ensures ApprovedOfType([h] + rest, t)
            == (if h.status == Approved && h.leaveType == t then 1 else 0) + ApprovedOfType(rest, t)
  {
    FilterCons(h, rest, IsApproved);
    var a := Filter(rest, IsApproved);
    var p := (l: LeaveRequest) => l.leaveType == t;
    if IsApproved(h) {
      FilterCons(h, a, p);
    }
  }

  lemma WithStatusAbsent(leaves: seq<LeaveRequest>, id: string, status: LeaveStatus)
    requires forall i :: 0 <= i < |leaves| ==> leaves[i].id != id
    ensures WithStatus(leaves, id, status) == leaves
  {
  }

  /** Approving the one request with id `id`, not yet approved, raises the
      approved count of its type by one and no other type's. */
  lemma {:induction false} ApproveRaisesCount(leaves: seq<LeaveRequest>, id: string, k: nat, t: LeaveType)
    requires k < |leaves| && leaves[k].id == id && leaves[k].status != Approved
    requires forall j :: 0 <= j < |leaves| && j != k ==> leaves[j].id != id
    ensures ApprovedOfType(WithStatus(leaves, id, Approved), t)
            == ApprovedOfType(leaves, t) + (if leaves[k].leaveType == t then 1 else 0)
  {
    var h := leaves[0];
    var rest := leaves[1..];
    var r := WithStatus(leaves, id, Approved);
    assert leaves == [h] + rest;
    assert r == [r[0]] + WithStatus(rest, id, Approved);
    ApprovedOfTypeCons(h, rest, t);
    ApprovedOfTypeCons(r[0], WithStatus(rest, id, Approved), t);
    if k == 0 {
      WithStatusAbsent(rest, id, Approved);
    } else {
      ApproveRaisesCount(rest, id, k - 1, t);
    }
  }

  /** So approving a pending paid request of an employee with fewer than 14
      approved paid days lowers their paid balance by one. */
  lemma ApprovePaidLowersBalance(leaves: seq<LeaveRequest>, id: string, k: nat)
    requires k < |leaves| && leaves[k].id == id && leaves[k].status != Approved
    requires leaves[k].leaveType == Paid
    requires forall j :: 0 <= j < |leaves| && j != k ==> leaves[j].id != id
    requires ApprovedOfType(leaves, Paid) < 14
    ensures Stats(HandleAction(leaves, true, id, Approved)).paidBalance == Stats(leaves).paidBalance - 1
    ensures Stats(HandleAction(leaves, true, id, Approved)).sickBalance == Stats(leaves).sickBalance
  {
    ApproveRaisesCount(leaves, id, k, Paid);
    ApproveRaisesCount(leaves, id, k, Sick);
  }

  /** A new application is pending, so it leaves every balance as it was,
      for the applicant and for an administrator alike. */
  lemma SubmitKeepsStats(leaves: seq<LeaveRequest>, applicant: EmployeeProfile, form: LeaveForm,
                         now: nat, today: string, isAdmin: bool, viewer: string)
    ensures Stats(VisibleLeaves(SubmitLeave(leaves, applicant, form, now, today), isAdmin, viewer))
            == Stats(VisibleLeaves(leaves, isAdmin, viewer))
  {
    if FormComplete(form) {
      var req := NewRequest(form, applicant, now, today);
      var after := SubmitLeave(leaves, applicant, form, now, today);
      var visible := VisibleLeaves(leaves, isAdmin, viewer);
      var seen := VisibleLeaves(after, isAdmin, viewer);
      VisibleAfterFront(req, leaves, isAdmin, viewer);
      if isAdmin || req.employeeId == viewer {
        PendingFrontKeepsStats(req, visible);
      }
    }
  }

  /** A pending request in front changes no balance. */
  lemma PendingFrontKeepsStats(req: LeaveRequest, leaves: seq<LeaveRequest>)
    requires req.status == Pending
    ensures Stats([req] + leaves) == Stats(leaves)
  {
    forall t: LeaveType ensures ApprovedOfType([req] + leaves, t) == ApprovedOfType(leaves, t) {
      ApprovedOfTypeCons(req, leaves, t);
    }
  }

  /** A request put in front is seen in front by whoever may see it. */
  lemma VisibleAfterFront(req: LeaveRequest, leaves: seq<LeaveRequest>, isAdmin: bool, viewer: string)
    ensures VisibleLeaves([req] + leaves, isAdmin, viewer) ==
            (if isAdmin || req.employeeId == viewer then [req] else []) + VisibleLeaves(leaves, isAdmin, viewer)
  {
    if !isAdmin {
      FilterCons(req, leaves, (l: LeaveRequest) => l.employeeId == viewer);
    }
  }

  /** A submitted application is at the top of its applicant's own list. */
  lemma SubmittedIsVisibleToApplicant(leaves: seq<LeaveRequest>, applicant: EmployeeProfile,
                                      form: LeaveForm, now: nat, today: string)
    requires FormComplete(form)
    ensures var seen := VisibleLeaves(SubmitLeave(leaves, applicant, form, now, today), false, applicant.employeeId);
      seen != [] && seen[0] == NewRequest(form, applicant, now, today)
  {
    var req := NewRequest(form, applicant, now, today);
    FilterCons(req, leaves, (l: LeaveRequest) => l.employeeId == applicant.employeeId);
  }

  /** On the fixture list, Rahul sees his one sick request; the others see
      none, and everybody's balances are full. */
  lemma FixtureBalances(viewer: string)
    requires viewer != "EMP-202"
    ensures |VisibleLeaves(LoadLeaves(None), false, "EMP-202")| == 1
    ensures VisibleLeaves(LoadLeaves(None), false, viewer) == []
    ensures Stats(LoadLeaves(None)) == LeaveStats(14, 8, 0)
  {
    var l := MOCK_LEAVES;
    FilterCons(l[0], [], (r: LeaveRequest) => r.employeeId == "EMP-202");
    FilterCons(l[0], [], (r: LeaveRequest) => r.employeeId == viewer);
    assert l == [l[0]] + [];
    forall t: LeaveType ensures ApprovedOfType(l, t) == 0 {
      ApprovedOfTypeCons(l[0], [], t);
    }
  }
}

/** The dashboard's figures: the greeting, the attendance streak, the
    productivity score, the leave balance and the pending-request count. */
module DashboardPage {
  import opened Common
  import opened HrTypes
  import opened AttendanceService
  import LeavesPage

  /** `getGreeting` for the local hour. */
  function Greeting(hour: nat): (r: string)
    ensures r == "Good Morning" <==> hour < 12
    ensures r == "Good Afternoon" <==> 12 <= hour < 17
    ensures r == "Good Evening" <==> 17 <= hour
  {
    if hour < 12 then "Good Morning"
    else if hour < 17 then "Good Afternoon"
    else "Good Evening"
  }

  /** `fetchLeaves`: the stored list or the fixture list (not written back
      here), then the role filter. */
  function FetchLeaves(saved: Option<seq<LeaveRequest>>, role: UserRole, employeeId: string)
    : (r: seq<LeaveRequest>)
    ensures role == Admin ==> r == LeavesPage.LoadLeaves(saved)
    ensures role == Employee ==> forall l :: l in r <==> l in LeavesPage.LoadLeaves(saved) && l.employeeId == employeeId
    ensures role == Employee ==>
      forall l :: multiset(r)[l] == if l.employeeId == employeeId then multiset(LeavesPage.LoadLeaves(saved))[l] else 0
    ensures IsSubsequence(r, LeavesPage.LoadLeaves(saved))
  {
    LeavesPage.VisibleLeaves(LeavesPage.LoadLeaves(saved), role == Admin, employeeId)
  }

  /** `streakCount`: sort newest first, count the Present days from the top
      until the first day that is not. */
  method StreakCount(records: seq<HRView>) returns (count: nat)
    ensures var sorted := NewestFirst(records);
      count <= |sorted| && (forall k :: 0 <= k < count ==> sorted[k].status == Present) &&
      (count < |sorted| ==> sorted[count].status != Present)
    ensures count == |records| <==> forall v :: v in records ==> v.status == Present
  {
    count := 0;
    var sorted := NewestFirst(records);
    assert |sorted| == |records| by {
      assert |multiset(sorted)| == |multiset(records)|;
    }
    var i := 0;
    while i < |sorted|
      invariant 0 <= i <= |sorted| && count == i
      invariant forall k :: 0 <= k < i ==> sorted[k].status == Present
    {
      if sorted[i].status == Present {
        count := count + 1;
      } else {
        break;
      }
      i := i + 1;
    }
    if count == |records| {
      forall v | v in records ensures v.status == Present {
        assert v in multiset(sorted);
      }
    } else {
      assert sorted[count] in multiset(records);
    }
  }

  predicate IsPresentView(v: HRView) { v.status == Present }

  /** `productivityScore`: `Math.round(present / 22 * 100 + 75)`, capped at
      100. The exact value is 75 + 50p/11, whose fractional part is a
      multiple of 1/11 and so never one half: the integer formula below
      rounds it the way `Math.round` does. */
  function ProductivityScore(records: seq<HRView>): (r: nat)
    ensures 75 <= r <= 100
    ensures r == 100 <==> Count(records, IsPresentView) >= 6
    ensures var p := Count(records, IsPresentView) as real;
      r < 100 ==> r as real - 0.5 <= p / 22.0 * 100.0 + 75.0 < r as real + 0.5
  {
    var p := Count(records, IsPresentView);
    var q := (100 * p + 11) / 22;
    assert 22 * q <= 100 * p + 11 < 22 * q + 22;
    assert (p as real) / 22.0 * 100.0 == (100 * p) as real / 22.0;
    if 75 + q > 100 then 100 else 75 + q
  }

  predicate IsPending(l: LeaveRequest) { l.status == Pending }

  /** `leaveBalance`: 20 days less every approved request, never below
      zero. */
  function LeaveBalance(leaves: seq<LeaveRequest>): (r: nat)
    ensures r <= 20
    ensures r + Count(leaves, LeavesPage.IsApproved) == 20 ||
            (r == 0 && Count(leaves, LeavesPage.IsApproved) >= 20)
  {
    var approved := Count(leaves, LeavesPage.IsApproved);
    if approved >= 20 then 0 else 20 - approved
  }

  /** `pendingLeavesCount`. */
  function PendingCount(leaves: seq<LeaveRequest>): (r: nat)
    ensures r <= |leaves|
    ensures r == 0 <==> forall l :: l in leaves ==> !IsPending(l)
  {
    var r := Count(leaves, IsPending);
    assert r == 0 <==> Filter(leaves, IsPending) == [];
    assert Filter(leaves, IsPending) != [] ==> Filter(leaves, IsPending)[0] in Filter(leaves, IsPending);
    r
  }

  /** The count itself: nothing for no leaves, and one more for each
      pending request in front. */
  lemma PendingCountCons(l: LeaveRequest, leaves: seq<LeaveRequest>)
    ensures PendingCount([]) == 0
    ensures PendingCount([l] + leaves) == (if l.status == Pending then 1 else 0) + PendingCount(leaves)
  {
    FilterCons(l, leaves, IsPending);
  }

  /** Approving the one pending request with id `id` moves it from the
      pending count to the approved count. */
  lemma {:induction false} ApprovalMovesOne(leaves: seq<LeaveRequest>, id: string, k: nat)
    requires k < |leaves| && leaves[k].id == id && leaves[k].status == Pending
    requires forall j :: 0 <= j < |leaves| && j != k ==> leaves[j].id != id
    ensures var after := LeavesPage.WithStatus(leaves, id, Approved);
      Count(after, LeavesPage.IsApproved) == Count(leaves, LeavesPage.IsApproved) + 1 &&
      Count(after, IsPending) + 1 == Count(leaves, IsPending)
  {
    var h := leaves[0];
    var rest := leaves[1..];
    var after := LeavesPage.WithStatus(leaves, id, Approved);
    var rest' := LeavesPage.WithStatus(rest, id, Approved);
    assert leaves == [h] + rest;
    assert after == [after[0]] + rest';
    FilterCons(h, rest, LeavesPage.IsApproved);
    FilterCons(h, rest, IsPending);
    FilterCons(after[0], rest', LeavesPage.IsApproved);
    FilterCons(after[0], rest', IsPending);
    if k == 0 {
      LeavesPage.WithStatusAbsent(rest, id, Approved);
    } else {
      ApprovalMovesOne(rest, id, k - 1);
    }
  }

  /** So an administrator's approval of a pending request lowers the
      dashboard's pending count by one, and the leave balance by one unless
      it is already zero. */
  lemma ApprovalOnDashboard(leaves: seq<LeaveRequest>, id: string, k: nat)
    requires k < |leaves| && leaves[k].id == id && leaves[k].status == Pending
    requires forall j :: 0 <= j < |leaves| && j != k ==> leaves[j].id != id
    ensures var after := LeavesPage.HandleAction(leaves, true, id, Approved);
      PendingCount(after) + 1 == PendingCount(leaves) &&
      LeaveBalance(after) == if LeaveBalance(leaves) == 0 then 0 else LeaveBalance(leaves) - 1
  {
    ApprovalMovesOne(leaves, id, k);
  }
}

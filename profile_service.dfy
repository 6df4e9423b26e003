/** The profile service: the employee table with its seed, and the
    role-gated `updateProfile` that diffs a partial update against the
    stored profile, replaces that one entry and appends an audit record. */
module ProfileService {
  import opened Common
  import opened Text
  import HrTypes

  /** The keys of a stored profile. `UpdatedAt` and `UpdatedBy` are the two
      the service itself adds on every write. */
  datatype Field =
    | Id | EmployeeId | FullName | Email | Role | Position | Department | JoinDate
    | Salary | Phone | Address | Avatar | SalaryStructure | ManagerName
    | UpdatedAt | UpdatedBy

  /** A field value as `!==` sees it: strings and numbers compare by value,
      the salary-structure object by identity. */
  datatype Value = Str(s: string) | Num(n: int) | Ref(id: nat)

  /** A profile object: a missing key is `undefined`. */
  type Profile = map<Field, Value>

  /** What the profile type admits: the salary structure is the only
      object-valued field. */
  predicate Typed(p: Profile)
  {
    forall f :: f in p && p[f].Ref? ==> f == SalaryStructure
  }

  function Lookup(p: Profile, f: Field): Option<Value>
  {
    if f in p then Some(p[f]) else None
  }

  /** `updates[f] !== undefined && updates[f] !== original[f]`. Whenever a
      table is stored, the profile is parsed afresh from it, so an object
      sent in `updates` is never the stored one: it always differs. */
  predicate Differs(original: Profile, updates: Profile, f: Field)
  {
    f in updates && (updates[f].Ref? || Lookup(original, f) != Some(updates[f]))
  }

  /** The fields only an administrator may change. */
  const RESTRICTED: seq<Field> :=
    [FullName, Email, Role, Department, Position, Salary, EmployeeId, JoinDate]

  /** The fields an employee may change. */
  const SELF_SERVICE: seq<Field> := [Phone, Address, Avatar]

  /** Every key, in declaration order. */
  const ALL_FIELDS: seq<Field> :=
    [Id, EmployeeId, FullName, Email, Role, Position, Department, JoinDate,
     Salary, Phone, Address, Avatar, SalaryStructure, ManagerName, UpdatedAt, UpdatedBy]

  /** The messages `updateProfile` answers with. */
  datatype Notice = NotFound | Forbidden | NoChanges | Updated

  function NoticeText(n: Notice): string
  {
    match n
    case NotFound => "Employee not found."
    case Forbidden => "You do not have permission to edit restricted fields."
    case NoChanges => "No changes detected."
    case Updated => "Profile updated successfully"
  }

  /** The stored form of a roster entry; `ref` is the identity of its
      salary-structure object. */
  function ToProfile(e: HrTypes.EmployeeProfile, ref: nat): (p: Profile)
    ensures Lookup(p, Id) == Some(Str(e.id)) && Lookup(p, EmployeeId) == Some(Str(e.employeeId))
    ensures Lookup(p, Role) == Some(Str(HrTypes.RoleName(e.role))) && Lookup(p, Phone) == Some(Str(e.phone))
    ensures UpdatedAt !in p && UpdatedBy !in p
    ensures SalaryStructure in p <==> e.salaryStructure.Some?
    ensures ManagerName in p <==> e.managerName.Some?
  {
    map[Id := Str(e.id), EmployeeId := Str(e.employeeId), FullName := Str(e.fullName),
        Email := Str(e.email), Role := Str(HrTypes.RoleName(e.role)), Position := Str(e.position),
        Department := Str(e.department), JoinDate := Str(e.joinDate), Salary := Num(e.salary),
        Phone := Str(e.phone), Address := Str(e.address), Avatar := Str(e.avatar)]
    + (if e.salaryStructure.Some? then map[SalaryStructure := Ref(ref)] else map[])
    + (if e.managerName.Some? then map[ManagerName := Str(e.managerName.value)] else map[])
  }

  /** The table `getEmployees` writes when storage holds none. */
  function MockProfiles(): (r: seq<Profile>)
    ensures |r| == |HrTypes.MOCK_EMPLOYEES|
    ensures forall i :: 0 <= i < |r| ==> r[i] == ToProfile(HrTypes.MOCK_EMPLOYEES[i], i)
  {
    seq(|HrTypes.MOCK_EMPLOYEES|, i requires 0 <= i < |HrTypes.MOCK_EMPLOYEES| =>
      ToProfile(HrTypes.MOCK_EMPLOYEES[i], i))
  }

  /** One entry of an audit record's `changedFields`. */
  datatype Change = Change(before: Option<Value>, after: Value)

  /** The diff the `forEach` over `allowed` builds. */
  function Diff(original: Profile, updates: Profile, allowed: seq<Field>): map<Field, Change>
  {
    map f | f in allowed && Differs(original, updates, f) :: Change(Lookup(original, f), updates[f])
  }

  /** `finalUpdates`: the new value of each changed field. */
  function NewValues(changed: map<Field, Change>): (r: map<Field, Value>)
    ensures r.Keys == changed.Keys
  {
    map f | f in changed :: changed[f].after
  }

  lemma AllFieldsComplete(f: Field)
    ensures f in ALL_FIELDS
  {
    var k := match f
      case Id => 0 case EmployeeId => 1 case FullName => 2 case Email => 3
      case Role => 4 case Position => 5 case Department => 6 case JoinDate => 7
      case Salary => 8 case Phone => 9 case Address => 10 case Avatar => 11
      case SalaryStructure => 12 case ManagerName => 13 case UpdatedAt => 14 case UpdatedBy => 15;
    assert ALL_FIELDS[k] == f;
  }

  /** `Object.keys(updates)` for an administrator, the self-service fields
      for everyone else. */
  function AllowedFields(role: HrTypes.UserRole, updates: Profile): (r: seq<Field>)
    ensures role == HrTypes.Admin ==> forall f :: f in r <==> f in updates
    ensures role == HrTypes.Employee ==> r == SELF_SERVICE
  {
    if role == HrTypes.Admin then
      var r := KeysIn(ALL_FIELDS, updates);
      assert forall f :: f in updates ==> f in r by {
        forall f | f in updates ensures f in r {
          AllFieldsComplete(f);
        }
      }
      r
    else SELF_SERVICE
  }

  /** The fields of `fields` that `updates` has a key for, in order. */
  function KeysIn(fields: seq<Field>, updates: Profile): (r: seq<Field>)
    ensures forall f :: f in r <==> f in fields && f in updates
    ensures |r| <= |fields|
  {
    if fields == [] then []
    else (if fields[0] in updates then [fields[0]] else []) + KeysIn(fields[1..], updates)
  }

  /** The fields of `fields` that `updates` would change, in order. */
  function ChangedAmong(fields: seq<Field>, original: Profile, updates: Profile): (r: seq<Field>)
    ensures forall f :: f in r <==> f in fields && Differs(original, updates, f)
    ensures |r| <= |fields|
  {
    if fields == [] then []
    else (if Differs(original, updates, fields[0]) then [fields[0]] else []) +
         ChangedAmong(fields[1..], original, updates)
  }

  /** The restricted fields the update would change. */
  function ModifiedRestricted(original: Profile, updates: Profile): (r: seq<Field>)
    ensures r == [] <==> forall f :: f in RESTRICTED ==> !Differs(original, updates, f)
  {
    var r := ChangedAmong(RESTRICTED, original, updates);
    assert r != [] ==> r[0] in r;
    r
  }

  /** `{ ...original, ...finalUpdates, updatedAt, updatedBy }`. */
  function Merge(original: Profile, finalUpdates: map<Field, Value>, actorId: string, timestamp: string): Profile
  {
    original + finalUpdates + map[UpdatedAt := Str(timestamp), UpdatedBy := Str(actorId)]
  }

  datatype Status = Success | Error

  /** What `updateProfile` resolves to. */
  datatype Response = Response(status: Status, message: Notice, updatedProfile: Option<Profile>)

  datatype AuditEntry = AuditEntry(
    id: string, employeeId: Option<Value>, changedFields: map<Field, Change>,
    updatedBy: string, timestamp: string)

  datatype Actor = Actor(id: string, role: HrTypes.UserRole)

  /** The response together with the table and the audit log after. */
  datatype UpdateStep = UpdateStep(response: Response, employees: seq<Profile>, logs: seq<AuditEntry>)

  /** `e.id === target || e.employeeId === target`. */
  predicate Matches(p: Profile, target: string)
  {
    Lookup(p, Id) == Some(Str(target)) || Lookup(p, EmployeeId) == Some(Str(target))
  }

  /** `findIndex` with that test, None for -1: the first entry that
      matches. */
  function FindTarget(db: seq<Profile>, target: string): (r: Option<nat>)
    ensures r.Some? ==> r.value < |db| && Matches(db[r.value], target) &&
                        forall k :: 0 <= k < r.value ==> !Matches(db[k], target)
    ensures r.None? <==> forall k :: 0 <= k < |db| ==> !Matches(db[k], target)
  {
    if db == [] then None
    else if Matches(db[0], target) then Some(0)
    else match FindTarget(db[1..], target)
      case None => None
      case Some(i) => Some(i + 1)
  }

  /** `updateProfile` on table `db` and log `logs`, at clock reading `now`
      (its ISO form `timestamp`). */
  function UpdateProfileStep(db: seq<Profile>, logs: seq<AuditEntry>, actor: Actor, target: string,
                             updates: Profile, now: nat, timestamp: string): (s: UpdateStep)
    ensures FindTarget(db, target).None? ==>
      s == UpdateStep(Response(Error, NotFound, None), db, logs)
    ensures s.response.status == Error || s.response.message == NoChanges ==>
      s.employees == db && s.logs == logs
    ensures |s.employees| == |db|
    ensures s.logs == logs || (|s.logs| == |logs| + 1 && s.logs[..|logs|] == logs)
  {
    match FindTarget(db, target)
    case None => UpdateStep(Response(Error, NotFound, None), db, logs)
    case Some(i) =>
      var original := db[i];
      if actor.role != HrTypes.Admin && ModifiedRestricted(original, updates) != [] then
        UpdateStep(Response(Error, Forbidden, None), db, logs)
      else
        var changed := Diff(original, updates, AllowedFields(actor.role, updates));
        if changed == map[] then
          UpdateStep(Response(Success, NoChanges, Some(original)), db, logs)
        else
          var updated := Merge(original, NewValues(changed), actor.id, timestamp);
          var entry := AuditEntry("log_" + NatToString(now), Lookup(original, EmployeeId),
                                  changed, actor.id, timestamp);
          assert (logs + [entry])[..|logs|] == logs;
          UpdateStep(Response(Success, Updated, Some(updated)), db[i := updated], logs + [entry])
  }

  /** The three outcomes once the target is found at `i`: refused, */
  lemma StepForbidden(db: seq<Profile>, logs: seq<AuditEntry>, actor: Actor, target: string,
                      updates: Profile, now: nat, timestamp: string, i: nat)
    requires FindTarget(db, target) == Some(i)
    requires actor.role != HrTypes.Admin && ModifiedRestricted(db[i], updates) != []
    ensures UpdateProfileStep(db, logs, actor, target, updates, now, timestamp)
            == UpdateStep(Response(Error, Forbidden, None), db, logs)
  {
  }

  /** nothing to change, */
  lemma StepUnchanged(db: seq<Profile>, logs: seq<AuditEntry>, actor: Actor, target: string,
                      updates: Profile, now: nat, timestamp: string, i: nat)
    requires FindTarget(db, target) == Some(i)
    requires actor.role == HrTypes.Admin || ModifiedRestricted(db[i], updates) == []
    requires Diff(db[i], updates, AllowedFields(actor.role, updates)) == map[]
    ensures UpdateProfileStep(db, logs, actor, target, updates, now, timestamp)
            == UpdateStep(Response(Success, NoChanges, Some(db[i])), db, logs)
  {
  }

  /** and applied: entry `i` replaced by the merge, one audit record added. */
  lemma StepApplied(db: seq<Profile>, logs: seq<AuditEntry>, actor: Actor, target: string,
                    updates: Profile, now: nat, timestamp: string, i: nat)
    requires FindTarget(db, target) == Some(i)
    requires actor.role == HrTypes.Admin || ModifiedRestricted(db[i], updates) == []
    requires Diff(db[i], updates, AllowedFields(actor.role, updates)) != map[]
    ensures var changed := Diff(db[i], updates, AllowedFields(actor.role, updates));
      var updated := Merge(db[i], NewValues(changed), actor.id, timestamp);
      UpdateProfileStep(db, logs, actor, target, updates, now, timestamp)
      == UpdateStep(Response(Success, Updated, Some(updated)), db[i := updated],
                    logs + [AuditEntry("log_" + NatToString(now), Lookup(db[i], EmployeeId),
                                       changed, actor.id, timestamp)])
  {
  }

  /** The `forEach` over the allowed fields, filling `changedFields` and
      `finalUpdates`. */
  method CollectChanges(original: Profile, updates: Profile, allowed: seq<Field>)
    returns (changed: map<Field, Change>, finalUpdates: map<Field, Value>)
    ensures changed == Diff(original, updates, allowed)
    ensures finalUpdates == NewValues(changed)
  {
    changed := map[];
    finalUpdates := map[];
    var i := 0;
    while i < |allowed|
      invariant 0 <= i <= |allowed|
      invariant changed == Diff(original, updates, allowed[..i])
      invariant finalUpdates.Keys == changed.Keys
      invariant forall f :: f in finalUpdates ==> finalUpdates[f] == changed[f].after
    {
      var key := allowed[i];
      assert allowed[..i + 1] == allowed[..i] + [key];
      if Differs(original, updates, key) {
        changed := changed[key := Change(Lookup(original, key), updates[key])];
        finalUpdates := finalUpdates[key := updates[key]];
      }
      i := i + 1;
    }
    assert allowed[..i] == allowed;
    assert finalUpdates == NewValues(changed);
  }

  // ---------------------------------------------------------------------
  // What the update promises
  // ---------------------------------------------------------------------

  /** An employee's update is refused exactly when it gives a restricted
      field a new value; a refused update writes nothing. */
  lemma NonAdminRestricted(db: seq<Profile>, logs: seq<AuditEntry>, actor: Actor, target: string,
                           updates: Profile, now: nat, timestamp: string)
    requires actor.role == HrTypes.Employee && FindTarget(db, target).Some?
    ensures var s := UpdateProfileStep(db, logs, actor, target, updates, now, timestamp);
      var original := db[FindTarget(db, target).value];
      (s.response == Response(Error, Forbidden, None) <==>
         exists f :: f in RESTRICTED && Differs(original, updates, f)) &&
      (s.response.message == Forbidden ==> s.employees == db && s.logs == logs)
  {
  }

  /** When an update is applied, only the entry it targets is replaced. */
  lemma {:induction false} UpdateReplacesOneEntry(db: seq<Profile>, logs: seq<AuditEntry>, actor: Actor,
                                                  target: string, updates: Profile, now: nat, timestamp: string)
    requires UpdateProfileStep(db, logs, actor, target, updates, now, timestamp).response.message == Updated
    ensures FindTarget(db, target).Some?
    ensures var s := UpdateProfileStep(db, logs, actor, target, updates, now, timestamp);
      var i := FindTarget(db, target).value;
      var original := db[i];
      var changed := Diff(original, updates, AllowedFields(actor.role, updates));
      changed != map[] &&
      s.response == Response(Success, Updated, Some(s.employees[i])) &&
      |s.employees| == |db| && (forall k :: 0 <= k < |db| && k != i ==> s.employees[k] == db[k]) &&
      s.employees[i] == Merge(original, NewValues(changed), actor.id, timestamp) &&
      s.logs == logs + [AuditEntry("log_" + NatToString(now), Lookup(original, EmployeeId),
                                   changed, actor.id, timestamp)]
  {
    var i := FindTarget(db, target).value;
    var original := db[i];
    var changed := Diff(original, updates, AllowedFields(actor.role, updates));
    var updated := Merge(original, NewValues(changed), actor.id, timestamp);
    var s := UpdateProfileStep(db, logs, actor, target, updates, now, timestamp);
    var entry := AuditEntry("log_" + NatToString(now), Lookup(original, EmployeeId),
                            changed, actor.id, timestamp);
    assert changed != map[];
    assert s == UpdateStep(Response(Success, Updated, Some(updated)), db[i := updated], logs + [entry]);
  }

  /** The audit record of an applied update carries, for each changed field,
      its old and its new value, and nothing for the fields left alone. */
  lemma AuditRecordsExactChanges(db: seq<Profile>, logs: seq<AuditEntry>, actor: Actor,
                                 target: string, updates: Profile, now: nat, timestamp: string)
    requires UpdateProfileStep(db, logs, actor, target, updates, now, timestamp).response.message == Updated
    ensures var s := UpdateProfileStep(db, logs, actor, target, updates, now, timestamp);
      var original := db[FindTarget(db, target).value];
      |s.logs| == |logs| + 1 &&
      var entry := s.logs[|logs|];
      entry.updatedBy == actor.id && entry.employeeId == Lookup(original, EmployeeId) &&
      forall f :: f in entry.changedFields <==>
        f in AllowedFields(actor.role, updates) && Differs(original, updates, f)
  {
    UpdateReplacesOneEntry(db, logs, actor, target, updates, now, timestamp);
    var s := UpdateProfileStep(db, logs, actor, target, updates, now, timestamp);
    var original := db[FindTarget(db, target).value];
    var allowed := AllowedFields(actor.role, updates);
    var changed := Diff(original, updates, allowed);
    assert s.logs[|logs|].changedFields == changed;
    forall f ensures f in changed <==> f in allowed && Differs(original, updates, f) {
      DiffKeys(original, updates, allowed, f);
    }
  }

  lemma DiffKeys(original: Profile, updates: Profile, allowed: seq<Field>, f: Field)
    ensures var d := Diff(original, updates, allowed);
      (f in d <==> f in allowed && Differs(original, updates, f)) &&
      (f in d ==> d[f] == Change(Lookup(original, f), updates[f]))
  {
  }

  /** Each field of a merged profile: the stamps, else the new value, else
      the original's. */
  lemma MergeLookup(original: Profile, finalUpdates: map<Field, Value>, actorId: string, timestamp: string, f: Field)
    ensures Lookup(Merge(original, finalUpdates, actorId, timestamp), f) ==
      if f == UpdatedAt then Some(Str(timestamp))
      else if f == UpdatedBy then Some(Str(actorId))
      else if f in finalUpdates then Some(finalUpdates[f])
      else Lookup(original, f)
  {
  }

  /** Field `f` after an employee's successful update: phone, address and
      avatar take the value sent, every other field but the two stamps
      keeps its value. */
  lemma NonAdminFieldEffect(db: seq<Profile>, logs: seq<AuditEntry>, actor: Actor, target: string,
                            updates: Profile, now: nat, timestamp: string, f: Field)
    requires actor.role == HrTypes.Employee
    requires UpdateProfileStep(db, logs, actor, target, updates, now, timestamp).response.status == Success
    requires f != UpdatedAt && f != UpdatedBy
    ensures FindTarget(db, target).Some?
    ensures var s := UpdateProfileStep(db, logs, actor, target, updates, now, timestamp);
      var i := FindTarget(db, target).value;
      Lookup(s.employees[i], f) == if f in SELF_SERVICE && f in updates then Some(updates[f]) else Lookup(db[i], f)
  {
    var s := UpdateProfileStep(db, logs, actor, target, updates, now, timestamp);
    var i := FindTarget(db, target).value;
    var original := db[i];
    var changed := Diff(original, updates, SELF_SERVICE);
    DiffKeys(original, updates, SELF_SERVICE, f);
    if changed == map[] {
      assert s.employees == db;
    } else {
      UpdateReplacesOneEntry(db, logs, actor, target, updates, now, timestamp);
      MergeLookup(original, NewValues(changed), actor.id, timestamp, f);
    }
  }

  /** Field `f` after an administrator's update, which always succeeds when
      the target exists: the value sent if any, else the old value. */
  lemma AdminFieldEffect(db: seq<Profile>, logs: seq<AuditEntry>, actor: Actor, target: string,
                         updates: Profile, now: nat, timestamp: string, f: Field)
    requires actor.role == HrTypes.Admin && FindTarget(db, target).Some?
    requires f != UpdatedAt && f != UpdatedBy
    ensures UpdateProfileStep(db, logs, actor, target, updates, now, timestamp).response.status == Success
    ensures var s := UpdateProfileStep(db, logs, actor, target, updates, now, timestamp);
      var i := FindTarget(db, target).value;
      Lookup(s.employees[i], f) == if f in updates then Some(updates[f]) else Lookup(db[i], f)
  {
    var s := UpdateProfileStep(db, logs, actor, target, updates, now, timestamp);
    var i := FindTarget(db, target).value;
    var original := db[i];
    var allowed := AllowedFields(actor.role, updates);
    var changed := Diff(original, updates, allowed);
    DiffKeys(original, updates, allowed, f);
    if changed == map[] {
      assert s.employees == db;
    } else {
      UpdateReplacesOneEntry(db, logs, actor, target, updates, now, timestamp);
      MergeLookup(original, NewValues(changed), actor.id, timestamp, f);
    }
  }

  /** The two stamps of an applied update: when, and by whom. */
  lemma UpdateStamps(db: seq<Profile>, logs: seq<AuditEntry>, actor: Actor, target: string,
                     updates: Profile, now: nat, timestamp: string)
    requires UpdateProfileStep(db, logs, actor, target, updates, now, timestamp).response.message == Updated
    ensures FindTarget(db, target).Some?
    ensures var s := UpdateProfileStep(db, logs, actor, target, updates, now, timestamp);
      var i := FindTarget(db, target).value;
      Lookup(s.employees[i], UpdatedAt) == Some(Str(timestamp)) &&
      Lookup(s.employees[i], UpdatedBy) == Some(Str(actor.id))
  {
    UpdateReplacesOneEntry(db, logs, actor, target, updates, now, timestamp);
    var original := db[FindTarget(db, target).value];
    var changed := Diff(original, updates, AllowedFields(actor.role, updates));
    MergeLookup(original, NewValues(changed), actor.id, timestamp, UpdatedAt);
    MergeLookup(original, NewValues(changed), actor.id, timestamp, UpdatedBy);
  }

  /** "No changes detected." comes back exactly when the update is allowed
      and no allowed field differs. */
  lemma NoChangeIff(db: seq<Profile>, logs: seq<AuditEntry>, actor: Actor, target: string,
                    updates: Profile, now: nat, timestamp: string)
    requires FindTarget(db, target).Some?
    ensures var s := UpdateProfileStep(db, logs, actor, target, updates, now, timestamp);
      var original := db[FindTarget(db, target).value];
      s.response.message == NoChanges <==>
        (actor.role == HrTypes.Admin || ModifiedRestricted(original, updates) == []) &&
        forall f :: f in AllowedFields(actor.role, updates) ==> !Differs(original, updates, f)
  {
    var original := db[FindTarget(db, target).value];
    var allowed := AllowedFields(actor.role, updates);
    var changed := Diff(original, updates, allowed);
    forall f | f in allowed && Differs(original, updates, f) ensures f in changed {
      DiffKeys(original, updates, allowed, f);
    }
  }

  /** An administrator who sends a salary structure back, even the one
      just read, always gets a write: the stored object is a fresh copy. */
  lemma ResentStructureIsWritten(db: seq<Profile>, logs: seq<AuditEntry>, actor: Actor, target: string,
                                 ref: nat, now: nat, timestamp: string)
    requires actor.role == HrTypes.Admin && FindTarget(db, target).Some?
    ensures var s := UpdateProfileStep(db, logs, actor, target, map[SalaryStructure := Ref(ref)], now, timestamp);
      s.response.status == Success && s.response.message == Updated && |s.logs| == |logs| + 1
  {
    var updates := map[SalaryStructure := Ref(ref)];
    NoChangeIff(db, logs, actor, target, updates, now, timestamp);
    assert SalaryStructure in AllowedFields(actor.role, updates);
  }

  /** The diff of a profile against itself, when it holds a salary
      structure, has that one entry: the stored object is a fresh copy. */
  lemma ResentStructureDiff(ref: nat)
    ensures var p := map[SalaryStructure := Ref(ref)];
      Diff(p, p, [SalaryStructure]) == map[SalaryStructure := Change(Some(Ref(ref)), Ref(ref))]
  {
    var p := map[SalaryStructure := Ref(ref)];
    assert Differs(p, p, SalaryStructure);
  }

  /** Whether an update is allowed depends on the actor's role alone, not on
      whose profile it is: the actor's id never enters the decision. */
  lemma AuthorizationByRoleOnly(db: seq<Profile>, logs: seq<AuditEntry>, a: Actor, b: Actor,
                                target: string, updates: Profile, now: nat, timestamp: string)
    requires a.role == b.role
    ensures var sa := UpdateProfileStep(db, logs, a, target, updates, now, timestamp);
      var sb := UpdateProfileStep(db, logs, b, target, updates, now, timestamp);
      sa.response.status == sb.response.status && sa.response.message == sb.response.message
  {
    match FindTarget(db, target)
    case None =>
    case Some(i) =>
      if a.role != HrTypes.Admin && ModifiedRestricted(db[i], updates) != [] {
        StepForbidden(db, logs, a, target, updates, now, timestamp, i);
        StepForbidden(db, logs, b, target, updates, now, timestamp, i);
      } else if Diff(db[i], updates, AllowedFields(a.role, updates)) == map[] {
        StepUnchanged(db, logs, a, target, updates, now, timestamp, i);
        StepUnchanged(db, logs, b, target, updates, now, timestamp, i);
      } else {
        StepApplied(db, logs, a, target, updates, now, timestamp, i);
        StepApplied(db, logs, b, target, updates, now, timestamp, i);
      }
  }

  /** Sending the same employee update again changes nothing more. */
  lemma RepeatedUpdateIsNoOp(db: seq<Profile>, logs: seq<AuditEntry>, actor: Actor,
                             target: string, updates: Profile, now: nat, timestamp: string,
                             later: nat, laterStamp: string)
    requires actor.role == HrTypes.Employee && Typed(updates)
    requires UpdateProfileStep(db, logs, actor, target, updates, now, timestamp).response.status == Success
    ensures var s := UpdateProfileStep(db, logs, actor, target, updates, now, timestamp);
      UpdateProfileStep(s.employees, s.logs, actor, target, updates, later, laterStamp).response.message == NoChanges
  {
    var s := UpdateProfileStep(db, logs, actor, target, updates, now, timestamp);
    var i := EmployeeUpdateShape(db, logs, actor, target, updates, now, timestamp);
    var t := s.employees;
    NonAdminFieldEffect(db, logs, actor, target, updates, now, timestamp, Id);
    NonAdminFieldEffect(db, logs, actor, target, updates, now, timestamp, EmployeeId);
    SameTarget(db, t, i, target);
    forall f | f in RESTRICTED ensures Lookup(t[i], f) == Lookup(db[i], f) {
      NonAdminFieldEffect(db, logs, actor, target, updates, now, timestamp, f);
    }
    forall f | f in SELF_SERVICE && f in updates ensures Lookup(t[i], f) == Some(updates[f]) {
      NonAdminFieldEffect(db, logs, actor, target, updates, now, timestamp, f);
    }
    SettledProfile(db[i], t[i], updates);
    StepUnchanged(t, s.logs, actor, target, updates, later, laterStamp, i);
  }

  /** What an employee's successful update leaves below its target. */
  lemma EmployeeUpdateShape(db: seq<Profile>, logs: seq<AuditEntry>, actor: Actor,
                            target: string, updates: Profile, now: nat, timestamp: string) returns (i: nat)
    requires actor.role == HrTypes.Employee
    requires UpdateProfileStep(db, logs, actor, target, updates, now, timestamp).response.status == Success
    ensures FindTarget(db, target) == Some(i)
    ensures var t := UpdateProfileStep(db, logs, actor, target, updates, now, timestamp).employees;
      |t| == |db| && i < |db| && (forall k :: 0 <= k < i ==> t[k] == db[k]) &&
      ModifiedRestricted(db[i], updates) == []
  {
    var s := UpdateProfileStep(db, logs, actor, target, updates, now, timestamp);
    i := FindTarget(db, target).value;
    if s.response.message == Updated {
      UpdateReplacesOneEntry(db, logs, actor, target, updates, now, timestamp);
    }
  }

  /** A profile an employee's update has been applied to: the update finds
      nothing left to change. */
  lemma SettledProfile(original: Profile, settled: Profile, updates: Profile)
    requires ModifiedRestricted(original, updates) == [] && Typed(updates)
    requires forall f :: f in RESTRICTED ==> Lookup(settled, f) == Lookup(original, f)
    requires forall f :: f in SELF_SERVICE && f in updates ==> Lookup(settled, f) == Some(updates[f])
    ensures ModifiedRestricted(settled, updates) == []
    ensures Diff(settled, updates, SELF_SERVICE) == map[]
  {
    forall f | f in RESTRICTED ensures !Differs(settled, updates, f) {
      assert !Differs(original, updates, f);
    }
    var d := Diff(settled, updates, SELF_SERVICE);
    forall f ensures f !in d {
      DiffKeys(settled, updates, SELF_SERVICE, f);
    }
    assert d == map[];
  }

  /** A table that agrees with `db` below `i` and still matches at `i`
      finds its target at `i` too. */
  lemma SameTarget(db: seq<Profile>, t: seq<Profile>, i: nat, target: string)
    requires FindTarget(db, target) == Some(i) && |t| == |db|
    requires forall k :: 0 <= k < i ==> t[k] == db[k]
    requires Lookup(t[i], Id) == Lookup(db[i], Id) && Lookup(t[i], EmployeeId) == Lookup(db[i], EmployeeId)
    ensures FindTarget(t, target) == Some(i)
  {
    assert Matches(t[i], target);
  }

  /** The roster entries the scenarios below use. */
  lemma MockRoster()
    ensures var db := MockProfiles();
      |db| == 6 &&
      Lookup(db[0], Id) == Some(Str("1")) && Lookup(db[0], EmployeeId) == Some(Str("EMP-101")) &&
      Lookup(db[0], Phone) == Some(Str("+91 99887 76655")) &&
      Lookup(db[1], Id) == Some(Str("2")) && Lookup(db[1], EmployeeId) == Some(Str("EMP-202")) &&
      Lookup(db[1], Role) == Some(Str("EMPLOYEE"))
  {
    var e := HrTypes.MOCK_EMPLOYEES;
    assert e[0].id == "1" && e[0].employeeId == "EMP-101" && e[0].phone == "+91 99887 76655";
    assert e[1].id == "2" && e[1].employeeId == "EMP-202" && e[1].role == HrTypes.Employee;
  }

  /** An employee may edit any employee's phone: authorization looks at
      the role only, never at whose profile it is. */
  lemma EmployeeEditsPhone(db: seq<Profile>, logs: seq<AuditEntry>, actorId: string, target: string,
                           phone: string, now: nat, timestamp: string)
    requires FindTarget(db, target).Some?
    requires Lookup(db[FindTarget(db, target).value], Phone) != Some(Str(phone))
    ensures var s := UpdateProfileStep(db, logs, Actor(actorId, HrTypes.Employee), target,
                                       map[Phone := Str(phone)], now, timestamp);
      s.response.status == Success && s.response.message == Updated &&
      Lookup(s.employees[FindTarget(db, target).value], Phone) == Some(Str(phone)) &&
      |s.logs| == |logs| + 1
  {
    var i := FindTarget(db, target).value;
    var actor := Actor(actorId, HrTypes.Employee);
    var updates := map[Phone := Str(phone)];
    forall f | f in RESTRICTED ensures !Differs(db[i], updates, f) {
      assert f != Phone;
    }
    DiffKeys(db[i], updates, SELF_SERVICE, Phone);
    StepApplied(db, logs, actor, target, updates, now, timestamp, i);
    UpdateReplacesOneEntry(db, logs, actor, target, updates, now, timestamp);
    NonAdminFieldEffect(db, logs, actor, target, updates, now, timestamp, Phone);
  }

  /** Here Rahul (id "2") edits Priya's phone, addressed by her employee id. */
  lemma RahulEditsPriyasPhone(phone: string, now: nat, timestamp: string)
    requires phone != "+91 99887 76655"
    ensures var s := UpdateProfileStep(MockProfiles(), [], Actor("2", HrTypes.Employee), "EMP-101",
                                       map[Phone := Str(phone)], now, timestamp);
      s.response.message == Updated && Lookup(s.employees[0], Phone) == Some(Str(phone))
  {
    var db := MockProfiles();
    MockRoster();
    assert Matches(db[0], "EMP-101");
    assert FindTarget(db, "EMP-101") == Some(0);
    EmployeeEditsPhone(db, [], "2", "EMP-101", phone, now, timestamp);
  }

  /** An employee sending their role as "ADMIN" is refused. */
  lemma EmployeeCannotPromoteSelf(now: nat, timestamp: string)
    ensures UpdateProfileStep(MockProfiles(), [], Actor("2", HrTypes.Employee), "2",
                              map[Role := Str("ADMIN")], now, timestamp).response
            == Response(Error, Forbidden, None)
  {
    MockRoster();
    PromotionRefused(MockProfiles(), now, timestamp);
  }

  /** The refusal above, for any table whose second entry is an employee
      with id "2" and whose first entry has a different id and employee
      id. */
  lemma PromotionRefused(db: seq<Profile>, now: nat, timestamp: string)
    requires |db| >= 2
    requires Lookup(db[0], Id) == Some(Str("1")) && Lookup(db[0], EmployeeId) == Some(Str("EMP-101"))
    requires Lookup(db[1], Id) == Some(Str("2")) && Lookup(db[1], Role) == Some(Str("EMPLOYEE"))
    ensures UpdateProfileStep(db, [], Actor("2", HrTypes.Employee), "2",
                              map[Role := Str("ADMIN")], now, timestamp).response
            == Response(Error, Forbidden, None)
  {
    var updates := map[Role := Str("ADMIN")];
    assert !Matches(db[0], "2") && Matches(db[1], "2");
    assert FindTarget(db, "2") == Some(1);
    assert Differs(db[1], updates, Role);
    NonAdminRestricted(db, [], Actor("2", HrTypes.Employee), "2", updates, now, timestamp);
  }

  // ---------------------------------------------------------------------
  // The store
  // ---------------------------------------------------------------------

  /** The persisted employee table (`aligna_employees_db`) and audit log
      (`aligna_audit_logs`). */
  class ProfileStore {
    var employees: seq<Profile>
    var hasData: bool
    var auditLogs: seq<AuditEntry>

    constructor (stored: Option<seq<Profile>>, logs: seq<AuditEntry>)
      ensures hasData == stored.Some? && auditLogs == logs
      ensures employees == if stored.Some? then stored.value else []
    {
      employees := if stored.Some? then stored.value else [];
      hasData := stored.Some?;
      auditLogs := logs;
    }

    /** The table `getEmployees` returns. */
    function Loaded(): seq<Profile>
      reads this
    {
      if hasData then employees else MockProfiles()
    }

    /** `getEmployees`: the stored table, or the roster, which is then
        stored. */
    method GetEmployees() returns (db: seq<Profile>)
      modifies this
      ensures hasData && db == employees && employees == old(Loaded())
      ensures auditLogs == old(auditLogs)
    {
      if !hasData {
        employees := MockProfiles();
        hasData := true;
      }
      db := employees;
    }

    /** `updateProfile`. */
    method UpdateProfile(actor: Actor, target: string, updates: Profile, now: nat, timestamp: string)
      returns (response: Response)
      modifies this
      ensures hasData
      ensures UpdateStep(response, employees, auditLogs)
              == UpdateProfileStep(old(Loaded()), old(auditLogs), actor, target, updates, now, timestamp)
    {
      var db := GetEmployees();
      var found := FindTarget(db, target);
      if found.None? {
        response := Response(Error, NotFound, None);
      } else {
        response := UpdateEntry(db, found.value, actor, target, updates, now, timestamp);
      }
    }

    /** The part of `updateProfile` after the target is found at `i`. */
    method UpdateEntry(db: seq<Profile>, i: nat, actor: Actor, target: string, updates: Profile,
                       now: nat, timestamp: string)
      returns (response: Response)
      requires employees == db && hasData && FindTarget(db, target) == Some(i)
      modifies this
      ensures hasData
      ensures UpdateStep(response, employees, auditLogs)
              == UpdateProfileStep(db, old(auditLogs), actor, target, updates, now, timestamp)
    {
      var original := db[i];
      var isAdmin := actor.role == HrTypes.Admin;
      if !isAdmin {
        var modifiedRestricted := ModifiedRestricted(original, updates);
        if |modifiedRestricted| > 0 {
          StepForbidden(db, auditLogs, actor, target, updates, now, timestamp, i);
          return Response(Error, Forbidden, None);
        }
      }
      var allowed := AllowedFields(actor.role, updates);
      var changed, finalUpdates := CollectChanges(original, updates, allowed);
      if |finalUpdates| == 0 {
        assert changed == map[] by {
          assert finalUpdates.Keys == {};
        }
        StepUnchanged(db, auditLogs, actor, target, updates, now, timestamp, i);
        return Response(Success, NoChanges, Some(original));
      }
      assert changed != map[] by {
        assert finalUpdates.Keys != {};
      }
      StepApplied(db, auditLogs, actor, target, updates, now, timestamp, i);
      var updated := original + finalUpdates + map[UpdatedAt := Str(timestamp), UpdatedBy := Str(actor.id)];
      employees := employees[i := updated];
      auditLogs := auditLogs + [AuditEntry("log_" + NatToString(now), Lookup(original, EmployeeId),
                                           changed, actor.id, timestamp)];
      response := Response(Success, Updated, Some(updated));
    }
  }

  /** A store holding a one-entry table, and an administrator who sends a
      salary structure for that entry, the stored one included: the store
      writes it and logs one entry. */
  method ResentStructureOnStore(entry: Profile, target: string, actor: Actor, ref: nat)
    returns (response: Response, logCount: nat)
    requires Matches(entry, target) && actor.role == HrTypes.Admin
    ensures response.status == Success && response.message == Updated
    ensures logCount == 1
  {
    var store := new ProfileStore(Some([entry]), []);
    ResentStructureIsWritten([entry], [], actor, target, ref, 0, "t");
    response := store.UpdateProfile(actor, target, map[SalaryStructure := Ref(ref)], 0, "t");
    logCount := |store.auditLogs|;
  }
}

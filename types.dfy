/**
 * The records of the hub dashboard: users of the staff and courier
 * directories, delivery tasks grouped per courier, attendance records, and
 * the access-change requests of the two-stage approval workflow.
 */
module Types {
  import opened Wrappers

  /** The eight named roles. A user's role is a string that may also hold other values (`INACTIVE`). */
  datatype Role =
    | Courier
    | Operator
    | ShiftLead
    | HubLead
    | AdminTracer
    | CourierDedicated
    | CourierPlus
    | Mitra

  /** The string value of each role, as the directories store it. */
  function RoleName(r: Role): string {
    match r
    case Courier => "Courier"
    case Operator => "Operator"
    case ShiftLead => "Shift Lead"
    case HubLead => "Hub Lead"
    case AdminTracer => "Admin Tracer"
    case CourierDedicated => "Courier Dedicated"
    case CourierPlus => "Courier Plus"
    case Mitra => "Mitra"
  }

  /** The named role a role string stands for, if any. */
  function RoleOf(s: string): (r: Option<Role>)
    ensures r.Some? ==> RoleName(r.value) == s
  {
    if s == "Courier" then Some(Courier)
    else if s == "Operator" then Some(Operator)
    else if s == "Shift Lead" then Some(ShiftLead)
    else if s == "Hub Lead" then Some(HubLead)
    else if s == "Admin Tracer" then Some(AdminTracer)
    else if s == "Courier Dedicated" then Some(CourierDedicated)
    else if s == "Courier Plus" then Some(CourierPlus)
    else if s == "Mitra" then Some(Mitra)
    else None
  }

  /** Every role's string is recognised as that role, so the eight strings are distinct. */
  lemma RoleNameRoundTrip(r: Role)
    ensures RoleOf(RoleName(r)) == Some(r)
  {
    match r
    case Courier =>
    case Operator =>
    case ShiftLead =>
    case HubLead =>
    case AdminTracer =>
    case CourierDedicated =>
    case CourierPlus =>
    case Mitra =>
  }

  /** The role string a deactivated user is given. */
  const Inactive: string := "INACTIVE"

  /** `INACTIVE` is a role string that is none of the eight named roles. */
  lemma InactiveIsNoNamedRole()
    ensures RoleOf(Inactive) == None
    ensures forall r: Role :: RoleName(r) != Inactive
  {
    forall r: Role ensures RoleName(r) != Inactive {
      RoleNameRoundTrip(r);
    }
  }

  /** A directory entry. `photoChangeCount` is `None` when absent or not a number. */
  datatype User = User(
    id: string,
    name: string,
    role: string,
    station: string,
    password: Option<string>,
    nik: Option<string>,
    avatarUrl: Option<string>,
    photoChangeCount: Option<int>)

  /** The photo-change count of a possibly missing user; absent or not-a-number reads as 0. */
  function PhotoCount(u: Option<User>): int {
    match u
    case None => 0
    case Some(v) => v.photoChangeCount.GetOr(0)
  }

  datatype TaskItem = TaskItem(
    taskId: string,
    packageCount: int,
    deliveryDate: string,
    operator: string,
    station: string,
    isScanned: Option<bool>)

  /** The delivery tasks of one courier. */
  datatype AssignTask = AssignTask(
    courierId: string,
    courierName: string,
    courierRole: string,
    totalPackages: int,
    hub: string,
    tasks: seq<TaskItem>)

  datatype AttendanceRecord = AttendanceRecord(
    id: string,
    opsId: string,
    name: string,
    shift: string,
    location: string,
    date: string,
    status: string,
    role: Option<string>,
    remarks: Option<string>)

  /** Where a request stands: `VerifiedSL` means a shift lead has verified it. */
  datatype RequestStatus = Pending | Approved | Rejected | VerifiedSL

  /** What an approved request does to its subject. */
  datatype ChangeType = Promote | Demote | ChangeAccess | ResetPhotoLimit | AddAccess | RemoveAccess

  /**
   * An access-change request. `verificationCode` is the stage-1 code for the
   * shift lead, `nextVerificationCode` the stage-2 code for the hub lead.
   */
  datatype PromotionRequest = PromotionRequest(
    id: string,
    employeeId: string,
    employeeName: string,
    currentRole: string,
    proposedRole: string,
    requestedBy: string,
    status: RequestStatus,
    changeType: ChangeType,
    verificationCode: Option<string>,
    nextVerificationCode: Option<string>,
    feedback: Option<string>,
    timestamp: string)
}

/**
 * The dashboard's own logic: the role predicates, stage codes and their
 * lookup, the two-stage review of access-change requests with its deferred
 * effect on the user directory, the photo-change limit, the scanned-task set
 * and the per-hub package statistics. The dashboard state is the class
 * `Dashboard`; clocks, randomness and user confirmations are parameters.
 */
module App {
  import opened Wrappers
  import opened Text
  import opened Types
  import opened DataService

  // =====================================================================
  // Role predicates
  // =====================================================================

  /** `checkIsCourier(role)`: the lower-cased role mentions `kurir`, `courier` or `mitra`. */
  predicate CheckIsCourier(role: string) {
    var r := ToLower(role);
    Contains(r, "kurir") || Contains(r, "courier") || Contains(r, "mitra")
  }

  /** `isManagementAllowed(role)`: the lower-cased role mentions `lead` or `tracer`. */
  predicate IsManagementAllowed(role: string) {
    var r := ToLower(role);
    Contains(r, "lead") || Contains(r, "tracer")
  }

  lemma NotAt(s: string, p: string, i: int, k: nat)
    requires k < |p| && (i < 0 || i + k >= |s| || s[i + k] != p[k])
    ensures !OccursAt(s, p, i)
  {
  }

  /** `p` cannot occur in `s` when one of its characters is missing from `s`. */
  lemma MissingChar(s: string, p: string, k: nat)
    requires k < |p| && p[k] !in s
    ensures !Contains(s, p)
  {
    forall i ensures !OccursAt(s, p, i) {
      NotAt(s, p, i, k);
    }
  }

  // One lemma per named role: which of the two predicates its string passes.

  lemma CourierAccess()
    ensures CheckIsCourier("Courier") && !IsManagementAllowed("Courier")
  {
    var s := "courier";
    assert ToLower("Courier") == s;
    assert OccursAt(s, "courier", 0);
    MissingChar(s, "lead", 0);
    MissingChar(s, "tracer", 0);
  }

  lemma CourierDedicatedAccess()
    ensures CheckIsCourier("Courier Dedicated") && !IsManagementAllowed("Courier Dedicated")
  {
    var s := "courier dedicated";
    assert ToLower("Courier Dedicated") == s;
    assert OccursAt(s, "courier", 0);
    MissingChar(s, "lead", 0);
    forall i ensures !OccursAt(s, "tracer", i) {
      if i == 14 { NotAt(s, "tracer", i, 1); } else { NotAt(s, "tracer", i, 0); }
    }
  }

  lemma CourierPlusAccess()
    ensures CheckIsCourier("Courier Plus") && !IsManagementAllowed("Courier Plus")
  {
    var s := "courier plus";
    assert ToLower("Courier Plus") == s;
    assert OccursAt(s, "courier", 0);
    MissingChar(s, "lead", 2);
    MissingChar(s, "tracer", 0);
  }

  lemma MitraAccess()
    ensures CheckIsCourier("Mitra") && !IsManagementAllowed("Mitra")
  {
    var s := "mitra";
    assert ToLower("Mitra") == s;
    assert OccursAt(s, "mitra", 0);
    MissingChar(s, "lead", 0);
    MissingChar(s, "tracer", 3);
  }

  lemma OperatorAccess()
    ensures !CheckIsCourier("Operator") && !IsManagementAllowed("Operator")
  {
    var s := "operator";
    assert ToLower("Operator") == s;
    MissingChar(s, "kurir", 0);
    MissingChar(s, "courier", 0);
    MissingChar(s, "mitra", 0);
    MissingChar(s, "lead", 0);
    MissingChar(s, "tracer", 3);
  }

  lemma ShiftLeadAccess()
    ensures !CheckIsCourier("Shift Lead") && IsManagementAllowed("Shift Lead")
  {
    var s := "shift lead";
    assert ToLower("Shift Lead") == s;
    MissingChar(s, "kurir", 0);
    MissingChar(s, "courier", 0);
    MissingChar(s, "mitra", 0);
    assert OccursAt(s, "lead", 6);
  }

  lemma HubLeadAccess()
    ensures !CheckIsCourier("Hub Lead") && IsManagementAllowed("Hub Lead")
  {
    var s := "hub lead";
    assert ToLower("Hub Lead") == s;
    MissingChar(s, "kurir", 0);
    MissingChar(s, "courier", 0);
    MissingChar(s, "mitra", 0);
    assert OccursAt(s, "lead", 4);
  }

  lemma AdminTracerAccess()
    ensures !CheckIsCourier("Admin Tracer") && IsManagementAllowed("Admin Tracer")
  {
    var s := "admin tracer";
    assert ToLower("Admin Tracer") == s;
    MissingChar(s, "kurir", 0);
    MissingChar(s, "courier", 1);
    forall i ensures !OccursAt(s, "mitra", i) {
      if i == 2 { NotAt(s, "mitra", i, 2); } else { NotAt(s, "mitra", i, 0); }
    }
    assert OccursAt(s, "tracer", 6);
  }

  /** Of the eight named roles, exactly the four courier roles pass `checkIsCourier`. */
  lemma CourierRoles(r: Role)
    ensures CheckIsCourier(RoleName(r)) <==> r == Courier || r == CourierDedicated || r == CourierPlus || r == Mitra
  {
    match r
    case Courier => CourierAccess();
    case CourierDedicated => CourierDedicatedAccess();
    case CourierPlus => CourierPlusAccess();
    case Mitra => MitraAccess();
    case Operator => OperatorAccess();
    case ShiftLead => ShiftLeadAccess();
    case HubLead => HubLeadAccess();
    case AdminTracer => AdminTracerAccess();
  }

  /** Of the eight named roles, exactly the two leads and the admin tracer pass `isManagementAllowed`. */
  lemma ManagementRoles(r: Role)
    ensures IsManagementAllowed(RoleName(r)) <==> r == ShiftLead || r == HubLead || r == AdminTracer
  {
    match r
    case Courier => CourierAccess();
    case CourierDedicated => CourierDedicatedAccess();
    case CourierPlus => CourierPlusAccess();
    case Mitra => MitraAccess();
    case Operator => OperatorAccess();
    case ShiftLead => ShiftLeadAccess();
    case HubLead => HubLeadAccess();
    case AdminTracer => AdminTracerAccess();
  }

  /** A deactivated user (`INACTIVE`) is neither a courier nor allowed into management. */
  lemma InactiveHasNoAccess()
    ensures !CheckIsCourier(Inactive) && !IsManagementAllowed(Inactive)
  {
    var s := "inactive";
    assert ToLower(Inactive) == s;
    MissingChar(s, "kurir", 0);
    MissingChar(s, "courier", 1);
    MissingChar(s, "mitra", 0);
    MissingChar(s, "lead", 0);
    MissingChar(s, "tracer", 1);
  }

  // =====================================================================
  // Stage codes
  // =====================================================================

  /**
   * `generateUniqueCode(prefix)`: the prefix, a dash, and characters 2 to 7
   * of `Math.random().toString(36)` upper-cased. `random36` is that string.
   */
  function GenerateUniqueCode(prefix: string, random36: string): (code: string)
    ensures HasPrefix(code, prefix + "-")
    ensures |prefix| + 1 <= |code| <= |prefix| + 7
  {
    prefix + "-" + ToUpper(Substring(random36, 2, 8))
  }

  /** A code issued for a stage: it starts with the stage prefix and a dash. */
  predicate IsStageCode(code: string, prefix: string) {
    HasPrefix(code, prefix + "-")
  }

  /** A stage-1 code is never a stage-2 code. */
  lemma StagesDisjoint(code: string)
    ensures !(IsStageCode(code, "SL") && IsStageCode(code, "HL"))
  {
    if IsStageCode(code, "SL") {
      assert code[0] == "SL-"[0];
    }
  }

  /** What `Number.prototype.toString(36)` writes for a number in `[0, 1)`: base-36 digits and a point. */
  predicate IsBase36Text(s: string) {
    forall k :: 0 <= k < |s| ==> '0' <= s[k] <= '9' || 'a' <= s[k] <= 'z' || s[k] == '.'
  }

  /** A code as it is stored: not empty, no surrounding whitespace, no lower-case letter. */
  predicate Canonical(code: string) {
    code != [] && !IsSpace(code[0]) && !IsSpace(code[|code| - 1]) && ToUpper(code) == code
  }

  /** Codes generated for either stage are canonical. */
  lemma GeneratedCodeCanonical(prefix: string, random36: string)
    requires prefix == "SL" || prefix == "HL"
    requires IsBase36Text(random36)
    ensures Canonical(GenerateUniqueCode(prefix, random36))
  {
    var tail := Substring(random36, 2, 8);
    Base36Slice(random36, tail);
    UpperBase36(tail);
    StageCodeShape(prefix, ToUpper(tail));
  }

  lemma StageCodeShape(prefix: string, u: string)
    requires prefix == "SL" || prefix == "HL"
    requires forall k :: 0 <= k < |u| ==> !('a' <= u[k] <= 'z') && !IsSpace(u[k])
    ensures Canonical(prefix + "-" + u)
  {
    var code := prefix + "-" + u;
    assert forall k :: 0 <= k < |code| ==> !('a' <= code[k] <= 'z') by {
      forall k | 0 <= k < |code| ensures !('a' <= code[k] <= 'z') {
        if k >= 3 { assert code[k] == u[k - 3]; }
      }
    }
    UpperFixed(code);
    if |u| > 0 {
      assert code[|code| - 1] == u[|u| - 1];
    }
  }

  /** A slice of base-36 text is base-36 text. */
  lemma Base36Slice(s: string, t: string)
    requires IsBase36Text(s)
    requires exists i, j :: 0 <= i <= j <= |s| && t == s[i..j]
    ensures IsBase36Text(t)
  {
    var i, j :| 0 <= i <= j <= |s| && t == s[i..j];
    forall k | 0 <= k < |t| ensures '0' <= t[k] <= '9' || 'a' <= t[k] <= 'z' || t[k] == '.' {
      assert t[k] == s[i + k];
    }
  }

  /** Upper-cased base-36 text holds no whitespace. */
  lemma UpperBase36(t: string)
    requires IsBase36Text(t)
    ensures forall k :: 0 <= k < |t| ==> !('a' <= ToUpper(t)[k] <= 'z') && !IsSpace(ToUpper(t)[k])
  {
    forall k | 0 <= k < |t| ensures !('a' <= ToUpper(t)[k] <= 'z') && !IsSpace(ToUpper(t)[k]) {
      assert ToUpper(t)[k] == UpperChar(t[k]);
    }
  }

  // =====================================================================
  // Code lookup
  // =====================================================================

  /** The request carries `code` in its stage-1 or its stage-2 slot. */
  predicate HasCode(p: PromotionRequest, code: string) {
    p.verificationCode == Some(code) || p.nextVerificationCode == Some(code)
  }

  /** `promotions.find(p => p.verificationCode === code || p.nextVerificationCode === code)`. */
  function FirstWithCode(ps: seq<PromotionRequest>, code: string): (r: Option<PromotionRequest>)
    ensures r.Some? ==> exists i :: 0 <= i < |ps| && ps[i] == r.value && HasCode(ps[i], code)
                                    && forall j :: 0 <= j < i ==> !HasCode(ps[j], code)
    ensures r.None? <==> forall p :: p in ps ==> !HasCode(p, code)
  {
    if |ps| == 0 then None
    else if HasCode(ps[0], code) then
      assert 0 < |ps| && ps[0] == ps[0] && HasCode(ps[0], code);
      Some(ps[0])
    else
      var r := FirstWithCode(ps[1..], code);
      if r.Some? then
        var i :| 0 <= i < |ps[1..]| && ps[1..][i] == r.value && HasCode(ps[1..][i], code)
                 && forall j :: 0 <= j < i ==> !HasCode(ps[1..][j], code);
        assert ps[i + 1] == r.value && forall j :: 0 <= j < i + 1 ==> !HasCode(ps[j], code) by {
          forall j | 0 <= j < i + 1 ensures !HasCode(ps[j], code) {
            if j > 0 { assert ps[j] == ps[1..][j - 1]; }
          }
        }
        r
      else
        assert ps == [ps[0]] + ps[1..];
        r
  }

  /** The request `handleCodeVerification` selects for the typed input, if any. */
  function FindByCode(ps: seq<PromotionRequest>, input: string): Option<PromotionRequest> {
    if Trim(input) == "" then None else FirstWithCode(ps, ToUpper(Trim(input)))
  }

  /** Input made only of whitespace never selects a request. */
  lemma BlankInputFindsNothing(ps: seq<PromotionRequest>, input: string)
    requires AllSpace(input)
    ensures FindByCode(ps, input).None?
  {
    TrimEmptyIffAllSpace(input);
  }

  /**
   * A canonical code is found however its letters are cased and whatever
   * whitespace surrounds it: the lookup behaves as for the code itself.
   */
  lemma LookupIgnoresCaseAndPadding(ps: seq<PromotionRequest>, code: string, typed: string, before: string, after: string)
    requires Canonical(code) && ToUpper(typed) == code
    requires AllSpace(before) && AllSpace(after)
    ensures FindByCode(ps, before + typed + after) == FirstWithCode(ps, code)
  {
    assert |typed| == |code|;
    assert !IsSpace(typed[0]) by {
      assert code[0] == UpperChar(typed[0]);
    }
    assert !IsSpace(typed[|typed| - 1]) by {
      assert code[|code| - 1] == UpperChar(typed[|typed| - 1]);
    }
    TrimPadded(before, typed, after);
  }

  /** Typing a stored code in lower case with stray spaces still finds it. */
  lemma LowerCaseCodeIsFound(ps: seq<PromotionRequest>, i: nat, before: string, after: string)
    requires i < |ps| && ps[i].verificationCode.Some? && Canonical(ps[i].verificationCode.value)
    requires AllSpace(before) && AllSpace(after)
    ensures FindByCode(ps, before + ToLower(ps[i].verificationCode.value) + after).Some?
  {
    var code := ps[i].verificationCode.value;
    UpperOfLower(code);
    LookupIgnoresCaseAndPadding(ps, code, ToLower(code), before, after);
    assert HasCode(ps[i], code);
  }

  // =====================================================================
  // Requests and the review state machine
  // =====================================================================

  /**
   * The shape every request keeps: a stage-1 code from creation on; a stage-2
   * code only once a shift lead has verified, and always from then on.
   */
  predicate WellFormed(r: PromotionRequest) {
    && r.verificationCode.Some? && IsStageCode(r.verificationCode.value, "SL")
    && (r.nextVerificationCode.Some? ==> IsStageCode(r.nextVerificationCode.value, "HL"))
    && (r.status == Pending ==> r.nextVerificationCode.None?)
    && (r.status == VerifiedSL || r.status == Approved ==> r.nextVerificationCode.Some?)
  }

  /** In well-formed requests a stage-1 code can never be confused with a stage-2 code. */
  lemma CodeSlotsDisjoint(p: PromotionRequest, q: PromotionRequest)
    requires WellFormed(p) && WellFormed(q) && q.nextVerificationCode.Some?
    ensures p.verificationCode.value != q.nextVerificationCode.value
  {
    StagesDisjoint(p.verificationCode.value);
  }

  /** What one review writes back (if anything) and what it leaves for the timer (if anything). */
  datatype Review = Review(updated: Option<PromotionRequest>, deferred: Option<PromotionRequest>)

  /**
   * `processReview(isApproved)` on the selected request `req`, for a reviewer
   * whose role string is `reviewerRole`; `hlCode` is the stage-2 code it
   * would issue. Approval moves `Pending` to `Verified_SL` for exactly
   * `Shift Lead`, and `Verified_SL` to `Approved` for exactly `Hub Lead`,
   * handing the request as selected to the timer; every other approval
   * writes nothing. Rejection always writes `Rejected`.
   */
  function ReviewOf(req: PromotionRequest, reviewerRole: string, approve: bool, hlCode: string): (rv: Review)
    ensures rv.updated.Some? ==>
              rv.updated.value == req.(status := rv.updated.value.status,
                                       nextVerificationCode := rv.updated.value.nextVerificationCode)
    ensures !approve ==> rv.updated == Some(req.(status := Rejected)) && rv.deferred.None?
    ensures approve ==> (rv.updated.Some? <==> ((req.status == Pending && reviewerRole == RoleName(ShiftLead))
                                              || (req.status == VerifiedSL && reviewerRole == RoleName(HubLead))))
    ensures approve && req.status == Pending && rv.updated.Some? ==>
              rv.updated.value.status == VerifiedSL && rv.updated.value.nextVerificationCode == Some(hlCode)
    ensures approve && req.status == VerifiedSL && rv.updated.Some? ==>
              rv.updated.value.status == Approved && rv.updated.value.nextVerificationCode == req.nextVerificationCode
    ensures rv.deferred.Some? <==> approve && req.status == VerifiedSL && reviewerRole == RoleName(HubLead)
    ensures rv.deferred.Some? ==> rv.deferred.value == req
  {
    if approve then
      if req.status == Pending && reviewerRole == RoleName(ShiftLead) then
        Review(Some(req.(status := VerifiedSL, nextVerificationCode := Some(hlCode))), None)
      else if req.status == VerifiedSL && reviewerRole == RoleName(HubLead) then
        Review(Some(req.(status := Approved)), Some(req))
      else Review(None, None)
    else Review(Some(req.(status := Rejected)), None)
  }

  /** A review of a well-formed request writes back a well-formed request. */
  lemma ReviewKeepsWellFormed(req: PromotionRequest, reviewerRole: string, approve: bool, random36: string)
    requires WellFormed(req)
    ensures var rv := ReviewOf(req, reviewerRole, approve, GenerateUniqueCode("HL", random36));
            rv.updated.Some? ==> WellFormed(rv.updated.value)
  {
  }

  /**
   * A `Verified_SL` request is selected by its stage-1 code just as by its
   * stage-2 code, and a hub lead then approves it.
   */
  lemma HubLeadCanUseStageOneCode(ps: seq<PromotionRequest>, i: nat, hlCode: string)
    requires i < |ps| && ps[i].status == VerifiedSL && ps[i].verificationCode.Some?
    requires Canonical(ps[i].verificationCode.value)
    requires forall j :: 0 <= j < i ==> !HasCode(ps[j], ps[i].verificationCode.value)
    ensures var found := FindByCode(ps, ps[i].verificationCode.value);
            && found == Some(ps[i])
            && ReviewOf(found.value, RoleName(HubLead), true, hlCode).updated == Some(ps[i].(status := Approved))
  {
    var code := ps[i].verificationCode.value;
    TrimOfTrimmed(code);
    FirstWithCodeAt(ps, code, i);
  }

  /** The lookup finds the request at `i` when it holds the code and none before it does. */
  lemma FirstWithCodeAt(ps: seq<PromotionRequest>, code: string, i: nat)
    requires i < |ps| && HasCode(ps[i], code)
    requires forall j :: 0 <= j < i ==> !HasCode(ps[j], code)
    ensures FirstWithCode(ps, code) == Some(ps[i])
  {
    var found := FirstWithCode(ps, code);
    assert ps[i] in ps;
    var k :| 0 <= k < |ps| && ps[k] == found.value && HasCode(ps[k], code)
             && forall j :: 0 <= j < k ==> !HasCode(ps[j], code);
  }

  /** `prev.map(p => p.id === id ? r : p)`: every request with that id becomes `r`. */
  function ReplaceById(ps: seq<PromotionRequest>, id: string, r: PromotionRequest): (qs: seq<PromotionRequest>)
    ensures |qs| == |ps|
    ensures forall i :: 0 <= i < |ps| ==> qs[i] == (if ps[i].id == id then r else ps[i])
  {
    seq(|ps|, i requires 0 <= i < |ps| => if ps[i].id == id then r else ps[i])
  }

  /**
   * Replacing by id keeps the list's length and the id at every position,
   * changes nothing when no request has that id, and is idempotent.
   */
  lemma ReplaceByIdProperties(ps: seq<PromotionRequest>, id: string, r: PromotionRequest)
    requires r.id == id
    ensures forall i :: 0 <= i < |ps| ==> ReplaceById(ps, id, r)[i].id == ps[i].id
    ensures (forall p :: p in ps ==> p.id != id) ==> ReplaceById(ps, id, r) == ps
    ensures ReplaceById(ReplaceById(ps, id, r), id, r) == ReplaceById(ps, id, r)
  {
  }

  /** Replacing with a well-formed request keeps a well-formed list well-formed. */
  lemma ReplaceKeepsWellFormed(ps: seq<PromotionRequest>, id: string, r: PromotionRequest)
    requires forall p :: p in ps ==> WellFormed(p)
    requires WellFormed(r)
    ensures forall p :: p in ReplaceById(ps, id, r) ==> WellFormed(p)
  {
    var qs := ReplaceById(ps, id, r);
    forall p | p in qs ensures WellFormed(p) {
      var i :| 0 <= i < |qs| && qs[i] == p;
      assert ps[i] in ps;
    }
  }

  // =====================================================================
  // The deferred effect
  // =====================================================================

  /**
   * What the timer does to the request's subject: `ResetPhotoLimit` sets the
   * photo count to 0, `RemoveAccess` sets the role to `INACTIVE`, any other
   * type sets the role to the proposed one. Nothing else about the user changes.
   */
  function ApplyChange(u: User, req: PromotionRequest): (v: User)
    ensures req.changeType == ResetPhotoLimit ==> v == u.(photoChangeCount := Some(0))
    ensures req.changeType == RemoveAccess ==> v == u.(role := Inactive)
    ensures req.changeType != ResetPhotoLimit && req.changeType != RemoveAccess ==> v == u.(role := req.proposedRole)
  {
    match req.changeType
    case ResetPhotoLimit => u.(photoChangeCount := Some(0))
    case RemoveAccess => u.(role := Inactive)
    case _ => u.(role := req.proposedRole)
  }

  /** `prev.map(u => u.id === req.employeeId ? change(u) : u)`. */
  function ApplyDeferred(users: seq<User>, req: PromotionRequest): (vs: seq<User>)
    ensures |vs| == |users|
    ensures forall i :: 0 <= i < |users| ==> vs[i] == (if users[i].id == req.employeeId then ApplyChange(users[i], req) else users[i])
  {
    seq(|users|, i requires 0 <= i < |users| => if users[i].id == req.employeeId then ApplyChange(users[i], req) else users[i])
  }

  /**
   * The deferred effect never looks at the request's status: a request
   * rejected after the hub lead's approval still takes effect when the timer
   * fires, exactly as if it had stayed approved.
   */
  lemma DeferredIgnoresStatus(users: seq<User>, req: PromotionRequest, s: RequestStatus)
    ensures ApplyDeferred(users, req.(status := s)) == ApplyDeferred(users, req)
  {
  }

  /** A removed user ends with role `INACTIVE`, which grants neither courier nor management access. */
  lemma RemovedUserLosesAccess(users: seq<User>, req: PromotionRequest, i: nat)
    requires req.changeType == RemoveAccess && i < |users| && users[i].id == req.employeeId
    ensures var v := ApplyDeferred(users, req)[i];
            v.role == Inactive && !CheckIsCourier(v.role) && !IsManagementAllowed(v.role)
  {
    InactiveHasNoAccess();
  }

  /**
   * Approval by the hub lead followed by a rejection of the same request: the
   * list ends `Rejected`, yet the timer still carries the approved change.
   */
  lemma RejectionAfterApprovalStillApplies(req: PromotionRequest, reviewerRole: string, hlCode: string, users: seq<User>)
    requires req.status == VerifiedSL
    ensures var approved := ReviewOf(req, RoleName(HubLead), true, hlCode);
            var rejected := ReviewOf(approved.updated.value, reviewerRole, false, hlCode);
            && rejected.updated.value.status == Rejected
            && approved.deferred == Some(req)
            && ApplyDeferred(users, approved.deferred.value) == ApplyDeferred(users, rejected.updated.value)
  {
    var approved := ReviewOf(req, RoleName(HubLead), true, hlCode);
    var rejected := ReviewOf(approved.updated.value, reviewerRole, false, hlCode);
    assert rejected.updated.value == req.(status := Rejected);
    DeferredIgnoresStatus(users, req, Rejected);
  }

  // =====================================================================
  // Submitting a request
  // =====================================================================

  /** The two types that keep the subject's current role as the proposed one. */
  predicate KeepsRole(t: ChangeType) {
    t == ResetPhotoLimit || t == RemoveAccess
  }

  /**
   * `handlePromotionSubmission()` once an employee, a requester and a type are
   * selected: refused (`None`) when the type needs a target role and none is
   * chosen; otherwise a `Pending` request with the stage-1 `code` and no
   * stage-2 code, whose proposed role is the current role for the two
   * role-keeping types and the chosen one otherwise.
   */
  function SubmissionOf(emp: User, requester: User, t: ChangeType, chosenRole: string, now: nat, timestamp: string, code: string)
    : (r: Option<PromotionRequest>)
    ensures r.None? <==> chosenRole == "" && !KeepsRole(t)
    ensures r.Some? ==> && r.value.status == Pending && r.value.changeType == t
                        && r.value.verificationCode == Some(code) && r.value.nextVerificationCode.None?
                        && r.value.employeeId == emp.id && r.value.employeeName == emp.name
                        && r.value.currentRole == emp.role && r.value.requestedBy == requester.name
                        && r.value.proposedRole == (if KeepsRole(t) then emp.role else chosenRole)
                        && r.value.id == "adj-" + Decimal(now)
  {
    var target := if KeepsRole(t) then emp.role else chosenRole;
    if target == "" && !KeepsRole(t) then None
    else Some(PromotionRequest("adj-" + Decimal(now), emp.id, emp.name, emp.role, target, requester.name,
                               Pending, t, Some(code), None, None, timestamp))
  }

  /** A submitted request with a generated stage-1 code is well formed. */
  lemma SubmissionWellFormed(emp: User, requester: User, t: ChangeType, chosenRole: string, now: nat, timestamp: string, random36: string)
    ensures var r := SubmissionOf(emp, requester, t, chosenRole, now, timestamp, GenerateUniqueCode("SL", random36));
            r.Some? ==> WellFormed(r.value)
  {
  }

  /** Submissions at different instants get different ids, and never the id of a photo-reset request. */
  lemma RequestIdsDistinct(a: nat, b: nat)
    ensures a != b ==> "adj-" + Decimal(a) != "adj-" + Decimal(b)
    ensures "adj-" + Decimal(a) != "reset-" + Decimal(b)
  {
    if a != b && "adj-" + Decimal(a) == "adj-" + Decimal(b) {
      assert Decimal(a) == ("adj-" + Decimal(a))[4..];
      DecimalInjective(a, b);
    }
    assert ("adj-" + Decimal(a))[0] == 'a';
    assert ("reset-" + Decimal(b))[0] == 'r';
  }

  // =====================================================================
  // The photo-change limit
  // =====================================================================

  /** How many photo changes a user other than an admin tracer may make. */
  const PhotoLimit: int := 5

  datatype PhotoOutcome = LimitReached | Allowed(nextCount: int)

  /**
   * The limit check of `handleAvatarChange`: a user who is not an admin tracer
   * and has made `PhotoLimit` or more changes is refused; otherwise the change
   * goes ahead and the count grows by one, or stays as it is for an admin tracer.
   */
  function PhotoDecision(count: int, isAdminTracer: bool): (o: PhotoOutcome)
    ensures o.LimitReached? <==> !isAdminTracer && count >= PhotoLimit
    ensures o.Allowed? && !isAdminTracer ==> o.nextCount == count + 1 <= PhotoLimit
    ensures o.Allowed? && isAdminTracer ==> o.nextCount == count
  {
    if !isAdminTracer && count >= PhotoLimit then LimitReached
    else Allowed(if isAdminTracer then count else count + 1)
  }

  /** How many of `attempts` consecutive photo changes a user who is not an admin tracer gets, starting at `count`. */
  function ChangesGranted(count: int, attempts: nat): nat
    decreases attempts
  {
    if attempts == 0 then 0
    else match PhotoDecision(count, false)
         case LimitReached => 0
         case Allowed(next) => 1 + ChangesGranted(next, attempts - 1)
  }

  /** From a count of `c`, exactly `PhotoLimit - c` further changes are granted (none once the limit is reached). */
  lemma {:induction false} ChangesGrantedUpToLimit(count: int, attempts: nat)
    ensures ChangesGranted(count, attempts) == if count >= PhotoLimit then 0
                                               else if attempts <= PhotoLimit - count then attempts
                                               else PhotoLimit - count
    decreases attempts
  {
    if attempts > 0 && count < PhotoLimit {
      ChangesGrantedUpToLimit(count + 1, attempts - 1);
    }
  }

  /** `allUsers.find(u => u.id === id)`. */
  function FindUser(users: seq<User>, id: string): (r: Option<User>)
    ensures r.Some? ==> r.value in users && r.value.id == id
    ensures r.None? ==> forall u :: u in users ==> u.id != id
    ensures r.Some? ==> exists i :: 0 <= i < |users| && users[i] == r.value
                                    && forall j :: 0 <= j < i ==> users[j].id != id
  {
    if |users| == 0 then None
    else if users[0].id == id then Some(users[0])
    else
      var r := FindUser(users[1..], id);
      assert forall j :: 1 <= j < |users| ==> users[j] == users[1..][j - 1];
      r
  }

  /** `allUsers.find(u => u.id === userId) || currentUser`: whose photo count the limit reads. */
  function PhotoSubject(users: seq<User>, current: Option<User>, userId: string): Option<User> {
    match FindUser(users, userId)
    case Some(u) => Some(u)
    case None => current
  }

  predicate IsAdminTracer(current: Option<User>) {
    current.Some? && current.value.role == RoleName(AdminTracer)
  }

  /**
   * The request a user at the limit may file: a `ResetPhotoLimit` for the
   * subject (blank fields when there is none), proposing the role it has.
   */
  function ResetRequestOf(subject: Option<User>, requester: User, now: nat, timestamp: string, code: string): (r: PromotionRequest)
    ensures r.status == Pending && r.changeType == ResetPhotoLimit
    ensures r.proposedRole == r.currentRole && r.verificationCode == Some(code) && r.nextVerificationCode.None?
    ensures r.employeeId == (if subject.Some? then subject.value.id else "")
    ensures r.employeeName == (if subject.Some? then subject.value.name else "")
    ensures r.currentRole == (if subject.Some? then subject.value.role else "")
    ensures r.requestedBy == requester.name && r.id == "reset-" + Decimal(now)
  {
    var id := if subject.Some? then subject.value.id else "";
    var name := if subject.Some? then subject.value.name else "";
    var role := if subject.Some? then subject.value.role else "";
    PromotionRequest("reset-" + Decimal(now), id, name, role, role, requester.name,
                     Pending, ResetPhotoLimit, Some(code), None, None, timestamp)
  }

  /** The user after a photo change: the new picture and count. */
  function WithPhoto(u: User, dataUrl: string, count: int): User {
    u.(avatarUrl := Some(dataUrl), photoChangeCount := Some(count))
  }

  /** `prev.map(u => u.id === userId ? { ...u, avatarUrl, photoChangeCount } : u)`. */
  function UsersWithPhoto(users: seq<User>, userId: string, dataUrl: string, count: int): (vs: seq<User>)
    ensures |vs| == |users|
    ensures forall i :: 0 <= i < |users| ==> vs[i] == (if users[i].id == userId then WithPhoto(users[i], dataUrl, count) else users[i])
  {
    seq(|users|, i requires 0 <= i < |users| => if users[i].id == userId then WithPhoto(users[i], dataUrl, count) else users[i])
  }

  // =====================================================================
  // Scanned tasks
  // =====================================================================

  /** The scan toggle: the id leaves the set if it is in it and joins it otherwise. */
  function Toggled(s: set<string>, id: string): (r: set<string>)
    ensures id in r <==> id !in s
    ensures forall x :: x != id ==> (x in r <==> x in s)
  {
    if id in s then s - {id} else s + {id}
  }

  /** Toggling the same id twice restores the set. */
  lemma ToggleTwice(s: set<string>, id: string)
    ensures Toggled(Toggled(s, id), id) == s
  {
  }

  // =====================================================================
  // Per-hub statistics
  // =====================================================================

  /** The integer part of a hub's statistics (the rounded percentage is not modelled). */
  datatype HubStats = HubStats(
    name: string,
    totalPackages: int,
    scannedPackages: int,
    unscannedPackages: int,
    totalTasks: int,
    scannedTasks: int,
    pendingTasks: int)

  /** The three hubs the dashboard reports on. */
  const TargetHubs: seq<string> := ["Tompobulu Hub", "Biringbulu Hub", "Bungaya Hub"]

  /** A group belongs to a hub by exact name, or when its lower-cased hub mentions the hub's first word. */
  predicate HubMatches(hub: string, hubName: string) {
    hub == hubName || Contains(ToLower(hub), ToLower(Split(hubName, ' ')[0]))
  }

  /** `tasks.filter(t => hubMatches(t.hub, hubName))`, in order. */
  function HubTasks(groups: seq<AssignTask>, hubName: string): (r: seq<AssignTask>)
    ensures |r| <= |groups|
    ensures forall g :: g in r <==> g in groups && HubMatches(g.hub, hubName)
  {
    if |groups| == 0 then []
    else
      var init := groups[..|groups| - 1];
      var last := groups[|groups| - 1];
      assert groups == init + [last];
      HubTasks(init, hubName) + (if HubMatches(last.hub, hubName) then [last] else [])
  }

  /** Unfolding `HubTasks` once, at the last group. */
  lemma HubTasksLast(groups: seq<AssignTask>, hubName: string)
    requires |groups| > 0
    ensures HubTasks(groups, hubName) == HubTasks(groups[..|groups| - 1], hubName)
              + (if HubMatches(groups[|groups| - 1].hub, hubName) then [groups[|groups| - 1]] else [])
  {
  }

  /**
   * `filter` keeps order and multiplicity: the groups of a hub in two
   * stretches are those of each, in turn.
   */
  lemma {:induction false} HubTasksAppend(a: seq<AssignTask>, b: seq<AssignTask>, hubName: string)
    ensures HubTasks(a + b, hubName) == HubTasks(a, hubName) + HubTasks(b, hubName)
    decreases |b|
  {
    if |b| > 0 {
      var init := b[..|b| - 1];
      var ab := a + b;
      assert ab[..|ab| - 1] == a + init;
      assert ab[|ab| - 1] == b[|b| - 1];
      HubTasksLast(ab, hubName);
      HubTasksLast(b, hubName);
      HubTasksAppend(a, init, hubName);
    } else {
      assert a + b == a;
    }
  }

  /** A single group is kept exactly when its hub matches. */
  lemma HubTasksSingle(g: AssignTask, hubName: string)
    ensures HubTasks([g], hubName) == if HubMatches(g.hub, hubName) then [g] else []
  {
    assert [g][..0] == [];
  }

  /** The tasks of all groups, group by group. */
  function AllTasks(groups: seq<AssignTask>): seq<TaskItem> {
    if |groups| == 0 then [] else AllTasks(groups[..|groups| - 1]) + groups[|groups| - 1].tasks
  }

  /** A task is among all tasks exactly when it is a task of one of the groups. */
  lemma {:induction false} AllTasksMembers(groups: seq<AssignTask>, t: TaskItem)
    ensures t in AllTasks(groups) <==> exists g :: g in groups && t in g.tasks
  {
    if |groups| > 0 {
      var init := groups[..|groups| - 1];
      var last := groups[|groups| - 1];
      AllTasksMembers(init, t);
      assert groups == init + [last];
      if exists g :: g in groups && t in g.tasks {
        var g :| g in groups && t in g.tasks;
        if g != last { assert g in init; }
      }
    }
  }

  /** The tasks whose id is in the scanned set, in order. */
  function ScannedOnly(ts: seq<TaskItem>, scanned: set<string>): (r: seq<TaskItem>)
    ensures |r| <= |ts|
  {
    if |ts| == 0 then []
    else
      var last := ts[|ts| - 1];
      ScannedOnly(ts[..|ts| - 1], scanned) + (if last.taskId in scanned then [last] else [])
  }

  /** The kept tasks are exactly the tasks whose id has been scanned. */
  lemma {:induction false} ScannedOnlyMembers(ts: seq<TaskItem>, scanned: set<string>)
    ensures forall t :: t in ScannedOnly(ts, scanned) <==> t in ts && t.taskId in scanned
  {
    if |ts| > 0 {
      var init := ts[..|ts| - 1];
      assert ts == init + [ts[|ts| - 1]];
      ScannedOnlyMembers(init, scanned);
    }
  }

  /**
   * `filter` keeps order and multiplicity: the scanned tasks of two
   * stretches are those of each, in turn.
   */
  lemma {:induction false} ScannedOnlyAppend(a: seq<TaskItem>, b: seq<TaskItem>, scanned: set<string>)
    ensures ScannedOnly(a + b, scanned) == ScannedOnly(a, scanned) + ScannedOnly(b, scanned)
    decreases |b|
  {
    if |b| > 0 {
      var init := b[..|b| - 1];
      var ab := a + b;
      assert ab[..|ab| - 1] == a + init;
      assert ab[|ab| - 1] == b[|b| - 1];
      ScannedOnlyAppend(a, init, scanned);
    } else {
      assert a + b == a;
    }
  }

  /** A single task is kept exactly when its id has been scanned. */
  lemma ScannedOnlySingle(t: TaskItem, scanned: set<string>)
    ensures ScannedOnly([t], scanned) == if t.taskId in scanned then [t] else []
  {
    assert [t][..0] == [];
  }

  /** With no negative package count, the scanned tasks never hold more packages than all tasks. */
  lemma {:induction false} ScannedPackagesBounded(ts: seq<TaskItem>, scanned: set<string>)
    requires forall t :: t in ts ==> t.packageCount >= 0
    ensures 0 <= SumPackages(ScannedOnly(ts, scanned)) <= SumPackages(ts)
  {
    if |ts| > 0 {
      var init := ts[..|ts| - 1];
      var last := ts[|ts| - 1];
      assert forall t :: t in init ==> t in ts;
      ScannedPackagesBounded(init, scanned);
      var sc := ScannedOnly(init, scanned);
      assert SumPackages(ts) == SumPackages(init) + last.packageCount;
      if last.taskId in scanned {
        assert ScannedOnly(ts, scanned) == sc + [last];
        assert (sc + [last])[..|sc|] == sc;
        assert SumPackages(sc + [last]) == SumPackages(sc) + last.packageCount;
      } else {
        assert ScannedOnly(ts, scanned) == sc + [];
        assert sc + [] == sc;
      }
    }
  }

  /** One more task: its packages join the total, and the scanned total when its id is scanned. */
  lemma CountStep(done: seq<TaskItem>, task: TaskItem, scanned: set<string>)
    ensures SumPackages(done + [task]) == SumPackages(done) + task.packageCount
    ensures ScannedOnly(done + [task], scanned) == ScannedOnly(done, scanned) + (if task.taskId in scanned then [task] else [])
    ensures SumPackages(ScannedOnly(done + [task], scanned))
            == SumPackages(ScannedOnly(done, scanned)) + (if task.taskId in scanned then task.packageCount else 0)
  {
    assert (done + [task])[..|done|] == done;
    var sc := ScannedOnly(done, scanned);
    if task.taskId in scanned {
      assert (sc + [task])[..|sc|] == sc;
    } else {
      assert sc + [] == sc;
    }
  }

  /** The statistics of some groups as the dashboard defines them. */
  function StatsOf(groups: seq<AssignTask>, scanned: set<string>, name: string): HubStats {
    var all := AllTasks(groups);
    var sc := ScannedOnly(all, scanned);
    HubStats(name, SumPackages(all), SumPackages(sc), SumPackages(all) - SumPackages(sc), |all|, |sc|, |all| - |sc|)
  }

  /**
   * With no negative package count in the groups, the scanned packages are at
   * most the total, so the unscanned count and the pending task count are
   * never negative.
   */
  lemma StatsConsistent(groups: seq<AssignTask>, scanned: set<string>, name: string)
    requires forall g, t :: g in groups && t in g.tasks ==> t.packageCount >= 0
    ensures var s := StatsOf(groups, scanned, name);
            && 0 <= s.scannedPackages <= s.totalPackages
            && s.unscannedPackages == s.totalPackages - s.scannedPackages >= 0
            && 0 <= s.scannedTasks <= s.totalTasks
            && s.pendingTasks == s.totalTasks - s.scannedTasks >= 0
  {
    var all := AllTasks(groups);
    forall t | t in all ensures t.packageCount >= 0 {
      AllTasksMembers(groups, t);
    }
    ScannedPackagesBounded(all, scanned);
  }

  /** Groups built by `getTasks` only hold positive package counts, so their statistics are consistent. */
  lemma TaskGroupsStatsConsistent(rows: seq<Row>, couriers: seq<User>, groups: seq<AssignTask>,
                                  scanned: set<string>, name: string)
    requires forall g :: g in groups ==> exists k :: k in AppearanceOrder(TaskStream(rows)) && g == GroupOf(TaskStream(rows), couriers, k)
    ensures var s := StatsOf(groups, scanned, name);
            0 <= s.scannedPackages <= s.totalPackages && 0 <= s.scannedTasks <= s.totalTasks
  {
    forall g, t | g in groups && t in g.tasks ensures t.packageCount >= 0 {
      var k :| k in AppearanceOrder(TaskStream(rows)) && g == GroupOf(TaskStream(rows), couriers, k);
      GroupsConsistent(rows, couriers, k);
    }
    StatsConsistent(groups, scanned, name);
  }

  /** The four running sums of `dashboardStats`. */
  datatype Tally = Tally(packages: int, scannedPackages: int, tasks: int, scannedTasks: int)

  /** The sums over a list of tasks. */
  function TallyOf(ts: seq<TaskItem>, scanned: set<string>): Tally {
    var sc := ScannedOnly(ts, scanned);
    Tally(SumPackages(ts), SumPackages(sc), |ts|, |sc|)
  }

  /** The inner `forEach` of `dashboardStats`: the tasks of one group are added to the running sums. */
  method AddTasks(t: Tally, ghost done: seq<TaskItem>, ts: seq<TaskItem>, scanned: set<string>) returns (u: Tally)
    requires t == TallyOf(done, scanned)
    ensures u == TallyOf(done + ts, scanned)
  {
    u := t;
    var j := 0;
    assert done + ts[..0] == done;
    while j < |ts|
      invariant 0 <= j <= |ts|
      invariant u == TallyOf(done + ts[..j], scanned)
    {
      var task := ts[j];
      assert done + ts[..j + 1] == (done + ts[..j]) + [task];
      CountStep(done + ts[..j], task, scanned);
      if task.taskId in scanned {
        u := Tally(u.packages + task.packageCount, u.scannedPackages + task.packageCount, u.tasks + 1, u.scannedTasks + 1);
      } else {
        u := u.(packages := u.packages + task.packageCount, tasks := u.tasks + 1);
      }
      j := j + 1;
    }
    assert ts[..j] == ts;
  }

  /** The per-hub accumulation of `dashboardStats`: the hub's groups, then each group's tasks. */
  method HubStat(groups: seq<AssignTask>, scanned: set<string>, hubName: string) returns (s: HubStats)
    ensures s == StatsOf(HubTasks(groups, hubName), scanned, hubName)
  {
    var hubTasks := HubTasks(groups, hubName);
    var t := Tally(0, 0, 0, 0);
    var i := 0;
    while i < |hubTasks|
      invariant 0 <= i <= |hubTasks|
      invariant t == TallyOf(AllTasks(hubTasks[..i]), scanned)
    {
      assert hubTasks[..i + 1][..i] == hubTasks[..i];
      t := AddTasks(t, AllTasks(hubTasks[..i]), hubTasks[i].tasks, scanned);
      i := i + 1;
    }
    assert hubTasks[..i] == hubTasks;
    s := HubStats(hubName, t.packages, t.scannedPackages, t.packages - t.scannedPackages,
                  t.tasks, t.scannedTasks, t.tasks - t.scannedTasks);
  }

  /** `dashboardStats`: the statistics of the three target hubs, in order. */
  method DashboardStats(groups: seq<AssignTask>, scanned: set<string>) returns (stats: seq<HubStats>)
    ensures |stats| == |TargetHubs|
    ensures forall i :: 0 <= i < |TargetHubs| ==> stats[i] == StatsOf(HubTasks(groups, TargetHubs[i]), scanned, TargetHubs[i])
  {
    stats := [];
    var i := 0;
    while i < |TargetHubs|
      invariant 0 <= i <= |TargetHubs|
      invariant |stats| == i
      invariant forall k :: 0 <= k < i ==> stats[k] == StatsOf(HubTasks(groups, TargetHubs[k]), scanned, TargetHubs[k])
    {
      var s := HubStat(groups, scanned, TargetHubs[i]);
      stats := stats + [s];
      i := i + 1;
    }
  }

  // =====================================================================
  // The dashboard state
  // =====================================================================

  /** The state the dashboard's handlers read and write. */
  class Dashboard {
    var currentUser: Option<User>
    var allUsers: seq<User>
    var tasks: seq<AssignTask>
    var promotions: seq<PromotionRequest>
    var scannedTaskIds: set<string>
    var customAvatars: map<string, string>
    var changedAvatarIds: set<string>
    var verificationInput: string
    var pendingReview: Option<PromotionRequest>
    var selectedEmpForAdjustment: Option<User>
    var adjustmentTargetRole: string
    var adjustmentType: Option<ChangeType>
    var searchEmployeeQuery: string

    /** Every request, and the one selected for review, is well formed. */
    predicate Valid()
      reads this
    {
      && (forall p :: p in promotions ==> WellFormed(p))
      && (pendingReview.Some? ==> WellFormed(pendingReview.value))
    }

    /**
     * On a valid dashboard no request's stage-1 code is ever another
     * request's stage-2 code, so a typed code selects one stage only.
     */
    lemma StageCodesDistinct(i: nat, j: nat)
      requires Valid() && i < |promotions| && j < |promotions|
      requires promotions[j].nextVerificationCode.Some?
      ensures promotions[i].verificationCode.Some?
      ensures promotions[i].verificationCode.value != promotions[j].nextVerificationCode.value
    {
      assert promotions[i] in promotions && promotions[j] in promotions;
      CodeSlotsDisjoint(promotions[i], promotions[j]);
    }

    /** A signed-in (or signed-out) dashboard over loaded users and task groups, with no requests yet. */
    constructor (user: Option<User>, users: seq<User>, groups: seq<AssignTask>)
      ensures currentUser == user && allUsers == users && tasks == groups
      ensures promotions == [] && pendingReview.None? && scannedTaskIds == {}
      ensures customAvatars == map[] && changedAvatarIds == {} && verificationInput == ""
      ensures selectedEmpForAdjustment.None? && adjustmentTargetRole == "" && adjustmentType.None?
      ensures searchEmployeeQuery == ""
      ensures Valid()
    {
      currentUser := user;
      allUsers := users;
      tasks := groups;
      promotions := [];
      scannedTaskIds := {};
      customAvatars := map[];
      changedAvatarIds := {};
      verificationInput := "";
      pendingReview := None;
      selectedEmpForAdjustment := None;
      adjustmentTargetRole := "";
      adjustmentType := None;
      searchEmployeeQuery := "";
    }

    /**
     * `handleCodeVerification()`: blank input does nothing; otherwise the
     * first request holding the trimmed, upper-cased input in either code
     * slot is selected and the input cleared. When none holds it, nothing changes.
     */
    method HandleCodeVerification()
      modifies this`pendingReview, this`verificationInput
      ensures var found := FindByCode(promotions, old(verificationInput));
              && (found.Some? ==> pendingReview == found && verificationInput == "")
              && (found.None? ==> pendingReview == old(pendingReview) && verificationInput == old(verificationInput))
      ensures old(Valid()) ==> Valid()
    {
      if Trim(verificationInput) == "" {
        return;
      }
      var input := ToUpper(Trim(verificationInput));
      var req := FirstWithCode(promotions, input);
      if req.None? {
        return;
      }
      pendingReview := req;
      verificationInput := "";
    }

    /**
     * `processReview(isApproved)`: without a selected request or a signed-in
     * user nothing happens. Otherwise the review of the selected request (as
     * it was when selected) is written over every request with its id, the
     * selection is cleared, and an approval by the hub lead returns the
     * request the timer will apply. `random36` feeds the stage-2 code.
     */
    method ProcessReview(isApproved: bool, random36: string) returns (timer: Option<PromotionRequest>)
      modifies this`promotions, this`pendingReview
      ensures old(pendingReview).None? || currentUser.None? ==>
                promotions == old(promotions) && pendingReview == old(pendingReview) && timer.None?
      ensures old(pendingReview).Some? && currentUser.Some? ==>
                var req := old(pendingReview).value;
                var rv := ReviewOf(req, currentUser.value.role, isApproved, GenerateUniqueCode("HL", random36));
                && pendingReview.None?
                && timer == rv.deferred
                && promotions == (if rv.updated.Some? then ReplaceById(old(promotions), req.id, rv.updated.value)
                                  else old(promotions))
      ensures old(Valid()) ==> Valid()
    {
      timer := None;
      if pendingReview.None? || currentUser.None? {
        return;
      }
      var req := pendingReview.value;
      var role := currentUser.value.role;
      ghost var valid := Valid();
      if isApproved {
        if req.status == Pending && role == RoleName(ShiftLead) {
          var nextCode := GenerateUniqueCode("HL", random36);
          var updated := req.(status := VerifiedSL, nextVerificationCode := Some(nextCode));
          if valid { ReplaceKeepsWellFormed(promotions, req.id, updated); }
          promotions := ReplaceById(promotions, req.id, updated);
        } else if req.status == VerifiedSL && role == RoleName(HubLead) {
          var approved := req.(status := Approved);
          if valid { ReplaceKeepsWellFormed(promotions, req.id, approved); }
          promotions := ReplaceById(promotions, req.id, approved);
          timer := Some(req);
        }
      } else {
        var rejected := req.(status := Rejected);
        if valid { ReplaceKeepsWellFormed(promotions, req.id, rejected); }
        promotions := ReplaceById(promotions, req.id, rejected);
      }
      pendingReview := None;
    }

    /** The timer firing: the deferred change is applied to the user directory. */
    method FireDeferred(req: PromotionRequest)
      modifies this`allUsers
      ensures allUsers == ApplyDeferred(old(allUsers), req)
      ensures old(Valid()) ==> Valid()
    {
      allUsers := ApplyDeferred(allUsers, req);
    }

    /**
     * `handlePromotionSubmission()`: without a selected employee, a signed-in
     * user and a type nothing happens; a refused submission changes nothing;
     * otherwise the request is appended and the selection, the type and the
     * search are cleared. `now`, `timestamp` and `random36` stand for the
     * clock and the random source.
     */
    method HandlePromotionSubmission(now: nat, timestamp: string, random36: string)
      modifies this`promotions, this`selectedEmpForAdjustment, this`adjustmentType, this`searchEmployeeQuery
      ensures old(selectedEmpForAdjustment).None? || currentUser.None? || old(adjustmentType).None? ==>
                && promotions == old(promotions) && selectedEmpForAdjustment == old(selectedEmpForAdjustment)
                && adjustmentType == old(adjustmentType) && searchEmployeeQuery == old(searchEmployeeQuery)
      ensures old(selectedEmpForAdjustment).Some? && currentUser.Some? && old(adjustmentType).Some? ==>
                var sub := SubmissionOf(old(selectedEmpForAdjustment).value, currentUser.value, old(adjustmentType).value,
                                        adjustmentTargetRole, now, timestamp, GenerateUniqueCode("SL", random36));
                && (sub.None? ==> promotions == old(promotions) && selectedEmpForAdjustment == old(selectedEmpForAdjustment)
                                  && adjustmentType == old(adjustmentType) && searchEmployeeQuery == old(searchEmployeeQuery))
                && (sub.Some? ==> promotions == old(promotions) + [sub.value] && selectedEmpForAdjustment.None?
                                  && adjustmentType.None? && searchEmployeeQuery == "")
      ensures old(Valid()) ==> Valid()
    {
      if selectedEmpForAdjustment.None? || currentUser.None? || adjustmentType.None? {
        return;
      }
      var emp := selectedEmpForAdjustment.value;
      var t := adjustmentType.value;
      var targetRole := if KeepsRole(t) then emp.role else adjustmentTargetRole;
      if targetRole == "" && !KeepsRole(t) {
        return;
      }
      var code := GenerateUniqueCode("SL", random36);
      var newReq := PromotionRequest("adj-" + Decimal(now), emp.id, emp.name, emp.role, targetRole,
                                     currentUser.value.name, Pending, t, Some(code), None, None, timestamp);
      promotions := promotions + [newReq];
      selectedEmpForAdjustment := None;
      adjustmentType := None;
      searchEmployeeQuery := "";
    }

    /**
     * `handleAvatarChange(userId, file)`: `confirmed` is the answer to the
     * confirmation prompt, `dataUrl` the file as read. At the limit, a
     * `ResetPhotoLimit` request is filed when confirmed by a signed-in user
     * and nothing else changes; otherwise the picture is stored, the id is
     * marked as changed, and the subject's count is updated wherever it is held.
     */
    method HandleAvatarChange(userId: string, confirmed: bool, dataUrl: string, now: nat, timestamp: string, random36: string)
      modifies this`promotions, this`customAvatars, this`changedAvatarIds, this`currentUser, this`allUsers
      ensures var subject := PhotoSubject(old(allUsers), old(currentUser), userId);
              var decision := PhotoDecision(PhotoCount(subject), IsAdminTracer(old(currentUser)));
              && (decision.LimitReached? ==>
                    && promotions == old(promotions) + (if confirmed && old(currentUser).Some?
                                                        then [ResetRequestOf(subject, old(currentUser).value, now, timestamp,
                                                                             GenerateUniqueCode("SL", random36))]
                                                        else [])
                    && customAvatars == old(customAvatars) && changedAvatarIds == old(changedAvatarIds)
                    && currentUser == old(currentUser) && allUsers == old(allUsers))
              && (decision.Allowed? ==>
                    && promotions == old(promotions)
                    && customAvatars == old(customAvatars)[userId := dataUrl]
                    && changedAvatarIds == old(changedAvatarIds) + {userId}
                    && allUsers == UsersWithPhoto(old(allUsers), userId, dataUrl, decision.nextCount)
                    && currentUser == (if old(currentUser).Some? && old(currentUser).value.id == userId
                                       then Some(WithPhoto(old(currentUser).value, dataUrl, decision.nextCount))
                                       else old(currentUser)))
      ensures old(Valid()) ==> Valid()
    {
      var subject := match FindUser(allUsers, userId) case Some(u) => Some(u) case None => currentUser;
      var currentCount := PhotoCount(subject);
      var isAdminTracer := currentUser.Some? && currentUser.value.role == RoleName(AdminTracer);
      if !isAdminTracer && currentCount >= 5 {
        if confirmed && currentUser.Some? {
          var code := GenerateUniqueCode("SL", random36);
          var newReq := ResetRequestOf(subject, currentUser.value, now, timestamp, code);
          promotions := promotions + [newReq];
        }
        return;
      }
      var nextCount := if isAdminTracer then currentCount else currentCount + 1;
      customAvatars := customAvatars[userId := dataUrl];
      changedAvatarIds := changedAvatarIds + {userId};
      if currentUser.Some? && currentUser.value.id == userId {
        currentUser := Some(WithPhoto(currentUser.value, dataUrl, nextCount));
      }
      allUsers := UsersWithPhoto(allUsers, userId, dataUrl, nextCount);
    }

    /** The `onToggleScan` handler: the task id's membership in the scanned set flips. */
    method ToggleScan(id: string)
      modifies this`scannedTaskIds
      ensures scannedTaskIds == Toggled(old(scannedTaskIds), id)
    {
      if id in scannedTaskIds {
        scannedTaskIds := scannedTaskIds - {id};
      } else {
        scannedTaskIds := scannedTaskIds + {id};
      }
    }

    /** The `dashboardStats` memo over the current task groups and scanned set. */
    method Stats() returns (stats: seq<HubStats>)
      ensures |stats| == |TargetHubs|
      ensures forall i :: 0 <= i < |TargetHubs| ==>
                stats[i] == StatsOf(HubTasks(tasks, TargetHubs[i]), scannedTaskIds, TargetHubs[i])
    {
      stats := DashboardStats(tasks, scannedTaskIds);
    }
  }
}

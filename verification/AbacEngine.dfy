/** The attribute-based access decision: eight rules evaluated in order, the first denial ending the evaluation.
    Attribute values that some rule names have constructors of their own; any other string is an Other. */
module AbacEngine {

  datatype Clearance = Low | Medium | High | TopSecret {
    function Value(): int {
      match this
      case Low => 1
      case Medium => 2
      case High => 3
      case TopSecret => 4
    }
  }

  datatype Role = Admin | Auditor | Viewer | OtherRole(name: string)

  datatype Location = External | OtherLocation(name: string)

  datatype Device = Mobile | Tablet | OtherDevice(name: string)

  datatype Threat = HighThreat | CriticalThreat | OtherThreat(name: string)

  datatype Subject = Subject(role: Role, department: string, clearance: Clearance, location: Location,
                             device: Device, mfaVerified: bool)

  datatype Resource = Resource(sensitivity: Clearance, ownerDepartment: string)

  datatype Environment = Environment(currentHour: int, threat: Threat) {
    predicate BusinessHours() { 9 <= currentHour < 18 }
  }

  datatype Action = Pass | Deny | MaskColumn(fields: set<string>) | MaskCell(fields: set<string>)

  datatype Rule = ClearanceLevel | BusinessHours | LocationRestriction | DeviceType | MfaRequirement
                | DepartmentSeparation | ThreatLevel | SensitiveFieldMask

  const RULES: seq<Rule> := [ClearanceLevel, BusinessHours, LocationRestriction, DeviceType, MfaRequirement,
                             DepartmentSeparation, ThreatLevel, SensitiveFieldMask]

  function Apply(rule: Rule, s: Subject, r: Resource, e: Environment): Action {
    var level := r.sensitivity.Value();
    match rule
    case ClearanceLevel => if s.clearance.Value() < level then Deny else Pass
    case BusinessHours =>
      if e.BusinessHours() || level < High.Value() || s.role == Admin then Pass
      else if level >= TopSecret.Value() then Deny
      else MaskColumn({"amount", "user_id", "score", "account_number"})
    case LocationRestriction =>
      if s.location != External then Pass
      else if level >= TopSecret.Value() then Deny
      else if level >= High.Value() then MaskColumn({"user_id", "account_number", "phone", "email"})
      else Pass
    case DeviceType =>
      if (s.device == Mobile || s.device == Tablet) && level >= High.Value()
      then MaskCell({"amount", "score"}) else Pass
    case MfaRequirement => if !s.mfaVerified && level >= High.Value() then Deny else Pass
    case DepartmentSeparation =>
      if r.ownerDepartment != "" && s.department != r.ownerDepartment && s.role != Admin && level >= Medium.Value()
      then MaskColumn({"user_id", "account_number", "phone", "score"}) else Pass
    case ThreatLevel =>
      if (e.threat == HighThreat || e.threat == CriticalThreat) && s.role != Admin && s.role != Auditor
         && level >= Medium.Value()
      then MaskColumn({"amount", "user_id", "score", "rule_ids"}) else Pass
    case SensitiveFieldMask =>
      if s.role == Viewer then MaskColumn({"user_id", "account_number", "phone", "email", "ip"}) else Pass
  }

  datatype Level = NoMask | Column | Row | Cell

  datatype Decision = Decision(allowed: bool, deniedBy: seq<Rule>, maskedFields: set<string>, maskedRows: seq<nat>,
                               level: Level, appliedRules: seq<Rule>)

  function FieldsOf(action: Action): set<string> {
    match action
    case MaskColumn(fields) => fields
    case MaskCell(fields) => fields
    case _ => {}
  }

  // ---- What the evaluation decides ----------------------------------------------------------------------

  /** Some rule among the first n denies. */
  predicate Denied(s: Subject, r: Resource, e: Environment, n: nat)
    requires n <= |RULES|
  {
    exists i :: 0 <= i < n && Apply(RULES[i], s, r, e) == Deny
  }

  /** The fields of the masking rules among the first n. */
  ghost function Masked(s: Subject, r: Resource, e: Environment, n: nat): set<string>
    requires n <= |RULES|
  {
    if n == 0 then {} else Masked(s, r, e, n - 1) + FieldsOf(Apply(RULES[n - 1], s, r, e))
  }

  /** The masking level left by the last masking rule among the first n. */
  ghost function LevelAfter(s: Subject, r: Resource, e: Environment, n: nat): Level
    requires n <= |RULES|
  {
    if n == 0 then NoMask
    else match Apply(RULES[n - 1], s, r, e)
      case MaskColumn(_) => Column
      case MaskCell(_) => Cell
      case _ => LevelAfter(s, r, e, n - 1)
  }

  ghost function Fired(s: Subject, r: Resource, e: Environment, n: nat): seq<Rule>
    requires n <= |RULES|
  {
    if n == 0 then []
    else Fired(s, r, e, n - 1) + (if Apply(RULES[n - 1], s, r, e) == Pass then [] else [RULES[n - 1]])
  }

  /** Rule n is the first to deny. */
  ghost predicate EndsAt(s: Subject, r: Resource, e: Environment, n: int) {
    0 <= n < |RULES| && !Denied(s, r, e, n) && Apply(RULES[n], s, r, e) == Deny
  }

  method Evaluate(s: Subject, r: Resource, e: Environment) returns (d: Decision)
    ensures d.allowed <==> !Denied(s, r, e, |RULES|)
    ensures d.allowed ==> d.maskedFields == Masked(s, r, e, |RULES|) && d.level == LevelAfter(s, r, e, |RULES|)
    ensures d.allowed ==> d.appliedRules == Fired(s, r, e, |RULES|) && d.deniedBy == []
    ensures !d.allowed ==> d.maskedFields == {} && d.level == NoMask
    ensures !d.allowed ==> exists n :: EndsAt(s, r, e, n) && d.deniedBy == [RULES[n]]
                                       && d.appliedRules == Fired(s, r, e, n + 1)
    ensures d.allowed ==> MaskedWhen(d.maskedFields, Late(s, r, e), Outside(s, r), Handheld(s, r), Foreign(s, r),
                                     Threatened(s, r, e), s.role == Viewer)
    ensures d.maskedRows == []
  {
    var applied: seq<Rule>, fields: set<string>, level := [], {}, NoMask;
    for n := 0 to |RULES|
      invariant !Denied(s, r, e, n)
      invariant applied == Fired(s, r, e, n) && fields == Masked(s, r, e, n) && level == LevelAfter(s, r, e, n)
      invariant level != Row
    {
      var rule := RULES[n];
      var action := Apply(rule, s, r, e);
      if action != Pass {
        applied := applied + [rule];
        match action
        case Deny =>
          assert EndsAt(s, r, e, n) && Fired(s, r, e, n + 1) == applied;
          return Decision(false, [rule], {}, [], NoMask, applied);
        case MaskColumn(fs) => fields, level := fields + fs, Column;
        case MaskCell(fs) =>
          fields := fields + fs;
          if level != Row { level := Cell; }
      }
    }
    MaskedFieldsIff(s, r, e);
    d := Decision(true, [], fields, [], level, applied);
  }

  // ---- The decision in terms of the attributes ----------------------------------------------------------

  predicate Sensitive(r: Resource) { r.sensitivity == High || r.sensitivity == TopSecret }

  predicate OutOfHours(s: Subject, e: Environment) {
    (e.currentHour < 9 || e.currentHour >= 18) && s.role != Admin
  }

  predicate Insufficient(s: Subject, r: Resource) {
    match r.sensitivity
    case Low => false
    case Medium => s.clearance == Low
    case High => s.clearance == Low || s.clearance == Medium
    case TopSecret => s.clearance != TopSecret
  }

  /** The resource is sensitive and read out of hours, from outside, or on a handheld device. */
  predicate Late(s: Subject, r: Resource, e: Environment) { Sensitive(r) && OutOfHours(s, e) }

  predicate Outside(s: Subject, r: Resource) { Sensitive(r) && s.location == External }

  predicate Handheld(s: Subject, r: Resource) { Sensitive(r) && (s.device == Mobile || s.device == Tablet) }

  /** The resource is not of low sensitivity and belongs to another department, or is read under threat. */
  predicate Foreign(s: Subject, r: Resource) {
    r.sensitivity != Low && r.ownerDepartment != "" && s.department != r.ownerDepartment && s.role != Admin
  }

  predicate Threatened(s: Subject, r: Resource, e: Environment) {
    && r.sensitivity != Low && (e.threat == HighThreat || e.threat == CriticalThreat)
    && s.role != Admin && s.role != Auditor
  }

  /** Access is granted exactly when the clearance suffices, sensitive resources come with MFA, and top secrets are
      neither read from outside nor, by anyone but an administrator, out of hours. */
  lemma AllowedIff(s: Subject, r: Resource, e: Environment)
    ensures !Denied(s, r, e, |RULES|) <==>
      && !Insufficient(s, r) && (Sensitive(r) ==> s.mfaVerified)
      && (r.sensitivity == TopSecret ==> s.location != External && !OutOfHours(s, e))
  {
    assert RULES[0] == ClearanceLevel && RULES[1] == BusinessHours && RULES[2] == LocationRestriction;
    assert RULES[3] == DeviceType && RULES[4] == MfaRequirement && RULES[5] == DepartmentSeparation;
    assert RULES[6] == ThreatLevel && RULES[7] == SensitiveFieldMask;
  }

  /** The reason of a denial: insufficient clearance before the hour, the hour before the location, and these before
      a missing MFA. */
  lemma DeniedBecause(s: Subject, r: Resource, e: Environment, n: int)
    requires EndsAt(s, r, e, n)
    ensures RULES[n] ==
      if Insufficient(s, r) then ClearanceLevel
      else if r.sensitivity == TopSecret && OutOfHours(s, e) then BusinessHours
      else if r.sensitivity == TopSecret && s.location == External then LocationRestriction
      else MfaRequirement
  {
    assert RULES[0] == ClearanceLevel && RULES[1] == BusinessHours && RULES[2] == LocationRestriction;
    assert RULES[3] == DeviceType && RULES[4] == MfaRequirement && RULES[5] == DepartmentSeparation;
    assert RULES[6] == ThreatLevel && RULES[7] == SensitiveFieldMask;
  }

  /** When a rule masks, in terms of the attributes. */
  predicate Masks(rule: Rule, s: Subject, r: Resource, e: Environment) {
    match rule
    case BusinessHours => Late(s, r, e)
    case LocationRestriction => Outside(s, r)
    case DeviceType => Handheld(s, r)
    case DepartmentSeparation => Foreign(s, r)
    case ThreatLevel => Threatened(s, r, e)
    case SensitiveFieldMask => s.role == Viewer
    case _ => false
  }

  /** Exactly which fields are masked, given which of the six conditions hold. */
  ghost predicate MaskedWhen(masked: set<string>, late: bool, outside: bool, handheld: bool, foreign: bool,
                             threatened: bool, viewer: bool)
  {
    && ("user_id" in masked <==> late || outside || foreign || threatened || viewer)
    && ("account_number" in masked <==> late || outside || foreign || viewer)
    && ("phone" in masked <==> outside || foreign || viewer)
    && ("email" in masked <==> outside || viewer)
    && ("ip" in masked <==> viewer)
    && ("amount" in masked <==> late || handheld || threatened)
    && ("score" in masked <==> late || handheld || foreign || threatened)
    && ("rule_ids" in masked <==> threatened)
    && masked <= {"user_id", "account_number", "phone", "email", "ip", "amount", "score", "rule_ids"}
  }

  /** For a granted access, exactly which fields are masked for which subject, resource and environment. */
  lemma MaskedFieldsIff(s: Subject, r: Resource, e: Environment)
    requires !Denied(s, r, e, |RULES|)
    ensures MaskedWhen(Masked(s, r, e, |RULES|), Late(s, r, e), Outside(s, r), Handheld(s, r), Foreign(s, r),
                       Threatened(s, r, e), s.role == Viewer)
  {
    AllowedIff(s, r, e);
    MaskedEarly(s, r, e);
    MaskedLate(s, r, e);
    Contributions(Late(s, r, e), Outside(s, r), Handheld(s, r), Foreign(s, r), Threatened(s, r, e), s.role == Viewer);
  }

  lemma Contributions(late: bool, outside: bool, handheld: bool, foreign: bool, threatened: bool, viewer: bool)
    ensures MaskedWhen(Early(late, outside, handheld) + After(foreign, threatened, viewer), late, outside, handheld,
                       foreign, threatened, viewer)
  {
  }

  /** What the first three masking rules and the last three ones contribute. */
  ghost function Early(late: bool, outside: bool, handheld: bool): set<string> {
    (if late then {"amount", "user_id", "score", "account_number"} else {})
    + (if outside then {"user_id", "account_number", "phone", "email"} else {})
    + (if handheld then {"amount", "score"} else {})
  }

  ghost function After(foreign: bool, threatened: bool, viewer: bool): set<string> {
    (if foreign then {"user_id", "account_number", "phone", "score"} else {})
    + (if threatened then {"amount", "user_id", "score", "rule_ids"} else {})
    + (if viewer then {"user_id", "account_number", "phone", "email", "ip"} else {})
  }

  lemma MaskedEarly(s: Subject, r: Resource, e: Environment)
    requires r.sensitivity == TopSecret ==> s.location != External && !OutOfHours(s, e)
    ensures Masked(s, r, e, 4) == Early(Late(s, r, e), Outside(s, r), Handheld(s, r))
  {
    RuleFields(s, r, e);
    assert Masked(s, r, e, 0) == {};
    MaskedNext(s, r, e, 0, ClearanceLevel);
    MaskedNext(s, r, e, 1, BusinessHours);
    MaskedNext(s, r, e, 2, LocationRestriction);
    MaskedNext(s, r, e, 3, DeviceType);
  }

  lemma MaskedLate(s: Subject, r: Resource, e: Environment)
    requires r.sensitivity == TopSecret ==> s.location != External && !OutOfHours(s, e)
    ensures Masked(s, r, e, |RULES|)
         == Masked(s, r, e, 4) + After(Foreign(s, r), Threatened(s, r, e), s.role == Viewer)
  {
    RuleFields(s, r, e);
    MaskedNext(s, r, e, 4, MfaRequirement);
    MaskedNext(s, r, e, 5, DepartmentSeparation);
    MaskedNext(s, r, e, 6, ThreatLevel);
    MaskedNext(s, r, e, 7, SensitiveFieldMask);
  }

  lemma MaskedNext(s: Subject, r: Resource, e: Environment, n: nat, rule: Rule)
    requires n < |RULES| && RULES[n] == rule
    ensures Masked(s, r, e, n + 1) == Masked(s, r, e, n) + FieldsOf(Apply(rule, s, r, e))
  {
  }

  lemma LevelNext(s: Subject, r: Resource, e: Environment, n: nat, rule: Rule)
    requires n < |RULES| && RULES[n] == rule
    ensures LevelAfter(s, r, e, n + 1)
         == match Apply(rule, s, r, e)
            case MaskColumn(_) => Column
            case MaskCell(_) => Cell
            case _ => LevelAfter(s, r, e, n)
  {
  }

  lemma RuleFields(s: Subject, r: Resource, e: Environment)
    requires r.sensitivity == TopSecret ==> s.location != External && !OutOfHours(s, e)
    ensures FieldsOf(Apply(ClearanceLevel, s, r, e)) == FieldsOf(Apply(MfaRequirement, s, r, e)) == {}
    ensures FieldsOf(Apply(BusinessHours, s, r, e))
         == if Late(s, r, e) then {"amount", "user_id", "score", "account_number"} else {}
    ensures FieldsOf(Apply(LocationRestriction, s, r, e))
         == if Outside(s, r) then {"user_id", "account_number", "phone", "email"} else {}
    ensures FieldsOf(Apply(DeviceType, s, r, e)) == if Handheld(s, r) then {"amount", "score"} else {}
    ensures FieldsOf(Apply(DepartmentSeparation, s, r, e))
         == if Foreign(s, r) then {"user_id", "account_number", "phone", "score"} else {}
    ensures FieldsOf(Apply(ThreatLevel, s, r, e))
         == if Threatened(s, r, e) then {"amount", "user_id", "score", "rule_ids"} else {}
    ensures FieldsOf(Apply(SensitiveFieldMask, s, r, e))
         == if s.role == Viewer then {"user_id", "account_number", "phone", "email", "ip"} else {}
  {
  }

  /** For a granted access, exactly which rules are reported as applied, in their order. */
  lemma {:induction false} FiredIff(s: Subject, r: Resource, e: Environment, n: nat)
    requires n <= |RULES| && !Denied(s, r, e, |RULES|)
    ensures Fired(s, r, e, n) == MaskingRules(s, r, e, n)
  {
    if n > 0 {
      FiredIff(s, r, e, n - 1);
      AllowedIff(s, r, e);
    }
  }

  ghost function MaskingRules(s: Subject, r: Resource, e: Environment, n: nat): seq<Rule>
    requires n <= |RULES|
  {
    if n == 0 then []
    else MaskingRules(s, r, e, n - 1) + (if Masks(RULES[n - 1], s, r, e) then [RULES[n - 1]] else [])
  }

  lemma LevelEarly(s: Subject, r: Resource, e: Environment)
    requires r.sensitivity == TopSecret ==> s.location != External && !OutOfHours(s, e)
    ensures LevelAfter(s, r, e, 5)
         == if Handheld(s, r) then Cell else if Late(s, r, e) || Outside(s, r) then Column else NoMask
  {
    LevelNext(s, r, e, 0, ClearanceLevel);
    LevelNext(s, r, e, 1, BusinessHours);
    LevelNext(s, r, e, 2, LocationRestriction);
    LevelNext(s, r, e, 3, DeviceType);
    LevelNext(s, r, e, 4, MfaRequirement);
  }

  /** For a granted access, the exact level: the last masking rule decides, and the device rule masks cells. */
  lemma LevelIff(s: Subject, r: Resource, e: Environment)
    requires !Denied(s, r, e, |RULES|)
    ensures LevelAfter(s, r, e, |RULES|) ==
      if Foreign(s, r) || Threatened(s, r, e) || s.role == Viewer then Column
      else if Handheld(s, r) then Cell
      else if Late(s, r, e) || Outside(s, r) then Column
      else NoMask
  {
    AllowedIff(s, r, e);
    LevelEarly(s, r, e);
    LevelNext(s, r, e, 5, DepartmentSeparation);
    LevelNext(s, r, e, 6, ThreatLevel);
    LevelNext(s, r, e, 7, SensitiveFieldMask);
  }

  /** A decision masks at some level exactly when it masks some field. */
  lemma {:induction false} LevelIffFields(s: Subject, r: Resource, e: Environment, n: nat)
    requires n <= |RULES|
    ensures LevelAfter(s, r, e, n) == NoMask <==> Masked(s, r, e, n) == {}
    ensures LevelAfter(s, r, e, n) != Row
  {
    if n > 0 {
      LevelIffFields(s, r, e, n - 1);
      MaskingFields(RULES[n - 1], s, r, e);
    }
  }

  lemma MaskingFields(rule: Rule, s: Subject, r: Resource, e: Environment)
    ensures FieldsOf(Apply(rule, s, r, e)) == {} <==> Apply(rule, s, r, e) in {Pass, Deny}
  {
    var fields := FieldsOf(Apply(rule, s, r, e));
    assert Apply(rule, s, r, e) !in {Pass, Deny} ==> "user_id" in fields || "amount" in fields;
  }

  // ---- Sensitivity --------------------------------------------------------------------------------------------

  lemma RuleMonotone(rule: Rule, s: Subject, r: Resource, e: Environment, lower: Clearance)
    requires lower.Value() <= r.sensitivity.Value() && Apply(rule, s, r, e) != Deny
    ensures Apply(rule, s, r.(sensitivity := lower), e) in {Pass, Apply(rule, s, r, e)}
  {
  }

  lemma {:induction false} MaskedMonotone(s: Subject, r: Resource, e: Environment, lower: Clearance, n: nat)
    requires n <= |RULES| && lower.Value() <= r.sensitivity.Value() && !Denied(s, r, e, |RULES|)
    ensures Masked(s, r.(sensitivity := lower), e, n) <= Masked(s, r, e, n)
  {
    if n > 0 {
      MaskedMonotone(s, r, e, lower, n - 1);
      RuleMonotone(RULES[n - 1], s, r, e, lower);
    }
  }

  /** Lowering the sensitivity of a resource never turns a granted access into a denial and never masks more. */
  lemma LowerSensitivityGrantsMore(s: Subject, r: Resource, e: Environment, lower: Clearance)
    requires lower.Value() <= r.sensitivity.Value() && !Denied(s, r, e, |RULES|)
    ensures !Denied(s, r.(sensitivity := lower), e, |RULES|)
    ensures Masked(s, r.(sensitivity := lower), e, |RULES|) <= Masked(s, r, e, |RULES|)
  {
    AllowedIff(s, r, e);
    AllowedIff(s, r.(sensitivity := lower), e);
    MaskedMonotone(s, r, e, lower, |RULES|);
  }
}

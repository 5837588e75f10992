/** Validation of the `user` block of an experiment configuration: which fields must be
    present, their types and bounds, the order of the first and last cycles, and the
    drivers named by `driver_validation_blocks`.

    Field values arrive already typed; a field that holds `None` is `Null`, one that is
    absent is `Missing`. Cycles are instants on one timeline, as integers. The set of
    supported drivers is a parameter.
 */
module Validation {
  import opened Results
  import opened Text

  // ---------------------------------------------------------------------------
  // input and output

  datatype RawICs = RawICs(externalModel: Entry<string>, offsetHours: Entry<int>)

  datatype RawLBCs = RawLBCs(
    externalModel: Entry<string>,
    intervalHours: Entry<int>,
    offsetHours: Entry<int>)

  /** The `user` block as the configuration gives it; lists may hold `None` items. */
  datatype RawUser = RawUser(
    cycleFrequency: Entry<int>,
    driverValidationBlocks: Entry<seq<Option<string>>>,
    experimentDir: Entry<string>,
    firstCycle: Entry<int>,
    ics: Entry<RawICs>,
    lastCycle: Entry<int>,
    lbcs: Entry<RawLBCs>,
    meshLabel: Entry<string>,
    platform: Entry<string>,
    workflowBlocks: Entry<seq<Option<string>>>)

  datatype ICs = ICs(externalModel: string, offsetHours: int)

  datatype LBCs = LBCs(externalModel: string, intervalHours: int, offsetHours: int)

  /** A validated `user` block. */
  datatype User = User(
    cycleFrequency: int,
    driverValidationBlocks: Option<seq<string>>,
    experimentDir: string,
    firstCycle: int,
    ics: ICs,
    lastCycle: int,
    lbcs: LBCs,
    meshLabel: string,
    platform: string,
    workflowBlocks: seq<string>)

  /** Why a field, or the block as a whole, was refused. */
  datatype IssueKind =
    | Required
    | IntType
    | GreaterThanZero
    | AtLeastZero
    | ModelLiteral
    | StringType
    | PathType
    | DatetimeType
    | ListType
    | ModelType
    | CycleOrder
    | UnsupportedDriver(driver: string)

  /** One validation error: where it is, as the path of keys from the top, and why. */
  datatype Issue = Issue(loc: seq<string>, kind: IssueKind)

  datatype Outcome = Valid(user: User) | Invalid(issues: seq<Issue>)

  /** The external models initial and lateral boundary conditions may come from. */
  predicate KnownModel(s: string) { s == "GFS" || s == "RAP" }

  // ---------------------------------------------------------------------------
  // one field

  function PositiveIntIssues(loc: seq<string>, e: Entry<int>): (r: seq<Issue>)
    ensures |r| == 0 <==> e.Given? && e.value > 0
    ensures |r| <= 1 && forall i :: 0 <= i < |r| ==> r[i].loc == loc
    ensures e.Missing? <==> r == [Issue(loc, Required)]
  {
    match e
    case Missing => [Issue(loc, Required)]
    case Null => [Issue(loc, IntType)]
    case Given(n) => if n > 0 then [] else [Issue(loc, GreaterThanZero)]
  }

  function NonNegativeIntIssues(loc: seq<string>, e: Entry<int>): (r: seq<Issue>)
    ensures |r| == 0 <==> e.Given? && e.value >= 0
    ensures |r| <= 1 && forall i :: 0 <= i < |r| ==> r[i].loc == loc
    ensures e.Missing? <==> r == [Issue(loc, Required)]
  {
    match e
    case Missing => [Issue(loc, Required)]
    case Null => [Issue(loc, IntType)]
    case Given(n) => if n >= 0 then [] else [Issue(loc, AtLeastZero)]
  }

  function ModelIssues(loc: seq<string>, e: Entry<string>): (r: seq<Issue>)
    ensures |r| == 0 <==> e.Given? && KnownModel(e.value)
    ensures |r| <= 1 && forall i :: 0 <= i < |r| ==> r[i].loc == loc
    ensures e.Missing? <==> r == [Issue(loc, Required)]
  {
    match e
    case Missing => [Issue(loc, Required)]
    case Null => [Issue(loc, ModelLiteral)]
    case Given(s) => if KnownModel(s) then [] else [Issue(loc, ModelLiteral)]
  }

  /** A field that must be present and not `None`; `kind` says what `None` fails to be. */
  function PresentIssues<T>(loc: seq<string>, e: Entry<T>, kind: IssueKind): (r: seq<Issue>)
    requires kind != Required
    ensures |r| == 0 <==> e.Given?
    ensures |r| <= 1 && forall i :: 0 <= i < |r| ==> r[i].loc == loc
    ensures e.Missing? <==> r == [Issue(loc, Required)]
  {
    match e
    case Missing => [Issue(loc, Required)]
    case Null => [Issue(loc, kind)]
    case Given(_) => []
  }

  /** One issue for each `None` item of a list of strings, at the item's index. */
  function ItemIssues(loc: seq<string>, items: seq<Option<string>>): (r: seq<Issue>)
    ensures |r| == 0 <==> forall i :: 0 <= i < |items| ==> items[i].Some?
    ensures forall i :: 0 <= i < |r| ==> |r[i].loc| == |loc| + 1 && r[i].loc[..|loc|] == loc
    decreases |items|
  {
    if |items| == 0 then []
    else
      var init := ItemIssues(loc, items[..|items| - 1]);
      var k := |items| - 1;
      assert forall i :: 0 <= i < k ==> items[..k][i] == items[i];
      if items[k].None? then init + [Issue(loc + [IntText(k)], StringType)] else init
  }

  /** A list of strings; an optional one may be absent or `None`. */
  function ListIssues(loc: seq<string>, e: Entry<seq<Option<string>>>, optional: bool): (r: seq<Issue>)
    ensures |r| == 0 <==>
              if e.Given? then forall i :: 0 <= i < |e.value| ==> e.value[i].Some? else optional
    ensures forall i :: 0 <= i < |r| ==> |r[i].loc| >= |loc| && r[i].loc[..|loc|] == loc
    ensures Issue(loc, Required) in r <==> e.Missing? && !optional
  {
    match e
    case Missing => if optional then [] else [Issue(loc, Required)]
    case Null => if optional then [] else [Issue(loc, ListType)]
    case Given(items) => ItemIssues(loc, items)
  }

  function ICsIssues(loc: seq<string>, e: Entry<RawICs>): (r: seq<Issue>)
    ensures |r| == 0 <==> e.Given? && e.value.externalModel.Given? &&
                            KnownModel(e.value.externalModel.value) &&
                            e.value.offsetHours.Given? && e.value.offsetHours.value >= 0
    ensures e.Missing? <==> Issue(loc, Required) in r
    ensures forall i :: 0 <= i < |r| ==> |r[i].loc| >= |loc| && r[i].loc[..|loc|] == loc
  {
    match e
    case Missing => [Issue(loc, Required)]
    case Null => [Issue(loc, ModelType)]
    case Given(ics) =>
      ModelIssues(loc + ["external_model"], ics.externalModel)
        + NonNegativeIntIssues(loc + ["offset_hours"], ics.offsetHours)
  }

  function LBCsIssues(loc: seq<string>, e: Entry<RawLBCs>): (r: seq<Issue>)
    ensures |r| == 0 <==> e.Given? && e.value.externalModel.Given? &&
                            KnownModel(e.value.externalModel.value) &&
                            e.value.intervalHours.Given? && e.value.intervalHours.value > 0 &&
                            e.value.offsetHours.Given? && e.value.offsetHours.value >= 0
    ensures e.Missing? <==> Issue(loc, Required) in r
    ensures forall i :: 0 <= i < |r| ==> |r[i].loc| >= |loc| && r[i].loc[..|loc|] == loc
  {
    match e
    case Missing => [Issue(loc, Required)]
    case Null => [Issue(loc, ModelType)]
    case Given(lbcs) =>
      ModelIssues(loc + ["external_model"], lbcs.externalModel)
        + PositiveIntIssues(loc + ["interval_hours"], lbcs.intervalHours)
        + NonNegativeIntIssues(loc + ["offset_hours"], lbcs.offsetHours)
  }

  // ---------------------------------------------------------------------------
  // the block

  function At(field: string): seq<string> { ["user", field] }

  /** The field errors of the block, in the order the fields are declared. */
  function FieldIssues(u: RawUser): seq<Issue>
  {
    Flat(FieldParts(u))
  }

  /** Every field holds a value of its type within its bounds. */
  predicate FieldsValid(u: RawUser)
  {
    && u.cycleFrequency.Given? && u.cycleFrequency.value > 0
    && (u.driverValidationBlocks.Given? ==> AllPresent(u.driverValidationBlocks.value))
    && u.experimentDir.Given?
    && u.firstCycle.Given?
    && u.ics.Given?
    && u.ics.value.externalModel.Given? && KnownModel(u.ics.value.externalModel.value)
    && u.ics.value.offsetHours.Given? && u.ics.value.offsetHours.value >= 0
    && u.lastCycle.Given?
    && u.lbcs.Given?
    && u.lbcs.value.externalModel.Given? && KnownModel(u.lbcs.value.externalModel.value)
    && u.lbcs.value.intervalHours.Given? && u.lbcs.value.intervalHours.value > 0
    && u.lbcs.value.offsetHours.Given? && u.lbcs.value.offsetHours.value >= 0
    && u.meshLabel.Given?
    && u.platform.Given?
    && u.workflowBlocks.Given? && AllPresent(u.workflowBlocks.value)
  }

  predicate AllPresent(items: seq<Option<string>>)
  {
    forall i :: 0 <= i < |items| ==> items[i].Some?
  }

  /** The block has field errors exactly when some field is absent, `None` where that is
      not allowed, of the wrong kind, or out of bounds. */
  lemma {:induction false} FieldIssuesExactly(u: RawUser)
    ensures |FieldIssues(u)| == 0 <==> FieldsValid(u)
  {
    var parts := FieldParts(u);
    FlatEmpty(parts);
    forall i | 0 <= i < |FieldNames| ensures |parts[i]| == 0 <==> FieldValid(u, i) {
      PartExactly(u, i);
    }
    assert FieldsValid(u) <==>
             FieldValid(u, 0) && FieldValid(u, 1) && FieldValid(u, 2) && FieldValid(u, 3) &&
             FieldValid(u, 4) && FieldValid(u, 5) && FieldValid(u, 6) && FieldValid(u, 7) &&
             FieldValid(u, 8) && FieldValid(u, 9);
  }

  /** What the `i`-th field must hold to pass. */
  predicate FieldValid(u: RawUser, i: int)
    requires 0 <= i < |FieldNames|
  {
    match i
    case 0 => u.cycleFrequency.Given? && u.cycleFrequency.value > 0
    case 1 => u.driverValidationBlocks.Given? ==> AllPresent(u.driverValidationBlocks.value)
    case 2 => u.experimentDir.Given?
    case 3 => u.firstCycle.Given?
    case 4 => u.ics.Given? && u.ics.value.externalModel.Given? &&
              KnownModel(u.ics.value.externalModel.value) &&
              u.ics.value.offsetHours.Given? && u.ics.value.offsetHours.value >= 0
    case 5 => u.lastCycle.Given?
    case 6 => u.lbcs.Given? && u.lbcs.value.externalModel.Given? &&
              KnownModel(u.lbcs.value.externalModel.value) &&
              u.lbcs.value.intervalHours.Given? && u.lbcs.value.intervalHours.value > 0 &&
              u.lbcs.value.offsetHours.Given? && u.lbcs.value.offsetHours.value >= 0
    case 7 => u.meshLabel.Given?
    case 8 => u.platform.Given?
    case 9 => u.workflowBlocks.Given? && AllPresent(u.workflowBlocks.value)
  }

  /** The `i`-th field is absent from the block. */
  predicate FieldMissing(u: RawUser, i: int)
    requires 0 <= i < |FieldNames|
  {
    match i
    case 0 => u.cycleFrequency.Missing?
    case 1 => u.driverValidationBlocks.Missing?
    case 2 => u.experimentDir.Missing?
    case 3 => u.firstCycle.Missing?
    case 4 => u.ics.Missing?
    case 5 => u.lastCycle.Missing?
    case 6 => u.lbcs.Missing?
    case 7 => u.meshLabel.Missing?
    case 8 => u.platform.Missing?
    case 9 => u.workflowBlocks.Missing?
  }

  /** A field's check reports nothing exactly when the field is valid; an absent field
      other than `driver_validation_blocks` is reported as required. */
  lemma {:induction false} PartExactly(u: RawUser, i: int)
    requires 0 <= i < |FieldNames|
    ensures |Part(u, i)| == 0 <==> FieldValid(u, i)
    ensures i != 1 && FieldMissing(u, i) ==> Issue(FieldNames[i], Required) in Part(u, i)
  {
  }

  /** Every field but `driver_validation_blocks` is required: an absent one is reported
      as required at its own location. */
  lemma {:induction false} RequiredFields(u: RawUser)
    ensures u.cycleFrequency.Missing? ==> Issue(At("cycle_frequency"), Required) in FieldIssues(u)
    ensures u.experimentDir.Missing? ==> Issue(At("experiment_dir"), Required) in FieldIssues(u)
    ensures u.firstCycle.Missing? ==> Issue(At("first_cycle"), Required) in FieldIssues(u)
    ensures u.ics.Missing? ==> Issue(At("ics"), Required) in FieldIssues(u)
    ensures u.lastCycle.Missing? ==> Issue(At("last_cycle"), Required) in FieldIssues(u)
    ensures u.lbcs.Missing? ==> Issue(At("lbcs"), Required) in FieldIssues(u)
    ensures u.meshLabel.Missing? ==> Issue(At("mesh_label"), Required) in FieldIssues(u)
    ensures u.platform.Missing? ==> Issue(At("platform"), Required) in FieldIssues(u)
    ensures u.workflowBlocks.Missing? ==> Issue(At("workflow_blocks"), Required) in FieldIssues(u)
  {
    RequiredAt(u, 0); RequiredAt(u, 2); RequiredAt(u, 3); RequiredAt(u, 4); RequiredAt(u, 5);
    RequiredAt(u, 6); RequiredAt(u, 7); RequiredAt(u, 8); RequiredAt(u, 9);
  }

  lemma {:induction false} RequiredAt(u: RawUser, i: int)
    requires 0 <= i < |FieldNames| && i != 1
    ensures FieldMissing(u, i) ==> Issue(FieldNames[i], Required) in FieldIssues(u)
  {
    PartExactly(u, i);
    InFlat(FieldParts(u), i);
  }

  /** An absent `driver_validation_blocks` is not an error, and no error of another
      field is reported there. */
  lemma {:induction false} DriverBlocksOptional(u: RawUser)
    ensures u.driverValidationBlocks.Missing? ==>
              forall x: Issue :: x in FieldIssues(u) ==> x.loc != At("driver_validation_blocks")
  {
    var parts := FieldParts(u);
    var d := At("driver_validation_blocks");
    if u.driverValidationBlocks.Missing? {
      forall i | 0 <= i < |parts| ensures forall x: Issue :: x in parts[i] ==> x.loc != d {
        if i != 1 {
          FieldPartLocs(u, i);
          assert FieldNames[i] != d;
        }
      }
      FlatFrom(parts, d);
    }
  }

  /** The field names of the block, in declaration order. */
  const FieldNames: seq<seq<string>> := [
    At("cycle_frequency"), At("driver_validation_blocks"), At("experiment_dir"),
    At("first_cycle"), At("ics"), At("last_cycle"), At("lbcs"), At("mesh_label"),
    At("platform"), At("workflow_blocks")]

  /** The errors of the `i`-th field, checked as its declared type demands. */
  function Part(u: RawUser, i: int): seq<Issue>
    requires 0 <= i < |FieldNames|
  {
    match i
    case 0 => PositiveIntIssues(FieldNames[0], u.cycleFrequency)
    case 1 => ListIssues(FieldNames[1], u.driverValidationBlocks, true)
    case 2 => PresentIssues(FieldNames[2], u.experimentDir, PathType)
    case 3 => PresentIssues(FieldNames[3], u.firstCycle, DatetimeType)
    case 4 => ICsIssues(FieldNames[4], u.ics)
    case 5 => PresentIssues(FieldNames[5], u.lastCycle, DatetimeType)
    case 6 => LBCsIssues(FieldNames[6], u.lbcs)
    case 7 => PresentIssues(FieldNames[7], u.meshLabel, StringType)
    case 8 => PresentIssues(FieldNames[8], u.platform, StringType)
    case 9 => ListIssues(FieldNames[9], u.workflowBlocks, false)
  }

  function FieldParts(u: RawUser): (parts: seq<seq<Issue>>)
    ensures |parts| == |FieldNames|
  {
    seq(|FieldNames|, i requires 0 <= i < |FieldNames| => Part(u, i))
  }

  /** Each field reports its errors at or under its own location. */
  lemma {:induction false} FieldPartLocs(u: RawUser, i: int)
    requires 0 <= i < |FieldNames|
    ensures forall x: Issue :: x in FieldParts(u)[i] ==> |x.loc| >= 2 && x.loc[..2] == FieldNames[i]
  {
    var p := Part(u, i);
    assert FieldParts(u)[i] == p;
    forall x: Issue | x in p ensures |x.loc| >= 2 && x.loc[..2] == FieldNames[i] {
      var j :| 0 <= j < |p| && p[j] == x;
    }
  }

  function Flat(parts: seq<seq<Issue>>): seq<Issue>
    decreases |parts|
  {
    if |parts| == 0 then [] else parts[0] + Flat(parts[1..])
  }

  lemma {:induction false} FlatEmpty(parts: seq<seq<Issue>>)
    ensures |Flat(parts)| == 0 <==> forall i :: 0 <= i < |parts| ==> |parts[i]| == 0
    decreases |parts|
  {
    if |parts| > 0 {
      FlatEmpty(parts[1..]);
      assert forall i :: 0 < i < |parts| ==> parts[1..][i - 1] == parts[i];
    }
  }

  lemma {:induction false} InFlat(parts: seq<seq<Issue>>, i: int)
    requires 0 <= i < |parts|
    ensures forall x: Issue :: x in parts[i] ==> x in Flat(parts)
    decreases i
  {
    if i > 0 {
      InFlat(parts[1..], i - 1);
    }
  }

  lemma {:induction false} FlatFrom(parts: seq<seq<Issue>>, d: seq<string>)
    requires forall i :: 0 <= i < |parts| ==> forall x: Issue :: x in parts[i] ==> x.loc != d
    ensures forall x: Issue :: x in Flat(parts) ==> x.loc != d
    decreases |parts|
  {
    if |parts| > 0 {
      FlatFrom(parts[1..], d);
    }
  }

  function Strings(items: seq<Option<string>>): (r: seq<string>)
    requires AllPresent(items)
    ensures |r| == |items| && forall i :: 0 <= i < |items| ==> Some(r[i]) == items[i]
  {
    seq(|items|, i requires 0 <= i < |items| => items[i].value)
  }

  /** The validated block: the given values, unchanged. */
  function Fields(u: RawUser): User
    requires FieldsValid(u)
  {
    User(
      u.cycleFrequency.value,
      if u.driverValidationBlocks.Given? then Some(Strings(u.driverValidationBlocks.value)) else None,
      u.experimentDir.value,
      u.firstCycle.value,
      ICs(u.ics.value.externalModel.value, u.ics.value.offsetHours.value),
      u.lastCycle.value,
      LBCs(u.lbcs.value.externalModel.value, u.lbcs.value.intervalHours.value, u.lbcs.value.offsetHours.value),
      u.meshLabel.value,
      u.platform.value,
      Strings(u.workflowBlocks.value))
  }

  // ---------------------------------------------------------------------------
  // checks on the whole block

  /** The last cycle may equal the first but not precede it. */
  function FirstAndLastCycle(user: User): (r: Option<Issue>)
    ensures r.None? <==> user.firstCycle <= user.lastCycle
    ensures r.Some? ==> r.value == Issue(["user"], CycleOrder)
  {
    if user.lastCycle < user.firstCycle then Some(Issue(["user"], CycleOrder)) else None
  }

  /** The driver a key path names: the text after its last `.`, or all of it. */
  function DriverName(keyPath: string): (d: string)
    ensures '.' !in d
    ensures '.' !in keyPath ==> d == keyPath
    ensures '.' in keyPath ==> exists k :: 0 <= k < |keyPath| && keyPath == keyPath[..k] + "." + d
  {
    var d := AfterLast(keyPath, '.');
    assert '.' !in keyPath ==> Free(keyPath, '.');
    if '.' in keyPath then
      assert forall j :: |keyPath| - |d| <= j < |keyPath| ==> keyPath[j] == d[j - (|keyPath| - |d|)];
      var k := |keyPath| - |d| - 1;
      assert keyPath == keyPath[..k] + "." + d;
      d
    else d
  }

  /** The driver each key path names, in order. */
  function DriverNames(blocks: seq<string>): (names: seq<string>)
    ensures |names| == |blocks| && forall i :: 0 <= i < |blocks| ==> names[i] == DriverName(blocks[i])
  {
    seq(|blocks|, i requires 0 <= i < |blocks| => DriverName(blocks[i]))
  }

  /** The first driver, if any, that is not supported. */
  function FirstUnsupported(names: seq<string>, drivers: set<string>): (r: Option<string>)
    ensures r.None? <==> forall i :: 0 <= i < |names| ==> names[i] in drivers
    ensures r.Some? ==> exists i :: 0 <= i < |names| && r.value == names[i] &&
                          r.value !in drivers &&
                          forall j :: 0 <= j < i ==> names[j] in drivers
    decreases |names|
  {
    if |names| == 0 then None
    else if names[0] !in drivers then Some(names[0])
    else
      var r := FirstUnsupported(names[1..], drivers);
      assert forall i :: 0 < i < |names| ==> names[1..][i - 1] == names[i];
      r
  }

  /** Every key path of `driver_validation_blocks` must end in a supported driver; an
      absent list, `None`, or an empty list passes. */
  function ValidateDriverBlocks(user: User, drivers: set<string>): (r: Option<Issue>)
    ensures var names := if user.driverValidationBlocks.Some?
                         then DriverNames(user.driverValidationBlocks.value) else [];
            && (r.None? <==> forall i :: 0 <= i < |names| ==> names[i] in drivers)
            && (r.Some? ==>
                  && r.value.loc == ["user"] && r.value.kind.UnsupportedDriver?
                  && exists i :: 0 <= i < |names| && r.value.kind.driver == names[i] &&
                       names[i] !in drivers && forall j :: 0 <= j < i ==> names[j] in drivers)
  {
    var blocks := if user.driverValidationBlocks.Some? then user.driverValidationBlocks.value else [];
    match FirstUnsupported(DriverNames(blocks), drivers)
    case None => None
    case Some(d) => Some(Issue(["user"], UnsupportedDriver(d)))
  }

  /** Everything that makes a `user` block acceptable, stated field by field. */
  predicate Acceptable(u: RawUser, drivers: set<string>)
  {
    && FieldsValid(u)
    && u.firstCycle.value <= u.lastCycle.value
    && (u.driverValidationBlocks.Given? ==>
          var names := DriverNames(Strings(u.driverValidationBlocks.value));
          forall i :: 0 <= i < |names| ==> names[i] in drivers)
  }

  /** The whole configuration: the field errors if there are any, else the first check
      on the whole block that fails, else the validated block. */
  function Validate(config: Entry<RawUser>, drivers: set<string>): (r: Outcome)
    ensures r.Valid? <==> config.Given? && Acceptable(config.value, drivers)
    ensures r.Valid? ==> r.user == Fields(config.value)
    ensures r.Invalid? ==> |r.issues| > 0
    ensures config.Given? && FieldsValid(config.value) &&
            config.value.lastCycle.value < config.value.firstCycle.value ==>
              r == Invalid([Issue(["user"], CycleOrder)])
  {
    match config
    case Missing => Invalid([Issue(["user"], Required)])
    case Null => Invalid([Issue(["user"], ModelType)])
    case Given(u) =>
      FieldIssuesExactly(u);
      var issues := FieldIssues(u);
      if |issues| > 0 then Invalid(issues)
      else
        var user := Fields(u);
        match FirstAndLastCycle(user)
        case Some(issue) => Invalid([issue])
        case None =>
          match ValidateDriverBlocks(user, drivers)
          case Some(issue) => Invalid([issue])
          case None => Valid(user)
  }
}

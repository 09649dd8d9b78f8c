/** What the differences between two specs say. */
module DeltaTheorems {
  import opened Nullable
  import opened AckTags
  import opened Shapes
  import opened Delta
  import opened ResourceDelta

  const ROOT: Path := [Name.Spec]
  const TAGS: Path := [Name.Spec, Name.Tags]

  // ---- Paths ----

  /** No path is reported twice, and none lies above another. */
  lemma ReportedPathsAreApart(lib: Library, a: SpecValue, b: SpecValue)
    ensures PrefixFree(SpecDiff(lib, a, b))
  {
    SpecIsWellShaped();
    DiffIsPrefixFree(lib, SPEC, ROOT, SpecTree(a), SpecTree(b));
  }

  /** Exchanging the resources reports the same paths with the values exchanged. */
  lemma DeltaSwaps(lib: Library, a: SpecValue, b: SpecValue)
    requires Symmetric(lib)
    ensures SpecDiff(lib, b, a) == Swap(SpecDiff(lib, a, b))
  {
    DiffSwaps(lib, SPEC, ROOT, SpecTree(a), SpecTree(b));
  }

  /** Every difference is found in one section, and lies under that section's path. */
  lemma SectionOf(lib: Library, a: SpecValue, b: SpecValue, d: Difference) returns (i: nat)
    requires d in SpecDiff(lib, a, b)
    ensures i < 13 && ROOT + [SPEC.fields[i].name] <= d.path
    ensures d in Diff(lib, SPEC.fields[i].shape, ROOT + [SPEC.fields[i].name],
                      SpecTree(a).children[i], SpecTree(b).children[i])
  {
    SectionsInPosition();
    PathsExtendUpTo(lib, SPEC.fields, 13, ROOT, SpecTree(a).children, SpecTree(b).children);
    i :| 0 <= i < 13 && ROOT + [SPEC.fields[i].name] <= d.path &&
         d in Diff(lib, SPEC.fields[i].shape, ROOT + [SPEC.fields[i].name],
                   SpecTree(a).children[i], SpecTree(b).children[i]);
  }

  // ---- When nothing is reported ----

  predicate ListsAgree<T>(same: (seq<T>, seq<T>) -> bool, x: Option<seq<T>>, y: Option<seq<T>>) {
    var u, v := x.GetOr([]), y.GetOr([]);
    |u| == |v| && (|u| > 0 ==> same(u, v))
  }

  function MechanismsOf(spec: Spec): Option<seq<RecoveryOption>> {
    if spec.accountRecoverySetting.None? then None else spec.accountRecoverySetting.value.recoveryMechanisms
  }

  /** A spec with its lists taken out. */
  function WithoutLists(spec: Spec): Spec {
    spec.(
      accountRecoverySetting :=
        if spec.accountRecoverySetting.None? then None else Some(AccountRecoverySetting.AccountRecoverySetting(None)),
      aliasAttributes := None, autoVerifiedAttributes := None, schema := None, usernameAttributes := None)
  }

  /** Equal apart from lists, and lists agree up to nil against empty and the libraries' comparison. */
  predicate SpecsAgree(lib: Library, s: Spec, t: Spec) {
    && WithoutLists(s) == WithoutLists(t)
    && ListsAgree(lib.mechanisms, MechanismsOf(s), MechanismsOf(t))
    && ListsAgree(lib.strings, s.aliasAttributes, t.aliasAttributes)
    && ListsAgree(lib.strings, s.autoVerifiedAttributes, t.autoVerifiedAttributes)
    && ListsAgree(lib.attributes, s.schema, t.schema)
    && ListsAgree(lib.strings, s.usernameAttributes, t.usernameAttributes)
  }

  predicate PointersOnly(shape: Shape) {
    match shape
    case Leaf(kind) => kind.StrPointer? || kind.BoolPointer? || kind.IntPointer?
    case Struct(fs) => forall i | 0 <= i < |fs| :: PointersOnly(fs[i].shape)
  }

  lemma {:induction false} PointersDifferIff(lib: Library, shape: Shape, path: Path, a: Tree, b: Tree)
    requires Conforms(shape, a) && Conforms(shape, b) && PointersOnly(shape)
    ensures Diff(lib, shape, path, a, b) == [] <==> a == b
    decreases shape
  {
    if shape.Struct? && a.Node? && b.Node? {
      var fs := shape.fields;
      NothingUpTo(lib, fs, |fs|, path, a.children, b.children);
      forall i | 0 <= i < |fs|
        ensures Diff(lib, fs[i].shape, path + [fs[i].name], a.children[i], b.children[i]) == []
                <==> a.children[i] == b.children[i]
      {
        PointersDifferIff(lib, fs[i].shape, path + [fs[i].name], a.children[i], b.children[i]);
      }
      if Diff(lib, shape, path, a, b) == [] {
        assert a.children == b.children;
      }
    }
  }

  lemma StructsHavePointersOnly()
    ensures PointersOnly(ADMIN) && PointersOnly(DEVICE) && PointersOnly(EMAIL)
    ensures PointersOnly(POLICIES) && PointersOnly(USERNAME)
  {
  }

  lemma AdminTreeIsFaithful(s: Option<AdminCreateUserConfig>, t: Option<AdminCreateUserConfig>)
    ensures AdminTree(s) == AdminTree(t) <==> s == t
  {
  }

  lemma EmailTreeIsFaithful(s: Option<EmailConfiguration>, t: Option<EmailConfiguration>)
    ensures EmailTree(s) == EmailTree(t) <==> s == t
  {
  }

  lemma DeviceTreeIsFaithful(s: Option<DeviceConfiguration>, t: Option<DeviceConfiguration>)
    ensures DeviceTree(s) == DeviceTree(t) <==> s == t
  {
  }

  lemma UsernameTreeIsFaithful(s: Option<UsernameConfiguration>, t: Option<UsernameConfiguration>)
    ensures UsernameTree(s) == UsernameTree(t) <==> s == t
  {
  }

  lemma PoliciesTreeIsFaithful(s: Option<Policies>, t: Option<Policies>)
    ensures PoliciesTree(s) == PoliciesTree(t) <==> s == t
  {
  }

  lemma AccountRecoveryDiffersIff(lib: Library, path: Path, s: Spec, t: Spec)
    ensures Diff(lib, ACCOUNT_RECOVERY, path, AccountRecoveryTree(s.accountRecoverySetting),
                 AccountRecoveryTree(t.accountRecoverySetting)) == []
            <==> s.accountRecoverySetting.None? == t.accountRecoverySetting.None?
                 && ListsAgree(lib.mechanisms, MechanismsOf(s), MechanismsOf(t))
  {
  }

  /** Section i has nothing to report. */
  predicate SectionSame(lib: Library, a: SpecValue, b: SpecValue, i: nat)
    requires i < 13
  {
    SectionsInPosition();
    Diff(lib, SPEC.fields[i].shape, ROOT + [SPEC.fields[i].name],
      SpecTree(a).children[i], SpecTree(b).children[i]) == []
  }

  lemma AccountRecoverySameIff(lib: Library, a: SpecValue, b: SpecValue)
    ensures SectionSame(lib, a, b, 0) <==>
      && a.spec.accountRecoverySetting.None? == b.spec.accountRecoverySetting.None?
      && ListsAgree(lib.mechanisms, MechanismsOf(a.spec), MechanismsOf(b.spec))
  {
    AccountRecoveryDiffersIff(lib, ROOT + [Name.AccountRecoverySetting], a.spec, b.spec);
  }

  lemma AdminSameIff(lib: Library, a: SpecValue, b: SpecValue)
    ensures SectionSame(lib, a, b, 1) <==> a.spec.adminCreateUserConfig == b.spec.adminCreateUserConfig
  {
    var x, y := a.spec.adminCreateUserConfig, b.spec.adminCreateUserConfig;
    StructsHavePointersOnly();
    AdminTreeIsFaithful(x, y);
    PointersDifferIff(lib, ADMIN, ROOT + [Name.AdminCreateUserConfig], AdminTree(x), AdminTree(y));
  }

  lemma AttributeListsSameIff(lib: Library, a: SpecValue, b: SpecValue)
    ensures SectionSame(lib, a, b, 2) <==> ListsAgree(lib.strings, a.spec.aliasAttributes, b.spec.aliasAttributes)
    ensures SectionSame(lib, a, b, 3) <==>
      ListsAgree(lib.strings, a.spec.autoVerifiedAttributes, b.spec.autoVerifiedAttributes)
  {
  }

  lemma ProtectionSameIff(lib: Library, a: SpecValue, b: SpecValue)
    ensures SectionSame(lib, a, b, 4) <==> a.spec.deletionProtection == b.spec.deletionProtection
  {
  }

  lemma DeviceSameIff(lib: Library, a: SpecValue, b: SpecValue)
    ensures SectionSame(lib, a, b, 5) <==> a.spec.deviceConfiguration == b.spec.deviceConfiguration
  {
    var x, y := a.spec.deviceConfiguration, b.spec.deviceConfiguration;
    StructsHavePointersOnly();
    DeviceTreeIsFaithful(x, y);
    PointersDifferIff(lib, DEVICE, ROOT + [Name.DeviceConfiguration], DeviceTree(x), DeviceTree(y));
  }

  lemma EmailSameIff(lib: Library, a: SpecValue, b: SpecValue)
    ensures SectionSame(lib, a, b, 6) <==> a.spec.emailConfiguration == b.spec.emailConfiguration
  {
    var x, y := a.spec.emailConfiguration, b.spec.emailConfiguration;
    StructsHavePointersOnly();
    EmailTreeIsFaithful(x, y);
    PointersDifferIff(lib, EMAIL, ROOT + [Name.EmailConfiguration], EmailTree(x), EmailTree(y));
  }

  lemma NameSameIff(lib: Library, a: SpecValue, b: SpecValue)
    ensures SectionSame(lib, a, b, 7) <==> a.spec.name == b.spec.name
  {
  }

  lemma PoliciesSameIff(lib: Library, a: SpecValue, b: SpecValue)
    ensures SectionSame(lib, a, b, 8) <==> a.spec.policies == b.spec.policies
  {
    var x, y := a.spec.policies, b.spec.policies;
    StructsHavePointersOnly();
    PoliciesTreeIsFaithful(x, y);
    PointersDifferIff(lib, POLICIES, ROOT + [Name.Policies], PoliciesTree(x), PoliciesTree(y));
  }

  lemma SchemaSameIff(lib: Library, a: SpecValue, b: SpecValue)
    ensures SectionSame(lib, a, b, 9) <==> ListsAgree(lib.attributes, a.spec.schema, b.spec.schema)
  {
  }

  lemma TagsSameIff(lib: Library, a: SpecValue, b: SpecValue)
    ensures SectionSame(lib, a, b, 10) <==> ToTags(a.tags) == ToTags(b.tags)
  {
  }

  lemma UsernameSameIff(lib: Library, a: SpecValue, b: SpecValue)
    ensures SectionSame(lib, a, b, 11) <==>
      ListsAgree(lib.strings, a.spec.usernameAttributes, b.spec.usernameAttributes)
    ensures SectionSame(lib, a, b, 12) <==> a.spec.usernameConfiguration == b.spec.usernameConfiguration
  {
    var x, y := a.spec.usernameConfiguration, b.spec.usernameConfiguration;
    StructsHavePointersOnly();
    UsernameTreeIsFaithful(x, y);
    PointersDifferIff(lib, USERNAME, ROOT + [Name.UsernameConfiguration], UsernameTree(x), UsernameTree(y));
  }

  lemma NothingInSections(lib: Library, a: SpecValue, b: SpecValue)
    ensures SpecDiff(lib, a, b) == [] <==> forall i | 0 <= i < 13 :: SectionSame(lib, a, b, i)
  {
    SectionsInPosition();
    var s, t := SpecTree(a).children, SpecTree(b).children;
    NothingUpTo(lib, SPEC.fields, 13, ROOT, s, t);
    assert SpecDiff(lib, a, b) == DiffUpTo(lib, SPEC.fields, 13, ROOT, s, t);
    forall i | 0 <= i < 13
      ensures SectionSame(lib, a, b, i) <==>
              Diff(lib, SPEC.fields[i].shape, ROOT + [SPEC.fields[i].name], s[i], t[i]) == []
    {
    }
  }

  /** Every section but the tags is free of differences exactly when the specs agree. */
  lemma SectionsSameIff(lib: Library, a: SpecValue, b: SpecValue)
    ensures (forall i | 0 <= i < 13 && i != 10 :: SectionSame(lib, a, b, i)) <==> SpecsAgree(lib, a.spec, b.spec)
  {
    AccountRecoverySameIff(lib, a, b);
    AdminSameIff(lib, a, b);
    AttributeListsSameIff(lib, a, b);
    ProtectionSameIff(lib, a, b);
    DeviceSameIff(lib, a, b);
    EmailSameIff(lib, a, b);
    NameSameIff(lib, a, b);
    PoliciesSameIff(lib, a, b);
    SchemaSameIff(lib, a, b);
    UsernameSameIff(lib, a, b);
    if SpecsAgree(lib, a.spec, b.spec) {
      AllButTags(lib, a, b);
    }
  }

  lemma AllButTags(lib: Library, a: SpecValue, b: SpecValue)
    requires SectionSame(lib, a, b, 0) && SectionSame(lib, a, b, 1) && SectionSame(lib, a, b, 2)
    requires SectionSame(lib, a, b, 3) && SectionSame(lib, a, b, 4) && SectionSame(lib, a, b, 5)
    requires SectionSame(lib, a, b, 6) && SectionSame(lib, a, b, 7) && SectionSame(lib, a, b, 8)
    requires SectionSame(lib, a, b, 9) && SectionSame(lib, a, b, 11) && SectionSame(lib, a, b, 12)
    ensures forall i | 0 <= i < 13 && i != 10 :: SectionSame(lib, a, b, i)
  {
  }

  /** Nothing is reported exactly when the specs agree and the tags, with nil read as "", are equal. */
  lemma NothingReportedIff(lib: Library, a: SpecValue, b: SpecValue)
    ensures SpecDiff(lib, a, b) == [] <==> SpecsAgree(lib, a.spec, b.spec) && ToTags(a.tags) == ToTags(b.tags)
  {
    NothingInSections(lib, a, b);
    SectionsSameIff(lib, a, b);
    TagsSameIff(lib, a, b);
  }

  lemma SectionReported(lib: Library, a: SpecValue, b: SpecValue, i: nat) returns (d: Difference)
    requires i < 13 && !SectionSame(lib, a, b, i)
    ensures d in SpecDiff(lib, a, b) && ROOT + [SPEC.fields[i].name] <= d.path
  {
    SectionsInPosition();
    var s, t := SpecTree(a).children, SpecTree(b).children;
    var ds := Diff(lib, SPEC.fields[i].shape, ROOT + [SPEC.fields[i].name], s[i], t[i]);
    d := ds[0];
    assert SpecDiff(lib, a, b) == DiffUpTo(lib, SPEC.fields, 13, ROOT, s, t);
    FieldDifferencesKept(lib, SPEC.fields, 13, i, ROOT, s, t);
    PathsExtend(lib, SPEC.fields[i].shape, ROOT + [SPEC.fields[i].name], s[i], t[i]);
  }

  /** delta.DifferentAt("Spec.Tags") */
  lemma TagsReportedIff(lib: Library, a: SpecValue, b: SpecValue)
    ensures (exists d <- SpecDiff(lib, a, b) :: TAGS <= d.path) <==> ToTags(a.tags) != ToTags(b.tags)
  {
    TagsSameIff(lib, a, b);
    SectionsInPosition();
    if ToTags(a.tags) != ToTags(b.tags) {
      var d := SectionReported(lib, a, b, 10);
    }
    forall d <- SpecDiff(lib, a, b) | TAGS <= d.path ensures !SectionSame(lib, a, b, 10) {
      var i := SectionOf(lib, a, b, d);
      assert (ROOT + [SPEC.fields[i].name])[1] == d.path[1] == TAGS[1];
      assert Position(SPEC.fields[i].name) == i;
    }
  }

  lemma NotUnderTags(i: nat, path: Path)
    requires i < 13 && i != 10 && ROOT + [SPEC.fields[i].name] <= path
    ensures !(TAGS <= path)
  {
    SectionsInPosition();
    assert (ROOT + [SPEC.fields[i].name])[1] == path[1];
    assert Position(SPEC.fields[i].name) != Position(Name.Tags);
  }

  lemma OtherReported(lib: Library, a: SpecValue, b: SpecValue) returns (d: Difference)
    requires !SpecsAgree(lib, a.spec, b.spec)
    ensures d in SpecDiff(lib, a, b) && !(TAGS <= d.path)
  {
    SectionsSameIff(lib, a, b);
    var i: nat :| i < 13 && i != 10 && !SectionSame(lib, a, b, i);
    d := SectionReported(lib, a, b, i);
    NotUnderTags(i, d.path);
  }

  lemma OtherDiffers(lib: Library, a: SpecValue, b: SpecValue, d: Difference)
    requires d in SpecDiff(lib, a, b) && !(TAGS <= d.path)
    ensures !SpecsAgree(lib, a.spec, b.spec)
  {
    SectionsSameIff(lib, a, b);
    SectionsInPosition();
    var i := SectionOf(lib, a, b, d);
    assert i != 10;
    assert !SectionSame(lib, a, b, i);
  }

  /** delta.DifferentExcept("Spec.Tags") */
  lemma OthersReportedIff(lib: Library, a: SpecValue, b: SpecValue)
    ensures (exists d <- SpecDiff(lib, a, b) :: !(TAGS <= d.path)) <==> !SpecsAgree(lib, a.spec, b.spec)
  {
    if !SpecsAgree(lib, a.spec, b.spec) {
      var d := OtherReported(lib, a, b);
    }
    forall d <- SpecDiff(lib, a, b) | !(TAGS <= d.path) ensures !SpecsAgree(lib, a.spec, b.spec) {
      OtherDiffers(lib, a, b, d);
    }
  }

  // ---- Patching ----

  function AsStr(t: Tree): Option<string> { if t.Str? then Some(t.text) else None }

  function AsBool(t: Tree): Option<bool> { if t.Bool? then Some(t.flag) else None }

  function AsInt(t: Tree): Option<int64> { if t.Int? then Some(t.number) else None }

  function AsStrs(t: Tree): Option<seq<string>> { if t.Strs? then Some(t.strs) else None }

  function AsAccountRecovery(t: Tree): Option<AccountRecoverySetting> {
    if t.Node? && |t.children| == 1 then
      var m := t.children[0];
      Some(AccountRecoverySetting.AccountRecoverySetting(if m.Mechanisms? then Some(m.mechanisms) else None))
    else None
  }

  function AsMessageTemplate(t: Tree): Option<MessageTemplate> {
    if t.Node? && |t.children| == 3 then
      Some(MessageTemplate(AsStr(t.children[0]), AsStr(t.children[1]), AsStr(t.children[2])))
    else None
  }

  function AsAdmin(t: Tree): Option<AdminCreateUserConfig> {
    if t.Node? && |t.children| == 3 then
      Some(AdminCreateUserConfig.AdminCreateUserConfig(
        AsBool(t.children[0]), AsMessageTemplate(t.children[1]), AsInt(t.children[2])))
    else None
  }

  function AsDevice(t: Tree): Option<DeviceConfiguration> {
    if t.Node? && |t.children| == 2 then
      Some(DeviceConfiguration.DeviceConfiguration(AsBool(t.children[0]), AsBool(t.children[1])))
    else None
  }

  function AsEmail(t: Tree): Option<EmailConfiguration> {
    if t.Node? && |t.children| == 5 then
      Some(EmailConfiguration.EmailConfiguration(AsStr(t.children[0]), AsStr(t.children[1]), AsStr(t.children[2]),
        AsStr(t.children[3]), AsStr(t.children[4])))
    else None
  }

  function AsPasswordPolicy(t: Tree): Option<PasswordPolicy> {
    if t.Node? && |t.children| == 6 then
      Some(PasswordPolicy.PasswordPolicy(AsInt(t.children[0]), AsBool(t.children[1]), AsBool(t.children[2]),
        AsBool(t.children[3]), AsBool(t.children[4]), AsInt(t.children[5])))
    else None
  }

  function AsPolicies(t: Tree): Option<Policies> {
    if t.Node? && |t.children| == 1 then Some(Policies.Policies(AsPasswordPolicy(t.children[0]))) else None
  }

  function AsUsername(t: Tree): Option<UsernameConfiguration> {
    if t.Node? && |t.children| == 1 then Some(UsernameConfiguration.UsernameConfiguration(AsBool(t.children[0])))
    else None
  }

  function AsSpec(t: Tree): SpecValue
    requires Conforms(SPEC, t) && t.Node?
  {
    var c := t.children;
    SpecValue(
      Spec.Spec(
        AsAccountRecovery(c[0]), AsAdmin(c[1]), AsStrs(c[2]), AsStrs(c[3]), AsStr(c[4]), AsDevice(c[5]), AsEmail(c[6]),
        AsStr(c[7]), AsPolicies(c[8]), if c[9].Attributes? then Some(c[9].attributes) else None,
        AsStrs(c[11]), AsUsername(c[12])),
      if c[10].TagMap? then c[10].tags else map[])
  }

  lemma FieldsConform(shape: Shape, t: Tree)
    requires Conforms(shape, t) && shape.Struct? && t.Node?
    ensures |t.children| == |shape.fields|
    ensures forall i | 0 <= i < |shape.fields| :: Conforms(shape.fields[i].shape, t.children[i])
    ensures forall i | 0 <= i < |shape.fields| && shape.fields[i].shape.Leaf? ::
      ConformsLeaf(shape.fields[i].shape.kind, t.children[i])
  {
  }

  lemma AsAccountRecoveryIsFaithful(t: Tree)
    requires Conforms(ACCOUNT_RECOVERY, t)
    ensures AccountRecoveryTree(AsAccountRecovery(t)) == t
  {
  }

  lemma AsMessageTemplateIsFaithful(t: Tree)
    requires Conforms(MESSAGE_TEMPLATE, t)
    ensures MessageTemplateTree(AsMessageTemplate(t)) == t
  {
  }

  lemma AsAdminIsFaithful(t: Tree)
    requires Conforms(ADMIN, t)
    ensures AdminTree(AsAdmin(t)) == t
  {
    if t.Node? {
      FieldsConform(ADMIN, t);
      AsMessageTemplateIsFaithful(t.children[1]);
      assert AdminTree(AsAdmin(t)).children == t.children;
    }
  }

  lemma AsDeviceIsFaithful(t: Tree)
    requires Conforms(DEVICE, t)
    ensures DeviceTree(AsDevice(t)) == t
  {
  }

  lemma AsEmailIsFaithful(t: Tree)
    requires Conforms(EMAIL, t)
    ensures EmailTree(AsEmail(t)) == t
  {
  }

  lemma AsPasswordPolicyIsFaithful(t: Tree)
    requires Conforms(PASSWORD_POLICY, t)
    ensures PasswordPolicyTree(AsPasswordPolicy(t)) == t
  {
    if t.Node? {
      FieldsConform(PASSWORD_POLICY, t);
      assert PasswordPolicyTree(AsPasswordPolicy(t)).children == t.children;
    }
  }

  lemma AsPoliciesIsFaithful(t: Tree)
    requires Conforms(POLICIES, t)
    ensures PoliciesTree(AsPolicies(t)) == t
  {
    if t.Node? {
      FieldsConform(POLICIES, t);
      AsPasswordPolicyIsFaithful(t.children[0]);
      assert PoliciesTree(AsPolicies(t)).children == t.children;
    }
  }

  lemma AsUsernameIsFaithful(t: Tree)
    requires Conforms(USERNAME, t)
    ensures UsernameTree(AsUsername(t)) == t
  {
  }

  lemma AsStructsAreFaithful(c: seq<Tree>)
    requires |c| == 13 && Conforms(SPEC, Node(c))
    ensures AccountRecoveryTree(AsAccountRecovery(c[0])) == c[0] && AdminTree(AsAdmin(c[1])) == c[1]
    ensures DeviceTree(AsDevice(c[5])) == c[5] && EmailTree(AsEmail(c[6])) == c[6]
    ensures PoliciesTree(AsPolicies(c[8])) == c[8] && UsernameTree(AsUsername(c[12])) == c[12]
  {
    FieldsConform(SPEC, Node(c));
    AsAccountRecoveryIsFaithful(c[0]);
    AsAdminIsFaithful(c[1]);
    AsDeviceIsFaithful(c[5]);
    AsEmailIsFaithful(c[6]);
    AsPoliciesIsFaithful(c[8]);
    AsUsernameIsFaithful(c[12]);
  }

  lemma AsLeavesAreFaithful(c: seq<Tree>)
    requires |c| == 13 && Conforms(SPEC, Node(c))
    ensures StrsTree(AsStrs(c[2])) == c[2] && StrsTree(AsStrs(c[3])) == c[3] && StrsTree(AsStrs(c[11])) == c[11]
    ensures StrTree(AsStr(c[4])) == c[4] && StrTree(AsStr(c[7])) == c[7]
    ensures (c[9].Nil? || c[9].Attributes?) && c[10].TagMap?
  {
    FieldsConform(SPEC, Node(c));
  }

  lemma SpecTreeIs(x: SpecValue, c: seq<Tree>)
    requires |c| == 13
    requires AccountRecoveryTree(x.spec.accountRecoverySetting) == c[0]
    requires AdminTree(x.spec.adminCreateUserConfig) == c[1]
    requires StrsTree(x.spec.aliasAttributes) == c[2] && StrsTree(x.spec.autoVerifiedAttributes) == c[3]
    requires StrTree(x.spec.deletionProtection) == c[4] && DeviceTree(x.spec.deviceConfiguration) == c[5]
    requires EmailTree(x.spec.emailConfiguration) == c[6] && StrTree(x.spec.name) == c[7]
    requires PoliciesTree(x.spec.policies) == c[8]
    requires (if x.spec.schema.None? then Nil else Attributes(x.spec.schema.value)) == c[9]
    requires TagMap(x.tags) == c[10] && StrsTree(x.spec.usernameAttributes) == c[11]
    requires UsernameTree(x.spec.usernameConfiguration) == c[12]
    ensures SpecTree(x).children == c
  {
  }

  lemma AsSpecIsFaithful(t: Tree)
    requires Conforms(SPEC, t) && t.Node?
    ensures SpecTree(AsSpec(t)) == t
  {
    var c := t.children;
    assert |c| == 13 by {
      SectionsInPosition();
    }
    AsStructsAreFaithful(c);
    AsLeavesAreFaithful(c);
    SpecTreeIs(AsSpec(t), c);
  }

  lemma PatchedTree(lib: Library, a: SpecValue, b: SpecValue)
    requires Reflexive(lib)
    ensures var t := Patch(SPEC, ROOT, SpecTree(a), SpecDiff(lib, a, b));
      Conforms(SPEC, t) && t.Node? && Diff(lib, SPEC, ROOT, t, SpecTree(b)) == []
  {
    SpecIsWellShaped();
    PatchClosesDiff(lib, SPEC, ROOT, SpecTree(a), SpecTree(b), SpecDiff(lib, a, b));
    SectionsInPosition();
    var s, t := SpecTree(a).children, SpecTree(b).children;
    PathsExtendUpTo(lib, SPEC.fields, 13, ROOT, s, t);
    assert SpecDiff(lib, a, b) == DiffUpTo(lib, SPEC.fields, 13, ROOT, s, t);
    NotRecorded(SpecDiff(lib, a, b), ROOT);
  }

  /** a with every b-value that newResourceDelta recorded against b written at its path. */
  ghost function Patched(lib: Library, a: SpecValue, b: SpecValue): SpecValue
    requires Reflexive(lib)
  {
    PatchedTree(lib, a, b);
    AsSpec(Patch(SPEC, ROOT, SpecTree(a), SpecDiff(lib, a, b)))
  }

  /** A patched spec shows no difference to b any more: the recorded paths and values are all it takes. */
  lemma PatchedAgrees(lib: Library, a: SpecValue, b: SpecValue)
    requires Reflexive(lib)
    ensures SpecDiff(lib, Patched(lib, a, b), b) == []
    ensures SpecsAgree(lib, Patched(lib, a, b).spec, b.spec)
    ensures ToTags(Patched(lib, a, b).tags) == ToTags(b.tags)
  {
    PatchedTree(lib, a, b);
    AsSpecIsFaithful(Patch(SPEC, ROOT, SpecTree(a), SpecDiff(lib, a, b)));
    NothingReportedIff(lib, Patched(lib, a, b), b);
  }
}

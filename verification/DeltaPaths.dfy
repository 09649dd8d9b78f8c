/**
 The paths newResourceDelta writes against the fields they name. FieldAt reads a spec by the
 dotted path alone, without the shape the comparison walks; every recorded pair of values is
 what FieldAt finds at the recorded path in the two resources.
 */
module DeltaPaths {
  import opened Nullable
  import opened Shapes
  import opened Delta
  import opened ResourceDelta
  import opened DeltaTheorems

  // ---- Reading a spec by a path ----

  function TemplateField(x: MessageTemplate, name: Name): Tree {
    match name
    case EmailMessage => StrTree(x.emailMessage)
    case EmailSubject => StrTree(x.emailSubject)
    case SMSMessage => StrTree(x.smsMessage)
    case _ => Nil
  }

  function AdminField(x: AdminCreateUserConfig, rest: Path): Tree {
    if rest == [Name.AllowAdminCreateUserOnly] then BoolTree(x.allowAdminCreateUserOnly)
    else if rest == [Name.UnusedAccountValidityDays] then IntTree(x.unusedAccountValidityDays)
    else if rest == [Name.InviteMessageTemplate] then MessageTemplateTree(x.inviteMessageTemplate)
    else if |rest| == 2 && rest[0] == Name.InviteMessageTemplate && x.inviteMessageTemplate.Some?
    then TemplateField(x.inviteMessageTemplate.value, rest[1])
    else Nil
  }

  function DeviceField(x: DeviceConfiguration, name: Name): Tree {
    match name
    case ChallengeRequiredOnNewDevice => BoolTree(x.challengeRequiredOnNewDevice)
    case DeviceOnlyRememberedOnUserPrompt => BoolTree(x.deviceOnlyRememberedOnUserPrompt)
    case _ => Nil
  }

  function EmailField(x: EmailConfiguration, name: Name): Tree {
    match name
    case ConfigurationSet => StrTree(x.configurationSet)
    case EmailSendingAccount => StrTree(x.emailSendingAccount)
    case From => StrTree(x.from)
    case ReplyToEmailAddress => StrTree(x.replyToEmailAddress)
    case SourceARN => StrTree(x.sourceARN)
    case _ => Nil
  }

  function PasswordField(x: PasswordPolicy, name: Name): Tree {
    match name
    case MinimumLength => IntTree(x.minimumLength)
    case RequireLowercase => BoolTree(x.requireLowercase)
    case RequireNumbers => BoolTree(x.requireNumbers)
    case RequireSymbols => BoolTree(x.requireSymbols)
    case RequireUppercase => BoolTree(x.requireUppercase)
    case TemporaryPasswordValidityDays => IntTree(x.temporaryPasswordValidityDays)
    case _ => Nil
  }

  function PoliciesField(x: Policies, rest: Path): Tree {
    if rest == [Name.PasswordPolicy] then PasswordPolicyTree(x.passwordPolicy)
    else if |rest| == 2 && rest[0] == Name.PasswordPolicy && x.passwordPolicy.Some?
    then PasswordField(x.passwordPolicy.value, rest[1])
    else Nil
  }

  function RecoveryField(x: AccountRecoverySetting, rest: Path): Tree {
    if rest != [Name.RecoveryMechanisms] || x.recoveryMechanisms.None? then Nil
    else Mechanisms(x.recoveryMechanisms.value)
  }

  function UsernameField(x: UsernameConfiguration, rest: Path): Tree {
    if rest == [Name.CaseSensitive] then BoolTree(x.caseSensitive) else Nil
  }

  /** A whole section. */
  function SectionAt(x: SpecValue, name: Name): Tree {
    var s := x.spec;
    match name
    case AccountRecoverySetting => AccountRecoveryTree(s.accountRecoverySetting)
    case AdminCreateUserConfig => AdminTree(s.adminCreateUserConfig)
    case AliasAttributes => StrsTree(s.aliasAttributes)
    case AutoVerifiedAttributes => StrsTree(s.autoVerifiedAttributes)
    case DeletionProtection => StrTree(s.deletionProtection)
    case DeviceConfiguration => DeviceTree(s.deviceConfiguration)
    case EmailConfiguration => EmailTree(s.emailConfiguration)
    case PoolName => StrTree(s.name)
    case Policies => PoliciesTree(s.policies)
    case Schema => if s.schema.None? then Nil else Attributes(s.schema.value)
    case Tags => TagMap(x.tags)
    case UsernameAttributes => StrsTree(s.usernameAttributes)
    case UsernameConfiguration => UsernameTree(s.usernameConfiguration)
    case _ => Nil
  }

  /** What lies below a section. */
  function BelowAt(x: SpecValue, name: Name, rest: Path): Tree
    requires rest != []
  {
    var s := x.spec;
    match name
    case AccountRecoverySetting =>
      if s.accountRecoverySetting.Some? then RecoveryField(s.accountRecoverySetting.value, rest) else Nil
    case AdminCreateUserConfig =>
      if s.adminCreateUserConfig.Some? then AdminField(s.adminCreateUserConfig.value, rest) else Nil
    case DeviceConfiguration =>
      if s.deviceConfiguration.Some? && |rest| == 1 then DeviceField(s.deviceConfiguration.value, rest[0]) else Nil
    case EmailConfiguration =>
      if s.emailConfiguration.Some? && |rest| == 1 then EmailField(s.emailConfiguration.value, rest[0]) else Nil
    case Policies =>
      if s.policies.Some? then PoliciesField(s.policies.value, rest) else Nil
    case UsernameConfiguration =>
      if s.usernameConfiguration.Some? then UsernameField(s.usernameConfiguration.value, rest) else Nil
    case _ => Nil
  }

  function FieldAt(x: SpecValue, path: Path): Tree {
    if |path| < 2 || path[0] != Name.Spec then Nil
    else if |path| == 2 then SectionAt(x, path[1])
    else BelowAt(x, path[1], path[2..])
  }

  // ---- What a comparison records ----

  /** A difference in a struct is the struct's own nil-ness, or one of a field. */
  lemma StructRecords(lib: Library, shape: Shape, path: Path, a: Tree, b: Tree, d: Difference) returns (i: int)
    requires shape.Struct? && Conforms(shape, a) && Conforms(shape, b) && d in Diff(lib, shape, path, a, b)
    ensures -1 <= i < |shape.fields|
    ensures i == -1 ==> d == Difference(path, a, b) && a != b
    ensures i >= 0 ==>
      && a.Node? && b.Node?
      && d in Diff(lib, shape.fields[i].shape, path + [shape.fields[i].name], a.children[i], b.children[i])
  {
    if a.Node? && b.Node? {
      var fs := shape.fields;
      PathsExtendUpTo(lib, fs, |fs|, path, a.children, b.children);
      var j :| 0 <= j < |fs| && path + [fs[j].name] <= d.path &&
               d in Diff(lib, fs[j].shape, path + [fs[j].name], a.children[j], b.children[j]);
      i := j;
    } else {
      i := -1;
    }
  }

  /** The path goes on below the section with these names, and the values are these. */
  ghost predicate Records(d: Difference, path: Path, rest: Path, a: Tree, b: Tree) {
    d == Difference(path + rest, a, b)
  }

  lemma TemplateRecords(lib: Library, path: Path, s: Option<MessageTemplate>, t: Option<MessageTemplate>, d: Difference)
    requires d in Diff(lib, MESSAGE_TEMPLATE, path, MessageTemplateTree(s), MessageTemplateTree(t))
    ensures Records(d, path, [], MessageTemplateTree(s), MessageTemplateTree(t)) ||
      (s.Some? && t.Some? && |d.path| == |path| + 1 &&
       Records(d, path, [d.path[|path|]],
         TemplateField(s.value, d.path[|path|]), TemplateField(t.value, d.path[|path|])))
  {
    var i := StructRecords(lib, MESSAGE_TEMPLATE, path, MessageTemplateTree(s), MessageTemplateTree(t), d);
    assert path + [] == path;
    assert i >= 0 ==> d.path[..|path|] == path;
  }

  lemma AdminRecords(lib: Library, path: Path, s: Option<AdminCreateUserConfig>, t: Option<AdminCreateUserConfig>,
                     d: Difference)
    requires d in Diff(lib, ADMIN, path, AdminTree(s), AdminTree(t))
    ensures path <= d.path
    ensures var rest := d.path[|path|..];
      if rest == [] then Records(d, path, [], AdminTree(s), AdminTree(t))
      else s.Some? && t.Some? && Records(d, path, rest, AdminField(s.value, rest), AdminField(t.value, rest))
  {
    var i := StructRecords(lib, ADMIN, path, AdminTree(s), AdminTree(t), d);
    if i == 0 {
      assert d.path[|path|..] == [Name.AllowAdminCreateUserOnly];
    } else if i == 1 {
      var under := path + [Name.InviteMessageTemplate];
      TemplateRecords(lib, under, s.value.inviteMessageTemplate, t.value.inviteMessageTemplate, d);
      if d.path == under {
        assert d.path[|path|..] == [Name.InviteMessageTemplate];
      } else {
        assert d.path[|path|..] == [Name.InviteMessageTemplate, d.path[|under|]];
      }
    } else if i == 2 {
      assert d.path[|path|..] == [Name.UnusedAccountValidityDays];
    }
    assert path + d.path[|path|..] == d.path;
  }

  lemma DeviceRecords(lib: Library, path: Path, s: Option<DeviceConfiguration>, t: Option<DeviceConfiguration>,
                      d: Difference)
    requires d in Diff(lib, DEVICE, path, DeviceTree(s), DeviceTree(t))
    ensures Records(d, path, [], DeviceTree(s), DeviceTree(t)) ||
      (s.Some? && t.Some? && |d.path| == |path| + 1 &&
       Records(d, path, [d.path[|path|]], DeviceField(s.value, d.path[|path|]), DeviceField(t.value, d.path[|path|])))
  {
    var i := StructRecords(lib, DEVICE, path, DeviceTree(s), DeviceTree(t), d);
    assert path + [] == path;
  }

  lemma EmailRecords(lib: Library, path: Path, s: Option<EmailConfiguration>, t: Option<EmailConfiguration>,
                     d: Difference)
    requires d in Diff(lib, EMAIL, path, EmailTree(s), EmailTree(t))
    ensures Records(d, path, [], EmailTree(s), EmailTree(t)) ||
      (s.Some? && t.Some? && |d.path| == |path| + 1 &&
       Records(d, path, [d.path[|path|]], EmailField(s.value, d.path[|path|]), EmailField(t.value, d.path[|path|])))
  {
    var i := StructRecords(lib, EMAIL, path, EmailTree(s), EmailTree(t), d);
    assert path + [] == path;
  }

  lemma PasswordRecords(lib: Library, path: Path, s: Option<PasswordPolicy>, t: Option<PasswordPolicy>, d: Difference)
    requires d in Diff(lib, PASSWORD_POLICY, path, PasswordPolicyTree(s), PasswordPolicyTree(t))
    ensures Records(d, path, [], PasswordPolicyTree(s), PasswordPolicyTree(t)) ||
      (s.Some? && t.Some? && |d.path| == |path| + 1 &&
       Records(d, path, [d.path[|path|]],
         PasswordField(s.value, d.path[|path|]), PasswordField(t.value, d.path[|path|])))
  {
    var i := StructRecords(lib, PASSWORD_POLICY, path, PasswordPolicyTree(s), PasswordPolicyTree(t), d);
    assert path + [] == path;
  }

  lemma PoliciesRecords(lib: Library, path: Path, s: Option<Policies>, t: Option<Policies>, d: Difference)
    requires d in Diff(lib, POLICIES, path, PoliciesTree(s), PoliciesTree(t))
    ensures path <= d.path
    ensures var rest := d.path[|path|..];
      if rest == [] then Records(d, path, [], PoliciesTree(s), PoliciesTree(t))
      else s.Some? && t.Some? && Records(d, path, rest, PoliciesField(s.value, rest), PoliciesField(t.value, rest))
  {
    var i := StructRecords(lib, POLICIES, path, PoliciesTree(s), PoliciesTree(t), d);
    if i == 0 {
      var under := path + [Name.PasswordPolicy];
      PasswordRecords(lib, under, s.value.passwordPolicy, t.value.passwordPolicy, d);
      assert d.path[|path|..] == [Name.PasswordPolicy] + d.path[|under|..];
    }
    assert path + d.path[|path|..] == d.path;
  }

  lemma RecoveryRecords(lib: Library, path: Path, s: Option<AccountRecoverySetting>, t: Option<AccountRecoverySetting>,
                        d: Difference)
    requires d in Diff(lib, ACCOUNT_RECOVERY, path, AccountRecoveryTree(s), AccountRecoveryTree(t))
    ensures path <= d.path
    ensures var rest := d.path[|path|..];
      if rest == [] then Records(d, path, [], AccountRecoveryTree(s), AccountRecoveryTree(t))
      else s.Some? && t.Some? && Records(d, path, rest, RecoveryField(s.value, rest), RecoveryField(t.value, rest))
  {
    var i := StructRecords(lib, ACCOUNT_RECOVERY, path, AccountRecoveryTree(s), AccountRecoveryTree(t), d);
    assert path + d.path[|path|..] == d.path;
  }

  lemma UsernameRecords(lib: Library, path: Path, s: Option<UsernameConfiguration>, t: Option<UsernameConfiguration>,
                        d: Difference)
    requires d in Diff(lib, USERNAME, path, UsernameTree(s), UsernameTree(t))
    ensures path <= d.path
    ensures var rest := d.path[|path|..];
      if rest == [] then Records(d, path, [], UsernameTree(s), UsernameTree(t))
      else s.Some? && t.Some? && Records(d, path, rest, UsernameField(s.value, rest), UsernameField(t.value, rest))
  {
    var i := StructRecords(lib, USERNAME, path, UsernameTree(s), UsernameTree(t), d);
    assert path + d.path[|path|..] == d.path;
  }

  /** The values recorded are the fields the path names. */
  predicate AreFields(a: SpecValue, b: SpecValue, d: Difference) {
    d.a == FieldAt(a, d.path) && d.b == FieldAt(b, d.path)
  }

  /** A path below a section, split at the section. */
  lemma PathBelow(name: Name, path: Path)
    requires ROOT + [name] <= path
    ensures |path| >= 2 && path[0] == Name.Spec && path[1] == name
    ensures path[|ROOT + [name]|..] == path[2..]
    ensures path == ROOT + [name] <==> path[2..] == []
  {
    var under := ROOT + [name];
    assert under[0] == path[0] && under[1] == path[1];
    if path[2..] == [] {
      assert path == under;
    }
  }

  lemma RecoverySection(lib: Library, a: SpecValue, b: SpecValue, d: Difference)
    requires d in Diff(lib, ACCOUNT_RECOVERY, ROOT + [Name.AccountRecoverySetting],
                       AccountRecoveryTree(a.spec.accountRecoverySetting),
                       AccountRecoveryTree(b.spec.accountRecoverySetting))
    ensures AreFields(a, b, d)
  {
    var path := ROOT + [Name.AccountRecoverySetting];
    RecoveryRecords(lib, path, a.spec.accountRecoverySetting, b.spec.accountRecoverySetting, d);
    PathBelow(Name.AccountRecoverySetting, d.path);
  }

  lemma AdminSection(lib: Library, a: SpecValue, b: SpecValue, d: Difference)
    requires d in Diff(lib, ADMIN, ROOT + [Name.AdminCreateUserConfig],
                       AdminTree(a.spec.adminCreateUserConfig), AdminTree(b.spec.adminCreateUserConfig))
    ensures AreFields(a, b, d)
  {
    var path := ROOT + [Name.AdminCreateUserConfig];
    AdminRecords(lib, path, a.spec.adminCreateUserConfig, b.spec.adminCreateUserConfig, d);
    PathBelow(Name.AdminCreateUserConfig, d.path);
  }

  lemma DeviceSection(lib: Library, a: SpecValue, b: SpecValue, d: Difference)
    requires d in Diff(lib, DEVICE, ROOT + [Name.DeviceConfiguration],
                       DeviceTree(a.spec.deviceConfiguration), DeviceTree(b.spec.deviceConfiguration))
    ensures AreFields(a, b, d)
  {
    var path := ROOT + [Name.DeviceConfiguration];
    DeviceRecords(lib, path, a.spec.deviceConfiguration, b.spec.deviceConfiguration, d);
    PathBelow(Name.DeviceConfiguration, d.path);
  }

  lemma EmailSection(lib: Library, a: SpecValue, b: SpecValue, d: Difference)
    requires d in Diff(lib, EMAIL, ROOT + [Name.EmailConfiguration],
                       EmailTree(a.spec.emailConfiguration), EmailTree(b.spec.emailConfiguration))
    ensures AreFields(a, b, d)
  {
    var path := ROOT + [Name.EmailConfiguration];
    EmailRecords(lib, path, a.spec.emailConfiguration, b.spec.emailConfiguration, d);
    PathBelow(Name.EmailConfiguration, d.path);
  }

  lemma PoliciesSection(lib: Library, a: SpecValue, b: SpecValue, d: Difference)
    requires d in Diff(lib, POLICIES, ROOT + [Name.Policies],
                       PoliciesTree(a.spec.policies), PoliciesTree(b.spec.policies))
    ensures AreFields(a, b, d)
  {
    var path := ROOT + [Name.Policies];
    PoliciesRecords(lib, path, a.spec.policies, b.spec.policies, d);
    PathBelow(Name.Policies, d.path);
  }

  lemma UsernameSection(lib: Library, a: SpecValue, b: SpecValue, d: Difference)
    requires d in Diff(lib, USERNAME, ROOT + [Name.UsernameConfiguration],
                       UsernameTree(a.spec.usernameConfiguration), UsernameTree(b.spec.usernameConfiguration))
    ensures AreFields(a, b, d)
  {
    var path := ROOT + [Name.UsernameConfiguration];
    UsernameRecords(lib, path, a.spec.usernameConfiguration, b.spec.usernameConfiguration, d);
    PathBelow(Name.UsernameConfiguration, d.path);
  }

  lemma StructSection(lib: Library, a: SpecValue, b: SpecValue, i: nat, d: Difference)
    requires i == 0 || i == 1 || i == 5 || i == 6 || i == 8 || i == 12
    requires d in Diff(lib, SPEC.fields[i].shape, ROOT + [SPEC.fields[i].name],
                       SpecTree(a).children[i], SpecTree(b).children[i])
    ensures AreFields(a, b, d)
  {
    if i == 0 {
      RecoverySection(lib, a, b, d);
    } else if i == 1 {
      AdminSection(lib, a, b, d);
    } else if i == 5 {
      DeviceSection(lib, a, b, d);
    } else if i == 6 {
      EmailSection(lib, a, b, d);
    } else if i == 8 {
      PoliciesSection(lib, a, b, d);
    } else {
      UsernameSection(lib, a, b, d);
    }
  }

  lemma ListSection(lib: Library, a: SpecValue, b: SpecValue, d: Difference)
    requires
      || d in Diff(lib, Leaf(StrList), ROOT + [Name.AliasAttributes],
                   StrsTree(a.spec.aliasAttributes), StrsTree(b.spec.aliasAttributes))
      || d in Diff(lib, Leaf(StrList), ROOT + [Name.AutoVerifiedAttributes],
                   StrsTree(a.spec.autoVerifiedAttributes), StrsTree(b.spec.autoVerifiedAttributes))
      || d in Diff(lib, Leaf(StrList), ROOT + [Name.UsernameAttributes],
                   StrsTree(a.spec.usernameAttributes), StrsTree(b.spec.usernameAttributes))
    ensures AreFields(a, b, d)
  {
    assert |d.path| == 2;
  }

  lemma ScalarSection(lib: Library, a: SpecValue, b: SpecValue, d: Difference)
    requires
      || d in Diff(lib, STR, ROOT + [Name.DeletionProtection],
                   StrTree(a.spec.deletionProtection), StrTree(b.spec.deletionProtection))
      || d in Diff(lib, STR, ROOT + [Name.PoolName], StrTree(a.spec.name), StrTree(b.spec.name))
    ensures AreFields(a, b, d)
  {
    assert |d.path| == 2;
  }

  lemma TagsSection(lib: Library, a: SpecValue, b: SpecValue, d: Difference)
    requires d in Diff(lib, Leaf(TagsOf), ROOT + [Name.Tags], TagMap(a.tags), TagMap(b.tags))
    ensures AreFields(a, b, d)
  {
    assert |d.path| == 2;
  }

  lemma SchemaSection(lib: Library, a: SpecValue, b: SpecValue, d: Difference)
    requires d in Diff(lib, Leaf(AttributeList), ROOT + [Name.Schema],
                       SectionAt(a, Name.Schema), SectionAt(b, Name.Schema))
    ensures AreFields(a, b, d)
  {
    assert |d.path| == 2;
  }

  lemma LeafSections(lib: Library, a: SpecValue, b: SpecValue, i: nat, d: Difference)
    requires i == 2 || i == 3 || i == 4 || i == 7 || i == 9 || i == 10 || i == 11
    requires d in Diff(lib, SPEC.fields[i].shape, ROOT + [SPEC.fields[i].name],
                       SpecTree(a).children[i], SpecTree(b).children[i])
    ensures AreFields(a, b, d)
  {
    if i == 2 || i == 3 || i == 11 {
      ListSection(lib, a, b, d);
    } else if i == 4 || i == 7 {
      ScalarSection(lib, a, b, d);
    } else if i == 9 {
      SchemaSection(lib, a, b, d);
    } else {
      TagsSection(lib, a, b, d);
    }
  }

  /** Every recorded difference holds the values of the two resources at the path it names. */
  lemma RecordedAreFields(lib: Library, a: SpecValue, b: SpecValue, d: Difference)
    requires d in SpecDiff(lib, a, b)
    ensures AreFields(a, b, d)
  {
    var i := SectionOf(lib, a, b, d);
    if i == 0 || i == 1 || i == 5 || i == 6 || i == 8 || i == 12 {
      StructSection(lib, a, b, i, d);
    } else {
      LeafSections(lib, a, b, i, d);
    }
  }
}

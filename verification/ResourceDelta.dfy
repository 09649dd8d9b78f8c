/** newResourceDelta on the fields of the user pool spec, and what its result is good for. */
module ResourceDelta {
  import opened Nullable
  import opened AckTags
  import opened Shapes
  import opened Delta
  import opened UserPools

  /** The compared part of a resource: its spec and the values of its tags. */
  datatype SpecValue = SpecValue(spec: Spec, tags: TagValues)

  // ---- The shape of the spec ----

  const STR := Leaf(StrPointer)
  const BOOL := Leaf(BoolPointer)
  const INT := Leaf(IntPointer)

  const ACCOUNT_RECOVERY := Struct([Field(Name.RecoveryMechanisms, Leaf(MechanismList))])

  const MESSAGE_TEMPLATE := Struct([
    Field(Name.EmailMessage, STR), Field(Name.EmailSubject, STR), Field(Name.SMSMessage, STR)])

  const ADMIN := Struct([
    Field(Name.AllowAdminCreateUserOnly, BOOL),
    Field(Name.InviteMessageTemplate, MESSAGE_TEMPLATE),
    Field(Name.UnusedAccountValidityDays, INT)])

  const DEVICE := Struct([
    Field(Name.ChallengeRequiredOnNewDevice, BOOL), Field(Name.DeviceOnlyRememberedOnUserPrompt, BOOL)])

  const EMAIL := Struct([
    Field(Name.ConfigurationSet, STR), Field(Name.EmailSendingAccount, STR), Field(Name.From, STR),
    Field(Name.ReplyToEmailAddress, STR), Field(Name.SourceARN, STR)])

  const PASSWORD_POLICY := Struct([
    Field(Name.MinimumLength, INT), Field(Name.RequireLowercase, BOOL), Field(Name.RequireNumbers, BOOL),
    Field(Name.RequireSymbols, BOOL), Field(Name.RequireUppercase, BOOL),
    Field(Name.TemporaryPasswordValidityDays, INT)])

  const POLICIES := Struct([Field(Name.PasswordPolicy, PASSWORD_POLICY)])

  const USERNAME := Struct([Field(Name.CaseSensitive, BOOL)])

  const SPEC := Struct([
    Field(Name.AccountRecoverySetting, ACCOUNT_RECOVERY),
    Field(Name.AdminCreateUserConfig, ADMIN),
    Field(Name.AliasAttributes, Leaf(StrList)),
    Field(Name.AutoVerifiedAttributes, Leaf(StrList)),
    Field(Name.DeletionProtection, STR),
    Field(Name.DeviceConfiguration, DEVICE),
    Field(Name.EmailConfiguration, EMAIL),
    Field(Name.PoolName, STR),
    Field(Name.Policies, POLICIES),
    Field(Name.Schema, Leaf(AttributeList)),
    Field(Name.Tags, Leaf(TagsOf)),
    Field(Name.UsernameAttributes, Leaf(StrList)),
    Field(Name.UsernameConfiguration, USERNAME)])

  // ---- Values as trees ----

  function StrTree(x: Option<string>): Tree { if x.None? then Nil else Str(x.value) }

  function BoolTree(x: Option<bool>): Tree { if x.None? then Nil else Bool(x.value) }

  function IntTree(x: Option<int64>): Tree { if x.None? then Nil else Int(x.value) }

  function StrsTree(x: Option<seq<string>>): Tree { if x.None? then Nil else Strs(x.value) }

  function AccountRecoveryTree(x: Option<AccountRecoverySetting>): (t: Tree)
    ensures Conforms(ACCOUNT_RECOVERY, t)
  {
    if x.None? then Nil
    else Node([if x.value.recoveryMechanisms.None? then Nil else Mechanisms(x.value.recoveryMechanisms.value)])
  }

  function MessageTemplateTree(x: Option<MessageTemplate>): (t: Tree)
    ensures Conforms(MESSAGE_TEMPLATE, t)
  {
    if x.None? then Nil
    else Node([StrTree(x.value.emailMessage), StrTree(x.value.emailSubject), StrTree(x.value.smsMessage)])
  }

  function AdminTree(x: Option<AdminCreateUserConfig>): (t: Tree)
    ensures Conforms(ADMIN, t)
  {
    if x.None? then Nil
    else Node([BoolTree(x.value.allowAdminCreateUserOnly), MessageTemplateTree(x.value.inviteMessageTemplate),
               IntTree(x.value.unusedAccountValidityDays)])
  }

  function DeviceTree(x: Option<DeviceConfiguration>): (t: Tree)
    ensures Conforms(DEVICE, t)
  {
    if x.None? then Nil
    else Node([BoolTree(x.value.challengeRequiredOnNewDevice), BoolTree(x.value.deviceOnlyRememberedOnUserPrompt)])
  }

  function EmailTree(x: Option<EmailConfiguration>): (t: Tree)
    ensures Conforms(EMAIL, t)
  {
    if x.None? then Nil
    else Node([StrTree(x.value.configurationSet), StrTree(x.value.emailSendingAccount), StrTree(x.value.from),
               StrTree(x.value.replyToEmailAddress), StrTree(x.value.sourceARN)])
  }

  function PasswordPolicyTree(x: Option<PasswordPolicy>): (t: Tree)
    ensures Conforms(PASSWORD_POLICY, t)
  {
    if x.None? then Nil
    else Node([IntTree(x.value.minimumLength), BoolTree(x.value.requireLowercase), BoolTree(x.value.requireNumbers),
               BoolTree(x.value.requireSymbols), BoolTree(x.value.requireUppercase),
               IntTree(x.value.temporaryPasswordValidityDays)])
  }

  function PoliciesTree(x: Option<Policies>): (t: Tree)
    ensures Conforms(POLICIES, t)
  {
    if x.None? then Nil else Node([PasswordPolicyTree(x.value.passwordPolicy)])
  }

  function UsernameTree(x: Option<UsernameConfiguration>): (t: Tree)
    ensures Conforms(USERNAME, t)
  {
    if x.None? then Nil else Node([BoolTree(x.value.caseSensitive)])
  }

  function SpecTree(x: SpecValue): (t: Tree)
    ensures Conforms(SPEC, t)
  {
    var s := x.spec;
    Node([
      AccountRecoveryTree(s.accountRecoverySetting),
      AdminTree(s.adminCreateUserConfig),
      StrsTree(s.aliasAttributes),
      StrsTree(s.autoVerifiedAttributes),
      StrTree(s.deletionProtection),
      DeviceTree(s.deviceConfiguration),
      EmailTree(s.emailConfiguration),
      StrTree(s.name),
      PoliciesTree(s.policies),
      if s.schema.None? then Nil else Attributes(s.schema.value),
      TagMap(x.tags),
      StrsTree(s.usernameAttributes),
      UsernameTree(s.usernameConfiguration)])
  }

  /** The differences newResourceDelta records between two specs. */
  function SpecDiff(lib: Library, a: SpecValue, b: SpecValue): seq<Difference> {
    Diff(lib, SPEC, [Name.Spec], SpecTree(a), SpecTree(b))
  }

  /** The position of a section's name in the spec. */
  function Position(name: Name): int {
    match name
    case AccountRecoverySetting => 0
    case AdminCreateUserConfig => 1
    case AliasAttributes => 2
    case AutoVerifiedAttributes => 3
    case DeletionProtection => 4
    case DeviceConfiguration => 5
    case EmailConfiguration => 6
    case PoolName => 7
    case Policies => 8
    case Schema => 9
    case Tags => 10
    case UsernameAttributes => 11
    case UsernameConfiguration => 12
    case _ => -1
  }

  lemma SectionsInPosition()
    ensures |SPEC.fields| == 13
    ensures forall i | 0 <= i < 13 :: Position(SPEC.fields[i].name) == i
  {
  }

  lemma StructsAreWellShaped()
    ensures WellShaped(MESSAGE_TEMPLATE) && WellShaped(DEVICE) && WellShaped(USERNAME)
    ensures WellShaped(ACCOUNT_RECOVERY)
  {
  }

  lemma AdminIsWellShaped()
    ensures WellShaped(ADMIN)
  {
    StructsAreWellShaped();
    assert forall i | 0 <= i < |ADMIN.fields| :: WellShaped(ADMIN.fields[i].shape);
  }

  lemma EmailIsWellShaped()
    ensures WellShaped(EMAIL)
  {
  }

  lemma PoliciesAreWellShaped()
    ensures WellShaped(POLICIES)
  {
    assert WellShaped(PASSWORD_POLICY);
  }

  lemma SectionsAreWellShaped()
    ensures forall i | 0 <= i < 13 :: WellShaped(SPEC.fields[i].shape)
  {
    StructsAreWellShaped();
    AdminIsWellShaped();
    EmailIsWellShaped();
    PoliciesAreWellShaped();
  }

  lemma SpecIsWellShaped()
    ensures WellShaped(SPEC)
  {
    SectionsInPosition();
    SectionsAreWellShaped();
  }

  // ---- The comparison itself ----

  /** ackcompare.Delta */
  class DeltaLog {
    const lib: Library
    var differences: seq<Difference>

    constructor (lib: Library)
      ensures this.lib == lib && differences == []
    {
      this.lib := lib;
      differences := [];
    }

    method Add(path: Path, a: Tree, b: Tree)
      modifies this
      ensures differences == old(differences) + [Difference(path, a, b)]
    {
      differences := differences + [Difference(path, a, b)];
    }

    predicate DifferentAt(subject: Path)
      reads this
    {
      exists d <- differences :: subject <= d.path
    }

    predicate DifferentExcept(except: Path)
      reads this
    {
      exists d <- differences :: !(except <= d.path)
    }

    method ComparePointer(kind: Kind, path: Path, a: Tree, b: Tree)
      requires kind.StrPointer? || kind.BoolPointer? || kind.IntPointer?
      requires ConformsLeaf(kind, a) && ConformsLeaf(kind, b)
      modifies this
      ensures differences == old(differences) + Diff(lib, Leaf(kind), path, a, b)
    {
      if a.Nil? != b.Nil? {
        Add(path, a, b);
      } else if !a.Nil? && !b.Nil? {
        if a != b {
          Add(path, a, b);
        }
      }
    }

    method CompareList(kind: Kind, path: Path, a: Tree, b: Tree)
      requires kind.StrList? || kind.MechanismList? || kind.AttributeList?
      requires ConformsLeaf(kind, a) && ConformsLeaf(kind, b)
      modifies this
      ensures differences == old(differences) + Diff(lib, Leaf(kind), path, a, b)
    {
      if Len(a) != Len(b) {
        Add(path, a, b);
      } else if Len(a) > 0 {
        if !SameList(lib, a, b) {
          Add(path, a, b);
        }
      }
    }

    /** ComparePointer on the k-th field of a struct, after the fields before it. */
    method PointerField(ghost start: seq<Difference>, ghost fs: seq<Field>, k: nat, kind: Kind, name: Name,
                        path: Path, s: seq<Tree>, t: seq<Tree>)
      requires kind.StrPointer? || kind.BoolPointer? || kind.IntPointer?
      requires k < |fs| == |s| == |t| && fs[k] == Field(name, Leaf(kind))
      requires forall i | 0 <= i < |fs| :: Conforms(fs[i].shape, s[i]) && Conforms(fs[i].shape, t[i])
      requires differences == start + DiffUpTo(lib, fs, k, path, s, t)
      modifies this
      ensures differences == start + DiffUpTo(lib, fs, k + 1, path, s, t)
    {
      assert Conforms(Leaf(kind), s[k]) && Conforms(Leaf(kind), t[k]);
      ComparePointer(kind, path + [name], s[k], t[k]);
    }

    method CompareTags(path: Path, a: TagCells, b: TagCells)
      modifies this
      ensures differences == old(differences) + Diff(lib, Leaf(TagsOf), path, TagMap(Deref(a)), TagMap(Deref(b)))
    {
      var desiredACKTags, _ := ConvertToOrderedACKTags(a);
      var latestACKTags, _ := ConvertToOrderedACKTags(b);
      if desiredACKTags.entries != latestACKTags.entries {
        Add(path, TagMap(Deref(a)), TagMap(Deref(b)));
      }
    }

    method CompareAccountRecovery(path: Path, a: Option<AccountRecoverySetting>, b: Option<AccountRecoverySetting>)
      modifies this
      ensures differences ==
        old(differences) + Diff(lib, ACCOUNT_RECOVERY, path, AccountRecoveryTree(a), AccountRecoveryTree(b))
    {
      var s, t := AccountRecoveryTree(a), AccountRecoveryTree(b);
      if s.Nil? != t.Nil? {
        Add(path, s, t);
      } else if !s.Nil? && !t.Nil? {
        ghost var fs, start := ACCOUNT_RECOVERY.fields, differences;
        CompareList(MechanismList, path + [Name.RecoveryMechanisms], s.children[0], t.children[0]);
        assert differences == start + DiffUpTo(lib, fs, 1, path, s.children, t.children);
      }
    }

    method CompareMessageTemplate(path: Path, a: Option<MessageTemplate>, b: Option<MessageTemplate>)
      modifies this
      ensures differences ==
        old(differences) + Diff(lib, MESSAGE_TEMPLATE, path, MessageTemplateTree(a), MessageTemplateTree(b))
    {
      var s, t := MessageTemplateTree(a), MessageTemplateTree(b);
      if s.Nil? != t.Nil? {
        Add(path, s, t);
      } else if !s.Nil? && !t.Nil? {
        ghost var fs, start := MESSAGE_TEMPLATE.fields, differences;
        PointerField(start, fs, 0, StrPointer, Name.EmailMessage, path, s.children, t.children);
        PointerField(start, fs, 1, StrPointer, Name.EmailSubject, path, s.children, t.children);
        PointerField(start, fs, 2, StrPointer, Name.SMSMessage, path, s.children, t.children);
      }
    }

    method CompareAdmin(path: Path, a: Option<AdminCreateUserConfig>, b: Option<AdminCreateUserConfig>)
      modifies this
      ensures differences == old(differences) + Diff(lib, ADMIN, path, AdminTree(a), AdminTree(b))
    {
      var s, t := AdminTree(a), AdminTree(b);
      if s.Nil? != t.Nil? {
        Add(path, s, t);
      } else if !s.Nil? && !t.Nil? {
        ghost var fs, start := ADMIN.fields, differences;
        PointerField(start, fs, 0, BoolPointer, Name.AllowAdminCreateUserOnly, path, s.children, t.children);
        CompareMessageTemplate(path + [Name.InviteMessageTemplate],
          a.value.inviteMessageTemplate, b.value.inviteMessageTemplate);
        assert differences == start + DiffUpTo(lib, fs, 2, path, s.children, t.children);
        PointerField(start, fs, 2, IntPointer, Name.UnusedAccountValidityDays, path, s.children, t.children);
      }
    }

    method CompareDevice(path: Path, a: Option<DeviceConfiguration>, b: Option<DeviceConfiguration>)
      modifies this
      ensures differences == old(differences) + Diff(lib, DEVICE, path, DeviceTree(a), DeviceTree(b))
    {
      var s, t := DeviceTree(a), DeviceTree(b);
      if s.Nil? != t.Nil? {
        Add(path, s, t);
      } else if !s.Nil? && !t.Nil? {
        ghost var fs, start := DEVICE.fields, differences;
        PointerField(start, fs, 0, BoolPointer, Name.ChallengeRequiredOnNewDevice, path, s.children, t.children);
        PointerField(start, fs, 1, BoolPointer, Name.DeviceOnlyRememberedOnUserPrompt, path, s.children, t.children);
      }
    }

    method CompareEmail(path: Path, a: Option<EmailConfiguration>, b: Option<EmailConfiguration>)
      modifies this
      ensures differences == old(differences) + Diff(lib, EMAIL, path, EmailTree(a), EmailTree(b))
    {
      var s, t := EmailTree(a), EmailTree(b);
      if s.Nil? != t.Nil? {
        Add(path, s, t);
      } else if !s.Nil? && !t.Nil? {
        ghost var fs, start := EMAIL.fields, differences;
        PointerField(start, fs, 0, StrPointer, Name.ConfigurationSet, path, s.children, t.children);
        PointerField(start, fs, 1, StrPointer, Name.EmailSendingAccount, path, s.children, t.children);
        PointerField(start, fs, 2, StrPointer, Name.From, path, s.children, t.children);
        PointerField(start, fs, 3, StrPointer, Name.ReplyToEmailAddress, path, s.children, t.children);
        PointerField(start, fs, 4, StrPointer, Name.SourceARN, path, s.children, t.children);
      }
    }

    method ComparePasswordPolicy(path: Path, a: Option<PasswordPolicy>, b: Option<PasswordPolicy>)
      modifies this
      ensures differences ==
        old(differences) + Diff(lib, PASSWORD_POLICY, path, PasswordPolicyTree(a), PasswordPolicyTree(b))
    {
      var s, t := PasswordPolicyTree(a), PasswordPolicyTree(b);
      if s.Nil? != t.Nil? {
        Add(path, s, t);
      } else if !s.Nil? && !t.Nil? {
        ghost var fs, start := PASSWORD_POLICY.fields, differences;
        PointerField(start, fs, 0, IntPointer, Name.MinimumLength, path, s.children, t.children);
        PointerField(start, fs, 1, BoolPointer, Name.RequireLowercase, path, s.children, t.children);
        PointerField(start, fs, 2, BoolPointer, Name.RequireNumbers, path, s.children, t.children);
        PointerField(start, fs, 3, BoolPointer, Name.RequireSymbols, path, s.children, t.children);
        PointerField(start, fs, 4, BoolPointer, Name.RequireUppercase, path, s.children, t.children);
        PointerField(start, fs, 5, IntPointer, Name.TemporaryPasswordValidityDays, path, s.children, t.children);
      }
    }

    method ComparePolicies(path: Path, a: Option<Policies>, b: Option<Policies>)
      modifies this
      ensures differences == old(differences) + Diff(lib, POLICIES, path, PoliciesTree(a), PoliciesTree(b))
    {
      var s, t := PoliciesTree(a), PoliciesTree(b);
      if s.Nil? != t.Nil? {
        Add(path, s, t);
      } else if !s.Nil? && !t.Nil? {
        ghost var fs, start := POLICIES.fields, differences;
        ComparePasswordPolicy(path + [Name.PasswordPolicy], a.value.passwordPolicy, b.value.passwordPolicy);
        assert differences == start + DiffUpTo(lib, fs, 1, path, s.children, t.children);
      }
    }

    method CompareUsername(path: Path, a: Option<UsernameConfiguration>, b: Option<UsernameConfiguration>)
      modifies this
      ensures differences == old(differences) + Diff(lib, USERNAME, path, UsernameTree(a), UsernameTree(b))
    {
      var s, t := UsernameTree(a), UsernameTree(b);
      if s.Nil? != t.Nil? {
        Add(path, s, t);
      } else if !s.Nil? && !t.Nil? {
        ghost var fs, start := USERNAME.fields, differences;
        PointerField(start, fs, 0, BoolPointer, Name.CaseSensitive, path, s.children, t.children);
      }
    }

    /** AccountRecoverySetting and AdminCreateUserConfig. */
    method CompareFirstSections(a: SpecValue, b: SpecValue)
      requires differences == []
      modifies this
      ensures differences == DiffUpTo(lib, SPEC.fields, 2, [Name.Spec], SpecTree(a).children, SpecTree(b).children)
    {
      var x, y, p := a.spec, b.spec, [Name.Spec];
      ghost var s, t := SpecTree(a).children, SpecTree(b).children;
      ghost var fs := SPEC.fields;
      CompareAccountRecovery(p + [Name.AccountRecoverySetting], x.accountRecoverySetting, y.accountRecoverySetting);
      assert differences == DiffUpTo(lib, fs, 1, p, s, t);
      CompareAdmin(p + [Name.AdminCreateUserConfig], x.adminCreateUserConfig, y.adminCreateUserConfig);
      assert differences == DiffUpTo(lib, fs, 2, p, s, t);
    }

    /** AliasAttributes to DeletionProtection. */
    method CompareNextSections(a: SpecValue, b: SpecValue)
      requires differences == DiffUpTo(lib, SPEC.fields, 2, [Name.Spec], SpecTree(a).children, SpecTree(b).children)
      modifies this
      ensures differences == DiffUpTo(lib, SPEC.fields, 5, [Name.Spec], SpecTree(a).children, SpecTree(b).children)
    {
      var p := [Name.Spec];
      var s, t := SpecTree(a).children, SpecTree(b).children;
      ghost var fs := SPEC.fields;
      CompareList(StrList, p + [Name.AliasAttributes], s[2], t[2]);
      assert differences == DiffUpTo(lib, fs, 3, p, s, t);
      CompareList(StrList, p + [Name.AutoVerifiedAttributes], s[3], t[3]);
      assert differences == DiffUpTo(lib, fs, 4, p, s, t);
      ComparePointer(StrPointer, p + [Name.DeletionProtection], s[4], t[4]);
      assert differences == DiffUpTo(lib, fs, 5, p, s, t);
    }

    /** DeviceConfiguration to Policies. */
    method CompareMiddleSections(a: SpecValue, b: SpecValue)
      requires differences == DiffUpTo(lib, SPEC.fields, 5, [Name.Spec], SpecTree(a).children, SpecTree(b).children)
      modifies this
      ensures differences == DiffUpTo(lib, SPEC.fields, 9, [Name.Spec], SpecTree(a).children, SpecTree(b).children)
    {
      var x, y, p := a.spec, b.spec, [Name.Spec];
      var s, t := SpecTree(a).children, SpecTree(b).children;
      ghost var fs := SPEC.fields;
      CompareDevice(p + [Name.DeviceConfiguration], x.deviceConfiguration, y.deviceConfiguration);
      assert differences == DiffUpTo(lib, fs, 6, p, s, t);
      CompareEmail(p + [Name.EmailConfiguration], x.emailConfiguration, y.emailConfiguration);
      assert differences == DiffUpTo(lib, fs, 7, p, s, t);
      ComparePointer(StrPointer, p + [Name.PoolName], s[7], t[7]);
      assert differences == DiffUpTo(lib, fs, 8, p, s, t);
      ComparePolicies(p + [Name.Policies], x.policies, y.policies);
      assert differences == DiffUpTo(lib, fs, 9, p, s, t);
    }

    /** Schema to the end. */
    method CompareLastSections(a: SpecValue, b: SpecValue, aTags: TagCells, bTags: TagCells)
      requires Deref(aTags) == a.tags && Deref(bTags) == b.tags
      requires differences == DiffUpTo(lib, SPEC.fields, 9, [Name.Spec], SpecTree(a).children, SpecTree(b).children)
      modifies this
      ensures differences == DiffUpTo(lib, SPEC.fields, 13, [Name.Spec], SpecTree(a).children, SpecTree(b).children)
    {
      var x, y, p := a.spec, b.spec, [Name.Spec];
      var s, t := SpecTree(a).children, SpecTree(b).children;
      ghost var fs := SPEC.fields;
      CompareList(AttributeList, p + [Name.Schema], s[9], t[9]);
      assert differences == DiffUpTo(lib, fs, 10, p, s, t);
      CompareTags(p + [Name.Tags], aTags, bTags);
      assert differences == DiffUpTo(lib, fs, 11, p, s, t);
      CompareList(StrList, p + [Name.UsernameAttributes], s[11], t[11]);
      assert differences == DiffUpTo(lib, fs, 12, p, s, t);
      CompareUsername(p + [Name.UsernameConfiguration], x.usernameConfiguration, y.usernameConfiguration);
      assert differences == DiffUpTo(lib, fs, 13, p, s, t);
    }
  }

  /** The compared part of a resource on the heap. */
  function SpecOf(r: UserPool): SpecValue
    reads r
  {
    SpecValue(r.spec, Deref(r.tags))
  }

  /** Two resources that are both nil would be dereferenced; one nil resource is the whole difference. */
  method NewResourceDelta(lib: Library, a: UserPool?, b: UserPool?) returns (delta: DeltaLog)
    requires a != null || b != null
    ensures fresh(delta) && delta.lib == lib
    ensures delta.differences ==
      if a == null then [Difference([], Nil, SpecTree(SpecOf(b)))]
      else if b == null then [Difference([], SpecTree(SpecOf(a)), Nil)]
      else SpecDiff(lib, SpecOf(a), SpecOf(b))
  {
    if a == null || b == null {
      delta := new DeltaLog(lib);
      delta.Add([], if a == null then Nil else SpecTree(SpecOf(a)), if b == null then Nil else SpecTree(SpecOf(b)));
      return;
    }
    delta := new DeltaLog(lib);
    delta.CompareFirstSections(SpecOf(a), SpecOf(b));
    delta.CompareNextSections(SpecOf(a), SpecOf(b));
    delta.CompareMiddleSections(SpecOf(a), SpecOf(b));
    delta.CompareLastSections(SpecOf(a), SpecOf(b), a.tags, b.tags);
    SectionsInPosition();
  }
}

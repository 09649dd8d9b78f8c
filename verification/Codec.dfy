/**
 The payload builders and the response mapping of sdk.go: the spec on its way to the SDK and
 back. The functions say what each direction means; the methods build it as the code does.
 */
module Codec {
  import opened Nullable
  import opened Errors
  import opened Shapes

  datatype Result<+T> = Ok(value: T) | Err(error: GoError)

  // ---- Encoding ----

  function EncodeInt(x: Option<int64>): Option<int32> {
    if x.Some? then Some(Narrow(x.value)) else None
  }

  function EncodeMechanism(o: RecoveryOption): SdkRecoveryOption {
    SdkRecoveryOption(o.name.GetOr(""), EncodeInt(o.priority))
  }

  function EncodeMechanisms(os: seq<RecoveryOption>): seq<SdkRecoveryOption> {
    seq(|os|, i requires 0 <= i < |os| => EncodeMechanism(os[i]))
  }

  function EncodeAccountRecovery(s: Option<AccountRecoverySetting>): Option<SdkAccountRecoverySetting> {
    if s.None? then None
    else if s.value.recoveryMechanisms.None? then Some(SdkAccountRecoverySetting(None))
    else Some(SdkAccountRecoverySetting(Some(EncodeMechanisms(s.value.recoveryMechanisms.value))))
  }

  function EncodeAdmin(s: Option<AdminCreateUserConfig>): Option<SdkAdminCreateUserConfig> {
    if s.None? then None
    else Some(SdkAdminCreateUserConfig(
      s.value.allowAdminCreateUserOnly.GetOr(false),
      s.value.inviteMessageTemplate,
      Narrow(s.value.unusedAccountValidityDays.GetOr(0))))
  }

  function EncodeDevice(s: Option<DeviceConfiguration>): Option<SdkDeviceConfiguration> {
    if s.None? then None
    else Some(SdkDeviceConfiguration(
      s.value.challengeRequiredOnNewDevice.GetOr(false),
      s.value.deviceOnlyRememberedOnUserPrompt.GetOr(false)))
  }

  function EncodeEmail(s: Option<EmailConfiguration>): Option<SdkEmailConfiguration> {
    if s.None? then None
    else Some(SdkEmailConfiguration(
      s.value.configurationSet,
      s.value.emailSendingAccount.GetOr(""),
      s.value.from,
      s.value.replyToEmailAddress,
      s.value.sourceARN))
  }

  function EncodePasswordPolicy(p: PasswordPolicy): SdkPasswordPolicy {
    SdkPasswordPolicy(
      EncodeInt(p.minimumLength),
      p.requireLowercase.GetOr(false),
      p.requireNumbers.GetOr(false),
      p.requireSymbols.GetOr(false),
      p.requireUppercase.GetOr(false),
      Narrow(p.temporaryPasswordValidityDays.GetOr(0)))
  }

  function EncodePolicies(s: Option<Policies>): Option<SdkPolicies> {
    if s.None? then None
    else if s.value.passwordPolicy.None? then Some(SdkPolicies(None))
    else Some(SdkPolicies(Some(EncodePasswordPolicy(s.value.passwordPolicy.value))))
  }

  function EncodeSchemaAttribute(a: SchemaAttribute): SdkSchemaAttribute {
    SdkSchemaAttribute(a.attributeDataType.GetOr(""), a.developerOnlyAttribute, a.mutable, a.name,
      a.numberAttributeConstraints, a.required, a.stringAttributeConstraints)
  }

  function EncodeAttributes(s: seq<SchemaAttribute>): seq<SdkSchemaAttribute> {
    seq(|s|, i requires 0 <= i < |s| => EncodeSchemaAttribute(s[i]))
  }

  function EncodeSchema(s: Option<seq<SchemaAttribute>>): Option<seq<SdkSchemaAttribute>> {
    if s.None? then None else Some(EncodeAttributes(s.value))
  }

  predicate Fits(x: Option<int64>) {
    x.Some? ==> FitsInt32(x.value)
  }

  predicate PrioritiesFit(s: Option<AccountRecoverySetting>) {
    s.Some? && s.value.recoveryMechanisms.Some? ==>
      forall o <- s.value.recoveryMechanisms.value :: Fits(o.priority)
  }

  /** The first number the builders find outside int32, by field name. */
  function OutOfRange(spec: Spec): Option<string> {
    if !PrioritiesFit(spec.accountRecoverySetting) then Some("Priority")
    else if spec.adminCreateUserConfig.Some? && !Fits(spec.adminCreateUserConfig.value.unusedAccountValidityDays)
    then Some("UnusedAccountValidityDays")
    else OutOfRangePolicy(spec.policies)
  }

  function OutOfRangePolicy(s: Option<Policies>): Option<string> {
    if s.None? || s.value.passwordPolicy.None? then None
    else if !Fits(s.value.passwordPolicy.value.minimumLength) then Some("MinimumLength")
    else if !Fits(s.value.passwordPolicy.value.temporaryPasswordValidityDays)
    then Some("TemporaryPasswordValidityDays")
    else None
  }

  function RangeError(field: string): GoError {
    Plain("error: field " + field + " is of type int32")
  }

  function UpdatePayload(spec: Spec, id: Option<string>): Result<UpdateInput> {
    if OutOfRange(spec).Some? then Err(RangeError(OutOfRange(spec).value))
    else Ok(UpdateInput(
      EncodeAccountRecovery(spec.accountRecoverySetting),
      EncodeAdmin(spec.adminCreateUserConfig),
      spec.autoVerifiedAttributes,
      spec.deletionProtection.GetOr(""),
      EncodeDevice(spec.deviceConfiguration),
      EncodeEmail(spec.emailConfiguration),
      EncodePolicies(spec.policies),
      id))
  }

  function CreatePayload(spec: Spec): Result<CreateInput> {
    if OutOfRange(spec).Some? then Err(RangeError(OutOfRange(spec).value))
    else Ok(CreateInput(
      EncodeAccountRecovery(spec.accountRecoverySetting),
      EncodeAdmin(spec.adminCreateUserConfig),
      spec.aliasAttributes,
      spec.autoVerifiedAttributes,
      spec.deletionProtection.GetOr(""),
      EncodeDevice(spec.deviceConfiguration),
      EncodeEmail(spec.emailConfiguration),
      EncodePolicies(spec.policies),
      spec.name,
      EncodeSchema(spec.schema),
      spec.usernameAttributes,
      spec.usernameConfiguration))
  }

  // ---- Decoding ----

  function EnumString(s: string): Option<string> {
    if s != "" then Some(s) else None
  }

  /** int64(x) */
  function Widen(x: Option<int32>): Option<int64> {
    if x.Some? then Some(x.value) else None
  }

  function DecodeMechanism(o: SdkRecoveryOption): RecoveryOption {
    RecoveryOption(EnumString(o.name), Widen(o.priority))
  }

  function DecodeMechanisms(os: seq<SdkRecoveryOption>): seq<RecoveryOption> {
    seq(|os|, i requires 0 <= i < |os| => DecodeMechanism(os[i]))
  }

  function DecodeAccountRecovery(s: Option<SdkAccountRecoverySetting>): Option<AccountRecoverySetting> {
    if s.None? then None
    else if s.value.recoveryMechanisms.None? then Some(AccountRecoverySetting(None))
    else Some(AccountRecoverySetting(Some(DecodeMechanisms(s.value.recoveryMechanisms.value))))
  }

  function DecodeAdmin(s: Option<SdkAdminCreateUserConfig>): Option<AdminCreateUserConfig> {
    if s.None? then None
    else Some(AdminCreateUserConfig(
      Some(s.value.allowAdminCreateUserOnly),
      s.value.inviteMessageTemplate,
      Some(s.value.unusedAccountValidityDays)))
  }

  function DecodeDevice(s: Option<SdkDeviceConfiguration>): Option<DeviceConfiguration> {
    if s.None? then None
    else Some(DeviceConfiguration(
      Some(s.value.challengeRequiredOnNewDevice), Some(s.value.deviceOnlyRememberedOnUserPrompt)))
  }

  function DecodeEmail(s: Option<SdkEmailConfiguration>): Option<EmailConfiguration> {
    if s.None? then None
    else Some(EmailConfiguration(
      s.value.configurationSet,
      EnumString(s.value.emailSendingAccount),
      s.value.from,
      s.value.replyToEmailAddress,
      s.value.sourceArn))
  }

  function DecodePasswordPolicy(p: SdkPasswordPolicy): PasswordPolicy {
    PasswordPolicy(
      Widen(p.minimumLength),
      Some(p.requireLowercase),
      Some(p.requireNumbers),
      Some(p.requireSymbols),
      Some(p.requireUppercase),
      Some(p.temporaryPasswordValidityDays))
  }

  function DecodePolicies(s: Option<SdkPolicies>): Option<Policies> {
    if s.None? then None
    else if s.value.passwordPolicy.None? then Some(Policies(None))
    else Some(Policies(Some(DecodePasswordPolicy(s.value.passwordPolicy.value))))
  }

  /** The spec after a read: every section is the response's, except that Schema stays as it was. */
  function ReadBack(spec: Spec, resp: SdkUserPool): Spec {
    Spec(
      DecodeAccountRecovery(resp.accountRecoverySetting),
      DecodeAdmin(resp.adminCreateUserConfig),
      resp.aliasAttributes,
      resp.autoVerifiedAttributes,
      EnumString(resp.deletionProtection),
      DecodeDevice(resp.deviceConfiguration),
      DecodeEmail(resp.emailConfiguration),
      resp.name,
      DecodePolicies(resp.policies),
      spec.schema,
      resp.usernameAttributes,
      resp.usernameConfiguration)
  }

  // ---- Normal forms ----

  function NormalEnum(s: Option<string>): Option<string> {
    if s == Some("") then None else s
  }

  function NormalMechanisms(os: seq<RecoveryOption>): seq<RecoveryOption> {
    seq(|os|, i requires 0 <= i < |os| => os[i].(name := NormalEnum(os[i].name)))
  }

  function NormalAccountRecovery(s: Option<AccountRecoverySetting>): Option<AccountRecoverySetting> {
    if s.None? || s.value.recoveryMechanisms.None? then s
    else Some(AccountRecoverySetting(Some(NormalMechanisms(s.value.recoveryMechanisms.value))))
  }

  function NormalAdmin(s: Option<AdminCreateUserConfig>): Option<AdminCreateUserConfig> {
    if s.None? then None
    else Some(s.value.(
      allowAdminCreateUserOnly := Some(s.value.allowAdminCreateUserOnly.GetOr(false)),
      unusedAccountValidityDays := Some(s.value.unusedAccountValidityDays.GetOr(0))))
  }

  function NormalDevice(s: Option<DeviceConfiguration>): Option<DeviceConfiguration> {
    if s.None? then None
    else Some(DeviceConfiguration(
      Some(s.value.challengeRequiredOnNewDevice.GetOr(false)),
      Some(s.value.deviceOnlyRememberedOnUserPrompt.GetOr(false))))
  }

  function NormalEmail(s: Option<EmailConfiguration>): Option<EmailConfiguration> {
    if s.None? then None else Some(s.value.(emailSendingAccount := NormalEnum(s.value.emailSendingAccount)))
  }

  function NormalPasswordPolicy(p: PasswordPolicy): PasswordPolicy {
    PasswordPolicy(
      p.minimumLength,
      Some(p.requireLowercase.GetOr(false)),
      Some(p.requireNumbers.GetOr(false)),
      Some(p.requireSymbols.GetOr(false)),
      Some(p.requireUppercase.GetOr(false)),
      Some(p.temporaryPasswordValidityDays.GetOr(0)))
  }

  function NormalPolicies(s: Option<Policies>): Option<Policies> {
    if s.None? || s.value.passwordPolicy.None? then s
    else Some(Policies(Some(NormalPasswordPolicy(s.value.passwordPolicy.value))))
  }

  /**
   The form in which the service hands a spec back: nil booleans are false, nil plain
   integers 0, empty enumeration strings nil; everything else, list order and nil lists
   included, is kept.
   */
  function Normal(spec: Spec): Spec {
    spec.(
      accountRecoverySetting := NormalAccountRecovery(spec.accountRecoverySetting),
      adminCreateUserConfig := NormalAdmin(spec.adminCreateUserConfig),
      deletionProtection := NormalEnum(spec.deletionProtection),
      deviceConfiguration := NormalDevice(spec.deviceConfiguration),
      emailConfiguration := NormalEmail(spec.emailConfiguration),
      policies := NormalPolicies(spec.policies))
  }

  /** The part of a spec an update can carry; the rest can only be given at creation. */
  function Updatable(spec: Spec): Spec {
    spec.(aliasAttributes := None, name := None, schema := None,
          usernameAttributes := None, usernameConfiguration := None)
  }

  /** Each section the payload carries is what the pool now holds; the others are free. */
  ghost predicate Stores(pool: SdkUserPool, input: UpdateInput) {
    && (input.accountRecoverySetting.Some? ==> pool.accountRecoverySetting == input.accountRecoverySetting)
    && (input.adminCreateUserConfig.Some? ==> pool.adminCreateUserConfig == input.adminCreateUserConfig)
    && (input.autoVerifiedAttributes.Some? ==> pool.autoVerifiedAttributes == input.autoVerifiedAttributes)
    && (input.deletionProtection != "" ==> pool.deletionProtection == input.deletionProtection)
    && (input.deviceConfiguration.Some? ==> pool.deviceConfiguration == input.deviceConfiguration)
    && (input.emailConfiguration.Some? ==> pool.emailConfiguration == input.emailConfiguration)
    && (input.policies.Some? ==> pool.policies == input.policies)
  }

  // ---- Theorems ----

  ghost predicate RecoveryInRange(spec: Spec) {
    forall s: seq<RecoveryOption> | spec.accountRecoverySetting == Some(AccountRecoverySetting(Some(s))) ::
      forall i | 0 <= i < |s| && s[i].priority.Some? :: FitsInt32(s[i].priority.value)
  }

  ghost predicate AdminInRange(spec: Spec) {
    forall a: AdminCreateUserConfig | spec.adminCreateUserConfig == Some(a) && a.unusedAccountValidityDays.Some? ::
      FitsInt32(a.unusedAccountValidityDays.value)
  }

  ghost predicate MinimumInRange(spec: Spec) {
    forall p: PasswordPolicy | spec.policies == Some(Policies(Some(p))) && p.minimumLength.Some? ::
      FitsInt32(p.minimumLength.value)
  }

  ghost predicate ValidityInRange(spec: Spec) {
    forall p: PasswordPolicy | spec.policies == Some(Policies(Some(p))) && p.temporaryPasswordValidityDays.Some? ::
      FitsInt32(p.temporaryPasswordValidityDays.value)
  }

  ghost predicate PolicyInRange(spec: Spec) {
    MinimumInRange(spec) && ValidityInRange(spec)
  }

  /** Every number of the four int32 fields, wherever it is present, fits. */
  ghost predicate InRange(spec: Spec) {
    RecoveryInRange(spec) && AdminInRange(spec) && PolicyInRange(spec)
  }

  lemma RecoveryInRangeIff(spec: Spec)
    ensures RecoveryInRange(spec) <==> PrioritiesFit(spec.accountRecoverySetting)
  {
  }

  lemma PolicyInRangeIff(spec: Spec)
    ensures PolicyInRange(spec) <==> OutOfRangePolicy(spec.policies).None?
    ensures !MinimumInRange(spec) ==> OutOfRangePolicy(spec.policies) == Some("MinimumLength")
    ensures MinimumInRange(spec) && !ValidityInRange(spec) ==>
      OutOfRangePolicy(spec.policies) == Some("TemporaryPasswordValidityDays")
  {
    var s := spec.policies;
    if s.Some? && s.value.passwordPolicy.Some? {
      assert s == Some(Policies(Some(s.value.passwordPolicy.value)));
    }
  }

  /** The text of the error names the first field out of range, in source order. */
  lemma RangeErrorIs(spec: Spec, id: Option<string>)
    requires !InRange(spec)
    ensures var field :=
        if !RecoveryInRange(spec) then "Priority"
        else if !AdminInRange(spec) then "UnusedAccountValidityDays"
        else if !MinimumInRange(spec) then "MinimumLength"
        else "TemporaryPasswordValidityDays";
      var err := GoError(Ordinary, "error: field " + field + " is of type int32", None, false);
      UpdatePayload(spec, id) == Err(err) && CreatePayload(spec) == Err(err)
  {
    RecoveryInRangeIff(spec);
    PolicyInRangeIff(spec);
    AdminInRangeIff(spec);
  }

  lemma AdminInRangeIff(spec: Spec)
    ensures AdminInRange(spec) <==>
      (spec.adminCreateUserConfig.Some? ==> Fits(spec.adminCreateUserConfig.value.unusedAccountValidityDays))
  {
  }

  /** Both builders fail on exactly the same specs: those with a number outside int32. */
  lemma PayloadsFailIff(spec: Spec, id: Option<string>)
    ensures UpdatePayload(spec, id).Err? <==> !InRange(spec)
    ensures CreatePayload(spec).Err? <==> !InRange(spec)
  {
    RecoveryInRangeIff(spec);
    PolicyInRangeIff(spec);
    assert InRange(spec) <==> OutOfRange(spec).None?;
  }

  /** Narrowing loses nothing exactly on the numbers the builders let through. */
  lemma NarrowIsIdentityIff(x: int64)
    ensures Narrow(x) == x <==> FitsInt32(x)
  {
  }

  lemma AccountRecoveryRoundTrip(s: Option<AccountRecoverySetting>)
    requires PrioritiesFit(s)
    ensures DecodeAccountRecovery(EncodeAccountRecovery(s)) == NormalAccountRecovery(s)
  {
    if s.Some? && s.value.recoveryMechanisms.Some? {
      var os := s.value.recoveryMechanisms.value;
      assert DecodeMechanisms(EncodeMechanisms(os)) == NormalMechanisms(os);
    }
  }

  lemma AdminRoundTrip(s: Option<AdminCreateUserConfig>)
    requires s.Some? ==> Fits(s.value.unusedAccountValidityDays)
    ensures DecodeAdmin(EncodeAdmin(s)) == NormalAdmin(s)
  {
  }

  lemma PoliciesRoundTrip(s: Option<Policies>)
    requires OutOfRangePolicy(s).None?
    ensures DecodePolicies(EncodePolicies(s)) == NormalPolicies(s)
  {
  }

  lemma DeviceAndEmailRoundTrip(d: Option<DeviceConfiguration>, e: Option<EmailConfiguration>)
    ensures DecodeDevice(EncodeDevice(d)) == NormalDevice(d)
    ensures DecodeEmail(EncodeEmail(e)) == NormalEmail(e)
  {
  }

  /** What a pool that stores an update payload reads back as: the normal form of every section sent. */
  lemma UpdateReadsBackNormal(spec: Spec, id: Option<string>, before: Spec, pool: SdkUserPool)
    requires UpdatePayload(spec, id).Ok? && Stores(pool, UpdatePayload(spec, id).value)
    ensures var after, normal := ReadBack(before, pool), Normal(spec);
      && (spec.accountRecoverySetting.Some? ==> after.accountRecoverySetting == normal.accountRecoverySetting)
      && (spec.adminCreateUserConfig.Some? ==> after.adminCreateUserConfig == normal.adminCreateUserConfig)
      && (spec.autoVerifiedAttributes.Some? ==> after.autoVerifiedAttributes == normal.autoVerifiedAttributes)
      && (normal.deletionProtection.Some? ==> after.deletionProtection == normal.deletionProtection)
      && (spec.deviceConfiguration.Some? ==> after.deviceConfiguration == normal.deviceConfiguration)
      && (spec.emailConfiguration.Some? ==> after.emailConfiguration == normal.emailConfiguration)
      && (spec.policies.Some? ==> after.policies == normal.policies)
      && after.schema == before.schema
  {
    AccountRecoveryRoundTrip(spec.accountRecoverySetting);
    AdminRoundTrip(spec.adminCreateUserConfig);
    PoliciesRoundTrip(spec.policies);
    DeviceAndEmailRoundTrip(spec.deviceConfiguration, spec.emailConfiguration);
  }

  lemma NormalIsIdempotent(spec: Spec)
    ensures Normal(Normal(spec)) == Normal(spec)
  {
    var s := spec.accountRecoverySetting;
    if s.Some? && s.value.recoveryMechanisms.Some? {
      var os := s.value.recoveryMechanisms.value;
      assert NormalMechanisms(NormalMechanisms(os)) == NormalMechanisms(os);
    }
  }

  /** Whatever a read returns is in normal form, so a read is a fixed point of being sent and read again. */
  lemma ReadBackIsNormal(before: Spec, pool: SdkUserPool)
    ensures Normal(ReadBack(before, pool)) == ReadBack(before, pool)
  {
    var s := pool.accountRecoverySetting;
    if s.Some? && s.value.recoveryMechanisms.Some? {
      var os := s.value.recoveryMechanisms.value;
      assert NormalMechanisms(DecodeMechanisms(os)) == DecodeMechanisms(os);
    }
  }

  /** The pool an update payload alone would make of an empty one. */
  function PoolOf(input: UpdateInput): SdkUserPool {
    SdkUserPool(None, input.userPoolId, input.accountRecoverySetting, input.adminCreateUserConfig, None,
      input.autoVerifiedAttributes, input.deletionProtection, input.deviceConfiguration,
      input.emailConfiguration, None, input.policies, None, None)
  }

  /** Two specs are sent as the same update exactly when their updatable parts have one normal form. */
  lemma SamePayloadIffSameNormal(s: Spec, t: Spec, id: Option<string>)
    requires InRange(s) && InRange(t)
    ensures UpdatePayload(s, id) == UpdatePayload(t, id) <==> Normal(Updatable(s)) == Normal(Updatable(t))
  {
    PayloadsFailIff(s, id);
    PayloadsFailIff(t, id);
    PayloadDeterminesNormal(s, id);
    PayloadDeterminesNormal(t, id);
    NormalDeterminesPayload(s, id);
    NormalDeterminesPayload(t, id);
  }

  lemma PayloadDeterminesNormal(s: Spec, id: Option<string>)
    requires UpdatePayload(s, id).Ok?
    ensures ReadBack(Updatable(s), PoolOf(UpdatePayload(s, id).value)) == Normal(Updatable(s))
  {
    UpdateReadsBackNormal(s, id, Updatable(s), PoolOf(UpdatePayload(s, id).value));
  }

  lemma NormalDeterminesPayload(s: Spec, id: Option<string>)
    requires UpdatePayload(s, id).Ok?
    ensures UpdatePayload(Normal(Updatable(s)), id) == UpdatePayload(s, id)
  {
    var setting := s.accountRecoverySetting;
    if setting.Some? && setting.value.recoveryMechanisms.Some? {
      var os := setting.value.recoveryMechanisms.value;
      assert forall i | 0 <= i < |os| :: EncodeMechanism(NormalMechanisms(os)[i]) == EncodeMechanism(os[i]);
      assert EncodeMechanisms(NormalMechanisms(os)) == EncodeMechanisms(os);
    }
  }

  // ---- Creation ----

  /** The pool holds every section of the create payload, those only a creation can set included. */
  ghost predicate CreateStores(pool: SdkUserPool, input: CreateInput) {
    && pool.accountRecoverySetting == input.accountRecoverySetting
    && pool.adminCreateUserConfig == input.adminCreateUserConfig
    && pool.aliasAttributes == input.aliasAttributes
    && pool.autoVerifiedAttributes == input.autoVerifiedAttributes
    && pool.deletionProtection == input.deletionProtection
    && pool.deviceConfiguration == input.deviceConfiguration
    && pool.emailConfiguration == input.emailConfiguration
    && pool.name == input.poolName
    && pool.policies == input.policies
    && pool.usernameAttributes == input.usernameAttributes
    && pool.usernameConfiguration == input.usernameConfiguration
  }

  /** A created pool reads back as the normal form of the spec it was created from. */
  lemma CreateReadsBackNormal(spec: Spec, pool: SdkUserPool)
    requires CreatePayload(spec).Ok? && CreateStores(pool, CreatePayload(spec).value)
    ensures ReadBack(spec, pool) == Normal(spec)
  {
    AccountRecoveryRoundTrip(spec.accountRecoverySetting);
    AdminRoundTrip(spec.adminCreateUserConfig);
    PoliciesRoundTrip(spec.policies);
    DeviceAndEmailRoundTrip(spec.deviceConfiguration, spec.emailConfiguration);
  }

  /** The mapping sdkFind applies to the attributes of a response. */
  function DecodeSchemaAttribute(a: SdkSchemaAttribute): SchemaAttribute {
    SchemaAttribute(EnumString(a.attributeDataType), a.developerOnlyAttribute, a.mutable, a.name,
      a.numberAttributeConstraints, a.required, a.stringAttributeConstraints)
  }

  function DecodeSchema(s: Option<seq<SdkSchemaAttribute>>): Option<seq<SchemaAttribute>> {
    if s.None? then None
    else Some(seq(|s.value|, i requires 0 <= i < |s.value| => DecodeSchemaAttribute(s.value[i])))
  }

  function NormalSchema(s: Option<seq<SchemaAttribute>>): Option<seq<SchemaAttribute>> {
    if s.None? then None
    else Some(seq(|s.value|, i requires 0 <= i < |s.value| =>
      s.value[i].(attributeDataType := NormalEnum(s.value[i].attributeDataType))))
  }

  /** The schema of the payload is the spec's, up to empty data types. */
  lemma SchemaRoundTrip(spec: Spec)
    requires CreatePayload(spec).Ok?
    ensures DecodeSchema(CreatePayload(spec).value.schema) == NormalSchema(spec.schema)
  {
    if spec.schema.Some? {
      assert DecodeSchema(EncodeSchema(spec.schema)).value == NormalSchema(spec.schema).value;
    }
  }

  // ---- Payloads field by field ----

  /** The plain boolean that stands for a nullable one: nil is false. */
  predicate Stands(x: Option<bool>, y: bool) {
    y <==> x == Some(true)
  }

  /** The enumeration string that stands for a nullable one: nil is empty. */
  predicate StandsEnum(x: Option<string>, y: string) {
    y == if x.Some? then x.value else ""
  }

  /** The fields of the sections of a spec as they arrive in those of a payload, one by one. */
  ghost predicate CarriesFields(spec: Spec, recovery: Option<SdkAccountRecoverySetting>,
                                admin: Option<SdkAdminCreateUserConfig>, device: Option<SdkDeviceConfiguration>,
                                email: Option<SdkEmailConfiguration>, policies: Option<SdkPolicies>)
  {
    && CarriesRecovery(spec.accountRecoverySetting, recovery)
    && (spec.adminCreateUserConfig.Some? <==> admin.Some?)
    && (admin.Some? ==>
          var x, y := spec.adminCreateUserConfig.value, admin.value;
          && Stands(x.allowAdminCreateUserOnly, y.allowAdminCreateUserOnly)
          && y.inviteMessageTemplate == x.inviteMessageTemplate
          && y.unusedAccountValidityDays ==
               if x.unusedAccountValidityDays.Some? then x.unusedAccountValidityDays.value else 0)
    && (spec.deviceConfiguration.Some? <==> device.Some?)
    && (device.Some? ==>
          var x, y := spec.deviceConfiguration.value, device.value;
          && Stands(x.challengeRequiredOnNewDevice, y.challengeRequiredOnNewDevice)
          && Stands(x.deviceOnlyRememberedOnUserPrompt, y.deviceOnlyRememberedOnUserPrompt))
    && (spec.emailConfiguration.Some? <==> email.Some?)
    && (email.Some? ==>
          var x, y := spec.emailConfiguration.value, email.value;
          && y.configurationSet == x.configurationSet && StandsEnum(x.emailSendingAccount, y.emailSendingAccount)
          && y.from == x.from && y.replyToEmailAddress == x.replyToEmailAddress && y.sourceArn == x.sourceARN)
    && CarriesPolicies(spec.policies, policies)
  }

  ghost predicate CarriesRecovery(s: Option<AccountRecoverySetting>, t: Option<SdkAccountRecoverySetting>) {
    && (s.Some? <==> t.Some?)
    && (s.Some? ==> (s.value.recoveryMechanisms.Some? <==> t.value.recoveryMechanisms.Some?))
    && (s.Some? && s.value.recoveryMechanisms.Some? ==>
          var xs, ys := s.value.recoveryMechanisms.value, t.value.recoveryMechanisms.value;
          |xs| == |ys| && forall i | 0 <= i < |xs| ::
            StandsEnum(xs[i].name, ys[i].name) && Widen(ys[i].priority) == xs[i].priority)
  }

  ghost predicate CarriesPolicies(s: Option<Policies>, t: Option<SdkPolicies>) {
    && (s.Some? <==> t.Some?)
    && (s.Some? ==> (s.value.passwordPolicy.Some? <==> t.value.passwordPolicy.Some?))
    && (s.Some? && s.value.passwordPolicy.Some? ==>
          var x, y := s.value.passwordPolicy.value, t.value.passwordPolicy.value;
          && Widen(y.minimumLength) == x.minimumLength
          && Stands(x.requireLowercase, y.requireLowercase) && Stands(x.requireNumbers, y.requireNumbers)
          && Stands(x.requireSymbols, y.requireSymbols) && Stands(x.requireUppercase, y.requireUppercase)
          && y.temporaryPasswordValidityDays ==
               if x.temporaryPasswordValidityDays.Some? then x.temporaryPasswordValidityDays.value else 0)
  }

  lemma RecoveryCarries(s: Option<AccountRecoverySetting>)
    requires PrioritiesFit(s)
    ensures CarriesRecovery(s, EncodeAccountRecovery(s))
  {
  }

  lemma PoliciesCarry(s: Option<Policies>)
    requires OutOfRangePolicy(s).None?
    ensures CarriesPolicies(s, EncodePolicies(s))
  {
  }

  /** Both payloads carry each field of the spec under its own name, and the update the id of the pool. */
  lemma PayloadsCarryFields(spec: Spec, id: Option<string>)
    requires InRange(spec)
    ensures UpdatePayload(spec, id).Ok? && CreatePayload(spec).Ok?
    ensures var u := UpdatePayload(spec, id).value;
      && u.userPoolId == id && u.autoVerifiedAttributes == spec.autoVerifiedAttributes
      && StandsEnum(spec.deletionProtection, u.deletionProtection)
      && CarriesFields(spec, u.accountRecoverySetting, u.adminCreateUserConfig, u.deviceConfiguration,
                       u.emailConfiguration, u.policies)
    ensures var c := CreatePayload(spec).value;
      && c.poolName == spec.name && c.autoVerifiedAttributes == spec.autoVerifiedAttributes
      && c.aliasAttributes == spec.aliasAttributes && c.usernameAttributes == spec.usernameAttributes
      && c.usernameConfiguration == spec.usernameConfiguration
      && StandsEnum(spec.deletionProtection, c.deletionProtection)
      && CarriesFields(spec, c.accountRecoverySetting, c.adminCreateUserConfig, c.deviceConfiguration,
                       c.emailConfiguration, c.policies)
  {
    PayloadsFailIff(spec, id);
    RecoveryCarries(spec.accountRecoverySetting);
    PoliciesCarry(spec.policies);
  }
}

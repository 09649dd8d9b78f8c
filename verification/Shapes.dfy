/**
 The two families of records the controller translates between: the custom resource's spec,
 where everything is nullable, and the SDK's shapes, where plain booleans, plain integers
 and enumeration strings are not.
 */
module Shapes {
  import opened Nullable

  type int32 = x: int | -0x8000_0000 <= x < 0x8000_0000

  type int64 = x: int | -0x8000_0000_0000_0000 <= x < 0x8000_0000_0000_0000

  predicate FitsInt32(x: int64) {
    -0x8000_0000 <= x <= 0x7fff_ffff
  }

  /** The conversion int32(x), which keeps the low 32 bits. */
  function Narrow(x: int64): int32 {
    (x + 0x8000_0000) % 0x1_0000_0000 - 0x8000_0000
  }

  // ---- The custom resource (apis/v1alpha1) ----

  datatype RecoveryOption = RecoveryOption(name: Option<string>, priority: Option<int64>)

  datatype AccountRecoverySetting = AccountRecoverySetting(recoveryMechanisms: Option<seq<RecoveryOption>>)

  datatype MessageTemplate = MessageTemplate(
    emailMessage: Option<string>,
    emailSubject: Option<string>,
    smsMessage: Option<string>)

  datatype AdminCreateUserConfig = AdminCreateUserConfig(
    allowAdminCreateUserOnly: Option<bool>,
    inviteMessageTemplate: Option<MessageTemplate>,
    unusedAccountValidityDays: Option<int64>)

  datatype DeviceConfiguration = DeviceConfiguration(
    challengeRequiredOnNewDevice: Option<bool>,
    deviceOnlyRememberedOnUserPrompt: Option<bool>)

  datatype EmailConfiguration = EmailConfiguration(
    configurationSet: Option<string>,
    emailSendingAccount: Option<string>,
    from: Option<string>,
    replyToEmailAddress: Option<string>,
    sourceARN: Option<string>)

  datatype PasswordPolicy = PasswordPolicy(
    minimumLength: Option<int64>,
    requireLowercase: Option<bool>,
    requireNumbers: Option<bool>,
    requireSymbols: Option<bool>,
    requireUppercase: Option<bool>,
    temporaryPasswordValidityDays: Option<int64>)

  datatype Policies = Policies(passwordPolicy: Option<PasswordPolicy>)

  datatype Bounds = Bounds(max: Option<string>, min: Option<string>)

  datatype SchemaAttribute = SchemaAttribute(
    attributeDataType: Option<string>,
    developerOnlyAttribute: Option<bool>,
    mutable: Option<bool>,
    name: Option<string>,
    numberAttributeConstraints: Option<Bounds>,
    required: Option<bool>,
    stringAttributeConstraints: Option<Bounds>)

  datatype UsernameConfiguration = UsernameConfiguration(caseSensitive: Option<bool>)

  /** UserPoolSpec without its tags, which AckTags models. */
  datatype Spec = Spec(
    accountRecoverySetting: Option<AccountRecoverySetting>,
    adminCreateUserConfig: Option<AdminCreateUserConfig>,
    aliasAttributes: Option<seq<string>>,
    autoVerifiedAttributes: Option<seq<string>>,
    deletionProtection: Option<string>,
    deviceConfiguration: Option<DeviceConfiguration>,
    emailConfiguration: Option<EmailConfiguration>,
    name: Option<string>,
    policies: Option<Policies>,
    schema: Option<seq<SchemaAttribute>>,
    usernameAttributes: Option<seq<string>>,
    usernameConfiguration: Option<UsernameConfiguration>)

  // ---- The SDK (svcsdktypes) ----

  datatype SdkRecoveryOption = SdkRecoveryOption(name: string, priority: Option<int32>)

  datatype SdkAccountRecoverySetting =
    SdkAccountRecoverySetting(recoveryMechanisms: Option<seq<SdkRecoveryOption>>)

  datatype SdkAdminCreateUserConfig = SdkAdminCreateUserConfig(
    allowAdminCreateUserOnly: bool,
    inviteMessageTemplate: Option<MessageTemplate>,
    unusedAccountValidityDays: int32)

  datatype SdkDeviceConfiguration = SdkDeviceConfiguration(
    challengeRequiredOnNewDevice: bool,
    deviceOnlyRememberedOnUserPrompt: bool)

  datatype SdkEmailConfiguration = SdkEmailConfiguration(
    configurationSet: Option<string>,
    emailSendingAccount: string,
    from: Option<string>,
    replyToEmailAddress: Option<string>,
    sourceArn: Option<string>)

  datatype SdkPasswordPolicy = SdkPasswordPolicy(
    minimumLength: Option<int32>,
    requireLowercase: bool,
    requireNumbers: bool,
    requireSymbols: bool,
    requireUppercase: bool,
    temporaryPasswordValidityDays: int32)

  datatype SdkPolicies = SdkPolicies(passwordPolicy: Option<SdkPasswordPolicy>)

  datatype SdkSchemaAttribute = SdkSchemaAttribute(
    attributeDataType: string,
    developerOnlyAttribute: Option<bool>,
    mutable: Option<bool>,
    name: Option<string>,
    numberAttributeConstraints: Option<Bounds>,
    required: Option<bool>,
    stringAttributeConstraints: Option<Bounds>)

  /** What UpdateUserPoolInput can carry. */
  datatype UpdateInput = UpdateInput(
    accountRecoverySetting: Option<SdkAccountRecoverySetting>,
    adminCreateUserConfig: Option<SdkAdminCreateUserConfig>,
    autoVerifiedAttributes: Option<seq<string>>,
    deletionProtection: string,
    deviceConfiguration: Option<SdkDeviceConfiguration>,
    emailConfiguration: Option<SdkEmailConfiguration>,
    policies: Option<SdkPolicies>,
    userPoolId: Option<string>)

  /** What CreateUserPoolInput can carry. */
  datatype CreateInput = CreateInput(
    accountRecoverySetting: Option<SdkAccountRecoverySetting>,
    adminCreateUserConfig: Option<SdkAdminCreateUserConfig>,
    aliasAttributes: Option<seq<string>>,
    autoVerifiedAttributes: Option<seq<string>>,
    deletionProtection: string,
    deviceConfiguration: Option<SdkDeviceConfiguration>,
    emailConfiguration: Option<SdkEmailConfiguration>,
    policies: Option<SdkPolicies>,
    poolName: Option<string>,
    schema: Option<seq<SdkSchemaAttribute>>,
    usernameAttributes: Option<seq<string>>,
    usernameConfiguration: Option<UsernameConfiguration>)

  /** The UserPoolType of a Describe or Create response. */
  datatype SdkUserPool = SdkUserPool(
    arn: Option<string>,
    id: Option<string>,
    accountRecoverySetting: Option<SdkAccountRecoverySetting>,
    adminCreateUserConfig: Option<SdkAdminCreateUserConfig>,
    aliasAttributes: Option<seq<string>>,
    autoVerifiedAttributes: Option<seq<string>>,
    deletionProtection: string,
    deviceConfiguration: Option<SdkDeviceConfiguration>,
    emailConfiguration: Option<SdkEmailConfiguration>,
    name: Option<string>,
    policies: Option<SdkPolicies>,
    usernameAttributes: Option<seq<string>>,
    usernameConfiguration: Option<UsernameConfiguration>)
}

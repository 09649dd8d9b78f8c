/**
 The payload builders and the response mapping as the code runs them: fields assigned one
 by one, lists appended to in loops, an early return on the first number outside int32.
 Each is proved to produce what Codec says it means.
 */
module Payloads {
  import opened Nullable
  import opened Shapes
  import opened Codec

  method BuildAccountRecovery(s: Option<AccountRecoverySetting>)
    returns (res: Result<Option<SdkAccountRecoverySetting>>)
    ensures res == if PrioritiesFit(s) then Ok(EncodeAccountRecovery(s)) else Err(RangeError("Priority"))
  {
    if s.None? {
      return Ok(None);
    }
    var f0 := SdkAccountRecoverySetting(None);
    if s.value.recoveryMechanisms.Some? {
      var mechanisms := s.value.recoveryMechanisms.value;
      var f0f0: seq<SdkRecoveryOption> := [];
      for i := 0 to |mechanisms|
        invariant |f0f0| == i
        invariant forall j | 0 <= j < i :: Fits(mechanisms[j].priority)
        invariant forall j | 0 <= j < i :: f0f0[j] == EncodeMechanism(mechanisms[j])
      {
        var f0f0elem := SdkRecoveryOption("", None);
        if mechanisms[i].name.Some? {
          f0f0elem := f0f0elem.(name := mechanisms[i].name.value);
        }
        if mechanisms[i].priority.Some? {
          var priorityCopy0 := mechanisms[i].priority.value;
          if priorityCopy0 > 0x7fff_ffff || priorityCopy0 < -0x8000_0000 {
            assert mechanisms[i] in mechanisms && !Fits(mechanisms[i].priority);
            return Err(RangeError("Priority"));
          }
          f0f0elem := f0f0elem.(priority := Some(Narrow(priorityCopy0)));
        }
        f0f0 := f0f0 + [f0f0elem];
      }
      assert f0f0 == EncodeMechanisms(mechanisms);
      f0 := f0.(recoveryMechanisms := Some(f0f0));
    }
    return Ok(Some(f0));
  }

  method BuildAdmin(s: Option<AdminCreateUserConfig>) returns (res: Result<Option<SdkAdminCreateUserConfig>>)
    ensures res == if s.Some? && !Fits(s.value.unusedAccountValidityDays)
      then Err(RangeError("UnusedAccountValidityDays")) else Ok(EncodeAdmin(s))
  {
    if s.None? {
      return Ok(None);
    }
    var f1 := SdkAdminCreateUserConfig(false, None, 0);
    if s.value.allowAdminCreateUserOnly.Some? {
      f1 := f1.(allowAdminCreateUserOnly := s.value.allowAdminCreateUserOnly.value);
    }
    if s.value.inviteMessageTemplate.Some? {
      var template := s.value.inviteMessageTemplate.value;
      var f1f1 := MessageTemplate(None, None, None);
      if template.emailMessage.Some? {
        f1f1 := f1f1.(emailMessage := template.emailMessage);
      }
      if template.emailSubject.Some? {
        f1f1 := f1f1.(emailSubject := template.emailSubject);
      }
      if template.smsMessage.Some? {
        f1f1 := f1f1.(smsMessage := template.smsMessage);
      }
      f1 := f1.(inviteMessageTemplate := Some(f1f1));
    }
    if s.value.unusedAccountValidityDays.Some? {
      var unusedAccountValidityDaysCopy0 := s.value.unusedAccountValidityDays.value;
      if unusedAccountValidityDaysCopy0 > 0x7fff_ffff || unusedAccountValidityDaysCopy0 < -0x8000_0000 {
        return Err(RangeError("UnusedAccountValidityDays"));
      }
      f1 := f1.(unusedAccountValidityDays := Narrow(unusedAccountValidityDaysCopy0));
    }
    return Ok(Some(f1));
  }

  method BuildDevice(s: Option<DeviceConfiguration>) returns (res: Option<SdkDeviceConfiguration>)
    ensures res == EncodeDevice(s)
  {
    if s.None? {
      return None;
    }
    var f := SdkDeviceConfiguration(false, false);
    if s.value.challengeRequiredOnNewDevice.Some? {
      f := f.(challengeRequiredOnNewDevice := s.value.challengeRequiredOnNewDevice.value);
    }
    if s.value.deviceOnlyRememberedOnUserPrompt.Some? {
      f := f.(deviceOnlyRememberedOnUserPrompt := s.value.deviceOnlyRememberedOnUserPrompt.value);
    }
    return Some(f);
  }

  method BuildEmail(s: Option<EmailConfiguration>) returns (res: Option<SdkEmailConfiguration>)
    ensures res == EncodeEmail(s)
  {
    if s.None? {
      return None;
    }
    var f := SdkEmailConfiguration(None, "", None, None, None);
    if s.value.configurationSet.Some? {
      f := f.(configurationSet := s.value.configurationSet);
    }
    if s.value.emailSendingAccount.Some? {
      f := f.(emailSendingAccount := s.value.emailSendingAccount.value);
    }
    if s.value.from.Some? {
      f := f.(from := s.value.from);
    }
    if s.value.replyToEmailAddress.Some? {
      f := f.(replyToEmailAddress := s.value.replyToEmailAddress);
    }
    if s.value.sourceARN.Some? {
      f := f.(sourceArn := s.value.sourceARN);
    }
    return Some(f);
  }

  method BuildPasswordPolicy(policy: PasswordPolicy) returns (res: Result<SdkPasswordPolicy>)
    ensures var bad := OutOfRangePolicy(Some(Policies(Some(policy))));
      res == if bad.Some? then Err(RangeError(bad.value)) else Ok(EncodePasswordPolicy(policy))
  {
    var f0 := SdkPasswordPolicy(None, false, false, false, false, 0);
    if policy.minimumLength.Some? {
      var minimumLengthCopy0 := policy.minimumLength.value;
      if minimumLengthCopy0 > 0x7fff_ffff || minimumLengthCopy0 < -0x8000_0000 {
        return Err(RangeError("MinimumLength"));
      }
      f0 := f0.(minimumLength := Some(Narrow(minimumLengthCopy0)));
    }
    if policy.requireLowercase.Some? {
      f0 := f0.(requireLowercase := policy.requireLowercase.value);
    }
    if policy.requireNumbers.Some? {
      f0 := f0.(requireNumbers := policy.requireNumbers.value);
    }
    if policy.requireSymbols.Some? {
      f0 := f0.(requireSymbols := policy.requireSymbols.value);
    }
    if policy.requireUppercase.Some? {
      f0 := f0.(requireUppercase := policy.requireUppercase.value);
    }
    if policy.temporaryPasswordValidityDays.Some? {
      var temporaryPasswordValidityDaysCopy0 := policy.temporaryPasswordValidityDays.value;
      if temporaryPasswordValidityDaysCopy0 > 0x7fff_ffff || temporaryPasswordValidityDaysCopy0 < -0x8000_0000 {
        return Err(RangeError("TemporaryPasswordValidityDays"));
      }
      f0 := f0.(temporaryPasswordValidityDays := Narrow(temporaryPasswordValidityDaysCopy0));
    }
    return Ok(f0);
  }

  method BuildPolicies(s: Option<Policies>) returns (res: Result<Option<SdkPolicies>>)
    ensures var bad := OutOfRangePolicy(s);
      res == if bad.Some? then Err(RangeError(bad.value)) else Ok(EncodePolicies(s))
  {
    if s.None? {
      return Ok(None);
    }
    var f := SdkPolicies(None);
    if s.value.passwordPolicy.Some? {
      var policy := BuildPasswordPolicy(s.value.passwordPolicy.value);
      if policy.Err? {
        return Err(policy.error);
      }
      f := f.(passwordPolicy := Some(policy.value));
    }
    return Ok(Some(f));
  }

  /** A list of strings, copied element by element; nil stays nil. */
  method CopyStrings(s: Option<seq<string>>) returns (res: Option<seq<string>>)
    ensures res == s
  {
    if s.None? {
      return None;
    }
    var f: seq<string> := [];
    for i := 0 to |s.value|
      invariant f == s.value[..i]
    {
      f := f + [s.value[i]];
    }
    assert f == s.value;
    return Some(f);
  }

  method BuildSchema(s: Option<seq<SchemaAttribute>>) returns (res: Option<seq<SdkSchemaAttribute>>)
    ensures res == EncodeSchema(s)
  {
    if s.None? {
      return None;
    }
    var f13: seq<SdkSchemaAttribute> := [];
    for i := 0 to |s.value|
      invariant |f13| == i
      invariant forall j | 0 <= j < i :: f13[j] == EncodeSchemaAttribute(s.value[j])
    {
      var a := s.value[i];
      var f13elem := SdkSchemaAttribute("", None, None, None, None, None, None);
      if a.attributeDataType.Some? {
        f13elem := f13elem.(attributeDataType := a.attributeDataType.value);
      }
      f13elem := f13elem.(
        developerOnlyAttribute := a.developerOnlyAttribute,
        mutable := a.mutable,
        name := a.name,
        numberAttributeConstraints := a.numberAttributeConstraints,
        required := a.required,
        stringAttributeConstraints := a.stringAttributeConstraints);
      f13 := f13 + [f13elem];
    }
    assert f13 == EncodeAttributes(s.value);
    return Some(f13);
  }

  method NewUpdateRequestPayload(spec: Spec, id: Option<string>) returns (payload: Result<UpdateInput>)
    ensures payload == UpdatePayload(spec, id)
  {
    var res := UpdateInput(None, None, None, "", None, None, None, None);
    var recovery := BuildAccountRecovery(spec.accountRecoverySetting);
    if recovery.Err? {
      return Err(recovery.error);
    }
    res := res.(accountRecoverySetting := recovery.value);
    var admin := BuildAdmin(spec.adminCreateUserConfig);
    if admin.Err? {
      return Err(admin.error);
    }
    res := res.(adminCreateUserConfig := admin.value);
    var verified := CopyStrings(spec.autoVerifiedAttributes);
    res := res.(autoVerifiedAttributes := verified);
    if spec.deletionProtection.Some? {
      res := res.(deletionProtection := spec.deletionProtection.value);
    }
    var device := BuildDevice(spec.deviceConfiguration);
    var email := BuildEmail(spec.emailConfiguration);
    res := res.(deviceConfiguration := device, emailConfiguration := email);
    var policies := BuildPolicies(spec.policies);
    if policies.Err? {
      return Err(policies.error);
    }
    res := res.(policies := policies.value);
    if id.Some? {
      res := res.(userPoolId := id);
    }
    return Ok(res);
  }

  method NewCreateRequestPayload(spec: Spec) returns (payload: Result<CreateInput>)
    ensures payload == CreatePayload(spec)
  {
    var res := CreateInput(None, None, None, None, "", None, None, None, None, None, None, None);
    var recovery := BuildAccountRecovery(spec.accountRecoverySetting);
    if recovery.Err? {
      return Err(recovery.error);
    }
    res := res.(accountRecoverySetting := recovery.value);
    var admin := BuildAdmin(spec.adminCreateUserConfig);
    if admin.Err? {
      return Err(admin.error);
    }
    res := res.(adminCreateUserConfig := admin.value);
    var alias := CopyStrings(spec.aliasAttributes);
    var verified := CopyStrings(spec.autoVerifiedAttributes);
    res := res.(aliasAttributes := alias, autoVerifiedAttributes := verified);
    if spec.deletionProtection.Some? {
      res := res.(deletionProtection := spec.deletionProtection.value);
    }
    var device := BuildDevice(spec.deviceConfiguration);
    var email := BuildEmail(spec.emailConfiguration);
    res := res.(deviceConfiguration := device, emailConfiguration := email);
    var policies := BuildPolicies(spec.policies);
    if policies.Err? {
      return Err(policies.error);
    }
    res := res.(policies := policies.value);
    if spec.name.Some? {
      res := res.(poolName := spec.name);
    }
    var schema := BuildSchema(spec.schema);
    var usernames := CopyStrings(spec.usernameAttributes);
    res := res.(schema := schema, usernameAttributes := usernames);
    if spec.usernameConfiguration.Some? {
      res := res.(usernameConfiguration := spec.usernameConfiguration);
    }
    return Ok(res);
  }

  method ReadAccountRecovery(s: Option<SdkAccountRecoverySetting>) returns (res: Option<AccountRecoverySetting>)
    ensures res == DecodeAccountRecovery(s)
  {
    if s.None? {
      return None;
    }
    var f0 := AccountRecoverySetting(None);
    if s.value.recoveryMechanisms.Some? {
      var mechanisms := s.value.recoveryMechanisms.value;
      var f0f0: seq<RecoveryOption> := [];
      for i := 0 to |mechanisms|
        invariant |f0f0| == i
        invariant forall j | 0 <= j < i :: f0f0[j] == DecodeMechanism(mechanisms[j])
      {
        var f0f0elem := RecoveryOption(None, None);
        if mechanisms[i].name != "" {
          f0f0elem := f0f0elem.(name := Some(mechanisms[i].name));
        }
        if mechanisms[i].priority.Some? {
          f0f0elem := f0f0elem.(priority := Some(mechanisms[i].priority.value));
        }
        f0f0 := f0f0 + [f0f0elem];
      }
      assert f0f0 == DecodeMechanisms(mechanisms);
      f0 := f0.(recoveryMechanisms := Some(f0f0));
    }
    return Some(f0);
  }

  method ReadDevice(s: Option<SdkDeviceConfiguration>) returns (res: Option<DeviceConfiguration>)
    ensures res == DecodeDevice(s)
  {
    if s.None? {
      return None;
    }
    var f8 := DeviceConfiguration(None, None);
    f8 := f8.(challengeRequiredOnNewDevice := Some(s.value.challengeRequiredOnNewDevice));
    f8 := f8.(deviceOnlyRememberedOnUserPrompt := Some(s.value.deviceOnlyRememberedOnUserPrompt));
    return Some(f8);
  }

  method ReadEmail(s: Option<SdkEmailConfiguration>) returns (res: Option<EmailConfiguration>)
    ensures res == DecodeEmail(s)
  {
    if s.None? {
      return None;
    }
    var f10 := EmailConfiguration(None, None, None, None, None);
    if s.value.configurationSet.Some? {
      f10 := f10.(configurationSet := s.value.configurationSet);
    }
    if s.value.emailSendingAccount != "" {
      f10 := f10.(emailSendingAccount := Some(s.value.emailSendingAccount));
    }
    if s.value.from.Some? {
      f10 := f10.(from := s.value.from);
    }
    if s.value.replyToEmailAddress.Some? {
      f10 := f10.(replyToEmailAddress := s.value.replyToEmailAddress);
    }
    if s.value.sourceArn.Some? {
      f10 := f10.(sourceARN := s.value.sourceArn);
    }
    return Some(f10);
  }

  method ReadPolicies(s: Option<SdkPolicies>) returns (res: Option<Policies>)
    ensures res == DecodePolicies(s)
  {
    if s.None? {
      return None;
    }
    var f20 := Policies(None);
    if s.value.passwordPolicy.Some? {
      var policy := s.value.passwordPolicy.value;
      var f20f0 := PasswordPolicy(None, None, None, None, None, None);
      if policy.minimumLength.Some? {
        f20f0 := f20f0.(minimumLength := Some(policy.minimumLength.value));
      }
      f20f0 := f20f0.(requireLowercase := Some(policy.requireLowercase));
      f20f0 := f20f0.(requireNumbers := Some(policy.requireNumbers));
      f20f0 := f20f0.(requireSymbols := Some(policy.requireSymbols));
      f20f0 := f20f0.(requireUppercase := Some(policy.requireUppercase));
      f20f0 := f20f0.(temporaryPasswordValidityDays := Some(policy.temporaryPasswordValidityDays));
      f20 := f20.(passwordPolicy := Some(f20f0));
    }
    return Some(f20);
  }

  /** The part of sdkFind and sdkCreate that writes the response over the spec of the copy. */
  method ReadResponse(before: Spec, resp: SdkUserPool) returns (spec: Spec)
    ensures spec == ReadBack(before, resp)
  {
    spec := before;
    var recovery := ReadAccountRecovery(resp.accountRecoverySetting);
    spec := spec.(accountRecoverySetting := recovery);
    if resp.adminCreateUserConfig.Some? {
      var admin := resp.adminCreateUserConfig.value;
      spec := spec.(adminCreateUserConfig := Some(AdminCreateUserConfig(
        Some(admin.allowAdminCreateUserOnly), admin.inviteMessageTemplate, Some(admin.unusedAccountValidityDays))));
    } else {
      spec := spec.(adminCreateUserConfig := None);
    }
    var alias := CopyStrings(resp.aliasAttributes);
    var verified := CopyStrings(resp.autoVerifiedAttributes);
    spec := spec.(aliasAttributes := alias, autoVerifiedAttributes := verified);
    if resp.deletionProtection != "" {
      spec := spec.(deletionProtection := Some(resp.deletionProtection));
    } else {
      spec := spec.(deletionProtection := None);
    }
    var device := ReadDevice(resp.deviceConfiguration);
    var email := ReadEmail(resp.emailConfiguration);
    spec := spec.(deviceConfiguration := device, emailConfiguration := email);
    if resp.name.Some? {
      spec := spec.(name := resp.name);
    } else {
      spec := spec.(name := None);
    }
    var policies := ReadPolicies(resp.policies);
    spec := spec.(policies := policies);
    var usernames := CopyStrings(resp.usernameAttributes);
    spec := spec.(usernameAttributes := usernames);
    spec := spec.(usernameConfiguration := resp.usernameConfiguration);
  }
}

/** Which differences an update can remove: the codec and the comparison taken together. */
module UpdateEffect {
  import opened Nullable
  import opened AckTags
  import opened Shapes
  import opened Codec
  import opened Delta
  import opened ResourceDelta
  import opened DeltaTheorems

  /** What the next read finds when the pool holds what the update sent. */
  function FoundAfter(desired: SpecValue, pool: SdkUserPool, tags: TagValues): SpecValue {
    SpecValue(ReadBack(desired.spec, pool), tags)
  }

  /**
   Section by section, what a comparison still reports once an update has been stored and
   read back. A section that was sent is settled exactly when it was in normal form, so a
   nil boolean or an empty enumeration string inside one is reported for ever; Schema is
   always settled; sections that only creation can set are as different as they were.
   */
  lemma {:induction false} SentSectionsSettleIff(lib: Library, desired: SpecValue, id: Option<string>,
                                                 pool: SdkUserPool, tags: TagValues)
    requires Reflexive(lib)
    requires UpdatePayload(desired.spec, id).Ok? && Stores(pool, UpdatePayload(desired.spec, id).value)
    ensures var found, s := FoundAfter(desired, pool, tags), desired.spec;
      && (s.accountRecoverySetting.Some? ==> (SectionSame(lib, desired, found, 0) <==>
            ListsAgree(lib.mechanisms, MechanismsOf(s), MechanismsOf(Normal(s)))))
      && (s.adminCreateUserConfig.Some? ==> (SectionSame(lib, desired, found, 1) <==>
            s.adminCreateUserConfig == Normal(s).adminCreateUserConfig))
      && (SectionSame(lib, desired, found, 2) <==> ListsAgree(lib.strings, s.aliasAttributes, pool.aliasAttributes))
      && (s.autoVerifiedAttributes.Some? ==> SectionSame(lib, desired, found, 3))
      && (s.deletionProtection.Some? ==> (SectionSame(lib, desired, found, 4) <==> s.deletionProtection != Some("")))
      && (s.deviceConfiguration.Some? ==> (SectionSame(lib, desired, found, 5) <==>
            s.deviceConfiguration == Normal(s).deviceConfiguration))
      && (s.emailConfiguration.Some? ==> (SectionSame(lib, desired, found, 6) <==>
            s.emailConfiguration == Normal(s).emailConfiguration))
      && (SectionSame(lib, desired, found, 7) <==> s.name == pool.name)
      && (s.policies.Some? ==> (SectionSame(lib, desired, found, 8) <==> s.policies == Normal(s).policies))
      && SectionSame(lib, desired, found, 9)
      && (SectionSame(lib, desired, found, 10) <==> ToTags(desired.tags) == ToTags(tags))
      && (SectionSame(lib, desired, found, 11) <==>
            ListsAgree(lib.strings, s.usernameAttributes, pool.usernameAttributes))
      && (SectionSame(lib, desired, found, 12) <==> s.usernameConfiguration == pool.usernameConfiguration)
  {
    var found := FoundAfter(desired, pool, tags);
    UpdateReadsBackNormal(desired.spec, id, desired.spec, pool);
    AccountRecoverySameIff(lib, desired, found);
    AdminSameIff(lib, desired, found);
    AttributeListsSameIff(lib, desired, found);
    ProtectionSameIff(lib, desired, found);
    DeviceSameIff(lib, desired, found);
    EmailSameIff(lib, desired, found);
    NameSameIff(lib, desired, found);
    PoliciesSameIff(lib, desired, found);
    SchemaSameIff(lib, desired, found);
    TagsSameIff(lib, desired, found);
    UsernameSameIff(lib, desired, found);
  }

  /** The sections an update cannot touch: only creation sets them, or desired leaves them nil. */
  predicate BeyondUpdate(spec: Spec, section: Name) {
    match section
    case AccountRecoverySetting => spec.accountRecoverySetting.None?
    case AdminCreateUserConfig => spec.adminCreateUserConfig.None?
    case AutoVerifiedAttributes => spec.autoVerifiedAttributes.None?
    case DeletionProtection => spec.deletionProtection.None?
    case DeviceConfiguration => spec.deviceConfiguration.None?
    case EmailConfiguration => spec.emailConfiguration.None?
    case Policies => spec.policies.None?
    case AliasAttributes => true
    case PoolName => true
    case UsernameAttributes => true
    case UsernameConfiguration => true
    case _ => false
  }

  /**
   With desired in normal form and its tags in place, every path still reported after an
   update and a read lies in a section that is beyond an update.
   */
  lemma LeftoversAreBeyondUpdate(lib: Library, desired: SpecValue, id: Option<string>, pool: SdkUserPool,
                                 tags: TagValues)
    requires Reflexive(lib)
    requires UpdatePayload(desired.spec, id).Ok? && Stores(pool, UpdatePayload(desired.spec, id).value)
    requires Normal(desired.spec) == desired.spec && ToTags(desired.tags) == ToTags(tags)
    ensures forall d <- SpecDiff(lib, desired, FoundAfter(desired, pool, tags)) ::
      |d.path| >= 2 && d.path[0] == Name.Spec && BeyondUpdate(desired.spec, d.path[1])
  {
    var found := FoundAfter(desired, pool, tags);
    SentSectionsSettleIff(lib, desired, id, pool, tags);
    SectionsInPosition();
    forall d <- SpecDiff(lib, desired, found)
      ensures |d.path| >= 2 && d.path[0] == Name.Spec && BeyondUpdate(desired.spec, d.path[1])
    {
      var i := SectionOf(lib, desired, found, d);
      assert (ROOT + [SPEC.fields[i].name])[1] == d.path[1] && (ROOT + [SPEC.fields[i].name])[0] == d.path[0];
      assert !SectionSame(lib, desired, found, i);
      assert ListsAgree(lib.mechanisms, MechanismsOf(desired.spec), MechanismsOf(desired.spec));
    }
  }
}

/** What every manifest writer keeps, and what one write undoes or conserves. */
module ManifestLaws {
  import opened Wrappers
  import opened Versions
  import opened Manifest

  // ---------------------------------------------------------------- one lemma per writer

  lemma ReplacedIsBound(channel: Channel, o: UpdateOptions)
    requires o.kind.System? || o.kind.Packages?
    requires o.kind.Packages? ==> channel.system.Some? && channel.system.value.fingerprint == o.systemFingerprint
    requires o.kind.Packages? ==> channel.system.Some? && channel.system.value.pin == o.pin
    ensures Bound(Replaced(channel, o))
  {
  }

  /** A publication that is no rerun: Development is replaced and the only default, the rest keeps its content. */
  lemma UpdateReplacesDevel(p: Payload, o: UpdateOptions)
    requires Updated(p, o).Some? && Updated(p, o).value != p
    ensures var q := Updated(p, o).value;
      && q.channels.Keys == p.channels.Keys + {"devel"} && Bound(q.channels["devel"])
      && forall n :: n in p.channels && n != "devel" ==> q.channels[n] == p.channels[n].(isDefault := false)
  {
    hide IsAmd64ABI, IsRetry, IsFingerprint, InTrain, IsTrain, ArtifactURL;
    ReplacedIsBound(Devel(p), Qualify(o));
    hide Replaced, Bound;
  }

  lemma ReplacedDevelKeeps(p: Payload, q: Payload)
    requires q.channels.Keys == p.channels.Keys + {"devel"} && Bound(q.channels["devel"])
    requires forall n :: n in p.channels && n != "devel" ==> q.channels[n] == p.channels[n].(isDefault := false)
    ensures Consistent(p) ==> Consistent(q)
    ensures Forward(p, q)
  {
  }

  lemma UpdateKeeps(p: Payload, o: UpdateOptions)
    requires Updated(p, o).Some?
    ensures Consistent(p) ==> Consistent(Updated(p, o).value)
    ensures Forward(p, Updated(p, o).value)
  {
    if Updated(p, o).value != p {
      UpdateReplacesDevel(p, o);
      ReplacedDevelKeeps(p, Updated(p, o).value);
    }
    hide Updated;
  }

  lemma VerifyKeeps(p: Payload, kind: Kind, fingerprint: string)
    requires Verified(p, kind, fingerprint).Some?
    ensures Consistent(p) ==> Consistent(Verified(p, kind, fingerprint).value)
    ensures Forward(p, Verified(p, kind, fingerprint).value)
  {
  }

  /**
  A verification succeeds exactly for the fingerprint that Development has now; packages must also be
  fully identified and bound to the System that is selected with them.
  */
  lemma VerifiesExactly(p: Payload, kind: Kind, fingerprint: string)
    ensures Verified(p, kind, fingerprint).Some? <==>
      && "devel" in p.channels && !kind.Unknown?
      && var devel := p.channels["devel"];
      && (kind.System? ==> devel.system.Some? && devel.system.value.fingerprint == fingerprint)
      && (kind.Packages? ==>
            && devel.packages.Some? && devel.packages.value.fingerprint == fingerprint && BoundByName(devel)
            && IsFingerprint(devel.packages.value.builtAgainst))
  {
    hide IsFingerprint;
  }

  /** The packages name their System and its pin, both by a fingerprint. */
  predicate BoundByName(channel: Channel) {
    && channel.system.Some? && channel.packages.Some?
    && var system, packages := channel.system.value, channel.packages.value;
    && packages.systemFingerprint == system.fingerprint && IsFingerprint(system.fingerprint)
    && packages.pin == system.pin && IsFingerprint(system.pin)
  }

  /** All that a verification changes is the flag of the component it names. */
  lemma VerifyMarksOnly(p: Payload, kind: Kind, fingerprint: string)
    requires Verified(p, kind, fingerprint).Some?
    ensures var q := Verified(p, kind, fingerprint).value;
      && q.schema == p.schema && q.channels.Keys == p.channels.Keys
      && (forall n :: n in p.channels && n != "devel" ==> q.channels[n] == p.channels[n])
      && var was, now := p.channels["devel"], q.channels["devel"];
      && now == was.(system := now.system, packages := now.packages)
      && now.system == (if kind.System? then Some(was.system.value.(verified := true)) else was.system)
      && now.packages == (if kind.Packages? then Some(was.packages.value.(verified := true)) else was.packages)
  {
    hide ValidPackageBinding;
  }

  function ComponentAt(p: Payload, name: string, kind: Kind): Option<Component> {
    if name in p.channels then ComponentOf(p.channels[name], kind) else None
  }

  predicate IsVerified(c: Option<Component>) {
    c.Some? && c.value.verified
  }

  /** Whatever a verification turns verified carries the fingerprint that was checked, and is Development's. */
  lemma OnlyTheCheckedIsVerified(p: Payload, kind: Kind, fingerprint: string, name: string, k: Kind)
    requires Verified(p, kind, fingerprint).Some?
    requires !IsVerified(ComponentAt(p, name, k))
    requires IsVerified(ComponentAt(Verified(p, kind, fingerprint).value, name, k))
    ensures name == "devel" && k == kind
    ensures ComponentAt(Verified(p, kind, fingerprint).value, name, k).value.fingerprint == fingerprint
  {
    hide ValidPackageBinding;
  }

  /** A release pair is complete, verified, and its packages are bound to its System. */
  lemma PairIsBound(system: UpdateOptions, packages: UpdateOptions)
    ensures BuildPair(system, packages).Some? ==>
      var pair := BuildPair(system, packages).value;
      && pair.system.Some? && pair.packages.Some?
      && pair.system.value == Publication(Qualify(system)).(verified := true)
      && pair.packages.value == Publication(Qualify(packages)).(verified := true)
      && pair.version == packages.version && pair.train == packages.train
      && pair.abi == packages.abi && pair.altABI == packages.altABI
      && ValidPackageBinding(pair, pair.packages)
  {
    if BuildPair(system, packages).Some? {
      var first := Updated(Payload(Unset, map[]), system).value;
      assert Devel(first).system == Some(Publication(Qualify(system)));
      var second := Verified(first, System, system.fingerprint).value;
      assert Devel(second).system == Some(Publication(Qualify(system)).(verified := true));
      assert Devel(second).packages == None;
      var third := Updated(second, packages).value;
      assert Devel(third).packages == Some(Publication(Qualify(packages)));
    }
  }

  predicate Legacy(p: Payload) {
    p.schema.V1? || p.schema.V2?
  }

  lemma PlacedStableKeeps(base: Payload, pair: Channel)
    requires PlacedStable(base, pair).Some? && Bound(pair)
    ensures Consistent(base) ==> Consistent(PlacedStable(base, pair).value)
    ensures Forward(base, PlacedStable(base, pair).value)
  {
  }

  lemma PlacedTestingKeeps(base: Payload, pair: Channel)
    requires PlacedTesting(base, pair).Some? && Bound(pair)
    ensures Consistent(base) ==> Consistent(PlacedTesting(base, pair).value)
    ensures Forward(base, PlacedTesting(base, pair).value)
  {
  }

  lemma SealStableKeeps(p: Payload, system: UpdateOptions, packages: UpdateOptions)
    ensures SealedStable(p, system, packages).Some? ==>
      var next := SealedStable(p, system, packages).value;
      (Consistent(p) ==> Consistent(next)) && (!Legacy(p) ==> Forward(p, next))
  {
    hide BuildPair, PlacedStable, StableAdvances, IsFingerprint;
    if SealedStable(p, system, packages).Some? {
      PairIsBound(system, packages);
      PlacedStableKeeps(Reset(p), BuildPair(system, packages).value);
    }
  }

  lemma PublishTestingKeeps(p: Payload, system: UpdateOptions, packages: UpdateOptions)
    ensures PublishedTesting(p, system, packages).Some? ==>
      var next := PublishedTesting(p, system, packages).value;
      (Consistent(p) ==> Consistent(next)) && (!Legacy(p) ==> Forward(p, next))
  {
    hide BuildPair, PlacedTesting, StableAdvances, IsFingerprint;
    if PublishedTesting(p, system, packages).Some? {
      PairIsBound(system, packages);
      PlacedTestingKeeps(Reset(p), BuildPair(system, packages).value);
    }
  }

  /** A document that passes the pair check holds nothing but the three known channels. */
  lemma ValidPairChannels(p: Payload, architecture: string, packageArch: string)
    requires ValidDevelopmentPair(p, architecture, packageArch)
    ensures p.channels.Keys <= {"devel", "stable", "testing"}
  {
    hide ValidRetainedStable, ValidRetainedTesting, ValidDevelopmentChannel;
    var named := {"devel"} + (if "stable" in p.channels then {"stable"} else {})
                           + (if "testing" in p.channels then {"testing"} else {});
    assert |p.channels.Keys| == |p.channels|;
    SubsetOfSameSize(named, p.channels.Keys);
  }

  lemma RetainedStableIsBound(channel: Channel, architecture: string, packageArch: string, abi: string, altABI: string)
    ensures ValidRetainedStable(channel, architecture, packageArch, abi, altABI) ==> Bound(channel)
    ensures ValidRetainedTesting(channel, architecture, packageArch, abi, altABI) ==>
      Bound(channel) && !channel.isDefault
  {
  }

  lemma DevelopmentChannelIsBound(channel: Channel, architecture: string, packageArch: string)
    ensures ValidDevelopmentChannel(channel, architecture, packageArch) ==> Bound(channel)
  {
  }

  /** It is consistent on its own, and exactly one channel is the default. */
  lemma ValidPairIsConsistent(p: Payload, architecture: string, packageArch: string)
    requires ValidDevelopmentPair(p, architecture, packageArch)
    ensures Consistent(p) && HasDefault(p.channels)
  {
    hide ValidRetainedStable, ValidRetainedTesting, ValidDevelopmentChannel, Bound;
    ValidPairChannels(p, architecture, packageArch);
    var abi, altABI := ExpectedABI(architecture), ExpectedAltABI(architecture);
    DevelopmentChannelIsBound(p.channels["devel"], architecture, packageArch);
    if "stable" in p.channels {
      RetainedStableIsBound(p.channels["stable"], architecture, packageArch, abi, altABI);
    }
    if "testing" in p.channels {
      RetainedStableIsBound(p.channels["testing"], architecture, packageArch, abi, altABI);
    }
    if "stable" in p.channels && p.channels["stable"].isDefault {
    } else {
      assert p.channels["devel"].isDefault;
    }
  }

  lemma {:induction false} SubsetOfSameSize<T>(a: set<T>, b: set<T>)
    requires a <= b && |a| == |b|
    ensures a == b
  {
    assert b == a + (b - a);
    assert |b| == |a| + |b - a|;
  }

  lemma KeepRetainedIsForward(before: Payload, next: Payload)
    requires KeepRetained(before, next)
    ensures Forward(before, next)
  {
  }

  // ---------------------------------------------------------------- carrying retained channels forward

  predicate Complete(p: Payload, name: string) {
    name in p.channels ==> p.channels[name].system.Some? && p.channels[name].packages.Some?
  }

  /**
  A pair signed on top of an existing manifest may later replace exactly that manifest,
  as long as the retained channels have both components.
  */
  lemma PreservedIsAccepted(next: Payload, before: Payload)
    ensures KeepRetained(before, Preserved(next, before)) <==> Complete(before, "stable") && Complete(before, "testing")
  {
  }

  /** The default among the channels that the merge takes from the freshly signed payload. */
  predicate OnlyDevelIsDefault(next: Payload) {
    forall n :: n in next.channels && n != "stable" && n != "testing" && next.channels[n].isDefault ==> n == "devel"
  }

  predicate IsDefault(p: Payload, name: string) {
    name in p.channels && p.channels[name].isDefault
  }

  /** Which channel is the default after the merge. */
  predicate DefaultAfter(next: Payload, before: Payload, name: string) {
    if name == "stable" && "stable" in before.channels then before.channels["stable"].isDefault
    else if name == "devel" && "devel" in next.channels && "stable" in before.channels then
      !before.channels["stable"].isDefault
    else IsDefault(next, name)
  }

  lemma PreservedDefaults(next: Payload, before: Payload)
    requires Consistent(before) && Consistent(next)
    ensures forall name :: IsDefault(Preserved(next, before), name) <==> DefaultAfter(next, before, name)
    ensures Consistent(Preserved(next, before)) <==> AtMostOneDefault(Preserved(next, before))
  {
    hide AtMostOneDefault;
  }

  lemma OneDefault(p: Payload)
    ensures AtMostOneDefault(p) <==> forall a, b :: IsDefault(p, a) && IsDefault(p, b) ==> a == b
  {
    if forall a, b :: IsDefault(p, a) && IsDefault(p, b) ==> a == b {
      forall a, b | a in p.channels && b in p.channels && p.channels[a].isDefault && p.channels[b].isDefault
        ensures a == b
      {
        assert IsDefault(p, a) && IsDefault(p, b);
      }
    }
  }

  /**
  The merge of two consistent payloads is consistent exactly when it gives no second default: when it
  makes Stable or Development the default, nothing else may be one in the freshly signed payload.
  */
  lemma PreservedIsConsistent(next: Payload, before: Payload)
    requires Consistent(before) && Consistent(next)
    ensures Consistent(Preserved(next, before)) <==>
      ("stable" in before.channels && ("devel" in next.channels || before.channels["stable"].isDefault)
       ==> OnlyDevelIsDefault(next))
  {
    PreservedDefaults(next, before);
    OneDefault(Preserved(next, before));
    OneDefault(next);
    assert !IsDefault(next, "testing");
    hide Preserved, Bound, AtMostOneDefault, Consistent, IsDefault;
    if !OnlyDevelIsDefault(next) {
      var n :| n in next.channels && n != "stable" && n != "testing" && next.channels[n].isDefault && n != "devel";
      assert IsDefault(next, n) by { DefaultIs(next, n); }
      assert DefaultAfter(next, before, n);
      assert "stable" in before.channels && before.channels["stable"].isDefault ==>
        DefaultAfter(next, before, "stable");
      assert "stable" in before.channels && "devel" in next.channels && !before.channels["stable"].isDefault ==>
        DefaultAfter(next, before, "devel");
    } else {
      forall n | IsDefault(next, n)
        ensures n == "devel" || n == "stable"
      {
        DefaultIs(next, n);
      }
    }
  }

  lemma DefaultIs(p: Payload, name: string)
    ensures IsDefault(p, name) <==> name in p.channels && p.channels[name].isDefault
  {
  }

  /** For a freshly signed pair the merge is consistent, has a default, and moves it exactly to a default Stable. */
  lemma PreservedPairIsConsistent(next: Payload, before: Payload)
    requires Consistent(before) && Consistent(next)
    requires next.channels.Keys == {"devel"} && next.channels["devel"].isDefault
    ensures Consistent(Preserved(next, before))
    ensures HasDefault(Preserved(next, before).channels)
    ensures Preserved(next, before).channels["devel"] == next.channels["devel"].(
              isDefault := !("stable" in before.channels && before.channels["stable"].isDefault))
  {
    var r := Preserved(next, before).channels;
    assert r["devel"].isDefault || r["stable"].isDefault;
  }

  // ---------------------------------------------------------------- conservation

  /** What a System publication leaves of the packages selected with the previous System. */
  lemma SystemUpdateConservesPackages(p: Payload, o: UpdateOptions)
    requires Updated(p, o).Some? && o.kind.System? && "devel" in p.channels
    requires Updated(p, o).value != p && p.channels["devel"].system.Some?
    ensures var was, now := p.channels["devel"].packages, Updated(p, o).value.channels["devel"].packages;
      && (was.Some? && was.value.pin == o.pin ==> now == Some(was.value.(systemFingerprint := o.fingerprint)))
      && (was.None? || was.value.pin != o.pin ==> now == None)
  {
  }

  /** No development publication touches another channel except for its default flag. */
  lemma UpdateConservesOtherChannels(p: Payload, o: UpdateOptions, name: string)
    requires Updated(p, o).Some? && name != "devel"
    ensures name in p.channels <==> name in Updated(p, o).value.channels
    ensures name in p.channels ==>
      Updated(p, o).value.channels[name].(isDefault := p.channels[name].isDefault) == p.channels[name]
  {
  }

  // ---------------------------------------------------------------- reruns

  /** The architecture an earlier publication left on the channel does not contradict this one. */
  predicate ArchitectureAgrees(p: Payload, options: UpdateOptions) {
    var o, channel := Qualify(options), Devel(p);
    || o.declareArchitecture || o.architecture != "amd64" || o.packageArch != "amd64"
    || ((channel.architecture == "" || channel.architecture == o.architecture)
        && (channel.packageArch == "" || channel.packageArch == o.packageArch))
  }

  /** The channel with the component of one kind verified. */
  function Marked(channel: Channel, kind: Kind): Channel
    requires ComponentOf(channel, kind).Some?
  {
    if kind.System? then channel.(system := Some(channel.system.value.(verified := true)))
    else channel.(packages := Some(channel.packages.value.(verified := true)))
  }

  /** A publication that is no rerun installs its own component, unverified. */
  lemma UpdatedDevel(p: Payload, o: UpdateOptions)
    requires Updated(p, o).Some? && Updated(p, o).value != p
    ensures var q := Updated(p, o).value;
      && "devel" in q.channels && Devel(q) == Replaced(Devel(p), Qualify(o))
      && ComponentOf(Devel(q), o.kind) == Some(Publication(Qualify(o)))
  {
    PublishedOptions(p, o);
    hide Publishable, IsAmd64ABI, IsRetry;
  }

  lemma VerifiedDevel(q: Payload, kind: Kind, fingerprint: string)
    requires Verified(q, kind, fingerprint).Some?
    ensures ComponentOf(Devel(q), kind).Some?
    ensures Devel(Verified(q, kind, fingerprint).value) == Marked(Devel(q), kind)
  {
  }

  /** The verified channel is seen as a rerun exactly when the declared architecture agrees. */
  lemma MarkedIsRetry(p: Payload, o: UpdateOptions)
    requires o.kind.System? || o.kind.Packages?
    ensures var channel := Replaced(Devel(p), Qualify(o));
      && ComponentOf(channel, o.kind) == Some(Publication(Qualify(o)))
      && (IsRetry(Marked(channel, o.kind), Qualify(o)) <==> ArchitectureAgrees(p, o))
  {
    hide IsAmd64ABI, RetainedPackages, Devel;
  }

  /** What the rerun does to the verified channel. */
  lemma RerunOfVerified(verified: Payload, o: UpdateOptions)
    requires Publishable(Qualify(o)) && ComponentOf(Devel(verified), o.kind).Some?
    requires ComponentOf(Devel(verified), o.kind).value.verified
    requires o.kind.Packages? ==> ValidPackageBinding(Devel(verified), Devel(verified).packages)
    requires IdentityOf(ComponentOf(Devel(verified), o.kind).value) == IdentityOf(Publication(Qualify(o)))
    ensures Updated(verified, o).Some?
    ensures Updated(verified, o).value == verified <==> IsRetry(Devel(verified), Qualify(o))
  {
    hide Publishable, IsAmd64ABI, IsRetry, IsFingerprint;
    if Updated(verified, o).value != verified {
      UpdatedDevel(verified, o);
    } else if !IsRetry(Devel(verified), Qualify(o)) {
      NewPublicationIsUnverified(verified, o);
    }
  }

  lemma NewPublicationIsUnverified(p: Payload, o: UpdateOptions)
    requires Updated(p, o).Some? && !IsRetry(Devel(p), Qualify(o))
    ensures ComponentOf(Devel(Updated(p, o).value), o.kind) == Some(Publication(Qualify(o)))
  {
    PublishedOptions(p, o);
    hide Publishable, IsAmd64ABI, IsRetry;
  }

  /**
  Repeating a publication after its verification keeps the verification exactly when the
  channel's declared architecture agrees; otherwise the rerun starts the soak again.
  */
  lemma RetryKeepsVerification(p: Payload, o: UpdateOptions)
    requires Updated(p, o).Some? && Updated(p, o).value != p
    requires Verified(Updated(p, o).value, o.kind, o.fingerprint).Some?
    ensures var verified := Verified(Updated(p, o).value, o.kind, o.fingerprint).value;
      && Updated(verified, o).Some?
      && (Updated(verified, o).value == verified <==> ArchitectureAgrees(p, o))
  {
    var q := Updated(p, o).value;
    var verified := Verified(q, o.kind, o.fingerprint).value;
    UpdatedDevel(p, o);
    VerifiedDevel(q, o.kind, o.fingerprint);
    PublishedOptions(p, o);
    MarkedIsRetry(p, o);
    BindingSurvives(q, o);
    hide Updated, Verified, IsRetry, ArchitectureAgrees, Replaced, Publishable, ValidPackageBinding, Qualify, Devel;
    RerunOfVerified(verified, o);
  }

  lemma PublishedOptions(p: Payload, o: UpdateOptions)
    requires Updated(p, o).Some?
    ensures Publishable(Qualify(o)) && !o.kind.Unknown? && Qualify(o).kind == o.kind
  {
  }

  lemma BindingSurvives(q: Payload, o: UpdateOptions)
    requires Verified(q, o.kind, o.fingerprint).Some?
    ensures ComponentOf(Devel(q), o.kind).Some?
    ensures var channel := Marked(Devel(q), o.kind);
      && ComponentOf(channel, o.kind).Some? && ComponentOf(channel, o.kind).value.verified
      && IdentityOf(ComponentOf(channel, o.kind).value) == IdentityOf(ComponentOf(Devel(q), o.kind).value)
      && (o.kind.Packages? ==> ValidPackageBinding(channel, channel.packages))
  {
    hide IsFingerprint;
  }

  /** A manifest on which the rerun does restart the soak: its channel declares another architecture. */
  lemma RetryRestartsSoak(fingerprint: string)
    requires IsFingerprint(fingerprint)
    ensures var p := Payload(V3, map["devel" := ZERO_CHANNEL.(architecture := "arm64")]);
      var o := SampleOptions(System, fingerprint);
      && Updated(p, o).Some? && Updated(p, o).value != p && !ArchitectureAgrees(p, o)
      && Verified(Updated(p, o).value, System, fingerprint).Some?
      && var verified := Verified(Updated(p, o).value, System, fingerprint).value;
      && Updated(verified, o).Some? && Updated(verified, o).value != verified
      && Devel(verified).system.value.verified && !Devel(Updated(verified, o).value).system.value.verified
  {
    hide Publishable, IsFingerprint;
    SampleIsPublishable(System, fingerprint);
    var p := Payload(V3, map["devel" := ZERO_CHANNEL.(architecture := "arm64")]);
    var o := SampleOptions(System, fingerprint);
    assert !IsRetry(Devel(p), o);
    assert Updated(p, o).value != p;
    UpdatedDevel(p, o);
    VerifiedDevel(Updated(p, o).value, System, fingerprint);
    RetryKeepsVerification(p, o);
    UpdatedDevel(Verified(Updated(p, o).value, System, fingerprint).value, o);
  }

  /** What was placed is recognised as already published. */
  lemma PlacedStableRerun(base: Payload, pair: Channel)
    requires PlacedStable(base, pair).Some?
    requires pair.system.Some? && pair.packages.Some? && pair.system.value.verified && pair.packages.value.verified
    ensures PlacedStable(PlacedStable(base, pair).value, pair) == PlacedStable(base, pair)
  {
    hide StableAdvances, HasDefault;
  }

  /** Sealing the same release twice changes nothing the second time. */
  lemma SealStableRerun(p: Payload, system: UpdateOptions, packages: UpdateOptions)
    ensures SealedStable(p, system, packages).Some? ==>
      var sealed := SealedStable(p, system, packages).value;
      SealedStable(sealed, system, packages) == Some(sealed)
  {
    hide BuildPair, StableAdvances, IsFingerprint, HasDefault, ReleaseOptions;
    if SealedStable(p, system, packages).Some? {
      PairIsBound(system, packages);
      var pair := BuildPair(system, packages).value;
      var sealed := SealedStable(p, system, packages).value;
      PlacedStableRerun(Reset(p), pair);
      PlacedStableIsMigrated(Reset(p), pair);
      assert Reset(sealed) == sealed;
    }
  }

  lemma PlacedStableIsMigrated(base: Payload, pair: Channel)
    requires PlacedStable(base, pair).Some? && Migrated(base.channels) && ValidPackageBinding(pair, pair.packages)
    ensures Migrated(PlacedStable(base, pair).value.channels)
  {
    hide StableAdvances, IsFingerprint, HasDefault;
  }

  // ---------------------------------------------------------------- the legacy schemas

  function Fingerprint(c: char): (s: string)
    requires 'a' <= c <= 'f'
    ensures IsFingerprint(s) && s[0] == c
  {
    seq(64, _ => c)
  }

  const SAMPLE_FINGERPRINT := Fingerprint('a')
  const OTHER_FINGERPRINT := Fingerprint('b')

  function SampleOptions(kind: Kind, fingerprint: string): UpdateOptions {
    UpdateOptions("devel", kind, fingerprint,
      if kind.Packages? then SAMPLE_FINGERPRINT else "",
      if kind.Packages? then SAMPLE_FINGERPRINT else "",
      SAMPLE_FINGERPRINT,
      ArtifactURL(kind, fingerprint, "0.0", "amd64"), 1, "0.0.0", "0.0",
      "FreeBSD:16:amd64", "freebsd:16:x86:64", "amd64", "amd64", false,
      if kind.Packages? then 0 else 1_600_000, 1)
  }

  lemma ZeroVersion()
    ensures Match("0.0.0") == Some(Groups("0", "0", "0"))
    ensures IsTrain("0.0") && InTrain("0.0.0", "0.0")
  {
    MatchInvertsText(Groups("0", "0", "0"));
    assert Groups("0", "0", "0").Text() == "0.0.0";
    BeforeDotFindsFirstDot("0", "0");
    assert "0" + "." + "0" == "0.0";
  }

  /** Matching options build a pair exactly when each of them is publishable. */
  lemma BuildPairSucceeds(system: UpdateOptions, packages: UpdateOptions)
    ensures ReleaseOptions(system, packages) ==>
      (BuildPair(system, packages).Some? <==> Publishable(Qualify(system)) && Publishable(Qualify(packages)))
  {
    hide IsAmd64ABI, InTrain, IsTrain, IsFingerprint, ArtifactURL, Match;
    if !ReleaseOptions(system, packages) || !Publishable(Qualify(system)) || !Publishable(Qualify(packages)) {
      return;
    }
    var first := Updated(Payload(Unset, map[]), system);
    assert Devel(first.value).system == Some(Publication(Qualify(system)));
    var second := Verified(first.value, System, system.fingerprint);
    assert Devel(second.value).system == Some(Publication(Qualify(system)).(verified := true));
    var third := Updated(second.value, packages);
    assert Devel(third.value).packages == Some(Publication(Qualify(packages)));
    assert ValidPackageBinding(Devel(third.value), Devel(third.value).packages);
  }

  lemma SampleIsPublishable(kind: Kind, fingerprint: string)
    requires IsFingerprint(fingerprint) && !kind.Unknown?
    ensures Publishable(Qualify(SampleOptions(kind, fingerprint)))
  {
    ZeroVersion();
  }

  lemma SampleOptionsMatch(fingerprint: string)
    ensures ReleaseOptions(SampleOptions(System, SAMPLE_FINGERPRINT), SampleOptions(Packages, fingerprint))
  {
    hide Match, ArtifactURL;
    ZeroVersion();
    assert "0" + "." + "0" == "0.0";
  }

  lemma SamplePair(fingerprint: string)
    requires IsFingerprint(fingerprint)
    ensures var system, packages := SampleOptions(System, SAMPLE_FINGERPRINT), SampleOptions(Packages, fingerprint);
      ReleaseOptions(system, packages) && BuildPair(system, packages).Some?
  {
    SampleOptionsMatch(fingerprint);
    SampleIsPublishable(System, SAMPLE_FINGERPRINT);
    SampleIsPublishable(Packages, fingerprint);
    hide BuildPair, ReleaseOptions, Publishable, SampleOptions, Qualify;
    BuildPairSucceeds(SampleOptions(System, SAMPLE_FINGERPRINT), SampleOptions(Packages, fingerprint));
  }

  lemma NothingAdvancesToZero(version: string)
    ensures !StableAdvances(version, "0.0.0")
  {
    hide StableAdvances, Match;
    ZeroVersion();
    if StableAdvances(version, "0.0.0") {
      AdvancesRaisesTriple(version, "0.0.0");
      assert false;
    }
  }

  /** The names of the channels that a Development publication retains. */
  predicate IsRetained(name: string) {
    name == "stable" || name == "testing"
  }

  predicate RetainedForward(name: string, before: Payload, next: Payload) {
    (name == "stable" ==> StableForward(before, next)) && (name == "testing" ==> TestingForward(before, next))
  }

  /**
  A retained channel is safe from a seal of Stable exactly when the payload is not of a legacy schema:
  on a v1 or v2 payload some seal drops or rewrites Stable, and every seal drops Testing.
  */
  lemma SealIsSafeUnlessLegacy(p: Payload, name: string)
    requires IsRetained(name) && name in p.channels
    ensures !Legacy(p) <==>
      (forall system, packages :: SealedStable(p, system, packages).Some?
         ==> RetainedForward(name, p, SealedStable(p, system, packages).value))
  {
    hide SealedStable, StableForward, TestingForward;
    if Legacy(p) {
      var system, packages := SealOverLegacy(p, p, name);
    } else {
      forall system, packages | SealedStable(p, system, packages).Some?
        ensures RetainedForward(name, p, SealedStable(p, system, packages).value)
      {
        SealStableKeeps(p, system, packages);
      }
    }
  }

  /** On a legacy payload there is always a seal that loses a retained channel of any earlier payload. */
  lemma SealOverLegacy(before: Payload, p: Payload, name: string)
    returns (system: UpdateOptions, packages: UpdateOptions)
    requires IsRetained(name) && name in before.channels && Legacy(p)
    ensures SealedStable(p, system, packages).Some? && SealedStable(p, system, packages).value.schema.V3?
    ensures !RetainedForward(name, before, SealedStable(p, system, packages).value)
  {
    hide SealedStable, StableForward, TestingForward;
    var existing := IdentityOption(before.channels[name].packages);
    var clash := existing.Some? && existing.value.fingerprint == OTHER_FINGERPRINT;
    var fingerprint := if clash then SAMPLE_FINGERPRINT else OTHER_FINGERPRINT;
    assert SAMPLE_FINGERPRINT[0] != OTHER_FINGERPRINT[0];
    system, packages := SampleOptions(System, SAMPLE_FINGERPRINT), SampleOptions(Packages, fingerprint);
    SealSucceedsOnLegacy(p, fingerprint);
    if name == "stable" {
      SealDropsLegacyStable(before, p, fingerprint);
    } else {
      SealDropsLegacyTesting(before, p, system, packages);
    }
  }

  lemma SealSucceedsOnLegacy(p: Payload, fingerprint: string)
    requires Legacy(p) && IsFingerprint(fingerprint)
    ensures var system, packages := SampleOptions(System, SAMPLE_FINGERPRINT), SampleOptions(Packages, fingerprint);
      SealedStable(p, system, packages).Some? && SealedStable(p, system, packages).value.schema.V3?
  {
    hide BuildPair, ReleaseOptions, StableAdvances, IsFingerprint;
    SamplePair(fingerprint);
    assert Reset(p) == Payload(V3, map[]);
  }

  /** Every accepted seal of a legacy payload leaves no Testing. */
  lemma SealDropsLegacyTesting(before: Payload, p: Payload, system: UpdateOptions, packages: UpdateOptions)
    requires "testing" in before.channels && Legacy(p) && SealedStable(p, system, packages).Some?
    ensures "testing" !in SealedStable(p, system, packages).value.channels
    ensures !TestingForward(before, SealedStable(p, system, packages).value)
  {
    hide BuildPair, ReleaseOptions, StableAdvances, IsFingerprint;
    assert Reset(p) == Payload(V3, map[]);
  }

  lemma SealDropsLegacyStable(before: Payload, p: Payload, fingerprint: string)
    requires "stable" in before.channels && Legacy(p) && IsFingerprint(fingerprint)
    requires var packages := IdentityOption(before.channels["stable"].packages);
      packages.Some? ==> packages.value.fingerprint != fingerprint
    ensures var system, packages := SampleOptions(System, SAMPLE_FINGERPRINT), SampleOptions(Packages, fingerprint);
      && SealedStable(p, system, packages).Some? && SealedStable(p, system, packages).value.schema.V3?
      && !StableForward(before, SealedStable(p, system, packages).value)
  {
    var system, packages := SampleOptions(System, SAMPLE_FINGERPRINT), SampleOptions(Packages, fingerprint);
    hide BuildPair, ReleaseOptions, StableAdvances, IsFingerprint;
    SamplePair(fingerprint);
    PairIsBound(system, packages);
    NothingAdvancesToZero(before.channels["stable"].version);
    assert Reset(p) == Payload(V3, map[]);
    var sealed := SealedStable(p, system, packages).value.channels["stable"];
    assert sealed.version == "0.0.0" && sealed.packages.value.fingerprint == fingerprint;
  }
}

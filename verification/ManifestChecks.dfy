/**
What the manifest commands accept and what they store, field by field: each condition in terms of the
options and of the stored channels alone.
*/
module ManifestChecks {
  import opened Wrappers
  import opened Versions
  import opened Manifest
  import opened ManifestLaws

  // ---------------------------------------------------------------- texts

  lemma TrainExactly(s: string)
    ensures IsTrain(s) <==> exists major, minor :: IsDigits(major) && IsDigits(minor) && s == major + "." + minor
  {
    hide IsDigits;
    if IsTrain(s) {
      var i := BeforeDot(s);
      assert s == s[..i] + "." + s[i + 1..];
    }
    forall major, minor | IsDigits(major) && IsDigits(minor) && s == major + "." + minor
      ensures IsTrain(s)
    {
      DigitsHaveNoDot(major);
      BeforeDotFindsFirstDot(major, minor);
      CutAtDot(major, minor);
    }
  }

  lemma DigitsHaveNoDot(s: string)
    requires IsDigits(s)
    ensures '.' !in s && forall i :: 0 <= i < |s| ==> s[i] != '.'
  {
  }

  /** A version is of a train exactly when the train is what stands before its last dot or before its first one. */
  lemma InTrainExactly(version: string, train: string)
    ensures InTrain(version, train) <==>
      exists g: Groups :: g.Valid() && version == g.Text() && (train == g.major + "." + g.minor || train == g.major)
  {
    hide IsDigits, Match;
    if InTrain(version, train) {
      var g := Match(version).value;
      MatchIsText(version);
      DigitsHaveNoDot(g.major);
      DigitsHaveNoDot(g.minor);
      DigitsHaveNoDot(g.patch);
      DotsOf(g, train);
    }
    forall g: Groups | g.Valid() && version == g.Text() && (train == g.major + "." + g.minor || train == g.major)
      ensures InTrain(version, train)
    {
      MatchInvertsText(g);
      assert g.Text() == g.major + "." + (g.minor + "." + g.patch);
    }
  }

  lemma DotsOf(g: Groups, train: string)
    requires '.' !in g.major && '.' !in g.minor && '.' !in g.patch
    requires train + "." <= g.Text()
    ensures train == g.major + "." + g.minor || train == g.major
  {
    var text, n := g.Text(), |train|;
    assert text[n] == '.';
    var first, second := |g.major|, |g.major| + 1 + |g.minor|;
    assert text == g.major + "." + g.minor + "." + g.patch;
    assert forall i :: 0 <= i < first ==> text[i] == g.major[i];
    assert forall i :: first < i < second ==> text[i] == g.minor[i - first - 1];
    assert forall i :: second < i < |text| ==> text[i] == g.patch[i - second - 1];
    assert train == text[..n];
    assert text[..first] == g.major && text[..second] == g.major + "." + g.minor;
  }

  lemma Amd64ABIExactly(s: string)
    ensures IsAmd64ABI(s) <==> exists digits :: IsDigits(digits) && s == "FreeBSD:" + digits + ":amd64"
  {
    if IsAmd64ABI(s) {
      assert s == "FreeBSD:" + s[8..|s| - 6] + ":amd64";
    }
    forall digits | IsDigits(digits) && s == "FreeBSD:" + digits + ":amd64"
      ensures IsAmd64ABI(s)
    {
      assert s[..8] == "FreeBSD:" && s[|s| - 6..] == ":amd64" && s[8..|s| - 6] == digits;
    }
  }

  // ---------------------------------------------------------------- Update

  /** One architecture that is published: its names and the ABI of its packages. */
  datatype Platform = Platform(architecture: string, packageArch: string, abi: string, altABI: string)

  const AMD64 := Platform("amd64", "amd64", "FreeBSD:16:amd64", "freebsd:16:x86:64")
  const ARM64 := Platform("arm64", "aarch64", "FreeBSD:16:aarch64", "freebsd:16:aarch64:64")

  /** The options name this architecture, amd64 also by leaving it blank. */
  predicate IsFor(o: UpdateOptions, t: Platform) {
    && o.abi == t.abi && o.altABI == t.altABI
    && ((o.architecture, o.packageArch) == (t.architecture, t.packageArch)
        || (t == AMD64 && (o.architecture, o.packageArch) == ("", "")))
  }

  /** The identity of a System: no bindings, and a kernel version of its ABI. */
  predicate IsSystemIdentity(o: UpdateOptions) {
    o.kind.System? && (o.systemFingerprint, o.builtAgainst) == ("", "") && o.osVersion / 100_000 == 16
  }

  /** The identity of packages: both Systems by fingerprint, and no kernel version. */
  predicate IsPackagesIdentity(o: UpdateOptions) {
    o.kind.Packages? && IsFingerprint(o.systemFingerprint) && IsFingerprint(o.builtAgainst) && o.osVersion == 0
  }

  function LinkOf(o: UpdateOptions, packageArch: string): string {
    "https://pkg.freesense.org/v1/artifacts/"
    + (if o.kind.Packages? then "packages/" + o.train else "system") + "/" + o.fingerprint + "/" + packageArch
  }

  /** A publication of this architecture that can be accepted at all. */
  ghost predicate Announces(o: UpdateOptions, t: Platform) {
    && o.channel == "devel" && IsFor(o, t)
    && (IsSystemIdentity(o) || IsPackagesIdentity(o))
    && IsFingerprint(o.fingerprint) && IsFingerprint(o.pin) && o.generation > 0 && o.publishedAt > 0
    && o.url == LinkOf(o, t.packageArch)
    && exists major, minor, patch :: IsDigits(major) && IsDigits(minor) && IsDigits(patch)
         && o.train == major + "." + minor && o.version == o.train + "." + patch
  }

  lemma VersionOfTrainExactly(version: string, train: string)
    ensures IsTrain(train) && InTrain(version, train) <==>
      exists major, minor, patch :: IsDigits(major) && IsDigits(minor) && IsDigits(patch)
        && train == major + "." + minor && version == train + "." + patch
  {
    hide IsDigits, IsTrain, InTrain;
    TrainExactly(train);
    InTrainExactly(version, train);
    if IsTrain(train) && InTrain(version, train) {
      var g: Groups :| g.Valid() && version == g.Text() && (train == g.major + "." + g.minor || train == g.major);
      DigitsHaveNoDot(g.major);
      assert '.' in train by {
        var major, minor :| IsDigits(major) && IsDigits(minor) && train == major + "." + minor;
        assert train[|major|] == '.';
      }
    }
    forall major, minor, patch | IsDigits(major) && IsDigits(minor) && IsDigits(patch)
      && train == major + "." + minor && version == train + "." + patch
      ensures IsTrain(train) && InTrain(version, train)
    {
      assert Groups(major, minor, patch).Valid() && Groups(major, minor, patch).Text() == version;
    }
  }

  lemma LinkExactly(o: UpdateOptions, packageArch: string)
    requires !o.kind.Unknown?
    ensures ArtifactURL(o.kind, o.fingerprint, o.train, packageArch) == LinkOf(o, packageArch)
  {
    if o.kind.Packages? {
      assert "https://pkg.freesense.org/v1/artifacts/packages/" + o.train
          == "https://pkg.freesense.org/v1/artifacts/" + ("packages/" + o.train);
    } else {
      assert "https://pkg.freesense.org/v1/artifacts/system/"
          == "https://pkg.freesense.org/v1/artifacts/" + "system" + "/";
    }
  }

  lemma MappingExactly(o: UpdateOptions)
    ensures ValidMapping(Qualify(o)) <==> IsFor(o, AMD64) || IsFor(o, ARM64)
    ensures IsFor(o, AMD64) ==> (Qualify(o).architecture, Qualify(o).packageArch) == ("amd64", "amd64")
    ensures IsFor(o, ARM64) ==> (Qualify(o).architecture, Qualify(o).packageArch) == ("arm64", "aarch64")
    ensures Qualify(o) == o.(architecture := Qualify(o).architecture, packageArch := Qualify(o).packageArch)
  {
    assert "FreeBSD:16:amd64" == "FreeBSD:" + "16" + ":amd64" && IsDigits("16");
    Amd64ABIExactly("FreeBSD:16:amd64");
  }

  lemma PublishableExactly(o: UpdateOptions)
    ensures Publishable(Qualify(o)) <==> Announces(o, AMD64) || Announces(o, ARM64)
  {
    hide Qualify, ValidMapping, IsFingerprint, IsTrain, InTrain, ArtifactURL;
    MappingExactly(o);
    VersionOfTrainExactly(o.version, o.train);
    hide IsFor;
    if !o.kind.Unknown? {
      LinkExactly(o, "amd64");
      LinkExactly(o, "aarch64");
    }
  }

  /** Development has this System now. */
  predicate Selects(p: Payload, fingerprint: string, pin: string) {
    && "devel" in p.channels && p.channels["devel"].system.Some?
    && p.channels["devel"].system.value.fingerprint == fingerprint && p.channels["devel"].system.value.pin == pin
  }

  /**
  A publication is accepted exactly if it announces one component for a known architecture, and packages
  only for the System that Development has now.
  */
  lemma UpdateAcceptsExactly(p: Payload, o: UpdateOptions)
    ensures Updated(p, o).Some? <==>
      && (Announces(o, AMD64) || Announces(o, ARM64))
      && (o.kind.Packages? ==> Selects(p, o.systemFingerprint, o.pin))
  {
    hide Publishable, Announces, IsRetry, Replaced, OnlyDefault, ValidMapping, IsAmd64ABI;
    PublishableExactly(o);
  }

  /** The same component, but for when it was published and whether it was verified. */
  predicate SamePublication(c: Option<Component>, o: UpdateOptions) {
    && c.Some?
    && c.value == Component(o.fingerprint, o.systemFingerprint, o.pin, o.builtAgainst, o.osVersion, o.url,
                            o.generation, c.value.publishedAt, c.value.verified)
  }

  /** The channel already carries exactly this publication, for this architecture or for none that it names. */
  predicate Carries(channel: Channel, o: UpdateOptions, t: Platform) {
    && channel == Channel("devel", "Development version", o.version, o.train, t.abi, t.altABI,
                          channel.architecture, channel.packageArch, true, channel.system, channel.packages)
    && channel.architecture in {"", t.architecture} && channel.packageArch in {"", t.packageArch}
    && SamePublication(if o.kind.System? then channel.system else channel.packages, o)
  }

  /** The fresh, unverified component of a publication. */
  function Fresh(o: UpdateOptions): Component {
    Component(o.fingerprint, o.systemFingerprint, o.pin, o.builtAgainst, o.osVersion, o.url, o.generation,
              o.publishedAt, false)
  }

  /** Packages of the same pin follow a new System; any others go. */
  function Following(packages: Option<Component>, o: UpdateOptions): Option<Component> {
    match packages
    case Some(c) => if c.pin == o.pin then Some(c.(systemFingerprint := o.fingerprint)) else None
    case None => None
  }

  /** Development after a publication: its metadata, its component, and the default. */
  function Published(was: Channel, o: UpdateOptions, t: Platform): Channel {
    var names := o.declareArchitecture || t == ARM64;
    Channel("devel", "Development version", o.version, o.train, t.abi, t.altABI,
            if names then t.architecture else was.architecture, if names then t.packageArch else was.packageArch, true,
            if o.kind.System? then Some(Fresh(o)) else was.system,
            if o.kind.Packages? then Some(Fresh(o))
            else if was.system.Some? then Following(was.packages, o) else None)
  }

  function NoDefault(channel: Channel): Channel {
    channel.(isDefault := false)
  }

  /** What a publication stores: nothing new if Development carries it already, or that publication as the default. */
  lemma UpdateStoresExactly(p: Payload, o: UpdateOptions, t: Platform)
    requires Updated(p, o).Some? && Announces(o, t) && (t == AMD64 || t == ARM64)
    ensures var was, q := if "devel" in p.channels then p.channels["devel"] else ZERO_CHANNEL, Updated(p, o).value;
      if Carries(was, o, t) then q == p
      else q == Payload(V3, (map n | n in p.channels :: NoDefault(p.channels[n]))["devel" := Published(was, o, t)])
  {
    hide Publishable, IsAmd64ABI, IsFingerprint, Announces;
    MappingExactly(o);
    AnnouncesFields(o, t);
    var was := Devel(p);
    assert Replaced(was, Qualify(o)) == Published(was, o, t);
    RetryExactly(was, o, t);
    hide IsRetry, Carries, Replaced, Published, Qualify, IsFor;
    var q := Updated(p, o).value;
    if !Carries(was, o, t) {
      assert q.channels == (map n | n in p.channels :: NoDefault(p.channels[n]))["devel" := Published(was, o, t)];
    }
  }

  lemma AnnouncesFields(o: UpdateOptions, t: Platform)
    requires Announces(o, t)
    ensures IsFor(o, t) && !o.kind.Unknown?
    ensures o.kind.System? ==> o.systemFingerprint == "" && o.builtAgainst == ""
  {
  }

  lemma RetryExactly(was: Channel, o: UpdateOptions, t: Platform)
    requires IsFor(o, t) && (t == AMD64 || t == ARM64) && !o.kind.Unknown?
    requires o.kind.System? ==> o.systemFingerprint == "" && o.builtAgainst == ""
    ensures IsRetry(was, Qualify(o)) <==> Carries(was, o, t)
  {
    hide IsAmd64ABI;
    MappingExactly(o);
  }

  // ---------------------------------------------------------------- release pairs

  /** System and packages of one release: one version of one train, one pin, and packages bound to that System. */
  lemma ReleaseOptionsExactly(system: UpdateOptions, packages: UpdateOptions)
    ensures ReleaseOptions(system, packages) <==>
      && (system.kind, packages.kind) == (System, Packages)
      && system.version == packages.version && system.train == packages.train && system.pin == packages.pin
      && packages.systemFingerprint == system.fingerprint
      && exists g: Groups :: g.Valid() && system.version == g.Text() && system.train == g.major + "." + g.minor
  {
    hide IsDigits;
    if ReleaseOptions(system, packages) {
      MatchIsText(system.version);
    }
    forall g: Groups | g.Valid() && system.version == g.Text() && system.train == g.major + "." + g.minor
      ensures Match(system.version) == Some(g) && system.train != ""
    {
      MatchInvertsText(g);
    }
  }

  /** Every component names its pin by a fingerprint, and packages the System they were built with too. */
  lemma MigratedExactly(channels: map<string, Channel>)
    ensures Migrated(channels) <==>
      forall n, c :: n in channels && (channels[n].system == Some(c) || channels[n].packages == Some(c)) ==>
        IsFingerprint(c.pin) && (channels[n].packages == Some(c) ==> IsFingerprint(c.builtAgainst))
  {
    hide IsFingerprint;
    if Migrated(channels) {
    } else {
      var n :| n in channels && !(
        && (channels[n].system.Some? ==> IsFingerprint(channels[n].system.value.pin))
        && (channels[n].packages.Some? ==>
              IsFingerprint(channels[n].packages.value.pin) && IsFingerprint(channels[n].packages.value.builtAgainst)));
    }
  }

  // ---------------------------------------------------------------- seals

  /** A request for one release, over a payload whose components all name their pins. */
  ghost predicate CanRelease(p: Payload, system: UpdateOptions, packages: UpdateOptions) {
    && ReleaseOptions(system, packages) && Migrated(Reset(p).channels)
    && (Announces(system, AMD64) || Announces(system, ARM64))
    && (Announces(packages, AMD64) || Announces(packages, ARM64))
  }

  lemma ReleasePairExactly(p: Payload, system: UpdateOptions, packages: UpdateOptions)
    ensures ReleasePair(p, system, packages).Some? <==> CanRelease(p, system, packages)
    ensures ReleasePair(p, system, packages).Some? ==>
      BuildPair(system, packages).Some?
      && ReleasePair(p, system, packages).value == (Reset(p), BuildPair(system, packages).value)
  {
    hide ReleaseOptions, Migrated, BuildPair, Announces, Publishable, Qualify;
    PublishableExactly(system);
    PublishableExactly(packages);
    BuildPairSucceeds(system, packages);
  }

  /** An older schema leaves nothing behind. */
  lemma ResetExactly(p: Payload)
    ensures Reset(p) == if p.schema in {V1, V2} then Payload(V3, map[]) else p
  {
  }

  /** The existing channel is this very release: metadata, identities, and both components verified. */
  predicate IsRelease(existing: Channel, pair: Channel) {
    && (existing.version, existing.train) == (pair.version, pair.train)
    && (existing.abi, existing.altABI) == (pair.abi, pair.altABI)
    && existing.system.Some? && pair.system.Some? && existing.packages.Some? && pair.packages.Some?
    && existing.system.value.verified && existing.packages.value.verified
    && ReleaseOf(existing) == ReleaseOf(pair)
  }

  /** No channel is the default. */
  predicate NoneIsDefault(channels: map<string, Channel>) {
    forall c :: c in channels.Values ==> !c.isDefault
  }

  /** A published version is left alone by its own release alone, and a newer release takes its place. */
  function StableAfter(base: Payload, pair: Channel): Option<Payload> {
    var channels := base.channels;
    if "stable" in channels && channels["stable"].version == pair.version then
      if channels["stable"].name == "stable" && IsRelease(channels["stable"], pair) then Some(base) else None
    else if "stable" in channels && !StableAdvances(channels["stable"].version, pair.version) then None
    else Some(Payload(V3, channels["stable" := pair.(
      name := "stable", description := "FreeSense " + pair.train + " Stable", isDefault := NoneIsDefault(channels))]))
  }

  /**
  A seal is accepted exactly for a complete release that Stable does not have yet and that is newer, or
  that Stable has already; a published version with any other content is refused.
  */
  lemma SealExactly(p: Payload, system: UpdateOptions, packages: UpdateOptions)
    ensures !CanRelease(p, system, packages) ==> SealedStable(p, system, packages) == None
    ensures CanRelease(p, system, packages) ==>
      && BuildPair(system, packages).Some?
      && SealedStable(p, system, packages) == StableAfter(Reset(p), BuildPair(system, packages).value)
  {
    hide ReleasePair, CanRelease, BuildPair, PlacedStable, StableAfter, Reset;
    ReleasePairExactly(p, system, packages);
    if CanRelease(p, system, packages) {
      PlacedStableExactly(Reset(p), BuildPair(system, packages).value);
    }
  }

  lemma AlreadyPublishedExactly(existing: Channel, pair: Channel, desired: Channel)
    requires desired == pair.(name := desired.name, description := desired.description, isDefault := desired.isDefault)
    ensures AlreadyPublished(existing, desired) <==>
      IsRelease(existing, pair)
      && (existing.description, existing.isDefault) == (desired.description, desired.isDefault)
  {
  }

  lemma DefaultsExactly(channels: map<string, Channel>)
    ensures HasDefault(channels) <==> !NoneIsDefault(channels)
    ensures HasDefaultBesideTesting(channels) <==> !NoneIsDefault(channels - {"testing"})
  {
    var others := channels - {"testing"};
    if HasDefault(channels) {
      var n :| n in channels && channels[n].isDefault;
      assert channels[n] in channels.Values;
    }
    if HasDefaultBesideTesting(channels) {
      var n :| n in channels && n != "testing" && channels[n].isDefault;
      assert n in others && others[n] in others.Values;
    }
  }

  lemma PlacedStableExactly(base: Payload, pair: Channel)
    ensures PlacedStable(base, pair) == StableAfter(base, pair)
  {
    DefaultsExactly(base.channels);
    if "stable" in base.channels {
      var existing, desired := base.channels["stable"], StableLabel(pair);
      AlreadyPublishedExactly(existing, pair,
                              desired.(isDefault := existing.isDefault, description := existing.description));
    }
    hide StableAdvances, AlreadyPublished, IsRelease, HasDefault, NoneIsDefault;
  }

  lemma PlacedTestingExactly(base: Payload, pair: Channel)
    ensures PlacedTesting(base, pair) == TestingAfter(base, pair)
  {
    DefaultsExactly(base.channels);
    if "testing" in base.channels {
      AlreadyPublishedExactly(base.channels["testing"], pair, TestingLabel(pair));
    }
    hide StableAdvances, AlreadyPublished, IsRelease, HasDefaultBesideTesting, NoneIsDefault;
  }

  /** The pair would move Testing to an older version, or at its version to an older generation. */
  predicate Lowers(channels: map<string, Channel>, pair: Channel) {
    && "testing" in channels
    && if channels["testing"].version == pair.version
       then PairGeneration(pair) < PairGeneration(channels["testing"])
       else !StableAdvances(channels["testing"].version, pair.version)
  }

  /** A rerun leaves Testing alone; anything else that does not lower it replaces it beside a default channel. */
  function TestingAfter(base: Payload, pair: Channel): Option<Payload> {
    var channels := base.channels;
    var desired := pair.(name := "testing", description := "FreeSense " + pair.train + " Testing", isDefault := false);
    if Lowers(channels, pair) then None
    else if "testing" in channels && IsRelease(channels["testing"], pair)
         && channels["testing"].description == desired.description && !channels["testing"].isDefault
    then Some(base)
    else if NoneIsDefault(channels - {"testing"}) then None
    else Some(Payload(V3, channels["testing" := desired]))
  }

  /** Testing is published exactly for a complete release that does not lower it, beside a default channel. */
  lemma TestingExactly(p: Payload, system: UpdateOptions, packages: UpdateOptions)
    ensures !CanRelease(p, system, packages) ==> PublishedTesting(p, system, packages) == None
    ensures CanRelease(p, system, packages) ==>
      && BuildPair(system, packages).Some?
      && PublishedTesting(p, system, packages) == TestingAfter(Reset(p), BuildPair(system, packages).value)
  {
    hide ReleasePair, CanRelease, BuildPair, PlacedTesting, TestingAfter, Reset;
    ReleasePairExactly(p, system, packages);
    if CanRelease(p, system, packages) {
      PlacedTestingExactly(Reset(p), BuildPair(system, packages).value);
    }
  }

  // ---------------------------------------------------------------- documents that may be installed

  /** A verified System and verified packages that are bound to it by fingerprint, System and pin. */
  predicate IsBoundPair(channel: Channel) {
    && channel.system.Some? && channel.packages.Some?
    && channel.system.value.verified && channel.packages.value.verified
    && BoundByName(channel) && IsFingerprint(channel.packages.value.fingerprint)
    && IsFingerprint(channel.packages.value.builtAgainst)
  }

  /** A retained Stable is a bound pair of this ABI under its name, of no other architecture, at its train's version. */
  lemma RetainedStableExactly(channel: Channel, t: Platform)
    ensures ValidRetainedStable(channel, t.architecture, t.packageArch, t.abi, t.altABI) <==>
      && channel.name == "stable" && IsBoundPair(channel) && InTrain(channel.version, channel.train)
      && (channel.abi, channel.altABI) == (t.abi, t.altABI)
      && channel.architecture in {"", t.architecture} && channel.packageArch in {"", t.packageArch}
  {
    hide IsFingerprint, InTrain;
  }

  /** A retained Testing is what a retained Stable is, under its own name and label, and never the default. */
  lemma RetainedTestingExactly(channel: Channel, t: Platform)
    ensures ValidRetainedTesting(channel, t.architecture, t.packageArch, t.abi, t.altABI) <==>
      && (channel.name, channel.description) == ("testing", "FreeSense " + channel.train + " Testing")
      && channel.isDefault == false
      && ValidRetainedStable(channel.(name := "stable"), t.architecture, t.packageArch, t.abi, t.altABI)
  {
    hide ValidRetainedStable;
  }

  /** Both components carry their own links, their generations and one publication time. */
  predicate IsPublishedPair(channel: Channel, t: Platform) {
    && channel.system.Some? && channel.packages.Some?
    && var system, packages := channel.system.value, channel.packages.value;
    && (system.systemFingerprint, system.builtAgainst) == ("", "") && system.osVersion > 0
    && system.url == "https://pkg.freesense.org/v1/artifacts/system/" + system.fingerprint + "/" + t.packageArch
    && packages.url == "https://pkg.freesense.org/v1/artifacts/packages/" + channel.train + "/" + packages.fingerprint
                       + "/" + t.packageArch
    && system.generation > 0 && packages.generation > 0
    && system.publishedAt == packages.publishedAt > 0
  }

  lemma DevelopmentChannelExactly(channel: Channel, t: Platform)
    requires t == AMD64 || t == ARM64
    ensures ValidDevelopmentChannel(channel, t.architecture, t.packageArch) <==>
      && (channel.name, channel.description) == ("devel", "Development version")
      && Platform(channel.architecture, channel.packageArch, channel.abi, channel.altABI) == t
      && InTrain(channel.version, channel.train) && IsBoundPair(channel) && IsPublishedPair(channel, t)
  {
    hide IsFingerprint, InTrain;
  }

  /** No other architecture has an ABI, and no architecture goes with the packages of another. */
  lemma OtherArchitecturesExactly(channel: Channel, architecture: string, packageArch: string)
    ensures architecture !in {"amd64", "arm64"} ==> ExpectedABI(architecture) == "" == ExpectedAltABI(architecture)
    ensures ValidDevelopmentChannel(channel, architecture, packageArch) ==>
      && (channel.architecture, channel.packageArch) == (architecture, packageArch)
      && (architecture, packageArch) !in {("amd64", "aarch64"), ("arm64", "amd64")}
  {
    hide ValidDevelopmentComponents, ValidPackageBinding, InTrain;
  }

  /** One Development pair, beside nothing but a retained Stable and a retained Testing, and one default among them. */
  lemma DevelopmentPairExactly(p: Payload, t: Platform)
    requires t == AMD64 || t == ARM64
    ensures ValidDevelopmentPair(p, t.architecture, t.packageArch) <==>
      && {"devel"} <= p.channels.Keys <= {"devel", "stable", "testing"}
      && ValidDevelopmentChannel(p.channels["devel"], t.architecture, t.packageArch)
      && ("stable" in p.channels ==>
            ValidRetainedStable(p.channels["stable"], t.architecture, t.packageArch, t.abi, t.altABI)
            && p.channels["stable"].isDefault != p.channels["devel"].isDefault)
      && ("stable" !in p.channels ==> p.channels["devel"].isDefault)
      && ("testing" in p.channels ==>
            ValidRetainedTesting(p.channels["testing"], t.architecture, t.packageArch, t.abi, t.altABI))
  {
    hide ValidDevelopmentChannel, ValidRetainedStable, ValidRetainedTesting;
    assert ExpectedABI(t.architecture) == t.abi && ExpectedAltABI(t.architecture) == t.altABI;
    KnownChannelsExactly(p.channels);
    hide ExpectedABI, ExpectedAltABI;
  }

  lemma KnownChannelsExactly(channels: map<string, Channel>)
    ensures {"devel"} <= channels.Keys <= {"devel", "stable", "testing"} <==>
      && "devel" in channels
      && |channels| == 1 + (if "stable" in channels then 1 else 0) + (if "testing" in channels then 1 else 0)
  {
    var named := {"devel"} + (if "stable" in channels then {"stable"} else {})
                           + (if "testing" in channels then {"testing"} else {});
    assert |channels.Keys| == |channels|;
    if "devel" in channels {
      assert named <= channels.Keys;
      if |channels| == |named| {
        SubsetOfSameSize(named, channels.Keys);
      }
      if channels.Keys <= {"devel", "stable", "testing"} {
        assert channels.Keys == named;
      }
    }
  }

  // ---------------------------------------------------------------- what a replacement keeps

  /** Both components are there, and the release is the same. */
  predicate SameRelease(was: Channel, now: Channel) {
    was.system.Some? && was.packages.Some? && ReleaseOf(now) == ReleaseOf(was)
  }

  /** A replacement keeps Stable or advances it, and keeps Testing as it is published. */
  lemma KeepRetainedExactly(before: Payload, next: Payload)
    ensures KeepRetained(before, next) <==>
      && ("stable" in before.channels ==>
            "stable" in next.channels &&
            var was, now := before.channels["stable"], next.channels["stable"];
            SameRelease(was, now) || (was.version != now.version && StableAdvances(was.version, now.version)))
      && ("testing" in before.channels ==>
            "testing" in next.channels &&
            var was, now := before.channels["testing"], next.channels["testing"];
            SameRelease(was, now) && (was.description, was.isDefault) == (now.description, now.isDefault))
  {
    hide StableAdvances;
  }

  /** The merge takes Stable and Testing from the existing manifest, and everything else from the new one. */
  lemma PreservedExactly(next: Payload, before: Payload, name: string)
    ensures var merged, retained := Preserved(next, before), IsRetained(name) && name in before.channels;
      && merged.schema == next.schema
      && (name in merged.channels <==> retained || name in next.channels)
      && (retained ==> merged.channels[name] == before.channels[name])
      && (!retained && name in next.channels ==>
            merged.channels[name] == if name == "devel" && "stable" in before.channels
                                     then next.channels[name].(isDefault := !before.channels["stable"].isDefault)
                                     else next.channels[name])
  {
  }

  // ---------------------------------------------------------------- commands that fit together

  lemma PairIsOfTarget(system: UpdateOptions, packages: UpdateOptions, t: Platform)
    requires BuildPair(system, packages).Some? && Announces(system, t) && Announces(packages, t)
    requires t == AMD64 || t == ARM64
    ensures var pair := BuildPair(system, packages).value;
      && (pair.abi, pair.altABI) == (t.abi, t.altABI)
      && pair.architecture in {"", t.architecture} && pair.packageArch in {"", t.packageArch}
  {
    hide Announces, IsFingerprint, Publishable, IsAmd64ABI;
    AnnouncesFields(system, t);
    AnnouncesFields(packages, t);
    MappingExactly(system);
    MappingExactly(packages);
    hide IsFor, Qualify;
    var first := Updated(Payload(Unset, map[]), system).value;
    assert Devel(first) == Replaced(ZERO_CHANNEL, Qualify(system));
    var second := Verified(first, System, system.fingerprint).value;
    var third := Updated(second, packages).value;
    assert Devel(third) == Replaced(Devel(second), Qualify(packages));
  }

  /** What a seal newly publishes is a Stable that every later Development publication may carry along. */
  lemma SealedStableCanBeCarried(p: Payload, system: UpdateOptions, packages: UpdateOptions, t: Platform)
    requires SealedStable(p, system, packages).Some? && SealedStable(p, system, packages).value != Reset(p)
    requires Announces(system, t) && Announces(packages, t) && (t == AMD64 || t == ARM64)
    ensures var sealed := SealedStable(p, system, packages).value;
      && "stable" in sealed.channels
      && ValidRetainedStable(sealed.channels["stable"], t.architecture, t.packageArch, t.abi, t.altABI)
  {
    hide ReleasePair, CanRelease, BuildPair, Announces, IsFingerprint, StableAdvances, SealedStable;
    hide ValidRetainedStable;
    SealExactly(p, system, packages);
    ReleasePairExactly(p, system, packages);
    PairIsBound(system, packages);
    PairIsOfTarget(system, packages, t);
    PairVersion(system, packages);
    var stable := SealedStable(p, system, packages).value.channels["stable"];
    RetainedStableExactly(stable, t);
  }

  lemma PairVersion(system: UpdateOptions, packages: UpdateOptions)
    requires BuildPair(system, packages).Some?
    ensures InTrain(packages.version, packages.train)
    ensures IsFingerprint(system.fingerprint) && IsFingerprint(packages.fingerprint)
    ensures Qualify(system).fingerprint == system.fingerprint && Qualify(packages).fingerprint == packages.fingerprint
  {
    hide IsFingerprint, IsAmd64ABI, IsTrain, InTrain;
  }
}

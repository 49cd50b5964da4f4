/**
The signed channel manifest: what one publication command does to the payload.
Each command is first a function on payload values; class Document below performs
it in place and is proved against that function.
*/
module Manifest {
  import opened Hex
  import opened Wrappers
  import opened Versions

  datatype Schema = Unset | V1 | V2 | V3

  datatype Component = Component(
    fingerprint: string,
    systemFingerprint: string,
    pin: string,
    builtAgainst: string,
    osVersion: nat,
    url: string,
    generation: nat,
    publishedAt: nat,  // 0 is the zero time
    verified: bool)

  datatype Channel = Channel(
    name: string,
    description: string,
    version: string,
    train: string,
    abi: string,
    altABI: string,
    architecture: string,
    packageArch: string,
    isDefault: bool,
    system: Option<Component>,
    packages: Option<Component>)

  const ZERO_CHANNEL := Channel("", "", "", "", "", "", "", "", false, None, None)

  datatype Payload = Payload(schema: Schema, channels: map<string, Channel>)

  datatype Kind = System | Packages | Unknown

  datatype UpdateOptions = UpdateOptions(
    channel: string,
    kind: Kind,
    fingerprint: string,
    systemFingerprint: string,
    builtAgainst: string,
    pin: string,
    url: string,
    generation: nat,
    version: string,
    train: string,
    abi: string,
    altABI: string,
    architecture: string,
    packageArch: string,
    declareArchitecture: bool,
    osVersion: nat,
    publishedAt: nat)

  // ---------------------------------------------------------------- text checks

  predicate IsFingerprint(s: string) {
    IsSha256(s)
  }

  predicate IsTrain(s: string) {
    var i := BeforeDot(s);
    i < |s| && IsDigits(s[..i]) && IsDigits(s[i + 1..])
  }

  /** The version is a release version of the train. */
  predicate InTrain(version: string, train: string) {
    Match(version).Some? && train + "." <= version
  }

  predicate IsAmd64ABI(s: string) {
    |s| > 14 && s[..8] == "FreeBSD:" && s[|s| - 6..] == ":amd64" && IsDigits(s[8..|s| - 6])
  }

  // ---------------------------------------------------------------- identities and bindings

  /** The fields that make two component records the same publication. */
  datatype Identity = Identity(
    fingerprint: string,
    systemFingerprint: string,
    pin: string,
    builtAgainst: string,
    osVersion: nat,
    url: string,
    generation: nat)

  function IdentityOf(c: Component): Identity {
    Identity(c.fingerprint, c.systemFingerprint, c.pin, c.builtAgainst, c.osVersion, c.url, c.generation)
  }

  predicate SameComponent(left: Option<Component>, right: Option<Component>) {
    left.Some? && right.Some? && IdentityOf(left.value) == IdentityOf(right.value)
  }

  predicate ValidPackageBinding(channel: Channel, packages: Option<Component>) {
    && packages.Some?
    && IsFingerprint(packages.value.systemFingerprint)
    && IsFingerprint(packages.value.builtAgainst)
    && IsFingerprint(packages.value.pin)
    && channel.system.Some?
    && channel.system.value.fingerprint == packages.value.systemFingerprint
    && channel.system.value.pin == packages.value.pin
  }

  /** The newest generation among a channel's components. */
  function PairGeneration(channel: Channel): (g: nat)
    ensures channel.system.Some? ==> channel.system.value.generation <= g
    ensures channel.packages.Some? ==> channel.packages.value.generation <= g
  {
    var s := if channel.system.Some? then channel.system.value.generation else 0;
    if channel.packages.Some? && channel.packages.value.generation > s then channel.packages.value.generation else s
  }

  // ---------------------------------------------------------------- Update

  function Qualify(o: UpdateOptions): UpdateOptions {
    if o.architecture == "" && o.packageArch == "" && IsAmd64ABI(o.abi)
    then o.(architecture := "amd64", packageArch := "amd64") else o
  }

  predicate ValidMapping(o: UpdateOptions) {
    || (o.architecture == "amd64" && o.packageArch == "amd64"
        && o.abi == "FreeBSD:16:amd64" && o.altABI == "freebsd:16:x86:64")
    || (o.architecture == "arm64" && o.packageArch == "aarch64"
        && o.abi == "FreeBSD:16:aarch64" && o.altABI == "freebsd:16:aarch64:64")
  }

  function ArtifactURL(kind: Kind, fingerprint: string, train: string, packageArch: string): string {
    if kind.Packages?
    then "https://pkg.freesense.org/v1/artifacts/packages/" + train + "/" + fingerprint + "/" + packageArch
    else "https://pkg.freesense.org/v1/artifacts/system/" + fingerprint + "/" + packageArch
  }

  /** The checks on the options alone; the valid mappings fix the ABI major at 16. */
  predicate Publishable(o: UpdateOptions) {
    && o.channel == "devel"
    && !o.kind.Unknown?
    && IsFingerprint(o.fingerprint) && o.generation != 0 && IsFingerprint(o.pin)
    && (o.kind.Packages? ==>
          IsFingerprint(o.systemFingerprint) && IsFingerprint(o.builtAgainst) && o.osVersion == 0)
    && (o.kind.System? ==>
          o.systemFingerprint == "" && o.builtAgainst == "" && 1_600_000 <= o.osVersion < 1_700_000)
    && ValidMapping(o)
    && IsTrain(o.train)
    && InTrain(o.version, o.train)
    && o.url == ArtifactURL(o.kind, o.fingerprint, o.train, o.packageArch)
    && o.publishedAt != 0
  }

  function ComponentOf(channel: Channel, kind: Kind): Option<Component> {
    match kind
    case System => channel.system
    case Packages => channel.packages
    case Unknown => None
  }

  predicate MetadataMatches(channel: Channel, o: UpdateOptions) {
    && channel.name == "devel" && channel.description == "Development version"
    && channel.version == o.version && channel.train == o.train
    && channel.abi == o.abi && channel.altABI == o.altABI
    && (channel.architecture == "" || channel.architecture == o.architecture)
    && (channel.packageArch == "" || channel.packageArch == o.packageArch)
    && channel.isDefault
  }

  function Publication(o: UpdateOptions): Component {
    Component(o.fingerprint, o.systemFingerprint, o.pin,
              if o.kind.Packages? then o.builtAgainst else "",
              o.osVersion, o.url, o.generation, o.publishedAt, false)
  }

  /** The same publication again: its soak and verification must not restart. */
  predicate IsRetry(channel: Channel, o: UpdateOptions) {
    MetadataMatches(channel, o) && SameComponent(ComponentOf(channel, o.kind), Some(Publication(o)))
  }

  /** Packages survive a System of the same pin; only the System they are selected with changes. */
  function RetainedPackages(channel: Channel, system: Component): Option<Component> {
    if channel.system.Some? && channel.packages.Some? && channel.packages.value.pin == system.pin
    then Some(channel.packages.value.(systemFingerprint := system.fingerprint))
    else None
  }

  function Replaced(channel: Channel, o: UpdateOptions): Channel {
    var declared := o.declareArchitecture || o.architecture != "amd64" || o.packageArch != "amd64";
    var base := channel.(
      name := "devel", description := "Development version", version := o.version, train := o.train,
      abi := o.abi, altABI := o.altABI, isDefault := true,
      architecture := if declared then o.architecture else channel.architecture,
      packageArch := if declared then o.packageArch else channel.packageArch);
    if o.kind.System?
    then base.(system := Some(Publication(o)), packages := RetainedPackages(channel, Publication(o)))
    else base.(packages := Some(Publication(o)))
  }

  function OnlyDefault(channels: map<string, Channel>, name: string): map<string, Channel> {
    map n | n in channels :: if n != name then channels[n].(isDefault := false) else channels[n]
  }

  function Devel(p: Payload): Channel {
    if "devel" in p.channels then p.channels["devel"] else ZERO_CHANNEL
  }

  function Updated(p: Payload, options: UpdateOptions): Option<Payload> {
    var o := Qualify(options);
    var channel := Devel(p);
    if !Publishable(o) then None
    else if o.kind.Packages?
         && !(channel.system.Some? && channel.system.value.fingerprint == o.systemFingerprint
              && channel.system.value.pin == o.pin) then None
    else if IsRetry(channel, o) then Some(p)
    else Some(Payload(V3, OnlyDefault(p.channels["devel" := Replaced(channel, o)], "devel")))
  }

  // ---------------------------------------------------------------- Verify

  function Verified(p: Payload, kind: Kind, fingerprint: string): Option<Payload> {
    if "devel" !in p.channels then None else
    var channel := p.channels["devel"];
    var target := ComponentOf(channel, kind);
    if target.None? || target.value.fingerprint != fingerprint then None
    else if kind.Packages? && !ValidPackageBinding(channel, target) then None
    else
      var verified := Some(target.value.(verified := true));
      Some(p.(channels := p.channels["devel" :=
        if kind.System? then channel.(system := verified) else channel.(packages := verified)]))
  }

  // ---------------------------------------------------------------- releasePair

  predicate Migrated(channels: map<string, Channel>) {
    forall n :: n in channels ==>
      && (channels[n].system.Some? ==> IsFingerprint(channels[n].system.value.pin))
      && (channels[n].packages.Some? ==>
            IsFingerprint(channels[n].packages.value.pin) && IsFingerprint(channels[n].packages.value.builtAgainst))
  }

  predicate ReleaseOptions(system: UpdateOptions, packages: UpdateOptions) {
    && system.kind.System? && packages.kind.Packages?
    && system.train != "" && system.train == packages.train
    && system.version == packages.version
    && Match(system.version).Some?
    && Match(system.version).value.major + "." + Match(system.version).value.minor == system.train
    && system.pin == packages.pin
    && packages.systemFingerprint == system.fingerprint
  }

  /** An older payload is replaced rather than mixed into the current schema. */
  function Reset(p: Payload): Payload {
    if p.schema.V1? || p.schema.V2? then Payload(V3, map[]) else p
  }

  /** The pair built and verified on an empty payload, still named devel. */
  function BuildPair(system: UpdateOptions, packages: UpdateOptions): Option<Channel> {
    var first := Updated(Payload(Unset, map[]), system);
    if first.None? then None else
    var second := Verified(first.value, System, system.fingerprint);
    if second.None? then None else
    var third := Updated(second.value, packages);
    if third.None? then None else
    var fourth := Verified(third.value, Packages, packages.fingerprint);
    if fourth.None? then None else Some(Devel(fourth.value))
  }

  function ReleasePair(p: Payload, system: UpdateOptions, packages: UpdateOptions): Option<(Payload, Channel)> {
    if !ReleaseOptions(system, packages) || !Migrated(Reset(p).channels) then None else
    var pair := BuildPair(system, packages);
    if pair.None? then None else Some((Reset(p), pair.value))
  }

  // ---------------------------------------------------------------- SealStable, PublishTesting

  predicate HasDefault(channels: map<string, Channel>) {
    exists n :: n in channels && channels[n].isDefault
  }

  /** The pair is already published under this label: same metadata, same identity, verified. */
  predicate AlreadyPublished(existing: Channel, desired: Channel) {
    && existing.version == desired.version
    && existing.description == desired.description
    && existing.train == desired.train && existing.abi == desired.abi && existing.altABI == desired.altABI
    && existing.isDefault == desired.isDefault
    && SameComponent(existing.system, desired.system)
    && SameComponent(existing.packages, desired.packages)
    && existing.system.value.verified && existing.packages.value.verified
  }

  function StableLabel(pair: Channel): Channel {
    pair.(name := "stable", description := "FreeSense " + pair.train + " Stable")
  }

  /** Installs a checked pair as the Stable channel; a published version is never rewritten. */
  function PlacedStable(base: Payload, pair: Channel): Option<Payload> {
    var desired := StableLabel(pair);
    var placed := Payload(V3, base.channels["stable" := desired.(isDefault := !HasDefault(base.channels))]);
    if "stable" !in base.channels then Some(placed) else
    var existing := base.channels["stable"];
    if existing.version == desired.version then
      if existing.name == "stable"
         && AlreadyPublished(existing, desired.(isDefault := existing.isDefault, description := existing.description))
      then Some(base) else None
    else if StableAdvances(existing.version, desired.version) then Some(placed)
    else None
  }

  function SealedStable(p: Payload, system: UpdateOptions, packages: UpdateOptions): Option<Payload> {
    var release := ReleasePair(p, system, packages);
    if release.None? then None else PlacedStable(release.value.0, release.value.1)
  }

  function TestingLabel(pair: Channel): Channel {
    pair.(name := "testing", description := "FreeSense " + pair.train + " Testing", isDefault := false)
  }

  predicate HasDefaultBesideTesting(channels: map<string, Channel>) {
    exists n :: n in channels && n != "testing" && channels[n].isDefault
  }

  /** Installs a checked pair as the rolling Testing channel; it never moves backwards. */
  function PlacedTesting(base: Payload, pair: Channel): Option<Payload> {
    var desired := TestingLabel(pair);
    var placed := if HasDefaultBesideTesting(base.channels)
                  then Some(Payload(V3, base.channels["testing" := desired])) else None;
    if "testing" !in base.channels then placed else
    var existing := base.channels["testing"];
    if existing.version != desired.version then
      if StableAdvances(existing.version, desired.version) then placed else None
    else if PairGeneration(desired) < PairGeneration(existing) then None
    else if AlreadyPublished(existing, desired) then Some(base)
    else placed
  }

  function PublishedTesting(p: Payload, system: UpdateOptions, packages: UpdateOptions): Option<Payload> {
    var release := ReleasePair(p, system, packages);
    if release.None? then None else PlacedTesting(release.value.0, release.value.1)
  }

  // ---------------------------------------------------------------- signed replacement documents

  predicate ValidRetainedStable(channel: Channel, architecture: string, packageArch: string, abi: string,
                                altABI: string) {
    && channel.name == "stable"
    && InTrain(channel.version, channel.train)
    && channel.abi == abi && channel.altABI == altABI
    && (channel.architecture == "" || channel.architecture == architecture)
    && (channel.packageArch == "" || channel.packageArch == packageArch)
    && channel.system.Some? && channel.packages.Some?
    && channel.system.value.verified && channel.packages.value.verified
    && IsFingerprint(channel.system.value.fingerprint) && IsFingerprint(channel.packages.value.fingerprint)
    && channel.packages.value.systemFingerprint == channel.system.value.fingerprint
    && channel.system.value.pin == channel.packages.value.pin
    && ValidPackageBinding(channel, channel.packages)
  }

  predicate ValidRetainedTesting(channel: Channel, architecture: string, packageArch: string, abi: string,
                                 altABI: string) {
    && channel.name == "testing" && !channel.isDefault
    && channel.description == "FreeSense " + channel.train + " Testing"
    && ValidRetainedStable(channel.(name := "stable"), architecture, packageArch, abi, altABI)
  }

  function ExpectedABI(architecture: string): string {
    if architecture == "amd64" then "FreeBSD:16:amd64"
    else if architecture == "arm64" then "FreeBSD:16:aarch64" else ""
  }

  function ExpectedAltABI(architecture: string): string {
    if architecture == "amd64" then "freebsd:16:x86:64"
    else if architecture == "arm64" then "freebsd:16:aarch64:64" else ""
  }

  predicate ValidDevelopmentChannel(channel: Channel, architecture: string, packageArch: string) {
    && channel.name == "devel" && channel.description == "Development version"
    && channel.architecture == architecture && channel.packageArch == packageArch
    && (channel.architecture == "amd64" ==> channel.packageArch == "amd64")
    && (channel.architecture == "arm64" ==> channel.packageArch == "aarch64")
    && InTrain(channel.version, channel.train)
    && channel.abi == ExpectedABI(architecture) && channel.altABI == ExpectedAltABI(architecture)
    && channel.system.Some? && channel.packages.Some?
    && ValidDevelopmentComponents(channel, channel.system.value, channel.packages.value, packageArch)
    && ValidPackageBinding(channel, channel.packages)
  }

  predicate ValidDevelopmentComponents(channel: Channel, system: Component, packages: Component, packageArch: string) {
    && system.verified && packages.verified
    && IsFingerprint(system.fingerprint) && IsFingerprint(packages.fingerprint)
    && IsFingerprint(system.pin) && IsFingerprint(packages.pin)
    && system.systemFingerprint == "" && system.builtAgainst == ""
    && packages.systemFingerprint == system.fingerprint
    && IsFingerprint(packages.builtAgainst)
    && system.url == ArtifactURL(System, system.fingerprint, channel.train, packageArch)
    && packages.url == ArtifactURL(Packages, packages.fingerprint, channel.train, packageArch)
    && system.generation != 0 && packages.generation != 0 && system.osVersion != 0
    && system.publishedAt != 0 && system.publishedAt == packages.publishedAt
    && system.pin == packages.pin
  }

  /** A complete manifest a Development publication may install. */
  predicate ValidDevelopmentPair(p: Payload, architecture: string, packageArch: string) {
    var abi, altABI := ExpectedABI(architecture), ExpectedAltABI(architecture);
    && ("stable" in p.channels ==>
          ValidRetainedStable(p.channels["stable"], architecture, packageArch, abi, altABI))
    && ("testing" in p.channels ==>
          ValidRetainedTesting(p.channels["testing"], architecture, packageArch, abi, altABI))
    && "devel" in p.channels
    && |p.channels| == 1 + (if "stable" in p.channels then 1 else 0) + (if "testing" in p.channels then 1 else 0)
    && p.channels["devel"].isDefault == ("stable" in p.channels ==> !p.channels["stable"].isDefault)
    && ValidDevelopmentChannel(p.channels["devel"], architecture, packageArch)
  }

  predicate KeepStable(before: Payload, next: Payload) {
    "stable" in before.channels ==>
      && "stable" in next.channels
      && var was, now := before.channels["stable"], next.channels["stable"];
      if was.version == now.version
      then SameComponent(was.system, now.system) && SameComponent(was.packages, now.packages)
      else StableAdvances(was.version, now.version)
  }

  predicate KeepRetained(before: Payload, next: Payload) {
    && KeepStable(before, next)
    && ("testing" in before.channels ==>
      && "testing" in next.channels
      && var was, now := before.channels["testing"], next.channels["testing"];
      && was.version == now.version && was.description == now.description
      && was.isDefault == now.isDefault
      && SameComponent(was.system, now.system) && SameComponent(was.packages, now.packages))
  }

  /** Carries Stable and Testing of an existing manifest into a freshly signed pair. */
  function Preserved(next: Payload, before: Payload): Payload {
    var withTesting := if "testing" in before.channels
                       then next.channels["testing" := before.channels["testing"]] else next.channels;
    var channels :=
      if "stable" !in before.channels then withTesting else
      var withStable := withTesting["stable" := before.channels["stable"]];
      if "devel" in withStable
      then withStable["devel" := withStable["devel"].(isDefault := !before.channels["stable"].isDefault)]
      else withStable;
    next.(channels := channels)
  }

  // ---------------------------------------------------------------- what every writer keeps

  ghost predicate AtMostOneDefault(p: Payload) {
    forall a, b :: a in p.channels && b in p.channels && p.channels[a].isDefault && p.channels[b].isDefault ==> a == b
  }

  predicate Bound(channel: Channel) {
    channel.packages.Some? ==>
      && channel.system.Some?
      && channel.packages.value.systemFingerprint == channel.system.value.fingerprint
      && channel.packages.value.pin == channel.system.value.pin
  }

  ghost predicate Consistent(p: Payload) {
    && AtMostOneDefault(p)
    && ("testing" in p.channels ==> !p.channels["testing"].isDefault)
    && forall n :: n in p.channels ==> Bound(p.channels[n])
  }

  function IdentityOption(c: Option<Component>): Option<Identity> {
    if c.Some? then Some(IdentityOf(c.value)) else None
  }

  /** One published release: its exact version text and the identity of both components. */
  datatype Release = Release(version: string, system: Option<Identity>, packages: Option<Identity>)

  function ReleaseOf(channel: Channel): Release {
    Release(channel.version, IdentityOption(channel.system), IdentityOption(channel.packages))
  }

  /** Stable stays, and either keeps its exact release or moves to a strictly newer version. */
  predicate StableForward(before: Payload, next: Payload) {
    "stable" in before.channels ==>
      && "stable" in next.channels
      && (ReleaseOf(next.channels["stable"]) == ReleaseOf(before.channels["stable"])
          || StableAdvances(before.channels["stable"].version, next.channels["stable"].version))
  }

  /** Testing stays, and (version, newest component generation) does not fall. */
  predicate TestingForward(before: Payload, next: Payload) {
    "testing" in before.channels ==>
      && "testing" in next.channels
      && var was, now := before.channels["testing"], next.channels["testing"];
      || (was.version == now.version && PairGeneration(was) <= PairGeneration(now))
      || StableAdvances(was.version, now.version)
  }

  predicate Forward(before: Payload, next: Payload) {
    StableForward(before, next) && TestingForward(before, next)
  }

  lemma ForwardIsTransitive(a: Payload, b: Payload, c: Payload)
    requires Forward(a, b) && Forward(b, c)
    ensures Forward(a, c)
  {
    if "stable" in a.channels
       && StableAdvances(a.channels["stable"].version, b.channels["stable"].version)
       && StableAdvances(b.channels["stable"].version, c.channels["stable"].version) {
      AdvancesIsTransitive(
        a.channels["stable"].version, b.channels["stable"].version, c.channels["stable"].version);
    }
    if "testing" in a.channels
       && StableAdvances(a.channels["testing"].version, b.channels["testing"].version)
       && StableAdvances(b.channels["testing"].version, c.channels["testing"].version) {
      AdvancesIsTransitive(
        a.channels["testing"].version, b.channels["testing"].version, c.channels["testing"].version);
    }
  }
}

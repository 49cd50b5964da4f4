/**
The manifest commands as they run: on a payload whose channel map is written in place.
Every method is proved against the function of Manifest that describes its effect.
*/
module ManifestDocument {
  import opened Wrappers
  import opened Versions
  import opened Manifest

  class Document {
    var schema: Schema
    var channels: map<string, Channel>

    ghost function Contents(): Payload
      reads this
    {
      Payload(schema, channels)
    }

    constructor (payload: Payload)
      ensures Contents() == payload
    {
      schema, channels := payload.schema, payload.channels;
    }

    /** Publishes one component to devel; a refused call changes nothing. */
    method Update(options: UpdateOptions) returns (ok: bool)
      modifies this
      ensures ok == Updated(old(Contents()), options).Some?
      ensures Contents() == if ok then Updated(old(Contents()), options).value else old(Contents())
    {
      hide IsAmd64ABI, IsFingerprint, InTrain, IsTrain, ArtifactURL;
      var o := Qualify(options);
      if !Publishable(o) {
        return false;
      }
      var channel := if "devel" in channels then channels["devel"] else ZERO_CHANNEL;
      if o.kind.Packages? {
        if channel.system.None? || channel.system.value.fingerprint != o.systemFingerprint
           || channel.system.value.pin != o.pin {
          return false;
        }
      }
      var component := Publication(o);
      if MetadataMatches(channel, o) && SameComponent(ComponentOf(channel, o.kind), Some(component)) {
        return true;
      }
      channel := channel.(name := "devel", description := "Development version", version := o.version,
                          train := o.train, abi := o.abi, altABI := o.altABI);
      if o.declareArchitecture || o.architecture != "amd64" || o.packageArch != "amd64" {
        channel := channel.(architecture := o.architecture, packageArch := o.packageArch);
      }
      channel := channel.(isDefault := true);
      if o.kind.System? {
        var previousSystem, previousPackages := channel.system, channel.packages;
        channel := channel.(system := Some(component));
        if previousSystem.Some? && previousPackages.Some? && previousPackages.value.pin == component.pin {
          var copy := previousPackages.value.(systemFingerprint := component.fingerprint);
          channel := channel.(packages := Some(copy));
        } else {
          channel := channel.(packages := None);
        }
      } else {
        channel := channel.(packages := Some(component));
      }
      assert channel == Replaced(Devel(old(Contents())), o);
      schema := V3;
      channels := channels["devel" := channel];
      KeepOneDefault("devel");
      ok := true;
    }

    /** Clears the default flag of every channel but the named one. */
    method KeepOneDefault(name: string)
      modifies `channels
      ensures channels == OnlyDefault(old(channels), name)
    {
      var todo := channels.Keys;
      ghost var before := channels;
      while todo != {}
        invariant todo <= before.Keys
        invariant channels == map n | n in before ::
                    if n != name && n !in todo then before[n].(isDefault := false) else before[n]
        decreases todo
      {
        var other :| other in todo;
        todo := todo - {other};
        if other != name && channels[other].isDefault {
          channels := channels[other := channels[other].(isDefault := false)];
        }
      }
    }

    /** Marks the current component verified, if it is still the one that was checked. */
    method Verify(kind: Kind, fingerprint: string) returns (ok: bool)
      modifies this
      ensures ok == Verified(old(Contents()), kind, fingerprint).Some?
      ensures Contents() == if ok then Verified(old(Contents()), kind, fingerprint).value else old(Contents())
    {
      if "devel" !in channels {
        return false;
      }
      var channel := channels["devel"];
      var target := ComponentOf(channel, kind);
      if target.None? || target.value.fingerprint != fingerprint {
        return false;
      }
      if kind.Packages? && !ValidPackageBinding(channel, target) {
        return false;
      }
      var verified := Some(target.value.(verified := true));
      channel := if kind.System? then channel.(system := verified) else channel.(packages := verified);
      channels := channels["devel" := channel];
      ok := true;
    }

    /** Whether some channel other than the excluded name is the default. */
    method FindDefault(excluded: string) returns (found: bool)
      ensures found <==> exists n :: n in channels && n != excluded && channels[n].isDefault
    {
      var todo := channels.Keys;
      found := false;
      while todo != {}
        invariant todo <= channels.Keys
        invariant found <==> exists n :: n in channels.Keys - todo && n != excluded && channels[n].isDefault
        decreases todo
      {
        var name :| name in todo;
        todo := todo - {name};
        if name != excluded && channels[name].isDefault {
          found := true;
        }
      }
    }

    /** Checks a System/Packages pair and rebuilds it on an empty payload; resets a legacy payload. */
    method ReleasePair(system: UpdateOptions, packages: UpdateOptions) returns (desired: Option<Channel>)
      modifies this
      ensures var release := Manifest.ReleasePair(old(Contents()), system, packages);
        && desired.Some? == release.Some?
        && (release.Some? ==> Contents() == release.value.0 && desired.value == release.value.1)
        && (release.None? ==> Contents() == old(Contents()))
        && (release.Some? ==> Contents() == Reset(old(Contents())))
    {
      hide Updated, Verified, IsFingerprint;
      if !ReleaseOptions(system, packages) {
        return None;
      }
      var legacy := schema.V1? || schema.V2?;
      if !legacy {
        var migrated := CheckMigrated();
        if !migrated {
          return None;
        }
      }
      assert Migrated(Reset(Contents()).channels);
      var working := new Document(Payload(Unset, map[]));
      var ok := working.Update(system);
      if !ok {
        return None;
      }
      ok := working.Verify(System, system.fingerprint);
      if !ok {
        return None;
      }
      ok := working.Update(packages);
      if !ok {
        return None;
      }
      ok := working.Verify(Packages, packages.fingerprint);
      if !ok {
        return None;
      }
      if legacy {
        schema, channels := V3, map[];
      }
      desired := Some(if "devel" in working.channels then working.channels["devel"] else ZERO_CHANNEL);
    }

    method CheckMigrated() returns (ok: bool)
      ensures ok == Migrated(channels)
    {
      hide IsFingerprint;
      var todo := channels.Keys;
      while todo != {}
        invariant todo <= channels.Keys
        invariant Migrated(map n | n in channels.Keys - todo :: channels[n])
        decreases todo
      {
        var name :| name in todo;
        todo := todo - {name};
        var channel := channels[name];
        if channel.system.Some? && !IsFingerprint(channel.system.value.pin) {
          return false;
        }
        if channel.packages.Some?
           && (!IsFingerprint(channel.packages.value.pin) || !IsFingerprint(channel.packages.value.builtAgainst)) {
          return false;
        }
      }
      assert channels == map n | n in channels.Keys - todo :: channels[n];
      ok := true;
    }

    /** Publishes an immutable Stable release, forward only. */
    method SealStable(system: UpdateOptions, packages: UpdateOptions) returns (ok: bool)
      modifies this
      ensures ok == SealedStable(old(Contents()), system, packages).Some?
      ensures ok ==> Contents() == SealedStable(old(Contents()), system, packages).value
      ensures !ok ==> Contents() == old(Contents()) || Contents() == Reset(old(Contents()))
    {
      hide Manifest.ReleasePair, StableAdvances;
      var pair := ReleasePair(system, packages);
      if pair.None? {
        return false;
      }
      ghost var base := Contents();
      var desired := StableLabel(pair.value);
      if "stable" in channels {
        var existing := channels["stable"];
        desired := desired.(isDefault := existing.isDefault);
        if existing.version == desired.version {
          desired := desired.(description := existing.description);
        }
        if existing.name == desired.name && AlreadyPublished(existing, desired) {
          return true;
        }
        if existing.version == desired.version {
          return false;
        }
        if !StableAdvances(existing.version, desired.version) {
          return false;
        }
      }
      desired := desired.(isDefault := true);
      var hasDefault := HasAnyDefault();
      if hasDefault {
        desired := desired.(isDefault := false);
      }
      schema := V3;
      channels := channels["stable" := desired];
      assert Some(Contents()) == PlacedStable(base, pair.value);
      ok := true;
    }

    method HasAnyDefault() returns (found: bool)
      ensures found == HasDefault(channels)
    {
      var todo := channels.Keys;
      while todo != {}
        invariant todo <= channels.Keys
        invariant forall n :: n in channels.Keys - todo ==> !channels[n].isDefault
        decreases todo
      {
        var name :| name in todo;
        todo := todo - {name};
        if channels[name].isDefault {
          return true;
        }
      }
      found := false;
    }

    /** Replaces the rolling Testing channel, never by an older version or generation. */
    method PublishTesting(system: UpdateOptions, packages: UpdateOptions) returns (ok: bool)
      modifies this
      ensures ok == PublishedTesting(old(Contents()), system, packages).Some?
      ensures ok ==> Contents() == PublishedTesting(old(Contents()), system, packages).value
      ensures !ok ==> Contents() == old(Contents()) || Contents() == Reset(old(Contents()))
    {
      hide Manifest.ReleasePair, StableAdvances;
      var pair := ReleasePair(system, packages);
      if pair.None? {
        return false;
      }
      ghost var base := Contents();
      var desired := TestingLabel(pair.value);
      if "testing" in channels {
        var existing := channels["testing"];
        if existing.version != desired.version && !StableAdvances(existing.version, desired.version) {
          return false;
        }
        if existing.version == desired.version && PairGeneration(desired) < PairGeneration(existing) {
          return false;
        }
        if AlreadyPublished(existing, desired) {
          return true;
        }
      }
      var hasDefault := FindDefault("testing");
      if !hasDefault {
        return false;
      }
      schema := V3;
      channels := channels["testing" := desired];
      assert Some(Contents()) == PlacedTesting(base, pair.value);
      ok := true;
    }
  }
}

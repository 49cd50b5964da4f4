/** What the publication commands accept, in terms of the documents they are given and those they find. */
module PublicationChecks {
  import opened Wrappers
  import opened CommitLoop
  import opened Manifest
  import opened ManifestLaws
  import opened ManifestChecks
  import opened ObjectStore
  import opened Publication
  import opened PublicationCommands

  // ---------------------------------------------------------------- completions

  /** One architecture's pair, its documents, and exactly these verified artifacts. */
  predicate HasArtifacts(result: Artifacts, names: set<string>) {
    && IsFingerprint(result.system) && IsFingerprint(result.packages)
    && IsFingerprint(result.repositoryDocument) && IsFingerprint(result.releaseDocument)
    && result.artifacts.Keys == names && forall digest :: digest in result.artifacts.Values ==> IsFingerprint(digest)
  }

  /** A completion is of Development, of a pair and a pin, and has the three artifacts of both architectures. */
  lemma CompletionExactly(c: Completion)
    ensures c.Valid() <==>
      && c.channel == "devel" && c.generation > 0 && IsFingerprint(c.pairFingerprint) && IsFingerprint(c.pin)
      && c.architectures.Keys == {"amd64", "arm64"}
      && HasArtifacts(c.architectures["amd64"], {"installer", "cloud-ufs", "cloud-zfs"})
      && HasArtifacts(c.architectures["arm64"], {"installer", "arm64-rpi4b", "arm64-rpi5-d0"})
  {
    hide IsFingerprint, Completion.Covers, HasArtifacts;
    KeysOfTwo(c.architectures);
    CoversExactly(c, "amd64", "installer", "cloud-ufs", "cloud-zfs");
    CoversExactly(c, "arm64", "installer", "arm64-rpi4b", "arm64-rpi5-d0");
  }

  lemma KeysOfTwo(m: map<string, Artifacts>)
    ensures m.Keys == {"amd64", "arm64"} <==> |m| == 2 && "amd64" in m && "arm64" in m
  {
    assert |{"amd64", "arm64"}| == 2 && |m| == |m.Keys|;
    if |m| == 2 && "amd64" in m && "arm64" in m {
      SubsetOfSameSize({"amd64", "arm64"}, m.Keys);
    }
  }

  lemma CoversExactly(c: Completion, architecture: string, x: string, y: string, z: string)
    requires x != y && x != z && y != z
    ensures c.Covers(architecture, [x, y, z]) <==>
      architecture in c.architectures && HasArtifacts(c.architectures[architecture], {x, y, z})
  {
    hide IsFingerprint;
    if architecture !in c.architectures {
      return;
    }
    var artifacts := c.architectures[architecture].artifacts;
    assert |{x, y, z}| == 3 && |artifacts| == |artifacts.Keys|;
    assert [x, y, z][0] == x && [x, y, z][1] == y && [x, y, z][2] == z;
    if c.Covers(architecture, [x, y, z]) {
      SubsetOfSameSize({x, y, z}, artifacts.Keys);
      forall digest | digest in artifacts.Values ensures IsFingerprint(digest) {
        var name :| name in artifacts && artifacts[name] == digest;
      }
    }
    if HasArtifacts(c.architectures[architecture], {x, y, z}) {
      assert artifacts[x] in artifacts.Values && artifacts[y] in artifacts.Values && artifacts[z] in artifacts.Values;
    }
  }

  // ---------------------------------------------------------------- the pair of a commit

  /** The manifest is signed, of a known schema, and a Development pair of the architecture. */
  predicate IsPairDocument(repositories: Document, t: Platform) {
    && repositories.ManifestDoc? && repositories.payload.schema in {V1, V2, V3}
    && ValidDevelopmentPair(repositories.payload, t.architecture, t.packageArch)
  }

  /** A repository commit goes by the newest generation of the pair that its manifest publishes. */
  lemma RepositoriesPairExactly(repositories: Document, t: Platform, pair: Pair)
    requires t == AMD64 || t == ARM64
    ensures RepositoriesPair(repositories, t.architecture) == Some(pair) <==>
      && IsPairDocument(repositories, t)
      && var devel := repositories.payload.channels["devel"];
      IsAt(devel, pair.generation) && Publishes(devel, pair.system, pair.packages)
      && pair.description == devel.description
  {
    hide ValidDevelopmentPair;
    if ReadableManifest(repositories) && ValidDevelopmentPair(repositories.payload, t.architecture, t.packageArch) {
      PairHasBoth(repositories.payload, t);
    }
  }

  lemma PairHasBoth(p: Payload, t: Platform)
    requires ValidDevelopmentPair(p, t.architecture, t.packageArch)
    ensures "devel" in p.channels && p.channels["devel"].system.Some? && p.channels["devel"].packages.Some?
  {
  }

  lemma OtherArchitecturesAreRefused(repositories: Document, architecture: string)
    requires architecture != "amd64" && architecture != "arm64"
    ensures RepositoriesPair(repositories, architecture) == None
  {
  }

  /** A staged commit goes by its release document, which names the pair of its manifest and is never older. */
  lemma QualifiedPairExactly(repositories: Document, release: Document, t: Platform, pair: Pair)
    requires t == AMD64 || t == ARM64
    ensures QualifiedPair(repositories, release, t.architecture) == Some(pair) <==>
      && IsPairDocument(repositories, t)
      && release == ReleaseDoc(ReleaseDocument("devel", t.architecture, pair.generation, pair.system, pair.packages))
      && pair.generation > 0
      && var devel := repositories.payload.channels["devel"];
      NoneNewer(devel, pair.generation) && Publishes(devel, pair.system, pair.packages)
      && pair.description == devel.description
  {
    hide ValidDevelopmentPair;
    if ReadableManifest(repositories) && ValidDevelopmentPair(repositories.payload, t.architecture, t.packageArch) {
      PairHasBoth(repositories.payload, t);
    }
  }

  // ---------------------------------------------------------------- the channel command

  /** A mutation of what was read is written under the current schema, unless it is refused or changes nothing. */
  lemma ChannelDecidesExactly(p: Payload, request: Request)
    ensures var decision, mutated := DecideChannel(Some(ManifestDoc(p)), request), Mutate(p, request);
      && (decision.Refuse? <==> p.schema == Unset || mutated == None)
      && (decision.Keep? <==> p.schema != Unset && mutated == Some(p))
      && (decision.Write? ==>
            mutated.Some? && decision.document == ManifestDoc(Payload(V3, mutated.value.channels)))
  {
    hide Mutate;
  }

  /** On a new manifest the mutation of nothing is written, and anything that is no manifest is refused. */
  lemma NewChannelDecidesExactly(request: Request, other: Document)
    requires !other.ManifestDoc?
    ensures DecideChannel(Some(other), request).Refuse?
    ensures var mutated := Mutate(Payload(Unset, map[]), request);
      DecideChannel(None, request) ==
        if mutated == None then Refuse else Write(ManifestDoc(Payload(V3, mutated.value.channels)))
  {
    hide Mutate;
  }

  /** A verification that is not raced marks exactly the component that was checked. */
  lemma VerificationIsStored(p: Payload, kind: Kind, fingerprint: string, script: seq<Turn<Document>>)
    requires p.schema == V3 && Verified(p, kind, fingerprint).Some? && Verified(p, kind, fingerprint).value != p
    requires Unraced(script) && Next(script).others == []
    ensures var run := Commit(ChannelDecision(RequestVerify(kind, fingerprint)), Some(ManifestDoc(p)), script);
      run.ending.Committed? && run.value == Some(ManifestDoc(Verified(p, kind, fingerprint).value))
  {
    hide Loop, Verified;
    VerifyMarksOnly(p, kind, fingerprint);
    UnracedIsDecided(Plain(ChannelDecision(RequestVerify(kind, fingerprint))), (), Some(ManifestDoc(p)), script, 5);
  }
}

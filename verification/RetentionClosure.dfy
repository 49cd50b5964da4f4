/** Which artifacts and inputs retention protects, and what may become a deletion candidate. */
module RetentionClosure {
  import opened Wrappers
  import opened Manifest

  datatype Json =
    | Null
    | Flag(flag: bool)
    | Number(number: int)
    | Text(text: string)
    | List(items: seq<Json>)
    | Object(fields: map<string, Json>)

  function Field(value: Json, name: string): Json {
    if value.Object? && name in value.fields then value.fields[name] else Null
  }

  const INPUT_PREFIX := "inputs/sha256/"

  /** The content hash a string names: itself, or an inputs/sha256 reference. */
  function NamedHash(text: string): Option<string> {
    if IsFingerprint(text) then Some(text)
    else if INPUT_PREFIX <= text && IsFingerprint(text[|INPUT_PREFIX|..]) then Some(text[|INPUT_PREFIX|..])
    else None
  }

  /** The hash is named somewhere inside the document. */
  ghost predicate Names(value: Json, hash: string) {
    match value
    case Text(text) => NamedHash(text) == Some(hash)
    case List(items) => exists i :: 0 <= i < |items| && Names(items[i], hash)
    case Object(fields) => exists name :: name in fields && Names(fields[name], hash)
    case _ => false
  }

  method CollectHashes(value: Json, output: set<string>) returns (result: set<string>)
    ensures forall h :: h in result <==> h in output || Names(value, h)
  {
    hide IsFingerprint;
    result := output;
    match value {
      case Text(text) =>
        var named := NamedHash(text);
        if named.Some? {
          result := result + {named.value};
        }
      case Object(fields) =>
        var todo := fields.Keys;
        while todo != {}
          invariant todo <= fields.Keys
          invariant forall h :: h in result <==>
                      h in output || exists name :: name in fields.Keys - todo && Names(fields[name], h)
          decreases todo
        {
          var name :| name in todo;
          todo := todo - {name};
          result := CollectHashes(fields[name], result);
        }
      case List(items) =>
        for i := 0 to |items|
          invariant forall h :: h in result <==> h in output || exists j :: 0 <= j < i && Names(items[j], h)
        {
          result := CollectHashes(items[i], result);
        }
      case _ =>
    }
  }

  // ---------------------------------------------------------------- references

  datatype Kind = System | Packages | Iso | Cloud | Appliance | Mirror

  datatype Entry = Entry(prefix: string, kind: Kind, marker: Json)

  function SystemPrefix(fingerprint: string): string {
    "v1/artifacts/system/" + fingerprint
  }

  function PackagesPrefix(train: string, fingerprint: string): string {
    "v1/artifacts/packages/" + train + "/" + fingerprint
  }

  predicate NamesArtifact(value: Json) {
    value.Text? && IsFingerprint(value.text)
  }

  /** The artifacts a completion marker was built from. */
  function References(entry: Entry): seq<string> {
    var inputs := Field(entry.marker, "inputs");
    match entry.kind
    case Packages =>
      (if NamesArtifact(Field(inputs, "built_against_system")) then
         [SystemPrefix(Field(inputs, "built_against_system").text)] else [])
      + (if NamesArtifact(Field(inputs, "system")) then [SystemPrefix(Field(inputs, "system").text)] else [])
    case Iso => ImageReferences(entry.marker, inputs)
    case Cloud => ImageReferences(entry.marker, inputs)
    case Appliance => ImageReferences(entry.marker, inputs)
    case _ => []
  }

  function ImageReferences(marker: Json, inputs: Json): seq<string> {
    var system :=
      if marker.Object? && "system" in marker.fields then marker.fields["system"] else Field(inputs, "system");
    var packages, train := Field(inputs, "packages"), Field(inputs, "package_train");
    (if NamesArtifact(system) then [SystemPrefix(system.text)] else [])
    + (if NamesArtifact(packages) && train.Text? && train.text != "" then
         [PackagesPrefix(train.text, packages.text)] else [])
  }

  /** Everything a protected marker refers to is protected too. */
  ghost predicate Closed(markers: map<string, Entry>, s: set<string>) {
    forall prefix, reference :: prefix in s && prefix in markers && reference in References(markers[prefix]) ==>
      reference in s
  }

  function AllReferences(markers: map<string, Entry>): set<string> {
    set prefix, i | prefix in markers && 0 <= i < |References(markers[prefix])| :: References(markers[prefix])[i]
  }

  /** The least set that holds the roots and is closed under references. */
  ghost predicate IsClosure(markers: map<string, Entry>, roots: set<string>, s: set<string>) {
    && roots <= s && Closed(markers, s)
    && forall t: set<string> :: roots <= t && Closed(markers, t) ==> s <= t
  }

  ghost predicate WithinEveryClosed(markers: map<string, Entry>, roots: set<string>, s: set<string>) {
    forall t: set<string> :: roots <= t && Closed(markers, t) ==> s <= t
  }

  method ProtectReferences(markers: map<string, Entry>, roots: set<string>) returns (protected: set<string>)
    ensures IsClosure(markers, roots, protected)
  {
    hide References;
    protected := roots;
    var changed := true;
    ghost var bound := roots + AllReferences(markers);
    while changed
      invariant roots <= protected <= bound && WithinEveryClosed(markers, roots, protected)
      invariant !changed ==> Closed(markers, protected)
      decreases bound - protected, changed
    {
      changed := false;
      var todo := protected;
      ghost var start := protected;
      while todo != {}
        invariant todo <= start <= protected <= bound && WithinEveryClosed(markers, roots, protected)
        invariant changed <==> protected != start
        invariant forall prefix, reference ::
          prefix in start - todo && prefix in markers && reference in References(markers[prefix]) ==>
            reference in protected
        decreases todo
      {
        var prefix :| prefix in todo;
        todo := todo - {prefix};
        if prefix in markers {
          var added;
          protected, added := Protect(markers, roots, bound, protected, prefix);
          changed := changed || added;
        }
      }
    }
  }

  /** Adds the references of one protected marker. */
  method Protect(markers: map<string, Entry>, ghost roots: set<string>, ghost bound: set<string>,
                 protected: set<string>, prefix: string)
    returns (result: set<string>, changed: bool)
    requires prefix in protected && prefix in markers && protected <= bound
    requires AllReferences(markers) <= bound && WithinEveryClosed(markers, roots, protected)
    ensures protected <= result <= bound && WithinEveryClosed(markers, roots, result)
    ensures forall reference :: reference in References(markers[prefix]) ==> reference in result
    ensures changed <==> result != protected
  {
    hide References;
    var references := References(markers[prefix]);
    result, changed := protected, false;
    for i := 0 to |references|
      invariant protected <= result <= bound && WithinEveryClosed(markers, roots, result)
      invariant forall j :: 0 <= j < i ==> references[j] in result
      invariant changed <==> result != protected
    {
      assert references[i] in AllReferences(markers);
      if references[i] !in result {
        assert references[i] in References(markers[prefix]);
        result, changed := result + {references[i]}, true;
      }
    }
  }

  // ---------------------------------------------------------------- candidates

  datatype StoredObject = StoredObject(key: string, size: nat, modified: int)

  datatype Candidate = Candidate(prefix: string, objects: seq<StoredObject>)

  predicate AllOlder(objects: seq<StoredObject>, cutoff: int) {
    forall i :: 0 <= i < |objects| ==> objects[i].modified <= cutoff
  }

  const INPUT_KEY := "v1/inputs/sha256/"

  function InputHash(key: string): Option<string> {
    if INPUT_KEY <= key && IsFingerprint(key[|INPUT_KEY|..]) then Some(key[|INPUT_KEY|..]) else None
  }

  /** One planning run's view of the build bucket. */
  datatype Inventory = Inventory(
    groups: map<string, seq<StoredObject>>, objects: seq<StoredObject>, markers: map<string, Entry>,
    orphanCutoff: int, completedCutoff: int)
  {
    function Cutoff(prefix: string): int {
      if prefix in markers then completedCutoff else orphanCutoff
    }
  }

  predicate ExpiredGroup(inventory: Inventory, protected: set<string>, prefix: string) {
    && prefix in inventory.groups && prefix !in protected
    && AllOlder(inventory.groups[prefix], inventory.Cutoff(prefix))
  }

  predicate UnreferencedInput(inventory: Inventory, hashes: set<string>, o: StoredObject) {
    InputHash(o.key).Some? && InputHash(o.key).value !in hashes && o.modified <= inventory.orphanCutoff
  }

  /** The build candidates: expired unprotected artifacts, and old inputs nobody names. */
  method BuildCandidates(inventory: Inventory, roots: set<string>, pinned: set<string>)
    returns (candidates: seq<Candidate>, protected: set<string>, hashes: set<string>)
    ensures IsClosure(inventory.markers, roots, protected)
    ensures forall h :: h in hashes <==> h in pinned || NamedBy(inventory.markers, protected, h)
    ensures forall c :: c in candidates <==>
      || (exists prefix ::
            ExpiredGroup(inventory, protected, prefix) && c == Candidate(prefix + "/", inventory.groups[prefix]))
      || (exists i :: 0 <= i < |inventory.objects| && UnreferencedInput(inventory, hashes, inventory.objects[i])
                      && c == Candidate(inventory.objects[i].key, [inventory.objects[i]]))
  {
    hide IsClosure, UnreferencedInput, ExpiredGroup, NamedBy;
    protected := ProtectReferences(inventory.markers, roots);
    hashes := CollectProtected(inventory.markers, protected, pinned);
    var groups := GroupCandidates(inventory, protected);
    var inputs := InputCandidates(inventory, hashes);
    candidates := groups + inputs;
  }

  /** Some protected marker names the hash. */
  ghost predicate NamedBy(markers: map<string, Entry>, protected: set<string>, hash: string) {
    exists prefix :: prefix in protected && prefix in markers && Names(markers[prefix].marker, hash)
  }

  method CollectProtected(markers: map<string, Entry>, protected: set<string>, pinned: set<string>)
    returns (hashes: set<string>)
    ensures forall h :: h in hashes <==> h in pinned || NamedBy(markers, protected, h)
  {
    hide Names;
    hashes := pinned;
    var todo := protected;
    while todo != {}
      invariant todo <= protected
      invariant forall h :: h in hashes <==> h in pinned || NamedBy(markers, protected - todo, h)
      decreases todo
    {
      var prefix :| prefix in todo;
      todo := todo - {prefix};
      if prefix in markers {
        hashes := CollectHashes(markers[prefix].marker, hashes);
      }
    }
    assert protected - todo == protected;
  }

  method GroupCandidates(inventory: Inventory, protected: set<string>) returns (candidates: seq<Candidate>)
    ensures forall c :: c in candidates <==>
      exists prefix ::
        ExpiredGroup(inventory, protected, prefix) && c == Candidate(prefix + "/", inventory.groups[prefix])
  {
    candidates := [];
    var todo := inventory.groups.Keys;
    while todo != {}
      invariant todo <= inventory.groups.Keys
      invariant forall c :: c in candidates <==>
        exists prefix :: prefix !in todo && ExpiredGroup(inventory, protected, prefix)
                         && c == Candidate(prefix + "/", inventory.groups[prefix])
      decreases todo
    {
      var prefix :| prefix in todo;
      todo := todo - {prefix};
      var expired := ExpiredGroup(inventory, protected, prefix);
      if expired {
        candidates := candidates + [Candidate(prefix + "/", inventory.groups[prefix])];
      }
    }
  }

  method InputCandidates(inventory: Inventory, hashes: set<string>) returns (candidates: seq<Candidate>)
    ensures forall c :: c in candidates <==>
      exists i :: 0 <= i < |inventory.objects| && UnreferencedInput(inventory, hashes, inventory.objects[i])
                  && c == Candidate(inventory.objects[i].key, [inventory.objects[i]])
  {
    hide UnreferencedInput;
    candidates := [];
    for n := 0 to |inventory.objects|
      invariant forall c :: c in candidates <==>
        exists i :: 0 <= i < n && UnreferencedInput(inventory, hashes, inventory.objects[i])
                    && c == Candidate(inventory.objects[i].key, [inventory.objects[i]])
    {
      if UnreferencedInput(inventory, hashes, inventory.objects[n]) {
        candidates := candidates + [Candidate(inventory.objects[n].key, [inventory.objects[n]])];
      }
    }
  }

  // ---------------------------------------------------------------- safety

  /** A group of stored objects to be deleted under this name. */
  ghost predicate Eligible(inventory: Inventory, protected: set<string>, hashes: set<string>, name: string) {
    || (exists prefix :: ExpiredGroup(inventory, protected, prefix) && name == prefix + "/")
    || (exists i :: 0 <= i < |inventory.objects| && UnreferencedInput(inventory, hashes, inventory.objects[i])
                    && name == inventory.objects[i].key)
  }

  lemma LastCharacter(prefix: string, key: string)
    requires InputHash(key).Some?
    ensures key != prefix + "/"
  {
    assert key[|key| - 1] == key[|INPUT_KEY|..][63];
  }

  lemma PrefixesAreNames(a: string, b: string)
    requires a + "/" == b + "/"
    ensures a == b
  {
    assert (a + "/")[..|a|] == a && (b + "/")[..|b|] == b;
  }

  /** An artifact that is protected is not eligible. */
  lemma ProtectedIsNotEligible(inventory: Inventory, protected: set<string>, hashes: set<string>, prefix: string)
    requires prefix in protected
    ensures !Eligible(inventory, protected, hashes, prefix + "/")
  {
    hide InputHash, AllOlder;
    forall other | ExpiredGroup(inventory, protected, other) && prefix + "/" == other + "/" ensures false {
      PrefixesAreNames(prefix, other);
    }
    forall i | 0 <= i < |inventory.objects| && UnreferencedInput(inventory, hashes, inventory.objects[i])
      ensures prefix + "/" != inventory.objects[i].key
    {
      LastCharacter(prefix, inventory.objects[i].key);
    }
  }

  /** An input some protected marker names is not eligible. */
  lemma NamedInputIsNotEligible(inventory: Inventory, protected: set<string>, hashes: set<string>, hash: string)
    requires hash in hashes && IsFingerprint(hash)
    ensures !Eligible(inventory, protected, hashes, INPUT_KEY + hash)
  {
    hide IsFingerprint, AllOlder;
    assert (INPUT_KEY + hash)[|INPUT_KEY|..] == hash;
    assert InputHash(INPUT_KEY + hash) == Some(hash);
    forall other | ExpiredGroup(inventory, protected, other) ensures INPUT_KEY + hash != other + "/" {
      LastCharacter(other, INPUT_KEY + hash);
    }
  }

  /** What a document names is a well-formed hash. */
  lemma {:induction false} NamedIsFingerprint(value: Json, hash: string)
    requires Names(value, hash)
    ensures IsFingerprint(hash)
  {
    hide IsFingerprint;
    match value
    case Text(_) =>
    case List(items) =>
      var i :| 0 <= i < |items| && Names(items[i], hash);
      NamedIsFingerprint(items[i], hash);
    case Object(fields) =>
      var name :| name in fields && Names(fields[name], hash);
      NamedIsFingerprint(fields[name], hash);
  }

  /**
  Nothing a protected completion marker refers to is ever a candidate: not the artifact itself, not
  the artifacts it was built from, and not an input its marker names anywhere.
  */
  lemma CandidatesAreUnreferenced(inventory: Inventory, roots: set<string>, pinned: set<string>,
                                  protected: set<string>, hashes: set<string>, prefix: string)
    requires IsClosure(inventory.markers, roots, protected)
    requires forall h :: h in hashes <==> h in pinned || NamedBy(inventory.markers, protected, h)
    requires prefix in protected && prefix in inventory.markers
    ensures !Eligible(inventory, protected, hashes, prefix + "/")
    ensures forall reference ::
      reference in References(inventory.markers[prefix]) ==> !Eligible(inventory, protected, hashes, reference + "/")
    ensures forall h ::
      Names(inventory.markers[prefix].marker, h) ==> !Eligible(inventory, protected, hashes, INPUT_KEY + h)
  {
    hide Eligible, Names, References, IsFingerprint;
    ProtectedIsNotEligible(inventory, protected, hashes, prefix);
    forall reference | reference in References(inventory.markers[prefix])
      ensures !Eligible(inventory, protected, hashes, reference + "/")
    {
      ProtectedIsNotEligible(inventory, protected, hashes, reference);
    }
    forall h | Names(inventory.markers[prefix].marker, h)
      ensures !Eligible(inventory, protected, hashes, INPUT_KEY + h)
    {
      NamedIsFingerprint(inventory.markers[prefix].marker, h);
      assert NamedBy(inventory.markers, protected, h);
      NamedInputIsNotEligible(inventory, protected, hashes, h);
    }
  }

  // ---------------------------------------------------------------- what names what

  /** One step into a document: an element of a list, or a member of an object. */
  datatype Step = Element(index: nat) | Member(name: string)

  function Inside(value: Json, path: seq<Step>): Option<Json> {
    if path == [] then Some(value) else
    match path[0]
    case Element(i) => if value.List? && i < |value.items| then Inside(value.items[i], path[1..]) else None
    case Member(name) => if value.Object? && name in value.fields then Inside(value.fields[name], path[1..]) else None
  }

  /** The text is the hash itself, or a reference to the input of that hash. */
  predicate Spells(text: string, hash: string) {
    IsFingerprint(hash) && (text == hash || text == "inputs/sha256/" + hash)
  }

  lemma TextNamesExactly(text: string, hash: string)
    ensures Names(Text(text), hash) <==> Spells(text, hash)
  {
    hide IsFingerprint;
    assert ("inputs/sha256/" + hash)[|INPUT_PREFIX|..] == hash;
    if NamedHash(text) == Some(hash) && text != hash {
      assert text == text[..|INPUT_PREFIX|] + text[|INPUT_PREFIX|..];
    }
    if text == "inputs/sha256/" + hash && IsFingerprint(text) && IsFingerprint(hash) {
      FingerprintsAreAsLong(text, hash);
    }
  }

  lemma FingerprintsAreAsLong(a: string, b: string)
    requires IsFingerprint(a) && IsFingerprint(b)
    ensures |a| == |b|
  {
  }

  /** A document names a hash exactly when some text at any depth of it does. */
  lemma {:induction false} NamesExactly(value: Json, hash: string)
    ensures Names(value, hash) <==>
      exists path :: Inside(value, path).Some? && Inside(value, path).value.Text?
                     && Spells(Inside(value, path).value.text, hash)
  {
    hide IsFingerprint, Spells, NamedHash;
    if Names(value, hash) {
      var path := NamingPath(value, hash);
    }
    forall path | Inside(value, path).Some? && Inside(value, path).value.Text?
                  && Spells(Inside(value, path).value.text, hash)
      ensures Names(value, hash)
    {
      NamedInside(value, path, hash);
    }
  }

  lemma {:induction false} NamingPath(value: Json, hash: string) returns (path: seq<Step>)
    requires Names(value, hash)
    ensures Inside(value, path).Some? && Inside(value, path).value.Text?
            && Spells(Inside(value, path).value.text, hash)
  {
    hide IsFingerprint, Spells, NamedHash;
    match value
    case Text(text) =>
      TextNamesExactly(text, hash);
      path := [];
    case List(items) =>
      var i: nat :| i < |items| && Names(items[i], hash);
      var rest := NamingPath(items[i], hash);
      path := [Element(i)] + rest;
      assert path[1..] == rest;
    case Object(fields) =>
      var name :| name in fields && Names(fields[name], hash);
      var rest := NamingPath(fields[name], hash);
      path := [Member(name)] + rest;
      assert path[1..] == rest;
  }

  lemma {:induction false} NamedInside(value: Json, path: seq<Step>, hash: string)
    requires Inside(value, path).Some? && Inside(value, path).value.Text?
    requires Spells(Inside(value, path).value.text, hash)
    ensures Names(value, hash)
    decreases |path|
  {
    hide IsFingerprint, Spells, NamedHash;
    if path == [] {
      TextNamesExactly(value.text, hash);
    } else {
      match path[0]
      case Element(i) => NamedInside(value.items[i], path[1..], hash);
      case Member(name) => NamedInside(value.fields[name], path[1..], hash);
    }
  }

  /** The text at this path of a completion marker. */
  predicate Says(marker: Json, path: seq<string>, text: string) {
    if path == [] then marker == Text(text)
    else marker.Object? && path[0] in marker.fields && Says(marker.fields[path[0]], path[1..], text)
  }

  predicate Has(marker: Json, name: string) {
    marker.Object? && name in marker.fields
  }

  /** The artifact of the System whose fingerprint stands at the path. */
  ghost predicate IsSystemAt(marker: Json, path: seq<string>, reference: string) {
    exists f :: IsFingerprint(f) && Says(marker, path, f) && reference == "v1/artifacts/system/" + f
  }

  /** The artifact of the Packages that the inputs name, in the train that they name. */
  ghost predicate ArePackagesOf(marker: Json, reference: string) {
    exists train, f :: train != "" && IsFingerprint(f)
      && Says(marker, ["inputs", "package_train"], train) && Says(marker, ["inputs", "packages"], f)
      && reference == "v1/artifacts/packages/" + train + "/" + f
  }

  /**
  A Packages marker refers to the Systems it was built against and selected with; an image marker to its
  System, named on the marker itself if anywhere there, and to the Packages of its train; no other marker
  refers to anything.
  */
  lemma ReferencesExactly(entry: Entry, reference: string)
    ensures reference in References(entry) <==>
      match entry.kind
      case Packages =>
        || IsSystemAt(entry.marker, ["inputs", "built_against_system"], reference)
        || IsSystemAt(entry.marker, ["inputs", "system"], reference)
      case System => false
      case Mirror => false
      case _ =>
        || IsSystemAt(entry.marker, if Has(entry.marker, "system") then ["system"] else ["inputs", "system"], reference)
        || ArePackagesOf(entry.marker, reference)
  {
    hide IsFingerprint, Says, SystemPrefix, PackagesPrefix;
    var marker, inputs := entry.marker, Field(entry.marker, "inputs");
    SystemAtExactly(marker, ["inputs", "built_against_system"], Field(inputs, "built_against_system"), reference);
    SystemAtExactly(marker, ["inputs", "system"], Field(inputs, "system"), reference);
    SystemAtExactly(marker, ["system"], Field(marker, "system"), reference);
    PackagesOfExactly(marker, reference);
  }

  lemma SystemAtExactly(marker: Json, path: seq<string>, value: Json, reference: string)
    requires path == ["system"] || (|path| == 2 && path[0] == "inputs")
    requires value == if |path| == 1 then Field(marker, "system") else Field(Field(marker, "inputs"), path[1])
    ensures IsSystemAt(marker, path, reference) <==> NamesArtifact(value) && reference == SystemPrefix(value.text)
  {
    hide IsFingerprint;
    forall f: string
      ensures Says(marker, path, f) <==> value == Text(f)
    {
      if path == ["system"] {
        assert ["system"][1..] == [];
      } else {
        assert path == ["inputs", path[1]];
        SaysField(marker, path[1], f);
      }
    }
    if NamesArtifact(value) {
      assert Says(marker, path, value.text);
    }
  }

  lemma PackagesOfExactly(marker: Json, reference: string)
    ensures var inputs := Field(marker, "inputs");
      var packages, train := Field(inputs, "packages"), Field(inputs, "package_train");
      ArePackagesOf(marker, reference) <==>
        NamesArtifact(packages) && train.Text? && train.text != ""
        && reference == PackagesPrefix(train.text, packages.text)
  {
    hide IsFingerprint;
    var inputs := Field(marker, "inputs");
    var packages, train := Field(inputs, "packages"), Field(inputs, "package_train");
    forall name, f: string
      ensures Says(marker, ["inputs", name], f) <==> Field(inputs, name) == Text(f)
    {
      SaysField(marker, name, f);
    }
    hide Says, Field;
    if ArePackagesOf(marker, reference) {
      var t, f :| t != "" && IsFingerprint(f)
        && Says(marker, ["inputs", "package_train"], t) && Says(marker, ["inputs", "packages"], f)
        && reference == "v1/artifacts/packages/" + t + "/" + f;
      assert train == Text(t) && packages == Text(f);
    }
    if NamesArtifact(packages) && train.Text? {
      assert Says(marker, ["inputs", "packages"], packages.text);
      assert Says(marker, ["inputs", "package_train"], train.text);
    }
  }

  lemma SaysField(marker: Json, name: string, text: string)
    ensures Says(marker, ["inputs", name], text) <==> Field(Field(marker, "inputs"), name) == Text(text)
  {
    var path := ["inputs", name];
    assert path[1..] == [name] && [name][1..] == [];
    if marker.Object? && "inputs" in marker.fields {
      assert Says(marker.fields["inputs"], [name], text) <==> Field(marker.fields["inputs"], name) == Text(text);
    }
  }

  // ---------------------------------------------------------------- what is old enough

  /** A stored group under its name, all of it as old as its cutoff asks. */
  ghost predicate IsExpiredGroup(inventory: Inventory, protected: set<string>, c: Candidate, prefix: string) {
    && prefix in inventory.groups && prefix !in protected
    && c.prefix == prefix + "/" && c.objects == inventory.groups[prefix]
    && forall o :: o in c.objects ==>
         o.modified <= if prefix in inventory.markers then inventory.completedCutoff else inventory.orphanCutoff
  }

  /** One stored input under its key, old enough, with a hash that nothing protected names. */
  ghost predicate IsExpiredInput(inventory: Inventory, hashes: set<string>, c: Candidate, o: StoredObject,
                                 hash: string) {
    && o in inventory.objects && c == Candidate(o.key, [o])
    && IsFingerprint(hash) && o.key == "v1/inputs/sha256/" + hash && hash !in hashes
    && o.modified <= inventory.orphanCutoff
  }

  /**
  The candidates of a run are exactly the unprotected groups whose every object is as old as a completed
  or an abandoned artifact has to be, and the inputs that nothing names and that are as old as an orphan.
  */
  lemma CandidatesExactly(inventory: Inventory, protected: set<string>, hashes: set<string>, candidates: seq<Candidate>)
    requires forall c :: c in candidates <==>
      || (exists prefix ::
            ExpiredGroup(inventory, protected, prefix) && c == Candidate(prefix + "/", inventory.groups[prefix]))
      || (exists i :: 0 <= i < |inventory.objects| && UnreferencedInput(inventory, hashes, inventory.objects[i])
                      && c == Candidate(inventory.objects[i].key, [inventory.objects[i]]))
    ensures forall c :: c in candidates <==>
      || (exists prefix :: IsExpiredGroup(inventory, protected, c, prefix))
      || (exists o, hash :: IsExpiredInput(inventory, hashes, c, o, hash))
  {
    hide IsFingerprint, InputHash;
    forall c
      ensures c in candidates <==>
        || (exists prefix :: IsExpiredGroup(inventory, protected, c, prefix))
        || (exists o, hash :: IsExpiredInput(inventory, hashes, c, o, hash))
    {
      forall prefix
        ensures ExpiredGroup(inventory, protected, prefix) && c == Candidate(prefix + "/", inventory.groups[prefix])
           <==> IsExpiredGroup(inventory, protected, c, prefix)
      {
      }
      forall o: StoredObject, hash: string
        ensures o.key == "v1/inputs/sha256/" + hash && IsFingerprint(hash) <==> InputHash(o.key) == Some(hash)
      {
        InputKeyExactly(o.key, hash);
      }
      if i :| 0 <= i < |inventory.objects| && UnreferencedInput(inventory, hashes, inventory.objects[i])
              && c == Candidate(inventory.objects[i].key, [inventory.objects[i]]) {
        assert IsExpiredInput(inventory, hashes, c, inventory.objects[i], InputHash(inventory.objects[i].key).value);
      }
    }
  }

  lemma InputKeyExactly(key: string, hash: string)
    ensures InputHash(key) == Some(hash) <==> IsFingerprint(hash) && key == "v1/inputs/sha256/" + hash
  {
    hide IsFingerprint;
    assert ("v1/inputs/sha256/" + hash)[|INPUT_KEY|..] == hash;
    if InputHash(key) == Some(hash) {
      assert key == key[..|INPUT_KEY|] + key[|INPUT_KEY|..];
    }
  }
}

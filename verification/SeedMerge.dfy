/**
Merging the two seed inventories: a package is kept when every record of its name has one identity,
and refused for good as soon as two records differ.
*/
module SeedMerge {
  import opened Hex
  import opened Wrappers

  datatype Record = Record(name: string, version: string, origin: string, abi: string, sha256: string,
                           details: string) {
    function Identity(): (string, string, string, string) {
      (version, origin, abi, sha256)
    }
  }

  datatype Tier = Official | PreviousFreeSense

  datatype Failure = InvalidRecord

  function Tagged(official: seq<Record>, previous: seq<Record>): seq<(Tier, Record)> {
    seq(|official| + |previous|, i requires 0 <= i < |official| + |previous| =>
      if i < |official| then (Official, official[i]) else (PreviousFreeSense, previous[i - |official|]))
  }

  predicate Names(records: seq<(Tier, Record)>, i: nat, name: string)
    requires i < |records|
  {
    records[i].1.name == name
  }

  ghost predicate Mentioned(records: seq<(Tier, Record)>, name: string) {
    exists i :: 0 <= i < |records| && Names(records, i, name)
  }

  /** Every record of this name has the identity of every other. */
  ghost predicate Agreed(records: seq<(Tier, Record)>, name: string) {
    forall i, j :: 0 <= i < j < |records| && Names(records, i, name) && Names(records, j, name) ==>
      records[i].1.Identity() == records[j].1.Identity()
  }

  ghost predicate IsFirst(records: seq<(Tier, Record)>, name: string, record: (Tier, Record)) {
    exists i :: 0 <= i < |records| && Names(records, i, name) && records[i] == record
                && forall j :: 0 <= j < i ==> !Names(records, j, name)
  }

  /** What the merge holds after these records. */
  ghost predicate Merges(records: seq<(Tier, Record)>, merged: map<string, (Tier, Record)>, rejected: set<string>) {
    && (forall name :: name in merged <==> Mentioned(records, name) && Agreed(records, name))
    && (forall name :: name in merged ==> IsFirst(records, name, merged[name]))
    && forall name :: name in rejected <==> !Agreed(records, name)
  }

  lemma AnotherRecord(records: seq<(Tier, Record)>, r: (Tier, Record), name: string)
    ensures Mentioned(records + [r], name) <==> Mentioned(records, name) || r.1.name == name
    ensures r.1.name != name ==> (Agreed(records + [r], name) <==> Agreed(records, name))
    ensures r.1.name == name && !Mentioned(records, name) ==>
      Agreed(records + [r], name) && IsFirst(records + [r], name, r)
    ensures !Agreed(records, name) ==> !Agreed(records + [r], name)
    ensures forall first :: IsFirst(records, name, first) ==> IsFirst(records + [r], name, first)
    ensures forall first :: r.1.name == name && Agreed(records, name) && IsFirst(records, name, first) ==>
      (Agreed(records + [r], name) <==> first.1.Identity() == r.1.Identity())
  {
    hide Record.Identity;
    var n := |records|;
    var more := records + [r];
    assert more[n] == r;
    forall i | 0 <= i < n
      ensures more[i] == records[i] && (Names(more, i, name) <==> Names(records, i, name))
    {
    }
    if Mentioned(records, name) {
      var i :| 0 <= i < n && Names(records, i, name);
      assert Names(more, i, name);
    }
    assert Names(more, n, name) <==> r.1.name == name;
    forall first | IsFirst(records, name, first)
      ensures IsFirst(more, name, first)
      ensures r.1.name == name && Agreed(records, name) ==>
        (Agreed(more, name) <==> first.1.Identity() == r.1.Identity())
    {
      var i :| 0 <= i < n && Names(records, i, name) && records[i] == first
              && forall j :: 0 <= j < i ==> !Names(records, j, name);
      assert Names(more, i, name) && more[i] == first;
      forall j | 0 <= j < i
        ensures !Names(more, j, name)
      {
        assert !Names(records, j, name);
      }
    }
  }

  predicate Conflicts(merged: map<string, (Tier, Record)>, r: Record) {
    r.name in merged && merged[r.name].1.Identity() != r.Identity()
  }

  lemma MergesNext(records: seq<(Tier, Record)>, r: (Tier, Record), merged: map<string, (Tier, Record)>,
                   rejected: set<string>)
    requires Merges(records, merged, rejected)
    ensures var name := r.1.name;
      if name in rejected then Merges(records + [r], merged, rejected)
      else if Conflicts(merged, r.1) then Merges(records + [r], merged - {name}, rejected + {name})
      else if name in merged then Merges(records + [r], merged, rejected)
      else Merges(records + [r], merged[name := r], rejected)
  {
    hide Mentioned, Agreed, IsFirst, Record.Identity;
    forall other
      ensures Mentioned(records + [r], other) <==> Mentioned(records, other) || r.1.name == other
      ensures r.1.name != other ==> (Agreed(records + [r], other) <==> Agreed(records, other))
      ensures !Agreed(records, other) ==> !Agreed(records + [r], other)
      ensures forall first :: IsFirst(records, other, first) ==> IsFirst(records + [r], other, first)
    {
      AnotherRecord(records, r, other);
    }
    AnotherRecord(records, r, r.1.name);
    UnmentionedAgrees(records, r.1.name);
  }

  lemma UnmentionedAgrees(records: seq<(Tier, Record)>, name: string)
    ensures !Mentioned(records, name) ==> Agreed(records, name)
  {
    hide Record.Identity;
  }

  method MergeSeeds(official: seq<Record>, previous: seq<Record>)
    returns (r: Result<(map<string, (Tier, Record)>, set<string>), Failure>)
    ensures r.Err? <==>
      exists i :: 0 <= i < |official| + |previous| && !IsSha256(Tagged(official, previous)[i].1.sha256)
    ensures r.Ok? ==> Merges(Tagged(official, previous), r.value.0, r.value.1)
  {
    hide Merges, Record.Identity, IsSha256;
    var records := Tagged(official, previous);
    var merged: map<string, (Tier, Record)> := map[];
    var rejected: set<string> := {};
    NothingMerged();
    for i := 0 to |records|
      invariant Merges(records[..i], merged, rejected)
      invariant forall k :: 0 <= k < i ==> IsSha256(records[k].1.sha256)
    {
      var record := records[i].1;
      var name := record.name;
      if !IsSha256(record.sha256) {
        return Err(InvalidRecord);
      }
      assert records[..i + 1] == records[..i] + [records[i]];
      MergesNext(records[..i], records[i], merged, rejected);
      if name in rejected {
        continue;
      }
      if name in merged {
        if merged[name].1.Identity() != record.Identity() {
          rejected := rejected + {name};
          merged := merged - {name};
        }
        continue;
      }
      merged := merged[name := records[i]];
    }
    assert records[..|records|] == records;
    return Ok((merged, rejected));
  }

  lemma NothingMerged()
    ensures Merges([], map[], {})
  {
  }

  // ---------------------------------------------------------------- identities and tiers

  /** Two records are one package exactly when version, origin, architecture and content agree; details may differ. */
  lemma SameIdentityExactly(a: Record, b: Record)
    ensures a.Identity() == b.Identity() <==>
      a == b.(name := a.name, details := a.details)
  {
  }

  /** The official record of a name comes before any previous one. */
  lemma OfficialComesFirst(official: seq<Record>, previous: seq<Record>, name: string, record: (Tier, Record))
    requires IsFirst(Tagged(official, previous), name, record)
    ensures record.0.Official? <==> exists o :: o in official && o.name == name
    ensures record.1 in if record.0.Official? then official else previous
  {
    var records := Tagged(official, previous);
    var i :| 0 <= i < |records| && Names(records, i, name) && records[i] == record
             && forall j :: 0 <= j < i ==> !Names(records, j, name);
    forall o | o in official && o.name == name
      ensures i < |official|
    {
      var k :| 0 <= k < |official| && official[k] == o;
      assert Names(records, k, name);
    }
  }
}

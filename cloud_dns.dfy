/**
 * The part of the Google Cloud DNS v1 API the updater talks to: resource
 * record sets, changes, and one managed zone that answers list and change
 * requests. The zone also keeps the list of requests it has received, so that
 * what a reconciliation cycle sends can be stated.
 */
module CloudDns {
  import opened Wrappers

  /** Go's int64 (the type of a record set's TTL). */
  newtype int64 = x: int | -0x8000_0000_0000_0000 <= x < 0x8000_0000_0000_0000

  /** dns.ResourceRecordSet: owner name, data values, TTL and record type. */
  datatype ResourceRecordSet = ResourceRecordSet(name: string, rrdatas: seq<string>, ttl: int64, rrtype: string)

  /** dns.Change: record sets to add and record sets to delete, submitted as one request. */
  datatype Change = Change(additions: seq<ResourceRecordSet>, deletions: seq<ResourceRecordSet>)

  /** A request the zone has received. */
  datatype ApiCall = ListCall | ChangeCall(change: Change)

  /** Every record set carries at least one data value (the API refuses empty record sets). */
  predicate AllHaveData(rrsets: seq<ResourceRecordSet>) {
    forall rr :: rr in rrsets ==> |rr.rrdatas| > 0
  }

  /** The zone without the first record set equal to `rr`; unchanged when there is none. */
  function RemoveFirst(rrsets: seq<ResourceRecordSet>, rr: ResourceRecordSet): seq<ResourceRecordSet> {
    if rrsets == [] then []
    else if rrsets[0] == rr then rrsets[1..]
    else [rrsets[0]] + RemoveFirst(rrsets[1..], rr)
  }

  /** Removing takes away one copy of `rr`, when there is one, and nothing else. */
  lemma {:induction false} RemoveFirstMultiset(rrsets: seq<ResourceRecordSet>, rr: ResourceRecordSet)
    ensures multiset(RemoveFirst(rrsets, rr)) == multiset(rrsets) - multiset{rr}
  {
    if rrsets != [] {
      assert rrsets == [rrsets[0]] + rrsets[1..];
      RemoveFirstMultiset(rrsets[1..], rr);
    }
  }

  /** Removing the record set at `k`, where it occurs first, leaves the others in order. */
  lemma {:induction false} RemoveFirstAt(rrsets: seq<ResourceRecordSet>, k: nat)
    requires k < |rrsets|
    requires forall j :: 0 <= j < k ==> rrsets[j] != rrsets[k]
    ensures RemoveFirst(rrsets, rrsets[k]) == rrsets[..k] + rrsets[k + 1..]
  {
    if k > 0 {
      RemoveFirstAt(rrsets[1..], k - 1);
      assert rrsets[1..][..k - 1] + rrsets[1..][k..] == rrsets[1..k] + rrsets[k + 1..];
      assert [rrsets[0]] + rrsets[1..k] == rrsets[..k];
    }
  }

  /** The zone after each of `deletions` has been removed, in order. */
  function RemoveAll(rrsets: seq<ResourceRecordSet>, deletions: seq<ResourceRecordSet>): seq<ResourceRecordSet>
    decreases |deletions|
  {
    if deletions == [] then rrsets
    else RemoveAll(RemoveFirst(rrsets, deletions[0]), deletions[1..])
  }

  /** Removing a list of record sets takes away one copy of each. */
  lemma {:induction false} RemoveAllMultiset(rrsets: seq<ResourceRecordSet>, deletions: seq<ResourceRecordSet>)
    ensures multiset(RemoveAll(rrsets, deletions)) == multiset(rrsets) - multiset(deletions)
    decreases |deletions|
  {
    if deletions != [] {
      assert deletions == [deletions[0]] + deletions[1..];
      RemoveFirstMultiset(rrsets, deletions[0]);
      RemoveAllMultiset(RemoveFirst(rrsets, deletions[0]), deletions[1..]);
    }
  }

  /** The zone after a change has been committed: deletions first, then the additions appended. */
  function Applied(rrsets: seq<ResourceRecordSet>, change: Change): seq<ResourceRecordSet> {
    RemoveAll(rrsets, change.deletions) + change.additions
  }

  /** A committed change takes away its deletions and brings in its additions, and nothing else. */
  lemma AppliedMultiset(rrsets: seq<ResourceRecordSet>, change: Change)
    ensures multiset(Applied(rrsets, change)) == multiset(rrsets) - multiset(change.deletions) + multiset(change.additions)
  {
    RemoveAllMultiset(rrsets, change.deletions);
  }

  /** A change with a single deletion removes the first record set equal to it. */
  lemma AppliedDeletion(rrsets: seq<ResourceRecordSet>, rr: ResourceRecordSet)
    ensures Applied(rrsets, Change([], [rr])) == RemoveFirst(rrsets, rr)
  {
    assert [rr][1..] == [];
    assert RemoveAll(rrsets, [rr]) == RemoveAll(RemoveFirst(rrsets, rr), []);
  }

  /** A change with a single addition appends it. */
  lemma AppliedAddition(rrsets: seq<ResourceRecordSet>, rr: ResourceRecordSet)
    ensures Applied(rrsets, Change([rr], [])) == rrsets + [rr]
  {
  }

  /** The zone after a change request: the change committed when it succeeds, the zone as it was when it fails. */
  function Committed(rrsets: seq<ResourceRecordSet>, change: Change, fault: Option<string>): seq<ResourceRecordSet> {
    if fault.None? then Applied(rrsets, change) else rrsets
  }

  /** A committed change keeps every record set non-empty when the ones it adds are. */
  lemma AppliedKeepsData(rrsets: seq<ResourceRecordSet>, change: Change)
    requires AllHaveData(rrsets) && AllHaveData(change.additions)
    ensures AllHaveData(Applied(rrsets, change))
  {
    var r := Applied(rrsets, change);
    AppliedMultiset(rrsets, change);
    forall rr | rr in r ensures |rr.rrdatas| > 0 {
      assert rr in multiset(r);
      assert rr in multiset(rrsets) || rr in multiset(change.additions);
    }
  }

  /** One managed zone of one project, as the API presents it. */
  class ManagedZone {
    /** The zone's record sets, in listing order. */
    var rrsets: seq<ResourceRecordSet>
    /** Every request the zone has received, oldest first. */
    ghost var calls: seq<ApiCall>

    constructor (rrsets: seq<ResourceRecordSet>)
      ensures this.rrsets == rrsets && calls == []
    {
      this.rrsets := rrsets;
      calls := [];
    }

    /** ResourceRecordSets.List(project, managedZone).Do(); `fault` is the error the request ends in, if any. */
    method List(fault: Option<string>) returns (r: Result<seq<ResourceRecordSet>>)
      modifies this`calls
      ensures calls == old(calls) + [ListCall]
      ensures r == if fault.Some? then Failure(fault.value) else Success(rrsets)
    {
      calls := calls + [ListCall];
      if fault.Some? {
        r := Failure(fault.value);
      } else {
        r := Success(rrsets);
      }
    }

    /** Changes.Create(project, managedZone, change).Do(): committed whole on success, not at all on failure. */
    method Create(change: Change, fault: Option<string>) returns (err: Option<string>)
      modifies this
      ensures calls == old(calls) + [ChangeCall(change)]
      ensures err == fault
      ensures rrsets == Committed(old(rrsets), change, fault)
    {
      calls := calls + [ChangeCall(change)];
      if fault.None? {
        rrsets := Applied(rrsets, change);
      }
      err := fault;
    }
  }
}

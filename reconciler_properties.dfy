/**
 * What a reconciliation cycle promises: the lookup picks the first managed
 * record set, failures change nothing, a current record set means no change
 * requests, a stale one is deleted as read and re-added, and one cycle on a
 * zone with at most one managed record set leaves it so that the next cycle
 * with the same address is a no-op.
 */
module ReconcilerProperties {
  import opened Wrappers
  import opened CloudDns
  import opened Waldo

  /** A listed name is the formatted form of the configured name exactly when it is that name followed by one dot. */
  lemma CanonicalNameMatch(recordName: string, name: string)
    ensures name == FormattedRecordName(recordName) <==>
            |name| > 0 && name[|name| - 1] == '.' && name[..|name| - 1] == recordName
  {
    if |name| > 0 && name[|name| - 1] == '.' && name[..|name| - 1] == recordName {
      assert name == name[..|name| - 1] + [name[|name| - 1]];
    }
  }

  /** Distinct configured names never format to the same owner name, and no name equals its own formatted form. */
  lemma FormattedRecordNameInjective(a: string, b: string)
    ensures FormattedRecordName(a) == FormattedRecordName(b) <==> a == b
    ensures FormattedRecordName(a) != a
  {
    if FormattedRecordName(a) == FormattedRecordName(b) {
      CanonicalNameMatch(a, FormattedRecordName(b));
      CanonicalNameMatch(b, FormattedRecordName(b));
    }
  }

  /** The lookup reports the first managed record set in listing order. */
  lemma LookupFindsFirst(rrsets: seq<ResourceRecordSet>, cfg: Config, ip: string, k: nat)
    requires k < |rrsets| && IsManaged(rrsets[k], cfg) && |rrsets[k].rrdatas| > 0
    requires forall j :: 0 <= j < k ==> !IsManaged(rrsets[j], cfg)
    ensures LookupDefined(rrsets, cfg)
    ensures Lookup(rrsets, cfg, ip) == RecordLookup(Some(rrsets[k]), rrsets[k].rrdatas[0] == ip)
  {
    FirstMatchIs(rrsets, cfg, k);
  }

  /** Record sets listed after the first managed one, managed or not, play no part in the lookup. */
  lemma LookupIgnoresLaterRecords(rrsets: seq<ResourceRecordSet>, later: seq<ResourceRecordSet>, cfg: Config, ip: string)
    requires LookupDefined(rrsets, cfg) && FirstMatch(rrsets, cfg).Some?
    ensures LookupDefined(rrsets + later, cfg)
    ensures Lookup(rrsets + later, cfg, ip) == Lookup(rrsets, cfg, ip)
  {
    var k := FirstMatch(rrsets, cfg).value;
    var all := rrsets + later;
    assert all[k] == rrsets[k];
    assert forall j :: 0 <= j < k ==> all[j] == rrsets[j];
    FirstMatchIs(all, cfg, k);
  }

  /** Whether the address matches depends on the first data value alone, not on the TTL or any further data values. */
  lemma IpMatchIgnoresTtlAndLaterData(rrsets: seq<ResourceRecordSet>, cfg: Config, ip: string, ttl: int64, more: seq<string>)
    requires LookupDefined(rrsets, cfg) && FirstMatch(rrsets, cfg).Some?
    ensures var k := FirstMatch(rrsets, cfg).value;
            var edited := rrsets[k := rrsets[k].(ttl := ttl, rrdatas := [rrsets[k].rrdatas[0]] + more)];
            LookupDefined(edited, cfg) &&
            Lookup(edited, cfg, ip).doesIpMatch == Lookup(rrsets, cfg, ip).doesIpMatch
  {
    var k := FirstMatch(rrsets, cfg).value;
    var edited := rrsets[k := rrsets[k].(ttl := ttl, rrdatas := [rrsets[k].rrdatas[0]] + more)];
    assert forall j :: 0 <= j < k ==> edited[j] == rrsets[j];
    FirstMatchIs(edited, cfg, k);
  }

  /** No request in the list is a change request: only listings were sent. */
  predicate NoChanges(calls: seq<ApiCall>) {
    forall c :: c in calls ==> c == ListCall
  }

  /**
   * A failed IP discovery sends nothing at all to the provider; a failed
   * listing sends only the listing. Neither changes the zone.
   */
  lemma FailuresAreInert(cfg: Config, env: Environment, rrsets: seq<ResourceRecordSet>)
    requires env.discovery.Failure? || env.listFault.Some?
    ensures CycleDefined(cfg, env, rrsets)
    ensures Cycle(cfg, env, rrsets).rrsets == rrsets
    ensures NoChanges(Cycle(cfg, env, rrsets).calls)
    ensures env.discovery.Failure? ==> Cycle(cfg, env, rrsets) == CycleEffect(DiscoveryFailed(env.discovery.error), [], rrsets)
    ensures env.discovery.Success? ==> Cycle(cfg, env, rrsets) == CycleEffect(ListFailed(env.listFault.value), [ListCall], rrsets)
  {
  }

  /** A managed record set that already holds the address means one listing and no change requests. */
  lemma MatchingRecordIsNoOp(cfg: Config, env: Environment, rrsets: seq<ResourceRecordSet>)
    requires env.discovery.Success? && env.listFault.None? && LookupDefined(rrsets, cfg)
    requires FirstMatch(rrsets, cfg).Some? && rrsets[FirstMatch(rrsets, cfg).value].rrdatas[0] == env.discovery.value
    ensures Cycle(cfg, env, rrsets) == CycleEffect(RecordMatches, [ListCall], rrsets)
  {
  }

  /**
   * A stale managed record set is deleted exactly as it was read, and the
   * desired record set is then added whether or not the delete succeeded.
   */
  lemma StaleRecordIsReplaced(cfg: Config, env: Environment, rrsets: seq<ResourceRecordSet>)
    requires env.discovery.Success? && env.listFault.None? && LookupDefined(rrsets, cfg)
    requires FirstMatch(rrsets, cfg).Some? && rrsets[FirstMatch(rrsets, cfg).value].rrdatas[0] != env.discovery.value
    ensures var k := FirstMatch(rrsets, cfg).value;
            var desired := DesiredRecord(cfg, env.discovery.value);
            var e := Cycle(cfg, env, rrsets);
            e.outcome == Replaced(env.deleteFault, env.addFault) &&
            e.calls == [ListCall, ChangeCall(Change([], [rrsets[k]])), ChangeCall(Change([desired], []))] &&
            (env.deleteFault.None? && env.addFault.None? ==> e.rrsets == rrsets[..k] + rrsets[k + 1..] + [desired]) &&
            (env.deleteFault.Some? && env.addFault.None? ==> e.rrsets == rrsets + [desired]) &&
            (env.deleteFault.None? && env.addFault.Some? ==> e.rrsets == rrsets[..k] + rrsets[k + 1..]) &&
            (env.deleteFault.Some? && env.addFault.Some? ==> e.rrsets == rrsets)
  {
    var k := FirstMatch(rrsets, cfg).value;
    var desired := DesiredRecord(cfg, env.discovery.value);
    forall j | 0 <= j < k ensures rrsets[j] != rrsets[k] {
      assert !IsManaged(rrsets[j], cfg);
    }
    RemoveFirstAt(rrsets, k);
    AppliedDeletion(rrsets, rrsets[k]);
    AppliedAddition(rrsets, desired);
    AppliedAddition(RemoveFirst(rrsets, rrsets[k]), desired);
  }

  /** With no managed record set, one addition of the desired record set is sent and nothing is deleted. */
  lemma AbsentRecordIsCreated(cfg: Config, env: Environment, rrsets: seq<ResourceRecordSet>)
    requires env.discovery.Success? && env.listFault.None?
    requires forall j :: 0 <= j < |rrsets| ==> !IsManaged(rrsets[j], cfg)
    ensures CycleDefined(cfg, env, rrsets)
    ensures var desired := DesiredRecord(cfg, env.discovery.value);
            var e := Cycle(cfg, env, rrsets);
            e.outcome == Created(env.addFault) &&
            e.calls == [ListCall, ChangeCall(Change([desired], []))] &&
            e.rrsets == if env.addFault.None? then rrsets + [desired] else rrsets
  {
    AppliedAddition(rrsets, DesiredRecord(cfg, env.discovery.value));
  }

  /** At most one record set in the zone has the managed name and type. */
  predicate AtMostOneManaged(rrsets: seq<ResourceRecordSet>, cfg: Config) {
    forall i, j :: 0 <= i < |rrsets| && 0 <= j < |rrsets| && IsManaged(rrsets[i], cfg) && IsManaged(rrsets[j], cfg) ==> i == j
  }

  /** Appending the desired record set to a zone without a managed one makes it the only, and matching, one. */
  lemma DesiredRecordIsFound(rrsets: seq<ResourceRecordSet>, cfg: Config, ip: string)
    requires forall j :: 0 <= j < |rrsets| ==> !IsManaged(rrsets[j], cfg)
    ensures AtMostOneManaged(rrsets + [DesiredRecord(cfg, ip)], cfg)
    ensures LookupDefined(rrsets + [DesiredRecord(cfg, ip)], cfg)
    ensures Lookup(rrsets + [DesiredRecord(cfg, ip)], cfg, ip) == RecordLookup(Some(DesiredRecord(cfg, ip)), true)
  {
    var all := rrsets + [DesiredRecord(cfg, ip)];
    assert forall j :: 0 <= j < |rrsets| ==> all[j] == rrsets[j];
    FirstMatchIs(all, cfg, |rrsets|);
  }

  /**
   * Convergence: on a zone with at most one managed record set, a cycle whose
   * requests all succeed leaves a zone that still has at most one, and on
   * which the next cycle with the same address lists and does nothing else.
   */
  lemma Convergence(cfg: Config, env: Environment, next: Environment, rrsets: seq<ResourceRecordSet>)
    requires AtMostOneManaged(rrsets, cfg) && LookupDefined(rrsets, cfg)
    requires env.discovery.Success? && env.listFault.None? && env.deleteFault.None? && env.addFault.None?
    requires next.discovery == env.discovery && next.listFault.None?
    ensures var e := Cycle(cfg, env, rrsets);
            AtMostOneManaged(e.rrsets, cfg) && LookupDefined(e.rrsets, cfg) &&
            Cycle(cfg, next, e.rrsets) == CycleEffect(RecordMatches, [ListCall], e.rrsets)
  {
    var ip := env.discovery.value;
    var found := FirstMatch(rrsets, cfg);
    if found.None? {
      AbsentRecordIsCreated(cfg, env, rrsets);
      DesiredRecordIsFound(rrsets, cfg, ip);
    } else if rrsets[found.value].rrdatas[0] == ip {
      MatchingRecordIsNoOp(cfg, env, rrsets);
    } else {
      var k := found.value;
      StaleRecordIsReplaced(cfg, env, rrsets);
      var rest := rrsets[..k] + rrsets[k + 1..];
      forall j | 0 <= j < |rest| ensures !IsManaged(rest[j], cfg) {
        if j < k {
          assert rest[j] == rrsets[j];
        } else {
          assert rest[j] == rrsets[j + 1];
        }
      }
      DesiredRecordIsFound(rest, cfg, ip);
    }
  }

  /**
   * Repeated idempotence: while every successful discovery returns the same
   * address, a zone whose managed record set already holds it is never
   * changed and receives no change request, however many cycles run and
   * whatever discoveries and listings fail.
   */
  lemma {:induction false} SteadyStateIsStable(cfg: Config, envs: seq<Environment>, rrsets: seq<ResourceRecordSet>, ip: string)
    requires AllHaveData(rrsets) && LookupDefined(rrsets, cfg)
    requires Lookup(rrsets, cfg, ip).doesIpMatch
    requires forall i :: 0 <= i < |envs| ==> envs[i].discovery.Success? ==> envs[i].discovery.value == ip
    ensures var e := Cycles(cfg, envs, rrsets);
            e.rrsets == rrsets && NoChanges(e.calls) &&
            forall i :: 0 <= i < |envs| ==> e.outcomes[i] == RecordMatches || e.outcomes[i].ListFailed? || e.outcomes[i].DiscoveryFailed?
    decreases |envs|
  {
    if envs != [] {
      CyclesUnfold(cfg, envs, rrsets);
      var first := Cycle(cfg, envs[0], rrsets);
      assert first.rrsets == rrsets && NoChanges(first.calls);
      assert first.outcome == RecordMatches || first.outcome.ListFailed? || first.outcome.DiscoveryFailed?;
      SteadyStateIsStable(cfg, envs[1..], rrsets, ip);
      var rest := Cycles(cfg, envs[1..], rrsets);
      forall c | c in first.calls + rest.calls ensures c == ListCall {
        assert c in first.calls || c in rest.calls;
      }
      forall i | 0 <= i < |envs|
        ensures var o := Cycles(cfg, envs, rrsets).outcomes[i]; o == RecordMatches || o.ListFailed? || o.DiscoveryFailed?
      {
        if i > 0 {
          assert Cycles(cfg, envs, rrsets).outcomes[i] == rest.outcomes[i - 1];
          assert envs[1..][i - 1] == envs[i];
        }
      }
    }
  }

  /**
   * Why convergence assumes at most one managed record set: when a second,
   * stale managed record set follows the first, a cycle whose requests all
   * succeed replaces only the first, and the next cycle with the same address
   * finds the second and replaces it too.
   */
  lemma DuplicateRecordsDelayConvergence(cfg: Config, env: Environment, rrsets: seq<ResourceRecordSet>, k2: nat)
    requires AllHaveData(rrsets)
    requires env.discovery.Success? && env.listFault.None? && env.deleteFault.None? && env.addFault.None?
    requires FirstMatch(rrsets, cfg).Some? && |rrsets[FirstMatch(rrsets, cfg).value].rrdatas| > 0
    requires rrsets[FirstMatch(rrsets, cfg).value].rrdatas[0] != env.discovery.value
    requires FirstMatch(rrsets, cfg).value < k2 < |rrsets| && IsManaged(rrsets[k2], cfg)
    requires |rrsets[k2].rrdatas| > 0 && rrsets[k2].rrdatas[0] != env.discovery.value
    requires forall j :: FirstMatch(rrsets, cfg).value < j < k2 ==> !IsManaged(rrsets[j], cfg)
    ensures var k := FirstMatch(rrsets, cfg).value;
            var desired := DesiredRecord(cfg, env.discovery.value);
            var e := Cycle(cfg, env, rrsets);
            e.rrsets == rrsets[..k] + rrsets[k + 1..] + [desired] &&
            CycleDefined(cfg, env, e.rrsets) &&
            Cycle(cfg, env, e.rrsets).outcome == Replaced(None, None) &&
            Cycle(cfg, env, e.rrsets).calls == [ListCall, ChangeCall(Change([], [rrsets[k2]])), ChangeCall(Change([desired], []))]
  {
    var k := FirstMatch(rrsets, cfg).value;
    DataDefinesLookup(rrsets, cfg);
    StaleRecordIsReplaced(cfg, env, rrsets);
    CycleKeepsData(cfg, env, rrsets);
    var e := Cycle(cfg, env, rrsets);
    var desired := DesiredRecord(cfg, env.discovery.value);
    assert e.rrsets == rrsets[..k] + rrsets[k + 1..] + [desired];
    forall j | 0 <= j < k2 - 1 ensures !IsManaged(e.rrsets[j], cfg) {
      if j < k {
        assert e.rrsets[j] == rrsets[j];
      } else {
        assert e.rrsets[j] == rrsets[j + 1];
      }
    }
    assert e.rrsets[k2 - 1] == rrsets[k2];
    FirstMatchIs(e.rrsets, cfg, k2 - 1);
    DataDefinesLookup(e.rrsets, cfg);
    StaleRecordIsReplaced(cfg, env, e.rrsets);
  }
}

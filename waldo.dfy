/**
 * The reconciliation logic of waldo, a dynamic-DNS updater for Google Cloud
 * DNS. Each cycle learns the machine's external IP address, lists the managed
 * zone, picks the record set with the configured name and type, and when that
 * record set's address is stale deletes it and adds one holding the new
 * address; with no such record set it only adds.
 */
module Waldo {
  import opened Wrappers
  import opened CloudDns

  /** The operating parameters, fixed once at startup (the process-wide flag variables). */
  datatype Config = Config(
    recordName: string,   // unqualified host name of the managed record, e.g. "host.example.com"
    recordType: string,   // record type of the managed record, "A" unless configured
    recordTTL: int64,     // TTL given to the record sets the updater adds
    managedZone: string,  // with project, names the zone the updater talks to
    project: string)

  /** The configured host name in the absolute, trailing-dot form the zone listing uses. */
  function FormattedRecordName(recordName: string): (fqdn: string)
    ensures |fqdn| == |recordName| + 1
    ensures fqdn[..|recordName|] == recordName && fqdn[|recordName|] == '.'
  {
    recordName + "."
  }

  /** A record set is the managed one when it has the formatted record name and the configured type. */
  predicate IsManaged(rr: ResourceRecordSet, cfg: Config)
    ensures IsManaged(rr, cfg) <==>
            |rr.name| == |cfg.recordName| + 1 && rr.name[..|cfg.recordName|] == cfg.recordName &&
            rr.name[|cfg.recordName|] == '.' && rr.rrtype == cfg.recordType
  {
    assert |rr.name| == |cfg.recordName| + 1 ==> rr.name == rr.name[..|cfg.recordName|] + [rr.name[|cfg.recordName|]];
    rr.name == FormattedRecordName(cfg.recordName) && rr.rrtype == cfg.recordType
  }

  /** The position of the first managed record set in listing order, if there is one. */
  function FirstMatch(rrsets: seq<ResourceRecordSet>, cfg: Config): (k: Option<nat>)
    ensures k.Some? ==> k.value < |rrsets| && IsManaged(rrsets[k.value], cfg)
    ensures k.Some? ==> forall j :: 0 <= j < k.value ==> !IsManaged(rrsets[j], cfg)
    ensures k.None? <==> forall j :: 0 <= j < |rrsets| ==> !IsManaged(rrsets[j], cfg)
  {
    if rrsets == [] then None
    else if IsManaged(rrsets[0], cfg) then Some(0)
    else match FirstMatch(rrsets[1..], cfg)
      case None => None
      case Some(k) => Some(k + 1)
  }

  /** A managed record set at `k` with none before it is the first match. */
  lemma FirstMatchIs(rrsets: seq<ResourceRecordSet>, cfg: Config, k: nat)
    requires k < |rrsets| && IsManaged(rrsets[k], cfg)
    requires forall j :: 0 <= j < k ==> !IsManaged(rrsets[j], cfg)
    ensures FirstMatch(rrsets, cfg) == Some(k)
  {
  }

  /**
   * The lookup can be evaluated: the first managed record set, if any, has a
   * first data value to compare (it is indexed without a length check).
   */
  predicate LookupDefined(rrsets: seq<ResourceRecordSet>, cfg: Config) {
    FirstMatch(rrsets, cfg).Some? ==> |rrsets[FirstMatch(rrsets, cfg).value].rrdatas| > 0
  }

  /** A zone whose record sets all carry data can always be looked up. */
  lemma DataDefinesLookup(rrsets: seq<ResourceRecordSet>, cfg: Config)
    requires AllHaveData(rrsets)
    ensures LookupDefined(rrsets, cfg)
  {
    var k := FirstMatch(rrsets, cfg);
    if k.Some? {
      assert rrsets[k.value] in rrsets;
    }
  }

  /** What getDNSRecord reports when the listing succeeds: the record set found, and whether it holds the address. */
  datatype RecordLookup = RecordLookup(record: Option<ResourceRecordSet>, doesIpMatch: bool)

  /** The lookup getDNSRecord performs on a successful listing, as a function of the listing. */
  function Lookup(rrsets: seq<ResourceRecordSet>, cfg: Config, ip: string): (r: RecordLookup)
    requires LookupDefined(rrsets, cfg)
    ensures r.record.None? <==> forall j :: 0 <= j < |rrsets| ==> !IsManaged(rrsets[j], cfg)
    ensures r.record.Some? ==> r.record.value in rrsets && IsManaged(r.record.value, cfg) && |r.record.value.rrdatas| > 0
    ensures r.doesIpMatch <==> r.record.Some? && r.record.value.rrdatas[0] == ip
  {
    match FirstMatch(rrsets, cfg)
    case None => RecordLookup(None, false)
    case Some(k) => RecordLookup(Some(rrsets[k]), rrsets[k].rrdatas[0] == ip)
  }

  /**
   * getDNSRecord, given the outcome of the listing request: a failed listing
   * is passed on as the error; otherwise the listing is scanned in order and
   * the first managed record set is reported with whether its first data
   * value is the address.
   */
  method GetDNSRecord(listing: Result<seq<ResourceRecordSet>>, cfg: Config, ipAddress: string)
    returns (record: Option<ResourceRecordSet>, doesIpMatch: bool, err: Option<string>)
    requires listing.Success? ==> LookupDefined(listing.value, cfg)
    ensures listing.Failure? ==> record == None && !doesIpMatch && err == Some(listing.error)
    ensures listing.Success? ==> err == None && RecordLookup(record, doesIpMatch) == Lookup(listing.value, cfg, ipAddress)
  {
    if listing.Failure? {
      return None, false, Some(listing.error);
    }
    var rrsets := listing.value;
    var i := 0;
    while i < |rrsets|
      invariant 0 <= i <= |rrsets|
      invariant forall j :: 0 <= j < i ==> !IsManaged(rrsets[j], cfg)
    {
      var rr := rrsets[i];
      if rr.name == FormattedRecordName(cfg.recordName) && rr.rrtype == cfg.recordType {
        FirstMatchIs(rrsets, cfg, i);
        if rr.rrdatas[0] == ipAddress {
          return Some(rr), true, None;
        }
        return Some(rr), false, None;
      }
      i := i + 1;
    }
    return None, false, None;
  }

  /** The record set addDNSRecord submits: the managed name and type, the address as its only data value, the configured TTL. */
  function DesiredRecord(cfg: Config, ipAddress: string): (rr: ResourceRecordSet)
    ensures IsManaged(rr, cfg)
    ensures rr.rrdatas == [ipAddress] && rr.ttl == cfg.recordTTL
  {
    ResourceRecordSet(FormattedRecordName(cfg.recordName), [ipAddress], cfg.recordTTL, cfg.recordType)
  }

  /** deleteDNSRecord: one change request whose only deletion is the record set exactly as it was read. */
  method DeleteDNSRecord(zone: ManagedZone, rr: ResourceRecordSet, fault: Option<string>) returns (err: Option<string>)
    modifies zone
    ensures zone.calls == old(zone.calls) + [ChangeCall(Change([], [rr]))]
    ensures err == fault
    ensures zone.rrsets == if fault.None? then RemoveFirst(old(zone.rrsets), rr) else old(zone.rrsets)
  {
    AppliedDeletion(zone.rrsets, rr);
    err := zone.Create(Change([], [rr]), fault);
  }

  /** addDNSRecord: one change request whose only addition is the desired record set. */
  method AddDNSRecord(zone: ManagedZone, cfg: Config, ipAddress: string, fault: Option<string>) returns (err: Option<string>)
    modifies zone
    ensures zone.calls == old(zone.calls) + [ChangeCall(Change([DesiredRecord(cfg, ipAddress)], []))]
    ensures err == fault
    ensures zone.rrsets == if fault.None? then old(zone.rrsets) + [DesiredRecord(cfg, ipAddress)] else old(zone.rrsets)
  {
    AppliedAddition(zone.rrsets, DesiredRecord(cfg, ipAddress));
    err := zone.Create(Change([DesiredRecord(cfg, ipAddress)], []), fault);
  }

  /**
   * What the outside world answers during one cycle: the IP discovery result
   * and, for each request the cycle may send, the error it ends in (None: it
   * succeeds).
   */
  datatype Environment = Environment(
    discovery: Result<string>,
    listFault: Option<string>,
    deleteFault: Option<string>,
    addFault: Option<string>)

  /** How a cycle ended, with the errors it met for the caller to log. */
  datatype CycleOutcome =
    | DiscoveryFailed(error: string)
    | ListFailed(error: string)
    | RecordMatches
    | Replaced(deleteError: Option<string>, addError: Option<string>)
    | Created(addError: Option<string>)

  /** A cycle's outcome, the requests it sent in order, and the zone it leaves. */
  datatype CycleEffect = CycleEffect(outcome: CycleOutcome, calls: seq<ApiCall>, rrsets: seq<ResourceRecordSet>)

  /** The cycle can be evaluated: when it gets as far as the lookup, the lookup is defined. */
  predicate CycleDefined(cfg: Config, env: Environment, rrsets: seq<ResourceRecordSet>) {
    env.discovery.Success? && env.listFault.None? ==> LookupDefined(rrsets, cfg)
  }

  /** One iteration of the main loop, as a function of the configuration, the environment and the zone. */
  function Cycle(cfg: Config, env: Environment, rrsets: seq<ResourceRecordSet>): (e: CycleEffect)
    requires CycleDefined(cfg, env, rrsets)
    ensures e.calls == [] <==> env.discovery.Failure?
    ensures e.calls != [] ==> e.calls[0] == ListCall && |e.calls| <= 3
    ensures e.outcome.DiscoveryFailed? <==> env.discovery.Failure?
    ensures e.outcome.ListFailed? <==> env.discovery.Success? && env.listFault.Some?
    ensures e.outcome.DiscoveryFailed? || e.outcome.ListFailed? || e.outcome.RecordMatches? ==> e.rrsets == rrsets
    ensures e.outcome.Replaced? ==> |e.calls| == 3 && e.calls[1].ChangeCall? && e.calls[1].change.additions == [] &&
                                    e.calls[2].ChangeCall? && e.calls[2].change.deletions == []
    ensures e.outcome.Created? ==> |e.calls| == 2 && e.calls[1].ChangeCall? && e.calls[1].change.deletions == []
  {
    match env.discovery
    case Failure(msg) => CycleEffect(DiscoveryFailed(msg), [], rrsets)
    case Success(ip) =>
      if env.listFault.Some? then CycleEffect(ListFailed(env.listFault.value), [ListCall], rrsets)
      else
        var found := Lookup(rrsets, cfg, ip);
        var add := Change([DesiredRecord(cfg, ip)], []);
        match found.record
        case None =>
          CycleEffect(Created(env.addFault), [ListCall, ChangeCall(add)], Committed(rrsets, add, env.addFault))
        case Some(rr) =>
          if found.doesIpMatch then CycleEffect(RecordMatches, [ListCall], rrsets)
          else
            var del := Change([], [rr]);
            var afterDelete := Committed(rrsets, del, env.deleteFault);
            CycleEffect(Replaced(env.deleteFault, env.addFault),
                        [ListCall, ChangeCall(del), ChangeCall(add)],
                        Committed(afterDelete, add, env.addFault))
  }

  /** A cycle never leaves a record set without data in a zone where every record set carries data. */
  lemma CycleKeepsData(cfg: Config, env: Environment, rrsets: seq<ResourceRecordSet>)
    requires CycleDefined(cfg, env, rrsets) && AllHaveData(rrsets)
    ensures AllHaveData(Cycle(cfg, env, rrsets).rrsets)
  {
    if env.discovery.Success? && env.listFault.None? {
      var ip := env.discovery.value;
      var found := Lookup(rrsets, cfg, ip);
      var add := Change([DesiredRecord(cfg, ip)], []);
      var afterDelete := rrsets;
      if found.record.Some? && !found.doesIpMatch {
        afterDelete := Committed(rrsets, Change([], [found.record.value]), env.deleteFault);
        AppliedKeepsData(rrsets, Change([], [found.record.value]));
      }
      AppliedKeepsData(afterDelete, add);
    }
  }

  /**
   * One iteration of the main loop against the zone: discover the address,
   * list and look up, then do nothing, add, or delete and add. A failed
   * delete does not stop the add.
   */
  method RunCycle(zone: ManagedZone, cfg: Config, env: Environment) returns (outcome: CycleOutcome)
    requires CycleDefined(cfg, env, zone.rrsets)
    modifies zone
    ensures var e := Cycle(cfg, env, old(zone.rrsets));
            outcome == e.outcome && zone.calls == old(zone.calls) + e.calls && zone.rrsets == e.rrsets
  {
    if env.discovery.Failure? {
      return DiscoveryFailed(env.discovery.error);
    }
    var externalIP := env.discovery.value;
    var listing := zone.List(env.listFault);
    var record, doesIpMatch, err := GetDNSRecord(listing, cfg, externalIP);
    if err.Some? {
      return ListFailed(err.value);
    }
    var deleteErr := None;
    if record.Some? {
      if doesIpMatch {
        return RecordMatches;
      }
      AppliedDeletion(zone.rrsets, record.value);
      deleteErr := DeleteDNSRecord(zone, record.value, env.deleteFault);
    }
    AppliedAddition(zone.rrsets, DesiredRecord(cfg, externalIP));
    var addErr := AddDNSRecord(zone, cfg, externalIP, env.addFault);
    if record.Some? {
      outcome := Replaced(deleteErr, addErr);
    } else {
      outcome := Created(addErr);
    }
  }

  /** The outcomes, requests and final zone of a finite run of cycles. */
  datatype RunEffect = RunEffect(outcomes: seq<CycleOutcome>, calls: seq<ApiCall>, rrsets: seq<ResourceRecordSet>)

  /** Cycles run one after another, each on the zone the previous one left. */
  function Cycles(cfg: Config, envs: seq<Environment>, rrsets: seq<ResourceRecordSet>): (e: RunEffect)
    requires AllHaveData(rrsets)
    ensures |e.outcomes| == |envs| && AllHaveData(e.rrsets)
    decreases |envs|
  {
    if envs == [] then RunEffect([], [], rrsets)
    else
      DataDefinesLookup(rrsets, cfg);
      var first := Cycle(cfg, envs[0], rrsets);
      CycleKeepsData(cfg, envs[0], rrsets);
      var rest := Cycles(cfg, envs[1..], first.rrsets);
      RunEffect([first.outcome] + rest.outcomes, first.calls + rest.calls, rest.rrsets)
  }

  /** A run of cycles is its first cycle followed by the rest, on the zone the first one leaves. */
  lemma CyclesUnfold(cfg: Config, envs: seq<Environment>, rrsets: seq<ResourceRecordSet>)
    requires AllHaveData(rrsets) && envs != []
    ensures CycleDefined(cfg, envs[0], rrsets) && AllHaveData(Cycle(cfg, envs[0], rrsets).rrsets)
    ensures var first := Cycle(cfg, envs[0], rrsets);
            var rest := Cycles(cfg, envs[1..], first.rrsets);
            Cycles(cfg, envs, rrsets) == RunEffect([first.outcome] + rest.outcomes, first.calls + rest.calls, rest.rrsets)
  {
    DataDefinesLookup(rrsets, cfg);
    CycleKeepsData(cfg, envs[0], rrsets);
  }

  /** Running the cycles from position `i` is the cycle at `i` followed by those after it. */
  lemma CyclesStep(cfg: Config, envs: seq<Environment>, i: nat, rrsets: seq<ResourceRecordSet>)
    requires AllHaveData(rrsets) && i < |envs|
    ensures CycleDefined(cfg, envs[i], rrsets) && AllHaveData(Cycle(cfg, envs[i], rrsets).rrsets)
    ensures var first := Cycle(cfg, envs[i], rrsets);
            var rest := Cycles(cfg, envs[i + 1..], first.rrsets);
            var here := Cycles(cfg, envs[i..], rrsets);
            here.outcomes == [first.outcome] + rest.outcomes && here.calls == first.calls + rest.calls &&
            here.rrsets == rest.rrsets
  {
    CyclesUnfold(cfg, envs[i..], rrsets);
    assert envs[i..][0] == envs[i] && envs[i..][1..] == envs[i + 1..];
  }

  /**
   * After `i` cycles from `start`, the outcomes, requests and zone so far
   * are those of the whole run less what the remaining cycles contribute.
   */
  ghost predicate RunSoFar(cfg: Config, envs: seq<Environment>, start: seq<ResourceRecordSet>, startCalls: seq<ApiCall>,
                           i: nat, outcomes: seq<CycleOutcome>, calls: seq<ApiCall>, rrsets: seq<ResourceRecordSet>)
  {
    i <= |envs| && AllHaveData(start) && AllHaveData(rrsets) &&
    var whole := Cycles(cfg, envs, start);
    var rest := Cycles(cfg, envs[i..], rrsets);
    outcomes + rest.outcomes == whole.outcomes && calls + rest.calls == startCalls + whole.calls &&
    rest.rrsets == whole.rrsets
  }

  /** Running the next cycle keeps the run's bookkeeping. */
  lemma RunSoFarStep(cfg: Config, envs: seq<Environment>, start: seq<ResourceRecordSet>, startCalls: seq<ApiCall>,
                     i: nat, outcomes: seq<CycleOutcome>, calls: seq<ApiCall>, rrsets: seq<ResourceRecordSet>)
    requires RunSoFar(cfg, envs, start, startCalls, i, outcomes, calls, rrsets) && i < |envs|
    ensures CycleDefined(cfg, envs[i], rrsets)
    ensures var e := Cycle(cfg, envs[i], rrsets);
            RunSoFar(cfg, envs, start, startCalls, i + 1, outcomes + [e.outcome], calls + e.calls, e.rrsets)
  {
    CyclesStep(cfg, envs, i, rrsets);
    var e := Cycle(cfg, envs[i], rrsets);
    var rest := Cycles(cfg, envs[i + 1..], e.rrsets);
    assert calls + (e.calls + rest.calls) == (calls + e.calls) + rest.calls;
    assert outcomes + ([e.outcome] + rest.outcomes) == (outcomes + [e.outcome]) + rest.outcomes;
  }

  /** The main loop, run for one cycle per environment (the sleep between cycles is not modelled). */
  method Run(zone: ManagedZone, cfg: Config, envs: seq<Environment>) returns (outcomes: seq<CycleOutcome>)
    requires AllHaveData(zone.rrsets)
    modifies zone
    ensures outcomes == Cycles(cfg, envs, old(zone.rrsets)).outcomes
    ensures zone.calls == old(zone.calls) + Cycles(cfg, envs, old(zone.rrsets)).calls
    ensures zone.rrsets == Cycles(cfg, envs, old(zone.rrsets)).rrsets
  {
    outcomes := [];
    var i := 0;
    assert envs[0..] == envs;
    while i < |envs|
      invariant RunSoFar(cfg, envs, old(zone.rrsets), old(zone.calls), i, outcomes, zone.calls, zone.rrsets)
    {
      RunSoFarStep(cfg, envs, old(zone.rrsets), old(zone.calls), i, outcomes, zone.calls, zone.rrsets);
      var outcome := RunCycle(zone, cfg, envs[i]);
      outcomes := outcomes + [outcome];
      i := i + 1;
    }
    assert envs[i..] == [];
  }
}

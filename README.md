# waldo: a model of a dynamic-DNS reconciliation cycle

waldo keeps one DNS record in a Google Cloud DNS managed zone pointed at the
machine's current external IP address. It runs a loop. Each iteration asks an
IP discovery service for the address and lists the zone. It then picks the
first record set whose name is the configured host name with a trailing dot
and whose type is the configured type. From there it does one of three things:

- If that record set's first data value is the address, it does nothing.
- If the record set holds another address, it deletes it exactly as read and
  then adds a fresh record set for the address.
- If there is no such record set, it only adds one.

The added record set has the formatted name, the single data value `[ip]`,
the configured TTL and the configured type. A failed discovery or listing
ends the iteration without any change request. A failed delete does not stop
the add.

The project has four modules:

- `Wrappers` (`wrappers.dfy`): `Option` and `Result`. They stand for Go's nil
  pointers and for its `(value, error)` returns.
- `CloudDns` (`cloud_dns.dfy`): the part of the Cloud DNS API the program uses.
  It defines record sets, changes, and a `ManagedZone` class. The class holds
  the zone's record sets in listing order. It also keeps a ghost log of every request it
  receives, so that "no request", "one delete then one add" and similar facts
  can be stated. A committed change removes its deletions (the first equal
  record set each) and appends its additions. A failed request leaves the
  zone as it was.
- `Waldo` (`waldo.dfy`): the program's own logic. It holds the configuration,
  `FormattedRecordName` (getFormattedRecordName) and `GetDNSRecord` (a search
  loop, proved against the function `Lookup`/`FirstMatch`). It also holds
  `DeleteDNSRecord` and `AddDNSRecord`. `RunCycle` is one loop iteration as a
  method on the zone, proved against the function `Cycle`. `Run` is a finite
  run of the loop, proved against `Cycles`.
- `ReconcilerProperties` (`reconciler_properties.dfy`): lemmas about
  `Lookup` and `Cycle`. They cover first-match selection, inert failures,
  idempotence, the replace and create shapes, one-cycle convergence, and
  stability over many cycles.

Each cycle's outside world is an `Environment` value. It holds the IP
discovery result and, for each of the three provider requests (list, delete,
add), the error that request ends in, if any.

## Model

| member | source | states |
|---|---|---|
| `Waldo.FormattedRecordName` | waldo.go:54-56 | the formatted name is the configured name with exactly one `.` appended and nothing else changed |
| `ReconcilerProperties.CanonicalNameMatch` | waldo.go:92 | a listed name matches the configured name if and only if it is that name followed by a single trailing dot |
| `ReconcilerProperties.FormattedRecordNameInjective` | waldo.go:54-56 | two configured names format to the same owner name only when they are equal; no name equals its own formatted form, so the unqualified name never matches |
| `Waldo.IsManaged` | waldo.go:92-93 | a record set is the managed one exactly when its name is the configured name followed by one dot and its type is the configured type |
| `Waldo.FirstMatch` | waldo.go:91-101 | the result is the least position whose record set has the formatted name and the configured type, or none exactly when no record set has both |
| `Waldo.Lookup` | waldo.go:91-103 | no record exactly when no record set matches name and type; otherwise a matching record set from the listing; `doesIpMatch` holds exactly when a record was found and its first data value is the address |
| `Waldo.DataDefinesLookup` | waldo.go:94 | when every record set carries data, the unchecked `Rrdatas[0]` of the matched record set is always defined |
| `Waldo.GetDNSRecord` | waldo.go:85-104 | a failed listing gives no record, `false` and the listing's error; otherwise the scan in listing order returns no error and the record and flag that `Lookup` gives |
| `ReconcilerProperties.LookupFindsFirst` | waldo.go:91-99 | the record set reported is the first managed one in listing order, and its flag is the comparison of its first data value with the address |
| `ReconcilerProperties.LookupIgnoresLaterRecords` | waldo.go:91-101 | record sets listed after the first managed one, including further managed duplicates, do not change the lookup |
| `ReconcilerProperties.IpMatchIgnoresTtlAndLaterData` | waldo.go:94-99 | changing the matched record set's TTL or its data values after the first does not change `doesIpMatch` |
| `Waldo.DesiredRecord` | waldo.go:120-125 | the record set to add has the managed name and type, `[ip]` as its only data, and the configured TTL |
| `CloudDns.AppliedDeletion` | waldo.go:108-112 | a change whose only deletion is the record set removes the first record set equal to it |
| `CloudDns.AppliedAddition` | waldo.go:127-131 | a change whose only addition is the record set appends it to the zone |
| `CloudDns.ManagedZone.List` | waldo.go:86-89 | a listing request is logged; it returns the zone's record sets, or the error the request ends in |
| `CloudDns.ManagedZone.Create` | waldo.go:112 | a change request is logged; it commits the whole change on success and leaves the zone unchanged on failure, and it returns that error |
| `Waldo.DeleteDNSRecord` | waldo.go:106-117 | sends exactly one change whose only deletion is the record set as read; on success that record set is removed; the request's error is returned |
| `Waldo.AddDNSRecord` | waldo.go:119-137 | sends exactly one change whose only addition is the desired record set; on success it is appended; the request's error is returned |
| `Waldo.Cycle` | waldo.go:166-200 | one loop iteration as a function: no request exactly when discovery fails, otherwise the listing comes first, with at most three requests in all; discovery and listing failures are reported as such; failures and a matching record leave the zone unchanged; a replacement is a deletion then an addition, a creation an addition alone |
| `Waldo.RunCycle` | waldo.go:166-200 | one loop iteration's outcome, the requests it sends and the zone it leaves are those `Cycle` gives for the old zone |
| `Waldo.CycleKeepsData` | waldo.go:189-196 | a cycle never leaves a record set without data in a zone where every record set had data |
| `Waldo.Cycles` | waldo.go:166-201 | a run gives one outcome per cycle and keeps every record set carrying data |
| `Waldo.Run` | waldo.go:166-201 | the loop run once per environment gives the outcomes, requests and final zone that `Cycles` gives |
| `ReconcilerProperties.FailuresAreInert` | waldo.go:167-180 | a failed discovery sends no request at all; a failed listing sends only the listing; neither changes the zone |
| `ReconcilerProperties.MatchingRecordIsNoOp` | waldo.go:182-187 | a first managed record set that already holds the address gives one listing, no change request and an unchanged zone |
| `ReconcilerProperties.StaleRecordIsReplaced` | waldo.go:188-196 | a stale first managed record set gives a listing, one deletion of that record set exactly as read, then one addition of the desired record set, even when the delete fails; the final zone is given for each of the four success and failure combinations |
| `ReconcilerProperties.AbsentRecordIsCreated` | waldo.go:195-199 | with no managed record set, the cycle sends a listing and exactly one addition of the desired record set, and no deletion |
| `ReconcilerProperties.DesiredRecordIsFound` | waldo.go:119-125 | appending the desired record set to a zone with no managed one makes it the only managed one, and the lookup finds it with a matching address |
| `ReconcilerProperties.Convergence` | waldo.go:182-196 | on a zone with at most one managed record set, a cycle whose requests all succeed leaves at most one, and the next cycle with the same address only lists |
| `ReconcilerProperties.SteadyStateIsStable` | waldo.go:166-187 | while every successful discovery returns the address that the managed record set holds, any number of cycles leave the zone unchanged and send no change request |
| `ReconcilerProperties.DuplicateRecordsDelayConvergence` | waldo.go:91-101 | for any zone where a stale managed record set follows the stale first one, a fully successful cycle removes only the first and appends the desired record set, and the next cycle with the same address sends a listing, a deletion of the second exactly as read and another addition of the desired record set |

## Left out

- Flag parsing and defaults (waldo.go:37-52): the configuration is a given immutable `Config` value.
- `getHttpClient` and setting `GOOGLE_APPLICATION_CREDENTIALS` (waldo.go:58-83, 146-156): file reading, OAuth/JWT and the Google client library are foreign calls. The exit with status 1 when they fail is not modelled.
- The IP discovery call and the HTTP requests (waldo.go:86, 112, 131, 167): their results are inputs, one `Environment` per cycle. Cloud DNS's own reasons to refuse a change are part of the injected error, not modelled. For example, it refuses an addition whose name and type already exist, or a deletion that does not match.
- The signal goroutine and `os.Exit(0)` (waldo.go:143-163): asynchronous termination is not modelled.
- `time.Sleep(waitDuration)` and the unbounded `for {}` loop (waldo.go:166-201): the sleep is left out, and `Run` models any finite number of iterations.
- Logging with `fmt.Printf`: instead, the errors a cycle meets are carried in its `CycleOutcome`.
- One-shot mode and discovery-only mode: the source has neither. It has no one-shot flag, and an empty `credentialsPath` makes client creation fail at startup.
- The TTL flag is documented in minutes. The code passes the value to the record set unconverted, and the model does the same.
- CloudDns.ManagedZone.List: returns the whole zone as the listing. The source makes one `List(...).Do()` request and reads only that response's `Rrsets`, never following `NextPageToken`. In a zone larger than one page the managed record set can be missed and an add sent; the lookup, idempotence and convergence lemmas do not cover that case.
- Run: assumes that nothing but the cycles' own requests changes the zone between cycles. Another writer, such as one changing the TTL, is not modelled; `Cycles` and `SteadyStateIsStable` inherit this.
- `Config.managedZone` and `Config.project` name the zone. In the model the `ManagedZone` object stands for that zone.
- GetDNSRecord: requires the first managed record set to have at least one data value. The source indexes `Rrdatas[0]` without a check and would panic there. The model does not represent that crash.
- RunCycle: requires the same of the listed zone when discovery and listing succeed, for the same reason.
- Run: requires every record set in the zone to carry data. This is more than one cycle needs. Cloud DNS refuses empty record sets, and it lets the requirement hold from cycle to cycle.

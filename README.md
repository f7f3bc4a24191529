# AzureDNSUpdater in Dafny

A model of the core of AzureDNSUpdater, a background service that keeps a set
of A records of an Azure DNS zone pointing at the machine's public IPv4
address. The model covers three things:

- **The record set.** `TimedDnsZoneUpdaterOptions.GetRecords` splits the
  comma-separated `RecordSet` setting and drops empty entries. Each token
  becomes a `DnsRecord(Name, HostName)`: the apex token `@` maps to the zone
  name itself, and any other label `t` maps to `t.Domain`. The list is
  memoised in `_records` on the first call. Module `RecordSet` has the pure
  parse (`Split`, `Tokens`, `ParseRecords`). Module `UpdaterOptions` has the
  options class with its one-shot cache.
- **One reconciliation pass** (`TimedDnsZoneUpdater.DoWork`). The pass looks up
  the zone, then discovers the public address, then walks the records in
  order. A record is rewritten when its host name's first resolved address is
  missing or differs from the current address. The rewrite replaces the
  address list with that one address and sets the TTL to `Interval`.
  - Module `Reconcile` states the pass as a function (`RunPass`,
    `RunRecords`) and proves its properties.
  - Module `AzureDns` is the zone: a map from record name to (address list,
    TTL). It also defines the address and record-data values. Fetched records are separate objects that the pass changes in place
    before submitting them.
  - Module `Updater` has `DoWork` as imperative code, proved equal to
    `RunPass`. Its `foreach` loop is the method `ReconcileRecords`, and the
    loop body is the method `ReconcileRecord`, so that each is proved on its
    own.
- **The service loop** (`ExecuteAsync`). Module `Scheduler` models it: one pass
  before the timer is created, then one pass per tick until cancellation.

Addresses are compared by value, as `IPAddress.Equals` does. An address is an
IPv4 value (`bv32`) or an IPv6 value, because resolution may return either.

Where the design description and the code differ, the model follows the code:

- **No per-record isolation.** The loop in `DoWork` has no handler. A record
  whose host name is unknown, whose A record set is missing, or whose update
  the provider refuses ends the whole pass. Later records are not looked at
  (`PassStopsAtFirstFailure`).
- **A failed pass ends the service.** The only handler in `ExecuteAsync`
  catches `OperationCanceledException`, and the first pass runs outside it.
  So any other exception from a pass leaves `ExecuteAsync`, and no retry
  happens on the next tick (`FailedPassEndsService`). A canceled first pass
  escapes too (`FirstPassCancellationEscapes`).
- **A timeout counts as cancellation.** The handler catches every
  `OperationCanceledException`. That includes the `TaskCanceledException`
  of a timed-out public-IP request. So such a timeout in a later pass stops
  the service as cleanly as the stopping token does
  (`CanceledPassStopsCleanly`), and in the first pass it escapes.
- **The zone is looked up first.** The lookup comes before the public-IP
  request, so a pass where both fail reports the zone lookup (`RunPass`).
- **An unknown host name ends the pass.** Resolving it throws, so the pass
  stops. Only a resolution that succeeds but returns no address counts as
  "needs update".
- **The timer can reject the interval.** A periodic timer accepts only
  periods from 1 ms to 0xFFFFFFFE ms. With any other `Interval`, the service
  faults right after its first pass (`BadIntervalFaultsAfterFirstPass`). This
  limit is the .NET `PeriodicTimer` rule, written out in `TimerAccepts`.

## Model

| member | source | states |
|---|---|---|
| RecordSet.Split | AzureDNSUpdater/TimedDnsZoneUpdaterOptions.cs:18 | splitting on the comma always gives at least one part, and no part contains a comma |
| RecordSet.JoinSplit | AzureDNSUpdater/TimedDnsZoneUpdaterOptions.cs:18 | splitting loses nothing: joining the parts with commas gives back the original `RecordSet` |
| RecordSet.RemoveEmpty | AzureDNSUpdater/TimedDnsZoneUpdaterOptions.cs:18 | `RemoveEmptyEntries`: a string is kept exactly when it is one of the parts and is not empty; there are never more entries than parts |
| RecordSet.Tokens | AzureDNSUpdater/TimedDnsZoneUpdaterOptions.cs:18 | every token is non-empty and has no comma, and every non-empty part of the split is a token |
| RecordSet.TokensAppend | AzureDNSUpdater/TimedDnsZoneUpdaterOptions.cs:18 | the tokens of `s,t` are the tokens of `s` followed by those of `t`: input order is kept and nothing is deduplicated |
| RecordSet.OnlyCommasNoTokens | AzureDNSUpdater/TimedDnsZoneUpdaterOptions.cs:18 | an empty `RecordSet`, or one made only of commas, has no tokens |
| RecordSet.SingleLabel | AzureDNSUpdater/TimedDnsZoneUpdaterOptions.cs:18 | a non-empty label without a comma is exactly one token, taken verbatim |
| RecordSet.TokensKeepEveryOtherCharacter | AzureDNSUpdater/TimedDnsZoneUpdaterOptions.cs:18 | tokens are not trimmed: concatenated, they give `RecordSet` with only its commas removed |
| RecordSet.ToRecord | AzureDNSUpdater/TimedDnsZoneUpdaterOptions.cs:19-25 | the record's name is its token; its host name is the zone name itself exactly when the token is `@`; every host name ends with the zone name |
| RecordSet.ToRecords | AzureDNSUpdater/TimedDnsZoneUpdaterOptions.cs:19-26 | `Select`: one record per token, position by position, each the record of its own token |
| RecordSet.ParseRecords | AzureDNSUpdater/TimedDnsZoneUpdaterOptions.cs:18-26 | as many records as tokens; the i-th record is named by the i-th token; every host name lies in the zone, ending with `Domain` |
| RecordSet.ParseRecordsShape | AzureDNSUpdater/TimedDnsZoneUpdaterOptions.cs:18-26 | there is one record per token, in token order; each record's name is its token; `@` gives host name `Domain`, any other token `t` gives `t + "." + Domain` |
| RecordSet.ParsedNamesWellFormed | AzureDNSUpdater/TimedDnsZoneUpdaterOptions.cs:18-25 | every parsed record's name is non-empty and has no comma |
| RecordSet.RepeatedLabelsRepeatRecords | AzureDNSUpdater/TimedDnsZoneUpdaterOptions.cs:18-26 | no deduplication: a record set written twice yields its record list twice |
| RecordSet.OnlyCommasNoRecords | AzureDNSUpdater/TimedDnsZoneUpdaterOptions.cs:18-26 | an empty or comma-only `RecordSet` yields an empty record list |
| RecordSet.ThreeLabels | AzureDNSUpdater/TimedDnsZoneUpdaterOptions.cs:18-26 | three comma-separated labels yield exactly their three records, in order |
| RecordSet.ApexAndTwoLabels | AzureDNSUpdater/TimedDnsZoneUpdaterOptions.cs:18-26 | `"@,www,api"` yields `("@", Domain)`, `("www", "www." + Domain)`, `("api", "api." + Domain)`, in that order |
| UpdaterOptions.TimedDnsZoneUpdaterOptions.constructor | AzureDNSUpdater/TimedDnsZoneUpdaterOptions.cs:5-14 | a fresh options object holds its settings and has no cached record list |
| UpdaterOptions.TimedDnsZoneUpdaterOptions.GetRecords | AzureDNSUpdater/TimedDnsZoneUpdaterOptions.cs:16-29 | on the first call, returns the parse of the current `RecordSet` and `Domain` and caches it; later calls return the cached list; the cache then holds the returned list |
| UpdaterOptions.RecordsSurviveReconfiguration | AzureDNSUpdater/TimedDnsZoneUpdaterOptions.cs:18-28 | changing `RecordSet` and `Domain` after a call does not change what the next call returns |
| Reconcile.FirstAddress | AzureDNSUpdater/TimedDnsZoneUpdater.cs:88-92 | a resolution with no address gives none; otherwise it gives the first address returned |
| Reconcile.Step | AzureDNSUpdater/TimedDnsZoneUpdater.cs:62-77 | one record fails exactly when the reference condition `RecordFails` holds (unknown host, or drifted with no record set or a refused update), with that record's own failure and no change; otherwise its name is updated exactly when it has drifted; the zone afterwards is the old zone with exactly the updated names overwritten by the current address and the interval as TTL |
| Reconcile.RunRecords | AzureDNSUpdater/TimedDnsZoneUpdater.cs:60-78 | the record loop never adds or removes a record set, updates at most once per configured record, and updates only configured names |
| Reconcile.RunPass | AzureDNSUpdater/TimedDnsZoneUpdater.cs:50-57 | a failed zone lookup ends the pass with that failure, whether or not the public-IP request would succeed; a failed public-IP request ends it after the lookup; either way no record is updated and the zone is unchanged |
| Reconcile.UpdateCondition | AzureDNSUpdater/TimedDnsZoneUpdater.cs:62-65 | a resolved record needs an update exactly when no address came back or the first address differs from the current one |
| Reconcile.PassOverwritesOnly | AzureDNSUpdater/TimedDnsZoneUpdater.cs:60-73 | after any pass, even a failed one: every updated record holds only the current address with TTL equal to the interval; every other record is unchanged; no record set is added or removed; only configured names that exist in the zone are updated; there are at most as many updates as records |
| Reconcile.PassCompletes | AzureDNSUpdater/TimedDnsZoneUpdater.cs:60-78 | when no record fails, the pass ends without failure and updates exactly the drifted records, in configuration order |
| Reconcile.PassStopsAtFirstFailure | AzureDNSUpdater/TimedDnsZoneUpdater.cs:60-78 | the first failing record ends the pass with its own failure (unknown host, missing record set or rejected update); only the drifted records before it were updated |
| Reconcile.DriftedNamesMembership | AzureDNSUpdater/TimedDnsZoneUpdater.cs:60-65 | a name is among the drifted names exactly when some configured, resolved record with that name has drifted |
| Reconcile.AllCurrentNoUpdates | AzureDNSUpdater/TimedDnsZoneUpdater.cs:62-77 | when every record already resolves to the current address, the pass issues no update and changes nothing |
| Reconcile.FirstFailureOrCompletion | AzureDNSUpdater/TimedDnsZoneUpdater.cs:60-78 | a pass over the records that ends without failure met no failing record |
| Reconcile.CompletedPassLeavesCurrent | AzureDNSUpdater/TimedDnsZoneUpdater.cs:65-72 | if DNS showed the zone's data, then after a completed pass every configured record's first address is the current address |
| Reconcile.SecondPassIssuesNoUpdates | AzureDNSUpdater/TimedDnsZoneUpdater.cs:62-73 | idempotence: if DNS showed the zone's data before a completed pass and shows it again afterwards, a second pass with the same public address issues no update and changes nothing |
| AzureDns.DnsZone.constructor | AzureDNSUpdater/TimedDnsZoneUpdater.cs:56 | the zone looked up holds the given A record sets and the given refusals, and no update has been applied yet |
| AzureDns.DnsARecordResource.constructor | AzureDNSUpdater/TimedDnsZoneUpdater.cs:68 | a fetched record set carries its name and exactly the stored data (`Data()`) |
| AzureDns.DnsZone.GetDnsARecord | AzureDNSUpdater/TimedDnsZoneUpdater.cs:68 | fetching gives a fresh copy of the stored record set, or nothing when the zone has no record set of that name |
| AzureDns.DnsZone.Update | AzureDNSUpdater/TimedDnsZoneUpdater.cs:72 | submitting stores the record's data under its name and logs the update, unless the provider refuses it; a refusal changes nothing |
| Updater.DoWork | AzureDNSUpdater/TimedDnsZoneUpdater.cs:48-79 | the imperative pass (fetch, clear, add the current address, set the TTL, submit) leaves the zone and the applied-update log exactly as `RunPass` says and returns its failure; the record list is memoised only when the pass reaches the loop |
| Updater.ReconcileRecords | AzureDNSUpdater/TimedDnsZoneUpdater.cs:60-78 | the `foreach` loop over the records leaves the zone, the applied-update log and the result exactly as the record-by-record specification `RunFrom` says: it stops at the first failing record and otherwise visits every record in order |
| Updater.ReconcileRecord | AzureDNSUpdater/TimedDnsZoneUpdater.cs:62-77 | one iteration of the loop (resolve, compare, fetch, clear, add the current address, set the TTL, submit) has exactly the effect and result of `Step` on that record |
| Reconcile.RunFromIsRunRecords | AzureDNSUpdater/TimedDnsZoneUpdater.cs:60-78 | walking the records by index from position `i` gives the same pass as the recursive definition over the suffix starting at `i` |
| Scheduler.ExecuteAsync | AzureDNSUpdater/TimedDnsZoneUpdater.cs:24-46 | the imperative service loop starts exactly the passes and ends exactly as `Schedule` says |
| Scheduler.TimerAccepts | AzureDNSUpdater/TimedDnsZoneUpdater.cs:33 | a periodic timer of `Interval` seconds can be created exactly when `Interval` is between 1 and 4294967 |
| Scheduler.Loop | AzureDNSUpdater/TimedDnsZoneUpdater.cs:35-45 | from pass `k` on, the timer loop starts at most one pass per tick, and it ends neither with an escaped first-pass cancellation nor with a timer fault |
| Scheduler.Schedule | AzureDNSUpdater/TimedDnsZoneUpdater.cs:31-45 | one pass always runs before any wait, and at most one pass runs per tick; a refused timer ends the service after exactly one pass |
| Scheduler.FirstPassCancellationEscapes | AzureDNSUpdater/TimedDnsZoneUpdater.cs:31-45 | a canceled first pass escapes `ExecuteAsync` unhandled before any timer exists, and that is the only way the service ends with an escaped cancellation |
| Scheduler.QuietServiceStopsCleanly | AzureDNSUpdater/TimedDnsZoneUpdater.cs:31-45 | when every pass completes, there are exactly one pass plus one per tick, and cancellation in a wait stops the service cleanly without another pass |
| Scheduler.FailedPassEndsService | AzureDNSUpdater/TimedDnsZoneUpdater.cs:31-45 | a failing pass, first or later, is the last pass, and the service ends faulted with its failure |
| Scheduler.CanceledPassStopsCleanly | AzureDNSUpdater/TimedDnsZoneUpdater.cs:35-45 | a pass canceled inside the timer loop is the last pass, and the service stops cleanly |
| Scheduler.BadIntervalFaultsAfterFirstPass | AzureDNSUpdater/TimedDnsZoneUpdater.cs:31-33 | after a completed first pass, the service faults before any wait exactly when the timer refuses the interval |

## Left out

- The Azure SDK object graph and credentials (`ArmClient`, `ClientSecretCredential`, and the subscription, resource-group and zone lookups) are foreign calls. The model reduces them to one input: the zone, or null when any of the lookups fails.
- Public-IP discovery is an HTTP request, and `IPAddress.Parse` parses the response. The model takes the result as an input value, or none when the request or the parse fails.
- DNS resolution (`Dns.GetHostAddressesAsync`) is network I/O. The model uses a map from host name to the returned address list. A host missing from the map is one the resolver reports as unknown.
- Which updates the provider refuses is a fixed set of record names. In reality the result can vary between calls (transient errors, concurrent writers, ETags).
- Other writers can change the zone between the fetch and the update. Not modelled.
- `PeriodicTimer`, `CancellationToken` and async/await are not modelled. The scheduler sees only how each pass ended and how many ticks came before cancellation. Wall-clock time, missed ticks and mid-call cancellation are not modelled.
- Scheduler.ExecuteAsync: the outcome of each pass is an input. It is not derived from `Updater.DoWork`, and cancellation inside a pass is not part of `DoWork`.
- Configuration strings are never null in the model. A missing `RecordSet` would throw in `Split`.
- IPv6 scope identifiers are not part of the address value.
- Logging has no behavioural content.
- `Program.cs` is host and dependency-injection wiring only.

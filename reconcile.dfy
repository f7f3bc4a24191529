/** One reconciliation pass (TimedDnsZoneUpdater.DoWork) as a function of
    its inputs: the outcome of the zone lookup, the discovered public
    address, the records to check, what DNS resolution answers, which
    updates the provider rejects, the TTL to write and the zone's A records
    before the pass. Module Updater proves the imperative pass equal to it. */
module Reconcile {
  import opened Wrappers
  import opened RecordSet
  import opened AzureDns

  /** Why a pass stops early. Each one is an exception thrown out of DoWork. */
  datatype PassFailure =
    | ZoneLookupFailed            // subscription, resource group or zone not reachable
    | IpDiscoveryFailed           // the public-IP request or its parsing failed
    | ResolutionFailed(host: string)  // DNS knows no such host name
    | RecordNotFound(name: string)    // the zone has no A record set of that name
    | UpdateRejected(name: string)    // the provider refused the update

  /** The result of a pass: the zone's records afterwards, the names whose
      update was applied (in order) and the failure that ended it, if any. */
  datatype Pass = Pass(store: map<string, ARecordData>, updated: seq<string>, failure: Option<PassFailure>)

  /** What a pass works against once the zone and the public address are known. */
  datatype Context = Context(currentIp: IpAddress, dns: map<string, seq<IpAddress>>, rejected: set<string>, ttl: int)

  /** `ips.FirstOrDefault()`: the first resolved address, or none for an empty answer. */
  function FirstAddress(ips: seq<IpAddress>): (first: Option<IpAddress>)
    ensures first.None? <==> ips == []
    ensures first.Some? ==> first.value in ips && first.value == ips[0]
  {
    if ips == [] then None else Some(ips[0])
  }

  /** `!currentIp.Equals(hostNameIp)`: a missing answer never equals. */
  predicate NeedsUpdate(currentIp: IpAddress, resolved: Option<IpAddress>)
  {
    resolved != Some(currentIp)
  }

  /** A record whose published address is not the current one. */
  predicate Drifted(ctx: Context, r: DnsRecord)
    requires r.hostName in ctx.dns
  {
    NeedsUpdate(ctx.currentIp, FirstAddress(ctx.dns[r.hostName]))
  }

  /** The data an update writes: the current address alone, TTL = interval. */
  function Refreshed(ctx: Context): ARecordData
  {
    ARecordData([ctx.currentIp], ctx.ttl)
  }

  /** One iteration of the `foreach` body: resolve, compare, and for a
      drifted record fetch it, overwrite it and submit it. */
  function Step(ctx: Context, r: DnsRecord, store: map<string, ARecordData>): (step: Pass)
    ensures step.failure.Some? <==> RecordFails(ctx, store.Keys, r)
    ensures step.failure.Some? ==>
      step.failure == Some(FailureOf(ctx, store.Keys, r)) && step.updated == [] && step.store == store
    ensures step.failure.None? ==> step.updated == (if Drifted(ctx, r) then [r.name] else [])
    ensures OverwrittenExactly(store, step.store, step.updated, Refreshed(ctx))
  {
    if r.hostName !in ctx.dns then Pass(store, [], Some(ResolutionFailed(r.hostName)))
    else if !Drifted(ctx, r) then Pass(store, [], None)
    else if r.name !in store then Pass(store, [], Some(RecordNotFound(r.name)))
    else if r.name in ctx.rejected then Pass(store, [], Some(UpdateRejected(r.name)))
    else Pass(store[r.name := Refreshed(ctx)], [r.name], None)
  }

  /** The `foreach` loop over the records, from a given zone state: the
      first failing iteration ends it. */
  function RunRecords(recs: seq<DnsRecord>, ctx: Context, store: map<string, ARecordData>): (p: Pass)
    ensures p.store.Keys == store.Keys
    ensures |p.updated| <= |recs|
    ensures forall n :: n in p.updated ==> n in Names(recs)
    decreases |recs|
  {
    if recs == [] then Pass(store, [], None)
    else
      var step := Step(ctx, recs[0], store);
      if step.failure.Some? then step
      else
        var rest := RunRecords(recs[1..], ctx, step.store);
        Pass(rest.store, step.updated + rest.updated, rest.failure)
  }

  /** RunRecords over the records from position i on, by index. */
  function RunFrom(recs: seq<DnsRecord>, i: nat, ctx: Context, store: map<string, ARecordData>): Pass
    requires i <= |recs|
    decreases |recs| - i
  {
    if i == |recs| then Pass(store, [], None)
    else
      var step := Step(ctx, recs[i], store);
      if step.failure.Some? then step
      else
        var rest := RunFrom(recs, i + 1, ctx, step.store);
        Pass(rest.store, step.updated + rest.updated, rest.failure)
  }

  /** A pass result preceded by updates already applied. */
  function After(applied: seq<string>, p: Pass): Pass
  {
    Pass(p.store, applied + p.updated, p.failure)
  }

  /** One iteration of RunFrom that does not fail. */
  lemma RunFromStep(recs: seq<DnsRecord>, i: nat, ctx: Context, store: map<string, ARecordData>, done: seq<string>)
    requires i < |recs|
    requires Step(ctx, recs[i], store).failure.None?
    ensures var step := Step(ctx, recs[i], store);
      After(done, RunFrom(recs, i, ctx, store)) == After(done + step.updated, RunFrom(recs, i + 1, ctx, step.store))
  {
    var step := Step(ctx, recs[i], store);
    var rest := RunFrom(recs, i + 1, ctx, step.store);
    assert done + (step.updated + rest.updated) == (done + step.updated) + rest.updated;
  }

  /** An iteration of RunFrom that fails ends it. */
  lemma RunFromFails(recs: seq<DnsRecord>, i: nat, ctx: Context, store: map<string, ARecordData>)
    requires i < |recs|
    requires Step(ctx, recs[i], store).failure.Some?
    ensures RunFrom(recs, i, ctx, store) == Step(ctx, recs[i], store)
  {
  }

  lemma {:induction false} RunFromIsRunRecords(recs: seq<DnsRecord>, i: nat, ctx: Context, store: map<string, ARecordData>)
    requires i <= |recs|
    ensures RunFrom(recs, i, ctx, store) == RunRecords(recs[i..], ctx, store)
    decreases |recs| - i
  {
    if i < |recs| {
      assert recs[i..][0] == recs[i] && recs[i..][1..] == recs[i + 1..];
      var step := Step(ctx, recs[i], store);
      if step.failure.None? {
        RunFromIsRunRecords(recs, i + 1, ctx, step.store);
      }
    }
  }

  /** A whole pass: the zone lookup comes first, then the public address,
      then the records. */
  function RunPass(zoneFound: bool, publicIp: Option<IpAddress>, recs: seq<DnsRecord>,
                   dns: map<string, seq<IpAddress>>, rejected: set<string>, ttl: int,
                   store: map<string, ARecordData>): (p: Pass)
    ensures !zoneFound ==> p.failure == Some(ZoneLookupFailed)
    ensures zoneFound && publicIp.None? ==> p.failure == Some(IpDiscoveryFailed)
    ensures !zoneFound || publicIp.None? ==> p.updated == [] && p.store == store
  {
    if !zoneFound then Pass(store, [], Some(ZoneLookupFailed))
    else if publicIp.None? then Pass(store, [], Some(IpDiscoveryFailed))
    else RunRecords(recs, Context(publicIp.value, dns, rejected, ttl), store)
  }

  // ---------------------------------------------------------------------
  // Reference definitions

  /** A record stops the pass: its host does not resolve, or it needs an
      update that cannot be fetched or is rejected. `names` are the zone's
      record names, which a pass never changes. */
  predicate RecordFails(ctx: Context, names: set<string>, r: DnsRecord)
  {
    r.hostName !in ctx.dns || (Drifted(ctx, r) && (r.name !in names || r.name in ctx.rejected))
  }

  function FailureOf(ctx: Context, names: set<string>, r: DnsRecord): PassFailure
    requires RecordFails(ctx, names, r)
  {
    if r.hostName !in ctx.dns then ResolutionFailed(r.hostName)
    else if r.name !in names then RecordNotFound(r.name)
    else UpdateRejected(r.name)
  }

  /** The names of the resolved, drifted records, in order, duplicates kept. */
  function DriftedNames(ctx: Context, recs: seq<DnsRecord>): seq<string>
    decreases |recs|
  {
    if recs == [] then []
    else if recs[0].hostName in ctx.dns && Drifted(ctx, recs[0]) then [recs[0].name] + DriftedNames(ctx, recs[1..])
    else DriftedNames(ctx, recs[1..])
  }

  function Names(recs: seq<DnsRecord>): set<string>
  {
    set r | r in recs :: r.name
  }

  /** The zone after overwriting the named records with `data`. */
  predicate OverwrittenExactly(before: map<string, ARecordData>, after: map<string, ARecordData>,
                               names: seq<string>, data: ARecordData)
  {
    && after.Keys == before.Keys
    && forall k :: k in before ==> after[k] == (if k in names then data else before[k])
  }

  // ---------------------------------------------------------------------
  // Properties of a pass

  /** The update condition, both ways: a resolved record is updated exactly
      when no address came back or the first one differs from the current. */
  lemma UpdateCondition(ctx: Context, r: DnsRecord)
    requires r.hostName in ctx.dns
    ensures Drifted(ctx, r) <==> ctx.dns[r.hostName] == [] || ctx.dns[r.hostName][0] != ctx.currentIp
  {
  }

  /** Whatever happens, a pass only overwrites: each updated record holds the
      current address alone with TTL = interval, every other record is as it
      was, no record appears or disappears, only configured names are
      updated, and at most once per configured record. */
  lemma {:induction false} PassOverwritesOnly(recs: seq<DnsRecord>, ctx: Context, store: map<string, ARecordData>)
    ensures var p := RunRecords(recs, ctx, store);
      && OverwrittenExactly(store, p.store, p.updated, Refreshed(ctx))
      && (forall n :: n in p.updated ==> n in Names(recs) && n in store)
      && |p.updated| <= |recs|
    decreases |recs|
  {
    if recs != [] {
      var r := recs[0];
      assert forall x :: x in recs[1..] ==> x in recs;
      if r.hostName in ctx.dns && Drifted(ctx, r) && r.name in store && r.name !in ctx.rejected {
        var store' := store[r.name := Refreshed(ctx)];
        PassOverwritesOnly(recs[1..], ctx, store');
        var rest := RunRecords(recs[1..], ctx, store');
        assert store'.Keys == store.Keys;
        assert RunRecords(recs, ctx, store).updated == [r.name] + rest.updated;
      } else if r.hostName in ctx.dns && !Drifted(ctx, r) {
        PassOverwritesOnly(recs[1..], ctx, store);
      }
    }
  }

  /** A pass that meets no failing record runs to its end and updates
      exactly the drifted records, in order. */
  lemma {:induction false} PassCompletes(recs: seq<DnsRecord>, ctx: Context, store: map<string, ARecordData>)
    requires forall r :: r in recs ==> !RecordFails(ctx, store.Keys, r)
    ensures var p := RunRecords(recs, ctx, store);
      p.failure == None && p.updated == DriftedNames(ctx, recs)
    decreases |recs|
  {
    if recs != [] {
      var r := recs[0];
      assert r in recs;
      assert forall x :: x in recs[1..] ==> x in recs;
      if Drifted(ctx, r) {
        var store' := store[r.name := Refreshed(ctx)];
        assert store'.Keys == store.Keys;
        PassCompletes(recs[1..], ctx, store');
      } else {
        PassCompletes(recs[1..], ctx, store);
      }
    }
  }

  /** No per-record isolation: the first failing record ends the pass with
      its failure; the drifted records before it were updated and no record
      after it is looked at. */
  lemma {:induction false} PassStopsAtFirstFailure(recs: seq<DnsRecord>, ctx: Context,
                                                   store: map<string, ARecordData>, i: nat)
    requires i < |recs|
    requires forall j :: 0 <= j < i ==> !RecordFails(ctx, store.Keys, recs[j])
    requires RecordFails(ctx, store.Keys, recs[i])
    ensures var p := RunRecords(recs, ctx, store);
      && p.failure == Some(FailureOf(ctx, store.Keys, recs[i]))
      && p.updated == DriftedNames(ctx, recs[..i])
    decreases i
  {
    var r := recs[0];
    if i == 0 {
      assert recs[..0] == [];
    } else {
      assert !RecordFails(ctx, store.Keys, recs[0]);
      assert recs[1..][..i - 1] == recs[..i][1..];
      assert recs[..i][0] == r;
      if Drifted(ctx, r) {
        var store' := store[r.name := Refreshed(ctx)];
        assert store'.Keys == store.Keys;
        PassStopsAtFirstFailure(recs[1..], ctx, store', i - 1);
      } else {
        PassStopsAtFirstFailure(recs[1..], ctx, store, i - 1);
      }
    }
  }

  /** Membership in DriftedNames, both ways. */
  lemma {:induction false} DriftedNamesMembership(ctx: Context, recs: seq<DnsRecord>, n: string)
    ensures n in DriftedNames(ctx, recs) <==>
      exists r :: r in recs && r.name == n && r.hostName in ctx.dns && Drifted(ctx, r)
    decreases |recs|
  {
    if recs != [] {
      assert forall x :: x in recs[1..] ==> x in recs;
      DriftedNamesMembership(ctx, recs[1..], n);
      assert recs == [recs[0]] + recs[1..];
    }
  }

  /** When every record already resolves to the current address, a pass
      issues no update and changes nothing. */
  lemma {:induction false} AllCurrentNoUpdates(recs: seq<DnsRecord>, ctx: Context, store: map<string, ARecordData>)
    requires forall r :: r in recs ==> r.hostName in ctx.dns && FirstAddress(ctx.dns[r.hostName]) == Some(ctx.currentIp)
    ensures RunRecords(recs, ctx, store) == Pass(store, [], None)
    decreases |recs|
  {
    if recs != [] {
      assert recs[0] in recs;
      assert forall x :: x in recs[1..] ==> x in recs;
      AllCurrentNoUpdates(recs[1..], ctx, store);
    }
  }

  /** DNS answers with the first address of each configured record's data. */
  predicate Reflects(dns: map<string, seq<IpAddress>>, store: map<string, ARecordData>, recs: seq<DnsRecord>)
  {
    forall r :: r in recs ==>
      && r.hostName in dns
      && r.name in store
      && FirstAddress(dns[r.hostName]) == FirstAddress(store[r.name].addresses)
  }

  /** After a pass that completed against DNS that reflected the zone, every
      configured record's first address is the current one. */
  lemma CompletedPassLeavesCurrent(recs: seq<DnsRecord>, ctx: Context, store: map<string, ARecordData>)
    requires Reflects(ctx.dns, store, recs)
    requires RunRecords(recs, ctx, store).failure == None
    ensures var after := RunRecords(recs, ctx, store).store;
      forall r :: r in recs ==> r.name in after && FirstAddress(after[r.name].addresses) == Some(ctx.currentIp)
  {
    var p := RunRecords(recs, ctx, store);
    PassOverwritesOnly(recs, ctx, store);
    FirstFailureOrCompletion(recs, ctx, store);
    PassCompletes(recs, ctx, store);
    forall r | r in recs
      ensures r.name in p.store && FirstAddress(p.store[r.name].addresses) == Some(ctx.currentIp)
    {
      if Drifted(ctx, r) {
        DriftedNamesMembership(ctx, recs, r.name);
        assert r.name in p.updated;
      }
    }
  }

  /** Either no record fails, or there is a first failing one. */
  lemma FirstFailureOrCompletion(recs: seq<DnsRecord>, ctx: Context, store: map<string, ARecordData>)
    requires RunRecords(recs, ctx, store).failure == None
    ensures forall r :: r in recs ==> !RecordFails(ctx, store.Keys, r)
  {
    if exists j :: 0 <= j < |recs| && RecordFails(ctx, store.Keys, recs[j]) {
      var i := FirstFailing(recs, ctx, store.Keys);
      PassStopsAtFirstFailure(recs, ctx, store, i);
    }
  }

  /** The index of the first failing record. */
  function FirstFailing(recs: seq<DnsRecord>, ctx: Context, names: set<string>): (i: nat)
    requires exists j :: 0 <= j < |recs| && RecordFails(ctx, names, recs[j])
    ensures i < |recs| && RecordFails(ctx, names, recs[i])
    ensures forall j :: 0 <= j < i ==> !RecordFails(ctx, names, recs[j])
    decreases |recs|
  {
    if RecordFails(ctx, names, recs[0]) then 0
    else
      assert exists j :: 0 <= j < |recs[1..]| && RecordFails(ctx, names, recs[1..][j]) by {
        var j :| 0 <= j < |recs| && RecordFails(ctx, names, recs[j]);
        assert recs[1..][j - 1] == recs[j];
      }
      1 + FirstFailing(recs[1..], ctx, names)
  }

  /** Idempotence: if DNS reflected the zone before a completed pass and
      reflects it again afterwards, a second pass with the same public
      address issues no update and leaves the zone as it is. */
  lemma SecondPassIssuesNoUpdates(recs: seq<DnsRecord>, ctx: Context, store: map<string, ARecordData>,
                                  dnsAfter: map<string, seq<IpAddress>>)
    requires Reflects(ctx.dns, store, recs)
    requires RunRecords(recs, ctx, store).failure == None
    requires Reflects(dnsAfter, RunRecords(recs, ctx, store).store, recs)
    ensures var after := RunRecords(recs, ctx, store).store;
      RunRecords(recs, ctx.(dns := dnsAfter), after) == Pass(after, [], None)
  {
    var after := RunRecords(recs, ctx, store).store;
    CompletedPassLeavesCurrent(recs, ctx, store);
    AllCurrentNoUpdates(recs, ctx.(dns := dnsAfter), after);
  }
}

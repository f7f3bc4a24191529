/** One reconciliation pass as the source runs it (TimedDnsZoneUpdater.DoWork):
    look up the zone, discover the public address, then walk the configured
    records in order, fetching, overwriting and submitting each record whose
    published address is not the current one. The zone lookup and the
    public-IP request are inputs: `zone` is null when the subscription,
    resource group or zone cannot be obtained, `publicIp` is None when the
    request or its parsing fails. DNS resolution is the map `dns`: a host
    name missing from it is one the resolver reports as unknown (the call
    throws), an empty list is an answer without addresses. */
module Updater {
  import opened Wrappers
  import opened RecordSet
  import opened Reconcile
  import opened AzureDns
  import opened UpdaterOptions

  method DoWork(options: TimedDnsZoneUpdaterOptions, zone: DnsZone?, publicIp: Option<IpAddress>,
                dns: map<string, seq<IpAddress>>)
    returns (failure: Option<PassFailure>)
    modifies options`cachedRecords, zone
    ensures zone == null ==> failure == Some(ZoneLookupFailed)
    ensures zone != null ==>
      var p := RunPass(true, publicIp, old(options.Records()), dns, zone.rejected, options.interval, old(zone.records));
      && zone.records == p.store
      && zone.applied == old(zone.applied) + p.updated
      && failure == p.failure
    ensures zone != null && publicIp.Some? ==> options.cachedRecords == Some(old(options.Records()))
    ensures zone == null || publicIp.None? ==> options.cachedRecords == old(options.cachedRecords)
  {
    if zone == null {
      return Some(ZoneLookupFailed);
    }
    if publicIp.None? {
      return Some(IpDiscoveryFailed);
    }
    var records := options.GetRecords();
    ghost var ctx := Context(publicIp.value, dns, zone.rejected, options.interval);
    failure := ReconcileRecords(zone, records, publicIp.value, dns, options.interval, ctx);
    RunFromIsRunRecords(records, 0, ctx, old(zone.records));
    assert records[0..] == records;
  }

  /** The `foreach` loop of DoWork over the configured records. */
  method ReconcileRecords(zone: DnsZone, records: seq<DnsRecord>, currentIp: IpAddress,
                          dns: map<string, seq<IpAddress>>, interval: int, ghost ctx: Context)
    returns (failure: Option<PassFailure>)
    requires ctx == Context(currentIp, dns, zone.rejected, interval)
    modifies zone
    ensures Pass(zone.records, zone.applied, failure) == After(old(zone.applied), RunFrom(records, 0, ctx, old(zone.records)))
  {
    ghost var whole := After(zone.applied, RunFrom(records, 0, ctx, zone.records));
    var i: nat := 0;
    while i < |records|
      invariant i <= |records|
      invariant whole == After(zone.applied, RunFrom(records, i, ctx, zone.records))
    {
      ghost var before := zone.records;
      ghost var applied := zone.applied;
      var recordFailure := ReconcileRecord(zone, records[i], currentIp, dns, interval, ctx);
      if recordFailure.Some? {
        RunFromFails(records, i, ctx, before);
        return recordFailure;
      }
      RunFromStep(records, i, ctx, before, applied);
      i := i + 1;
    }
    failure := None;
    assert zone.applied + [] == zone.applied;
  }

  /** The body of the `foreach` loop for one record. */
  method ReconcileRecord(zone: DnsZone, record: DnsRecord, currentIp: IpAddress,
                         dns: map<string, seq<IpAddress>>, interval: int, ghost ctx: Context)
    returns (failure: Option<PassFailure>)
    requires ctx == Context(currentIp, dns, zone.rejected, interval)
    modifies zone
    ensures Pass(zone.records, zone.applied, failure) == After(old(zone.applied), Step(ctx, record, old(zone.records)))
  {
    if record.hostName !in dns {
      return Some(ResolutionFailed(record.hostName));
    }
    var hostNameIp := FirstAddress(dns[record.hostName]);
    if hostNameIp != Some(currentIp) {
      var dnsRecord := zone.GetDnsARecord(record.name);
      if dnsRecord == null {
        return Some(RecordNotFound(record.name));
      }
      dnsRecord.addresses := [];
      dnsRecord.addresses := dnsRecord.addresses + [currentIp];
      dnsRecord.ttl := interval;
      assert dnsRecord.Data() == ARecordData([currentIp], interval);
      var ok := zone.Update(dnsRecord);
      if !ok {
        return Some(UpdateRejected(record.name));
      }
    }
    failure := None;
  }
}

/** The options object of the updater (TimedDnsZoneUpdaterOptions): the
    settings the reconciler reads, and the record list it memoises on first
    use. Credentials, subscription and resource group only select the zone
    and are represented by the zone lookup in module Updater. */
module UpdaterOptions {
  import opened Wrappers
  import opened RecordSet

  class TimedDnsZoneUpdaterOptions {
    var domain: string
    var recordSet: string
    var interval: int
    /** `_records`: None until GetRecords first runs. */
    var cachedRecords: Option<seq<DnsRecord>>

    constructor (domain: string, recordSet: string, interval: int)
      ensures this.domain == domain && this.recordSet == recordSet && this.interval == interval
      ensures cachedRecords == None
    {
      this.domain := domain;
      this.recordSet := recordSet;
      this.interval := interval;
      cachedRecords := None;
    }

    /** The list GetRecords returns when called in the current state. */
    ghost function Records(): seq<DnsRecord>
      reads this
    {
      match cachedRecords
      case Some(rs) => rs
      case None => ParseRecords(recordSet, domain)
    }

    /** `_records ??= <parse>; return _records;` */
    method GetRecords() returns (records: seq<DnsRecord>)
      modifies this`cachedRecords
      ensures records == old(Records())
      ensures old(cachedRecords).Some? ==> records == old(cachedRecords).value
      ensures old(cachedRecords).None? ==> records == ParseRecords(recordSet, domain)
      ensures cachedRecords == Some(records)
    {
      if cachedRecords.None? {
        cachedRecords := Some(ParseRecords(recordSet, domain));
      }
      records := cachedRecords.value;
    }
  }

  /** Memoisation: once GetRecords has run, changing RecordSet or Domain
      does not change what it returns. */
  method RecordsSurviveReconfiguration(options: TimedDnsZoneUpdaterOptions, recordSet: string, domain: string)
    returns (first: seq<DnsRecord>, second: seq<DnsRecord>)
    modifies options
    ensures first == old(options.Records())
    ensures second == first
    ensures options.recordSet == recordSet && options.domain == domain
  {
    first := options.GetRecords();
    options.recordSet := recordSet;
    options.domain := domain;
    second := options.GetRecords();
  }
}

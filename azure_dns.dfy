/** The part of the cloud DNS provider the updater touches: a zone holding
    A record sets by name, from which a record is fetched as a mutable
    resource and to which the modified resource is submitted. The SDK's
    object graph is reduced to this; which updates the provider refuses is
    a fixed property of the zone. */
module AzureDns {

  /** An address compared by value, as `IPAddress.Equals` does: addresses of
      different families are never equal. */
  datatype IpAddress = IPv4(bits: bv32) | IPv6(bytes: seq<bv8>)

  /** The data of an A record set: its address list and its TTL in seconds. */
  datatype ARecordData = ARecordData(addresses: seq<IpAddress>, ttl: int)

  /** A fetched A record set (`DnsARecordResource` with its `Data`). */
  class DnsARecordResource {
    const name: string
    var addresses: seq<IpAddress>
    var ttl: int

    constructor (name: string, data: ARecordData)
      ensures this.name == name && Data() == data
    {
      this.name := name;
      addresses := data.addresses;
      ttl := data.ttl;
    }

    function Data(): ARecordData
      reads this
    {
      ARecordData(addresses, ttl)
    }
  }

  /** A DNS zone (`DnsZoneResource`). `applied` lists, in order, the names
      whose update the provider accepted. */
  class DnsZone {
    var records: map<string, ARecordData>
    const rejected: set<string>
    var applied: seq<string>

    constructor (records: map<string, ARecordData>, rejected: set<string>)
      ensures this.records == records && this.rejected == rejected && applied == []
    {
      this.records := records;
      this.rejected := rejected;
      applied := [];
    }

    /** `GetDnsARecordAsync(name)`: a fresh copy of the stored record set, or
        null where the SDK throws because there is none. */
    method GetDnsARecord(name: string) returns (r: DnsARecordResource?)
      ensures r == null <==> name !in records
      ensures r != null ==> fresh(r) && r.name == name && r.Data() == records[name]
    {
      if name in records {
        r := new DnsARecordResource(name, records[name]);
      } else {
        r := null;
      }
    }

    /** `UpdateAsync(data)`: stores the resource's data under its name unless
        the provider refuses it. */
    method Update(r: DnsARecordResource) returns (ok: bool)
      modifies this`records, this`applied
      ensures ok <==> r.name !in rejected
      ensures records == if ok then old(records)[r.name := r.Data()] else old(records)
      ensures applied == if ok then old(applied) + [r.name] else old(applied)
    {
      ok := r.name !in rejected;
      if ok {
        records := records[r.name := r.Data()];
        applied := applied + [r.name];
      }
    }
  }
}

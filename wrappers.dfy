/** Optional values, standing for the source's nullable references
    (`List<DnsRecord>?`, `IPAddress?`). */
module Wrappers {

  datatype Option<+T> = None | Some(value: T)

}

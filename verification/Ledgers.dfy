/** The allocation ledger: networks of host parts, each free or held. */
module Ledgers {
  import opened Text

  datatype IPInfo = IPInfo(status: string, cluster: string, lease: int)

  type IPs = map<string, IPInfo>
  type Ledger = map<string, IPs>

  const BLANK := IPInfo("", "", 0)
  const DNS_SUFFIX := ":DNS"
  const ASSIGNED := "ASSIGNED"

  predicate IsFree(info: IPInfo) {
    info.status == ""
  }

  predicate HasDNS(info: IPInfo) {
    HasSuffix(info.status, DNS_SUFFIX)
  }

  predicate Listed(l: Ledger, key: string, digit: string) {
    key in l && digit in l[key]
  }

  /** Go's map read: the zero entry for an address that is not listed. */
  function EntryAt(l: Ledger, key: string, digit: string): IPInfo {
    if Listed(l, key, digit) then l[key][digit] else BLANK
  }

  function Put(l: Ledger, key: string, digit: string, info: IPInfo): (r: Ledger)
    requires key in l
    ensures forall k, d :: EntryAt(r, k, d) == if k == key && d == digit then info else EntryAt(l, k, d)
    ensures forall k, d :: Listed(r, k, d) <==> (k == key && d == digit) || Listed(l, k, d)
  {
    l[key := l[key][digit := info]]
  }

  function Delete(l: Ledger, key: string, digit: string): (r: Ledger)
    requires key in l
    ensures forall k, d :: EntryAt(r, k, d) == if k == key && d == digit then BLANK else EntryAt(l, k, d)
    ensures forall k, d :: Listed(r, k, d) <==> !(k == key && d == digit) && Listed(l, k, d)
  {
    l[key := l[key] - {digit}]
  }

  /** The ledger without its empty networks, which cr mode does not keep. */
  function DropEmpty(l: Ledger): (r: Ledger)
    ensures forall k, d :: EntryAt(r, k, d) == EntryAt(l, k, d)
    ensures forall k, d :: Listed(r, k, d) <==> Listed(l, k, d)
  {
    map k | k in l && l[k] != map[] :: l[k]
  }
}

/** What a cluster holds in a network, the listing of a network, and what such a listing says of it. */
module Listings {
  import opened Text
  import opened Address
  import opened Ledgers
  import opened CrCodec
  import opened Assignment
  import Allocate

  predicate HeldEntry(info: IPInfo, cluster: string) {
    !IsFree(info) && info.cluster == cluster
  }

  /** The host parts the cluster holds in the network. */
  function Holdings(l: Ledger, key: string, cluster: string): set<string> {
    if key in l then set d | d in l[key] && HeldEntry(l[key][d], cluster) else {}
  }

  function FQDN(info: IPInfo, zone: string): string {
    if !Contains(info.status, DNS_SUFFIX) || info.cluster == "" || zone == "" then ""
    else "*." + info.cluster + "." + zone
  }

  function EntryFor(key: string, digit: string, info: IPInfo, zone: string): IPEntry {
    IPEntry(Full(key, digit), digit, info.status, info.cluster, FQDN(info, zone), info.lease)
  }

  ghost predicate EntriesFor(entries: seq<IPEntry>, ds: seq<string>, ips: IPs, key: string, zone: string) {
    && |entries| == |ds| && Walks(ds, ips.Keys)
    && forall i :: 0 <= i < |entries| ==> entries[i] == EntryFor(key, ds[i], ips[ds[i]], zone)
  }

  /** One entry for each address of the network. */
  ghost predicate ListsNetwork(entries: seq<IPEntry>, ips: IPs, key: string, zone: string) {
    exists ds :: EntriesFor(entries, ds, ips, key, zone)
  }

  ghost predicate Answers(listing: Listing, l: Ledger, key: string, zone: string) {
    match listing
    case ListFailed => true
    case Missing => key !in l || l[key] == map[]
    case Entries(entries) => key in l && ListsNetwork(entries, l[key], key, zone)
  }

  method GetIPEntries(ips: IPs, key: string, zone: string) returns (entries: seq<IPEntry>)
    ensures ListsNetwork(entries, ips, key, zone)
  {
    entries := [];
    ghost var ds: seq<string> := [];
    var rest := ips.Keys;
    while rest != {}
      invariant rest <= ips.Keys && |entries| == |ds|
      invariant Walks(ds, ips.Keys - rest)
      invariant forall i :: 0 <= i < |ds| ==>
          ds[i] in ips && entries[i] == EntryFor(key, ds[i], ips[ds[i]], zone)
    {
      var digit :| digit in rest;
      entries := entries + [EntryFor(key, digit, ips[digit], zone)];
      ds := ds + [digit];
      rest := rest - {digit};
    }
    assert EntriesFor(entries, ds, ips, key, zone);
  }

  method ListNetwork(l: Ledger, key: string, zone: string) returns (listing: Listing)
    ensures Answers(listing, l, key, zone) && !listing.ListFailed?
    ensures listing.Missing? <==> key !in l || l[key] == map[]
  {
    if key !in l || l[key] == map[] {
      return Missing;
    }
    var entries := GetIPEntries(l[key], key, zone);
    listing := Entries(entries);
  }

  lemma {:induction false} HeldAre(entries: seq<IPEntry>, ds: seq<string>, ips: IPs, key: string, zone: string,
                                   cluster: string) returns (hs: seq<string>)
    requires |entries| == |ds| && forall d :: d in ds ==> d in ips
    requires forall i, j :: 0 <= i < j < |ds| ==> ds[i] != ds[j]
    requires forall i :: 0 <= i < |entries| ==> entries[i] == EntryFor(key, ds[i], ips[ds[i]], zone)
    ensures |hs| == |Held(entries, cluster)|
    ensures forall i :: 0 <= i < |hs| ==> Held(entries, cluster)[i].ip == Full(key, hs[i])
    ensures forall i, j :: 0 <= i < j < |hs| ==> hs[i] != hs[j]
    ensures forall d :: d in hs <==> d in ds && HeldEntry(ips[d], cluster)
  {
    if entries == [] {
      hs := [];
    } else {
      var n := |entries| - 1;
      hs := HeldAre(entries[..n], ds[..n], ips, key, zone, cluster);
      assert ds == ds[..n] + [ds[n]];
      assert forall i :: 0 <= i < n ==> ds[..n][i] == ds[i];
      assert ds[n] !in ds[..n];
      if Holds(entries[n], cluster) {
        hs := hs + [ds[n]];
      }
    }
  }

  /** The held addresses of a listing are the cluster's holdings, each once. */
  lemma ListedHoldings(entries: seq<IPEntry>, l: Ledger, key: string, zone: string, cluster: string)
    returns (hs: seq<string>)
    requires key in l && ListsNetwork(entries, l[key], key, zone)
    ensures NamesAll(Addresses(Held(entries, cluster)), hs, key)
    ensures Allocate.Elements(hs) == Holdings(l, key, cluster)
  {
    var ds :| EntriesFor(entries, ds, l[key], key, zone);
    hs := HeldAre(entries, ds, l[key], key, zone, cluster);
    assert forall d :: d in ds <==> d in l[key];
  }

  function FreeAmong(ds: seq<string>, ips: IPs): set<string> {
    set d | d in ds && d in ips && IsFree(ips[d])
  }

  lemma FreeAmongNext(ds: seq<string>, ips: IPs)
    requires ds != [] && ds[|ds| - 1] in ips && forall i, j :: 0 <= i < j < |ds| ==> ds[i] != ds[j]
    ensures var n := |ds| - 1;
            |FreeAmong(ds, ips)| == |FreeAmong(ds[..n], ips)| + if IsFree(ips[ds[n]]) then 1 else 0
  {
    var n := |ds| - 1;
    var front, last := FreeAmong(ds[..n], ips), ds[n];
    assert ds == ds[..n] + [last] && last !in ds[..n];
    assert FreeAmong(ds, ips) == front + if IsFree(ips[last]) then {last} else {};
  }

  lemma FreeNext(entries: seq<IPEntry>)
    requires entries != []
    ensures var n := |entries| - 1;
            |Free(entries)| == |Free(entries[..n])| + if entries[n].status == "" then 1 else 0
  {
    var n := |entries| - 1;
    assert Free(entries) == Free(entries[..n]) + if entries[n].status == "" then {n} else {};
  }

  lemma {:induction false} FreeAre(entries: seq<IPEntry>, ds: seq<string>, ips: IPs, key: string, zone: string)
    requires |entries| == |ds| && forall i :: 0 <= i < |ds| ==> ds[i] in ips
    requires forall i, j :: 0 <= i < j < |ds| ==> ds[i] != ds[j]
    requires forall i :: 0 <= i < |entries| ==> entries[i] == EntryFor(key, ds[i], ips[ds[i]], zone)
    ensures |Free(entries)| == |FreeAmong(ds, ips)|
  {
    if entries == [] {
      assert FreeAmong(ds, ips) == {};
    } else {
      FreeAre(entries[..|ds| - 1], ds[..|ds| - 1], ips, key, zone);
      FreeAmongNext(ds, ips);
      FreeNext(entries);
    }
  }

  /** A listing has as many entries without a status as the network has free addresses. */
  lemma ListedFree(entries: seq<IPEntry>, l: Ledger, key: string, zone: string)
    requires key in l && ListsNetwork(entries, l[key], key, zone)
    ensures |Free(entries)| == |Allocate.FreeDigits(l[key])|
  {
    var ds :| EntriesFor(entries, ds, l[key], key, zone);
    assert forall i :: 0 <= i < |ds| ==> ds[i] in ds;
    FreeAre(entries, ds, l[key], key, zone);
    assert FreeAmong(ds, l[key]) == Allocate.FreeDigits(l[key]);
  }

  /** `ips` are the addresses of the distinct host parts `hs`. */
  ghost predicate NamesAll(ips: seq<string>, hs: seq<string>, key: string) {
    && |ips| == |hs|
    && (forall i :: 0 <= i < |hs| ==> ips[i] == Full(key, hs[i]))
    && forall i, j :: 0 <= i < j < |hs| ==> hs[i] != hs[j]
  }

  lemma NamesDistinct(ips: seq<string>, hs: seq<string>, key: string)
    requires NamesAll(ips, hs, key)
    ensures forall i, j :: 0 <= i < j < |ips| ==> ips[i] != ips[j]
    ensures |Allocate.Elements(hs)| == |ips|
  {
    Allocate.DistinctSize(hs);
    forall i, j | 0 <= i < j < |ips| ensures ips[i] != ips[j] {
      FullInjective(key, hs[i], hs[j]);
    }
  }
}

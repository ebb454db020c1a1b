/** The lease reclaimer: expired entries are found, listed, and cleared in the loaded ledger. */
module Reclaimer {
  import opened Ledgers
  import opened Allocate

  datatype ExpiredLease = ExpiredLease(key: string, digit: string, cluster: string, hadDNS: bool)

  predicate Expired(info: IPInfo, now: int) {
    info.lease != 0 && info.lease <= now
  }

  function Cleared(info: IPInfo, now: int): IPInfo {
    if Expired(info, now) then BLANK else info
  }

  function ReclaimIPs(ips: IPs, now: int): IPs {
    map d | d in ips :: Cleared(ips[d], now)
  }

  /** The ledger after one reclaimer pass at `now`. */
  function Reclaim(l: Ledger, now: int): (r: Ledger)
    ensures forall k, d :: Listed(r, k, d) <==> Listed(l, k, d)
    ensures forall k, d :: EntryAt(r, k, d) == Cleared(EntryAt(l, k, d), now)
  {
    map k | k in l :: ReclaimIPs(l[k], now)
  }

  function LeaseOf(l: Ledger, key: string, digit: string): ExpiredLease
    requires Listed(l, key, digit)
  {
    var info := l[key][digit];
    ExpiredLease(key, digit, info.cluster, HasDNS(info))
  }

  ghost predicate IsExpired(l: Ledger, now: int, e: ExpiredLease) {
    && Listed(l, e.key, e.digit)
    && Expired(l[e.key][e.digit], now)
    && e == LeaseOf(l, e.key, e.digit)
  }

  /** `expired` names each expired entry of the ledger exactly once, with its cluster and DNS flag. */
  ghost predicate ListsExpired(expired: seq<ExpiredLease>, l: Ledger, now: int) {
    && (forall e :: e in expired <==> IsExpired(l, now, e))
    && forall i, j :: 0 <= i < j < |expired| ==> expired[i] != expired[j]
  }

  method FindExpiredLeases(ipList: Ledger, now: int) returns (expired: seq<ExpiredLease>)
    ensures ListsExpired(expired, ipList, now)
  {
    expired := [];
    var keys := ipList.Keys;
    while keys != {}
      invariant keys <= ipList.Keys
      invariant forall e :: e in expired <==> e.key !in keys && IsExpired(ipList, now, e)
      invariant forall i, j :: 0 <= i < j < |expired| ==> expired[i] != expired[j]
    {
      var key :| key in keys;
      var more := FindInNetwork(ipList, key, now);
      AppendDistinct(expired, more, key);
      expired := expired + more;
      keys := keys - {key};
    }
  }

  lemma AppendDistinct(a: seq<ExpiredLease>, b: seq<ExpiredLease>, key: string)
    requires forall i, j :: 0 <= i < j < |a| ==> a[i] != a[j]
    requires forall i, j :: 0 <= i < j < |b| ==> b[i] != b[j]
    requires forall e :: e in a ==> e.key != key
    requires forall e :: e in b ==> e.key == key
    ensures forall i, j :: 0 <= i < j < |a + b| ==> (a + b)[i] != (a + b)[j]
  {
    forall i, j | 0 <= i < |a| && 0 <= j < |b| ensures a[i] != b[j] {
      assert a[i] in a && b[j] in b;
    }
  }

  method FindInNetwork(ipList: Ledger, key: string, now: int) returns (expired: seq<ExpiredLease>)
    requires key in ipList
    ensures forall e :: e in expired <==> e.key == key && IsExpired(ipList, now, e)
    ensures forall i, j :: 0 <= i < j < |expired| ==> expired[i] != expired[j]
  {
    expired := [];
    var digits := ipList[key].Keys;
    while digits != {}
      invariant digits <= ipList[key].Keys
      invariant forall e :: e in expired <==> e.key == key && e.digit !in digits && IsExpired(ipList, now, e)
      invariant forall i, j :: 0 <= i < j < |expired| ==> expired[i] != expired[j]
    {
      var digit :| digit in digits;
      digits := digits - {digit};
      var info := ipList[key][digit];
      if info.lease == 0 {
        continue;
      }
      if info.lease > now {
        continue;
      }
      expired := expired + [ExpiredLease(key, digit, info.cluster, HasDNS(info))];
    }
  }

  ghost predicate Names(expired: seq<ExpiredLease>, n: nat, key: string, digit: string)
    requires n <= |expired|
  {
    exists j :: 0 <= j < n && expired[j].key == key && expired[j].digit == digit
  }

  /** Clears the listed entries one by one. */
  method ReclaimExpiredLeases(ipList: Ledger, now: int) returns (ledger: Ledger, expired: seq<ExpiredLease>)
    ensures ledger == Reclaim(ipList, now)
    ensures ListsExpired(expired, ipList, now)
  {
    expired := FindExpiredLeases(ipList, now);
    ledger := ipList;
    for i := 0 to |expired|
      invariant ledger.Keys == ipList.Keys
      invariant forall k, d :: Listed(ledger, k, d) <==> Listed(ipList, k, d)
      invariant forall k, d ::
          EntryAt(ledger, k, d) == (if Names(expired, i, k, d) then BLANK else EntryAt(ipList, k, d))
    {
      var e := expired[i];
      assert e in expired;
      forall k, d ensures Names(expired, i + 1, k, d) <==> Names(expired, i, k, d) || (k == e.key && d == e.digit) {
        NamesNext(expired, i, k, d);
      }
      var entry := ledger[e.key][e.digit];
      entry := entry.(status := "", cluster := "", lease := 0);
      ledger := Put(ledger, e.key, e.digit, entry);
    }
    SameLedger(ledger, Reclaim(ipList, now), ipList, now, expired);
  }

  lemma NamesNext(expired: seq<ExpiredLease>, n: nat, key: string, digit: string)
    requires n < |expired|
    ensures Names(expired, n + 1, key, digit) <==>
            Names(expired, n, key, digit) || (key == expired[n].key && digit == expired[n].digit)
  {
  }

  lemma NamedExpired(expired: seq<ExpiredLease>, l: Ledger, now: int, key: string, digit: string)
    requires ListsExpired(expired, l, now) && Names(expired, |expired|, key, digit)
    ensures Listed(l, key, digit) && Expired(l[key][digit], now)
  {
    var j :| 0 <= j < |expired| && expired[j].key == key && expired[j].digit == digit;
    assert expired[j] in expired;
  }

  lemma SameLedger(a: Ledger, b: Ledger, l: Ledger, now: int, expired: seq<ExpiredLease>)
    requires ListsExpired(expired, l, now) && a.Keys == l.Keys && b == Reclaim(l, now)
    requires forall k, d :: Listed(a, k, d) <==> Listed(l, k, d)
    requires forall k, d ::
        EntryAt(a, k, d) == (if Names(expired, |expired|, k, d) then BLANK else EntryAt(l, k, d))
    ensures a == b
  {
    forall k, d | Listed(l, k, d) ensures EntryAt(a, k, d) == EntryAt(b, k, d) {
      if Expired(l[k][d], now) {
        assert LeaseOf(l, k, d) in expired;
      }
      if Names(expired, |expired|, k, d) {
        NamedExpired(expired, l, now, k, d);
      }
    }
    LedgersEqual(a, b);
  }

  /** Ledgers with the same networks, host parts and entries are the same. */
  lemma LedgersEqual(a: Ledger, b: Ledger)
    requires a.Keys == b.Keys
    requires forall k, d :: Listed(a, k, d) <==> Listed(b, k, d)
    requires forall k, d :: Listed(a, k, d) ==> EntryAt(a, k, d) == EntryAt(b, k, d)
    ensures a == b
  {
    forall k | k in a ensures a[k] == b[k] {
      forall d ensures (d in a[k] <==> d in b[k]) && (d in a[k] ==> a[k][d] == b[k][d]) {
        assert Listed(a, k, d) <==> Listed(b, k, d);
        assert Listed(a, k, d) ==> EntryAt(a, k, d) == EntryAt(b, k, d);
      }
    }
  }

  // ---- laws of the pass -------------------------------------------------------

  /** Reclaiming at `t1` and then at a later `t2` is reclaiming once at `t2`. */
  lemma ReclaimComposes(l: Ledger, t1: int, t2: int)
    requires t1 <= t2
    ensures Reclaim(Reclaim(l, t1), t2) == Reclaim(l, t2)
  {
    LedgersEqual(Reclaim(Reclaim(l, t1), t2), Reclaim(l, t2));
  }

  /** What a second pass still finds is what the first left unexpired. */
  lemma SecondPassFinds(l: Ledger, t1: int, t2: int, e: ExpiredLease)
    requires t1 <= t2
    ensures IsExpired(Reclaim(l, t1), t2, e) <==> IsExpired(l, t2, e) && !IsExpired(l, t1, e)
  {
    if Listed(l, e.key, e.digit) {
      assert EntryAt(Reclaim(l, t1), e.key, e.digit) == Cleared(EntryAt(l, e.key, e.digit), t1);
    }
  }

  function BusyExpired(ips: IPs, now: int): set<string> {
    set d | d in ips && !IsFree(ips[d]) && Expired(ips[d], now)
  }

  /** The free count grows by the number of reclaimed entries that were busy. */
  lemma ReclaimFrees(ips: IPs, now: int)
    ensures |FreeDigits(ReclaimIPs(ips, now))| == |FreeDigits(ips)| + |BusyExpired(ips, now)|
  {
    assert FreeDigits(ReclaimIPs(ips, now)) == FreeDigits(ips) + BusyExpired(ips, now);
    assert FreeDigits(ips) !! BusyExpired(ips, now);
  }
}

/** The request handlers as they run: each updates the loaded ledger in place and answers with the
    record changes that follow a successful save. Every one is proved against `Operations.Apply`. */
module Handlers {
  import opened Text
  import opened Decimal
  import opened Address
  import opened Ledgers
  import opened Operations
  import Allocate
  import Reclaimer

  datatype Answer =
    | Reject(why: Refusal)
    | NoChange
    | Proceed(withdraw: set<string>, publish: Option<Record>)

  /** The outcome an answer stands for, given the ledger it left in memory. */
  function Meaning(a: Answer, l: Ledger): Outcome {
    match a
    case Reject(why) => Refused(why)
    case NoChange => Idle
    case Proceed(withdraw, publish) => Commit(l, withdraw, publish)
  }

  class Handler {
    var ipList: Ledger
    const now: int

    constructor (l: Ledger, now: int)
      ensures ipList == l && this.now == now
    {
      ipList := l;
      this.now := now;
    }

    /** `choice` is the host part that was found free, "" for none. */
    method Reserve(key: string, cluster: string, status: string, createDNS: bool, duration: int,
                   ip: string, addToPool: bool)
      returns (answer: Answer, choice: string)
      modifies this`ipList
      ensures var op := Op.Reserve(key, cluster, status, createDNS, duration, ip, addToPool, choice);
              Possible(op, old(ipList)) && Meaning(answer, ipList) == ReserveOutcome(old(ipList), now, op)
    {
      choice := "";
      if ip == "" && key in ipList {
        choice := FindFree(ipList[key]);
      }
      if cluster == "" {
        return Reject(BadRequest), choice;
      }
      var entryStatus := if status == "" then ASSIGNED else status;
      if key !in ipList {
        return Reject(NotFound), choice;
      }
      var foundDigit := choice;
      if ip != "" {
        var refusal;
        foundDigit, refusal := FindAsked(ipList[key], key, ip, addToPool);
        if refusal.Some? {
          return Reject(refusal.value), choice;
        }
      } else if foundDigit == "" {
        return Reject(Conflict), choice;
      }
      var dns := WantsDNS(createDNS, entryStatus);
      var entry := Fill(EntryAt(ipList, key, foundDigit), cluster, entryStatus, createDNS, duration);
      ipList := ipList[key := ipList[key][foundDigit := entry]];
      answer := Proceed({}, if dns then Some(Record(cluster, key + "." + foundDigit)) else None);
    }

    /** The host part of an address that was asked for, or why it cannot be given. */
    static method FindAsked(networkIPs: IPs, key: string, ip: string, addToPool: bool)
      returns (foundDigit: string, refusal: Option<Refusal>)
      ensures HostDigit(ip, key).Some? ==> HostDigit(ip, key) == Some(foundDigit)
      ensures refusal == (if HostDigit(ip, key).None? then Some(BadRequest)
                          else if foundDigit !in networkIPs then if addToPool then None else Some(NotFound)
                          else if IsFree(networkIPs[foundDigit]) then None else Some(Conflict))
    {
      var digit := HostDigit(ip, key);
      if digit.None? {
        return "", Some(BadRequest);
      }
      foundDigit := digit.value;
      var inPool := foundDigit in networkIPs;
      if !inPool && !addToPool {
        return foundDigit, Some(NotFound);
      }
      if inPool && !IsFree(networkIPs[foundDigit]) {
        return foundDigit, Some(Conflict);
      }
      refusal := None;
    }

    /** The fields an entry is given. */
    method Fill(previous: IPInfo, cluster: string, status: string, createDNS: bool, duration: int)
      returns (entry: IPInfo)
      ensures entry == IPInfo(Granted(status, createDNS), cluster, LeaseUntil(now, duration))
    {
      entry := previous.(status := status);
      if WantsDNS(createDNS, status) {
        entry := entry.(status := WithDNSSuffix(status));
      }
      entry := entry.(cluster := cluster);
      if duration > 0 {
        entry := entry.(lease := Wrap64(now + duration));
      } else {
        entry := entry.(lease := 0);
      }
    }

    /** The record an assignment leaves stale. */
    static method Superseded(previous: IPInfo, cluster: string, dns: bool) returns (withdraw: set<string>)
      ensures withdraw ==
        if HasDNS(previous) && previous.cluster != "" && (!dns || previous.cluster != cluster)
        then {previous.cluster} else {}
    {
      withdraw := {};
      var hadDNS := HasSuffix(previous.status, DNS_SUFFIX) && previous.cluster != "";
      if hadDNS && (!dns || previous.cluster != cluster) {
        withdraw := {previous.cluster};
      }
    }

    /** The first free host part in map order. */
    static method FindFree(networkIPs: IPs) returns (foundDigit: string)
      ensures Picks(networkIPs, foundDigit)
    {
      foundDigit := "";
      var rest := networkIPs.Keys;
      while rest != {}
        invariant rest <= networkIPs.Keys
        invariant forall d :: d in networkIPs && d !in rest ==> !IsFree(networkIPs[d])
      {
        var digit :| digit in rest;
        if IsFree(networkIPs[digit]) {
          return digit;
        }
        rest := rest - {digit};
      }
      assert Allocate.FreeDigits(networkIPs) == {};
    }

    method ReserveBatch(key: string, cluster: string, status: string, count: int)
      returns (answer: Answer, offer: Allocate.Offer)
      modifies this`ipList
      ensures var op := Op.ReserveBatch(key, cluster, status, count, offer);
              Possible(op, old(ipList)) && Meaning(answer, ipList) == Apply(op, now, old(ipList))
    {
      offer := Allocate.GenerateIPs(ipList, count, key);
      if cluster == "" || count < 1 {
        return Reject(BadRequest), offer;
      }
      var entryStatus := if status == "" then ASSIGNED else status;
      if HasSuffix(entryStatus, DNS_SUFFIX) {
        return Reject(BadRequest), offer;
      }
      match offer {
        case NoNetwork => answer := Reject(NotFound);
        case NotEnough => answer := Reject(Exhausted);
        case Panicked => answer := Reject(Internal);
        case Offered(picked) =>
          if |picked| == 0 {
            return Reject(Exhausted), offer;
          }
          var written := Allocate.WriteReserved(ipList, key, picked, IPInfo(entryStatus, cluster, 0));
          if written.None? {
            return Reject(Internal), offer;
          }
          ipList := written.value;
          answer := Proceed({}, None);
      }
    }

    method Assign(key: string, ip: string, cluster: string, status: string, createDNS: bool, duration: int)
      returns (answer: Answer)
      modifies this`ipList
      ensures Meaning(answer, ipList) ==
              AssignOutcome(old(ipList), now, Op.Assign(key, ip, cluster, status, createDNS, duration))
    {
      if ip == "" || cluster == "" {
        return Reject(BadRequest);
      }
      var entryStatus := if status == "" then ASSIGNED else status;
      if key !in ipList {
        return Reject(NotFound);
      }
      var digit := HostDigit(ip, key);
      if digit.None? {
        return Reject(BadRequest);
      }
      var dns := WantsDNS(createDNS, entryStatus);
      var previous := EntryAt(ipList, key, digit.value);
      var entry := Fill(previous, cluster, entryStatus, createDNS, duration);
      ipList := ipList[key := ipList[key][digit.value := entry]];
      var withdraw := Superseded(previous, cluster, dns);
      answer := Proceed(withdraw, if dns then Some(Record(cluster, key + "." + digit.value)) else None);
    }

    method Release(key: string, ip: string) returns (answer: Answer)
      modifies this`ipList
      ensures Meaning(answer, ipList) == Apply(Op.Release(key, ip), now, old(ipList))
    {
      if key !in ipList {
        return Reject(NotFound);
      }
      var digit := GetLastIPDigit(ip);
      if digit.None? {
        return Reject(BadRequest);
      }
      var entry := EntryAt(ipList, key, digit.value);
      var prevCluster := entry.cluster;
      var hadDNS := HasSuffix(entry.status, DNS_SUFFIX);
      entry := entry.(status := "", cluster := "", lease := 0);
      ipList := ipList[key := ipList[key][digit.value := entry]];
      answer := Proceed(if hadDNS then {prevCluster} else {}, None);
    }

    method RenewLease(key: string, ip: string, duration: int) returns (answer: Answer)
      modifies this`ipList
      ensures Meaning(answer, ipList) == Apply(Op.Renew(key, ip, duration), now, old(ipList))
    {
      if duration <= 0 {
        return Reject(BadRequest);
      }
      if key !in ipList {
        return Reject(NotFound);
      }
      var digit := GetLastIPDigit(ip);
      if digit.None? {
        return Reject(BadRequest);
      }
      if digit.value !in ipList[key] {
        return Reject(NotFound);
      }
      var entry := ipList[key][digit.value];
      if entry.status == "" {
        return Reject(Conflict);
      }
      entry := entry.(lease := Wrap64(now + duration));
      ipList := ipList[key := ipList[key][digit.value := entry]];
      answer := Proceed({}, None);
    }

    method EditIP(key: string, ip: string, cluster: string, status: string, createDNS: bool)
      returns (answer: Answer)
      modifies this`ipList
      ensures Meaning(answer, ipList) == Apply(Op.EditIP(key, ip, cluster, status, createDNS), now, old(ipList))
    {
      var digit := ip;
      if HasPrefix(digit, key + ".") {
        digit := TrimPrefix(digit, key + ".");
      }
      if cluster == "" || status == "" {
        return Reject(BadRequest);
      }
      if key !in ipList {
        return Reject(NotFound);
      }
      if digit !in ipList[key] {
        return Reject(NotFound);
      }
      var entry := ipList[key][digit];
      var prevCluster := entry.cluster;
      var hadDNS := HasSuffix(entry.status, DNS_SUFFIX);
      var dns := WantsDNS(createDNS, status);
      var baseStatus := TrimSuffix(status, DNS_SUFFIX);
      entry := entry.(status := baseStatus);
      if dns {
        entry := entry.(status := WithDNSSuffix(baseStatus));
      }
      entry := entry.(cluster := cluster);
      ipList := ipList[key := ipList[key][digit := entry]];
      var withdraw: set<string> := {};
      if hadDNS && (!dns || prevCluster != cluster) {
        withdraw := {prevCluster};
      }
      answer := Proceed(withdraw, if dns then Some(Record(cluster, key + "." + digit)) else None);
    }

    method DeleteIP(key: string, ip: string) returns (answer: Answer)
      modifies this`ipList
      ensures Meaning(answer, ipList) == Apply(Op.DeleteIP(key, ip), now, old(ipList))
    {
      var digit := ip;
      if HasPrefix(digit, key + ".") {
        digit := TrimPrefix(digit, key + ".");
      }
      if key !in ipList {
        return Reject(NotFound);
      }
      if digit !in ipList[key] {
        return Reject(NotFound);
      }
      var entry := ipList[key][digit];
      var hadDNS := HasSuffix(entry.status, DNS_SUFFIX);
      ipList := ipList[key := ipList[key] - {digit}];
      answer := Proceed(if hadDNS then {entry.cluster} else {}, None);
    }

    /** One reclaimer pass over the loaded ledger; the records to remove follow from what was found. */
    method ReclaimOnce() returns (answer: Answer)
      modifies this`ipList
      ensures Meaning(answer, ipList) == Apply(ReclaimPass, now, old(ipList))
    {
      var ledger, reclaimed := Reclaimer.ReclaimExpiredLeases(ipList, now);
      FoundIffExpired(reclaimed, ipList, now);
      if |reclaimed| == 0 {
        return NoChange;
      }
      var withdraw := RemoveReclaimedDNS(reclaimed, ipList, now);
      ipList := ledger;
      answer := Proceed(withdraw, None);
    }

    method SetClusterInfo(ips: seq<string>, cluster: string, status: string) returns (answer: Answer)
      modifies this`ipList
      ensures Meaning(answer, ipList) == Committed(SetAll(old(ipList), ips, cluster, status))
    {
      for i := 0 to |ips|
        invariant SetAll(old(ipList), ips[..i], cluster, status) == Done(ipList)
      {
        assert ips[..i + 1][..i] == ips[..i];
        ghost var l := ipList;
        var ipKey := TruncateIP(ips[i]);
        var ipDigit := GetLastIPDigit(ips[i]);
        if ipKey.None? || ipDigit.None? {
          SetFails(old(ipList), ips, cluster, status, i + 1);
          return Reject(BadRequest);
        }
        if ipKey.value !in ipList {
          SetFails(old(ipList), ips, cluster, status, i + 1);
          return Reject(NotFound);
        }
        var entry := EntryAt(ipList, ipKey.value, ipDigit.value);
        entry := entry.(status := status, cluster := cluster);
        ipList := ipList[ipKey.value := ipList[ipKey.value][ipDigit.value := entry]];
      }
      assert ips[..|ips|] == ips;
      answer := Proceed({}, None);
    }

    method CreateNetwork(key: string, digits: seq<string>) returns (answer: Answer)
      modifies this`ipList
      ensures Meaning(answer, ipList) == Apply(Op.CreateNetwork(key, digits), now, old(ipList))
    {
      if key == "" || |digits| == 0 {
        return Reject(BadRequest);
      }
      if key in ipList {
        assert key in map[key := digits];
        return Reject(Conflict);
      }
      var ips := AddBlank(map[], digits);
      assert ips == FreshNetwork(digits);
      ipList := ipList[key := ips];
      answer := Proceed({}, None);
    }

    /** The networks of an expanded prefix are added in map order; one that exists refuses them all. */
    method CreateFromCIDR(networks: Option<map<string, seq<string>>>) returns (answer: Answer)
      modifies this`ipList
      ensures Meaning(answer, ipList) == Apply(Op.CreateFromCIDR(networks), now, old(ipList))
    {
      if networks.None? {
        return Reject(BadRequest);
      }
      answer := AddNetworks(networks.value);
    }

    method AddNetworks(networks: map<string, seq<string>>) returns (answer: Answer)
      modifies this`ipList
      ensures Meaning(answer, ipList) == CreateOutcome(old(ipList), networks)
    {
      var rest := networks.Keys;
      assert networks.Keys - rest == {};
      while rest != {}
        invariant rest <= networks.Keys
        invariant forall k :: k in networks && k !in rest ==> k !in old(ipList)
        invariant ipList == Created(old(ipList), networks, networks.Keys - rest)
      {
        var key :| key in rest;
        if key in ipList {
          assert key in old(ipList);
          return Reject(Conflict);
        }
        var ips := AddBlank(map[], networks[key]);
        CreatedNext(old(ipList), networks, rest, key);
        ipList := ipList[key := ips];
        rest := rest - {key};
      }
      assert networks.Keys - rest == networks.Keys;
      answer := Proceed({}, None);
    }

    method AddIPs(key: string, digits: seq<string>) returns (answer: Answer)
      modifies this`ipList
      ensures Meaning(answer, ipList) == Apply(Op.AddIPs(key, digits), now, old(ipList))
    {
      if |digits| == 0 {
        return Reject(BadRequest);
      }
      if key !in ipList {
        return Reject(NotFound);
      }
      var ips := AddBlank(ipList[key], digits);
      ipList := ipList[key := ips];
      answer := Proceed({}, None);
    }

    method DeleteNetwork(key: string) returns (answer: Answer)
      modifies this`ipList
      ensures Meaning(answer, ipList) == Apply(Op.DeleteNetwork(key), now, old(ipList))
    {
      if key !in ipList {
        return Reject(NotFound);
      }
      ipList := ipList - {key};
      answer := Proceed({}, None);
    }
  }

  lemma CreatedNext(l: Ledger, networks: map<string, seq<string>>, rest: set<string>, key: string)
    requires key in rest && rest <= networks.Keys
    ensures Extended(map[], networks[key]) == FreshNetwork(networks[key])
    ensures Created(l, networks, networks.Keys - (rest - {key})) ==
            Created(l, networks, networks.Keys - rest)[key := FreshNetwork(networks[key])]
  {
    assert networks.Keys - (rest - {key}) == networks.Keys - rest + {key};
  }

  /** Adds a blank entry for each host part that is not there yet. */
  method AddBlank(network: IPs, digits: seq<string>) returns (ips: IPs)
    ensures ips == Extended(network, digits)
  {
    ips := network;
    for i := 0 to |digits|
      invariant ips.Keys == network.Keys + (set d | d in digits[..i])
      invariant forall d :: d in ips ==> ips[d] == if d in network then network[d] else BLANK
    {
      assert digits[..i + 1] == digits[..i] + [digits[i]];
      if digits[i] !in ips {
        ips := ips[digits[i] := BLANK];
      }
    }
    assert digits[..|digits|] == digits;
  }

  lemma {:induction false} SetFails(l: Ledger, ips: seq<string>, cluster: string, status: string, n: nat)
    requires n <= |ips| && SetAll(l, ips[..n], cluster, status).Failed?
    ensures SetAll(l, ips, cluster, status) == SetAll(l, ips[..n], cluster, status)
    decreases |ips| - n
  {
    if n == |ips| {
      assert ips[..n] == ips;
    } else {
      assert ips[..n + 1][..n] == ips[..n];
      SetFails(l, ips, cluster, status, n + 1);
    }
  }

  lemma FoundIffExpired(reclaimed: seq<Reclaimer.ExpiredLease>, l: Ledger, now: int)
    requires Reclaimer.ListsExpired(reclaimed, l, now)
    ensures |reclaimed| == 0 <==> !AnyExpired(l, now)
  {
    if |reclaimed| > 0 {
      var e := reclaimed[0];
      assert e in reclaimed;
      assert Reclaimer.IsExpired(l, now, e);
    }
    if AnyExpired(l, now) {
      var k, d :| Listed(l, k, d) && Reclaimer.Expired(l[k][d], now);
      assert Reclaimer.IsExpired(l, now, Reclaimer.LeaseOf(l, k, d));
    }
  }

  /** The clusters of the reclaimed leases that had a record. */
  method RemoveReclaimedDNS(reclaimed: seq<Reclaimer.ExpiredLease>, ghost l: Ledger, ghost now: int)
    returns (withdraw: set<string>)
    requires Reclaimer.ListsExpired(reclaimed, l, now)
    ensures withdraw == ReclaimedClusters(l, now)
  {
    withdraw := {};
    for i := 0 to |reclaimed|
      invariant forall c :: c in withdraw <==>
        exists j :: 0 <= j < i && reclaimed[j].hadDNS && reclaimed[j].cluster != "" && reclaimed[j].cluster == c
    {
      var e := reclaimed[i];
      if !e.hadDNS || e.cluster == "" {
        continue;
      }
      withdraw := withdraw + {e.cluster};
    }
    forall c ensures c in withdraw <==> c in ReclaimedClusters(l, now) {
      if c in withdraw {
        var j :| 0 <= j < |reclaimed| && reclaimed[j].hadDNS && reclaimed[j].cluster != "" && reclaimed[j].cluster == c;
        assert reclaimed[j] in reclaimed;
        assert Reclaims(l, now, reclaimed[j].key, reclaimed[j].digit, c);
      }
      if c in ReclaimedClusters(l, now) {
        var k, d :| Reclaims(l, now, k, d, c);
        var e := Reclaimer.LeaseOf(l, k, d);
        assert Reclaimer.IsExpired(l, now, e);
        assert e in reclaimed;
      }
    }
  }
}

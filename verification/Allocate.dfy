/** Which addresses are offered, how many the pools count, and what a batch reservation writes. */
module Allocate {
  import opened Text
  import opened Address
  import opened Ledgers

  function FreeDigits(ips: IPs): set<string> {
    set d | d in ips && IsFree(ips[d])
  }

  // ---- offering ---------------------------------------------------------------

  datatype Offer = Offered(ips: seq<string>) | NotEnough | NoNetwork | Panicked

  ghost predicate AddressOf(ip: string, key: string, digits: set<string>) {
    exists d :: d in digits && ip == Full(key, d)
  }

  /** `ips` are distinct addresses of free host parts of the network. */
  ghost predicate FreeAddresses(ips: seq<string>, key: string, free: set<string>) {
    && (forall i :: 0 <= i < |ips| ==> AddressOf(ips[i], key, free))
    && forall i, j :: 0 <= i < j < |ips| ==> ips[i] != ips[j]
  }

  /** An offer of `n` addresses: exactly `n` distinct free ones while the pool has as many, an
      error when it has some but fewer, none at all when it has none. */
  ghost predicate Offers(ipList: Ledger, n: int, key: string, offer: Offer) {
    if key !in ipList then offer == NoNetwork
    else
      var free := FreeDigits(ipList[key]);
      if |free| == 0 then offer == Offered([])
      else if n > |free| then offer == NotEnough
      else if n < 0 then offer == Panicked
      else offer.Offered? && |offer.ips| == n && FreeAddresses(offer.ips, key, free)
  }

  method GenerateIPs(ipList: Ledger, requested: int, key: string) returns (offer: Offer)
    ensures Offers(ipList, requested, key, offer)
  {
    if key !in ipList {
      return NoNetwork;
    }
    var available := ListFree(ipList[key], key);
    if |available| == 0 {
      offer := Offered([]);
    } else if |available| >= requested {
      if requested < 0 {
        return Panicked;
      }
      var picked := PickRandomValues(available, requested);
      offer := Offered(picked);
    } else {
      offer := NotEnough;
    }
  }

  method ListFree(ips: IPs, key: string) returns (available: seq<string>)
    ensures FreeAddresses(available, key, FreeDigits(ips)) && |available| == |FreeDigits(ips)|
  {
    available := [];
    var digits := ips.Keys;
    ghost var seen: set<string> := {};
    while digits != {}
      invariant digits <= ips.Keys
      invariant seen == (set d | d in ips && d !in digits && IsFree(ips[d]))
      invariant FreeAddresses(available, key, seen) && |available| == |seen|
    {
      var digit :| digit in digits;
      digits := digits - {digit};
      if IsFree(ips[digit]) {
        NewAddress(available, key, seen, digit);
        available := available + [key + "." + digit];
        seen := seen + {digit};
      }
    }
    assert seen == FreeDigits(ips);
  }

  lemma NewAddress(ips: seq<string>, key: string, free: set<string>, digit: string)
    requires FreeAddresses(ips, key, free) && digit !in free
    ensures FreeAddresses(ips + [Full(key, digit)], key, free + {digit})
  {
    var more := ips + [Full(key, digit)];
    forall i | 0 <= i < |more| ensures AddressOf(more[i], key, free + {digit}) {
      if i < |ips| {
        assert AddressOf(ips[i], key, free);
        var d :| d in free && ips[i] == Full(key, d);
        assert d in free + {digit} && more[i] == Full(key, d);
      } else {
        assert digit in free + {digit} && more[i] == Full(key, digit);
      }
    }
    forall i | 0 <= i < |ips| ensures ips[i] != Full(key, digit) {
      assert AddressOf(ips[i], key, free);
      var d :| d in free && ips[i] == Full(key, d);
      FullInjective(key, d, digit);
    }
  }

  ghost predicate Permutation(indices: seq<nat>, n: nat) {
    && |indices| == n
    && (forall i :: 0 <= i < n ==> indices[i] < n)
    && forall i, j :: 0 <= i < j < n ==> indices[i] != indices[j]
  }

  function Range(n: nat): (r: set<nat>)
    ensures |r| == n && forall i: nat :: i in r <==> i < n
  {
    if n == 0 then {} else Range(n - 1) + {n - 1}
  }

  /** `rng.Perm`: any permutation. */
  method Perm(n: nat) returns (indices: seq<nat>)
    ensures Permutation(indices, n)
  {
    indices := [];
    var rest := Range(n);
    while rest != {}
      invariant |indices| + |rest| == n && rest <= Range(n)
      invariant forall i :: 0 <= i < |indices| ==> indices[i] < n && indices[i] !in rest
      invariant forall i, j :: 0 <= i < j < |indices| ==> indices[i] != indices[j]
      decreases |rest|
    {
      var i :| i in rest;
      rest := rest - {i};
      indices := indices + [i];
    }
  }

  method PickRandomValues(slice: seq<string>, count: nat) returns (picked: seq<string>)
    requires forall i, j :: 0 <= i < j < |slice| ==> slice[i] != slice[j]
    ensures |picked| == if count < |slice| then count else |slice|
    ensures forall i :: 0 <= i < |picked| ==> picked[i] in slice
    ensures forall i, j :: 0 <= i < j < |picked| ==> picked[i] != picked[j]
  {
    if count >= |slice| {
      return slice;
    }
    picked := [];
    var indices := Perm(|slice|);
    for i := 0 to count
      invariant |picked| == i && forall j :: 0 <= j < i ==> picked[j] == slice[indices[j]]
    {
      picked := picked + [slice[indices[i]]];
    }
    forall i, j | 0 <= i < j < |picked| ensures picked[i] != picked[j] {
      assert indices[i] != indices[j];
    }
  }

  // ---- counting ---------------------------------------------------------------

  datatype PoolInfo = PoolInfo(total: nat, inUse: nat, pending: nat, available: nat)

  const PENDING := "PENDING"

  function WithPrefix(ips: IPs, prefix: string): set<string> {
    set d | d in ips && HasPrefix(ips[d].status, prefix)
  }

  /** What is counted of a network: the free addresses are exactly those the allocators offer. */
  ghost predicate Counts(info: PoolInfo, ips: IPs) {
    && info.total == |ips| && info.available == |FreeDigits(ips)|
    && info.inUse == |WithPrefix(ips, ASSIGNED)| && info.pending == |WithPrefix(ips, PENDING)|
  }

  method GetPoolInfo(ips: IPs) returns (info: PoolInfo)
    ensures Counts(info, ips)
    ensures info.inUse == |set d | d in ips && HasPrefix(ips[d].status, "ASSIGNED")|
    ensures info.pending == |set d | d in ips && HasPrefix(ips[d].status, "PENDING")|
    ensures info.inUse + info.pending + info.available <= info.total
  {
    info := PoolInfo(|ips|, 0, 0, 0);
    var digits := ips.Keys;
    ghost var a, p, f := WithPrefix(ips, ASSIGNED), WithPrefix(ips, PENDING), FreeDigits(ips);
    while digits != {}
      invariant digits <= ips.Keys && info.total == |ips|
      invariant info.inUse == |a - digits| && info.pending == |p - digits| && info.available == |f - digits|
    {
      var digit :| digit in digits;
      Counted(a, digits, digit);
      Counted(p, digits, digit);
      Counted(f, digits, digit);
      digits := digits - {digit};
      info := Classify(info, ips, digit);
    }
    Disjoint(ips);
  }

  lemma Counted(all: set<string>, digits: set<string>, digit: string)
    requires digit in digits
    ensures |all - (digits - {digit})| == |all - digits| + if digit in all then 1 else 0
  {
    if digit in all {
      assert all - (digits - {digit}) == (all - digits) + {digit};
    } else {
      assert all - (digits - {digit}) == all - digits;
    }
  }

  /** One round of the counting loop. */
  method Classify(info: PoolInfo, ips: IPs, digit: string) returns (r: PoolInfo)
    requires digit in ips
    ensures r.total == info.total
    ensures r.inUse == info.inUse + if digit in WithPrefix(ips, ASSIGNED) then 1 else 0
    ensures r.pending == info.pending + if digit in WithPrefix(ips, PENDING) then 1 else 0
    ensures r.available == info.available + if digit in FreeDigits(ips) then 1 else 0
  {
    Kinds(ips[digit].status);
    if HasPrefix(ips[digit].status, ASSIGNED) {
      r := info.(inUse := info.inUse + 1);
    } else if HasPrefix(ips[digit].status, PENDING) {
      r := info.(pending := info.pending + 1);
    } else if IsFree(ips[digit]) {
      r := info.(available := info.available + 1);
    } else {
      r := info;
    }
  }

  /** A status is counted as at most one of assigned, pending and free. */
  lemma Kinds(status: string)
    ensures !(HasPrefix(status, ASSIGNED) && HasPrefix(status, PENDING))
    ensures status == "" ==> !HasPrefix(status, ASSIGNED) && !HasPrefix(status, PENDING)
  {
    if HasPrefix(status, ASSIGNED) { assert status[0] == 'A'; }
    if HasPrefix(status, PENDING) { assert status[0] == 'P'; }
  }

  lemma Disjoint(ips: IPs)
    ensures |WithPrefix(ips, ASSIGNED)| + |WithPrefix(ips, PENDING)| + |FreeDigits(ips)| <= |ips|
  {
    var a, p, f := WithPrefix(ips, ASSIGNED), WithPrefix(ips, PENDING), FreeDigits(ips);
    forall d | d in ips
      ensures !(d in a && d in p) && !(d in a && d in f) && !(d in p && d in f)
    {
      Kinds(ips[d].status);
    }
    assert a !! p && (a + p) !! f;
    assert |a + p + f| == |a| + |p| + |f|;
    SubsetSize(a + p + f, ips.Keys);
    assert |ips.Keys| == |ips|;
  }

  lemma SubsetSize<T>(a: set<T>, b: set<T>)
    requires a <= b
    ensures |a| <= |b|
  {
    assert b == a + (b - a);
  }

  // ---- reserving what was offered ------------------------------------------------

  /** Writes `entry` at the host part each address is read back as; None is the error of an
      address with fewer than four segments. */
  function WriteAll(l: Ledger, key: string, ips: seq<string>, entry: IPInfo): Option<Ledger>
    requires key in l
  {
    if ips == [] then Some(l)
    else
      var front := WriteAll(l, key, ips[..|ips| - 1], entry);
      var digit := GetLastIPDigit(ips[|ips| - 1]);
      if front.None? || digit.None? || key !in front.value then None
      else Some(Put(front.value, key, digit.value, entry))
  }

  method WriteReserved(l: Ledger, key: string, ips: seq<string>, entry: IPInfo) returns (r: Option<Ledger>)
    requires key in l
    ensures r == WriteAll(l, key, ips, entry)
  {
    var ipList := l;
    for i := 0 to |ips|
      invariant key in ipList && WriteAll(l, key, ips[..i], entry) == Some(ipList)
    {
      assert ips[..i + 1][..i] == ips[..i];
      var digit := GetLastIPDigit(ips[i]);
      if digit.None? {
        WriteFails(l, key, ips, entry, i + 1);
        return None;
      }
      ipList := ipList[key := ipList[key][digit.value := entry]];
    }
    assert ips[..|ips|] == ips;
    r := Some(ipList);
  }

  lemma {:induction false} WriteFails(l: Ledger, key: string, ips: seq<string>, entry: IPInfo, n: nat)
    requires key in l && n <= |ips| && WriteAll(l, key, ips[..n], entry) == None
    ensures WriteAll(l, key, ips, entry) == None
    decreases |ips| - n
  {
    if n == |ips| {
      assert ips[..n] == ips;
    } else {
      assert ips[..n + 1][..n] == ips[..n];
      WriteFails(l, key, ips, entry, n + 1);
    }
  }

  ghost predicate DotFree(digits: set<string>) {
    forall d :: d in digits ==> '.' !in d
  }

  /** The host parts behind an offer: distinct and free. */
  lemma {:induction false} HostParts(ips: seq<string>, key: string, free: set<string>) returns (ds: seq<string>)
    requires FreeAddresses(ips, key, free)
    ensures |ds| == |ips| && forall i :: 0 <= i < |ds| ==> ds[i] in free && ips[i] == Full(key, ds[i])
    ensures forall i, j :: 0 <= i < j < |ds| ==> ds[i] != ds[j]
  {
    ds := [];
    for n := 0 to |ips|
      invariant |ds| == n && forall i :: 0 <= i < n ==> ds[i] in free && ips[i] == Full(key, ds[i])
    {
      assert AddressOf(ips[n], key, free);
      var d :| d in free && ips[n] == Full(key, d);
      ds := ds + [d];
    }
  }

  function Elements(ds: seq<string>): set<string> {
    set d | d in ds
  }

  lemma {:induction false} DistinctSize(ds: seq<string>)
    requires forall i, j :: 0 <= i < j < |ds| ==> ds[i] != ds[j]
    ensures |Elements(ds)| == |ds|
  {
    if ds == [] {
    } else {
      var n := |ds| - 1;
      DistinctSize(ds[..n]);
      assert Elements(ds) == Elements(ds[..n]) + {ds[n]};
    }
  }
}

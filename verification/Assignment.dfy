/** The Crossplane controller for one IPAssignment: what it observes, and what it reserves, edits and
    renews on a server that others write to as well. */
module Assignment {
  import opened Text
  import opened Decimal
  import opened Ledgers

  datatype IPEntry = IPEntry(ip: string, digit: string, status: string, cluster: string, fqdn: string, lease: int)

  datatype Spec = Spec(key: string, cluster: string, count: int, status: string, createDNS: bool, lease: int)

  datatype Status = Status(ips: seq<string>, ip: string, fqdn: string, lease: int, name: string, available: bool)

  /** The answer to listing a network; a missing and an empty network look the same. */
  datatype Listing = ListFailed | Missing | Entries(entries: seq<IPEntry>)

  // ---- the accumulating loops -----------------------------------------------------------

  predicate Holds(e: IPEntry, cluster: string) {
    e.cluster == cluster && e.status != ""
  }

  /** The entries of the cluster, in the server's order. */
  function Held(entries: seq<IPEntry>, cluster: string): seq<IPEntry> {
    if entries == [] then []
    else
      var front, last := Held(entries[..|entries| - 1], cluster), entries[|entries| - 1];
      if Holds(last, cluster) then front + [last] else front
  }

  method HeldBy(entries: seq<IPEntry>, cluster: string) returns (held: seq<IPEntry>)
    ensures held == Held(entries, cluster)
  {
    held := [];
    for i := 0 to |entries|
      invariant held == Held(entries[..i], cluster)
    {
      assert entries[..i + 1][..i] == entries[..i];
      if entries[i].cluster == cluster && entries[i].status != "" {
        held := held + [entries[i]];
      }
    }
    assert entries[..|entries|] == entries;
  }

  function Free(entries: seq<IPEntry>): set<int> {
    set i | 0 <= i < |entries| && entries[i].status == ""
  }

  method CountFree(entries: seq<IPEntry>) returns (free: nat)
    ensures free == |Free(entries)|
  {
    free := 0;
    ghost var seen: set<int> := {};
    for i := 0 to |entries|
      invariant seen == (set j | 0 <= j < i && entries[j].status == "") && free == |seen|
    {
      if entries[i].status == "" {
        free := free + 1;
        seen := seen + {i};
      }
    }
    assert seen == Free(entries);
  }

  /** The earliest lease, or 0 when there is none or some entry has no lease. */
  predicate EarliestLease(entries: seq<IPEntry>, lease: int) {
    if entries == [] || exists i :: 0 <= i < |entries| && entries[i].lease == 0 then lease == 0
    else
      && (exists i :: 0 <= i < |entries| && entries[i].lease == lease)
      && forall i :: 0 <= i < |entries| ==> lease <= entries[i].lease
  }

  function MinLease(entries: seq<IPEntry>): (lease: int)
    ensures EarliestLease(entries, lease)
  {
    if entries == [] then 0
    else
      var n := |entries| - 1;
      var front, last := MinLease(entries[..n]), entries[n].lease;
      assert forall i :: 0 <= i < n ==> entries[..n][i] == entries[i];
      if last == 0 || (n > 0 && front == 0) then 0
      else if n == 0 || last < front then last
      else front
  }

  method MinLeaseExpiresAt(entries: seq<IPEntry>) returns (min: int)
    ensures EarliestLease(entries, min)
  {
    min := 0;
    for i := 0 to |entries|
      invariant forall j :: 0 <= j < i ==> entries[j].lease != 0 && min <= entries[j].lease
      invariant i == 0 ==> min == 0
      invariant i > 0 ==> exists j :: 0 <= j < i && entries[j].lease == min
    {
      var e := entries[i];
      if e.lease == 0 {
        return 0;
      }
      if i == 0 || e.lease < min {
        min := e.lease;
      }
    }
  }

  lemma EarliestUnique(entries: seq<IPEntry>, a: int, b: int)
    requires EarliestLease(entries, a) && EarliestLease(entries, b)
    ensures a == b
  {
  }

  // ---- Observe ------------------------------------------------------------------------

  datatype Observation = ObserveFailed | Panicked | Observed(present: bool, upToDate: bool)

  /** The last entry with the address. */
  function Find(entries: seq<IPEntry>, ip: string): Option<IPEntry> {
    if entries == [] then None
    else if entries[|entries| - 1].ip == ip then Some(entries[|entries| - 1])
    else Find(entries[..|entries| - 1], ip)
  }

  /** Found is the last entry with the address, and nothing is found exactly when there is none. */
  lemma {:induction false} FindIs(entries: seq<IPEntry>, ip: string)
    ensures match Find(entries, ip)
      case None => forall i :: 0 <= i < |entries| ==> entries[i].ip != ip
      case Some(e) => exists i :: 0 <= i < |entries| && LastAt(entries, ip, i) && e == entries[i]
  {
    if entries == [] {
    } else {
      var n := |entries| - 1;
      FindIs(entries[..n], ip);
      if entries[n].ip == ip {
        assert LastAt(entries, ip, n);
      } else if Find(entries[..n], ip).Some? {
        var i :| 0 <= i < n && LastAt(entries[..n], ip, i) && Find(entries[..n], ip).value == entries[..n][i];
        assert LastAt(entries, ip, i);
      } else {
        assert forall i :: 0 <= i < n ==> entries[..n][i] == entries[i];
      }
    }
  }

  predicate LastAt(entries: seq<IPEntry>, ip: string, i: nat) {
    i < |entries| && entries[i].ip == ip && forall j :: i < j < |entries| ==> entries[j].ip != ip
  }

  /** The entries behind the recorded addresses; None when one is gone or no longer the cluster's. */
  function StillHeld(ips: seq<string>, entries: seq<IPEntry>, cluster: string): Option<seq<IPEntry>> {
    if ips == [] then Some([])
    else
      var front := StillHeld(ips[..|ips| - 1], entries, cluster);
      var last := Find(entries, ips[|ips| - 1]);
      if front.None? || last.None? || last.value.cluster != cluster then None else Some(front.value + [last.value])
  }

  function ExpectedStatus(spec: Spec): string {
    if spec.createDNS then spec.status + DNS_SUFFIX else spec.status
  }

  /** The remaining lease is at least half of what is asked for. */
  predicate LeaseFresh(spec: Spec, e: IPEntry, now: int) {
    spec.lease > 0 ==> e.lease != 0 && e.lease >= Wrap64(now + spec.lease / 2)
  }

  predicate UpToDate(spec: Spec, e: IPEntry, now: int) {
    e.status == ExpectedStatus(spec) && e.cluster == spec.cluster && LeaseFresh(spec, e, now)
  }

  function ExternalName(spec: Spec): string {
    spec.cluster + "/" + spec.key
  }

  function EntriesOf(listing: Listing): seq<IPEntry> {
    if listing.Entries? then listing.entries else []
  }

  function Addresses(entries: seq<IPEntry>): seq<string> {
    seq(|entries|, i requires 0 <= i < |entries| => entries[i].ip)
  }

  function Adopt(spec: Spec, status: Status, adopted: seq<IPEntry>): Status
    requires adopted != []
  {
    Status(Addresses(adopted), adopted[0].ip, adopted[0].fqdn, MinLease(adopted), ExternalName(spec), true)
  }

  function ObserveNew(spec: Spec, status: Status, listing: Listing): (Status, Observation) {
    var existing := Held(EntriesOf(listing), spec.cluster);
    if |existing| == 0 || |existing| < spec.count then (status, Observed(false, false))
    else if spec.count <= 0 then (status, Panicked)
    else (Adopt(spec, status, existing[..spec.count]), Observed(true, !spec.createDNS))
  }

  function ObserveKnown(spec: Spec, status: Status, listing: Listing, now: int): (Status, Observation)
    requires status.ips != []
  {
    var observed := StillHeld(status.ips, EntriesOf(listing), spec.cluster);
    if observed.None? || observed.value == [] then (status, Observed(false, false))
    else
      (status.(fqdn := observed.value[0].fqdn, lease := MinLease(observed.value), available := true),
       Observed(true, forall i :: 0 <= i < |observed.value| ==> UpToDate(spec, observed.value[i], now)))
  }

  function ObserveAt(spec: Spec, status: Status, listing: Listing, now: int): (Status, Observation) {
    if listing.ListFailed? then (status, ObserveFailed)
    else if status.ips == [] then ObserveNew(spec, status, listing)
    else ObserveKnown(spec, status, listing, now)
  }

  /** Observe crashes exactly when it adopts for a count that is not positive. */
  lemma ObservePanicsExactly(spec: Spec, status: Status, listing: Listing, now: int)
    ensures ObserveAt(spec, status, listing, now).1.Panicked? <==>
            && !listing.ListFailed? && status.ips == [] && spec.count <= 0
            && Held(EntriesOf(listing), spec.cluster) != []
  {
  }

  lemma {:induction false} HeldMember(entries: seq<IPEntry>, cluster: string, e: IPEntry)
    ensures e in Held(entries, cluster) <==> e in entries && e.cluster == cluster && e.status != ""
  {
    if entries == [] {
    } else {
      var n := |entries| - 1;
      HeldMember(entries[..n], cluster, e);
      assert entries == entries[..n] + [entries[n]];
    }
  }

  /** Where the listing has entries of the cluster. */
  function HeldAt(entries: seq<IPEntry>, cluster: string): set<int> {
    set i | 0 <= i < |entries| && entries[i].cluster == cluster && entries[i].status != ""
  }

  lemma {:induction false} HeldCount(entries: seq<IPEntry>, cluster: string)
    ensures |Held(entries, cluster)| == |HeldAt(entries, cluster)|
  {
    if entries == [] {
    } else {
      var n := |entries| - 1;
      HeldCount(entries[..n], cluster);
      assert HeldAt(entries[..n], cluster) == HeldAt(entries, cluster) - {n};
      assert forall i :: 0 <= i < n ==> entries[..n][i] == entries[i];
    }
  }

  /** Where each held entry stands in the listing: in ascending order. */
  lemma {:induction false} HeldOrder(entries: seq<IPEntry>, cluster: string) returns (at: seq<int>)
    ensures |at| == |Held(entries, cluster)|
    ensures forall i :: 0 <= i < |at| ==>
      at[i] in HeldAt(entries, cluster) && Held(entries, cluster)[i] == entries[at[i]]
    ensures forall i, j :: 0 <= i < j < |at| ==> at[i] < at[j]
  {
    if entries == [] {
      at := [];
    } else {
      var n := |entries| - 1;
      at := HeldOrder(entries[..n], cluster);
      if Holds(entries[n], cluster) {
        at := at + [n];
      }
    }
  }

  /** `at` are the places of the first entries of the cluster. */
  ghost predicate FirstHeld(at: seq<int>, entries: seq<IPEntry>, cluster: string) {
    && (forall i :: 0 <= i < |at| ==> at[i] in HeldAt(entries, cluster))
    && (forall i, j :: 0 <= i < j < |at| ==> at[i] < at[j])
    && forall k :: k in HeldAt(entries, cluster) ==> k in at || forall i :: 0 <= i < |at| ==> at[i] < k
  }

  lemma FirstPlaces(entries: seq<IPEntry>, cluster: string, count: nat) returns (at: seq<int>)
    requires count <= |Held(entries, cluster)|
    ensures |at| == count && FirstHeld(at, entries, cluster)
    ensures forall i :: 0 <= i < count ==> Held(entries, cluster)[i] == entries[at[i]]
  {
    var all := HeldOrder(entries, cluster);
    at := all[..count];
    var places := set i | 0 <= i < |all| :: all[i];
    HeldCount(entries, cluster);
    DistinctPlaces(all);
    assert places <= HeldAt(entries, cluster);
    SameSize(places, HeldAt(entries, cluster));
    forall k | k in HeldAt(entries, cluster) ensures k in at || forall i :: 0 <= i < |at| ==> at[i] < k {
      assert k in places;
      var m :| 0 <= m < |all| && all[m] == k;
      if m < count {
        assert at[m] == k;
      }
    }
  }

  lemma {:induction false} DistinctPlaces(at: seq<int>)
    requires forall i, j :: 0 <= i < j < |at| ==> at[i] < at[j]
    ensures |(set i | 0 <= i < |at| :: at[i])| == |at|
  {
    if at == [] {
    } else {
      var n := |at| - 1;
      DistinctPlaces(at[..n]);
      assert (set i | 0 <= i < |at| :: at[i]) == (set i | 0 <= i < n :: at[..n][i]) + {at[n]};
    }
  }

  lemma SameSize(a: set<int>, b: set<int>)
    requires a <= b && |a| == |b|
    ensures a == b
  {
    assert |b - a| == |b| - |a|;
  }

  /** What adoption leaves: the first held entries' addresses, and the fields read off them. */
  ghost predicate Adopted(s: Status, spec: Spec, entries: seq<IPEntry>, at: seq<int>)
    requires |at| >= 1 && forall i :: 0 <= i < |at| ==> 0 <= at[i] < |entries|
  {
    var adopted := seq(|at|, i requires 0 <= i < |at| && 0 <= at[i] < |entries| => entries[at[i]]);
    && |s.ips| == |at|
    && (forall i :: 0 <= i < |at| ==> s.ips[i] == entries[at[i]].ip)
    && s.ip == s.ips[0] && s.fqdn == entries[at[0]].fqdn
    && EarliestLease(adopted, s.lease)
    && s.name == spec.cluster + "/" + spec.key && s.available
  }

  /** Without recorded addresses and a count of at least one, Observe answers: present if and only if
      the listing has at least that many entries of the cluster, and up to date if and only if it is
      present and no record is wanted. Present, it records the first of them; otherwise it leaves the
      status alone. */
  lemma AdoptsExactly(spec: Spec, status: Status, listing: Listing, now: int) returns (at: seq<int>)
    requires !listing.ListFailed? && status.ips == [] && spec.count >= 1
    ensures var (s', o) := ObserveAt(spec, status, listing, now);
            var entries := EntriesOf(listing);
            && o.Observed?
            && (o.present <==> |HeldAt(entries, spec.cluster)| >= spec.count)
            && (o.upToDate <==> o.present && !spec.createDNS)
            && (!o.present ==> s' == status)
            && (o.present ==> |at| == spec.count && FirstHeld(at, entries, spec.cluster))
            && (o.present ==> Adopted(s', spec, entries, at))
  {
    var entries := EntriesOf(listing);
    HeldCount(entries, spec.cluster);
    at := [];
    if |HeldAt(entries, spec.cluster)| >= spec.count {
      at := FirstPlaces(entries, spec.cluster, spec.count);
      var s' := ObserveAt(spec, status, listing, now).0;
      var adopted := seq(|at|, i requires 0 <= i < |at| && 0 <= at[i] < |entries| => entries[at[i]]);
      assert adopted == Held(entries, spec.cluster)[..spec.count];
    }
  }

  /** The other cases of Observe that record nothing. */
  lemma ObservesNothing(spec: Spec, status: Status, listing: Listing, now: int)
    requires listing.ListFailed? || (status.ips == [] && spec.count <= 0)
    ensures ObserveAt(spec, status, listing, now) ==
            (status, if listing.ListFailed? then ObserveFailed
                     else if HeldAt(EntriesOf(listing), spec.cluster) != {} then Panicked
                     else Observed(false, false))
  {
    HeldCount(EntriesOf(listing), spec.cluster);
  }

  /** With recorded addresses: present, the fields are read off their entries and the rest is kept;
      otherwise nothing changes. */
  lemma RefreshesExactly(spec: Spec, status: Status, listing: Listing, now: int)
    requires !listing.ListFailed? && status.ips != []
    ensures var (s', o) := ObserveAt(spec, status, listing, now);
            && o.Observed?
            && (!o.present ==> s' == status && !o.upToDate)
            && (o.present ==> StatusRefreshed(s', status, EntriesOf(listing)))
  {
    var entries := EntriesOf(listing);
    var observed := StillHeld(status.ips, entries, spec.cluster);
    StillHeldLength(status.ips, entries, spec.cluster);
    StillHeldEach(status.ips, entries, spec.cluster);
    if observed.Some? {
      var s' := ObserveAt(spec, status, listing, now).0;
      assert FoundAll(observed.value, status.ips, entries) && ReadOff(s', status, observed.value);
    }
  }

  lemma {:induction false} StillHeldEach(ips: seq<string>, entries: seq<IPEntry>, cluster: string)
    ensures var r := StillHeld(ips, entries, cluster);
            r.Some? ==> |r.value| == |ips| && forall i :: 0 <= i < |ips| ==> Find(entries, ips[i]) == Some(r.value[i])
  {
    if ips == [] {
    } else {
      StillHeldEach(ips[..|ips| - 1], entries, cluster);
    }
  }

  ghost predicate StatusRefreshed(s: Status, before: Status, entries: seq<IPEntry>) {
    exists found: seq<IPEntry> :: FoundAll(found, before.ips, entries) && ReadOff(s, before, found)
  }

  ghost predicate FoundAll(found: seq<IPEntry>, ips: seq<string>, entries: seq<IPEntry>) {
    |found| == |ips| && forall i :: 0 <= i < |ips| ==> Find(entries, ips[i]) == Some(found[i])
  }

  ghost predicate ReadOff(s: Status, before: Status, found: seq<IPEntry>) {
    && found != [] && EarliestLease(found, s.lease) && s.fqdn == found[0].fqdn && s.available
    && s.ips == before.ips && s.ip == before.ip && s.name == before.name
  }

  /** An entry is up to date exactly when it carries the wanted status, marked if a record is wanted, for
      the cluster, and at least half of the wanted lease, rounded down, is left of it. */
  lemma UpToDateExactly(spec: Spec, e: IPEntry, now: int)
    requires 0 <= now && InInt64(now + spec.lease) && e.lease >= 0
    ensures UpToDate(spec, e, now) <==>
            && e.status == spec.status + (if spec.createDNS then ":DNS" else "")
            && e.cluster == spec.cluster
            && (spec.lease > 0 ==> e.lease > 0 && 2 * (e.lease - now) + 1 >= spec.lease)
  {
    assert spec.status + "" == spec.status;
  }

  lemma {:induction false} StillHeldLength(ips: seq<string>, entries: seq<IPEntry>, cluster: string)
    ensures var r := StillHeld(ips, entries, cluster); r.Some? ==> |r.value| == |ips|
  {
    if ips == [] {
    } else {
      StillHeldLength(ips[..|ips| - 1], entries, cluster);
    }
  }

  lemma {:induction false} StillHeldFails(ips: seq<string>, entries: seq<IPEntry>, cluster: string, n: nat)
    requires n <= |ips| && StillHeld(ips[..n], entries, cluster).None?
    ensures StillHeld(ips, entries, cluster).None?
    decreases |ips| - n
  {
    if n == |ips| {
      assert ips[..n] == ips;
    } else {
      assert ips[..n + 1][..n] == ips[..n];
      StillHeldFails(ips, entries, cluster, n + 1);
    }
  }

  lemma StillHeldNext(ips: seq<string>, entries: seq<IPEntry>, cluster: string, n: nat)
    requires n < |ips|
    ensures var front, last := StillHeld(ips[..n], entries, cluster), Find(entries, ips[n]);
            StillHeld(ips[..n + 1], entries, cluster) ==
            if front.None? || last.None? || last.value.cluster != cluster then None
            else Some(front.value + [last.value])
  {
    assert ips[..n + 1][..n] == ips[..n];
  }

  method EntryMap(entries: seq<IPEntry>) returns (m: map<string, IPEntry>)
    ensures forall ip :: Find(entries, ip) == if ip in m then Some(m[ip]) else None
  {
    m := map[];
    for i := 0 to |entries|
      invariant forall ip :: Find(entries[..i], ip) == if ip in m then Some(m[ip]) else None
    {
      assert entries[..i + 1][..i] == entries[..i];
      m := m[entries[i].ip := entries[i]];
    }
    assert entries[..|entries|] == entries;
  }

  /** The managed resource: its spec, and the status fields the controller fills in. */
  class IPAssignment {
    const spec: Spec
    var ips: seq<string>
    var ip: string
    var fqdn: string
    var lease: int
    var name: string
    var available: bool

    constructor (spec: Spec)
      ensures this.spec == spec && Now() == Status([], "", "", 0, "", false)
    {
      this.spec := spec;
      ips := [];
      ip, fqdn, lease, name, available := "", "", 0, "", false;
    }

    function Now(): Status
      reads this
    {
      Status(ips, ip, fqdn, lease, name, available)
    }

    method Observe(listing: Listing, now: int) returns (o: Observation)
      modifies this
      ensures ObserveAt(spec, old(Now()), listing, now) == (Now(), o)
    {
      if listing.ListFailed? {
        return ObserveFailed;
      }
      var entries := if listing.Entries? then listing.entries else [];
      if |ips| == 0 {
        o := ObserveAdopting(entries);
      } else {
        o := ObserveRecorded(entries, now);
      }
    }

    method ObserveAdopting(entries: seq<IPEntry>) returns (o: Observation)
      modifies this
      ensures ObserveNew(spec, old(Now()), Entries(entries)) == (Now(), o)
    {
      var existing := HeldBy(entries, spec.cluster);
      if |existing| > 0 && |existing| >= spec.count {
        if spec.count <= 0 {
          return Panicked;
        }
        var adopted := existing[..spec.count];
        var taken: seq<string> := [];
        for i := 0 to |adopted|
          invariant taken == Addresses(adopted)[..i]
        {
          taken := taken + [adopted[i].ip];
        }
        assert taken == Addresses(adopted);
        var earliest := MinLeaseExpiresAt(adopted);
        EarliestUnique(adopted, earliest, MinLease(adopted));
        ips := taken;
        ip := taken[0];
        fqdn := adopted[0].fqdn;
        lease := earliest;
        name := spec.cluster + "/" + spec.key;
        available := true;
        return Observed(true, !spec.createDNS);
      }
      o := Observed(false, false);
    }

    method ObserveRecorded(entries: seq<IPEntry>, now: int) returns (o: Observation)
      requires ips != []
      modifies this
      ensures ObserveKnown(spec, old(Now()), Entries(entries), now) == (Now(), o)
    {
      var entryMap := EntryMap(entries);
      var observed: seq<IPEntry> := [];
      for i := 0 to |ips|
        invariant Now() == old(Now())
        invariant StillHeld(ips[..i], entries, spec.cluster) == Some(observed) && |observed| == i
      {
        StillHeldNext(ips, entries, spec.cluster, i);
        if ips[i] !in entryMap || entryMap[ips[i]].cluster != spec.cluster {
          StillHeldFails(ips, entries, spec.cluster, i + 1);
          return Observed(false, false);
        }
        observed := observed + [entryMap[ips[i]]];
      }
      assert ips[..|ips|] == ips;
      var earliest := MinLeaseExpiresAt(observed);
      EarliestUnique(observed, earliest, MinLease(observed));
      fqdn := observed[0].fqdn;
      lease := earliest;
      var upToDate := CheckUpToDate(observed, now);
      available := true;
      o := Observed(true, upToDate);
    }

    method CheckUpToDate(observed: seq<IPEntry>, now: int) returns (upToDate: bool)
      ensures upToDate <==> forall i :: 0 <= i < |observed| ==> UpToDate(spec, observed[i], now)
    {
      var expectedStatus := spec.status;
      if spec.createDNS {
        expectedStatus := expectedStatus + DNS_SUFFIX;
      }
      for i := 0 to |observed|
        invariant forall j :: 0 <= j < i ==>
          observed[j].status == ExpectedStatus(spec) && observed[j].cluster == spec.cluster
      {
        if observed[i].status != expectedStatus || observed[i].cluster != spec.cluster {
          return false;
        }
      }
      if spec.lease > 0 {
        var threshold := Wrap64(now + spec.lease / 2);
        for i := 0 to |observed|
          invariant forall j :: 0 <= j < i ==> LeaseFresh(spec, observed[j], now)
        {
          if observed[i].lease == 0 || observed[i].lease < threshold {
            return false;
          }
        }
      }
      upToDate := true;
    }
  }
}

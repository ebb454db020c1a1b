/** The record table agrees with the ledger: one record for each cluster that has a `:DNS` address,
    naming that address, and no other. */
module Records {
  import opened Text
  import opened Address
  import opened Ledgers
  import opened Operations
  import Allocate
  import Handout
  import Reclaimer

  /** The address is marked as the one cluster `c` is published at. */
  predicate Backs(l: Ledger, key: string, digit: string, c: string) {
    HasDNS(EntryAt(l, key, digit)) && EntryAt(l, key, digit).cluster == c
  }

  /** Every mark names a cluster, and no cluster is marked twice. */
  ghost predicate Tidy(l: Ledger) {
    && (forall k, d :: HasDNS(EntryAt(l, k, d)) ==> EntryAt(l, k, d).cluster != "")
    && forall k1, d1, k2, d2 :: HasDNS(EntryAt(l, k1, d1)) && HasDNS(EntryAt(l, k2, d2)) ==>
         EntryAt(l, k1, d1).cluster == EntryAt(l, k2, d2).cluster ==> k1 == k2 && d1 == d2
  }

  /** No record is missing and none is stale. */
  ghost predicate Agree(l: Ledger, records: map<string, string>) {
    && (forall k, d :: HasDNS(EntryAt(l, k, d)) ==>
          EntryAt(l, k, d).cluster in records && records[EntryAt(l, k, d).cluster] == Full(k, d))
    && forall c :: c in records ==> Backed(l, c)
  }

  ghost predicate Backed(l: Ledger, c: string) {
    exists k, d :: Backs(l, k, d, c)
  }

  /** With a tidy ledger the table is determined. */
  lemma AgreeUnique(l: Ledger, a: map<string, string>, b: map<string, string>)
    requires Agree(l, a) && Agree(l, b)
    ensures a == b
  {
    forall c | c in a || c in b ensures c in a && c in b && a[c] == b[c] {
      assert Backed(l, c);
      var k, d :| Backs(l, k, d, c);
    }
  }

  // ---- changes that move no mark ------------------------------------------------------

  ghost predicate SameMarks(l: Ledger, l': Ledger) {
    forall k, d ::
      && (HasDNS(EntryAt(l', k, d)) <==> HasDNS(EntryAt(l, k, d)))
      && (HasDNS(EntryAt(l, k, d)) ==> EntryAt(l', k, d).cluster == EntryAt(l, k, d).cluster)
  }

  lemma SameMarksAgree(l: Ledger, l': Ledger, records: map<string, string>)
    requires SameMarks(l, l') && Tidy(l) && Agree(l, records)
    ensures Tidy(l') && Agree(l', records)
  {
    forall c | c in records ensures Backed(l', c) {
      assert Backed(l, c);
      var k, d :| Backs(l, k, d, c);
      assert Backs(l', k, d, c);
    }
  }

  lemma FreeUnmarked(info: IPInfo)
    ensures IsFree(info) ==> !HasDNS(info)
  {
  }

  lemma DropEmptyMarks(l: Ledger)
    ensures SameMarks(l, DropEmpty(l)) && SameMarks(DropEmpty(l), l)
  {
  }

  // ---- changes of one address ------------------------------------------------------------

  /** `l'` is `l` with `entry` at one address. */
  ghost predicate Sets(l: Ledger, l': Ledger, key: string, digit: string, entry: IPInfo) {
    forall k, d :: EntryAt(l', k, d) == if k == key && d == digit then entry else EntryAt(l, k, d)
  }

  /** Some other address is already marked for the cluster. */
  ghost predicate MarkedElsewhere(l: Ledger, key: string, digit: string, c: string) {
    exists k, d :: (k != key || d != digit) && Backs(l, k, d, c)
  }

  /** What has to happen to the records when an address goes from `was` to `entry`. */
  function Stale(was: IPInfo, entry: IPInfo): set<string> {
    if HasDNS(was) && !(HasDNS(entry) && entry.cluster == was.cluster) then {was.cluster} else {}
  }

  function Due(key: string, digit: string, entry: IPInfo): Option<Record> {
    if HasDNS(entry) then Some(Record(entry.cluster, Full(key, digit))) else None
  }

  lemma SetTidy(l: Ledger, l': Ledger, key: string, digit: string, entry: IPInfo)
    requires Tidy(l) && Sets(l, l', key, digit, entry)
    requires HasDNS(entry) ==> entry.cluster != ""
    ensures Tidy(l') <==> !(HasDNS(entry) && MarkedElsewhere(l, key, digit, entry.cluster))
  {
    if HasDNS(entry) && MarkedElsewhere(l, key, digit, entry.cluster) {
      var k, d :| (k != key || d != digit) && Backs(l, k, d, entry.cluster);
      assert Backs(l', k, d, entry.cluster) && Backs(l', key, digit, entry.cluster);
    } else {
      forall k, d | (k != key || d != digit) && HasDNS(EntryAt(l, k, d)) && HasDNS(entry)
        ensures EntryAt(l, k, d).cluster != entry.cluster
      {
        assert Backs(l, k, d, EntryAt(l, k, d).cluster);
      }
    }
  }

  lemma SetMarked(l: Ledger, l': Ledger, records: map<string, string>, key: string, digit: string, entry: IPInfo,
                  k: string, d: string)
    requires Tidy(l) && Tidy(l') && Agree(l, records) && Sets(l, l', key, digit, entry)
    requires HasDNS(EntryAt(l', k, d))
    ensures var r := Edited(records, Stale(EntryAt(l, key, digit), entry), Due(key, digit, entry));
            EntryAt(l', k, d).cluster in r && r[EntryAt(l', k, d).cluster] == Full(k, d)
  {
    if k != key || d != digit {
      assert EntryAt(l', k, d) == EntryAt(l, k, d);
    }
  }

  lemma SetBacked(l: Ledger, l': Ledger, records: map<string, string>, key: string, digit: string, entry: IPInfo,
                  c: string)
    requires Agree(l, records) && Sets(l, l', key, digit, entry)
    requires c in Edited(records, Stale(EntryAt(l, key, digit), entry), Due(key, digit, entry))
    ensures Backed(l', c)
  {
    if HasDNS(entry) && entry.cluster == c {
      assert Backs(l', key, digit, c);
    } else {
      assert Backed(l, c);
      var k, d :| Backs(l, k, d, c);
      assert Backs(l', k, d, c);
    }
  }

  /** One address changed, its stale record withdrawn and its due one published: the table agrees
      again, exactly when no other address was marked for the same cluster. */
  lemma SetAgrees(l: Ledger, l': Ledger, records: map<string, string>, key: string, digit: string, entry: IPInfo)
    requires Tidy(l) && Agree(l, records) && Sets(l, l', key, digit, entry)
    requires HasDNS(entry) ==> entry.cluster != ""
    ensures var r := Edited(records, Stale(EntryAt(l, key, digit), entry), Due(key, digit, entry));
            Tidy(l') && Agree(l', r) <==> !(HasDNS(entry) && MarkedElsewhere(l, key, digit, entry.cluster))
  {
    SetTidy(l, l', key, digit, entry);
    var r := Edited(records, Stale(EntryAt(l, key, digit), entry), Due(key, digit, entry));
    if Tidy(l') {
      forall k, d | HasDNS(EntryAt(l', k, d))
        ensures EntryAt(l', k, d).cluster in r && r[EntryAt(l', k, d).cluster] == Full(k, d)
      {
        SetMarked(l, l', records, key, digit, entry, k, d);
      }
      forall c | c in r ensures Backed(l', c) {
        SetBacked(l, l', records, key, digit, entry, c);
      }
    }
  }

  // ---- the reclaimer ------------------------------------------------------------------

  lemma ReclaimMarked(l: Ledger, records: map<string, string>, now: int, k: string, d: string)
    requires Tidy(l) && Agree(l, records) && HasDNS(EntryAt(Reclaimer.Reclaim(l, now), k, d))
    ensures var c := EntryAt(Reclaimer.Reclaim(l, now), k, d).cluster;
            c in records && records[c] == Full(k, d) && c !in ReclaimedClusters(l, now)
  {
    var c := EntryAt(l, k, d).cluster;
    assert EntryAt(Reclaimer.Reclaim(l, now), k, d) == EntryAt(l, k, d);
    assert forall k', d' :: Reclaims(l, now, k', d', c) ==>
        Backs(l, k', d', c) && Reclaimer.Expired(EntryAt(l, k', d'), now);
  }

  lemma ReclaimBacked(l: Ledger, records: map<string, string>, now: int, c: string)
    requires Tidy(l) && Agree(l, records) && c in records && c !in ReclaimedClusters(l, now)
    ensures Backed(Reclaimer.Reclaim(l, now), c)
  {
    assert Backed(l, c);
    var k, d :| Backs(l, k, d, c);
    assert c != "";
    assert Reclaims(l, now, k, d, c) <==> Reclaimer.Expired(EntryAt(l, k, d), now);
    assert Backs(Reclaimer.Reclaim(l, now), k, d, c);
  }

  lemma ReclaimAgrees(l: Ledger, records: map<string, string>, now: int)
    requires Tidy(l) && Agree(l, records)
    ensures Tidy(Reclaimer.Reclaim(l, now))
    ensures Agree(Reclaimer.Reclaim(l, now), Edited(records, ReclaimedClusters(l, now), None))
  {
    var l' := Reclaimer.Reclaim(l, now);
    var r := Edited(records, ReclaimedClusters(l, now), None);
    forall k, d | HasDNS(EntryAt(l', k, d))
      ensures EntryAt(l', k, d).cluster in r && r[EntryAt(l', k, d).cluster] == Full(k, d)
      ensures EntryAt(l', k, d) == EntryAt(l, k, d)
    {
      ReclaimMarked(l, records, now, k, d);
    }
    forall c | c in r ensures Backed(l', c) {
      ReclaimBacked(l, records, now, c);
    }
  }

  // ---- requests that edit no record ------------------------------------------------------

  /** Every mark of `l'` is one of `l`. */
  ghost predicate OnlyLoses(l: Ledger, l': Ledger) {
    forall k, d :: HasDNS(EntryAt(l', k, d)) ==>
      HasDNS(EntryAt(l, k, d)) && EntryAt(l, k, d).cluster == EntryAt(l', k, d).cluster
  }

  lemma BackedStillMarked(l: Ledger, l': Ledger, records: map<string, string>, k: string, d: string)
    requires Tidy(l) && Agree(l, records) && Agree(l', records) && OnlyLoses(l, l') && HasDNS(EntryAt(l, k, d))
    ensures HasDNS(EntryAt(l', k, d))
  {
    var c := EntryAt(l, k, d).cluster;
    assert c in records && Backed(l', c);
    var k', d' :| Backs(l', k', d', c);
    assert HasDNS(EntryAt(l, k', d')) && EntryAt(l, k', d').cluster == c;
  }

  /** With the records left alone, losing a mark breaks agreement, and keeping them all keeps it. */
  lemma LosingAgrees(l: Ledger, l': Ledger, records: map<string, string>)
    requires Tidy(l) && Agree(l, records) && OnlyLoses(l, l')
    ensures Tidy(l') && Agree(l', records) <==> SameMarks(l, l')
  {
    if SameMarks(l, l') {
      SameMarksAgree(l, l', records);
    }
    if Agree(l', records) {
      forall k, d | HasDNS(EntryAt(l, k, d)) ensures HasDNS(EntryAt(l', k, d)) {
        BackedStillMarked(l, l', records, k, d);
      }
    }
  }

  /** Every entry is as before, or one the request wrote, marked for cluster `c`. */
  ghost predicate OnlyMarks(l: Ledger, l': Ledger, c: string) {
    forall k, d :: EntryAt(l', k, d) == EntryAt(l, k, d) ||
      (HasDNS(EntryAt(l', k, d)) && EntryAt(l', k, d).cluster == c)
  }

  lemma NewMarkClashes(l: Ledger, l': Ledger, records: map<string, string>, c: string, k: string, d: string)
    requires Tidy(l) && Agree(l, records) && Tidy(l') && Agree(l', records) && OnlyMarks(l, l', c)
    requires HasDNS(EntryAt(l', k, d))
    ensures HasDNS(EntryAt(l, k, d)) && EntryAt(l, k, d).cluster == EntryAt(l', k, d).cluster
  {
    var held := EntryAt(l', k, d).cluster;
    assert held in records && Backed(l, held);
    var k', d' :| Backs(l, k', d', held);
    assert HasDNS(EntryAt(l', k', d')) && EntryAt(l', k', d').cluster in {held, c};
  }

  lemma OldMarkKept(l: Ledger, l': Ledger, records: map<string, string>, c: string, k: string, d: string)
    requires Tidy(l) && Agree(l, records) && Tidy(l') && Agree(l', records) && OnlyMarks(l, l', c)
    requires HasDNS(EntryAt(l, k, d))
    ensures HasDNS(EntryAt(l', k, d)) && EntryAt(l', k, d).cluster == EntryAt(l, k, d).cluster
  {
    if EntryAt(l', k, d) != EntryAt(l, k, d) {
      NewMarkClashes(l, l', records, c, k, d);
    }
  }

  /** With the records left alone, adding or moving a mark breaks agreement as well. */
  lemma MarkingAgrees(l: Ledger, l': Ledger, records: map<string, string>, c: string)
    requires Tidy(l) && Agree(l, records) && OnlyMarks(l, l', c)
    ensures Tidy(l') && Agree(l', records) <==> SameMarks(l, l')
  {
    if SameMarks(l, l') {
      SameMarksAgree(l, l', records);
    }
    if Tidy(l') && Agree(l', records) {
      forall k, d
        ensures HasDNS(EntryAt(l', k, d)) <==> HasDNS(EntryAt(l, k, d))
        ensures HasDNS(EntryAt(l, k, d)) ==> EntryAt(l', k, d).cluster == EntryAt(l, k, d).cluster
      {
        if HasDNS(EntryAt(l, k, d)) { OldMarkKept(l, l', records, c, k, d); }
        if HasDNS(EntryAt(l', k, d)) { NewMarkClashes(l, l', records, c, k, d); }
      }
    }
  }

  /** A batch overwrites no marked entry. */
  ghost predicate WritesUnmarked(op: Op, l: Ledger)
    requires op.ReserveBatch?
  {
    op.offer.Offered? ==>
      forall d :: Handout.WrittenIn(op.offer.ips, d) ==> !HasDNS(EntryAt(l, op.key, d))
  }

  lemma BatchAgrees(op: Op, l: Ledger, records: map<string, string>)
    requires Tidy(l) && Agree(l, records) && op.ReserveBatch? && ReserveBatchOutcome(l, op).Commit?
    ensures var l' := ReserveBatchOutcome(l, op).ledger;
            Tidy(l') && Agree(l', records) <==> WritesUnmarked(op, l)
  {
    var l' := ReserveBatchOutcome(l, op).ledger;
    var entry := IPInfo(OrAssigned(op.status), op.cluster, 0);
    forall k, d
      ensures EntryAt(l', k, d) ==
        if k == op.key && Handout.WrittenIn(op.offer.ips, d) then entry else EntryAt(l, k, d)
    {
      Handout.WriteAllEntry(l, op.key, op.offer.ips, entry, k, d);
    }
    LosingAgrees(l, l', records);
  }

  /** No address of the network is marked. */
  ghost predicate NetworkUnmarked(l: Ledger, key: string) {
    forall d :: !HasDNS(EntryAt(l, key, d))
  }

  lemma DeleteNetworkAgrees(l: Ledger, records: map<string, string>, key: string)
    requires Tidy(l) && Agree(l, records)
    ensures Tidy(l - {key}) && Agree(l - {key}, records) <==> NetworkUnmarked(l, key)
  {
    forall k, d ensures EntryAt(l - {key}, k, d) == if k == key then BLANK else EntryAt(l, k, d) {
    }
    LosingAgrees(l, l - {key}, records);
  }

  /** It does happen: deleting a network with one marked address leaves that address's record behind. */
  lemma DeleteLeavesRecord(key: string, digit: string, marked: IPInfo)
    requires HasDNS(marked) && marked.cluster != ""
    ensures var l: Ledger := map[key := map[digit := marked]];
            var records := map[marked.cluster := Full(key, digit)];
            Tidy(l) && Agree(l, records) && !Agree(l - {key}, records)
  {
    var l: Ledger := map[key := map[digit := marked]];
    var records := map[marked.cluster := Full(key, digit)];
    assert EntryAt(l, key, digit) == marked;
    assert Backs(l, key, digit, marked.cluster);
    DeleteNetworkAgrees(l, records, key);
  }

  /** Every named address is marked for the cluster of the request if the request's status marks it,
      and unmarked if not: the request moves no mark. */
  ghost predicate NamedAsMarked(l: Ledger, ips: seq<string>, cluster: string, status: string) {
    forall k, d :: Handout.Named(ips, k, d) ==>
      && (HasDNS(EntryAt(l, k, d)) <==> HasSuffix(status, DNS_SUFFIX))
      && (HasDNS(EntryAt(l, k, d)) ==> EntryAt(l, k, d).cluster == cluster)
  }

  ghost function Renamed(l: Ledger, ips: seq<string>, cluster: string, status: string, k: string, d: string): IPInfo {
    if Handout.Named(ips, k, d) then EntryAt(l, k, d).(status := status, cluster := cluster) else EntryAt(l, k, d)
  }

  lemma SetClusterAgrees(l: Ledger, records: map<string, string>, ips: seq<string>, cluster: string, status: string)
    requires Tidy(l) && Agree(l, records) && SetAll(l, ips, cluster, status).Done?
    ensures var l' := SetAll(l, ips, cluster, status).ledger;
            Tidy(l') && Agree(l', records) <==> NamedAsMarked(l, ips, cluster, status)
  {
    var l' := SetAll(l, ips, cluster, status).ledger;
    forall k, d ensures EntryAt(l', k, d) == Renamed(l, ips, cluster, status, k, d) {
      Handout.SetAllEntry(l, ips, cluster, status, k, d);
    }
    if HasSuffix(status, DNS_SUFFIX) {
      MarkingAgrees(l, l', records, cluster);
    } else {
      LosingAgrees(l, l', records);
    }
    SetSameMarks(l, l', ips, cluster, status);
  }

  lemma SetSameMarks(l: Ledger, l': Ledger, ips: seq<string>, cluster: string, status: string)
    requires forall k, d :: EntryAt(l', k, d) == Renamed(l, ips, cluster, status, k, d)
    ensures SameMarks(l, l') <==> NamedAsMarked(l, ips, cluster, status)
  {
  }

  // ---- every operation ------------------------------------------------------------------

  /** The request gives DNS to a cluster that has a marked address elsewhere. */
  ghost predicate SecondDNS(op: Op, l: Ledger) {
    match op
    case Reserve(key, cluster, status, createDNS, _, _, _, _) =>
      WantsDNS(createDNS, OrAssigned(status)) && Picked(l, op).Some? &&
      MarkedElsewhere(l, key, Picked(l, op).value, cluster)
    case Assign(key, ip, cluster, status, createDNS, _) =>
      WantsDNS(createDNS, OrAssigned(status)) && HostDigit(ip, key).Some? &&
      MarkedElsewhere(l, key, HostDigit(ip, key).value, cluster)
    case EditIP(key, ip, cluster, status, createDNS) =>
      WantsDNS(createDNS, status) && MarkedElsewhere(l, key, PathDigit(key, ip), cluster)
    case _ => false
  }

  lemma MarkedIffWanted(status: string, createDNS: bool)
    ensures HasSuffix(Granted(status, createDNS), DNS_SUFFIX) <==> WantsDNS(createDNS, status)
    ensures HasSuffix(EditedStatus(status, createDNS), DNS_SUFFIX) <==> WantsDNS(createDNS, status)
  {
    SuffixAdded(TrimSuffix(status, DNS_SUFFIX));
    SuffixAdded(TrimSuffix(TrimSuffix(status, DNS_SUFFIX), DNS_SUFFIX));
  }

  lemma SuffixAdded(s: string)
    ensures HasSuffix(s + DNS_SUFFIX, DNS_SUFFIX)
  {
  }

  lemma ReserveAgrees(op: Op, now: int, l: Ledger, records: map<string, string>)
    requires Tidy(l) && Agree(l, records) && op.Reserve? && Possible(op, l) && ReserveOutcome(l, now, op).Commit?
    ensures var o := ReserveOutcome(l, now, op);
            Tidy(o.ledger) && Agree(o.ledger, Edited(records, o.withdraw, o.publish)) <==> !SecondDNS(op, l)
  {
    var status := OrAssigned(op.status);
    var entry := IPInfo(Granted(status, op.createDNS), op.cluster, LeaseUntil(now, op.duration));
    var digit := Picked(l, op).value;
    MarkedIffWanted(status, op.createDNS);
    FreeUnmarked(EntryAt(l, op.key, digit));
    SetAgrees(l, ReserveOutcome(l, now, op).ledger, records, op.key, digit, entry);
  }

  lemma AssignAgrees(op: Op, now: int, l: Ledger, records: map<string, string>)
    requires Tidy(l) && Agree(l, records) && op.Assign? && AssignOutcome(l, now, op).Commit?
    ensures var o := AssignOutcome(l, now, op);
            Tidy(o.ledger) && Agree(o.ledger, Edited(records, o.withdraw, o.publish)) <==> !SecondDNS(op, l)
  {
    var status := OrAssigned(op.status);
    var entry := IPInfo(Granted(status, op.createDNS), op.cluster, LeaseUntil(now, op.duration));
    var digit := HostDigit(op.ip, op.key).value;
    MarkedIffWanted(status, op.createDNS);
    SetAgrees(l, AssignOutcome(l, now, op).ledger, records, op.key, digit, entry);
  }

  lemma EditAgrees(op: Op, l: Ledger, records: map<string, string>)
    requires Tidy(l) && Agree(l, records) && op.EditIP? && EditOutcome(l, op).Commit?
    ensures var o := EditOutcome(l, op);
            Tidy(o.ledger) && Agree(o.ledger, Edited(records, o.withdraw, o.publish)) <==> !SecondDNS(op, l)
  {
    var digit := PathDigit(op.key, op.ip);
    var entry := l[op.key][digit].(status := EditedStatus(op.status, op.createDNS), cluster := op.cluster);
    MarkedIffWanted(op.status, op.createDNS);
    SetAgrees(l, EditOutcome(l, op).ledger, records, op.key, digit, entry);
  }

  lemma ClearAgrees(l: Ledger, l': Ledger, records: map<string, string>, key: string, digit: string)
    requires Tidy(l) && Agree(l, records) && Sets(l, l', key, digit, BLANK)
    ensures var was := EntryAt(l, key, digit);
            Tidy(l') && Agree(l', Edited(records, if HasDNS(was) then {was.cluster} else {}, None))
  {
    SetAgrees(l, l', records, key, digit, BLANK);
  }

  /** The request leaves records and ledger able to agree: it gives no cluster a second marked address,
      and where it edits no record it moves no mark. For a batch, and a reserve without an address, it
      speaks of what the allocator picks: on the pool it is `EveryBatchAgrees` and `PickFollowsExactly`. */
  ghost predicate RecordsFollow(op: Op, l: Ledger) {
    match op
    case ReserveBatch(_, _, _, _, _) => WritesUnmarked(op, l)
    case SetClusterInfo(ips, cluster, status) => NamedAsMarked(l, ips, cluster, status)
    case DeleteNetwork(key) => NetworkUnmarked(l, key)
    case _ => !SecondDNS(op, l)
  }

  /** One committed request of any kind, all of its record edits done: the ledger is tidy and the
      records agree with it again if and only if its records follow. */
  lemma OperationAgrees(op: Op, now: int, l: Ledger, records: map<string, string>)
    requires Tidy(l) && Agree(l, records) && Possible(op, l) && Apply(op, now, l).Commit?
    ensures var o := Apply(op, now, l);
            Tidy(o.ledger) && Agree(o.ledger, Edited(records, o.withdraw, o.publish)) <==> RecordsFollow(op, l)
  {
    var o := Apply(op, now, l);
    assert records - {} == records;
    match op {
      case Reserve(_, _, _, _, _, _, _, _) => ReserveAgrees(op, now, l, records);
      case ReserveBatch(_, _, _, _, _) => BatchAgrees(op, l, records);
      case Assign(_, _, _, _, _, _) => AssignAgrees(op, now, l, records);
      case Release(key, ip) => ClearAgrees(l, o.ledger, records, key, GetLastIPDigit(ip).value);
      case Renew(_, _, _) => SameMarksAgree(l, o.ledger, records);
      case EditIP(_, _, _, _, _) => EditAgrees(op, l, records);
      case DeleteIP(key, ip) => ClearAgrees(l, o.ledger, records, key, PathDigit(key, ip));
      case ReclaimPass => ReclaimAgrees(l, records, now);
      case SetClusterInfo(ips, cluster, status) => SetClusterAgrees(l, records, ips, cluster, status);
      case CreateNetwork(key, digits) => CreateAgrees(l, map[key := digits], records);
      case CreateFromCIDR(networks) => CreateAgrees(l, networks.value, records);
      case AddIPs(_, _) => AddAgrees(op, l, records);
      case DeleteNetwork(key) => DeleteNetworkAgrees(l, records, key);
    }
  }

  /** Which address the allocator picks makes no difference: such a reserve follows if and only if it
      asks for no record, or no address is marked for its cluster. */
  lemma PickFollowsExactly(op: Op, now: int, l: Ledger)
    requires op.Reserve? && op.ip == "" && Possible(op, l) && ReserveOutcome(l, now, op).Commit?
    ensures RecordsFollow(op, l) <==> !(WantsDNS(op.createDNS, OrAssigned(op.status)) && Backed(l, op.cluster))
  {
    FreeUnmarked(EntryAt(l, op.key, op.choice));
    if Backed(l, op.cluster) {
      var k, d :| Backs(l, k, d, op.cluster);
      assert k != op.key || d != op.choice;
    }
  }

  /** Whatever is offered of the network, every batch keeps agreement. */
  ghost predicate EveryBatchAgrees(l: Ledger, records: map<string, string>, key: string) {
    forall op: Op ::
      op.ReserveBatch? && op.key == key && Possible(op, l) && ReserveBatchOutcome(l, op).Commit? ==>
        KeepsAgreement(op, l, records)
  }

  ghost predicate KeepsAgreement(op: Op, l: Ledger, records: map<string, string>)
    requires op.ReserveBatch? && ReserveBatchOutcome(l, op).Commit?
  {
    var l' := ReserveBatchOutcome(l, op).ledger;
    Tidy(l') && Agree(l', records)
  }

  /** No free host part reads back as a marked one. */
  ghost predicate ReadsUnmarked(l: Ledger, key: string)
    requires key in l
  {
    forall d :: d in Allocate.FreeDigits(l[key]) ==> ReadUnmarked(l, key, d)
  }

  predicate ReadUnmarked(l: Ledger, key: string, digit: string) {
    var read := Handout.ReadAs(key, digit);
    read.Some? ==> !HasDNS(EntryAt(l, key, read.value))
  }

  lemma UnmarkedKeeps(op: Op, l: Ledger, records: map<string, string>)
    requires Tidy(l) && Agree(l, records) && op.ReserveBatch? && Possible(op, l)
    requires ReserveBatchOutcome(l, op).Commit? && ReadsUnmarked(l, op.key)
    ensures KeepsAgreement(op, l, records)
  {
    var ips, free := op.offer.ips, Allocate.FreeDigits(l[op.key]);
    forall d | Handout.WrittenIn(ips, d) ensures !HasDNS(EntryAt(l, op.key, d)) {
      var i :| 0 <= i < |ips| && GetLastIPDigit(ips[i]) == Some(d);
      assert Allocate.AddressOf(ips[i], op.key, free);
      var d' :| d' in free && ips[i] == Full(op.key, d');
      assert ReadUnmarked(l, op.key, d');
    }
    BatchAgrees(op, l, records);
  }

  lemma MarkedOverwritten(l: Ledger, records: map<string, string>, key: string, digit: string)
    requires Tidy(l) && Agree(l, records) && key in l && digit in Allocate.FreeDigits(l[key])
    requires EveryBatchAgrees(l, records, key)
    ensures ReadUnmarked(l, key, digit)
  {
    var read := Handout.ReadAs(key, digit);
    if read.Some? {
      var op := Handout.BatchOf(key, [Full(key, digit)]);
      Handout.OneCommits(l, 0, key, digit);
      assert KeepsAgreement(op, l, records);
      BatchAgrees(op, l, records);
      assert op.offer.ips[0] == Full(key, digit) && Handout.WrittenIn(op.offer.ips, read.value);
    }
  }

  /** Every possible batch from a network keeps agreement if and only if none of its free host parts reads
      back as a marked one; so a pool without dotted free host parts always does. */
  lemma PoolAgreesExactly(l: Ledger, records: map<string, string>, key: string)
    requires Tidy(l) && Agree(l, records) && key in l
    ensures EveryBatchAgrees(l, records, key) <==> ReadsUnmarked(l, key)
    ensures Allocate.DotFree(Allocate.FreeDigits(l[key])) ==> ReadsUnmarked(l, key)
  {
    if ReadsUnmarked(l, key) {
      forall op: Op | op.ReserveBatch? && op.key == key && Possible(op, l) && ReserveBatchOutcome(l, op).Commit?
        ensures KeepsAgreement(op, l, records)
      {
        UnmarkedKeeps(op, l, records);
      }
    }
    forall d | d in Allocate.FreeDigits(l[key])
      ensures EveryBatchAgrees(l, records, key) ==> ReadUnmarked(l, key, d)
      ensures '.' !in d ==> ReadUnmarked(l, key, d)
    {
      if EveryBatchAgrees(l, records, key) { MarkedOverwritten(l, records, key, d); }
      if '.' !in d {
        LastDigitOfFull(key, d);
        FreeUnmarked(l[key][d]);
      }
    }
  }

  // ---- how it fails -----------------------------------------------------------------------

  /** A cluster update without the mark, of an address that is marked, leaves its record behind. */
  lemma UpdateLeavesRecord(l: Ledger, records: map<string, string>, key: string, digit: string,
                           cluster: string, status: string)
    requires Tidy(l) && Agree(l, records) && HasDNS(EntryAt(l, key, digit)) && !HasSuffix(status, DNS_SUFFIX)
    requires '.' !in digit && |Split(key, '.')| == 3
    ensures var r, c := SetAll(l, [Full(key, digit)], cluster, status), EntryAt(l, key, digit).cluster;
            && r.Done? && !HasDNS(EntryAt(r.ledger, key, digit))
            && c in records && records[c] == Full(key, digit) && !(Tidy(r.ledger) && Agree(r.ledger, records))
  {
    var ips := [Full(key, digit)];
    ThreeSegments(key, digit);
    assert ips[..0] == [];
    assert TruncateIP(ips[0]) == Some(key) && Handout.Named(ips, key, digit);
    FreeUnmarked(BLANK);
    Handout.SetAllEntry(l, ips, cluster, status, key, digit);
    SetClusterAgrees(l, records, ips, cluster, status);
  }

  lemma ThreeSegments(key: string, digit: string)
    requires '.' !in digit && |Split(key, '.')| == 3
    ensures TruncateIP(Full(key, digit)) == Some(key) && GetLastIPDigit(Full(key, digit)) == Some(digit)
  {
    SplitFull(key, digit);
    JoinSplit(key, '.');
    assert (Split(key, '.') + [digit])[..3] == Split(key, '.');
  }

  /** A reserve with a record for a cluster that has one already: the record goes to the new address, and
      the first one stays marked without it. */
  lemma SecondLeavesMark(op: Op, now: int, l: Ledger, records: map<string, string>, key: string, digit: string)
    requires op.Reserve? && op.ip == "" && Possible(op, l) && ReserveOutcome(l, now, op).Commit?
    requires WantsDNS(op.createDNS, OrAssigned(op.status)) && Backs(l, key, digit, op.cluster)
    ensures var o := ReserveOutcome(l, now, op);
            var after := Edited(records, o.withdraw, o.publish);
            && op.cluster in after && after[op.cluster] == Full(op.key, op.choice)
            && Backs(o.ledger, op.key, op.choice, op.cluster) && Backs(o.ledger, key, digit, op.cluster)
            && (key != op.key || digit != op.choice)
  {
    var status := OrAssigned(op.status);
    FreeUnmarked(EntryAt(l, op.key, op.choice));
    MarkedIffWanted(status, op.createDNS);
    var entry := IPInfo(Granted(status, op.createDNS), op.cluster, LeaseUntil(now, op.duration));
    assert ReserveOutcome(l, now, op).ledger == Put(l, op.key, op.choice, entry);
  }

  lemma CreateAgrees(l: Ledger, networks: map<string, seq<string>>, records: map<string, string>)
    requires Tidy(l) && Agree(l, records) && CreateOutcome(l, networks).Commit?
    ensures Tidy(CreateOutcome(l, networks).ledger) && Agree(CreateOutcome(l, networks).ledger, records)
  {
    var l' := CreateOutcome(l, networks).ledger;
    forall k, d ensures EntryAt(l', k, d) == EntryAt(l, k, d) {
      Handout.CreateKeepsEntries(l, networks, k, d);
    }
    SameMarksAgree(l, l', records);
  }

  lemma AddAgrees(op: Op, l: Ledger, records: map<string, string>)
    requires Tidy(l) && Agree(l, records) && op.AddIPs? && AddOutcome(l, op).Commit?
    ensures Tidy(AddOutcome(l, op).ledger) && Agree(AddOutcome(l, op).ledger, records)
  {
    var l' := AddOutcome(l, op).ledger;
    forall k, d ensures EntryAt(l', k, d) == EntryAt(l, k, d) {
      Handout.AddKeepsEntries(l, op, k, d);
    }
    SameMarksAgree(l, l', records);
  }
}

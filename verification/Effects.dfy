/** What a committed request does to each address: who holds it then, whether its record is wanted,
    when its lease runs out; and that every other address is left as it was. */
module Effects {
  import opened Text
  import opened Decimal
  import opened Address
  import opened Ledgers
  import opened Operations
  import opened Handout
  import Reclaimer
  import Records

  /** The addresses a request names. */
  ghost predicate Targets(op: Op, key: string, digit: string) {
    match op
    case Reserve(k, _, _, _, _, ip, _, choice) =>
      k == key && (if ip != "" then HostDigit(ip, k) else Some(choice)) == Some(digit)
    case ReserveBatch(k, _, _, _, offer) => k == key && offer.Offered? && WrittenIn(offer.ips, digit)
    case Assign(k, ip, _, _, _, _) => k == key && HostDigit(ip, k) == Some(digit)
    case Release(k, ip) => k == key && GetLastIPDigit(ip) == Some(digit)
    case Renew(k, ip, _) => k == key && GetLastIPDigit(ip) == Some(digit)
    case EditIP(k, ip, _, _, _) => k == key && PathDigit(k, ip) == digit
    case DeleteIP(k, ip) => k == key && PathDigit(k, ip) == digit
    case SetClusterInfo(ips, _, _) => Named(ips, key, digit)
    case _ => false
  }

  /** Every address a request does not name keeps its entry, unless the reclaimer passes over it or
      its network is deleted. */
  lemma OthersUntouched(op: Op, now: int, l: Ledger, key: string, digit: string)
    requires Apply(op, now, l).Commit? && !Targets(op, key, digit)
    requires !op.ReclaimPass? && !(op.DeleteNetwork? && op.key == key)
    ensures EntryAt(Apply(op, now, l).ledger, key, digit) == EntryAt(l, key, digit)
  {
    match op {
      case ReserveBatch(k, cluster, status, _, offer) =>
        WriteAllEntry(l, k, offer.ips, IPInfo(OrAssigned(status), cluster, 0), key, digit);
      case SetClusterInfo(ips, cluster, status) => SetAllEntry(l, ips, cluster, status, key, digit);
      case CreateNetwork(k, digits) => CreateKeepsEntries(l, map[k := digits], key, digit);
      case CreateFromCIDR(networks) => CreateKeepsEntries(l, networks.value, key, digit);
      case AddIPs(_, _) => AddKeepsEntries(l, op, key, digit);
      case _ =>
    }
  }

  /** The request gives the addresses it names to its cluster. */
  predicate Gives(op: Op) {
    op.Reserve? || op.ReserveBatch? || op.Assign? || op.EditIP?
  }

  /** The request asks for a record, by its flag or by the mark in its status. */
  predicate WantsRecord(op: Op)
    requires Gives(op)
  {
    match op
    case ReserveBatch(_, _, _, _, _) => false
    case EditIP(_, _, _, status, createDNS) => WantsDNS(createDNS, status)
    case Reserve(_, _, status, createDNS, _, _, _, _) => WantsDNS(createDNS, OrAssigned(status))
    case Assign(_, _, _, status, createDNS, _) => WantsDNS(createDNS, OrAssigned(status))
  }

  /** After such a request its cluster holds the address, which is marked exactly when a record was
      asked for. */
  lemma HolderAfter(op: Op, now: int, l: Ledger, key: string, digit: string)
    requires Gives(op) && Apply(op, now, l).Commit? && Targets(op, key, digit)
    ensures var e := EntryAt(Apply(op, now, l).ledger, key, digit);
            e.cluster == op.cluster && !IsFree(e) && (HasDNS(e) <==> WantsRecord(op))
  {
    match op {
      case ReserveBatch(k, cluster, status, _, offer) =>
        WriteAllEntry(l, k, offer.ips, IPInfo(OrAssigned(status), cluster, 0), key, digit);
      case EditIP(_, _, _, status, createDNS) =>
        Records.MarkedIffWanted(status, createDNS);
        EditedBusy(status, createDNS);
      case Reserve(_, _, status, createDNS, _, _, _, _) =>
        Records.MarkedIffWanted(OrAssigned(status), createDNS);
        GrantedBusy(status, createDNS);
      case Assign(_, _, _, status, createDNS, _) =>
        Records.MarkedIffWanted(OrAssigned(status), createDNS);
        GrantedBusy(status, createDNS);
    }
  }

  lemma EditedBusy(status: string, createDNS: bool)
    requires status != ""
    ensures EditedStatus(status, createDNS) != ""
  {
  }

  /** The published record, if any, names the address the request gave away. */
  lemma PublishesTarget(op: Op, now: int, l: Ledger)
    requires Gives(op) && Apply(op, now, l).Commit?
    ensures var o := Apply(op, now, l);
            && (o.publish.Some? <==> WantsRecord(op))
            && (o.publish.Some? ==>
                  o.publish.value.cluster == op.cluster &&
                  exists d :: Targets(op, op.key, d) && o.publish.value.ip == Full(op.key, d))
  {
    var o := Apply(op, now, l);
    if o.publish.Some? {
      var d :=
        if op.Reserve? then Picked(l, op).value
        else if op.Assign? then HostDigit(op.ip, op.key).value
        else PathDigit(op.key, op.ip);
      assert Targets(op, op.key, d) && o.publish.value.ip == Full(op.key, d);
    }
  }

  /** The request that starts a lease on the addresses it names, for its duration if that is positive. */
  predicate Leases(op: Op) {
    op.Reserve? || op.Assign? || op.Renew?
  }

  /** A lease runs out exactly when its duration has passed; without one it never does. */
  lemma LeaseRunsOut(op: Op, now: int, l: Ledger, key: string, digit: string, later: int)
    requires Leases(op) && Apply(op, now, l).Commit? && Targets(op, key, digit)
    requires 0 <= now && InInt64(now + op.duration)
    ensures Reclaimer.Expired(EntryAt(Apply(op, now, l).ledger, key, digit), later) <==>
            op.duration > 0 && now + op.duration <= later
  {
  }

  /** An edit or a cluster update keeps the lease; a batch reservation, a release and a delete leave none. */
  lemma LeaseKeptOrGone(op: Op, now: int, l: Ledger, key: string, digit: string)
    requires Apply(op, now, l).Commit? && Targets(op, key, digit)
    ensures var before, after := EntryAt(l, key, digit).lease, EntryAt(Apply(op, now, l).ledger, key, digit).lease;
            && (op.EditIP? || op.SetClusterInfo? ==> after == before)
            && (op.ReserveBatch? || op.Release? || op.DeleteIP? ==> after == 0)
  {
    match op {
      case ReserveBatch(k, cluster, status, _, offer) =>
        WriteAllEntry(l, k, offer.ips, IPInfo(OrAssigned(status), cluster, 0), key, digit);
      case SetClusterInfo(ips, cluster, status) => SetAllEntry(l, ips, cluster, status, key, digit);
      case _ =>
    }
  }

  /** A renewal changes nothing but the lease. */
  lemma RenewKeepsHolder(op: Op, now: int, l: Ledger, key: string, digit: string)
    requires op.Renew? && Apply(op, now, l).Commit? && Targets(op, key, digit)
    ensures var before, after := EntryAt(l, key, digit), EntryAt(Apply(op, now, l).ledger, key, digit);
            !IsFree(before) && after.status == before.status && after.cluster == before.cluster
  {
  }
}

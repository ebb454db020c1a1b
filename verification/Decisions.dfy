/** When each request commits, and which refusal every other case gets; which addresses the ledger lists
    afterwards, and what it holds of those it was asked to change. */
module Decisions {
  import opened Text
  import opened Address
  import opened Ledgers
  import opened Operations
  import opened Handout
  import opened Effects
  import Allocate

  // ---- addresses as requests name them ---------------------------------------------------

  /** A host part, written as an octet or, in a network of three segments, as the full address. */
  predicate Asks(ip: string, key: string, digit: string) {
    IsOctet(digit) && (ip == digit || (|Split(key, '.')| == 3 && ip == Full(key, digit)))
  }

  /** The host part alone, or the full address. */
  predicate Points(ip: string, key: string, digit: string) {
    ip == Full(key, digit) || (ip == digit && !HasPrefix(ip, key + "."))
  }

  /** The last segment of an address of four segments or more. */
  predicate Reads(ip: string, digit: string) {
    var segments := Split(ip, '.');
    |segments| >= 4 && segments[|segments| - 1] == digit
  }

  /** The address is listed and held by nobody. */
  predicate Available(l: Ledger, key: string, digit: string) {
    Listed(l, key, digit) && l[key][digit].status == ""
  }

  lemma AsksExactly(ip: string, key: string)
    ensures HostDigit(ip, key).Some? <==> exists d :: Asks(ip, key, d)
    ensures HostDigit(ip, key).Some? ==> Asks(ip, key, HostDigit(ip, key).value)
    ensures forall d :: Asks(ip, key, d) ==> HostDigit(ip, key) == Some(d)
  {
    forall d ensures Asks(ip, key, d) <==> HostDigit(ip, key) == Some(d) {
      HostDigitExact(ip, key, d);
    }
  }

  lemma PointsExactly(ip: string, key: string)
    ensures forall d :: Points(ip, key, d) <==> d == PathDigit(key, ip)
  {
    if HasPrefix(ip, key + ".") {
      assert ip == Full(key, PathDigit(key, ip));
    }
    forall d | Points(ip, key, d) ensures d == PathDigit(key, ip) {
      if ip == Full(key, d) {
        assert (key + ".")[..|key| + 1] == key + ".";
        assert ip[..|key| + 1] == key + ".";
        assert ip[|key| + 1..] == d;
      }
    }
  }

  // ---- reserve ------------------------------------------------------------------------------

  /** The address asked for can be given: it is free in the pool, or is to be added to it. */
  ghost predicate Givable(l: Ledger, key: string, digit: string, addToPool: bool) {
    if Listed(l, key, digit) then l[key][digit].status == "" else addToPool
  }

  /** A reserve of an address commits exactly when the cluster is named, the network exists, and the
      address is one of its own, free or to be added. */
  lemma ReserveAskedExactly(op: Op, now: int, l: Ledger)
    requires op.Reserve? && op.ip != ""
    ensures ReserveOutcome(l, now, op).Commit? <==>
            && op.cluster != "" && op.key in l
            && exists d :: Asks(op.ip, op.key, d) && Givable(l, op.key, d, op.addToPool)
    ensures ReserveOutcome(l, now, op) == Refused(BadRequest) <==>
            op.cluster == "" || (op.key in l && forall d :: !Asks(op.ip, op.key, d))
    ensures ReserveOutcome(l, now, op) == Refused(NotFound) <==>
            && op.cluster != ""
            && (op.key in l ==> exists d :: Asks(op.ip, op.key, d) && !Listed(l, op.key, d) && !op.addToPool)
    ensures ReserveOutcome(l, now, op) == Refused(Conflict) <==>
            && op.cluster != "" && op.key in l
            && exists d :: Asks(op.ip, op.key, d) && Listed(l, op.key, d) && !Available(l, op.key, d)
  {
    AsksExactly(op.ip, op.key);
  }

  /** A reserve of any address commits exactly when the cluster is named, the network exists, and the
      pick is an address: where "" is no free host part, exactly when some address is free. */
  lemma ReserveAnyExactly(op: Op, now: int, l: Ledger)
    requires op.Reserve? && op.ip == "" && Possible(op, l)
    ensures ReserveOutcome(l, now, op).Commit? <==> op.cluster != "" && op.key in l && op.choice != ""
    ensures ReserveOutcome(l, now, op) == Refused(BadRequest) <==> op.cluster == ""
    ensures ReserveOutcome(l, now, op) == Refused(NotFound) <==> op.cluster != "" && op.key !in l
    ensures ReserveOutcome(l, now, op) == Refused(Conflict) <==> op.cluster != "" && op.key in l && op.choice == ""
    ensures op.key in l && op.choice != "" ==> Available(l, op.key, op.choice)
    ensures op.key in l && !Available(l, op.key, "") ==> (op.choice != "" <==> exists d :: Available(l, op.key, d))
  {
    if op.key in l {
      forall d ensures d in Allocate.FreeDigits(l[op.key]) <==> Available(l, op.key, d) {
      }
    }
  }

  // ---- the gRPC reserve -----------------------------------------------------------------------

  /** A batch commits exactly when cluster, count and status are given right, the network has that many
      free addresses, and each offered one can be read back. */
  lemma BatchExactly(op: Op, l: Ledger)
    requires op.ReserveBatch? && Possible(op, l)
    ensures var good := op.cluster != "" && op.count >= 1 && !HasSuffix(OrAssigned(op.status), DNS_SUFFIX);
            var enough := op.key in l && |Allocate.FreeDigits(l[op.key])| >= op.count;
            && (ReserveBatchOutcome(l, op) == Refused(BadRequest) <==> !good)
            && (ReserveBatchOutcome(l, op) == Refused(NotFound) <==> good && op.key !in l)
            && (ReserveBatchOutcome(l, op) == Refused(Exhausted) <==> good && op.key in l && !enough)
            && (ReserveBatchOutcome(l, op) == Refused(Internal) <==>
                 good && enough && exists i :: 0 <= i < |op.offer.ips| && !ReadsAny(op.offer.ips[i]))
            && (ReserveBatchOutcome(l, op).Commit? <==>
                 good && enough && forall i :: 0 <= i < |op.offer.ips| ==> ReadsAny(op.offer.ips[i]))
  {
    var good := op.cluster != "" && op.count >= 1 && !HasSuffix(OrAssigned(op.status), DNS_SUFFIX);
    if good && op.key in l && |Allocate.FreeDigits(l[op.key])| >= op.count {
      var entry := IPInfo(OrAssigned(op.status), op.cluster, 0);
      WrittenExactly(l, op.key, op.offer.ips, entry);
    }
  }

  predicate ReadsAny(ip: string) {
    |Split(ip, '.')| >= 4
  }

  lemma WrittenExactly(l: Ledger, key: string, ips: seq<string>, entry: IPInfo)
    requires key in l
    ensures Allocate.WriteAll(l, key, ips, entry).Some? <==> forall i :: 0 <= i < |ips| ==> ReadsAny(ips[i])
  {
    if Allocate.WriteAll(l, key, ips, entry).Some? {
      forall i | 0 <= i < |ips| ensures ReadsAny(ips[i]) {
        WriteAllReads(l, key, ips, entry, i);
      }
    } else if forall i :: 0 <= i < |ips| ==> ReadsAny(ips[i]) {
      forall i | 0 <= i < |ips| ensures GetLastIPDigit(ips[i]).Some? {
        assert ReadsAny(ips[i]);
      }
      AllWritten(l, key, ips, entry);
    }
  }

  // ---- one address ------------------------------------------------------------------------------

  lemma AssignExactly(op: Op, now: int, l: Ledger)
    requires op.Assign?
    ensures var named := op.ip != "" && op.cluster != "";
            && (AssignOutcome(l, now, op).Commit? <==>
                 named && op.key in l && exists d :: Asks(op.ip, op.key, d))
            && (AssignOutcome(l, now, op) == Refused(NotFound) <==> named && op.key !in l)
            && (AssignOutcome(l, now, op) == Refused(BadRequest) <==>
                 !named || (op.key in l && forall d :: !Asks(op.ip, op.key, d)))
  {
    AsksExactly(op.ip, op.key);
  }

  lemma ReleaseExactly(op: Op, l: Ledger)
    requires op.Release?
    ensures ReleaseOutcome(l, op).Commit? <==> op.key in l && exists d :: Reads(op.ip, d)
    ensures ReleaseOutcome(l, op) == Refused(NotFound) <==> op.key !in l
    ensures ReleaseOutcome(l, op) == Refused(BadRequest) <==> op.key in l && forall d :: !Reads(op.ip, d)
  {
    ReadsExactly(op.ip);
  }

  lemma ReadsExactly(ip: string)
    ensures forall d :: Reads(ip, d) <==> GetLastIPDigit(ip) == Some(d)
    ensures GetLastIPDigit(ip).Some? <==> exists d :: Reads(ip, d)
  {
    if GetLastIPDigit(ip).Some? {
      assert Reads(ip, GetLastIPDigit(ip).value);
    }
  }

  lemma RenewExactly(op: Op, now: int, l: Ledger)
    requires op.Renew?
    ensures RenewOutcome(l, now, op).Commit? <==>
            && op.duration > 0
            && exists d :: Reads(op.ip, d) && Listed(l, op.key, d) && !Available(l, op.key, d)
    ensures RenewOutcome(l, now, op) == Refused(Conflict) <==>
            op.duration > 0 && exists d :: Reads(op.ip, d) && Available(l, op.key, d)
    ensures RenewOutcome(l, now, op) == Refused(BadRequest) <==>
            op.duration <= 0 || (op.key in l && forall d :: !Reads(op.ip, d))
    ensures RenewOutcome(l, now, op) == Refused(NotFound) <==>
            op.duration > 0 && (op.key in l ==> exists d :: Reads(op.ip, d) && !Listed(l, op.key, d))
  {
    ReadsExactly(op.ip);
  }

  lemma EditExactly(op: Op, l: Ledger)
    requires op.EditIP?
    ensures var given := op.cluster != "" && op.status != "";
            && (EditOutcome(l, op).Commit? <==>
                 given && exists d :: Points(op.ip, op.key, d) && Listed(l, op.key, d))
            && (EditOutcome(l, op) == Refused(BadRequest) <==> !given)
            && (EditOutcome(l, op) == Refused(NotFound) <==>
                 given && forall d :: Points(op.ip, op.key, d) ==> !Listed(l, op.key, d))
  {
    PointsExactly(op.ip, op.key);
    assert Points(op.ip, op.key, PathDigit(op.key, op.ip));
  }

  lemma DeleteExactly(op: Op, l: Ledger)
    requires op.DeleteIP?
    ensures DeleteIPOutcome(l, op).Commit? <==> exists d :: Points(op.ip, op.key, d) && Listed(l, op.key, d)
    ensures DeleteIPOutcome(l, op) == Refused(NotFound) <==>
            forall d :: Points(op.ip, op.key, d) ==> !Listed(l, op.key, d)
  {
    PointsExactly(op.ip, op.key);
    assert Points(op.ip, op.key, PathDigit(op.key, op.ip));
  }

  // ---- the cluster update ---------------------------------------------------------------------------

  /** An address of four segments whose first three are a network of the ledger. */
  predicate Settable(l: Ledger, ip: string) {
    |Split(ip, '.')| == 4 && Join(Split(ip, '.')[..3], '.') in l
  }

  lemma {:induction false} SetAllKeys(l: Ledger, ips: seq<string>, cluster: string, status: string)
    requires SetAll(l, ips, cluster, status).Done?
    ensures SetAll(l, ips, cluster, status).ledger.Keys == l.Keys
  {
    if ips == [] {
    } else {
      SetAllKeys(l, ips[..|ips| - 1], cluster, status);
    }
  }

  lemma SetOneExactly(l: Ledger, ip: string, cluster: string, status: string)
    ensures SetOne(l, ip, cluster, status).Done? <==> Settable(l, ip)
    ensures !Settable(l, ip) ==>
              SetOne(l, ip, cluster, status) == Failed(if |Split(ip, '.')| == 4 then NotFound else BadRequest)
  {
  }

  /** It commits exactly when every address is one it can set. */
  lemma {:induction false} SetClusterExactly(l: Ledger, ips: seq<string>, cluster: string, status: string)
    ensures SetAll(l, ips, cluster, status).Done? <==> forall i :: 0 <= i < |ips| ==> Settable(l, ips[i])
  {
    if ips == [] {
    } else {
      var n := |ips| - 1;
      SetClusterExactly(l, ips[..n], cluster, status);
      if SetAll(l, ips[..n], cluster, status).Done? {
        SetAllKeys(l, ips[..n], cluster, status);
        SetOneExactly(SetAll(l, ips[..n], cluster, status).ledger, ips[n], cluster, status);
        assert forall i :: 0 <= i < n ==> Settable(l, ips[..n][i]);
      }
    }
  }

  /** Otherwise the first that is not decides the refusal: by its form, or by its network. */
  lemma {:induction false} SetClusterRefuses(l: Ledger, ips: seq<string>, cluster: string, status: string, i: nat)
    requires FirstUnsettable(l, ips, i)
    ensures SetAll(l, ips, cluster, status) == Failed(if |Split(ips[i], '.')| == 4 then NotFound else BadRequest)
    decreases |ips|
  {
    var n := |ips| - 1;
    if i < n {
      SetClusterRefuses(l, ips[..n], cluster, status, i);
    } else {
      SetClusterExactly(l, ips[..n], cluster, status);
      SetAllKeys(l, ips[..n], cluster, status);
      SetOneExactly(SetAll(l, ips[..n], cluster, status).ledger, ips[n], cluster, status);
    }
  }

  ghost predicate FirstUnsettable(l: Ledger, ips: seq<string>, i: nat) {
    i < |ips| && !Settable(l, ips[i]) && forall j :: 0 <= j < i ==> Settable(l, ips[j])
  }

  // ---- the pool ---------------------------------------------------------------------------------------

  /** Networks are created when they are named, have host parts and are new, all of them or none; host
      parts are added, and a network deleted, when it exists. The reclaimer commits when something has
      expired. */
  lemma PoolChangesExactly(op: Op, now: int, l: Ledger)
    requires op.CreateNetwork? || op.CreateFromCIDR? || op.AddIPs? || op.DeleteNetwork? || op.ReclaimPass?
    ensures Apply(op, now, l).Commit? <==> match op
      case CreateNetwork(key, digits) => key != "" && digits != [] && key !in l
      case CreateFromCIDR(networks) => networks.Some? && networks.value.Keys !! l.Keys
      case AddIPs(key, digits) => digits != [] && key in l
      case DeleteNetwork(key) => key in l
      case ReclaimPass => exists k, d :: Listed(l, k, d) && l[k][d].lease != 0 && l[k][d].lease <= now
    ensures Apply(op, now, l) == Refused(BadRequest) <==> match op
      case CreateNetwork(key, digits) => key == "" || digits == []
      case CreateFromCIDR(networks) => networks.None?
      case AddIPs(_, digits) => digits == []
      case _ => false
    ensures Apply(op, now, l) == Refused(Conflict) <==> match op
      case CreateNetwork(key, digits) => key != "" && digits != [] && key in l
      case CreateFromCIDR(networks) => networks.Some? && !(networks.value.Keys !! l.Keys)
      case _ => false
    ensures Apply(op, now, l) == Refused(NotFound) <==> match op
      case AddIPs(key, digits) => digits != [] && key !in l
      case DeleteNetwork(key) => key !in l
      case _ => false
    ensures Apply(op, now, l).Idle? <==>
      op.ReclaimPass? && forall k, d :: Listed(l, k, d) ==> l[k][d].lease == 0 || l[k][d].lease > now
  {
  }

  // ---- which addresses are listed afterwards --------------------------------------------------------------

  /** The networks of the ledger change only by creating and deleting them. */
  lemma NetworksAfter(op: Op, now: int, l: Ledger)
    requires Apply(op, now, l).Commit?
    ensures Apply(op, now, l).ledger.Keys == match op
      case CreateNetwork(key, _) => l.Keys + {key}
      case CreateFromCIDR(networks) => l.Keys + networks.value.Keys
      case DeleteNetwork(key) => l.Keys - {key}
      case _ => l.Keys
  {
    match op {
      case ReserveBatch(key, cluster, status, _, offer) =>
        WriteKeepsKeys(l, key, offer.ips, IPInfo(OrAssigned(status), cluster, 0));
      case SetClusterInfo(ips, cluster, status) => SetAllKeys(l, ips, cluster, status);
      case _ =>
    }
  }

  lemma {:induction false} WriteKeepsKeys(l: Ledger, key: string, ips: seq<string>, entry: IPInfo)
    requires key in l && Allocate.WriteAll(l, key, ips, entry).Some?
    ensures Allocate.WriteAll(l, key, ips, entry).value.Keys == l.Keys
  {
    if ips == [] {
    } else {
      WriteKeepsKeys(l, key, ips[..|ips| - 1], entry);
    }
  }

  /** The host parts a pool change adds. */
  ghost predicate Adds(op: Op, key: string, digit: string) {
    match op
    case CreateNetwork(k, digits) => k == key && digit in digits
    case CreateFromCIDR(networks) => networks.Some? && key in networks.value && digit in networks.value[key]
    case AddIPs(k, digits) => k == key && digit in digits
    case _ => false
  }

  /** The addresses a request takes out of the ledger. */
  ghost predicate Drops(op: Op, key: string, digit: string) {
    match op
    case DeleteIP(k, ip) => k == key && Points(ip, k, digit)
    case DeleteNetwork(k) => k == key
    case _ => false
  }

  /** The requests that list the addresses they name. */
  predicate Names(op: Op) {
    op.Reserve? || op.ReserveBatch? || op.Assign? || op.Release? || op.SetClusterInfo?
  }

  /** After any request an address is listed exactly when it was and is not dropped, or is added, or is
      named by a request that writes it. One that is added is blank unless it was listed. */
  lemma ListedAfter(op: Op, now: int, l: Ledger, key: string, digit: string)
    requires Apply(op, now, l).Commit?
    ensures Listed(Apply(op, now, l).ledger, key, digit) <==>
            || (Listed(l, key, digit) && !Drops(op, key, digit))
            || Adds(op, key, digit) || (Names(op) && Targets(op, key, digit))
    ensures Adds(op, key, digit) && !Listed(l, key, digit) ==> Apply(op, now, l).ledger[key][digit] == IPInfo("", "", 0)
  {
    match op {
      case ReserveBatch(k, cluster, status, _, offer) =>
        WriteAllEntry(l, k, offer.ips, IPInfo(OrAssigned(status), cluster, 0), key, digit);
      case SetClusterInfo(ips, cluster, status) => SetAllLists(l, ips, cluster, status, key, digit);
      case CreateNetwork(k, digits) => CreateLists(l, map[k := digits], key, digit);
      case CreateFromCIDR(networks) => CreateLists(l, networks.value, key, digit);
      case DeleteIP(k, ip) => PointsExactly(ip, k);
      case _ =>
    }
  }

  lemma CreateLists(l: Ledger, networks: map<string, seq<string>>, key: string, digit: string)
    requires CreateOutcome(l, networks).Commit?
    ensures var after := CreateOutcome(l, networks).ledger;
            && (Listed(after, key, digit) <==> Listed(l, key, digit) || (key in networks && digit in networks[key]))
            && (key in networks && digit in networks[key] ==> after[key][digit] == IPInfo("", "", 0))
  {
  }

  lemma {:induction false} SetAllLists(l: Ledger, ips: seq<string>, cluster: string, status: string,
                                       key: string, digit: string)
    requires SetAll(l, ips, cluster, status).Done?
    ensures Listed(SetAll(l, ips, cluster, status).ledger, key, digit) <==>
            Listed(l, key, digit) || Named(ips, key, digit)
  {
    if ips == [] {
    } else {
      SetAllLists(l, ips[..|ips| - 1], cluster, status, key, digit);
      NamedNext(ips, key, digit);
    }
  }

  // ---- what is held of the addresses that were changed ---------------------------------------------------

  /** The status asked for, ASSIGNED when none is. */
  function Wanted(op: Op): string
    requires Gives(op)
  {
    if op.status == "" then "ASSIGNED" else op.status
  }

  /** The request asks for a record, by its flag or by the mark in its status. */
  predicate AsksRecord(op: Op)
    requires Gives(op)
  {
    !op.ReserveBatch? && (op.createDNS || HasSuffix(Wanted(op), ":DNS"))
  }

  function Unmarked(status: string): string {
    if HasSuffix(status, ":DNS") then status[..|status| - 4] else status
  }

  /** The status without its mark; an edit strips two. */
  function Base(op: Op): string
    requires Gives(op)
  {
    if op.EditIP? then Unmarked(Unmarked(Wanted(op))) else Unmarked(Wanted(op))
  }

  lemma GrantedIs(status: string, createDNS: bool)
    ensures Granted(status, createDNS) ==
            if createDNS || HasSuffix(status, ":DNS") then Unmarked(status) + ":DNS" else status
    ensures EditedStatus(status, createDNS) ==
            if createDNS || HasSuffix(status, ":DNS") then Unmarked(Unmarked(status)) + ":DNS" else status
  {
  }

  lemma OrAssignedIs(status: string)
    ensures OrAssigned(status) == if status == "" then "ASSIGNED" else status
  {
  }

  /** A given address has the status asked for, with a record mark exactly when a record is. */
  lemma StatusAfter(op: Op, now: int, l: Ledger, key: string, digit: string)
    requires Gives(op) && Apply(op, now, l).Commit? && Targets(op, key, digit)
    ensures EntryAt(Apply(op, now, l).ledger, key, digit).status ==
            if AsksRecord(op) then Base(op) + ":DNS" else Wanted(op)
  {
    OrAssignedIs(op.status);
    match op {
      case ReserveBatch(k, cluster, status, _, offer) =>
        WriteAllEntry(l, k, offer.ips, IPInfo(OrAssigned(status), cluster, 0), key, digit);
      case Reserve(_, _, status, createDNS, _, _, _, _) => GrantedIs(OrAssigned(status), createDNS);
      case Assign(_, _, _, status, createDNS, _) => GrantedIs(OrAssigned(status), createDNS);
      case EditIP(_, _, _, status, createDNS) => GrantedIs(status, createDNS);
    }
  }

  /** What is released, deleted or reclaimed is blank, in every field. */
  lemma BlankAfter(op: Op, now: int, l: Ledger, key: string, digit: string)
    requires Apply(op, now, l).Commit?
    requires op.Release? || op.DeleteIP? || op.DeleteNetwork? || op.ReclaimPass?
    ensures EntryAt(Apply(op, now, l).ledger, key, digit) ==
            if match op
               case Release(k, ip) => k == key && Reads(ip, digit)
               case ReclaimPass => EntryAt(l, key, digit).lease != 0 && EntryAt(l, key, digit).lease <= now
               case _ => Drops(op, key, digit)
            then IPInfo("", "", 0) else EntryAt(l, key, digit)
  {
    match op {
      case Release(_, ip) => ReadsExactly(ip);
      case DeleteIP(k, ip) => PointsExactly(ip, k);
      case _ =>
    }
  }
}

/** Names inside the text format's domain, and that every operation stays inside it. */
module Names {
  import opened Text
  import opened Decimal
  import opened Address
  import opened Ledgers
  import opened Operations
  import opened CrCodec
  import Allocate
  import Reclaimer
  import Handout

  /** A host part that the format keeps, blank or held. A batch writes what a host part reads back
      as, so its last segment has to be one too. */
  predicate GoodDigit(digit: string) {
    ':' !in digit && !HasPrefix(digit, LEASE_PREFIX) && !HasPrefix(AfterLastDot(digit), LEASE_PREFIX)
  }

  predicate GoodCluster(cluster: string) {
    cluster != "" && ':' !in cluster && !HasPrefix(cluster, LEASE_PREFIX)
  }

  predicate GoodStatus(status: string) {
    status != "" && |Split(status, ':')| <= 2
  }

  predicate GoodHolder(status: string, cluster: string) {
    (status == "" && cluster == "") || (GoodStatus(status) && GoodCluster(cluster))
  }

  predicate GoodEntry(info: IPInfo) {
    GoodHolder(info.status, info.cluster) && InInt64(info.lease)
  }

  ghost predicate WellNamed(l: Ledger) {
    forall k, d :: Listed(l, k, d) ==> GoodDigit(d) && GoodEntry(EntryAt(l, k, d))
  }

  predicate GoodDigits(digits: seq<string>) {
    forall d :: d in digits ==> GoodDigit(d)
  }

  predicate GoodLastDigit(ip: string) {
    var digit := GetLastIPDigit(ip);
    digit.Some? ==> GoodDigit(digit.value)
  }

  /** What a caller can check of a request before sending it. */
  predicate GoodNames(op: Op) {
    match op
    case Reserve(_, cluster, status, createDNS, _, _, _, _) =>
      GoodCluster(cluster) && GoodStatus(Granted(OrAssigned(status), createDNS))
    case ReserveBatch(_, cluster, status, _, _) => GoodCluster(cluster) && GoodStatus(OrAssigned(status))
    case Assign(_, _, cluster, status, createDNS, _) =>
      GoodCluster(cluster) && GoodStatus(Granted(OrAssigned(status), createDNS))
    case Release(_, ip) => GoodLastDigit(ip)
    case EditIP(_, _, cluster, status, createDNS) =>
      GoodCluster(cluster) && GoodStatus(EditedStatus(status, createDNS))
    case SetClusterInfo(ips, cluster, status) =>
      GoodHolder(status, cluster) && forall i :: 0 <= i < |ips| ==> GoodLastDigit(ips[i])
    case CreateNetwork(_, digits) => GoodDigits(digits)
    case CreateFromCIDR(networks) =>
      networks.Some? ==> forall k :: k in networks.value ==> GoodDigits(networks.value[k])
    case AddIPs(_, digits) => GoodDigits(digits)
    case _ => true
  }

  /** Well-named ledgers are written and read back whole, but for their empty networks. */
  lemma SavedReadsBack(l: Ledger, cr: CR)
    requires WellNamed(l) && Encodes(l, cr)
    ensures Decode(cr) == Some(DropEmpty(l)) && WellNamed(DropEmpty(l))
  {
    forall k, d | k in l && d in l[k] ensures InInt64(l[k][d].lease) && Keeps(d, l[k][d]) {
      assert Listed(l, k, d) && EntryAt(l, k, d) == l[k][d];
    }
    LedgerRoundTrip(l, cr);
  }

  lemma PutKeepsNames(l: Ledger, key: string, digit: string, info: IPInfo)
    requires WellNamed(l) && key in l && GoodDigit(digit) && GoodEntry(info)
    ensures WellNamed(Put(l, key, digit, info))
  {
  }

  lemma LeaseMarked(s: string)
    ensures HasPrefix(s, LEASE_PREFIX) ==> 'e' in s
  {
    if HasPrefix(s, LEASE_PREFIX) { assert s[0] == 'e'; }
  }

  lemma DNSMarked(s: string)
    ensures HasSuffix(s, DNS_SUFFIX) ==> ':' in s
  {
    if HasSuffix(s, DNS_SUFFIX) { assert s[|s| - 4] == DNS_SUFFIX[0]; }
  }

  lemma HostDigitPlain(digit: string)
    requires '.' !in digit
    ensures AfterLastDot(digit) == digit
  {
  }

  lemma AfterLastDotOnly(text: string, c: char)
    requires c !in text
    ensures c !in AfterLastDot(text)
  {
    if '.' in text {
      var front := CutLast(text);
      assert text[|front| + 1..] == AfterLastDot(text);
    }
  }

  /** The last segment of a good host part is a good one. */
  lemma LastSegmentGood(digit: string)
    requires GoodDigit(digit)
    ensures GoodDigit(AfterLastDot(digit))
  {
    AfterLastDotOnly(digit, ':');
    HostDigitPlain(AfterLastDot(digit));
  }

  lemma OctetGood(ip: string, key: string)
    ensures HostDigit(ip, key).Some? ==> GoodDigit(HostDigit(ip, key).value)
  {
    var digit := HostDigit(ip, key);
    if digit.Some? {
      HostDigitExact(ip, key, digit.value);
      OctetText(digit.value);
      forall c | c in digit.value ensures IsDigit(c) || c == '-' {
        assert c in Itoa(ParseInt(digit.value).value);
      }
      LeaseMarked(digit.value);
      HostDigitPlain(digit.value);
    }
  }

  lemma GoodLeaseUntil(now: int, duration: int)
    ensures InInt64(LeaseUntil(now, duration))
  {
  }

  lemma ReserveKeepsNames(op: Op, now: int, l: Ledger)
    requires op.Reserve? && WellNamed(l) && GoodNames(op) && Possible(op, l) && ReserveOutcome(l, now, op).Commit?
    ensures WellNamed(ReserveOutcome(l, now, op).ledger)
  {
    var digit := Picked(l, op).value;
    OctetGood(op.ip, op.key);
    assert op.ip == "" ==> Listed(l, op.key, digit);
    GoodLeaseUntil(now, op.duration);
    PutKeepsNames(l, op.key, digit,
                  IPInfo(Granted(OrAssigned(op.status), op.createDNS), op.cluster, LeaseUntil(now, op.duration)));
  }

  lemma {:induction false} WritesKeepNames(l: Ledger, key: string, ips: seq<string>, entry: IPInfo)
    requires WellNamed(l) && key in l && GoodEntry(entry) && Allocate.WriteAll(l, key, ips, entry).Some?
    requires forall i :: 0 <= i < |ips| ==> GoodLastDigit(ips[i])
    ensures WellNamed(Allocate.WriteAll(l, key, ips, entry).value)
  {
    if ips == [] {
    } else {
      var n := |ips| - 1;
      WritesKeepNames(l, key, ips[..n], entry);
      assert GoodLastDigit(ips[n]);
    }
  }

  lemma OfferedGood(l: Ledger, key: string, ips: seq<string>)
    requires WellNamed(l) && key in l && Allocate.FreeAddresses(ips, key, Allocate.FreeDigits(l[key]))
    ensures forall i :: 0 <= i < |ips| ==> GoodLastDigit(ips[i])
  {
    forall i | 0 <= i < |ips| ensures GoodLastDigit(ips[i]) {
      assert Allocate.AddressOf(ips[i], key, Allocate.FreeDigits(l[key]));
      var d :| d in Allocate.FreeDigits(l[key]) && ips[i] == Full(key, d);
      assert Listed(l, key, d);
      ReadsBack(key, d);
      LastSegmentGood(d);
    }
  }

  lemma BatchKeepsNames(op: Op, l: Ledger)
    requires op.ReserveBatch? && WellNamed(l) && GoodNames(op) && Possible(op, l) && ReserveBatchOutcome(l, op).Commit?
    ensures WellNamed(ReserveBatchOutcome(l, op).ledger)
  {
    OfferedGood(l, op.key, op.offer.ips);
    WritesKeepNames(l, op.key, op.offer.ips, IPInfo(OrAssigned(op.status), op.cluster, 0));
  }

  lemma AssignKeepsNames(op: Op, now: int, l: Ledger)
    requires op.Assign? && WellNamed(l) && GoodNames(op) && AssignOutcome(l, now, op).Commit?
    ensures WellNamed(AssignOutcome(l, now, op).ledger)
  {
    OctetGood(op.ip, op.key);
    GoodLeaseUntil(now, op.duration);
    PutKeepsNames(l, op.key, HostDigit(op.ip, op.key).value,
                  IPInfo(Granted(OrAssigned(op.status), op.createDNS), op.cluster, LeaseUntil(now, op.duration)));
  }

  lemma {:induction false} SetAllKeepsNames(l: Ledger, ips: seq<string>, cluster: string, status: string)
    requires WellNamed(l) && GoodHolder(status, cluster) && SetAll(l, ips, cluster, status).Done?
    requires forall i :: 0 <= i < |ips| ==> GoodLastDigit(ips[i])
    ensures WellNamed(SetAll(l, ips, cluster, status).ledger)
  {
    if ips == [] {
    } else {
      var n := |ips| - 1;
      SetAllKeepsNames(l, ips[..n], cluster, status);
      var front := SetAll(l, ips[..n], cluster, status).ledger;
      var key, digit := TruncateIP(ips[n]).value, GetLastIPDigit(ips[n]).value;
      assert GoodLastDigit(ips[n]);
      assert Listed(front, key, digit) ==> GoodEntry(EntryAt(front, key, digit));
      PutKeepsNames(front, key, digit, EntryAt(front, key, digit).(status := status, cluster := cluster));
    }
  }

  lemma CreateKeepsNames(l: Ledger, networks: map<string, seq<string>>)
    requires WellNamed(l) && CreateOutcome(l, networks).Commit?
    requires forall k :: k in networks ==> GoodDigits(networks[k])
    ensures WellNamed(CreateOutcome(l, networks).ledger)
  {
    var l' := CreateOutcome(l, networks).ledger;
    forall k, d | Listed(l', k, d) ensures GoodDigit(d) && GoodEntry(EntryAt(l', k, d)) {
      if k in networks {
        assert d in networks[k];
      } else {
        assert Listed(l, k, d) && EntryAt(l', k, d) == EntryAt(l, k, d);
      }
    }
  }

  lemma AddKeepsNames(l: Ledger, op: Op)
    requires op.AddIPs? && WellNamed(l) && GoodNames(op) && AddOutcome(l, op).Commit?
    ensures WellNamed(AddOutcome(l, op).ledger)
  {
    var l' := AddOutcome(l, op).ledger;
    forall k, d | Listed(l', k, d) ensures GoodDigit(d) && GoodEntry(EntryAt(l', k, d)) {
      Handout.AddKeepsEntries(l, op, k, d);
      assert Listed(l, k, d) || (k == op.key && d in op.digits);
    }
  }

  lemma RenewKeepsNames(op: Op, now: int, l: Ledger)
    requires op.Renew? && WellNamed(l) && RenewOutcome(l, now, op).Commit?
    ensures WellNamed(RenewOutcome(l, now, op).ledger)
  {
    var digit := GetLastIPDigit(op.ip).value;
    assert Listed(l, op.key, digit) && EntryAt(l, op.key, digit) == l[op.key][digit];
    PutKeepsNames(l, op.key, digit, l[op.key][digit].(lease := Wrap64(now + op.duration)));
  }

  lemma EditKeepsNames(op: Op, l: Ledger)
    requires op.EditIP? && WellNamed(l) && GoodNames(op) && EditOutcome(l, op).Commit?
    ensures WellNamed(EditOutcome(l, op).ledger)
  {
    var digit := PathDigit(op.key, op.ip);
    assert Listed(l, op.key, digit) && EntryAt(l, op.key, digit) == l[op.key][digit];
    PutKeepsNames(l, op.key, digit,
                  l[op.key][digit].(status := EditedStatus(op.status, op.createDNS), cluster := op.cluster));
  }

  /** Requests with names in the domain keep every name of the ledger in the domain. */
  lemma OperationsKeepNames(op: Op, now: int, l: Ledger)
    requires WellNamed(l) && GoodNames(op) && Possible(op, l) && Apply(op, now, l).Commit?
    ensures WellNamed(Apply(op, now, l).ledger)
  {
    match op {
      case Reserve(_, _, _, _, _, _, _, _) => ReserveKeepsNames(op, now, l);
      case ReserveBatch(_, _, _, _, _) => BatchKeepsNames(op, l);
      case Assign(_, _, _, _, _, _) => AssignKeepsNames(op, now, l);
      case Release(key, ip) => PutKeepsNames(l, key, GetLastIPDigit(ip).value, BLANK);
      case Renew(_, _, _) => RenewKeepsNames(op, now, l);
      case EditIP(_, _, _, _, _) => EditKeepsNames(op, l);
      case DeleteIP(_, _) =>
      case ReclaimPass => ReclaimKeepsNames(l, now);
      case SetClusterInfo(ips, cluster, status) => SetAllKeepsNames(l, ips, cluster, status);
      case CreateNetwork(key, digits) => CreateKeepsNames(l, map[key := digits]);
      case CreateFromCIDR(networks) => CreateKeepsNames(l, networks.value);
      case AddIPs(_, _) => AddKeepsNames(l, op);
      case DeleteNetwork(_) => DeleteKeepsNames(l, op, now);
    }
  }

  lemma ReclaimKeepsNames(l: Ledger, now: int)
    requires WellNamed(l)
    ensures WellNamed(Reclaimer.Reclaim(l, now))
  {
  }

  lemma DeleteKeepsNames(l: Ledger, op: Op, now: int)
    requires op.DeleteNetwork? && WellNamed(l) && Apply(op, now, l).Commit?
    ensures WellNamed(Apply(op, now, l).ledger)
  {
    var l' := Apply(op, now, l).ledger;
    forall k, d | Listed(l', k, d) ensures GoodDigit(d) && GoodEntry(EntryAt(l', k, d)) {
      assert Listed(l, k, d) && EntryAt(l', k, d) == EntryAt(l, k, d);
    }
  }

  /** A status that is colon-free but for one `:DNS` mark is in the domain once granted. */
  lemma PlainStatusGranted(status: string, createDNS: bool)
    requires status != "" && ':' !in TrimSuffix(status, DNS_SUFFIX)
    ensures GoodStatus(Granted(status, createDNS)) && GoodStatus(EditedStatus(status, createDNS))
  {
    var plain := TrimSuffix(status, DNS_SUFFIX);
    if WantsDNS(createDNS, status) {
      assert plain + DNS_SUFFIX == plain + ":" + "DNS";
      SplitConcat(plain, "DNS", ':');
      SplitPlain(plain, ':');
      SplitPlain("DNS", ':');
      DNSMarked(plain);
    } else {
      SplitPlain(status, ':');
    }
  }
}

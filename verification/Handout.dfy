/** What one committed operation does to one address: who hands it out and who frees it. */
module Handout {
  import opened Text
  import opened Address
  import opened Ledgers
  import opened Operations
  import Allocate
  import Reclaimer

  /** The answer of `op` names the address. */
  ghost predicate HandsOut(op: Op, key: string, digit: string) {
    match op
    case Reserve(k, _, _, _, _, ip, _, choice) =>
      k == key && digit == if ip != "" then AfterLastDot(ip) else choice
    case ReserveBatch(k, _, _, _, offer) =>
      k == key && offer.Offered? && exists i :: 0 <= i < |offer.ips| && offer.ips[i] == Full(key, digit)
    case _ => false
  }

  lemma GrantedBusy(status: string, createDNS: bool)
    ensures Granted(OrAssigned(status), createDNS) != ""
  {
  }

  lemma HostDigitSuffix(ip: string, key: string)
    ensures HostDigit(ip, key).Some? ==> HostDigit(ip, key) == Some(AfterLastDot(ip))
  {
  }

  // ---- what a batch writes --------------------------------------------------------

  ghost predicate WrittenIn(ips: seq<string>, digit: string) {
    exists i :: 0 <= i < |ips| && GetLastIPDigit(ips[i]) == Some(digit)
  }

  lemma WrittenNext(ips: seq<string>, digit: string)
    requires ips != []
    ensures var n := |ips| - 1;
            WrittenIn(ips, digit) <==> WrittenIn(ips[..n], digit) || GetLastIPDigit(ips[n]) == Some(digit)
  {
    var n := |ips| - 1;
    if WrittenIn(ips[..n], digit) {
      var i :| 0 <= i < n && GetLastIPDigit(ips[..n][i]) == Some(digit);
      assert GetLastIPDigit(ips[i]) == Some(digit);
    }
    if WrittenIn(ips, digit) {
      var i :| 0 <= i < |ips| && GetLastIPDigit(ips[i]) == Some(digit);
      assert i < n ==> ips[..n][i] == ips[i];
    }
  }

  lemma {:induction false} WriteAllEntry(l: Ledger, net: string, ips: seq<string>, entry: IPInfo,
                                         key: string, digit: string)
    requires net in l && Allocate.WriteAll(l, net, ips, entry).Some?
    ensures EntryAt(Allocate.WriteAll(l, net, ips, entry).value, key, digit) ==
            if key == net && WrittenIn(ips, digit) then entry else EntryAt(l, key, digit)
    ensures Listed(Allocate.WriteAll(l, net, ips, entry).value, key, digit) <==>
            (key == net && WrittenIn(ips, digit)) || Listed(l, key, digit)
  {
    if ips == [] {
    } else {
      WriteAllEntry(l, net, ips[..|ips| - 1], entry, key, digit);
      WrittenNext(ips, digit);
    }
  }

  lemma {:induction false} WriteAllReads(l: Ledger, net: string, ips: seq<string>, entry: IPInfo, i: nat)
    requires net in l && Allocate.WriteAll(l, net, ips, entry).Some? && i < |ips|
    ensures GetLastIPDigit(ips[i]).Some?
  {
    if i < |ips| - 1 {
      WriteAllReads(l, net, ips[..|ips| - 1], entry, i);
    }
  }

  // ---- who is handed an address ------------------------------------------------------

  /** The cluster of the request holds the address. */
  predicate HeldFor(op: Op, l: Ledger, key: string, digit: string)
    requires op.Reserve? || op.ReserveBatch?
  {
    !IsFree(EntryAt(l, key, digit)) && EntryAt(l, key, digit).cluster == op.cluster
  }

  /** A reserve takes an address that was free, or absent if adding to the pool was asked for. */
  lemma ReserveTakesFree(op: Op, now: int, l: Ledger, digit: string)
    requires op.Reserve? && Possible(op, l) && ReserveOutcome(l, now, op).Commit? && HandsOut(op, op.key, digit)
    ensures IsFree(EntryAt(l, op.key, digit))
    ensures !op.addToPool ==> Listed(l, op.key, digit)
    ensures HeldFor(op, ReserveOutcome(l, now, op).ledger, op.key, digit)
  {
    HostDigitSuffix(op.ip, op.key);
    GrantedBusy(op.status, op.createDNS);
  }

  /** A batch answers with free addresses, and writes the one it answers with exactly when its host
      part has no dot. */
  lemma BatchTakesFree(op: Op, now: int, l: Ledger, digit: string)
    requires op.ReserveBatch? && Possible(op, l)
    requires ReserveBatchOutcome(l, op).Commit? && HandsOut(op, op.key, digit)
    ensures Listed(l, op.key, digit) && IsFree(l[op.key][digit])
    ensures HeldFor(op, ReserveBatchOutcome(l, op).ledger, op.key, digit) <==> '.' !in digit
    ensures !IsFree(EntryAt(ReserveBatchOutcome(l, op).ledger, op.key, digit)) <==> '.' !in digit
  {
    var ips, free := op.offer.ips, Allocate.FreeDigits(l[op.key]);
    var entry := IPInfo(OrAssigned(op.status), op.cluster, 0);
    var i :| 0 <= i < |ips| && ips[i] == Full(op.key, digit);
    OfferedFree(ips, op.key, free, i, digit);
    WriteAllReads(l, op.key, ips, entry, i);
    ReadsBack(op.key, digit);
    WrittenPlain(ips, digit);
    WriteAllEntry(l, op.key, ips, entry, op.key, digit);
  }

  lemma OfferedFree(ips: seq<string>, key: string, free: set<string>, i: nat, digit: string)
    requires Allocate.FreeAddresses(ips, key, free) && i < |ips| && ips[i] == Full(key, digit)
    ensures digit in free
  {
    assert Allocate.AddressOf(ips[i], key, free);
    var d :| d in free && ips[i] == Full(key, d);
    FullInjective(key, digit, d);
  }

  lemma WrittenPlain(ips: seq<string>, digit: string)
    ensures WrittenIn(ips, digit) ==> '.' !in digit
  {
    if WrittenIn(ips, digit) {
      var i :| 0 <= i < |ips| && GetLastIPDigit(ips[i]) == Some(digit);
      LastDigitPlain(ips[i]);
    }
  }

  /** No address is handed out that was not free in the ledger the operation committed over, and
      afterwards the requesting cluster holds it, unless a batch answered with a dotted host part. */
  lemma HandOutTakesFree(op: Op, now: int, l: Ledger, key: string, digit: string)
    requires Possible(op, l) && Apply(op, now, l).Commit? && HandsOut(op, key, digit)
    ensures IsFree(EntryAt(l, key, digit))
    ensures (op.Reserve? && op.addToPool) || Listed(l, key, digit)
    ensures HeldFor(op, Apply(op, now, l).ledger, key, digit) <==> op.Reserve? || '.' !in digit
    ensures !IsFree(EntryAt(Apply(op, now, l).ledger, key, digit)) <==> op.Reserve? || '.' !in digit
  {
    if op.Reserve? {
      ReserveTakesFree(op, now, l, digit);
    } else {
      BatchTakesFree(op, now, l, digit);
    }
  }

  /** What the address of a host part is read back as. */
  function ReadAs(key: string, digit: string): Option<string> {
    GetLastIPDigit(Full(key, digit))
  }

  /** Every address the batch answers with is left with its cluster. */
  ghost predicate AllHeld(op: Op, now: int, l: Ledger)
    requires op.ReserveBatch? && Apply(op, now, l).Commit?
  {
    forall d :: HandsOut(op, op.key, d) ==> HeldFor(op, Apply(op, now, l).ledger, op.key, d)
  }

  /** A batch leaves every address it answers with to the requester if and only if none of their
      host parts has a dot. */
  lemma BatchHoldsExactly(op: Op, now: int, l: Ledger)
    requires op.ReserveBatch? && Possible(op, l) && Apply(op, now, l).Commit?
    ensures AllHeld(op, now, l) <==> forall d :: HandsOut(op, op.key, d) ==> '.' !in d
  {
    forall d | HandsOut(op, op.key, d)
      ensures HeldFor(op, Apply(op, now, l).ledger, op.key, d) <==> '.' !in d
    {
      BatchTakesFree(op, now, l, d);
    }
  }

  /** Whatever is offered of the network, every batch leaves what it answers with to the requester. */
  ghost predicate EveryBatchHeld(l: Ledger, key: string) {
    forall op: Op, now: int ::
      op.ReserveBatch? && op.key == key && Possible(op, l) && Apply(op, now, l).Commit? ==> AllHeld(op, now, l)
  }

  /** No free host part has a dot, but for those whose address is too short to be read back at all. */
  ghost predicate PlainPool(l: Ledger, key: string)
    requires key in l
  {
    forall d :: d in Allocate.FreeDigits(l[key]) && '.' in d ==> ReadAs(key, d).None?
  }

  /** So a pool is safe for batches if and only if its free host parts have no dots; only behind a key
      of one segment can a dotted one be too short to be handed out. */
  lemma PoolSafeExactly(l: Ledger, key: string)
    requires key in l
    ensures EveryBatchHeld(l, key) <==> PlainPool(l, key)
    ensures |Split(key, '.')| >= 2 ==> (PlainPool(l, key) <==> Allocate.DotFree(Allocate.FreeDigits(l[key])))
  {
    var free := Allocate.FreeDigits(l[key]);
    if PlainPool(l, key) {
      forall op: Op, now: int | op.ReserveBatch? && op.key == key && Possible(op, l) && Apply(op, now, l).Commit?
        ensures AllHeld(op, now, l)
      {
        PlainPoolHeld(op, now, l);
      }
    }
    forall d | d in free && '.' in d
      ensures EveryBatchHeld(l, key) ==> ReadAs(key, d).None?
      ensures |Split(key, '.')| >= 2 ==> ReadAs(key, d).Some?
    {
      DottedBatchLost(l, key, d);
      if |Split(key, '.')| >= 2 {
        DottedReads(key, d);
      }
    }
  }

  lemma PlainPoolHeld(op: Op, now: int, l: Ledger)
    requires op.ReserveBatch? && Possible(op, l) && Apply(op, now, l).Commit? && PlainPool(l, op.key)
    ensures AllHeld(op, now, l)
  {
    var entry := IPInfo(OrAssigned(op.status), op.cluster, 0);
    forall d | HandsOut(op, op.key, d) ensures '.' !in d {
      BatchTakesFree(op, now, l, d);
      var i :| 0 <= i < |op.offer.ips| && op.offer.ips[i] == Full(op.key, d);
      WriteAllReads(l, op.key, op.offer.ips, entry, i);
    }
    BatchHoldsExactly(op, now, l);
  }

  lemma DottedReads(key: string, digit: string)
    requires '.' in digit && |Split(key, '.')| >= 2
    ensures ReadAs(key, digit).Some?
  {
    SplitConcat(key, digit, '.');
    SplitSingle(digit, '.');
  }

  /** A batch for cluster "c", offered these addresses. */
  function BatchOf(key: string, ips: seq<string>): Op {
    ReserveBatch(key, "c", "", |ips|, Allocate.Offered(ips))
  }

  lemma {:induction false} AllWritten(l: Ledger, key: string, ips: seq<string>, entry: IPInfo)
    requires key in l && forall i :: 0 <= i < |ips| ==> GetLastIPDigit(ips[i]).Some?
    ensures Allocate.WriteAll(l, key, ips, entry).Some?
  {
    if ips == [] {
    } else {
      var front := ips[..|ips| - 1];
      AllWritten(l, key, front, entry);
      WriteAllKeys(l, key, front, entry);
      assert GetLastIPDigit(ips[|ips| - 1]).Some?;
    }
  }

  lemma BatchCommits(l: Ledger, now: int, key: string, ips: seq<string>)
    requires key in l && Allocate.FreeAddresses(ips, key, Allocate.FreeDigits(l[key]))
    requires 0 < |ips| <= |Allocate.FreeDigits(l[key])|
    requires forall i :: 0 <= i < |ips| ==> GetLastIPDigit(ips[i]).Some?
    ensures Possible(BatchOf(key, ips), l) && Apply(BatchOf(key, ips), now, l).Commit?
  {
    AssignedUnmarked();
    AllWritten(l, key, ips, IPInfo(ASSIGNED, "c", 0));
  }

  lemma OneCommits(l: Ledger, now: int, key: string, digit: string)
    requires key in l && digit in Allocate.FreeDigits(l[key]) && ReadAs(key, digit).Some?
    ensures var op := BatchOf(key, [Full(key, digit)]);
            Possible(op, l) && Apply(op, now, l).Commit? && HandsOut(op, key, digit)
  {
    var ips := [Full(key, digit)];
    assert Allocate.AddressOf(ips[0], key, Allocate.FreeDigits(l[key]));
    Allocate.SubsetSize({digit}, Allocate.FreeDigits(l[key]));
    BatchCommits(l, now, key, ips);
    assert BatchOf(key, ips).offer.ips[0] == Full(key, digit);
  }

  /** A batch of one that is offered a dotted host part does not take it. */
  lemma DottedBatchLost(l: Ledger, key: string, digit: string)
    requires key in l && digit in Allocate.FreeDigits(l[key]) && '.' in digit
    ensures EveryBatchHeld(l, key) ==> ReadAs(key, digit).None?
  {
    if ReadAs(key, digit).Some? {
      OneCommits(l, 0, key, digit);
      BatchTakesFree(BatchOf(key, [Full(key, digit)]), 0, l, digit);
    }
  }

  lemma AssignedUnmarked()
    ensures !HasSuffix(ASSIGNED, DNS_SUFFIX)
  {
    assert ASSIGNED[|ASSIGNED| - 1] == 'D' && DNS_SUFFIX[3] == 'S';
  }

  /** Why host parts must be free of dots: an offered address is read back as its own host part
      exactly when it is, and the key has three segments. */
  lemma WrittenWhereOffered(key: string, digit: string)
    ensures GetLastIPDigit(Full(key, digit)) == Some(digit) <==> '.' !in digit && |Split(key, '.')| >= 3
  {
    if '.' !in digit {
      LastDigitOfFull(key, digit);
    } else {
      LastDigitPlain(Full(key, digit));
    }
  }

  /** With a dot in a free host part, a batch overwrites an address someone else holds: where the
      only free host part is `a.b`, the next batch of one takes `b`, whoever has it. */
  lemma DottedHostPartOverwrites(l: Ledger, now: int, op: Op, a: string, b: string)
    requires op.ReserveBatch? && op.key in l && op.cluster != "" && op.count == 1
    requires !HasSuffix(OrAssigned(op.status), DNS_SUFFIX)
    requires Possible(op, l) && Allocate.FreeDigits(l[op.key]) == {a + "." + b}
    requires '.' !in b && |Split(op.key, '.')| >= 2
    ensures Apply(op, now, l).Commit?
    ensures HandsOut(op, op.key, a + "." + b)
    ensures Listed(l, op.key, b) ==> !IsFree(l[op.key][b])
    ensures EntryAt(Apply(op, now, l).ledger, op.key, b) == IPInfo(OrAssigned(op.status), op.cluster, 0)
  {
    var ip := Full(op.key, a + "." + b);
    var free := Allocate.FreeDigits(l[op.key]);
    assert |free| == 1;
    assert op.offer.Offered? && |op.offer.ips| == 1;
    assert Allocate.AddressOf(op.offer.ips[0], op.key, free);
    assert op.offer.ips == [ip];
    ReadBehindLastDot(op.key, a, b);
    assert |a + "." + b| > |b|;
    assert b !in free;
    WriteOne(l, op.key, ip, IPInfo(OrAssigned(op.status), op.cluster, 0));
  }

  lemma ReadBehindLastDot(key: string, a: string, b: string)
    requires '.' !in b && |Split(key, '.')| >= 2
    ensures GetLastIPDigit(Full(key, a + "." + b)) == Some(b)
  {
    SplitConcat(key, a + "." + b, '.');
    SplitConcat(a, b, '.');
    SplitPlain(b, '.');
  }

  lemma WriteOne(l: Ledger, key: string, ip: string, entry: IPInfo)
    requires key in l && GetLastIPDigit(ip).Some?
    ensures Allocate.WriteAll(l, key, [ip], entry) == Some(Put(l, key, GetLastIPDigit(ip).value, entry))
  {
    assert [ip][..0] == [];
  }

  // ---- how many addresses a batch takes ------------------------------------------------

  /** The host parts a batch writes. */
  function Written(ips: seq<string>): (r: set<string>)
    ensures forall d :: d in r <==> WrittenIn(ips, d)
    ensures |r| <= |ips|
  {
    if ips == [] then {}
    else
      var n := |ips| - 1;
      WrittenEach(ips);
      var digit := GetLastIPDigit(ips[n]);
      Written(ips[..n]) + if digit.Some? then {digit.value} else {}
  }

  lemma WrittenEach(ips: seq<string>)
    requires ips != []
    ensures var n := |ips| - 1;
            forall d :: WrittenIn(ips, d) <==> WrittenIn(ips[..n], d) || GetLastIPDigit(ips[n]) == Some(d)
  {
    forall d
      ensures var n := |ips| - 1;
              WrittenIn(ips, d) <==> WrittenIn(ips[..n], d) || GetLastIPDigit(ips[n]) == Some(d)
    {
      WrittenNext(ips, d);
    }
  }

  /** Over any pool, the host parts left free are those that were free and are not written. */
  lemma FreeAfterBatch(l: Ledger, key: string, ips: seq<string>, entry: IPInfo)
    requires key in l && Allocate.WriteAll(l, key, ips, entry).Some? && !IsFree(entry)
    ensures var l' := Allocate.WriteAll(l, key, ips, entry).value;
            key in l' && Allocate.FreeDigits(l'[key]) == Allocate.FreeDigits(l[key]) - Written(ips)
  {
    var l' := Allocate.WriteAll(l, key, ips, entry).value;
    WriteAllKeys(l, key, ips, entry);
    forall d
      ensures d in Allocate.FreeDigits(l'[key]) <==> d in Allocate.FreeDigits(l[key]) && !WrittenIn(ips, d)
    {
      WriteAllEntry(l, key, ips, entry, key, d);
    }
  }

  lemma {:induction false} WriteAllKeys(l: Ledger, key: string, ips: seq<string>, entry: IPInfo)
    requires key in l && Allocate.WriteAll(l, key, ips, entry).Some?
    ensures key in Allocate.WriteAll(l, key, ips, entry).value
  {
    if ips == [] {
    } else {
      WriteAllKeys(l, key, ips[..|ips| - 1], entry);
    }
  }

  /** A committed batch of any size lowers the free count by that size exactly when the host parts it
      writes are that many and all were free. */
  lemma BatchLowersExactly(op: Op, now: int, l: Ledger)
    requires op.ReserveBatch? && Possible(op, l) && Apply(op, now, l).Commit?
    ensures var before, after := Allocate.FreeDigits(l[op.key]), Apply(op, now, l).ledger;
            && op.key in after
            && (|Allocate.FreeDigits(after[op.key])| == |before| - op.count <==>
                Written(op.offer.ips) <= before && |Written(op.offer.ips)| == op.count)
  {
    var free, written := Allocate.FreeDigits(l[op.key]), Written(op.offer.ips);
    FreeAfterBatch(l, op.key, op.offer.ips, IPInfo(OrAssigned(op.status), op.cluster, 0));
    DifferenceSize(free, written);
  }

  lemma DifferenceSize(a: set<string>, b: set<string>)
    ensures |a - b| == |a| - |a * b|
    ensures |a * b| <= |b| && (|a * b| == |b| <==> b <= a)
  {
    assert a == (a - b) + a * b && |(a - b) + a * b| == |a - b| + |a * b|;
    assert b == (b - a) + a * b && |(b - a) + a * b| == |b - a| + |a * b|;
    assert b <= a <==> b - a == {};
  }

  /** The free count of the network has dropped by the size of the batch. */
  ghost predicate LowersBySize(op: Op, now: int, l: Ledger)
    requires op.ReserveBatch? && op.key in l && Apply(op, now, l).Commit?
  {
    var after := Apply(op, now, l).ledger;
    op.key in after &&
    |Allocate.FreeDigits(after[op.key])| == |Allocate.FreeDigits(l[op.key])| - op.count
  }

  /** Whatever is offered of the network, every batch lowers the free count by its size. */
  ghost predicate EveryBatchLowers(l: Ledger, key: string)
    requires key in l
  {
    forall op: Op, now: int ::
      op.ReserveBatch? && op.key == key && Possible(op, l) && Apply(op, now, l).Commit? ==> LowersBySize(op, now, l)
  }

  /** Every free host part that is read back at all is read back as a free one, and no two as the same. */
  ghost predicate ReadsApart(free: set<string>, key: string) {
    && (forall d {:trigger ReadAs(key, d)} :: d in free && ReadAs(key, d).Some? ==> ReadAs(key, d).value in free)
    && forall d, e {:trigger ReadAs(key, d), ReadAs(key, e)} ::
         d in free && e in free && d != e && ReadAs(key, d).Some? ==> ReadAs(key, d) != ReadAs(key, e)
  }

  /** Distinct free host parts, each with an address that is read back. */
  ghost predicate OfferedAs(ips: seq<string>, ds: seq<string>, key: string, free: set<string>) {
    && |ips| == |ds|
    && (forall i :: 0 <= i < |ds| ==> ds[i] in free && ips[i] == Full(key, ds[i]) && ReadAs(key, ds[i]).Some?)
    && forall i, j :: 0 <= i < j < |ds| ==> ds[i] != ds[j]
  }

  lemma NewlyWritten(ips: seq<string>, ds: seq<string>, key: string, free: set<string>, d: string)
    requires OfferedAs(ips, ds, key, free) && ReadsApart(free, key)
    requires d in free && ReadAs(key, d).Some? && forall i :: 0 <= i < |ds| ==> ds[i] != d
    ensures ReadAs(key, d).value in free && ReadAs(key, d).value !in Written(ips)
  {
  }

  lemma OfferedFront(ips: seq<string>, ds: seq<string>, key: string, free: set<string>)
    requires OfferedAs(ips, ds, key, free) && ips != []
    ensures var n := |ips| - 1;
            && OfferedAs(ips[..n], ds[..n], key, free) && ds[n] in free && ReadAs(key, ds[n]).Some?
            && forall i :: 0 <= i < n ==> ds[..n][i] != ds[n]
  {
  }

  lemma WrittenLast(ips: seq<string>, d: string)
    requires ips != [] && GetLastIPDigit(ips[|ips| - 1]) == Some(d)
    ensures var front := Written(ips[..|ips| - 1]);
            && Written(ips) == front + {d} && (d !in front ==> |Written(ips)| == |front| + 1)
  {
    var front, all := Written(ips[..|ips| - 1]), Written(ips);
    WrittenEach(ips);
    assert forall x :: x in all <==> x in front || x == d;
    assert all == front + {d};
    if d !in front { OneMore(front, d); }
  }

  lemma OneMore(s: set<string>, d: string)
    requires d !in s
    ensures |s + {d}| == |s| + 1
  {
  }

  lemma {:induction false} WrittenApart(ips: seq<string>, ds: seq<string>, key: string, free: set<string>)
    requires OfferedAs(ips, ds, key, free) && ReadsApart(free, key)
    ensures Written(ips) <= free && |Written(ips)| == |ips|
  {
    if ips == [] {
    } else {
      var n := |ips| - 1;
      OfferedFront(ips, ds, key, free);
      WrittenApart(ips[..n], ds[..n], key, free);
      NewlyWritten(ips[..n], ds[..n], key, free, ds[n]);
      WrittenLast(ips, ReadAs(key, ds[n]).value);
    }
  }

  lemma ApartLowers(op: Op, now: int, l: Ledger)
    requires op.ReserveBatch? && op.key in l && Possible(op, l) && Apply(op, now, l).Commit?
    requires ReadsApart(Allocate.FreeDigits(l[op.key]), op.key)
    ensures LowersBySize(op, now, l)
  {
    var ips, free := op.offer.ips, Allocate.FreeDigits(l[op.key]);
    var ds := Allocate.HostParts(ips, op.key, free);
    forall i | 0 <= i < |ds| ensures ips[i] == Full(op.key, ds[i]) && ReadAs(op.key, ds[i]).Some? {
      WriteAllReads(l, op.key, ips, IPInfo(OrAssigned(op.status), op.cluster, 0), i);
    }
    WrittenApart(ips, ds, op.key, free);
    BatchLowersExactly(op, now, l);
  }

  /** A batch of one that overwrites a held address. */
  lemma StrayLowersNothing(l: Ledger, key: string, d: string)
    requires key in l && d in Allocate.FreeDigits(l[key]) && ReadAs(key, d).Some? && EveryBatchLowers(l, key)
    ensures ReadAs(key, d).value in Allocate.FreeDigits(l[key])
  {
    var op := BatchOf(key, [Full(key, d)]);
    OneCommits(l, 0, key, d);
    assert LowersBySize(op, 0, l);
    BatchLowersExactly(op, 0, l);
    assert op.offer.ips[0] == Full(key, d) && WrittenIn(op.offer.ips, ReadAs(key, d).value);
  }

  lemma SameWritten(ips: seq<string>)
    requires |ips| == 2
    ensures GetLastIPDigit(ips[0]) == GetLastIPDigit(ips[1]) ==> |Written(ips)| <= 1
  {
    var digit := GetLastIPDigit(ips[0]);
    if digit == GetLastIPDigit(ips[1]) {
      Allocate.SubsetSize(Written(ips), if digit.Some? then {digit.value} else {});
    }
  }

  /** A batch of two that writes one host part. */
  lemma ClashLowersLess(l: Ledger, key: string, d: string, e: string)
    requires key in l && {d, e} <= Allocate.FreeDigits(l[key]) && d != e && EveryBatchLowers(l, key)
    requires ReadAs(key, d).Some? && ReadAs(key, e).Some?
    ensures ReadAs(key, d) != ReadAs(key, e)
  {
    var ips, free := [Full(key, d), Full(key, e)], Allocate.FreeDigits(l[key]);
    FullInjective(key, d, e);
    assert Allocate.AddressOf(ips[0], key, free) && Allocate.AddressOf(ips[1], key, free);
    Allocate.SubsetSize({d, e}, free);
    BatchCommits(l, 0, key, ips);
    var op := BatchOf(key, ips);
    assert LowersBySize(op, 0, l);
    BatchLowersExactly(op, 0, l);
    SameWritten(ips);
  }

  /** Every possible batch from a network lowers its free count by the size of the batch if and only if
      its free host parts read back apart and as free ones; from three segments in the key on, that is:
      if and only if no free host part has a dot. */
  lemma PoolLowersExactly(l: Ledger, key: string)
    requires key in l
    ensures EveryBatchLowers(l, key) <==> ReadsApart(Allocate.FreeDigits(l[key]), key)
    ensures |Split(key, '.')| >= 3 ==> (EveryBatchLowers(l, key) <==> Allocate.DotFree(Allocate.FreeDigits(l[key])))
  {
    var free := Allocate.FreeDigits(l[key]);
    if ReadsApart(free, key) {
      forall op: Op, now: int | op.ReserveBatch? && op.key == key && Possible(op, l) && Apply(op, now, l).Commit?
        ensures LowersBySize(op, now, l)
      {
        ApartLowers(op, now, l);
      }
    }
    if EveryBatchLowers(l, key) {
      forall d | d in free && ReadAs(key, d).Some? ensures ReadAs(key, d).value in free {
        StrayLowersNothing(l, key, d);
      }
      forall d, e | d in free && e in free && d != e && ReadAs(key, d).Some?
        ensures ReadAs(key, d) != ReadAs(key, e)
      {
        if ReadAs(key, e).Some? { ClashLowersLess(l, key, d, e); }
      }
    }
    if |Split(key, '.')| >= 3 {
      DotFreeApart(free, key);
    }
  }

  lemma DotFreeApart(free: set<string>, key: string)
    requires |Split(key, '.')| >= 3
    ensures ReadsApart(free, key) <==> Allocate.DotFree(free)
  {
    forall d | d in free
      ensures ReadsApart(free, key) ==> '.' !in d
      ensures '.' !in d ==> ReadAs(key, d) == Some(d)
    {
      WrittenWhereOffered(key, d);
      if '.' in d && ReadsApart(free, key) {
        DottedClashes(free, key, d);
      }
    }
  }

  lemma DottedClashes(free: set<string>, key: string, d: string)
    requires |Split(key, '.')| >= 3 && d in free && '.' in d
    ensures !ReadsApart(free, key)
  {
    DottedReads(key, d);
    var last := ReadAs(key, d).value;
    LastDigitPlain(Full(key, d));
    WrittenWhereOffered(key, last);
    assert last in free ==> ReadAs(key, last) == ReadAs(key, d);
  }

  // ---- who frees an address -----------------------------------------------------

  ghost predicate Named(ips: seq<string>, key: string, digit: string) {
    exists i :: 0 <= i < |ips| && TruncateIP(ips[i]) == Some(key) && GetLastIPDigit(ips[i]) == Some(digit)
  }

  /** The operations that leave the address free. */
  ghost predicate Frees(op: Op, now: int, l: Ledger, key: string, digit: string) {
    match op
    case Release(k, ip) => k == key && GetLastIPDigit(ip) == Some(digit)
    case DeleteIP(k, ip) => k == key && PathDigit(k, ip) == digit
    case ReclaimPass => Reclaimer.Expired(EntryAt(l, key, digit), now)
    case SetClusterInfo(ips, _, status) => status == "" && Named(ips, key, digit)
    case DeleteNetwork(k) => k == key
    case _ => false
  }

  lemma {:induction false} SetAllEntry(l: Ledger, ips: seq<string>, cluster: string, status: string,
                                       key: string, digit: string)
    requires SetAll(l, ips, cluster, status).Done?
    ensures EntryAt(SetAll(l, ips, cluster, status).ledger, key, digit) ==
            if Named(ips, key, digit) then EntryAt(l, key, digit).(status := status, cluster := cluster)
            else EntryAt(l, key, digit)
  {
    if ips == [] {
    } else {
      var n := |ips| - 1;
      SetAllEntry(l, ips[..n], cluster, status, key, digit);
      NamedNext(ips, key, digit);
    }
  }

  lemma NamedNext(ips: seq<string>, key: string, digit: string)
    requires ips != []
    ensures var n := |ips| - 1;
            Named(ips, key, digit) <==>
            Named(ips[..n], key, digit) || (TruncateIP(ips[n]) == Some(key) && GetLastIPDigit(ips[n]) == Some(digit))
  {
    var n := |ips| - 1;
    if Named(ips[..n], key, digit) {
      var i :| 0 <= i < n && TruncateIP(ips[..n][i]) == Some(key) && GetLastIPDigit(ips[..n][i]) == Some(digit);
      assert TruncateIP(ips[i]) == Some(key);
    }
    if Named(ips, key, digit) {
      var i :| 0 <= i < |ips| && TruncateIP(ips[i]) == Some(key) && GetLastIPDigit(ips[i]) == Some(digit);
      assert i < n ==> ips[..n][i] == ips[i];
    }
  }

  /** Adding networks or host parts changes no entry. */
  lemma CreateKeepsEntries(l: Ledger, networks: map<string, seq<string>>, key: string, digit: string)
    requires CreateOutcome(l, networks).Commit?
    ensures EntryAt(CreateOutcome(l, networks).ledger, key, digit) == EntryAt(l, key, digit)
  {
  }

  lemma AddKeepsEntries(l: Ledger, op: Op, key: string, digit: string)
    requires op.AddIPs? && AddOutcome(l, op).Commit?
    ensures EntryAt(AddOutcome(l, op).ledger, key, digit) == EntryAt(l, key, digit)
  {
  }

  /** A held address becomes free exactly by a release, a delete of it or its network, a reclaim of
      its expired lease, or a cluster update to the empty status. */
  lemma FreedExactly(op: Op, now: int, l: Ledger, key: string, digit: string)
    requires Apply(op, now, l).Commit? && !IsFree(EntryAt(l, key, digit))
    ensures IsFree(EntryAt(Apply(op, now, l).ledger, key, digit)) <==> Frees(op, now, l, key, digit)
  {
    match op {
      case Reserve(_, _, status, createDNS, _, _, _, _) => GrantedBusy(status, createDNS);
      case ReserveBatch(k, cluster, status, _, offer) =>
        WriteAllEntry(l, k, offer.ips, IPInfo(OrAssigned(status), cluster, 0), key, digit);
      case Assign(_, _, _, status, createDNS, _) => GrantedBusy(status, createDNS);
      case SetClusterInfo(ips, cluster, status) => SetAllEntry(l, ips, cluster, status, key, digit);
      case CreateNetwork(k, digits) => CreateKeepsEntries(l, map[k := digits], key, digit);
      case CreateFromCIDR(networks) => CreateKeepsEntries(l, networks.value, key, digit);
      case AddIPs(_, _) => AddKeepsEntries(l, op, key, digit);
      case _ =>
    }
  }
}

/** What one Update of an assignment does to the ledger: it edits and renews the host part each recorded
    address reads back as, which need not be the recorded one. */
module Updating {
  import opened Text
  import opened Decimal
  import opened Address
  import opened Ledgers
  import opened Operations
  import opened Assignment
  import opened Handout
  import Effects
  import Reclaimer

  /** The status Update asks the server for, and the server writes. */
  function WrittenStatus(spec: Spec): string {
    EditedStatus(OrAssigned(spec.status), spec.createDNS)
  }

  /** The lease was granted by a clock between the two times, where such a lease can be written. */
  predicate LeaseWithin(lease: int, from: int, to: int, duration: int) {
    0 <= from && InInt64(to + duration) ==> from + duration <= lease <= to + duration
  }

  ghost predicate Refreshed(l: Ledger, spec: Spec, digit: string, from: int, to: int) {
    var e := EntryAt(l, spec.key, digit);
    && Listed(l, spec.key, digit)
    && e.status == WrittenStatus(spec) && e.cluster == spec.cluster
    && (spec.lease > 0 ==> LeaseWithin(e.lease, from, to, spec.lease))
  }

  ghost predicate AllRefreshed(l: Ledger, spec: Spec, ips: seq<string>, from: int, to: int) {
    forall i :: 0 <= i < |ips| && GetLastIPDigit(ips[i]).Some? ==>
      Refreshed(l, spec, GetLastIPDigit(ips[i]).value, from, to)
  }

  function EditOp(spec: Spec, digit: string): Op {
    Op.EditIP(spec.key, digit, spec.cluster, OrAssigned(spec.status), spec.createDNS)
  }

  lemma PlainPathDigit(key: string, digit: string)
    requires '.' !in digit
    ensures PathDigit(key, digit) == digit
  {
    if HasPrefix(digit, key + ".") {
      PrefixHasDot(key, digit);
    }
  }

  lemma PrefixHasDot(key: string, digit: string)
    requires HasPrefix(digit, key + ".")
    ensures '.' in digit
  {
    assert digit[|key|] == (key + ".")[|key|];
  }

  /** What the edit of one address does. */
  lemma EditSets(l: Ledger, spec: Spec, ip: string)
    requires GetLastIPDigit(ip).Some? && EditOutcome(l, EditOp(spec, GetLastIPDigit(ip).value)).Commit?
    ensures var digit := GetLastIPDigit(ip).value;
            var l' := EditOutcome(l, EditOp(spec, digit)).ledger;
            && Listed(l, spec.key, digit)
            && l' == Put(l, spec.key, digit,
                         l[spec.key][digit].(status := WrittenStatus(spec), cluster := spec.cluster))
  {
    LastDigitPlain(ip);
    PlainPathDigit(spec.key, GetLastIPDigit(ip).value);
  }

  lemma EditRefreshes(l: Ledger, spec: Spec, ips: seq<string>, ip: string, from: int, to: int)
    requires GetLastIPDigit(ip).Some? && EditOutcome(l, EditOp(spec, GetLastIPDigit(ip).value)).Commit?
    requires AllRefreshed(l, spec, ips, from, to)
    ensures AllRefreshed(EditOutcome(l, EditOp(spec, GetLastIPDigit(ip).value)).ledger, spec, ips, from, to)
    ensures spec.lease <= 0 ==>
      Refreshed(EditOutcome(l, EditOp(spec, GetLastIPDigit(ip).value)).ledger, spec, GetLastIPDigit(ip).value, from, to)
  {
    EditSets(l, spec, ip);
  }

  lemma RenewRefreshes(l: Ledger, spec: Spec, ips: seq<string>, ip: string, from: int, now: int)
    requires GetLastIPDigit(ip).Some? && RenewOutcome(l, now, Op.Renew(spec.key, ip, spec.lease)).Commit?
    requires AllRefreshed(l, spec, ips, from, now) && from <= now
    requires var e := EntryAt(l, spec.key, GetLastIPDigit(ip).value);
             e.status == WrittenStatus(spec) && e.cluster == spec.cluster
    ensures var l' := RenewOutcome(l, now, Op.Renew(spec.key, ip, spec.lease)).ledger;
            AllRefreshed(l', spec, ips, from, now) && Refreshed(l', spec, GetLastIPDigit(ip).value, from, now)
  {
  }

  lemma LaterRefreshed(l: Ledger, spec: Spec, ips: seq<string>, from: int, to: int, later: int)
    requires AllRefreshed(l, spec, ips, from, to) && from <= to <= later
    ensures AllRefreshed(l, spec, ips, from, later)
  {
    forall i | 0 <= i < |ips| && GetLastIPDigit(ips[i]).Some?
      ensures Refreshed(l, spec, GetLastIPDigit(ips[i]).value, from, later)
    {
      assert Refreshed(l, spec, GetLastIPDigit(ips[i]).value, from, to);
    }
  }

  /** The edit and the renewal of one address, at times after those of the addresses done before. */
  lemma OneUpdated(l0: Ledger, l1: Ledger, l2: Ledger, spec: Spec, ip: string, done: seq<string>,
                   from: int, t0: int, t1: int, t2: int)
    requires GetLastIPDigit(ip).Some? && from <= t0 <= t1 <= t2 && AllRefreshed(l0, spec, done, from, t0)
    requires var o := EditOutcome(l0, EditOp(spec, GetLastIPDigit(ip).value)); o.Commit? && l1 == o.ledger
    requires if spec.lease > 0 then var o := RenewOutcome(l1, t2, Op.Renew(spec.key, ip, spec.lease));
                                    o.Commit? && l2 == o.ledger
             else l2 == l1
    ensures AllRefreshed(l2, spec, done, from, t2) && Refreshed(l2, spec, GetLastIPDigit(ip).value, from, t2)
    ensures OnlyTouches(l0, l2, spec.key, [ip])
  {
    EditSets(l0, spec, ip);
    LaterRefreshed(l0, spec, done, from, t0, t1);
    EditRefreshes(l0, spec, done, ip, from, t1);
    LaterRefreshed(l1, spec, done, from, t1, t2);
    if spec.lease > 0 {
      RenewRefreshes(l1, spec, done, ip, from, t2);
    }
    assert [ip][0] == ip && WrittenIn([ip], GetLastIPDigit(ip).value);
  }

  // ---- the whole loop --------------------------------------------------------------

  /** One recorded address: skipped when it has too few segments, otherwise edited and renewed at its
      last segment. */
  function UpdateOne(l: Ledger, spec: Spec, ip: string, now: int): Attempt {
    var digit := GetLastIPDigit(ip);
    if digit.None? then Done(l)
    else
      var edited := EditOutcome(l, EditOp(spec, digit.value));
      if !edited.Commit? then Failed(NotFound)
      else if spec.lease <= 0 then Done(edited.ledger)
      else
        var renewed := RenewOutcome(edited.ledger, now, Op.Renew(spec.key, ip, spec.lease));
        if renewed.Commit? then Done(renewed.ledger) else Failed(NotFound)
  }

  /** The loop of Update, with nobody else writing and the clock standing still. */
  function UpdateAll(l: Ledger, spec: Spec, ips: seq<string>, now: int): Attempt {
    if ips == [] then Done(l)
    else
      var front := UpdateAll(l, spec, ips[..|ips| - 1], now);
      if front.Failed? then front else UpdateOne(front.ledger, spec, ips[|ips| - 1], now)
  }

  /** An address that was not updated fails the whole loop. */
  lemma {:induction false} UpdateAllFails(l: Ledger, spec: Spec, ips: seq<string>, n: nat, now: int)
    requires n <= |ips| && UpdateAll(l, spec, ips[..n], now).Failed?
    ensures UpdateAll(l, spec, ips, now).Failed?
    decreases |ips| - n
  {
    if n == |ips| {
      assert ips[..n] == ips;
    } else {
      assert ips[..n + 1][..n] == ips[..n];
      UpdateAllFails(l, spec, ips, n + 1, now);
    }
  }

  lemma UpdateAllStops(l: Ledger, l1: Ledger, spec: Spec, ips: seq<string>, n: nat, now: int)
    requires n < |ips| && UpdateAll(l, spec, ips[..n], now) == Done(l1) && UpdateOne(l1, spec, ips[n], now).Failed?
    ensures UpdateAll(l, spec, ips, now).Failed?
  {
    assert ips[..n + 1][..n] == ips[..n];
    UpdateAllFails(l, spec, ips, n + 1, now);
  }

  lemma UpdateAllNext(l: Ledger, l1: Ledger, l2: Ledger, spec: Spec, ips: seq<string>, n: nat, now: int)
    requires n < |ips| && UpdateAll(l, spec, ips[..n], now) == Done(l1)
    requires UpdateOne(l1, spec, ips[n], now) == Done(l2)
    ensures UpdateAll(l, spec, ips[..n + 1], now) == Done(l2)
  {
    assert ips[..n + 1][..n] == ips[..n];
  }

  /** The entry Update leaves where it writes. */
  function Renewed(spec: Spec, was: IPInfo, now: int): IPInfo {
    IPInfo(WrittenStatus(spec), spec.cluster, if spec.lease > 0 then Wrap64(now + spec.lease) else was.lease)
  }

  lemma UpdateOneEntry(l: Ledger, spec: Spec, ip: string, now: int, key: string, digit: string)
    requires UpdateOne(l, spec, ip, now).Done?
    ensures var l' := UpdateOne(l, spec, ip, now).ledger;
            && EntryAt(l', key, digit) == (if key == spec.key && GetLastIPDigit(ip) == Some(digit)
                                           then Renewed(spec, EntryAt(l, key, digit), now) else EntryAt(l, key, digit))
            && (Listed(l', key, digit) <==> Listed(l, key, digit))
            && (key == spec.key && GetLastIPDigit(ip) == Some(digit) ==> Listed(l, key, digit))
  {
    if GetLastIPDigit(ip).Some? {
      EditSets(l, spec, ip);
    }
  }

  /** A successful Update rewrites exactly the host parts its addresses read back as, each of them
      listed, and no other entry. */
  lemma {:induction false} UpdateAllEntry(l: Ledger, spec: Spec, ips: seq<string>, now: int, key: string, digit: string)
    requires UpdateAll(l, spec, ips, now).Done?
    ensures var l' := UpdateAll(l, spec, ips, now).ledger;
            && EntryAt(l', key, digit) == (if key == spec.key && WrittenIn(ips, digit)
                                           then Renewed(spec, EntryAt(l, key, digit), now) else EntryAt(l, key, digit))
            && (Listed(l', key, digit) <==> Listed(l, key, digit))
            && (key == spec.key && WrittenIn(ips, digit) ==> Listed(l, key, digit))
  {
    if ips == [] {
    } else {
      var n := |ips| - 1;
      UpdateAllEntry(l, spec, ips[..n], now, key, digit);
      UpdateOneEntry(UpdateAll(l, spec, ips[..n], now).ledger, spec, ips[n], now, key, digit);
      WrittenNext(ips, digit);
    }
  }

  /** Update succeeds exactly when the server lists every host part it writes, and the cluster is named. */
  lemma {:induction false} UpdateSucceedsExactly(l: Ledger, spec: Spec, ips: seq<string>, now: int)
    ensures UpdateAll(l, spec, ips, now).Done? <==>
            forall d :: WrittenIn(ips, d) ==> spec.cluster != "" && Listed(l, spec.key, d)
  {
    if ips == [] {
    } else {
      var n := |ips| - 1;
      UpdateSucceedsExactly(l, spec, ips[..n], now);
      WrittenEach(ips);
      if UpdateAll(l, spec, ips[..n], now).Done? {
        var front := UpdateAll(l, spec, ips[..n], now).ledger;
        OneSucceedsExactly(front, spec, ips[n], now);
        forall d ensures Listed(front, spec.key, d) <==> Listed(l, spec.key, d) {
          UpdateAllEntry(l, spec, ips[..n], now, spec.key, d);
        }
      }
    }
  }

  lemma OneSucceedsExactly(l: Ledger, spec: Spec, ip: string, now: int)
    ensures UpdateOne(l, spec, ip, now).Done? <==>
            (GetLastIPDigit(ip).Some? ==> spec.cluster != "" && Listed(l, spec.key, GetLastIPDigit(ip).value))
  {
    if GetLastIPDigit(ip).Some? {
      LastDigitPlain(ip);
      PlainPathDigit(spec.key, GetLastIPDigit(ip).value);
      Effects.EditedBusy(OrAssigned(spec.status), spec.createDNS);
    }
  }

  // ---- recorded addresses and what is read back of them ---------------------------------

  /** A recorded address of the network, and the host part it is the address of. */
  predicate OfNetwork(ip: string, key: string) {
    HasPrefix(ip, key + ".")
  }

  function OwnDigit(ip: string, key: string): string {
    PathDigit(key, ip)
  }

  lemma OwnFull(ip: string, key: string)
    requires OfNetwork(ip, key)
    ensures ip == Full(key, OwnDigit(ip, key))
  {
  }

  /** The address reads back as its own host part. */
  predicate InNetwork(ip: string, key: string) {
    GetLastIPDigit(ip).Some? && ip == Full(key, GetLastIPDigit(ip).value)
  }

  ghost predicate AllOfNetwork(ips: seq<string>, key: string) {
    forall i :: 0 <= i < |ips| ==> OfNetwork(ips[i], key)
  }

  ghost predicate AllInNetwork(ips: seq<string>, key: string) {
    forall i :: 0 <= i < |ips| ==> InNetwork(ips[i], key)
  }

  /** Every recorded host part is one that is written. */
  ghost predicate OwnWritten(ips: seq<string>, key: string) {
    forall i :: 0 <= i < |ips| ==> WrittenIn(ips, OwnDigit(ips[i], key))
  }

  lemma InNetworkOwn(ip: string, key: string)
    requires InNetwork(ip, key)
    ensures OfNetwork(ip, key) && GetLastIPDigit(ip) == Some(OwnDigit(ip, key))
  {
  }

  /** Recorded addresses of a network read back as themselves exactly when there are three segments or
      more in its key and no dot in their host parts. */
  lemma InNetworkExactly(ip: string, key: string)
    requires OfNetwork(ip, key)
    ensures InNetwork(ip, key) <==> '.' !in OwnDigit(ip, key) && |Split(key, '.')| >= 3
  {
    OwnFull(ip, key);
    WrittenWhereOffered(key, OwnDigit(ip, key));
    if InNetwork(ip, key) { InNetworkOwn(ip, key); }
  }

  /** Update writes every recorded host part if and only if every recorded address reads back as its own. */
  lemma OwnWrittenExactly(ips: seq<string>, key: string)
    requires AllOfNetwork(ips, key)
    ensures OwnWritten(ips, key) <==> AllInNetwork(ips, key)
  {
    if AllInNetwork(ips, key) {
      forall i | 0 <= i < |ips| ensures WrittenIn(ips, OwnDigit(ips[i], key)) {
        InNetworkOwn(ips[i], key);
      }
    }
    if OwnWritten(ips, key) {
      forall i | 0 <= i < |ips| ensures InNetwork(ips[i], key) {
        OwnWrittenRead(ips, key, i);
      }
    }
  }

  lemma OwnWrittenRead(ips: seq<string>, key: string, i: nat)
    requires AllOfNetwork(ips, key) && OwnWritten(ips, key) && i < |ips|
    ensures InNetwork(ips[i], key)
  {
    var digit := OwnDigit(ips[i], key);
    assert WrittenIn(ips, digit);
    var j :| 0 <= j < |ips| && GetLastIPDigit(ips[j]) == Some(digit);
    var other := OwnDigit(ips[j], key);
    assert WrittenIn(ips, other);
    WrittenPlain(ips, digit);
    WrittenPlain(ips, other);
    OwnFull(ips[j], key);
    LastDigitOfFull(key, other);
    InNetworkExactly(ips[i], key);
  }

  // ---- which recorded addresses are refreshed ---------------------------------------------

  /** Nothing but the host parts the addresses read back as has changed. */
  ghost predicate OnlyTouches(l: Ledger, l': Ledger, key: string, ips: seq<string>) {
    forall k, d :: !(k == key && WrittenIn(ips, d)) ==>
      EntryAt(l', k, d) == EntryAt(l, k, d) && (Listed(l', k, d) <==> Listed(l, k, d))
  }

  lemma TouchesMore(l: Ledger, l': Ledger, key: string, ips: seq<string>, n: nat)
    requires n < |ips| && OnlyTouches(l, l', key, ips[..n])
    ensures OnlyTouches(l, l', key, ips[..n + 1])
  {
    var more := ips[..n + 1];
    assert more[..n] == ips[..n];
    WrittenEach(more);
  }

  lemma TouchesNext(l: Ledger, l1: Ledger, l2: Ledger, key: string, ips: seq<string>, n: nat)
    requires n < |ips| && OnlyTouches(l, l1, key, ips[..n + 1]) && OnlyTouches(l1, l2, key, [ips[n]])
    ensures OnlyTouches(l, l2, key, ips[..n + 1])
  {
    var more := ips[..n + 1];
    assert more[..n] == ips[..n];
    WrittenEach(more);
    WrittenEach([ips[n]]);
    assert [ips[n]][..0] == [];
  }

  lemma WrittenRefreshed(l: Ledger, spec: Spec, ips: seq<string>, from: int, to: int, digit: string)
    requires AllRefreshed(l, spec, ips, from, to) && WrittenIn(ips, digit)
    ensures Refreshed(l, spec, digit, from, to)
  {
    var i :| 0 <= i < |ips| && GetLastIPDigit(ips[i]) == Some(digit);
  }

  /** From any ledger, a recorded address is refreshed afterwards if and only if its host part is
      written, or it was so before. */
  lemma RefreshedExactly(l: Ledger, spec: Spec, ips: seq<string>, now: int, ip: string)
    requires UpdateAll(l, spec, ips, now).Done? && InInt64(now + spec.lease)
    ensures Refreshed(UpdateAll(l, spec, ips, now).ledger, spec, OwnDigit(ip, spec.key), now, now) <==>
            WrittenIn(ips, OwnDigit(ip, spec.key)) || Refreshed(l, spec, OwnDigit(ip, spec.key), now, now)
  {
    UpdateAllEntry(l, spec, ips, now, spec.key, OwnDigit(ip, spec.key));
  }

  ghost predicate RecordedRefreshed(l: Ledger, spec: Spec, ips: seq<string>, now: int) {
    forall i :: 0 <= i < |ips| ==> Refreshed(l, spec, OwnDigit(ips[i], spec.key), now, now)
  }

  /** Whatever the ledger, a successful Update leaves every recorded address refreshed. */
  ghost predicate AlwaysRefreshes(spec: Spec, ips: seq<string>) {
    forall l: Ledger, now: int ::
      0 <= now && InInt64(now + spec.lease) && UpdateAll(l, spec, ips, now).Done? ==>
        RecordedRefreshed(UpdateAll(l, spec, ips, now).ledger, spec, ips, now)
  }

  /** Every host part the addresses name or are read back as. */
  function NamedDigits(ips: seq<string>, key: string): set<string> {
    Written(ips) + set i | 0 <= i < |ips| :: OwnDigit(ips[i], key)
  }

  /** A network of those host parts, all with one entry. */
  function Uniform(spec: Spec, digits: set<string>, info: IPInfo): Ledger {
    map[spec.key := map d | d in digits :: info]
  }

  lemma UniformSucceeds(spec: Spec, ips: seq<string>, digits: set<string>, info: IPInfo, now: int)
    requires spec.cluster != "" && Written(ips) <= digits
    ensures UpdateAll(Uniform(spec, digits, info), spec, ips, now).Done?
  {
    UpdateSucceedsExactly(Uniform(spec, digits, info), spec, ips, now);
  }

  /** Update leaves every recorded address held with the wanted status and freshly leased, from every
      ledger, if and only if every recorded address reads back as its own host part. */
  lemma AlwaysRefreshesExactly(spec: Spec, ips: seq<string>)
    requires spec.cluster != "" && AllOfNetwork(ips, spec.key) && InInt64(spec.lease)
    ensures AlwaysRefreshes(spec, ips) <==> AllInNetwork(ips, spec.key)
  {
    OwnWrittenExactly(ips, spec.key);
    if OwnWritten(ips, spec.key) {
      forall l: Ledger, now: int | 0 <= now && InInt64(now + spec.lease) && UpdateAll(l, spec, ips, now).Done?
        ensures RecordedRefreshed(UpdateAll(l, spec, ips, now).ledger, spec, ips, now)
      {
        forall i | 0 <= i < |ips|
          ensures Refreshed(UpdateAll(l, spec, ips, now).ledger, spec, OwnDigit(ips[i], spec.key), now, now)
        {
          RefreshedExactly(l, spec, ips, now, ips[i]);
        }
      }
    } else {
      var i :| 0 <= i < |ips| && !WrittenIn(ips, OwnDigit(ips[i], spec.key));
      var l := Uniform(spec, NamedDigits(ips, spec.key), BLANK);
      UniformSucceeds(spec, ips, NamedDigits(ips, spec.key), BLANK, 0);
      Effects.EditedBusy(OrAssigned(spec.status), spec.createDNS);
      RefreshedExactly(l, spec, ips, 0, ips[i]);
      assert !Refreshed(l, spec, OwnDigit(ips[i], spec.key), 0, 0);
    }
  }

  // ---- how it fails -------------------------------------------------------------------

  /** A dotted host part `a.b`: Update takes `b`, whoever holds it, leaves `a.b` as it was, and once the
      lease of `a.b` has run out the reclaimer clears it. */
  lemma DottedNeverRenewed(l: Ledger, spec: Spec, a: string, b: string, now: int, later: int)
    requires '.' !in b && |Split(spec.key, '.')| >= 2 && spec.cluster != ""
    requires Listed(l, spec.key, b)
    ensures var own, r := a + "." + b, UpdateAll(l, spec, [Full(spec.key, a + "." + b)], now);
            && r.Done?
            && EntryAt(r.ledger, spec.key, b).cluster == spec.cluster
            && EntryAt(r.ledger, spec.key, own) == EntryAt(l, spec.key, own)
            && (Reclaimer.Expired(EntryAt(l, spec.key, own), later) ==>
                 EntryAt(Reclaimer.Reclaim(r.ledger, later), spec.key, own) == BLANK)
  {
    var own, ips := a + "." + b, [Full(spec.key, a + "." + b)];
    ReadBehindLastDot(spec.key, a, b);
    assert ips[0] == Full(spec.key, own) && WrittenIn(ips, b);
    assert forall d :: WrittenIn(ips, d) ==> d == b;
    UpdateSucceedsExactly(l, spec, ips, now);
    UpdateAllEntry(l, spec, ips, now, spec.key, b);
    UpdateAllEntry(l, spec, ips, now, spec.key, own);
    assert '.' in own;
  }

  /** Addresses of a key of fewer than three segments, without dots in their host parts: Update succeeds
      and does nothing. */
  lemma {:induction false} ShortKeyNeverRenewed(l: Ledger, spec: Spec, ips: seq<string>, now: int)
    requires AllOfNetwork(ips, spec.key) && |Split(spec.key, '.')| < 3
    requires forall i :: 0 <= i < |ips| ==> '.' !in OwnDigit(ips[i], spec.key)
    ensures UpdateAll(l, spec, ips, now) == Done(l)
  {
    if ips == [] {
    } else {
      var n := |ips| - 1;
      ShortKeyNeverRenewed(l, spec, ips[..n], now);
      OwnFull(ips[n], spec.key);
      LastDigitOfFull(spec.key, OwnDigit(ips[n], spec.key));
    }
  }
}

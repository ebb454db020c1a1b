/** What Create takes on the server: free addresses, each as it was asked for, and enough of them wherever
    there are. */
module Reserving {
  import opened Text
  import opened Decimal
  import opened Address
  import opened Ledgers
  import opened Operations
  import opened Assignment
  import opened Updating
  import opened Listings
  import Allocate
  import Decisions
  import Handout

  /** A reserve of any address of the pool. */
  function ReserveOp(key: string, cluster: string, status: string, createDNS: bool, duration: int, choice: string): Op {
    Reserve(key, cluster, status, createDNS, duration, "", false, choice)
  }

  /** The answer names an address that was not held before and is now. */
  ghost predicate TookOne(before: set<string>, after: set<string>, key: string, ip: string) {
    exists d :: d !in before && d in after && ip == Full(key, d)
  }

  lemma ReserveGrows(l: Ledger, now: int, op: Op)
    requires op.Reserve? && op.ip == "" && Possible(op, l) && ReserveOutcome(l, now, op).Commit?
    ensures var l' := ReserveOutcome(l, now, op).ledger;
            op.choice !in Holdings(l, op.key, op.cluster) &&
            Holdings(l', op.key, op.cluster) == Holdings(l, op.key, op.cluster) + {op.choice}
  {
    var l' := ReserveOutcome(l, now, op).ledger;
    Handout.GrantedBusy(op.status, op.createDNS);
    assert op.choice in l[op.key] && IsFree(l[op.key][op.choice]);
  }

  /** How many addresses are wanted; none given means one. */
  function Wanted(spec: Spec): int {
    if spec.count == 0 then 1 else spec.count
  }

  /** `ips` are `n` distinct addresses of held host parts. */
  ghost predicate RecordsHeld(ips: seq<string>, n: int, key: string, held: set<string>) {
    && |ips| == n
    && (forall i, j :: 0 <= i < j < |ips| ==> ips[i] != ips[j])
    && forall i :: 0 <= i < |ips| ==> Allocate.AddressOf(ips[i], key, held)
  }

  lemma NamesRecord(ips: seq<string>, hs: seq<string>, key: string, held: set<string>)
    requires NamesAll(ips, hs, key) && Allocate.Elements(hs) <= held
    ensures RecordsHeld(ips, |ips|, key, held)
  {
    NamesDistinct(ips, hs, key);
    forall i | 0 <= i < |ips| ensures Allocate.AddressOf(ips[i], key, held) {
      assert hs[i] in Allocate.Elements(hs) && ips[i] == Full(key, hs[i]);
    }
  }

  /** The status of an address that is taken: the one asked for, marked exactly if a record is. */
  function TakenStatus(spec: Spec): string {
    var wanted := if spec.status == "" then "ASSIGNED" else spec.status;
    if spec.createDNS || HasSuffix(wanted, ":DNS") then Decisions.Unmarked(wanted) + ":DNS" else wanted
  }

  predicate Carries(e: IPInfo, spec: Spec, from: int, to: int) {
    && e.cluster == spec.cluster && e.status == TakenStatus(spec)
    && (if spec.lease > 0 then LeaseWithin(e.lease, from, to, spec.lease) else e.lease == 0)
  }

  /** An entry is as it was, or was free and now carries what was asked for. */
  predicate FillsEntry(l: Ledger, l': Ledger, spec: Spec, from: int, to: int, key: string, digit: string) {
    var was, e := EntryAt(l, key, digit), EntryAt(l', key, digit);
    && (Listed(l', key, digit) <==> Listed(l, key, digit))
    && (e == was || (key == spec.key && Listed(l, key, digit) && was.status == "" && Carries(e, spec, from, to)))
  }

  /** Free addresses of the network are taken, and nothing else changes. */
  ghost predicate Fills(l: Ledger, l': Ledger, spec: Spec, from: int, to: int) {
    forall k, d :: FillsEntry(l, l', spec, from, to, k, d)
  }

  lemma FillsSame(l: Ledger, spec: Spec, from: int, to: int)
    ensures Fills(l, l, spec, from, to)
  {
  }

  lemma FillsThen(a: Ledger, b: Ledger, c: Ledger, spec: Spec, from: int, mid: int, to: int)
    requires Fills(a, b, spec, from, mid) && Fills(b, c, spec, mid, to) && from <= mid <= to
    ensures Fills(a, c, spec, from, to)
  {
    forall k, d ensures FillsEntry(a, c, spec, from, to, k, d) {
      assert FillsEntry(a, b, spec, from, mid, k, d) && FillsEntry(b, c, spec, mid, to, k, d);
      TakenBusy(spec);
    }
  }

  lemma TakenBusy(spec: Spec)
    ensures TakenStatus(spec) != ""
  {
  }

  /** One reserve takes the pick, and nothing else. */
  lemma ReserveFills(l: Ledger, now: int, spec: Spec, op: Op)
    requires op.Reserve?
    requires op == ReserveOp(spec.key, spec.cluster, OrAssigned(spec.status), spec.createDNS, spec.lease, op.choice)
    requires Possible(op, l) && ReserveOutcome(l, now, op).Commit?
    ensures var l' := ReserveOutcome(l, now, op).ledger;
            && Fills(l, l', spec, now, now)
            && op.key in l && op.key in l' && op.choice in Allocate.FreeDigits(l[op.key])
            && Allocate.FreeDigits(l'[op.key]) == Allocate.FreeDigits(l[op.key]) - {op.choice}
  {
    var l' := ReserveOutcome(l, now, op).ledger;
    Decisions.OrAssignedIs(spec.status);
    Decisions.GrantedIs(OrAssigned(spec.status), spec.createDNS);
    TakenBusy(spec);
    var e := IPInfo(TakenStatus(spec), spec.cluster, LeaseUntil(now, spec.lease));
    assert l' == Put(l, op.key, op.choice, e);
    forall k, d ensures FillsEntry(l, l', spec, now, now, k, d) {
      assert EntryAt(l', k, d) == if k == op.key && d == op.choice then e else EntryAt(l, k, d);
    }
  }

  /** Each address that is newly held was free and carries what was asked for. */
  lemma NewlyHeld(l: Ledger, l': Ledger, spec: Spec, from: int, to: int, digit: string)
    requires Fills(l, l', spec, from, to)
    requires digit in Holdings(l', spec.key, spec.cluster) && digit !in Holdings(l, spec.key, spec.cluster)
    ensures Listed(l, spec.key, digit) && IsFree(l[spec.key][digit])
    ensures Carries(EntryAt(l', spec.key, digit), spec, from, to)
  {
    assert FillsEntry(l, l', spec, from, to, spec.key, digit);
  }

  /** The network can give `n` addresses; "" is no host part a pick can name. */
  predicate CanGive(l: Ledger, key: string, n: int) {
    n <= 0 || (key in l && |Allocate.FreeDigits(l[key])| >= n && "" !in Allocate.FreeDigits(l[key]))
  }

  /** The network is listed, and what the cluster holds and what is free make up the wanted number. */
  predicate Suffices(l: Ledger, spec: Spec) {
    && spec.count >= 0 && spec.key in l
    && |Holdings(l, spec.key, spec.cluster)| + |Allocate.FreeDigits(l[spec.key])| >= Wanted(spec)
  }

  /** The cluster is named, and "" is no free host part of its network. */
  predicate Promising(l: Ledger, spec: Spec) {
    spec.cluster != "" && (spec.key in l ==> "" !in Allocate.FreeDigits(l[spec.key]))
  }

  lemma SurveyGives(l: Ledger, spec: Spec, count: nat)
    ensures Promising(l, spec) && spec.key in l &&
            |Holdings(l, spec.key, spec.cluster)| + |Allocate.FreeDigits(l[spec.key])| >= count ==>
              CanGive(l, spec.key, count - |Holdings(l, spec.key, spec.cluster)|)
  {
  }

  /** A reserve that reached the server or not, over a ledger nobody else changes. */
  lemma ReservedOnce(start: Ledger, l: Ledger, l': Ledger, spec: Spec, choice: string, from: int, t: int, now: int)
    requires Fills(start, l, spec, from, t) && from <= t <= now
    requires var op := ReserveOp(spec.key, spec.cluster, OrAssigned(spec.status), spec.createDNS, spec.lease, choice);
             var o := ReserveOutcome(l, now, op);
             l' == l || (Possible(op, l) && o.Commit? && l' == o.ledger)
    ensures Fills(start, l', spec, from, now)
  {
    var op := ReserveOp(spec.key, spec.cluster, OrAssigned(spec.status), spec.createDNS, spec.lease, choice);
    if l' != l {
      ReserveFills(l, now, spec, op);
      FillsThen(start, l, l', spec, from, t, now);
    } else {
      FillsThen(start, l, l, spec, from, t, now);
    }
  }

  /** A network that can give `n` gives one, and can then give the rest. */
  lemma ReservedSmoothly(l: Ledger, spec: Spec, choice: string, now: int, n: int)
    requires spec.cluster != "" && n >= 1 && CanGive(l, spec.key, n)
    requires Possible(ReserveOp(spec.key, spec.cluster, OrAssigned(spec.status), spec.createDNS, spec.lease, choice), l)
    ensures var op := ReserveOp(spec.key, spec.cluster, OrAssigned(spec.status), spec.createDNS, spec.lease, choice);
            var o := ReserveOutcome(l, now, op);
            o.Commit? && CanGive(o.ledger, spec.key, n - 1)
  {
    var op := ReserveOp(spec.key, spec.cluster, OrAssigned(spec.status), spec.createDNS, spec.lease, choice);
    assert choice != "";
    ReserveFills(l, now, spec, op);
  }

  /** The status fields a successful Create fills in. */
  predicate CreatedStatus(before: Status, s: Status, spec: Spec, now: int) {
    && s.ips != [] && s.ip == s.ips[0] && s.name == spec.cluster + "/" + spec.key
    && s.lease == (if spec.lease > 0 then Wrap64(now + spec.lease) else before.lease)
    && s.fqdn == before.fqdn && s.available == before.available
  }

  lemma FirstNames(ips: seq<string>, hs: seq<string>, key: string, n: nat)
    requires NamesAll(ips, hs, key) && n <= |ips|
    ensures NamesAll(ips[..n], hs[..n], key) && Allocate.Elements(hs[..n]) <= Allocate.Elements(hs)
  {
  }

  lemma NextName(ips: seq<string>, hs: seq<string>, key: string, before: set<string>, after: set<string>, ip: string)
    returns (more: seq<string>)
    requires NamesAll(ips, hs, key) && Allocate.Elements(hs) <= before <= after && TookOne(before, after, key, ip)
    ensures NamesAll(ips + [ip], more, key) && Allocate.Elements(more) <= after
  {
    var d :| d !in before && d in after && ip == Full(key, d);
    more := hs + [d];
    assert forall i :: 0 <= i < |hs| ==> hs[i] in Allocate.Elements(hs);
    assert Allocate.Elements(more) == Allocate.Elements(hs) + {d};
  }
}

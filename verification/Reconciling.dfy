/** Create, Update and Observe against a server that others write to, that fails, and whose replies
    get lost. */
module Reconciling {
  import opened Text
  import opened Decimal
  import opened Address
  import opened Ledgers
  import opened Operations
  import opened Assignment
  import opened LedgerWriting
  import opened Names
  import opened Updating
  import opened Listings
  import opened Reserving
  import Allocate
  import Handlers

  /** What happens around one call: others may first change the ledger, `late` earlier calls of the same
      client that it gave up on take effect, time passes, and the call or its answer may be lost. */
  datatype Visit = Visit(others: Option<Ledger>, late: nat, wait: nat, fate: Fate, dnsOk: bool)

  /** How many late calls took effect over a stretch of calls. */
  ghost function Late(visits: nat -> Visit, from: nat, to: nat): nat {
    if to <= from then 0 else Late(visits, from, to - 1) + visits(to - 1).late
  }

  lemma LateAfter(visits: nat -> Visit, first: nat, to: nat)
    requires first < to
    ensures Late(visits, first, to) == visits(first).late + Late(visits, first + 1, to)
  {
    LateSplit(visits, first, first + 1, to);
  }

  lemma {:induction false} LateSplit(visits: nat -> Visit, a: nat, b: nat, c: nat)
    requires a <= b <= c
    ensures Late(visits, a, c) == Late(visits, a, b) + Late(visits, b, c)
  {
    if c > b {
      LateSplit(visits, a, b, c - 1);
    }
  }

  /** Others may do anything that neither gives the cluster an address nor takes one from it; each late
      call may give it one. */
  function Left(l: Ledger, visit: Visit, key: string, cluster: string): (r: Ledger)
    ensures GrewBy(Holdings(l, key, cluster), Holdings(r, key, cluster), visit.late)
  {
    if visit.others.Some? && GrewBy(Holdings(l, key, cluster), Holdings(visit.others.value, key, cluster), visit.late)
    then visit.others.value else l
  }

  /** Nothing is lost, and at most `n` more are held. */
  predicate GrewBy(before: set<string>, after: set<string>, n: nat) {
    before <= after && |after| <= |before| + n
  }

  /** The server, seen by the client of one assignment. */
  class Clusterbook {
    const key: string
    const cluster: string
    const zone: string
    const visits: nat -> Visit
    var ledger: Ledger
    var clock: int
    var calls: nat

    constructor (key: string, cluster: string, zone: string, visits: nat -> Visit, ledger: Ledger, clock: int)
      ensures this.key == key && this.cluster == cluster && this.zone == zone && this.visits == visits
      ensures this.ledger == ledger && this.clock == clock && calls == 0
    {
      this.key := key;
      this.cluster := cluster;
      this.zone := zone;
      this.visits := visits;
      this.ledger := ledger;
      this.clock := clock;
      calls := 0;
    }

    function Held(): set<string>
      reads this
    {
      Holdings(ledger, key, cluster)
    }

    method Arrive() returns (visit: Visit)
      modifies this`ledger, this`clock, this`calls
      ensures visit == visits(old(calls)) && calls == old(calls) + 1
      ensures clock == old(clock) + visit.wait
      ensures ledger == Left(old(ledger), visit, key, cluster)
    {
      visit := visits(calls);
      ledger := Left(ledger, visit, key, cluster);
      clock := clock + visit.wait;
      calls := calls + 1;
    }

    method GetNetworkIPs() returns (listing: Listing)
      modifies this`ledger, this`clock, this`calls
      ensures GrewBy(old(Held()), Held(), visits(old(calls)).late)
      ensures clock == old(clock) + visits(old(calls)).wait && calls == old(calls) + 1
      ensures ledger == Left(old(ledger), visits(old(calls)), key, cluster)
      ensures Answers(listing, ledger, key, zone)
      ensures listing.ListFailed? <==> !visits(old(calls)).fate.Served?
      ensures listing.Missing? ==> key !in ledger || ledger[key] == map[]
      ensures listing.Entries? ==> ledger[key] != map[]
    {
      var visit := Arrive();
      if !visit.fate.Served? {
        return ListFailed;
      }
      listing := ListNetwork(ledger, key, zone);
    }

    /** The address, or an error; both when only the record failed. What the server does is what a reserve
        of any address does over the ledger that others left, with some pick. */
    method ReserveIP(status: string, createDNS: bool, duration: int)
      returns (ip: string, ok: bool, ghost choice: string)
      modifies this`ledger, this`clock, this`calls
      ensures clock == old(clock) + visits(old(calls)).wait && calls == old(calls) + 1
      ensures var visit := visits(old(calls));
              var left := Left(old(ledger), visit, key, cluster);
              var op := ReserveOp(key, cluster, status, createDNS, duration, choice);
              var o := ReserveOutcome(left, clock, op);
              && (!visit.fate.Dropped? ==> Possible(op, left))
              && ledger == (if !visit.fate.Dropped? && o.Commit? then o.ledger else left)
              && ip == (if visit.fate.Served? && o.Commit? then Full(key, choice) else "")
              && (ok <==> visit.fate.Served? && o.Commit? && (o.publish.None? || visit.dnsOk))
      ensures ip != "" ==> TookOne(old(Held()), Held(), key, ip)
      ensures GrewBy(old(Held()), Held(), visits(old(calls)).late + 1)
    {
      var visit := Arrive();
      if visit.fate.Dropped? {
        return "", false, "";
      }
      var handler := new Handlers.Handler(ledger, clock);
      var answer, picked := handler.Reserve(key, cluster, status, createDNS, duration, "", false);
      choice := picked;
      ghost var op := ReserveOp(key, cluster, status, createDNS, duration, choice);
      if !answer.Proceed? {
        return "", false, choice;
      }
      ReserveGrows(ledger, clock, op);
      ledger := handler.ipList;
      if visit.fate.Unanswered? {
        return "", false, choice;
      }
      ip := key + "." + picked;
      ok := !WantsDNS(createDNS, OrAssigned(status)) || visit.dnsOk;
    }

    method EditIP(digit: string, status: string, createDNS: bool) returns (ok: bool)
      modifies this`ledger, this`clock, this`calls
      ensures clock == old(clock) + visits(old(calls)).wait && calls == old(calls) + 1
      ensures var visit := visits(old(calls));
              var left := Left(old(ledger), visit, key, cluster);
              var o := EditOutcome(left, Op.EditIP(key, digit, cluster, status, createDNS));
              && (ok <==> visit.fate.Served? && o.Commit?)
              && ledger == (if !visit.fate.Dropped? && o.Commit? then o.ledger else left)
    {
      var visit := Arrive();
      if visit.fate.Dropped? {
        return false;
      }
      var handler := new Handlers.Handler(ledger, clock);
      var answer := handler.EditIP(key, digit, cluster, status, createDNS);
      if !answer.Proceed? {
        return false;
      }
      ledger := handler.ipList;
      ok := visit.fate.Served?;
    }

    method RenewLease(ip: string, duration: int) returns (ok: bool)
      modifies this`ledger, this`clock, this`calls
      ensures clock == old(clock) + visits(old(calls)).wait && calls == old(calls) + 1
      ensures var visit := visits(old(calls));
              var left := Left(old(ledger), visit, key, cluster);
              var o := RenewOutcome(left, clock, Op.Renew(key, ip, duration));
              && (ok <==> visit.fate.Served? && o.Commit?)
              && ledger == (if !visit.fate.Dropped? && o.Commit? then o.ledger else left)
    {
      var visit := Arrive();
      if visit.fate.Dropped? {
        return false;
      }
      var handler := new Handlers.Handler(ledger, clock);
      var answer := handler.RenewLease(key, ip, duration);
      if !answer.Proceed? {
        return false;
      }
      ledger := handler.ipList;
      ok := visit.fate.Served?;
    }
  }

  // ---- Create -----------------------------------------------------------------------

  datatype Creation = Created | CreateFailed | CreatePanicked

  function Max(a: int, b: int): int {
    if a < b then b else a
  }

  lemma BoundedOver(before: nat, listed: nat, after: nat, wanted: int, late: nat, later: nat)
    requires listed <= before + late && after <= Max(listed, wanted) + later
    ensures after <= Max(before, wanted) + late + later
  {
  }

  /** Nobody else writes, every call is served, and its record is made. */
  ghost predicate Smooth(visits: nat -> Visit) {
    Quiet(visits) && forall n :: visits(n).fate.Served? && visits(n).dnsOk
  }

  // ---- Update -----------------------------------------------------------------------

  ghost predicate Quiet(visits: nat -> Visit) {
    forall n :: visits(n).others.None?
  }

  /** Nobody else writes and no time passes. */
  ghost predicate Still(visits: nat -> Visit) {
    Quiet(visits) && forall n :: visits(n).wait == 0
  }

  /** Nobody else writes, no time passes and every call is served. */
  ghost predicate Calm(visits: nat -> Visit) {
    Still(visits) && forall n :: visits(n).fate.Served?
  }

  lemma OneKeepsNames(l0: Ledger, l1: Ledger, l2: Ledger, spec: Spec, ip: string, now: int)
    requires GetLastIPDigit(ip).Some? && WellNamed(l0) && GoodSpec(spec)
    requires var o := EditOutcome(l0, EditOp(spec, GetLastIPDigit(ip).value)); o.Commit? && l1 == o.ledger
    requires if spec.lease > 0 then var o := RenewOutcome(l1, now, Op.Renew(spec.key, ip, spec.lease));
                                    o.Commit? && l2 == o.ledger
             else l2 == l1
    ensures WellNamed(l2)
  {
    EditSets(l0, spec, ip);
    EditKeepsNames(EditOp(spec, GetLastIPDigit(ip).value), l0);
    if spec.lease > 0 {
      RenewKeepsNames(Op.Renew(spec.key, ip, spec.lease), now, l1);
    }
  }

  predicate GoodSpec(spec: Spec) {
    GoodCluster(spec.cluster) && GoodStatus(WrittenStatus(spec))
  }

  class External {
    const client: Clusterbook

    constructor (client: Clusterbook)
      ensures this.client == client
    {
      this.client := client;
    }

    /** One attempt. However it ends, the cluster holds what it held and never more than it held or
        was asked for, but for late calls of earlier attempts, one address each; on success exactly the
        wanted number of held addresses is recorded. With nobody else writing, only free addresses are
        taken, each as it was asked for. With every call served as well, it succeeds exactly when the
        network is listed and what is held and free suffices, and otherwise takes nothing. */
    method Create(cr: IPAssignment) returns (r: Creation)
      requires cr.spec.key == client.key && cr.spec.cluster == client.cluster
      modifies cr, client`ledger, client`clock, client`calls
      ensures old(client.Held()) <= client.Held()
      ensures client.calls >= old(client.calls) && client.clock >= old(client.clock)
      ensures |client.Held()| <= Max(|old(client.Held())|, Wanted(cr.spec)) +
                                 Late(client.visits, old(client.calls), client.calls)
      ensures r.Created? ==> RecordsHeld(cr.ips, Wanted(cr.spec), client.key, client.Held())
      ensures r.Created? ==> |cr.ips| == if cr.spec.count == 0 then 1 else cr.spec.count
      ensures r.Created? ==> CreatedStatus(old(cr.Now()), cr.Now(), cr.spec, client.clock)
      ensures !r.Created? ==> cr.Now() == old(cr.Now())
      ensures r.CreatePanicked? ==> cr.spec.count < 0
      ensures Quiet(client.visits) ==>
        Fills(old(client.ledger), client.ledger, cr.spec, old(client.clock), client.clock)
      ensures Smooth(client.visits) && Promising(old(client.ledger), cr.spec) ==>
        && (r.Created? <==> Suffices(old(client.ledger), cr.spec))
        && (!r.Created? ==> client.ledger == old(client.ledger))
    {
      var ips;
      ghost var hs;
      ips, r, hs := Gather(cr.spec);
      if !r.Created? {
        return;
      }
      NamesRecord(ips, hs, client.key, client.Held());
      FillIn(cr, ips);
    }

    /** The status fields of an assignment that was created. */
    method FillIn(cr: IPAssignment, ips: seq<string>)
      requires ips != []
      modifies cr
      ensures cr.ips == ips && CreatedStatus(old(cr.Now()), cr.Now(), cr.spec, client.clock)
    {
      cr.ips := ips;
      cr.ip := ips[0];
      if cr.spec.lease > 0 {
        cr.lease := Wrap64(client.clock + cr.spec.lease);
      }
      cr.name := cr.spec.cluster + "/" + cr.spec.key;
    }

    /** Takes what is held, and reserves what is still needed of the wanted number. */
    method Gather(p: Spec) returns (ips: seq<string>, r: Creation, ghost hs: seq<string>)
      requires p.cluster == client.cluster && p.key == client.key
      modifies client`ledger, client`clock, client`calls
      ensures old(client.Held()) <= client.Held()
      ensures client.calls >= old(client.calls) && client.clock >= old(client.clock)
      ensures |client.Held()| <= Max(|old(client.Held())|, Wanted(p)) +
                                 Late(client.visits, old(client.calls), client.calls)
      ensures r.Created? ==> NamesAll(ips, hs, client.key) && Allocate.Elements(hs) <= client.Held()
      ensures r.Created? ==> |ips| == Wanted(p) && ips != []
      ensures r.CreatePanicked? ==> p.count < 0
      ensures Quiet(client.visits) ==> Fills(old(client.ledger), client.ledger, p, old(client.clock), client.clock)
      ensures Smooth(client.visits) && Promising(old(client.ledger), p) ==>
        && (r.Created? <==> Suffices(old(client.ledger), p))
        && (!r.Created? ==> client.ledger == old(client.ledger))
    {
      var countIPs := p.count;
      if countIPs == 0 {
        countIPs := 1;
      }
      ghost var first, before, l, t := client.calls, |client.Held()|, client.ledger, client.clock;
      var failed;
      ips, failed, hs := Survey(p.cluster, countIPs);
      ghost var listed, mid := |client.Held()|, client.clock;
      LateAfter(client.visits, first, client.calls);
      FillsSame(l, p, t, mid);
      if failed.Some? {
        return ips, failed.value, hs;
      }
      SurveyGives(client.ledger, p, countIPs);
      var ok;
      ips, ok, hs := ReserveRest(p, ips, countIPs - |ips|, hs);
      LateAfter(client.visits, first, client.calls);
      BoundedOver(before, listed, |client.Held()|, Wanted(p), client.visits(first).late,
                  Late(client.visits, first + 1, client.calls));
      if Quiet(client.visits) {
        FillsThen(l, l, client.ledger, p, t, mid, client.clock);
      }
      r := if ok then Created else CreateFailed;
    }

    /** Lists the network, takes what is held of the wanted number, and checks that the rest is free. */
    method Survey(cluster: string, countIPs: int)
      returns (ips: seq<string>, failed: Option<Creation>, ghost hs: seq<string>)
      requires cluster == client.cluster && countIPs != 0
      modifies client`ledger, client`clock, client`calls
      ensures GrewBy(old(client.Held()), client.Held(), client.visits(old(client.calls)).late)
      ensures client.calls == old(client.calls) + 1 && client.clock >= old(client.clock)
      ensures Quiet(client.visits) ==> client.ledger == old(client.ledger)
      ensures failed.Some? ==> !failed.value.Created? && (failed.value.CreatePanicked? ==> countIPs < 0)
      ensures failed.None? ==> |ips| == (if |client.Held()| > countIPs then countIPs else |client.Held()|)
      ensures failed.None? ==> countIPs >= 0 && NamesAll(ips, hs, client.key)
      ensures failed.None? ==> Allocate.Elements(hs) <= client.Held()
      ensures failed.None? && |ips| < countIPs ==> Allocate.Elements(hs) == client.Held()
      ensures Smooth(client.visits) ==>
        (failed.None? <==> countIPs >= 0 && client.key in client.ledger &&
                           |client.Held()| + |Allocate.FreeDigits(client.ledger[client.key])| >= countIPs)
    {
      ips, hs := [], [];
      ghost var n := client.calls;
      var listing := client.GetNetworkIPs();
      assert Smooth(client.visits) ==> client.visits(n).fate.Served? && client.visits(n).others.None?;
      if listing.ListFailed? || listing.Missing? {
        return ips, Some(CreateFailed), hs;
      }
      var entries := listing.entries;
      var panicked;
      ips, panicked, hs := StartFrom(entries, cluster, countIPs);
      if panicked {
        return ips, Some(CreatePanicked), hs;
      }
      var free := CountFree(entries);
      ListedFree(entries, client.ledger, client.key, client.zone);
      failed := if free < countIPs - |ips| then Some(CreateFailed) else None;
    }

    /** What the cluster already holds, at most as much as is wanted. */
    method StartFrom(entries: seq<IPEntry>, cluster: string, countIPs: int)
      returns (ips: seq<string>, panicked: bool, ghost hs: seq<string>)
      requires cluster == client.cluster && Answers(Entries(entries), client.ledger, client.key, client.zone)
      ensures panicked <==> countIPs < 0
      ensures !panicked ==> |ips| == (if |client.Held()| > countIPs then countIPs else |client.Held()|)
      ensures !panicked ==> NamesAll(ips, hs, client.key) && Allocate.Elements(hs) <= client.Held()
      ensures !panicked && |ips| < countIPs ==> Allocate.Elements(hs) == client.Held()
    {
      panicked := false;
      var existing := HeldBy(entries, cluster);
      ips := AddressesOf(existing);
      hs := ListedHoldings(entries, client.ledger, client.key, client.zone, client.cluster);
      NamesDistinct(ips, hs, client.key);
      if |ips| > countIPs {
        if countIPs < 0 {
          return ips, true, hs;
        }
        FirstNames(ips, hs, client.key, countIPs);
        ips, hs := ips[..countIPs], hs[..countIPs];
      }
    }

    /** Reserves the addresses still needed, up to the first call that fails. */
    method ReserveRest(p: Spec, held: seq<string>, need: nat, ghost start: seq<string>)
      returns (ips: seq<string>, ok: bool, ghost hs: seq<string>)
      requires p.cluster == client.cluster && p.key == client.key
      requires NamesAll(held, start, client.key) && Allocate.Elements(start) <= client.Held()
      requires need > 0 ==> Allocate.Elements(start) == client.Held()
      modifies client`ledger, client`clock, client`calls
      ensures old(client.Held()) <= client.Held()
      ensures client.calls >= old(client.calls) && client.clock >= old(client.clock)
      ensures |client.Held()| <= Max(|old(client.Held())|, |held| + need) +
                                 Late(client.visits, old(client.calls), client.calls)
      ensures ok ==> NamesAll(ips, hs, client.key) && Allocate.Elements(hs) <= client.Held()
      ensures ok ==> |ips| == |held| + need
      ensures Quiet(client.visits) ==> Fills(old(client.ledger), client.ledger, p, old(client.clock), client.clock)
      ensures Smooth(client.visits) && p.cluster != "" && CanGive(old(client.ledger), p.key, need) ==> ok
    {
      var status := if p.status == "" then ASSIGNED else p.status;
      ips, hs := held, start;
      NamesDistinct(ips, hs, client.key);
      for i := 0 to need
        invariant |ips| == |held| + i && NamesAll(ips, hs, client.key)
        invariant old(client.Held()) <= client.Held() && Allocate.Elements(hs) <= client.Held()
        invariant client.calls == old(client.calls) + i && client.clock >= old(client.clock)
        invariant need == 0 ==> client.Held() == old(client.Held())
        invariant need > 0 ==> |client.Held()| <= |hs| + Late(client.visits, old(client.calls), client.calls)
        invariant Quiet(client.visits) ==>
          Fills(old(client.ledger), client.ledger, p, old(client.clock), client.clock)
        invariant Smooth(client.visits) && p.cluster != "" && CanGive(old(client.ledger), p.key, need) ==>
          CanGive(client.ledger, p.key, need - i)
      {
        ghost var before := client.Held();
        var ip;
        ip, ok := ReserveNext(p, status, old(client.ledger), old(client.clock), need - i);
        if !ok {
          return;
        }
        hs := NextName(ips, hs, client.key, before, client.Held(), ip);
        ips := ips + [ip];
      }
      ok := true;
    }

    /** One of them; `start` and `from` are the ledger and the time at which the loop began. */
    method ReserveNext(p: Spec, status: string, ghost start: Ledger, ghost from: int, ghost n: int)
      returns (ip: string, ok: bool)
      requires p.cluster == client.cluster && p.key == client.key && status == OrAssigned(p.status)
      requires from <= client.clock && (Quiet(client.visits) ==> Fills(start, client.ledger, p, from, client.clock))
      modifies client`ledger, client`clock, client`calls
      ensures client.calls == old(client.calls) + 1 && client.clock >= old(client.clock)
      ensures ok ==> TookOne(old(client.Held()), client.Held(), client.key, ip)
      ensures GrewBy(old(client.Held()), client.Held(), client.visits(old(client.calls)).late + 1)
      ensures Quiet(client.visits) ==> Fills(start, client.ledger, p, from, client.clock)
      ensures Smooth(client.visits) && p.cluster != "" && n >= 1 && CanGive(old(client.ledger), p.key, n) ==>
        ok && CanGive(client.ledger, p.key, n - 1)
    {
      ghost var l, t, first := client.ledger, client.clock, client.calls;
      ghost var choice;
      ip, ok, choice := client.ReserveIP(status, p.createDNS, p.lease);
      if Quiet(client.visits) {
        assert client.visits(first).others.None?;
        ReservedOnce(start, l, client.ledger, p, choice, from, t, client.clock);
        if Smooth(client.visits) && p.cluster != "" && n >= 1 && CanGive(l, p.key, n) {
          assert client.visits(first).fate.Served?;
          ReservedSmoothly(l, p, choice, client.clock, n);
        }
      }
    }

    /** Edits and renews the host part each recorded address reads back as, skipping addresses that read
        back as none. With nobody else writing, success means each of those is listed, held with the
        wanted status and freshly leased, and that no other entry has changed: also no recorded one that
        reads back as another or as none. With no time passing it is the loop of `UpdateAll`; with every
        call served as well, it succeeds exactly when that does. */
    method Update(cr: IPAssignment) returns (ok: bool)
      requires cr.spec.key == client.key && cr.spec.cluster == client.cluster
      modifies cr`lease, client`ledger, client`clock, client`calls
      ensures client.clock >= old(client.clock)
      ensures cr.lease == if ok && cr.spec.lease > 0 then Wrap64(client.clock + cr.spec.lease) else old(cr.lease)
      ensures ok && Quiet(client.visits) ==>
        && AllRefreshed(client.ledger, cr.spec, cr.ips, old(client.clock), client.clock)
        && OnlyTouches(old(client.ledger), client.ledger, cr.spec.key, cr.ips)
      ensures ok && Quiet(client.visits) && GoodSpec(cr.spec) && old(WellNamed(client.ledger)) ==>
        WellNamed(client.ledger)
      ensures ok && Still(client.visits) ==>
        UpdateAll(old(client.ledger), cr.spec, cr.ips, old(client.clock)) == Done(client.ledger)
      ensures Calm(client.visits) ==>
        (ok <==> UpdateAll(old(client.ledger), cr.spec, cr.ips, old(client.clock)).Done?)
    {
      for i := 0 to |cr.ips|
        invariant client.clock >= old(client.clock) && cr.lease == old(cr.lease)
        invariant Quiet(client.visits) ==>
          && AllRefreshed(client.ledger, cr.spec, cr.ips[..i], old(client.clock), client.clock)
          && OnlyTouches(old(client.ledger), client.ledger, cr.spec.key, cr.ips[..i])
        invariant Quiet(client.visits) && GoodSpec(cr.spec) && old(WellNamed(client.ledger)) ==>
          WellNamed(client.ledger)
        invariant Still(client.visits) ==>
          && client.clock == old(client.clock)
          && UpdateAll(old(client.ledger), cr.spec, cr.ips[..i], client.clock) == Done(client.ledger)
      {
        assert cr.ips[..i + 1] == cr.ips[..i] + [cr.ips[i]];
        if Quiet(client.visits) {
          TouchesMore(old(client.ledger), client.ledger, cr.spec.key, cr.ips, i);
        }
        ghost var before := client.ledger;
        var parts := Split(cr.ips[i], '.');
        if |parts| < 4 {
          if Still(client.visits) {
            UpdateAllNext(old(client.ledger), before, before, cr.spec, cr.ips, i, client.clock);
          }
          continue;
        }
        ok := UpdateOne(cr.spec, cr.ips[i], parts[|parts| - 1], cr.ips[..i], old(client.clock));
        if !ok {
          if Calm(client.visits) {
            UpdateAllStops(old(client.ledger), before, cr.spec, cr.ips, i, old(client.clock));
          }
          return;
        }
        if Quiet(client.visits) {
          TouchesNext(old(client.ledger), before, client.ledger, cr.spec.key, cr.ips, i);
        }
        if Still(client.visits) {
          UpdateAllNext(old(client.ledger), before, client.ledger, cr.spec, cr.ips, i, client.clock);
        }
      }
      assert cr.ips[..|cr.ips|] == cr.ips;
      if cr.spec.lease > 0 {
        cr.lease := Wrap64(client.clock + cr.spec.lease);
      }
      ok := true;
    }

    method UpdateOne(spec: Spec, ip: string, ipDigit: string, ghost done: seq<string>, ghost from: int)
      returns (ok: bool)
      requires spec.key == client.key && spec.cluster == client.cluster
      requires GetLastIPDigit(ip) == Some(ipDigit) && from <= client.clock
      requires Quiet(client.visits) ==> AllRefreshed(client.ledger, spec, done, from, client.clock)
      modifies client`ledger, client`clock, client`calls
      ensures client.clock >= old(client.clock)
      ensures ok && Quiet(client.visits) ==>
        && AllRefreshed(client.ledger, spec, done, from, client.clock)
        && Refreshed(client.ledger, spec, ipDigit, from, client.clock)
        && OnlyTouches(old(client.ledger), client.ledger, spec.key, [ip])
      ensures ok && Quiet(client.visits) && GoodSpec(spec) && old(WellNamed(client.ledger)) ==>
        WellNamed(client.ledger)
      ensures ok && Still(client.visits) ==>
        && client.clock == old(client.clock)
        && Updating.UpdateOne(old(client.ledger), spec, ip, client.clock) == Done(client.ledger)
      ensures Calm(client.visits) && !ok ==> Updating.UpdateOne(old(client.ledger), spec, ip, old(client.clock)).Failed?
    {
      ghost var l0, t0, n := client.ledger, client.clock, client.calls;
      assert Quiet(client.visits) ==> client.visits(n).others.None? && client.visits(n + 1).others.None?;
      assert Still(client.visits) ==> client.visits(n).wait == 0 && client.visits(n + 1).wait == 0;
      assert Calm(client.visits) ==> client.visits(n).fate.Served? && client.visits(n + 1).fate.Served?;
      var status := if spec.status == "" then ASSIGNED else spec.status;
      assert EditOp(spec, ipDigit) == Op.EditIP(client.key, ipDigit, client.cluster, status, spec.createDNS);
      ok := client.EditIP(ipDigit, status, spec.createDNS);
      if !ok {
        return;
      }
      ghost var l1, t1 := client.ledger, client.clock;
      if spec.lease > 0 {
        ok := client.RenewLease(ip, spec.lease);
      }
      if ok && Quiet(client.visits) {
        OneUpdated(l0, l1, client.ledger, spec, ip, done, from, t0, t1, client.clock);
        if GoodSpec(spec) && WellNamed(l0) {
          OneKeepsNames(l0, l1, client.ledger, spec, ip, client.clock);
        }
      }
    }

    /** Any number of attempts, each cut off wherever it may be, leak nothing but what late calls take. */
    method Retry(cr: IPAssignment, attempts: nat) returns (r: Creation)
      requires cr.spec.key == client.key && cr.spec.cluster == client.cluster
      modifies cr, client`ledger, client`clock, client`calls
      ensures old(client.Held()) <= client.Held()
      ensures client.calls >= old(client.calls)
      ensures |client.Held()| <= Max(|old(client.Held())|, Wanted(cr.spec)) +
                                 Late(client.visits, old(client.calls), client.calls)
      ensures r.Created? ==> RecordsHeld(cr.ips, Wanted(cr.spec), client.key, client.Held())
      ensures r.Created? ==> |cr.ips| == if cr.spec.count == 0 then 1 else cr.spec.count
      ensures !r.Created? ==> cr.Now() == old(cr.Now())
      ensures Smooth(client.visits) && Promising(old(client.ledger), cr.spec) && attempts >= 1 ==>
        (r.Created? <==> Suffices(old(client.ledger), cr.spec))
    {
      r := CreateFailed;
      for i := 0 to attempts
        invariant !r.Created? && cr.Now() == old(cr.Now())
        invariant Smooth(client.visits) && Promising(old(client.ledger), cr.spec) ==>
          client.ledger == old(client.ledger) && (i >= 1 ==> !Suffices(old(client.ledger), cr.spec))
        invariant old(client.Held()) <= client.Held() && client.calls >= old(client.calls)
        invariant |client.Held()| <= Max(|old(client.Held())|, Wanted(cr.spec)) +
                                     Late(client.visits, old(client.calls), client.calls)
      {
        ghost var first := client.calls;
        r := Create(cr);
        LateSplit(client.visits, old(client.calls), first, client.calls);
        if r.Created? {
          return;
        }
      }
    }
  }

  method AddressesOf(entries: seq<IPEntry>) returns (ips: seq<string>)
    ensures ips == Addresses(entries)
  {
    ips := [];
    for i := 0 to |entries|
      invariant ips == Addresses(entries)[..i]
    {
      ips := ips + [entries[i].ip];
    }
  }

}

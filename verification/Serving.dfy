/** One request from end to end: Begin, Load, decide, Save, DNS, End. */
module Serving {
  import opened Text
  import opened Ledgers
  import opened Operations
  import opened Store
  import opened LedgerWriting
  import opened Handlers

  /** Requests refused before any ledger write begins. */
  predicate Malformed(op: Op) {
    match op
    case Reserve(_, cluster, _, _, _, _, _, _) => cluster == ""
    case ReserveBatch(_, cluster, status, count, _) =>
      cluster == "" || count < 1 || HasSuffix(OrAssigned(status), DNS_SUFFIX)
    case Assign(_, ip, cluster, _, _, _) => ip == "" || cluster == ""
    case Renew(_, _, duration) => duration <= 0
    case EditIP(_, _, cluster, status, _) => cluster == "" || status == ""
    case AddIPs(_, digits) => digits == []
    case _ => false
  }

  /** They are refused whatever the ledger holds, so deciding over it first changes no answer. */
  lemma MalformedIsRefused(op: Op, now: int, l: Ledger)
    requires Malformed(op)
    ensures Apply(op, now, l) == Refused(BadRequest)
  {
  }

  /** The enabled DNS providers, PowerDNS before the router: each a map whose edits may fail, with or
      without having taken effect. A round calls every one of them once. */
  class Providers {
    var records: seq<map<string, string>>
    var rounds: nat
    const fates: (nat, nat) -> Fate

    constructor (records: seq<map<string, string>>, fates: (nat, nat) -> Fate)
      ensures this.records == records && rounds == 0 && this.fates == fates
    {
      this.records := records;
      this.rounds := 0;
      this.fates := fates;
    }

    /** `dnsResult.create`: on every provider, whatever the others answered. */
    method Create(cluster: string, ip: string) returns (ok: bool)
      modifies this`records, this`rounds
      ensures rounds == old(rounds) + 1 && |records| == |old(records)|
      ensures forall k :: 0 <= k < |records| ==>
        records[k] == (if fates(old(rounds), k).Dropped? then old(records)[k] else old(records)[k][cluster := ip])
      ensures ok <==> forall k :: 0 <= k < |records| ==> fates(old(rounds), k).Served?
    {
      ok := true;
      for i := 0 to |records|
        invariant rounds == old(rounds) && |records| == |old(records)|
        invariant forall k :: i <= k < |records| ==> records[k] == old(records)[k]
        invariant forall k :: 0 <= k < i ==>
          records[k] == (if fates(rounds, k).Dropped? then old(records)[k] else old(records)[k][cluster := ip])
        invariant ok <==> forall k :: 0 <= k < i ==> fates(rounds, k).Served?
      {
        if !fates(rounds, i).Dropped? {
          records := records[i := records[i][cluster := ip]];
        }
        ok := ok && fates(rounds, i).Served?;
      }
      rounds := rounds + 1;
    }

    /** `dnsResult.remove`: on every provider, whatever the others answered. */
    method Remove(cluster: string) returns (ok: bool)
      modifies this`records, this`rounds
      ensures rounds == old(rounds) + 1 && |records| == |old(records)|
      ensures forall k :: 0 <= k < |records| ==>
        records[k] == (if fates(old(rounds), k).Dropped? then old(records)[k] else old(records)[k] - {cluster})
      ensures ok <==> forall k :: 0 <= k < |records| ==> fates(old(rounds), k).Served?
    {
      ok := true;
      for i := 0 to |records|
        invariant rounds == old(rounds) && |records| == |old(records)|
        invariant forall k :: i <= k < |records| ==> records[k] == old(records)[k]
        invariant forall k :: 0 <= k < i ==>
          records[k] == (if fates(rounds, k).Dropped? then old(records)[k] else old(records)[k] - {cluster})
        invariant ok <==> forall k :: 0 <= k < i ==> fates(rounds, k).Served?
      {
        if !fates(rounds, i).Dropped? {
          records := records[i := records[i] - {cluster}];
        }
        ok := ok && fates(rounds, i).Served?;
      }
      rounds := rounds + 1;
    }
  }

  /** Every provider holds what the edits make of what it held. */
  ghost predicate AllEdited(before: seq<map<string, string>>, after: seq<map<string, string>>,
                            withdraw: set<string>, publish: Option<Record>)
  {
    |after| == |before| && forall k :: 0 <= k < |before| ==> after[k] == Edited(before[k], withdraw, publish)
  }

  /** What one provider holds after a round: unless the call was dropped on its way, without the record. */
  predicate Lost(before: map<string, string>, after: map<string, string>, cluster: string, fate: Fate) {
    after == if fate.Dropped? then before else before - {cluster}
  }

  /** No call of the rounds was dropped on its way to provider `k`. */
  ghost predicate Reached(fates: (nat, nat) -> Fate, from: nat, to: nat, k: nat) {
    forall r :: from <= r < to ==> !fates(r, k).Dropped?
  }

  /** Every provider was heard in every round. */
  ghost predicate AllHeard(fates: (nat, nat) -> Fate, from: nat, to: nat, providers: nat) {
    forall r, k :: from <= r < to && 0 <= k < providers ==> fates(r, k).Served?
  }

  lemma HeardNext(fates: (nat, nat) -> Fate, from: nat, to: nat, providers: nat)
    requires from <= to
    ensures AllHeard(fates, from, to + 1, providers) <==>
            AllHeard(fates, from, to, providers) && forall k :: 0 <= k < providers ==> fates(to, k).Served?
  {
  }

  lemma HeardReaches(fates: (nat, nat) -> Fate, from: nat, to: nat, providers: nat, k: nat)
    requires AllHeard(fates, from, to, providers) && k < providers
    ensures Reached(fates, from, to, k)
  {
  }

  /** Every provider that was reached in every round has lost the records of `gone`. */
  ghost predicate AllWithout(before: seq<map<string, string>>, after: seq<map<string, string>>, gone: set<string>,
                             fates: (nat, nat) -> Fate, from: nat, to: nat)
  {
    |after| == |before| &&
    forall k :: 0 <= k < |before| && Reached(fates, from, to, k) ==> after[k] == before[k] - gone
  }

  lemma OneLess(before: seq<map<string, string>>, now: seq<map<string, string>>, after: seq<map<string, string>>,
                gone: set<string>, cluster: string, fates: (nat, nat) -> Fate, from: nat, to: nat)
    requires from <= to && AllWithout(before, now, gone, fates, from, to) && |after| == |now|
    requires forall k :: 0 <= k < |now| ==> Lost(now[k], after[k], cluster, fates(to, k))
    ensures AllWithout(before, after, gone + {cluster}, fates, from, to + 1)
  {
    forall k | 0 <= k < |before| && Reached(fates, from, to + 1, k)
      ensures after[k] == before[k] - (gone + {cluster})
    {
      assert Reached(fates, from, to, k) && !fates(to, k).Dropped?;
      assert now[k] == before[k] - gone && Lost(now[k], after[k], cluster, fates(to, k));
    }
  }

  /** One round for every withdrawal, none stopped by a failure. */
  method WithdrawAll(dns: Providers, withdraw: set<string>) returns (ok: bool)
    modifies dns`records, dns`rounds
    ensures dns.rounds == old(dns.rounds) + |withdraw|
    ensures AllWithout(old(dns.records), dns.records, withdraw, dns.fates, old(dns.rounds), dns.rounds)
    ensures ok <==> AllHeard(dns.fates, old(dns.rounds), dns.rounds, |dns.records|)
  {
    ok := true;
    var rest := withdraw;
    ghost var gone: set<string> := {};
    while rest != {}
      invariant rest <= withdraw && gone == withdraw - rest
      invariant dns.rounds == old(dns.rounds) + |withdraw| - |rest|
      invariant AllWithout(old(dns.records), dns.records, gone, dns.fates, old(dns.rounds), dns.rounds)
      invariant ok <==> AllHeard(dns.fates, old(dns.rounds), dns.rounds, |dns.records|)
    {
      var cluster :| cluster in rest;
      ghost var now, round := dns.records, dns.rounds;
      var removed := dns.Remove(cluster);
      OneLess(old(dns.records), now, dns.records, gone, cluster, dns.fates, old(dns.rounds), round);
      HeardNext(dns.fates, old(dns.rounds), round, |dns.records|);
      ok := ok && removed;
      rest := rest - {cluster};
      gone := gone + {cluster};
    }
    assert gone == withdraw;
  }

  /** One round for every withdrawal and one for the publication, none stopped by a failure: every provider
      that no call failed to reach holds exactly the edited records, and the answer is good exactly when
      every call on every provider was. Records are edited while the ledger write is still open. */
  method EditRecords(dns: Providers, withdraw: set<string>, publish: Option<Record>, ghost lock: LedgerLock)
    returns (ok: bool)
    requires lock.held
    modifies dns`records, dns`rounds
    ensures |dns.records| == |old(dns.records)|
    ensures dns.rounds == old(dns.rounds) + |withdraw| + if publish.Some? then 1 else 0
    ensures forall k :: 0 <= k < |dns.records| && Reached(dns.fates, old(dns.rounds), dns.rounds, k) ==>
      dns.records[k] == Edited(old(dns.records)[k], withdraw, publish)
    ensures ok <==> AllHeard(dns.fates, old(dns.rounds), dns.rounds, |dns.records|)
    ensures ok ==> AllEdited(old(dns.records), dns.records, withdraw, publish)
  {
    ok := WithdrawAll(dns, withdraw);
    ghost var round := dns.rounds;
    if publish.Some? {
      var created := dns.Create(publish.value.cluster, publish.value.ip);
      HeardNext(dns.fates, old(dns.rounds), round, |dns.records|);
      ok := ok && created;
    }
    forall k | 0 <= k < |dns.records| && Reached(dns.fates, old(dns.rounds), dns.rounds, k)
      ensures dns.records[k] == Edited(old(dns.records)[k], withdraw, publish)
    {
      assert Reached(dns.fates, old(dns.rounds), round, k);
    }
    if ok {
      forall k | 0 <= k < |dns.records| ensures Reached(dns.fates, old(dns.rounds), dns.rounds, k) {
        HeardReaches(dns.fates, old(dns.rounds), dns.rounds, |dns.records|, k);
      }
    }
  }

  datatype Response =
    | LoadFailed
    | Rejected(why: Refusal)
    | NothingToDo
    | NotSaved(conflict: bool)
    | Done(dnsOk: bool)

  /** The two operations agree but for what the allocator picked. */
  predicate SameRequest(a: Op, b: Op) {
    match a
    case Reserve(_, _, _, _, _, _, _, _) => b.Reserve? && b == a.(choice := b.choice)
    case ReserveBatch(_, _, _, _, _) => b.ReserveBatch? && b == a.(offer := b.offer)
    case _ => a == b
  }

  method Decide(handler: Handler, request: Op) returns (answer: Answer, op: Op)
    modifies handler`ipList
    ensures SameRequest(request, op) && Possible(op, old(handler.ipList))
    ensures Meaning(answer, handler.ipList) == Apply(op, handler.now, old(handler.ipList))
  {
    op := request;
    match request {
      case Reserve(key, cluster, status, createDNS, duration, ip, addToPool, _) =>
        var choice;
        answer, choice := handler.Reserve(key, cluster, status, createDNS, duration, ip, addToPool);
        op := request.(choice := choice);
      case ReserveBatch(key, cluster, status, count, _) =>
        var offer;
        answer, offer := handler.ReserveBatch(key, cluster, status, count);
        op := request.(offer := offer);
      case Assign(key, ip, cluster, status, createDNS, duration) =>
        answer := handler.Assign(key, ip, cluster, status, createDNS, duration);
      case Release(key, ip) => answer := handler.Release(key, ip);
      case Renew(key, ip, duration) => answer := handler.RenewLease(key, ip, duration);
      case EditIP(key, ip, cluster, status, createDNS) =>
        answer := handler.EditIP(key, ip, cluster, status, createDNS);
      case DeleteIP(key, ip) => answer := handler.DeleteIP(key, ip);
      case ReclaimPass => answer := handler.ReclaimOnce();
      case SetClusterInfo(ips, cluster, status) => answer := handler.SetClusterInfo(ips, cluster, status);
      case CreateNetwork(key, digits) => answer := handler.CreateNetwork(key, digits);
      case CreateFromCIDR(networks) => answer := handler.CreateFromCIDR(networks);
      case AddIPs(key, digits) => answer := handler.AddIPs(key, digits);
      case DeleteNetwork(key) => answer := handler.DeleteNetwork(key);
    }
  }

  method DecideOver(request: Op, now: int, l: Ledger) returns (op: Op, outcome: Outcome)
    ensures SameRequest(request, op) && Possible(op, l) && outcome == Apply(op, now, l)
  {
    var handler := new Handler(l, now);
    var answer;
    answer, op := Decide(handler, request);
    outcome := Meaning(answer, handler.ipList);
  }

  class Server {
    const source: Source
    const backend: Backend
    const lock: LedgerLock
    const dns: Providers

    constructor (source: Source, backend: Backend, lock: LedgerLock, dns: Providers)
      ensures this.source == source && this.backend == backend && this.lock == lock && this.dns == dns
    {
      this.source := source;
      this.backend := backend;
      this.lock := lock;
      this.dns := dns;
    }

    /** Save, DNS, End, for an outcome that has been decided. Records move only after a save that
        took effect. */
    method Finish(tx: LedgerWrite, outcome: Outcome) returns (response: Response)
      requires tx.source == source && tx.backend == backend && tx.lock == lock
      requires tx.loaded && !tx.ended && lock.held
      modifies tx, lock, backend`stored, backend`calls, backend`file, dns`records, dns`rounds
      ensures !lock.held
      ensures !response.Done? ==> dns.records == old(dns.records) && dns.rounds == old(dns.rounds)
      ensures Fits(response, outcome)
      ensures !outcome.Commit? ==> backend.file == old(backend.file) && backend.stored == old(backend.stored)
      ensures response.Done? && response.dnsOk ==>
        AllEdited(old(dns.records), dns.records, outcome.withdraw, outcome.publish)
      ensures source.Disk? && outcome.Commit? ==>
        && backend.stored == old(backend.stored)
        && backend.file == (if response.Done? then Some(outcome.ledger) else old(backend.file))
        && (response.Done? <==> backend.turns(old(backend.calls)).fate.Served?)
      ensures response.Done? ==>
        (response.dnsOk <==> AllHeard(dns.fates, old(dns.rounds), dns.rounds, |dns.records|))
      ensures response.Done? ==>
        dns.rounds == old(dns.rounds) + |outcome.withdraw| + if outcome.publish.Some? then 1 else 0
      ensures source.Unknown? ==> !response.Done?
      ensures source.Cr? && outcome.Commit? ==>
        SavesLedger(outcome.ledger, backend.turns, old(backend.calls), old(backend.stored), old(tx.version),
                    backend.stored, ResultOf(response, backend.stored))
    {
      match outcome {
        case Refused(why) => response := Rejected(why);
        case Idle => response := NothingToDo;
        case Commit(ledger, withdraw, publish) =>
          var result := tx.Save(ledger);
          if source.Cr? { SavedVersion(ledger, backend.turns, old(backend.calls), old(backend.stored), old(tx.version),
                                       backend.stored, result); }
          if result.Saved? {
            var ok := EditRecords(dns, withdraw, publish, lock);
            response := Response.Done(ok);
          } else {
            response := NotSaved(result.Conflict?);
          }
      }
      tx.End();
    }

    /** Begin and load. */
    method Start() returns (tx: LedgerWrite, ipList: Option<Ledger>)
      requires !lock.held
      modifies lock, backend`stored, backend`calls
      ensures fresh(tx) && tx.source == source && tx.backend == backend && tx.lock == lock
      ensures !tx.ended && lock.held && (ipList.Some? ==> tx.loaded) && (source.Unknown? ==> ipList.None?)
      ensures source.Disk? ==>
        ipList == old(backend.file) && backend.stored == old(backend.stored) && backend.calls == old(backend.calls)
      ensures source.Cr? ==>
        && backend.stored == old(backend.Arrived()) && backend.calls == old(backend.calls) + 1
        && ipList == (if backend.turns(old(backend.calls)).fate.Served? then LoadFrom(backend.stored) else None)
        && (ipList.Some? ==> tx.version == VersionOf(backend.stored))
    {
      tx := new LedgerWrite(source, backend, lock);
      ipList := tx.Load();
    }

    /** `seen` is the ledger that was loaded, `op` the request with the allocator's pick, `outcome`
        what the operation decides over it. The lock is free again in every case. In cr mode a commit
        is one conditional save over the object that was loaded, answered as it ended. */
    method Handle(request: Op, now: int) returns (response: Response, op: Op, outcome: Outcome, ghost seen: Ledger)
      requires !lock.held
      modifies lock, backend`stored, backend`calls, backend`file, dns`records, dns`rounds
      ensures !lock.held
      ensures SameRequest(request, op)
      ensures !response.LoadFailed? ==> outcome == Apply(op, now, seen) && Possible(op, seen) && Fits(response, outcome)
      ensures !response.Done? ==> dns.records == old(dns.records) && dns.rounds == old(dns.rounds)
      ensures response.Done? ==> outcome.Commit?
      ensures response.Done? && response.dnsOk ==>
        AllEdited(old(dns.records), dns.records, outcome.withdraw, outcome.publish)
      ensures source.Disk? ==> backend.stored == old(backend.stored)
      ensures source.Disk? ==> if response.LoadFailed? then old(backend.file).None? else old(backend.file) == Some(seen)
      ensures source.Disk? ==>
        backend.file == (if response.Done? then Some(outcome.ledger) else old(backend.file))
      ensures source.Disk? && outcome.Commit? && !response.LoadFailed? ==>
        (response.Done? <==> backend.turns(old(backend.calls)).fate.Served?)
      ensures response.Done? ==>
        (response.dnsOk <==> AllHeard(dns.fates, old(dns.rounds), dns.rounds, |dns.records|))
      ensures source.Cr? ==>
        var loaded, read := old(backend.Arrived()), backend.turns(old(backend.calls)).fate.Served?;
        && (if response.LoadFailed? then !read || LoadFrom(loaded).None? else read && LoadFrom(loaded) == Some(seen))
        && (response.LoadFailed? || !outcome.Commit? ==> backend.stored == loaded)
        && (!response.LoadFailed? && outcome.Commit? ==>
              SavesLedger(outcome.ledger, backend.turns, old(backend.calls) + 1, loaded, VersionOf(loaded),
                          backend.stored, ResultOf(response, backend.stored)))
    {
      op := request;
      seen := map[];
      outcome := Refused(BadRequest);
      var tx, ipList := Start();
      if ipList.None? {
        tx.End();
        return LoadFailed, request, outcome, seen;
      }
      seen := ipList.value;
      op, outcome := DecideOver(request, now, ipList.value);
      response := Finish(tx, outcome);
    }
  }

  /** The response an outcome can lead to. */
  predicate Fits(response: Response, outcome: Outcome) {
    match response
    case LoadFailed => false
    case Rejected(why) => outcome == Refused(why)
    case NothingToDo => outcome.Idle?
    case NotSaved(_) => outcome.Commit?
    case Done(_) => outcome.Commit?
  }

  /** How the save behind the response ended, given the object it left. */
  function ResultOf(response: Response, after: Stored): SaveResult {
    match response
    case Done(_) => Saved(VersionOf(after))
    case NotSaved(conflict) => if conflict then SaveResult.Conflict else SaveResult.Failed
    case _ => SaveResult.Failed
  }

  lemma SavedVersion(l: Ledger, turns: nat -> Turn, calls: nat, stored: Stored, expected: string, after: Stored,
                     result: SaveResult)
    requires SavesLedger(l, turns, calls, stored, expected, after, result)
    ensures result.Saved? ==> result.version == VersionOf(after)
  {
  }
}

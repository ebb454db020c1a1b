/** A reconcile reaches a fixed point: after a successful Update with nobody else writing, the next
    Observe finds nothing left to do, through the server's suffix rules and the text format. */
module FixedPoint {
  import opened Text
  import opened Decimal
  import opened Address
  import opened Ledgers
  import opened CrCodec
  import opened Assignment
  import opened Handout
  import opened Listings
  import opened Reconciling
  import opened Updating
  import opened Names
  import opened Reserving
  import Allocate

  /** The desired statuses the controller and the server agree on. */
  predicate Settles(spec: Spec) {
    && spec.status != ""
    && !HasSuffix(spec.status, if spec.createDNS then DNS_SUFFIX else DNS_SUFFIX + DNS_SUFFIX)
  }

  lemma TrimAdded(s: string, suffix: string)
    ensures HasSuffix(s + suffix, suffix) && TrimSuffix(s + suffix, suffix) == s
  {
  }

  lemma TrimThenAdd(s: string, suffix: string)
    requires HasSuffix(s, suffix)
    ensures TrimSuffix(s, suffix) + suffix == s
  {
  }

  lemma TrimShortens(s: string, suffix: string)
    ensures |TrimSuffix(s, suffix)| <= |s|
    ensures HasSuffix(s, suffix) ==> |TrimSuffix(s, suffix)| == |s| - |suffix|
  {
  }

  lemma DoubleSuffix(s: string)
    ensures HasSuffix(s, DNS_SUFFIX + DNS_SUFFIX) <==>
            HasSuffix(s, DNS_SUFFIX) && HasSuffix(TrimSuffix(s, DNS_SUFFIX), DNS_SUFFIX)
  {
    var twice := DNS_SUFFIX + DNS_SUFFIX;
    if HasSuffix(s, twice) {
      var front := s[..|s| - |twice|];
      assert s == front + DNS_SUFFIX + DNS_SUFFIX;
      TrimAdded(front + DNS_SUFFIX, DNS_SUFFIX);
      TrimAdded(front, DNS_SUFFIX);
    }
    if HasSuffix(s, DNS_SUFFIX) && HasSuffix(TrimSuffix(s, DNS_SUFFIX), DNS_SUFFIX) {
      var middle := TrimSuffix(s, DNS_SUFFIX);
      TrimThenAdd(s, DNS_SUFFIX);
      TrimThenAdd(middle, DNS_SUFFIX);
      var front := TrimSuffix(middle, DNS_SUFFIX);
      assert s == front + twice;
      TrimAdded(front, twice);
    }
  }

  /** What Update writes is what Observe expects exactly for those statuses. */
  lemma SettlesExactly(spec: Spec)
    ensures WrittenStatus(spec) == ExpectedStatus(spec) <==> Settles(spec)
  {
    var status := spec.status;
    DoubleSuffix(status);
    TrimShortens(status, DNS_SUFFIX);
    TrimShortens(TrimSuffix(status, DNS_SUFFIX), DNS_SUFFIX);
    if status == "" {
      AssignedWritten(spec);
    } else if spec.createDNS && HasSuffix(status, DNS_SUFFIX) {
      assert |WrittenStatus(spec)| < |ExpectedStatus(spec)|;
    } else if HasSuffix(status, DNS_SUFFIX) {
      TrimThenAdd(status, DNS_SUFFIX);
      if HasSuffix(TrimSuffix(status, DNS_SUFFIX), DNS_SUFFIX) {
        assert |WrittenStatus(spec)| < |ExpectedStatus(spec)|;
      }
    }
  }

  lemma AssignedWritten(spec: Spec)
    requires spec.status == ""
    ensures WrittenStatus(spec) != ExpectedStatus(spec)
  {
    assert ASSIGNED[|ASSIGNED| - 1] == 'D' && DNS_SUFFIX[3] == 'S';
    assert !HasSuffix(ASSIGNED, DNS_SUFFIX);
  }

  // ---- finding the written entries again ------------------------------------------------

  lemma {:induction false} FindListed(entries: seq<IPEntry>, ds: seq<string>, ips: IPs, key: string, zone: string,
                                      digit: string)
    requires |entries| == |ds| && forall d :: d in ds ==> d in ips
    requires forall i :: 0 <= i < |entries| ==> entries[i] == EntryFor(key, ds[i], ips[ds[i]], zone)
    requires digit in ds
    ensures Find(entries, Full(key, digit)) == Some(EntryFor(key, digit, ips[digit], zone))
  {
    var n := |entries| - 1;
    FullInjective(key, digit, ds[n]);
    if digit != ds[n] {
      assert ds == ds[..n] + [ds[n]];
      FindListed(entries[..n], ds[..n], ips, key, zone, digit);
    }
  }

  lemma FindInNetwork(entries: seq<IPEntry>, ips: IPs, key: string, zone: string, digit: string)
    requires ListsNetwork(entries, ips, key, zone) && digit in ips
    ensures Find(entries, Full(key, digit)) == Some(EntryFor(key, digit, ips[digit], zone))
  {
    var ds :| EntriesFor(entries, ds, ips, key, zone);
    FindListed(entries, ds, ips, key, zone, digit);
  }

  /** The address is listed as the cluster's. */
  predicate FoundHeld(entries: seq<IPEntry>, ip: string, cluster: string) {
    Find(entries, ip).Some? && Find(entries, ip).value.cluster == cluster
  }

  lemma {:induction false} StillHeldAll(ips: seq<string>, entries: seq<IPEntry>, cluster: string)
    requires forall i :: 0 <= i < |ips| ==> FoundHeld(entries, ips[i], cluster)
    ensures StillHeld(ips, entries, cluster).Some?
    ensures var r := StillHeld(ips, entries, cluster).value;
            |r| == |ips| && forall i :: 0 <= i < |ips| ==> Some(r[i]) == Find(entries, ips[i])
  {
    if ips == [] {
    } else {
      var n := |ips| - 1;
      StillHeldAll(ips[..n], entries, cluster);
      assert FoundHeld(entries, ips[n], cluster);
    }
  }

  lemma {:induction false} StillHeldFound(ips: seq<string>, entries: seq<IPEntry>, cluster: string)
    requires StillHeld(ips, entries, cluster).Some?
    ensures forall i :: 0 <= i < |ips| ==> FoundHeld(entries, ips[i], cluster)
  {
    if ips == [] {
    } else {
      var n := |ips| - 1;
      StillHeldFound(ips[..n], entries, cluster);
      assert forall i :: 0 <= i < n ==> ips[..n][i] == ips[i];
    }
  }

  /** An assignment with recorded addresses is present exactly while every one of them is listed as
      the cluster's. */
  lemma PresentExactly(spec: Spec, status: Status, listing: Listing, now: int)
    requires status.ips != [] && !listing.ListFailed?
    ensures ObserveAt(spec, status, listing, now).1.Observed?
    ensures ObserveAt(spec, status, listing, now).1.present <==>
            forall i :: 0 <= i < |status.ips| ==> FoundHeld(EntriesOf(listing), status.ips[i], spec.cluster)
  {
    var entries := EntriesOf(listing);
    if StillHeld(status.ips, entries, spec.cluster).Some? {
      StillHeldFound(status.ips, entries, spec.cluster);
      StillHeldLength(status.ips, entries, spec.cluster);
    } else if forall i :: 0 <= i < |status.ips| ==> FoundHeld(entries, status.ips[i], spec.cluster) {
      StillHeldAll(status.ips, entries, spec.cluster);
    }
  }

  // ---- the fixed point ------------------------------------------------------------------

  /** The time is soon enough after the update for half of the lease to be left. */
  predicate InWindow(spec: Spec, from: int, to: int, now: int) {
    && 0 <= from <= to && 0 <= now
    && (spec.lease > 0 ==> InInt64(to + spec.lease) && now + spec.lease / 2 <= from + spec.lease)
  }

  lemma RefreshedUpToDate(spec: Spec, l: Ledger, digit: string, zone: string, from: int, to: int, now: int)
    requires Refreshed(l, spec, digit, from, to) && InWindow(spec, from, to, now)
    ensures UpToDate(spec, EntryFor(spec.key, digit, EntryAt(l, spec.key, digit), zone), now) <==> Settles(spec)
  {
    SettlesExactly(spec);
  }

  /** What the listing has for an address: its entry in the ledger, if it is one of the network's. */
  function ListedAs(l: Ledger, key: string, ip: string, zone: string): Option<IPEntry> {
    var digit := OwnDigit(ip, key);
    if OfNetwork(ip, key) && Listed(l, key, digit) then Some(EntryFor(key, digit, EntryAt(l, key, digit), zone))
    else None
  }

  lemma FindExactly(entries: seq<IPEntry>, ips: IPs, l: Ledger, key: string, zone: string, ip: string)
    requires key in l && l[key] == ips && ListsNetwork(entries, ips, key, zone)
    ensures Find(entries, ip) == ListedAs(l, key, ip, zone)
  {
    var digit := OwnDigit(ip, key);
    if OfNetwork(ip, key) && digit in ips {
      OwnFull(ip, key);
      FindInNetwork(entries, ips, key, zone, digit);
    } else {
      var ds :| EntriesFor(entries, ds, ips, key, zone);
      FindNone(entries, ds, ips, key, zone, ip);
    }
  }

  lemma {:induction false} FindNone(entries: seq<IPEntry>, ds: seq<string>, ips: IPs, key: string, zone: string,
                                    ip: string)
    requires |entries| == |ds| && forall d :: d in ds ==> d in ips
    requires forall i :: 0 <= i < |entries| ==> entries[i] == EntryFor(key, ds[i], ips[ds[i]], zone)
    requires !(OfNetwork(ip, key) && OwnDigit(ip, key) in ips)
    ensures Find(entries, ip) == None
  {
    if entries == [] {
    } else {
      var n := |entries| - 1;
      assert ds == ds[..n] + [ds[n]];
      assert ds[n] in ds;
      FullOwn(key, ds[n]);
      FindNone(entries[..n], ds[..n], ips, key, zone, ip);
    }
  }

  lemma FullOwn(key: string, digit: string)
    ensures OfNetwork(Full(key, digit), key) && OwnDigit(Full(key, digit), key) == digit
  {
  }

  /** A listing of what the text format gave back has the entries of the ledger that was saved. */
  lemma ListedSaved(l: Ledger, networks: CR, listing: Listing, key: string, zone: string, ip: string)
    requires WellNamed(l) && Encodes(l, networks) && Decode(networks).Some?
    requires Answers(listing, Decode(networks).value, key, zone) && !listing.ListFailed?
    ensures Find(EntriesOf(listing), ip) == ListedAs(l, key, ip, zone)
  {
    var read := Decode(networks).value;
    SavedReadsBack(l, networks);
    ListedFinds(read, listing, key, zone, ip);
    assert Listed(read, key, OwnDigit(ip, key)) <==> Listed(l, key, OwnDigit(ip, key));
  }

  lemma ListedFinds(l: Ledger, listing: Listing, key: string, zone: string, ip: string)
    requires Answers(listing, l, key, zone) && !listing.ListFailed?
    ensures Find(EntriesOf(listing), ip) == ListedAs(l, key, ip, zone)
  {
    if listing.Entries? {
      FindExactly(listing.entries, l[key], l, key, zone, ip);
    }
  }

  /** What Observe will find of a recorded address after an Update over ledger `l`: the cluster's, if its
      host part is written; otherwise whatever it was before. */
  ghost predicate SeenHeld(spec: Spec, l: Ledger, ips: seq<string>, ip: string, zone: string) {
    OfNetwork(ip, spec.key) &&
    if WrittenIn(ips, OwnDigit(ip, spec.key)) then true
    else ListedAs(l, spec.key, ip, zone).Some? && ListedAs(l, spec.key, ip, zone).value.cluster == spec.cluster
  }

  ghost predicate SeenUpToDate(spec: Spec, l: Ledger, ips: seq<string>, ip: string, zone: string, now: int) {
    OfNetwork(ip, spec.key) &&
    if WrittenIn(ips, OwnDigit(ip, spec.key)) then Settles(spec)
    else ListedAs(l, spec.key, ip, zone).Some? && UpToDate(spec, ListedAs(l, spec.key, ip, zone).value, now)
  }

  /** The entry Observe finds, up to date or not. */
  predicate FoundUpToDate(spec: Spec, entries: seq<IPEntry>, ip: string, now: int) {
    Find(entries, ip).Some? && UpToDate(spec, Find(entries, ip).value, now)
  }

  /** Observe of recorded addresses, address by address. */
  lemma ObserveExactly(spec: Spec, status: Status, listing: Listing, now: int)
    requires status.ips != [] && !listing.ListFailed?
    ensures var o, entries := ObserveAt(spec, status, listing, now).1, EntriesOf(listing);
            && o.Observed?
            && (o.present <==> forall i :: 0 <= i < |status.ips| ==> FoundHeld(entries, status.ips[i], spec.cluster))
            && (o.upToDate <==> forall i :: 0 <= i < |status.ips| ==> FoundUpToDate(spec, entries, status.ips[i], now))
  {
    var entries := EntriesOf(listing);
    PresentExactly(spec, status, listing, now);
    if forall i :: 0 <= i < |status.ips| ==> FoundHeld(entries, status.ips[i], spec.cluster) {
      StillHeldAll(status.ips, entries, spec.cluster);
      var r := StillHeld(status.ips, entries, spec.cluster).value;
      forall i | 0 <= i < |r| ensures UpToDate(spec, r[i], now) <==> FoundUpToDate(spec, entries, status.ips[i], now) {
        assert Some(r[i]) == Find(entries, status.ips[i]);
      }
    } else {
      var i :| 0 <= i < |status.ips| && !FoundHeld(entries, status.ips[i], spec.cluster);
      assert !FoundUpToDate(spec, entries, status.ips[i], now);
    }
  }

  lemma SeenExactly(spec: Spec, before: Ledger, l: Ledger, ips: seq<string>, ip: string, zone: string,
                    from: int, to: int, now: int)
    requires AllRefreshed(l, spec, ips, from, to) && OnlyTouches(before, l, spec.key, ips)
    requires InWindow(spec, from, to, now)
    ensures var found := ListedAs(l, spec.key, ip, zone);
            && (found.Some? && found.value.cluster == spec.cluster <==> SeenHeld(spec, before, ips, ip, zone))
            && (found.Some? && UpToDate(spec, found.value, now) <==> SeenUpToDate(spec, before, ips, ip, zone, now))
  {
    var digit := OwnDigit(ip, spec.key);
    if WrittenIn(ips, digit) {
      WrittenRefreshed(l, spec, ips, from, to, digit);
      RefreshedUpToDate(spec, l, digit, zone, from, to, now);
    } else {
      assert EntryAt(l, spec.key, digit) == EntryAt(before, spec.key, digit);
    }
  }

  /** After a successful Update, from any ledger and with any recorded addresses, the next Observe within
      the window and through the text format: present exactly when every address whose host part is not
      written was the cluster's before, and up to date exactly when controller and server agree on the
      status and every such address was up to date before. */
  lemma ObserveAfterUpdate(spec: Spec, status: Status, before: Ledger, l: Ledger, networks: CR, listing: Listing,
                           zone: string, from: int, to: int, now: int)
    requires WellNamed(l) && Encodes(l, networks) && Decode(networks).Some?
    requires Answers(listing, Decode(networks).value, spec.key, zone) && !listing.ListFailed?
    requires status.ips != [] && AllRefreshed(l, spec, status.ips, from, to)
    requires OnlyTouches(before, l, spec.key, status.ips) && InWindow(spec, from, to, now)
    ensures Follows(spec, before, status.ips, zone, now, ObserveAt(spec, status, listing, now).1)
  {
    ObserveExactly(spec, status, listing, now);
    forall i | 0 <= i < |status.ips|
      ensures FoundHeld(EntriesOf(listing), status.ips[i], spec.cluster) <==>
              SeenHeld(spec, before, status.ips, status.ips[i], zone)
      ensures FoundUpToDate(spec, EntriesOf(listing), status.ips[i], now) <==>
              SeenUpToDate(spec, before, status.ips, status.ips[i], zone, now)
    {
      ListedSaved(l, networks, listing, spec.key, zone, status.ips[i]);
      SeenExactly(spec, before, l, status.ips, status.ips[i], zone, from, to, now);
    }
  }

  ghost predicate Follows(spec: Spec, before: Ledger, ips: seq<string>, zone: string, now: int, o: Observation) {
    && o.Observed?
    && (o.present <==> forall i :: 0 <= i < |ips| ==> SeenHeld(spec, before, ips, ips[i], zone))
    && (o.upToDate <==> forall i :: 0 <= i < |ips| ==> SeenUpToDate(spec, before, ips, ips[i], zone, now))
  }

  /** Where every recorded address reads back as its own host part, that is: present, and up to date
      exactly when controller and server agree on the status. */
  lemma FollowsInNetwork(spec: Spec, before: Ledger, ips: seq<string>, zone: string, now: int, o: Observation)
    requires ips != [] && AllInNetwork(ips, spec.key)
    ensures Follows(spec, before, ips, zone, now, o) <==> o == Observed(true, Settles(spec))
  {
    forall i | 0 <= i < |ips| ensures OfNetwork(ips[i], spec.key) && WrittenIn(ips, OwnDigit(ips[i], spec.key)) {
      InNetworkOwn(ips[i], spec.key);
    }
    assert SeenUpToDate(spec, before, ips, ips[0], zone, now) <==> Settles(spec);
  }

  /** What a successful Create records is what the next Observe finds: with nobody writing in between, the
      assignment is present. */
  lemma CreatedPresent(spec: Spec, status: Status, l: Ledger, listing: Listing, zone: string, now: int, n: int)
    requires status.ips != [] && RecordsHeld(status.ips, n, spec.key, Holdings(l, spec.key, spec.cluster))
    requires Answers(listing, l, spec.key, zone) && !listing.ListFailed?
    ensures ObserveAt(spec, status, listing, now).1.Observed? && ObserveAt(spec, status, listing, now).1.present
  {
    ObserveExactly(spec, status, listing, now);
    forall i | 0 <= i < |status.ips| ensures FoundHeld(EntriesOf(listing), status.ips[i], spec.cluster) {
      assert Allocate.AddressOf(status.ips[i], spec.key, Holdings(l, spec.key, spec.cluster));
      var d :| d in Holdings(l, spec.key, spec.cluster) && status.ips[i] == Full(spec.key, d);
      FullOwn(spec.key, d);
      ListedFinds(l, listing, spec.key, zone, status.ips[i]);
    }
  }

  // ---- when it always does ---------------------------------------------------------------

  lemma {:induction false} WalkExists(s: set<string>) returns (ds: seq<string>)
    ensures Walks(ds, s)
    decreases |s|
  {
    if s == {} {
      ds := [];
    } else {
      var d :| d in s;
      ds := WalkExists(s - {d});
      assert d !in ds;
      ds := ds + [d];
    }
  }

  lemma ListingExists(l: Ledger, key: string, zone: string) returns (listing: Listing)
    ensures Answers(listing, l, key, zone) && !listing.ListFailed?
  {
    if key !in l {
      listing := Missing;
    } else {
      var ds := WalkExists(l[key].Keys);
      var ips := l[key];
      var entries := seq(|ds|, i requires 0 <= i < |ds| && ds[i] in ips => EntryFor(key, ds[i], ips[ds[i]], zone));
      assert EntriesFor(entries, ds, l[key], key, zone);
      listing := Entries(entries);
    }
  }

  /** One Update over `l` that succeeds, and an Observe of what it left, in the window. */
  ghost predicate Reconciled(spec: Spec, status: Status, l: Ledger, listing: Listing, zone: string,
                             now: int, later: int)
  {
    && UpdateAll(l, spec, status.ips, now).Done?
    && Answers(listing, UpdateAll(l, spec, status.ips, now).ledger, spec.key, zone) && !listing.ListFailed?
    && now <= later && InWindow(spec, now, now, later)
  }

  /** Whatever the ledger, Update and the next Observe settle. */
  ghost predicate AlwaysSettles(spec: Spec, ips: seq<string>) {
    forall status: Status, l: Ledger, listing: Listing, zone: string, now: int, later: int ::
      status.ips == ips && Reconciled(spec, status, l, listing, zone, now, later) ==>
        ObserveAt(spec, status, listing, later).1 == Observed(true, Settles(spec))
  }

  lemma UpdateAllRefreshes(l: Ledger, spec: Spec, ips: seq<string>, now: int)
    requires UpdateAll(l, spec, ips, now).Done?
    ensures var l' := UpdateAll(l, spec, ips, now).ledger;
            AllRefreshed(l', spec, ips, now, now) && OnlyTouches(l, l', spec.key, ips)
  {
    var l' := UpdateAll(l, spec, ips, now).ledger;
    forall i | 0 <= i < |ips| && GetLastIPDigit(ips[i]).Some?
      ensures Refreshed(l', spec, GetLastIPDigit(ips[i]).value, now, now)
    {
      UpdateAllEntry(l, spec, ips, now, spec.key, GetLastIPDigit(ips[i]).value);
    }
    forall k, d | !(k == spec.key && WrittenIn(ips, d))
      ensures EntryAt(l', k, d) == EntryAt(l, k, d) && (Listed(l', k, d) <==> Listed(l, k, d))
    {
      UpdateAllEntry(l, spec, ips, now, k, d);
    }
  }

  lemma ReconciledFollows(spec: Spec, status: Status, l: Ledger, listing: Listing, zone: string, now: int, later: int)
    requires status.ips != [] && Reconciled(spec, status, l, listing, zone, now, later)
    ensures Follows(spec, l, status.ips, zone, later, ObserveAt(spec, status, listing, later).1)
  {
    var l' := UpdateAll(l, spec, status.ips, now).ledger;
    UpdateAllRefreshes(l, spec, status.ips, now);
    ObserveExactly(spec, status, listing, later);
    forall i | 0 <= i < |status.ips|
      ensures FoundHeld(EntriesOf(listing), status.ips[i], spec.cluster) <==>
              SeenHeld(spec, l, status.ips, status.ips[i], zone)
      ensures FoundUpToDate(spec, EntriesOf(listing), status.ips[i], later) <==>
              SeenUpToDate(spec, l, status.ips, status.ips[i], zone, later)
    {
      ListedFinds(l', listing, spec.key, zone, status.ips[i]);
      SeenExactly(spec, l, l', status.ips, status.ips[i], zone, now, now, later);
    }
  }

  /** A ledger without the unwritten host part, from which Update succeeds. */
  lemma UnwrittenReconciled(spec: Spec, status: Status, ip: string) returns (l: Ledger, listing: Listing)
    requires spec.cluster != "" && InInt64(spec.lease)
    requires !WrittenIn(status.ips, OwnDigit(ip, spec.key))
    ensures Reconciled(spec, status, l, listing, "", 0, 0) && !SeenHeld(spec, l, status.ips, ip, "")
  {
    l := Uniform(spec, Written(status.ips), BLANK);
    UniformSucceeds(spec, status.ips, Written(status.ips), BLANK, 0);
    listing := ListingExists(UpdateAll(l, spec, status.ips, 0).ledger, spec.key, "");
  }

  lemma UnheldNotPresent(spec: Spec, l: Ledger, ips: seq<string>, i: nat, zone: string, now: int, o: Observation)
    requires Follows(spec, l, ips, zone, now, o) && i < |ips| && !SeenHeld(spec, l, ips, ips[i], zone)
    ensures o.Observed? && !o.present
  {
  }

  /** Observe then misses it. */
  lemma UnwrittenUnsettled(spec: Spec, ips: seq<string>, i: nat)
    requires spec.cluster != "" && InInt64(spec.lease) && i < |ips| && !WrittenIn(ips, OwnDigit(ips[i], spec.key))
    ensures !AlwaysSettles(spec, ips)
  {
    var status := Status(ips, "", "", 0, "", false);
    var l, listing := UnwrittenReconciled(spec, status, ips[i]);
    ReconciledFollows(spec, status, l, listing, "", 0, 0);
    UnheldNotPresent(spec, l, ips, i, "", 0, ObserveAt(spec, status, listing, 0).1);
  }

  /** The fixed point is reached from every ledger if and only if every recorded address reads back as
      its own host part. */
  lemma FixedPointExactly(spec: Spec, ips: seq<string>)
    requires ips != [] && spec.cluster != "" && InInt64(spec.lease) && AllOfNetwork(ips, spec.key)
    ensures AlwaysSettles(spec, ips) <==> AllInNetwork(ips, spec.key)
  {
    OwnWrittenExactly(ips, spec.key);
    if OwnWritten(ips, spec.key) {
      forall status: Status, l: Ledger, listing: Listing, zone: string, now: int, later: int |
        status.ips == ips && Reconciled(spec, status, l, listing, zone, now, later)
        ensures ObserveAt(spec, status, listing, later).1 == Observed(true, Settles(spec))
      {
        ReconciledFollows(spec, status, l, listing, zone, now, later);
        FollowsInNetwork(spec, l, ips, zone, later, ObserveAt(spec, status, listing, later).1);
      }
    } else {
      var i :| 0 <= i < |ips| && !WrittenIn(ips, OwnDigit(ips[i], spec.key));
      UnwrittenUnsettled(spec, ips, i);
    }
  }

  // ---- the two calls as they run -------------------------------------------------------------

  /** An Observe of a ledger that was saved as text and read back. */
  method ObserveSaved(cr: IPAssignment, l: Ledger, zone: string, now: int, ghost before: Ledger,
                      ghost from: int, ghost to: int)
    returns (o: Observation)
    requires WellNamed(l) && cr.ips != []
    requires AllRefreshed(l, cr.spec, cr.ips, from, to) && OnlyTouches(before, l, cr.spec.key, cr.ips)
    modifies cr
    ensures InWindow(cr.spec, from, to, now) ==>
      && Follows(cr.spec, before, old(cr.ips), zone, now, o)
      && (AllInNetwork(old(cr.ips), cr.spec.key) ==> o == Observed(true, Settles(cr.spec)))
  {
    ghost var status := cr.Now();
    var networks := ConvertToCRFormat(l);
    SavedReadsBack(l, networks);
    var read := ConvertFromCRFormat(networks);
    var listing := ListNetwork(read.value, cr.spec.key, zone);
    o := cr.Observe(listing, now);
    if InWindow(cr.spec, from, to, now) {
      ObserveAfterUpdate(cr.spec, status, before, l, networks, listing, zone, from, to, now);
      if AllInNetwork(status.ips, cr.spec.key) {
        FollowsInNetwork(cr.spec, before, status.ips, zone, now, o);
      }
    }
  }

  /** The server lists everything an Update writes. */
  ghost predicate CanUpdate(l: Ledger, spec: Spec, ips: seq<string>) {
    spec.cluster != "" && forall d :: WrittenIn(ips, d) ==> Listed(l, spec.key, d)
  }

  /** An Update with nobody else writing. */
  method UpdateQuietly(ext: External, cr: IPAssignment) returns (ok: bool)
    requires cr.spec.key == ext.client.key && cr.spec.cluster == ext.client.cluster
    requires WellNamed(ext.client.ledger) && GoodSpec(cr.spec) && Quiet(ext.client.visits)
    modifies cr`lease, ext.client`ledger, ext.client`clock, ext.client`calls
    ensures ok ==>
      && AllRefreshed(ext.client.ledger, cr.spec, cr.ips, old(ext.client.clock), ext.client.clock)
      && OnlyTouches(old(ext.client.ledger), ext.client.ledger, cr.spec.key, cr.ips)
      && WellNamed(ext.client.ledger)
    ensures Calm(ext.client.visits) && CanUpdate(old(ext.client.ledger), cr.spec, cr.ips) ==> ok
  {
    UpdateSucceedsExactly(ext.client.ledger, cr.spec, cr.ips, ext.client.clock);
    ok := ext.Update(cr);
  }

  /** The two calls one after the other, with any recorded addresses. */
  method UpdateThenObserve(ext: External, cr: IPAssignment, wait: nat) returns (ok: bool, o: Observation)
    requires cr.spec.key == ext.client.key && cr.spec.cluster == ext.client.cluster
    requires WellNamed(ext.client.ledger) && GoodSpec(cr.spec) && Quiet(ext.client.visits)
    requires cr.ips != []
    modifies cr, ext.client`ledger, ext.client`clock, ext.client`calls
    ensures ok && InWindow(cr.spec, old(ext.client.clock), ext.client.clock, ext.client.clock + wait) ==>
      && Follows(cr.spec, old(ext.client.ledger), old(cr.ips), ext.client.zone, ext.client.clock + wait, o)
      && (AllInNetwork(old(cr.ips), cr.spec.key) ==> o == Observed(true, Settles(cr.spec)))
    ensures Calm(ext.client.visits) && CanUpdate(old(ext.client.ledger), cr.spec, old(cr.ips)) ==> ok
  {
    o := ObserveFailed;
    var client := ext.client;
    ghost var from, before := client.clock, client.ledger;
    ok := UpdateQuietly(ext, cr);
    if ok {
      o := ObserveSaved(cr, client.ledger, client.zone, client.clock + wait, before, from, client.clock);
    }
  }
}

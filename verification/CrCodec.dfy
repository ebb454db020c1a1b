/** The custom-resource text format of the ledger: `digit:status[:DNS]:cluster[:exp=n]`. */
module CrCodec {
  import opened Text
  import opened Decimal
  import opened Ledgers

  const LEASE_PREFIX := "exp="

  /** The `networks` field of the stored object. */
  type CR = map<string, seq<string>>

  predicate Named(info: IPInfo) {
    info.status != "" && info.cluster != ""
  }

  function EncodeEntry(digit: string, info: IPInfo): string {
    var entry := if Named(info) then digit + ":" + info.status + ":" + info.cluster else digit;
    if info.lease != 0 then entry + ":" + LEASE_PREFIX + Itoa(info.lease) else entry
  }

  /** None stands for the index panic on an entry that is nothing but a lease. */
  function DecodeEntry(entry: string): Option<(string, IPInfo)> {
    var parts := Split(entry, ':');
    var last := parts[|parts| - 1];
    var leased := HasPrefix(last, LEASE_PREFIX);
    var n := if leased then ParseInt(TrimPrefix(last, LEASE_PREFIX)) else None;
    var lease := if n.Some? then n.value else 0;
    DecodeParts(if leased then parts[..|parts| - 1] else parts, lease)
  }

  function DecodeParts(parts: seq<string>, lease: int): (r: Option<(string, IPInfo)>)
    ensures r.Some? <==> |parts| > 0
    ensures r.Some? ==> r.value.0 == parts[0]
  {
    if |parts| == 0 then None
    else if |parts| == 1 then Some((parts[0], IPInfo("", "", lease)))
    else if |parts| == 2 then Some((parts[0], IPInfo(parts[1], "", lease)))
    else if |parts| == 4 then Some((parts[0], IPInfo(parts[1] + ":" + parts[2], parts[3], lease)))
    else Some((parts[0], IPInfo(parts[1], parts[2], lease)))
  }

  // ---- one entry ----------------------------------------------------------

  /** The entries the format keeps. */
  predicate Keeps(digit: string, info: IPInfo) {
    && ':' !in digit
    && if info.status == "" && info.cluster == "" then
         info.lease != 0 || !HasPrefix(digit, LEASE_PREFIX)
       else
         && Named(info)
         && |Split(info.status, ':')| <= 2
         && ':' !in info.cluster
         && (info.lease != 0 || !HasPrefix(info.cluster, LEASE_PREFIX))
  }

  function BaseParts(digit: string, info: IPInfo): seq<string> {
    if Named(info) then Split(digit, ':') + Split(info.status, ':') + Split(info.cluster, ':')
    else Split(digit, ':')
  }

  function LeasePart(lease: int): string {
    LEASE_PREFIX + Itoa(lease)
  }

  lemma SplitTwo(a: string, b: string)
    ensures Split(a + ":" + b, ':') == Split(a, ':') + Split(b, ':')
  {
    SplitConcat(a, b, ':');
  }

  lemma SplitBase(digit: string, info: IPInfo)
    ensures Split(EncodeEntry(digit, info.(lease := 0)), ':') == BaseParts(digit, info)
  {
    if Named(info) {
      SplitTwo(digit + ":" + info.status, info.cluster);
      SplitTwo(digit, info.status);
    }
  }

  lemma LeaseIsOnePart(lease: int)
    ensures Split(LeasePart(lease), ':') == [LeasePart(lease)]
  {
    var tail := LeasePart(lease);
    forall c | c in tail ensures c != ':' {
      var i :| 0 <= i < |tail| && tail[i] == c;
      if i >= 4 { assert c == Itoa(lease)[i - 4]; }
    }
    SplitPlain(tail, ':');
  }

  lemma SplitEncoded(digit: string, info: IPInfo)
    requires info.lease != 0
    ensures Split(EncodeEntry(digit, info), ':') == BaseParts(digit, info) + [LeasePart(info.lease)]
  {
    SplitBase(digit, info);
    LeaseIsOnePart(info.lease);
    SplitTwo(EncodeEntry(digit, info.(lease := 0)), LeasePart(info.lease));
    assert EncodeEntry(digit, info) == EncodeEntry(digit, info.(lease := 0)) + ":" + LeasePart(info.lease) by {
      var base := EncodeEntry(digit, info.(lease := 0));
      assert base + ":" + LEASE_PREFIX + Itoa(info.lease) == base + ":" + LeasePart(info.lease);
    }
  }

  /** What is read from the parts of an entry and its lease: without a lease, a last part that looks
      like one is taken for it. */
  function ReadParts(base: seq<string>, lease: int): Option<(string, IPInfo)>
    requires base != []
  {
    if lease != 0 then DecodeParts(base, lease)
    else if HasPrefix(base[|base| - 1], LEASE_PREFIX) then DecodeParts(base[..|base| - 1], TakenLease(base))
    else DecodeParts(base, 0)
  }

  function TakenLease(base: seq<string>): int
    requires base != []
  {
    var n := ParseInt(TrimPrefix(base[|base| - 1], LEASE_PREFIX));
    if n.Some? then n.value else 0
  }

  /** What is read back from an encoded entry. */
  lemma DecodeEncoded(digit: string, info: IPInfo)
    requires InInt64(info.lease)
    ensures BaseParts(digit, info) != []
    ensures DecodeEntry(EncodeEntry(digit, info)) == ReadParts(BaseParts(digit, info), info.lease)
  {
    var base := BaseParts(digit, info);
    if info.lease != 0 {
      var tail := LeasePart(info.lease);
      SplitEncoded(digit, info);
      ParseItoa(info.lease);
      assert (base + [tail])[..|base|] == base;
      assert HasPrefix(tail, LEASE_PREFIX) && TrimPrefix(tail, LEASE_PREFIX) == Itoa(info.lease);
    } else {
      SplitBase(digit, info);
      assert info == info.(lease := 0);
    }
  }

  lemma SplitCounts(s: string)
    ensures |Split(s, ':')| == 1 <==> ':' !in s
    ensures |Split(s, ':')| == 1 ==> Split(s, ':') == [s]
    ensures |Split(s, ':')| == 2 ==> s == Split(s, ':')[0] + ":" + Split(s, ':')[1]
    ensures forall p :: p in Split(s, ':') ==> ':' !in p
  {
    SplitSingle(s, ':');
    JoinSplit(s, ':');
    SplitParts(s, ':');
  }

  /** The format keeps an entry exactly when Keeps says so. */
  lemma EntryRoundTrip(digit: string, info: IPInfo)
    requires InInt64(info.lease)
    ensures DecodeEntry(EncodeEntry(digit, info)) == Some((digit, info)) <==> Keeps(digit, info)
  {
    DecodeEncoded(digit, info);
    SplitCounts(digit);
    SplitCounts(info.status);
    SplitCounts(info.cluster);
    var base := BaseParts(digit, info);
    assert base[0] == Split(digit, ':')[0];
    if ':' in digit {
      OnlyPlainDigits(digit, info);
    } else if Named(info) {
      NamedRoundTrip(digit, info);
    }
  }

  /** A decoded host part never contains a colon. */
  lemma OnlyPlainDigits(digit: string, info: IPInfo)
    requires InInt64(info.lease)
    ensures var r := DecodeEntry(EncodeEntry(digit, info)); r.Some? ==> ':' !in r.value.0
  {
    DecodedDigit(EncodeEntry(digit, info));
  }

  lemma DecodedDigit(entry: string)
    ensures var r := DecodeEntry(entry); r.Some? ==> ':' !in r.value.0
  {
    SplitCounts(entry);
  }

  /** The parts of a named entry read back as the entry only when the status gave one or two
      parts and the cluster one. */
  lemma NamedParts(digit: string, info: IPInfo, st: seq<string>, cl: seq<string>)
    requires Named(info) && |st| > 0 && |cl| > 0
    requires |st| == 1 ==> st == [info.status]
    requires |st| == 2 ==> info.status == st[0] + ":" + st[1]
    requires |st| != 1 ==> ':' in info.status
    requires |cl| == 1 ==> cl == [info.cluster]
    requires |cl| != 1 ==> ':' in info.cluster
    requires forall p :: p in st + cl ==> ':' !in p
    ensures DecodeParts([digit] + st + cl, info.lease) == Some((digit, info)) <==> |st| <= 2 && |cl| == 1
  {
    var parts := [digit] + st + cl;
    forall i | 1 <= i < |parts| ensures ':' !in parts[i] {
      assert parts[i] == (st + cl)[i - 1];
    }
  }

  lemma ThreeParts(s: string, parts: seq<string>)
    requires |parts| == 3 && Join(parts, ':') == s
    ensures |s| > |parts[0]| + |parts[1]| + 1
  {
    assert s == parts[0] + ":" + Join(parts[1..], ':');
    assert parts[1..][0] == parts[1];
  }

  /** Losing the cluster part always loses the entry. */
  lemma NoClusterPart(digit: string, info: IPInfo, st: seq<string>, lease: int)
    requires Named(info) && |st| > 0 && Join(st, ':') == info.status
    requires |st| != 1 ==> ':' in info.status
    requires forall p :: p in st ==> ':' !in p
    ensures DecodeParts([digit] + st, lease) != Some((digit, info))
  {
    var parts := [digit] + st;
    assert parts[1] == st[0];
    if |st| == 3 {
      ThreeParts(info.status, st);
      assert parts[2] == st[1];
      assert |DecodeParts(parts, lease).value.1.status| == |st[0]| + |st[1]| + 1;
    } else if |st| == 1 {
      assert DecodeParts(parts, lease).value.1.cluster == "";
    } else {
      assert DecodeParts(parts, lease).value.1.status == st[0];
      assert st[0] in st;
    }
  }

  /** A cluster that reads as a lease is taken for one, and the entry is lost. */
  lemma ClusterTakenForLease(digit: string, info: IPInfo, st: seq<string>, cl: seq<string>, lease: int)
    requires ':' !in digit && Named(info) && |st| > 0 && |cl| > 0 && Join(st, ':') == info.status
    requires |st| != 1 ==> ':' in info.status
    requires |cl| != 1 ==> ':' in info.cluster
    requires forall p :: p in st + cl ==> ':' !in p
    ensures DecodeParts(([digit] + st + cl)[..|st| + |cl|], lease) != Some((digit, info))
  {
    var rest := ([digit] + st + cl)[..|st| + |cl|];
    assert rest == [digit] + st + cl[..|cl| - 1];
    forall p | p in st ensures ':' !in p { assert p in st + cl; }
    if |cl| == 1 {
      assert rest == [digit] + st;
      NoClusterPart(digit, info, st, lease);
    } else {
      forall p | p in rest ensures ':' !in p {
        assert p == digit || p in st || p in cl[..|cl| - 1];
        assert p in cl[..|cl| - 1] ==> p in st + cl;
      }
      PlainCluster(rest, digit, info, lease);
    }
  }

  lemma NamedRoundTrip(digit: string, info: IPInfo)
    requires InInt64(info.lease) && ':' !in digit && Named(info)
    ensures DecodeEntry(EncodeEntry(digit, info)) == Some((digit, info)) <==> Keeps(digit, info)
  {
    var st, cl := Split(info.status, ':'), Split(info.cluster, ':');
    SplitCounts(digit);
    SplitPartsOf(info.status);
    SplitPartsOf(info.cluster);
    assert BaseParts(digit, info) == [digit] + st + cl;
    DecodeEncoded(digit, info);
    NamedRead(digit, info, st, cl);
  }

  /** The parts of a name: one without a colon, and none of them with one. */
  ghost predicate PartsOf(name: string, parts: seq<string>) {
    && |parts| > 0 && Join(parts, ':') == name
    && (|parts| == 1 <==> ':' !in name)
    && (|parts| == 1 ==> parts == [name])
    && (|parts| == 2 ==> name == parts[0] + ":" + parts[1])
    && forall p :: p in parts ==> ':' !in p
  }

  lemma SplitPartsOf(name: string)
    ensures PartsOf(name, Split(name, ':'))
  {
    SplitCounts(name);
    JoinSplit(name, ':');
  }

  lemma LastPart(digit: string, st: seq<string>, cl: seq<string>)
    requires cl != []
    ensures var base := [digit] + st + cl;
            base[|base| - 1] == cl[|cl| - 1] && |base| == |st| + |cl| + 1
  {
  }

  lemma NamedTaken(digit: string, info: IPInfo, st: seq<string>, cl: seq<string>)
    requires ':' !in digit && Named(info) && PartsOf(info.status, st) && PartsOf(info.cluster, cl)
    requires info.lease == 0 && HasPrefix(cl[|cl| - 1], LEASE_PREFIX)
    ensures ReadParts([digit] + st + cl, 0) != Some((digit, info))
  {
    LastPart(digit, st, cl);
    ClusterTakenForLease(digit, info, st, cl, TakenLease([digit] + st + cl));
  }

  lemma NamedPlain(digit: string, info: IPInfo, st: seq<string>, cl: seq<string>)
    requires ':' !in digit && Named(info) && PartsOf(info.status, st) && PartsOf(info.cluster, cl)
    requires info.lease != 0 || !HasPrefix(cl[|cl| - 1], LEASE_PREFIX)
    ensures ReadParts([digit] + st + cl, info.lease) == Some((digit, info)) <==> |st| <= 2 && |cl| == 1
  {
    LastPart(digit, st, cl);
    NamedParts(digit, info, st, cl);
  }

  lemma NamedRead(digit: string, info: IPInfo, st: seq<string>, cl: seq<string>)
    requires ':' !in digit && Named(info) && PartsOf(info.status, st) && PartsOf(info.cluster, cl)
    ensures ReadParts([digit] + st + cl, info.lease) == Some((digit, info)) <==>
            && |st| <= 2 && |cl| == 1
            && (info.lease != 0 || !HasPrefix(info.cluster, LEASE_PREFIX))
  {
    if info.lease == 0 && HasPrefix(cl[|cl| - 1], LEASE_PREFIX) {
      NamedTaken(digit, info, st, cl);
    } else {
      NamedPlain(digit, info, st, cl);
    }
  }

  /** Parts without colons never read back as a cluster with one. */
  lemma PlainCluster(parts: seq<string>, digit: string, info: IPInfo, lease: int)
    requires ':' in info.cluster
    requires forall p :: p in parts ==> ':' !in p
    ensures DecodeParts(parts, lease) != Some((digit, info))
  {
  }

  // ---- the whole ledger ---------------------------------------------------

  /** `ds` lists every element of `s` once, in some order: one walk over a Go map. */
  ghost predicate Walks<T(!new)>(ds: seq<T>, s: set<T>) {
    && (forall d :: d in ds <==> d in s)
    && forall i, j :: 0 <= i < j < |ds| ==> ds[i] != ds[j]
  }

  function EncodeAll(ds: seq<string>, ips: IPs): seq<string>
    requires forall d :: d in ds ==> d in ips
  {
    seq(|ds|, i requires 0 <= i < |ds| => EncodeEntry(ds[i], ips[ds[i]]))
  }

  ghost predicate EncodesNetwork(ips: IPs, entries: seq<string>) {
    exists ds :: Walks(ds, ips.Keys) && entries == EncodeAll(ds, ips)
  }

  /** What writing `l` may produce: map order is free, and an empty network leaves no trace. */
  ghost predicate Encodes(l: Ledger, cr: CR) {
    && (forall k :: k in cr <==> k in l && l[k] != map[])
    && forall k :: k in cr ==> EncodesNetwork(l[k], cr[k])
  }

  function DecodeAll(entries: seq<string>): Option<IPs> {
    if entries == [] then Some(map[])
    else
      var front := DecodeAll(entries[..|entries| - 1]);
      var last := DecodeEntry(entries[|entries| - 1]);
      if front.None? || last.None? then None else Some(front.value[last.value.0 := last.value.1])
  }

  function Decode(cr: CR): Option<Ledger> {
    if forall k :: k in cr ==> DecodeAll(cr[k]).Some? then
      Some(map k | k in cr :: DecodeAll(cr[k]).value)
    else None
  }

  lemma {:induction false} DecodedDigits(entries: seq<string>)
    ensures var r := DecodeAll(entries); r.Some? ==> forall d :: d in r.value ==> ':' !in d
  {
    if entries == [] {
    } else {
      DecodedDigits(entries[..|entries| - 1]);
      DecodedDigit(entries[|entries| - 1]);
    }
  }

  /** Host parts without colons keep apart, whatever their entries turn into. */
  lemma {:induction false} DecodeEncodeAll(ds: seq<string>, ips: IPs)
    requires forall d :: d in ds ==> d in ips && ':' !in d && InInt64(ips[d].lease)
    ensures
      var r := DecodeAll(EncodeAll(ds, ips));
      && (r.Some? <==> forall d :: d in ds ==> DecodeEntry(EncodeEntry(d, ips[d])).Some?)
      && (r.Some? ==>
            && (forall d :: d in ds <==> d in r.value)
            && forall d :: d in ds ==> (d, r.value[d]) == DecodeEntry(EncodeEntry(d, ips[d])).value)
  {
    if ds == [] {
    } else {
      var front, last := ds[..|ds| - 1], ds[|ds| - 1];
      var entries := EncodeAll(ds, ips);
      assert ds == front + [last];
      assert entries[..|ds| - 1] == EncodeAll(front, ips);
      DecodeEncodeAll(front, ips);
      PlainDigitKept(last, ips[last]);
    }
  }

  lemma PlainDigitKept(digit: string, info: IPInfo)
    requires ':' !in digit && InInt64(info.lease)
    ensures var r := DecodeEntry(EncodeEntry(digit, info)); r.Some? ==> r.value.0 == digit
  {
    DecodeEncoded(digit, info);
    BaseHead(digit, info);
    var base := BaseParts(digit, info);
    if |base| > 1 {
      assert base[..|base| - 1][0] == base[0];
    }
  }

  lemma BaseHead(digit: string, info: IPInfo)
    requires ':' !in digit
    ensures BaseParts(digit, info)[0] == digit
  {
    SplitCounts(digit);
  }

  predicate KeepsAll(ips: IPs) {
    forall d :: d in ips ==> Keeps(d, ips[d])
  }

  predicate Readable(digit: string, info: IPInfo) {
    DecodeEntry(EncodeEntry(digit, info)) == Some((digit, info))
  }

  /** Where every entry reads back, so does the list of them. */
  lemma {:induction false} ReadableGivesBack(ds: seq<string>, ips: IPs, entries: seq<string>)
    requires |entries| == |ds| && forall d :: d in ds ==> d in ips
    requires forall i :: 0 <= i < |ds| ==> DecodeEntry(entries[i]) == Some((ds[i], ips[ds[i]]))
    ensures
      var r := DecodeAll(entries);
      && r.Some?
      && (forall d :: d in ds <==> d in r.value)
      && (forall d :: d in ds ==> r.value[d] == ips[d])
  {
    if ds == [] {
    } else {
      var front, last := ds[..|ds| - 1], ds[|ds| - 1];
      assert ds == front + [last];
      ReadableGivesBack(front, ips, entries[..|ds| - 1]);
    }
  }

  lemma GivenBackReadable(ips: IPs, ds: seq<string>, digit: string)
    requires Walks(ds, ips.Keys) && digit in ips
    requires forall d :: d in ips ==> ':' !in d && InInt64(ips[d].lease)
    requires DecodeAll(EncodeAll(ds, ips)) == Some(ips)
    ensures Readable(digit, ips[digit])
  {
    DecodeEncodeAll(ds, ips);
    assert digit in ds;
  }

  lemma KeptNetwork(ips: IPs, ds: seq<string>)
    requires Walks(ds, ips.Keys) && KeepsAll(ips) && forall d :: d in ips ==> InInt64(ips[d].lease)
    ensures DecodeAll(EncodeAll(ds, ips)) == Some(ips)
  {
    var entries := EncodeAll(ds, ips);
    forall i | 0 <= i < |ds| ensures DecodeEntry(entries[i]) == Some((ds[i], ips[ds[i]])) {
      KeptAt(ips, ds[i]);
    }
    WalkBack(ds, ips, entries);
  }

  lemma KeptAt(ips: IPs, digit: string)
    requires digit in ips && KeepsAll(ips) && InInt64(ips[digit].lease)
    ensures DecodeEntry(EncodeEntry(digit, ips[digit])) == Some((digit, ips[digit]))
  {
    EntryRoundTrip(digit, ips[digit]);
  }

  lemma WalkBack(ds: seq<string>, ips: IPs, entries: seq<string>)
    requires Walks(ds, ips.Keys) && |entries| == |ds|
    requires forall i :: 0 <= i < |ds| ==> DecodeEntry(entries[i]) == Some((ds[i], ips[ds[i]]))
    ensures DecodeAll(entries) == Some(ips)
  {
    ReadableGivesBack(ds, ips, entries);
    SameMap(DecodeAll(entries).value, ips, ds);
  }

  lemma SameMap(a: IPs, b: IPs, ds: seq<string>)
    requires forall d :: d in ds <==> d in a
    requires forall d :: d in ds <==> d in b
    requires forall d :: d in ds ==> a[d] == b[d]
    ensures a == b
  {
  }

  lemma NetworkRoundTrip(ips: IPs, entries: seq<string>)
    requires EncodesNetwork(ips, entries) && forall d :: d in ips ==> InInt64(ips[d].lease)
    ensures DecodeAll(entries) == Some(ips) <==> KeepsAll(ips)
  {
    var ds :| Walks(ds, ips.Keys) && entries == EncodeAll(ds, ips);
    if KeepsAll(ips) {
      KeptNetwork(ips, ds);
    } else if DecodeAll(entries) == Some(ips) {
      DecodedDigits(entries);
      forall d | d in ips ensures Keeps(d, ips[d]) {
        GivenBackReadable(ips, ds, d);
        EntryRoundTrip(d, ips[d]);
      }
    }
  }

  predicate LeasesFit(l: Ledger) {
    forall k, d :: k in l && d in l[k] ==> InInt64(l[k][d].lease)
  }

  predicate KeepsLedger(l: Ledger) {
    forall k :: k in l ==> KeepsAll(l[k])
  }

  /** Reading every network back as the same network is reading the ledger back. */
  lemma DecodeIs(cr: CR, l: Ledger)
    requires cr.Keys == l.Keys
    ensures Decode(cr) == Some(l) <==> forall k :: k in cr ==> DecodeAll(cr[k]) == Some(l[k])
  {
    if Decode(cr).Some? {
      DecodedAt(cr);
      assert (forall k :: k in cr ==> DecodeAll(cr[k]) == Some(l[k])) ==> Decode(cr).value == l;
    }
  }

  lemma DecodedAt(cr: CR)
    requires Decode(cr).Some?
    ensures Decode(cr).value.Keys == cr.Keys
    ensures forall k :: k in cr ==> DecodeAll(cr[k]) == Some(Decode(cr).value[k])
  {
  }

  lemma KeepsNonEmpty(l: Ledger)
    ensures KeepsLedger(l) <==> KeepsLedger(DropEmpty(l))
  {
    if KeepsLedger(DropEmpty(l)) {
      forall k | k in l ensures KeepsAll(l[k]) {
        assert l[k] != map[] ==> k in DropEmpty(l) && DropEmpty(l)[k] == l[k];
      }
    }
  }

  /** The exact domain of the format: in whatever order the maps are walked, what is read back is
      the ledger without its empty networks if and only if every entry is one the format keeps. */
  lemma LedgerRoundTrip(l: Ledger, cr: CR)
    requires Encodes(l, cr) && LeasesFit(l)
    ensures Decode(cr) == Some(DropEmpty(l)) <==> KeepsLedger(l)
  {
    var kept := DropEmpty(l);
    forall k | k in cr ensures k in kept && (DecodeAll(cr[k]) == Some(kept[k]) <==> KeepsAll(kept[k])) {
      NetworkRoundTrip(l[k], cr[k]);
    }
    DecodeIs(cr, kept);
    KeepsNonEmpty(l);
  }

  // ---- the two converters -------------------------------------------------

  // ---- the text itself -----------------------------------------------------------------

  /** The fields of an entry, as they stand between its colons. */
  function Fields(digit: string, info: IPInfo): seq<string> {
    [digit] + (if info.status != "" && info.cluster != "" then [info.status, info.cluster] else []) +
    if info.lease != 0 then ["exp=" + Itoa(info.lease)] else []
  }

  lemma EntryText(digit: string, info: IPInfo)
    ensures EncodeEntry(digit, info) == Join(Fields(digit, info), ':')
  {
    var named := info.status != "" && info.cluster != "";
    var base := [digit] + if named then [info.status, info.cluster] else [];
    if named {
      assert base == [digit, info.status] + [info.cluster] && [digit, info.status] == [digit] + [info.status];
      JoinAppend([digit], info.status, ':');
      JoinAppend([digit, info.status], info.cluster, ':');
    } else {
      assert base == [digit];
    }
    if info.lease != 0 {
      JoinAppend(base, "exp=" + Itoa(info.lease), ':');
    } else {
      assert Fields(digit, info) == base;
    }
  }

  /** A field that is no lease. */
  predicate PlainField(p: string) {
    ':' !in p && !HasPrefix(p, "exp=")
  }

  /** What is read of an entry without a lease, by the number of its fields: the host part alone, with a
      status, with a holder as well, with a status of two fields; of more, all but the first three is
      dropped. */
  lemma EntryReads(parts: seq<string>)
    requires parts != [] && (forall p :: p in parts ==> ':' !in p) && PlainField(parts[|parts| - 1])
    ensures DecodeEntry(Join(parts, ':')) == Some((parts[0],
              if |parts| == 1 then IPInfo("", "", 0)
              else if |parts| == 2 then IPInfo(parts[1], "", 0)
              else if |parts| == 4 then IPInfo(parts[1] + ":" + parts[2], parts[3], 0)
              else IPInfo(parts[1], parts[2], 0)))
  {
    SplitJoin(parts, ':');
  }

  /** A last field `exp=t` behind others is taken off, and is the lease where it spells a 64-bit number;
      alone it is an entry that cannot be read. */
  lemma LeaseReads(entry: string, t: string)
    requires ':' !in t
    ensures DecodeEntry("exp=" + t).None?
    ensures PlainField(Split(entry, ':')[|Split(entry, ':')| - 1]) ==>
              var base, n := DecodeEntry(entry), ParseInt(t);
              && base.Some?
              && DecodeEntry(entry + ":" + ("exp=" + t)) ==
                 Some((base.value.0, base.value.1.(lease := if n.Some? then n.value else 0)))
  {
    SplitPlain("exp=" + t, ':');
    SplitConcat(entry, "exp=" + t, ':');
    var parts := Split(entry, ':') + ["exp=" + t];
    assert parts[..|parts| - 1] == Split(entry, ':');
    assert TrimPrefix("exp=" + t, "exp=") == t;
  }

  method ConvertToCRFormat(info: Ledger) returns (networks: CR)
    ensures Encodes(info, networks)
  {
    networks := map[];
    var keys := info.Keys;
    while keys != {}
      invariant keys <= info.Keys
      invariant forall k :: k in networks <==> k in info && k !in keys && info[k] != map[]
      invariant forall k :: k in networks ==> EncodesNetwork(info[k], networks[k])
    {
      var key :| key in keys;
      keys := keys - {key};
      var digits := info[key].Keys;
      ghost var ds := [];
      ghost var before := networks;
      while digits != {}
        invariant digits <= info[key].Keys
        invariant Walks(ds, info[key].Keys - digits)
        invariant ds == [] ==> networks == before
        invariant ds != [] ==> networks == before[key := EncodeAll(ds, info[key])]
      {
        var digit :| digit in digits;
        digits := digits - {digit};
        var entry := WriteEntry(digit, info[key][digit]);
        networks := networks[key := (if key in networks then networks[key] else []) + [entry]];
        assert EncodeAll(ds + [digit], info[key]) == EncodeAll(ds, info[key]) + [entry];
        ds := ds + [digit];
      }
      assert info[key].Keys - digits == info[key].Keys;
      WalkEmpty(ds, info[key].Keys);
    }
  }

  /** One round of the loop. */
  method WriteEntry(digit: string, details: IPInfo) returns (entry: string)
    ensures entry == EncodeEntry(digit, details)
  {
    entry := digit;
    if details.status != "" && details.cluster != "" {
      entry := digit + ":" + details.status + ":" + details.cluster;
    }
    if details.lease != 0 {
      entry := entry + ":" + LEASE_PREFIX + Itoa(details.lease);
    }
  }

  lemma WalkEmpty<T(!new)>(ds: seq<T>, s: set<T>)
    requires Walks(ds, s)
    ensures ds == [] <==> s == {}
  {
    if ds != [] {
      assert ds[0] in s;
    }
  }

  method ConvertFromCRFormat(data: CR) returns (result: Option<Ledger>)
    ensures result == Decode(data)
  {
    var ledger: Ledger := map[];
    var keys := data.Keys;
    while keys != {}
      invariant keys <= data.Keys
      invariant ledger.Keys == data.Keys - keys
      invariant forall k :: k in ledger ==> DecodeAll(data[k]) == Some(ledger[k])
    {
      var key :| key in keys;
      keys := keys - {key};
      var ips: IPs := map[];
      for i := 0 to |data[key]|
        invariant DecodeAll(data[key][..i]) == Some(ips)
      {
        assert data[key][..i + 1][..i] == data[key][..i];
        var entry := ReadEntry(data[key][i]);
        if entry.None? {
          PrefixFails(data[key], i + 1);
          assert DecodeAll(data[key]).None? && key in data;
          return None;
        }
        ips := ips[entry.value.0 := entry.value.1];
      }
      assert data[key][..|data[key]|] == data[key];
      ledger := ledger[key := ips];
    }
    assert forall k :: k in data ==> DecodeAll(data[k]) == Some(ledger[k]);
    assert Decode(data).value == ledger;
    result := Some(ledger);
  }

  lemma {:induction false} PrefixFails(entries: seq<string>, n: nat)
    requires n <= |entries| && DecodeAll(entries[..n]).None?
    ensures DecodeAll(entries).None?
    decreases |entries| - n
  {
    if n == |entries| {
      assert entries[..n] == entries;
    } else {
      assert entries[..n + 1][..n] == entries[..n];
      PrefixFails(entries, n + 1);
    }
  }

  /** One round of the loop: `parts` is resliced after its lease is taken off. */
  method ReadEntry(entry: string) returns (r: Option<(string, IPInfo)>)
    ensures r == DecodeEntry(entry)
  {
    var parts := Split(entry, ':');
    var info := BLANK;
    var last := parts[|parts| - 1];
    if HasPrefix(last, LEASE_PREFIX) {
      var v := ParseInt(TrimPrefix(last, LEASE_PREFIX));
      if v.Some? {
        info := info.(lease := v.value);
      }
      parts := parts[..|parts| - 1];
    }
    if |parts| == 0 {
      return None;
    }
    if |parts| > 1 {
      info := info.(status := parts[1]);
      if |parts| > 2 {
        if |parts| == 4 {
          info := info.(status := parts[1] + ":" + parts[2], cluster := parts[3]);
        } else {
          info := info.(cluster := parts[2]);
        }
      }
    }
    r := Some((parts[0], info));
  }
}

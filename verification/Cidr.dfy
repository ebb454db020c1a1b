/** CIDR expansion: section 3.1 of RFC 4632 for the block, section 2.1 of RFC 3021 for its two ends. */
module Cidr {
  import opened Text
  import opened Decimal
  import opened Address
  import opened CrCodec

  /** The number of IPv4 addresses; a uint32 counter wraps here. */
  const SPACE := 0x1_0000_0000

  function Pow2(n: nat): (p: nat)
    ensures p > 0
  {
    if n == 0 then 1 else 2 * Pow2(n - 1)
  }

  // ---- blocks -------------------------------------------------------------

  /** `a` with its last `bits` bits cleared: the mask of section 3.1 of RFC 4632. */
  function Cleared(a: int, bits: nat): int
    decreases bits
  {
    if bits == 0 then a else 2 * Cleared(a / 2, bits - 1)
  }

  /** `a` with its last `bits` bits set. */
  function Filled(a: int, bits: nat): int
    decreases bits
  {
    if bits == 0 then a else 2 * Filled(a / 2, bits - 1) + 1
  }

  datatype Block = Block(address: int, length: int) {
    predicate Valid() {
      0 <= address < SPACE && 0 <= length <= 32
    }

    function HostBits(): nat
      requires Valid()
    {
      32 - length
    }

    function Size(): nat
      requires Valid()
    {
      Pow2(HostBits())
    }

    function Network(): int
      requires Valid()
    {
      Cleared(address, HostBits())
    }

    function Broadcast(): int
      requires Valid()
    {
      Filled(Network(), HostBits())
    }

    /** `ipNet.Contains`: the masked address is the network address. */
    predicate Contains(a: int)
      requires Valid()
    {
      Cleared(a, HostBits()) == Network()
    }

    predicate ExcludesEnds()
      requires Valid()
    {
      HostBits() > 1
    }

    predicate Usable(a: int, reserved: seq<string>)
      requires Valid()
    {
      && !(ExcludesEnds() && (a == Network() || a == Broadcast()))
      && Itoa(a % 256) !in reserved
    }
  }

  lemma {:induction false} ClearedInterval(a: int, x: int, bits: nat)
    ensures Cleared(x, bits) == Cleared(a, bits) <==> Cleared(a, bits) <= x < Cleared(a, bits) + Pow2(bits)
    decreases bits
  {
    if bits == 0 {
    } else {
      ClearedInterval(a / 2, x / 2, bits - 1);
    }
  }

  lemma {:induction false} FilledIsLast(a: int, bits: nat)
    ensures Filled(Cleared(a, bits), bits) == Cleared(a, bits) + Pow2(bits) - 1
    decreases bits
  {
    if bits == 0 {
    } else {
      assert Cleared(a, bits) / 2 == Cleared(a / 2, bits - 1);
      FilledIsLast(a / 2, bits - 1);
    }
  }

  lemma {:induction false} ClearedFits(a: int, bits: nat, width: nat)
    requires bits <= width && 0 <= a < Pow2(width)
    ensures 0 <= Cleared(a, bits) && Cleared(a, bits) + Pow2(bits) <= Pow2(width)
    decreases bits
  {
    if bits == 0 {
    } else {
      ClearedFits(a / 2, bits - 1, width - 1);
    }
  }

  /** A block is the interval from its network to its broadcast address. */
  lemma BlockIsInterval(b: Block, a: int)
    requires b.Valid()
    ensures b.Contains(a) <==> b.Network() <= a <= b.Broadcast()
    ensures b.Broadcast() == b.Network() + b.Size() - 1
  {
    ClearedInterval(b.address, a, b.HostBits());
    FilledIsLast(b.address, b.HostBits());
  }

  lemma BlockFits(b: Block)
    requires b.Valid()
    ensures 0 <= b.Network() && b.Network() + b.Size() <= SPACE
  {
    Pow2Of32();
    ClearedFits(b.address, b.HostBits(), 32);
  }

  lemma Pow2Of32()
    ensures Pow2(31) == SPACE / 2 && Pow2(32) == SPACE
  {
    assert Pow2(8) == 0x100;
    assert Pow2(16) == 0x1_0000;
    assert Pow2(24) == 0x100_0000;
    assert Pow2(31) == 0x8000_0000;
  }

  lemma {:induction false} Pow2Grows(m: nat, n: nat)
    requires m <= n
    ensures Pow2(m) <= Pow2(n)
  {
    if m < n {
      Pow2Grows(m, n - 1);
    }
  }

  /** With at least one prefix bit a block is at most half of the address space. */
  lemma BlockIsSmall(b: Block)
    requires b.Valid() && b.length >= 1
    ensures b.Size() <= SPACE / 2
  {
    Pow2Of32();
    Pow2Grows(b.HostBits(), 31);
  }

  /** `current++` on a uint32. */
  function Increment(a: int): int {
    if a == SPACE - 1 then 0 else a + 1
  }

  /** The counter after `n` increments from the network address. */
  function Counter(b: Block, n: nat): (a: int)
    requires b.Valid()
    ensures 0 <= a < SPACE
    decreases n
  {
    if n == 0 then BlockFits(b); b.Network() else Increment(Counter(b, n - 1))
  }

  /** The loop runs over the block once, in order, and then stops, even where the counter wraps. */
  lemma {:induction false} CounterInBlock(b: Block, n: nat)
    requires b.Valid() && b.length >= 1 && n <= b.Size()
    ensures b.Contains(Counter(b, n)) <==> n < b.Size()
    ensures n < b.Size() ==> Counter(b, n) == b.Network() + n
    decreases n
  {
    BlockFits(b);
    BlockIsSmall(b);
    if n > 0 {
      CounterInBlock(b, n - 1);
    }
    BlockIsInterval(b, Counter(b, n));
  }

  /** The counter leaves the block if and only if the prefix has at least one bit: a /0 block
      contains every value the counter can take. */
  lemma LoopEnds(b: Block)
    requires b.Valid()
    ensures (exists n: nat :: !b.Contains(Counter(b, n))) <==> b.length >= 1
  {
    BlockFits(b);
    if b.length >= 1 {
      CounterInBlock(b, b.Size());
    } else {
      Pow2Of32();
      forall n: nat ensures b.Contains(Counter(b, n)) {
        BlockIsInterval(b, Counter(b, n));
      }
    }
  }

  // ---- addresses as text --------------------------------------------------

  /** The text of a /24 prefix: the first three octets. */
  function KeyText(p: int): string {
    Itoa(p / 0x1_0000) + "." + Itoa(p / 0x100 % 0x100) + "." + Itoa(p % 0x100)
  }

  function Dotted(a: int): string {
    Full(KeyText(a / 0x100), Itoa(a % 0x100))
  }

  lemma NoDot(n: int)
    ensures '.' !in Itoa(n)
  {
    forall c | c in Itoa(n) ensures c != '.' {}
  }

  lemma SplitKey(p: int)
    ensures Split(KeyText(p), '.') == [Itoa(p / 0x1_0000), Itoa(p / 0x100 % 0x100), Itoa(p % 0x100)]
  {
    var x, y, z := Itoa(p / 0x1_0000), Itoa(p / 0x100 % 0x100), Itoa(p % 0x100);
    NoDot(p / 0x1_0000);
    NoDot(p / 0x100 % 0x100);
    NoDot(p % 0x100);
    SplitPlain(x, '.');
    SplitPlain(y, '.');
    SplitPlain(z, '.');
    SplitConcat(x, y, '.');
    SplitConcat(x + "." + y, z, '.');
  }

  lemma SplitDotted(a: int)
    ensures Split(Dotted(a), '.') == Split(KeyText(a / 0x100), '.') + [Itoa(a % 0x100)]
    ensures |Split(Dotted(a), '.')| == 4
    ensures Join(Split(Dotted(a), '.')[..3], '.') == KeyText(a / 0x100)
  {
    NoDot(a % 0x100);
    SplitFull(KeyText(a / 0x100), Itoa(a % 0x100));
    SplitKey(a / 0x100);
    JoinSplit(KeyText(a / 0x100), '.');
    var key := Split(KeyText(a / 0x100), '.');
    assert (key + [Itoa(a % 0x100)])[..3] == key;
  }

  /** An address as text: its four octets, highest first. */
  lemma DottedExactly(a: nat, b: nat, c: nat, d: nat)
    requires a < 256 && b < 256 && c < 256 && d < 256
    ensures Dotted(0x100_0000 * a + 0x1_0000 * b + 0x100 * c + d) ==
            Itoa(a) + "." + Itoa(b) + "." + Itoa(c) + "." + Itoa(d)
  {
    var n := 0x100_0000 * a + 0x1_0000 * b + 0x100 * c + d;
    var p := 0x1_0000 * a + 0x100 * b + c;
    assert n == 0x100 * p + d;
    assert n / 0x100 == p && n % 0x100 == d;
    assert p / 0x1_0000 == a && p / 0x100 == 0x100 * a + b && p % 0x100 == c;
    assert (0x100 * a + b) % 0x100 == b;
  }

  ghost predicate IsKey(key: string) {
    exists p :: 0 <= p < 0x100_0000 && KeyText(p) == key
  }

  function Atoi(s: string): int {
    var n := ParseInt(s);
    if n.Some? then n.value else 0
  }

  /** The sign tells how two keys compare octet by octet, as numbers. */
  function CompareNetworkKeys(a: string, b: string): int {
    CompareOctets(Split(a, '.'), Split(b, '.'), 0)
  }

  function CompareOctets(a: seq<string>, b: seq<string>, i: nat): int
    decreases 3 - i
  {
    if i >= 3 || i >= |a| || i >= |b| then 0
    else if Atoi(a[i]) != Atoi(b[i]) then Atoi(a[i]) - Atoi(b[i])
    else CompareOctets(a, b, i + 1)
  }

  lemma OctetsCompare(a: seq<string>, b: seq<string>)
    requires |a| == 3 && |b| == 3
    ensures CompareOctets(a, b, 0) ==
            if Atoi(a[0]) != Atoi(b[0]) then Atoi(a[0]) - Atoi(b[0])
            else if Atoi(a[1]) != Atoi(b[1]) then Atoi(a[1]) - Atoi(b[1])
            else Atoi(a[2]) - Atoi(b[2])
  {
    assert CompareOctets(a, b, 3) == 0;
    assert CompareOctets(a, b, 2) == Atoi(a[2]) - Atoi(b[2]);
  }

  lemma AtoiItoa(n: int)
    requires 0 <= n < 0x100
    ensures Atoi(Itoa(n)) == n
  {
    ParseItoa(n);
  }

  lemma KeyOctets(p: int)
    requires 0 <= p < 0x100_0000
    ensures var o := Split(KeyText(p), '.');
            |o| == 3 && Atoi(o[0]) == p / 0x1_0000 && Atoi(o[1]) == p / 0x100 % 0x100 && Atoi(o[2]) == p % 0x100
  {
    SplitKey(p);
    AtoiItoa(p / 0x1_0000);
    AtoiItoa(p / 0x100 % 0x100);
    AtoiItoa(p % 0x100);
  }

  /** Keys of prefixes compare as the prefixes do. */
  lemma KeysCompare(p: int, q: int)
    requires 0 <= p < 0x100_0000 && 0 <= q < 0x100_0000
    ensures CompareNetworkKeys(KeyText(p), KeyText(q)) > 0 <==> p > q
    ensures CompareNetworkKeys(KeyText(p), KeyText(q)) == 0 <==> p == q
  {
    KeyOctets(p);
    KeyOctets(q);
    OctetsCompare(Split(KeyText(p), '.'), Split(KeyText(q), '.'));
    OctetOrder(p, q);
  }

  lemma OctetOrder(p: int, q: int)
    requires 0 <= p < 0x100_0000 && 0 <= q < 0x100_0000
    ensures
      var x, y, z := p / 0x1_0000, p / 0x100 % 0x100, p % 0x100;
      var x', y', z' := q / 0x1_0000, q / 0x100 % 0x100, q % 0x100;
      && p == x * 0x1_0000 + y * 0x100 + z && q == x' * 0x1_0000 + y' * 0x100 + z'
      && 0 <= y < 0x100 && 0 <= z < 0x100 && 0 <= y' < 0x100 && 0 <= z' < 0x100
  {
  }

  ghost function Prefix(key: string): (p: int)
    requires IsKey(key)
    ensures 0 <= p < 0x100_0000 && KeyText(p) == key
  {
    var p :| 0 <= p < 0x100_0000 && KeyText(p) == key;
    p
  }

  lemma PrefixOfKey(p: int)
    requires 0 <= p < 0x100_0000
    ensures IsKey(KeyText(p)) && Prefix(KeyText(p)) == p
  {
    KeysCompare(Prefix(KeyText(p)), p);
  }

  // ---- enumeration --------------------------------------------------------

  /** The usable addresses among the first `n` of a block, in the order they are met. */
  function Usables(b: Block, reserved: seq<string>, n: nat): seq<int>
    requires b.Valid()
  {
    if n == 0 then []
    else
      var front := Usables(b, reserved, n - 1);
      var a := b.Network() + n - 1;
      if b.Usable(a, reserved) then front + [a] else front
  }

  ghost predicate Ascending(s: seq<int>) {
    forall i, j :: 0 <= i < j < |s| ==> s[i] < s[j]
  }

  lemma {:induction false} UsablesMember(b: Block, reserved: seq<string>, n: nat, a: int)
    requires b.Valid()
    ensures a in Usables(b, reserved, n) <==> b.Network() <= a < b.Network() + n && b.Usable(a, reserved)
    decreases n
  {
    if n == 0 {
    } else {
      UsablesMember(b, reserved, n - 1, a);
    }
  }

  lemma {:induction false} UsablesAscending(b: Block, reserved: seq<string>, n: nat)
    requires b.Valid()
    ensures Ascending(Usables(b, reserved, n))
    decreases n
  {
    if n == 0 {
    } else {
      UsablesAscending(b, reserved, n - 1);
      var front := Usables(b, reserved, n - 1);
      forall i | 0 <= i < |front| ensures front[i] < b.Network() + n - 1 {
        UsablesMember(b, reserved, n - 1, front[i]);
      }
    }
  }

  /** The enumeration is the one strictly ascending list of the addresses of the block, without
      its two ends when it has at least two host bits, and without reserved last octets. */
  lemma UsablesExact(b: Block, reserved: seq<string>)
    requires b.Valid()
    ensures Ascending(Usables(b, reserved, b.Size()))
    ensures forall a :: a in Usables(b, reserved, b.Size()) <==>
              && b.Network() <= a < b.Network() + b.Size()
              && (b.length <= 30 ==> b.Network() < a < b.Network() + b.Size() - 1)
              && Itoa(a % 0x100) !in reserved
  {
    UsablesAscending(b, reserved, b.Size());
    BlockIsInterval(b, b.Network());
    forall a ensures a in Usables(b, reserved, b.Size()) <==>
                       b.Network() <= a < b.Network() + b.Size() && b.Usable(a, reserved) {
      UsablesMember(b, reserved, b.Size(), a);
    }
  }

  /** With nothing reserved: all but the two ends, or everything in a /31 or /32. */
  lemma {:induction false} UsablesCount(b: Block, n: nat)
    requires b.Valid() && n <= b.Size()
    ensures |Usables(b, [], n)| == if !b.ExcludesEnds() then n
                                   else if n == 0 then 0
                                   else if n < b.Size() then n - 1 else n - 2
  {
    if n == 0 {
    } else {
      UsablesCount(b, n - 1);
      BlockIsInterval(b, b.Network());
      if b.ExcludesEnds() {
        assert b.Size() == 2 * Pow2(b.HostBits() - 1);
      }
    }
  }

  lemma BlockCount(b: Block)
    requires b.Valid()
    ensures |Usables(b, [], b.Size())| == if b.length == 32 then 1 else if b.length == 31 then 2 else b.Size() - 2
  {
    UsablesCount(b, b.Size());
    if b.length >= 31 {
      assert Pow2(0) == 1 && Pow2(1) == 2;
    } else {
      assert b.Size() == 2 * Pow2(b.HostBits() - 1);
    }
  }

  function Append(g: map<string, seq<string>>, a: int): map<string, seq<string>> {
    var key := KeyText(a / 0x100);
    g[key := (if key in g then g[key] else []) + [Itoa(a % 0x100)]]
  }

  /** Grouping by key, as appending to a map of slices does it. */
  function Group(s: seq<int>): map<string, seq<string>> {
    if s == [] then map[] else Append(Group(s[..|s| - 1]), s[|s| - 1])
  }

  lemma GroupAppend(s: seq<int>, a: int)
    ensures Group(s + [a]) == Append(Group(s), a)
  {
    assert (s + [a])[..|s|] == s;
  }

  lemma GroupEmpty(s: seq<int>)
    ensures |Group(s)| == 0 <==> s == []
  {
    if s != [] {
      assert KeyText(s[|s| - 1] / 0x100) in Group(s);
    }
  }

  lemma UsablesNext(b: Block, reserved: seq<string>, n: nat)
    requires b.Valid() && b.length >= 1 && n < b.Size()
    ensures Usables(b, reserved, n + 1) ==
            if b.Usable(Counter(b, n), reserved) then Usables(b, reserved, n) + [Counter(b, n)]
            else Usables(b, reserved, n)
  {
    CounterInBlock(b, n);
    assert Counter(b, n) == b.Network() + n;
  }

  method CIDRToNetworks(b: Block, reserved: seq<string>) returns (result: Option<map<string, seq<string>>>)
    requires b.Valid() && b.length >= 1
    ensures result == var usable := Usables(b, reserved, b.Size());
                      if usable == [] then None else Some(Group(usable))
  {
    var networks: map<string, seq<string>> := map[];
    var current := b.Network();
    ghost var n := 0;
    ghost var listed: seq<int> := [];
    CounterInBlock(b, 0);
    while b.Contains(current)
      invariant 0 <= n <= b.Size() && current == Counter(b, n)
      invariant b.Contains(current) <==> n < b.Size()
      invariant listed == Usables(b, reserved, n) && networks == Group(listed)
      decreases b.Size() - n
    {
      CounterInBlock(b, n);
      UsablesNext(b, reserved, n);
      GroupAppend(listed, current);
      networks := Visit(b, reserved, current, networks);
      if b.Usable(current, reserved) {
        listed := listed + [current];
      }
      current := Increment(current);
      n := n + 1;
      CounterInBlock(b, n);
    }
    GroupEmpty(listed);
    result := if |networks| == 0 then None else Some(networks);
  }

  /** One round of the loop. */
  method Visit(b: Block, reserved: seq<string>, current: int, networks: map<string, seq<string>>)
    returns (updated: map<string, seq<string>>)
    requires b.Valid()
    ensures updated == if b.Usable(current, reserved) then Append(networks, current) else networks
  {
    updated := networks;
    if b.ExcludesEnds() && current == b.Network() {
      return;
    }
    if b.ExcludesEnds() && current == b.Broadcast() {
      return;
    }
    SplitDotted(current);
    var octets := Split(Dotted(current), '.');
    var networkKey := Join(octets[..3], '.');
    var lastOctet := octets[3];
    if lastOctet in reserved {
      return;
    }
    updated := networks[networkKey := (if networkKey in networks then networks[networkKey] else []) + [lastOctet]];
  }

  // ---- the flat list ------------------------------------------------------

  function LastOctet(a: int): string {
    Itoa(a % 0x100)
  }

  /** The last octets of the addresses of `s` with prefix `p`, in the order of `s`. */
  function OctetsOf(s: seq<int>, p: int): seq<string> {
    if s == [] then []
    else
      var front := OctetsOf(s[..|s| - 1], p);
      var a := s[|s| - 1];
      if a / 0x100 == p then front + [LastOctet(a)] else front
  }

  ghost predicate InSpace(s: seq<int>) {
    forall i :: 0 <= i < |s| ==> 0 <= s[i] < SPACE
  }

  lemma KeyTextInjective(p: int, q: int)
    requires 0 <= p < 0x100_0000 && 0 <= q < 0x100_0000
    ensures KeyText(p) == KeyText(q) ==> p == q
  {
    KeysCompare(p, q);
  }

  lemma AppendAt(g: map<string, seq<string>>, a: int, p: int)
    requires 0 <= a < SPACE && 0 <= p < 0x100_0000
    ensures KeyText(p) in Append(g, a) <==> KeyText(p) in g || p == a / 0x100
    ensures KeyText(p) in Append(g, a) ==>
              Append(g, a)[KeyText(p)] ==
              (if KeyText(p) in g then g[KeyText(p)] else []) + if p == a / 0x100 then [Itoa(a % 0x100)] else []
  {
    KeyTextInjective(p, a / 0x100);
  }

  /** A group holds exactly the octets of its prefix, in the order they were listed. */
  lemma {:induction false} GroupIsByPrefix(s: seq<int>, p: int)
    requires InSpace(s) && 0 <= p < 0x100_0000
    ensures KeyText(p) in Group(s) ==> Group(s)[KeyText(p)] == OctetsOf(s, p)
    ensures KeyText(p) !in Group(s) ==> OctetsOf(s, p) == []
  {
    if s == [] {
    } else {
      var front := s[..|s| - 1];
      GroupIsByPrefix(front, p);
      AppendAt(Group(front), s[|s| - 1], p);
    }
  }

  lemma {:induction false} GroupKeys(s: seq<int>)
    requires InSpace(s)
    ensures forall key :: key in Group(s) ==> IsKey(key)
    ensures forall i :: 0 <= i < |s| ==> KeyText(s[i] / 0x100) in Group(s)
  {
    if s == [] {
    } else {
      var front, last := s[..|s| - 1], s[|s| - 1];
      assert s == front + [last];
      GroupKeys(front);
      PrefixOfKey(last / 0x100);
    }
  }

  function Map<A, B>(f: A -> B, s: seq<A>): (r: seq<B>)
    ensures |r| == |s| && forall i :: 0 <= i < |s| ==> r[i] == f(s[i])
  {
    seq(|s|, i requires 0 <= i < |s| => f(s[i]))
  }

  lemma MapConcat<A, B>(f: A -> B, s: seq<A>, t: seq<A>)
    ensures Map(f, s + t) == Map(f, s) + Map(f, t)
  {
  }

  function DottedAll(s: seq<int>): seq<string> {
    Map(Dotted, s)
  }

  function FullAll(key: string, octets: seq<string>): seq<string> {
    seq(|octets|, i requires 0 <= i < |octets| => Full(key, octets[i]))
  }

  /** The concatenation of the groups of the prefixes `ps`. */
  function Flatten(ps: seq<int>, s: seq<int>): seq<string> {
    if ps == [] then []
    else
      var p := ps[|ps| - 1];
      Flatten(ps[..|ps| - 1], s) + FullAll(KeyText(p), OctetsOf(s, p))
  }

  lemma {:induction false} OctetsElsewhere(s: seq<int>, t: seq<int>, p: int)
    requires forall i :: 0 <= i < |t| ==> t[i] / 0x100 != p
    ensures OctetsOf(s + t, p) == OctetsOf(s, p)
  {
    if t == [] {
      assert s + t == s;
    } else {
      var front := t[..|t| - 1];
      assert (s + t)[..|s + t| - 1] == s + front;
      OctetsElsewhere(s, front, p);
    }
  }

  lemma {:induction false} OctetsHere(s: seq<int>, t: seq<int>, p: int)
    requires forall i :: 0 <= i < |s| ==> s[i] / 0x100 != p
    requires forall i :: 0 <= i < |t| ==> t[i] / 0x100 == p
    ensures OctetsOf(s + t, p) == OctetsOf([], p) + Map(LastOctet, t)
  {
    if t == [] {
      OctetsElsewhere([], s, p);
      assert [] + s == s + t;
    } else {
      var front, last := t[..|t| - 1], t[|t| - 1];
      assert (s + t)[..|s + t| - 1] == s + front;
      OctetsHere(s, front, p);
      MapConcat(LastOctet, front, [last]);
      assert t == front + [last] && Map(LastOctet, [last]) == [LastOctet(last)];
    }
  }

  /** The group of one prefix reads as the full addresses it came from. */
  lemma GroupReads(t: seq<int>, p: int)
    requires forall i :: 0 <= i < |t| ==> t[i] / 0x100 == p
    ensures FullAll(KeyText(p), Map(LastOctet, t)) == DottedAll(t)
  {
  }

  lemma FullAllAppend(key: string, octets: seq<string>, last: string)
    ensures FullAll(key, octets + [last]) == FullAll(key, octets) + [Full(key, last)]
  {
  }

  lemma {:induction false} FlattenElsewhere(ps: seq<int>, s: seq<int>, t: seq<int>)
    requires forall i :: 0 <= i < |t| ==> t[i] / 0x100 !in ps
    ensures Flatten(ps, s + t) == Flatten(ps, s)
  {
    if ps == [] {
    } else {
      var front, p := ps[..|ps| - 1], ps[|ps| - 1];
      assert ps == front + [p];
      FlattenElsewhere(front, s, t);
      OctetsElsewhere(s, t, p);
    }
  }

  /** Where the prefixes below `p` end in an ascending list. */
  lemma Boundary(s: seq<int>, p: int) returns (n: nat)
    requires Ascending(s)
    ensures n <= |s|
    ensures forall i :: 0 <= i < n ==> s[i] / 0x100 < p
    ensures forall i :: n <= i < |s| ==> s[i] / 0x100 >= p
  {
    n := 0;
    while n < |s| && s[n] / 0x100 < p
      invariant n <= |s| && forall i :: 0 <= i < n ==> s[i] / 0x100 < p
    {
      n := n + 1;
    }
    forall i | n <= i < |s| ensures s[i] / 0x100 >= p {
      assert i > n ==> s[n] < s[i];
    }
  }

  lemma AscendingMember(ps: seq<int>, q: int)
    requires Ascending(ps) && q in ps
    ensures q <= ps[|ps| - 1] && ps[|ps| - 1] !in ps[..|ps| - 1]
  {
    var i :| 0 <= i < |ps| && ps[i] == q;
    assert i < |ps| - 1 ==> ps[i] < ps[|ps| - 1];
  }

  /** An ascending list ends with the addresses of the last prefix. */
  lemma CutLast(ps: seq<int>, s: seq<int>) returns (below: seq<int>, here: seq<int>)
    requires Ascending(ps) && Ascending(s) && ps != []
    requires forall i :: 0 <= i < |s| ==> s[i] / 0x100 in ps
    ensures s == below + here && Ascending(below)
    ensures forall i :: 0 <= i < |below| ==> below[i] / 0x100 != ps[|ps| - 1]
    ensures forall i :: 0 <= i < |below| ==> below[i] / 0x100 in ps[..|ps| - 1]
    ensures forall i :: 0 <= i < |here| ==> here[i] / 0x100 == ps[|ps| - 1]
    ensures forall i :: 0 <= i < |here| ==> here[i] / 0x100 !in ps[..|ps| - 1]
  {
    var p := ps[|ps| - 1];
    var n := Boundary(s, p);
    below, here := s[..n], s[n..];
    assert ps == ps[..|ps| - 1] + [p];
    forall i | 0 <= i < |below| ensures below[i] / 0x100 in ps[..|ps| - 1] {
      assert below[i] == s[i];
    }
    forall i | 0 <= i < |here| ensures here[i] / 0x100 == p && p !in ps[..|ps| - 1] {
      assert here[i] == s[n + i];
      AscendingMember(ps, here[i] / 0x100);
    }
  }

  /** Joining the groups in the order of their prefixes gives the ascending list back. */
  lemma {:induction false} FlattenAscending(ps: seq<int>, s: seq<int>)
    requires Ascending(ps) && Ascending(s)
    requires forall i :: 0 <= i < |s| ==> s[i] / 0x100 in ps
    ensures Flatten(ps, s) == DottedAll(s)
    decreases |ps|
  {
    if s != [] {
      var q := s[0] / 0x100;
      assert q in ps;
    }
    if ps == [] {
    } else {
      var below, here := CutLast(ps, s);
      FlattenAscending(ps[..|ps| - 1], below);
      FlattenLast(ps, below, here);
    }
  }

  lemma FlattenLast(ps: seq<int>, below: seq<int>, here: seq<int>)
    requires ps != []
    requires forall i :: 0 <= i < |below| ==> below[i] / 0x100 != ps[|ps| - 1]
    requires forall i :: 0 <= i < |here| ==> here[i] / 0x100 == ps[|ps| - 1]
    requires forall i :: 0 <= i < |here| ==> here[i] / 0x100 !in ps[..|ps| - 1]
    requires Flatten(ps[..|ps| - 1], below) == DottedAll(below)
    ensures Flatten(ps, below + here) == DottedAll(below + here)
  {
    var p := ps[|ps| - 1];
    FlattenElsewhere(ps[..|ps| - 1], below, here);
    OctetsHere(below, here, p);
    GroupReads(here, p);
    MapConcat(Dotted, below, here);
    assert OctetsOf([], p) + Map(LastOctet, here) == Map(LastOctet, here);
  }

  // ---- sorting the keys and listing the addresses --------------------------

  /** A numbering of keys that the comparison agrees with. */
  ghost predicate Agrees(rank: string -> int, all: set<string>) {
    forall a, b :: a in all && b in all ==> (CompareNetworkKeys(a, b) > 0 <==> rank(a) > rank(b))
  }

  /** None of the first `n` keys is above a key after it. */
  ghost predicate SortedTo(keys: seq<string>, rank: string -> int, n: nat) {
    forall i, j :: 0 <= i < n && i < j < |keys| ==> rank(keys[i]) <= rank(keys[j])
  }

  /** Key `i` is not above the keys between it and `j`. */
  ghost predicate LeastTo(keys: seq<string>, rank: string -> int, i: nat, j: nat)
    requires i < j <= |keys|
  {
    forall l :: i < l < j ==> rank(keys[i]) <= rank(keys[l])
  }

  ghost predicate Scanned(s: seq<string>, rank: string -> int, i: nat, j: nat) {
    i < j <= |s| && SortedTo(s, rank, i) && LeastTo(s, rank, i, j)
  }

  /** One comparison of the sort: the smaller of two keys ends up in front. */
  ghost function Exchanged(s: seq<string>, rank: string -> int, i: nat, j: nat): (t: seq<string>)
    requires i < j < |s|
    ensures |t| == |s|
  {
    if rank(s[i]) > rank(s[j]) then s[i := s[j]][j := s[i]] else s
  }

  method CompareAndSwap(keys: array<string>, i: nat, j: nat, ghost rank: string -> int)
    requires i < j < keys.Length
    requires CompareNetworkKeys(keys[i], keys[j]) > 0 <==> rank(keys[i]) > rank(keys[j])
    modifies keys
    ensures keys[..] == Exchanged(old(keys[..]), rank, i, j)
  {
    if CompareNetworkKeys(keys[i], keys[j]) > 0 {
      keys[i], keys[j] := keys[j], keys[i];
    }
  }

  /** The two nested loops, in place. */
  method ExchangeSort(keys: array<string>, ghost all: set<string>, ghost rank: string -> int)
    requires Walks(keys[..], all) && Agrees(rank, all)
    modifies keys
    ensures Walks(keys[..], all) && SortedTo(keys[..], rank, keys.Length)
  {
    for i := 0 to keys.Length
      invariant Walks(keys[..], all) && SortedTo(keys[..], rank, i)
    {
      for j := i + 1 to keys.Length
        invariant Walks(keys[..], all) && Scanned(keys[..], rank, i, j)
      {
        ExchangeWalks(keys[..], all, rank, i, j);
        ExchangeScans(keys[..], rank, i, j);
        CompareAndSwap(keys, i, j, rank);
      }
      ScanDone(keys[..], rank, i);
    }
  }

  lemma ScanDone(s: seq<string>, rank: string -> int, i: nat)
    requires Scanned(s, rank, i, |s|)
    ensures SortedTo(s, rank, i + 1)
  {
  }

  lemma ExchangeWalks(s: seq<string>, all: set<string>, rank: string -> int, i: nat, j: nat)
    requires i < j < |s| && Walks(s, all) && Agrees(rank, all)
    ensures Walks(Exchanged(s, rank, i, j), all)
    ensures CompareNetworkKeys(s[i], s[j]) > 0 <==> rank(s[i]) > rank(s[j])
  {
    SwapWalk(s, i, j, all);
    assert s[i] in all && s[j] in all;
  }

  lemma ExchangeScans(s: seq<string>, rank: string -> int, i: nat, j: nat)
    requires Scanned(s, rank, i, j) && j < |s|
    ensures Scanned(Exchanged(s, rank, i, j), rank, i, j + 1)
  {
    if rank(s[i]) > rank(s[j]) {
      SwapOrders(s, rank, i, j);
    }
  }

  lemma SwapOrders(s: seq<string>, rank: string -> int, i: nat, j: nat)
    requires Scanned(s, rank, i, j) && j < |s| && rank(s[i]) > rank(s[j])
    ensures Scanned(s[i := s[j]][j := s[i]], rank, i, j + 1)
  {
    var t := s[i := s[j]][j := s[i]];
    forall k, l | 0 <= k < i && k < l < |t| ensures rank(t[k]) <= rank(t[l]) {
      var l' := if l == i then j else if l == j then i else l;
      assert t[k] == s[k] && t[l] == s[l'];
      assert rank(s[k]) <= rank(s[l']);
    }
  }

  lemma SwapWalk(s: seq<string>, i: int, j: int, all: set<string>)
    requires 0 <= i < j < |s| && Walks(s, all)
    ensures Walks(s[i := s[j]][j := s[i]], all)
  {
    var t := s[i := s[j]][j := s[i]];
    forall x ensures x in t <==> x in all {
      if x in all {
        assert x in s;
        var k :| 0 <= k < |s| && s[k] == x;
        assert t[if k == i then j else if k == j then i else k] == x;
      }
    }
  }

  ghost function Rank(key: string): int {
    if IsKey(key) then Prefix(key) else 0
  }

  /** The keys of a map in an order that ascends by prefix. */
  ghost predicate SortedKeysOf(keys: seq<string>, m: map<string, seq<string>>) {
    && Walks(keys, m.Keys)
    && (forall i :: 0 <= i < |keys| ==> IsKey(keys[i]))
    && SortedTo(keys, Rank, |keys|)
  }

  lemma RankAgrees(all: set<string>)
    requires forall key :: key in all ==> IsKey(key)
    ensures Agrees(Rank, all)
  {
    forall a, b | a in all && b in all ensures CompareNetworkKeys(a, b) > 0 <==> Rank(a) > Rank(b) {
      KeysCompare(Prefix(a), Prefix(b));
    }
  }

  method SortedKeys(m: map<string, seq<string>>) returns (keys: array<string>)
    requires forall key :: key in m ==> IsKey(key)
    ensures fresh(keys) && SortedKeysOf(keys[..], m)
  {
    var listed: seq<string> := [];
    var rest := m.Keys;
    while rest != {}
      invariant rest <= m.Keys && Walks(listed, m.Keys - rest)
    {
      var key :| key in rest;
      rest := rest - {key};
      listed := listed + [key];
    }
    assert m.Keys - rest == m.Keys;
    keys := new string[|listed|](i requires 0 <= i < |listed| => listed[i]);
    assert keys[..] == listed;
    RankAgrees(m.Keys);
    ExchangeSort(keys, m.Keys, Rank);
    forall i | 0 <= i < keys.Length ensures IsKey(keys[..][i]) {
      assert keys[..][i] in m.Keys;
    }
  }

  ghost function Prefixes(keys: seq<string>): (ps: seq<int>)
    requires forall i :: 0 <= i < |keys| ==> IsKey(keys[i])
    ensures |ps| == |keys| && forall i :: 0 <= i < |keys| ==> ps[i] == Prefix(keys[i])
  {
    seq(|keys|, i requires 0 <= i < |keys| => Prefix(keys[i]))
  }

  lemma UsablesInSpace(b: Block, reserved: seq<string>)
    requires b.Valid()
    ensures InSpace(Usables(b, reserved, b.Size())) && Ascending(Usables(b, reserved, b.Size()))
  {
    var s := Usables(b, reserved, b.Size());
    BlockFits(b);
    UsablesAscending(b, reserved, b.Size());
    forall i | 0 <= i < |s| ensures 0 <= s[i] < SPACE {
      UsablesMember(b, reserved, b.Size(), s[i]);
    }
  }

  lemma PrefixInjective(a: string, b: string)
    requires IsKey(a) && IsKey(b)
    ensures Prefix(a) == Prefix(b) ==> a == b
  {
  }

  lemma RanksApart(keys: seq<string>, m: map<string, seq<string>>, i: nat, j: nat)
    requires SortedKeysOf(keys, m) && i < j < |keys|
    ensures Prefix(keys[i]) < Prefix(keys[j])
  {
    PrefixInjective(keys[i], keys[j]);
    assert Rank(keys[i]) <= Rank(keys[j]);
  }

  /** Sorted distinct keys have strictly ascending prefixes. */
  lemma PrefixesAscend(keys: seq<string>, m: map<string, seq<string>>)
    requires SortedKeysOf(keys, m)
    ensures Ascending(Prefixes(keys))
  {
    forall i, j | 0 <= i < j < |keys| ensures Prefix(keys[i]) < Prefix(keys[j]) {
      RanksApart(keys, m, i, j);
    }
  }

  /** The sorted keys of a grouping cover the addresses grouped. */
  lemma PrefixesCover(keys: seq<string>, s: seq<int>)
    requires InSpace(s) && SortedKeysOf(keys, Group(s))
    ensures forall i :: 0 <= i < |s| ==> s[i] / 0x100 in Prefixes(keys)
  {
    GroupKeys(s);
    forall i | 0 <= i < |s| ensures s[i] / 0x100 in Prefixes(keys) {
      var key := KeyText(s[i] / 0x100);
      assert key in keys;
      PrefixOfKey(s[i] / 0x100);
      var k :| 0 <= k < |keys| && keys[k] == key;
      assert Prefixes(keys)[k] == s[i] / 0x100;
    }
  }

  /** All usable addresses in ascending order, although they pass through a map and a sort. */
  method CIDRToIPList(b: Block, reserved: seq<string>) returns (result: Option<seq<string>>)
    requires b.Valid() && b.length >= 1
    ensures result == var usable := Usables(b, reserved, b.Size());
                      if usable == [] then None else Some(DottedAll(usable))
  {
    var networks := CIDRToNetworks(b, reserved);
    if networks.None? {
      return None;
    }
    ghost var usable := Usables(b, reserved, b.Size());
    UsablesInSpace(b, reserved);
    GroupKeys(usable);
    var keys := SortedKeys(networks.value);
    var ips := JoinGroups(networks.value, keys[..], usable);
    PrefixesAscend(keys[..], networks.value);
    PrefixesCover(keys[..], usable);
    FlattenAscending(Prefixes(keys[..]), usable);
    result := Some(ips);
  }

  method JoinGroups(networks: map<string, seq<string>>, keys: seq<string>, ghost s: seq<int>)
    returns (ips: seq<string>)
    requires InSpace(s) && networks == Group(s) && SortedKeysOf(keys, networks)
    ensures ips == Flatten(Prefixes(keys), s)
  {
    ips := [];
    ghost var ps := Prefixes(keys);
    for i := 0 to |keys|
      invariant ips == Flatten(ps[..i], s)
    {
      assert keys[i] in networks;
      GroupIsByPrefix(s, ps[i]);
      FlattenNext(ps, s, i);
      ips := JoinGroup(ips, keys[i], networks[keys[i]]);
    }
    assert ps[..|keys|] == ps;
  }

  lemma FlattenNext(ps: seq<int>, s: seq<int>, i: nat)
    requires i < |ps|
    ensures Flatten(ps[..i + 1], s) == Flatten(ps[..i], s) + FullAll(KeyText(ps[i]), OctetsOf(s, ps[i]))
  {
    assert ps[..i + 1][..i] == ps[..i];
  }

  method JoinGroup(ips: seq<string>, key: string, octets: seq<string>) returns (longer: seq<string>)
    ensures longer == ips + FullAll(key, octets)
  {
    longer := ips;
    for j := 0 to |octets|
      invariant longer == ips + FullAll(key, octets[..j])
    {
      FullAllAppend(key, octets[..j], octets[j]);
      assert octets[..j + 1] == octets[..j] + [octets[j]];
      longer := longer + [key + "." + octets[j]];
    }
    assert octets[..|octets|] == octets;
  }
}

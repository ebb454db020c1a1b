/** The operations on the ledger: what each request decides over the ledger it loaded, and which
    records it then withdraws and publishes. */
module Operations {
  import opened Text
  import opened Decimal
  import opened Address
  import opened Ledgers
  import Allocate
  import Reclaimer

  /** One decoded request. `choice` and `offer` stand for what the allocators happen to pick. */
  datatype Op =
    | Reserve(key: string, cluster: string, status: string, createDNS: bool, duration: int,
              ip: string, addToPool: bool, choice: string)
    | ReserveBatch(key: string, cluster: string, status: string, count: int, offer: Allocate.Offer)
    | Assign(key: string, ip: string, cluster: string, status: string, createDNS: bool, duration: int)
    | Release(key: string, ip: string)
    | Renew(key: string, ip: string, duration: int)
    | EditIP(key: string, ip: string, cluster: string, status: string, createDNS: bool)
    | DeleteIP(key: string, ip: string)
    | ReclaimPass
    | SetClusterInfo(ips: seq<string>, cluster: string, status: string)
    | CreateNetwork(key: string, digits: seq<string>)
    | CreateFromCIDR(networks: Option<map<string, seq<string>>>)
    | AddIPs(key: string, digits: seq<string>)
    | DeleteNetwork(key: string)

  datatype Refusal = BadRequest | NotFound | Conflict | Exhausted | Internal

  datatype Record = Record(cluster: string, ip: string)

  /** Idle: there was nothing to save. Commit: save `ledger`, then withdraw and publish records. */
  datatype Outcome =
    | Refused(why: Refusal)
    | Idle
    | Commit(ledger: Ledger, withdraw: set<string>, publish: Option<Record>)

  function WithDNSSuffix(status: string): string {
    TrimSuffix(status, DNS_SUFFIX) + DNS_SUFFIX
  }

  predicate WantsDNS(createDNS: bool, status: string) {
    createDNS || HasSuffix(status, DNS_SUFFIX)
  }

  /** The status an entry is given by reserve and assign. */
  function Granted(status: string, createDNS: bool): string {
    if WantsDNS(createDNS, status) then WithDNSSuffix(status) else status
  }

  function OrAssigned(status: string): string {
    if status == "" then ASSIGNED else status
  }

  /** The wrapped 64-bit sum of the clock and the duration, or no lease at all. */
  function LeaseUntil(now: int, duration: int): int {
    if duration > 0 then Wrap64(now + duration) else 0
  }

  function Published(createDNS: bool, cluster: string, key: string, digit: string): Option<Record> {
    if createDNS then Some(Record(cluster, Full(key, digit))) else None
  }

  // ---- what each request decides ---------------------------------------------

  function Picked(l: Ledger, op: Op): Option<string>
    requires op.Reserve?
  {
    if op.ip != "" then HostDigit(op.ip, op.key) else Some(op.choice)
  }

  function ReserveOutcome(l: Ledger, now: int, op: Op): Outcome
    requires op.Reserve?
  {
    if op.cluster == "" then Refused(BadRequest)
    else if op.key !in l then Refused(NotFound)
    else
      var picked := Picked(l, op);
      if picked.None? then Refused(BadRequest)
      else
        var digit := picked.value;
        var inPool := Listed(l, op.key, digit);
        if op.ip != "" && !inPool && !op.addToPool then Refused(NotFound)
        else if op.ip != "" && inPool && !IsFree(l[op.key][digit]) then Refused(Conflict)
        else if op.ip == "" && digit == "" then Refused(Conflict)
        else
          var status := OrAssigned(op.status);
          var entry := IPInfo(Granted(status, op.createDNS), op.cluster, LeaseUntil(now, op.duration));
          Commit(Put(l, op.key, digit, entry), {},
                 Published(WantsDNS(op.createDNS, status), op.cluster, op.key, digit))
  }

  function ReserveBatchOutcome(l: Ledger, op: Op): Outcome
    requires op.ReserveBatch?
  {
    var status := OrAssigned(op.status);
    if op.cluster == "" || op.count < 1 || HasSuffix(status, DNS_SUFFIX) then Refused(BadRequest)
    else match op.offer {
      case NoNetwork => Refused(NotFound)
      case NotEnough => Refused(Exhausted)
      case Panicked => Refused(Internal)
      case Offered(ips) =>
        if ips == [] then Refused(Exhausted)
        else if op.key !in l then Refused(NotFound)
        else
          var written := Allocate.WriteAll(l, op.key, ips, IPInfo(status, op.cluster, 0));
          if written.None? then Refused(Internal) else Commit(written.value, {}, None)
    }
  }

  function AssignOutcome(l: Ledger, now: int, op: Op): Outcome
    requires op.Assign?
  {
    if op.ip == "" || op.cluster == "" then Refused(BadRequest)
    else if op.key !in l then Refused(NotFound)
    else
      var digit := HostDigit(op.ip, op.key);
      if digit.None? then Refused(BadRequest)
      else
        var status := OrAssigned(op.status);
        var createDNS := WantsDNS(op.createDNS, status);
        var previous := EntryAt(l, op.key, digit.value);
        var entry := IPInfo(Granted(status, op.createDNS), op.cluster, LeaseUntil(now, op.duration));
        var stale := HasDNS(previous) && previous.cluster != "" && (!createDNS || previous.cluster != op.cluster);
        Commit(Put(l, op.key, digit.value, entry), if stale then {previous.cluster} else {},
               Published(createDNS, op.cluster, op.key, digit.value))
  }

  function ReleaseOutcome(l: Ledger, op: Op): Outcome
    requires op.Release?
  {
    if op.key !in l then Refused(NotFound)
    else
      var digit := GetLastIPDigit(op.ip);
      if digit.None? then Refused(BadRequest)
      else
        var previous := EntryAt(l, op.key, digit.value);
        Commit(Put(l, op.key, digit.value, BLANK), if HasDNS(previous) then {previous.cluster} else {}, None)
  }

  function RenewOutcome(l: Ledger, now: int, op: Op): Outcome
    requires op.Renew?
  {
    if op.duration <= 0 then Refused(BadRequest)
    else if op.key !in l then Refused(NotFound)
    else
      var digit := GetLastIPDigit(op.ip);
      if digit.None? then Refused(BadRequest)
      else if !Listed(l, op.key, digit.value) then Refused(NotFound)
      else
        var entry := l[op.key][digit.value];
        if IsFree(entry) then Refused(Conflict)
        else Commit(Put(l, op.key, digit.value, entry.(lease := Wrap64(now + op.duration))), {}, None)
  }

  /** Edit and delete accept the host part alone as well as the full address. */
  function PathDigit(key: string, ip: string): string {
    TrimPrefix(ip, key + ".")
  }

  function EditedStatus(status: string, createDNS: bool): string {
    var baseStatus := TrimSuffix(status, DNS_SUFFIX);
    if WantsDNS(createDNS, status) then WithDNSSuffix(baseStatus) else baseStatus
  }

  function EditOutcome(l: Ledger, op: Op): Outcome
    requires op.EditIP?
  {
    var digit := PathDigit(op.key, op.ip);
    if op.cluster == "" || op.status == "" then Refused(BadRequest)
    else if !Listed(l, op.key, digit) then Refused(NotFound)
    else
      var previous := l[op.key][digit];
      var createDNS := WantsDNS(op.createDNS, op.status);
      var status := EditedStatus(op.status, op.createDNS);
      var stale := HasDNS(previous) && (!createDNS || previous.cluster != op.cluster);
      Commit(Put(l, op.key, digit, previous.(status := status, cluster := op.cluster)),
             if stale then {previous.cluster} else {},
             Published(createDNS, op.cluster, op.key, digit))
  }

  function DeleteIPOutcome(l: Ledger, op: Op): Outcome
    requires op.DeleteIP?
  {
    var digit := PathDigit(op.key, op.ip);
    if !Listed(l, op.key, digit) then Refused(NotFound)
    else
      var previous := l[op.key][digit];
      Commit(Delete(l, op.key, digit), if HasDNS(previous) then {previous.cluster} else {}, None)
  }

  ghost predicate AnyExpired(l: Ledger, now: int) {
    exists k, d :: Listed(l, k, d) && Reclaimer.Expired(l[k][d], now)
  }

  /** The clusters whose records a reclaimer pass removes. */
  ghost function ReclaimedClusters(l: Ledger, now: int): (r: set<string>)
    ensures forall c :: c in r <==> c != "" && exists k, d :: Reclaims(l, now, k, d, c)
  {
    var all := set k, d | k in l && d in l[k] && Reclaims(l, now, k, d, l[k][d].cluster) :: l[k][d].cluster;
    assert forall k, d, c :: Reclaims(l, now, k, d, c) ==> c in all;
    all - {""}
  }

  /** The entry was marked as having the record of cluster `c`, and its lease ran out. */
  ghost predicate Reclaims(l: Ledger, now: int, k: string, d: string, c: string) {
    Listed(l, k, d) && Reclaimer.Expired(l[k][d], now) && HasDNS(l[k][d]) && l[k][d].cluster == c
  }

  ghost function ReclaimOutcome(l: Ledger, now: int): Outcome {
    if AnyExpired(l, now) then Commit(Reclaimer.Reclaim(l, now), ReclaimedClusters(l, now), None) else Idle
  }

  datatype Attempt = Done(ledger: Ledger) | Failed(why: Refusal)

  /** Sets holder and status of every address in the list, in order; leases stay. */
  function SetAll(l: Ledger, ips: seq<string>, cluster: string, status: string): Attempt {
    if ips == [] then Done(l)
    else
      var front := SetAll(l, ips[..|ips| - 1], cluster, status);
      if front.Failed? then front else SetOne(front.ledger, ips[|ips| - 1], cluster, status)
  }

  function SetOne(l: Ledger, ip: string, cluster: string, status: string): Attempt {
    var key, digit := TruncateIP(ip), GetLastIPDigit(ip);
    if key.None? || digit.None? then Failed(BadRequest)
    else if key.value !in l then Failed(NotFound)
    else Done(Put(l, key.value, digit.value,
                  EntryAt(l, key.value, digit.value).(status := status, cluster := cluster)))
  }

  function Committed(a: Attempt): Outcome {
    match a
    case Done(l) => Commit(l, {}, None)
    case Failed(why) => Refused(why)
  }

  function FreshNetwork(digits: seq<string>): IPs {
    map d | d in digits :: BLANK
  }

  function CreateOutcome(l: Ledger, networks: map<string, seq<string>>): Outcome {
    if exists k :: k in networks && k in l then Refused(Conflict)
    else Commit(Created(l, networks, networks.Keys), {}, None)
  }

  /** The ledger with the named networks added, every address blank. */
  function Created(l: Ledger, networks: map<string, seq<string>>, keys: set<string>): (r: Ledger)
    requires keys <= networks.Keys
  {
    l + (map k | k in keys :: FreshNetwork(networks[k]))
  }

  function Extended(ips: IPs, digits: seq<string>): IPs {
    FreshNetwork(digits) + ips
  }

  function AddOutcome(l: Ledger, op: Op): Outcome
    requires op.AddIPs?
  {
    if op.digits == [] then Refused(BadRequest)
    else if op.key !in l then Refused(NotFound)
    else Commit(l[op.key := Extended(l[op.key], op.digits)], {}, None)
  }

  /** What the request does over ledger `l` at time `now`. */
  ghost function Apply(op: Op, now: int, l: Ledger): Outcome {
    match op
    case Reserve(_, _, _, _, _, _, _, _) => ReserveOutcome(l, now, op)
    case ReserveBatch(_, _, _, _, _) => ReserveBatchOutcome(l, op)
    case Assign(_, _, _, _, _, _) => AssignOutcome(l, now, op)
    case Release(_, _) => ReleaseOutcome(l, op)
    case Renew(_, _, _) => RenewOutcome(l, now, op)
    case EditIP(_, _, _, _, _) => EditOutcome(l, op)
    case DeleteIP(_, _) => DeleteIPOutcome(l, op)
    case ReclaimPass => ReclaimOutcome(l, now)
    case SetClusterInfo(ips, cluster, status) => Committed(SetAll(l, ips, cluster, status))
    case CreateNetwork(key, digits) =>
      if key == "" || digits == [] then Refused(BadRequest) else CreateOutcome(l, map[key := digits])
    case CreateFromCIDR(networks) =>
      if networks.None? then Refused(BadRequest) else CreateOutcome(l, networks.value)
    case AddIPs(_, _) => AddOutcome(l, op)
    case DeleteNetwork(key) =>
      if key !in l then Refused(NotFound) else Commit(l - {key}, {}, None)
  }

  /** The picks an allocator can make over `l`: any free host part, or "" when there is none; any
      offer GenerateIPs can return. */
  ghost predicate Possible(op: Op, l: Ledger) {
    match op
    case Reserve(key, _, _, _, _, ip, _, choice) => ip == "" && key in l ==> Picks(l[key], choice)
    case ReserveBatch(key, _, _, count, offer) => Allocate.Offers(l, count, key, offer)
    case _ => true
  }

  predicate Picks(ips: IPs, choice: string) {
    var free := Allocate.FreeDigits(ips);
    choice in free || (choice == "" && free == {})
  }

  /** The records after withdrawing and then publishing. */
  function Edited(records: map<string, string>, withdraw: set<string>, publish: Option<Record>): map<string, string> {
    var left := records - withdraw;
    if publish.None? then left else left[publish.value.cluster := publish.value.ip]
  }
}

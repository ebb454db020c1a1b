/** The heartbeat: reconciles that come often enough keep the reclaimer away from an assignment's
    addresses, at whatever moments it ticks; if and only if each recorded address reads back as its own. */
module Heartbeat {
  import opened Text
  import opened Decimal
  import opened Address
  import opened Ledgers
  import opened Operations
  import opened Assignment
  import opened Handout
  import opened Listings
  import opened Updating
  import Effects
  import FixedPoint
  import Reclaimer

  /** One assignment and the addresses recorded in it. */
  datatype Setup = Setup(spec: Spec, ips: seq<string>, zone: string)

  /** Between the Observe that found work and the end of its Update: the loop is at address `next`, and
      has edited it or not. */
  datatype Round = Resting | Renewing(from: int, next: nat, edited: bool)

  /** `start` is when the last completed reconcile observed. */
  datatype State = State(ledger: Ledger, now: int, start: Option<int>, round: Round)

  datatype Step =
    | Pass(seconds: nat)
    | Tick
    | Others(after: Ledger)
    | Observe
    | Skip
    | Edit
    | Renew
    | Finish
    | GiveUp

  function Own(c: Setup, i: nat): string
    requires i < |c.ips|
  {
    OwnDigit(c.ips[i], c.spec.key)
  }

  /** The entry of a recorded address. */
  function Mine(c: Setup, l: Ledger, i: nat): IPInfo
    requires i < |c.ips|
  {
    EntryAt(l, c.spec.key, Own(c, i))
  }

  predicate Fresh(c: Setup, s: State, i: nat)
    requires i < |c.ips|
  {
    UpToDate(c.spec, EntryFor(c.spec.key, Own(c, i), Mine(c, s.ledger, i), c.zone), s.now)
  }

  predicate Present(c: Setup, s: State, i: nat)
    requires i < |c.ips|
  {
    Listed(s.ledger, c.spec.key, Own(c, i)) && Mine(c, s.ledger, i).cluster == c.spec.cluster
  }

  // ---- the steps -----------------------------------------------------------------

  /** The loop is about to look at an address it has not edited. */
  predicate AtNext(c: Setup, s: State) {
    s.round.Renewing? && s.round.next < |c.ips| && !s.round.edited
  }

  function LastDigit(c: Setup, s: State): Option<string>
    requires s.round.Renewing? && s.round.next < |c.ips|
  {
    GetLastIPDigit(c.ips[s.round.next])
  }

  function EditNext(c: Setup, s: State): Outcome
    requires AtNext(c, s) && LastDigit(c, s).Some?
  {
    EditOutcome(s.ledger, EditOp(c.spec, LastDigit(c, s).value))
  }

  function RenewNext(c: Setup, s: State): Outcome
    requires s.round.Renewing? && s.round.next < |c.ips|
  {
    RenewOutcome(s.ledger, s.now, Op.Renew(c.spec.key, c.ips[s.round.next], c.spec.lease))
  }

  ghost predicate Enabled(c: Setup, s: State, step: Step) {
    match step
    case Pass(_) => true
    case Tick => true
    case Others(after) => LeavesMine(c, s.ledger, after)
    case Observe => s.round.Resting? && forall i :: 0 <= i < |c.ips| ==> Present(c, s, i)
    case Skip => AtNext(c, s) && LastDigit(c, s).None?
    case Edit => AtNext(c, s) && LastDigit(c, s).Some? && EditNext(c, s).Commit?
    case Renew => s.round.Renewing? && s.round.next < |c.ips| && s.round.edited && RenewNext(c, s).Commit?
    case Finish => s.round.Renewing? && s.round.next == |c.ips|
    case GiveUp => s.round.Renewing?
  }

  ghost predicate LeavesMine(c: Setup, before: Ledger, after: Ledger) {
    forall i :: 0 <= i < |c.ips| ==>
      && EntryAt(after, c.spec.key, Own(c, i)) == EntryAt(before, c.spec.key, Own(c, i))
      && (Listed(after, c.spec.key, Own(c, i)) <==> Listed(before, c.spec.key, Own(c, i)))
  }

  ghost function Take(c: Setup, s: State, step: Step): State
    requires Enabled(c, s, step)
  {
    match step
    case Pass(seconds) => s.(now := s.now + seconds)
    case Tick => s.(ledger := Reclaimer.Reclaim(s.ledger, s.now))
    case Others(after) => s.(ledger := after)
    case Observe =>
      if forall i :: 0 <= i < |c.ips| ==> Fresh(c, s, i) then s.(start := Some(s.now))
      else s.(round := Renewing(s.now, 0, false))
    case Skip => s.(round := s.round.(next := s.round.next + 1))
    case Edit => s.(ledger := EditNext(c, s).ledger, round := s.round.(edited := true))
    case Renew => s.(ledger := RenewNext(c, s).ledger, round := Renewing(s.round.from, s.round.next + 1, false))
    case Finish => s.(start := Some(s.round.from), round := Resting)
    case GiveUp => s.(round := Resting)
  }

  /** Leases are at least two seconds and clocks stay inside 64 bits. */
  predicate Sensible(c: Setup, s: State) {
    c.spec.lease >= 2 && 0 <= s.now && InInt64(s.now + c.spec.lease)
  }

  /** Less than half a lease since the last completed reconcile observed. A round that hangs and is
      given up does not count, however long it takes. */
  predicate Paced(c: Setup, s: State) {
    s.start.Some? ==> s.now - s.start.value < c.spec.lease / 2
  }

  /** The round under way can still complete in time. */
  predicate InTime(c: Setup, s: State)
    requires s.round.Renewing?
  {
    s.now - s.round.from < c.spec.lease / 2
  }

  // ---- what every step keeps -----------------------------------------------------------

  /** Held by the cluster until half a lease after `since`. */
  predicate Safe(c: Setup, info: IPInfo, since: int) {
    info.cluster == c.spec.cluster && info.lease >= since + c.spec.lease / 2
  }

  /** The first `n` recorded addresses are. */
  ghost predicate AllSafe(c: Setup, l: Ledger, n: nat, since: int)
    requires n <= |c.ips|
  {
    forall i :: 0 <= i < n ==> Safe(c, Mine(c, l, i), since)
  }

  ghost predicate NoneLost(c: Setup, l: Ledger) {
    forall i :: 0 <= i < |c.ips| && !IsFree(Mine(c, l, i)) ==> Mine(c, l, i).cluster == c.spec.cluster
  }

  ghost predicate Inv(c: Setup, s: State) {
    && (s.start.Some? ==> s.start.value <= s.now && AllSafe(c, s.ledger, |c.ips|, s.start.value))
    && (s.round.Renewing? ==>
          && s.round.from <= s.now && s.round.next <= |c.ips| && NoneLost(c, s.ledger)
          && (InTime(c, s) ==> AllSafe(c, s.ledger, s.round.next, s.round.from)))
  }

  /** An address safe since less than half a lease ago is not one the reclaimer clears. */
  lemma SafeNotExpired(c: Setup, info: IPInfo, since: int, now: int)
    requires Safe(c, info, since) && now - since < c.spec.lease / 2
    ensures !Reclaimer.Expired(info, now) && Reclaimer.Cleared(info, now) == info
  {
  }

  ghost predicate Untouched(c: Setup, s: State, s': State) {
    forall i :: 0 <= i < |c.ips| ==> Mine(c, s'.ledger, i) == Mine(c, s.ledger, i)
  }

  lemma TickKeeps(c: Setup, s: State)
    requires Inv(c, s) && Paced(c, s)
    ensures Inv(c, Take(c, s, Tick))
    ensures s.start.Some? ==> Untouched(c, s, Take(c, s, Tick))
  {
    var s' := Take(c, s, Tick);
    forall i | 0 <= i < |c.ips|
      ensures s.start.Some? ==> Mine(c, s'.ledger, i) == Mine(c, s.ledger, i)
      ensures s.round.Renewing? && InTime(c, s) && i < s.round.next ==> Mine(c, s'.ledger, i) == Mine(c, s.ledger, i)
      ensures !IsFree(Mine(c, s'.ledger, i)) ==> Mine(c, s'.ledger, i) == Mine(c, s.ledger, i)
    {
      if s.start.Some? { SafeNotExpired(c, Mine(c, s.ledger, i), s.start.value, s.now); }
      if s.round.Renewing? && InTime(c, s) && i < s.round.next {
        SafeNotExpired(c, Mine(c, s.ledger, i), s.round.from, s.now);
      }
    }
  }

  lemma OthersKeep(c: Setup, s: State, after: Ledger)
    requires Inv(c, s) && Enabled(c, s, Others(after))
    ensures Inv(c, Take(c, s, Others(after)))
  {
    var s' := Take(c, s, Others(after));
    assert forall i :: 0 <= i < |c.ips| ==> Mine(c, s'.ledger, i) == Mine(c, s.ledger, i);
  }

  function Rewritten(c: Setup, info: IPInfo): IPInfo {
    info.(status := WrittenStatus(c.spec), cluster := c.spec.cluster)
  }

  function Extended(c: Setup, s: State, info: IPInfo): IPInfo {
    info.(lease := s.now + c.spec.lease)
  }

  /** What an edit does to each recorded address that reads back as its own. */
  lemma EditSetsMine(c: Setup, s: State, i: nat)
    requires Enabled(c, s, Edit) && InNetwork(c.ips[s.round.next], c.spec.key) && i < |c.ips|
    ensures Mine(c, Take(c, s, Edit).ledger, i) ==
            if Own(c, i) == Own(c, s.round.next) then Rewritten(c, Mine(c, s.ledger, i)) else Mine(c, s.ledger, i)
  {
    EditSets(s.ledger, c.spec, c.ips[s.round.next]);
    InNetworkOwn(c.ips[s.round.next], c.spec.key);
  }

  lemma EditKeeps(c: Setup, s: State)
    requires Inv(c, s) && AllInNetwork(c.ips, c.spec.key) && Enabled(c, s, Edit)
    ensures Inv(c, Take(c, s, Edit))
  {
    var s' := Take(c, s, Edit);
    forall i | 0 <= i < |c.ips|
      ensures Mine(c, s'.ledger, i) == Mine(c, s.ledger, i) ||
              Mine(c, s'.ledger, i) == Rewritten(c, Mine(c, s.ledger, i))
    {
      EditSetsMine(c, s, i);
    }
  }

  /** What a renewal does to each recorded address that reads back as its own. */
  lemma RenewSetsMine(c: Setup, s: State, i: nat)
    requires Sensible(c, s) && Enabled(c, s, Step.Renew)
    requires InNetwork(c.ips[s.round.next], c.spec.key) && i < |c.ips|
    ensures !IsFree(Mine(c, s.ledger, s.round.next))
    ensures Mine(c, Take(c, s, Step.Renew).ledger, i) ==
            if Own(c, i) == Own(c, s.round.next) then Extended(c, s, Mine(c, s.ledger, i)) else Mine(c, s.ledger, i)
  {
    InNetworkOwn(c.ips[s.round.next], c.spec.key);
  }

  lemma RenewKeeps(c: Setup, s: State)
    requires Inv(c, s) && Sensible(c, s) && AllInNetwork(c.ips, c.spec.key) && Enabled(c, s, Step.Renew)
    ensures Inv(c, Take(c, s, Step.Renew))
  {
    var s', n := Take(c, s, Step.Renew), s.round.next;
    forall i | 0 <= i < |c.ips|
      ensures Mine(c, s'.ledger, i) ==
              if Own(c, i) == Own(c, n) then Extended(c, s, Mine(c, s.ledger, i)) else Mine(c, s.ledger, i)
      ensures !IsFree(Mine(c, s.ledger, n))
    {
      RenewSetsMine(c, s, i);
    }
  }

  lemma ObserveKeeps(c: Setup, s: State)
    requires Inv(c, s) && Sensible(c, s) && Enabled(c, s, Observe)
    ensures Inv(c, Take(c, s, Observe))
  {
    forall i | 0 <= i < |c.ips| ensures Mine(c, s.ledger, i).cluster == c.spec.cluster {
      assert Present(c, s, i);
    }
    if forall i :: 0 <= i < |c.ips| ==> Fresh(c, s, i) {
      forall i | 0 <= i < |c.ips| ensures Safe(c, Mine(c, s.ledger, i), s.now) {
        assert Fresh(c, s, i);
      }
    }
  }

  lemma StepKeeps(c: Setup, s: State, step: Step)
    requires AllInNetwork(c.ips, c.spec.key)
    requires Inv(c, s) && Sensible(c, s) && Paced(c, s) && Enabled(c, s, step) && Paced(c, Take(c, s, step))
    ensures Inv(c, Take(c, s, step))
  {
    match step {
      case Pass(_) =>
      case Tick => TickKeeps(c, s);
      case Others(after) => OthersKeep(c, s, after);
      case Observe => ObserveKeeps(c, s);
      case Skip => InNetworkOwn(c.ips[s.round.next], c.spec.key);
      case Edit => EditKeeps(c, s);
      case Renew => RenewKeeps(c, s);
      case Finish =>
      case GiveUp =>
    }
  }

  // ---- whole runs -----------------------------------------------------------------

  ghost predicate StepsTo(c: Setup, s: State, step: Step, s': State) {
    Enabled(c, s, step) && s' == Take(c, s, step)
  }

  ghost predicate Fits(c: Setup, ss: seq<State>, steps: seq<Step>, n: nat)
    requires n < |steps| && |ss| == |steps| + 1
  {
    StepsTo(c, ss[n], steps[n], ss[n + 1])
  }

  ghost predicate PacedAt(c: Setup, ss: seq<State>, n: nat)
    requires n < |ss|
  {
    Sensible(c, ss[n]) && Paced(c, ss[n])
  }

  /** A stretch of a paced run. */
  ghost predicate RunOf(c: Setup, ss: seq<State>, steps: seq<Step>) {
    && |ss| == |steps| + 1
    && (forall n :: 0 <= n < |steps| ==> Fits(c, ss, steps, n))
    && forall n :: 0 <= n < |ss| ==> PacedAt(c, ss, n)
  }

  /** A run from before the first reconcile, paced throughout. */
  ghost predicate IsPacedRun(c: Setup, ss: seq<State>, steps: seq<Step>) {
    RunOf(c, ss, steps) && ss[0].start.None? && ss[0].round.Resting?
  }

  lemma {:induction false} RunKeeps(c: Setup, ss: seq<State>, steps: seq<Step>, n: nat)
    requires AllInNetwork(c.ips, c.spec.key) && IsPacedRun(c, ss, steps) && n < |ss|
    ensures Inv(c, ss[n])
  {
    if n == 0 {
    } else {
      RunKeeps(c, ss, steps, n - 1);
      assert Fits(c, ss, steps, n - 1) && PacedAt(c, ss, n - 1) && PacedAt(c, ss, n);
      StepKeeps(c, ss[n - 1], steps[n - 1]);
    }
  }

  /** Tick `n` of the run comes after a first completed reconcile. */
  ghost predicate LaterTick(c: Setup, ss: seq<State>, steps: seq<Step>, n: nat) {
    IsPacedRun(c, ss, steps) && n < |steps| && steps[n] == Tick && ss[n].start.Some?
  }

  /** Once a first reconcile has completed, a reclaimer tick at any moment finds none of the recorded
      addresses expired and leaves every one of them as it is, where each reads back as its own. */
  lemma HeartbeatKeepsLease(c: Setup, ss: seq<State>, steps: seq<Step>, n: nat)
    requires AllInNetwork(c.ips, c.spec.key) && LaterTick(c, ss, steps, n)
    ensures Untouched(c, ss[n], ss[n + 1])
    ensures forall i :: 0 <= i < |c.ips| ==>
      && Mine(c, ss[n].ledger, i).cluster == c.spec.cluster
      && !Reclaimer.Expired(Mine(c, ss[n].ledger, i), ss[n].now)
  {
    RunKeeps(c, ss, steps, n);
    assert Fits(c, ss, steps, n) && PacedAt(c, ss, n);
    TickKeeps(c, ss[n]);
    forall i | 0 <= i < |c.ips|
      ensures Mine(c, ss[n].ledger, i).cluster == c.spec.cluster
      ensures !Reclaimer.Expired(Mine(c, ss[n].ledger, i), ss[n].now)
    {
      SafeNotExpired(c, Mine(c, ss[n].ledger, i), ss[n].start.value, ss[n].now);
    }
  }

  // ---- runs put together ------------------------------------------------------------------

  lemma Joined(c: Setup, a: seq<State>, s: seq<Step>, b: seq<State>, t: seq<Step>)
    requires RunOf(c, a, s) && RunOf(c, b, t) && a[|s|] == b[0]
    ensures RunOf(c, a + b[1..], s + t) && (a + b[1..])[|s + t|] == b[|t|] && (a + b[1..])[0] == a[0]
  {
    var ss, steps := a + b[1..], s + t;
    forall n | 0 <= n < |steps| ensures Fits(c, ss, steps, n) {
      if n < |s| {
        assert Fits(c, a, s, n);
      } else {
        assert Fits(c, b, t, n - |s|);
      }
    }
    forall n | 0 <= n < |ss| ensures PacedAt(c, ss, n) {
      if n <= |s| {
        assert PacedAt(c, a, n);
      } else {
        assert PacedAt(c, b, n - |s|);
      }
    }
  }

  lemma OneStep(c: Setup, s: State, step: Step)
    requires Enabled(c, s, step) && Sensible(c, s) && Paced(c, s)
    requires Sensible(c, Take(c, s, step)) && Paced(c, Take(c, s, step))
    ensures RunOf(c, [s, Take(c, s, step)], [step])
  {
    var ss := [s, Take(c, s, step)];
    assert Fits(c, ss, [step], 0) && PacedAt(c, ss, 0) && PacedAt(c, ss, 1);
  }

  // ---- one Update, undisturbed -------------------------------------------------------------

  /** Between two addresses of the loop, everything it is still to write is listed. */
  ghost predicate Ready(c: Setup, s: State) {
    && Sensible(c, s) && Paced(c, s) && c.spec.cluster != ""
    && s.round.Renewing? && s.round.next <= |c.ips| && !s.round.edited
    && forall d :: WrittenIn(c.ips, d) ==> Listed(s.ledger, c.spec.key, d)
  }

  /** The loop moves past one address: it skips it, or edits and renews it. */
  lemma OneAddress(c: Setup, s: State) returns (ss: seq<State>, steps: seq<Step>)
    requires Ready(c, s) && s.round.next < |c.ips|
    ensures RunOf(c, ss, steps) && ss[0] == s && Ready(c, ss[|steps|])
    ensures var s' := ss[|steps|];
            && s' == s.(ledger := s'.ledger, round := s.round.(next := s.round.next + 1))
            && OnlyTouches(s.ledger, s'.ledger, c.spec.key, c.ips)
            && UpdateOne(s.ledger, c.spec, c.ips[s.round.next], s.now) == Done(s'.ledger)
  {
    if LastDigit(c, s).None? {
      ss, steps := [s, Take(c, s, Skip)], [Skip];
      OneStep(c, s, Skip);
    } else {
      var ip, digit := c.ips[s.round.next], LastDigit(c, s).value;
      assert WrittenIn(c.ips, digit);
      OneSucceedsExactly(s.ledger, c.spec, ip, s.now);
      EditSets(s.ledger, c.spec, ip);
      Effects.EditedBusy(OrAssigned(c.spec.status), c.spec.createDNS);
      var s1 := Take(c, s, Edit);
      var s2 := Take(c, s1, Step.Renew);
      OneStep(c, s, Edit);
      OneStep(c, s1, Step.Renew);
      Joined(c, [s, s1], [Edit], [s1, s2], [Step.Renew]);
      ss, steps := [s, s1] + [s1, s2][1..], [Edit] + [Step.Renew];
    }
  }

  lemma {:induction false} WholeLoop(c: Setup, s: State) returns (ss: seq<State>, steps: seq<Step>)
    requires Ready(c, s)
    ensures RunOf(c, ss, steps) && ss[0] == s
    ensures var s' := ss[|steps|];
            && s' == s.(ledger := s'.ledger, round := s.round.(next := |c.ips|))
            && OnlyTouches(s.ledger, s'.ledger, c.spec.key, c.ips)
    decreases |c.ips| - s.round.next
  {
    if s.round.next == |c.ips| {
      ss, steps := [s], [];
      assert PacedAt(c, ss, 0);
    } else {
      var a, p := OneAddress(c, s);
      var b, q := WholeLoop(c, a[|p|]);
      Joined(c, a, p, b, q);
      ss, steps := a + b[1..], p + q;
    }
  }

  // ---- exactly when the lease is kept ---------------------------------------------------------

  /** In every paced run, every tick after the first completed reconcile leaves every recorded address
      as it is. */
  ghost predicate LeaseAlwaysKept(c: Setup) {
    forall ss: seq<State>, steps: seq<Step>, n: nat :: LaterTick(c, ss, steps, n) ==> Untouched(c, ss[n], ss[n + 1])
  }

  /** Before the first reconcile: everything the addresses name or read back as is held, on a lease that
      runs out now. */
  function Expiring(c: Setup): State {
    var info := IPInfo(ASSIGNED, c.spec.cluster, 1);
    State(Uniform(c.spec, NamedDigits(c.ips, c.spec.key), info), 1, None, Resting)
  }

  /** A reconcile completes over it, and the tick then clears an address that is not written. */
  lemma UnwrittenCleared(c: Setup, i: nat) returns (ss: seq<State>, steps: seq<Step>, n: nat)
    requires c.spec.lease >= 2 && InInt64(1 + c.spec.lease) && c.spec.cluster != ""
    requires i < |c.ips| && !WrittenIn(c.ips, Own(c, i))
    ensures LaterTick(c, ss, steps, n)
    ensures Mine(c, ss[n].ledger, i) == IPInfo(ASSIGNED, c.spec.cluster, 1) && Mine(c, ss[n + 1].ledger, i) == BLANK
  {
    var s := Expiring(c);
    forall j | 0 <= j < |c.ips| ensures Present(c, s, j) {
      ExpiringMine(c, j);
    }
    ExpiringMine(c, i);
    DueNotFresh(c, s, i);
    StaleObserved(c, s, i);
    var s1 := Take(c, s, Observe);
    ExpiringReady(c, s1);
    OneStep(c, s, Observe);
    var b, q := WholeLoop(c, s1);
    Joined(c, [s, s1], [Observe], b, q);
    var s2 := b[|q|];
    var s3 := Take(c, s2, Finish);
    OneStep(c, s2, Finish);
    Joined(c, [s, s1] + b[1..], [Observe] + q, [s2, s3], [Finish]);
    OneStep(c, s3, Tick);
    var a, p := [s, s1] + b[1..] + [s2, s3][1..], [Observe] + q + [Finish];
    Joined(c, a, p, [s3, Take(c, s3, Tick)], [Tick]);
    n := |p|;
    ss, steps := a + [s3, Take(c, s3, Tick)][1..], p + [Tick];
  }

  lemma ExpiringEntry(c: Setup, digit: string)
    requires digit in NamedDigits(c.ips, c.spec.key)
    ensures Listed(Expiring(c).ledger, c.spec.key, digit)
    ensures EntryAt(Expiring(c).ledger, c.spec.key, digit) == IPInfo(ASSIGNED, c.spec.cluster, 1)
  {
  }

  lemma ExpiringReady(c: Setup, s: State)
    requires c.spec.lease >= 2 && InInt64(1 + c.spec.lease) && c.spec.cluster != ""
    requires s == Expiring(c).(round := Renewing(1, 0, false))
    ensures Ready(c, s)
  {
    forall d | WrittenIn(c.ips, d) ensures Listed(s.ledger, c.spec.key, d) {
      ExpiringEntry(c, d);
    }
  }

  lemma ExpiringMine(c: Setup, i: nat)
    requires i < |c.ips|
    ensures Present(c, Expiring(c), i)
    ensures Mine(c, Expiring(c).ledger, i) == IPInfo(ASSIGNED, c.spec.cluster, 1)
  {
    NamedOwn(c, i);
    ExpiringEntry(c, Own(c, i));
  }

  lemma NamedOwn(c: Setup, i: nat)
    requires i < |c.ips|
    ensures Own(c, i) in NamedDigits(c.ips, c.spec.key)
  {
  }

  lemma DueNotFresh(c: Setup, s: State, i: nat)
    requires Sensible(c, s) && i < |c.ips| && Mine(c, s.ledger, i).lease <= s.now
    ensures !Fresh(c, s, i)
  {
  }

  lemma StaleObserved(c: Setup, s: State, i: nat)
    requires s.round.Resting? && i < |c.ips| && !Fresh(c, s, i)
    requires forall j :: 0 <= j < |c.ips| ==> Present(c, s, j)
    ensures Enabled(c, s, Observe) && Take(c, s, Observe) == s.(round := Renewing(s.now, 0, false))
  {
  }

  /** The heartbeat keeps the lease of every recorded address, in every paced run, if and only if each of
      them reads back as its own host part. */
  lemma LeaseKeptExactly(c: Setup)
    requires c.spec.lease >= 2 && InInt64(1 + c.spec.lease) && c.spec.cluster != ""
    requires AllOfNetwork(c.ips, c.spec.key)
    ensures LeaseAlwaysKept(c) <==> AllInNetwork(c.ips, c.spec.key)
  {
    OwnWrittenExactly(c.ips, c.spec.key);
    if OwnWritten(c.ips, c.spec.key) {
      forall ss: seq<State>, steps: seq<Step>, n: nat | LaterTick(c, ss, steps, n)
        ensures Untouched(c, ss[n], ss[n + 1])
      {
        HeartbeatKeepsLease(c, ss, steps, n);
      }
    } else {
      var i :| 0 <= i < |c.ips| && !WrittenIn(c.ips, OwnDigit(c.ips[i], c.spec.key));
      var ss, steps, n := UnwrittenCleared(c, i);
      assert Mine(c, ss[n + 1].ledger, i) != Mine(c, ss[n].ledger, i);
    }
  }

  // ---- half a lease is too slow ---------------------------------------------------------

  /** The one address of an assignment, held on a lease gone stale. */
  ghost predicate Stale(c: Setup, s: State) {
    && |c.ips| == 1 && AllInNetwork(c.ips, c.spec.key) && FixedPoint.Settles(c.spec) && c.spec.cluster != ""
    && Present(c, s, 0) && Mine(c, s.ledger, 0).lease < s.now
  }

  function HalfUp(c: Setup): int {
    c.spec.lease - c.spec.lease / 2
  }

  /** Held with the wanted status, on a lease that runs until `expiry`. */
  predicate HeldUntil(c: Setup, s: State, expiry: int) {
    |c.ips| == 1 && Present(c, s, 0) && Mine(c, s.ledger, 0) == IPInfo(ExpectedStatus(c.spec), c.spec.cluster, expiry)
  }

  /** A reconcile that renews the address: Observe, Edit, Renew, Finish. */
  lemma Renewed(c: Setup, s: State) returns (ss: seq<State>, steps: seq<Step>)
    requires Sensible(c, s) && s.start.None? && s.round.Resting? && Stale(c, s)
    ensures RunOf(c, ss, steps) && ss[0] == s
    ensures var s' := ss[|steps|];
            && s' == s.(ledger := s'.ledger, start := Some(s.now))
            && HeldUntil(c, s', s.now + c.spec.lease)
  {
    assert !Fresh(c, s, 0);
    var s1 := Take(c, s, Observe);
    OneStep(c, s, Observe);
    InNetworkOwn(c.ips[0], c.spec.key);
    var b, q := OneAddress(c, s1);
    UpdateOneEntry(s.ledger, c.spec, c.ips[0], s.now, c.spec.key, Own(c, 0));
    FixedPoint.SettlesExactly(c.spec);
    Joined(c, [s, s1], [Observe], b, q);
    var s2 := b[|q|];
    OneStep(c, s2, Finish);
    Joined(c, [s, s1] + b[1..], [Observe] + q, [s2, Take(c, s2, Finish)], [Finish]);
    ss, steps := [s, s1] + b[1..] + [s2, Take(c, s2, Finish)][1..], [Observe] + q + [Finish];
  }

  /** Waiting less than half a lease, then an Observe that finds the address up to date. */
  lemma Waited(c: Setup, s: State, seconds: nat, expiry: int) returns (ss: seq<State>, steps: seq<Step>)
    requires s.round.Resting? && s.start == Some(s.now) && HeldUntil(c, s, expiry)
    requires c.spec.lease >= 2 && 0 <= s.now && InInt64(s.now + seconds + c.spec.lease)
    requires seconds < c.spec.lease / 2 && s.now + seconds + c.spec.lease / 2 <= expiry
    ensures RunOf(c, ss, steps) && ss[0] == s
    ensures ss[|steps|] == s.(now := s.now + seconds, start := Some(s.now + seconds))
    ensures HeldUntil(c, ss[|steps|], expiry)
  {
    var s1 := Take(c, s, Pass(seconds));
    assert Fresh(c, s1, 0);
    var s2 := Take(c, s1, Observe);
    ss, steps := [s, s1, s2], [Pass(seconds), Observe];
    assert Fits(c, ss, steps, 0) && Fits(c, ss, steps, 1);
    assert PacedAt(c, ss, 0) && PacedAt(c, ss, 1) && PacedAt(c, ss, 2);
  }

  /** Waiting half a lease, then a tick that finds the lease expired. */
  lemma TooLate(c: Setup, s: State) returns (late: State, cleared: State)
    requires c.spec.lease >= 2 && s.now >= 0 && HeldUntil(c, s, s.now + c.spec.lease / 2)
    ensures StepsTo(c, s, Pass(c.spec.lease / 2), late) && StepsTo(c, late, Tick, cleared)
    ensures late == s.(now := s.now + c.spec.lease / 2) && Mine(c, cleared.ledger, 0) == BLANK
  {
    late := Take(c, s, Pass(c.spec.lease / 2));
    cleared := Take(c, late, Tick);
  }

  /** From any stale address of a lease of four seconds or more: a reconcile renews it, and three more
      find it up to date, less than half a lease apart, the last one half a lease before it runs out. */
  lemma KeptUntilHalf(c: Setup, s: State) returns (ss: seq<State>, steps: seq<Step>)
    requires c.spec.lease >= 4 && 0 <= s.now && InInt64(s.now + 2 * c.spec.lease)
    requires s.start.None? && s.round.Resting? && Stale(c, s)
    ensures IsPacedRun(c, ss, steps) && ss[0] == s
    ensures var s' := ss[|steps|];
            s'.now == s.now + HalfUp(c) && s'.start == Some(s'.now) && HeldUntil(c, s', s.now + c.spec.lease)
  {
    var expiry := s.now + c.spec.lease;
    var a, p := Renewed(c, s);
    var b, q := Waited(c, a[|p|], 1, expiry);
    Joined(c, a, p, b, q);
    var d, r := Waited(c, b[|q|], 1, expiry);
    Joined(c, a + b[1..], p + q, d, r);
    var e, t := Waited(c, d[|r|], HalfUp(c) - 2, expiry);
    Joined(c, a + b[1..] + d[1..], p + q + r, e, t);
    ss, steps := a + b[1..] + d[1..] + e[1..], p + q + r + t;
  }

  /** The pace is the slowest that works: after such a run half a lease passes without a reconcile, and
      the tick then clears the address. */
  lemma PaceIsTight(c: Setup, s: State) returns (ss: seq<State>, steps: seq<Step>, late: State, cleared: State)
    requires c.spec.lease >= 4 && 0 <= s.now && InInt64(s.now + 2 * c.spec.lease)
    requires s.start.None? && s.round.Resting? && Stale(c, s)
    ensures IsPacedRun(c, ss, steps) && ss[0] == s
    ensures StepsTo(c, ss[|steps|], Pass(c.spec.lease / 2), late)
    ensures late.start.Some? && late.now - late.start.value == c.spec.lease / 2
    ensures StepsTo(c, late, Tick, cleared)
    ensures Mine(c, late.ledger, 0).cluster == c.spec.cluster && Mine(c, cleared.ledger, 0) == BLANK
  {
    ss, steps := KeptUntilHalf(c, s);
    late, cleared := TooLate(c, ss[|steps|]);
  }
}

/** One process: its requests interleave freely, but the lock is held from Begin to End, across the
    record edits. The router's table is text, read and written back in separate steps. */
module Process {
  import opened Text
  import opened Ledgers
  import opened Operations
  import Dnsmasq

  /** One call to the DNS provider. */
  datatype Edit = Withdraw(cluster: string) | Publish(cluster: string, ip: string)

  datatype Phase =
    | Begun
    | Loaded(l: Ledger)
    | Saved(todo: seq<Edit>)
    | Editing(todo: seq<Edit>, read: string)
    | Ended

  /** What happened, in order. */
  datatype Mark = DidBegin(who: nat) | DidSave(who: nat) | DidEdit(who: nat) | DidEnd(who: nat)

  /** `dropped`: some record call had no effect, or a save took effect without its answer. */
  datatype State = State(
    ledger: Ledger,
    table: string,
    lock: Option<nat>,
    phases: map<nat, Phase>,
    edits: seq<Edit>,
    log: seq<Mark>,
    dropped: bool)

  datatype Step =
    | Begin(i: nat)
    | Load(i: nat)
    | Save(i: nat, op: Op, now: int, outcome: Outcome, keep: Ledger, order: seq<string>, heard: bool)
    | Read(i: nat)
    | Write(i: nat)
    | Drop(i: nat)
    | End(i: nat)

  function Name(cluster: string, zone: string): string {
    cluster + "." + zone
  }

  function EditText(zone: string, text: string, e: Edit): string {
    match e
    case Withdraw(c) => Dnsmasq.Remove(text, Name(c, zone))
    case Publish(c, ip) => Dnsmasq.Merge(text, Dnsmasq.Entry(Name(c, zone), ip), Name(c, zone))
  }

  function EditMap(records: map<string, string>, e: Edit): map<string, string> {
    match e
    case Withdraw(c) => records - {c}
    case Publish(c, ip) => records[c := ip]
  }

  /** The edits one after another. */
  function AllText(zone: string, text: string, edits: seq<Edit>): string {
    if edits == [] then text
    else EditText(zone, AllText(zone, text, edits[..|edits| - 1]), edits[|edits| - 1])
  }

  function AllMap(records: map<string, string>, edits: seq<Edit>): map<string, string> {
    if edits == [] then records
    else EditMap(AllMap(records, edits[..|edits| - 1]), edits[|edits| - 1])
  }

  /** The record calls of an operation: withdrawals in some order, then the publication. */
  function Todo(order: seq<string>, publish: Option<Record>): seq<Edit> {
    seq(|order|, i requires 0 <= i < |order| => Withdraw(order[i])) +
    if publish.None? then [] else [Publish(publish.value.cluster, publish.value.ip)]
  }

  ghost predicate Lists(order: seq<string>, all: set<string>) {
    forall c :: c in order <==> c in all
  }

  /** What a save keeps of a ledger: all of it on disk, all but empty networks in cr mode. */
  predicate Keeps(keep: Ledger, l: Ledger) {
    keep == l || keep == DropEmpty(l)
  }

  // ---- the steps -----------------------------------------------------------------

  predicate In(s: State, i: nat) {
    i in s.phases && !s.phases[i].Ended?
  }

  ghost predicate Ready(s: State, step: Step) {
    match step
    case Begin(i) => i !in s.phases && s.lock.None?
    case Load(i) => In(s, i) && s.phases[i].Begun?
    case Save(i, _, _, outcome, keep, order, _) =>
      && In(s, i) && s.phases[i].Loaded?
      && outcome.Commit? && Keeps(keep, outcome.ledger) && Lists(order, outcome.withdraw)
    case Read(i) => In(s, i) && s.phases[i].Saved? && s.phases[i].todo != []
    case Write(i) => In(s, i) && s.phases[i].Editing? && s.phases[i].todo != []
    case Drop(i) => In(s, i) && s.phases[i].Editing? && s.phases[i].todo != []
    case End(i) =>
      i in s.phases && !s.phases[i].Editing? && (s.phases[i].Saved? ==> s.phases[i].todo == [])
  }

  /** A save writes what its operation decides over the ledger that was loaded. */
  ghost predicate Enabled(s: State, step: Step) {
    && Ready(s, step)
    && (step.Save? ==>
          Possible(step.op, s.phases[step.i].l) && Apply(step.op, step.now, s.phases[step.i].l) == step.outcome)
  }

  function Moved(s: State, i: nat, phase: Phase): State {
    s.(phases := s.phases[i := phase])
  }

  ghost function Take(zone: string, s: State, step: Step): State
    requires Ready(s, step)
  {
    match step
    case Begin(i) => Moved(s, i, Begun).(lock := Some(i), log := s.log + [DidBegin(i)])
    case Load(i) => Moved(s, i, Loaded(s.ledger))
    case Save(i, _, _, outcome, keep, order, heard) =>
      if heard then
        Moved(s, i, Saved(Todo(order, outcome.publish)))
          .(ledger := keep, log := s.log + [DidSave(i)])
      else
        s.(ledger := keep, dropped := true)
    case Read(i) => Moved(s, i, Editing(s.phases[i].todo, s.table))
    case Write(i) =>
      var (todo, read) := (s.phases[i].todo, s.phases[i].read);
      Moved(s, i, Saved(todo[1..]))
        .(table := EditText(zone, read, todo[0]), edits := s.edits + [todo[0]], log := s.log + [DidEdit(i)])
    case Drop(i) => Moved(s, i, Saved(s.phases[i].todo[1..])).(dropped := true)
    case End(i) =>
      if s.phases[i].Ended? then s else Moved(s, i, Ended).(lock := None, log := s.log + [DidEnd(i)])
  }

  // ---- discipline of the lock -------------------------------------------------------

  /** Reading the marks: who is in, and whether they have saved. */
  datatype Turn = Free | Held(who: nat) | Wrote(who: nat) | Broken

  function Advance(t: Turn, m: Mark): Turn {
    match m
    case DidBegin(i) => if t.Free? then Held(i) else Broken
    case DidSave(i) => if t == Held(i) || t == Wrote(i) then Wrote(i) else Broken
    case DidEdit(i) => if t == Wrote(i) then t else Broken
    case DidEnd(i) => if t == Held(i) || t == Wrote(i) then Free else Broken
  }

  function Scan(log: seq<Mark>): Turn {
    if log == [] then Free else Advance(Scan(log[..|log| - 1]), log[|log| - 1])
  }

  function TurnOf(s: State): Turn {
    if s.lock.None? || s.lock.value !in s.phases then Free
    else if s.phases[s.lock.value].Saved? || s.phases[s.lock.value].Editing? then Wrote(s.lock.value)
    else Held(s.lock.value)
  }

  /** The lock's holder is the one open write; only it ever reads the table. */
  ghost predicate Locked(s: State) {
    && (s.lock.Some? ==> In(s, s.lock.value))
    && (forall i: nat :: In(s, i) ==> s.lock == Some(i))
    && (forall i: nat :: In(s, i) && s.phases[i].Editing? ==> s.phases[i].read == s.table)
  }

  ghost predicate Ordered(zone: string, s: State, initial: string) {
    Locked(s) && Scan(s.log) == TurnOf(s) && s.table == AllText(zone, initial, s.edits)
  }

  lemma ScanNext(log: seq<Mark>, m: Mark)
    ensures Scan(log + [m]) == Advance(Scan(log), m)
  {
    assert (log + [m])[..|log|] == log;
  }

  lemma AllTextNext(zone: string, text: string, edits: seq<Edit>, e: Edit)
    ensures AllText(zone, text, edits + [e]) == EditText(zone, AllText(zone, text, edits), e)
  {
    assert (edits + [e])[..|edits|] == edits;
  }

  lemma KeepsLocked(zone: string, s: State, step: Step)
    requires Locked(s) && Ready(s, step)
    ensures Locked(Take(zone, s, step))
  {
    var s' := Take(zone, s, step);
    assert In(s, step.i) ==> s.lock == Some(step.i);
    forall i: nat | In(s', i) ensures s'.lock == Some(i) {
      assert In(s, i) || (step.Begin? && i == step.i);
    }
  }

  /** The mark a step leaves, if any. */
  function Marks(s: State, step: Step): seq<Mark>
    requires Ready(s, step)
  {
    match step
    case Begin(i) => [DidBegin(i)]
    case Save(i, _, _, _, _, _, heard) => if heard then [DidSave(i)] else []
    case Write(i) => [DidEdit(i)]
    case End(i) => if s.phases[i].Ended? then [] else [DidEnd(i)]
    case _ => []
  }

  lemma MarksLogged(zone: string, s: State, step: Step)
    requires Ready(s, step)
    ensures Take(zone, s, step).log == s.log + Marks(s, step)
  {
  }

  lemma TurnAfter(zone: string, s: State, step: Step)
    requires Locked(s) && Ready(s, step)
    ensures var marks, turn := Marks(s, step), TurnOf(Take(zone, s, step));
            turn == if marks == [] then TurnOf(s) else Advance(TurnOf(s), marks[0])
  {
    assert In(s, step.i) ==> s.lock == Some(step.i);
  }

  lemma KeepsScan(zone: string, s: State, step: Step)
    requires Locked(s) && Scan(s.log) == TurnOf(s) && Ready(s, step)
    ensures Scan(Take(zone, s, step).log) == TurnOf(Take(zone, s, step))
  {
    var marks := Marks(s, step);
    MarksLogged(zone, s, step);
    TurnAfter(zone, s, step);
    if marks == [] {
      assert s.log + marks == s.log;
    } else {
      assert marks == [marks[0]];
      ScanNext(s.log, marks[0]);
    }
  }

  lemma TableAfter(zone: string, s: State, step: Step)
    requires Ready(s, step) && !step.Write?
    ensures Take(zone, s, step).table == s.table && Take(zone, s, step).edits == s.edits
  {
  }

  lemma TableWritten(zone: string, s: State, i: nat)
    requires Locked(s) && Ready(s, Write(i))
    ensures var e := s.phases[i].todo[0];
            Take(zone, s, Write(i)).table == EditText(zone, s.table, e) &&
            Take(zone, s, Write(i)).edits == s.edits + [e]
  {
    assert In(s, i);
  }

  lemma KeepsTable(zone: string, s: State, step: Step, initial: string)
    requires Locked(s) && s.table == AllText(zone, initial, s.edits) && Ready(s, step)
    ensures Take(zone, s, step).table == AllText(zone, initial, Take(zone, s, step).edits)
  {
    if step.Write? {
      TableWritten(zone, s, step.i);
      AllTextNext(zone, initial, s.edits, s.phases[step.i].todo[0]);
    } else {
      TableAfter(zone, s, step);
    }
  }

  ghost predicate StepsTo(zone: string, s: State, step: Step, s': State) {
    Enabled(s, step) && s' == Take(zone, s, step)
  }

  ghost predicate Fits(zone: string, ss: seq<State>, steps: seq<Step>, n: nat)
    requires n < |steps| && |ss| == |steps| + 1
  {
    StepsTo(zone, ss[n], steps[n], ss[n + 1])
  }

  /** A run from a free lock. */
  ghost predicate IsRun(zone: string, ss: seq<State>, steps: seq<Step>) {
    && |ss| == |steps| + 1
    && ss[0].lock.None? && ss[0].phases == map[] && ss[0].edits == [] && ss[0].log == [] && !ss[0].dropped
    && forall n :: 0 <= n < |steps| ==> Fits(zone, ss, steps, n)
  }

  lemma {:induction false} RunOrdered(zone: string, ss: seq<State>, steps: seq<Step>, n: nat)
    requires IsRun(zone, ss, steps) && n < |ss|
    ensures Ordered(zone, ss[n], ss[0].table)
  {
    if n == 0 {
    } else {
      RunOrdered(zone, ss, steps, n - 1);
      assert Fits(zone, ss, steps, n - 1);
      KeepsLocked(zone, ss[n - 1], steps[n - 1]);
      KeepsScan(zone, ss[n - 1], steps[n - 1]);
      KeepsTable(zone, ss[n - 1], steps[n - 1], ss[0].table);
    }
  }

  /** The table is the completed edits applied one after another: no read-merge-write loses another. */
  lemma NoLostRecord(zone: string, ss: seq<State>, steps: seq<Step>, n: nat)
    requires IsRun(zone, ss, steps) && n < |ss|
    ensures ss[n].table == AllText(zone, ss[0].table, ss[n].edits)
  {
    RunOrdered(zone, ss, steps, n);
  }

  /** At most one ledger write is open, it holds the lock, and the history of any run follows the
      discipline: begin, save, edit, end, one writer at a time. */
  lemma LockDiscipline(zone: string, ss: seq<State>, steps: seq<Step>, n: nat, i: nat, j: nat)
    requires IsRun(zone, ss, steps) && n < |ss|
    ensures In(ss[n], i) && In(ss[n], j) ==> i == j && ss[n].lock == Some(i)
    ensures Scan(ss[n].log) != Broken
  {
    RunOrdered(zone, ss, steps, n);
  }

  /** In a disciplined history every record edit follows its writer's own save, with nothing by
      anybody else and no end of its own in between. */
  ghost predicate SavedBefore(log: seq<Mark>, m: nat, i: nat)
    requires m <= |log|
  {
    exists k :: 0 <= k < m && log[k] == DidSave(i) &&
      forall x :: k < x < m ==> log[x] == DidEdit(i) || log[x] == DidSave(i)
  }

  lemma {:induction false} WroteMeansSaved(log: seq<Mark>, m: nat, i: nat)
    requires m <= |log| && Scan(log[..m]) == Wrote(i)
    ensures SavedBefore(log, m, i)
  {
    var before := log[..m][..m - 1];
    assert before == log[..m - 1];
    if log[m - 1] != DidSave(i) {
      WroteMeansSaved(log, m - 1, i);
    }
  }

  lemma {:induction false} StaysBroken(log: seq<Mark>, m: nat)
    requires m <= |log| && Scan(log[..m]) == Broken
    ensures Scan(log) == Broken
    decreases |log| - m
  {
    if m == |log| {
      assert log[..m] == log;
    } else {
      assert log[..m + 1][..m] == log[..m];
      StaysBroken(log, m + 1);
    }
  }

  lemma EditsFollowOwnSave(zone: string, ss: seq<State>, steps: seq<Step>, n: nat, m: nat, i: nat)
    requires IsRun(zone, ss, steps) && n < |ss| && m < |ss[n].log| && ss[n].log[m] == DidEdit(i)
    ensures SavedBefore(ss[n].log, m, i)
  {
    var log := ss[n].log;
    RunOrdered(zone, ss, steps, n);
    assert log[..m + 1][..m] == log[..m];
    if Scan(log[..m]) != Wrote(i) {
      StaysBroken(log, m + 1);
    }
    WroteMeansSaved(log, m, i);
  }

  /** An End frees the writer's own lock the first time and never anybody else's. */
  lemma EndIsHarmless(zone: string, ss: seq<State>, steps: seq<Step>, n: nat, i: nat, other: nat)
    requires IsRun(zone, ss, steps) && n < |steps| && steps[n] == End(i)
    requires ss[n].lock == Some(other) && other != i
    ensures ss[n + 1] == ss[n]
  {
    RunOrdered(zone, ss, steps, n);
    assert Fits(zone, ss, steps, n);
    var s := ss[n];
    assert In(s, i) ==> s.lock == Some(i);
  }
}

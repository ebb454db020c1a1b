/** Any number of replicas, each with its lock and its open write, against one stored object that
    others may also edit, delete and create again. The Get and the conditional write of a save are
    separate steps. */
module Protocol {
  import opened Ledgers
  import opened CrCodec
  import opened Store
  import opened Operations

  /** `seen` is the object the writer last loaded or saved, `mem` the ledger it took from it. Adrift is a
      write that writer `owner` has given up on and that may still reach the server. */
  datatype Phase =
    | Begun
    | Loaded(seen: Stored, version: string, mem: Ledger)
    | Saving(seen: Stored, version: string, mem: Ledger, change: Change, plan: Plan)
    | Adrift(owner: nat, seen: Stored, version: string, mem: Ledger, change: Change, plan: Plan)
    | Ended

  /** One decided operation, with the text it is about to save. */
  datatype Change = Change(op: Op, now: int, written: Ledger, networks: CR)

  datatype Writer = Writer(replica: nat, phase: Phase)

  /** A change of the stored object, in the order the object took them. */
  datatype Event =
    | ByOperation(writer: nat, change: Change, seen: Ledger, before: Stored, after: Stored)
    | ByOthers(before: Stored, after: Stored)

  /** A save that returned, and whether it took effect; one given up on is entered when its write lands. */
  datatype Call = Call(writer: nat, result: SaveResult, applied: bool)

  datatype World = World(
    stored: Stored,
    minted: map<string, CR>,
    locks: map<nat, nat>,
    writers: map<nat, Writer>,
    log: seq<Event>,
    calls: seq<Call>)

  datatype Step =
    | Begin(writer: nat, replica: nat)
    | Load(writer: nat)
    | Get(writer: nat, change: Change)
    | Give(writer: nat)
    | Write(writer: nat, next: string, heard: bool)
    | Abandon(writer: nat, flight: nat)
    | Land(flight: nat, next: string)
    | End(writer: nat)
    | OthersWrite(next: string, networks: CR)
    | OthersDelete

  ghost predicate Sound(change: Change, seen: Ledger) {
    && Possible(change.op, seen)
    && Apply(change.op, change.now, seen).Commit?
    && Apply(change.op, change.now, seen).ledger == change.written
    && Encodes(change.written, change.networks)
  }

  /** Versions are never empty and never reused, except that a write changing nothing may keep the
      object's version. */
  predicate Mintable(w: World, next: string, networks: CR) {
    && next != ""
    && (next !in w.minted || (w.stored == Present(next, networks) && w.minted[next] == networks))
  }

  /** The Get has agreed and the write may reach the server. */
  predicate UnderWay(phase: Phase) {
    (phase.Saving? || phase.Adrift?) && !phase.plan.Refuse?
  }

  /** The server takes the write. */
  predicate Accepts(w: World, phase: Phase, next: string)
    requires UnderWay(phase)
  {
    Perform(w.stored, phase.plan, phase.change.networks, next).1.Accepted?
  }

  predicate Open(w: World, writer: nat) {
    writer in w.writers && !w.writers[writer].phase.Ended? && !w.writers[writer].phase.Adrift?
  }

  // ---- the steps -----------------------------------------------------------------

  predicate Ready(w: World, step: Step) {
    match step
    case Begin(writer, replica) => writer !in w.writers && replica !in w.locks
    case Load(writer) =>
      Open(w, writer) && !w.writers[writer].phase.Saving? && LoadFrom(w.stored).Some?
    case Get(writer, _) => Open(w, writer) && w.writers[writer].phase.Loaded?
    case Give(writer) => Open(w, writer) && (w.writers[writer].phase.Loaded? || w.writers[writer].phase.Saving?)
    case Write(writer, next, _) =>
      && Open(w, writer) && UnderWay(w.writers[writer].phase)
      && (Accepts(w, w.writers[writer].phase, next) ==> Mintable(w, next, w.writers[writer].phase.change.networks))
    case Abandon(writer, flight) =>
      Open(w, writer) && UnderWay(w.writers[writer].phase) && flight !in w.writers
    case Land(flight, next) =>
      && flight in w.writers && w.writers[flight].phase.Adrift? && UnderWay(w.writers[flight].phase)
      && (Accepts(w, w.writers[flight].phase, next) ==> Mintable(w, next, w.writers[flight].phase.change.networks))
    case End(writer) => writer in w.writers && !w.writers[writer].phase.Saving? && !w.writers[writer].phase.Adrift?
    case OthersWrite(next, networks) => Mintable(w, next, networks)
    case OthersDelete => w.stored.Present?
  }

  /** A save writes what an operation decided over the writer's ledger. */
  ghost predicate Enabled(w: World, step: Step) {
    Ready(w, step) && (step.Get? ==> Sound(step.change, w.writers[step.writer].phase.mem))
  }

  function WithPhase(w: World, writer: nat, phase: Phase): World
    requires writer in w.writers
  {
    w.(writers := w.writers[writer := w.writers[writer].(phase := phase)])
  }

  function Returned(w: World, writer: nat, result: SaveResult, applied: bool): World {
    w.(calls := w.calls + [Call(writer, result, applied)])
  }

  /** The Get of a save: a version other than the one seen is a conflict at once. */
  function GetStep(w: World, writer: nat, change: Change): World
    requires Ready(w, Get(writer, change))
  {
    var p := w.writers[writer].phase;
    var plan := Checked(w.stored, p.version);
    if plan.Refuse? then Returned(w, writer, SaveResult.Conflict, false)
    else WithPhase(w, writer, Saving(p.seen, p.version, p.mem, change, plan))
  }

  /** The Create or Update reaches the server. */
  function Reach(w: World, owner: nat, p: Phase, next: string): World
    requires UnderWay(p)
  {
    var (after, reply) := Perform(w.stored, p.plan, p.change.networks, next);
    if reply.Accepted? then
      w.(stored := after, minted := w.minted[next := p.change.networks],
         log := w.log + [ByOperation(owner, p.change, p.mem, w.stored, after)])
    else w
  }

  /** Its reply may be lost. */
  function WriteStep(w: World, writer: nat, next: string, heard: bool): World
    requires Ready(w, Write(writer, next, heard))
  {
    var p := w.writers[writer].phase;
    var (after, reply) := Perform(w.stored, p.plan, p.change.networks, next);
    var result := Told(reply, heard);
    var phase := if result.Saved? then Loaded(after, result.version, p.change.written)
                 else Loaded(p.seen, p.version, p.mem);
    Returned(WithPhase(Reach(w, writer, p, next), writer, phase), writer, result, reply.Accepted?)
  }

  /** The writer gives up; its write stays on its way under a name of its own. */
  function AbandonStep(w: World, writer: nat, flight: nat): World
    requires Ready(w, Abandon(writer, flight))
  {
    var p := w.writers[writer].phase;
    var adrift := Writer(w.writers[writer].replica, Adrift(writer, p.seen, p.version, p.mem, p.change, p.plan));
    WithPhase(w.(writers := w.writers[flight := adrift]), writer, Loaded(p.seen, p.version, p.mem))
  }

  /** A write given up on reaches the server after all, whatever its writer has done since. */
  function LandStep(w: World, flight: nat, next: string): World
    requires Ready(w, Land(flight, next))
  {
    var p := w.writers[flight].phase;
    Returned(WithPhase(Reach(w, p.owner, p, next), flight, Ended), p.owner, SaveResult.Failed, Accepts(w, p, next))
  }

  /** The lock goes back only the first time. */
  function EndStep(w: World, writer: nat): World
    requires writer in w.writers
  {
    if w.writers[writer].phase.Ended? then w
    else WithPhase(w, writer, Ended).(locks := w.locks - {w.writers[writer].replica})
  }

  function OthersStep(w: World, after: Stored): World {
    w.(stored := after, log := w.log + [ByOthers(w.stored, after)])
  }

  function Take(w: World, step: Step): World
    requires Ready(w, step)
  {
    match step
    case Begin(writer, replica) =>
      w.(locks := w.locks[replica := writer], writers := w.writers[writer := Writer(replica, Begun)])
    case Load(writer) => WithPhase(w, writer, Loaded(w.stored, VersionOf(w.stored), LoadFrom(w.stored).value))
    case Get(writer, change) => GetStep(w, writer, change)
    case Give(writer) =>
      // The Get or the write failed before it took effect.
      var p := w.writers[writer].phase;
      Returned(WithPhase(w, writer, Loaded(p.seen, p.version, p.mem)), writer, SaveResult.Failed, false)
    case Write(writer, next, heard) => WriteStep(w, writer, next, heard)
    case Abandon(writer, flight) => AbandonStep(w, writer, flight)
    case Land(flight, next) => LandStep(w, flight, next)
    case End(writer) => EndStep(w, writer)
    case OthersWrite(next, networks) =>
      OthersStep(w, Present(next, networks)).(minted := w.minted[next := networks])
    case OthersDelete => OthersStep(w, Absent)
  }

  // ---- what every step keeps -------------------------------------------------------

  /** A version identifies the content it was given to. */
  ghost predicate Known(w: World, s: Stored) {
    s.Present? ==> s.version in w.minted && w.minted[s.version] == s.networks
  }

  ghost predicate WriterOk(w: World, phase: Phase) {
    match phase
    case Loaded(seen, version, _) => Known(w, seen) && version == VersionOf(seen)
    case Saving(seen, version, _, _, plan) =>
      Known(w, seen) && version == VersionOf(seen) && plan == (if version == "" then CreateNew else UpdateAt(version))
    case Adrift(_, seen, version, _, _, plan) =>
      Known(w, seen) && version == VersionOf(seen) && plan == (if version == "" then CreateNew else UpdateAt(version))
    case _ => true
  }

  ghost predicate VersionsOk(w: World) {
    && "" !in w.minted
    && Known(w, w.stored)
    && forall i :: i in w.writers ==> WriterOk(w, w.writers[i].phase)
  }

  /** A writer's ledger is one its object shows, and what it is saving was decided over that ledger. */
  ghost predicate Decided(phase: Phase) {
    match phase
    case Loaded(seen, _, mem) => Shows(seen, mem)
    case Saving(seen, _, mem, change, _) => Shows(seen, mem) && Sound(change, mem)
    case Adrift(_, seen, _, mem, change, _) => Shows(seen, mem) && Sound(change, mem)
    case _ => true
  }

  ghost predicate AllDecided(w: World) {
    forall i :: i in w.writers ==> Decided(w.writers[i].phase)
  }

  /** A replica's lock is held by its one open writer, and free when it has none. */
  ghost predicate LocksOk(w: World) {
    && (forall r :: r in w.locks ==> Open(w, w.locks[r]) && w.writers[w.locks[r]].replica == r)
    && forall i :: Open(w, i) ==> w.writers[i].replica in w.locks && w.locks[w.writers[i].replica] == i
  }

  /** Each event starts from the object the one before it left. */
  ghost predicate Chain(initial: Stored, log: seq<Event>, last: Stored) {
    if log == [] then initial == last
    else Chain(initial, log[..|log| - 1], log[|log| - 1].before) && log[|log| - 1].after == last
  }

  /** The operation was decided over a ledger the replaced object shows, and the object that took
      its place holds a text of the ledger it decided on. */
  ghost predicate EventOk(e: Event) {
    match e
    case ByOperation(_, change, seen, before, after) =>
      Shows(before, seen) && Sound(change, seen) && after.Present? && after.networks == change.networks
    case ByOthers(_, _) => true
  }

  ghost predicate Serial(initial: Stored, log: seq<Event>, last: Stored) {
    Chain(initial, log, last) && forall i :: 0 <= i < |log| ==> EventOk(log[i])
  }

  /** A nil error means applied, a conflict means not; a plain error may be either. */
  ghost predicate Honest(calls: seq<Call>) {
    forall i :: 0 <= i < |calls| ==>
      (calls[i].result.Saved? ==> calls[i].applied) && (calls[i].result.Conflict? ==> !calls[i].applied)
  }

  /** The writers whose saves took effect, in the order their calls returned. */
  function AppliedBy(calls: seq<Call>): seq<nat> {
    if calls == [] then []
    else
      var last := calls[|calls| - 1];
      AppliedBy(calls[..|calls| - 1]) + if last.applied then [last.writer] else []
  }

  /** The writers of the operations in the object's history. */
  function CommittedBy(log: seq<Event>): seq<nat> {
    if log == [] then []
    else
      var last := log[|log| - 1];
      CommittedBy(log[..|log| - 1]) + if last.ByOperation? then [last.writer] else []
  }

  ghost predicate Inv(w: World, initial: Stored) {
    && VersionsOk(w) && AllDecided(w) && LocksOk(w) && Serial(initial, w.log, w.stored)
    && Honest(w.calls) && AppliedBy(w.calls) == CommittedBy(w.log)
  }

  ghost predicate Init(w: World) {
    && w.locks == map[] && w.writers == map[] && w.log == [] && w.calls == []
    && "" !in w.minted && Known(w, w.stored)
  }

  lemma InitKeeps(w: World)
    requires Init(w)
    ensures Inv(w, w.stored)
  {
  }

  /** Content seen under a version is the content the object has while it has that version. */
  lemma SameVersionSameObject(w: World, s: Stored)
    requires "" !in w.minted && Known(w, w.stored) && Known(w, s) && VersionOf(s) == VersionOf(w.stored)
    ensures s == w.stored
  {
  }

  /** What an accepted write replaces is exactly what its writer last loaded or saved, also when the
      writer has given it up. */
  lemma AcceptedReplacesSeen(w: World, writer: nat, next: string)
    requires VersionsOk(w) && writer in w.writers && UnderWay(w.writers[writer].phase)
    ensures Accepts(w, w.writers[writer].phase, next) <==> w.stored == w.writers[writer].phase.seen
  {
    assert WriterOk(w, w.writers[writer].phase);
    var p := w.writers[writer].phase;
    if VersionOf(w.stored) == p.version {
      SameVersionSameObject(w, p.seen);
    }
  }

  lemma ChainNext(initial: Stored, log: seq<Event>, e: Event)
    requires Serial(initial, log, e.before) && EventOk(e)
    ensures Serial(initial, log + [e], e.after)
  {
    var more := log + [e];
    assert more[..|more| - 1] == log;
  }

  lemma HonestNext(calls: seq<Call>, c: Call)
    requires Honest(calls)
    requires (c.result.Saved? ==> c.applied) && (c.result.Conflict? ==> !c.applied)
    ensures Honest(calls + [c])
  {
  }

  lemma KeepsStored(w: World, step: Step)
    requires VersionsOk(w) && Ready(w, step)
    ensures "" !in Take(w, step).minted && Known(Take(w, step), Take(w, step).stored)
  {
  }

  predicate ActsFor(step: Step, i: nat) {
    match step
    case OthersWrite(_, _) => false
    case OthersDelete => false
    case Abandon(writer, flight) => i == writer || i == flight
    case Land(flight, _) => i == flight
    case _ => step.writer == i
  }

  lemma Untouched(w: World, step: Step, i: nat)
    requires Ready(w, step) && !ActsFor(step, i)
    ensures i in Take(w, step).writers <==> i in w.writers
    ensures i in w.writers ==> Take(w, step).writers[i] == w.writers[i]
  {
  }

  /** The acting writer's next phase, step by step. */
  function NextPhase(w: World, step: Step, i: nat): Phase
    requires Ready(w, step) && ActsFor(step, i)
  {
    var p := if step.Begin? then Begun else if step.Land? then Ended else w.writers[step.writer].phase;
    match step
    case Begin(_, _) => Begun
    case Load(_) => Loaded(w.stored, VersionOf(w.stored), LoadFrom(w.stored).value)
    case Get(_, change) =>
      var plan := Checked(w.stored, p.version);
      if plan.Refuse? then p else Saving(p.seen, p.version, p.mem, change, plan)
    case Give(_) => Loaded(p.seen, p.version, p.mem)
    case Write(_, next, heard) =>
      var (after, reply) := Perform(w.stored, p.plan, p.change.networks, next);
      if Told(reply, heard).Saved? then Loaded(after, next, p.change.written) else Loaded(p.seen, p.version, p.mem)
    case Abandon(writer, _) =>
      if i == writer then Loaded(p.seen, p.version, p.mem)
      else Adrift(writer, p.seen, p.version, p.mem, p.change, p.plan)
    case Land(_, _) => Ended
    case End(_) => Ended
  }

  lemma Acted(w: World, step: Step, i: nat)
    requires Ready(w, step) && ActsFor(step, i)
    ensures i in Take(w, step).writers && Take(w, step).writers[i].phase == NextPhase(w, step, i)
  {
  }

  /** What is known stays known. */
  lemma KeepsKnown(w: World, step: Step, s: Stored)
    requires Ready(w, step) && Known(w, s)
    ensures Known(Take(w, step), s)
  {
  }

  lemma KeepsVersions(w: World, step: Step)
    requires VersionsOk(w) && Ready(w, step)
    ensures VersionsOk(Take(w, step))
  {
    var w' := Take(w, step);
    KeepsStored(w, step);
    forall i | i in w'.writers ensures WriterOk(w', w'.writers[i].phase) {
      KeepsWriter(w, step, i);
    }
  }

  lemma KeepsWriter(w: World, step: Step, i: nat)
    requires VersionsOk(w) && Ready(w, step) && i in Take(w, step).writers
    ensures WriterOk(Take(w, step), Take(w, step).writers[i].phase)
  {
    if ActsFor(step, i) {
      Acted(w, step, i);
      NextPhaseKnown(w, step, i);
    } else {
      Untouched(w, step, i);
      PhaseStaysOk(w, step, w.writers[i].phase);
    }
  }

  lemma PhaseStaysOk(w: World, step: Step, phase: Phase)
    requires Ready(w, step) && WriterOk(w, phase)
    ensures WriterOk(Take(w, step), phase)
  {
    if phase.Loaded? || phase.Saving? || phase.Adrift? { KeepsKnown(w, step, phase.seen); }
  }

  lemma NextPhaseKnown(w: World, step: Step, i: nat)
    requires VersionsOk(w) && Ready(w, step) && ActsFor(step, i)
    ensures WriterOk(Take(w, step), NextPhase(w, step, i))
  {
    KeepsStored(w, step);
    KeepsKnown(w, step, w.stored);
    if !step.Begin? && !step.Land? {
      assert WriterOk(w, w.writers[step.writer].phase);
      PhaseStaysOk(w, step, w.writers[step.writer].phase);
    }
  }

  lemma KeepsDecided(w: World, step: Step)
    requires AllDecided(w) && Enabled(w, step)
    ensures AllDecided(Take(w, step))
  {
    var w' := Take(w, step);
    forall i | i in w'.writers ensures Decided(w'.writers[i].phase) {
      KeepsOneDecided(w, step, i);
    }
  }

  lemma KeepsOneDecided(w: World, step: Step, i: nat)
    requires AllDecided(w) && Enabled(w, step) && i in Take(w, step).writers
    ensures Decided(Take(w, step).writers[i].phase)
  {
    if ActsFor(step, i) {
      Acted(w, step, i);
      if !step.Begin? && !step.Land? { assert Decided(w.writers[step.writer].phase); }
    } else {
      Untouched(w, step, i);
    }
  }

  /** Who holds which lock afterwards. */
  lemma LocksAfter(w: World, step: Step)
    requires Ready(w, step)
    ensures Take(w, step).locks == match step
      case Begin(writer, replica) => w.locks[replica := writer]
      case End(writer) =>
        if w.writers[writer].phase.Ended? then w.locks else w.locks - {w.writers[writer].replica}
      case _ => w.locks
    ensures forall i :: i in w.writers ==>
              i in Take(w, step).writers && Take(w, step).writers[i].replica == w.writers[i].replica
  {
  }

  /** Only Begin opens a write and only End closes one. */
  lemma OpenAfter(w: World, step: Step, i: nat)
    requires Ready(w, step)
    ensures Open(Take(w, step), i) <==>
            (step.Begin? && step.writer == i) || (Open(w, i) && !(step.End? && step.writer == i))
  {
    if ActsFor(step, i) { Acted(w, step, i); } else { Untouched(w, step, i); }
  }

  lemma KeepsLocks(w: World, step: Step)
    requires LocksOk(w) && Ready(w, step)
    ensures LocksOk(Take(w, step))
  {
    var w' := Take(w, step);
    LocksAfter(w, step);
    forall r | r in w'.locks ensures Open(w', w'.locks[r]) && w'.writers[w'.locks[r]].replica == r {
      OpenAfter(w, step, w'.locks[r]);
    }
    forall i | Open(w', i) ensures w'.writers[i].replica in w'.locks && w'.locks[w'.writers[i].replica] == i {
      OpenAfter(w, step, i);
    }
  }

  lemma ReachIsSound(w: World, writer: nat, owner: nat, next: string)
    requires VersionsOk(w) && writer in w.writers && UnderWay(w.writers[writer].phase)
    requires Decided(w.writers[writer].phase)
    ensures var p := w.writers[writer].phase;
            var after := Perform(w.stored, p.plan, p.change.networks, next).0;
            Accepts(w, p, next) ==> EventOk(ByOperation(owner, p.change, p.mem, w.stored, after))
  {
    AcceptedReplacesSeen(w, writer, next);
  }

  lemma ReachKeepsLog(w: World, initial: Stored, writer: nat, owner: nat, next: string)
    requires VersionsOk(w) && Serial(initial, w.log, w.stored)
    requires writer in w.writers && UnderWay(w.writers[writer].phase) && Decided(w.writers[writer].phase)
    ensures var w' := Reach(w, owner, w.writers[writer].phase, next); Serial(initial, w'.log, w'.stored)
  {
    ReachIsSound(w, writer, owner, next);
    var p := w.writers[writer].phase;
    var (after, reply) := Perform(w.stored, p.plan, p.change.networks, next);
    if reply.Accepted? {
      ChainNext(initial, w.log, ByOperation(owner, p.change, p.mem, w.stored, after));
    }
  }

  lemma KeepsLog(w: World, initial: Stored, step: Step)
    requires VersionsOk(w) && AllDecided(w) && Serial(initial, w.log, w.stored) && Ready(w, step)
    ensures Serial(initial, Take(w, step).log, Take(w, step).stored)
  {
    match step {
      case Write(writer, next, heard) =>
        assert Decided(w.writers[writer].phase);
        ReachKeepsLog(w, initial, writer, writer, next);
      case Land(flight, next) =>
        assert Decided(w.writers[flight].phase);
        ReachKeepsLog(w, initial, flight, w.writers[flight].phase.owner, next);
      case OthersWrite(next, networks) => ChainNext(initial, w.log, ByOthers(w.stored, Present(next, networks)));
      case OthersDelete => ChainNext(initial, w.log, ByOthers(w.stored, Absent));
      case _ =>
    }
  }

  lemma KeepsHonest(w: World, step: Step)
    requires Honest(w.calls) && Ready(w, step)
    ensures Honest(Take(w, step).calls)
  {
    match step {
      case Write(writer, next, heard) =>
        var p := w.writers[writer].phase;
        var reply := Perform(w.stored, p.plan, p.change.networks, next).1;
        HonestNext(w.calls, Call(writer, Told(reply, heard), reply.Accepted?));
      case Land(flight, next) =>
        var p := w.writers[flight].phase;
        HonestNext(w.calls, Call(p.owner, SaveResult.Failed, Accepts(w, p, next)));
      case _ =>
    }
  }

  lemma AppliedNext(calls: seq<Call>, c: Call)
    ensures AppliedBy(calls + [c]) == AppliedBy(calls) + if c.applied then [c.writer] else []
  {
    assert (calls + [c])[..|calls|] == calls;
  }

  lemma CommittedNext(log: seq<Event>, e: Event)
    ensures CommittedBy(log + [e]) == CommittedBy(log) + if e.ByOperation? then [e.writer] else []
  {
    assert (log + [e])[..|log|] == log;
  }

  lemma ReachKeepsMatch(w: World, w': World, owner: nat, p: Phase, next: string, result: SaveResult)
    requires AppliedBy(w.calls) == CommittedBy(w.log) && UnderWay(p)
    requires w'.log == Reach(w, owner, p, next).log && w'.calls == w.calls + [Call(owner, result, Accepts(w, p, next))]
    ensures AppliedBy(w'.calls) == CommittedBy(w'.log)
  {
    var after := Perform(w.stored, p.plan, p.change.networks, next).0;
    AppliedNext(w.calls, Call(owner, result, Accepts(w, p, next)));
    CommittedNext(w.log, ByOperation(owner, p.change, p.mem, w.stored, after));
  }

  lemma CallKeepsMatch(w: World, w': World, c: Call)
    requires AppliedBy(w.calls) == CommittedBy(w.log) && !c.applied
    requires w'.log == w.log && (w'.calls == w.calls || w'.calls == w.calls + [c])
    ensures AppliedBy(w'.calls) == CommittedBy(w'.log)
  {
    AppliedNext(w.calls, c);
  }

  lemma OthersKeepMatch(w: World, w': World, after: Stored)
    requires AppliedBy(w.calls) == CommittedBy(w.log)
    requires w'.calls == w.calls && w'.log == w.log + [ByOthers(w.stored, after)]
    ensures AppliedBy(w'.calls) == CommittedBy(w'.log)
  {
    CommittedNext(w.log, ByOthers(w.stored, after));
  }

  lemma KeepsMatch(w: World, step: Step)
    requires AppliedBy(w.calls) == CommittedBy(w.log) && Ready(w, step)
    ensures AppliedBy(Take(w, step).calls) == CommittedBy(Take(w, step).log)
  {
    match step {
      case Get(writer, _) => CallKeepsMatch(w, Take(w, step), Call(writer, SaveResult.Conflict, false));
      case Give(writer) => CallKeepsMatch(w, Take(w, step), Call(writer, SaveResult.Failed, false));
      case Write(writer, next, heard) =>
        var p := w.writers[writer].phase;
        var reply := Perform(w.stored, p.plan, p.change.networks, next).1;
        ReachKeepsMatch(w, Take(w, step), writer, p, next, Told(reply, heard));
      case Land(flight, next) =>
        var p := w.writers[flight].phase;
        ReachKeepsMatch(w, Take(w, step), p.owner, p, next, SaveResult.Failed);
      case OthersWrite(next, networks) => OthersKeepMatch(w, Take(w, step), Present(next, networks));
      case OthersDelete => OthersKeepMatch(w, Take(w, step), Absent);
      case _ =>
    }
  }

  lemma StepKeeps(w: World, initial: Stored, step: Step)
    requires Inv(w, initial) && Enabled(w, step)
    ensures Inv(Take(w, step), initial)
  {
    KeepsVersions(w, step);
    KeepsDecided(w, step);
    KeepsLocks(w, step);
    KeepsLog(w, initial, step);
    KeepsHonest(w, step);
    KeepsMatch(w, step);
  }

  // ---- whole runs ---------------------------------------------------------------

  ghost predicate Fits(ws: seq<World>, steps: seq<Step>, n: nat)
    requires n < |steps| && |ws| == |steps| + 1
  {
    StepsTo(ws[n], steps[n], ws[n + 1])
  }

  /** `ws` are the worlds of a run, `steps` what leads from each to the next. */
  ghost predicate IsRun(ws: seq<World>, steps: seq<Step>) {
    && |ws| == |steps| + 1
    && Init(ws[0])
    && forall i :: 0 <= i < |steps| ==> Fits(ws, steps, i)
  }

  ghost predicate StepsTo(w: World, step: Step, w': World) {
    Enabled(w, step) && w' == Take(w, step)
  }

  lemma {:induction false} RunKeeps(ws: seq<World>, steps: seq<Step>, n: nat)
    requires IsRun(ws, steps) && n < |ws|
    ensures Inv(ws[n], ws[0].stored)
  {
    if n == 0 {
      InitKeeps(ws[0]);
    } else {
      RunKeeps(ws, steps, n - 1);
      assert Fits(ws, steps, n - 1);
      StepKeeps(ws[n - 1], ws[0].stored, steps[n - 1]);
    }
  }

  /** No lost update. In any interleaving of any number of replicas with any outside edits, deletes
      and re-creates, and with writes that land long after they were given up, the object's history is
      the committed operations and the outside changes one at a time: each starts from what the last one
      left, and each operation was decided over a ledger that shows exactly the object it replaced. */
  lemma NoLostUpdate(ws: seq<World>, steps: seq<Step>, n: nat)
    requires IsRun(ws, steps) && n < |ws|
    ensures Serial(ws[0].stored, ws[n].log, ws[n].stored)
  {
    RunKeeps(ws, steps, n);
  }

  /** Every save that returned nil took effect, none that returned a conflict did, and the history
      holds one operation for every save that took effect, in the same order. */
  lemma SavesAreHonest(ws: seq<World>, steps: seq<Step>, n: nat)
    requires IsRun(ws, steps) && n < |ws|
    ensures Honest(ws[n].calls) && AppliedBy(ws[n].calls) == CommittedBy(ws[n].log)
  {
    RunKeeps(ws, steps, n);
  }

  /** A replica never has two open ledger writes. */
  lemma OneOpenWrite(ws: seq<World>, steps: seq<Step>, n: nat, i: nat, j: nat)
    requires IsRun(ws, steps) && n < |ws|
    requires Open(ws[n], i) && Open(ws[n], j) && ws[n].writers[i].replica == ws[n].writers[j].replica
    ensures i == j
  {
    RunKeeps(ws, steps, n);
  }

  /** An End frees the writer's own lock the first time, and nobody else's ever. */
  lemma EndFreesOnlyOwn(ws: seq<World>, steps: seq<Step>, n: nat, writer: nat, r: nat)
    requires IsRun(ws, steps) && n < |steps| && steps[n] == End(writer)
    requires r in ws[n].locks && ws[n].locks[r] != writer
    ensures r in ws[n + 1].locks && ws[n + 1].locks[r] == ws[n].locks[r]
    ensures !Open(ws[n], writer) ==> ws[n + 1] == ws[n]
  {
    RunKeeps(ws, steps, n);
    assert Fits(ws, steps, n);
  }
}

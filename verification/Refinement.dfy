/** A request served in cr mode is a path of the protocol: what one server does with its calls, while
    others act before each of them, is what the steps of `Protocol` do. */
module Refinement {
  import opened Text
  import opened Ledgers
  import opened CrCodec
  import opened Operations
  import opened Store
  import opened LedgerWriting
  import opened Protocol

  /** The steps lead from one world to the other. */
  ghost predicate Path(w: World, steps: seq<Protocol.Step>, w': World)
    decreases |steps|
  {
    if steps == [] then w == w'
    else Enabled(w, steps[0]) && Path(Take(w, steps[0]), steps[1..], w')
  }

  lemma PathOne(w: World, step: Protocol.Step)
    requires Enabled(w, step)
    ensures Path(w, [step], Take(w, step))
  {
    assert [step][1..] == [];
  }

  lemma {:induction false} PathThen(a: World, s: seq<Protocol.Step>, b: World, t: seq<Protocol.Step>, c: World)
    requires Path(a, s, b) && Path(b, t, c)
    ensures Path(a, s + t, c)
    decreases |s|
  {
    if s == [] {
      assert s + t == t;
    } else {
      assert (s + t)[0] == s[0] && (s + t)[1..] == s[1..] + t;
      PathThen(Take(a, s[0]), s[1..], b, t, c);
    }
  }

  lemma PathStep(a: World, s: seq<Protocol.Step>, b: World, step: Protocol.Step)
    requires Path(a, s, b) && Enabled(b, step)
    ensures Path(a, s + [step], Take(b, step))
  {
    PathOne(b, step);
    PathThen(a, s, b, [step], Take(b, step));
  }

  // ---- others act before a call ------------------------------------------------------

  /** Others can leave the object as `s`: untouched, deleted, or written under a version of its own. */
  ghost predicate OthersMay(w: World, s: Stored) {
    s == w.stored || (s.Absent? && w.stored.Present?) || (s.Present? && Mintable(w, s.version, s.networks))
  }

  function OthersSteps(w: World, s: Stored): seq<Protocol.Step> {
    if s == w.stored then [] else if s.Absent? then [OthersDelete] else [OthersWrite(s.version, s.networks)]
  }

  /** The world after them; writers, locks and answers are untouched. */
  ghost function OthersLeave(w: World, s: Stored): (w': World)
    requires OthersMay(w, s)
    ensures w'.stored == s && w'.locks == w.locks && w'.writers == w.writers && w'.calls == w.calls
    ensures w'.minted == if s != w.stored && s.Present? then w.minted[s.version := s.networks] else w.minted
  {
    if s == w.stored then w
    else if s.Absent? then Take(w, OthersDelete)
    else Take(w, OthersWrite(s.version, s.networks))
  }

  lemma OthersPath(w: World, s: Stored)
    requires OthersMay(w, s)
    ensures Path(w, OthersSteps(w, s), OthersLeave(w, s))
  {
    if s != w.stored {
      PathOne(w, OthersSteps(w, s)[0]);
    }
  }

  // ---- one conditional save ------------------------------------------------------------

  /** What others do before the write is allowed, and where the server accepts it, so is its version. */
  ghost predicate WriteTurns(w: World, turns: nat -> Turn, calls: nat, plan: Plan, networks: CR)
    requires !plan.Refuse?
  {
    var found, turn := Met(turns, calls, w.stored), turns(calls);
    && OthersMay(w, found)
    && (!turn.fate.Dropped? && Perform(found, plan, networks, turn.next).1.Accepted? ==>
          Mintable(OthersLeave(w, found), turn.next, networks))
  }

  /** So are the turns around a whole save, of which the second only comes where the Get agrees. */
  ghost predicate SaveTurns(w: World, turns: nat -> Turn, calls: nat, networks: CR, expected: string) {
    var met := Met(turns, calls, w.stored);
    var plan := Checked(met, expected);
    && OthersMay(w, met)
    && (turns(calls).fate.Served? && !plan.Refuse? ==>
          WriteTurns(OthersLeave(w, met), turns, calls + 1, plan, networks))
  }

  /** The writer's save ended as `result`, leaving the object as `after`; nothing else of the process
      moved. */
  ghost predicate Ended(w: World, w': World, i: nat, after: Stored, result: SaveResult)
    requires i in w.writers
  {
    && w'.stored == after && w'.locks == w.locks
    && (exists applied :: w'.calls == w.calls + [Call(i, result, applied)])
    && Open(w', i) && w'.writers[i].phase.Loaded? && w'.writers[i].replica == w.writers[i].replica
    && forall j :: j != i ==> (j in w'.writers <==> j in w.writers)
  }

  lemma GiveEnds(w: World, i: nat)
    requires Ready(w, Give(i))
    ensures Ended(w, Take(w, Give(i)), i, w.stored, SaveResult.Failed)
  {
    assert Take(w, Give(i)).calls == w.calls + [Call(i, SaveResult.Failed, false)];
  }

  lemma RefusedEnds(w: World, i: nat, change: Change)
    requires Ready(w, Get(i, change)) && Checked(w.stored, w.writers[i].phase.version).Refuse?
    ensures Ended(w, Take(w, Get(i, change)), i, w.stored, SaveResult.Conflict)
  {
    assert Take(w, Get(i, change)).calls == w.calls + [Call(i, SaveResult.Conflict, false)];
  }

  lemma WriteEnds(w: World, i: nat, next: string, heard: bool)
    requires Ready(w, Write(i, next, heard))
    ensures var p := w.writers[i].phase;
            var (after, reply) := Perform(w.stored, p.plan, p.change.networks, next);
            Ended(w, Take(w, Write(i, next, heard)), i, after, Told(reply, heard))
  {
    var p := w.writers[i].phase;
    var (after, reply) := Perform(w.stored, p.plan, p.change.networks, next);
    assert Take(w, Write(i, next, heard)).calls == w.calls + [Call(i, Told(reply, heard), reply.Accepted?)];
  }

  /** A conditional save is a path: others, Get, others, write, each call served, dropped or unheard. */
  lemma SaveIsPath(w: World, i: nat, change: Change, turns: nat -> Turn, calls: nat)
    returns (steps: seq<Protocol.Step>, w': World)
    requires Open(w, i) && w.writers[i].phase.Loaded? && Sound(change, w.writers[i].phase.mem)
    requires SaveTurns(w, turns, calls, change.networks, w.writers[i].phase.version)
    ensures Path(w, steps, w')
    ensures var (after, result) :=
              SaveSpec(turns, calls, w.stored, change.networks, w.writers[i].phase.version);
            Ended(w, w', i, after, result)
  {
    var met := Met(turns, calls, w.stored);
    var w1 := OthersLeave(w, met);
    OthersPath(w, met);
    var first := OthersSteps(w, met);
    if !turns(calls).fate.Served? {
      GiveEnds(w1, i);
      PathStep(w, first, w1, Give(i));
      return first + [Give(i)], Take(w1, Give(i));
    }
    var get := Get(i, change);
    PathStep(w, first, w1, get);
    steps, w' := first + [get], Take(w1, get);
    if Checked(met, w.writers[i].phase.version).Refuse? {
      RefusedEnds(w1, i, change);
    } else {
      var more, w3 := WriteIsPath(w', i, turns, calls + 1);
      PathThen(w, steps, w', more, w3);
      steps, w' := steps + more, w3;
    }
  }

  lemma WriteIsPath(w: World, i: nat, turns: nat -> Turn, calls: nat) returns (steps: seq<Protocol.Step>, w': World)
    requires Open(w, i) && w.writers[i].phase.Saving? && !w.writers[i].phase.plan.Refuse?
    requires WriteTurns(w, turns, calls, w.writers[i].phase.plan, w.writers[i].phase.change.networks)
    ensures Path(w, steps, w')
    ensures var p, found, turn := w.writers[i].phase, Met(turns, calls, w.stored), turns(calls);
            var (after, reply) := Perform(found, p.plan, p.change.networks, turn.next);
            if turn.fate.Dropped? then Ended(w, w', i, found, SaveResult.Failed)
            else Ended(w, w', i, after, Told(reply, turn.fate.Served?))
  {
    var found, turn := Met(turns, calls, w.stored), turns(calls);
    var w1 := OthersLeave(w, found);
    OthersPath(w, found);
    var step := if turn.fate.Dropped? then Give(i) else Write(i, turn.next, turn.fate.Served?);
    if turn.fate.Dropped? {
      GiveEnds(w1, i);
    } else {
      WriteEnds(w1, i, turn.next, turn.fate.Served?);
    }
    PathStep(w, OthersSteps(w, found), w1, step);
    return OthersSteps(w, found) + [step], Take(w1, step);
  }

  // ---- the whole request ---------------------------------------------------------------

  /** A request by a process whose lock is free, over a world that allows the turns around it. */
  ghost predicate RequestTurns(w: World, i: nat, replica: nat, turns: nat -> Turn, calls: nat, networks: CR) {
    var loaded := Met(turns, calls, w.stored);
    && i !in w.writers && replica !in w.locks
    && OthersMay(w, loaded)
    && SaveTurns(OthersLeave(w, loaded), turns, calls + 1, networks, VersionOf(loaded))
  }

  lemma BeginLoads(w: World, i: nat, replica: nat) returns (w': World)
    requires i !in w.writers && replica !in w.locks && LoadFrom(w.stored).Some?
    ensures Path(w, [Begin(i, replica), Load(i)], w')
    ensures w'.stored == w.stored && w'.minted == w.minted && w'.calls == w.calls && w'.locks == w.locks[replica := i]
    ensures i in w'.writers
    ensures w'.writers[i] == Writer(replica, Loaded(w.stored, VersionOf(w.stored), LoadFrom(w.stored).value))
  {
    var begin := Begin(i, replica);
    var w1 := Take(w, begin);
    PathOne(w, begin);
    PathStep(w, [begin], w1, Load(i));
    w' := Take(w1, Load(i));
    assert [begin] + [Load(i)] == [begin, Load(i)];
  }

  /** What others may do depends on the object and its versions alone. */
  lemma SameTurns(w: World, w': World, turns: nat -> Turn, calls: nat, networks: CR, expected: string)
    requires w'.stored == w.stored && w'.minted == w.minted && SaveTurns(w, turns, calls, networks, expected)
    ensures SaveTurns(w', turns, calls, networks, expected)
  {
  }

  /** Begin and Load: the writer is open and has the ledger of the object others had left. */
  lemma LoadIsPath(w: World, i: nat, replica: nat, turns: nat -> Turn, calls: nat, networks: CR)
    returns (steps: seq<Protocol.Step>, w': World)
    requires RequestTurns(w, i, replica, turns, calls, networks) && LoadFrom(Met(turns, calls, w.stored)).Some?
    ensures Path(w, steps, w')
    ensures var loaded := Met(turns, calls, w.stored);
            && w'.stored == loaded && w'.calls == w.calls && w'.locks == w.locks[replica := i]
            && i in w'.writers
            && w'.writers[i] == Writer(replica, Loaded(loaded, VersionOf(loaded), LoadFrom(loaded).value))
    ensures SaveTurns(w', turns, calls + 1, networks, VersionOf(Met(turns, calls, w.stored)))
  {
    var loaded := Met(turns, calls, w.stored);
    var w1 := OthersLeave(w, loaded);
    OthersPath(w, loaded);
    w' := BeginLoads(w1, i, replica);
    steps := OthersSteps(w, loaded) + [Begin(i, replica), Load(i)];
    PathThen(w, OthersSteps(w, loaded), w1, [Begin(i, replica), Load(i)], w');
    SameTurns(w1, w', turns, calls + 1, networks, VersionOf(loaded));
  }

  /** The text is one the save may have written, by its outcome. */
  ghost predicate SavesText(w: World, turns: nat -> Turn, calls: nat, ledger: Ledger, networks: CR,
                            after: Stored, result: SaveResult)
  {
    var loaded := Met(turns, calls, w.stored);
    Encodes(ledger, networks) && SaveSpec(turns, calls + 1, loaded, networks, VersionOf(loaded)) == (after, result)
  }

  /** The world allows the turns around the request, whichever text of the ledger is saved. */
  ghost predicate TurnsAllowed(w: World, i: nat, replica: nat, turns: nat -> Turn, calls: nat, ledger: Ledger,
                               after: Stored, result: SaveResult)
  {
    forall networks :: SavesText(w, turns, calls, ledger, networks, after, result) ==>
      RequestTurns(w, i, replica, turns, calls, networks)
  }

  /** What `Serving.Server.Handle` promises of a committed request in cr mode, it does as a path of the
      protocol: Begin, Load, Get, write, End, with the same object at the end, the same answer, and the
      lock free again. */
  lemma RequestIsPath(w: World, i: nat, replica: nat, turns: nat -> Turn, calls: nat,
                      op: Op, now: int, seen: Ledger, after: Stored, result: SaveResult)
    returns (steps: seq<Protocol.Step>, w': World)
    requires var loaded := Met(turns, calls, w.stored);
             && LoadFrom(loaded) == Some(seen)
             && Possible(op, seen) && Apply(op, now, seen).Commit?
             && SavesLedger(Apply(op, now, seen).ledger, turns, calls + 1, loaded, VersionOf(loaded), after, result)
             && TurnsAllowed(w, i, replica, turns, calls, Apply(op, now, seen).ledger, after, result)
    ensures Path(w, steps, w')
    ensures w'.stored == after && w'.locks == w.locks && !Open(w', i)
    ensures exists applied :: w'.calls == w.calls + [Call(i, result, applied)]
  {
    var loaded, ledger := Met(turns, calls, w.stored), Apply(op, now, seen).ledger;
    var networks :| Encodes(ledger, networks) &&
                    SaveSpec(turns, calls + 1, loaded, networks, VersionOf(loaded)) == (after, result);
    assert SavesText(w, turns, calls, ledger, networks, after, result);
    steps, w' := ChangeIsPath(w, i, replica, turns, calls, Change(op, now, ledger, networks));
  }

  lemma ChangeIsPath(w: World, i: nat, replica: nat, turns: nat -> Turn, calls: nat, change: Change)
    returns (steps: seq<Protocol.Step>, w': World)
    requires RequestTurns(w, i, replica, turns, calls, change.networks)
    requires var read := LoadFrom(Met(turns, calls, w.stored)); read.Some? && Sound(change, read.value)
    ensures Path(w, steps, w')
    ensures var loaded := Met(turns, calls, w.stored);
            var (after, result) := SaveSpec(turns, calls + 1, loaded, change.networks, VersionOf(loaded));
            && w'.stored == after && w'.locks == w.locks && !Open(w', i)
            && exists applied :: w'.calls == w.calls + [Call(i, result, applied)]
  {
    var first, w1 := LoadIsPath(w, i, replica, turns, calls, change.networks);
    var second;
    second, w' := RestIsPath(w1, i, change, turns, calls + 1);
    PathThen(w, first, w1, second, w');
    steps := first + second;
    assert w.locks[replica := i] - {replica} == w.locks;
  }

  /** Get, write and End, by a writer that has loaded. */
  lemma RestIsPath(w: World, i: nat, change: Change, turns: nat -> Turn, calls: nat)
    returns (steps: seq<Protocol.Step>, w': World)
    requires Open(w, i) && w.writers[i].phase.Loaded? && Sound(change, w.writers[i].phase.mem)
    requires SaveTurns(w, turns, calls, change.networks, w.writers[i].phase.version)
    ensures Path(w, steps, w')
    ensures var (after, result) :=
              SaveSpec(turns, calls, w.stored, change.networks, w.writers[i].phase.version);
            && w'.stored == after && w'.locks == w.locks - {w.writers[i].replica} && !Open(w', i)
            && exists applied :: w'.calls == w.calls + [Call(i, result, applied)]
  {
    var w1;
    steps, w1 := SaveIsPath(w, i, change, turns, calls);
    PathStep(w, steps, w1, End(i));
    steps, w' := steps + [End(i)], Take(w1, End(i));
  }
}

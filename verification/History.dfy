/** No address is handed out twice: what the committed operations of any run, on any replicas, do to
    one address. Names are ones the text format keeps (`Names.GoodNames`). */
module History {
  import opened Ledgers
  import opened CrCodec
  import opened Store
  import opened Handout
  import opened Names
  import opened Protocol
  import Reclaimer

  ghost predicate Clean(s: Stored) {
    LoadFrom(s).Some? && WellNamed(LoadFrom(s).value)
  }

  /** The entry the stored object holds for the address. */
  ghost function Entry(s: Stored, key: string, digit: string): IPInfo
    requires Clean(s)
  {
    EntryAt(LoadFrom(s).value, key, digit)
  }

  /** A well-named ledger that the object shows has the object's entries. */
  lemma ShownEntries(s: Stored, l: Ledger, key: string, digit: string)
    requires Clean(s) && WellNamed(l) && Shows(s, l)
    ensures EntryAt(l, key, digit) == Entry(s, key, digit)
    ensures Listed(l, key, digit) <==> Listed(LoadFrom(s).value, key, digit)
  {
    if s.Present? && Encodes(l, s.networks) {
      SavedReadsBack(l, s.networks);
    }
  }

  lemma SavedIsClean(s: Stored, l: Ledger)
    requires s.Present? && WellNamed(l) && Encodes(l, s.networks)
    ensures Clean(s)
  {
    SavedReadsBack(l, s.networks);
  }

  // ---- names stay good over a run --------------------------------------------------

  ghost predicate GoodStep(step: Step) {
    match step
    case Get(_, change) => GoodNames(change.op)
    case OthersWrite(next, networks) => Clean(Present(next, networks))
    case _ => true
  }

  ghost predicate NamedPhase(phase: Phase) {
    match phase
    case Loaded(_, _, mem) => WellNamed(mem)
    case Saving(_, _, mem, change, _) => WellNamed(mem) && GoodNames(change.op)
    case Adrift(_, _, _, mem, change, _) => WellNamed(mem) && GoodNames(change.op)
    case _ => true
  }

  ghost predicate NamedEvent(e: Event) {
    Clean(e.before) && Clean(e.after) && (e.ByOperation? ==> WellNamed(e.seen) && GoodNames(e.change.op))
  }

  ghost predicate NamedWorld(w: World) {
    && Clean(w.stored)
    && (forall i :: i in w.writers ==> NamedPhase(w.writers[i].phase))
    && forall i :: 0 <= i < |w.log| ==> NamedEvent(w.log[i])
  }

  lemma SoundKeepsNames(change: Change, seen: Ledger)
    requires Sound(change, seen) && WellNamed(seen) && GoodNames(change.op)
    ensures WellNamed(change.written)
    ensures forall next :: Clean(Present(next, change.networks))
  {
    OperationsKeepNames(change.op, change.now, seen);
    forall next ensures Clean(Present(next, change.networks)) {
      SavedIsClean(Present(next, change.networks), change.written);
    }
  }

  lemma NextPhaseNamed(w: World, step: Step, i: nat)
    requires Enabled(w, step) && ActsFor(step, i) && AllDecided(w) && Clean(w.stored) && GoodStep(step)
    requires !step.Begin? && !step.Land? ==> NamedPhase(w.writers[step.writer].phase)
    ensures NamedPhase(NextPhase(w, step, i))
  {
    if step.Write? {
      var p := w.writers[i].phase;
      assert Decided(p);
      SoundKeepsNames(p.change, p.mem);
    }
  }

  lemma PhasesStayNamed(w: World, step: Step)
    requires Enabled(w, step) && AllDecided(w) && NamedWorld(w) && GoodStep(step)
    ensures forall i :: i in Take(w, step).writers ==> NamedPhase(Take(w, step).writers[i].phase)
  {
    var w' := Take(w, step);
    forall i | i in w'.writers ensures NamedPhase(w'.writers[i].phase) {
      if ActsFor(step, i) {
        Acted(w, step, i);
        assert !step.Begin? && !step.Land? ==> NamedPhase(w.writers[step.writer].phase);
        NextPhaseNamed(w, step, i);
      } else {
        Untouched(w, step, i);
      }
    }
  }

  /** The event a step adds to the history, if any. */
  lemma LogAfter(w: World, step: Step)
    requires Ready(w, step)
    ensures Take(w, step).log == w.log || Take(w, step).log == w.log + [Added(w, step)]
    ensures Take(w, step).log == w.log ==> Take(w, step).stored == w.stored
    ensures Take(w, step).log != w.log ==> Added(w, step).after == Take(w, step).stored
  {
  }

  function Added(w: World, step: Step): Event
    requires Ready(w, step)
  {
    match step
    case Write(writer, next, _) =>
      var p := w.writers[writer].phase;
      ByOperation(writer, p.change, p.mem, w.stored, Present(next, p.change.networks))
    case Land(flight, next) =>
      var p := w.writers[flight].phase;
      ByOperation(p.owner, p.change, p.mem, w.stored, Present(next, p.change.networks))
    case OthersWrite(next, networks) => ByOthers(w.stored, Present(next, networks))
    case _ => ByOthers(w.stored, Absent)
  }

  lemma AddedNamed(w: World, step: Step)
    requires Enabled(w, step) && AllDecided(w) && NamedWorld(w) && GoodStep(step)
    ensures NamedEvent(Added(w, step))
  {
    assert WellNamed(map[]);
    if step.Write? || step.Land? {
      var p := w.writers[if step.Write? then step.writer else step.flight].phase;
      assert NamedPhase(p) && Decided(p);
      SoundKeepsNames(p.change, p.mem);
    }
  }

  lemma StepKeepsNames(w: World, step: Step)
    requires Enabled(w, step) && AllDecided(w) && NamedWorld(w) && GoodStep(step)
    ensures NamedWorld(Take(w, step))
  {
    PhasesStayNamed(w, step);
    LogAfter(w, step);
    AddedNamed(w, step);
  }

  ghost predicate GoodAt(steps: seq<Step>, n: nat)
    requires n < |steps|
  {
    GoodStep(steps[n])
  }

  /** A run whose names, outside edits included, are in the domain. */
  ghost predicate IsNamedRun(ws: seq<World>, steps: seq<Step>) {
    IsRun(ws, steps) && Clean(ws[0].stored) && forall i :: 0 <= i < |steps| ==> GoodAt(steps, i)
  }

  lemma NamedNext(ws: seq<World>, steps: seq<Step>, n: nat)
    requires IsNamedRun(ws, steps) && n < |steps| && NamedWorld(ws[n])
    ensures NamedWorld(ws[n + 1])
  {
    RunDecides(ws, steps, n);
    assert Fits(ws, steps, n) && GoodAt(steps, n);
    StepKeepsNames(ws[n], steps[n]);
  }

  lemma RunDecides(ws: seq<World>, steps: seq<Step>, n: nat)
    requires IsRun(ws, steps) && n < |ws|
    ensures AllDecided(ws[n])
  {
    RunKeeps(ws, steps, n);
  }

  lemma {:induction false} NamedRunKeeps(ws: seq<World>, steps: seq<Step>, n: nat)
    requires IsNamedRun(ws, steps) && n < |ws|
    ensures NamedWorld(ws[n])
  {
    if n == 0 {
    } else {
      NamedRunKeeps(ws, steps, n - 1);
      NamedNext(ws, steps, n - 1);
    }
  }

  // ---- one address through the history ------------------------------------------------

  ghost predicate HandedOut(e: Event, key: string, digit: string) {
    e.ByOperation? && HandsOut(e.change.op, key, digit)
  }

  ghost predicate Freed(e: Event, key: string, digit: string) {
    Clean(e.before) && Clean(e.after) && !IsFree(Entry(e.before, key, digit)) && IsFree(Entry(e.after, key, digit))
  }

  /** What is handed out is also recorded: every reserve records it, a batch only without a dot. */
  predicate Recorded(e: Event, digit: string)
    requires e.ByOperation?
  {
    e.change.op.Reserve? || '.' !in digit
  }

  /** A committed hand-out found the address free, and left it with the requesting cluster exactly
      when it is recorded. */
  lemma HandOutClaims(e: Event, key: string, digit: string)
    requires EventOk(e) && NamedEvent(e) && HandedOut(e, key, digit)
    ensures IsFree(Entry(e.before, key, digit))
    ensures !IsFree(Entry(e.after, key, digit)) <==> Recorded(e, digit)
    ensures Recorded(e, digit) ==> Entry(e.after, key, digit).cluster == e.change.op.cluster
  {
    HandOutTakesFree(e.change.op, e.change.now, e.seen, key, digit);
    ShownEntries(e.before, e.seen, key, digit);
    SoundKeepsNames(e.change, e.seen);
    ShownEntries(e.after, e.change.written, key, digit);
  }

  lemma {:induction false} ChainLinks(initial: Stored, log: seq<Event>, last: Stored, i: nat)
    requires Chain(initial, log, last) && i < |log|
    ensures if i + 1 < |log| then log[i].after == log[i + 1].before else log[i].after == last
    decreases |log|
  {
    if i + 1 < |log| {
      var n := |log| - 1;
      ChainLinks(initial, log[..n], log[n].before, i);
    }
  }

  ghost predicate FreedBetween(log: seq<Event>, key: string, digit: string, i: nat, j: nat)
    requires j <= |log|
  {
    exists m :: i < m < j && Freed(log[m], key, digit)
  }

  ghost predicate Linked(log: seq<Event>) {
    forall m :: 0 <= m < |log| - 1 ==> log[m].after == log[m + 1].before
  }

  ghost predicate CleanLog(log: seq<Event>) {
    forall m :: 0 <= m < |log| ==> Clean(log[m].before) && Clean(log[m].after)
  }

  lemma RunLinks(initial: Stored, log: seq<Event>, last: Stored)
    requires Chain(initial, log, last)
    ensures Linked(log)
  {
    forall m | 0 <= m < |log| - 1 ensures log[m].after == log[m + 1].before {
      ChainLinks(initial, log, last, m);
    }
  }

  /** An address held after step `i` and free before step `j` was freed by a step in between. */
  lemma {:induction false} SomeoneFreed(log: seq<Event>, key: string, digit: string, i: nat, j: nat)
    requires Linked(log) && CleanLog(log) && i < j < |log|
    requires !IsFree(Entry(log[i].after, key, digit)) && IsFree(Entry(log[j].before, key, digit))
    ensures FreedBetween(log, key, digit, i, j)
    decreases j - i
  {
    assert log[i].after == log[i + 1].before;
    if i + 1 < j {
      if IsFree(Entry(log[i + 1].after, key, digit)) {
        assert Freed(log[i + 1], key, digit);
      } else {
        SomeoneFreed(log, key, digit, i + 1, j);
      }
    }
  }

  /** No address is handed out twice: between two committed hand-outs of one address, by HTTP or gRPC
      and on whatever replicas, lies a committed step that freed it, where the first recorded it. */
  lemma NotHandedOutTwice(ws: seq<World>, steps: seq<Step>, n: nat, key: string, digit: string, i: nat, j: nat)
    requires IsNamedRun(ws, steps) && n < |ws| && i < j < |ws[n].log|
    requires HandedOut(ws[n].log[i], key, digit) && HandedOut(ws[n].log[j], key, digit)
    requires Recorded(ws[n].log[i], digit)
    ensures FreedBetween(ws[n].log, key, digit, i, j)
  {
    var log := ws[n].log;
    RunKeeps(ws, steps, n);
    NamedRunKeeps(ws, steps, n);
    assert NamedEvent(log[i]) && NamedEvent(log[j]) && EventOk(log[i]) && EventOk(log[j]);
    HandOutClaims(log[i], key, digit);
    HandOutClaims(log[j], key, digit);
    RunLinks(ws[0].stored, log, ws[n].stored);
    SomeoneFreed(log, key, digit, i, j);
  }

  /** What freed it, when an operation did. */
  lemma WhoFreed(e: Event, key: string, digit: string)
    requires EventOk(e) && NamedEvent(e) && e.ByOperation?
    ensures Freed(e, key, digit) <==>
            !IsFree(Entry(e.before, key, digit)) && Frees(e.change.op, e.change.now, e.seen, key, digit)
  {
    ShownEntries(e.before, e.seen, key, digit);
    SoundKeepsNames(e.change, e.seen);
    ShownEntries(e.after, e.change.written, key, digit);
    if !IsFree(EntryAt(e.seen, key, digit)) {
      FreedExactly(e.change.op, e.change.now, e.seen, key, digit);
    }
  }

  /** The requests that allocate, keep and expire, and nothing else. */
  predicate LeaseTraffic(e: Event) {
    e.ByOperation? &&
    (e.change.op.Reserve? || e.change.op.ReserveBatch? || e.change.op.Renew? || e.change.op.ReclaimPass?)
  }

  ghost predicate ReclaimedBetween(log: seq<Event>, key: string, digit: string, i: nat, j: nat)
    requires j <= |log|
  {
    exists m :: i < m < j && Reclaimed(log[m], key, digit)
  }

  /** A reclaimer pass found the address held and its lease expired. */
  ghost predicate Reclaimed(e: Event, key: string, digit: string) {
    && e.ByOperation? && e.change.op.ReclaimPass? && Clean(e.before)
    && !IsFree(Entry(e.before, key, digit))
    && Reclaimer.Expired(Entry(e.before, key, digit), e.change.now)
  }

  lemma OnlyReclaimFrees(e: Event, key: string, digit: string)
    requires EventOk(e) && NamedEvent(e) && LeaseTraffic(e) && Freed(e, key, digit)
    ensures Reclaimed(e, key, digit)
  {
    WhoFreed(e, key, digit);
    ShownEntries(e.before, e.seen, key, digit);
  }

  /** With only reserves, renewals and the reclaimer at work, an address is handed out again only
      after the reclaimer found its lease expired. */
  lemma HandedOutAgainOnlyAfterExpiry(ws: seq<World>, steps: seq<Step>, n: nat, key: string, digit: string,
                                      i: nat, j: nat)
    requires IsNamedRun(ws, steps) && n < |ws| && i < j < |ws[n].log|
    requires forall m :: i < m < j ==> LeaseTraffic(ws[n].log[m])
    requires HandedOut(ws[n].log[i], key, digit) && HandedOut(ws[n].log[j], key, digit)
    requires Recorded(ws[n].log[i], digit)
    ensures ReclaimedBetween(ws[n].log, key, digit, i, j)
  {
    var log := ws[n].log;
    NotHandedOutTwice(ws, steps, n, key, digit, i, j);
    RunKeeps(ws, steps, n);
    NamedRunKeeps(ws, steps, n);
    var m :| i < m < j && Freed(log[m], key, digit);
    assert EventOk(log[m]) && NamedEvent(log[m]) && LeaseTraffic(log[m]);
    OnlyReclaimFrees(log[m], key, digit);
  }
}

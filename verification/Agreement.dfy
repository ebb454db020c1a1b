/** Over every run of one process the records, and the router's text itself, agree with the ledger
    whenever no write is open. */
module Agreement {
  import opened Text
  import opened Address
  import opened Ledgers
  import opened Operations
  import opened Records
  import opened Process
  import Dnsmasq

  // ---- folds of edits --------------------------------------------------------------

  lemma {:induction false} AllMapConcat(records: map<string, string>, a: seq<Edit>, b: seq<Edit>)
    ensures AllMap(records, a + b) == AllMap(AllMap(records, a), b)
  {
    if b == [] {
      assert a + b == a;
    } else {
      var n := |b| - 1;
      assert (a + b)[..|a + b| - 1] == a + b[..n];
      AllMapConcat(records, a, b[..n]);
    }
  }

  lemma AllMapOne(records: map<string, string>, e: Edit)
    ensures AllMap(records, [e]) == EditMap(records, e)
  {
    assert [e][..0] == [];
  }

  /** Doing the first edit now leaves the rest to do. */
  lemma AllMapFirst(records: map<string, string>, todo: seq<Edit>)
    requires todo != []
    ensures AllMap(records, todo) == AllMap(EditMap(records, todo[0]), todo[1..])
  {
    assert todo == [todo[0]] + todo[1..];
    AllMapConcat(records, [todo[0]], todo[1..]);
    AllMapOne(records, todo[0]);
  }

  function Withdrawals(order: seq<string>): seq<Edit> {
    seq(|order|, i requires 0 <= i < |order| => Withdraw(order[i]))
  }

  lemma {:induction false} WithdrawAll(records: map<string, string>, order: seq<string>)
    ensures AllMap(records, Withdrawals(order)) == records - (set c | c in order)
  {
    if order == [] {
      assert Withdrawals(order) == [];
    } else {
      var n := |order| - 1;
      assert Withdrawals(order)[..n] == Withdrawals(order[..n]);
      WithdrawAll(records, order[..n]);
      assert order == order[..n] + [order[n]];
    }
  }

  /** The calls of an operation, in whatever order it withdraws, do to the records what it says. */
  lemma TodoEdits(records: map<string, string>, order: seq<string>, withdraw: set<string>, publish: Option<Record>)
    requires Lists(order, withdraw)
    ensures AllMap(records, Todo(order, publish)) == Edited(records, withdraw, publish)
  {
    WithdrawAll(records, order);
    assert (set c | c in order) == withdraw;
    if publish.None? {
      assert Todo(order, publish) == Withdrawals(order);
    } else {
      var e := Publish(publish.value.cluster, publish.value.ip);
      assert Todo(order, publish) == Withdrawals(order) + [e];
      AllMapConcat(records, Withdrawals(order), [e]);
      AllMapOne(AllMap(records, Withdrawals(order)), e);
    }
  }

  // ---- the invariant ------------------------------------------------------------------

  /** The record calls the open write still has to make. */
  function Pending(s: State): seq<Edit> {
    if s.lock.None? || s.lock.value !in s.phases then []
    else match s.phases[s.lock.value]
      case Saved(todo) => todo
      case Editing(todo, _) => todo
      case _ => []
  }

  ghost predicate Settling(s: State, initial: map<string, string>) {
    && Tidy(s.ledger)
    && Agree(s.ledger, AllMap(AllMap(initial, s.edits), Pending(s)))
    && forall i: nat :: In(s, i) && s.phases[i].Loaded? ==> s.phases[i].l == s.ledger
  }

  /** What is saved is a request whose records follow. */
  ghost predicate Orderly(s: State, step: Step) {
    step.Save? && step.i in s.phases && s.phases[step.i].Loaded? ==> RecordsFollow(step.op, s.phases[step.i].l)
  }

  lemma KeptAgrees(l: Ledger, keep: Ledger, records: map<string, string>)
    requires Keeps(keep, l) && Tidy(l) && Agree(l, records)
    ensures Tidy(keep) && Agree(keep, records)
  {
    DropEmptyMarks(l);
    SameMarksAgree(l, keep, records);
  }

  lemma SaveSettles(zone: string, s: State, step: Step, initial: map<string, string>)
    requires Locked(s) && Settling(s, initial) && Enabled(s, step) && Orderly(s, step)
    requires step.Save? && step.heard
    ensures var s' := Take(zone, s, step);
            Tidy(s'.ledger) && Agree(s'.ledger, AllMap(AllMap(initial, s'.edits), Pending(s')))
  {
    var i, records := step.i, AllMap(initial, s.edits);
    assert In(s, i) && s.lock == Some(i);
    var o := step.outcome;
    OperationAgrees(step.op, step.now, s.ledger, records);
    KeptAgrees(o.ledger, step.keep, Edited(records, o.withdraw, o.publish));
    TodoEdits(records, step.order, o.withdraw, o.publish);
  }

  lemma WriteSettles(zone: string, s: State, step: Step, initial: map<string, string>)
    requires Locked(s) && Settling(s, initial) && Ready(s, step) && step.Write?
    ensures var s' := Take(zone, s, step);
            s'.ledger == s.ledger && Agree(s'.ledger, AllMap(AllMap(initial, s'.edits), Pending(s')))
  {
    var todo := s.phases[step.i].todo;
    assert In(s, step.i) && s.lock == Some(step.i);
    AllMapConcat(initial, s.edits, [todo[0]]);
    AllMapOne(AllMap(initial, s.edits), todo[0]);
    AllMapFirst(AllMap(initial, s.edits), todo);
  }

  lemma OthersSettle(zone: string, s: State, step: Step)
    requires Locked(s) && Ready(s, step)
    requires step.Begin? || step.Load? || step.Read? || step.End?
    ensures var s' := Take(zone, s, step);
            s'.ledger == s.ledger && s'.edits == s.edits && Pending(s') == Pending(s)
  {
    assert In(s, step.i) ==> s.lock == Some(step.i);
  }

  lemma StepSettles(zone: string, s: State, step: Step, initial: map<string, string>)
    requires Locked(s) && Settling(s, initial) && Enabled(s, step) && Orderly(s, step)
    requires !Take(zone, s, step).dropped
    ensures Settling(Take(zone, s, step), initial)
  {
    LoadedStays(zone, s, step);
    match step {
      case Save(_, _, _, _, _, _, _) => SaveSettles(zone, s, step, initial);
      case Write(_) => WriteSettles(zone, s, step, initial);
      case _ => OthersSettle(zone, s, step);
    }
  }

  lemma LoadedStays(zone: string, s: State, step: Step)
    requires Locked(s) && Ready(s, step) && !Take(zone, s, step).dropped
    requires forall i: nat :: In(s, i) && s.phases[i].Loaded? ==> s.phases[i].l == s.ledger
    ensures var s' := Take(zone, s, step);
            forall i: nat :: In(s', i) && s'.phases[i].Loaded? ==> s'.phases[i].l == s'.ledger
  {
    var s' := Take(zone, s, step);
    forall i: nat | In(s', i) && s'.phases[i].Loaded? ensures s'.phases[i].l == s'.ledger {
      assert In(s, i) ==> s.lock == Some(i);
      assert In(s, step.i) ==> s.lock == Some(step.i);
    }
  }

  ghost predicate OrderlyAt(ss: seq<State>, steps: seq<Step>, n: nat)
    requires n < |steps| && |ss| == |steps| + 1
  {
    Orderly(ss[n], steps[n])
  }

  ghost predicate OrderlyRun(zone: string, ss: seq<State>, steps: seq<Step>) {
    IsRun(zone, ss, steps) && forall n :: 0 <= n < |steps| ==> OrderlyAt(ss, steps, n)
  }

  lemma DroppedStays(zone: string, s: State, step: Step)
    requires Ready(s, step) && !Take(zone, s, step).dropped
    ensures !s.dropped
  {
  }

  lemma StepToSettles(zone: string, s: State, step: Step, s': State, initial: map<string, string>)
    requires StepsTo(zone, s, step, s') && Orderly(s, step) && Locked(s) && !s'.dropped
    requires !s.dropped ==> Settling(s, initial)
    ensures Settling(s', initial)
  {
    DroppedStays(zone, s, step);
    StepSettles(zone, s, step, initial);
  }

  lemma NextSettles(zone: string, ss: seq<State>, steps: seq<Step>, initial: map<string, string>, n: nat)
    requires OrderlyRun(zone, ss, steps) && n < |steps| && !ss[n + 1].dropped
    requires !ss[n].dropped ==> Settling(ss[n], initial)
    ensures Settling(ss[n + 1], initial)
  {
    RunOrdered(zone, ss, steps, n);
    var step := steps[n];
    assert Fits(zone, ss, steps, n) && OrderlyAt(ss, steps, n);
    StepToSettles(zone, ss[n], step, ss[n + 1], initial);
  }

  lemma {:induction false} RunSettles(zone: string, ss: seq<State>, steps: seq<Step>, initial: map<string, string>,
                                      n: nat)
    requires OrderlyRun(zone, ss, steps) && n < |ss| && !ss[n].dropped
    requires Tidy(ss[0].ledger) && Agree(ss[0].ledger, initial)
    ensures Settling(ss[n], initial)
  {
    if n == 0 {
    } else {
      if !ss[n - 1].dropped {
        RunSettles(zone, ss, steps, initial, n - 1);
      }
      NextSettles(zone, ss, steps, initial, n - 1);
    }
  }

  /** Records agree with the ledger: in any interleaving of one process's requests, with every record
      call effective and every saved request one whose records follow, the records are exactly
      {cluster -> address of its marked entry} whenever no write is open. */
  lemma RecordsAgree(zone: string, ss: seq<State>, steps: seq<Step>, initial: map<string, string>, n: nat)
    requires OrderlyRun(zone, ss, steps) && n < |ss| && !ss[n].dropped && ss[n].lock.None?
    requires Tidy(ss[0].ledger) && Agree(ss[0].ledger, initial)
    ensures Tidy(ss[n].ledger) && Agree(ss[n].ledger, AllMap(initial, ss[n].edits))
  {
    RunSettles(zone, ss, steps, initial, n);
  }

  // ---- the router's text --------------------------------------------------------------

  predicate PlainEdit(e: Edit) {
    Dnsmasq.Plain(e.cluster) && (e.Publish? ==> Dnsmasq.Plain(e.ip))
  }

  /** Under the zone's names, map `m` is the records. */
  ghost predicate Zoned(zone: string, m: map<string, string>, records: map<string, string>) {
    forall c :: NamedAs(zone, m, records, c)
  }

  predicate NamedAs(zone: string, m: map<string, string>, records: map<string, string>, c: string) {
    Dnsmasq.Plain(c) ==>
      (Name(c, zone) in m <==> c in records) && (c in records ==> m[Name(c, zone)] == records[c])
  }

  /** The text is a table that answers the zone's names as the records do. */
  ghost predicate Mirrors(zone: string, text: string, records: map<string, string>) {
    exists m :: Dnsmasq.Represents(text, m) && Zoned(zone, m, records)
  }

  lemma NameInjective(a: string, b: string, zone: string)
    ensures Name(a, zone) == Name(b, zone) ==> a == b
  {
    if Name(a, zone) == Name(b, zone) {
      assert |a| == |b|;
      assert Name(a, zone)[..|a|] == a && Name(b, zone)[..|b|] == b;
    }
  }

  lemma PlainName(c: string, zone: string)
    requires Dnsmasq.Plain(c) && Dnsmasq.Plain(zone)
    ensures Dnsmasq.Plain(Name(c, zone))
  {
  }

  lemma ZonedEdit(zone: string, m: map<string, string>, records: map<string, string>, e: Edit)
    requires Zoned(zone, m, records)
    ensures e.Withdraw? ==> Zoned(zone, m - {Name(e.cluster, zone)}, EditMap(records, e))
    ensures e.Publish? ==> Zoned(zone, m[Name(e.cluster, zone) := e.ip], EditMap(records, e))
  {
    var after := EditMap(records, e);
    var m' := if e.Publish? then m[Name(e.cluster, zone) := e.ip] else m - {Name(e.cluster, zone)};
    forall c ensures NamedAs(zone, m', after, c) {
      NameInjective(c, e.cluster, zone);
      assert NamedAs(zone, m, records, c);
    }
  }

  lemma EditMirrors(zone: string, text: string, records: map<string, string>, e: Edit)
    requires Dnsmasq.Plain(zone) && PlainEdit(e) && Mirrors(zone, text, records)
    ensures Mirrors(zone, EditText(zone, text, e), EditMap(records, e))
  {
    var m :| Dnsmasq.Represents(text, m) && Zoned(zone, m, records);
    PlainName(e.cluster, zone);
    ZonedEdit(zone, m, records, e);
    match e {
      case Withdraw(c) => Dnsmasq.RemoveIsDelete(text, m, Name(c, zone));
      case Publish(c, ip) => Dnsmasq.MergeIsUpdate(text, m, Name(c, zone), ip);
    }
  }

  lemma {:induction false} EditsMirror(zone: string, text: string, records: map<string, string>, edits: seq<Edit>)
    requires Dnsmasq.Plain(zone) && Mirrors(zone, text, records)
    requires forall i :: 0 <= i < |edits| ==> PlainEdit(edits[i])
    ensures Mirrors(zone, AllText(zone, text, edits), AllMap(records, edits))
  {
    if edits == [] {
    } else {
      var n := |edits| - 1;
      EditsMirror(zone, text, records, edits[..n]);
      EditMirrors(zone, AllText(zone, text, edits[..n]), AllMap(records, edits[..n]), edits[n]);
    }
  }

  lemma MirrorAnswers(zone: string, text: string, records: map<string, string>, c: string)
    requires Dnsmasq.Plain(zone) && Mirrors(zone, text, records) && Dnsmasq.Plain(c)
    ensures Dnsmasq.Lookup(text, Name(c, zone)) == if c in records then records[c] else ""
  {
    PlainName(c, zone);
    var m :| Dnsmasq.Represents(text, m) && Zoned(zone, m, records);
    assert NamedAs(zone, m, records, c) && Dnsmasq.LooksUp(Dnsmasq.Visible(text), m, Name(c, zone));
  }

  /** End to end: whenever no write is open, looking a cluster up in the router's text gives the
      address of its marked ledger entry, and nothing for a cluster without one. */
  lemma RouterAnswersLedger(zone: string, ss: seq<State>, steps: seq<Step>, initial: map<string, string>, n: nat,
                            c: string, k: string, d: string)
    requires OrderlyRun(zone, ss, steps) && n < |ss| && !ss[n].dropped && ss[n].lock.None?
    requires Tidy(ss[0].ledger) && Agree(ss[0].ledger, initial)
    requires Dnsmasq.Plain(zone) && Dnsmasq.Plain(c) && Mirrors(zone, ss[0].table, initial)
    requires forall i :: 0 <= i < |ss[n].edits| ==> PlainEdit(ss[n].edits[i])
    ensures Backs(ss[n].ledger, k, d, c) ==> Dnsmasq.Lookup(ss[n].table, Name(c, zone)) == Full(k, d)
    ensures !Backed(ss[n].ledger, c) ==> Dnsmasq.Lookup(ss[n].table, Name(c, zone)) == ""
  {
    RecordsAgree(zone, ss, steps, initial, n);
    NoLostRecord(zone, ss, steps, n);
    EditsMirror(zone, ss[0].table, initial, ss[n].edits);
    MirrorAnswers(zone, ss[n].table, AllMap(initial, ss[n].edits), c);
  }
}

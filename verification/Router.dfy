/** The DD-WRT side of a DNS record: a command interpreter over nvram, and the client that edits
    the dnsmasq options through it. */
module Router {
  import opened Text
  import opened Dnsmasq

  const OPTIONS := "dnsmasq_options"
  const GET_PREFIX := "nvram get "
  const SET_PREFIX := "nvram set "
  const COMMIT := "nvram commit"
  const RESTART := "restart_dnsmasq"
  const STOP := "stopservice dnsmasq"
  const START := "startservice dnsmasq"
  const HANGUP := "killall -HUP dnsmasq"
  const AND := "&&"

  // ---- the interpreter --------------------------------------------------------

  datatype Command = Get(key: string) | Set(key: string, val: string) | BadSet | Quiet | Reload | Unknown

  function Unquote(val: string): string {
    TrimSuffix(TrimPrefix(val, "'"), "'")
  }

  function ParseSet(rest: string): Command {
    var eq := Index(rest, "=");
    if eq < 0 then BadSet else Set(rest[..eq], Unquote(rest[eq + 1..]))
  }

  function Parse(cmd: string): Command {
    if HasPrefix(cmd, GET_PREFIX) then Get(TrimSpace(TrimPrefix(cmd, GET_PREFIX)))
    else if HasPrefix(cmd, SET_PREFIX) then ParseSet(TrimSpace(TrimPrefix(cmd, SET_PREFIX)))
    else if cmd == COMMIT || cmd == STOP then Quiet
    else if cmd == RESTART || cmd == START || cmd == HANGUP then Reload
    else Unknown
  }

  datatype State = State(nvram: map<string, string>, failing: set<string>, reloads: nat, lastReload: string) {
    /** Go's map read: a key that was never set reads as empty. */
    function Value(key: string): string {
      if key in nvram then nvram[key] else ""
    }
  }

  datatype Reply = Reply(state: State, output: string, status: nat)

  function One(s: State, cmd: string): Reply {
    if cmd in s.failing then Reply(s, "sh: " + cmd + ": not found\n", 127)
    else
      match Parse(cmd)
      case Get(key) => Reply(s, s.Value(key), 0)
      case Set(key, val) => Reply(s.(nvram := s.nvram[key := val]), "", 0)
      case BadSet => Reply(s, "", 1)
      case Quiet => Reply(s, "", 0)
      case Reload => Reply(s.(reloads := s.reloads + 1, lastReload := cmd), "", 0)
      case Unknown => Reply(s, "sh: " + cmd + ": not found\n", 127)
  }

  /** `strings.Split(cmd, "&&")`. */
  function Commands(cmd: string): (parts: seq<string>)
    ensures |parts| > 0
    decreases |cmd|
  {
    var i := Index(cmd, AND);
    if i < 0 then [cmd] else [cmd[..i]] + Commands(cmd[i + |AND|..])
  }

  /** Runs the parts in order and stops at the first that fails. */
  function Each(s: State, parts: seq<string>): Reply
    decreases parts
  {
    if parts == [] then Reply(s, "", 0)
    else
      var r := One(s, TrimSpace(parts[0]));
      if r.status != 0 then r
      else
        var rest := Each(r.state, parts[1..]);
        rest.(output := r.output + rest.output)
  }

  function Compound(s: State, cmd: string): Reply {
    Each(s, Commands(cmd))
  }

  // ---- the client ---------------------------------------------------------------

  const GET := GET_PREFIX + OPTIONS
  const PAIR := STOP + " && " + START
  const RELOADS := [RESTART, PAIR, HANGUP]

  function SetCommand(updated: string): string {
    SET_PREFIX + (OPTIONS + ("=" + ("'" + updated + "'")))
  }

  datatype Failure = ReadFailed | SetFailed | CommitFailed | ReloadFailed

  datatype Done = Done(state: State, failure: Option<Failure>)

  /** How a command is run; the client only ever sees this. */
  type Runner = (State, string) -> Reply

  function TryReloads(run: Runner, s: State, commands: seq<string>): (State, bool)
    decreases commands
  {
    if commands == [] then (s, false)
    else
      var r := run(s, commands[0]);
      if r.status == 0 then (r.state, true) else TryReloads(run, r.state, commands[1..])
  }

  function Write(run: Runner, s: State, updated: string): Done {
    var stored := run(s, SetCommand(updated));
    if stored.status != 0 then Done(stored.state, Some(SetFailed))
    else
      var committed := run(stored.state, COMMIT);
      if committed.status != 0 then Done(committed.state, Some(CommitFailed))
      else
        var (s', ok) := TryReloads(run, committed.state, RELOADS);
        Done(s', if ok then None else Some(ReloadFailed))
  }

  /** One edit of the table: read it, change it, write it back. */
  function Edited(run: Runner, s: State, change: string -> string): Done {
    var read := run(s, GET);
    if read.status != 0 then Done(read.state, Some(ReadFailed))
    else Write(run, read.state, change(TrimSpace(read.output)))
  }

  function Created(s: State, name: string, ip: string): Done {
    Edited(Compound, s, existing => Merge(existing, Entry(name, ip), name))
  }

  function Deleted(s: State, name: string): Done {
    Edited(Compound, s, existing => Remove(existing, name))
  }

  // ---- the parser on the commands the client prints --------------------------------

  lemma OneCommand(cmd: string)
    requires '&' !in cmd
    ensures Commands(cmd) == [cmd]
  {
    IndexAfter(cmd, "", AND);
    assert cmd + "" == cmd;
  }

  lemma TwoCommands(a: string, b: string)
    requires '&' !in a && '&' !in b
    ensures Commands(a + (AND + b)) == [a, b]
  {
    var cmd := a + (AND + b);
    IndexAfter(a, AND + b, AND);
    assert HasPrefix(AND + b, AND);
    assert cmd[..|a|] == a && cmd[|a| + 2..] == b;
    OneCommand(b);
  }

  /** The printed set command is one command exactly when the table has no `&&`. */
  lemma SetIsOneCommand(updated: string)
    ensures Contains(SetCommand(updated), AND) <==> Contains(updated, AND)
  {
    var head, tail := SET_PREFIX + (OPTIONS + ("=" + "'")), updated + "'";
    assert SetCommand(updated) == head + tail;
    assert '&' !in head;
    IndexAfter(head, tail, AND);
    QuoteNoAnd(updated);
  }

  lemma QuoteNoAnd(updated: string)
    ensures Contains(updated + "'", AND) <==> Contains(updated, AND)
  {
    var tail := updated + "'";
    var i, j := Index(tail, AND), Index(updated, AND);
    if i >= 0 {
      assert tail[i..][1] == '&';
      assert i + 1 < |updated|;
      assert updated[i..] == tail[i..][..|updated| - i];
      Found(updated, AND, i);
    }
    if j >= 0 {
      assert tail[j..] == updated[j..] + "'";
      Found(tail, AND, j);
    }
  }

  lemma TrimPrefixOf(prefix: string, rest: string)
    ensures HasPrefix(prefix + rest, prefix) && TrimPrefix(prefix + rest, prefix) == rest
  {
  }

  lemma UnquoteQuoted(val: string)
    ensures Unquote("'" + val + "'") == val
  {
    var quoted := "'" + val + "'";
    assert quoted[1..] == val + "'";
    assert (val + "'")[..|val|] == val;
  }

  /** A one-character text is found right behind a front without that character. */
  lemma IndexBehind(front: string, rest: string, sub: string)
    requires |sub| == 1 && sub[0] !in front && HasPrefix(rest, sub)
    ensures Index(front + rest, sub) == |front|
  {
    IndexAfter(front, rest, sub);
  }

  lemma CutBehind(front: string, sub: string, val: string)
    requires |sub| == 1
    ensures (front + (sub + val))[..|front|] == front && (front + (sub + val))[|front| + 1..] == val
  {
  }

  lemma ParseSetOf(key: string, val: string)
    requires '=' !in key
    ensures ParseSet(key + ("=" + val)) == Set(key, Unquote(val))
  {
    IndexBehind(key, "=" + val, "=");
    CutBehind(key, "=", val);
  }

  lemma ParseSetCommand(rest: string)
    requires Trimmed(rest)
    ensures Parse(SET_PREFIX + rest) == ParseSet(rest)
  {
    TrimPrefixOf(SET_PREFIX, rest);
    assert (SET_PREFIX + rest)[6] == 's';
  }

  lemma ParseGetCommand()
    ensures Parse(GET) == Get(OPTIONS)
  {
    TrimPrefixOf(GET_PREFIX, OPTIONS);
    assert OPTIONS[0] == 'd' && OPTIONS[|OPTIONS| - 1] == 's';
    assert Trimmed(OPTIONS);
  }

  lemma SetCommandTrimmed(updated: string)
    ensures Trimmed(SetCommand(updated))
  {
    var cmd := SetCommand(updated);
    assert cmd[0] == SET_PREFIX[0] == 'n' && cmd[|cmd| - 1] == '\'';
  }

  lemma StoreTrimmed(updated: string)
    ensures Trimmed(OPTIONS + ("=" + ("'" + updated + "'")))
  {
    var rest := OPTIONS + ("=" + ("'" + updated + "'"));
    assert rest[0] == 'd' && rest[|rest| - 1] == '\'';
  }

  lemma ParseSetOptions(updated: string)
    ensures Parse(SetCommand(updated)) == Set(OPTIONS, updated)
  {
    var quoted := "'" + updated + "'";
    StoreTrimmed(updated);
    ParseSetOf(OPTIONS, quoted);
    ParseSetCommand(OPTIONS + ("=" + quoted));
    UnquoteQuoted(updated);
  }

  lemma EachOne(s: State, part: string)
    ensures Each(s, [part]) == One(s, TrimSpace(part))
  {
    var r := One(s, TrimSpace(part));
    assert [part][1..] == [];
    if r.status == 0 {
      assert Each(r.state, [part][1..]) == Reply(r.state, "", 0);
      assert r.output + "" == r.output;
    }
  }

  lemma PlainCommand(s: State, cmd: string)
    requires '&' !in cmd && Trimmed(cmd)
    ensures Compound(s, cmd) == One(s, cmd)
  {
    OneCommand(cmd);
    EachOne(s, cmd);
  }

  // ---- what an edit leaves behind ----------------------------------------------------

  /** Reading gives the stored table, or fails and changes nothing. */
  lemma ReadOutcome(s: State)
    ensures var r := Compound(s, GET);
            if GET in s.failing then r.status != 0 && r.state == s else r == Reply(s, s.Value(OPTIONS), 0)
  {
    ParseGetCommand();
    assert GET[0] == 'n' && GET[|GET| - 1] == 's';
    PlainCommand(s, GET);
  }

  /** Storing a table without `&&` stores exactly that table, or fails and changes nothing. */
  lemma SetOutcome(s: State, updated: string)
    requires !Contains(updated, AND)
    ensures var r := Compound(s, SetCommand(updated));
            if SetCommand(updated) in s.failing then r.status != 0 && r.state == s
            else r == Reply(s.(nvram := s.nvram[OPTIONS := updated]), "", 0)
  {
    var cmd := SetCommand(updated);
    SetIsOneCommand(updated);
    assert Commands(cmd) == [cmd];
    EachOne(s, cmd);
    ParseSetOptions(updated);
    SetCommandTrimmed(updated);
  }

  lemma CommitParses()
    ensures Parse(COMMIT) == Quiet && '&' !in COMMIT && Trimmed(COMMIT)
  {
    assert COMMIT[6] == 'c' && GET_PREFIX[6] == 'g' && SET_PREFIX[6] == 's';
  }

  lemma CommitOutcome(s: State)
    ensures Compound(s, COMMIT).state == s
    ensures Compound(s, COMMIT).status == 0 <==> COMMIT !in s.failing
  {
    CommitParses();
    PlainCommand(s, COMMIT);
  }

  predicate IsReload(cmd: string) {
    cmd == RESTART || cmd == START || cmd == HANGUP
  }

  lemma ReloadParses(cmd: string)
    requires IsReload(cmd)
    ensures Parse(cmd) == Reload && '&' !in cmd && Trimmed(cmd)
  {
  }

  /** A reload command either reloads once or fails and changes nothing. */
  lemma ReloadCommand(s: State, cmd: string)
    requires cmd == RESTART || cmd == HANGUP
    ensures var r := Compound(s, cmd);
            if cmd in s.failing then r.status != 0 && r.state == s
            else r.status == 0 && r.state == s.(reloads := s.reloads + 1, lastReload := cmd)
  {
    ReloadParses(cmd);
    PlainCommand(s, cmd);
  }

  lemma PairTrims()
    ensures TrimSpace(STOP + " ") == STOP && TrimSpace(" " + START) == START
    ensures Parse(STOP) == Quiet
  {
    assert TrimLeft(STOP + " ") == STOP + " ";
    assert (STOP + " ")[..|STOP|] == STOP;
    assert TrimRight(STOP + " ") == TrimRight(STOP) == STOP;
    assert (" " + START)[1..] == START;
    assert TrimLeft(" " + START) == TrimLeft(START) == START;
    assert TrimRight(START) == START;
  }

  lemma EachTwo(s: State, x: string, y: string)
    ensures var r := One(s, TrimSpace(x));
            Each(s, [x, y]) ==
            if r.status != 0 then r
            else var q := One(r.state, TrimSpace(y)); q.(output := r.output + q.output)
  {
    assert [x, y][1..] == [y];
    EachOne(One(s, TrimSpace(x)).state, y);
  }

  lemma PairIsTwo()
    ensures Commands(PAIR) == [STOP + " ", " " + START]
  {
    assert PAIR == (STOP + " ") + (AND + (" " + START));
    TwoCommands(STOP + " ", " " + START);
  }

  /** Stopping alone is not a reload: the pair counts only when both halves run. */
  lemma PairCommand(s: State)
    ensures var r := Compound(s, PAIR);
            if STOP in s.failing || START in s.failing then r.status != 0 && r.state == s
            else r.status == 0 && r.state == s.(reloads := s.reloads + 1, lastReload := START)
  {
    PairIsTwo();
    PairTrims();
    ReloadParses(START);
    EachTwo(s, STOP + " ", " " + START);
  }

  /** Which command the router ends up reloading with, if any. */
  function Reloader(failing: set<string>): Option<string> {
    if RESTART !in failing then Some(RESTART)
    else if STOP !in failing && START !in failing then Some(START)
    else if HANGUP !in failing then Some(HANGUP)
    else None
  }

  ghost predicate Reloads(r: Reply, s: State, works: bool, cmd: string) {
    if works then r.status == 0 && r.state == s.(reloads := s.reloads + 1, lastReload := cmd)
    else r.status != 0 && r.state == s
  }

  lemma ReloadSteps(run: Runner, s: State)
    requires Reloads(run(s, RESTART), s, RESTART !in s.failing, RESTART)
    requires Reloads(run(s, PAIR), s, STOP !in s.failing && START !in s.failing, START)
    requires Reloads(run(s, HANGUP), s, HANGUP !in s.failing, HANGUP)
    ensures TryReloads(run, s, RELOADS) ==
            match Reloader(s.failing)
            case Some(cmd) => (s.(reloads := s.reloads + 1, lastReload := cmd), true)
            case None => (s, false)
  {
    assert RELOADS[1..] == [PAIR, HANGUP] && [PAIR, HANGUP][1..] == [HANGUP] && [HANGUP][1..] == [];
    assert TryReloads(run, s, []) == (s, false);
    assert TryReloads(run, s, [HANGUP]) ==
           if HANGUP !in s.failing then (s.(reloads := s.reloads + 1, lastReload := HANGUP), true) else (s, false);
  }

  lemma WriteSteps(run: Runner, s: State, updated: string, stored: State)
    requires stored == s.(nvram := s.nvram[OPTIONS := updated])
    requires if SetCommand(updated) in s.failing
             then run(s, SetCommand(updated)).status != 0 && run(s, SetCommand(updated)).state == s
             else run(s, SetCommand(updated)) == Reply(stored, "", 0)
    requires run(stored, COMMIT).state == stored && (run(stored, COMMIT).status == 0 <==> COMMIT !in s.failing)
    requires Reloads(run(stored, RESTART), stored, RESTART !in s.failing, RESTART)
    requires Reloads(run(stored, PAIR), stored, STOP !in s.failing && START !in s.failing, START)
    requires Reloads(run(stored, HANGUP), stored, HANGUP !in s.failing, HANGUP)
    ensures Write(run, s, updated) == Written(s, updated)
  {
    ReloadSteps(run, stored);
  }

  /** What a write of `updated` comes to, by how many of its commands the router resolves. */
  function Written(s: State, updated: string): Done {
    var stored := s.(nvram := s.nvram[OPTIONS := updated]);
    if SetCommand(updated) in s.failing then Done(s, Some(SetFailed))
    else if COMMIT in s.failing then Done(stored, Some(CommitFailed))
    else
      match Reloader(s.failing)
      case Some(cmd) => Done(stored.(reloads := s.reloads + 1, lastReload := cmd), None)
      case None => Done(stored, Some(ReloadFailed))
  }

  /** Writing a table without `&&`, for every set of commands the router cannot resolve: no error
      means it is stored and a reload followed, a reload error means it is stored and no reload
      happened, an earlier error says how far the write got. */
  lemma WriteOutcome(s: State, updated: string)
    requires !Contains(updated, AND)
    ensures Write(Compound, s, updated) == Written(s, updated)
  {
    var stored := s.(nvram := s.nvram[OPTIONS := updated]);
    SetOutcome(s, updated);
    CommitOutcome(stored);
    ReloadCommand(stored, RESTART);
    PairCommand(stored);
    ReloadCommand(stored, HANGUP);
    WriteSteps(Compound, s, updated, stored);
  }

  /** An edit stores exactly the change of what was stored before, or leaves the router as it was. */
  lemma EditOutcome(s: State, change: string -> string)
    requires !Contains(change(TrimSpace(s.Value(OPTIONS))), AND)
    ensures Edited(Compound, s, change) ==
            if GET in s.failing then Done(s, Some(ReadFailed)) else Written(s, change(TrimSpace(s.Value(OPTIONS))))
  {
    ReadOutcome(s);
    WriteOutcome(s, change(TrimSpace(s.Value(OPTIONS))));
  }

  /** The first step the router cannot do, if any: read, store, commit, and reload in one of three ways. */
  function FirstFailure(s: State, updated: string): Option<Failure> {
    if GET in s.failing then Some(ReadFailed)
    else if SetCommand(updated) in s.failing then Some(SetFailed)
    else if COMMIT in s.failing then Some(CommitFailed)
    else if !(RESTART !in s.failing || (STOP !in s.failing && START !in s.failing) || HANGUP !in s.failing) then
      Some(ReloadFailed)
    else None
  }

  /** What an outcome says about the table and the running server: the error is that of the first step that
      fails; the new table is stored unless that is the read or the store; a reload followed exactly when
      there is no error, by the first command that works; and nothing else of the router changes. */
  ghost predicate Reported(s: State, updated: string, done: Done) {
    var stored := done.failure != Some(ReadFailed) && done.failure != Some(SetFailed);
    && done.failure == FirstFailure(s, updated)
    && done.state.nvram == (if stored then s.nvram[OPTIONS := updated] else s.nvram)
    && done.state.failing == s.failing
    && done.state.reloads == s.reloads + (if done.failure.None? then 1 else 0)
    && (done.failure.Some? ==> done.state.lastReload == s.lastReload)
    && done.state.lastReload == (if done.failure.Some? then s.lastReload
                                 else if RESTART !in s.failing then RESTART
                                 else if STOP !in s.failing && START !in s.failing then START
                                 else HANGUP)
  }

  /** The commands as they are sent. */
  lemma CommandTexts(updated: string)
    ensures GET == "nvram get " + "dnsmasq_options" && COMMIT == "nvram commit"
    ensures SetCommand(updated) == "nvram set " + ("dnsmasq_options" + ("=" + ("'" + updated + "'")))
    ensures RELOADS == ["restart_dnsmasq", STOP + " && " + START, "killall -HUP dnsmasq"]
    ensures STOP == "stopservice dnsmasq" && START == "startservice dnsmasq"
  {
  }

  lemma WrittenReported(s: State, updated: string)
    requires GET !in s.failing
    ensures Reported(s, updated, Written(s, updated))
  {
  }

  lemma EditReported(s: State, change: string -> string)
    requires !Contains(change(TrimSpace(s.Value(OPTIONS))), AND)
    ensures Reported(s, change(TrimSpace(s.Value(OPTIONS))), Edited(Compound, s, change))
  {
    EditOutcome(s, change);
    if GET !in s.failing {
      WrittenReported(s, change(TrimSpace(s.Value(OPTIONS))));
    }
  }

  lemma CreateReported(s: State, name: string, ip: string)
    requires !Contains(Merge(TrimSpace(s.Value(OPTIONS)), Entry(name, ip), name), AND)
    ensures Reported(s, Merge(TrimSpace(s.Value(OPTIONS)), Entry(name, ip), name), Created(s, name, ip))
  {
    EditReported(s, existing => Merge(existing, Entry(name, ip), name));
  }

  lemma DeleteReported(s: State, name: string)
    requires !Contains(Remove(TrimSpace(s.Value(OPTIONS)), name), AND)
    ensures Reported(s, Remove(TrimSpace(s.Value(OPTIONS)), name), Deleted(s, name))
  {
    EditReported(s, existing => Remove(existing, name));
  }

  // ---- the same, step by step on a router object -----------------------------------------

  class Server {
    var nvram: map<string, string>
    var failing: set<string>
    var reloads: nat
    var lastReload: string

    function Now(): State
      reads this
    {
      State(nvram, failing, reloads, lastReload)
    }

    method ExecuteOne(cmd: string) returns (output: string, status: nat)
      modifies this`nvram, this`reloads, this`lastReload
      ensures One(old(Now()), cmd) == Reply(Now(), output, status)
    {
      if cmd in failing {
        return "sh: " + cmd + ": not found\n", 127;
      }
      match Parse(cmd) {
        case Get(key) =>
          return if key in nvram then nvram[key] else "", 0;
        case Set(key, val) =>
          nvram := nvram[key := val];
          return "", 0;
        case BadSet =>
          return "", 1;
        case Quiet =>
          return "", 0;
        case Reload =>
          reloads := reloads + 1;
          lastReload := cmd;
          return "", 0;
        case Unknown =>
          return "sh: " + cmd + ": not found\n", 127;
      }
    }

    method ExecuteCompound(cmd: string) returns (output: string, status: nat)
      modifies this`nvram, this`reloads, this`lastReload
      ensures Compound(old(Now()), cmd) == Reply(Now(), output, status)
    {
      output := "";
      var parts := Commands(cmd);
      for i := 0 to |parts|
        invariant Compound(old(Now()), cmd) == Prepended(output, Each(Now(), parts[i..]))
      {
        assert parts[i..][1..] == parts[i + 1..];
        ghost var before := output;
        var out, code := ExecuteOne(TrimSpace(parts[i]));
        output := output + out;
        if code != 0 {
          return output, code;
        }
        PrependedTwice(before, out, Each(Now(), parts[i + 1..]));
      }
      assert output + "" == output;
      status := 0;
    }
  }

  ghost function Prepended(output: string, r: Reply): Reply {
    r.(output := output + r.output)
  }

  lemma PrependedTwice(a: string, b: string, r: Reply)
    ensures Prepended(a, Prepended(b, r)) == Prepended(a + b, r)
  {
    assert a + (b + r.output) == a + b + r.output;
  }

  class Client {
    /** The command over ssh, its output trimmed. */
    method Run(server: Server, cmd: string) returns (output: string, ok: bool)
      modifies server`nvram, server`reloads, server`lastReload
      ensures var r := Compound(old(server.Now()), cmd);
              server.Now() == r.state && output == TrimSpace(r.output) && (ok <==> r.status == 0)
    {
      var raw, status := server.ExecuteCompound(cmd);
      return TrimSpace(raw), status == 0;
    }

    method CreateRecord(server: Server, name: string, ip: string) returns (failure: Option<Failure>)
      modifies server`nvram, server`reloads, server`lastReload
      ensures Created(old(server.Now()), name, ip) == Done(server.Now(), failure)
    {
      var existing, ok := Run(server, GET);
      if !ok {
        return Some(ReadFailed);
      }
      var updated := MergeDNSEntry(existing, Entry(name, ip), name);
      failure := WriteDNSOptions(server, updated);
    }

    method DeleteRecord(server: Server, name: string) returns (failure: Option<Failure>)
      modifies server`nvram, server`reloads, server`lastReload
      ensures Deleted(old(server.Now()), name) == Done(server.Now(), failure)
    {
      var existing, ok := Run(server, GET);
      if !ok {
        return Some(ReadFailed);
      }
      var updated := RemoveDNSEntry(existing, name);
      failure := WriteDNSOptions(server, updated);
    }

    method WriteDNSOptions(server: Server, updated: string) returns (failure: Option<Failure>)
      modifies server`nvram, server`reloads, server`lastReload
      ensures Write(Compound, old(server.Now()), updated) == Done(server.Now(), failure)
    {
      var output, ok := Run(server, SetCommand(updated));
      if !ok {
        return Some(SetFailed);
      }
      output, ok := Run(server, COMMIT);
      if !ok {
        return Some(CommitFailed);
      }
      ok := ReloadDnsmasq(server);
      failure := if ok then None else Some(ReloadFailed);
    }

    method ReloadDnsmasq(server: Server) returns (ok: bool)
      modifies server`nvram, server`reloads, server`lastReload
      ensures TryReloads(Compound, old(server.Now()), RELOADS) == (server.Now(), ok)
    {
      for i := 0 to |RELOADS|
        invariant TryReloads(Compound, old(server.Now()), RELOADS) == TryReloads(Compound, server.Now(), RELOADS[i..])
      {
        assert RELOADS[i..][1..] == RELOADS[i + 1..];
        var output;
        output, ok := Run(server, RELOADS[i]);
        if ok {
          return true;
        }
      }
      ok := false;
    }
  }
}

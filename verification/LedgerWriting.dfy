/** One load, change, save of the ledger, held under the process-wide lock. */
module LedgerWriting {
  import opened Text
  import opened Ledgers
  import opened CrCodec
  import opened Store

  datatype Source = Disk | Cr | Unknown

  /** What becomes of a request on its way: served, dropped before it took effect, or served with
      the reply lost. */
  datatype Fate = Served | Dropped | Unanswered

  /** What the world does around one call: other writers may first change the object. */
  datatype Turn = Turn(before: Option<Stored>, fate: Fate, next: string)

  /** The two places the config can live, and the traffic of everybody else around our calls. */
  class Backend {
    var file: Option<Ledger>
    var stored: Stored
    var calls: nat
    const turns: nat -> Turn

    constructor (file: Option<Ledger>, stored: Stored, turns: nat -> Turn)
      ensures this.file == file && this.stored == stored && calls == 0 && this.turns == turns
    {
      this.file := file;
      this.stored := stored;
      this.calls := 0;
      this.turns := turns;
    }

    /** The object as others have left it when the next call arrives. */
    function Arrived(): Stored
      reads this
    {
      Met(turns, calls, stored)
    }

    method Get() returns (r: Option<Stored>)
      modifies this`stored, this`calls
      ensures stored == old(Arrived()) && calls == old(calls) + 1
      ensures r == if turns(old(calls)).fate.Served? then Some(stored) else None
    {
      stored := Met(turns, calls, stored);
      r := if turns(calls).fate.Served? then Some(stored) else None;
      calls := calls + 1;
    }

    /** A Create or an Update. */
    method Put(plan: Plan, networks: CR) returns (reply: Option<Reply>)
      requires !plan.Refuse?
      modifies this`stored, this`calls
      ensures calls == old(calls) + 1
      ensures var turn := turns(old(calls));
              var (after, answer) := Perform(old(Arrived()), plan, networks, turn.next);
              && stored == (if turn.fate.Dropped? then old(Arrived()) else after)
              && reply == (if turn.fate.Served? then Some(answer) else None)
    {
      var turn := turns(calls);
      stored := Met(turns, calls, stored);
      calls := calls + 1;
      if turn.fate.Dropped? {
        return None;
      }
      var (after, answer) := Perform(stored, plan, networks, turn.next);
      stored := after;
      reply := if turn.fate.Served? then Some(answer) else None;
    }
  }

  function Met(turns: nat -> Turn, calls: nat, stored: Stored): Stored {
    if turns(calls).before.Some? then turns(calls).before.value else stored
  }

  /** A whole conditional save: the Get, the choice, and the write, with the turns of everybody else
      before each call. The object it leaves, and what it returns. */
  function SaveSpec(turns: nat -> Turn, calls: nat, stored: Stored, networks: CR, expected: string)
    : (Stored, SaveResult)
  {
    var met := Met(turns, calls, stored);
    var plan := Checked(met, expected);
    if !turns(calls).fate.Served? then (met, Failed)
    else if plan.Refuse? then (met, Conflict)
    else
      var found, turn := Met(turns, calls + 1, met), turns(calls + 1);
      var (after, reply) := Perform(found, plan, networks, turn.next);
      if turn.fate.Dropped? then (found, Failed) else (after, Told(reply, turn.fate.Served?))
  }

  /** A conditional save of some text of the ledger. */
  ghost predicate SavesLedger(l: Ledger, turns: nat -> Turn, calls: nat, stored: Stored, expected: string,
                              after: Stored, result: SaveResult)
  {
    exists networks :: Encodes(l, networks) && SaveSpec(turns, calls, stored, networks, expected) == (after, result)
  }

  ghost predicate VersionsNonEmpty(turns: nat -> Turn) {
    forall i :: Versioned(Met(turns, i, Absent))
  }

  lemma MetVersioned(turns: nat -> Turn, i: nat, s: Stored)
    requires VersionsNonEmpty(turns) && Versioned(s)
    ensures Versioned(Met(turns, i, s))
  {
    assert Versioned(Met(turns, i, Absent));
  }

  /** What a conditional save leaves and answers, for everything others do to the object in between. A
      Get that fails ends it, and so does one that finds another version, as a conflict. Otherwise the
      write takes effect exactly where it reaches the server and the version is still the expected one;
      its writer, if answered, is told nil exactly then, a conflict exactly where the object has another
      version, and an error where the object is gone. */
  lemma SavesExactly(turns: nat -> Turn, calls: nat, stored: Stored, networks: CR, expected: string)
    requires VersionsNonEmpty(turns) && Versioned(stored)
    ensures
      var met := Met(turns, calls, stored);
      var found, second := Met(turns, calls + 1, met), turns(calls + 1);
      var (after, result) := SaveSpec(turns, calls, stored, networks, expected);
      if !turns(calls).fate.Served? then after == met && result.Failed?
      else if VersionOf(met) != expected then after == met && result.Conflict?
      else
        && after == (if !second.fate.Dropped? && VersionOf(found) == expected then Present(second.next, networks)
                     else found)
        && (result.Saved? <==> second.fate.Served? && VersionOf(found) == expected)
        && (result.Saved? ==> result.version == second.next)
        && (result.Conflict? <==> second.fate.Served? && found.Present? && found.version != expected)
        && (result.Failed? <==> !second.fate.Served? || (found.Absent? && expected != ""))
  {
    var met := Met(turns, calls, stored);
    var found, second := Met(turns, calls + 1, met), turns(calls + 1);
    MetVersioned(turns, calls, stored);
    MetVersioned(turns, calls + 1, met);
    var plan := Checked(met, expected);
    if turns(calls).fate.Served? && !plan.Refuse? {
      AnswersExactly(found, plan, networks, second.next, second.fate.Served?);
    }
  }

  /** With both calls served, that is: nil exactly when both find the expected version, a conflict
      exactly when the Get finds another or the write finds an object with another. */
  lemma ServedSave(turns: nat -> Turn, calls: nat, stored: Stored, networks: CR, expected: string)
    requires VersionsNonEmpty(turns) && Versioned(stored)
    requires turns(calls).fate.Served? && turns(calls + 1).fate.Served?
    ensures
      var met := Met(turns, calls, stored);
      var found := Met(turns, calls + 1, met);
      var result := SaveSpec(turns, calls, stored, networks, expected).1;
      && (result.Saved? <==> VersionOf(met) == expected && VersionOf(found) == expected)
      && (result.Conflict? <==> VersionOf(met) != expected || (found.Present? && VersionOf(found) != expected))
      && (result.Failed? <==> VersionOf(met) == expected && found.Absent? && expected != "")
  {
    SavesExactly(turns, calls, stored, networks, expected);
  }

  /** Writes `networks` only over the version that was loaded. */
  method CreateOrUpdateNetworkConfig(backend: Backend, networks: CR, expected: string) returns (result: SaveResult)
    modifies backend`stored, backend`calls
    ensures SaveSpec(backend.turns, old(backend.calls), old(backend.stored), networks, expected) ==
            (backend.stored, result)
  {
    var got := backend.Get();
    if got.None? {
      return Failed;
    }
    var existing := got.value;
    var plan: Plan;
    match existing {
      case Absent =>
        if expected != "" {
          return Conflict;
        }
        plan := CreateNew;
      case Present(version, _) =>
        if version != expected {
          return Conflict;
        }
        plan := UpdateAt(version);
    }
    var reply := backend.Put(plan, networks);
    result := if reply.None? then Failed else Told(reply.value, true);
  }

  class LedgerLock {
    var held: bool

    constructor ()
      ensures !held
    {
      held := false;
    }
  }

  /** Begin to End of one write. The lock is the process's only one. */
  class LedgerWrite {
    const source: Source
    const backend: Backend
    const lock: LedgerLock
    var version: string
    var loaded: bool
    var ended: bool

    /** Returns once the lock was free, holding it. */
    constructor (source: Source, backend: Backend, lock: LedgerLock)
      requires !lock.held
      modifies lock
      ensures lock.held && !ended && !loaded && version == ""
      ensures this.source == source && this.backend == backend && this.lock == lock
    {
      this.source := source;
      this.backend := backend;
      this.lock := lock;
      version := "";
      loaded := false;
      ended := false;
      new;
      lock.held := true;
    }

    /** Releases the lock the first time; after that it touches nothing, whoever holds the lock. */
    method End()
      modifies this`ended, lock
      ensures ended
      ensures lock.held == if old(ended) then old(lock.held) else false
    {
      if ended {
        return;
      }
      ended := true;
      lock.held := false;
    }

    /** What a load makes of the config: the ledger and the version to save over. */
    method Load() returns (ipList: Option<Ledger>)
      modifies this`version, this`loaded, backend`stored, backend`calls
      ensures ipList.None? ==> version == old(version) && loaded == old(loaded)
      ensures ipList.Some? ==> loaded
      ensures backend.file == old(backend.file)
      ensures match source
        case Disk =>
          ipList == old(backend.file) && backend.stored == old(backend.stored) && backend.calls == old(backend.calls)
        case Cr =>
          var served := backend.turns(old(backend.calls)).fate.Served?;
          && backend.stored == old(backend.Arrived()) && backend.calls == old(backend.calls) + 1
          && ipList == (if served then LoadFrom(backend.stored) else None)
          && (ipList.Some? ==> version == VersionOf(backend.stored))
          && (served && backend.stored.Absent? ==> ipList == Some(map[]) && version == "")
        case Unknown => ipList.None? && backend.stored == old(backend.stored)
    {
      match source {
        case Disk =>
          ipList := backend.file;
          if ipList.Some? {
            version := "";
            loaded := true;
          }
        case Cr =>
          var got := backend.Get();
          if got.None? {
            return None;
          }
          match got.value {
            case Absent => ipList := Some(map[]);
            case Present(_, networks) => ipList := ConvertFromCRFormat(networks);
          }
          if ipList.Some? {
            version := VersionOf(got.value);
            loaded := true;
          }
        case Unknown =>
          ipList := None;
      }
    }

    /** Saves only while open and after a load, and in cr mode only over the version last seen. */
    method Save(ipList: Ledger) returns (result: SaveResult)
      modifies this`version, backend`stored, backend`calls, backend`file
      ensures ended || !loaded ==>
        result == Failed && backend.stored == old(backend.stored) && backend.file == old(backend.file)
      ensures version == if result.Saved? then result.version else old(version)
      ensures source.Disk? ==> backend.stored == old(backend.stored)
      ensures source.Disk? ==> backend.file == (if result.Saved? then Some(ipList) else old(backend.file))
      ensures source.Unknown? ==> result == Failed && backend.stored == old(backend.stored)
      ensures !source.Disk? ==> backend.file == old(backend.file)
      ensures source.Cr? && !ended && loaded ==>
        SavesLedger(ipList, backend.turns, old(backend.calls), old(backend.stored), old(version),
                    backend.stored, result)
      ensures source.Disk? && !ended && loaded ==>
        (result.Saved? <==> backend.turns(old(backend.calls)).fate.Served?)
    {
      if ended || !loaded {
        return Failed;
      }
      match source {
        case Disk =>
          var turn := backend.turns(backend.calls);
          backend.calls := backend.calls + 1;
          if !turn.fate.Served? {
            return Failed;
          }
          backend.file := Some(ipList);
          version := "";
          result := Saved("");
        case Cr =>
          var networks := ConvertToCRFormat(ipList);
          result := CreateOrUpdateNetworkConfig(backend, networks, version);
          if result.Saved? {
            version := result.version;
          }
        case Unknown =>
          result := Failed;
      }
    }
  }
}

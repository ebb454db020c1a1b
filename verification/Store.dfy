/** The stored object and the API server's conditional writes on it. */
module Store {
  import opened Text
  import opened Ledgers
  import opened CrCodec

  /** The NetworkConfig object: missing, or a resourceVersion with its entries. */
  datatype Stored = Absent | Present(version: string, networks: CR)

  /** The version a load remembers, "" for a missing object. */
  function VersionOf(s: Stored): string {
    if s.Absent? then "" else s.version
  }

  /** The API server never gives an object the empty version. */
  predicate Versioned(s: Stored) {
    s.Present? ==> s.version != ""
  }

  /** What a load returns: None for an entry that makes the decoder panic. */
  function LoadFrom(s: Stored): Option<Ledger> {
    if s.Absent? then Some(map[]) else Decode(s.networks)
  }

  /** The ledger is one the object was read as, or was written from. */
  ghost predicate Shows(s: Stored, l: Ledger) {
    LoadFrom(s) == Some(l) || (s.Present? && Encodes(l, s.networks))
  }

  // ---- the conditional write: what the Get decides, and what the server then does -----

  datatype Plan = Refuse | CreateNew | UpdateAt(version: string)

  /** The choice made on the object the Get returned. */
  function Checked(existing: Stored, expected: string): Plan {
    match existing
    case Absent => if expected != "" then Refuse else CreateNew
    case Present(version, _) => if version != expected then Refuse else UpdateAt(version)
  }

  datatype Reply = Accepted(version: string) | AlreadyExists | Stale | NotFound

  /** The server's answer to the Create or the Update, and the object it leaves. */
  function Perform(s: Stored, plan: Plan, networks: CR, next: string): (r: (Stored, Reply))
    requires !plan.Refuse?
    ensures !r.1.Accepted? ==> r.0 == s
  {
    match plan
    case CreateNew =>
      if s.Absent? then (Present(next, networks), Accepted(next)) else (s, AlreadyExists)
    case UpdateAt(version) =>
      if s.Absent? then (s, NotFound)
      else if s.version != version then (s, Stale)
      else (Present(next, networks), Accepted(next))
  }

  datatype SaveResult = Saved(version: string) | Conflict | Failed

  /** What the writer makes of the reply; a reply that never came is a plain error. */
  function Told(reply: Reply, heard: bool): SaveResult {
    if !heard then Failed
    else match reply
      case Accepted(version) => Saved(version)
      case AlreadyExists => Conflict
      case Stale => Conflict
      case NotFound => Failed
  }

  /** The write takes effect exactly when both the Get and the server find the expected version,
      whatever happened to the object in between. */
  lemma AppliedExactly(existing: Stored, s: Stored, expected: string, networks: CR, next: string)
    requires Versioned(existing) && Versioned(s)
    ensures var plan := Checked(existing, expected);
            (!plan.Refuse? && Perform(s, plan, networks, next).1.Accepted?) <==>
            VersionOf(existing) == expected && VersionOf(s) == expected
  {
  }

  /** The version the plan counts on, "" for a missing object. */
  function Planned(plan: Plan): string
    requires !plan.Refuse?
  {
    if plan.CreateNew? then "" else plan.version
  }

  /** What a write answers, case by case. Heard: nil exactly when the server still finds the version, a
      conflict exactly when it finds an object with another, and a plain error when the object is gone.
      Unheard: a plain error, whatever happened. The object holds this write exactly where the version
      was still found, and is left alone otherwise. */
  lemma AnswersExactly(s: Stored, plan: Plan, networks: CR, next: string, heard: bool)
    requires !plan.Refuse? && Versioned(s) && (plan.UpdateAt? ==> plan.version != "")
    ensures var (s', reply) := Perform(s, plan, networks, next);
            var told := Told(reply, heard);
            && s' == (if VersionOf(s) == Planned(plan) then Present(next, networks) else s)
            && (told.Saved? <==> heard && VersionOf(s) == Planned(plan))
            && (told.Saved? ==> told.version == next)
            && (told.Conflict? <==> heard && s.Present? && s.version != Planned(plan))
            && (told.Failed? <==> !heard || (s.Absent? && plan.UpdateAt?))
  {
  }
}

/** Why a table with `&&` cannot be stored: the router splits the command that would store it. */
module RouterLimits {
  import opened Text
  import opened Router
  import Dnsmasq

  /** No two ampersands in a row. */
  predicate Single(s: string) {
    forall i :: 0 <= i < |s| - 1 ==> !(s[i] == '&' && s[i + 1] == '&')
  }

  lemma AndAt(s: string, i: nat)
    requires i <= |s|
    ensures HasPrefix(s[i..], AND) <==> i + 1 < |s| && s[i] == '&' && s[i + 1] == '&'
  {
    var tail := s[i..];
    if HasPrefix(tail, AND) {
      assert tail[0] == AND[0] && tail[1] == AND[1];
    }
    if i + 1 < |s| && s[i] == '&' && s[i + 1] == '&' {
      assert tail[..2] == AND;
    }
  }

  lemma SingleExactly(s: string)
    ensures Single(s) <==> !Contains(s, AND)
  {
    if Contains(s, AND) {
      AndAt(s, Index(s, AND));
    }
    if !Single(s) {
      var i :| 0 <= i < |s| - 1 && s[i] == '&' && s[i + 1] == '&';
      AndAt(s, i);
      Found(s, AND, i);
    }
  }

  lemma SliceSingle(s: string, lo: nat, hi: nat)
    requires Single(s) && lo <= hi <= |s|
    ensures Single(s[lo..hi])
  {
  }

  /** What stands before the first `&&` has none. */
  lemma FrontSingle(s: string)
    requires Contains(s, AND)
    ensures Single(s[..Index(s, AND)])
  {
    var n := Index(s, AND);
    var front := s[..n];
    if !Single(front) {
      var i :| 0 <= i < |front| - 1 && front[i] == '&' && front[i + 1] == '&';
      AndAt(s, i);
      Found(s, AND, i);
    }
  }

  ghost predicate AllSingle(parts: seq<string>) {
    forall i :: 0 <= i < |parts| ==> Single(parts[i])
  }

  lemma {:induction false} CommandsSingle(cmd: string)
    ensures AllSingle(Commands(cmd))
    decreases |cmd|
  {
    SingleExactly(cmd);
    if Contains(cmd, AND) {
      FrontSingle(cmd);
      CommandsSingle(cmd[Index(cmd, AND) + |AND|..]);
    }
  }

  lemma {:induction false} TrimLeftSlice(s: string)
    ensures |TrimLeft(s)| <= |s| && TrimLeft(s) == s[|s| - |TrimLeft(s)|..]
  {
    if s != "" && IsSpace(s[0]) {
      TrimLeftSlice(s[1..]);
    }
  }

  lemma TrimSingle(s: string)
    requires Single(s)
    ensures Single(TrimSpace(s))
  {
    TrimLeftSlice(s);
    var left := TrimLeft(s);
    SliceSingle(s, |s| - |left|, |s|);
    var t := TrimRight(left);
    assert t == left[..|t|];
    SliceSingle(left, 0, |t|);
  }

  lemma TrimPrefixSingle(s: string, prefix: string)
    requires Single(s)
    ensures Single(TrimPrefix(s, prefix))
  {
    if HasPrefix(s, prefix) {
      SliceSingle(s, |prefix|, |s|);
      assert s[|prefix|..|s|] == s[|prefix|..];
    }
  }

  lemma TrimSuffixSingle(s: string, suffix: string)
    requires Single(s)
    ensures Single(TrimSuffix(s, suffix))
  {
    if HasSuffix(s, suffix) {
      SliceSingle(s, 0, |s| - |suffix|);
    }
  }

  lemma ParseSetSingle(rest: string)
    requires Single(rest) && ParseSet(rest).Set?
    ensures Single(ParseSet(rest).val)
  {
    var eq := Index(rest, "=");
    SliceSingle(rest, eq + 1, |rest|);
    assert rest[eq + 1..|rest|] == rest[eq + 1..];
    TrimPrefixSingle(rest[eq + 1..], "'");
    TrimSuffixSingle(TrimPrefix(rest[eq + 1..], "'"), "'");
  }

  lemma ParsedSet(cmd: string)
    requires Parse(cmd).Set?
    ensures Parse(cmd) == ParseSet(TrimSpace(TrimPrefix(cmd, SET_PREFIX)))
  {
  }

  /** A value that a piece of a command stores has no `&&`. */
  lemma SetSingle(cmd: string)
    requires Single(cmd) && Parse(cmd).Set?
    ensures Single(Parse(cmd).val)
  {
    ParsedSet(cmd);
    TrimPrefixSingle(cmd, SET_PREFIX);
    TrimSingle(TrimPrefix(cmd, SET_PREFIX));
    ParseSetSingle(TrimSpace(TrimPrefix(cmd, SET_PREFIX)));
  }

  lemma OneSingle(s: State, cmd: string)
    requires Single(cmd) && Single(s.Value(OPTIONS))
    ensures Single(One(s, cmd).state.Value(OPTIONS))
  {
    if Parse(cmd).Set? {
      SetSingle(cmd);
    }
  }

  lemma {:induction false} EachSingle(s: State, parts: seq<string>)
    requires AllSingle(parts) && Single(s.Value(OPTIONS))
    ensures Single(Each(s, parts).state.Value(OPTIONS))
    decreases parts
  {
    if parts == [] {
    } else {
      assert Single(parts[0]);
      TrimSingle(parts[0]);
      OneSingle(s, TrimSpace(parts[0]));
      var r := One(s, TrimSpace(parts[0]));
      if r.status == 0 {
        assert forall i :: 0 <= i < |parts[1..]| ==> parts[1..][i] == parts[i + 1];
        EachSingle(r.state, parts[1..]);
      }
    }
  }

  // ---- the first piece sets the table ---------------------------------------------------

  /** What the router runs first of the command that stores `updated`. */
  function First(updated: string): string {
    TrimSpace(Commands(SetCommand(updated))[0])
  }

  lemma TrimKeepsHead(head: string, tail: string)
    requires head != "" && !IsSpace(head[0]) && !IsSpace(head[|head| - 1])
    ensures head <= TrimSpace(head + tail)
  {
    assert (head + tail)[0] == head[0];
    assert TrimLeft(head + tail) == head + tail;
    Dnsmasq.TrimRightKeeps(head, tail);
  }

  lemma CommandsHead(head: string, tail: string)
    requires '&' !in head
    ensures head <= Commands(head + tail)[0]
  {
    IndexAfter(head, tail, AND);
    assert head <= head + tail;
  }

  /** A front without ampersands or outer spaces stays in front of the first piece. */
  lemma PieceShape(head: string, tail: string)
    requires head != "" && '&' !in head && !IsSpace(head[0]) && !IsSpace(head[|head| - 1])
    ensures head <= TrimSpace(Commands(head + tail)[0])
  {
    CommandsHead(head, tail);
    var piece := Commands(head + tail)[0];
    assert piece == head + piece[|head|..];
    TrimKeepsHead(head, piece[|head|..]);
  }

  const KEY_PART := OPTIONS + "="
  const HEAD := SET_PREFIX + KEY_PART

  lemma HeadShape()
    ensures HEAD != "" && '&' !in HEAD && !IsSpace(HEAD[0]) && !IsSpace(HEAD[|HEAD| - 1])
    ensures !IsSpace(KEY_PART[0])
  {
    assert HEAD[0] == SET_PREFIX[0] == 'n';
    assert HEAD[|HEAD| - 1] == KEY_PART[|KEY_PART| - 1] == '=';
    assert KEY_PART[0] == OPTIONS[0] == 'd';
  }

  lemma TrimmedTail(prefix: string, rest: string)
    requires Trimmed(prefix + rest) && rest != "" && !IsSpace(rest[0])
    ensures Trimmed(rest)
  {
    assert rest[|rest| - 1] == (prefix + rest)[|prefix + rest| - 1];
  }

  /** Any trimmed command beginning like the storing one stores something under the table's key. */
  lemma HeadParses(val: string)
    requires Trimmed(SET_PREFIX + (OPTIONS + ("=" + val)))
    ensures Parse(SET_PREFIX + (OPTIONS + ("=" + val))) == Set(OPTIONS, Unquote(val))
  {
    var rest := OPTIONS + ("=" + val);
    HeadShape();
    assert rest[0] == KEY_PART[0];
    TrimmedTail(SET_PREFIX, rest);
    ParseSetOf(OPTIONS, val);
    ParseSetCommand(rest);
  }

  lemma FirstSets(updated: string)
    ensures Parse(First(updated)).Set? && Parse(First(updated)).key == OPTIONS
  {
    var tail := "'" + updated + "'";
    assert SetCommand(updated) == HEAD + tail;
    HeadShape();
    PieceShape(HEAD, tail);
    var val := First(updated)[|HEAD|..];
    assert First(updated) == SET_PREFIX + (OPTIONS + ("=" + val));
    HeadParses(val);
  }

  /** The command that stores a table stores exactly that table if and only if the table has no `&&`,
      whatever the router held before, as long as its first piece resolves. */
  lemma StoredExactly(s: State, updated: string)
    requires First(updated) !in s.failing
    ensures Compound(s, SetCommand(updated)).state.Value(OPTIONS) == updated <==> !Contains(updated, AND)
  {
    if Contains(updated, AND) {
      SplitStoresNoAnd(s, updated);
      SingleExactly(updated);
    } else {
      SetIsOneCommand(updated);
      SetCommandTrimmed(updated);
      SetOutcome(s, updated);
    }
  }

  lemma SplitStoresNoAnd(s: State, updated: string)
    requires First(updated) !in s.failing
    ensures Single(Compound(s, SetCommand(updated)).state.Value(OPTIONS))
  {
    var parts := Commands(SetCommand(updated));
    CommandsSingle(SetCommand(updated));
    FirstSets(updated);
    assert Single(parts[0]);
    TrimSingle(parts[0]);
    SetSingle(First(updated));
    var r := One(s, First(updated));
    assert r.status == 0 && Single(r.state.Value(OPTIONS));
    assert forall i :: 0 <= i < |parts[1..]| ==> parts[1..][i] == parts[i + 1];
    EachSingle(r.state, parts[1..]);
  }
}

/** The router's dnsmasq options: one text, edited line by line, that has to behave as a table. */
module Dnsmasq {
  import opened Text

  function Marker(name: string): string {
    "/" + name + "/"
  }

  function Entry(name: string, ip: string): string {
    "address=" + (Marker(name) + ip)
  }

  predicate Mentions(line: string, name: string) {
    Contains(line, Marker(name))
  }

  // ---- what an edit does to the lines ---------------------------------------

  /** The trimmed, non-blank lines, in order. */
  function Trims(lines: seq<string>): seq<string> {
    if lines == [] then []
    else
      var front, line := Trims(lines[..|lines| - 1]), TrimSpace(lines[|lines| - 1]);
      if line == "" then front else front + [line]
  }

  /** The lines that do not mention `name`, in order. */
  function Without(lines: seq<string>, name: string): seq<string> {
    if lines == [] then []
    else
      var front, line := Without(lines[..|lines| - 1], name), lines[|lines| - 1];
      if Mentions(line, name) then front else front + [line]
  }

  /** What can be seen of a text: its trimmed, non-blank lines. */
  function Visible(text: string): seq<string> {
    Trims(Split(text, '\n'))
  }

  function Merge(existing: string, newEntry: string, name: string): string {
    Join(Without(Visible(existing), name) + [newEntry], '\n')
  }

  function Remove(existing: string, name: string): string {
    Join(Without(Visible(existing), name), '\n')
  }

  method MergeDNSEntry(existing: string, newEntry: string, name: string) returns (updated: string)
    ensures updated == Merge(existing, newEntry, name)
  {
    var lines := KeepLines(existing, name);
    updated := Join(lines + [newEntry], '\n');
  }

  method RemoveDNSEntry(existing: string, name: string) returns (updated: string)
    ensures updated == Remove(existing, name)
  {
    var lines := KeepLines(existing, name);
    updated := Join(lines, '\n');
  }

  /** The line loop both edits run. */
  method KeepLines(existing: string, name: string) returns (lines: seq<string>)
    ensures lines == Without(Visible(existing), name)
  {
    lines := [];
    var all := Split(existing, '\n');
    for i := 0 to |all|
      invariant lines == Without(Trims(all[..i]), name)
    {
      NextLine(all, i, name);
      var line := TrimSpace(all[i]);
      if line == "" || Contains(line, Marker(name)) {
        continue;
      }
      lines := lines + [line];
    }
    assert all[..|all|] == all;
  }

  lemma NextLine(all: seq<string>, i: nat, name: string)
    requires i < |all|
    ensures var line := TrimSpace(all[i]);
            Without(Trims(all[..i + 1]), name) ==
            Without(Trims(all[..i]), name) + if line == "" || Mentions(line, name) then [] else [line]
  {
    assert all[..i + 1][..i] == all[..i];
    WithoutMentioned(Trims(all[..i]), TrimSpace(all[i]), name);
  }

  lemma WithoutMentioned(lines: seq<string>, line: string, name: string)
    ensures Without(lines + [line], name) == Without(lines, name) + if Mentions(line, name) then [] else [line]
  {
    assert (lines + [line])[..|lines|] == lines;
  }

  // ---- laws of the two filters ----------------------------------------------

  lemma {:induction false} TrimsConcat(a: seq<string>, b: seq<string>)
    ensures Trims(a + b) == Trims(a) + Trims(b)
  {
    if b == [] {
      assert a + b == a;
    } else {
      assert (a + b)[..|a + b| - 1] == a + b[..|b| - 1];
      TrimsConcat(a, b[..|b| - 1]);
    }
  }

  lemma {:induction false} WithoutConcat(a: seq<string>, b: seq<string>, name: string)
    ensures Without(a + b, name) == Without(a, name) + Without(b, name)
  {
    if b == [] {
      assert a + b == a;
    } else {
      assert (a + b)[..|a + b| - 1] == a + b[..|b| - 1];
      WithoutConcat(a, b[..|b| - 1], name);
    }
  }

  /** A line as an edit leaves it: trimmed, non-blank, and on one line. */
  predicate Clean(line: string) {
    line != "" && Trimmed(line) && '\n' !in line
  }

  ghost predicate AllClean(lines: seq<string>) {
    forall i :: 0 <= i < |lines| ==> Clean(lines[i])
  }

  lemma {:induction false} TrimsClean(lines: seq<string>)
    requires forall i :: 0 <= i < |lines| ==> '\n' !in lines[i]
    ensures AllClean(Trims(lines))
  {
    if lines == [] {
    } else {
      TrimsClean(lines[..|lines| - 1]);
      TrimSpaceDrops(lines[|lines| - 1], '\n');
    }
  }

  lemma VisibleClean(text: string)
    ensures AllClean(Visible(text))
  {
    SplitParts(text, '\n');
    var lines := Split(text, '\n');
    forall i | 0 <= i < |lines| ensures '\n' !in lines[i] {
      assert lines[i] in lines;
    }
    TrimsClean(lines);
  }

  lemma {:induction false} WithoutClean(lines: seq<string>, name: string)
    requires AllClean(lines)
    ensures AllClean(Without(lines, name))
  {
    if lines == [] {
    } else {
      WithoutClean(lines[..|lines| - 1], name);
    }
  }

  lemma {:induction false} TrimsOfClean(lines: seq<string>)
    requires AllClean(lines)
    ensures Trims(lines) == lines
  {
    if lines == [] {
    } else {
      TrimsOfClean(lines[..|lines| - 1]);
      assert lines == lines[..|lines| - 1] + [lines[|lines| - 1]];
    }
  }

  lemma {:induction false} WithoutTwice(lines: seq<string>, name: string)
    ensures Without(Without(lines, name), name) == Without(lines, name)
  {
    if lines == [] {
    } else {
      WithoutTwice(lines[..|lines| - 1], name);
      WithoutMentioned(Without(lines[..|lines| - 1], name), lines[|lines| - 1], name);
    }
  }

  lemma {:induction false} WithoutCommutes(lines: seq<string>, a: string, b: string)
    ensures Without(Without(lines, a), b) == Without(Without(lines, b), a)
  {
    if lines == [] {
    } else {
      var front, line := lines[..|lines| - 1], lines[|lines| - 1];
      WithoutCommutes(front, a, b);
      WithoutMentioned(Without(front, a), line, b);
      WithoutMentioned(Without(front, b), line, a);
    }
  }

  /** Reading back a joined list of clean lines gives the list. */
  lemma VisibleJoin(lines: seq<string>)
    requires AllClean(lines)
    ensures Visible(Join(lines, '\n')) == lines
  {
    if lines == [] {
      assert Split("", '\n') == [""];
      assert Trims([""][..0]) == [];
    } else {
      forall p | p in lines ensures '\n' !in p {}
      SplitJoin(lines, '\n');
      TrimsOfClean(lines);
    }
  }

  /** Reading back clean lines joined with any further text. */
  lemma VisibleJoinText(lines: seq<string>, text: string)
    requires AllClean(lines)
    ensures Visible(Join(lines + [text], '\n')) == lines + Visible(text)
  {
    if lines == [] {
      assert [] + [text] == [text];
      assert [] + Visible(text) == Visible(text);
    } else {
      forall p | p in lines ensures '\n' !in p {}
      JoinAppend(lines, text, '\n');
      SplitConcat(Join(lines, '\n'), text, '\n');
      SplitJoin(lines, '\n');
      TrimsConcat(lines, Split(text, '\n'));
      TrimsOfClean(lines);
    }
  }

  // ---- laws of the edits, for arbitrary text ----------------------------------

  /** Removing keeps every visible line that does not mention the name, in order, and nothing else. */
  lemma RemoveShows(text: string, name: string)
    ensures Visible(Remove(text, name)) == Without(Visible(text), name)
  {
    VisibleClean(text);
    WithoutClean(Visible(text), name);
    VisibleJoin(Without(Visible(text), name));
  }

  /** Merging does the same and appends the new text. */
  lemma MergeShows(text: string, newEntry: string, name: string)
    ensures Visible(Merge(text, newEntry, name)) == Without(Visible(text), name) + Visible(newEntry)
  {
    VisibleClean(text);
    WithoutClean(Visible(text), name);
    VisibleJoinText(Without(Visible(text), name), newEntry);
  }

  /** The lines a second edit of the same name keeps. */
  lemma KeptAfterMerge(text: string, newEntry: string, name: string)
    ensures Without(Visible(Merge(text, newEntry, name)), name)
         == Without(Visible(text), name) + Without(Visible(newEntry), name)
  {
    MergeShows(text, newEntry, name);
    WithoutConcat(Without(Visible(text), name), Visible(newEntry), name);
    WithoutTwice(Visible(text), name);
  }

  lemma KeptIsClean(text: string, name: string)
    ensures AllClean(Without(Visible(text), name))
  {
    VisibleClean(text);
    WithoutClean(Visible(text), name);
  }

  lemma LongerJoin(kept: seq<string>, more: seq<string>)
    requires AllClean(kept) && AllClean(more)
    ensures Join(kept + more, '\n') == Join(kept, '\n') <==> more == []
  {
    VisibleJoin(kept);
    VisibleJoin(kept + more);
    if more == [] {
      assert kept + more == kept;
    } else {
      assert |kept + more| != |kept|;
    }
  }

  lemma LongerJoinText(kept: seq<string>, more: seq<string>, text: string)
    requires AllClean(kept) && AllClean(more)
    ensures Join(kept + more + [text], '\n') == Join(kept + [text], '\n') <==> more == []
  {
    VisibleJoinText(kept, text);
    VisibleJoinText(kept + more, text);
    if more == [] {
      assert kept + more == kept;
    } else {
      assert |kept + more + Visible(text)| != |kept + Visible(text)|;
    }
  }

  /** Removing after merging equals removing from the original, exactly when the merged text shows
      no line that fails to mention the name. */
  lemma RemoveAfterMerge(text: string, newEntry: string, name: string)
    ensures Remove(Merge(text, newEntry, name), name) == Remove(text, name)
       <==> Without(Visible(newEntry), name) == []
  {
    KeptAfterMerge(text, newEntry, name);
    KeptIsClean(text, name);
    KeptIsClean(newEntry, name);
    LongerJoin(Without(Visible(text), name), Without(Visible(newEntry), name));
  }

  /** Merging twice equals merging once, under the same exact condition. */
  lemma MergeTwice(text: string, newEntry: string, name: string)
    ensures Merge(Merge(text, newEntry, name), newEntry, name) == Merge(text, newEntry, name)
       <==> Without(Visible(newEntry), name) == []
  {
    KeptAfterMerge(text, newEntry, name);
    KeptIsClean(text, name);
    KeptIsClean(newEntry, name);
    LongerJoinText(Without(Visible(text), name), Without(Visible(newEntry), name), newEntry);
  }

  lemma RemoveTwice(text: string, name: string)
    ensures Remove(Remove(text, name), name) == Remove(text, name)
  {
    RemoveShows(text, name);
    WithoutTwice(Visible(text), name);
  }

  lemma RemovesCommute(text: string, a: string, b: string)
    ensures Remove(Remove(text, a), b) == Remove(Remove(text, b), a)
  {
    RemoveShows(text, a);
    RemoveShows(text, b);
    WithoutCommutes(Visible(text), a, b);
  }

  // ---- looking a name up ------------------------------------------------------

  /** What stands behind the name in a line that mentions it. */
  function Behind(line: string, name: string): string
    requires Mentions(line, name)
  {
    line[Index(line, Marker(name)) + |Marker(name)|..]
  }

  predicate MentionedIn(lines: seq<string>, name: string) {
    lines != [] && (Mentions(lines[0], name) || MentionedIn(lines[1..], name))
  }

  /** The rest of the first line that mentions the name. */
  function LookupIn(lines: seq<string>, name: string): string {
    if lines == [] then ""
    else if Mentions(lines[0], name) then Behind(lines[0], name)
    else LookupIn(lines[1..], name)
  }

  function Lookup(text: string, name: string): string {
    LookupIn(Visible(text), name)
  }

  method LookupDNSEntry(existing: string, name: string) returns (ip: string)
    ensures ip == Lookup(existing, name)
  {
    var all := Split(existing, '\n');
    assert all[0..] == all;
    for i := 0 to |all|
      invariant LookupIn(Trims(all), name) == LookupIn(Trims(all[i..]), name)
    {
      LookupFirst(all[i..], name);
      assert all[i..][1..] == all[i + 1..];
      var line := TrimSpace(all[i]);
      var idx := Index(line, Marker(name));
      if idx >= 0 {
        return line[idx + |Marker(name)|..];
      }
    }
    ip := "";
  }

  lemma TrimsFirst(lines: seq<string>)
    requires lines != []
    ensures Trims(lines) == (if TrimSpace(lines[0]) == "" then [] else [TrimSpace(lines[0])]) + Trims(lines[1..])
  {
    assert lines == [lines[0]] + lines[1..];
    assert [lines[0]][..0] == [];
    TrimsConcat([lines[0]], lines[1..]);
  }

  lemma LookupFirst(lines: seq<string>, name: string)
    requires lines != []
    ensures var line := TrimSpace(lines[0]);
            LookupIn(Trims(lines), name) ==
            if Mentions(line, name) then Behind(line, name) else LookupIn(Trims(lines[1..]), name)
  {
    TrimsFirst(lines);
    var line, rest := TrimSpace(lines[0]), Trims(lines[1..]);
    if line == "" {
      assert [] + rest == rest;
    } else {
      assert ([line] + rest)[1..] == rest;
    }
  }

  lemma {:induction false} LookupAppend(lines: seq<string>, line: string, name: string)
    ensures MentionedIn(lines + [line], name) <==> MentionedIn(lines, name) || Mentions(line, name)
    ensures LookupIn(lines + [line], name) ==
            if MentionedIn(lines, name) then LookupIn(lines, name)
            else if Mentions(line, name) then Behind(line, name) else ""
  {
    var all := lines + [line];
    if lines == [] {
    } else {
      assert all[1..] == lines[1..] + [line];
      LookupAppend(lines[1..], line, name);
    }
  }

  lemma {:induction false} NoLongerMentioned(lines: seq<string>, name: string)
    ensures !MentionedIn(Without(lines, name), name)
    ensures LookupIn(Without(lines, name), name) == ""
  {
    if lines == [] {
    } else {
      var front, line := lines[..|lines| - 1], lines[|lines| - 1];
      NoLongerMentioned(front, name);
      LookupAppend(Without(front, name), line, name);
    }
  }

  /** A removed name is gone, from any text. */
  lemma LookupRemoved(text: string, name: string)
    ensures Lookup(Remove(text, name), name) == ""
  {
    RemoveShows(text, name);
    NoLongerMentioned(Visible(text), name);
  }

  // ---- the text as a map --------------------------------------------------------

  /** A name or an address as the table holds them. */
  predicate Plain(part: string) {
    '/' !in part && forall c :: c in part ==> !IsSpace(c)
  }

  lemma EntryClean(name: string, ip: string)
    requires Plain(name) && Plain(ip)
    ensures Clean(Entry(name, ip))
  {
    var line := Entry(name, ip);
    assert line[0] == 'a';
    assert line[|line| - 1] == if ip == "" then '/' else ip[|ip| - 1];
    assert IsSpace('\n');
    OneLine(name, ip);
  }

  lemma EntryVisible(name: string, ip: string)
    requires Plain(name) && Plain(ip)
    ensures Visible(Entry(name, ip)) == [Entry(name, ip)]
  {
    EntryClean(name, ip);
    VisibleOneLine(Entry(name, ip));
  }

  /** An entry mentions its own name and no other. */
  lemma EntryMentions(name: string, ip: string, other: string)
    requires Plain(name) && Plain(ip) && Plain(other)
    ensures Mentions(Entry(name, ip), other) <==> other == name
    ensures Index(Entry(name, ip), Marker(name)) == 8
  {
    var rest := Marker(name) + ip;
    assert '/' !in "address=";
    IndexAfter("address=", rest, Marker(other));
    IndexAfter("address=", rest, Marker(name));
    assert HasPrefix(rest, Marker(name));
    if Contains(rest, Marker(other)) {
      SlashesAlign(name, ip, other, Index(rest, Marker(other)));
    }
  }

  lemma SlashesAlign(name: string, ip: string, other: string, i: nat)
    requires Plain(name) && Plain(ip) && Plain(other)
    requires i <= |Marker(name) + ip| && HasPrefix((Marker(name) + ip)[i..], Marker(other))
    ensures i == 0 && other == name
  {
    var rest, m := Marker(name) + ip, Marker(other);
    assert rest[i..][..|m|] == m;
    assert rest[i] == m[0] == '/' && rest[i + |other| + 1] == m[|m| - 1] == '/';
    assert forall k :: 0 < k <= |name| ==> rest[k] == name[k - 1];
    assert forall k :: |name| + 1 < k < |rest| ==> rest[k] == ip[k - |name| - 2];
    assert i == 0 && |other| == |name|;
    assert forall k :: 0 <= k < |name| ==> other[k] == m[k + 1] == rest[k + 1] == name[k];
  }

  /** No line mentions two plain names. Entries mention one, and most other dnsmasq options none. */
  ghost predicate TableLines(lines: seq<string>) {
    forall i :: 0 <= i < |lines| ==> MentionsOne(lines[i])
  }

  ghost predicate MentionsOne(line: string) {
    forall a, b :: Names(line, a) && Names(line, b) ==> a == b
  }

  predicate Names(line: string, name: string) {
    Plain(name) && Mentions(line, name)
  }

  lemma EntryMentionsOne(name: string, ip: string)
    requires Plain(name) && Plain(ip)
    ensures MentionsOne(Entry(name, ip))
  {
    forall a, b | Names(Entry(name, ip), a) && Names(Entry(name, ip), b)
      ensures a == b
    {
      EntryMentions(name, ip, a);
      EntryMentions(name, ip, b);
    }
  }

  /** Why: a line that mentions two names is lost to both when one is removed. */
  lemma TwoNamesLost(line: string, a: string, b: string)
    requires Mentions(line, a) && Mentions(line, b)
    ensures LookupIn([line], b) == Behind(line, b) && LookupIn(Without([line], a), b) == ""
  {
    assert [line] == [] + [line];
    LookupAppend([], line, b);
    assert [line][..0] == [];
  }

  lemma {:induction false} WithoutTable(lines: seq<string>, name: string)
    requires TableLines(lines)
    ensures TableLines(Without(lines, name))
  {
    if lines == [] {
    } else {
      WithoutTable(lines[..|lines| - 1], name);
    }
  }

  /** In a table, dropping one name does not disturb another. */
  lemma {:induction false} LookupWithout(lines: seq<string>, name: string, other: string)
    requires TableLines(lines) && Plain(name) && Plain(other) && name != other
    ensures LookupIn(Without(lines, name), other) == LookupIn(lines, other)
    ensures MentionedIn(Without(lines, name), other) == MentionedIn(lines, other)
  {
    if lines == [] {
    } else {
      var front, line := lines[..|lines| - 1], lines[|lines| - 1];
      assert lines == front + [line];
      LookupWithout(front, name, other);
      LookupAppend(front, line, other);
      LookupAppend(Without(front, name), line, other);
      NotMentioned(front, other);
      NotMentioned(Without(front, name), other);
      assert MentionsOne(line) && (Names(line, name) && Names(line, other) ==> name == other);
    }
  }

  lemma EntryBehind(name: string, ip: string)
    requires Plain(name) && Plain(ip)
    ensures Mentions(Entry(name, ip), name) && Behind(Entry(name, ip), name) == ip
  {
    EntryMentions(name, ip, name);
    assert Entry(name, ip)[8..] == Marker(name) + ip;
    assert (Marker(name) + ip)[|Marker(name)|..] == ip;
  }

  /** A merged name is found with its address, whatever the text held before. */
  lemma LookupMerged(text: string, name: string, ip: string)
    requires Plain(name) && Plain(ip)
    ensures Lookup(Merge(text, Entry(name, ip), name), name) == ip
  {
    MergeShows(text, Entry(name, ip), name);
    EntryVisible(name, ip);
    EntryBehind(name, ip);
    NoLongerMentioned(Visible(text), name);
    LookupAppend(Without(Visible(text), name), Entry(name, ip), name);
  }

  lemma OneLine(name: string, ip: string)
    requires '\n' !in name && '\n' !in ip
    ensures '\n' !in Entry(name, ip)
  {
    assert '\n' !in "address=";
    assert '\n' !in Marker(name);
  }

  lemma VisibleOneLine(line: string)
    requires '\n' !in line
    ensures Visible(line) == if TrimSpace(line) == "" then [] else [TrimSpace(line)]
  {
    SplitPlain(line, '\n');
    assert Trims([line][..0]) == [];
    assert [] + [TrimSpace(line)] == [TrimSpace(line)];
  }

  /** The edits clusterbook makes meet the condition of RemoveAfterMerge and MergeTwice. */
  lemma EntryEdits(name: string, ip: string)
    requires '\n' !in name && '\n' !in ip
    ensures Without(Visible(Entry(name, ip)), name) == []
  {
    OneLine(name, ip);
    VisibleOneLine(Entry(name, ip));
    TrimmedEntry(name, ip);
    var line := TrimSpace(Entry(name, ip));
    assert Without([line][..0], name) == [];
  }

  lemma {:induction false} TrimRightKeeps(front: string, tail: string)
    requires front != "" && !IsSpace(front[|front| - 1])
    ensures front <= TrimRight(front + tail)
    decreases |tail|
  {
    var s := front + tail;
    if tail == "" {
      assert s == front;
    } else {
      assert s[..|s| - 1] == front + tail[..|tail| - 1];
      TrimRightKeeps(front, tail[..|tail| - 1]);
    }
  }

  /** Trimming an entry leaves the mention of its name. */
  lemma TrimmedEntry(name: string, ip: string)
    ensures Mentions(TrimSpace(Entry(name, ip)), name)
  {
    var front := "address=" + Marker(name);
    assert Entry(name, ip) == front + ip;
    TrimRightKeeps(front, ip);
    var t := TrimSpace(Entry(name, ip));
    assert t[8..][..|Marker(name)|] == front[8..] == Marker(name);
    Found(t, Marker(name), 8);
  }

  // ---- outer white space does not show ---------------------------------------------------

  lemma {:induction false} TrimLeftThrough(spaces: string, s: string)
    requires forall c :: c in spaces ==> IsSpace(c)
    ensures TrimLeft(spaces + s) == TrimLeft(s)
  {
    if spaces == "" {
      assert spaces + s == s;
    } else {
      assert (spaces + s)[0] in spaces && (spaces + s)[1..] == spaces[1..] + s;
      TrimLeftThrough(spaces[1..], s);
    }
  }

  lemma {:induction false} TrimRightThrough(s: string, spaces: string)
    requires forall c :: c in spaces ==> IsSpace(c)
    ensures TrimRight(s + spaces) == TrimRight(s)
    decreases |spaces|
  {
    if spaces == "" {
      assert s + spaces == s;
    } else {
      var n := |spaces| - 1;
      assert (s + spaces)[|s + spaces| - 1] in spaces && (s + spaces)[..|s + spaces| - 1] == s + spaces[..n];
      TrimRightThrough(s, spaces[..n]);
    }
  }

  lemma {:induction false} TrimLeftAll(s: string)
    ensures (forall c :: c in s ==> IsSpace(c)) <==> TrimLeft(s) == ""
  {
    if s != "" && IsSpace(s[0]) {
      TrimLeftAll(s[1..]);
      assert s == [s[0]] + s[1..];
    }
  }

  lemma {:induction false} TrimLeftFront(s: string, tail: string)
    requires TrimLeft(s) != ""
    ensures TrimLeft(s + tail) == TrimLeft(s) + tail
  {
    assert s != "";
    assert (s + tail)[0] == s[0];
    if IsSpace(s[0]) {
      assert (s + tail)[1..] == s[1..] + tail;
      TrimLeftFront(s[1..], tail);
    }
  }

  /** A line with a space before or behind it is trimmed to the same. */
  lemma TrimSpaceBefore(c: char, line: string)
    requires IsSpace(c)
    ensures TrimSpace([c] + line) == TrimSpace(line)
  {
    TrimLeftThrough([c], line);
  }

  lemma TrimSpaceBehind(line: string, c: char)
    requires IsSpace(c)
    ensures TrimSpace(line + [c]) == TrimSpace(line)
  {
    if TrimLeft(line) == "" {
      TrimLeftAll(line);
      TrimLeftThrough(line, [c]);
    } else {
      TrimLeftFront(line, [c]);
      TrimRightThrough(TrimLeft(line), [c]);
    }
  }

  lemma VisibleBefore(c: char, text: string)
    requires IsSpace(c)
    ensures Visible([c] + text) == Visible(text)
  {
    var parts := Split(text, '\n');
    assert ([c] + text)[1..] == text;
    if c == '\n' {
      assert Split([c] + text, '\n') == [""] + parts;
      TrimsFirst([""] + parts);
      assert ([""] + parts)[1..] == parts;
    } else {
      var longer := Split([c] + text, '\n');
      assert longer == Prepend(c, parts);
      TrimsFirst(longer);
      TrimsFirst(parts);
      TrimSpaceBefore(c, parts[0]);
    }
  }

  function LongerLast(parts: seq<string>, c: char): seq<string>
    requires parts != []
  {
    parts[..|parts| - 1] + [parts[|parts| - 1] + [c]]
  }

  lemma LongerPrepend(parts: seq<string>, head: char, c: char)
    requires parts != []
    ensures Prepend(head, LongerLast(parts, c)) == LongerLast(Prepend(head, parts), c)
  {
    if |parts| == 1 {
      assert [head] + (parts[0] + [c]) == ([head] + parts[0]) + [c];
    } else {
      assert parts == [parts[0]] + parts[1..];
    }
  }

  lemma LongerCons(parts: seq<string>, head: string, c: char)
    requires parts != []
    ensures [head] + LongerLast(parts, c) == LongerLast([head] + parts, c)
  {
  }

  lemma {:induction false} SplitBehind(text: string, sep: char, c: char)
    requires c != sep
    ensures Split(text + [c], sep) == LongerLast(Split(text, sep), c)
  {
    if text == "" {
      assert text + [c] == [c];
      SplitPlain([c], sep);
      SplitPlain("", sep);
    } else {
      var rest := Split(text[1..], sep);
      assert (text + [c])[0] == text[0] && (text + [c])[1..] == text[1..] + [c];
      SplitBehind(text[1..], sep, c);
      LongerPrepend(rest, text[0], c);
      LongerCons(rest, "", c);
    }
  }

  lemma VisibleBehind(text: string, c: char)
    requires IsSpace(c)
    ensures Visible(text + [c]) == Visible(text)
  {
    var parts := Split(text, '\n');
    if c == '\n' {
      SplitConcat(text, "", '\n');
      assert text + ['\n'] + "" == text + [c];
      SplitPlain("", '\n');
      assert (parts + [""])[..|parts|] == parts;
    } else {
      SplitBehind(text, '\n', c);
      var front, last := parts[..|parts| - 1], parts[|parts| - 1];
      assert (front + [last + [c]])[..|parts| - 1] == front;
      TrimSpaceBehind(last, c);
    }
  }

  lemma {:induction false} VisibleLeft(text: string)
    ensures Visible(TrimLeft(text)) == Visible(text)
  {
    if text != "" && IsSpace(text[0]) {
      VisibleLeft(text[1..]);
      assert text == [text[0]] + text[1..];
      VisibleBefore(text[0], text[1..]);
    }
  }

  lemma {:induction false} VisibleRight(text: string)
    ensures Visible(TrimRight(text)) == Visible(text)
  {
    if text != "" && IsSpace(text[|text| - 1]) {
      var n := |text| - 1;
      VisibleRight(text[..n]);
      assert text == text[..n] + [text[n]];
      VisibleBehind(text[..n], text[n]);
    }
  }

  /** Trimming the whole text changes none of its visible lines, and so no edit of it. */
  lemma TrimmedTextShows(text: string)
    ensures Visible(TrimSpace(text)) == Visible(text)
  {
    VisibleLeft(text);
    VisibleRight(TrimLeft(text));
  }

  // ---- the table and the map it stands for ----------------------------------------

  /** Looking up the lines is looking up the map. */
  ghost predicate Lists(lines: seq<string>, records: map<string, string>) {
    && TableLines(lines)
    && forall name :: LooksUp(lines, records, name)
  }

  predicate LooksUp(lines: seq<string>, records: map<string, string>, name: string) {
    Plain(name) ==> LookupIn(lines, name) == if name in records then records[name] else ""
  }

  ghost predicate Represents(text: string, records: map<string, string>) {
    Lists(Visible(text), records)
  }

  lemma MergedOther(lines: seq<string>, name: string, ip: string, other: string)
    requires TableLines(lines) && Plain(name) && Plain(ip) && Plain(other) && other != name
    ensures LookupIn(Without(lines, name) + [Entry(name, ip)], other) == LookupIn(lines, other)
  {
    LookupWithout(lines, name, other);
    EntryMentions(name, ip, other);
    LookupAppend(Without(lines, name), Entry(name, ip), other);
    NotMentioned(Without(lines, name), other);
  }

  lemma MergedSame(lines: seq<string>, name: string, ip: string)
    requires Plain(name) && Plain(ip)
    ensures LookupIn(Without(lines, name) + [Entry(name, ip)], name) == ip
  {
    EntryBehind(name, ip);
    NoLongerMentioned(lines, name);
    LookupAppend(Without(lines, name), Entry(name, ip), name);
  }

  lemma MergedTable(lines: seq<string>, name: string, ip: string)
    requires TableLines(lines) && Plain(name) && Plain(ip)
    ensures TableLines(Without(lines, name) + [Entry(name, ip)])
  {
    WithoutTable(lines, name);
    EntryMentionsOne(name, ip);
  }

  lemma MergedLines(lines: seq<string>, records: map<string, string>, name: string, ip: string)
    requires Lists(lines, records) && Plain(name) && Plain(ip)
    ensures Lists(Without(lines, name) + [Entry(name, ip)], records[name := ip])
  {
    MergedTable(lines, name, ip);
    MergedSame(lines, name, ip);
    var merged, more := Without(lines, name) + [Entry(name, ip)], records[name := ip];
    forall other ensures LooksUp(merged, more, other) {
      assert LooksUp(lines, records, other);
      if Plain(other) && other != name { MergedOther(lines, name, ip, other); }
    }
  }

  lemma RemovedLines(lines: seq<string>, records: map<string, string>, name: string)
    requires Lists(lines, records) && Plain(name)
    ensures Lists(Without(lines, name), records - {name})
  {
    WithoutTable(lines, name);
    NoLongerMentioned(lines, name);
    forall other ensures LooksUp(Without(lines, name), records - {name}, other) {
      assert LooksUp(lines, records, other);
      if Plain(other) && other != name { LookupWithout(lines, name, other); }
    }
  }

  /** Merging is a map update. */
  lemma MergeIsUpdate(text: string, records: map<string, string>, name: string, ip: string)
    requires Represents(text, records) && Plain(name) && Plain(ip)
    ensures Represents(Merge(text, Entry(name, ip), name), records[name := ip])
  {
    MergeShows(text, Entry(name, ip), name);
    EntryVisible(name, ip);
    MergedLines(Visible(text), records, name, ip);
  }

  /** Removing is a map removal. */
  lemma RemoveIsDelete(text: string, records: map<string, string>, name: string)
    requires Represents(text, records) && Plain(name)
    ensures Represents(Remove(text, name), records - {name})
  {
    RemoveShows(text, name);
    RemovedLines(Visible(text), records, name);
  }

  lemma {:induction false} NotMentioned(lines: seq<string>, name: string)
    ensures !MentionedIn(lines, name) ==> LookupIn(lines, name) == ""
  {
    if lines == [] {
    } else {
      NotMentioned(lines[1..], name);
    }
  }
}

/** The string operations clusterbook takes from Go's standard library, on `seq<char>`. */
module Text {

  datatype Option<+T> = None | Some(value: T)

  predicate HasPrefix(s: string, prefix: string) {
    prefix <= s
  }

  predicate HasSuffix(s: string, suffix: string) {
    |suffix| <= |s| && s[|s| - |suffix|..] == suffix
  }

  function TrimPrefix(s: string, prefix: string): string {
    if HasPrefix(s, prefix) then s[|prefix|..] else s
  }

  function TrimSuffix(s: string, suffix: string): string {
    if HasSuffix(s, suffix) then s[..|s| - |suffix|] else s
  }

  /** `strings.Index`: the first offset of `sub` in `s`, or -1. */
  function Index(s: string, sub: string): (i: int)
    ensures -1 <= i <= |s|
    ensures i >= 0 ==> HasPrefix(s[i..], sub)
  {
    if HasPrefix(s, sub) then 0
    else if s == "" then -1
    else
      var i := Index(s[1..], sub);
      assert i >= 0 ==> s[1..][i..] == s[i + 1..];
      if i < 0 then -1 else i + 1
  }

  predicate Contains(s: string, sub: string) {
    Index(s, sub) >= 0
  }

  /** `sub` is found at or before any place it stands. */
  lemma {:induction false} Found(s: string, sub: string, i: nat)
    requires i <= |s| && HasPrefix(s[i..], sub)
    ensures 0 <= Index(s, sub) <= i
  {
    if i == 0 {
    } else {
      assert s[i..] == s[1..][i - 1..];
      Found(s[1..], sub, i - 1);
    }
  }

  /** The first place where `sub` stands, or -1 exactly when it stands nowhere. */
  lemma IndexExactly(s: string, sub: string)
    ensures Index(s, sub) == -1 <==> forall i :: 0 <= i <= |s| ==> !HasPrefix(s[i..], sub)
    ensures Index(s, sub) >= 0 ==>
              HasPrefix(s[Index(s, sub)..], sub) && forall i :: 0 <= i < Index(s, sub) ==> !HasPrefix(s[i..], sub)
  {
    forall i | 0 <= i <= |s| && HasPrefix(s[i..], sub) ensures 0 <= Index(s, sub) <= i {
      Found(s, sub, i);
    }
  }

  /** A front without the first character of `sub` only shifts where `sub` is found. */
  lemma {:induction false} IndexAfter(front: string, s: string, sub: string)
    requires sub != "" && sub[0] !in front
    ensures Index(front + s, sub) == if Contains(s, sub) then |front| + Index(s, sub) else -1
  {
    if front == "" {
      assert front + s == s;
    } else {
      assert (front + s)[0] == front[0];
      assert (front + s)[1..] == front[1..] + s;
      IndexAfter(front[1..], s, sub);
    }
  }

  // ---- split and join -----------------------------------------------------

  function Prepend(c: char, parts: seq<string>): (r: seq<string>)
    requires |parts| > 0
    ensures |r| == |parts| && r[0] == [c] + parts[0] && r[1..] == parts[1..]
  {
    [[c] + parts[0]] + parts[1..]
  }

  lemma PrependConcat(c: char, a: seq<string>, b: seq<string>)
    requires |a| > 0
    ensures Prepend(c, a + b) == Prepend(c, a) + b
  {
    assert (a + b)[1..] == a[1..] + b;
  }

  /** `strings.Split` at a one-character separator. */
  function Split(s: string, sep: char): (parts: seq<string>)
    ensures |parts| > 0
  {
    if s == "" then [""]
    else
      var rest := Split(s[1..], sep);
      if s[0] == sep then [""] + rest else Prepend(s[0], rest)
  }

  /** `strings.Join` with a one-character separator. */
  function Join(parts: seq<string>, sep: char): string {
    if |parts| == 0 then ""
    else if |parts| == 1 then parts[0]
    else parts[0] + [sep] + Join(parts[1..], sep)
  }

  lemma JoinHead(head: string, rest: seq<string>, c: char, sep: char)
    ensures Join([[c] + head] + rest, sep) == [c] + Join([head] + rest, sep)
  {
    assert ([[c] + head] + rest)[1..] == rest;
    assert ([head] + rest)[1..] == rest;
  }

  /** Join undoes Split, for every text and every separator. */
  lemma {:induction false} JoinSplit(s: string, sep: char)
    ensures Join(Split(s, sep), sep) == s
  {
    if s == "" {
    } else {
      var rest := Split(s[1..], sep);
      JoinSplit(s[1..], sep);
      if s[0] == sep {
        assert Split(s, sep)[1..] == rest;
      } else {
        JoinHead(rest[0], rest[1..], s[0], sep);
        assert [rest[0]] + rest[1..] == rest;
      }
    }
  }

  lemma {:induction false} SplitPlain(s: string, sep: char)
    requires sep !in s
    ensures Split(s, sep) == [s]
  {
    if s == "" {
    } else {
      SplitPlain(s[1..], sep);
      assert [s[0]] + s[1..] == s;
    }
  }

  /** Splitting distributes over the separator. */
  lemma {:induction false} SplitConcat(a: string, b: string, sep: char)
    ensures Split(a + [sep] + b, sep) == Split(a, sep) + Split(b, sep)
  {
    var s := a + [sep] + b;
    if a == "" {
      assert s[1..] == b;
    } else {
      assert s[0] == a[0];
      assert s[1..] == a[1..] + [sep] + b;
      SplitConcat(a[1..], b, sep);
      var front, back := Split(a[1..], sep), Split(b, sep);
      if a[0] == sep {
        assert [""] + (front + back) == ([""] + front) + back;
      } else {
        PrependConcat(a[0], front, back);
      }
    }
  }

  /** No part of a split contains the separator. */
  lemma {:induction false} SplitParts(s: string, sep: char)
    ensures forall p :: p in Split(s, sep) ==> sep !in p
  {
    if s == "" {
    } else {
      SplitParts(s[1..], sep);
      var rest := Split(s[1..], sep);
      assert rest[0] in rest;
      forall p | p in rest[1..] ensures p in rest {}
    }
  }

  /** One part is the text itself; more parts mean the separator occurs. */
  lemma {:induction false} SplitSingle(s: string, sep: char)
    ensures |Split(s, sep)| == 1 <==> sep !in s
    ensures |Split(s, sep)| == 1 ==> Split(s, sep) == [s]
  {
    if s == "" {
    } else {
      SplitSingle(s[1..], sep);
      assert [s[0]] + s[1..] == s;
    }
  }

  /** Split undoes Join on a non-empty list of separator-free parts. */
  lemma {:induction false} SplitJoin(parts: seq<string>, sep: char)
    requires |parts| > 0
    requires forall p :: p in parts ==> sep !in p
    ensures Split(Join(parts, sep), sep) == parts
  {
    SplitPlain(parts[0], sep);
    if |parts| > 1 {
      SplitJoin(parts[1..], sep);
      SplitConcat(parts[0], Join(parts[1..], sep), sep);
      assert parts == [parts[0]] + parts[1..];
    }
  }

  lemma {:induction false} JoinAppend(parts: seq<string>, last: string, sep: char)
    requires |parts| > 0
    ensures Join(parts + [last], sep) == Join(parts, sep) + [sep] + last
  {
    var all := parts + [last];
    if |parts| == 1 {
      assert all[1..] == [last];
    } else {
      assert all[1..] == parts[1..] + [last];
      JoinAppend(parts[1..], last, sep);
    }
  }

  // ---- white space --------------------------------------------------------

  /** `unicode.IsSpace`. */
  predicate IsSpace(c: char) {
    || c in "\t\n\r "
    || c == '\U{000B}' || c == '\U{000C}' || c == '\U{0085}' || c == '\U{00A0}'
    || c == '\U{1680}' || '\U{2000}' <= c <= '\U{200A}'
    || c == '\U{2028}' || c == '\U{2029}' || c == '\U{202F}' || c == '\U{205F}' || c == '\U{3000}'
  }

  function TrimLeft(s: string): (t: string)
    ensures t != "" ==> !IsSpace(t[0])
  {
    if s != "" && IsSpace(s[0]) then TrimLeft(s[1..]) else s
  }

  function TrimRight(s: string): (t: string)
    ensures t <= s
    ensures t != "" ==> !IsSpace(t[|t| - 1])
  {
    if s != "" && IsSpace(s[|s| - 1]) then TrimRight(s[..|s| - 1]) else s
  }

  predicate Trimmed(s: string) {
    s == "" || (!IsSpace(s[0]) && !IsSpace(s[|s| - 1]))
  }

  /** `strings.TrimSpace`. */
  function TrimSpace(s: string): (t: string)
    ensures Trimmed(t)
    ensures Trimmed(s) ==> t == s
  {
    TrimRight(TrimLeft(s))
  }

  predicate AllSpace(s: string) {
    forall c :: c in s ==> IsSpace(c)
  }

  lemma {:induction false} TrimLeftExactly(s: string) returns (front: string)
    ensures s == front + TrimLeft(s) && AllSpace(front)
  {
    if s != "" && IsSpace(s[0]) {
      front := TrimLeftExactly(s[1..]);
      front := [s[0]] + front;
    } else {
      front := "";
    }
  }

  lemma {:induction false} TrimRightExactly(s: string) returns (back: string)
    ensures s == TrimRight(s) + back && AllSpace(back)
  {
    if s != "" && IsSpace(s[|s| - 1]) {
      back := TrimRightExactly(s[..|s| - 1]);
      back := back + [s[|s| - 1]];
    } else {
      back := "";
    }
  }

  /** Trimming takes white space off both ends, and nothing else. */
  lemma TrimSpaceExactly(s: string) returns (front: string, back: string)
    ensures s == front + TrimSpace(s) + back && AllSpace(front) && AllSpace(back)
    ensures TrimSpace(s) == "" || (!IsSpace(TrimSpace(s)[0]) && !IsSpace(TrimSpace(s)[|TrimSpace(s)| - 1]))
  {
    front := TrimLeftExactly(s);
    back := TrimRightExactly(TrimLeft(s));
  }

  /** Trimming brings in no character. */
  lemma TrimSpaceDrops(s: string, c: char)
    requires c !in s
    ensures c !in TrimSpace(s)
  {
    TrimLeftDrops(s, c);
  }

  lemma {:induction false} TrimLeftDrops(s: string, c: char)
    requires c !in s
    ensures c !in TrimLeft(s)
  {
    if s != "" && IsSpace(s[0]) {
      TrimLeftDrops(s[1..], c);
    }
  }
}

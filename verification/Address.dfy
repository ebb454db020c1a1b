/** Addresses as text: network key, host part, and how the two are told apart. */
module Address {
  import opened Text
  import opened Decimal

  /** The address of a host part in a network. */
  function Full(key: string, digit: string): string {
    key + "." + digit
  }

  function TruncateIP(ip: string): Option<string> {
    var segments := Split(ip, '.');
    if |segments| != 4 then None else Some(Join(segments[..3], '.'))
  }

  function GetLastIPDigit(ip: string): Option<string> {
    var segments := Split(ip, '.');
    if |segments| < 4 then None else Some(segments[|segments| - 1])
  }

  /** The text after the last dot, all of it when there is none. */
  function AfterLastDot(ip: string): (t: string)
    ensures '.' !in t
  {
    if '.' !in ip then ip
    else if ip[|ip| - 1] == '.' then ""
    else AfterLastDot(ip[..|ip| - 1]) + [ip[|ip| - 1]]
  }

  /** The decimal text of an octet, with no leading zero or sign. */
  predicate IsOctet(digit: string) {
    exists n | 0 <= n < 256 :: Itoa(n) == digit
  }

  function HostDigit(ip: string, key: string): Option<string> {
    var digit :=
      if '.' !in ip then Some(ip)
      else if TruncateIP(ip) != Some(key) then None
      else Some(AfterLastDot(ip));
    if digit.None? then None
    else
      var n := ParseInt(digit.value);
      if n.None? || n.value < 0 || n.value > 255 || Itoa(n.value) != digit.value then None
      else digit
  }

  // ---- the exact domain of HostDigit --------------------------------------

  lemma {:induction false} AfterLastDotOf(front: string, last: string)
    requires '.' !in last
    ensures AfterLastDot(front + "." + last) == last
    decreases |last|
  {
    var ip := front + "." + last;
    assert ip[|front|] == '.';
    if last == "" {
    } else {
      var shorter := last[..|last| - 1];
      assert ip[..|ip| - 1] == front + "." + shorter;
      AfterLastDotOf(front, shorter);
      assert (front + "." + shorter)[|front|] == '.';
      assert ip[|ip| - 1] == last[|last| - 1];
    }
  }

  lemma {:induction false} CutLast(text: string) returns (front: string)
    requires '.' in text
    ensures text == front + "." + AfterLastDot(text)
  {
    var n := |text| - 1;
    if text[n] == '.' {
      front := text[..n];
    } else {
      assert text == text[..n] + [text[n]];
      front := CutLast(text[..n]);
    }
  }

  /** The text after the last dot is the last segment. */
  lemma LastSegment(text: string)
    ensures var segments := Split(text, '.'); segments[|segments| - 1] == AfterLastDot(text)
  {
    if '.' !in text {
      SplitPlain(text, '.');
    } else {
      var front := CutLast(text);
      SplitConcat(front, AfterLastDot(text), '.');
      SplitPlain(AfterLastDot(text), '.');
    }
  }

  lemma LastOfFull(key: string, digit: string)
    ensures AfterLastDot(Full(key, digit)) == AfterLastDot(digit)
  {
    if '.' !in digit {
      AfterLastDotOf(key, digit);
    } else {
      var front := CutLast(digit);
      var last := AfterLastDot(digit);
      Regroup(key, front, last);
      AfterLastDotOf(key + "." + front, last);
    }
  }

  lemma Regroup(a: string, b: string, c: string)
    ensures Full(a, b + "." + c) == (a + "." + b) + "." + c
  {
  }

  /** An address that reads back at all reads back as the last segment of its host part. */
  lemma ReadsBack(key: string, digit: string)
    ensures GetLastIPDigit(Full(key, digit)).Some? ==> GetLastIPDigit(Full(key, digit)) == Some(AfterLastDot(digit))
  {
    LastSegment(Full(key, digit));
    LastOfFull(key, digit);
  }

  /** A host part read back never has a dot. */
  lemma LastDigitPlain(ip: string)
    ensures GetLastIPDigit(ip).Some? ==> GetLastIPDigit(ip) == Some(AfterLastDot(ip))
    ensures GetLastIPDigit(ip).Some? ==> '.' !in GetLastIPDigit(ip).value
  {
    LastSegment(ip);
  }

  /** A dotted address splits into its network's segments and its host part. */
  lemma SplitFull(key: string, digit: string)
    requires '.' !in digit
    ensures Split(Full(key, digit), '.') == Split(key, '.') + [digit]
  {
    SplitConcat(key, digit, '.');
    SplitPlain(digit, '.');
  }

  /** What an address of a network is read back as, when its host part has no dot. */
  lemma LastDigitOfFull(key: string, digit: string)
    requires '.' !in digit
    ensures GetLastIPDigit(Full(key, digit)) == if |Split(key, '.')| >= 3 then Some(digit) else None
  {
    SplitFull(key, digit);
  }

  lemma FourSegments(ip: string, key: string)
    requires '.' in ip && TruncateIP(ip) == Some(key)
    ensures |Split(key, '.')| == 3 && ip == Full(key, AfterLastDot(ip))
  {
    var segments := Split(ip, '.');
    JoinSplit(ip, '.');
    SplitParts(ip, '.');
    assert segments == segments[..3] + [segments[3]];
    JoinAppend(segments[..3], segments[3], '.');
    assert segments[3] in segments;
    AfterLastDotOf(key, segments[3]);
    forall p | p in segments[..3] ensures '.' !in p { assert p in segments; }
    SplitJoin(segments[..3], '.');
  }

  lemma OctetText(digit: string)
    requires IsOctet(digit)
    ensures '.' !in digit && ParseInt(digit).Some? && 0 <= ParseInt(digit).value < 256
    ensures Itoa(ParseInt(digit).value) == digit
  {
    var n :| 0 <= n < 256 && Itoa(n) == digit;
    ParseItoa(n);
  }

  /** HostDigit accepts exactly the octet itself and its full address, and returns the octet.
      A full address is only ever accepted under a key of three segments. */
  lemma HostDigitExact(ip: string, key: string, digit: string)
    ensures HostDigit(ip, key) == Some(digit) <==>
            && IsOctet(digit)
            && (ip == digit || (|Split(key, '.')| == 3 && ip == Full(key, digit)))
  {
    if HostDigit(ip, key) == Some(digit) {
      assert Itoa(ParseInt(digit).value) == digit;
      if '.' in ip { FourSegments(ip, key); }
    }
    if IsOctet(digit) {
      OctetText(digit);
      if |Split(key, '.')| == 3 && ip == Full(key, digit) {
        assert ip[|key|] == '.';
        SplitFull(key, digit);
        JoinSplit(key, '.');
        assert (Split(key, '.') + [digit])[..3] == Split(key, '.');
        AfterLastDotOf(key, digit);
      }
    }
  }

  /** Two host parts of one network never share an address. */
  lemma FullInjective(key: string, a: string, b: string)
    ensures Full(key, a) == Full(key, b) ==> a == b
  {
    assert Full(key, a)[|key| + 1..] == a;
    assert Full(key, b)[|key| + 1..] == b;
  }
}

/** The character-cursor loops shared by the declaration scanners.  They
    advance with an unguarded `charAt`, so running off the end of the text
    is an `IndexOutOfBounds` error rather than a stop. */
module Scanning {
  import opened Wrappers
  import opened XMLUtils

  predicate NotXmlSpace(c: char) {
    !IsXmlSpace(c)
  }

  /** A token the scanners can read back: no XML white space in it. */
  predicate NoXmlSpace(s: string) {
    forall c :: c in s ==> !IsXmlSpace(c)
  }

  /** The first index at or after `i` whose character satisfies `p`. */
  function FirstFrom(s: string, i: nat, p: char -> bool): (r: Result<nat>)
    ensures r.Ok? ==> i <= r.value < |s| && p(s[r.value])
    ensures r.Ok? ==> forall k :: i <= k < r.value ==> !p(s[k])
    ensures r.Err? ==> r.error == IndexOutOfBounds && forall k :: i <= k < |s| ==> !p(s[k])
    decreases |s| - i
  {
    if i >= |s| then Err(IndexOutOfBounds)
    else if p(s[i]) then Ok(i)
    else FirstFrom(s, i + 1, p)
  }

  /** `c = s.charAt(i); while (!p(c)) { i++; c = s.charAt(i); }` */
  method ScanTo(s: string, i: nat, p: char -> bool) returns (r: Result<nat>)
    ensures r == FirstFrom(s, i, p)
  {
    if i >= |s| {
      return Err(IndexOutOfBounds);
    }
    var j := i;
    var c := s[j];
    while !p(c)
      invariant i <= j < |s| && c == s[j]
      invariant FirstFrom(s, j, p) == FirstFrom(s, i, p)
      decreases |s| - j
    {
      j := j + 1;
      if j >= |s| {
        return Err(IndexOutOfBounds);
      }
      c := s[j];
    }
    return Ok(j);
  }

  /** The scan stops at the first place `p` holds, wherever the text goes on. */
  lemma {:induction false} FirstFromAt(s: string, i: nat, k: nat, p: char -> bool)
    requires i <= k < |s| && p(s[k])
    requires forall j :: i <= j < k ==> !p(s[j])
    ensures FirstFrom(s, i, p) == Ok(k)
    decreases k - i
  {
    if i < k {
      FirstFromAt(s, i + 1, k, p);
    }
  }

  /** With no character satisfying `p` from `i` on, the scan runs off the end. */
  lemma {:induction false} FirstFromNone(s: string, i: nat, p: char -> bool)
    requires forall k :: i <= k < |s| ==> !p(s[k])
    ensures FirstFrom(s, i, p) == Err(IndexOutOfBounds)
    decreases |s| - i
  {
    if i < |s| {
      FirstFromNone(s, i + 1, p);
    }
  }

  /** The first index at or after `i` holding `ch`; the unguarded loop
      `while (c != ch) { i++; c = s.charAt(i); }` throws when there is none. */
  function FirstCharFrom(s: string, i: nat, ch: char): (r: Result<nat>)
    ensures r.Ok? ==> i <= r.value < |s| && s[r.value] == ch
    ensures r.Ok? ==> forall k :: i <= k < r.value ==> s[k] != ch
    ensures r.Err? ==> r.error == IndexOutOfBounds && forall k :: i <= k < |s| ==> s[k] != ch
    decreases |s| - i
  {
    if i >= |s| then Err(IndexOutOfBounds)
    else if s[i] == ch then Ok(i)
    else FirstCharFrom(s, i + 1, ch)
  }

  lemma {:induction false} FirstCharFromAt(s: string, i: nat, k: nat, ch: char)
    requires i <= k < |s| && s[k] == ch
    requires forall j :: i <= j < k ==> s[j] != ch
    ensures FirstCharFrom(s, i, ch) == Ok(k)
    decreases k - i
  {
    if i < k {
      FirstCharFromAt(s, i + 1, k, ch);
    }
  }

  /** `while (c != ch) { sb.append(c); i++; c = s.charAt(i); }` entered
      with `c = s.charAt(i)`. */
  method ScanToChar(s: string, i: nat, ch: char) returns (r: Result<nat>)
    ensures r == FirstCharFrom(s, i, ch)
  {
    if i >= |s| {
      return Err(IndexOutOfBounds);
    }
    var j := i;
    var c := s[j];
    while c != ch
      invariant i <= j < |s| && c == s[j]
      invariant FirstCharFrom(s, j, ch) == FirstCharFrom(s, i, ch)
      decreases |s| - j
    {
      j := j + 1;
      if j >= |s| {
        return Err(IndexOutOfBounds);
      }
      c := s[j];
    }
    return Ok(j);
  }

  /** A run the scans found free of white space is a token. */
  lemma RunWithoutSpace(d: string, i: nat, j: nat)
    requires i <= j <= |d| && forall k :: i <= k < j ==> !IsXmlSpace(d[k])
    ensures NoXmlSpace(d[i..j])
  {
    forall c | c in d[i..j] ensures !IsXmlSpace(c) {
      var k :| 0 <= k < j - i && d[i..j][k] == c;
      assert c == d[i + k];
    }
  }

  /** A space, a token `t` without white space, and a `rest` starting with
      white space: the two unguarded scans from `i` find exactly the token. */
  lemma TokenAfterSpace(d: string, i: nat, t: string, rest: string)
    requires i <= |d| && d[i..] == " " + t + rest
    requires |t| > 0 && NoXmlSpace(t) && |rest| > 0 && IsXmlSpace(rest[0])
    ensures FirstFrom(d, i, NotXmlSpace) == Ok(i + 1)
    ensures FirstFrom(d, i + 1, IsXmlSpace) == Ok(i + 1 + |t|)
    ensures d[i + 1..i + 1 + |t|] == t && d[i + 1 + |t|..] == rest
  {
    assert d[i] == d[i..][0] == ' ';
    assert d[i + 1] == d[i..][1] == t[0] && t[0] in t;
    FirstFromAt(d, i, i + 1, NotXmlSpace);
    forall k | i + 1 <= k < i + 1 + |t| ensures !IsXmlSpace(d[k]) {
      assert d[k] == d[i..][k - i] == t[k - i - 1];
      assert t[k - i - 1] in t;
    }
    assert d[i + 1 + |t|] == d[i..][1 + |t|] == rest[0];
    FirstFromAt(d, i + 1, i + 1 + |t|, IsXmlSpace);
    assert d[i + 1..i + 1 + |t|] == d[i..][1..1 + |t|];
    assert d[i + 1 + |t|..] == d[i..][1 + |t|..];
  }

  // ---- guarded scans ----
  // The attribute-list scanner guards every step with `i < length` and
  // re-reads `c` only while `i` is in range, so past the end `c` keeps the
  // last character read.  `Cur` is the character such a cursor holds.

  function Cur(s: string, i: nat): char
    requires |s| > 0
  {
    if i < |s| then s[i] else s[|s| - 1]
  }

  /** Where `while (i < s.length() && p(c)) { i++; ... }` stops. */
  function SpanWhile(s: string, i: nat, p: char -> bool): (j: nat)
    ensures i <= j && (i <= |s| ==> j <= |s|) && (i >= |s| ==> j == i)
    ensures forall k :: i <= k < j ==> k < |s| && p(s[k])
    ensures j < |s| ==> !p(s[j])
    decreases |s| - i
  {
    if i < |s| && p(s[i]) then SpanWhile(s, i + 1, p) else i
  }

  /** Where `while (i < s.length() && c != stop) { i++; ... }` stops. */
  function SpanUntil(s: string, i: nat, stop: char): (j: nat)
    ensures i <= j && (i <= |s| ==> j <= |s|) && (i >= |s| ==> j == i)
    ensures forall k :: i <= k < j ==> k < |s| && s[k] != stop
    ensures j < |s| ==> s[j] == stop
    decreases |s| - i
  {
    if i < |s| && s[i] != stop then SpanUntil(s, i + 1, stop) else i
  }

  /** The guarded loop `while (i < s.length() && p(c)) { sb.append(c); i++;
      if (i < s.length()) c = s.charAt(i); }`, returning the new cursor and
      the characters it took. */
  method Span(s: string, i: nat, c: char, p: char -> bool) returns (j: nat, c': char, taken: string)
    requires |s| > 0 && c == Cur(s, i)
    ensures j == SpanWhile(s, i, p) && c' == Cur(s, j)
    ensures taken == if i <= |s| then s[i..j] else ""
  {
    j, c', taken := i, c, "";
    while j < |s| && p(c')
      invariant i <= j && (i <= |s| ==> j <= |s|) && (i > |s| ==> j == i)
      invariant c' == Cur(s, j)
      invariant SpanWhile(s, j, p) == SpanWhile(s, i, p)
      invariant taken == if i <= |s| then s[i..j] else ""
      decreases |s| - j
    {
      taken := taken + [c'];
      j := j + 1;
      if j < |s| {
        c' := s[j];
      }
    }
  }

  /** The guarded loop `while (i < s.length() && c != stop) { ... }`. */
  method SpanTo(s: string, i: nat, c: char, stop: char) returns (j: nat, c': char, taken: string)
    requires |s| > 0 && c == Cur(s, i)
    ensures j == SpanUntil(s, i, stop) && c' == Cur(s, j)
    ensures taken == if i <= |s| then s[i..j] else ""
  {
    j, c', taken := i, c, "";
    while j < |s| && c' != stop
      invariant i <= j && (i <= |s| ==> j <= |s|) && (i > |s| ==> j == i)
      invariant c' == Cur(s, j)
      invariant SpanUntil(s, j, stop) == SpanUntil(s, i, stop)
      invariant taken == if i <= |s| then s[i..j] else ""
      decreases |s| - j
    {
      taken := taken + [c'];
      j := j + 1;
      if j < |s| {
        c' := s[j];
      }
    }
  }

  /** A guarded scan over a run of `p` characters stops right after it. */
  lemma {:induction false} SpanWhileTo(s: string, i: nat, j: nat, p: char -> bool)
    requires i <= j <= |s|
    requires forall k :: i <= k < j ==> p(s[k])
    requires j == |s| || !p(s[j])
    ensures SpanWhile(s, i, p) == j
    decreases j - i
  {
    if i < j {
      SpanWhileTo(s, i + 1, j, p);
    }
  }

  lemma {:induction false} SpanUntilTo(s: string, i: nat, j: nat, stop: char)
    requires i <= j < |s| && s[j] == stop
    requires forall k :: i <= k < j ==> s[k] != stop
    ensures SpanUntil(s, i, stop) == j
    decreases j - i
  {
    if i < j {
      SpanUntilTo(s, i + 1, j, stop);
    }
  }
}

/** The two string helpers of the XML writer: white-space normalisation of
    text and token replacement. */
module XMLOutputting {
  import opened JavaStrings

  // ---- normalize ----

  /** A character `normalize` turns into a space: a space character or a
      new line. */
  predicate Blank(c: char) {
    IsSpaceChar(c) || c == '\n'
  }

  /** The first index from `k` on that does not hold a space character. */
  function SkipSpaces(s: string, k: nat): (r: nat)
    requires k <= |s|
    ensures k <= r <= |s|
    ensures r < |s| ==> !IsSpaceChar(s[r])
    ensures forall j :: k <= j < r ==> IsSpaceChar(s[j])
    decreases |s| - k
  {
    if k == |s| || !IsSpaceChar(s[k]) then k else SkipSpaces(s, k + 1)
  }

  /** What `normalize` makes of `s` from index `i` on: a run of space
      characters becomes one space, a new line becomes a space, and every
      other character is kept. */
  function NormalizedFrom(s: string, i: nat): (r: string)
    requires i <= |s|
    ensures |r| <= |s| - i
    decreases |s| - i
  {
    if i == |s| then ""
    else if IsSpaceChar(s[i]) then " " + NormalizedFrom(s, SkipSpaces(s, i + 1))
    else if s[i] == '\n' then " " + NormalizedFrom(s, i + 1)
    else [s[i]] + NormalizedFrom(s, i + 1)
  }

  function Normalized(s: string): (r: string)
    ensures |r| <= |s|
  {
    NormalizedFrom(s, 0)
  }

  /** The characters of `s` that are not blank, in order. */
  function Kept(s: string): (r: string)
    ensures |r| <= |s|
    decreases |s|
  {
    if s == [] then "" else (if Blank(s[0]) then "" else [s[0]]) + Kept(s[1..])
  }

  predicate SpacePair(s: string, k: int)
    requires 0 <= k < |s| - 1
  {
    s[k] == ' ' && s[k + 1] == ' '
  }

  /** No two spaces in a row. */
  predicate SingleSpaced(s: string) {
    forall k :: 0 <= k < |s| - 1 ==> !SpacePair(s, k)
  }

  /** No new line, and the only space character is the plain space. */
  predicate OnlyPlainSpaces(s: string) {
    forall k :: 0 <= k < |s| ==> s[k] != '\n' && (IsSpaceChar(s[k]) ==> s[k] == ' ')
  }

  lemma KeptCons(s: string, i: nat)
    requires i < |s|
    ensures Kept(s[i..]) == (if Blank(s[i]) then "" else [s[i]]) + Kept(s[i + 1..])
  {
    assert s[i..][1..] == s[i + 1..];
  }

  lemma {:induction false} KeptSkip(s: string, k: nat)
    requires k <= |s|
    ensures Kept(s[k..]) == Kept(s[SkipSpaces(s, k)..])
    decreases |s| - k
  {
    if k < |s| && IsSpaceChar(s[k]) {
      KeptCons(s, k);
      KeptSkip(s, k + 1);
    }
  }

  /** Only blank characters are changed: the others come out in order,
      and no new line nor any space character other than ' ' is left. */
  lemma {:induction false} NormalizedKeeps(s: string, i: nat)
    requires i <= |s|
    ensures Kept(NormalizedFrom(s, i)) == Kept(s[i..])
    ensures OnlyPlainSpaces(NormalizedFrom(s, i))
    decreases |s| - i
  {
    if i < |s| {
      var r := NormalizedFrom(s, i);
      KeptCons(s, i);
      if IsSpaceChar(s[i]) {
        var k := SkipSpaces(s, i + 1);
        NormalizedKeeps(s, k);
        KeptSkip(s, i + 1);
        assert r == " " + NormalizedFrom(s, k);
        assert r[1..] == NormalizedFrom(s, k);
      } else if s[i] == '\n' {
        NormalizedKeeps(s, i + 1);
        assert r[1..] == NormalizedFrom(s, i + 1);
      } else {
        NormalizedKeeps(s, i + 1);
        assert r[1..] == NormalizedFrom(s, i + 1);
      }
    }
  }

  /** The result starts with a space only where the input starts with a
      blank character. */
  lemma NormalizedStart(s: string, i: nat)
    requires i <= |s|
    ensures |NormalizedFrom(s, i)| > 0 && NormalizedFrom(s, i)[0] == ' ' ==> i < |s| && Blank(s[i])
  {
  }

  /** Text without new lines comes out with no two spaces in a row: every
      run of space characters is one space. */
  lemma {:induction false} NormalizedSingleSpaced(s: string, i: nat)
    requires i <= |s|
    requires forall j :: i <= j < |s| ==> s[j] != '\n'
    ensures SingleSpaced(NormalizedFrom(s, i))
    decreases |s| - i
  {
    if i < |s| {
      var r := NormalizedFrom(s, i);
      var k := if IsSpaceChar(s[i]) then SkipSpaces(s, i + 1) else i + 1;
      var rest := NormalizedFrom(s, k);
      NormalizedSingleSpaced(s, k);
      NormalizedStart(s, k);
      assert r == [r[0]] + rest;
      forall j | 0 <= j < |r| - 1 ensures !SpacePair(r, j) {
        if j > 0 {
          assert r[j] == rest[j - 1] && r[j + 1] == rest[j];
          assert !SpacePair(rest, j - 1);
        }
      }
    }
  }

  /** Text holding no blank character is left as it is. */
  lemma {:induction false} NormalizedIdentity(s: string, i: nat)
    requires i <= |s|
    requires forall j :: i <= j < |s| ==> !Blank(s[j])
    ensures NormalizedFrom(s, i) == s[i..]
    decreases |s| - i
  {
    if i < |s| {
      NormalizedIdentity(s, i + 1);
      assert s[i..] == [s[i]] + s[i + 1..];
    }
  }

  /** `normalize`: the loop advances `i` by hand over a run of space
      characters. */
  method Normalize(s: string) returns (rs: string)
    ensures rs == Normalized(s)
  {
    rs := "";
    var i := 0;
    while i < |s|
      invariant 0 <= i <= |s|
      invariant rs + NormalizedFrom(s, i) == Normalized(s)
    {
      ghost var before := rs;
      var ch := s[i];
      if !IsSpaceChar(ch) {
        if ch != '\n' {
          rs := rs + [ch];
          Advance(before, [ch], s, i, i + 1);
        } else {
          rs := rs + " ";
          Advance(before, " ", s, i, i + 1);
        }
        i := i + 1;
      } else {
        rs := rs + " ";
        var j := SkipRun(s, i);
        Advance(before, " ", s, i, j);
        i := j;
      }
    }
  }

  /** The inner loop of `normalize`: `i` moves over the rest of a run of
      space characters, then one step past it. */
  method SkipRun(s: string, i0: nat) returns (i: nat)
    requires i0 < |s| && IsSpaceChar(s[i0])
    ensures i == SkipSpaces(s, i0 + 1)
  {
    i := i0;
    while i < |s| - 1 && IsSpaceChar(s[i + 1])
      invariant i0 <= i < |s| && SkipSpaces(s, i + 1) == SkipSpaces(s, i0 + 1)
    {
      i := i + 1;
    }
    i := i + 1;
  }

  /** Emitting the output of one step keeps the loop's invariant. */
  lemma Advance(rs: string, x: string, s: string, i: nat, j: nat)
    requires i <= j <= |s| && NormalizedFrom(s, i) == x + NormalizedFrom(s, j)
    ensures (rs + x) + NormalizedFrom(s, j) == rs + NormalizedFrom(s, i)
  {
  }

  // ---- replaceToken ----

  /** Occurrences in a suffix are occurrences in the whole string, shifted. */
  lemma OccursInSuffix(s: string, t: string, p: nat, k: int)
    requires p <= |s| && 0 <= k
    ensures OccursAt(s[p..], t, k) <==> OccursAt(s, t, k + p)
  {
    if k + |t| <= |s| - p {
      assert s[p..][k..k + |t|] == s[k + p..k + p + |t|];
    }
  }

  lemma ReplaceHere(x: string, t: string, r: string)
    requires |t| > 0 && OccursAt(x, t, 0)
    ensures Replace(x, t, r) == r + Replace(x[|t|..], t, r)
  {
  }

  lemma ReplaceSkip(x: string, t: string, r: string)
    requires |t| > 0 && |x| >= |t| && !OccursAt(x, t, 0)
    ensures Replace(x, t, r) == [x[0]] + Replace(x[1..], t, r)
  {
  }

  /** Cutting at the first occurrence. */
  lemma {:induction false} ReplaceAtFirst(x: string, t: string, r: string, j: nat)
    requires |t| > 0 && OccursAt(x, t, j)
    requires forall k :: 0 <= k < j ==> !OccursAt(x, t, k)
    ensures Replace(x, t, r) == x[..j] + r + Replace(x[j + |t|..], t, r)
    decreases j
  {
    if j == 0 {
      ReplaceHere(x, t, r);
    } else {
      var y := x[1..];
      assert !OccursAt(x, t, 0);
      ReplaceSkip(x, t, r);
      assert Replace(y, t, r) == y[..j - 1] + r + Replace(y[j - 1 + |t|..], t, r) by {
        FirstInTail(x, t, j);
        ReplaceAtFirst(y, t, r, j - 1);
      }
      SkipJoin(x, j, |t|, r, Replace(x, t, r), Replace(y, t, r), Replace(y[j - 1 + |t|..], t, r));
    }
  }

  /** The replaced text `a` of `x` is its first character and the replaced
      text `b` of the rest, cut at the occurrence `j - 1` of the rest. */
  lemma SkipJoin(x: string, j: nat, n: nat, r: string, a: string, b: string, c: string)
    requires 0 < j && j + n <= |x|
    requires a == [x[0]] + b && b == x[1..][..j - 1] + r + c
    ensures x[1..][j - 1 + n..] == x[j + n..]
    ensures a == x[..j] + r + c
  {
    assert x[..j] == [x[0]] + x[1..][..j - 1];
  }

  lemma FirstInTail(x: string, t: string, j: nat)
    requires 0 < j && OccursAt(x, t, j)
    requires forall k :: 0 <= k < j ==> !OccursAt(x, t, k)
    ensures OccursAt(x[1..], t, j - 1)
    ensures forall k :: 0 <= k < j - 1 ==> !OccursAt(x[1..], t, k)
  {
    forall k | 0 <= k < j - 1 ensures !OccursAt(x[1..], t, k) {
      OccursInSuffix(x, t, 1, k);
    }
    OccursInSuffix(x, t, 1, j - 1);
  }

  /** One round of the `replaceToken` loop keeps what is done followed by
      what is left to replace. */
  lemma ReplaceRound(res: string, t: string, n: string, pos: nat, index: nat)
    requires |t| > 0 && pos <= index && OccursAt(res, t, index)
    requires forall k :: pos <= k < index ==> !OccursAt(res, t, k)
    ensures var next := res[..index] + n + res[index + |t|..];
            index + |n| <= |next| &&
            next[..index + |n|] + Replace(next[index + |n|..], t, n) == res[..pos] + Replace(res[pos..], t, n)
  {
    var tail := res[pos..];
    var j := index - pos;
    FirstFrom(res, t, pos, index);
    ReplaceAtFirst(tail, t, n, j);
    Slices(res, pos, index, |t|);
    var rest := Replace(res[index + |t|..], t, n);
    Splice(res, n, pos, index, |t|, rest);
    var next := res[..index] + n + res[index + |t|..];
    assert Replace(tail, t, n) == res[pos..index] + n + rest;
    assert next[..index + |n|] + Replace(next[index + |n|..], t, n) == res[..index] + n + rest;
    assert res[..pos] + Replace(tail, t, n) == res[..pos] + (res[pos..index] + n + rest);
  }

  lemma Slices(res: string, pos: nat, index: nat, m: nat)
    requires pos <= index && index + m <= |res|
    ensures res[pos..][..index - pos] == res[pos..index]
    ensures res[pos..][index - pos + m..] == res[index + m..]
  {
  }

  lemma Splice(res: string, n: string, pos: nat, index: nat, m: nat, rest: string)
    requires pos <= index && index + m <= |res|
    ensures var next := res[..index] + n + res[index + m..];
            next[..index + |n|] == res[..index] + n && next[index + |n|..] == res[index + m..] &&
            res[..index] + n + rest == res[..pos] + (res[pos..index] + n + rest)
  {
    assert res[..index] == res[..pos] + res[pos..index];
  }

  lemma FirstFrom(res: string, t: string, pos: nat, index: nat)
    requires pos <= index && OccursAt(res, t, index)
    requires forall k :: pos <= k < index ==> !OccursAt(res, t, k)
    ensures OccursAt(res[pos..], t, index - pos)
    ensures forall k :: 0 <= k < index - pos ==> !OccursAt(res[pos..], t, k)
  {
    forall k | 0 <= k < index - pos ensures !OccursAt(res[pos..], t, k) {
      OccursInSuffix(res, t, pos, k);
    }
    OccursInSuffix(res, t, pos, index - pos);
  }

  /** When the search from `pos` fails, the rest is left as it is. */
  lemma ReplaceFinished(res: string, t: string, n: string, pos: nat)
    requires |t| > 0 && pos <= |res| && IndexOfFrom(res, t, pos) == -1
    ensures res[..pos] + Replace(res[pos..], t, n) == res
  {
    forall k ensures !OccursAt(res[pos..], t, k) {
      if 0 <= k {
        OccursInSuffix(res, t, pos, k);
      }
    }
    ReplaceWithoutOccurrence(res[pos..], t, n);
    assert res[..pos] + res[pos..] == res;
  }

  /** `replaceToken`: each occurrence, found left to right, is replaced and
      the search goes on after the inserted text. */
  method ReplaceToken(s: string, token: string, newText: string) returns (result: string)
    requires |token| > 0
    ensures result == Replace(s, token, newText)
    ensures IndexOf(s, token) == -1 ==> result == s
  {
    result := s;
    var index := IndexOf(result, token);
    var pos: nat := 0;
    assert result[..0] + result[0..] == result;
    while index != -1
      invariant pos <= |result|
      invariant result[..pos] + Replace(result[pos..], token, newText) == Replace(s, token, newText)
      invariant index == IndexOfFrom(result, token, pos)
      decreases |result| - pos
    {
      ReplaceRound(result, token, newText, pos, index);
      result := result[..index] + newText + result[index + |token|..];
      pos := index + |newText|;
      index := IndexOfFrom(result, token, pos);
    }
    ReplaceFinished(result, token, newText, pos);
    if IndexOf(s, token) == -1 {
      IndexOfMissing(s, token);
      ReplaceWithoutOccurrence(s, token, newText);
    }
  }
}

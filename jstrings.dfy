/** The parts of java.lang.String and java.lang.Character that the modelled
    code relies on, stated over Dafny strings.  Index results use Java's
    convention: -1 means "not found". */
module JavaStrings {
  import opened Wrappers

  /** `t` occurs in `s` starting at index `k`. */
  predicate OccursAt(s: string, t: string, k: int) {
    0 <= k && k + |t| <= |s| && s[k..k + |t|] == t
  }

  /** `s.indexOf(t, from)` for a non-negative `from`. */
  function IndexOfFrom(s: string, t: string, from: nat): (r: int)
    ensures r == -1 || (from <= r && OccursAt(s, t, r))
    ensures r >= 0 ==> forall k :: from <= k < r ==> !OccursAt(s, t, k)
    ensures r == -1 ==> forall k :: from <= k ==> !OccursAt(s, t, k)
    decreases |s| - from
  {
    if from + |t| > |s| then -1
    else if s[from..from + |t|] == t then from
    else IndexOfFrom(s, t, from + 1)
  }

  /** `s.indexOf(t)`. */
  function IndexOf(s: string, t: string): int {
    IndexOfFrom(s, t, 0)
  }

  /** `s.contains(t)`. */
  predicate Contains(s: string, t: string) {
    IndexOf(s, t) != -1
  }

  /** `s.lastIndexOf(c)`. */
  function LastIndexOf(s: string, c: char): (r: int)
    ensures -1 <= r < |s|
    ensures r >= 0 ==> s[r] == c && forall k :: r < k < |s| ==> s[k] != c
    ensures r == -1 ==> c !in s
  {
    if |s| == 0 then -1
    else if s[|s| - 1] == c then |s| - 1
    else LastIndexOf(s[..|s| - 1], c)
  }

  predicate StartsWith(s: string, p: string) {
    |p| <= |s| && s[..|p|] == p
  }

  predicate EndsWith(s: string, p: string) {
    |p| <= |s| && s[|s| - |p|..] == p
  }

  /** `s.replace(t, r)`: every occurrence of `t`, scanned left to right
      without overlap, is replaced by `r`. */
  function Replace(s: string, t: string, r: string): string
    requires |t| > 0
    decreases |s|
  {
    if |s| < |t| then s
    else if s[..|t|] == t then r + Replace(s[|t|..], t, r)
    else [s[0]] + Replace(s[1..], t, r)
  }

  /** `Character.isWhitespace(c)`: the separators of categories Zs, Zl, Zp
      other than the no-break spaces, and the ASCII controls 9-13 and 28-31. */
  predicate IsWhitespace(c: char) {
    || ('\t' <= c <= '\r')
    || ('\U{001C}' <= c <= '\U{001F}')
    || c == ' ' || c == '\U{1680}'
    || ('\U{2000}' <= c <= '\U{2006}') || ('\U{2008}' <= c <= '\U{200A}')
    || c == '\U{2028}' || c == '\U{2029}' || c == '\U{205F}' || c == '\U{3000}'
  }

  /** `Character.isSpaceChar(c)`: the characters of categories Zs, Zl, Zp. */
  predicate IsSpaceChar(c: char) {
    || c == ' ' || c == '\U{00A0}' || c == '\U{1680}'
    || ('\U{2000}' <= c <= '\U{200A}')
    || c == '\U{2028}' || c == '\U{2029}' || c == '\U{202F}' || c == '\U{205F}' || c == '\U{3000}'
  }

  function StripLeading(s: string): (r: string)
    ensures |r| <= |s| && r == s[|s| - |r|..]
    ensures |r| > 0 ==> !IsWhitespace(r[0])
  {
    if |s| > 0 && IsWhitespace(s[0]) then StripLeading(s[1..]) else s
  }

  function StripTrailing(s: string): (r: string)
    ensures |r| <= |s| && r == s[..|r|]
    ensures |r| > 0 ==> !IsWhitespace(r[|r| - 1])
  {
    if |s| > 0 && IsWhitespace(s[|s| - 1]) then StripTrailing(s[..|s| - 1]) else s
  }

  /** `s.isBlank()`: empty or only `Character.isWhitespace` characters. */
  predicate IsBlank(s: string) {
    forall i :: 0 <= i < |s| ==> IsWhitespace(s[i])
  }

  /** `s.strip()`: leading and trailing `Character.isWhitespace` removed. */
  function Strip(s: string): string {
    StripTrailing(StripLeading(s))
  }

  function TrimLeading(s: string): (r: string)
    ensures |r| <= |s| && r == s[|s| - |r|..]
  {
    if |s| > 0 && s[0] <= ' ' then TrimLeading(s[1..]) else s
  }

  function TrimTrailing(s: string): (r: string)
    ensures |r| <= |s| && r == s[..|r|]
  {
    if |s| > 0 && s[|s| - 1] <= ' ' then TrimTrailing(s[..|s| - 1]) else s
  }

  /** `s.trim()`: leading and trailing characters up to U+0020 removed. */
  function Trim(s: string): string {
    TrimTrailing(TrimLeading(s))
  }

  /** `s.substring(b, e)`, which throws unless 0 <= b <= e <= length. */
  function Substring(s: string, b: int, e: int): (r: Result<string>)
    ensures r.Ok? <==> 0 <= b <= e <= |s|
    ensures r.Ok? ==> r.value == s[b..e]
    ensures r.Err? ==> r.error == IndexOutOfBounds
  {
    if 0 <= b <= e <= |s| then Ok(s[b..e]) else Err(IndexOutOfBounds)
  }

  /** `s.substring(b)`. */
  function SubstringFrom(s: string, b: int): (r: Result<string>)
    ensures r.Ok? <==> 0 <= b <= |s|
    ensures r.Ok? ==> r.value == s[b..]
  {
    Substring(s, b, |s|)
  }

  /** `s.charAt(i)`, which throws outside 0 <= i < length. */
  function CharAt(s: string, i: int): (r: Result<char>)
    ensures r.Ok? <==> 0 <= i < |s|
    ensures r.Ok? ==> r.value == s[i]
  {
    if 0 <= i < |s| then Ok(s[i]) else Err(IndexOutOfBounds)
  }

  // ---- facts about the string operations ----

  lemma {:induction false} ReplaceWithoutOccurrence(s: string, t: string, r: string)
    requires |t| > 0
    requires forall k :: !OccursAt(s, t, k)
    ensures Replace(s, t, r) == s
    decreases |s|
  {
    if |s| >= |t| {
      assert !OccursAt(s, t, 0);
      forall k ensures !OccursAt(s[1..], t, k) {
        if OccursAt(s[1..], t, k) {
          assert s[1..][k..k + |t|] == s[k + 1..k + 1 + |t|];
          assert OccursAt(s, t, k + 1);
        }
      }
      ReplaceWithoutOccurrence(s[1..], t, r);
      assert [s[0]] + s[1..] == s;
    }
  }

  lemma IndexOfMissing(s: string, t: string)
    requires IndexOf(s, t) == -1
    ensures forall k :: !OccursAt(s, t, k)
  {
    assert forall k :: OccursAt(s, t, k) ==> 0 <= k;
  }

  /** A single character occurs exactly where it is. */
  lemma OccursAtChar(s: string, c: char, k: int)
    ensures OccursAt(s, [c], k) <==> 0 <= k < |s| && s[k] == c
  {
    if 0 <= k < |s| {
      assert s[k..k + 1] == [s[k]];
    }
  }

  /** Replacing a one-character target never re-creates it, and characters
      other than the target pass through or come from the replacement. */
  lemma {:induction false} ReplaceCharCharacters(s: string, c: char, r: string)
    ensures forall x :: x in Replace(s, [c], r) ==> (x in s && x != c) || x in r
    decreases |s|
  {
    if |s| >= 1 {
      ReplaceCharCharacters(s[1..], c, r);
    }
  }

  /** Stripping a string that neither starts nor ends with white space,
      with or without one leading space, gives the string itself. */
  lemma {:induction false} StripSpaced(x: string)
    requires |x| > 0 && !IsWhitespace(x[0]) && !IsWhitespace(x[|x| - 1])
    ensures Strip(x) == x
    ensures Strip(" " + x) == x
  {
    assert (" " + x)[1..] == x;
  }

  /** A string of `Character.isWhitespace` characters strips to nothing. */
  lemma {:induction false} StripBlank(s: string)
    requires IsBlank(s)
    ensures Strip(s) == ""
    decreases |s|
  {
    if |s| > 0 {
      StripBlank(s[1..]);
    }
  }

  /** `t` does not occur in `[q] + v + [q]` when it occurs neither in `v` nor
      starts or ends with `q`. */
  lemma {:induction false} NotInWrapped(v: string, q: char, t: string)
    requires |t| > 0 && t[0] != q && t[|t| - 1] != q
    requires forall k :: !OccursAt(v, t, k)
    ensures forall k :: !OccursAt([q] + v + [q], t, k)
  {
    var w := [q] + v + [q];
    forall k ensures !OccursAt(w, t, k) {
      if 0 <= k && k + |t| <= |w| {
        if k == 0 {
          assert w[k..k + |t|][0] == q;
        } else if k + |t| == |w| {
          assert w[k..k + |t|][|t| - 1] == q;
        } else {
          assert w[k..k + |t|] == v[k - 1..k - 1 + |t|];
          assert !OccursAt(v, t, k - 1);
        }
      }
    }
  }

  /** `indexOf` of a one-character string finds the character iff it occurs. */
  lemma IndexOfChar(s: string, c: char)
    ensures IndexOf(s, [c]) == -1 <==> c !in s
  {
    if c in s {
      var k :| 0 <= k < |s| && s[k] == c;
      OccursAtChar(s, c, k);
    } else {
      forall k ensures !OccursAt(s, [c], k) {
        OccursAtChar(s, c, k);
      }
    }
  }

  /** `indexOf(c)` finds the first occurrence of the character. */
  lemma IndexOfCharAt(s: string, c: char, k: nat)
    requires k < |s| && s[k] == c
    requires forall j :: 0 <= j < k ==> s[j] != c
    ensures IndexOf(s, [c]) == k
  {
    IndexOfFromCharAt(s, c, 0, k);
  }

  lemma {:induction false} IndexOfFromCharAt(s: string, c: char, from: nat, k: nat)
    requires from <= k < |s| && s[k] == c
    requires forall j :: from <= j < k ==> s[j] != c
    ensures IndexOfFrom(s, [c], from) == k
    decreases k - from
  {
    OccursAtChar(s, c, from);
    if from < k {
      IndexOfFromCharAt(s, c, from + 1, k);
    }
  }

  lemma {:induction false} IndexOfFromCharNone(s: string, c: char, from: nat)
    requires forall j :: from <= j < |s| ==> s[j] != c
    ensures IndexOfFrom(s, [c], from) == -1
    decreases |s| - from
  {
    OccursAtChar(s, c, from);
    if from < |s| {
      IndexOfFromCharNone(s, c, from + 1);
    }
  }

  /** No occurrence of `t` spans the seam of `a + b` when a character next
      to the seam is not a character of `t`. */
  lemma NoOccurrenceConcat(a: string, b: string, t: string)
    requires |t| > 0
    requires forall k :: !OccursAt(a, t, k)
    requires forall k :: !OccursAt(b, t, k)
    requires (|a| > 0 && a[|a| - 1] !in t) || (|b| > 0 && b[0] !in t) || a == [] || b == []
    ensures forall k :: !OccursAt(a + b, t, k)
  {
    var w := a + b;
    forall k ensures !OccursAt(w, t, k) {
      if 0 <= k && k + |t| <= |w| {
        if k + |t| <= |a| {
          assert w[k..k + |t|] == a[k..k + |t|];
          assert !OccursAt(a, t, k);
        } else if k >= |a| {
          assert w[k..k + |t|] == b[k - |a|..k - |a| + |t|];
          assert !OccursAt(b, t, k - |a|);
        } else if |a| > 0 && a[|a| - 1] !in t {
          assert w[k..k + |t|][|a| - 1 - k] == a[|a| - 1];
        } else {
          assert w[k..k + |t|][|a| - k] == b[0];
        }
      }
    }
  }

  /** A string shorter than `t` contains no occurrence of it. */
  lemma NoOccurrenceShort(s: string, t: string)
    requires |s| < |t|
    ensures forall k :: !OccursAt(s, t, k)
  {
  }

  /** `trim` removes a prefix of characters up to U+0020 and stops at the
      first character above it. */
  lemma {:induction false} TrimLeadingSkips(w: string, x: string)
    requires forall k :: 0 <= k < |w| ==> w[k] <= ' '
    requires |x| > 0 && x[0] > ' '
    ensures TrimLeading(w + x) == x
    decreases |w|
  {
    if |w| > 0 {
      assert (w + x)[1..] == w[1..] + x;
      TrimLeadingSkips(w[1..], x);
    } else {
      assert w + x == x;
    }
  }

  lemma {:induction false} TrimTrailingSkips(x: string, w: string)
    requires forall k :: 0 <= k < |w| ==> w[k] <= ' '
    requires |x| > 0 && x[|x| - 1] > ' '
    ensures TrimTrailing(x + w) == x
    decreases |w|
  {
    if |w| > 0 {
      assert (x + w)[..|x + w| - 1] == x + w[..|w| - 1];
      TrimTrailingSkips(x, w[..|w| - 1]);
    } else {
      assert x + w == x;
    }
  }

  /** Trimming a text whose first and last characters lie above U+0020
      changes nothing. */
  lemma TrimNothing(s: string)
    requires |s| > 0 && s[0] > ' ' && s[|s| - 1] > ' '
    ensures Trim(s) == s
  {
  }

  lemma {:induction false} TrimLeadingStart(s: string)
    ensures TrimLeading(s) == "" || TrimLeading(s)[0] > ' '
    decreases |s|
  {
    if |s| > 0 && s[0] <= ' ' {
      TrimLeadingStart(s[1..]);
    }
  }

  lemma {:induction false} TrimTrailingPrefix(s: string)
    ensures |TrimTrailing(s)| <= |s| && TrimTrailing(s) == s[..|TrimTrailing(s)|]
    ensures TrimTrailing(s) == "" || TrimTrailing(s)[|TrimTrailing(s)| - 1] > ' '
    decreases |s|
  {
    if |s| > 0 && s[|s| - 1] <= ' ' {
      TrimTrailingPrefix(s[..|s| - 1]);
      assert s[..|s| - 1][..|TrimTrailing(s)|] == s[..|TrimTrailing(s)|];
    }
  }

}

/**
 * The handful of Python `str` operations the bot relies on, over `seq<char>`:
 * substring test (`pat in s`), `s.split(sep, 1)`, `s.replace(pat, "")`,
 * `s.strip()` and `s.lower()`.
 */
module PyStr {
  import opened Wrappers

  /** `pat` occurs in `s` starting at index `i`. */
  predicate StartsAt(s: string, pat: string, i: nat)
  {
    i + |pat| <= |s| && forall j :: 0 <= j < |pat| ==> s[i + j] == pat[j]
  }

  /** `pat in s`, stated as the existence of a position. */
  ghost predicate Occurs(s: string, pat: string)
  {
    exists i: nat :: StartsAt(s, pat, i)
  }

  /** `k` is the leftmost position at which `pat` occurs in `s`. */
  ghost predicate IsFirst(s: string, pat: string, k: nat)
  {
    StartsAt(s, pat, k) && forall j: nat :: j < k ==> !StartsAt(s, pat, j)
  }

  /** Leftmost occurrence of `pat` in `s` at or after `from`. */
  function FindFrom(s: string, pat: string, from: nat): (r: Option<nat>)
    ensures r.Some? ==> from <= r.value && StartsAt(s, pat, r.value)
    ensures r.Some? ==> forall j: nat :: from <= j < r.value ==> !StartsAt(s, pat, j)
    ensures r.None? ==> forall j: nat :: from <= j ==> !StartsAt(s, pat, j)
    decreases |s| - from
  {
    if from + |pat| > |s| then None
    else if StartsAt(s, pat, from) then Some(from)
    else FindFrom(s, pat, from + 1)
  }

  /** `s.find(pat)`, with `None` for Python's `-1`. */
  function Find(s: string, pat: string): (r: Option<nat>)
    ensures r.Some? <==> Occurs(s, pat)
    ensures r.Some? ==> IsFirst(s, pat, r.value)
  {
    FindFrom(s, pat, 0)
  }

  /** Python's `pat in s`. */
  function Contains(s: string, pat: string): (b: bool)
    ensures b <==> Occurs(s, pat)
  {
    Find(s, pat).Some?
  }

  /**
   * `s.split(sep, 1)`: one part when `sep` does not occur, otherwise the text
   * before and after its leftmost occurrence. Python rejects an empty separator.
   */
  function Split1(s: string, sep: string): (parts: seq<string>)
    requires |sep| > 0
    ensures |parts| == 1 || |parts| == 2
    ensures |parts| == 1 <==> !Occurs(s, sep)
    ensures |parts| == 1 ==> parts[0] == s
    ensures |parts| == 2 ==> s == parts[0] + sep + parts[1] && IsFirst(s, sep, |parts[0]|)
  {
    match Find(s, sep)
    case None => [s]
    case Some(k) => [s[..k], s[k + |sep|..]]
  }

  /**
   * `s.replace(pat, "")`: occurrences are removed left to right without
   * overlapping, exactly as CPython scans. An empty `pat` leaves `s` unchanged.
   */
  function RemoveAll(s: string, pat: string): (r: string)
    ensures |r| <= |s|
    decreases |s|
  {
    if |pat| == 0 || |s| < |pat| then s
    else if s[..|pat|] == pat then RemoveAll(s[|pat|..], pat)
    else [s[0]] + RemoveAll(s[1..], pat)
  }

  /** `c.isspace()` in Python: the ASCII controls 9-13 and 28-31, space, and the Unicode spaces. */
  predicate IsSpace(c: char)
  {
    || c == ' '
    || '\t' <= c <= '\r'
    || '\U{1C}' <= c <= '\U{1F}'
    || c == '\U{85}' || c == '\U{A0}' || c == '\U{1680}'
    || '\U{2000}' <= c <= '\U{200A}'
    || c == '\U{2028}' || c == '\U{2029}' || c == '\U{202F}' || c == '\U{205F}' || c == '\U{3000}'
  }

  /** The end of the run of whitespace that starts at `i`. */
  function SkipSpace(s: string, i: nat): (j: nat)
    requires i <= |s|
    ensures i <= j <= |s|
    ensures forall k :: i <= k < j ==> IsSpace(s[k])
    ensures j < |s| ==> !IsSpace(s[j])
    decreases |s| - i
  {
    if i < |s| && IsSpace(s[i]) then SkipSpace(s, i + 1) else i
  }

  /** The start of the run of whitespace that ends at `j`, not going below `lo`. */
  function SkipSpaceBack(s: string, lo: nat, j: nat): (i: nat)
    requires lo <= j <= |s|
    ensures lo <= i <= j
    ensures forall k :: i <= k < j ==> IsSpace(s[k])
    ensures i > lo ==> !IsSpace(s[i - 1])
    decreases j - lo
  {
    if j > lo && IsSpace(s[j - 1]) then SkipSpaceBack(s, lo, j - 1) else j
  }

  /**
   * `s.strip()`: `s` without its leading and trailing whitespace. The result is
   * the slice `s[i..i + |r|]` with only whitespace outside it.
   */
  function Strip(s: string): (r: string)
    ensures |r| <= |s|
    ensures |r| > 0 ==> !IsSpace(r[0]) && !IsSpace(r[|r| - 1])
    ensures exists i: nat :: Trims(s, r, i)
  {
    var a := SkipSpace(s, 0);
    var b := SkipSpaceBack(s, a, |s|);
    assert Trims(s, s[a..b], a);
    s[a..b]
  }

  /** `r` is the slice of `s` starting at `i`, and everything outside it is whitespace. */
  ghost predicate Trims(s: string, r: string, i: nat)
  {
    && i + |r| <= |s|
    && r == s[i..i + |r|]
    && (forall k :: 0 <= k < i ==> IsSpace(s[k]))
    && (forall k :: i + |r| <= k < |s| ==> IsSpace(s[k]))
  }

  /** One character of `s.lower()`; see `Lower`. */
  function LowerChar(c: char): char
  {
    if 'A' <= c <= 'Z' then (c as int + 32) as char
    else if c == '\U{212A}' then 'k'   // KELVIN SIGN lowers to an ASCII letter
    else c
  }

  /**
   * `s.lower()` as far as the classifier's ASCII keyword tests can observe it:
   * ASCII capitals and the Kelvin sign become ASCII lower case letters; every
   * other character is kept.
   */
  function Lower(s: string): (r: string)
    ensures |r| == |s|
  {
    seq(|s|, i requires 0 <= i < |s| => LowerChar(s[i]))
  }

  /** All characters of `w` are lower case ASCII letters (every keyword is). */
  predicate LowerWord(w: string)
  {
    forall i :: 0 <= i < |w| ==> 'a' <= w[i] <= 'z'
  }

  // ---------------------------------------------------------------- lemmas

  /** The leftmost occurrence is unique. */
  lemma FirstUnique(s: string, pat: string, k1: nat, k2: nat)
    requires IsFirst(s, pat, k1) && IsFirst(s, pat, k2)
    ensures k1 == k2
  {
  }

  /** `s.split(sep, 1)` cuts exactly at the leftmost occurrence of `sep`. */
  lemma SplitAtFirst(s: string, sep: string, k: nat)
    requires |sep| > 0 && IsFirst(s, sep, k)
    ensures Split1(s, sep) == [s[..k], s[k + |sep|..]]
  {
    var parts := Split1(s, sep);
    assert Occurs(s, sep);
    FirstUnique(s, sep, k, |parts[0]|);
    assert s[..k] == parts[0];
    assert s[k + |sep|..] == parts[1];
  }

  /** A keyword present in the original text is present in its lowered form. */
  lemma OccursInLower(s: string, w: string)
    requires LowerWord(w) && Occurs(s, w)
    ensures Occurs(Lower(s), w)
  {
    var i: nat :| StartsAt(s, w, i);
    var low := Lower(s);
    forall k | 0 <= k < |w|
      ensures low[i + k] == w[k]
    {
      assert s[i + k] == s[i..i + |w|][k];
    }
    assert low[i..i + |w|] == w;
    assert StartsAt(low, w, i);
  }

  /** An occurrence inside a slice of `s` is an occurrence in `s`. */
  lemma OccursInSlice(s: string, pat: string, i: nat, j: nat)
    requires i <= j <= |s| && Occurs(s[i..j], pat)
    ensures Occurs(s, pat)
  {
    var k: nat :| StartsAt(s[i..j], pat, k);
    forall m | 0 <= m < |pat|
      ensures s[i + k + m] == pat[m]
    {
      assert s[i..j][k..k + |pat|][m] == pat[m];
    }
    assert s[i + k..i + k + |pat|] == pat;
    assert StartsAt(s, pat, i + k);
  }

  /** A text that lacks a slice of `pat` lacks `pat` itself. */
  lemma AbsentPart(s: string, pat: string, a: nat, b: nat)
    requires a <= b <= |pat| && !Occurs(s, pat[a..b])
    ensures !Occurs(s, pat)
  {
    if Occurs(s, pat) {
      OccursOfPart(s, pat, a, b);
    }
  }

  /** An occurrence of a longer pattern contains an occurrence of each of its slices. */
  lemma OccursOfPart(s: string, pat: string, a: nat, b: nat)
    requires a <= b <= |pat| && Occurs(s, pat)
    ensures Occurs(s, pat[a..b])
  {
    var k: nat :| StartsAt(s, pat, k);
    forall m | 0 <= m < b - a
      ensures s[k + a + m] == pat[a..b][m]
    {
      assert s[k..k + |pat|][a + m] == pat[a + m];
    }
    assert s[k + a..k + b] == pat[a..b];
    assert StartsAt(s, pat[a..b], k + a);
  }

  /** Removing a pattern that does not occur changes nothing. */
  lemma {:induction false} RemoveAllAbsent(s: string, pat: string)
    requires !Occurs(s, pat)
    ensures RemoveAll(s, pat) == s
    decreases |s|
  {
    if |pat| == 0 || |s| < |pat| {
    } else {
      assert !StartsAt(s, pat, 0);
      assert s[..|pat|] != pat;
      if Occurs(s[1..], pat) {
        assert s[1..|s|] == s[1..];
        OccursInSlice(s, pat, 1, |s|);
      }
      RemoveAllAbsent(s[1..], pat);
      assert s == [s[0]] + s[1..];
    }
  }

  /** A leading occurrence is removed and scanning continues after it. */
  lemma RemoveAllLeading(s: string, pat: string)
    requires |pat| > 0 && StartsAt(s, pat, 0)
    ensures RemoveAll(s, pat) == RemoveAll(s[|pat|..], pat)
  {
  }

  /** Without an occurrence at position 0, `replace` keeps the first character and scans on. */
  lemma RemoveAllSkip(s: string, pat: string)
    requires |pat| > 0 && |pat| <= |s| && !StartsAt(s, pat, 0)
    ensures RemoveAll(s, pat) == [s[0]] + RemoveAll(s[1..], pat)
  {
    var j :| 0 <= j < |pat| && s[j] != pat[j];
    assert s[..|pat|][j] != pat[j];
  }

  /** An occurrence in `s[1..]` at `i` is an occurrence in `s` at `i + 1`, and back. */
  lemma StartsAtShift(s: string, pat: string, i: nat)
    requires |s| > 0
    ensures StartsAt(s[1..], pat, i) <==> StartsAt(s, pat, i + 1)
  {
    if StartsAt(s, pat, i + 1) {
      forall j | 0 <= j < |pat|
        ensures s[1..][i + j] == pat[j]
      {
        assert s[1..][i + j] == s[i + 1 + j];
      }
    }
  }

  /** The leftmost occurrence at `k > 0` in `s` is the leftmost occurrence at `k - 1` in `s[1..]`. */
  lemma IsFirstShift(s: string, pat: string, k: nat)
    requires k > 0 && IsFirst(s, pat, k)
    ensures IsFirst(s[1..], pat, k - 1)
  {
    StartsAtShift(s, pat, k - 1);
    forall j: nat | j < k - 1
      ensures !StartsAt(s[1..], pat, j)
    {
      StartsAtShift(s, pat, j);
    }
  }

  /**
   * `s.replace(pat, "")` keeps the text before the first occurrence, drops the
   * occurrence and continues on the rest: with `RemoveAllAbsent` this makes it
   * `"".join(s.split(pat))`.
   */
  lemma {:induction false} RemoveAllAtFirst(s: string, pat: string, k: nat)
    requires |pat| > 0 && IsFirst(s, pat, k)
    ensures RemoveAll(s, pat) == s[..k] + RemoveAll(s[k + |pat|..], pat)
    decreases k
  {
    if k == 0 {
      RemoveAllLeading(s, pat);
      assert s[..0] == [];
    } else {
      assert !StartsAt(s, pat, 0);
      IsFirstShift(s, pat, k);
      RemoveAllAtFirst(s[1..], pat, k - 1);
      RemoveAllAtFirstStep(s, pat, k);
    }
  }

  /** The step of `RemoveAllAtFirst`: the character before the first occurrence is kept. */
  lemma RemoveAllAtFirstStep(s: string, pat: string, k: nat)
    requires |pat| > 0 && 0 < k && k + |pat| <= |s| && !StartsAt(s, pat, 0)
    requires RemoveAll(s[1..], pat) == s[1..][..k - 1] + RemoveAll(s[1..][k - 1 + |pat|..], pat)
    ensures RemoveAll(s, pat) == s[..k] + RemoveAll(s[k + |pat|..], pat)
  {
    RemoveAllSkip(s, pat);
    DropOfTail(s, k - 1 + |pat|);
    ConsSlice(s, k, RemoveAll(s[k + |pat|..], pat));
  }

  /** Dropping `n` after dropping one is dropping `n + 1`. */
  lemma DropOfTail(s: string, n: nat)
    requires 0 < |s| && n < |s|
    ensures s[1..][n..] == s[n + 1..]
  {
  }

  /** Putting the first character back in front of a slice of the tail gives a prefix. */
  lemma ConsSlice(s: string, k: nat, x: string)
    requires 0 < k <= |s|
    ensures [s[0]] + (s[1..][..k - 1] + x) == s[..k] + x
  {
    assert [s[0]] + s[1..][..k - 1] == s[..k];
  }

  /**
   * A prefix free of the pattern's first character is kept verbatim: no
   * occurrence can start inside it.
   */
  lemma {:induction false} RemoveAllKeepsFreePrefix(a: string, t: string, pat: string)
    requires |pat| > 0
    requires forall i :: 0 <= i < |a| ==> a[i] != pat[0]
    ensures RemoveAll(a + t, pat) == a + RemoveAll(t, pat)
    decreases |a|
  {
    if |a| == 0 {
      assert a + t == t;
    } else if |a + t| < |pat| {
      assert |t| < |pat|;
    } else {
      var s := a + t;
      assert s[..|pat|] != pat by {
        assert s[..|pat|][0] == a[0];
      }
      assert RemoveAll(s, pat) == [a[0]] + RemoveAll(s[1..], pat);
      assert s[1..] == a[1..] + t;
      RemoveAllKeepsFreePrefix(a[1..], t, pat);
      assert a == [a[0]] + a[1..];
    }
  }

  /** `strip()` leaves text without edge whitespace unchanged. */
  lemma StripTrimmed(s: string)
    requires |s| > 0 ==> !IsSpace(s[0]) && !IsSpace(s[|s| - 1])
    ensures Strip(s) == s
  {
  }

  /** `strip()` is idempotent. */
  lemma StripIdempotent(s: string)
    ensures Strip(Strip(s)) == Strip(s)
  {
    StripTrimmed(Strip(s));
  }

  /** `strip()` cannot create an occurrence: the result is a slice of the input. */
  lemma StripKeepsAbsence(s: string, pat: string)
    requires !Occurs(s, pat)
    ensures !Occurs(Strip(s), pat)
  {
    var r := Strip(s);
    var i: nat :| Trims(s, r, i);
    if Occurs(r, pat) {
      OccursInSlice(s, pat, i, i + |r|);
    }
  }

  /** A text in which no two adjacent characters begin `pat` does not contain `pat`. */
  lemma AbsentByPairs(s: string, pat: string)
    requires |pat| >= 2
    requires forall i :: 0 <= i < |s| - 1 ==> !(s[i] == pat[0] && s[i + 1] == pat[1])
    ensures !Occurs(s, pat)
  {
    forall i: nat | i + |pat| <= |s|
      ensures !StartsAt(s, pat, i)
    {
      assert s[i..i + |pat|][0] == s[i] && s[i..i + |pat|][1] == s[i + 1];
    }
  }

  /** An occurrence is the leftmost one when no two adjacent characters before it begin `pat`. */
  lemma FirstByPairs(s: string, pat: string, k: nat)
    requires |pat| >= 2 && StartsAt(s, pat, k)
    requires forall i :: 0 <= i < k ==> !(s[i] == pat[0] && s[i + 1] == pat[1])
    ensures IsFirst(s, pat, k)
  {
    forall j: nat | j < k
      ensures !StartsAt(s, pat, j)
    {
      assert s[j..j + |pat|][0] == s[j] && s[j..j + |pat|][1] == s[j + 1];
    }
  }

  /** `s.lower()` is the identity on a text it does not change character by character. */
  lemma LowerIdentity(s: string)
    requires forall i :: 0 <= i < |s| ==> LowerChar(s[i]) == s[i]
    ensures Lower(s) == s
  {
  }

  /**
   * `strip()` is determined by its specification: the slice `s[i..j]` whose
   * edges are not whitespace and outside which everything is whitespace.
   */
  lemma StripExact(s: string, i: nat, j: nat)
    requires i <= j <= |s|
    requires forall k :: 0 <= k < i ==> IsSpace(s[k])
    requires forall k :: j <= k < |s| ==> IsSpace(s[k])
    requires i < j ==> !IsSpace(s[i]) && !IsSpace(s[j - 1])
    ensures Strip(s) == s[i..j]
  {
    var r := Strip(s);
    var i0: nat :| Trims(s, r, i0);
    assert |r| > 0 ==> !IsSpace(s[i0]) && !IsSpace(s[i0 + |r| - 1]);
  }
}

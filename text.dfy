/**
 * The Python string operations the backend relies on: `str.isspace`, `strip()`,
 * `split()` with and without a separator, the substring test `sub in s`, and `lower()`.
 */
module Text {
  import opened Wrappers
  import opened Seqs

  /** Python's `str.isspace` for a single character: the characters `strip()` and `split()` treat as whitespace. */
  predicate IsSpace(c: char) {
    || c == ' ' || c == '\t' || c == '\n' || c == '\r'
    || c == '\U{000B}' || c == '\U{000C}'
    || ('\U{001C}' <= c <= '\U{001F}')
    || c == '\U{0085}' || c == '\U{00A0}' || c == '\U{1680}'
    || ('\U{2000}' <= c <= '\U{200A}')
    || c == '\U{2028}' || c == '\U{2029}' || c == '\U{202F}' || c == '\U{205F}' || c == '\U{3000}'
  }

  predicate AllSpace(s: string) {
    forall k :: 0 <= k < |s| ==> IsSpace(s[k])
  }

  /** Lower-cases the ASCII letters A-Z and leaves every other character as it is. */
  function LowerChar(c: char): char {
    if 'A' <= c <= 'Z' then (c as int + 32) as char else c
  }

  function Lower(s: string): (r: string)
    ensures |r| == |s|
    ensures forall k :: 0 <= k < |s| ==> r[k] == LowerChar(s[k])
  {
    seq(|s|, k requires 0 <= k < |s| => LowerChar(s[k]))
  }

  // ---------------------------------------------------------------------------
  // strip()

  function TrimLeft(s: string): (r: string)
    ensures |r| <= |s| && r == s[|s| - |r|..]
    ensures AllSpace(s[..|s| - |r|])
    ensures r == [] || !IsSpace(r[0])
  {
    if s != [] && IsSpace(s[0]) then
      var r := TrimLeft(s[1..]);
      TrimLeftStep(s, r);
      r
    else s
  }

  function TrimRight(s: string): (r: string)
    ensures |r| <= |s| && r == s[..|r|]
    ensures AllSpace(s[|r|..])
    ensures r == [] || !IsSpace(r[|r| - 1])
  {
    if s != [] && IsSpace(s[|s| - 1]) then
      var r := TrimRight(s[..|s| - 1]);
      TrimRightStep(s, r);
      r
    else s
  }

  /** What is left after trimming `s[1..]`, when `s[0]` is whitespace, is also `s` trimmed. */
  lemma TrimLeftStep(s: string, r: string)
    requires s != [] && IsSpace(s[0])
    requires |r| <= |s| - 1 && r == s[1..][|s| - 1 - |r|..] && AllSpace(s[1..][..|s| - 1 - |r|])
    ensures r == s[|s| - |r|..] && AllSpace(s[..|s| - |r|])
  {
    var n := |s| - |r|;
    forall k | 1 <= k < n ensures IsSpace(s[..n][k]) {
      assert s[..n][k] == s[1..][..n - 1][k - 1];
    }
  }

  /** What is left after trimming `s[..|s| - 1]`, when `s[|s| - 1]` is whitespace, is also `s` trimmed. */
  lemma TrimRightStep(s: string, r: string)
    requires s != [] && IsSpace(s[|s| - 1])
    requires |r| <= |s| - 1 && r == s[..|s| - 1][..|r|] && AllSpace(s[..|s| - 1][|r|..])
    ensures r == s[..|r|] && AllSpace(s[|r|..])
  {
    var n := |r|;
    forall k | 0 <= k < |s| - n - 1 ensures IsSpace(s[n..][k]) {
      assert s[n..][k] == s[..|s| - 1][n..][k];
    }
  }

  /**
   * Python's `s.strip()`: whitespace is removed from both ends and nowhere else, so the
   * result keeps only characters of `s` and is empty exactly when `s` is all whitespace.
   */
  function Trim(s: string): (r: string)
    ensures |r| <= |s|
    ensures r == [] || (!IsSpace(r[0]) && !IsSpace(r[|r| - 1]))
    ensures r == [] <==> AllSpace(s)
    ensures forall c :: c in r ==> c in s
  {
    var l := TrimLeft(s);
    var r := TrimRight(l);
    TrimmedEnds(s, l, r);
    r
  }

  /**
   * Cutting the leading whitespace `s[..|s| - |l|]` and then the trailing whitespace
   * `l[|r|..]` leaves no whitespace at either end, nothing at all exactly when `s`
   * is all whitespace, and only characters of `s`.
   */
  lemma TrimmedEnds(s: string, l: string, r: string)
    requires |l| <= |s| && l == s[|s| - |l|..] && AllSpace(s[..|s| - |l|]) && (l == [] || !IsSpace(l[0]))
    requires |r| <= |l| && r == l[..|r|] && AllSpace(l[|r|..]) && (r == [] || !IsSpace(r[|r| - 1]))
    ensures r == [] || (!IsSpace(r[0]) && !IsSpace(r[|r| - 1]))
    ensures r == [] <==> AllSpace(s)
    ensures forall c :: c in r ==> c in s
  {
    var lo := |s| - |l|;
    SliceOfSuffix(s, lo, |r|);
    if r != [] {
      assert r[0] == l[0];
    }
    SliceBetweenSpaces(s, lo, lo + |r|, r);
  }

  /** What `strip()` leaves is a slice of `s` with only whitespace before and after it. */
  lemma TrimIsSlice(s: string)
    ensures exists lo, hi :: 0 <= lo <= hi <= |s| && Trim(s) == s[lo..hi] && AllSpace(s[..lo]) && AllSpace(s[hi..])
  {
    var l := TrimLeft(s);
    var r := TrimRight(l);
    SliceOfSuffix(s, |s| - |l|, |r|);
    assert Trim(s) == s[|s| - |l|..|s| - |l| + |r|];
  }

  /** The first `n` characters of a suffix, and what follows them, as slices of the whole. */
  lemma SliceOfSuffix(s: string, lo: nat, n: nat)
    requires lo + n <= |s|
    ensures s[lo..][..n] == s[lo..lo + n] && s[lo..][n..] == s[lo + n..]
  {
  }

  /**
   * A slice of `s` with only whitespace before and after it, and no whitespace at its own
   * ends, is empty exactly when `s` is all whitespace, and holds only characters of `s`.
   */
  lemma SliceBetweenSpaces(s: string, lo: nat, hi: nat, r: string)
    requires lo <= hi <= |s| && r == s[lo..hi] && AllSpace(s[..lo]) && AllSpace(s[hi..])
    requires r == [] || (!IsSpace(r[0]) && !IsSpace(r[|r| - 1]))
    ensures r == [] <==> AllSpace(s)
    ensures forall c :: c in r ==> c in s
  {
    if r == [] {
      assert forall k :: 0 <= k < |s| ==> (k < lo && s[k] == s[..lo][k]) || (hi <= k && s[k] == s[hi..][k - hi]);
    } else {
      assert s[lo] == r[0];
    }
  }

  // ---------------------------------------------------------------------------
  // split() without a separator: runs of whitespace separate words

  function WordLength(s: string): (n: nat)
    ensures n <= |s|
    ensures forall k :: 0 <= k < n ==> !IsSpace(s[k])
    ensures n < |s| ==> IsSpace(s[n])
  {
    if s == [] || IsSpace(s[0]) then 0 else 1 + WordLength(s[1..])
  }

  /**
   * Python's `s.split()`: the maximal runs of non-whitespace characters, in order.
   * Every word is non-empty and holds no whitespace.
   */
  function Words(s: string): (ws: seq<string>)
    ensures forall k :: 0 <= k < |ws| ==> ws[k] != []
    ensures forall k, j :: 0 <= k < |ws| && 0 <= j < |ws[k]| ==> !IsSpace(ws[k][j])
    decreases |s|
  {
    var t := TrimLeft(s);
    if t == [] then []
    else
      var n := WordLength(t);
      var rest := Words(t[n..]);
      PrependWord(t[..n], rest);
      [t[..n]] + rest
  }

  /** Putting a non-empty, whitespace-free word in front of a list of such words keeps it one. */
  lemma PrependWord(w: string, rest: seq<string>)
    requires w != [] && forall j :: 0 <= j < |w| ==> !IsSpace(w[j])
    requires forall k :: 0 <= k < |rest| ==> rest[k] != []
    requires forall k, j :: 0 <= k < |rest| && 0 <= j < |rest[k]| ==> !IsSpace(rest[k][j])
    ensures forall k :: 0 <= k < |[w] + rest| ==> ([w] + rest)[k] != []
    ensures forall k, j :: 0 <= k < |[w] + rest| && 0 <= j < |([w] + rest)[k]| ==> !IsSpace(([w] + rest)[k][j])
  {
  }

  /**
   * Words are non-empty and separated by whitespace, so `s` holds at most `(|s| + 1) / 2`
   * of them, and at most `|s| / 2` when it starts with whitespace.
   */
  lemma {:induction false} WordsFit(s: string)
    ensures 2 * |Words(s)| <= |s| + 1
    ensures s != [] && IsSpace(s[0]) ==> 2 * |Words(s)| <= |s|
    decreases |s|
  {
    var t := TrimLeft(s);
    if s != [] && IsSpace(s[0]) {
      assert TrimLeft(s) == TrimLeft(s[1..]);
    }
    if t != [] {
      var n := WordLength(t);
      assert n >= 1;
      WordsFit(t[n..]);
      assert Words(s) == [t[..n]] + Words(t[n..]);
    }
  }
  predicate NotSpace(c: char) {
    !IsSpace(c)
  }

  /** The words hold exactly the non-whitespace characters of `s`, in their order. */
  lemma {:induction false} WordsKeepNonSpace(s: string)
    ensures Concat(Words(s)) == Filter(s, NotSpace)
    decreases |s|
  {
    var t := TrimLeft(s);
    NonSpaceAfterSpaces(s, |s| - |t|);
    if t != [] {
      var n := WordLength(t);
      assert n >= 1;
      var w, rest := t[..n], t[n..];
      calc {
        Concat(Words(s));
        == { assert Words(s) == [w] + Words(rest); }
        Concat([w] + Words(rest));
        == { ConcatCons(w, Words(rest)); }
        w + Concat(Words(rest));
        == { WordsKeepNonSpace(rest); }
        w + Filter(rest, NotSpace);
        == { NonSpaceOfRun(t, n); }
        Filter(t, NotSpace);
      }
    }
  }

  /** Leading whitespace contributes no non-whitespace character. */
  lemma NonSpaceAfterSpaces(s: string, k: nat)
    requires k <= |s| && AllSpace(s[..k])
    ensures Filter(s, NotSpace) == Filter(s[k..], NotSpace)
  {
    SplitAt(s, k);
    FilterAppend(s[..k], s[k..], NotSpace);
    FilterDropsAll(s[..k], NotSpace);
  }

  /** A leading run of `n` non-whitespace characters is kept whole. */
  lemma NonSpaceOfRun(t: string, n: nat)
    requires n <= |t| && forall k :: 0 <= k < n ==> !IsSpace(t[k])
    ensures Filter(t, NotSpace) == t[..n] + Filter(t[n..], NotSpace)
  {
    SplitAt(t, n);
    FilterAppend(t[..n], t[n..], NotSpace);
    FilterKeepsAll(t[..n], NotSpace);
  }

  /**
   * The number of word starts in `s`: non-whitespace characters that come right after
   * whitespace or, when `afterSpace` holds, at the front of `s`.
   */
  function WordStarts(s: string, afterSpace: bool): nat
    decreases |s|
  {
    if s == [] then 0
    else (if afterSpace && !IsSpace(s[0]) then 1 else 0) + WordStarts(s[1..], IsSpace(s[0]))
  }

  /** `split()` yields one word per word start. */
  lemma {:induction false} WordsCount(s: string)
    ensures |Words(s)| == WordStarts(s, true)
    decreases |s|
  {
    var t := TrimLeft(s);
    SpacesStartNoWord(s, |s| - |t|);
    if t != [] {
      var n := WordLength(t);
      assert n >= 1;
      RunStartsNoWord(t[1..], n - 1);
      assert t[1..][n - 1..] == t[n..];
      WordStartsAtBoundary(t[n..]);
      WordsCount(t[n..]);
      assert Words(s) == [t[..n]] + Words(t[n..]);
    }
  }

  /** Leading whitespace holds no word start. */
  lemma {:induction false} SpacesStartNoWord(s: string, k: nat)
    requires k <= |s| && AllSpace(s[..k])
    ensures WordStarts(s, true) == WordStarts(s[k..], true)
    decreases k
  {
    if k > 0 {
      assert IsSpace(s[..k][0]);
      SpacesStartNoWord(s[1..], k - 1);
      assert s[1..][k - 1..] == s[k..];
    }
  }

  /** Inside a run of non-whitespace characters no word starts. */
  lemma {:induction false} RunStartsNoWord(u: string, k: nat)
    requires k <= |u| && forall j :: 0 <= j < k ==> !IsSpace(u[j])
    ensures WordStarts(u, false) == WordStarts(u[k..], false)
    decreases k
  {
    if k > 0 {
      RunStartsNoWord(u[1..], k - 1);
      assert u[1..][k - 1..] == u[k..];
    }
  }

  /** Where the text is empty or starts with whitespace, what came before does not matter. */
  lemma WordStartsAtBoundary(x: string)
    requires x == [] || IsSpace(x[0])
    ensures WordStarts(x, false) == WordStarts(x, true)
  {
  }


  // ---------------------------------------------------------------------------
  // the substring test `sub in s`

  predicate OccursAt(s: string, sub: string, i: nat) {
    i + |sub| <= |s| && s[i..i + |sub|] == sub
  }


  function IndexFrom(s: string, sub: string, from: nat): (r: Option<nat>)
    ensures r.Some? ==> from <= r.value && OccursAt(s, sub, r.value)
    ensures r.Some? ==> forall j :: from <= j < r.value ==> !OccursAt(s, sub, j)
    ensures r.None? ==> forall j :: from <= j ==> !OccursAt(s, sub, j)
    decreases |s| - from
  {
    if from + |sub| > |s| then None
    else if OccursAt(s, sub, from) then Some(from)
    else IndexFrom(s, sub, from + 1)
  }

  /** Python's `s.find(sub)`: the position of the first occurrence, or none. */
  function IndexOf(s: string, sub: string): (r: Option<nat>)
    ensures r.Some? ==> OccursAt(s, sub, r.value) && forall j :: 0 <= j < r.value ==> !OccursAt(s, sub, j)
    ensures r.None? ==> forall j :: !OccursAt(s, sub, j)
  {
    IndexFrom(s, sub, 0)
  }

  /** Python's `sub in s`. */
  predicate Contains(s: string, sub: string) {
    IndexOf(s, sub).Some?
  }

  /** `sub in s` holds exactly when `sub` occurs at some position of `s`. */
  lemma ContainsMeansOccurs(s: string, sub: string)
    ensures Contains(s, sub) <==> exists i :: OccursAt(s, sub, i)
  {
  }

  /** An occurrence inside a slice is an occurrence in the whole string. */
  lemma OccursInSlice(s: string, sub: string, lo: nat, hi: nat, j: nat)
    requires lo <= hi <= |s| && OccursAt(s[lo..hi], sub, j)
    ensures OccursAt(s, sub, lo + j)
  {
    var t := s[lo..hi];
    assert j + |sub| <= |t|;
    forall k | 0 <= k < |sub| ensures s[lo + j + k] == sub[k] {
      assert t[j..j + |sub|][k] == sub[k];
      assert t[j + k] == s[lo + j + k];
    }
    assert s[lo + j..lo + j + |sub|] == sub;
  }

  /** An occurrence that lies wholly inside a slice is an occurrence in the slice. */
  lemma OccursWithinSlice(s: string, sub: string, lo: nat, hi: nat, j: nat)
    requires lo <= j && j + |sub| <= hi <= |s| && OccursAt(s, sub, j)
    ensures OccursAt(s[lo..hi], sub, j - lo)
  {
    var t := s[lo..hi];
    forall k | 0 <= k < |sub| ensures t[j - lo + k] == sub[k] {
      assert s[j..j + |sub|][k] == sub[k];
    }
    assert t[j - lo..j - lo + |sub|] == sub;
  }

  // ---------------------------------------------------------------------------
  // split(sep)

  /** The text before the first `sep`, or all of `s` when it holds none (Python `s.split(sep)[0]`). */
  function UpTo(s: string, sep: string): (r: string)
    ensures |r| <= |s| && r == s[..|r|]
  {
    match IndexOf(s, sep)
    case None => s
    case Some(i) => s[..i]
  }

  /** The text after the first `sep` (Python `s.partition(sep)[2]`). */
  function After(s: string, sep: string): (r: string)
    requires Contains(s, sep)
    ensures |r| + |sep| <= |s| && r == s[|s| - |r|..]
  {
    var i := IndexOf(s, sep).value;
    s[i + |sep|..]
  }

  /**
   * Python's `s.split(sep)` for a non-empty separator: the pieces between the
   * non-overlapping occurrences of `sep`, scanned left to right.
   */
  function Split(s: string, sep: string): (parts: seq<string>)
    requires sep != []
    ensures |parts| >= 1 && parts[0] == UpTo(s, sep)
    ensures |parts| >= 2 <==> Contains(s, sep)
    decreases |s|
  {
    var found := IndexOf(s, sep);
    if found.None? then [s]
    else
      var i := found.value;
      [s[..i]] + Split(s[i + |sep|..], sep)
  }

  /** The second piece of a split is the text between the first and the second separator. */
  lemma SplitSecond(s: string, sep: string)
    requires sep != [] && Contains(s, sep)
    ensures Split(s, sep)[1] == UpTo(After(s, sep), sep)
  {
  }

  /** Rejoins the pieces with `sep` between them (Python `sep.join(parts)`). */
  function Join(parts: seq<string>, sep: string): string
    requires |parts| >= 1
  {
    if |parts| == 1 then parts[0] else parts[0] + sep + Join(parts[1..], sep)
  }

  /** The text before the first separator holds no separator. */
  lemma UpToIsSeparatorFree(s: string, sep: string)
    requires sep != []
    ensures !Contains(UpTo(s, sep), sep)
  {
    var found := IndexOf(s, sep);
    if found.Some? {
      var i := found.value;
      var inner := IndexOf(s[..i], sep);
      if inner.Some? {
        OccursInSlice(s, sep, 0, i, inner.value);
        assert false;
      }
    }
  }

  /** No string of `parts` holds `sep`. */
  predicate NoneContains(parts: seq<string>, sep: string) {
    forall k :: 0 <= k < |parts| ==> !Contains(parts[k], sep)
  }

  /** No piece of a split holds the separator. */
  lemma {:induction false} SplitPiecesAreSeparatorFree(s: string, sep: string)
    requires sep != []
    ensures NoneContains(Split(s, sep), sep)
    decreases |s|
  {
    UpToIsSeparatorFree(s, sep);
    if Contains(s, sep) {
      var rest := After(s, sep);
      SplitPiecesAreSeparatorFree(rest, sep);
      SplitAtFirst(s, sep);
      ConsNoneContains(UpTo(s, sep), Split(rest, sep), sep);
    }
  }

  lemma ConsNoneContains(head: string, tail: seq<string>, sep: string)
    requires !Contains(head, sep) && NoneContains(tail, sep)
    ensures NoneContains([head] + tail, sep)
  {
  }

  /** Splitting and joining back with the same separator gives the original text. */
  lemma {:induction false} JoinSplit(s: string, sep: string)
    requires sep != []
    ensures Join(Split(s, sep), sep) == s
    decreases |s|
  {
    if Contains(s, sep) {
      var rest := After(s, sep);
      JoinSplit(rest, sep);
      SplitAtFirst(s, sep);
      JoinCons(UpTo(s, sep), Split(rest, sep), sep);
      AroundOccurrence(s, sep, IndexOf(s, sep).value);
    }
  }

  /** Split cuts at the first occurrence and goes on with the text after it. */
  lemma SplitAtFirst(s: string, sep: string)
    requires sep != [] && Contains(s, sep)
    ensures Split(s, sep) == [UpTo(s, sep)] + Split(After(s, sep), sep)
  {
  }

  lemma JoinCons(head: string, tail: seq<string>, sep: string)
    requires |tail| >= 1
    ensures Join([head] + tail, sep) == head + sep + Join(tail, sep)
  {
    assert ([head] + tail)[1..] == tail;
  }

  /** A string is the text before an occurrence, the occurrence, and the text after it. */
  lemma AroundOccurrence(s: string, sub: string, i: nat)
    requires OccursAt(s, sub, i)
    ensures s == s[..i] + sub + s[i + |sub|..]
  {
    assert s == s[..i] + s[i..i + |sub|] + s[i + |sub|..];
  }

  /** A string without the separator splits into itself alone. */
  lemma SplitWithoutSeparator(s: string, sep: string)
    requires sep != [] && !Contains(s, sep)
    ensures Split(s, sep) == [s]
  {
  }

  /** For a one-character separator, "contains" is plain character membership. */
  lemma ContainsChar(s: string, c: char)
    ensures Contains(s, [c]) <==> c in s
  {
    if c in s {
      var k :| 0 <= k < |s| && s[k] == c;
      assert s[k..k + 1] == [c];
      assert OccursAt(s, [c], k);
    }
    if Contains(s, [c]) {
      var i := IndexOf(s, [c]).value;
      assert s[i..i + 1][0] == s[i];
    }
  }

  // ---------------------------------------------------------------------------
  // Truthiness of optional strings (Python's `or`, JavaScript's `||`)

  /** A present, non-empty string; a missing value and "" are both falsy. */
  predicate Truthy(o: Option<string>) {
    o.Some? && o.value != ""
  }

  /** The first truthy value among `opts`, if there is one (`a or b or c` up to its last fallback). */
  function FirstTruthy(opts: seq<Option<string>>): (r: Option<string>)
    ensures r.None? <==> forall i :: 0 <= i < |opts| ==> !Truthy(opts[i])
    ensures r.Some? ==> exists i :: 0 <= i < |opts| && opts[i] == r && Truthy(r) &&
                                   forall j :: 0 <= j < i ==> !Truthy(opts[j])
  {
    if opts == [] then None
    else if Truthy(opts[0]) then opts[0]
    else
      var rest := FirstTruthy(opts[1..]);
      assert forall i :: 1 <= i < |opts| ==> opts[i] == opts[1..][i - 1];
      rest
  }
}

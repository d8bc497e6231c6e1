/**
  The parts of Go's standard library that the program's core leans on, stated
  as Dafny functions with the meaning Go's documentation gives them:
  truncating integer division, strings.TrimSpace, strings.TrimRight,
  strings.Split, path.Split, and the one shape of regular expression the
  program compiles, `<literal>\b([\w]+\b)`, searched with FindStringSubmatch.
  Strings are sequences of Unicode code points (Go's decoded runes).
*/
module GoLib {

  datatype Option<+T> = None | Some(value: T)

  datatype Result<+T, +E> = Ok(value: T) | Err(error: E)

  // ---------------------------------------------------------------------------
  // Sequence identities, stated once so that proofs can cite them cheaply
  // ---------------------------------------------------------------------------

  lemma ConsTail<T>(s: seq<T>)
    requires |s| > 0
    ensures [s[0]] + s[1..] == s
  {
  }

  lemma PairConcat<T>(a: T, b: T)
    ensures [a, b] == [a] + [b]
  {
  }

  lemma TripleConcat<T>(a: T, b: T, c: T)
    ensures [a, b, c] == [a, b] + [c]
  {
  }

  lemma TakeAll<T>(s: seq<T>)
    ensures s[..|s|] == s
  {
  }

  lemma TakeOneMore<T>(s: seq<T>, i: nat)
    requires i < |s|
    ensures s[..i + 1] == s[..i] + [s[i]]
    ensures s[..i + 1][..i] == s[..i]
  {
  }

  // ---------------------------------------------------------------------------
  // Integer division
  // ---------------------------------------------------------------------------

  /** Go's `a / b` on integers: the quotient truncated toward zero, so the
      remainder carries the sign of the dividend. Dafny's own `/` floors
      instead (it differs when `a` is negative). */
  function TruncDiv(a: int, b: int): (q: int)
    requires b > 0
    ensures a >= 0 ==> 0 <= a - q * b < b
    ensures a < 0 ==> -b < a - q * b <= 0
  {
    if a >= 0 then a / b else -((-a) / b)
  }

  /** Truncating division by a positive divisor never decreases when the
      dividend grows. */
  lemma TruncDivMonotone(a1: int, a2: int, b: int)
    requires b > 0 && a1 <= a2
    ensures TruncDiv(a1, b) <= TruncDiv(a2, b)
  {
    if a1 >= 0 {
      FloorDivMonotone(a1, a2, b);
    } else if a2 < 0 {
      FloorDivMonotone(-a2, -a1, b);
    } else {
      FloorDivMonotone(0, -a1, b);
      FloorDivMonotone(0, a2, b);
    }
  }

  lemma FloorDivMonotone(x: int, y: int, b: int)
    requires b > 0 && 0 <= x <= y
    ensures x / b <= y / b
  {
    var qx, qy := x / b, y / b;
    assert qx * b <= x && y < qy * b + b;
    if qx > qy {
      MulMonotone(qy + 1, qx, b);
      assert false;
    }
  }

  lemma MulMonotone(m: int, n: int, b: int)
    requires b > 0 && m <= n
    ensures m * b <= n * b
  {
  }

  // ---------------------------------------------------------------------------
  // strings.TrimSpace, strings.TrimRight
  // ---------------------------------------------------------------------------

  /** unicode.IsSpace: the code points with Unicode's White_Space property. */
  predicate IsSpace(c: char) {
    c == ' ' || ('\t' <= c <= '\r') || c == '\U{0085}' || c == '\U{00A0}' ||
    c == '\U{1680}' || ('\U{2000}' <= c <= '\U{200A}') || c == '\U{2028}' ||
    c == '\U{2029}' || c == '\U{202F}' || c == '\U{205F}' || c == '\U{3000}'
  }

  /** The white space strings.TrimSpace drops from the front. */
  function TrimLeftSpace(s: string): (r: string)
    ensures |r| <= |s| && r == s[|s| - |r|..]
    ensures forall i :: 0 <= i < |s| - |r| ==> IsSpace(s[i])
    ensures r == [] || !IsSpace(r[0])
    decreases |s|
  {
    if |s| > 0 && IsSpace(s[0]) then TrimLeftSpace(s[1..]) else s
  }

  /** The white space strings.TrimSpace drops from the back. */
  function TrimRightSpace(s: string): (r: string)
    ensures |r| <= |s| && r == s[..|r|]
    ensures forall i :: |r| <= i < |s| ==> IsSpace(s[i])
    ensures r == [] || !IsSpace(r[|r| - 1])
    decreases |s|
  {
    if |s| > 0 && IsSpace(s[|s| - 1]) then TrimRightSpace(s[..|s| - 1]) else s
  }

  /** strings.TrimSpace. */
  function TrimSpace(s: string): string {
    TrimRightSpace(TrimLeftSpace(s))
  }

  /** strings.TrimRight(s, cutset): drops every trailing character found in `cutset`. */
  function TrimRight(s: string, cutset: string): (r: string)
    ensures |r| <= |s| && r == s[..|r|]
    ensures forall i :: |r| <= i < |s| ==> s[i] in cutset
    ensures r == [] || r[|r| - 1] !in cutset
    decreases |s|
  {
    if |s| > 0 && s[|s| - 1] in cutset then TrimRight(s[..|s| - 1], cutset) else s
  }

  /** A string that TrimSpace leaves alone: it neither starts nor ends with white space. */
  predicate SpaceTrimmed(s: string) {
    s == [] || (!IsSpace(s[0]) && !IsSpace(s[|s| - 1]))
  }

  predicate AllSpace(s: string) {
    forall i :: 0 <= i < |s| ==> IsSpace(s[i])
  }

  /** TrimSpace removes exactly the surrounding white space: whatever white
      space is put around a string without its own, TrimSpace gives that string back. */
  lemma {:induction false} TrimSpaceOfPadded(w1: string, s: string, w2: string)
    requires AllSpace(w1) && AllSpace(w2) && SpaceTrimmed(s)
    ensures TrimSpace(w1 + s + w2) == s
  {
    if s == [] {
      assert w1 + s + w2 == (w1 + w2) + [];
      TrimLeftOfPadded(w1 + w2, []);
    } else {
      assert w1 + s + w2 == w1 + (s + w2);
      TrimLeftOfPadded(w1, s + w2);
      TrimRightOfPadded(s, w2);
    }
  }

  /** A string already free of surrounding white space is its own TrimSpace. */
  lemma AlreadySpaceTrimmed(s: string)
    requires SpaceTrimmed(s)
    ensures TrimSpace(s) == s
  {
    TrimSpaceOfPadded([], s, []);
    assert [] + s + [] == s;
  }

  lemma {:induction false} TrimLeftOfPadded(w: string, s: string)
    requires AllSpace(w) && (s == [] || !IsSpace(s[0]))
    ensures TrimLeftSpace(w + s) == s
    decreases |w|
  {
    if w == [] {
      assert w + s == s;
    } else {
      assert (w + s)[1..] == w[1..] + s;
      TrimLeftOfPadded(w[1..], s);
    }
  }

  lemma {:induction false} TrimRightOfPadded(s: string, w: string)
    requires AllSpace(w) && (s == [] || !IsSpace(s[|s| - 1]))
    ensures TrimRightSpace(s + w) == s
    decreases |w|
  {
    if w == [] {
      assert s + w == s;
    } else {
      assert (s + w)[..|s + w| - 1] == s + w[..|w| - 1];
      TrimRightOfPadded(s, w[..|w| - 1]);
    }
  }

  /** TrimRight with the cutset "/" ignores any number of appended slashes. */
  lemma {:induction false} TrimRightOfSlashes(s: string, k: nat)
    ensures TrimRight(s + Repeat('/', k), "/") == TrimRight(s, "/")
    decreases k
  {
    if k == 0 {
      assert s + Repeat('/', 0) == s;
    } else {
      assert (s + Repeat('/', k))[..|s| + k - 1] == s + Repeat('/', k - 1);
      TrimRightOfSlashes(s, k - 1);
    }
  }

  function Repeat(c: char, k: nat): (r: string)
    ensures |r| == k && forall i :: 0 <= i < k ==> r[i] == c
  {
    if k == 0 then [] else Repeat(c, k - 1) + [c]
  }

  // ---------------------------------------------------------------------------
  // strings.Split and strings.Join with a one-character separator
  // ---------------------------------------------------------------------------

  /** strings.Split(s, sep): the pieces between the occurrences of `sep`;
      n occurrences give n + 1 pieces, so "" gives [""] and "a/" gives ["a", ""]. */
  function Split(s: string, sep: char): (r: seq<string>)
    ensures |r| >= 1
    decreases |s|
  {
    if s == [] then [[]]
    else
      var rest := Split(s[1..], sep);
      if s[0] == sep then [[]] + rest else [[s[0]] + rest[0]] + rest[1..]
  }

  /** The empty string splits into one empty piece. */
  lemma SplitEmpty(sep: char)
    ensures Split([], sep) == [[]]
  {
  }

  /** strings.Join(parts, sep). */
  function Join(parts: seq<string>, sep: char): string
    decreases |parts|
  {
    if |parts| == 0 then []
    else if |parts| == 1 then parts[0]
    else parts[0] + [sep] + Join(parts[1..], sep)
  }

  /** Splitting at one occurrence of the separator splits the two sides independently. */
  lemma {:induction false} SplitConcat(a: string, sep: char, b: string)
    ensures Split(a + [sep] + b, sep) == Split(a, sep) + Split(b, sep)
    decreases |a|
  {
    if a == [] {
      assert a + [sep] + b == [sep] + b;
      assert ([sep] + b)[1..] == b;
    } else {
      assert (a + [sep] + b)[1..] == a[1..] + [sep] + b;
      SplitConcat(a[1..], sep, b);
    }
  }

  /** A string without the separator is a single piece. */
  lemma {:induction false} SplitNoSep(s: string, sep: char)
    requires sep !in s
    ensures Split(s, sep) == [s]
    decreases |s|
  {
    if s != [] {
      SplitNoSep(s[1..], sep);
      assert [s[0]] + s[1..] == s;
    }
  }

  /** Join undoes Split. */
  lemma {:induction false} JoinSplit(s: string, sep: char)
    ensures Join(Split(s, sep), sep) == s
    decreases |s|
  {
    if s != [] {
      JoinSplit(s[1..], sep);
      var rest := Split(s[1..], sep);
      if s[0] != sep {
        if |rest| > 1 {
          assert ([[s[0]] + rest[0]] + rest[1..])[1..] == rest[1..];
        }
      } else {
        assert ([[]] + rest)[1..] == rest;
      }
    }
  }

  /** Split undoes Join of any non-empty list of pieces free of the separator. */
  lemma {:induction false} SplitJoin(parts: seq<string>, sep: char)
    requires |parts| >= 1
    requires forall i :: 0 <= i < |parts| ==> sep !in parts[i]
    ensures Split(Join(parts, sep), sep) == parts
    decreases |parts|
  {
    if |parts| == 1 {
      SplitNoSep(parts[0], sep);
    } else {
      SplitJoin(parts[1..], sep);
      SplitConcat(parts[0], sep, Join(parts[1..], sep));
      SplitNoSep(parts[0], sep);
      assert [parts[0]] + parts[1..] == parts;
    }
  }

  // ---------------------------------------------------------------------------
  // strings.LastIndex with a one-character pattern, path.Split
  // ---------------------------------------------------------------------------

  /** strings.LastIndex(s, string(c)): the index of the last `c`, or -1. */
  function LastIndex(s: string, c: char): (i: int)
    ensures -1 <= i < |s|
    ensures i == -1 <==> c !in s
    ensures i >= 0 ==> s[i] == c && c !in s[i + 1..]
    decreases |s|
  {
    if s == [] then -1
    else if s[|s| - 1] == c then |s| - 1
    else
      assert s == s[..|s| - 1] + [s[|s| - 1]];
      LastIndex(s[..|s| - 1], c)
  }

  /** path.Split: splits immediately after the last '/', into a directory part
      (empty, or ending in '/') and a file part without any '/'. */
  function PathSplit(p: string): (r: (string, string))
    ensures r.0 + r.1 == p
    ensures '/' !in r.1
    ensures r.0 == [] || r.0[|r.0| - 1] == '/'
    ensures '/' !in p ==> r.0 == []
  {
    var i := LastIndex(p, '/');
    assert p == p[..i + 1] + p[i + 1..];
    (p[..i + 1], p[i + 1..])
  }

  /** path.Split cuts exactly after the last '/': any decomposition into a part
      ending in '/' and a part without '/' is the one it finds. */
  lemma PathSplitAt(d: string, f: string)
    requires d != [] && d[|d| - 1] == '/' && '/' !in f
    ensures PathSplit(d + f) == (d, f)
  {
    var p := d + f;
    assert p[|d| - 1] == '/';
  }

  // ---------------------------------------------------------------------------
  // regexp `lit\b([\w]+\b)` with FindStringSubmatch
  // ---------------------------------------------------------------------------

  /** RE2's `\w`: ASCII letters, digits and underscore (so '-' and '.' are not). */
  predicate IsWordChar(c: char) {
    ('a' <= c <= 'z') || ('A' <= c <= 'Z') || ('0' <= c <= '9') || c == '_'
  }

  /** Position `p` holds a word character; positions outside the text do not. */
  predicate WordAt(t: string, p: int) {
    0 <= p < |t| && IsWordChar(t[p])
  }

  /** RE2's `\b` at position `p`: a word character on exactly one side. */
  predicate IsBoundary(t: string, p: int) {
    0 <= p <= |t| && WordAt(t, p - 1) != WordAt(t, p)
  }

  /** The pattern `lit\b([\w]+\b)` read literally: a match of the whole pattern
      spanning t[i..j], whose capture group is t[i + |lit|..j]. */
  predicate RegexMatch(t: string, lit: string, i: nat, j: nat) {
    i + |lit| < j <= |t| && t[i..i + |lit|] == lit && IsBoundary(t, i + |lit|) &&
    (forall k :: i + |lit| <= k < j ==> IsWordChar(t[k])) && IsBoundary(t, j)
  }

  /** The literal occurs at `i` and a word character follows it. */
  predicate MatchesAt(t: string, lit: string, i: nat) {
    i + |lit| < |t| && t[i..i + |lit|] == lit && IsWordChar(t[i + |lit|])
  }

  /** The end of the maximal run of word characters that starts at `p`. */
  function WordRunEnd(t: string, p: nat): (e: nat)
    requires p <= |t|
    ensures p <= e <= |t|
    ensures forall k :: p <= k < e ==> IsWordChar(t[k])
    ensures e == |t| || !IsWordChar(t[e])
    decreases |t| - p
  {
    if p < |t| && IsWordChar(t[p]) then WordRunEnd(t, p + 1) else p
  }

  /** The first position at or after `i` where the literal occurs followed by a word character. */
  function FindFrom(t: string, lit: string, i: nat): (r: Option<nat>)
    ensures r.Some? ==> i <= r.value && MatchesAt(t, lit, r.value)
    ensures r.Some? ==> forall k: nat :: i <= k < r.value ==> !MatchesAt(t, lit, k)
    ensures r.None? ==> forall k: nat :: i <= k ==> !MatchesAt(t, lit, k)
    decreases |t| - i
  {
    if i + |lit| >= |t| then None
    else if MatchesAt(t, lit, i) then Some(i)
    else FindFrom(t, lit, i + 1)
  }

  /** FindStringSubmatch(t)[1] for `lit\b([\w]+\b)`, or None where Go returns nil:
      the maximal word run after the first occurrence of the literal that is
      immediately followed by a word character. */
  function FindSubmatch(t: string, lit: string): (r: Option<string>)
    ensures r.None? <==> forall k: nat :: !MatchesAt(t, lit, k)
    ensures r.Some? ==> |r.value| > 0 && forall k :: 0 <= k < |r.value| ==> IsWordChar(r.value[k])
  {
    match FindFrom(t, lit, 0)
    case None => None
    case Some(i) => Some(t[i + |lit|..WordRunEnd(t, i + |lit|)])
  }

  /** When the literal ends in a non-word character (both literals of the
      program end in a space), the literal regex reading and the scan agree:
      the pattern matches from `i` exactly when the literal occurs at `i` followed
      by a word character, and it then ends exactly where the word run ends. */
  lemma RegexMatchIff(t: string, lit: string, i: nat, j: nat)
    requires |lit| > 0 && !IsWordChar(lit[|lit| - 1])
    ensures RegexMatch(t, lit, i, j) <==> MatchesAt(t, lit, i) && j == WordRunEnd(t, i + |lit|)
  {
    var p := i + |lit|;
    if RegexMatch(t, lit, i, j) {
      assert t[p - 1] == t[i..p][|lit| - 1];
      assert IsWordChar(t[p]);
      var e := WordRunEnd(t, p);
      assert j == e;
    }
    if MatchesAt(t, lit, i) && j == WordRunEnd(t, p) {
      assert t[p - 1] == t[i..p][|lit| - 1];
      assert WordAt(t, j - 1);
    }
  }

  /** FindSubmatch is the leftmost match of the pattern, with its capture group:
      it finds something exactly when the pattern matches somewhere, and then no
      match of the pattern starts any earlier. */
  lemma FindSubmatchIsLeftmost(t: string, lit: string)
    requires |lit| > 0 && !IsWordChar(lit[|lit| - 1])
    ensures FindSubmatch(t, lit).None? <==> forall i: nat, j: nat :: !RegexMatch(t, lit, i, j)
    ensures FindSubmatch(t, lit).Some? ==>
      exists i: nat, j: nat :: RegexMatch(t, lit, i, j) && FindSubmatch(t, lit).value == t[i + |lit|..j] &&
        forall i': nat, j': nat :: i' < i ==> !RegexMatch(t, lit, i', j')
  {
    forall i: nat, j: nat | RegexMatch(t, lit, i, j) ensures MatchesAt(t, lit, i) {
      RegexMatchIff(t, lit, i, j);
    }
    match FindFrom(t, lit, 0)
    case None =>
    case Some(i) =>
      var j := WordRunEnd(t, i + |lit|);
      RegexMatchIff(t, lit, i, j);
      forall i': nat, j': nat | i' < i ensures !RegexMatch(t, lit, i', j') {
        RegexMatchIff(t, lit, i', j');
      }
  }
}

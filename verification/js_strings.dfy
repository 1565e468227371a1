/** The JavaScript string operations the naming helpers and the setup script
    rely on: `trim`, `startsWith`, `indexOf`, `includes`, `split` and `join`
    with a non-empty string separator, and `replace` of the first occurrence
    of a string pattern by the empty string. */
module JsStrings {
  import opened Wrappers

  /** The code points `String.prototype.trim` removes: the ECMAScript
      WhiteSpace and LineTerminator productions. */
  predicate IsWhite(c: char) {
    || c == '\t' || c == '\n' || c == '\U{000B}' || c == '\U{000C}' || c == '\r'
    || c == ' ' || c == '\U{00A0}' || c == '\U{1680}'
    || ('\U{2000}' <= c <= '\U{200A}')
    || c == '\U{2028}' || c == '\U{2029}' || c == '\U{202F}' || c == '\U{205F}'
    || c == '\U{3000}' || c == '\U{FEFF}'
  }

  /** `s` with its leading white space removed: a suffix of `s`. */
  function TrimStart(s: string): (r: string)
    ensures |r| <= |s| && r == s[|s| - |r|..]
    ensures forall i :: 0 <= i < |s| - |r| ==> IsWhite(s[i])
    ensures r == [] || !IsWhite(r[0])
  {
    if s != [] && IsWhite(s[0]) then TrimStart(s[1..]) else s
  }

  /** `s` with its trailing white space removed: a prefix of `s`. */
  function TrimEnd(s: string): (r: string)
    ensures |r| <= |s| && r == s[..|r|]
    ensures forall i :: |r| <= i < |s| ==> IsWhite(s[i])
    ensures r == [] || !IsWhite(r[|r| - 1])
  {
    if s != [] && IsWhite(s[|s| - 1]) then TrimEnd(s[..|s| - 1]) else s
  }

  /** `String.prototype.trim`. */
  function Trim(s: string): (r: string)
    ensures |r| <= |s|
    ensures r == [] || (!IsWhite(r[0]) && !IsWhite(r[|r| - 1]))
  {
    TrimEnd(TrimStart(s))
  }

  /** `s.startsWith(p)`. */
  predicate StartsWith(s: string, p: string) {
    |p| <= |s| && s[..|p|] == p
  }

  /** `p` occurs in `s` starting at index `j`. */
  predicate OccursAt(s: string, p: string, j: nat) {
    j + |p| <= |s| && s[j..j + |p|] == p
  }

  /** `s.indexOf(p)`: the first index at which `p` occurs, `None` for -1. */
  function IndexOf(s: string, p: string): (r: Option<nat>)
    ensures r.Some? ==> OccursAt(s, p, r.value)
    ensures r.Some? ==> forall j: nat :: j < r.value ==> !OccursAt(s, p, j)
    ensures r.None? ==> forall j: nat :: !OccursAt(s, p, j)
    decreases |s|
  {
    if |s| < |p| then None
    else if s[..|p|] == p then Some(0)
    else
      var rest := IndexOf(s[1..], p);
      assert !OccursAt(s, p, 0);
      forall j: nat | 0 < j && OccursAt(s, p, j) ensures OccursAt(s[1..], p, j - 1) {
        assert s[1..][j - 1..j - 1 + |p|] == s[j..j + |p|];
      }
      match rest
      case None => None
      case Some(i) =>
        assert s[1..][i..i + |p|] == s[i + 1..i + 1 + |p|];
        Some(i + 1)
  }

  /** `s.includes(p)`. */
  predicate Includes(s: string, p: string) {
    IndexOf(s, p).Some?
  }

  /** An occurrence inside a prefix of `s` is an occurrence in `s`. */
  lemma OccursInPrefix(s: string, p: string, n: nat, j: nat)
    requires n <= |s| && OccursAt(s[..n], p, j)
    ensures OccursAt(s, p, j) && j + |p| <= n
  {
    assert s[..n][j..j + |p|] == s[j..j + |p|];
  }

  /** An occurrence inside a suffix of `s` is an occurrence in `s`. */
  lemma OccursInSuffix(s: string, p: string, n: nat, j: nat)
    requires n <= |s| && OccursAt(s[n..], p, j)
    ensures OccursAt(s, p, n + j)
  {
    assert s[n..][j..j + |p|] == s[n + j..n + j + |p|];
  }

  /** `parts.join(sep)`. */
  function Join(parts: seq<string>, sep: string): string {
    if |parts| == 0 then ""
    else if |parts| == 1 then parts[0]
    else parts[0] + sep + Join(parts[1..], sep)
  }

  /** `s.split(sep)` for a non-empty string separator: the pieces between
      the non-overlapping occurrences of `sep`, found left to right. Joining
      the pieces with `sep` gives `s` back, and no piece contains `sep`. */
  function Split(s: string, sep: string): (r: seq<string>)
    requires |sep| > 0
    ensures |r| >= 1
    ensures Join(r, sep) == s
    ensures forall k :: 0 <= k < |r| ==> !Includes(r[k], sep)
    decreases |s|
  {
    match IndexOf(s, sep)
    case None => [s]
    case Some(i) =>
      var rest := Split(s[i + |sep|..], sep);
      assert s == s[..i] + sep + s[i + |sep|..];
      assert !Includes(s[..i], sep) by {
        if Includes(s[..i], sep) {
          OccursInPrefix(s, sep, i, IndexOf(s[..i], sep).value);
        }
      }
      [s[..i]] + rest
  }

  /** The last element of a non-empty sequence (what `pop()` returns). */
  function Last<T>(xs: seq<T>): T
    requires |xs| > 0
  {
    xs[|xs| - 1]
  }

  lemma FrontAndLast<T>(xs: seq<T>)
    requires |xs| > 0
    ensures xs[..|xs| - 1] + [Last(xs)] == xs
  {
  }

  /** `s.replace(p, "")`: the first occurrence of `p` removed, if any. */
  function RemoveFirst(s: string, p: string): (r: string)
    ensures IndexOf(s, p).None? ==> r == s
    ensures IndexOf(s, p).Some? ==> |r| == |s| - |p|
  {
    match IndexOf(s, p)
    case None => s
    case Some(i) => s[..i] + s[i + |p|..]
  }

  /** A string without the separator splits into itself alone. */
  lemma SplitNone(s: string, sep: string)
    requires |sep| > 0 && !Includes(s, sep)
    ensures Split(s, sep) == [s]
  {
  }

  /** A separator whose first character occurs nowhere else in it cannot
      overlap itself, so an occurrence can neither start inside another one
      nor inside the separator that follows a prefix without one. */
  predicate NoSelfOverlap(sep: string) {
    |sep| > 0 && forall k :: 0 < k < |sep| ==> sep[k] != sep[0]
  }

  /** The first occurrence of `sep` in `x + sep + y` ends no later than
      the separator written after `x`. */
  lemma FirstOccurrenceBound(x: string, sep: string, y: string)
    requires NoSelfOverlap(sep)
    ensures IndexOf(x + sep + y, sep).Some?
    ensures IndexOf(x + sep + y, sep).value == |x| || IndexOf(x + sep + y, sep).value + |sep| <= |x|
  {
    var s := x + sep + y;
    assert s[|x|..|x| + |sep|] == sep;
    assert OccursAt(s, sep, |x|);
    forall j: nat | j < |x| < j + |sep| ensures !OccursAt(s, sep, j) {
      assert s[j..j + |sep|][|x| - j] == s[|x|] == sep[0];
    }
  }

  /** When `x` holds no separator, the first one in `x + sep + y` is the
      one written after `x`. */
  lemma FirstOccurrence(x: string, sep: string, y: string)
    requires NoSelfOverlap(sep) && !Includes(x, sep)
    ensures IndexOf(x + sep + y, sep) == Some(|x|)
  {
    var s := x + sep + y;
    FirstOccurrenceBound(x, sep, y);
    forall j: nat | j + |sep| <= |x| ensures !OccursAt(s, sep, j) {
      assert s[j..j + |sep|] == x[j..j + |sep|];
      assert !OccursAt(x, sep, j);
    }
  }

  /** A string is included, as a one-character pattern, exactly when the
      character occurs in it. */
  lemma IncludesChar(s: string, c: char)
    ensures Includes(s, [c]) <==> c in s
  {
    if c in s {
      var k :| 0 <= k < |s| && s[k] == c;
      assert OccursAt(s, [c], k);
    }
    if Includes(s, [c]) {
      var i := IndexOf(s, [c]).value;
      assert s[i..i + 1][0] == s[i];
    }
  }

  /** Splitting where `x` ends: `x` is the first piece. */
  lemma SplitFirst(x: string, sep: string, y: string)
    requires NoSelfOverlap(sep) && !Includes(x, sep)
    ensures Split(x + sep + y, sep) == [x] + Split(y, sep)
  {
    var s := x + sep + y;
    FirstOccurrence(x, sep, y);
    assert s[..|x|] == x;
    assert s[|x| + |sep|..] == y;
  }

  /** Splitting distributes over a separator written between two strings. */
  lemma {:induction false} SplitAppend(x: string, sep: string, y: string)
    requires NoSelfOverlap(sep)
    ensures Split(x + sep + y, sep) == Split(x, sep) + Split(y, sep)
    decreases |x|
  {
    match IndexOf(x, sep)
    case None =>
      SplitFirst(x, sep, y);
      SplitNone(x, sep);
    case Some(i) =>
      var a, b := x[..i], x[i + |sep|..];
      assert x == a + sep + b;
      assert !Includes(a, sep) by {
        if Includes(a, sep) {
          OccursInPrefix(x, sep, i, IndexOf(a, sep).value);
        }
      }
      SplitFirst(a, sep, b);
      SplitFirst(a, sep, b + sep + y);
      SplitAppend(b, sep, y);
      SplitRegroup(x, a, b, sep, y);
  }

  lemma SplitRegroup(x: string, a: string, b: string, sep: string, y: string)
    requires |sep| > 0 && x == a + sep + b
    requires Split(x, sep) == [a] + Split(b, sep)
    requires Split(a + sep + (b + sep + y), sep) == [a] + Split(b + sep + y, sep)
    requires Split(b + sep + y, sep) == Split(b, sep) + Split(y, sep)
    ensures Split(x + sep + y, sep) == Split(x, sep) + Split(y, sep)
  {
    Regroup(x, a, b, sep, y);
    Assoc([a], Split(b, sep), Split(y, sep));
  }

  lemma Assoc<T>(p: seq<T>, q: seq<T>, r: seq<T>)
    ensures p + (q + r) == (p + q) + r
  {
  }

  lemma Regroup<T>(x: seq<T>, a: seq<T>, b: seq<T>, sep: seq<T>, y: seq<T>)
    requires x == a + sep + b
    ensures x + sep + y == a + sep + (b + sep + y)
  {
  }

  /** The last piece of a split is what follows the last separator. */
  lemma SplitLast(x: string, sep: string, y: string)
    requires NoSelfOverlap(sep) && !Includes(y, sep)
    ensures Last(Split(x + sep + y, sep)) == y
  {
    SplitAppend(x, sep, y);
    SplitNone(y, sep);
  }

  /** `trim` leaves a string alone when it neither starts nor ends with
      white space. */
  lemma TrimOfTrimmed(s: string)
    requires s == [] || (!IsWhite(s[0]) && !IsWhite(s[|s| - 1]))
    ensures Trim(s) == s
  {
  }

  /** `s.replace(p, "")` on a string that starts with `p` drops that prefix. */
  lemma RemovePrefix(s: string, p: string)
    requires StartsWith(s, p)
    ensures RemoveFirst(s, p) == s[|p|..]
  {
    assert IndexOf(s, p) == Some(0);
  }

  /** Trimming a string cannot make a pattern appear in it. */
  lemma TrimKeepsExclusion(s: string, p: string)
    requires !Includes(s, p)
    ensures !Includes(Trim(s), p)
  {
    var u := TrimStart(s);
    var n := |s| - |u|;
    var t := Trim(s);
    assert u == s[n..] && t == u[..|t|];
    forall j: nat | OccursAt(t, p, j) ensures OccursAt(s, p, n + j) {
      OccursInPrefix(u, p, |t|, j);
      OccursInSuffix(s, p, n, j);
    }
  }
}

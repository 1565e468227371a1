/** An ASCII stand-in for the `@sindresorhus/slugify` library that every
    naming helper calls: the maximal runs of ASCII letters and digits, lower
    cased, joined with "-". Every other character separates words and never
    reaches the output. */
module Slugify {
  import opened JsStrings

  predicate IsAlnum(c: char) {
    ('a' <= c <= 'z') || ('A' <= c <= 'Z') || ('0' <= c <= '9')
  }

  predicate IsLowerAlnum(c: char) {
    ('a' <= c <= 'z') || ('0' <= c <= '9')
  }

  function Lower(c: char): (r: char)
    requires IsAlnum(c)
    ensures IsLowerAlnum(r)
    ensures IsLowerAlnum(c) ==> r == c
  {
    if 'A' <= c <= 'Z' then (c as int - 'A' as int + 'a' as int) as char else c
  }

  /** One word of a slug: non-empty, lower-case letters and digits only. */
  predicate IsWord(w: string) {
    |w| > 0 && forall i :: 0 <= i < |w| ==> IsLowerAlnum(w[i])
  }

  /** The length of the run of letters and digits that `s` starts with. */
  function RunLength(s: string): (n: nat)
    ensures n <= |s|
    ensures forall i :: 0 <= i < n ==> IsAlnum(s[i])
    ensures n < |s| ==> !IsAlnum(s[n])
  {
    if s != [] && IsAlnum(s[0]) then 1 + RunLength(s[1..]) else 0
  }

  function LowerAll(s: string): (r: string)
    requires forall i :: 0 <= i < |s| ==> IsAlnum(s[i])
    ensures |r| == |s|
    ensures forall i :: 0 <= i < |s| ==> r[i] == Lower(s[i])
  {
    seq(|s|, i requires 0 <= i < |s| => Lower(s[i]))
  }

  /** The words of `s`, lower cased, in order. */
  function Words(s: string): (ws: seq<string>)
    ensures forall k :: 0 <= k < |ws| ==> IsWord(ws[k])
    decreases |s|
  {
    if s == [] then []
    else if !IsAlnum(s[0]) then Words(s[1..])
    else
      var n := RunLength(s);
      [LowerAll(s[..n])] + Words(s[n..])
  }

  /** The slug of `s`: its words joined with "-". */
  function Slug(s: string): string {
    Join(Words(s), "-")
  }

  /** A string of letters and digits has exactly one word: itself, lower cased. */
  lemma {:induction false} WordsOfRun(w: string, t: string)
    requires |w| > 0 && forall i :: 0 <= i < |w| ==> IsAlnum(w[i])
    requires t == [] || !IsAlnum(t[0])
    ensures Words(w + t) == [LowerAll(w)] + Words(t)
  {
    RunLengthOfRun(w, t);
    assert (w + t)[..|w|] == w;
    assert (w + t)[|w|..] == t;
  }

  lemma {:induction false} RunLengthOfRun(w: string, t: string)
    requires forall i :: 0 <= i < |w| ==> IsAlnum(w[i])
    requires t == [] || !IsAlnum(t[0])
    ensures RunLength(w + t) == |w|
    decreases |w|
  {
    if w != [] {
      assert (w + t)[1..] == w[1..] + t;
      RunLengthOfRun(w[1..], t);
    } else {
      assert w + t == t;
    }
  }

  /** Characters that are not letters or digits in front of a string do not
      change its words. */
  lemma {:induction false} WordsSkipsLeading(p: string, s: string)
    requires forall i :: 0 <= i < |p| ==> !IsAlnum(p[i])
    ensures Words(p + s) == Words(s)
    decreases |p|
  {
    if p != [] {
      assert (p + s)[1..] == p[1..] + s;
      WordsSkipsLeading(p[1..], s);
    } else {
      assert p + s == s;
    }
  }

  /** Characters that are not letters or digits after a string do not change
      its words. */
  lemma {:induction false} WordsSkipsTrailing(s: string, q: string)
    requires forall i :: 0 <= i < |q| ==> !IsAlnum(q[i])
    ensures Words(s + q) == Words(s)
    decreases |s|
  {
    if s == [] {
      assert s + q == q + [];
      WordsSkipsLeading(q, []);
    } else if !IsAlnum(s[0]) {
      assert (s + q)[1..] == s[1..] + q;
      WordsSkipsTrailing(s[1..], q);
    } else {
      var n := RunLength(s);
      if n < |s| {
        RunThenMore(s, q);
        WordsSkipsTrailing(s[n..], q);
      } else {
        WholeRun(s, q);
      }
    }
  }

  lemma RunThenMore(s: string, q: string)
    requires s != [] && IsAlnum(s[0]) && RunLength(s) < |s|
    ensures Words(s + q) == [LowerAll(s[..RunLength(s)])] + Words(s[RunLength(s)..] + q)
    ensures Words(s) == [LowerAll(s[..RunLength(s)])] + Words(s[RunLength(s)..])
  {
    var n := RunLength(s);
    WordsOfRun(s[..n], s[n..] + q);
    assert s + q == s[..n] + (s[n..] + q);
  }

  lemma WholeRun(s: string, q: string)
    requires s != [] && IsAlnum(s[0]) && RunLength(s) == |s|
    requires forall i :: 0 <= i < |q| ==> !IsAlnum(q[i])
    ensures Words(s + q) == Words(s)
  {
    var n := RunLength(s);
    assert Words(s + q) == [LowerAll(s[..n])] + Words(q) by {
      assert s + q == s[..n] + q;
      WordsOfRun(s[..n], q);
    }
    assert Words(q) == [] by {
      WordsSkipsLeading(q, []);
      assert q + [] == q;
    }
    assert s[n..] == [];
  }

  /** Trimming white space never changes a slug: white space is never part
      of a word. */
  lemma {:induction false} SlugIgnoresTrim(s: string)
    ensures Slug(Trim(s)) == Slug(s)
  {
    WordsIgnoreTrimStart(s);
    WordsIgnoreTrimEnd(TrimStart(s));
  }

  lemma WordsIgnoreTrimStart(s: string)
    ensures Words(TrimStart(s)) == Words(s)
  {
    var a := TrimStart(s);
    var p := s[..|s| - |a|];
    assert s == p + a;
    forall i | 0 <= i < |p| ensures !IsAlnum(p[i]) {
      WhiteIsNoAlnum(p[i]);
    }
    WordsSkipsLeading(p, a);
  }

  lemma WordsIgnoreTrimEnd(a: string)
    ensures Words(TrimEnd(a)) == Words(a)
  {
    var b := TrimEnd(a);
    var q := a[|b|..];
    assert a == b + q;
    forall i | 0 <= i < |q| ensures !IsAlnum(q[i]) {
      WhiteIsNoAlnum(q[i]);
    }
    WordsSkipsTrailing(b, q);
  }

  lemma WhiteIsNoAlnum(c: char)
    requires IsWhite(c)
    ensures !IsAlnum(c)
  {
  }

  /** Runs of letters and digits joined by one separator character are
      exactly the words, lower cased. */
  lemma {:induction false} WordsOfJoin(ws: seq<string>, c: char)
    requires forall k :: 0 <= k < |ws| ==> |ws[k]| > 0
    requires forall k, i :: 0 <= k < |ws| && 0 <= i < |ws[k]| ==> IsAlnum(ws[k][i])
    requires !IsAlnum(c)
    ensures |Words(Join(ws, [c]))| == |ws|
    ensures forall k :: 0 <= k < |ws| ==> Words(Join(ws, [c]))[k] == LowerAll(ws[k])
  {
    if |ws| == 0 {
    } else if |ws| == 1 {
      WordsOfRun(ws[0], []);
      assert ws[0] + [] == ws[0];
    } else {
      var tail := ws[1..];
      WordsOfJoinStep(ws, c);
      WordsOfJoin(tail, c);
      var w, r := Words(Join(ws, [c])), Words(Join(tail, [c]));
      forall k | 0 < k < |ws| ensures w[k] == LowerAll(ws[k]) {
        assert w[k] == r[k - 1];
        assert tail[k - 1] == ws[k];
      }
    }
  }

  /** The first word of a join is its first part. */
  lemma WordsOfJoinStep(ws: seq<string>, c: char)
    requires |ws| > 1 && |ws[0]| > 0
    requires forall i :: 0 <= i < |ws[0]| ==> IsAlnum(ws[0][i])
    requires !IsAlnum(c)
    ensures Words(Join(ws, [c])) == [LowerAll(ws[0])] + Words(Join(ws[1..], [c]))
  {
    var rest := Join(ws[1..], [c]);
    assert Join(ws, [c]) == ws[0] + ([c] + rest);
    WordsOfRun(ws[0], [c] + rest);
    assert ([c] + rest)[1..] == rest;
  }

  /** Slug words joined with "-" split back into the same words. */
  lemma WordsOfSlugWords(ws: seq<string>)
    requires forall k :: 0 <= k < |ws| ==> IsWord(ws[k])
    ensures Words(Join(ws, "-")) == ws
  {
    WordsOfJoin(ws, '-');
    forall k | 0 <= k < |ws| ensures LowerAll(ws[k]) == ws[k] {
      LowerAllOfWord(ws[k]);
    }
  }

  /** A word is its own only word. */
  lemma WordsOfWord(w: string)
    requires IsWord(w)
    ensures Words(w) == [w]
  {
    WordsOfRun(w, []);
    assert w + [] == w;
    LowerAllOfWord(w);
  }

  lemma LowerAllOfWord(w: string)
    requires IsWord(w)
    ensures LowerAll(w) == w
  {
  }

  /** A slug is its own slug: slugifying twice is slugifying once. */
  lemma SlugIdempotent(s: string)
    ensures Slug(Slug(s)) == Slug(s)
  {
    WordsOfSlugWords(Words(s));
  }

  /** The shape of every slug: lower-case letters, digits and single "-"
      between words, never a "-" at either end. */
  predicate IsSlug(t: string) {
    && (forall i :: 0 <= i < |t| ==> IsLowerAlnum(t[i]) || t[i] == '-')
    && (t != [] ==> t[0] != '-' && t[|t| - 1] != '-')
    && (forall i :: 0 < i < |t| && t[i] == '-' ==> t[i - 1] != '-')
  }

  lemma {:induction false} JoinedWordsAreSlug(ws: seq<string>)
    requires forall k :: 0 <= k < |ws| ==> IsWord(ws[k])
    ensures IsSlug(Join(ws, "-"))
  {
    if |ws| > 1 {
      JoinedWordsAreSlug(ws[1..]);
      var rest := Join(ws[1..], "-");
      var t := ws[0] + "-" + rest;
      assert Join(ws, "-") == t;
      assert rest != [] by { assert IsWord(ws[1]); JoinStartsWithFirst(ws[1..]); }
      forall i | 0 < i < |t| && t[i] == '-' ensures t[i - 1] != '-' {
        if i > |ws[0]| + 1 {
          assert t[i] == rest[i - |ws[0]| - 1];
          assert t[i - 1] == rest[i - 1 - |ws[0]| - 1];
        }
      }
      forall i | 0 <= i < |t| ensures IsLowerAlnum(t[i]) || t[i] == '-' {
        if i > |ws[0]| {
          assert t[i] == rest[i - |ws[0]| - 1];
        }
      }
    }
  }

  lemma {:induction false} JoinStartsWithFirst(ws: seq<string>)
    requires |ws| > 0
    ensures |Join(ws, "-")| >= |ws[0]| && Join(ws, "-")[..|ws[0]|] == ws[0]
  {
  }

  /** Every slug has the shape `IsSlug` describes. */
  lemma SlugShape(s: string)
    ensures IsSlug(Slug(s))
  {
    JoinedWordsAreSlug(Words(s));
  }

  /** A run of letters and digits, a space, then anything: one word, then
      the words of the rest. */
  lemma WordThenRest(a: string, rest: string)
    requires |a| > 0 && forall i :: 0 <= i < |a| ==> IsAlnum(a[i])
    ensures Words(a + " " + rest) == [LowerAll(a)] + Words(rest)
  {
    WordsOfRun(a, " " + rest);
    assert a + " " + rest == a + (" " + rest);
    assert (" " + rest)[1..] == rest;
  }

  lemma SingleWord(a: string)
    requires |a| > 0 && forall i :: 0 <= i < |a| ==> IsAlnum(a[i])
    ensures Words(a) == [LowerAll(a)]
  {
    WordsOfRun(a, []);
    assert a + [] == a;
  }

  /** Two space-separated runs of letters are two words. */
  lemma TwoWords(a: string, b: string)
    requires |a| > 0 && forall i :: 0 <= i < |a| ==> IsAlnum(a[i])
    requires |b| > 0 && forall i :: 0 <= i < |b| ==> IsAlnum(b[i])
    ensures Words(a + " " + b) == [LowerAll(a), LowerAll(b)]
  {
    WordThenRest(a, b);
    SingleWord(b);
  }

  /** Three space-separated runs of letters are three words. */
  lemma ThreeWords(a: string, b: string, c: string)
    requires |a| > 0 && forall i :: 0 <= i < |a| ==> IsAlnum(a[i])
    requires |b| > 0 && forall i :: 0 <= i < |b| ==> IsAlnum(b[i])
    requires |c| > 0 && forall i :: 0 <= i < |c| ==> IsAlnum(c[i])
    ensures Words(a + " " + b + " " + c) == [LowerAll(a), LowerAll(b), LowerAll(c)]
  {
    var rest := b + " " + c;
    Regroup(a + " " + b, a, b, " ", c);
    WordThenRest(a, rest);
    TwoWords(b, c);
    ConsPair(Words(a + " " + b + " " + c), LowerAll(a), Words(rest), LowerAll(b), LowerAll(c));
  }

  lemma ConsPair<T>(w: seq<T>, x: T, r: seq<T>, y: T, z: T)
    requires w == [x] + r && r == [y, z]
    ensures w == [x, y, z]
  {
  }

  lemma LowerAllIs(s: string, t: string)
    requires forall i :: 0 <= i < |s| ==> IsAlnum(s[i])
    requires |s| == |t| && forall i :: 0 <= i < |s| ==> Lower(s[i]) == t[i]
    ensures LowerAll(s) == t
  {
  }

  lemma TwoWordsOfWords(a: string, b: string)
    requires IsWord(a) && IsWord(b)
    ensures Words(a + " " + b) == [a, b]
  {
    TwoWords(a, b);
    LowerAllOfWord(a);
    LowerAllOfWord(b);
  }

  lemma ThreeWordsOfWords(a: string, b: string, c: string)
    requires IsWord(a) && IsWord(b) && IsWord(c)
    ensures Words(a + " " + b + " " + c) == [a, b, c]
  {
    ThreeWords(a, b, c);
    LowerAllOfWord(a);
    LowerAllOfWord(b);
    LowerAllOfWord(c);
  }
}

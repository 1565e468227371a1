/** The scoped-id composer shared by the four base classes: keep the parts
    that are strings, (trim and) slugify each, join with "-", then replace
    every "-" of the result with the caller's separator. The replacement is
    JavaScript's `replace(/-/g, separator)`, so `$$`, `$&`, `` $` `` and `$'`
    in the separator are replacement patterns. */
module Naming {
  import opened Wrappers
  import opened JsStrings
  import opened Slugify

  /** The parts that are strings, in their order; `None` stands for every
      value that is not a string (`undefined`, `null`, numbers, ...). */
  function StringsOf(parts: seq<Option<string>>): (r: seq<string>)
    ensures |r| <= |parts|
    ensures forall s :: s in r <==> Some(s) in parts
  {
    if parts == [] then []
    else (if parts[0].Some? then [parts[0].value] else []) + StringsOf(parts[1..])
  }

  /** Filtering distributes over concatenation: the order of the kept parts
      is the order of the input. */
  lemma {:induction false} StringsOfAppend(a: seq<Option<string>>, b: seq<Option<string>>)
    ensures StringsOf(a + b) == StringsOf(a) + StringsOf(b)
  {
    if a != [] {
      assert (a + b)[1..] == a[1..] + b;
      StringsOfAppend(a[1..], b);
    } else {
      assert a + b == b;
    }
  }

  /** What one match of "-" is replaced with: the separator with its
      replacement patterns expanded (`before` and `after` are the parts of
      the input around the match; there are no capture groups, so `$1` or
      `$<` stay literal). */
  function Expand(sep: string, before: string, after: string): (r: string)
    ensures '$' !in sep ==> r == sep
    decreases |sep|
  {
    if |sep| == 0 then ""
    else if sep[0] == '$' && |sep| >= 2 && sep[1] in "$&`'" then
      (if sep[1] == '$' then "$" else if sep[1] == '&' then "-"
       else if sep[1] == '`' then before else after)
      + Expand(sep[2..], before, after)
    else [sep[0]] + Expand(sep[1..], before, after)
  }

  /** Every "-" of `s` replaced by `sep` taken literally. */
  function SubstituteHyphens(s: string, sep: string): (r: string)
    ensures sep == "-" ==> r == s
    ensures '-' !in s ==> r == s
    ensures forall i :: 0 <= i < |r| ==> (r[i] in s && r[i] != '-') || r[i] in sep
  {
    if s == [] then []
    else
      var rest := SubstituteHyphens(s[1..], sep);
      var head := if s[0] == '-' then sep else [s[0]];
      assert forall i :: 0 <= i < |rest| && rest[i] in s[1..] ==> rest[i] in s;
      head + rest
  }

  lemma {:induction false} SubstituteAppend(a: string, b: string, sep: string)
    ensures SubstituteHyphens(a + b, sep) == SubstituteHyphens(a, sep) + SubstituteHyphens(b, sep)
  {
    if a != [] {
      var head := if a[0] == '-' then sep else [a[0]];
      assert SubstituteHyphens(a + b, sep) == head + SubstituteHyphens(a[1..] + b, sep) by {
        assert (a + b)[0] == a[0];
        assert (a + b)[1..] == a[1..] + b;
      }
      SubstituteAppend(a[1..], b, sep);
      Assoc(head, SubstituteHyphens(a[1..], sep), SubstituteHyphens(b, sep));
    } else {
      assert a + b == b;
    }
  }

  function ReplaceFrom(s: string, i: nat, sep: string): (r: string)
    requires i <= |s|
    ensures '$' !in sep ==> r == SubstituteHyphens(s[i..], sep)
    decreases |s| - i
  {
    if i == |s| then ""
    else
      assert s[i..][1..] == s[i + 1..];
      (if s[i] == '-' then Expand(sep, s[..i], s[i + 1..]) else [s[i]])
      + ReplaceFrom(s, i + 1, sep)
  }

  /** `s.replace(/-/g, sep)`: every "-" replaced, patterns in `sep` expanded.
      A separator without `$` is inserted literally. */
  function ReplaceHyphens(s: string, sep: string): (r: string)
    ensures '$' !in sep ==> r == SubstituteHyphens(s, sep)
  {
    assert s[0..] == s;
    ReplaceFrom(s, 0, sep)
  }

  /** The separator is not always literal: `$$` inserts one `$`, `$&` the
      matched "-", and `` $` `` the text before the match. */
  lemma ReplacementPatterns()
    ensures ReplaceHyphens("a-b", "$$") == "a$b"
    ensures ReplaceHyphens("a-b", "$&") == "a-b"
    ensures ReplaceHyphens("a-b", "$`") == "aab"
  {
    DollarPattern();
    MatchPattern();
    BeforePattern();
  }

  lemma DollarPattern()
    ensures ReplaceHyphens("a-b", "$$") == "a$b"
  {
  }

  lemma MatchPattern()
    ensures ReplaceHyphens("a-b", "$&") == "a-b"
  {
  }

  lemma BeforePattern()
    ensures ReplaceHyphens("a-b", "$`") == "aab"
  {
  }

  function Slugs(xs: seq<string>): (r: seq<string>)
    ensures |r| == |xs|
  {
    seq(|xs|, i requires 0 <= i < |xs| => Slug(xs[i]))
  }

  function TrimmedSlugs(xs: seq<string>): (r: seq<string>)
    ensures |r| == |xs|
  {
    seq(|xs|, i requires 0 <= i < |xs| => Slug(Trim(xs[i])))
  }

  /** The static `stringify(parts, replacement)` of the stack, stage and
      construct classes: no trimming. */
  function Stringify(parts: seq<Option<string>>, sep: string): string {
    ReplaceHyphens(Join(Slugs(StringsOf(parts)), "-"), sep)
  }

  /** The body of the `__` helpers: like `Stringify`, but each part is
      trimmed before it is slugified. */
  function ScopedId(parts: seq<Option<string>>, sep: string): string {
    ReplaceHyphens(Join(TrimmedSlugs(StringsOf(parts)), "-"), sep)
  }

  /** Trimming before slugifying changes nothing: the `__` helpers and
      `stringify` compose the same id from the same parts. */
  lemma ScopedIdIsStringify(parts: seq<Option<string>>, sep: string)
    ensures ScopedId(parts, sep) == Stringify(parts, sep)
  {
    var xs := StringsOf(parts);
    forall i | 0 <= i < |xs| ensures TrimmedSlugs(xs)[i] == Slugs(xs)[i] {
      SlugIgnoresTrim(xs[i]);
    }
    assert TrimmedSlugs(xs) == Slugs(xs);
  }

  /** Parts that are not strings contribute nothing wherever they stand. */
  lemma NonStringsIgnored(a: seq<Option<string>>, b: seq<Option<string>>, sep: string)
    ensures Stringify(a + [None] + b, sep) == Stringify(a + b, sep)
  {
    StringsOfAppend(a + [None], b);
    StringsOfAppend(a, [None]);
    StringsOfAppend(a, b);
    assert StringsOf([None]) == [];
    assert StringsOf(a) + [] == StringsOf(a);
  }

  /** With no string among the parts the id is empty. */
  lemma NoStringsEmpty(parts: seq<Option<string>>, sep: string)
    requires forall k :: 0 <= k < |parts| ==> parts[k].None?
    ensures Stringify(parts, sep) == ""
  {
    NoStrings(parts);
  }

  lemma {:induction false} NoStrings(parts: seq<Option<string>>)
    requires forall k :: 0 <= k < |parts| ==> parts[k].None?
    ensures StringsOf(parts) == []
  {
    if parts != [] {
      NoStrings(parts[1..]);
    }
  }

  /** With the default separator the id is the plain "-" join of the slugs. */
  lemma DefaultSeparator(parts: seq<Option<string>>)
    ensures Stringify(parts, "-") == Join(Slugs(StringsOf(parts)), "-")
  {
  }

  /** A separator without "-" (and without `$`) leaves no "-" in the id. */
  lemma NoHyphenLeft(parts: seq<Option<string>>, sep: string)
    requires '-' !in sep && '$' !in sep
    ensures '-' !in Stringify(parts, sep)
  {
  }

  /** An id holds only lower-case letters, digits and characters of the
      separator. */
  lemma IdAlphabet(parts: seq<Option<string>>, sep: string)
    requires '$' !in sep
    ensures forall i :: 0 <= i < |Stringify(parts, sep)| ==>
      IsLowerAlnum(Stringify(parts, sep)[i]) || Stringify(parts, sep)[i] in sep
  {
    var xs := Slugs(StringsOf(parts));
    forall k | 0 <= k < |xs| ensures IsSlug(xs[k]) {
      SlugShape(StringsOf(parts)[k]);
    }
    JoinOfSlugsAlphabet(xs);
  }

  lemma {:induction false} JoinOfSlugsAlphabet(xs: seq<string>)
    requires forall k :: 0 <= k < |xs| ==> IsSlug(xs[k])
    ensures forall i :: 0 <= i < |Join(xs, "-")| ==> IsLowerAlnum(Join(xs, "-")[i]) || Join(xs, "-")[i] == '-'
  {
    if |xs| > 1 {
      JoinOfSlugsAlphabet(xs[1..]);
      var rest := Join(xs[1..], "-");
      assert Join(xs, "-") == xs[0] + "-" + rest;
      forall i | 0 <= i < |Join(xs, "-")|
        ensures IsLowerAlnum(Join(xs, "-")[i]) || Join(xs, "-")[i] == '-'
      {
        if i > |xs[0]| {
          assert Join(xs, "-")[i] == rest[i - |xs[0]| - 1];
        }
      }
    }
  }

  /** The words of a composed id are the words of its string parts, in
      order, for every separator made of one or more characters that are not
      letters or digits: the separator only ever stands between words. */
  lemma IdWords(parts: seq<Option<string>>, sep: string)
    requires |sep| > 0 && '$' !in sep
    requires forall i :: 0 <= i < |sep| ==> !IsAlnum(sep[i])
    ensures Words(Stringify(parts, sep)) == AllWords(StringsOf(parts))
  {
    var xs := StringsOf(parts);
    var j := Join(Slugs(xs), "-");
    WordsOfSubstituted(j, sep);
    WordsOfHyphenJoin(Slugs(xs));
    AllWordsOfSlugs(xs);
  }

  /** The words of each string, concatenated. */
  function AllWords(xs: seq<string>): seq<string> {
    if xs == [] then [] else Words(xs[0]) + AllWords(xs[1..])
  }

  lemma StringsOfOne(x: string)
    ensures StringsOf([Some(x)]) == [x]
  {
    assert [Some(x)][1..] == [];
  }

  lemma AllWordsOne(x: string)
    ensures AllWords([x]) == Words(x)
  {
    assert [x][1..] == [];
    assert Words(x) + [] == Words(x);
  }

  lemma {:induction false} AllWordsAppend(a: seq<string>, b: seq<string>)
    ensures AllWords(a + b) == AllWords(a) + AllWords(b)
  {
    if a != [] {
      assert (a + b)[1..] == a[1..] + b;
      AllWordsAppend(a[1..], b);
    } else {
      assert a + b == b;
    }
  }

  lemma {:induction false} AllWordsOfSlugs(xs: seq<string>)
    ensures AllWords(Slugs(xs)) == AllWords(xs)
  {
    if xs != [] {
      SlugWords(xs[0]);
      assert Slugs(xs)[1..] == Slugs(xs[1..]);
      AllWordsOfSlugs(xs[1..]);
    }
  }

  lemma SlugWords(s: string)
    ensures Words(Slug(s)) == Words(s)
  {
    WordsOfSlugWords(Words(s));
  }

  lemma {:induction false} RunLengthAppend(x: string, t: string)
    requires t == [] || !IsAlnum(t[0])
    ensures RunLength(x + t) == RunLength(x)
  {
    if x != [] && IsAlnum(x[0]) {
      assert (x + t)[1..] == x[1..] + t;
      RunLengthAppend(x[1..], t);
    } else if x == [] {
      assert x + t == t;
    }
  }

  /** A character that is not a letter or digit splits the words. */
  lemma {:induction false} WordsSplitAt(x: string, c: char, y: string)
    requires !IsAlnum(c)
    ensures Words(x + [c] + y) == Words(x) + Words(y)
    decreases |x|
  {
    var s := x + [c] + y;
    if x == [] {
      assert s == [c] + y;
      assert s[1..] == y;
    } else if !IsAlnum(x[0]) {
      assert s[1..] == x[1..] + [c] + y;
      WordsSplitAt(x[1..], c, y);
    } else {
      var n := RunLength(x);
      RunLengthAppend(x, [c] + y);
      assert s == x + ([c] + y);
      assert s[..n] == x[..n];
      assert s[n..] == x[n..] + [c] + y;
      WordsSplitAt(x[n..], c, y);
    }
  }

  lemma WordsSplitAtSep(x: string, sep: string, y: string)
    requires |sep| > 0
    requires forall i :: 0 <= i < |sep| ==> !IsAlnum(sep[i])
    ensures Words(x + sep + y) == Words(x) + Words(y)
  {
    assert x + sep + y == x + [sep[0]] + (sep[1..] + y);
    WordsSplitAt(x, sep[0], sep[1..] + y);
    WordsSkipsLeading(sep[1..], y);
  }

  /** Replacing each "-" by a separator of non-alphanumeric characters keeps
      the words. */
  lemma {:induction false} WordsOfSubstituted(s: string, sep: string)
    requires |sep| > 0
    requires forall i :: 0 <= i < |sep| ==> !IsAlnum(sep[i])
    ensures Words(SubstituteHyphens(s, sep)) == Words(s)
    decreases |s|
  {
    if '-' in s {
      var i :| 0 <= i < |s| && s[i] == '-';
      var x, y := s[..i], s[i + 1..];
      assert s == x + "-" + y;
      SubstitutePair(x, y, sep);
      WordsOfSubstituted(x, sep);
      WordsOfSubstituted(y, sep);
      WordsSplitAtSep(SubstituteHyphens(x, sep), sep, SubstituteHyphens(y, sep));
      WordsSplitAt(x, '-', y);
    }
  }

  lemma {:induction false} WordsOfHyphenJoin(xs: seq<string>)
    ensures Words(Join(xs, "-")) == AllWords(xs)
  {
    if |xs| == 1 {
      assert AllWords(xs) == Words(xs[0]) + [];
    } else if |xs| > 1 {
      WordsOfHyphenJoin(xs[1..]);
      WordsSplitAt(xs[0], '-', Join(xs[1..], "-"));
      assert xs[0] + "-" + Join(xs[1..], "-") == xs[0] + ['-'] + Join(xs[1..], "-");
    }
  }

  /** When every string part has at least one word, the id is all their
      words, in order, joined by the separator: the separator stands at word
      boundaries inside a part exactly as it does between parts. */
  lemma IdIsJoinedWords(parts: seq<Option<string>>, sep: string)
    requires '$' !in sep
    requires forall k :: 0 <= k < |StringsOf(parts)| ==> Words(StringsOf(parts)[k]) != []
    ensures Stringify(parts, sep) == Join(AllWords(StringsOf(parts)), sep)
  {
    var xs := StringsOf(parts);
    JoinSlugs(xs);
    AllWordsAreWords(xs);
    SubstituteJoin(AllWords(xs), sep);
  }

  lemma {:induction false} AllWordsAreWords(xs: seq<string>)
    ensures forall k :: 0 <= k < |AllWords(xs)| ==> IsWord(AllWords(xs)[k])
  {
    if xs != [] {
      AllWordsAreWords(xs[1..]);
      var w := Words(xs[0]);
      forall k | 0 <= k < |AllWords(xs)| ensures IsWord(AllWords(xs)[k]) {
        if k >= |w| {
          assert AllWords(xs)[k] == AllWords(xs[1..])[k - |w|];
        }
      }
    }
  }

  lemma {:induction false} JoinAppend(a: seq<string>, b: seq<string>, sep: string)
    requires a != [] && b != []
    ensures Join(a + b, sep) == Join(a, sep) + sep + Join(b, sep)
  {
    if |a| == 1 {
      assert (a + b)[1..] == b;
    } else {
      assert (a + b)[1..] == a[1..] + b;
      JoinAppend(a[1..], b, sep);
    }
  }

  lemma {:induction false} JoinSlugs(xs: seq<string>)
    requires forall k :: 0 <= k < |xs| ==> Words(xs[k]) != []
    ensures Join(Slugs(xs), "-") == Join(AllWords(xs), "-")
    ensures xs != [] ==> AllWords(xs) != []
  {
    if |xs| == 1 {
      assert xs[1..] == [];
      assert AllWords(xs) == Words(xs[0]) + [] == Words(xs[0]);
      assert Slugs(xs) == [Slug(xs[0])];
      assert Join(Slugs(xs), "-") == Slug(xs[0]) == Join(Words(xs[0]), "-");
    } else if |xs| > 1 {
      JoinSlugs(xs[1..]);
      assert Slugs(xs)[1..] == Slugs(xs[1..]);
      JoinAppend(Words(xs[0]), AllWords(xs[1..]), "-");
    }
  }

  lemma {:induction false} SubstituteJoin(ws: seq<string>, sep: string)
    requires forall k :: 0 <= k < |ws| ==> IsWord(ws[k])
    ensures SubstituteHyphens(Join(ws, "-"), sep) == Join(ws, sep)
  {
    if |ws| == 1 {
      assert '-' !in ws[0] by { assert IsWord(ws[0]); }
    } else if |ws| > 1 {
      assert IsWord(ws[0]) && '-' !in ws[0];
      SubstituteJoin(ws[1..], sep);
      SubstitutePair(ws[0], Join(ws[1..], "-"), sep);
    }
  }

  /** Replacing around one "-": the two sides are replaced on their own,
      and the "-" itself becomes the separator. */
  lemma SubstitutePair(a: string, b: string, sep: string)
    ensures SubstituteHyphens(a + "-" + b, sep) == SubstituteHyphens(a, sep) + sep + SubstituteHyphens(b, sep)
  {
    assert SubstituteHyphens("-", sep) == sep + [];
    assert SubstituteHyphens(a + "-", sep) == SubstituteHyphens(a, sep) + sep by {
      SubstituteAppend(a, "-", sep);
    }
    SubstituteAppend(a + "-", b, sep);
  }

  /** A single part: its words joined by the separator. */
  lemma StringifyOne(x: string, sep: string)
    requires '$' !in sep
    ensures Stringify([Some(x)], sep) == Join(Words(x), sep)
  {
    StringsOfOne(x);
    assert Slugs([x]) == [Slug(x)];
    SubstituteJoin(Words(x), sep);
  }

  /** A part followed by more parts, the first of them a string: the part's
      words joined by the separator, the separator, then the rest's id.
      The id is composed part by part, left to right. */
  lemma StringifyCons(x: string, rest: seq<Option<string>>, sep: string)
    requires '$' !in sep && rest != [] && rest[0].Some?
    ensures Stringify([Some(x)] + rest, sep) == Join(Words(x), sep) + sep + Stringify(rest, sep)
  {
    var xs := StringsOf(rest);
    StringsOfCons(x, rest);
    SlugsCons(x, xs);
    SubstitutePair(Slug(x), Join(Slugs(xs), "-"), sep);
    SubstituteJoin(Words(x), sep);
  }

  lemma StringsOfCons(x: string, rest: seq<Option<string>>)
    requires rest != [] && rest[0].Some?
    ensures StringsOf([Some(x)] + rest) == [x] + StringsOf(rest)
    ensures StringsOf(rest) != []
  {
    assert ([Some(x)] + rest)[1..] == rest;
  }

  lemma SlugsCons(x: string, xs: seq<string>)
    requires xs != []
    ensures Join(Slugs([x] + xs), "-") == Slug(x) + "-" + Join(Slugs(xs), "-")
  {
    var slugs := Slugs([x] + xs);
    assert slugs[0] == Slug(x);
    assert slugs[1..] == Slugs(xs);
  }

  /** Segment boundaries and word boundaries look the same in an id: two
      one-word parts, and one part holding both words, compose the same id
      whatever the separator. */
  lemma SegmentsIndistinguishable(a: string, b: string, sep: string)
    requires IsWord(a) && IsWord(b) && '$' !in sep
    ensures Stringify([Some(a), Some(b)], sep) == Stringify([Some(a + " " + b)], sep)
  {
    StringifyTwoWords(a, b, sep);
    StringifyPhrase(a, b, sep);
  }

  lemma StringifyTwoWords(a: string, b: string, sep: string)
    requires IsWord(a) && IsWord(b) && '$' !in sep
    ensures Stringify([Some(a), Some(b)], sep) == Join([a, b], sep)
  {
    assert StringsOf([Some(a), Some(b)]) == [a, b];
    assert Words(a) != [] && Words(b) != [] by {
      WordsOfWord(a);
      WordsOfWord(b);
    }
    IdIsJoinedWords([Some(a), Some(b)], sep);
    AllWordsOfTwoWords(a, b);
  }

  lemma StringifyPhrase(a: string, b: string, sep: string)
    requires IsWord(a) && IsWord(b) && '$' !in sep
    ensures Stringify([Some(a + " " + b)], sep) == Join([a, b], sep)
  {
    var ab := a + " " + b;
    assert Words(ab) == [a, b] by {
      TwoWordsOfWords(a, b);
    }
    assert StringsOf([Some(ab)]) == [ab];
    IdIsJoinedWords([Some(ab)], sep);
    assert AllWords([ab]) == [a, b] + [];
  }

  lemma AllWordsOfTwoWords(a: string, b: string)
    requires IsWord(a) && IsWord(b)
    ensures AllWords([a, b]) == [a, b]
  {
    WordsOfWord(a);
    WordsOfWord(b);
    assert [a, b] == [a] + [b];
    AllWordsAppend([a], [b]);
    AllWordsOne(a);
    AllWordsOne(b);
  }
}

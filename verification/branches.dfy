/** The branch choices the setup script offers for the pipeline
    (lib/scripts/bootstrap.ts, the `choices` of the `PIPELINE_BRANCH`
    question): one entry per line of `git ls-remote` that names a branch
    head. The command's trimmed output is the parameter `text`. */
module Branches {
  import opened JsStrings
  import opened Prompts

  const HeadsMarker: string := "refs/heads/"

  lemma MarkerNoSelfOverlap()
    ensures NoSelfOverlap(HeadsMarker)
  {
  }

  /** `line.split("refs/heads/").pop().trim()`: the trimmed text after the
      last marker. */
  function BranchOf(line: string): string {
    Trim(Last(Split(line, HeadsMarker)))
  }

  /** The entry a line adds to the accumulator, if any. */
  function ChoicesOfLine(line: string): (r: seq<Choice>)
    ensures |r| <= 1
  {
    if Includes(line, HeadsMarker) then [Choice(BranchOf(line), BranchOf(line))] else []
  }

  /** The `reduce` over the lines, as a specification: each line's entry
      appended after those of the lines before it. */
  function BranchChoices(lines: seq<string>): seq<Choice>
    decreases |lines|
  {
    if lines == [] then []
    else BranchChoices(lines[..|lines| - 1]) + ChoicesOfLine(Last(lines))
  }

  /** The `choices` callback: splits the output into lines and pushes one
      entry per line that names a branch head. */
  method ParseBranches(text: string) returns (acc: seq<Choice>)
    ensures acc == BranchChoices(Split(text, "\n"))
  {
    var lines := Split(text, "\n");
    acc := [];
    var i := 0;
    while i < |lines|
      invariant 0 <= i <= |lines|
      invariant acc == BranchChoices(lines[..i])
    {
      var line := lines[i];
      BranchChoicesStep(lines, i);
      if Includes(line, HeadsMarker) {
        var branch := BranchOf(line);
        acc := acc + [Choice(branch, branch)];
      }
      i := i + 1;
    }
    assert lines[..|lines|] == lines;
  }

  lemma BranchChoicesStep(lines: seq<string>, i: nat)
    requires i < |lines|
    ensures BranchChoices(lines[..i + 1]) == BranchChoices(lines[..i]) + ChoicesOfLine(lines[i])
  {
    assert lines[..i + 1][..i] == lines[..i];
  }

  /** The lines that name a branch head, in order: an independent
      definition of which lines contribute. */
  function MarkedLines(lines: seq<string>): (r: seq<string>)
    ensures |r| <= |lines|
    ensures forall i :: 0 <= i < |r| ==> Includes(r[i], HeadsMarker)
    decreases |lines|
  {
    if lines == [] then []
    else (if Includes(lines[0], HeadsMarker) then [lines[0]] else []) + MarkedLines(lines[1..])
  }

  lemma {:induction false} MarkedLinesAppend(a: seq<string>, b: seq<string>)
    ensures MarkedLines(a + b) == MarkedLines(a) + MarkedLines(b)
    decreases |a|
  {
    if a == [] {
      assert a + b == b;
    } else {
      assert (a + b)[0] == a[0];
      assert (a + b)[1..] == a[1..] + b;
      MarkedLinesAppend(a[1..], b);
    }
  }

  /** One entry per line, named and valued after the line's branch. */
  function EntriesFor(ls: seq<string>): (r: seq<Choice>)
    ensures |r| == |ls|
    ensures forall i :: 0 <= i < |ls| ==> r[i] == Choice(BranchOf(ls[i]), BranchOf(ls[i]))
  {
    seq(|ls|, i requires 0 <= i < |ls| => Choice(BranchOf(ls[i]), BranchOf(ls[i])))
  }

  lemma EntriesForAppend(a: seq<string>, b: seq<string>)
    ensures EntriesFor(a + b) == EntriesFor(a) + EntriesFor(b)
  {
  }

  /** Exactly one entry per marked line, in line order, whose name and
      value are both that line's branch. */
  lemma {:induction false} ChoicesFollowMarkedLines(lines: seq<string>)
    ensures BranchChoices(lines) == EntriesFor(MarkedLines(lines))
    decreases |lines|
  {
    if lines != [] {
      var front, line := lines[..|lines| - 1], Last(lines);
      ChoicesFollowMarkedLines(front);
      assert lines == front + [line];
      MarkedLinesAppend(front, [line]);
      EntriesForAppend(MarkedLines(front), MarkedLines([line]));
      MarkedLinesOne(line);
    }
  }

  lemma MarkedLinesOne(line: string)
    ensures EntriesFor(MarkedLines([line])) == ChoicesOfLine(line)
  {
    assert [line][1..] == [];
  }

  /** A branch never contains the marker: it is taken from after the last one. */
  lemma BranchHasNoMarker(line: string)
    ensures !Includes(BranchOf(line), HeadsMarker)
  {
    TrimKeepsExclusion(Last(Split(line, HeadsMarker)), HeadsMarker);
  }

  /** A `git ls-remote` line `<hash>\trefs/heads/<branch>` gives `<branch>`,
      trimmed, whatever comes before the marker. */
  lemma LsRemoteLine(before: string, branch: string)
    requires !Includes(branch, HeadsMarker)
    ensures Includes(before + HeadsMarker + branch, HeadsMarker)
    ensures BranchOf(before + HeadsMarker + branch) == Trim(branch)
  {
    MarkerNoSelfOverlap();
    SplitLast(before, HeadsMarker, branch);
    FirstOccurrenceBound(before, HeadsMarker, branch);
  }

  /** Lines without the marker add nothing. */
  lemma UnmarkedLinesIgnored(lines: seq<string>, line: string)
    requires !Includes(line, HeadsMarker)
    ensures BranchChoices(lines + [line]) == BranchChoices(lines)
  {
    assert (lines + [line])[..|lines|] == lines;
  }
}

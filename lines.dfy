/** Text as a sequence of lines: joining lines with '\n' and splitting a
    text at its line breaks, which undo each other. */
module Lines {

  /** A piece of text without a line break. */
  type Line = s: string | '\n' !in s

  /** The lines `ls` separated by line breaks, with none after the last. */
  function JoinLines(ls: seq<Line>): string
    requires |ls| > 0
  {
    if |ls| == 1 then ls[0] else ls[0] + "\n" + JoinLines(ls[1..])
  }

  /** Index of the first line break of `s`. */
  function FirstBreak(s: string): (i: nat)
    requires '\n' in s
    ensures i < |s| && s[i] == '\n' && '\n' !in s[..i]
  {
    if s[0] == '\n' then 0 else 1 + FirstBreak(s[1..])
  }

  /** The pieces of `s` between its line breaks. */
  function SplitLines(s: string): (ls: seq<Line>)
    ensures |ls| > 0
    decreases |s|
  {
    if '\n' !in s then [s] else
      var i := FirstBreak(s);
      [s[..i]] + SplitLines(s[i + 1..])
  }

  lemma {:induction false} FirstBreakAfter(l: Line, t: string)
    ensures FirstBreak(l + "\n" + t) == |l|
  {
    if l != [] {
      assert (l + "\n" + t)[1..] == l[1..] + "\n" + t;
      FirstBreakAfter(l[1..], t);
    }
  }

  /** Splitting a line followed by a break splits off that line. */
  lemma SplitAfterLine(l: Line, t: string)
    ensures SplitLines(l + "\n" + t) == [l] + SplitLines(t)
  {
    var s := l + "\n" + t;
    FirstBreakAfter(l, t);
    assert s[|l|] == '\n';
    assert s[..|l|] == l;
    assert s[|l| + 1..] == t;
  }

  /** Splitting undoes joining. */
  lemma {:induction false} SplitJoin(ls: seq<Line>)
    requires |ls| > 0
    ensures SplitLines(JoinLines(ls)) == ls
  {
    if |ls| > 1 {
      SplitJoin(ls[1..]);
      SplitJoinStep(ls[0], ls[1..]);
      assert [ls[0]] + ls[1..] == ls;
    }
  }

  /** One more line in front: if splitting undoes joining for `rest`, it
      does so for `[l] + rest`. */
  lemma SplitJoinStep(l: Line, rest: seq<Line>)
    requires |rest| > 0 && SplitLines(JoinLines(rest)) == rest
    ensures SplitLines(JoinLines([l] + rest)) == [l] + rest
  {
    assert ([l] + rest)[1..] == rest;
    assert JoinLines([l] + rest) == l + "\n" + JoinLines(rest);
    SplitAfterLine(l, JoinLines(rest));
  }

  /** Joining two groups of lines puts one line break between them. */
  lemma {:induction false} JoinAppend(a: seq<Line>, b: seq<Line>)
    requires |a| > 0 && |b| > 0
    ensures JoinLines(a + b) == JoinLines(a) + "\n" + JoinLines(b)
  {
    if |a| > 1 {
      assert (a + b)[1..] == a[1..] + b;
      JoinAppend(a[1..], b);
    } else {
      assert (a + b)[1..] == b;
    }
  }
}

/**
 * The two Python string operations the intake handler relies on:
 * `line.split(",")` (fields separated by one character, empty fields kept)
 * and `text.splitlines()` (lines separated by any line boundary, with no
 * trailing empty line).
 */
module Text {

  /** Index of the first occurrence of `c` in `s`, or `|s|` when there is none. */
  function IndexOf(s: string, c: char): (i: nat)
    ensures i <= |s|
    ensures i < |s| ==> s[i] == c
    ensures forall j :: 0 <= j < i ==> s[j] != c
  {
    if s == [] then 0
    else if s[0] == c then 0
    else 1 + IndexOf(s[1..], c)
  }

  /** Python's `s.split(c)`: always at least one field, and no field holds `c`. */
  function Split(s: string, c: char): (fields: seq<string>)
    ensures |fields| >= 1
    ensures forall k :: 0 <= k < |fields| ==> c !in fields[k]
    decreases |s|
  {
    var i := IndexOf(s, c);
    if i == |s| then [s]
    else [s[..i]] + Split(s[i + 1..], c)
  }

  /** Python's `c.join(fields)`. */
  function Join(fields: seq<string>, c: char): string
    requires |fields| >= 1
  {
    if |fields| == 1 then fields[0]
    else fields[0] + [c] + Join(fields[1..], c)
  }

  /** Number of occurrences of `c` in `s`. */
  function Occurrences(s: string, c: char): nat
  {
    multiset(s)[c]
  }

  /** One step of `Split`: the text before the first separator, then the fields of the rest. */
  lemma SplitStep(s: string, c: char)
    requires IndexOf(s, c) < |s|
    ensures Split(s, c) == [s[..IndexOf(s, c)]] + Split(s[IndexOf(s, c) + 1..], c)
  {
  }

  /** One step of `Join`. */
  lemma JoinStep(f: string, fields: seq<string>, c: char)
    requires |fields| >= 1
    ensures Join([f] + fields, c) == f + [c] + Join(fields, c)
  {
    assert ([f] + fields)[1..] == fields;
  }

  /** Splitting and joining again gives back the original string. */
  lemma {:induction false} JoinSplit(s: string, c: char)
    ensures Join(Split(s, c), c) == s
    decreases |s|
  {
    var i := IndexOf(s, c);
    if i < |s| {
      var rest := s[i + 1..];
      SplitStep(s, c);
      JoinSplit(rest, c);
      JoinStep(s[..i], Split(rest, c), c);
      Partition(s, i, i + 1);
      assert s[i..i + 1] == [c];
    }
  }

  /** A text is its three pieces around two cut points. */
  lemma Partition(s: string, i: nat, j: nat)
    requires i <= j <= |s|
    ensures s == s[..i] + s[i..j] + s[j..]
  {
    assert s[..i] + s[i..j] == s[..j];
    assert s[..j] + s[j..] == s;
  }

  /** Fields that do not hold the separator survive a join followed by a split. */
  lemma {:induction false} SplitJoin(fields: seq<string>, c: char)
    requires |fields| >= 1
    requires forall k :: 0 <= k < |fields| ==> c !in fields[k]
    ensures Split(Join(fields, c), c) == fields
  {
    if |fields| > 1 {
      var f := fields[0];
      var tail := fields[1..];
      assert fields == [f] + tail;
      var rest := Join(tail, c);
      JoinStep(f, tail, c);
      var s := Join(fields, c);
      assert s == f + ([c] + rest);
      IndexOfPrefix(f, [c] + rest, c);
      assert IndexOf(s, c) == |f|;
      SplitStep(s, c);
      assert s[..|f|] == f;
      assert s[|f| + 1..] == rest;
      assert forall k :: 0 <= k < |tail| ==> tail[k] == fields[k + 1];
      SplitJoin(tail, c);
    }
  }

  /** The first separator in `f + rest` is the first one of `rest` when `f` has none. */
  lemma {:induction false} IndexOfPrefix(f: string, rest: string, c: char)
    requires c !in f
    ensures IndexOf(f + rest, c) == |f| + IndexOf(rest, c)
  {
    if f != [] {
      assert (f + rest)[1..] == f[1..] + rest;
      IndexOfPrefix(f[1..], rest, c);
    } else {
      assert f + rest == rest;
    }
  }

  /** There is one more field than there are separators. */
  lemma {:induction false} SplitFieldCount(s: string, c: char)
    ensures |Split(s, c)| == Occurrences(s, c) + 1
    decreases |s|
  {
    var i := IndexOf(s, c);
    if i == |s| {
      assert c !in s;
      assert c !in multiset(s);
    } else {
      SplitFieldCount(s[i + 1..], c);
      assert s == s[..i] + [c] + s[i + 1..];
      assert c !in s[..i];
      assert c !in multiset(s[..i]);
      assert multiset(s) == multiset(s[..i]) + multiset{c} + multiset(s[i + 1..]);
    }
  }

  /** The characters Python's `str.splitlines` treats as line boundaries. */
  predicate IsLineBreak(ch: char)
  {
    ch == '\n' || ch == '\r' || ch == '\U{0B}' || ch == '\U{0C}' ||
    ch == '\U{1C}' || ch == '\U{1D}' || ch == '\U{1E}' ||
    ch == '\U{85}' || ch == '\U{2028}' || ch == '\U{2029}'
  }

  predicate NoLineBreak(s: string)
  {
    forall j :: 0 <= j < |s| ==> !IsLineBreak(s[j])
  }

  /** Index of the first line boundary in `s`, or `|s|` when there is none. */
  function FirstLineBreak(s: string): (i: nat)
    ensures i <= |s|
    ensures i < |s| ==> IsLineBreak(s[i])
    ensures NoLineBreak(s[..i])
  {
    if s == [] then 0
    else if IsLineBreak(s[0]) then 0
    else
      var i := 1 + FirstLineBreak(s[1..]);
      assert forall j :: 1 <= j < i ==> s[..i][j] == s[1..][..i - 1][j - 1];
      i
  }

  /** Width of the boundary at index `i`: 2 for "\r\n", otherwise 1. */
  function BoundaryWidth(s: string, i: nat): (w: nat)
    requires i < |s|
    ensures 1 <= w <= 2 && i + w <= |s|
    ensures w == 2 <==> i + 1 < |s| && s[i] == '\r' && s[i + 1] == '\n'
  {
    if s[i] == '\r' && i + 1 < |s| && s[i + 1] == '\n' then 2 else 1
  }

  /**
   * Python's `text.splitlines()`: "\r\n" is one boundary, every other
   * boundary character is one, and a boundary at the very end does not
   * start an empty last line.
   */
  function SplitLines(s: string): (lines: seq<string>)
    ensures forall k :: 0 <= k < |lines| ==> NoLineBreak(lines[k])
    ensures s == [] <==> lines == []
    decreases |s|
  {
    if s == [] then []
    else
      var i := FirstLineBreak(s);
      if i == |s| then [s]
      else [s[..i]] + SplitLines(s[i + BoundaryWidth(s, i)..])
  }

  /** A line boundary as `SplitLines` consumes it: "\r\n", or one boundary character. */
  predicate IsTerminator(t: string)
  {
    t == "\r\n" || (|t| == 1 && IsLineBreak(t[0]))
  }

  /**
   * The boundary that ended each line of `SplitLines(s)`, in order: ""
   * after a last line that runs to the end of the text.
   */
  function LineEnds(s: string): (ends: seq<string>)
    ensures |ends| == |SplitLines(s)|
    decreases |s|
  {
    if s == [] then []
    else
      var i := FirstLineBreak(s);
      if i == |s| then [[]]
      else [s[i..i + BoundaryWidth(s, i)]] + LineEnds(s[i + BoundaryWidth(s, i)..])
  }

  /** One step of `SplitLines` and `LineEnds` at the first boundary. */
  lemma SplitAtBoundary(s: string)
    requires FirstLineBreak(s) < |s|
    ensures var i := FirstLineBreak(s);
            var rest := s[i + BoundaryWidth(s, i)..];
            && SplitLines(s) == [s[..i]] + SplitLines(rest)
            && LineEnds(s) == [s[i..i + BoundaryWidth(s, i)]] + LineEnds(rest)
  {
  }

  /** The boundary at the first break is a terminator. */
  lemma BoundaryIsTerminator(s: string)
    requires FirstLineBreak(s) < |s|
    ensures IsTerminator(s[FirstLineBreak(s)..FirstLineBreak(s) + BoundaryWidth(s, FirstLineBreak(s))])
  {
    var i := FirstLineBreak(s);
    var e := s[i..i + BoundaryWidth(s, i)];
    if BoundaryWidth(s, i) == 2 {
      assert e == ['\r', '\n'];
    } else {
      assert e == [s[i]];
    }
  }

  /** Each boundary is a terminator, except an empty one after the last line. */
  predicate WellTerminated(ends: seq<string>)
  {
    forall k :: 0 <= k < |ends| ==> IsTerminator(ends[k]) || (k == |ends| - 1 && ends[k] == [])
  }

  lemma WellTerminatedCons(e: string, ends: seq<string>)
    requires IsTerminator(e) && WellTerminated(ends)
    ensures WellTerminated([e] + ends)
  {
    forall k | 1 <= k < |ends| + 1 ensures ([e] + ends)[k] == ends[k - 1] { }
  }

  /** Every line but an unterminated last one is ended by a terminator. */
  lemma {:induction false} LineEndsAreTerminators(s: string)
    ensures WellTerminated(LineEnds(s))
    decreases |s|
  {
    if s != [] {
      var i := FirstLineBreak(s);
      if i == |s| {
        assert LineEnds(s) == [[]];
      } else {
        var rest := s[i + BoundaryWidth(s, i)..];
        SplitAtBoundary(s);
        BoundaryIsTerminator(s);
        LineEndsAreTerminators(rest);
        WellTerminatedCons(s[i..i + BoundaryWidth(s, i)], LineEnds(rest));
      }
    }
  }

  /** Every line followed by its own boundary. */
  function Rejoin(lines: seq<string>, ends: seq<string>): string
    requires |lines| == |ends|
  {
    if lines == [] then [] else lines[0] + ends[0] + Rejoin(lines[1..], ends[1..])
  }

  /** One step of `Rejoin`. */
  lemma RejoinStep(l: string, e: string, lines: seq<string>, ends: seq<string>)
    requires |lines| == |ends|
    ensures Rejoin([l] + lines, [e] + ends) == l + e + Rejoin(lines, ends)
  {
    assert ([l] + lines)[1..] == lines;
    assert ([e] + ends)[1..] == ends;
  }

  /**
   * The split loses nothing: the lines, each followed by the boundary that
   * ended it, are the whole text, whatever boundaries it uses and whether
   * or not its last line is terminated.
   */
  lemma {:induction false} RejoinSplitLines(s: string)
    ensures Rejoin(SplitLines(s), LineEnds(s)) == s
    decreases |s|
  {
    if s != [] {
      var i := FirstLineBreak(s);
      if i == |s| {
        assert Rejoin([s], [[]]) == s + [] + Rejoin([], []);
      } else {
        var w := BoundaryWidth(s, i);
        var rest := s[i + w..];
        SplitAtBoundary(s);
        RejoinSplitLines(rest);
        RejoinStep(s[..i], s[i..i + w], SplitLines(rest), LineEnds(rest));
        Partition(s, i, i + w);
      }
    }
  }

  /**
   * Lines and boundaries that `SplitLines` can produce: the lines have no
   * boundary, every line but the last is terminated, an unterminated last
   * line is not empty, and a lone "\r" is not followed by an empty line
   * ended by "\n" (the two would read as one "\r\n").
   */
  predicate WellEnded(lines: seq<string>, ends: seq<string>)
  {
    && |lines| == |ends|
    && (forall k :: 0 <= k < |lines| ==> NoLineBreak(lines[k]))
    && (forall k :: 0 <= k < |ends| - 1 ==> IsTerminator(ends[k]))
    && (|ends| > 0 ==> IsTerminator(ends[|ends| - 1]) || (ends[|ends| - 1] == [] && lines[|lines| - 1] != []))
    && (forall k :: 0 <= k < |ends| - 1 ==> !(ends[k] == "\r" && lines[k + 1] == [] && ends[k + 1] == "\n"))
  }

  lemma WellEndedTail(lines: seq<string>, ends: seq<string>)
    requires WellEnded(lines, ends) && lines != []
    ensures WellEnded(lines[1..], ends[1..])
  {
    forall k | 0 <= k < |lines| - 1 ensures lines[1..][k] == lines[k + 1] && ends[1..][k] == ends[k + 1] { }
  }

  /** Rejoined well-ended lines start with "\n" only when the first line is empty and ended by "\n". */
  lemma RejoinHead(lines: seq<string>, ends: seq<string>)
    requires WellEnded(lines, ends) && lines != []
    ensures Rejoin(lines, ends) != []
    ensures Rejoin(lines, ends)[0] == '\n' ==> lines[0] == [] && ends[0] == "\n"
  {
    var s := Rejoin(lines, ends);
    assert s == lines[0] + ends[0] + Rejoin(lines[1..], ends[1..]);
    if lines[0] != [] {
      assert s[0] == lines[0][0];
      assert !IsLineBreak(lines[0][0]);
    } else {
      assert IsTerminator(ends[0]);
      assert s[0] == ends[0][0];
    }
  }

  /** The first line of `l + e + rest` ends at `|l|`, and its boundary is `e` itself. */
  lemma BoundaryOfJoin(l: string, e: string, rest: string)
    requires NoLineBreak(l) && IsTerminator(e)
    requires e == "\r" && rest != [] ==> rest[0] != '\n'
    ensures var s := l + e + rest;
            && FirstLineBreak(s) == |l|
            && BoundaryWidth(s, |l|) == |e|
            && s[..|l|] == l && s[|l|..|l| + |e|] == e && s[|l| + |e|..] == rest
  {
    var s := l + e + rest;
    assert s == l + (e + rest);
    FirstLineBreakPrefix(l, e + rest);
    assert (e + rest)[0] == e[0];
    assert s[|l|] == e[0];
    if |e| == 1 && |l| + 1 < |s| {
      assert s[|l| + 1] == rest[0];
    }
    assert s[..|l|] == l;
    assert s[|l|..|l| + |e|] == e;
    assert s[|l| + |e|..] == rest;
  }

  /**
   * Splitting lines joined with boundaries of any kind gives back the
   * lines and their boundaries, "\r\n" endings and an unterminated last
   * line included.
   */
  lemma {:induction false} SplitLinesRejoin(lines: seq<string>, ends: seq<string>)
    requires WellEnded(lines, ends)
    ensures SplitLines(Rejoin(lines, ends)) == lines
    ensures LineEnds(Rejoin(lines, ends)) == ends
  {
    if lines != [] {
      var l, e := lines[0], ends[0];
      var rest := Rejoin(lines[1..], ends[1..]);
      var s := Rejoin(lines, ends);
      assert s == l + e + rest;
      assert lines == [l] + lines[1..] && ends == [e] + ends[1..];
      WellEndedTail(lines, ends);
      SplitLinesRejoin(lines[1..], ends[1..]);
      if e == [] {
        assert rest == [] && s == l;
        FirstLineBreakPrefix(l, []);
        assert l + [] == l;
      } else {
        if e == "\r" && rest != [] {
          RejoinHead(lines[1..], ends[1..]);
        }
        BoundaryOfJoin(l, e, rest);
        SplitAtBoundary(s);
      }
    }
  }

  /** A manifest with "\r\n" endings and no boundary after its last line. */
  lemma SplitLinesCrLfUnterminated()
    ensures SplitLines("a,b\r\nc,d") == ["a,b", "c,d"]
  {
    var lines, ends := ["a,b", "c,d"], ["\r\n", ""];
    assert lines == ["a,b"] + ["c,d"] && ends == ["\r\n"] + [""];
    assert ["c,d"] == ["c,d"] + [] && [""] == [""] + [];
    RejoinStep("c,d", "", [], []);
    RejoinStep("a,b", "\r\n", ["c,d"], [""]);
    assert Rejoin(lines, ends) == "a,b\r\nc,d";
    assert WellEnded(lines, ends);
    SplitLinesRejoin(lines, ends);
  }

  /** The text of `lines`, each one ended by "\n". */
  function JoinLines(lines: seq<string>): string
  {
    if lines == [] then [] else lines[0] + "\n" + JoinLines(lines[1..])
  }

  /** One step of `SplitLines` at a single-character boundary. */
  lemma SplitLinesStep(s: string)
    requires FirstLineBreak(s) < |s| && s[FirstLineBreak(s)] == '\n'
    ensures SplitLines(s) == [s[..FirstLineBreak(s)]] + SplitLines(s[FirstLineBreak(s) + 1..])
  {
    SplitAtBoundary(s);
  }

  /** One step of `JoinLines`. */
  lemma JoinLinesStep(l: string, lines: seq<string>)
    ensures JoinLines([l] + lines) == l + ("\n" + JoinLines(lines))
  {
    assert ([l] + lines)[1..] == lines;
  }

  /** Lines without boundaries, each ended by "\n", are split back into the same lines. */
  lemma {:induction false} SplitLinesJoinLines(lines: seq<string>)
    requires forall k :: 0 <= k < |lines| ==> NoLineBreak(lines[k])
    ensures SplitLines(JoinLines(lines)) == lines
  {
    if lines != [] {
      var l := lines[0];
      var tail := lines[1..];
      assert lines == [l] + tail;
      var rest := JoinLines(tail);
      JoinLinesStep(l, tail);
      var s := JoinLines(lines);
      assert s == l + ("\n" + rest);
      FirstLineBreakPrefix(l, "\n" + rest);
      assert FirstLineBreak(s) == |l|;
      assert s[|l|] == '\n';
      SplitLinesStep(s);
      assert s[..|l|] == l;
      assert s[|l| + 1..] == rest;
      assert forall k :: 0 <= k < |tail| ==> tail[k] == lines[k + 1];
      SplitLinesJoinLines(tail);
    }
  }

  /** The first boundary in `l + rest` is the first one of `rest` when `l` has none. */
  lemma {:induction false} FirstLineBreakPrefix(l: string, rest: string)
    requires NoLineBreak(l)
    ensures FirstLineBreak(l + rest) == |l| + FirstLineBreak(rest)
  {
    if l != [] {
      assert (l + rest)[0] == l[0];
      assert (l + rest)[1..] == l[1..] + rest;
      FirstLineBreakPrefix(l[1..], rest);
    } else {
      assert l + rest == rest;
    }
  }
}

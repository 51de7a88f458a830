/**
 What `neutralise` makes of a whole content, line by line and by characters alone
 (render.go): which lines it changes, to what, and what its output never holds.
 */
module ContentShapes {
  import opened Common
  import opened Markdown
  import opened Neutralise
  import opened Content
  import opened Shapes

  /** Line `i` opens, outside a fence of the lines that come out, one that no later line closes. */
  ghost predicate LeftOpen(lines: seq<Line>, out: seq<Line>, i: nat)
    requires i < |lines|
  {
    NoneOpen(out, i) && exists c, n :: NeverClosed(lines, i, c, n)
  }

  ghost predicate NeverClosed(lines: seq<Line>, i: nat, c: char, n: nat)
    requires i < |lines|
  {
    OpensWith(lines[i].body, c, n) && forall j :: i < j < |lines| ==> !ClosesWith(lines[j].body, c, n)
  }

  /** `r` is `b` with "\" after its spaces. */
  ghost predicate Backslash(b: string, r: string) {
    exists k: nat :: BackslashAt(b, r, k)
  }

  ghost predicate BackslashAt(b: string, r: string, k: nat) {
    k < |b| && Filled(b, 0, k, ' ') && b[k] != ' ' && r == b[..k] + "\\" + b[k..]
  }

  /******* The second pass *******/

  // A fence that no line closes is open at the end.
  lemma {:induction false} StaysOpenTo(lines: seq<Line>, i: nat, n: nat, c: char, m: nat)
    requires i < n <= |lines| && FenceAfter(lines, i).Closed? && NeverClosed(lines, i, c, m)
    ensures FenceAfter(lines, n) == Open(Fence(c, m), i)
  {
    if n == i + 1 {
      OpensNext(lines, i, c, m);
    } else {
      StaysOpenTo(lines, i, n - 1, c, m);
      StaysOpen(lines, n - 1, i, c, m);
    }
  }

  // The state after some lines depends on those lines alone.
  lemma {:induction false} SameFences(a: seq<Line>, b: seq<Line>, n: nat)
    requires n <= |a| && n <= |b| && a[..n] == b[..n]
    ensures FenceAfter(a, n) == FenceAfter(b, n)
  {
    if n > 0 {
      assert a[..n - 1] == a[..n][..n - 1] && b[..n - 1] == b[..n][..n - 1];
      assert a[n - 1] == a[..n][n - 1] && b[n - 1] == b[..n][n - 1];
      SameFences(a, b, n - 1);
    }
  }

  // The line found open stands outside every fence and is never closed.
  lemma {:induction false} OpenIsNeverClosed(lines: seq<Line>, n: nat, c: char, m: nat, at: nat)
    requires n <= |lines| && FenceAfter(lines, n) == Open(Fence(c, m), at)
    ensures FenceAfter(lines, at).Closed? && OpensWith(lines[at].body, c, m)
    ensures forall j :: at < j < n ==> !ClosesWith(lines[j].body, c, m)
  {
    if FenceAfter(lines, n - 1).Closed? {
      OpensNext(lines, n - 1, c, m);
    } else {
      var s := FenceAfter(lines, n - 1);
      StaysOpen(lines, n - 1, s.at, s.f.c, s.f.n);
      OpenIsNeverClosed(lines, n - 1, c, m, at);
    }
  }

  // A fence open later was opened after the place where none was.
  lemma {:induction false} OpenedAfter(lines: seq<Line>, i: nat, n: nat)
    requires i <= n <= |lines| && FenceAfter(lines, i).Closed?
    ensures FenceAfter(lines, n).Open? ==> FenceAfter(lines, n).at >= i
  {
    if i < n {
      OpenedAfter(lines, i, n - 1);
    }
  }

  // Escaping a line closes what it opened, before the next.
  lemma EscapedCloses(lines: seq<Line>, at: nat)
    requires at < |lines| && FenceAfter(lines, at).Closed? && Opener(lines[at].body).Some?
    ensures FenceAfter(EscapeAt(lines, at), at + 1).Closed? && FenceAfter(EscapeAt(lines, at), at).Closed?
  {
    var next := EscapeAt(lines, at);
    assert next[..at] == lines[..at];
    SameFences(next, lines, at);
    EscapedIsCalm(lines[at].body);
  }

  /** The second pass changes nothing before the line it first finds left open. */
  lemma {:induction false} SettledKeepsFront(lines: seq<Line>, n: nat)
    requires n <= |lines| && FenceAfter(lines, n).Closed?
    ensures |Settled(lines)| == |lines| && Settled(lines)[..n] == lines[..n]
    decreases Openers(lines)
  {
    var at := Unclosed(lines);
    if at >= 0 {
      EscapeProgress(lines);
      OpenedAfter(lines, n, |lines|);
      var next := EscapeAt(lines, at);
      assert next[..n] == lines[..n];
      SameFences(next, lines, n);
      SettledKeepsFront(next, n);
    }
  }

  ghost predicate SettledAt(lines: seq<Line>, out: seq<Line>, i: nat)
    requires i < |lines| == |out|
  {
    if LeftOpen(lines, out, i)
    then out[i].end == lines[i].end && Backslash(lines[i].body, out[i].body)
    else out[i] == lines[i]
  }

  lemma EscapedIsBackslash(b: string)
    requires Opener(b).Some?
    ensures Backslash(b, Escaped(b))
  {
    OpenerLead(b);
    assert BackslashAt(b, Escaped(b), Indent(b));
  }

  // Nothing is left open of lines that end outside a fence.
  lemma NoneLeftOpen(lines: seq<Line>, i: nat, n: nat)
    requires i < n <= |lines| && FenceAfter(lines, n).Closed? && NoneOpen(lines, i)
    ensures forall c, m ::
              !(OpensWith(lines[i].body, c, m) && forall j :: i < j < n ==> !ClosesWith(lines[j].body, c, m))
  {
    FenceAfterIs(lines, i);
    forall c, m | OpensWith(lines[i].body, c, m) && forall j :: i < j < n ==> !ClosesWith(lines[j].body, c, m)
      ensures false
    {
      assert lines[..n][i] == lines[i];
      assert forall j :: i < j < n ==> lines[..n][j] == lines[j];
      assert NeverClosed(lines[..n], i, c, m);
      assert lines[..n][..i] == lines[..i];
      SameFences(lines[..n], lines, i);
      StaysOpenTo(lines[..n], i, n, c, m);
      assert lines[..n][..n] == lines[..n];
      SameFences(lines[..n], lines, n);
    }
  }

  /** A line is escaped if and only if it opens, outside a fence, one that no later line closes. */
  lemma {:induction false} SettledExactly(lines: seq<Line>, i: nat)
    requires i < |lines|
    ensures |Settled(lines)| == |lines| && SettledAt(lines, Settled(lines), i)
    decreases Openers(lines)
  {
    var at := Unclosed(lines);
    var out := Settled(lines);
    if at < 0 {
      if NoneOpen(lines, i) {
        NoneLeftOpen(lines, i, |lines|);
      }
    } else {
      EscapeProgress(lines);
      var next := EscapeAt(lines, at);
      var f := FenceAfter(lines, |lines|).f;
      assert FenceAfter(lines, at).Closed? && NeverClosed(lines, at, f.c, f.n) by {
        OpenIsNeverClosed(lines, |lines|, f.c, f.n, at);
      }
      assert |out| == |lines| && out[..at + 1] == next[..at + 1] by {
        EscapedCloses(lines, at);
        SettledKeepsFront(next, at + 1);
      }
      if i < at {
        BeforeOpen(lines, out, at, i);
      } else if i == at {
        AtOpen(lines, out, at, f.c, f.n);
      } else {
        SettledExactly(next, i);
        AfterOpen(lines, next, out, at, i);
      }
    }
  }

  lemma AfterOpen(lines: seq<Line>, next: seq<Line>, out: seq<Line>, at: nat, i: nat)
    requires at < i < |lines| == |out| && next == EscapeAt(lines, at) && SettledAt(next, out, i)
    ensures SettledAt(lines, out, i)
  {
    assert forall j :: i <= j < |lines| ==> next[j] == lines[j];
    forall c, n ensures NeverClosed(next, i, c, n) <==> NeverClosed(lines, i, c, n) {
    }
  }

  lemma BeforeOpen(lines: seq<Line>, out: seq<Line>, at: nat, i: nat)
    requires i < at < |lines| == |out| && FenceAfter(lines, at).Closed?
    requires out[..at + 1] == EscapeAt(lines, at)[..at + 1]
    ensures SettledAt(lines, out, i)
  {
    assert out[..i] == out[..at + 1][..i] && EscapeAt(lines, at)[..at + 1][..i] == lines[..i];
    assert out[i] == out[..at + 1][i] == lines[i];
    SameFences(out, lines, i);
    FenceAfterIs(out, i);
    FenceAfterIs(lines, i);
    if NoneOpen(out, i) {
      NoneLeftOpen(lines, i, at);
    }
  }

  lemma AtOpen(lines: seq<Line>, out: seq<Line>, at: nat, c: char, n: nat)
    requires at < |lines| == |out| && FenceAfter(lines, at).Closed? && NeverClosed(lines, at, c, n)
    requires out[..at + 1] == EscapeAt(lines, at)[..at + 1]
    ensures SettledAt(lines, out, at)
  {
    assert out[..at] == out[..at + 1][..at] && EscapeAt(lines, at)[..at + 1][..at] == lines[..at];
    assert out[at] == out[..at + 1][at] == EscapeAt(lines, at)[at];
    SameFences(out, lines, at);
    FenceAfterIs(out, at);
    assert LeftOpen(lines, out, at);
    OpenerIs(lines[at].body, c, n);
    EscapedIsBackslash(lines[at].body);
  }

  /******* The whole *******/

  /** Under a line of text, or not. */
  ghost predicate Under(lines: seq<Line>, i: nat)
    requires i <= |lines|
  {
    i > 0 && TextLine(lines[i - 1].body)
  }

  lemma UnderIs(lines: seq<Line>, i: nat)
    requires i <= |lines|
    ensures Under(lines, i) <==> AfterText(lines, i)
  {
    if i > 0 {
      TextLineIs(lines[i - 1].body);
    }
  }

  /** No heading of level one to three, no HTML, no underline under text, and no fence open at the end. */
  ghost predicate Plain(lines: seq<Line>) {
    (forall i :: 0 <= i < |lines| ==> PlainLine(lines, i)) && NoneOpen(lines, |lines|)
  }

  ghost predicate PlainLine(lines: seq<Line>, i: nat)
    requires i < |lines|
  {
    !Shaped(lines[i].body, Under(lines, i))
  }

  lemma PlainLineIs(lines: seq<Line>, i: nat)
    requires i < |lines|
    ensures PlainLine(lines, i) <==> Calm(lines[i].body, AfterText(lines, i))
  {
    UnderIs(lines, i);
    ShapedIs(lines[i].body, AfterText(lines, i));
  }

  lemma PlainIs(lines: seq<Line>)
    ensures Harmless(lines) <==> Plain(lines)
  {
    assert Unclosed(lines) == -1 <==> NoneOpen(lines, |lines|) by {
      FenceAfterIs(lines, |lines|);
    }
    forall i | 0 <= i < |lines| ensures PlainLine(lines, i) <==> Calm(lines[i].body, AfterText(lines, i)) {
      PlainLineIs(lines, i);
    }
  }

  // Line `i` of the content, of what the first pass makes of it and of what comes out.
  ghost predicate ComesOut(lines: seq<Line>, mid: seq<Line>, out: seq<Line>, i: nat)
    requires i < |lines| == |mid| == |out|
  {
    && mid[i].end == lines[i].end && TurnsInto(lines[i].body, Under(lines, i), mid[i].body)
    && SettledAt(mid, out, i)
  }

  /**
   The whole of `neutralise` by characters: every line of the content becomes what its
   shape says, then is escaped if and only if it opens, outside a fence of the output, one
   that no later line closes; what comes out holds none of the shapes.
   */
  lemma NeutralExactly(s: string) returns (mid: seq<Line>)
    ensures var lines, out := SplitLines(s), SplitLines(Neutral(s));
            && |lines| == |mid| == |out|
            && (forall i :: 0 <= i < |lines| ==> ComesOut(lines, mid, out, i))
            && Plain(out)
  {
    var lines, out := SplitLines(s), SplitLines(Neutral(s));
    NeutralText(s);
    PlainIs(out);
    mid := FirstPass(lines);
    forall i | 0 <= i < |lines| ensures ComesOut(lines, mid, out, i) {
      UnderIs(lines, i);
      RewrittenTurns(lines[i].body, AfterText(lines, i));
      SettledExactly(mid, i);
    }
  }

  /** A content is left alone if and only if it holds none of the shapes. */
  lemma PlainIsKept(s: string)
    ensures Neutral(s) == s <==> Plain(SplitLines(s))
  {
    NeutralTwice(s);
    PlainIs(SplitLines(s));
  }
}

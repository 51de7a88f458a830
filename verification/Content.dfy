/** An entry's content as lines, and `neutralise` over them (render.go). */
module Content {
  import opened Common
  import opened Markdown
  import opened Neutralise

  /******* Lines *******/

  predicate Break(c: char) {
    c == '\r' || c == '\n'
  }

  predicate NoBreak(s: string) {
    forall i :: 0 <= i < |s| ==> s[i] != '\r' && s[i] != '\n'
  }

  /** `strings.IndexAny(s, "\r\n")`. */
  function FirstBreak(s: string): (i: int)
    ensures -1 <= i < |s|
  {
    if s == "" then -1
    else if Break(s[0]) then 0
    else var i := FirstBreak(s[1..]); if i < 0 then -1 else i + 1
  }

  lemma {:induction false} FirstBreakFinds(s: string)
    ensures var i := FirstBreak(s); if i < 0 then NoBreak(s) else NoBreak(s[..i]) && Break(s[i])
  {
    if s != "" && !Break(s[0]) {
      FirstBreakFinds(s[1..]);
      var i := FirstBreak(s);
      assert s == [s[0]] + s[1..];
      assert i >= 0 ==> s[..i] == [s[0]] + s[1..][..i - 1];
    }
  }

  function EndAt(s: string, i: nat): (e: string)
    requires i < |s|
    ensures 0 < |e| <= |s| - i
  {
    if "\r\n" <= s[i..] then "\r\n" else s[i..i + 1]
  }

  /** `splitLines`: each line with the break that `FirstBreak` found after it, the last with none. */
  function SplitLines(s: string): seq<Line>
    decreases |s|
  {
    var i := FirstBreak(s);
    if i < 0 then [Line(s, "")]
    else [Line(s[..i], EndAt(s, i))] + SplitLines(s[i + |EndAt(s, i)|..])
  }

  lemma SplitNext(s: string, i: nat, end: string, before: seq<Line>)
    requires FirstBreak(s) == i && end == EndAt(s, i)
    ensures before + SplitLines(s) == before + [Line(s[..i], end)] + SplitLines(s[i + |end|..])
  {
    var l, rest := Line(s[..i], end), SplitLines(s[i + |end|..]);
    assert before + ([l] + rest) == before + [l] + rest;
  }

  method Split(content: string) returns (out: seq<Line>)
    ensures out == SplitLines(content)
  {
    var s := content;
    out := [];
    ghost var all := SplitLines(content);
    while true
      invariant out + SplitLines(s) == all
      decreases |s|
    {
      var i := FirstBreak(s);
      if i < 0 {
        out := out + [Line(s, "")];
        return;
      }
      var end := s[i..i + 1];
      if "\r\n" <= s[i..] {
        end := "\r\n";
      }
      SplitNext(s, i, end, out);
      out := out + [Line(s[..i], end)];
      s := s[i + |end|..];
    }
  }

  function JoinLines(lines: seq<Line>): string {
    if lines == [] then "" else lines[0].body + lines[0].end + JoinLines(lines[1..])
  }

  // A line as splitting leaves it, before another line or at the end.
  predicate Cut(l: Line, last: bool) {
    NoBreak(l.body) && if last then l.end == "" else l.end == "\n" || l.end == "\r" || l.end == "\r\n"
  }

  // A lone "\r" is not followed by the "\n" of an empty line.
  predicate Apart(l: Line, next: Line) {
    l.end == "\r" ==> !(next.body == "" && next.end == "\n")
  }

  ghost predicate WellCut(lines: seq<Line>) {
    && lines != []
    && (forall i :: 0 <= i < |lines| ==> Cut(lines[i], i == |lines| - 1))
    && (forall i :: 0 <= i < |lines| - 1 ==> Apart(lines[i], lines[i + 1]))
  }

  lemma WellCutBefore(l: Line, rest: seq<Line>)
    requires WellCut(rest) && Cut(l, false) && Apart(l, rest[0])
    ensures WellCut([l] + rest)
  {
    var lines := [l] + rest;
    assert forall i :: 0 < i < |lines| ==> lines[i] == rest[i - 1];
  }

  lemma {:induction false} SplitStart(s: string)
    ensures SplitLines(s) != []
    ensures SplitLines(s)[0].body == "" && SplitLines(s)[0].end == "\n" ==> s != "" && s[0] == '\n'
  {
    var i := FirstBreak(s);
    FirstBreakFinds(s);
    if i == 0 && EndAt(s, 0) == "\n" {
      assert s[0..1] == "\n" && s[0] == s[0..1][0];
    }
  }

  lemma SplitEnd(s: string, i: nat)
    requires i < |s| && Break(s[i])
    ensures var e := EndAt(s, i);
            && (e == "\n" || e == "\r" || e == "\r\n") && s[i..i + |e|] == e
            && (e == "\r" ==> i + 1 == |s| || s[i + 1] != '\n')
  {
    assert s[i..][0] == s[i];
    if "\r\n" <= s[i..] {
      assert s[i..][..2] == "\r\n" && s[i..i + 2] == s[i..][..2];
    } else {
      assert s[i..i + 1] == [s[i]];
      assert i + 1 < |s| ==> s[i..][1] == s[i + 1];
    }
  }

  lemma JoinFirst(l: Line, rest: seq<Line>)
    ensures JoinLines([l] + rest) == l.body + l.end + JoinLines(rest)
  {
    assert ([l] + rest)[1..] == rest;
  }

  lemma ThreeParts(s: string, i: nat, j: nat)
    requires i <= j <= |s|
    ensures s == s[..i] + s[i..j] + s[j..]
  {
  }

  /** Splitting takes the text apart and joining puts it together. */
  lemma {:induction false} SplitJoins(s: string)
    ensures WellCut(SplitLines(s)) && JoinLines(SplitLines(s)) == s
    decreases |s|
  {
    var i := FirstBreak(s);
    FirstBreakFinds(s);
    if i < 0 {
      assert [Line(s, "")][1..] == [];
    } else {
      var e := EndAt(s, i);
      var t := s[i + |e|..];
      SplitEnd(s, i);
      SplitStart(t);
      SplitJoins(t);
      JoinFirst(Line(s[..i], e), SplitLines(t));
      WellCutBefore(Line(s[..i], e), SplitLines(t));
      ThreeParts(s, i, i + |e|);
    }
  }

  lemma FirstBreakIs(a: string, b: string)
    requires NoBreak(a) && b != "" && Break(b[0])
    ensures FirstBreak(a + b) == |a|
  {
    var s := a + b;
    FirstBreakFinds(s);
    assert s[|a|] == b[0];
    assert forall j :: 0 <= j < |a| ==> s[j] == a[j];
    var i := FirstBreak(s);
    assert i >= 0;
  }

  // The text of lines that follow a lone "\r" does not start with "\n".
  lemma JoinStart(lines: seq<Line>)
    requires WellCut(lines) && !(lines[0].body == "" && lines[0].end == "\n")
    ensures JoinLines(lines) == "" || JoinLines(lines)[0] != '\n'
  {
    var l, rest := lines[0], JoinLines(lines[1..]);
    assert JoinLines(lines) == l.body + l.end + rest;
    if l.body != "" {
      assert JoinLines(lines)[0] == l.body[0];
    } else if l.end != "" {
      assert JoinLines(lines)[0] == l.end[0];
    } else {
      assert Cut(l, |lines| == 1);
      assert lines[1..] == [];
    }
  }

  lemma EndIs(b: string, e: string, t: string)
    requires NoBreak(b) && (e == "\n" || e == "\r" || e == "\r\n")
    requires e == "\r" ==> t == "" || t[0] != '\n'
    ensures var s := b + e + t;
            FirstBreak(s) == |b| && s[..|b|] == b && EndAt(s, |b|) == e && s[|b| + |e|..] == t
  {
    var s := b + e + t;
    assert s == b + (e + t);
    FirstBreakIs(b, e + t);
    assert s[|b|..] == e + t;
    assert (e + t)[0] == e[0];
    if e == "\r\n" {
      assert "\r\n" <= e + t;
    } else {
      assert s[|b|..|b| + 1] == e;
      assert t != "" ==> (e + t)[1] == t[0];
    }
  }

  lemma SplitFirst(b: string, e: string, t: string)
    requires NoBreak(b) && (e == "\n" || e == "\r" || e == "\r\n")
    requires e == "\r" ==> t == "" || t[0] != '\n'
    ensures SplitLines(b + e + t) == [Line(b, e)] + SplitLines(t)
  {
    EndIs(b, e, t);
  }

  lemma WellCutRest(lines: seq<Line>, rest: seq<Line>)
    requires WellCut(lines) && |lines| > 1 && rest == lines[1..]
    ensures WellCut(rest) && Cut(lines[0], false) && Apart(lines[0], rest[0])
  {
    forall i | 0 <= i < |rest| ensures Cut(rest[i], i == |rest| - 1) {
      assert Cut(lines[i + 1], i + 1 == |lines| - 1);
    }
    forall i | 0 <= i < |rest| - 1 ensures Apart(rest[i], rest[i + 1]) {
      assert Apart(lines[i + 1], lines[i + 2]);
    }
    assert Apart(lines[0], lines[0 + 1]);
  }

  /** Lines as splitting leaves them come back from their text. */
  lemma {:induction false} JoinSplits(lines: seq<Line>)
    requires WellCut(lines)
    ensures SplitLines(JoinLines(lines)) == lines
    decreases |lines|
  {
    var l, rest := lines[0], lines[1..];
    var s := JoinLines(lines);
    assert Cut(l, |lines| == 1);
    if rest == [] {
      assert s == l.body + "" + "" == l.body;
      FirstBreakFinds(s);
      assert lines == [l];
    } else {
      WellCutRest(lines, rest);
      JoinSplits(rest);
      if l.end == "\r" {
        JoinStart(rest);
      }
      SplitFirst(l.body, l.end, JoinLines(rest));
      assert lines == [l] + rest;
    }
  }

  /******* The two passes *******/

  predicate AfterText(lines: seq<Line>, i: nat)
    requires i <= |lines|
  {
    i > 0 && IsText(lines[i - 1].body)
  }

  /** No heading of level one to three, no HTML and no underline under text. */
  ghost predicate CalmLines(lines: seq<Line>) {
    forall i :: 0 <= i < |lines| ==> Calm(lines[i].body, AfterText(lines, i))
  }

  function FirstPass(lines: seq<Line>): (r: seq<Line>)
    ensures |r| == |lines|
    ensures forall i :: 0 <= i < |lines| ==> r[i] == Line(Rewritten(lines[i].body, AfterText(lines, i)), lines[i].end)
  {
    seq(|lines|, i requires 0 <= i < |lines| => Line(Rewritten(lines[i].body, AfterText(lines, i)), lines[i].end))
  }

  lemma FirstPassTames(lines: seq<Line>, i: nat)
    requires i < |lines|
    ensures Tamed(lines[i].body, FirstPass(lines)[i].body, AfterText(lines, i))
    ensures AfterText(FirstPass(lines), i) == AfterText(lines, i)
  {
    RewrittenIsTame(lines[i].body, AfterText(lines, i));
    if i > 0 {
      RewrittenIsTame(lines[i - 1].body, AfterText(lines, i - 1));
    }
  }

  lemma FirstPassCalms(lines: seq<Line>)
    ensures CalmLines(FirstPass(lines))
  {
    forall i | 0 <= i < |lines| ensures Calm(FirstPass(lines)[i].body, AfterText(FirstPass(lines), i)) {
      FirstPassTames(lines, i);
    }
  }

  lemma FirstPassStays(lines: seq<Line>)
    requires CalmLines(lines)
    ensures FirstPass(lines) == lines
  {
    forall i | 0 <= i < |lines| ensures FirstPass(lines)[i] == lines[i] {
      CalmStays(lines[i].body, AfterText(lines, i));
    }
  }

  /** How many lines would open a fence. */
  function Openers(lines: seq<Line>): nat {
    if lines == [] then 0
    else Openers(lines[..|lines| - 1]) + (if Opener(lines[|lines| - 1].body).Some? then 1 else 0)
  }

  lemma {:induction false} FewerOpeners(lines: seq<Line>, i: nat, l: Line)
    requires i < |lines| && Opener(lines[i].body).Some? && Opener(l.body).None?
    ensures Openers(lines[i := l]) == Openers(lines) - 1
  {
    var front := lines[..|lines| - 1];
    if i == |front| {
      assert lines[i := l][..|front|] == front;
    } else {
      assert lines[i := l][..|front|] == front[i := l];
      FewerOpeners(front, i, l);
    }
  }

  function EscapeAt(lines: seq<Line>, i: nat): (r: seq<Line>)
    requires i < |lines|
    ensures |r| == |lines|
  {
    lines[i := Line(Escaped(lines[i].body), lines[i].end)]
  }

  // The line found open opens a fence, and once escaped it opens none.
  lemma EscapeProgress(lines: seq<Line>)
    requires Unclosed(lines) >= 0
    ensures var i := Unclosed(lines);
            && i < |lines| && Opener(lines[i].body).Some?
            && Openers(EscapeAt(lines, i)) < Openers(lines)
  {
    var i := Unclosed(lines);
    OpenedByOpener(lines, |lines|);
    EscapedIsCalm(lines[i].body);
    FewerOpeners(lines, i, Line(Escaped(lines[i].body), lines[i].end));
  }

  /** The second pass: escape what opened the fence left open, and read again. */
  function Settled(lines: seq<Line>): (r: seq<Line>)
    decreases Openers(lines)
  {
    var i := Unclosed(lines);
    if i < 0 then lines else
      EscapeProgress(lines);
      Settled(EscapeAt(lines, i))
  }

  ghost predicate EscapedOrSame(l: Line, r: Line) {
    r == l || (Opener(l.body).Some? && r == Line(Escaped(l.body), l.end))
  }

  /** It ends with every fence closed, and escapes only lines that open one. */
  lemma {:induction false} SettledIs(lines: seq<Line>)
    ensures Unclosed(Settled(lines)) == -1 && |Settled(lines)| == |lines|
    ensures forall i :: 0 <= i < |lines| ==> EscapedOrSame(lines[i], Settled(lines)[i])
    decreases Openers(lines)
  {
    var at := Unclosed(lines);
    if at >= 0 {
      EscapeProgress(lines);
      var next := EscapeAt(lines, at);
      SettledIs(next);
      EscapedIsCalm(lines[at].body);
      forall i | 0 <= i < |lines| ensures EscapedOrSame(lines[i], Settled(lines)[i]) {
        assert EscapedOrSame(next[i], Settled(next)[i]);
      }
    }
  }

  lemma EscapedStaysText(l: Line, r: Line)
    requires EscapedOrSame(l, r)
    ensures IsText(r.body) == IsText(l.body)
    ensures r == l || Calm(r.body, true)
  {
    if r != l {
      OpenerIsText(l.body);
      EscapedIsCalm(l.body);
    }
  }

  lemma SettledStaysCalm(lines: seq<Line>)
    requires CalmLines(lines)
    ensures CalmLines(Settled(lines))
  {
    SettledIs(lines);
    var r := Settled(lines);
    forall i | 0 <= i < |r| ensures Calm(r[i].body, AfterText(r, i)) {
      EscapedStaysText(lines[i], r[i]);
      assert Calm(lines[i].body, AfterText(lines, i));
      if i > 0 {
        EscapedStaysText(lines[i - 1], r[i - 1]);
      }
    }
  }

  /******* The whole *******/

  function NeutralLines(lines: seq<Line>): seq<Line> {
    Settled(FirstPass(lines))
  }

  /** `neutralise`. */
  function Neutral(s: string): string {
    JoinLines(NeutralLines(SplitLines(s)))
  }

  /** Nothing in the lines reads as structure of the block, and no fence is open at their end. */
  ghost predicate Harmless(lines: seq<Line>) {
    CalmLines(lines) && Unclosed(lines) == -1
  }

  // The body of a line as it comes out: one mark put in at most, a heading made level four.
  ghost predicate KeptBody(b: string, r: string) {
    Edited(b, r) && (Heading(b) ==> AtxLevel(Rest(r)) == 4)
  }

  /** Line for line the same ends, and bodies with one mark put in at most; what was a heading is one of level four. */
  ghost predicate Kept(lines: seq<Line>, r: seq<Line>) {
    && |r| == |lines|
    && forall i :: 0 <= i < |lines| ==> r[i].end == lines[i].end && KeptBody(lines[i].body, r[i].body)
  }

  lemma EditedOnce(b: string, f: string, l: Line, r: Line, afterText: bool)
    requires Tamed(b, f, afterText) && l.body == f && EscapedOrSame(l, r)
    ensures KeptBody(b, r.body)
  {
    if r != l {
      assert f == b;
      OpenerIsText(b);
      assert Marked(b, r.body, Indent(b), "\\");
    }
  }

  /** The lines that come out are harmless, and the lines that went in with one mark put in at most. */
  lemma NeutralIsHarmless(lines: seq<Line>)
    ensures Harmless(NeutralLines(lines)) && Kept(lines, NeutralLines(lines))
  {
    var first, r := FirstPass(lines), NeutralLines(lines);
    FirstPassCalms(lines);
    SettledIs(first);
    SettledStaysCalm(first);
    forall i | 0 <= i < |lines| ensures r[i].end == lines[i].end && KeptBody(lines[i].body, r[i].body) {
      FirstPassTames(lines, i);
      assert EscapedOrSame(first[i], r[i]);
      EditedOnce(lines[i].body, first[i].body, first[i], r[i], AfterText(lines, i));
    }
  }

  lemma EditedKeepsCut(b: string, r: string)
    requires Edited(b, r) && NoBreak(b)
    ensures NoBreak(r) && (r == "" ==> b == "")
  {
    if r != b {
      var k: nat, ins: string :| Marked(b, r, k, ins);
      assert NoBreak(ins);
      assert NoBreak(b[..k]) && NoBreak(b[k..]);
    }
  }

  lemma KeptStaysCut(lines: seq<Line>, r: seq<Line>)
    requires WellCut(lines) && Kept(lines, r)
    ensures WellCut(r)
  {
    forall i | 0 <= i < |r| ensures Cut(r[i], i == |r| - 1) && (r[i].body == "" ==> lines[i].body == "") {
      assert Cut(lines[i], i == |lines| - 1);
      EditedKeepsCut(lines[i].body, r[i].body);
    }
    forall i | 0 <= i < |r| - 1 ensures Apart(r[i], r[i + 1]) {
      assert Apart(lines[i], lines[i + 1]);
    }
  }

  lemma HarmlessStays(lines: seq<Line>)
    requires Harmless(lines)
    ensures NeutralLines(lines) == lines
  {
    FirstPassStays(lines);
  }

  /**
   What comes out, split again, is the same lines: harmless, as many as went in, with the
   same ends and bodies with one mark put in at most.
   */
  lemma NeutralText(s: string)
    ensures SplitLines(Neutral(s)) == NeutralLines(SplitLines(s))
    ensures Harmless(SplitLines(Neutral(s))) && Kept(SplitLines(s), SplitLines(Neutral(s)))
  {
    var lines := SplitLines(s);
    SplitJoins(s);
    NeutralIsHarmless(lines);
    KeptStaysCut(lines, NeutralLines(lines));
    JoinSplits(NeutralLines(lines));
  }

  /** `Neutral` is idempotent, and its fixed points are the harmless texts. */
  lemma NeutralTwice(s: string)
    ensures Neutral(Neutral(s)) == Neutral(s)
    ensures Neutral(s) == s <==> Harmless(SplitLines(s))
  {
    NeutralText(s);
    HarmlessStays(SplitLines(Neutral(s)));
    if Harmless(SplitLines(s)) {
      HarmlessStays(SplitLines(s));
      SplitJoins(s);
    }
  }

  /******* The passes on the lines in place *******/

  method RewriteLine(b: string, prevText: bool) returns (r: string, text: bool)
    ensures r == Rewritten(b, prevText) && text == IsText(b)
  {
    r := b;
    var lead := ComputeLead(b, true);
    var rest := b[lead..];
    var n := AtxLevel(rest);
    if 1 <= n <= 3 {
      r := Inserted(b, lead, Hashes(4 - n));
    } else if n == 0 && "<" <= rest {
      r := Inserted(b, lead, "\\");
    } else if n == 0 && prevText {
      var q := ComputeLead(b, false);
      if Underline(b[q..]) {
        r := Inserted(b, q, "\\");
      }
    }
    text := n == 0 && !Blank(b);
  }

  // What the first pass makes of each place.
  function PassAt(lines: seq<Line>): int -> Line {
    i => if 0 <= i < |lines| then FirstPass(lines)[i] else Line("", "")
  }

  method RewriteAt(ghost was: seq<Line>, i: nat, l: Line, prevText: bool) returns (r: Line, text: bool)
    requires i < |was| && l == was[i] && prevText == AfterText(was, i)
    ensures r == PassAt(was)(i) && text == AfterText(was, i + 1)
  {
    var body;
    body, text := RewriteLine(l.body, prevText);
    r := l.(body := body);
    assert r == FirstPass(was)[i];
  }

  lemma PassedAll(was: seq<Line>, now: seq<Line>)
    requires |now| == |was| && forall j :: 0 <= j < |was| ==> now[j] == PassAt(was)(j)
    ensures now == FirstPass(was)
  {
    forall j | 0 <= j < |was| ensures now[j] == FirstPass(was)[j] {
      assert now[j] == PassAt(was)(j);
    }
  }

  method FirstPassInPlace(lines: array<Line>)
    modifies lines
    ensures lines[..] == FirstPass(old(lines[..]))
  {
    var prevText := false;
    ghost var was := lines[..];
    ghost var pass := PassAt(was);
    for i := 0 to lines.Length
      invariant forall j :: i <= j < lines.Length ==> lines[j] == was[j]
      invariant forall j :: 0 <= j < i ==> lines[j] == pass(j)
      invariant prevText == AfterText(was, i)
    {
      var l, text := RewriteAt(was, i, lines[i], prevText);
      lines[i] := l;
      prevText := text;
    }
    PassedAll(was, lines[..]);
  }

  method Settle(lines: array<Line>)
    modifies lines
    ensures lines[..] == Settled(old(lines[..]))
  {
    while true
      invariant Settled(lines[..]) == Settled(old(lines[..]))
      decreases Openers(lines[..])
    {
      var at := FindUnclosed(lines);
      if at < 0 {
        break;
      }
      EscapeProgress(lines[..]);
      ghost var next := EscapeAt(lines[..], at);
      var l := lines[at];
      lines[at] := l.(body := Inserted(l.body, Indent(l.body), "\\"));
      assert lines[..] == next;
    }
  }

  method Join(lines: array<Line>) returns (text: string)
    ensures text == JoinLines(lines[..])
  {
    text := "";
    assert lines[0..] == lines[..];
    for i := 0 to lines.Length
      invariant text + JoinLines(lines[i..]) == JoinLines(lines[..])
    {
      ghost var l, rest := lines[i], lines[i + 1..];
      assert lines[i..] == [l] + rest;
      JoinFirst(l, rest);
      assert text + (l.body + l.end + JoinLines(rest)) == text + l.body + l.end + JoinLines(rest);
      text := text + lines[i].body + lines[i].end;
    }
  }

  method NeutraliseContent(content: string) returns (text: string)
    ensures text == Neutral(content)
  {
    var split := Split(content);
    var lines := new Line[|split|](i requires 0 <= i < |split| => split[i]);
    assert lines[..] == split;
    FirstPassInPlace(lines);
    Settle(lines);
    text := Join(lines);
  }
}

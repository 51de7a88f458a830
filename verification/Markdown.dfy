/**
 The line shapes of Markdown that the renderer looks for (render.go, after sections 4.2,
 4.3, 4.5 and 4.6 of CommonMark 0.31.2): the lead of a line, ATX headings, setext
 underlines and code fences.
 */
module Markdown {
  import opened Common

  /******* Runs *******/

  /** How often `s` repeats `c` at its start. */
  function Run(s: string, c: char): (n: nat)
    ensures n <= |s| && (forall i :: 0 <= i < n ==> s[i] == c)
    ensures n < |s| ==> s[n] != c
  {
    if s != "" && s[0] == c then 1 + Run(s[1..], c) else 0
  }

  lemma RunIs(s: string, c: char, n: nat)
    requires n <= |s| && (forall i :: 0 <= i < n ==> s[i] == c) && (n < |s| ==> s[n] != c)
    ensures Run(s, c) == n
  {
    var r := Run(s, c);
    assert forall i :: 0 <= i < r ==> s[i] == c;
  }

  predicate Gap(c: char) {
    c == ' ' || c == '\t'
  }

  predicate Blank(s: string) {
    forall i :: 0 <= i < |s| ==> Gap(s[i])
  }

  predicate IsDigit(c: char) {
    '0' <= c <= '9'
  }

  /** How many digits stand at place `i`, `most` at most. */
  function Digits(s: string, i: nat, most: nat): (n: nat)
    requires i <= |s|
    ensures i + n <= |s| && n <= most
    decreases most
  {
    if most > 0 && i < |s| && IsDigit(s[i]) then 1 + Digits(s, i + 1, most - 1) else 0
  }

  lemma {:induction false} DigitsAre(s: string, i: nat, most: nat, n: nat)
    requires i + n <= |s| && n <= most && (forall k :: i <= k < i + n ==> IsDigit(s[k]))
    requires n < most && i + n < |s| ==> !IsDigit(s[i + n])
    ensures Digits(s, i, most) == n
    decreases most
  {
    if n > 0 {
      DigitsAre(s, i + 1, most - 1, n - 1);
    }
  }

  lemma {:induction false} DigitsDigits(s: string, i: nat, most: nat, k: nat)
    requires i <= |s| && i <= k < i + Digits(s, i, most)
    ensures IsDigit(s[k])
    decreases most
  {
    if k > i {
      DigitsDigits(s, i + 1, most - 1, k);
    }
  }

  /******* The lead *******/

  predicate QuoteChar(c: char) {
    Gap(c) || c == '>'
  }

  predicate Bullet(c: char) {
    c == '-' || c == '+' || c == '*'
  }

  /** The length of the space, tab, ">" or, where they count, list marker at place `i`; 0 for none. */
  function Opening(s: string, i: nat, markers: bool): (k: nat)
    requires i <= |s|
    ensures i + k <= |s|
  {
    if i == |s| then 0
    else if QuoteChar(s[i]) then 1
    else if !markers then 0
    else if Bullet(s[i]) then (if i + 1 < |s| && Gap(s[i + 1]) then 1 else 0)
    else
      var j := i + Digits(s, i, 9);
      if j > i && j + 1 < |s| && (s[j] == '.' || s[j] == ')') && Gap(s[j + 1]) then j + 1 - i else 0
  }

  /** Where the longest run of those, read from place `i`, ends. */
  function LeadFrom(s: string, i: nat, markers: bool): (n: nat)
    requires i <= |s|
    ensures i <= n <= |s|
    decreases |s| - i
  {
    var k := Opening(s, i, markers);
    if k == 0 then i else LeadFrom(s, i + k, markers)
  }

  /** `leadLen`. */
  function Lead(s: string, markers: bool): (n: nat)
    ensures n <= |s|
  {
    LeadFrom(s, 0, markers)
  }

  method ComputeOpening(s: string, i: nat, markers: bool) returns (k: nat)
    requires i < |s|
    ensures k == Opening(s, i, markers)
  {
    var c := s[i];
    if c == ' ' || c == '\t' || c == '>' {
      return 1;
    } else if !markers {
      return 0;
    } else if c == '-' || c == '+' || c == '*' {
      return if i + 1 < |s| && (s[i + 1] == ' ' || s[i + 1] == '\t') then 1 else 0;
    } else if '0' <= c <= '9' {
      var j := i;
      while j < |s| && j - i < 9 && '0' <= s[j] <= '9'
        invariant i <= j <= |s| && j - i <= 9
        invariant forall k :: i <= k < j ==> IsDigit(s[k])
      {
        j := j + 1;
      }
      DigitsAre(s, i, 9, j - i);
      if j + 1 < |s| && (s[j] == '.' || s[j] == ')') && (s[j + 1] == ' ' || s[j + 1] == '\t') {
        return j + 1 - i;
      }
    }
    return 0;
  }

  method ComputeLead(s: string, markers: bool) returns (i: nat)
    ensures i == Lead(s, markers)
  {
    i := 0;
    while i < |s|
      invariant i <= |s| && LeadFrom(s, i, markers) == LeadFrom(s, 0, markers)
    {
      var k := ComputeOpening(s, i, markers);
      if k == 0 {
        break;
      }
      i := i + k;
    }
  }

  // What opens a lead is decided by its own bytes and, after a marker, the gap that follows.
  lemma OpeningLocal(s: string, t: string, i: nat, markers: bool, k: nat)
    requires i <= |s| && k == Opening(s, i, markers) && k > 0 && i + k <= |t|
    requires forall j :: i <= j < i + k ==> t[j] == s[j]
    requires !QuoteChar(s[i]) ==> i + k < |t| && i + k < |s| && t[i + k] == s[i + k]
    ensures Opening(t, i, markers) == k
  {
    if !QuoteChar(s[i]) && !Bullet(s[i]) {
      forall j | i <= j < i + k - 1 ensures IsDigit(t[j]) {
        DigitsDigits(s, i, 9, j);
      }
      assert t[i + k - 1] == s[i + k - 1];
      DigitsAre(t, i, 9, k - 1);
    }
  }

  // The byte after a marker is a gap, and so part of the lead.
  lemma MarkerGap(s: string, i: nat, markers: bool)
    requires i < |s| && Opening(s, i, markers) > 0 && !QuoteChar(s[i])
    ensures var k := Opening(s, i, markers); i + k < |s| && LeadFrom(s, i, markers) > i + k
  {
    var k := Opening(s, i, markers);
    assert Gap(s[i + k]);
    assert Opening(s, i + k, markers) == 1;
  }

  // A byte that neither is nor begins part of a lead.
  predicate Stop(c: char) {
    !QuoteChar(c) && !Bullet(c) && !IsDigit(c)
  }

  /** The lead `p` ends where it did whatever follows it, so long as that does not carry it on. */
  lemma {:induction false} LeadInsert(p: string, x: string, y: string, i: nat, markers: bool)
    requires i <= |p| && LeadFrom(p + x, i, markers) == |p| && y != "" && Stop(y[0])
    ensures LeadFrom(p + y, i, markers) == |p|
    decreases |p| - i
  {
    var s, t := p + x, p + y;
    if i == |p| {
      assert t[i] == y[0];
    } else {
      var k := Opening(s, i, markers);
      if !QuoteChar(s[i]) {
        MarkerGap(s, i, markers);
      }
      OpeningLocal(s, t, i, markers, k);
      LeadInsert(p, x, y, i + k, markers);
    }
  }

  /** Spaces, tabs and ">" are a lead, with and without markers. */
  lemma {:induction false} QuoteLead(p: string, y: string, i: nat, markers: bool)
    requires i <= |p| && (forall j :: 0 <= j < |p| ==> QuoteChar(p[j])) && y != "" && Stop(y[0])
    ensures LeadFrom(p + y, i, markers) == |p|
    decreases |p| - i
  {
    var t := p + y;
    if i == |p| {
      assert t[i] == y[0];
    } else {
      assert t[i] == p[i];
      QuoteLead(p, y, i + 1, markers);
    }
  }

  lemma {:induction false} QuoteLeadChars(s: string, i: nat, j: nat)
    requires i <= |s| && i <= j < LeadFrom(s, i, false)
    ensures QuoteChar(s[j])
    decreases |s| - i
  {
    if j > i {
      QuoteLeadChars(s, i + 1, j);
    }
  }

  /******* Headings *******/

  /** `atxLevel`. */
  function AtxLevel(s: string): (n: nat)
    ensures n <= 6
  {
    var n := Run(s, '#');
    if n == 0 || n > 6 || (n < |s| && !Gap(s[n])) then 0 else n
  }

  /** `isUnderline`. */
  predicate Underline(s: string) {
    s != "" && (s[0] == '=' || s[0] == '-') && Blank(s[Run(s, s[0])..])
  }

  predicate RuleChar(c: char) {
    QuoteChar(c) || c == '=' || c == '-'
  }

  lemma UnderlineOwnChars(s: string, i: nat)
    requires Underline(s) && i < |s|
    ensures RuleChar(s[i])
  {
    var r := Run(s, s[0]);
    if i >= r {
      assert s[r..][i - r] == s[i];
    }
  }

  /** A line with any other byte in it is no underline. */
  lemma UnderlineChars(b: string, i: nat)
    requires Underline(b[Lead(b, false)..]) && i < |b|
    ensures RuleChar(b[i])
  {
    var q := Lead(b, false);
    if i < q {
      QuoteLeadChars(b, 0, i);
    } else {
      UnderlineOwnChars(b[q..], i - q);
    }
  }

  /******* Fences *******/

  datatype Fence = Fence(c: char, n: nat)

  /** `opensFence`. */
  function Opens(s: string): Option<Fence> {
    if s == "" || (s[0] != '`' && s[0] != '~') then None
    else
      var n := Run(s, s[0]);
      if n < 3 || (s[0] == '`' && '`' in s[n..]) then None else Some(Fence(s[0], n))
  }

  /** `closesFence`. */
  predicate Closes(s: string, f: Fence) {
    Run(s, f.c) >= f.n && Blank(s[Run(s, f.c)..])
  }

  function Indent(b: string): (n: nat)
    ensures n <= |b|
  {
    Run(b, ' ')
  }

  /** The fence a line opens where none is open. */
  function Opener(b: string): Option<Fence> {
    if Indent(b) > 3 then None else Opens(b[Indent(b)..])
  }

  /******* Lines *******/

  /** The text of a line and its break; the last line of a text has none. */
  datatype Line = Line(body: string, end: string)

  datatype State = Closed | Open(f: Fence, at: nat)

  /** Which fence is open after the first `n` lines. */
  function FenceAfter(lines: seq<Line>, n: nat): (s: State)
    requires n <= |lines|
    ensures s.Open? ==> s.at < n
  {
    if n == 0 then Closed
    else
      var s, b := FenceAfter(lines, n - 1), lines[n - 1].body;
      if Indent(b) > 3 then s
      else match s
        case Open(f, _) => if Closes(b[Indent(b)..], f) then Closed else s
        case Closed => match Opens(b[Indent(b)..]) case None => Closed case Some(f) => Open(f, n - 1)
  }

  /** `unclosed`: the line that opened the fence still open at the end, or -1. */
  function Unclosed(lines: seq<Line>): int {
    match FenceAfter(lines, |lines|) case Closed => -1 case Open(_, at) => at
  }

  method FindUnclosed(lines: array<Line>) returns (from: int)
    ensures from == Unclosed(lines[..])
  {
    var fence: Option<Fence> := None;
    from := -1;
    for i := 0 to lines.Length
      invariant FenceAfter(lines[..], i) ==
                match fence case None => Closed case Some(f) => Open(f, if from < 0 then 0 else from)
      invariant fence.Some? <==> from >= 0
      invariant fence.None? ==> from == -1
    {
      var b := lines[i].body;
      var ind := Indent(b);
      var rest := b[ind..];
      if ind > 3 {
      } else if fence.Some? {
        if Closes(rest, fence.value) {
          fence, from := None, -1;
        }
      } else {
        fence := Opens(rest);
        if fence.Some? {
          from := i;
        }
      }
    }
  }

  lemma {:induction false} OpenedByOpener(lines: seq<Line>, n: nat)
    requires n <= |lines| && FenceAfter(lines, n).Open?
    ensures Opener(lines[FenceAfter(lines, n).at].body).Some?
  {
    if FenceAfter(lines, n - 1) == FenceAfter(lines, n) {
      OpenedByOpener(lines, n - 1);
    }
  }
}

/**
 The line shapes of the module Markdown spelt out in characters, and what the rewrite of a
 line does to each (render.go, the comment on `neutralise`).  Nothing here is defined by
 way of the functions it is proved about.
 */
module Shapes {
  import opened Common
  import opened Markdown
  import opened Neutralise

  /** Every character of `s` is one of `cs`. */
  predicate Only(s: string, cs: string) {
    forall i :: 0 <= i < |s| ==> s[i] in cs
  }

  /** Places `i` to `j` of `s` all hold `c`. */
  predicate Filled(s: string, i: nat, j: nat, c: char) {
    i <= j <= |s| && forall k :: i <= k < j ==> s[k] == c
  }

  /******* The lead *******/

  /** A list marker: a bullet, or a number of at most nine digits with what ends it. */
  predicate IsMarker(m: string) {
    || m == "-" || m == "+" || m == "*"
    || (2 <= |m| <= 10 && Only(m[..|m| - 1], "0123456789") && m[|m| - 1] in ".)")
  }

  /** One piece of a lead: a space, a tab or ">", or a marker with the space or tab after it. */
  predicate Piece(t: string, markers: bool) {
    || (|t| == 1 && t[0] in " \t>")
    || (markers && |t| >= 2 && IsMarker(t[..|t| - 1]) && t[|t| - 1] in " \t")
  }

  /** Text made of such pieces. */
  ghost predicate LeadText(p: string, markers: bool)
    decreases |p|
  {
    p == "" || exists k :: 0 < k <= |p| && Piece(p[..k], markers) && LeadText(p[k..], markers)
  }

  lemma SplitPiece(s: string, i: nat, k: nat, n: nat)
    requires i <= k <= n <= |s|
    ensures s[i..n][..k - i] == s[i..k] && s[i..n][k - i..] == s[k..n]
  {
  }

  lemma LeadTextMore(s: string, i: nat, k: nat, n: nat, markers: bool)
    requires i < k <= n <= |s| && Piece(s[i..k], markers) && LeadText(s[k..n], markers)
    ensures LeadText(s[i..n], markers)
  {
    SplitPiece(s, i, k, n);
    assert Piece(s[i..n][..k - i], markers);
  }

  // The piece that an opening begins.
  lemma OpeningPiece(s: string, i: nat, markers: bool) returns (k: nat)
    requires i <= |s| && Opening(s, i, markers) > 0
    ensures i < k <= |s| && Piece(s[i..k], markers) && LeadFrom(s, i, markers) == LeadFrom(s, k, markers)
  {
    if QuoteChar(s[i]) {
      k := i + 1;
      assert s[i..k][0] == s[i];
    } else {
      k := MarkerPiece(s, i);
    }
  }

  lemma MarkerPiece(s: string, i: nat) returns (k: nat)
    requires i < |s| && Opening(s, i, true) > 0 && !QuoteChar(s[i])
    ensures i < k <= |s| && Piece(s[i..k], true) && LeadFrom(s, i, true) == LeadFrom(s, k, true)
  {
    var n := Opening(s, i, true);
    k := i + n + 1;
    MarkerGap(s, i, true);
    var t := s[i..k];
    assert t[n] == s[i + n] && Gap(s[i + n]);
    assert Opening(s, i + n, true) == 1;
    MarkerText(s, i, n);
    assert t[..n] == s[i..i + n];
  }

  lemma MarkerText(s: string, i: nat, n: nat)
    requires i <= |s| && n == Opening(s, i, true) && n > 0 && !QuoteChar(s[i])
    ensures IsMarker(s[i..i + n])
  {
    var m := s[i..i + n];
    if Bullet(s[i]) {
      assert m == [s[i]];
    } else {
      forall j | 0 <= j < n - 1 ensures m[j] in "0123456789" {
        DigitsDigits(s, i, 9, i + j);
        assert m[j] == s[i + j];
        DigitIn(m[j]);
      }
      assert m[n - 1] == s[i + n - 1];
    }
  }

  lemma DigitIn(c: char)
    ensures '0' <= c <= '9' <==> c in "0123456789"
  {
    var all := "0123456789";
    if '0' <= c <= '9' {
      assert all[c as int - '0' as int] == c;
    }
  }

  // What a reader finds where a piece stands.
  lemma PieceOpens(s: string, i: nat, k: nat, markers: bool)
    requires i < k <= |s| && Piece(s[i..k], markers)
    ensures LeadFrom(s, i, markers) == LeadFrom(s, k, markers)
  {
    var t := s[i..k];
    assert t[0] == s[i] && t[|t| - 1] == s[k - 1];
    if |t| == 1 && t[0] in " \t>" {
      assert Opening(s, i, markers) == 1;
    } else {
      var n := |t| - 1;
      assert k == i + n + 1;
      MarkerOpens(s, i, n);
      GapOpens(s, i + n, markers);
    }
  }

  lemma GapOpens(s: string, i: nat, markers: bool)
    requires i < |s| && s[i] in " \t"
    ensures Opening(s, i, markers) == 1
  {
  }

  lemma MarkerOpens(s: string, i: nat, n: nat)
    requires i + n < |s| && n > 0 && IsMarker(s[i..i + n + 1][..n]) && s[i + n] in " \t"
    ensures Opening(s, i, true) == n
  {
    var m := s[i..i + n + 1][..n];
    assert m == s[i..i + n] && m[0] == s[i] && m[n - 1] == s[i + n - 1];
    if n == 1 {
    } else {
      forall j | i <= j < i + n - 1 ensures IsDigit(s[j]) {
        assert m[..n - 1][j - i] == s[j];
        DigitIn(s[j]);
      }
      DigitsAre(s, i, 9, n - 1);
    }
  }

  /** The lead is text of such pieces, from place `i` on. */
  lemma {:induction false} LeadIsText(s: string, i: nat, markers: bool)
    requires i <= |s|
    ensures LeadText(s[i..LeadFrom(s, i, markers)], markers)
    decreases |s| - i
  {
    if Opening(s, i, markers) > 0 {
      var k := OpeningPiece(s, i, markers);
      LeadIsText(s, k, markers);
      LeadTextMore(s, i, k, LeadFrom(s, i, markers), markers);
    }
  }

  /** And no longer text of such pieces stands there. */
  lemma {:induction false} LeadIsLongest(s: string, i: nat, n: nat, markers: bool)
    requires i <= n <= |s| && LeadText(s[i..n], markers)
    ensures n <= LeadFrom(s, i, markers) == LeadFrom(s, n, markers)
    decreases n - i
  {
    if i < n {
      var k := FirstPiece(s, i, n, markers);
      PieceOpens(s, i, k, markers);
      LeadIsLongest(s, k, n, markers);
    }
  }

  lemma FirstPiece(s: string, i: nat, n: nat, markers: bool) returns (k: nat)
    requires i < n <= |s| && LeadText(s[i..n], markers)
    ensures i < k <= n && Piece(s[i..k], markers) && LeadText(s[k..n], markers)
  {
    var t := s[i..n];
    var l :| 0 < l <= |t| && Piece(t[..l], markers) && LeadText(t[l..], markers);
    k := i + l;
    SplitPiece(s, i, k, n);
  }

  /** `leadLen`: the length of the longest prefix made of spaces, tabs, ">" and, where they count, markers. */
  lemma LeadIs(s: string, markers: bool)
    ensures LeadText(s[..Lead(s, markers)], markers)
    ensures forall n: nat :: n <= |s| && LeadText(s[..n], markers) ==> n <= Lead(s, markers)
  {
    LeadIsText(s, 0, markers);
    assert s[0..Lead(s, markers)] == s[..Lead(s, markers)];
    forall n: nat | n <= |s| && LeadText(s[..n], markers) ensures n <= Lead(s, markers) {
      assert s[0..n] == s[..n];
      LeadIsLongest(s, 0, n, markers);
    }
  }

  // A lead is over where a character stands that begins no piece.
  lemma LeadEnds(s: string, n: nat, markers: bool)
    requires n < |s| && LeadText(s[..n], markers) && Opening(s, n, markers) == 0
    ensures Lead(s, markers) == n
  {
    assert s[0..n] == s[..n];
    LeadIsLongest(s, 0, n, markers);
  }

  lemma {:induction false} QuotesAreLead(p: string, markers: bool)
    requires Only(p, " \t>")
    ensures LeadText(p, markers)
    decreases |p|
  {
    if p != "" {
      assert p[..1][0] == p[0];
      assert Piece(p[..1], markers);
      QuotesAreLead(p[1..], markers);
    }
  }

  lemma {:induction false} LeadIsQuotes(p: string)
    requires LeadText(p, false)
    ensures Only(p, " \t>")
    decreases |p|
  {
    if p != "" {
      var k :| 0 < k <= |p| && Piece(p[..k], false) && LeadText(p[k..], false);
      LeadIsQuotes(p[k..]);
      assert p[..k][0] == p[0];
      assert forall i :: 0 < i < |p| ==> p[i] == p[k..][i - 1];
    }
  }

  /******* The shapes of a line *******/

  /** At place `k`, after a lead: `n` times "#", ended by white space or by the line. */
  ghost predicate HeadingAt(b: string, k: nat, n: nat) {
    && n > 0 && Filled(b, k, k + n, '#') && LeadText(b[..k], true)
    && (k + n < |b| ==> b[k + n] in " \t")
  }

  /** At place `k`, after a lead: "<". */
  ghost predicate HtmlAt(b: string, k: nat) {
    k < |b| && b[k] == '<' && LeadText(b[..k], true)
  }

  /** At place `k`, after spaces, tabs and ">": "=" or "-" up to place `n`, then only spaces and tabs. */
  ghost predicate RuleAt(b: string, k: nat, n: nat) {
    && k < n <= |b| && Only(b[..k], " \t>") && Only(b[n..], " \t")
    && (Filled(b, k, n, '=') || Filled(b, k, n, '-'))
  }

  /** Not blank, and no heading: more than six "#" make none. */
  ghost predicate TextLine(b: string) {
    !Only(b, " \t") && forall k: nat, n: nat :: HeadingAt(b, k, n) ==> n > 6
  }

  lemma HeadingAtIs(b: string, k: nat, n: nat)
    requires HeadingAt(b, k, n)
    ensures Lead(b, true) == k && Run(Rest(b), '#') == n && AtxLevel(Rest(b)) == (if n <= 6 then n else 0)
  {
    assert b[k] == '#';
    LeadEnds(b, k, true);
    var x := b[k..];
    assert forall i :: 0 <= i < n ==> x[i] == b[k + i];
    assert n < |x| ==> x[n] == b[k + n];
    RunIs(x, '#', n);
  }

  lemma AtxLevelIs(b: string)
    requires AtxLevel(Rest(b)) > 0
    ensures HeadingAt(b, Lead(b, true), AtxLevel(Rest(b)))
  {
    var k, x := Lead(b, true), Rest(b);
    LeadIs(b, true);
    var n := Run(x, '#');
    assert forall i :: k <= i < k + n ==> b[i] == x[i - k];
    assert n < |x| ==> x[n] == b[k + n];
  }

  lemma HtmlAtIs(b: string, k: nat)
    requires HtmlAt(b, k)
    ensures Lead(b, true) == k && Html(b) && AtxLevel(Rest(b)) == 0
  {
    LeadEnds(b, k, true);
    var x := b[k..];
    assert x[0] == '<' && x[..1] == "<";
    RunIs(x, '#', 0);
  }

  lemma HtmlIs(b: string)
    requires Html(b)
    ensures HtmlAt(b, Lead(b, true))
  {
    LeadIs(b, true);
    assert Rest(b)[0] == b[Lead(b, true)];
  }

  lemma BlankIs(s: string)
    ensures Blank(s) <==> Only(s, " \t")
  {
  }

  lemma RuleAtIs(b: string, k: nat, n: nat)
    requires RuleAt(b, k, n)
    ensures Lead(b, false) == k && Underlines(b)
  {
    assert Lead(b, false) == k by {
      QuotesAreLead(b[..k], false);
      LeadEnds(b, k, false);
    }
    RuleIsUnderline(b, k, n, b[k]);
  }

  lemma RuleIsUnderline(b: string, k: nat, n: nat, c: char)
    requires k < n && Filled(b, k, n, c) && (c == '=' || c == '-') && Only(b[n..], " \t")
    ensures Underline(b[k..])
  {
    var x := b[k..];
    assert forall i :: 0 <= i < n - k ==> x[i] == b[k + i];
    assert n < |b| ==> b[n] == b[n..][0] && x[n - k] == b[n];
    RunIs(x, c, n - k);
    assert x[n - k..] == b[n..];
    BlankIs(b[n..]);
  }

  lemma UnderlinesIs(b: string)
    requires Underlines(b)
    ensures exists n: nat :: RuleAt(b, Lead(b, false), n)
  {
    var k := Lead(b, false);
    LeadIs(b, false);
    LeadIsQuotes(b[..k]);
    var x := b[k..];
    var r := Run(x, x[0]);
    assert forall i :: k <= i < k + r ==> b[i] == x[i - k];
    assert x[r..] == b[k + r..];
    BlankIs(b[k + r..]);
    assert RuleAt(b, k, k + r);
  }

  /** What counts as text, before an underline. */
  lemma TextLineIs(b: string)
    ensures IsText(b) <==> TextLine(b)
  {
    BlankIs(b);
    if AtxLevel(Rest(b)) > 0 {
      AtxLevelIs(b);
    } else {
      forall k: nat, n: nat | HeadingAt(b, k, n) ensures n > 6 {
        HeadingAtIs(b, k, n);
      }
    }
  }

  /******* What a line is rewritten to *******/

  /** A line of one of the shapes that the block keeps for itself. */
  ghost predicate Shaped(b: string, afterText: bool) {
    || (exists k: nat, n: nat :: HeadingAt(b, k, n) && n <= 3)
    || (exists k: nat :: HtmlAt(b, k))
    || (afterText && exists k: nat, n: nat :: RuleAt(b, k, n))
  }

  /** The line `r` that `b` is to become. */
  ghost predicate TurnsInto(b: string, afterText: bool, r: string) {
    && (forall k: nat, n: nat :: HeadingAt(b, k, n) && n <= 3 ==> r == b[..k] + "####" + b[k + n..])
    && (forall k: nat :: HtmlAt(b, k) ==> r == b[..k] + "\\" + b[k..])
    && (afterText ==> forall k: nat, n: nat :: RuleAt(b, k, n) ==> r == b[..k] + "\\" + b[k..])
    && (!Shaped(b, afterText) ==> r == b)
  }

  lemma ShapedIs(b: string, afterText: bool)
    ensures Calm(b, afterText) <==> !Shaped(b, afterText)
  {
    if Heading(b) {
      AtxLevelIs(b);
    }
    if Html(b) {
      HtmlIs(b);
    }
    if Underlines(b) {
      UnderlinesIs(b);
    }
    if exists k: nat, n: nat :: HeadingAt(b, k, n) && n <= 3 {
      var k: nat, n: nat :| HeadingAt(b, k, n) && n <= 3;
      HeadingAtIs(b, k, n);
    }
    if exists k: nat :: HtmlAt(b, k) {
      var k: nat :| HtmlAt(b, k);
      HtmlAtIs(b, k);
    }
    if exists k: nat, n: nat :: RuleAt(b, k, n) {
      var k: nat, n: nat :| RuleAt(b, k, n);
      RuleAtIs(b, k, n);
    }
  }

  lemma FourHashesText(b: string, k: nat, n: nat)
    requires Filled(b, k, k + n, '#') && 1 <= n <= 3
    ensures Inserted(b, k, Hashes(4 - n)) == b[..k] + "####" + b[k + n..]
  {
    var x := Hashes(4 - n) + b[k..];
    assert b[k..] == b[k..k + n] + b[k + n..];
    assert Hashes(4 - n) + b[k..k + n] == "####";
    assert x == "####" + b[k + n..];
  }

  /** One line rewritten, by its characters. */
  lemma RewrittenTurns(b: string, afterText: bool)
    ensures TurnsInto(b, afterText, Rewritten(b, afterText))
  {
    var r := Rewritten(b, afterText);
    forall k: nat, n: nat | HeadingAt(b, k, n) && n <= 3 ensures r == b[..k] + "####" + b[k + n..] {
      HeadingAtIs(b, k, n);
      FourHashesText(b, k, n);
    }
    forall k: nat | HtmlAt(b, k) ensures r == b[..k] + "\\" + b[k..] {
      HtmlAtIs(b, k);
    }
    if afterText {
      forall k: nat, n: nat | RuleAt(b, k, n) ensures r == b[..k] + "\\" + b[k..] {
        RuleAtIs(b, k, n);
        NoHashUnderline(b);
        NoHtmlUnderline(b);
      }
    }
    if !Shaped(b, afterText) {
      ShapedIs(b, afterText);
      CalmStays(b, afterText);
    }
  }

  lemma NoHtmlUnderline(b: string)
    requires Underlines(b)
    ensures !Html(b)
  {
    var lead := Lead(b, true);
    if Html(b) {
      assert b[lead] == Rest(b)[0] == '<';
      UnderlineChars(b, lead);
      assert false;
    }
  }

  /** The heading case as one writes it, with what comes before the "#" and what comes after. */
  lemma HeadingBecomesFour(p: string, n: nat, t: string, afterText: bool)
    requires LeadText(p, true) && 1 <= n <= 3 && (t == "" || t[0] == ' ' || t[0] == '\t')
    ensures Rewritten(p + Hashes(n) + t, afterText) == p + "####" + t
  {
    var b, k := p + Hashes(n) + t, |p|;
    assert b[..k] == p && b[k + n..] == t;
    assert HeadingAt(b, k, n);
    RewrittenTurns(b, afterText);
  }

  /******* Fences *******/

  /** After `k` <= 3 spaces: a run of exactly `n` >= 3 of one of the two letters, and of "`" no other later. */
  ghost predicate FenceAt(b: string, k: nat, c: char, n: nat) {
    && k <= 3 && n >= 3 && (c == '`' || c == '~')
    && Filled(b, 0, k, ' ') && Filled(b, k, k + n, c)
    && (k + n < |b| ==> b[k + n] != c) && (c == '`' ==> '`' !in b[k + n..])
  }

  ghost predicate OpensWith(b: string, c: char, n: nat) {
    exists k: nat :: FenceAt(b, k, c, n)
  }

  /** After at most three spaces: `c` at least `n` times, then only spaces and tabs. */
  ghost predicate EndAt(b: string, k: nat, m: nat, c: char, n: nat) {
    && k <= 3 && m >= n && Filled(b, 0, k, ' ') && Filled(b, k, k + m, c) && Only(b[k + m..], " \t")
  }

  ghost predicate ClosesWith(b: string, c: char, n: nat) {
    exists k: nat, m: nat :: EndAt(b, k, m, c, n)
  }

  lemma IndentIs(b: string, k: nat)
    requires Filled(b, 0, k, ' ') && (k < |b| ==> b[k] != ' ')
    ensures Indent(b) == k
  {
    RunIs(b, ' ', k);
  }

  /** `opensFence` after the spaces of a line. */
  lemma OpenerIs(b: string, c: char, n: nat)
    ensures Opener(b) == Some(Fence(c, n)) <==> OpensWith(b, c, n)
  {
    if OpensWith(b, c, n) {
      var k: nat :| FenceAt(b, k, c, n);
      FenceAtIs(b, k, c, n);
    }
    if Opener(b) == Some(Fence(c, n)) {
      OpensIs(b, c, n);
    }
  }

  lemma FenceAtIs(b: string, k: nat, c: char, n: nat)
    requires FenceAt(b, k, c, n)
    ensures Opener(b) == Some(Fence(c, n))
  {
    assert b[k] == c;
    IndentIs(b, k);
    var x := b[k..];
    assert forall i :: 0 <= i < n ==> x[i] == b[k + i];
    assert n < |x| ==> x[n] == b[k + n];
    RunIs(x, c, n);
    assert x[n..] == b[k + n..];
  }

  lemma OpensIs(b: string, c: char, n: nat)
    requires Opener(b) == Some(Fence(c, n))
    ensures OpensWith(b, c, n)
  {
    var k := Indent(b);
    var x := b[k..];
    assert forall i :: k <= i < k + n ==> b[i] == x[i - k];
    assert n < |x| ==> x[n] == b[k + n];
    assert x[n..] == b[k + n..];
    assert FenceAt(b, k, c, n);
  }

  /** `closesFence` after the spaces of a line. */
  lemma CloserIs(b: string, c: char, n: nat)
    requires n >= 1 && c != ' ' && c != '\t'
    ensures Indent(b) <= 3 && Closes(b[Indent(b)..], Fence(c, n)) <==> ClosesWith(b, c, n)
  {
    if ClosesWith(b, c, n) {
      var k: nat, m: nat :| EndAt(b, k, m, c, n);
      EndAtIs(b, k, m, c, n);
    }
    if Indent(b) <= 3 && Closes(b[Indent(b)..], Fence(c, n)) {
      ClosesIs(b, c, n);
    }
  }

  lemma EndAtIs(b: string, k: nat, m: nat, c: char, n: nat)
    requires n >= 1 && c != ' ' && c != '\t' && EndAt(b, k, m, c, n)
    ensures Indent(b) == k && Closes(b[k..], Fence(c, n))
  {
    assert b[k] == c;
    IndentIs(b, k);
    var x := b[k..];
    assert forall i :: 0 <= i < m ==> x[i] == b[k + i];
    assert m < |x| ==> x[m] == b[k + m] && b[k + m] == b[k + m..][0];
    RunIs(x, c, m);
    assert x[m..] == b[k + m..];
    BlankIs(b[k + m..]);
  }

  lemma ClosesIs(b: string, c: char, n: nat)
    requires Indent(b) <= 3 && Closes(b[Indent(b)..], Fence(c, n))
    ensures ClosesWith(b, c, n)
  {
    var k := Indent(b);
    var x := b[k..];
    var m := Run(x, c);
    assert forall i :: k <= i < k + m ==> b[i] == x[i - k];
    assert x[m..] == b[k + m..];
    BlankIs(b[k + m..]);
    assert EndAt(b, k, m, c, n);
  }

  /**
   A fence of `n` times `c` opened by line `at` is open before line `i`: no fence was open
   there, that line opens this one, and no line since closes it.
   */
  ghost predicate OpenSince(lines: seq<Line>, i: nat, at: nat, c: char, n: nat)
    decreases i, 0
  {
    && at < i <= |lines| && OpensWith(lines[at].body, c, n)
    && (forall j :: at < j < i ==> !ClosesWith(lines[j].body, c, n))
    && NoneOpen(lines, at)
  }

  ghost predicate NoneOpen(lines: seq<Line>, i: nat)
    decreases i, 1
  {
    forall at: nat, c, n :: at < i ==> !OpenSince(lines, i, at, c, n)
  }

  lemma FenceLetters(lines: seq<Line>, n: nat)
    requires n <= |lines| && FenceAfter(lines, n).Open?
    ensures var f := FenceAfter(lines, n).f; f.n >= 3 && (f.c == '`' || f.c == '~')
  {
    if n > 0 && FenceAfter(lines, n - 1).Open? {
      FenceLetters(lines, n - 1);
    }
  }

  // One line more, while a fence is open.
  lemma StaysOpen(lines: seq<Line>, n: nat, at: nat, c: char, m: nat)
    requires n < |lines| && FenceAfter(lines, n) == Open(Fence(c, m), at)
    ensures FenceAfter(lines, n + 1) ==
            if ClosesWith(lines[n].body, c, m) then Closed else Open(Fence(c, m), at)
  {
    FenceLetters(lines, n);
    CloserIs(lines[n].body, c, m);
  }

  // One line more, while none is.
  lemma OpensNext(lines: seq<Line>, n: nat, c: char, m: nat)
    requires n < |lines| && FenceAfter(lines, n).Closed?
    ensures FenceAfter(lines, n + 1) == Open(Fence(c, m), n) <==> OpensWith(lines[n].body, c, m)
  {
    OpenerIs(lines[n].body, c, m);
  }

  lemma OpenSinceNext(lines: seq<Line>, n: nat, at: nat, c: char, m: nat)
    requires n < |lines|
    ensures OpenSince(lines, n + 1, at, c, m) <==>
            || (at < n && OpenSince(lines, n, at, c, m) && !ClosesWith(lines[n].body, c, m))
            || (at == n && NoneOpen(lines, n) && OpensWith(lines[n].body, c, m))
  {
  }

  ghost predicate FenceIs(lines: seq<Line>, n: nat, at: nat, c: char, m: nat)
    requires n <= |lines|
  {
    FenceAfter(lines, n) == Open(Fence(c, m), at) <==> OpenSince(lines, n, at, c, m)
  }

  /** The scan over the lines finds open exactly the fence that is. */
  lemma {:induction false} FenceAfterIs(lines: seq<Line>, n: nat)
    requires n <= |lines|
    ensures forall at: nat, c, m :: FenceIs(lines, n, at, c, m)
    ensures FenceAfter(lines, n).Closed? <==> NoneOpen(lines, n)
  {
    if n > 0 {
      FenceAfterIs(lines, n - 1);
      forall at: nat, c, m ensures FenceIs(lines, n, at, c, m) {
        FenceIsNext(lines, n - 1, at, c, m);
      }
    }
    NoneOpenIs(lines, n);
  }

  lemma NoneOpenIs(lines: seq<Line>, n: nat)
    requires n <= |lines| && forall at: nat, c, m :: FenceIs(lines, n, at, c, m)
    ensures FenceAfter(lines, n).Closed? <==> NoneOpen(lines, n)
  {
    if FenceAfter(lines, n).Open? {
      var s := FenceAfter(lines, n);
      assert FenceIs(lines, n, s.at, s.f.c, s.f.n);
    } else {
      forall at: nat, c, m | at < n ensures !OpenSince(lines, n, at, c, m) {
        assert FenceIs(lines, n, at, c, m);
      }
    }
  }

  lemma FenceIsNext(lines: seq<Line>, n: nat, at: nat, c: char, m: nat)
    requires n < |lines| && forall at: nat, c, m :: FenceIs(lines, n, at, c, m)
    ensures FenceIs(lines, n + 1, at, c, m)
  {
    NoneOpenIs(lines, n);
    OpenSinceNext(lines, n, at, c, m);
    assert FenceIs(lines, n, at, c, m);
    match FenceAfter(lines, n) {
      case Closed =>
        OpensNext(lines, n, c, m);
      case Open(f, was) =>
        StaysOpen(lines, n, was, f.c, f.n);
    }
  }
}

/**
 The rewrite of one line of an entry's content (render.go) and what it guarantees: the
 line and its rewrite are `Tamed`.  The whole content is the module Content.
 */
module Neutralise {
  import opened Common
  import opened Markdown

  /******* One line *******/

  function Rest(b: string): string {
    b[Lead(b, true)..]
  }

  /** A line that a following underline would make a heading. */
  predicate IsText(b: string) {
    AtxLevel(Rest(b)) == 0 && !Blank(b)
  }

  predicate Heading(b: string) {
    1 <= AtxLevel(Rest(b)) <= 3
  }

  predicate Html(b: string) {
    "<" <= Rest(b)
  }

  predicate Underlines(b: string) {
    Underline(b[Lead(b, false)..])
  }

  /** A line the block can hold as it is, after a line that is text or is not. */
  predicate Calm(b: string, afterText: bool) {
    !Heading(b) && !Html(b) && !(afterText && Underlines(b))
  }

  function Inserted(b: string, k: nat, ins: string): string
    requires k <= |b|
  {
    b[..k] + ins + b[k..]
  }

  function Hashes(n: nat): (s: string)
    ensures |s| == n && forall i :: 0 <= i < n ==> s[i] == '#'
  {
    seq(n, _ => '#')
  }

  function Rewritten(b: string, afterText: bool): string {
    var lead := Lead(b, true);
    var n := AtxLevel(b[lead..]);
    if 1 <= n <= 3 then Inserted(b, lead, Hashes(4 - n))
    else if n == 0 && "<" <= b[lead..] then Inserted(b, lead, "\\")
    else if n == 0 && afterText && Underlines(b) then Inserted(b, Lead(b, false), "\\")
    else b
  }

  /** The line with "\" before what opens its fence. */
  function Escaped(b: string): string {
    Inserted(b, Indent(b), "\\")
  }

  /** What may be put into a line, in one place. */
  predicate Mark(ins: string) {
    ins == "#" || ins == "##" || ins == "###" || ins == "\\"
  }

  ghost predicate Marked(b: string, r: string, k: nat, ins: string) {
    k <= |b| && Mark(ins) && r == Inserted(b, k, ins)
  }

  ghost predicate Edited(b: string, r: string) {
    r == b || exists k, ins :: Marked(b, r, k, ins)
  }

  // A line whose lead, `p`, is followed by something that is neither lead, heading nor HTML.
  lemma Inert(p: string, x: string, c: char)
    requires Lead(p + x, true) == |p| && x != "" && x[0] == c && (c == '\\' || c == '`' || c == '~')
    ensures Calm(p + x, true) && IsText(p + x)
  {
    var b := p + x;
    assert b[|p|..] == x && b[|p|] == c;
    RunIs(x, '#', 0);
    if Underlines(b) {
      UnderlineChars(b, |p|);
      assert false;
    }
  }

  lemma FourHashes(p: string, x: string, n: nat)
    requires Lead(p + x, true) == |p| && AtxLevel(x) == n && 1 <= n <= 3
    ensures var r := p + (Hashes(4 - n) + x);
            Lead(r, true) == |p| && AtxLevel(Rest(r)) == 4 && Calm(r, true) && !IsText(r) && Opener(r).None?
  {
    var y := Hashes(4 - n) + x;
    var r := p + y;
    LeadInsert(p, x, y, 0, true);
    assert r[|p|..] == y && r[|p|] == '#';
    assert forall i :: 4 - n <= i < 4 ==> y[i] == x[i - (4 - n)];
    RunIs(y, '#', 4);
    if Underlines(r) {
      UnderlineChars(r, |p|);
      assert false;
    }
    if Opener(r).Some? {
      OpenerLead(r);
      assert false;
    }
  }

  // A line that opens a fence is spaces and the fence.
  lemma OpenerLead(b: string)
    requires Opener(b).Some?
    ensures Indent(b) < |b| && Lead(b, true) == Indent(b) && (b[Indent(b)] == '`' || b[Indent(b)] == '~')
  {
    var p, x := b[..Indent(b)], b[Indent(b)..];
    assert b == p + x;
    QuoteLead(p, x, 0, true);
  }

  lemma OpenerIsText(b: string)
    requires Opener(b).Some?
    ensures IsText(b)
  {
    OpenerLead(b);
    var p, x := b[..Indent(b)], b[Indent(b)..];
    assert b == p + x;
    Inert(p, x, x[0]);
  }

  /** Escaping a line that opens a fence: it is text before and after, and opens none after. */
  lemma EscapedIsCalm(b: string)
    requires Opener(b).Some?
    ensures Calm(Escaped(b), true) && IsText(Escaped(b)) && Opener(Escaped(b)).None?
  {
    OpenerLead(b);
    var p, x := b[..Indent(b)], b[Indent(b)..];
    assert b == p + x;
    Backslashed(p, x);
  }

  // A lead, "\" and anything.
  lemma Backslashed(p: string, x: string)
    requires Lead(p + x, true) == |p|
    ensures var r := Inserted(p + x, |p|, "\\"); Calm(r, true) && IsText(r) && Opener(r).None?
  {
    var y := "\\" + x;
    var r := p + y;
    assert Inserted(p + x, |p|, "\\") == r;
    LeadInsert(p, x, y, 0, true);
    Inert(p, y, '\\');
    assert r[|p|] == '\\';
    if Opener(r).Some? {
      OpenerLead(r);
      assert false;
    }
  }

  lemma QuoteBackslashed(b: string)
    requires Underlines(b)
    ensures var r := Inserted(b, Lead(b, false), "\\"); Calm(r, true) && IsText(r) && Opener(r).None?
  {
    var q := Lead(b, false);
    forall i | 0 <= i < q ensures QuoteChar(b[i]) { QuoteLeadChars(b, 0, i); }
    var p, y := b[..q], "\\" + b[q..];
    var r := p + y;
    assert Inserted(b, q, "\\") == r;
    QuoteLead(p, y, 0, true);
    Inert(p, y, '\\');
    assert r[|p|] == '\\';
    if Opener(r).Some? {
      OpenerLead(r);
      assert false;
    }
  }

  lemma UnderlineIsText(b: string)
    requires Underlines(b)
    ensures !Blank(b)
  {
    var q := Lead(b, false);
    assert !Gap(b[q]);
  }

  // What rewriting a line comes to.
  ghost predicate Tamed(b: string, r: string, afterText: bool) {
    && Calm(r, afterText) && IsText(r) == IsText(b)
    && (Heading(b) ==> AtxLevel(Rest(r)) == 4)
    && (r == b || (Edited(b, r) && Opener(r).None?))
  }

  lemma HashesMark(k: nat)
    requires 1 <= k <= 3
    ensures Mark(Hashes(k))
  {
    if k == 1 {
      assert Hashes(k) == "#";
    } else if k == 2 {
      assert Hashes(k) == "##";
    } else {
      assert Hashes(k) == "###";
    }
  }

  lemma InsertedAfter(p: string, x: string, ins: string)
    ensures Inserted(p + x, |p|, ins) == p + (ins + x)
  {
    assert (p + x)[..|p|] == p && (p + x)[|p|..] == x;
  }

  lemma TameHeading(b: string, n: nat)
    requires n == AtxLevel(Rest(b)) && 1 <= n <= 3
    ensures Tamed(b, Inserted(b, Lead(b, true), Hashes(4 - n)), true)
  {
    var lead := Lead(b, true);
    var p, x := b[..lead], b[lead..];
    assert b == p + x;
    FourHashes(p, x, n);
    InsertedAfter(p, x, Hashes(4 - n));
    HashesMark(4 - n);
    assert Marked(b, Inserted(b, lead, Hashes(4 - n)), lead, Hashes(4 - n));
  }

  lemma TameHtml(b: string)
    requires Html(b)
    ensures AtxLevel(Rest(b)) == 0
    ensures Tamed(b, Inserted(b, Lead(b, true), "\\"), true)
  {
    var lead := Lead(b, true);
    var p, x := b[..lead], b[lead..];
    assert b == p + x;
    Backslashed(p, x);
    assert b[lead] == x[0] == '<';
    RunIs(x, '#', 0);
    assert Marked(b, Inserted(b, lead, "\\"), lead, "\\");
  }

  lemma TameUnderline(b: string)
    requires Underlines(b)
    ensures AtxLevel(Rest(b)) == 0 && Tamed(b, Inserted(b, Lead(b, false), "\\"), true)
  {
    NoHashUnderline(b);
    QuoteBackslashed(b);
    UnderlineIsText(b);
    assert Marked(b, Inserted(b, Lead(b, false), "\\"), Lead(b, false), "\\");
  }

  lemma NoHashUnderline(b: string)
    requires Underlines(b)
    ensures AtxLevel(Rest(b)) == 0
  {
    var lead := Lead(b, true);
    if AtxLevel(Rest(b)) > 0 {
      assert b[lead] == Rest(b)[0] == '#';
      UnderlineChars(b, lead);
      assert false;
    }
  }

  /**
   One line rewritten: it is calm; it is text if and only if it was; it is the line it was
   or that line with one mark put in, and then it opens no fence.
   */
  lemma RewrittenIsTame(b: string, afterText: bool)
    ensures Tamed(b, Rewritten(b, afterText), afterText)
  {
    if Heading(b) {
      TameHeading(b, AtxLevel(Rest(b)));
    } else if Html(b) {
      TameHtml(b);
    } else if Underlines(b) {
      TameUnderline(b);
    }
  }

  /** A calm line stays as it is. */
  lemma CalmStays(b: string, afterText: bool)
    requires Calm(b, afterText)
    ensures Rewritten(b, afterText) == b
  {
  }
}

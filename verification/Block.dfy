/** The block whole (render.go): its bound, its sections, and the last line, which states the block's own size. */
module Blocks {
  import opened Common
  import opened Text
  import opened Memory
  import opened Manifests
  import opened Packing
  import opened Render

  /******* The summary *******/

  function Padded(s: string, width: nat): (r: string)
    ensures |r| == if |s| < width then width else |s|
  {
    if |s| < width then seq(width - |s|, _ => ' ') + s else s
  }

  /** The last line; the free count is as wide as the bound. */
  function Summary(w: Wording, shown: nat, omitted: nat, size: int, max: int, free: int, limit: int): string {
    w.entries + Itoa(shown) + w.shown + Itoa(omitted) + w.omitted + Itoa(size) + w.of + Itoa(max) + w.bytes +
    Padded(Itoa(free), |Itoa(max)|) + w.free + Itoa(limit) + w.end
  }

  function Fixed(w: Wording): nat {
    |w.entries| + |w.shown| + |w.omitted| + |w.of| + |w.bytes| + |w.free| + |w.end|
  }

  // All of the summary's width but the size's own digits.
  function Around(w: Wording, shown: nat, omitted: nat, max: nat, limit: int): nat {
    Fixed(w) + Width(shown) + Width(omitted) + 2 * Width(max) + |Itoa(limit)|
  }

  /** Two summaries that differ in `size` and `free` alone are of one length when their sizes have as many digits. */
  lemma SummaryWidth(w: Wording, shown: nat, omitted: nat, size: nat, max: nat, free: nat, limit: int)
    requires free <= max
    ensures |Summary(w, shown, omitted, size, max, free, limit)| == Around(w, shown, omitted, max, limit) + Width(size)
  {
    WidthMonotone(free, max);
  }

  /** The summary as a function of the size it states. */
  function Line(w: Wording, shown: nat, omitted: nat, max: int, limit: int): int -> string {
    size => Summary(w, shown, omitted, size, max, max - size, limit)
  }

  // Such a line is `around` wide, but for the digits of the size.
  ghost predicate Measures(line: int -> string, around: nat, max: nat) {
    forall size: nat {:trigger line(size)} :: size <= max ==> |line(size)| == around + Width(size)
  }

  lemma LineMeasures(w: Wording, shown: nat, omitted: nat, max: nat, limit: int)
    ensures Measures(Line(w, shown, omitted, max, limit), Around(w, shown, omitted, max, limit), max)
  {
    var line := Line(w, shown, omitted, max, limit);
    forall size: nat {:trigger line(size)} | size <= max
      ensures |line(size)| == Around(w, shown, omitted, max, limit) + Width(size)
    {
      SummaryWidth(w, shown, omitted, size, max, max - size, limit);
    }
  }

  /** The passes that settle it: write the size, measure, and write again until it is the size that was written. */
  function Stated(line: int -> string, rest: nat, size: int, passes: nat): string
    decreases passes
  {
    if passes == 0 then ""
    else
      var n := rest + |line(size)|;
      if n == size || passes == 1 then line(size) else Stated(line, rest, n, passes - 1)
  }

  const Passes := 8

  method SettleSummary(line: int -> string, rest: nat, start: int) returns (last: string)
    ensures last == Stated(line, rest, start, Passes)
  {
    var size := start;
    last := "";
    for i := 0 to Passes
      invariant i < Passes ==> Stated(line, rest, start, Passes) == Stated(line, rest, size, Passes - i)
      invariant i == Passes ==> last == Stated(line, rest, start, Passes)
    {
      last := line(size);
      var n := rest + |last|;
      if n == size {
        break;
      }
      size := n;
    }
  }

  /** The line states the size of the block it ends, and that is within the bound. */
  ghost predicate States(line: int -> string, last: string, rest: nat, max: nat) {
    rest + |last| <= max && last == line(rest + |last|)
  }

  // Along the passes the sizes descend, and their widths drop by one at most.
  lemma WidthsSettle(base: nat, size: nat)
    requires size >= base + Width(size) && size <= 2 * (base + Width(size))
    ensures var one := base + Width(size);
            var two := base + Width(one);
            var three := base + Width(two);
            two <= one <= size && (one == size || two == one || three == two)
  {
    var one := base + Width(size);
    WidthMonotone(one, size);
    var two := base + Width(one);
    WidthFactor(one, size);
    WidthMonotone(two, one);
    if two < one {
      assert two == one - 1;
      WidthFactor(two, size);
    }
  }

  // One pass either states the size it makes, or hands that size to the next.
  lemma OnePass(line: int -> string, rest: nat, size: int, passes: nat, next: int)
    requires passes > 0 && next == rest + |line(size)|
    ensures next == size ==> Stated(line, rest, size, passes) == line(size)
    ensures passes > 1 && next != size ==> forall left: nat :: left + 1 == passes ==>
            Stated(line, rest, size, passes) == Stated(line, rest, next, left)
  {
  }

  /**
   The passes settle: for every bound and count, the third pass at the latest writes the
   size of the block it makes, so the loop always leaves through its break.
   */
  lemma SummarySettles(line: int -> string, around: nat, rest: nat, size: nat, max: nat, passes: nat)
    requires Measures(line, around, max) && passes >= 3 && size <= max
    requires rest + around + Width(size) <= size <= 2 * (rest + around + Width(size))
    ensures States(line, Stated(line, rest, size, passes), rest, max)
  {
    var one := rest + |line(size)|;
    var two := rest + |line(one)|;
    var three := rest + |line(two)|;
    WidthsSettle(rest + around, size);
    SettlesInThree(line, rest, size, one, two, three, passes);
  }

  lemma SettlesInThree(line: int -> string, rest: nat, size: nat, one: nat, two: nat, three: nat, passes: nat)
    requires passes >= 3 && one == rest + |line(size)| && two == rest + |line(one)| && three == rest + |line(two)|
    requires one == size || two == one || three == two
    ensures Stated(line, rest, size, passes) == line(if one == size then size else if two == one then one else two)
  {
    var second, third := passes - 1, passes - 2;
    OnePass(line, rest, size, passes, one);
    OnePass(line, rest, one, second, two);
    OnePass(line, rest, two, third, three);
  }

  /******* Sections, one after another *******/

  datatype Bounds = Bounds(maxTotal: int, scopeMax: map<string, int>)

  /** What is left for a scope: what the block has left, within the scope's cap. */
  function RoomFor(b: Bounds, fixed: nat, spent: nat, scope: string): int {
    var left := b.maxTotal - fixed - spent;
    if scope in b.scopeMax && b.scopeMax[scope] < left then b.scopeMax[scope] else left
  }

  function Spent(secs: seq<Section>): nat {
    if secs == [] then 0 else Spent(secs[..|secs| - 1]) + secs[|secs| - 1].used
  }

  function AllParts(secs: seq<Section>): seq<Part> {
    if secs == [] then [] else AllParts(secs[..|secs| - 1]) + ([secs[|secs| - 1].heading] + secs[|secs| - 1].parts)
  }

  function AllShown(secs: seq<Section>): seq<Shown> {
    if secs == [] then [] else AllShown(secs[..|secs| - 1]) + secs[|secs| - 1].shown
  }

  function AllOmitted(secs: seq<Section>): seq<Shown> {
    if secs == [] then [] else AllOmitted(secs[..|secs| - 1]) + secs[|secs| - 1].omitted
  }

  /** How a scope is laid out in some room. */
  function Layout(w: Wording): (string, seq<Rendered>, int) -> Section {
    (scope, es, room) => SectionOf(w, scope, es, room)
  }

  /** The sections of the first scopes, each in the room the ones before it left. */
  ghost predicate Laid(lay: (string, seq<Rendered>, int) -> Section, b: Bounds, scopes: seq<string>,
                       lists: seq<seq<Rendered>>, fixed: nat, secs: seq<Section>)
  {
    && |lists| == |scopes| >= |secs|
    && (secs != [] ==>
          var n := |secs| - 1;
          && Laid(lay, b, scopes, lists, fixed, secs[..n])
          && secs[n] == lay(scopes[n], lists[n], RoomFor(b, fixed, Spent(secs[..n]), scopes[n])))
  }

  lemma LaidMore(lay: (string, seq<Rendered>, int) -> Section, b: Bounds, scopes: seq<string>,
                 lists: seq<seq<Rendered>>, fixed: nat, secs: seq<Section>, s: Section)
    requires Laid(lay, b, scopes, lists, fixed, secs) && |secs| < |scopes|
    requires s == lay(scopes[|secs|], lists[|secs|], RoomFor(b, fixed, Spent(secs), scopes[|secs|]))
    ensures Laid(lay, b, scopes, lists, fixed, secs + [s])
  {
    assert (secs + [s])[..|secs|] == secs;
  }

  // What a layout must give in any room.
  ghost predicate FairAt(w: Wording, scope: string, es: seq<Rendered>, room: nat, s: Section) {
    && s.heading.text == ScopeText(w, scope, es == [])
    && s.used == PartsCost(s.parts) <= room
    && |s.shown| + |s.omitted| == |es|
    && Accounts(s.shown, s.omitted, ShownList(scope, es, ""))
  }

  ghost predicate Fair(w: Wording, lay: (string, seq<Rendered>, int) -> Section) {
    forall scope, es, room: nat {:trigger lay(scope, es, room)} :: FairAt(w, scope, es, room, lay(scope, es, room))
  }

  lemma LayoutIsFair(w: Wording)
    ensures Fair(w, Layout(w))
  {
    var lay := Layout(w);
    forall scope, es, room: nat {:trigger lay(scope, es, room)}
      ensures FairAt(w, scope, es, room, lay(scope, es, room))
    {
      SectionFits(w, scope, es, room);
      SectionAccounts(w, scope, es, room);
    }
  }

  /**
   What one scope's section owes: its heading, an honest count of its bytes, its cap, and every
   entry accounted for.
   */
  ghost predicate SectionKept(w: Wording, b: Bounds, scope: string, es: seq<Rendered>, s: Section) {
    && s.heading.text == ScopeText(w, scope, es == [])
    && s.used == PartsCost(s.parts)
    && |s.shown| + |s.omitted| == |es|
    && Accounts(s.shown, s.omitted, ShownList(scope, es, ""))
    && (scope in b.scopeMax ==> s.used <= b.scopeMax[scope])
  }

  ghost predicate NoNegativeCap(b: Bounds) {
    forall s :: s in b.scopeMax ==> b.scopeMax[s] >= 0
  }

  ghost predicate AllKept(w: Wording, b: Bounds, scopes: seq<string>, lists: seq<seq<Rendered>>, secs: seq<Section>) {
    |lists| == |scopes| >= |secs| && forall i :: 0 <= i < |secs| ==> SectionKept(w, b, scopes[i], lists[i], secs[i])
  }

  lemma AllKeptMore(w: Wording, b: Bounds, scopes: seq<string>, lists: seq<seq<Rendered>>, secs: seq<Section>,
                    front: seq<Section>, s: Section)
    requires secs == front + [s] && AllKept(w, b, scopes, lists, front) && |front| < |scopes|
    requires SectionKept(w, b, scopes[|front|], lists[|front|], s)
    ensures AllKept(w, b, scopes, lists, secs) && Spent(secs) == Spent(front) + s.used
  {
    assert secs[..|front|] == front;
  }

  /** Every section is sound, and together they stay within the bound. */
  lemma {:induction false} SectionsFit(w: Wording, lay: (string, seq<Rendered>, int) -> Section, b: Bounds,
                                       scopes: seq<string>, lists: seq<seq<Rendered>>, fixed: nat, secs: seq<Section>)
    requires Fair(w, lay) && Laid(lay, b, scopes, lists, fixed, secs) && NoNegativeCap(b) && fixed <= b.maxTotal
    ensures fixed + Spent(secs) <= b.maxTotal && AllKept(w, b, scopes, lists, secs)
  {
    if secs != [] {
      var n := |secs| - 1;
      var front, s := secs[..n], secs[n];
      SectionsFit(w, lay, b, scopes, lists, fixed, front);
      var room := RoomFor(b, fixed, Spent(front), scopes[n]);
      assert FairAt(w, scopes[n], lists[n], room, lay(scopes[n], lists[n], room));
      AllKeptMore(w, b, scopes, lists, secs, front, s);
    }
  }

  function HeadsCost(w: Wording, scopes: seq<string>, lists: seq<seq<Rendered>>, n: nat): nat
    requires |lists| == |scopes| && n <= |scopes|
  {
    if n == 0 then 0
    else HeadsCost(w, scopes, lists, n - 1) + Cost(ScopeText(w, scopes[n - 1], lists[n - 1] == []))
  }

  function Entries(lists: seq<seq<Rendered>>, n: nat): nat
    requires n <= |lists|
  {
    if n == 0 then 0 else Entries(lists, n - 1) + |lists[n - 1]|
  }

  /** Every entry of the first `n` scopes, as the manifest names it. */
  function Listing(scopes: seq<string>, lists: seq<seq<Rendered>>, n: nat): seq<Shown>
    requires |lists| == |scopes| && n <= |scopes|
  {
    if n == 0 then [] else Listing(scopes, lists, n - 1) + ShownList(scopes[n - 1], lists[n - 1], "")
  }

  lemma AccountsNext(a: seq<Shown>, b: seq<Shown>, all: seq<Shown>, a': seq<Shown>, b': seq<Shown>, all': seq<Shown>)
    requires Accounts(a, b, all) && Accounts(a', b', all')
    ensures Accounts(a + a', b + b', all + all')
  {
    forall k ensures TimesShown(a + a', k) + TimesShown(b + b', k) == TimesShown(all + all', k) {
      TimesShownConcat(a, a', k);
      TimesShownConcat(b, b', k);
      TimesShownConcat(all, all', k);
    }
  }

  /** The manifest of some sections names every entry of their scopes, each as often as it is listed. */
  lemma {:induction false} SectionsAccount(w: Wording, b: Bounds, scopes: seq<string>, lists: seq<seq<Rendered>>,
                                           secs: seq<Section>)
    requires AllKept(w, b, scopes, lists, secs)
    ensures Accounts(AllShown(secs), AllOmitted(secs), Listing(scopes, lists, |secs|))
  {
    if secs != [] {
      var n := |secs| - 1;
      var front, s := secs[..n], secs[n];
      SectionsAccount(w, b, scopes, lists, front);
      assert SectionKept(w, b, scopes[n], lists[n], s);
      AccountsNext(AllShown(front), AllOmitted(front), Listing(scopes, lists, n),
                   s.shown, s.omitted, ShownList(scopes[n], lists[n], ""));
    }
  }

  lemma SectionAdds(w: Wording, b: Bounds, scope: string, es: seq<Rendered>, s: Section, before: seq<Part>)
    requires SectionKept(w, b, scope, es, s)
    ensures PartsCost(before + ([s.heading] + s.parts)) ==
            PartsCost(before) + Cost(ScopeText(w, scope, es == [])) + s.used
  {
    PartsCostConcat(before, [s.heading] + s.parts);
    PartsCostConcat([s.heading], s.parts);
    PartsCostOne(s.heading);
  }

  /** The parts cost their headings and what was spent; the manifest has every entry. */
  lemma {:induction false} SectionsAdd(w: Wording, b: Bounds, scopes: seq<string>, lists: seq<seq<Rendered>>,
                                       secs: seq<Section>, n: nat)
    requires |lists| == |scopes| && n == |secs| <= |scopes|
    requires forall i :: 0 <= i < n ==> SectionKept(w, b, scopes[i], lists[i], secs[i])
    ensures PartsCost(AllParts(secs)) == HeadsCost(w, scopes, lists, n) + Spent(secs)
    ensures |AllShown(secs)| + |AllOmitted(secs)| == Entries(lists, n)
  {
    if n > 0 {
      SectionsAdd(w, b, scopes, lists, secs[..n - 1], n - 1);
      SectionAdds(w, b, scopes[n - 1], lists[n - 1], secs[n - 1], AllParts(secs[..n - 1]));
    }
  }

  /******* The block *******/

  datatype NoBlock = TooSmall | BadScope

  datatype Block = Block(parts: seq<Part>, man: Manifest)

  /** An upper bound on the length of every summary of these entries. */
  function Widest(w: Wording, total: nat, max: int, limit: int): nat {
    |Summary(w, total, total, max, max, max, limit)|
  }

  /** The cost of the title, of the longest summary and of the scope headings together. */
  function FixedCost(w: Wording, scopes: seq<string>, lists: seq<seq<Rendered>>, max: int, limit: int): nat
    requires |lists| == |scopes|
  {
    |w.title| + |Separator| + Widest(w, Entries(lists, |lists|), max, limit) + HeadsCost(w, scopes, lists, |scopes|)
  }

  predicate GoodScopes(scopes: seq<string>) {
    && (forall i :: 0 <= i < |scopes| ==> ValidName(scopes[i]))
    && (forall i, j :: 0 <= i < j < |scopes| ==> scopes[i] != scopes[j])
  }

  /** Why there is no block. */
  ghost function Refused(w: Wording, b: Bounds, scopes: seq<string>, lists: seq<seq<Rendered>>, limit: int)
    : Option<NoBlock>
    requires |lists| == |scopes|
  {
    if b.maxTotal < 1 || !NoNegativeCap(b) then Some(TooSmall)
    else if !GoodScopes(scopes) then Some(BadScope)
    else if FixedCost(w, scopes, lists, b.maxTotal, limit) > b.maxTotal then Some(TooSmall)
    else None
  }

  // The parts with the summary after them.
  function Ended(parts: seq<Part>, line: int -> string, size: int): seq<Part> {
    parts + [Part("memory:summary", Stated(line, |Joined(parts)| + |Separator|, size, Passes))]
  }

  function BlockWith(w: Wording, secs: seq<Section>, size: int, max: int, limit: int): Block {
    Block(Ended([Part("memory", w.title)] + AllParts(secs), Line(w, |AllShown(secs)|, |AllOmitted(secs)|, max, limit),
      size),
          Manifest(AllShown(secs), AllOmitted(secs), false))
  }

  lemma WidthOfSum(m: nat, n: nat)
    ensures Width(m) <= Width(m + n) <= Width(m) + Width(n)
  {
    WidthMonotone(m, m + n);
    if m <= n {
      WidthFactor(n, m + n);
    } else {
      WidthFactor(m, m + n);
    }
  }

  // The reservation is wide enough for the summary, and not twice as wide as what it holds.
  lemma ReservationSettles(w: Wording, shown: nat, omitted: nat, max: nat, limit: int, rest: nat, size: nat)
    requires size == rest + Widest(w, shown + omitted, max, limit) <= max
    ensures var around := Around(w, shown, omitted, max, limit);
            rest + around + Width(size) <= size <= 2 * (rest + around + Width(size))
  {
    var total := shown + omitted;
    SummaryWidth(w, total, total, max, max, max, limit);
    WidthOfSum(shown, omitted);
    WidthOfSum(omitted, shown);
    WidthMonotone(size, max);
  }

  /** Parts that end with a line stating their exact size, which is within the bound. */
  ghost predicate StatesSize(parts: seq<Part>, line: int -> string, max: nat) {
    && |Joined(parts)| <= max
    && parts != [] && parts[|parts| - 1].text == line(|Joined(parts)|)
  }

  /** The block ends with the summary of its counts and its exact size, and is within the bound. */
  ghost predicate Honest(w: Wording, blk: Block, max: nat, limit: int) {
    StatesSize(blk.parts, Line(w, |blk.man.entries|, |blk.man.omitted|, max, limit), max)
  }

  /** The numerals of a last line, and the spaces before the free count. */
  datatype Numerals = Numerals(
    shown: string, omitted: string, size: string, max: string, pad: string, free: string, limit: string)

  /** A last line with these numerals. */
  function LastLine(x: Numerals): string {
    "Entries: " + x.shown + " shown, " + x.omitted + " omitted. Block: " + x.size + " of " + x.max + " bytes (" +
    (x.pad + x.free) + " free). Entry limit: " + x.limit + " bytes."
  }

  /** They stand for these numbers, and the free count is as wide as the bound. */
  ghost predicate StandFor(x: Numerals, shown: nat, omitted: nat, size: nat, max: nat, limit: int) {
    && Numeral(x.shown, shown) && Numeral(x.omitted, omitted) && Numeral(x.size, size) && Numeral(x.max, max)
    && Numeral(x.free, max - size) && Numeral(x.limit, limit)
    && |x.pad| + |x.free| == |x.max| && forall i :: 0 <= i < |x.pad| ==> x.pad[i] == ' '
  }

  /** The block's last part tells how much it shows and omits, its exact size, its bound, what is free and the limit. */
  ghost predicate TellsAll(blk: Block, max: nat, limit: int) {
    blk.parts != [] && |Joined(blk.parts)| <= max &&
    LineTells(blk.parts[|blk.parts| - 1].text, |blk.man.entries|, |blk.man.omitted|, |Joined(blk.parts)|, max, limit)
  }

  ghost predicate LineTells(text: string, shown: nat, omitted: nat, size: nat, max: nat, limit: int) {
    exists x :: text == LastLine(x) && StandFor(x, shown, omitted, size, max, limit)
  }

  function NumeralsOf(shown: nat, omitted: nat, size: nat, max: nat, limit: int, pad: string): Numerals
    requires size <= max
  {
    Numerals(Itoa(shown), Itoa(omitted), Itoa(size), Itoa(max), pad, Itoa(max - size), Itoa(limit))
  }

  lemma NumeralsStand(shown: nat, omitted: nat, size: nat, max: nat, limit: int, pad: string)
    requires size <= max && |pad| + Width(max - size) == Width(max) && forall i :: 0 <= i < |pad| ==> pad[i] == ' '
    ensures StandFor(NumeralsOf(shown, omitted, size, max, limit, pad), shown, omitted, size, max, limit)
  {
    ItoaReads(shown);
    ItoaReads(omitted);
    ItoaReads(size);
    ItoaReads(max);
    ItoaReads(max - size);
    ItoaReads(limit);
  }

  lemma SummaryIsLine(shown: nat, omitted: nat, size: nat, max: nat, free: nat, limit: int, pad: string)
    requires free + size == max && Padded(Itoa(free), |Itoa(max)|) == pad + Itoa(free)
    ensures Summary(Words, shown, omitted, size, max, free, limit) ==
            LastLine(NumeralsOf(shown, omitted, size, max, limit, pad))
  {
  }

  lemma SummaryTells(shown: nat, omitted: nat, size: nat, max: nat, limit: int)
    requires size <= max
    ensures LineTells(Line(Words, shown, omitted, max, limit)(size), shown, omitted, size, max, limit)
  {
    var free := max - size;
    WidthMonotone(free, max);
    var pad := seq(Width(max) - Width(free), _ => ' ');
    assert Padded(Itoa(free), |Itoa(max)|) == pad + Itoa(free);
    SummaryIsLine(shown, omitted, size, max, free, limit, pad);
    NumeralsStand(shown, omitted, size, max, limit, pad);
  }

  /** So an honest block tells it all. */
  lemma HonestTells(blk: Block, max: nat, limit: int)
    requires Honest(Words, blk, max, limit)
    ensures TellsAll(blk, max, limit)
  {
    SummaryTells(|blk.man.entries|, |blk.man.omitted|, |Joined(blk.parts)|, max, limit);
  }

  lemma EndedStates(parts: seq<Part>, line: int -> string, around: nat, rest: nat, size: nat, max: nat)
    requires parts != [] && rest == |Joined(parts)| + |Separator|
    requires Measures(line, around, max) && size <= max
    requires rest + around + Width(size) <= size <= 2 * (rest + around + Width(size))
    ensures StatesSize(Ended(parts, line, size), line, max)
  {
    SummarySettles(line, around, rest, size, max, Passes);
    JoinedMore(parts, Part("memory:summary", Stated(line, rest, size, Passes)));
  }

  lemma BlockIsHonest(w: Wording, secs: seq<Section>, shown: nat, omitted: nat, size: nat, max: nat, limit: int,
                      rest: nat)
    requires rest == |w.title| + PartsCost(AllParts(secs)) + |Separator|
    requires shown == |AllShown(secs)| && omitted == |AllOmitted(secs)|
    requires size == rest + Widest(w, shown + omitted, max, limit) <= max
    ensures Honest(w, BlockWith(w, secs, size, max, limit), max, limit)
  {
    ReservationSettles(w, shown, omitted, max, limit, rest, size);
    LineMeasures(w, shown, omitted, max, limit);
    JoinedLength(Part("memory", w.title), AllParts(secs));
    EndedStates([Part("memory", w.title)] + AllParts(secs), Line(w, shown, omitted, max, limit),
      Around(w, shown, omitted, max, limit), rest, size, max);
  }

  lemma JoinedMore(parts: seq<Part>, last: Part)
    requires parts != []
    ensures |Joined(parts + [last])| == |Joined(parts)| + |Separator| + |last.text|
  {
    assert (parts + [last])[..|parts|] == parts;
  }

  // The passes start from the block at its widest.
  lemma StartsWidest(w: Wording, b: Bounds, scopes: seq<string>, lists: seq<seq<Rendered>>, limit: int,
                     secs: seq<Section>, shown: nat, omitted: nat)
    requires |lists| == |scopes| == |secs| && shown == |AllShown(secs)| && omitted == |AllOmitted(secs)|
    requires AllKept(w, b, scopes, lists, secs)
    ensures shown + omitted == Entries(lists, |lists|)
    ensures FixedCost(w, scopes, lists, b.maxTotal, limit) + Spent(secs) ==
            |w.title| + PartsCost(AllParts(secs)) + |Separator| + Widest(w, shown + omitted, b.maxTotal, limit)
  {
    SectionsAdd(w, b, scopes, lists, secs, |scopes|);
  }

  lemma KeptSectionsFit(w: Wording, b: Bounds, scopes: seq<string>, lists: seq<seq<Rendered>>, limit: int,
                        secs: seq<Section>, size: nat, blk: Block)
    requires |lists| == |scopes| == |secs| &&
             size == FixedCost(w, scopes, lists, b.maxTotal, limit) + Spent(secs) <= b.maxTotal
    requires AllKept(w, b, scopes, lists, secs)
    requires blk == BlockWith(w, secs, size, b.maxTotal, limit)
    ensures Honest(w, blk, b.maxTotal, limit)
    ensures |blk.man.entries| + |blk.man.omitted| == Entries(lists, |lists|)
  {
    var shown, omitted := |AllShown(secs)|, |AllOmitted(secs)|;
    StartsWidest(w, b, scopes, lists, limit, secs, shown, omitted);
    BlockIsHonest(w, secs, shown, omitted, size, b.maxTotal, limit,
      size - Widest(w, shown + omitted, b.maxTotal, limit));
  }

  /** The block of the sections laid one after another. */
  ghost predicate RenderedAs(w: Wording, b: Bounds, scopes: seq<string>, lists: seq<seq<Rendered>>, limit: int,
                             secs: seq<Section>, fixed: nat, size: nat, blk: Block)
  {
    && Laid(Layout(w), b, scopes, lists, fixed, secs) && |secs| == |scopes|
    && fixed == FixedCost(w, scopes, lists, b.maxTotal, limit) <= b.maxTotal
    && size == fixed + Spent(secs) && blk == BlockWith(w, secs, size, b.maxTotal, limit)
  }

  /**
   Whenever there is a block it is within the bound, its last line states its exact size,
   every scope's section is sound and within its cap, and every entry is shown or omitted.
   */
  lemma RenderFits(w: Wording, b: Bounds, scopes: seq<string>, lists: seq<seq<Rendered>>, limit: int,
                   secs: seq<Section>, fixed: nat, size: nat, blk: Block)
    requires NoNegativeCap(b) && RenderedAs(w, b, scopes, lists, limit, secs, fixed, size, blk)
    ensures Honest(w, blk, b.maxTotal, limit) && (w == Words ==> TellsAll(blk, b.maxTotal, limit))
    ensures |blk.man.entries| + |blk.man.omitted| == Entries(lists, |lists|)
    ensures Accounts(blk.man.entries, blk.man.omitted, Listing(scopes, lists, |scopes|))
    ensures AllKept(w, b, scopes, lists, secs)
  {
    LayoutIsFair(w);
    SectionsFit(w, Layout(w), b, scopes, lists, fixed, secs);
    KeptSectionsFit(w, b, scopes, lists, limit, secs, size, blk);
    SectionsAccount(w, b, scopes, lists, secs);
    if w == Words {
      HonestTells(blk, b.maxTotal, limit);
    }
  }

  /******* The block as the program renders it *******/

  function RenderedLists(list: string -> seq<Entry>, scopes: seq<string>, limit: int): (lists: seq<seq<Rendered>>)
    ensures |lists| == |scopes|
  {
    if scopes == [] then []
    else RenderedLists(list, scopes[..|scopes| - 1], limit) + [RenderedList(list(scopes[|scopes| - 1]), limit)]
  }

  method CheckBounds(b: Bounds, scopes: seq<string>) returns (r: Option<NoBlock>)
    ensures r == if b.maxTotal < 1 || !NoNegativeCap(b) then Some(TooSmall)
            else if !GoodScopes(scopes) then Some(BadScope) else None
  {
    if b.maxTotal < 1 {
      return Some(TooSmall);
    }
    var todo := b.scopeMax.Keys;
    while todo != {}
      invariant todo <= b.scopeMax.Keys
      invariant forall s :: s in b.scopeMax && s !in todo ==> b.scopeMax[s] >= 0
      decreases todo
    {
      var s :| s in todo;
      if b.scopeMax[s] < 0 {
        return Some(TooSmall);
      }
      todo := todo - {s};
    }
    for i := 0 to |scopes|
      invariant GoodScopes(scopes[..i])
    {
      var ok := CheckName(scopes[i]);
      if !ok || scopes[i] in scopes[..i] {
        return Some(BadScope);
      }
    }
    assert scopes[..|scopes|] == scopes;
    return None;
  }

  method ReadLists(list: string -> seq<Entry>, scopes: seq<string>, limit: int)
    returns (lists: seq<seq<Rendered>>, total: nat)
    ensures lists == RenderedLists(list, scopes, limit) && total == Entries(lists, |lists|)
  {
    lists, total := [], 0;
    for i := 0 to |scopes|
      invariant lists == RenderedLists(list, scopes[..i], limit) && total == Entries(lists, i)
    {
      var es := RenderEntries(list(scopes[i]), limit);
      assert scopes[..i + 1][..i] == scopes[..i];
      EntriesMore(lists, es);
      lists := lists + [es];
      total := total + |es|;
    }
    assert scopes[..|scopes|] == scopes;
  }

  lemma EntriesMore(lists: seq<seq<Rendered>>, es: seq<Rendered>)
    ensures Entries(lists + [es], |lists| + 1) == Entries(lists, |lists|) + |es|
  {
    EntriesPrefix(lists, es, |lists|);
  }

  lemma {:induction false} EntriesPrefix(lists: seq<seq<Rendered>>, es: seq<Rendered>, n: nat)
    requires n <= |lists|
    ensures Entries(lists + [es], n) == Entries(lists, n)
  {
    if n > 0 {
      EntriesPrefix(lists, es, n - 1);
    }
  }

  method ComputeFixed(w: Wording, scopes: seq<string>, lists: seq<seq<Rendered>>, total: nat, max: int, limit: int)
    returns (fixed: nat)
    requires |lists| == |scopes| && total == Entries(lists, |lists|)
    ensures fixed == FixedCost(w, scopes, lists, max, limit)
  {
    var heads := 0;
    for i := 0 to |scopes|
      invariant heads == HeadsCost(w, scopes, lists, i)
    {
      heads := heads + Cost(ScopeText(w, scopes[i], |lists[i]| == 0));
    }
    var widest := |Summary(w, total, total, max, max, max, limit)|;
    fixed := |w.title| + |Separator| + widest + heads;
  }

  method RenderSections(w: Wording, b: Bounds, scopes: seq<string>, lists: seq<seq<Rendered>>, fixed: nat)
    returns (parts: seq<Part>, man: Manifest, spent: nat, ghost secs: seq<Section>)
    requires |lists| == |scopes|
    ensures Laid(Layout(w), b, scopes, lists, fixed, secs) && |secs| == |scopes|
    ensures parts == AllParts(secs) && man == Manifest(AllShown(secs), AllOmitted(secs), false) && spent == Spent(secs)
  {
    parts, spent, secs := [], 0, [];
    man := Manifest([], [], false);
    for i := 0 to |scopes|
      invariant |secs| == i && Laid(Layout(w), b, scopes, lists, fixed, secs) && spent == Spent(secs)
      invariant parts == AllParts(secs) && man == Manifest(AllShown(secs), AllOmitted(secs), false)
    {
      var s := RenderScope(w, scopes[i], lists[i], RoomFor(b, fixed, spent, scopes[i]));
      LaidMore(Layout(w), b, scopes, lists, fixed, secs, s);
      assert (secs + [s])[..i] == secs;
      parts := parts + ([s.heading] + s.parts);
      man := Manifest(man.entries + s.shown, man.omitted + s.omitted, false);
      spent := spent + s.used;
      secs := secs + [s];
    }
  }

  method Assemble(w: Wording, b: Bounds, scopes: seq<string>, lists: seq<seq<Rendered>>, limit: int, fixed: nat)
    returns (blk: Block, size: nat, ghost secs: seq<Section>)
    requires |lists| == |scopes| && fixed == FixedCost(w, scopes, lists, b.maxTotal, limit) <= b.maxTotal
    ensures RenderedAs(w, b, scopes, lists, limit, secs, fixed, size, blk)
  {
    var parts, man, spent;
    parts, man, spent, secs := RenderSections(w, b, scopes, lists, fixed);
    size := fixed + spent;
    blk := Finish(w, secs, parts, man, size, b.maxTotal, limit);
  }

  /** `RenderParts`: the block of the sections laid one after another, or why there is none. */
  method RenderBlock(w: Wording, b: Bounds, list: string -> seq<Entry>, scopes: seq<string>, limit: int)
    returns (r: Result<Block, NoBlock>)
    ensures r.Err? ==> Refused(w, b, scopes, RenderedLists(list, scopes, limit), limit) == Some(r.error)
    ensures r.Ok? ==> Refused(w, b, scopes, RenderedLists(list, scopes, limit), limit) == None
    ensures r.Ok? ==>
              && Honest(w, r.value, b.maxTotal, limit) && (w == Words ==> TellsAll(r.value, b.maxTotal, limit))
              && Accounts(r.value.man.entries, r.value.man.omitted,
                          Listing(scopes, RenderedLists(list, scopes, limit), |scopes|))
    ensures r.Ok? ==>
              exists secs, fixed, size ::
                RenderedAs(w, b, scopes, RenderedLists(list, scopes, limit), limit, secs, fixed, size, r.value)
  {
    var bad := CheckBounds(b, scopes);
    if bad.Some? {
      return Err(bad.value);
    }
    var lists, total := ReadLists(list, scopes, limit);
    var fixed := ComputeFixed(w, scopes, lists, total, b.maxTotal, limit);
    if fixed > b.maxTotal {
      return Err(TooSmall);
    }
    var blk, size, secs := Assemble(w, b, scopes, lists, limit, fixed);
    RenderFits(w, b, scopes, lists, limit, secs, fixed, size, blk);
    return Ok(blk);
  }

  method AddSummary(parts: seq<Part>, line: int -> string, size: int) returns (all: seq<Part>)
    ensures all == Ended(parts, line, size)
  {
    var rest := |Joined(parts)| + |Separator|;
    var last := SettleSummary(line, rest, size);
    all := parts + [Part("memory:summary", last)];
  }

  method Finish(w: Wording, ghost secs: seq<Section>, parts: seq<Part>, man: Manifest, size: int, max: int, limit: int)
    returns (blk: Block)
    requires parts == AllParts(secs) && man == Manifest(AllShown(secs), AllOmitted(secs), false)
    ensures blk == BlockWith(w, secs, size, max, limit)
  {
    var line := Line(w, |man.entries|, |man.omitted|, max, limit);
    var all := AddSummary([Part("memory", w.title)] + parts, line, size);
    blk := Block(all, man);
  }

  /** `Render`: the block as one string, never longer than its bound. */
  method RenderText(b: Bounds, list: string -> seq<Entry>, scopes: seq<string>, limit: int)
    returns (r: Result<(string, Manifest), NoBlock>)
    ensures r.Err? <==> Refused(Words, b, scopes, RenderedLists(list, scopes, limit), limit).Some?
    ensures r.Ok? ==> |r.value.0| <= b.maxTotal && !r.value.1.leftOut
    ensures r.Ok? ==> exists blk, secs, fixed, size ::
                        && RenderedAs(Words, b, scopes, RenderedLists(list, scopes, limit), limit, secs, fixed, size,
                           blk)
                        && r.value == (Joined(blk.parts), blk.man) && TellsAll(blk, b.maxTotal, limit)
  {
    var block := RenderBlock(Words, b, list, scopes, limit);
    match block {
      case Err(e) => return Err(e);
      case Ok(blk) => return Ok((Joined(blk.parts), blk.man));
    }
  }
}

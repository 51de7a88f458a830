/**
 The block by its characters (render.go): what stands in each of its parts and in the
 manifest beside it, in which order, and which entries are shown.
 */
module BlockText {
  import opened Common
  import opened Text
  import opened Memory
  import opened Manifests
  import opened Packing
  import opened Render
  import opened Blocks
  import Content

  /******* One entry *******/

  /** The content without one newline at its end, if it ends with one. */
  ghost predicate ShortOf(content: string, c: string) {
    content == c + "\n" || (content == c && (c == "" || c[|c| - 1] != '\n'))
  }

  /** A description on one line: the same but for its line ends, which are spaces. */
  ghost predicate Flat(d: string, r: string) {
    |r| == |d| && forall i :: 0 <= i < |d| ==> r[i] == if d[i] == '\r' || d[i] == '\n' then ' ' else d[i]
  }

  /** What follows the sizes on the heading line: nothing, or a long dash and the description. */
  ghost predicate Described(e: Entry, tail: string) {
    if "description" in e.meta && e.meta["description"] != ""
    then exists r :: Flat(e.meta["description"], r) && tail == " \U{E2}\U{80}\U{94} " + r
    else tail == ""
  }

  /**
   An entry's part: a heading line with its name, its size, the limit and its description,
   a blank line, and its content, made harmless, less one newline.
   */
  lemma EntryReads(e: Entry, limit: int) returns (size: string, bound: string, tail: string, c: string)
    ensures EntryText(e, limit) ==
            "### " + e.key.name + " (" + size + " of " + bound + " bytes)" + tail + "\n\n" + Content.Neutral(c)
    ensures Numeral(size, |e.content|) && Numeral(bound, limit) && Described(e, tail) && ShortOf(e.content, c)
  {
    size, bound, c := Itoa(|e.content|), Itoa(limit), LessNewline(e.content);
    tail := if Description(e) == "" then "" else " \U{E2}\U{80}\U{94} " + OneLine(Description(e));
    ItoaReads(|e.content|);
    ItoaReads(limit);
    DescribedIs(e, tail);
    ShortIs(e.content);
    EntryTextIs(e, limit, size, bound, tail, c);
  }

  lemma EntryTextIs(e: Entry, limit: int, size: string, bound: string, tail: string, c: string)
    requires size == Itoa(|e.content|) && bound == Itoa(limit) && c == LessNewline(e.content)
    requires tail == if Description(e) == "" then "" else " \U{E2}\U{80}\U{94} " + OneLine(Description(e))
    ensures EntryText(e, limit) ==
            "### " + e.key.name + " (" + size + " of " + bound + " bytes)" + tail + "\n\n" + Content.Neutral(c)
  {
  }

  lemma ShortIs(content: string)
    ensures ShortOf(content, LessNewline(content))
  {
    assert content != "" ==> content == content[..|content| - 1] + [content[|content| - 1]];
  }

  lemma DescribedIs(e: Entry, tail: string)
    requires tail == if Description(e) == "" then "" else " \U{E2}\U{80}\U{94} " + OneLine(Description(e))
    ensures Described(e, tail)
  {
    assert Flat(Description(e), OneLine(Description(e)));
  }

  /** Each entry is rendered by itself, in its place. */
  lemma {:induction false} RenderedAt(es: seq<Entry>, limit: int, i: nat)
    requires i < |es|
    ensures RenderedList(es, limit)[i] == Rendered(es[i], EntryText(es[i], limit))
  {
    if i < |es| - 1 {
      RenderedAt(es[..|es| - 1], limit, i);
    }
  }

  /** And so each scope's list. */
  lemma {:induction false} RenderedListsAt(list: string -> seq<Entry>, scopes: seq<string>, limit: int, i: nat)
    requires i < |scopes|
    ensures RenderedLists(list, scopes, limit)[i] == RenderedList(list(scopes[i]), limit)
  {
    if i < |scopes| - 1 {
      RenderedListsAt(list, scopes[..|scopes| - 1], limit, i);
    }
  }

  /******* The line of the ones left out *******/

  /** The texts with ", " between them. */
  function Commas(items: seq<string>): string {
    if items == [] then ""
    else if |items| == 1 then items[0]
    else Commas(items[..|items| - 1]) + ", " + items[|items| - 1]
  }

  /** An entry left out, as the line names it. */
  ghost predicate NamedBy(item: string, e: Entry) {
    exists size :: Numeral(size, |e.content|) && item == e.key.name + " (" + size + " bytes)"
  }

  lemma ItemReads(r: Rendered)
    ensures NamedBy(Item(r), r.e)
  {
    ItoaReads(|r.e.content|);
  }

  lemma {:induction false} ItemsRead(es: seq<Rendered>, n: nat) returns (items: seq<string>)
    requires n <= |es|
    ensures |items| == n && Items(es, n) == Commas(items)
    ensures forall i :: 0 <= i < n ==> NamedBy(items[i], es[i].e)
  {
    if n == 0 {
      items := [];
    } else {
      var front := ItemsRead(es, n - 1);
      ItemReads(es[n - 1]);
      items := front + [Item(es[n - 1])];
      CommasMore(front, Item(es[n - 1]));
    }
  }

  lemma CommasMore(items: seq<string>, x: string)
    ensures Commas(items + [x]) == if items == [] then x else Commas(items) + ", " + x
  {
    assert (items + [x])[..|items|] == items;
  }

  /** The first `n` of the entries left out by name and size, and how many more there are. */
  ghost predicate NamesFirst(line: string, dropped: seq<Rendered>, n: nat, items: seq<string>, more: string) {
    && 1 <= n == |items| <= |dropped|
    && (forall i :: 0 <= i < n ==> NamedBy(items[i], dropped[i].e))
    && line == "Not shown, over the block budget; fetch with memory_search: " + Commas(items) +
               (if n < |dropped| then ", and " + more + " more" else "")
    && Numeral(more, |dropped| - n)
  }

  lemma NamingReads(dropped: seq<Rendered>, n: nat) returns (items: seq<string>, more: string)
    requires 1 <= n <= |dropped|
    ensures NamesFirst(Naming(Words, dropped, n), dropped, n, items, more)
  {
    items := ItemsRead(dropped, n);
    var rest := |dropped| - n;
    more := Itoa(rest);
    ItoaReads(rest);
    assert More(rest) == ", and " + more + " more";
  }

  /** The count of the entries left out alone. */
  ghost predicate CountsThem(line: string, dropped: seq<Rendered>) {
    exists n :: Numeral(n, |dropped|) && line == "Not shown, over the block budget: " + n + " entries."
  }

  lemma CountingReads(dropped: seq<Rendered>)
    ensures CountsThem(Counting(Words, dropped), dropped)
  {
    ItoaReads(|dropped|);
  }

  lemma {:induction false} FittingStops(costs: seq<nat>, taken: nat, room: int, from: nat)
    requires from <= |costs|
    ensures var n := Fitting(costs, taken, room, from); n < |costs| ==> taken + costs[n] > room
    decreases |costs| - from
  {
    if from < |costs| && taken + costs[from] <= room {
      FittingStops(costs, taken, room, from + 1);
    }
  }

  /**
   The line names as many as fit, from the first on: each line with fewer names fits, and
   the one with one name more does not; when not even one does it gives the count, and
   when that does not fit either it is empty.
   */
  lemma OmitLineExactly(w: Wording, dropped: seq<Rendered>, taken: nat, room: int) returns (n: nat)
    ensures n <= |dropped|
    ensures forall k :: 1 <= k <= n ==> taken + 2 + |Naming(w, dropped, k)| <= room
    ensures n < |dropped| ==> taken + 2 + |Naming(w, dropped, n + 1)| > room
    ensures OmitLine(w, dropped, taken, room) ==
            if n > 0 then Naming(w, dropped, n)
            else if taken + 2 + |Counting(w, dropped)| <= room then Counting(w, dropped) else ""
  {
    n := Listed(w, dropped, taken, room);
    var costs := NamingCosts(w, dropped);
    FittingStops(costs, taken, room, 0);
    if n < |dropped| {
      NamingCostsAt(w, dropped, n);
    }
    forall k | 1 <= k <= n ensures taken + 2 + |Naming(w, dropped, k)| <= room {
      FittingFits(costs, taken, room, 0, k - 1);
      NamingCostsAt(w, dropped, k - 1);
    }
  }

  /** The room held back is exactly what the widest line with one name takes. */
  lemma {:induction false} LongestIsOne(es: seq<Rendered>) returns (i: nat)
    requires es != []
    ensures i < |es| && LongestItem(es) == |Item(es[i])|
    ensures forall j :: 0 <= j < |es| ==> |Item(es[j])| <= |Item(es[i])|
  {
    var n := |es| - 1;
    i := n;
    if n > 0 {
      var k := LongestIsOne(es[..n]);
      if |Item(es[n])| <= |Item(es[k])| {
        i := k;
      }
    }
    forall j | 0 <= j < |es| ensures |Item(es[j])| <= |Item(es[i])| {
      ItemWithin(es, j);
    }
  }

  lemma ReserveIsWidest(w: Wording, es: seq<Rendered>) returns (i: nat)
    requires es != []
    ensures i < |es| && Reserve(w, es) == 2 + |w.omitHead + Item(es[i]) + ", and " + Itoa(|es|) + " more"|
    ensures forall j :: 0 <= j < |es| ==> |Item(es[j])| <= |Item(es[i])|
  {
    i := LongestIsOne(es);
  }

  /******* One scope *******/

  /** How many before place `j` are `want`. */
  function Before(ins: seq<bool>, want: bool, j: nat): (n: nat)
    requires j <= |ins|
    ensures n <= j
  {
    if j == 0 then 0 else Before(ins, want, j - 1) + if ins[j - 1] == want then 1 else 0
  }

  lemma {:induction false} PickedAt(es: seq<Rendered>, ins: seq<bool>, want: bool, n: nat, j: nat)
    requires |ins| == |es| && n <= |es|
    ensures |Picked(es[..n], ins[..n], want)| == Before(ins, want, n)
    ensures j < n && ins[j] == want ==>
              && Before(ins, want, j) < Before(ins, want, n)
              && Picked(es[..n], ins[..n], want)[Before(ins, want, j)] == es[j]
  {
    if n > 0 {
      PickedAt(es, ins, want, n - 1, j);
      PickedNext(es, ins, n - 1, want);
    }
  }

  lemma {:induction false} EntryPartsAt(scope: string, es: seq<Rendered>, i: nat)
    ensures |EntryParts(scope, es)| == |es|
    ensures i < |es| ==> EntryParts(scope, es)[i] == Part("memory/" + scope + "/" + es[i].e.key.name, es[i].text)
  {
    if es != [] {
      EntryPartsAt(scope, es[..|es| - 1], i);
    }
  }

  /** What a scope's heading part says. */
  ghost predicate Heads(p: Part, scope: string, empty: bool) {
    p == Part("memory/" + scope, if empty then "## " + scope + "\n\nNo entries." else "## " + scope)
  }

  /** The entry in place `j` is shown: its part and its line of the manifest stand where its order puts them. */
  ghost predicate ShownAt(s: Section, scope: string, es: seq<Rendered>, ins: seq<bool>, j: nat)
    requires |ins| == |es| && j < |es|
  {
    var n, e := Before(ins, true, j), es[j].e;
    && n < |s.parts| && n < |s.shown|
    && s.parts[n] == Part("memory/" + scope + "/" + e.key.name, es[j].text)
    && s.shown[n] == Shown(scope, e.key.name, e.hash, |e.content|, "")
  }

  ghost predicate OmittedAt(s: Section, scope: string, es: seq<Rendered>, ins: seq<bool>, j: nat)
    requires |ins| == |es| && j < |es|
  {
    var n, e := Before(ins, false, j), es[j].e;
    n < |s.omitted| && s.omitted[n] == Shown(scope, e.key.name, e.hash, |e.content|, "budget")
  }

  /** The section of a scope of which `ins` are shown. */
  ghost predicate SectionReads(s: Section, scope: string, es: seq<Rendered>, ins: seq<bool>) {
    && |ins| == |es| && Heads(s.heading, scope, es == [])
    && |s.shown| == Before(ins, true, |es|) && |s.omitted| == Before(ins, false, |es|)
    && |s.shown| <= |s.parts| <= |s.shown| + 1
    && (forall j :: 0 <= j < |es| ==> if ins[j] then ShownAt(s, scope, es, ins, j) else OmittedAt(s, scope, es, ins, j))
    && (|s.parts| > |s.shown| ==> s.parts[|s.shown|].id == "memory/" + scope + ":omitted")
  }

  lemma ShownIs(scope: string, es: seq<Rendered>, ins: seq<bool>, line: string, j: nat)
    requires |ins| == |es| && j < |es| && ins[j]
    ensures ShownAt(SectionWith(Words, scope, es, ins, line), scope, es, ins, j)
  {
    assert es[..|es|] == es && ins[..|es|] == ins;
    PickedAt(es, ins, true, |es|, j);
    EntryPartsAt(scope, Picked(es, ins, true), Before(ins, true, j));
  }

  lemma OmittedIs(scope: string, es: seq<Rendered>, ins: seq<bool>, line: string, j: nat)
    requires |ins| == |es| && j < |es| && !ins[j]
    ensures OmittedAt(SectionWith(Words, scope, es, ins, line), scope, es, ins, j)
  {
    assert es[..|es|] == es && ins[..|es|] == ins;
    PickedAt(es, ins, false, |es|, j);
  }

  lemma SectionSizes(scope: string, es: seq<Rendered>, ins: seq<bool>, line: string)
    requires |ins| == |es|
    ensures var s := SectionWith(Words, scope, es, ins, line);
            && |s.shown| == Before(ins, true, |es|) && |s.omitted| == Before(ins, false, |es|)
            && |s.parts| == |s.shown| + (if line == "" then 0 else 1)
            && (line != "" ==> s.parts[|s.shown|] == Part("memory/" + scope + ":omitted", line))
  {
    assert es[..|es|] == es && ins[..|es|] == ins;
    PickedAt(es, ins, true, |es|, 0);
    PickedAt(es, ins, false, |es|, 0);
    EntryPartsAt(scope, Picked(es, ins, true), 0);
  }

  lemma SectionWithReads(scope: string, es: seq<Rendered>, ins: seq<bool>, line: string)
    requires |ins| == |es|
    ensures SectionReads(SectionWith(Words, scope, es, ins, line), scope, es, ins)
  {
    var s := SectionWith(Words, scope, es, ins, line);
    SectionSizes(scope, es, ins, line);
    forall j | 0 <= j < |es|
      ensures if ins[j] then ShownAt(s, scope, es, ins, j) else OmittedAt(s, scope, es, ins, j)
    {
      if ins[j] {
        ShownIs(scope, es, ins, line, j);
      } else {
        OmittedIs(scope, es, ins, line, j);
      }
    }
  }

  /** All are shown when they fit together, and else each that fits, in order, with room held back for the line. */
  ghost predicate Chooses(es: seq<Rendered>, room: int, ins: seq<bool>) {
    if Total(Costs(es)) <= room then |ins| == |es| && All(ins)
    else Greedy(Costs(es), room - Reserve(Words, es), ins)
  }

  lemma ChoiceExactly(es: seq<Rendered>, room: nat)
    ensures Chooses(es, room, Choice(Words, es, room))
  {
    AllFit(Costs(es), room);
    PackIsGreedy(Costs(es), room - Reserve(Words, es));
  }

  /** The last part of a section, after those of its entries, is the line of the ones left out, if that is not empty. */
  lemma SectionLine(scope: string, es: seq<Rendered>, room: int)
    ensures var s, ins := SectionOf(Words, scope, es, room), Choice(Words, es, room);
            var dropped := Picked(es, ins, false);
            var line := if dropped == [] then "" else OmitLine(Words, dropped, Taken(Costs(es), ins), room);
            if line == "" then |s.parts| == |s.shown|
            else |s.parts| == |s.shown| + 1 && s.parts[|s.shown|] == Part("memory/" + scope + ":omitted", line)
  {
    var ins := Choice(Words, es, room);
    SectionSizes(scope, es, ins, OmitText(Words, Picked(es, ins, false), Taken(Costs(es), ins), room));
  }

  /******* The block *******/

  lemma SectionsMore(secs: seq<Section>, s: Section)
    ensures AllParts(secs + [s]) == AllParts(secs) + ([s.heading] + s.parts)
    ensures AllShown(secs + [s]) == AllShown(secs) + s.shown && AllOmitted(secs + [s]) == AllOmitted(secs) + s.omitted
  {
    assert (secs + [s])[..|secs|] == secs;
  }

  lemma Regroup<T>(a: seq<T>, b: seq<T>, c: seq<T>, d: seq<T>)
    ensures a + b + (c + d) == a + b + c + d
  {
  }

  /** The parts of the sections before another's come before its own, and those of the sections after it after. */
  lemma {:induction false} PartsSplit(front: seq<Section>, s: Section, rest: seq<Section>)
    ensures AllParts(front + [s] + rest) == AllParts(front) + ([s.heading] + s.parts) + AllParts(rest)
    ensures AllShown(front + [s] + rest) == AllShown(front) + s.shown + AllShown(rest)
    ensures AllOmitted(front + [s] + rest) == AllOmitted(front) + s.omitted + AllOmitted(rest)
    decreases |rest|
  {
    SectionsMore(front, s);
    if rest == [] {
      assert front + [s] + rest == front + [s];
    } else {
      var more, x := rest[..|rest| - 1], rest[|rest| - 1];
      PartsSplit(front, s, more);
      assert rest == more + [x] && front + [s] + rest == front + [s] + more + [x];
      SectionsMore(front + [s] + more, x);
      SectionsMore(more, x);
      Regroup(AllParts(front), [s.heading] + s.parts, AllParts(more), [x.heading] + x.parts);
      Regroup(AllShown(front), s.shown, AllShown(more), x.shown);
      Regroup(AllOmitted(front), s.omitted, AllOmitted(more), x.omitted);
    }
  }

  /** What is left of the block, within the scope's cap if it has one. */
  ghost predicate RoomLeft(b: Bounds, left: int, scope: string, room: int) {
    && room <= left && (scope in b.scopeMax ==> room <= b.scopeMax[scope])
    && (room == left || (scope in b.scopeMax && room == b.scopeMax[scope]))
  }

  /** The section of a scope: in list order the entries that its room has place for, and the others left out. */
  ghost predicate SectionIs(b: Bounds, left: int, scope: string, es: seq<Rendered>, s: Section) {
    exists room: nat, ins :: RoomLeft(b, left, scope, room) && Chooses(es, room, ins) && SectionReads(s, scope, es, ins)
  }

  ghost predicate SectionInPlace(b: Bounds, scopes: seq<string>, lists: seq<seq<Rendered>>, fixed: nat,
                                 secs: seq<Section>, i: nat)
    requires i < |secs| <= |scopes| == |lists|
  {
    SectionIs(b, b.maxTotal - fixed - Spent(secs[..i]), scopes[i], lists[i], secs[i])
  }

  lemma SectionOfIs(b: Bounds, left: nat, scope: string, es: seq<Rendered>, room: nat)
    requires RoomLeft(b, left, scope, room)
    ensures SectionIs(b, left, scope, es, SectionOf(Words, scope, es, room))
  {
    var ins := Choice(Words, es, room);
    ChoiceExactly(es, room);
    SectionWithReads(scope, es, ins, OmitText(Words, Picked(es, ins, false), Taken(Costs(es), ins), room));
  }

  lemma {:induction false} LaidAt(lay: (string, seq<Rendered>, int) -> Section, b: Bounds, scopes: seq<string>,
                                  lists: seq<seq<Rendered>>, fixed: nat, secs: seq<Section>, i: nat)
    requires Laid(lay, b, scopes, lists, fixed, secs) && i < |secs|
    ensures Laid(lay, b, scopes, lists, fixed, secs[..i])
    ensures secs[i] == lay(scopes[i], lists[i], RoomFor(b, fixed, Spent(secs[..i]), scopes[i]))
  {
    var n := |secs| - 1;
    if i < n {
      LaidAt(lay, b, scopes, lists, fixed, secs[..n], i);
      assert secs[..n][..i] == secs[..i] && secs[..n][i] == secs[i];
    }
  }

  /** Every scope, in the order given, has its section in the room that the ones before it left. */
  lemma SectionsAre(b: Bounds, scopes: seq<string>, lists: seq<seq<Rendered>>, fixed: nat, secs: seq<Section>, i: nat)
    requires NoNegativeCap(b) && Laid(Layout(Words), b, scopes, lists, fixed, secs) && fixed <= b.maxTotal
    requires i < |secs|
    ensures SectionInPlace(b, scopes, lists, fixed, secs, i)
  {
    LaidAt(Layout(Words), b, scopes, lists, fixed, secs, i);
    LayoutIsFair(Words);
    SectionsFit(Words, Layout(Words), b, scopes, lists, fixed, secs[..i]);
    var left := b.maxTotal - fixed - Spent(secs[..i]);
    SectionOfIs(b, left, scopes[i], lists[i], RoomFor(b, fixed, Spent(secs[..i]), scopes[i]));
  }

  /** The summary's width before anything is placed: its letters, and its numbers at their widest. */
  lemma WidestIs(total: nat, max: nat, limit: int)
    ensures Widest(Words, total, max, limit) == 74 + 2 * |Itoa(total)| + 3 * |Itoa(max)| + |Itoa(limit)|
  {
    SummaryWidth(Words, total, total, max, max, max, limit);
  }

  /**
   The block whole: the title, the sections of the scopes in order, the summary; and the
   manifest names what they show and what they leave out, in the same order.
   */
  lemma BlockReads(b: Bounds, scopes: seq<string>, lists: seq<seq<Rendered>>, limit: int, secs: seq<Section>,
                   fixed: nat, size: nat, blk: Block)
    requires NoNegativeCap(b) && RenderedAs(Words, b, scopes, lists, limit, secs, fixed, size, blk)
    ensures var n := |blk.parts| - 1;
            && n > 0 && blk.parts[0] == Part("memory", "# Memory") && blk.parts[1..n] == AllParts(secs)
            && blk.parts[n].id == "memory:summary" && TellsAll(blk, b.maxTotal, limit)
    ensures blk.man == Manifest(AllShown(secs), AllOmitted(secs), false)
    ensures forall i :: 0 <= i < |secs| ==> SectionInPlace(b, scopes, lists, fixed, secs, i)
  {
    BlockShape(secs, size, b.maxTotal, limit);
    assert TellsAll(blk, b.maxTotal, limit) by {
      RenderFits(Words, b, scopes, lists, limit, secs, fixed, size, blk);
    }
    forall i | 0 <= i < |secs| ensures SectionInPlace(b, scopes, lists, fixed, secs, i) {
      SectionsAre(b, scopes, lists, fixed, secs, i);
    }
  }

  // The parts between the title and the summary.
  lemma BlockShape(secs: seq<Section>, size: int, max: int, limit: int)
    ensures var parts := BlockWith(Words, secs, size, max, limit).parts;
            var n := |parts| - 1;
            && n > 0 && parts[0] == Part("memory", "# Memory") && parts[1..n] == AllParts(secs)
            && parts[n].id == "memory:summary"
  {
  }

  /** When something is left out and there is room for it, the section ends with a line that names what was. */
  lemma OmissionReads(scope: string, es: seq<Rendered>, room: nat)
    returns (n: nat, items: seq<string>, more: string)
    requires Reserve(Words, es) <= room && Total(Costs(es)) > room
    ensures var s, dropped := SectionOf(Words, scope, es, room), Picked(es, Choice(Words, es, room), false);
            s.parts != [] && NamesFirst(s.parts[|s.parts| - 1].text, dropped, n, items, more)
  {
    n := OmissionIsNamed(Words, scope, es, room);
    items, more := NamingReads(Picked(es, Choice(Words, es, room), false), n);
  }
}

/**
 What of a scope's entries fits in the block (render.go): the texts, the choice of
 entries within some room, and the line that names the ones left out.
 */
module Packing {
  import opened Common
  import opened Text
  import opened Memory
  import Content

  const Separator := "\n\n"

  /** The block's fixed texts; nothing proved of the block depends on what they say. */
  datatype Wording = Wording(
    title: string, noEntries: string,
    omitHead: string, omitCount: string, omitEntries: string,
    entries: string, shown: string, omitted: string, of: string, bytes: string, free: string, end: string)

  const Words := Wording(
    "# Memory", "No entries.",
    "Not shown, over the block budget; fetch with memory_search: ", "Not shown, over the block budget: ", " entries.",
    "Entries: ", " shown, ", " omitted. Block: ", " of ", " bytes (", " free). Entry limit: ", " bytes.")

  /** The bytes of a text with a separator before it. */
  function Cost(text: string): (n: nat)
    ensures n >= 2
  {
    |Separator| + |text|
  }

  /******* One entry *******/

  function OneLine(s: string): (r: string)
    ensures |r| == |s|
  {
    seq(|s|, i requires 0 <= i < |s| => if s[i] == '\r' || s[i] == '\n' then ' ' else s[i])
  }

  function Description(e: Entry): string {
    if "description" in e.meta then e.meta["description"] else ""
  }

  function LessNewline(s: string): string {
    if s != "" && s[|s| - 1] == '\n' then s[..|s| - 1] else s
  }

  /** An entry's part: its heading, with a long dash before its description, a blank line, its content made harmless. */
  function EntryText(e: Entry, limit: int): string {
    "### " + e.key.name + " (" + Itoa(|e.content|) + " of " + Itoa(limit) + " bytes)" +
    (if Description(e) == "" then "" else " \U{E2}\U{80}\U{94} " + OneLine(Description(e))) +
    Separator + Content.Neutral(LessNewline(e.content))
  }

  method RenderEntry(e: Entry, limit: int) returns (text: string)
    ensures text == EntryText(e, limit)
  {
    text := "### " + e.key.name + " (" + Itoa(|e.content|) + " of " + Itoa(limit) + " bytes)";
    var d := Description(e);
    if d != "" {
      text := text + (" \U{E2}\U{80}\U{94} " + OneLine(d));
    }
    var body := Content.NeutraliseContent(LessNewline(e.content));
    text := text + Separator + body;
  }

  /** An entry and its text. */
  datatype Rendered = Rendered(e: Entry, text: string)

  function RenderedOf(e: Entry, limit: int): Rendered {
    Rendered(e, EntryText(e, limit))
  }

  function RenderedList(es: seq<Entry>, limit: int): (r: seq<Rendered>)
    ensures |r| == |es|
  {
    if es == [] then [] else RenderedList(es[..|es| - 1], limit) + [RenderedOf(es[|es| - 1], limit)]
  }

  method RenderOne(e: Entry, limit: int) returns (r: Rendered)
    ensures r == RenderedOf(e, limit)
  {
    var text := RenderEntry(e, limit);
    r := Rendered(e, text);
  }

  method RenderEntries(es: seq<Entry>, limit: int) returns (r: seq<Rendered>)
    ensures r == RenderedList(es, limit)
  {
    r := [];
    for i := 0 to |es|
      invariant r == RenderedList(es[..i], limit)
    {
      var one := RenderOne(es[i], limit);
      assert es[..i + 1][..i] == es[..i];
      r := r + [one];
    }
    assert es[..|es|] == es;
  }

  /** What each of the entries would add to the block. */
  function Costs(es: seq<Rendered>): (r: seq<nat>)
    ensures |r| == |es| && forall i :: 0 <= i < |es| ==> r[i] == Cost(es[i].text)
  {
    seq(|es|, i requires 0 <= i < |es| => Cost(es[i].text))
  }

  /******* Which entries *******/

  /** What the ones taken cost together. */
  function Taken(costs: seq<nat>, ins: seq<bool>): nat
    requires |ins| == |costs|
  {
    if costs == [] then 0
    else
      var n := |costs| - 1;
      Taken(costs[..n], ins[..n]) + (if ins[n] then costs[n] else 0)
  }

  // The one in place `i` is taken if and only if it fits beside the ones taken before it.
  predicate TakenIfFits(costs: seq<nat>, room: int, ins: seq<bool>, i: nat)
    requires |ins| == |costs| && i < |costs|
  {
    ins[i] <==> Taken(costs[..i], ins[..i]) + costs[i] <= room
  }

  /** Each, in order, is taken if and only if it fits beside the ones taken before it. */
  ghost predicate Greedy(costs: seq<nat>, room: int, ins: seq<bool>) {
    |ins| == |costs| && forall i :: 0 <= i < |costs| ==> TakenIfFits(costs, room, ins, i)
  }

  function Pack(costs: seq<nat>, room: int): (ins: seq<bool>)
    ensures |ins| == |costs|
  {
    if costs == [] then []
    else
      var n := |costs| - 1;
      var front := Pack(costs[..n], room);
      front + [Taken(costs[..n], front) + costs[n] <= room]
  }

  /** The ones taken fit. */
  lemma {:induction false} PackWithin(costs: seq<nat>, room: int)
    ensures var used := Taken(costs, Pack(costs, room)); used == 0 || used <= room
  {
    if costs != [] {
      var n := |costs| - 1;
      PackWithin(costs[..n], room);
      assert Pack(costs, room)[..n] == Pack(costs[..n], room);
    }
  }

  lemma {:induction false} PackIsGreedy(costs: seq<nat>, room: int)
    ensures Greedy(costs, room, Pack(costs, room))
  {
    if costs != [] {
      var n := |costs| - 1;
      var front, ins := Pack(costs[..n], room), Pack(costs, room);
      PackIsGreedy(costs[..n], room);
      assert ins[..n] == front;
      forall i | 0 <= i < |costs| ensures TakenIfFits(costs, room, ins, i) {
        if i < n {
          assert TakenIfFits(costs[..n], room, front, i);
          assert costs[..n][..i] == costs[..i] && front[..i] == ins[..i];
        }
      }
    }
  }

  lemma PackNext(costs: seq<nat>, i: nat, room: int)
    requires i < |costs|
    ensures var ins := Pack(costs[..i], room);
            var fits := Taken(costs[..i], ins) + costs[i] <= room;
            && Pack(costs[..i + 1], room) == ins + [fits]
            && Taken(costs[..i + 1], ins + [fits]) == Taken(costs[..i], ins) + if fits then costs[i] else 0
  {
    assert costs[..i + 1][..i] == costs[..i];
    var ins := Pack(costs[..i], room);
    var fits := Taken(costs[..i], ins) + costs[i] <= room;
    assert (ins + [fits])[..i] == ins;
  }

  /** There is one such choice. */
  lemma {:induction false} GreedyIsPack(costs: seq<nat>, room: int, ins: seq<bool>, n: nat)
    requires Greedy(costs, room, ins) && n <= |costs|
    ensures ins[..n] == Pack(costs[..n], room)
  {
    if n > 0 {
      GreedyIsPack(costs, room, ins, n - 1);
      PackNext(costs, n - 1, room);
      GreedyAt(costs, room, ins, n - 1);
      assert ins[..n] == ins[..n - 1] + [ins[n - 1]];
    }
  }

  lemma GreedyAt(costs: seq<nat>, room: int, ins: seq<bool>, i: nat)
    requires Greedy(costs, room, ins) && i < |costs|
    ensures ins[i] <==> Taken(costs[..i], ins[..i]) + costs[i] <= room
  {
    assert TakenIfFits(costs, room, ins, i);
  }

  // What is taken of the first ones does not depend on those after.
  lemma PackPrefix(costs: seq<nat>, room: int, n: nat)
    requires n <= |costs|
    ensures Pack(costs, room)[..n] == Pack(costs[..n], room)
  {
    PackIsGreedy(costs, room);
    GreedyIsPack(costs, room, Pack(costs, room), n);
  }

  /** The room left when the first `n` have been taken or not. */
  function Left(costs: seq<nat>, room: int, n: nat): int
    requires n <= |costs|
  {
    room - Taken(costs[..n], Pack(costs[..n], room))
  }

  lemma LeftNext(costs: seq<nat>, room: int, i: nat)
    requires i < |costs|
    ensures Pack(costs, room)[i] <==> costs[i] <= Left(costs, room, i)
    ensures Left(costs, room, i + 1) == Left(costs, room, i) - if Pack(costs, room)[i] then costs[i] else 0
  {
    PackNext(costs, i, room);
    PackPrefix(costs, room, i + 1);
    assert Pack(costs, room)[i] == Pack(costs, room)[..i + 1][i];
  }

  method ComputePack(es: seq<Rendered>, room: int) returns (ins: seq<bool>, used: nat)
    ensures ins == Pack(Costs(es), room) && used == Taken(Costs(es), ins)
  {
    ins := [];
    used := 0;
    ghost var costs := Costs(es);
    for i := 0 to |es|
      invariant ins == Pack(costs[..i], room) && used == Taken(costs[..i], ins)
    {
      var n := Cost(es[i].text);
      PackNext(costs, i, room);
      if used + n <= room {
        ins := ins + [true];
        used := used + n;
      } else {
        ins := ins + [false];
      }
    }
    assert costs[..|es|] == costs;
  }

  predicate All(ins: seq<bool>) {
    forall i :: 0 <= i < |ins| ==> ins[i]
  }

  function Total(costs: seq<nat>): nat {
    if costs == [] then 0 else Total(costs[..|costs| - 1]) + costs[|costs| - 1]
  }

  /** All are taken if and only if together they fit. */
  lemma {:induction false} AllFit(costs: seq<nat>, room: nat)
    ensures All(Pack(costs, room)) <==> Total(costs) <= room
    ensures All(Pack(costs, room)) ==> Taken(costs, Pack(costs, room)) == Total(costs)
  {
    if costs != [] {
      var n := |costs| - 1;
      var front, ins := Pack(costs[..n], room), Pack(costs, room);
      AllFit(costs[..n], room);
      assert ins[..n] == front;
      if All(ins) {
        forall i | 0 <= i < n ensures front[i] { assert ins[i]; }
        assert ins[n];
      }
    }
  }

  /******* The line naming the rest *******/

  function Item(r: Rendered): string {
    r.e.key.name + " (" + Itoa(|r.e.content|) + " bytes)"
  }

  function More(n: nat): string {
    ", and " + Itoa(n) + " more"
  }

  function LongestItem(es: seq<Rendered>): nat {
    if es == [] then 0
    else
      var n := LongestItem(es[..|es| - 1]);
      if |Item(es[|es| - 1])| > n then |Item(es[|es| - 1])| else n
  }

  /** `omitLineReserve`. */
  function Reserve(w: Wording, es: seq<Rendered>): nat {
    Cost(w.omitHead) + LongestItem(es) + |More(|es|)|
  }

  method ComputeReserve(w: Wording, es: seq<Rendered>) returns (n: nat)
    ensures n == Reserve(w, es)
  {
    var item := 0;
    for i := 0 to |es|
      invariant item == LongestItem(es[..i])
    {
      assert es[..i + 1][..i] == es[..i];
      var k := |Item(es[i])|;
      if k > item {
        item := k;
      }
    }
    assert es[..|es|] == es;
    n := Cost(w.omitHead) + item + |More(|es|)|;
  }

  /** The first `n` entries by name and size. */
  function Items(es: seq<Rendered>, n: nat): string
    requires n <= |es|
  {
    if n == 0 then "" else Items(es, n - 1) + (if n > 1 then ", " else "") + Item(es[n - 1])
  }

  /** The line that names the first `n` of the entries left out and counts the rest. */
  function Naming(w: Wording, dropped: seq<Rendered>, n: nat): string
    requires n <= |dropped|
  {
    w.omitHead + Items(dropped, n) + (if n < |dropped| then More(|dropped| - n) else "")
  }

  function Counting(w: Wording, dropped: seq<Rendered>): string {
    w.omitCount + Itoa(|dropped|) + w.omitEntries
  }

  /** The cost of the line with each number of names. */
  function NamingCosts(w: Wording, dropped: seq<Rendered>): (r: seq<nat>)
    ensures |r| == |dropped|
  {
    seq(|dropped|, i requires 0 <= i < |dropped| => Cost(Naming(w, dropped, i + 1)))
  }

  lemma NamingCostsAt(w: Wording, dropped: seq<Rendered>, i: nat)
    requires i < |dropped|
    ensures NamingCosts(w, dropped)[i] == Cost(Naming(w, dropped, i + 1))
  {
  }

  /** How many fit beside what is taken: up to the first that does not. */
  function Fitting(costs: seq<nat>, taken: nat, room: int, from: nat): (n: nat)
    requires from <= |costs|
    ensures from <= n <= |costs|
    decreases |costs| - from
  {
    if from == |costs| || taken + costs[from] > room then from else Fitting(costs, taken, room, from + 1)
  }

  lemma {:induction false} FittingFits(costs: seq<nat>, taken: nat, room: int, from: nat, k: nat)
    requires from <= |costs| && from <= k < Fitting(costs, taken, room, from)
    ensures taken + costs[k] <= room
    decreases |costs| - from
  {
    if k > from {
      FittingFits(costs, taken, room, from + 1, k);
    }
  }

  /** How many of the entries left out the line names. */
  function Listed(w: Wording, dropped: seq<Rendered>, taken: nat, room: int): (n: nat)
    ensures n <= |dropped|
  {
    Fitting(NamingCosts(w, dropped), taken, room, 0)
  }

  /** `omitLine`: the names that fit, else the count, else nothing. */
  function OmitLine(w: Wording, dropped: seq<Rendered>, taken: nat, room: int): string {
    var n := Listed(w, dropped, taken, room);
    if n > 0 then Naming(w, dropped, n)
    else if taken + Cost(Counting(w, dropped)) <= room then Counting(w, dropped)
    else ""
  }

  lemma OmitLineFits(w: Wording, dropped: seq<Rendered>, taken: nat, room: int)
    ensures OmitLine(w, dropped, taken, room) == "" || taken + Cost(OmitLine(w, dropped, taken, room)) <= room
  {
    var n := Listed(w, dropped, taken, room);
    if n > 0 {
      FittingFits(NamingCosts(w, dropped), taken, room, 0, n - 1);
      NamingCostsAt(w, dropped, n - 1);
    }
  }

  /** The line for the entries left out, if any are. */
  function OmitText(w: Wording, dropped: seq<Rendered>, taken: nat, room: int): (line: string)
    ensures line == "" || taken + Cost(line) <= room
  {
    OmitLineFits(w, dropped, taken, room);
    if dropped == [] then "" else OmitLine(w, dropped, taken, room)
  }

  method ComputeOmitText(w: Wording, dropped: seq<Rendered>, taken: nat, room: int) returns (line: string)
    ensures line == OmitText(w, dropped, taken, room)
  {
    line := "";
    if |dropped| > 0 {
      line := ComputeOmitLine(w, dropped, taken, room);
    }
  }

  method FindListed(w: Wording, dropped: seq<Rendered>, taken: nat, room: int) returns (b: string, listed: nat)
    ensures listed == Listed(w, dropped, taken, room) && b == Items(dropped, listed)
  {
    b := "";
    listed := 0;
    ghost var costs := NamingCosts(w, dropped);
    for i := 0 to |dropped|
      invariant listed == i && b == Items(dropped, i)
      invariant Fitting(costs, taken, room, 0) == Fitting(costs, taken, room, i)
    {
      var piece := Item(dropped[i]);
      if listed > 0 {
        piece := ", " + piece;
      }
      var tail := 0;
      var rest := |dropped| - i - 1;
      if rest > 0 {
        tail := |More(rest)|;
      }
      NamingCost(w, dropped, i, piece);
      if Cost(w.omitHead) + |b| + |piece| + tail > room - taken {
        break;
      }
      b := b + piece;
      listed := listed + 1;
    }
  }

  method ComputeOmitLine(w: Wording, dropped: seq<Rendered>, taken: nat, room: int) returns (line: string)
    ensures line == OmitLine(w, dropped, taken, room)
  {
    var b, listed := FindListed(w, dropped, taken, room);
    if listed == 0 {
      var short := Counting(w, dropped);
      return if Cost(short) <= room - taken then short else "";
    }
    line := w.omitHead + b;
    if |dropped| - listed > 0 {
      line := line + More(|dropped| - listed);
    }
  }

  lemma ItemsNext(es: seq<Rendered>, i: nat, piece: string)
    requires i < |es| && piece == (if i > 0 then ", " else "") + Item(es[i])
    ensures Items(es, i + 1) == Items(es, i) + piece
  {
    var comma := if i > 0 then ", " else "";
    assert Items(es, i) + (comma + Item(es[i])) == Items(es, i) + comma + Item(es[i]);
  }

  lemma NamingCost(w: Wording, dropped: seq<Rendered>, i: nat, piece: string)
    requires i < |dropped| && piece == (if i > 0 then ", " else "") + Item(dropped[i])
    ensures Items(dropped, i + 1) == Items(dropped, i) + piece
    ensures Cost(Naming(w, dropped, i + 1)) ==
            Cost(w.omitHead) + |Items(dropped, i)| + |piece| +
              (if i + 1 < |dropped| then |More(|dropped| - i - 1)| else 0)
  {
    ItemsNext(dropped, i, piece);
  }

  lemma {:induction false} ItemWithin(es: seq<Rendered>, i: nat)
    requires i < |es|
    ensures |Item(es[i])| <= LongestItem(es)
  {
    if i < |es| - 1 {
      ItemWithin(es[..|es| - 1], i);
    }
  }

  lemma MoreWidens(m: nat, n: nat)
    requires m <= n
    ensures |More(m)| <= |More(n)|
  {
    WidthMonotone(m, n);
  }

  lemma ReserveCoversOne(w: Wording, es: seq<Rendered>, dropped: seq<Rendered>)
    requires 0 < |dropped| <= |es| && dropped[0] in es
    ensures Cost(Naming(w, dropped, 1)) <= Reserve(w, es)
  {
    var i :| 0 <= i < |es| && es[i] == dropped[0];
    ItemWithin(es, i);
    MoreWidens(|dropped| - 1, |es|);
    assert "" + Item(dropped[0]) == Item(dropped[0]);
    NamingCost(w, dropped, 0, Item(dropped[0]));
  }

  /** With the reserve for room, the line names one entry at least. */
  lemma ReserveNamesOne(w: Wording, es: seq<Rendered>, dropped: seq<Rendered>, taken: nat, room: int) returns (n: nat)
    requires 0 < |dropped| <= |es| && dropped[0] in es && taken + Reserve(w, es) <= room
    ensures 1 <= n <= |dropped| && OmitText(w, dropped, taken, room) == Naming(w, dropped, n) != ""
  {
    n := Listed(w, dropped, taken, room);
    ReserveCoversOne(w, es, dropped);
    NamingCostsAt(w, dropped, 0);
    NamingNotEmpty(w, dropped, n);
  }

  lemma NamingNotEmpty(w: Wording, dropped: seq<Rendered>, n: nat)
    requires 1 <= n <= |dropped|
    ensures Naming(w, dropped, n) != ""
  {
    assert |Item(dropped[n - 1])| > 0;
    assert |Items(dropped, n)| > 0;
  }
}

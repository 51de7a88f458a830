/** The block of memory the model reads (render.go): its parts, its bound and the line that states its size. */
module Render {
  import opened Common
  import opened Text
  import opened Memory
  import opened Manifests
  import opened Packing

  datatype Part = Part(id: string, text: string)

  /** `JoinParts`. */
  function Joined(parts: seq<Part>): string {
    if parts == [] then ""
    else if |parts| == 1 then parts[0].text
    else Joined(parts[..|parts| - 1]) + Separator + parts[|parts| - 1].text
  }

  /** What some parts add to a block that already has one. */
  function PartsCost(parts: seq<Part>): nat {
    if parts == [] then 0 else PartsCost(parts[..|parts| - 1]) + Cost(parts[|parts| - 1].text)
  }

  lemma {:induction false} JoinedLength(first: Part, parts: seq<Part>)
    ensures |Joined([first] + parts)| == |first.text| + PartsCost(parts)
  {
    if parts == [] {
      assert [first] + parts == [first];
    } else {
      var n := |parts| - 1;
      assert ([first] + parts)[..n + 1] == [first] + parts[..n];
      JoinedLength(first, parts[..n]);
    }
  }

  lemma {:induction false} PartsCostConcat(a: seq<Part>, b: seq<Part>)
    ensures PartsCost(a + b) == PartsCost(a) + PartsCost(b)
  {
    if b == [] {
      assert a + b == a;
    } else {
      var n := |b| - 1;
      assert (a + b)[..|a| + n] == a + b[..n];
      PartsCostConcat(a, b[..n]);
    }
  }

  lemma PartsCostOne(p: Part)
    ensures PartsCost([p]) == Cost(p.text)
  {
    assert [p][..0] == [];
  }

  /******* One scope *******/

  /**
   What a scope puts in the block: its heading, the rest of its parts and what they cost, and
   the manifest's lists.
   */
  datatype Section = Section(heading: Part, parts: seq<Part>, used: nat, shown: seq<Shown>, omitted: seq<Shown>)

  function ScopeText(w: Wording, scope: string, empty: bool): string {
    "## " + scope + if empty then Separator + w.noEntries else ""
  }

  function EntryPart(scope: string, r: Rendered): Part {
    Part("memory/" + scope + "/" + r.e.key.name, r.text)
  }

  function ShownOf(scope: string, e: Entry, reason: string): Shown {
    Shown(scope, e.key.name, e.hash, |e.content|, reason)
  }

  const OmitBudget := "budget"

  /** Which are taken: all if they fit, else the ones that fit with room held back for the line naming the rest. */
  function Chosen(costs: seq<nat>, room: int, reserve: int): (ins: seq<bool>)
    ensures |ins| == |costs|
  {
    var all := Pack(costs, room);
    if All(all) then all else Pack(costs, room - reserve)
  }

  /** The entries chosen, or the ones not chosen, in their order. */
  function Picked(es: seq<Rendered>, ins: seq<bool>, want: bool): seq<Rendered>
    requires |ins| == |es|
  {
    if es == [] then []
    else
      var n := |es| - 1;
      Picked(es[..n], ins[..n], want) + (if ins[n] == want then [es[n]] else [])
  }

  function EntryParts(scope: string, es: seq<Rendered>): seq<Part> {
    if es == [] then [] else EntryParts(scope, es[..|es| - 1]) + [EntryPart(scope, es[|es| - 1])]
  }

  function ShownList(scope: string, es: seq<Rendered>, reason: string): (r: seq<Shown>)
    ensures |r| == |es|
  {
    seq(|es|, i requires 0 <= i < |es| => ShownOf(scope, es[i].e, reason))
  }

  function OmitParts(scope: string, line: string): seq<Part> {
    if line == "" then [] else [Part("memory/" + scope + ":omitted", line)]
  }

  function Choice(w: Wording, es: seq<Rendered>, room: int): (ins: seq<bool>)
    ensures |ins| == |es|
  {
    Chosen(Costs(es), room, Reserve(w, es))
  }

  // The section with some entries chosen and some line for the others.
  function SectionWith(w: Wording, scope: string, es: seq<Rendered>, ins: seq<bool>, line: string): Section
    requires |ins| == |es|
  {
    Section(Part("memory/" + scope, ScopeText(w, scope, es == [])),
            EntryParts(scope, Picked(es, ins, true)) + OmitParts(scope, line),
            Taken(Costs(es), ins) + PartsCost(OmitParts(scope, line)),
            ShownList(scope, Picked(es, ins, true), ""), ShownList(scope, Picked(es, ins, false), OmitBudget))
  }

  // The section with some entries chosen.
  function SectionFor(w: Wording, scope: string, es: seq<Rendered>, ins: seq<bool>, room: int): Section
    requires |ins| == |es|
  {
    SectionWith(w, scope, es, ins, OmitText(w, Picked(es, ins, false), Taken(Costs(es), ins), room))
  }

  function SectionOf(w: Wording, scope: string, es: seq<Rendered>, room: int): Section {
    SectionFor(w, scope, es, Choice(w, es, room), room)
  }

  // The chosen and the others, with one more entry.
  lemma PickedNext(es: seq<Rendered>, ins: seq<bool>, n: nat, want: bool)
    requires |ins| == |es| && n < |es|
    ensures Picked(es[..n + 1], ins[..n + 1], want) ==
            if ins[n] == want then Picked(es[..n], ins[..n], want) + [es[n]] else Picked(es[..n], ins[..n], want)
  {
    assert es[..n + 1][..n] == es[..n] && ins[..n + 1][..n] == ins[..n];
  }

  /** How often a list holds an entry. */
  function Times(es: seq<Rendered>, e: Rendered): nat {
    if es == [] then 0 else Times(es[..|es| - 1], e) + if es[|es| - 1] == e then 1 else 0
  }

  lemma TimesNext(es: seq<Rendered>, x: Rendered, e: Rendered)
    ensures Times(es + [x], e) == Times(es, e) + if x == e then 1 else 0
  {
    assert (es + [x])[..|es|] == es;
  }

  ghost predicate Splits(es: seq<Rendered>, ins: seq<bool>, e: Rendered)
    requires |ins| == |es|
  {
    var shown, dropped := Picked(es, ins, true), Picked(es, ins, false);
    |shown| + |dropped| == |es| && Times(shown, e) + Times(dropped, e) == Times(es, e)
  }

  lemma PickedMore(es: seq<Rendered>, ins: seq<bool>, x: Rendered, b: bool, want: bool)
    requires |ins| == |es|
    ensures Picked(es + [x], ins + [b], want) == if b == want then Picked(es, ins, want) + [x]
            else Picked(es, ins, want)
  {
    assert (es + [x])[..|es|] == es && (ins + [b])[..|es|] == ins;
  }

  lemma SplitsMore(es: seq<Rendered>, ins: seq<bool>, x: Rendered, b: bool, e: Rendered)
    requires |ins| == |es| && Splits(es, ins, e)
    ensures Splits(es + [x], ins + [b], e)
  {
    PickedMore(es, ins, x, b, true);
    PickedMore(es, ins, x, b, false);
    TimesNext(es, x, e);
    TimesNext(Picked(es, ins, b), x, e);
  }

  /** Every entry is shown or omitted, as often as it is listed. */
  lemma {:induction false} PickedSplit(es: seq<Rendered>, ins: seq<bool>, e: Rendered)
    requires |ins| == |es|
    ensures Splits(es, ins, e)
  {
    if es != [] {
      var n := |es| - 1;
      assert Splits(es[..n] + [es[n]], ins[..n] + [ins[n]], e) by {
        PickedSplit(es[..n], ins[..n], e);
        SplitsMore(es[..n], ins[..n], es[n], ins[n], e);
      }
      assert es == es[..n] + [es[n]] && ins == ins[..n] + [ins[n]];
    }
  }

  lemma {:induction false} NoneDropped(es: seq<Rendered>, ins: seq<bool>, n: nat)
    requires |ins| == |es| && n <= |es|
    ensures Picked(es[..n], ins[..n], false) == [] <==> All(ins[..n])
  {
    if n > 0 {
      NoneDropped(es, ins, n - 1);
      PickedNext(es, ins, n - 1, false);
      assert ins[..n] == ins[..n - 1] + [ins[n - 1]];
    }
  }

  lemma {:induction false} PickedFrom(es: seq<Rendered>, ins: seq<bool>, want: bool)
    requires |ins| == |es|
    ensures forall e :: e in Picked(es, ins, want) ==> e in es
  {
    if es != [] {
      PickedFrom(es[..|es| - 1], ins[..|es| - 1], want);
    }
  }

  lemma EntryPartsNext(scope: string, es: seq<Rendered>, r: Rendered)
    ensures EntryParts(scope, es + [r]) == EntryParts(scope, es) + [EntryPart(scope, r)]
    ensures PartsCost(EntryParts(scope, es + [r])) == PartsCost(EntryParts(scope, es)) + Cost(r.text)
  {
    assert (es + [r])[..|es|] == es;
    PartsCostConcat(EntryParts(scope, es), [EntryPart(scope, r)]);
    PartsCostOne(EntryPart(scope, r));
  }

  lemma TakenMore(es: seq<Rendered>, ins: seq<bool>, x: Rendered, b: bool)
    requires |ins| == |es|
    ensures Taken(Costs(es + [x]), ins + [b]) == Taken(Costs(es), ins) + if b then Cost(x.text) else 0
  {
    assert Costs(es + [x])[..|es|] == Costs(es);
    assert (ins + [b])[..|es|] == ins;
  }

  ghost predicate CostsAgree(scope: string, es: seq<Rendered>, ins: seq<bool>)
    requires |ins| == |es|
  {
    PartsCost(EntryParts(scope, Picked(es, ins, true))) == Taken(Costs(es), ins)
  }

  lemma CostsAgreeMore(scope: string, es: seq<Rendered>, ins: seq<bool>, x: Rendered, b: bool)
    requires |ins| == |es| && CostsAgree(scope, es, ins)
    ensures CostsAgree(scope, es + [x], ins + [b])
  {
    PickedMore(es, ins, x, b, true);
    TakenMore(es, ins, x, b);
    EntryPartsNext(scope, Picked(es, ins, true), x);
  }

  lemma {:induction false} EntryPartsCost(scope: string, es: seq<Rendered>, ins: seq<bool>)
    requires |ins| == |es|
    ensures CostsAgree(scope, es, ins)
  {
    if es != [] {
      var n := |es| - 1;
      var front, chosen := es[..n], ins[..n];
      assert es == front + [es[n]] && ins == chosen + [ins[n]];
      EntryPartsCost(scope, front, chosen);
      CostsAgreeMore(scope, front, chosen, es[n], ins[n]);
    }
  }

  /** A pass in less room never takes everything when a pass in more room did not. */
  lemma TighterNeverTakesAll(costs: seq<nat>, room: int, less: int)
    requires less <= room && !All(Pack(costs, room))
    ensures !All(Pack(costs, less))
  {
    if All(Pack(costs, less)) {
      LeftNext(costs, less, 0);
      assert Pack(costs, less)[0] && less >= 0;
      AllFit(costs, less);
      AllFit(costs, room);
    }
  }

  /** At the first entry on which two passes differ, the one with more room takes it. */
  lemma LooserTakesFirst(costs: seq<nat>, room: int, less: int, i: nat)
    requires less <= room && i < |costs|
    requires Pack(costs, room)[..i] == Pack(costs, less)[..i] && Pack(costs, room)[i] != Pack(costs, less)[i]
    ensures Pack(costs, room)[i] && !Pack(costs, less)[i]
  {
    PackIsGreedy(costs, room);
    PackIsGreedy(costs, less);
    GreedyAt(costs, room, Pack(costs, room), i);
    GreedyAt(costs, less, Pack(costs, less), i);
  }

  /** The pass in less room only leaves more out. */
  ghost predicate LeavesMore(costs: seq<nat>, room: int, less: int) {
    forall j :: 0 <= j < |costs| && Pack(costs, less)[j] ==> Pack(costs, room)[j]
  }

  // The pass with more room to begin with has less left by then.
  predicate Behind(costs: seq<nat>, room: int, less: int, n: nat)
    requires n <= |costs|
  {
    Left(costs, room, n) < Left(costs, less, n)
  }

  /** Where, from place `n` on, the pass with more room first has less left; the end if nowhere. */
  function Overtaken(costs: seq<nat>, room: int, less: int, n: nat): (k: nat)
    requires n <= |costs|
    ensures n <= k <= |costs| && (forall j :: n <= j < k ==> !Behind(costs, room, less, j))
    ensures k < |costs| ==> Behind(costs, room, less, k)
    decreases |costs| - n
  {
    if n == |costs| || Behind(costs, room, less, n) then n else Overtaken(costs, room, less, n + 1)
  }

  ghost predicate AgreeFrom(costs: seq<nat>, room: int, less: int, n: nat) {
    forall j :: n <= j < |costs| ==> Pack(costs, room)[j] == Pack(costs, less)[j]
  }

  lemma BehindNext(costs: seq<nat>, room: int, less: int, j: nat)
    requires j < |costs| && Behind(costs, room, less, j) && (Pack(costs, less)[j] ==> Pack(costs, room)[j])
    ensures Pack(costs, room)[j] == Pack(costs, less)[j] && Behind(costs, room, less, j + 1)
  {
    LeftNext(costs, room, j);
    LeftNext(costs, less, j);
  }

  lemma {:induction false} BehindAgrees(costs: seq<nat>, room: int, less: int, n: nat, j: nat)
    requires LeavesMore(costs, room, less) && n <= j < |costs| && Behind(costs, room, less, n)
    ensures Pack(costs, room)[j] == Pack(costs, less)[j] && Behind(costs, room, less, j + 1)
  {
    if n < j {
      BehindAgrees(costs, room, less, n, j - 1);
    }
    BehindNext(costs, room, less, j);
  }

  /**
   The pass in less room only leaves more out if and only if the passes agree from the
   place on, if there is one, where the pass with more room has less left.
   */
  lemma LeavesMoreExactly(costs: seq<nat>, room: int, less: int)
    ensures LeavesMore(costs, room, less) <==> AgreeFrom(costs, room, less, Overtaken(costs, room, less, 0))
  {
    var k := Overtaken(costs, room, less, 0);
    if LeavesMore(costs, room, less) {
      forall j | k <= j < |costs| ensures Pack(costs, room)[j] == Pack(costs, less)[j] {
        BehindAgrees(costs, room, less, k, j);
      }
    }
    if AgreeFrom(costs, room, less, k) {
      forall j | 0 <= j < |costs| && Pack(costs, less)[j] ensures Pack(costs, room)[j] {
        if j < k {
          assert !Behind(costs, room, less, j);
          LeftNext(costs, room, j);
          LeftNext(costs, less, j);
        }
      }
    }
  }

  lemma {:induction false} SameGap(costs: seq<nat>, room: int, less: int, i: nat, n: nat)
    requires n <= i <= |costs| && Pack(costs, room)[..i] == Pack(costs, less)[..i]
    ensures Left(costs, room, n) - Left(costs, less, n) == room - less
  {
    if n > 0 {
      SameGap(costs, room, less, i, n - 1);
      assert Pack(costs, room)[..i][n - 1] == Pack(costs, less)[..i][n - 1];
      LeftNext(costs, room, n - 1);
      LeftNext(costs, less, n - 1);
    }
  }

  /**
   The first entry on which the passes differ decides, when it costs more than the
   smaller room gave up: then, and only then, is the larger room behind at once, and the
   smaller one only leaves more out if and only if the passes differ nowhere else.
   */
  lemma FirstDifferenceDecides(costs: seq<nat>, room: int, less: int, i: nat)
    requires less <= room && i < |costs|
    requires Pack(costs, room)[..i] == Pack(costs, less)[..i] && Pack(costs, room)[i] != Pack(costs, less)[i]
    ensures Left(costs, room, i + 1) < Left(costs, less, i + 1) <==> costs[i] > room - less
    ensures costs[i] > room - less ==> (LeavesMore(costs, room, less) <==> AgreeFrom(costs, room, less, i + 1))
  {
    LooserTakesFirst(costs, room, less, i);
    forall n | 0 <= n <= i
      ensures !Behind(costs, room, less, n) && Left(costs, room, n) - Left(costs, less, n) == room - less
    {
      SameGap(costs, room, less, i, n);
    }
    LeftNext(costs, room, i);
    LeftNext(costs, less, i);
    if costs[i] > room - less {
      LeavesMoreExactly(costs, room, less);
      var k := Overtaken(costs, room, less, 0);
      assert k > i;
      assert Behind(costs, room, less, i + 1);
    }
  }

  /**
   After that, less room may show more entries: a large entry that only fits the larger
   room keeps out two small ones that the smaller room holds.
   */
  lemma TighterMayShowMore(x: nat, y: nat, room: nat, less: nat)
    requires y + y <= less < x <= room < x + y
    ensures Pack([x, y, y], room) == [true, false, false] && Pack([x, y, y], less) == [false, true, true]
  {
    PackThree(x, y, room, [true, false, false]);
    PackThree(x, y, less, [false, true, true]);
  }

  lemma PackThree(x: nat, y: nat, room: nat, ins: seq<bool>)
    requires |ins| == 3 && (ins[0] <==> x <= room) && (ins[1] <==> (if ins[0] then x else 0) + y <= room)
    requires ins[2] <==> (if ins[0] then x else 0) + (if ins[1] then y else 0) + y <= room
    ensures Pack([x, y, y], room) == ins
  {
    var costs := [x, y, y];
    TakenTwo(x, y, ins[0], ins[1]);
    assert costs[..0] == [] && ins[..0] == [];
    assert costs[..1] == [x] && ins[..1] == [ins[0]];
    assert costs[..2] == [x, y] && ins[..2] == [ins[0], ins[1]];
    assert Greedy(costs, room, ins);
    GreedyIsPack(costs, room, ins, 3);
    assert ins[..3] == ins && costs[..3] == costs;
  }

  lemma TakenTwo(x: nat, y: nat, a: bool, b: bool)
    ensures Taken([x], [a]) == (if a then x else 0)
    ensures Taken([x, y], [a, b]) == (if a then x else 0) + (if b then y else 0)
  {
    assert [x][..0] == [] && [a][..0] == [];
    assert [x, y][..1] == [x] && [a, b][..1] == [a];
  }

  lemma ChosenFits(costs: seq<nat>, room: nat, reserve: nat)
    ensures var ins := Chosen(costs, room, reserve);
            && Taken(costs, ins) <= room
            && (All(ins) <==> Total(costs) <= room)
            && (!All(ins) && reserve <= room ==> reserve <= room - Taken(costs, ins))
  {
    AllFit(costs, room);
    var first := Pack(costs, room);
    if All(first) {
      PackWithin(costs, room);
    } else {
      HeldBackFits(costs, room, room - reserve);
    }
  }

  lemma HeldBackFits(costs: seq<nat>, room: nat, less: int)
    requires less <= room && !All(Pack(costs, room))
    ensures !All(Pack(costs, less)) && Taken(costs, Pack(costs, less)) <= room
    ensures 0 <= less ==> Taken(costs, Pack(costs, less)) <= less
  {
    PackWithin(costs, less);
    TighterNeverTakesAll(costs, room, less);
  }

  lemma OmitPartsCost(scope: string, line: string)
    ensures PartsCost(OmitParts(scope, line)) == if line == "" then 0 else Cost(line)
  {
    PartsCostOne(Part("memory/" + scope + ":omitted", line));
  }

  lemma SectionCosts(w: Wording, scope: string, es: seq<Rendered>, ins: seq<bool>, line: string)
    requires |ins| == |es|
    ensures var s := SectionWith(w, scope, es, ins, line);
            && s.used == PartsCost(s.parts) == Taken(Costs(es), ins) + (if line == "" then 0 else Cost(line))
            && |s.shown| + |s.omitted| == |es|
            && (s.omitted == [] <==> All(ins))
  {
    assert es[..|es|] == es && ins[..|es|] == ins;
    EntryPartsCost(scope, es, ins);
    PartsCostConcat(EntryParts(scope, Picked(es, ins, true)), OmitParts(scope, line));
    OmitPartsCost(scope, line);
    NoneDropped(es, ins, |es|);
    if es != [] {
      PickedSplit(es, ins, es[0]);
    }
  }

  /**
   A scope within its room: its parts cost what they are said to, no more than the room;
   every entry is in one of the manifest's lists; nothing is left out if and only if all
   the entries fit.
   */
  lemma SectionFits(w: Wording, scope: string, es: seq<Rendered>, room: nat)
    ensures var s := SectionOf(w, scope, es, room);
            && s.used == PartsCost(s.parts) <= room
            && |s.shown| + |s.omitted| == |es|
            && (s.omitted == [] <==> Total(Costs(es)) <= room)
  {
    var ins := Choice(w, es, room);
    ChosenFits(Costs(es), room, Reserve(w, es));
    SectionCosts(w, scope, es, ins, OmitText(w, Picked(es, ins, false), Taken(Costs(es), ins), room));
  }

  lemma ShownListNext(scope: string, es: seq<Rendered>, r: Rendered, reason: string)
    ensures ShownList(scope, es + [r], reason) == ShownList(scope, es, reason) + [ShownOf(scope, r.e, reason)]
  {
  }

  /** How often a list of the manifest names an entry, whatever the reason beside it. */
  function TimesShown(list: seq<Shown>, k: Shown): nat {
    if list == [] then 0
    else TimesShown(list[..|list| - 1], k) + if list[|list| - 1].(reason := k.reason) == k then 1 else 0
  }

  lemma TimesShownNext(list: seq<Shown>, x: Shown, k: Shown)
    ensures TimesShown(list + [x], k) == TimesShown(list, k) + if x.(reason := k.reason) == k then 1 else 0
  {
    assert (list + [x])[..|list|] == list;
  }

  lemma {:induction false} TimesShownConcat(a: seq<Shown>, b: seq<Shown>, k: Shown)
    ensures TimesShown(a + b, k) == TimesShown(a, k) + TimesShown(b, k)
  {
    if b == [] {
      assert a + b == a;
    } else {
      assert (a + b)[..|a + b| - 1] == a + b[..|b| - 1];
      TimesShownConcat(a, b[..|b| - 1], k);
    }
  }

  /** Two lists name together, each as often, what a third names. */
  ghost predicate Accounts(shown: seq<Shown>, omitted: seq<Shown>, all: seq<Shown>) {
    forall k :: TimesShown(shown, k) + TimesShown(omitted, k) == TimesShown(all, k)
  }

  ghost predicate AccountsAt(scope: string, es: seq<Rendered>, ins: seq<bool>, k: Shown)
    requires |ins| == |es|
  {
    var shown, omitted := ShownList(scope, Picked(es, ins, true), ""),
      ShownList(scope, Picked(es, ins, false), OmitBudget);
    TimesShown(shown, k) + TimesShown(omitted, k) == TimesShown(ShownList(scope, es, ""), k)
  }

  lemma AccountsMore(scope: string, es: seq<Rendered>, ins: seq<bool>, x: Rendered, b: bool, k: Shown)
    requires |ins| == |es| && AccountsAt(scope, es, ins, k)
    ensures AccountsAt(scope, es + [x], ins + [b], k)
  {
    PickedMore(es, ins, x, b, true);
    PickedMore(es, ins, x, b, false);
    var reason := if b then "" else OmitBudget;
    var picked := Picked(es, ins, b);
    ShownListNext(scope, es, x, "");
    ShownListNext(scope, picked, x, reason);
    TimesShownNext(ShownList(scope, es, ""), ShownOf(scope, x.e, ""), k);
    TimesShownNext(ShownList(scope, picked, reason), ShownOf(scope, x.e, reason), k);
  }

  lemma {:induction false} PickedAccounts(scope: string, es: seq<Rendered>, ins: seq<bool>, k: Shown)
    requires |ins| == |es|
    ensures AccountsAt(scope, es, ins, k)
  {
    if es != [] {
      var n := |es| - 1;
      PickedAccounts(scope, es[..n], ins[..n], k);
      AccountsMore(scope, es[..n], ins[..n], es[n], ins[n], k);
      assert es == es[..n] + [es[n]] && ins == ins[..n] + [ins[n]];
    }
  }

  /** The manifest's lists of a scope name its entries, each as often as it is listed. */
  lemma SectionAccounts(w: Wording, scope: string, es: seq<Rendered>, room: int)
    ensures var s := SectionOf(w, scope, es, room); Accounts(s.shown, s.omitted, ShownList(scope, es, ""))
  {
    var s := SectionOf(w, scope, es, room);
    forall k ensures TimesShown(s.shown, k) + TimesShown(s.omitted, k) == TimesShown(ShownList(scope, es, ""), k) {
      PickedAccounts(scope, es, Choice(w, es, room), k);
    }
  }

  lemma DroppedAre(es: seq<Rendered>, ins: seq<bool>)
    requires |ins| == |es| && !All(ins)
    ensures var dropped := Picked(es, ins, false); 0 < |dropped| <= |es| && dropped[0] in es
  {
    assert es[..|es|] == es && ins[..|es|] == ins;
    NoneDropped(es, ins, |es|);
    PickedSplit(es, ins, es[0]);
    PickedFrom(es, ins, false);
  }

  lemma LineIsLast(w: Wording, scope: string, es: seq<Rendered>, ins: seq<bool>, line: string)
    requires |ins| == |es| && line != ""
    ensures var s := SectionWith(w, scope, es, ins, line); s.parts != [] && s.parts[|s.parts| - 1].text == line
  {
  }

  lemma SectionForNames(w: Wording, scope: string, es: seq<Rendered>, ins: seq<bool>, room: int) returns (n: nat)
    requires |ins| == |es| && !All(ins) && Taken(Costs(es), ins) + Reserve(w, es) <= room
    ensures var s := SectionFor(w, scope, es, ins, room);
            var dropped := Picked(es, ins, false);
            1 <= n <= |dropped| && s.parts != [] && s.parts[|s.parts| - 1].text == Naming(w, dropped, n)
  {
    var dropped, taken := Picked(es, ins, false), Taken(Costs(es), ins);
    DroppedAre(es, ins);
    n := ReserveNamesOne(w, es, dropped, taken, room);
    LineIsLast(w, scope, es, ins, OmitText(w, dropped, taken, room));
  }

  /**
   When the reserve fits the room and something is left out, the last part of the scope names at
   least one such entry.
   */
  lemma OmissionIsNamed(w: Wording, scope: string, es: seq<Rendered>, room: nat) returns (n: nat)
    requires Reserve(w, es) <= room && Total(Costs(es)) > room
    ensures var s := SectionOf(w, scope, es, room);
            var dropped := Picked(es, Choice(w, es, room), false);
            1 <= n <= |dropped| && s.parts != [] && s.parts[|s.parts| - 1].text == Naming(w, dropped, n)
  {
    ChosenFits(Costs(es), room, Reserve(w, es));
    n := SectionForNames(w, scope, es, Choice(w, es, room), room);
  }

  /******* A scope as the program renders it *******/

  // The loop over the entries: parts of the chosen ones, and both lists.
  method PlaceEntries(scope: string, es: seq<Rendered>, ins: seq<bool>)
    returns (parts: seq<Part>, shown: seq<Shown>, omitted: seq<Shown>, dropped: seq<Rendered>)
    requires |ins| == |es|
    ensures parts == EntryParts(scope, Picked(es, ins, true)) && dropped == Picked(es, ins, false)
    ensures shown == ShownList(scope, Picked(es, ins, true), "") && omitted == ShownList(scope, dropped, OmitBudget)
  {
    parts, shown, omitted, dropped := [], [], [], [];
    ghost var picked: seq<Rendered> := [];
    for j := 0 to |es|
      invariant picked == Picked(es[..j], ins[..j], true) && dropped == Picked(es[..j], ins[..j], false)
      invariant parts == EntryParts(scope, picked)
      invariant shown == ShownList(scope, picked, "") && omitted == ShownList(scope, dropped, OmitBudget)
    {
      PickedNext(es, ins, j, true);
      PickedNext(es, ins, j, false);
      if ins[j] {
        EntryPartsNext(scope, picked, es[j]);
        ShownListNext(scope, picked, es[j], "");
        parts := parts + [EntryPart(scope, es[j])];
        shown := shown + [ShownOf(scope, es[j].e, "")];
        picked := picked + [es[j]];
      } else {
        ShownListNext(scope, dropped, es[j], OmitBudget);
        omitted := omitted + [ShownOf(scope, es[j].e, OmitBudget)];
        dropped := dropped + [es[j]];
      }
    }
    assert es[..|es|] == es && ins[..|es|] == ins;
  }

  method ChooseEntries(w: Wording, es: seq<Rendered>, room: int) returns (ins: seq<bool>, used: nat)
    ensures ins == Choice(w, es, room) && used == Taken(Costs(es), ins)
  {
    ins, used := ComputePack(es, room);
    if !All(ins) {
      var reserve := ComputeReserve(w, es);
      ins, used := ComputePack(es, room - reserve);
    }
  }

  // The section once its entries are placed.
  method AddLine(w: Wording, scope: string, es: seq<Rendered>, ghost ins: seq<bool>, placed: seq<Part>, taken: nat,
                 shown: seq<Shown>, omitted: seq<Shown>, line: string)
    returns (s: Section)
    requires |ins| == |es| && taken == Taken(Costs(es), ins) && placed == EntryParts(scope, Picked(es, ins, true))
    requires shown == ShownList(scope, Picked(es, ins, true), "") &&
             omitted == ShownList(scope, Picked(es, ins, false), OmitBudget)
    ensures s == SectionWith(w, scope, es, ins, line)
  {
    var parts, used := placed, taken;
    OmitPartsCost(scope, line);
    if line != "" {
      parts := parts + [Part("memory/" + scope + ":omitted", line)];
      used := used + Cost(line);
    }
    s := Section(Part("memory/" + scope, ScopeText(w, scope, |es| == 0)), parts, used, shown, omitted);
  }

  method RenderScope(w: Wording, scope: string, es: seq<Rendered>, room: int) returns (s: Section)
    ensures s == SectionOf(w, scope, es, room)
  {
    var ins, taken := ChooseEntries(w, es, room);
    var parts, shown, omitted, dropped := PlaceEntries(scope, es, ins);
    var line := ComputeOmitText(w, dropped, taken, room);
    s := AddLine(w, scope, es, ins, parts, taken, shown, omitted, line);
  }
}

/**
 The audit of a journal for writes that lost an update (lostupdate.go): one pass over
 what the journal yields, records and damaged lines, against a definition that names
 for each record the earlier record of its entry.
 */
module LostUpdates {
  import opened Common
  import opened Memory

  /** What a journal yields in one place: a record, or an error for one it cannot read. */
  datatype Item = Rec(c: Change) | Damage

  datatype LostUpdate = LostUpdate(change: Change, over: string, brk: bool, afterDamage: bool)

  /******* The definition *******/

  function Records(items: seq<Item>): (r: seq<Change>)
    ensures |r| <= |items|
  {
    if items == [] then []
    else Records(items[..|items| - 1]) +
         (match items[|items| - 1] case Rec(c) => [c] case Damage => [])
  }

  lemma RecordsNext(items: seq<Item>, i: nat)
    requires i < |items|
    ensures Records(items[..i + 1]) ==
            if items[i].Rec? then Records(items[..i]) + [items[i].c] else Records(items[..i])
  {
    assert items[..i + 1][..i] == items[..i];
  }

  function DamageIn(items: seq<Item>): (n: nat)
    ensures n > 0 <==> Damage in items
    ensures n <= |items|
  {
    if items == [] then 0
    else DamageIn(items[..|items| - 1]) + (if items[|items| - 1].Damage? then 1 else 0)
  }

  /** The place of the last record for a key, -1 for none. */
  function LastIndex(items: seq<Item>, k: Key): (j: int)
    ensures -1 <= j < |items|
    ensures j >= 0 ==> items[j].Rec? && items[j].c.entry.key == k
  {
    if items == [] then -1
    else if items[|items| - 1].Rec? && items[|items| - 1].c.entry.key == k then |items| - 1
    else LastIndex(items[..|items| - 1], k)
  }

  function FirstIndex(items: seq<Item>): (j: nat)
    ensures j <= |items| && (j < |items| ==> items[j].Rec?)
    ensures forall i :: 0 <= i < j ==> items[i].Damage?
  {
    if items == [] || items[0].Rec? then 0 else 1 + FirstIndex(items[1..])
  }

  /** The read is from 0, and no number below the first record's is missing but for the damaged lines before it. */
  predicate HoldsStart(items: seq<Item>, after: nat) {
    var f := FirstIndex(items);
    after == 0 && (f < |items| ==> items[f].c.seqno <= f + 1)
  }

  /** What the audit says of the record in place `i`, from the earlier record of its entry. */
  function Verdict(items: seq<Item>, after: nat, i: nat): LostUpdate
    requires i < |items| && items[i].Rec?
  {
    var c := items[i].c;
    var j := LastIndex(items[..i], c.entry.key);
    if j < 0 && !HoldsStart(items, after) then LostUpdate(c, c.replaced, false, false)
    else
      var over := if j < 0 then "" else LiveHash(items[j].c.entry);
      var brk := c.replaced != over;
      LostUpdate(c, over, brk, brk && Damage in items[j + 1..i])
  }

  predicate Reported(u: LostUpdate) {
    u.brk || u.change.prev != u.change.replaced
  }

  /** The verdicts reported among the first `n` places, in order. */
  function Report(items: seq<Item>, after: nat, n: nat): seq<LostUpdate>
    requires n <= |items|
  {
    if n == 0 then []
    else Report(items, after, n - 1) +
         (if items[n - 1].Rec? && Reported(Verdict(items, after, n - 1)) then [Verdict(items, after, n - 1)] else [])
  }

  /** The record in place `i` is for the key. */
  predicate RecordFor(items: seq<Item>, i: int, k: Key) {
    0 <= i < |items| && items[i].Rec? && items[i].c.entry.key == k
  }

  lemma {:induction false} LastIndexIs(items: seq<Item>, k: Key)
    ensures var j := LastIndex(items, k);
            && (j >= 0 ==> RecordFor(items, j, k))
            && forall m :: RecordFor(items, m, k) ==> m <= j
  {
    if items != [] {
      var front := items[..|items| - 1];
      LastIndexIs(front, k);
      forall m | RecordFor(items, m, k) ensures m <= LastIndex(items, k) {
        if m < |front| {
          assert front[m] == items[m];
          assert RecordFor(front, m, k);
        }
      }
    }
  }

  /** The verdict on a record, from the record of its entry just before it, in place `j`. */
  ghost predicate JudgedBy(items: seq<Item>, i: nat, j: int, u: LostUpdate)
    requires -1 <= j < i < |items| && items[i].Rec? && (j >= 0 ==> items[j].Rec?)
  {
    var c := items[i].c;
    var over := if j < 0 then "" else if items[j].c.entry.deleted then "" else items[j].c.entry.hash;
    && u.change == c && u.over == over && (u.brk <==> c.replaced != over)
    && (u.afterDamage <==> u.brk && exists m :: j < m < i && items[m].Damage?)
  }

  lemma VerdictIs(items: seq<Item>, after: nat, i: nat, k: Key) returns (j: int)
    requires i < |items| && items[i].Rec? && items[i].c.entry.key == k
    ensures -1 <= j < i && (j >= 0 ==> RecordFor(items, j, k)) && (forall m :: j < m < i ==> !RecordFor(items, m, k))
    ensures j < 0 && !HoldsStart(items, after) ==>
            Verdict(items, after, i) == LostUpdate(items[i].c, items[i].c.replaced, false, false)
    ensures j >= 0 || HoldsStart(items, after) ==> JudgedBy(items, i, j, Verdict(items, after, i))
  {
    j := LastIndex(items[..i], k);
    LastIndexIs(items[..i], k);
    forall m | j < m < i ensures !RecordFor(items, m, k) {
      assert items[..i][m] == items[m];
      assert !RecordFor(items[..i], m, k);
    }
    DamageBetween(items, j + 1, i);
  }

  lemma DamageBetween(items: seq<Item>, a: nat, b: nat)
    requires a <= b <= |items|
    ensures Damage in items[a..b] <==> exists m :: a <= m < b && items[m].Damage?
  {
    if Damage in items[a..b] {
      var m :| 0 <= m < b - a && items[a..b][m] == Damage;
      assert items[a + m].Damage?;
    }
    if exists m :: a <= m < b && items[m].Damage? {
      var m :| a <= m < b && items[m].Damage?;
      assert items[a..b][m - a] == items[m];
    }
  }

  /** The journal's start is there: it is read from 0, and its first record follows the damaged lines before it. */
  lemma HoldsStartIs(items: seq<Item>, after: nat, f: nat)
    requires f <= |items| && (forall i :: 0 <= i < f ==> items[i].Damage?) && (f < |items| ==> items[f].Rec?)
    ensures HoldsStart(items, after) <==> after == 0 && (f < |items| ==> items[f].c.seqno <= f + 1)
  {
    assert FirstIndex(items) == f;
  }

  /** The verdicts come in the order of the records. */
  lemma {:induction false} ReportInOrder(items: seq<Item>, after: nat, n: nat, a: nat, b: nat)
    requires Ordered(items) && n <= |items| && a < b < |Report(items, after, n)|
    ensures Report(items, after, n)[a].change.seqno < Report(items, after, n)[b].change.seqno
  {
    var front := Report(items, after, n - 1);
    if b < |front| {
      ReportInOrder(items, after, n - 1, a, b);
    } else {
      assert front[a] in front;
      var i := FromReport(items, after, n - 1, front[a]);
    }
  }

  /******* The pass *******/

  datatype Held = Held(hash: string, damage: nat)

  // What the pass remembers: for each key, its last state and the damage met before it.
  function Memo(items: seq<Item>): map<Key, Held> {
    if items == [] then map[] else
      var front := items[..|items| - 1];
      match items[|items| - 1]
      case Damage => Memo(front)
      case Rec(c) => Memo(front)[c.entry.key := Held(LiveHash(c.entry), DamageIn(front))]
  }

  lemma {:induction false} MemoKnows(items: seq<Item>, k: Key)
    ensures k in Memo(items) <==> LastIndex(items, k) >= 0
    ensures var j := LastIndex(items, k);
            j >= 0 ==> Memo(items)[k] == Held(LiveHash(items[j].c.entry), DamageIn(items[..j]))
  {
    if items != [] {
      var front := items[..|items| - 1];
      MemoKnows(front, k);
      var j := LastIndex(front, k);
      if j >= 0 {
        assert front[..j] == items[..j];
      }
    }
  }

  lemma {:induction false} DamageSplit(items: seq<Item>, i: nat, j: nat)
    requires i <= j <= |items|
    ensures DamageIn(items[..i]) <= DamageIn(items[..j])
    ensures DamageIn(items[..i]) < DamageIn(items[..j]) <==> Damage in items[i..j]
  {
    if i < j {
      DamageSplit(items, i, j - 1);
      assert items[..j][..j - 1] == items[..j - 1];
      assert items[i..j] == items[i..j - 1] + [items[j - 1]];
    }
  }

  // What the pass says of a record, from what it remembers.
  function Judge(last: map<Key, Held>, start: bool, damage: nat, c: Change): LostUpdate {
    var k := c.entry.key;
    if k in last then
      LostUpdate(c, last[k].hash, c.replaced != last[k].hash, c.replaced != last[k].hash && damage > last[k].damage)
    else if start then LostUpdate(c, "", c.replaced != "", c.replaced != "" && damage > 0)
    else LostUpdate(c, c.replaced, false, false)
  }

  lemma JudgeIsVerdict(items: seq<Item>, after: nat, n: nat)
    requires n < |items| && items[n].Rec?
    ensures Judge(Memo(items[..n]), HoldsStart(items, after), DamageIn(items[..n]), items[n].c) ==
            Verdict(items, after, n)
  {
    MemoKnows(items[..n], items[n].c.entry.key);
    var j := LastIndex(items[..n], items[n].c.entry.key);
    DamageSplit(items, j + 1, n);
    if j >= 0 {
      assert items[..j + 1][..j] == items[..j] && items[..n][..j] == items[..j];
      assert items[..n][j] == items[j];
    } else {
      assert items[0..n] == items[..n];
    }
  }

  // The state of the pass after `n` places.
  datatype Pass = Pass(last: map<Key, Held>, damage: nat, start: bool, first: bool)

  function PassAt(items: seq<Item>, after: nat, n: nat): Pass
    requires n <= |items|
  {
    var first := n <= FirstIndex(items);
    Pass(Memo(items[..n]), DamageIn(items[..n]), if first then after == 0 else HoldsStart(items, after), first)
  }

  lemma PassDamage(items: seq<Item>, after: nat, n: nat)
    requires n < |items| && items[n].Damage?
    ensures var p := PassAt(items, after, n); PassAt(items, after, n + 1) == p.(damage := p.damage + 1)
    ensures Report(items, after, n + 1) == Report(items, after, n)
  {
    assert items[..n + 1][..n] == items[..n];
  }

  lemma PassRecord(items: seq<Item>, after: nat, n: nat)
    requires n < |items| && items[n].Rec?
    ensures var p, c := PassAt(items, after, n), items[n].c;
            var start := p.start && !(p.first && c.seqno > p.damage + 1);
            var u := Judge(p.last, start, p.damage, c);
            && PassAt(items, after, n + 1) ==
               Pass(p.last[c.entry.key := Held(LiveHash(c.entry), p.damage)], p.damage, start, false)
            && Report(items, after, n + 1) == Report(items, after, n) + (if Reported(u) then [u] else [])
  {
    assert items[..n + 1][..n] == items[..n];
    if n <= FirstIndex(items) {
      DamageAll(items[..n]);
    }
    JudgeIsVerdict(items, after, n);
  }

  lemma {:induction false} DamageAll(items: seq<Item>)
    requires forall i :: 0 <= i < |items| ==> items[i].Damage?
    ensures DamageIn(items) == |items|
  {
    if items != [] {
      DamageAll(items[..|items| - 1]);
    }
  }

  /** The one pass gives exactly the reported verdicts, in order, and counts the damaged lines. */
  method Audit(items: seq<Item>, after: nat) returns (out: seq<LostUpdate>, errs: nat)
    ensures out == Report(items, after, |items|)
    ensures errs == DamageIn(items)
  {
    var last: map<Key, Held> := map[];
    var damage := 0;
    var start := after == 0;
    var first := true;
    out := [];
    for n := 0 to |items|
      invariant Pass(last, damage, start, first) == PassAt(items, after, n)
      invariant out == Report(items, after, n)
    {
      match items[n] {
        case Damage =>
          PassDamage(items, after, n);
          damage := damage + 1;
        case Rec(c) =>
          PassRecord(items, after, n);
          if first && c.seqno > damage + 1 {
            start := false;
          }
          first := false;
          var key := c.entry.key;
          var ok, h := key in last, Held("", 0);
          if ok {
            h := last[key];
          } else if start {
            ok := true;
          }
          var lu := LostUpdate(c, c.replaced, false, false);
          if ok {
            var broken := c.replaced != h.hash;
            lu := LostUpdate(c, h.hash, broken, broken && damage > h.damage);
          }
          if lu.brk || c.prev != c.replaced {
            out := out + [lu];
          }
          last := last[key := Held(LiveHash(c.entry), damage)];
      }
    }
    assert items[..|items|] == items;
    errs := damage;
  }

  /******* A whole chain has no break *******/

  lemma {:induction false} LastIndexIsLastFor(items: seq<Item>, k: Key)
    ensures LastIndex(items, k) < 0 <==> LastFor(Records(items), k).None?
    ensures LastIndex(items, k) >= 0 ==> LastFor(Records(items), k) == Some(items[LastIndex(items, k)].c)
  {
    if items != [] {
      LastIndexIsLastFor(items[..|items| - 1], k);
      if items[|items| - 1].Rec? {
        LastForAppend(Records(items[..|items| - 1]), items[|items| - 1].c, k);
      } else {
        assert Records(items) == Records(items[..|items| - 1]);
      }
    }
  }

  lemma {:induction false} RecordsPrefix(items: seq<Item>, i: nat)
    requires i < |items| && items[i].Rec?
    ensures |Records(items[..i])| < |Records(items)|
    ensures Records(items)[|Records(items[..i])|] == items[i].c
    ensures Records(items)[..|Records(items[..i])|] == Records(items[..i])
  {
    var front := items[..|items| - 1];
    if i < |items| - 1 {
      RecordsPrefix(front, i);
      assert front[..i] == items[..i];
    } else {
      assert front == items[..i];
    }
  }

  lemma ChainedAt(recs: seq<Change>, n: nat)
    requires Chained(recs) && n < |recs|
    ensures recs[n].replaced == HeldHash(recs[..n], recs[n].entry.key)
  {
  }

  lemma HeldIsNoBreak(items: seq<Item>, i: nat)
    requires i < |items| && items[i].Rec?
    requires items[i].c.replaced == HeldHash(Records(items[..i]), items[i].c.entry.key)
    ensures !Verdict(items, 0, i).brk
  {
    var k := items[i].c.entry.key;
    LastIndexIsLastFor(items[..i], k);
    var j := LastIndex(items[..i], k);
    if j >= 0 {
      assert items[..i][j] == items[j];
    }
  }

  /** When every record continues the chain of its entry, no record is a break. */
  lemma ChainedVerdict(items: seq<Item>, i: nat)
    requires Chained(Records(items)) && i < |items| && items[i].Rec?
    ensures !Verdict(items, 0, i).brk
  {
    RecordsPrefix(items, i);
    ChainedAt(Records(items), |Records(items[..i])|);
    HeldIsNoBreak(items, i);
  }

  // A reported verdict is the verdict of some record.
  lemma {:induction false} FromReport(items: seq<Item>, after: nat, n: nat, u: LostUpdate) returns (i: nat)
    requires n <= |items| && u in Report(items, after, n)
    ensures i < n && items[i].Rec? && Verdict(items, after, i) == u && Reported(u)
  {
    if u in Report(items, after, n - 1) {
      i := FromReport(items, after, n - 1, u);
    } else {
      i := n - 1;
    }
  }

  /** The audit of a whole chain from its start reports forks alone: no break, whatever the damage. */
  lemma ChainedNoBreak(items: seq<Item>, n: nat)
    requires Chained(Records(items)) && n <= |items|
    ensures forall u :: u in Report(items, 0, n) ==> !u.brk && u.change.prev != u.change.replaced
  {
    forall u | u in Report(items, 0, n) ensures !u.brk && u.change.prev != u.change.replaced {
      var i := FromReport(items, 0, n, u);
      ChainedVerdict(items, i);
    }
  }

  // Without a break, a record of a journal whose start is there continues the chain.
  lemma NoBreakIsHeld(items: seq<Item>, i: nat)
    requires HoldsStart(items, 0) && i < |items| && items[i].Rec? && !Verdict(items, 0, i).brk
    ensures items[i].c.replaced == HeldHash(Records(items[..i]), items[i].c.entry.key)
  {
    var k := items[i].c.entry.key;
    LastIndexIsLastFor(items[..i], k);
    var j := LastIndex(items[..i], k);
    if j >= 0 {
      assert items[..i][j] == items[j];
    }
  }

  lemma {:induction false} NoBreakChains(items: seq<Item>, n: nat)
    requires HoldsStart(items, 0) && n <= |items|
    requires forall i :: 0 <= i < n && items[i].Rec? ==> !Verdict(items, 0, i).brk
    ensures Chained(Records(items[..n]))
  {
    if n > 0 {
      NoBreakChains(items, n - 1);
      if items[n - 1].Rec? {
        NoBreakIsHeld(items, n - 1);
      }
      ChainGoesOn(items, n - 1);
    }
  }

  lemma ChainGoesOn(items: seq<Item>, i: nat)
    requires i < |items| && Chained(Records(items[..i]))
    requires items[i].Rec? ==> items[i].c.replaced == HeldHash(Records(items[..i]), items[i].c.entry.key)
    ensures Chained(Records(items[..i + 1]))
  {
    RecordsNext(items, i);
    if items[i].Rec? {
      ChainedAppend(Records(items[..i]), items[i].c);
    }
  }

  ghost predicate ReportsBreak(items: seq<Item>) {
    exists u :: u in Report(items, 0, |items|) && u.brk
  }

  /** Of a journal whose start is there, the audit reports a break if and only if some record leaves the chain. */
  lemma BreakIffUnchained(items: seq<Item>)
    requires HoldsStart(items, 0)
    ensures ReportsBreak(items) <==> !Chained(Records(items))
  {
    assert items[..|items|] == items;
    if Chained(Records(items)) {
      ChainedNoBreak(items, |items|);
    } else if !ReportsBreak(items) {
      forall i | 0 <= i < |items| && items[i].Rec? ensures !Verdict(items, 0, i).brk {
        if Verdict(items, 0, i).brk {
          InReport(items, 0, |items|, i);
        }
      }
      NoBreakChains(items, |items|);
    }
  }

  lemma {:induction false} DamageHasNoRecord(items: seq<Item>)
    requires AllDamage(items)
    ensures Records(items) == []
  {
    if items != [] {
      DamageHasNoRecord(items[..|items| - 1]);
    }
  }

  /** A journal whose first readable record is numbered 1 has its start. */
  lemma FirstHoldsStart(items: seq<Item>)
    requires Records(items) != [] ==> Records(items)[0].seqno == 1
    ensures HoldsStart(items, 0)
  {
    var f := FirstIndex(items);
    if f < |items| {
      DamageHasNoRecord(items[..f]);
      RecordsPrefix(items, f);
    }
  }

  /** When besides every write was built on what it replaced, the audit reports nothing. */
  lemma {:induction false} AnchoredIsClean(items: seq<Item>, n: nat)
    requires Chained(Records(items)) && n <= |items|
    requires forall i :: 0 <= i < |items| && items[i].Rec? ==> items[i].c.prev == items[i].c.replaced
    ensures Report(items, 0, n) == []
  {
    if n > 0 {
      AnchoredIsClean(items, n - 1);
      if items[n - 1].Rec? {
        ChainedVerdict(items, n - 1);
      }
    }
  }

  /******* Reading from a later cursor *******/

  function WindowItem(x: Item, after: nat): seq<Item> {
    if x.Damage? || x.c.seqno > after then [x] else []
  }

  /** What the journal yields after a cursor: the records past it, and every damaged line. */
  function Window(items: seq<Item>, after: nat): seq<Item> {
    if items == [] then []
    else WindowItem(items[0], after) + Window(items[1..], after)
  }

  ghost predicate Ordered(items: seq<Item>) {
    forall i, j :: 0 <= i < j < |items| && items[i].Rec? && items[j].Rec? ==> items[i].c.seqno < items[j].c.seqno
  }

  // Where the records past the cursor begin.
  function Cut(items: seq<Item>, after: nat): (p: nat)
    ensures p <= |items|
  {
    if items == [] || (items[0].Rec? && items[0].c.seqno > after) then 0 else 1 + Cut(items[1..], after)
  }

  lemma {:induction false} CutSplits(items: seq<Item>, after: nat)
    requires Ordered(items)
    ensures var p := Cut(items, after);
            && (forall i :: 0 <= i < p && items[i].Rec? ==> items[i].c.seqno <= after)
            && (forall i :: p <= i < |items| && items[i].Rec? ==> items[i].c.seqno > after)
  {
    if items != [] && !(items[0].Rec? && items[0].c.seqno > after) {
      assert Ordered(items[1..]);
      CutSplits(items[1..], after);
      var p := Cut(items, after);
      assert forall i :: 1 <= i < |items| ==> items[i] == items[1..][i - 1];
    } else if items != [] {
      assert forall i :: 0 < i < |items| && items[i].Rec? ==> items[0].c.seqno < items[i].c.seqno;
    }
  }

  ghost predicate AllDamage(items: seq<Item>) {
    forall i :: 0 <= i < |items| ==> items[i].Damage?
  }

  lemma WindowFirst(x: Item, rest: seq<Item>, after: nat)
    ensures Window([x] + rest, after) == WindowItem(x, after) + Window(rest, after)
  {
    assert ([x] + rest)[1..] == rest;
  }

  lemma FirstAndRest(items: seq<Item>)
    requires items != []
    ensures items == [items[0]] + items[1..]
  {
  }

  lemma {:induction false} WindowConcat(a: seq<Item>, b: seq<Item>, after: nat)
    ensures Window(a + b, after) == Window(a, after) + Window(b, after)
    decreases |a|
  {
    if a == [] {
      assert a + b == b;
    } else {
      var x, rest := a[0], a[1..];
      FirstAndRest(a);
      WindowConcat(rest, b, after);
      WindowConcatStep(x, rest, b, after);
      assert a + b == [x] + (rest + b);
    }
  }

  lemma WindowConcatStep(x: Item, rest: seq<Item>, b: seq<Item>, after: nat)
    requires Window(rest + b, after) == Window(rest, after) + Window(b, after)
    ensures Window([x] + (rest + b), after) == Window([x] + rest, after) + Window(b, after)
  {
    WindowFirst(x, rest, after);
    WindowFirst(x, rest + b, after);
    var kept, more := WindowItem(x, after), Window(rest, after);
    assert kept + (more + Window(b, after)) == (kept + more) + Window(b, after);
  }

  lemma {:induction false} WindowNone(items: seq<Item>, after: nat)
    requires forall i :: 0 <= i < |items| && items[i].Rec? ==> items[i].c.seqno <= after
    ensures AllDamage(Window(items, after))
    decreases |items|
  {
    if items != [] {
      FirstAndRest(items);
      WindowNone(items[1..], after);
      WindowFirst(items[0], items[1..], after);
    }
  }

  lemma WindowOf(a: seq<Item>, b: seq<Item>, after: nat)
    requires forall i :: 0 <= i < |a| && a[i].Rec? ==> a[i].c.seqno <= after
    requires forall i :: 0 <= i < |b| && b[i].Rec? ==> b[i].c.seqno > after
    ensures AllDamage(Window(a, after)) && Window(a + b, after) == Window(a, after) + b
  {
    WindowNone(a, after);
    WindowAll(b, after);
    WindowConcat(a, b, after);
  }

  /** The window is the damaged lines before the cut, and then everything after it. */
  lemma WindowSplits(items: seq<Item>, after: nat) returns (pre: seq<Item>)
    requires Ordered(items)
    ensures AllDamage(pre) && Window(items, after) == pre + items[Cut(items, after)..]
  {
    var p := Cut(items, after);
    var a, b := items[..p], items[p..];
    assert (forall i :: 0 <= i < |a| && a[i].Rec? ==> a[i].c.seqno <= after)
        && (forall i :: 0 <= i < |b| && b[i].Rec? ==> b[i].c.seqno > after) by {
      CutSplits(items, after);
    }
    pre := Window(a, after);
    WindowOf(a, b, after);
    assert a + b == items;
  }

  lemma {:induction false} WindowAll(items: seq<Item>, after: nat)
    requires forall i :: 0 <= i < |items| && items[i].Rec? ==> items[i].c.seqno > after
    ensures Window(items, after) == items
  {
    if items != [] {
      FirstAndRest(items);
      WindowAll(items[1..], after);
      WindowFirst(items[0], items[1..], after);
    }
  }

  lemma {:induction false} LastIndexConcat(a: seq<Item>, b: seq<Item>, k: Key)
    ensures LastIndex(a + b, k) == if LastIndex(b, k) >= 0 then |a| + LastIndex(b, k) else LastIndex(a, k)
  {
    if b == [] {
      assert a + b == a;
    } else {
      assert (a + b)[..|a + b| - 1] == a + b[..|b| - 1];
      LastIndexConcat(a, b[..|b| - 1], k);
    }
  }

  // What a verdict rests on: the place of the record before it, and what lies between.
  lemma VerdictFrom(before: seq<Item>, mid: seq<Item>, items: seq<Item>, after: nat, at: nat, k: Key)
    requires at == |before| + |mid| && at < |items| && items[..at] == before + mid
    requires items[at].Rec? && items[at].c.entry.key == k && LastIndex(mid, k) >= 0
    ensures var c, j := items[at].c, LastIndex(mid, k);
            var over := LiveHash(mid[j].c.entry);
            Verdict(items, after, at) ==
              LostUpdate(c, over, c.replaced != over, c.replaced != over && Damage in mid[j + 1..])
  {
    var j := LastIndex(mid, k);
    LastIndexConcat(before, mid, k);
    assert items[|before| + j] == items[..at][|before| + j] == mid[j];
    assert items[|before| + j + 1..at] == mid[j + 1..];
  }

  lemma VerdictWithout(before: seq<Item>, mid: seq<Item>, items: seq<Item>, after: nat, at: nat, k: Key)
    requires at == |before| + |mid| && at < |items| && items[..at] == before + mid
    requires items[at].Rec? && items[at].c.entry.key == k
    requires AllDamage(before) && LastIndex(mid, k) < 0 && after > 0
    ensures Verdict(items, after, at) == LostUpdate(items[at].c, items[at].c.replaced, false, false)
  {
    LastIndexConcat(before, mid, k);
    assert LastIndex(before, k) < 0;
  }

  // A place after the cut, in the window and in the whole.
  lemma InWindow(items: seq<Item>, pre: seq<Item>, p: nat, i: nat, w: seq<Item>, at: nat, mid: seq<Item>)
    requires p <= i < |items| && w == pre + items[p..] && at == i - p + |pre| && mid == items[p..i]
    ensures at < |w| && w[at] == items[i] && w[..at] == pre + mid && items[..i] == items[..p] + mid
  {
  }

  // A record after the cut, read in the window, is judged as in the whole journal or as a fork alone.
  lemma WindowVerdict(items: seq<Item>, after: nat, pre: seq<Item>, p: nat, i: nat, w: seq<Item>, at: nat)
    requires AllDamage(pre) && p <= i < |items| && items[i].Rec? && after > 0
    requires w == pre + items[p..] && at == i - p + |pre|
    ensures at < |w| && w[at] == items[i]
    ensures var u := Verdict(w, after, at);
            u == Verdict(items, 0, i) || u == LostUpdate(items[i].c, items[i].c.replaced, false, false)
  {
    var mid, k := items[p..i], items[i].c.entry.key;
    InWindow(items, pre, p, i, w, at, mid);
    if LastIndex(mid, k) >= 0 {
      VerdictFrom(pre, mid, w, after, at, k);
      VerdictFrom(items[..p], mid, items, 0, i, k);
    } else {
      VerdictWithout(pre, mid, w, after, at, k);
    }
  }

  lemma {:induction false} InReport(items: seq<Item>, after: nat, n: nat, i: nat)
    requires i < n <= |items| && items[i].Rec? && Reported(Verdict(items, after, i))
    ensures Verdict(items, after, i) in Report(items, after, n)
  {
    if i < n - 1 {
      InReport(items, after, n - 1, i);
    }
  }

  /** Reading from a later cursor reports every fork past it. */
  lemma LaterForks(items: seq<Item>, after: nat, i: nat)
    requires Ordered(items) && after > 0 && i < |items| && items[i].Rec?
    requires items[i].c.seqno > after && items[i].c.prev != items[i].c.replaced
    ensures exists u :: u in Report(Window(items, after), after, |Window(items, after)|) && u.change == items[i].c
  {
    CutSplits(items, after);
    var w, p := Window(items, after), Cut(items, after);
    var pre := WindowSplits(items, after);
    var at := i - p + |pre|;
    WindowVerdict(items, after, pre, p, i, w, at);
    InReport(w, after, |w|, at);
  }

  // Where a record of the window stands in the whole.
  lemma PlaceOf(items: seq<Item>, w: seq<Item>, pre: seq<Item>, p: nat, at: nat) returns (i: nat)
    requires AllDamage(pre) && p <= |items| && w == pre + items[p..] && at < |w| && w[at].Rec?
    ensures p <= i < |items| && w[at] == items[i] && at == i - p + |pre|
  {
    assert forall k :: 0 <= k < |pre| ==> w[k] == pre[k];
    i := at - |pre| + p;
  }

  lemma BreakOfWindow(items: seq<Item>, after: nat, w: seq<Item>, pre: seq<Item>, p: nat, u: LostUpdate)
    requires AllDamage(pre) && p <= |items| && w == pre + items[p..] && after > 0
    requires u in Report(w, after, |w|) && u.brk
    ensures u in Report(items, 0, |items|)
  {
    var at := FromReport(w, after, |w|, u);
    var i := PlaceOf(items, w, pre, p, at);
    assert Verdict(items, 0, i) == u by {
      WindowVerdict(items, after, pre, p, i, w, at);
    }
    InReport(items, 0, |items|, i);
  }

  /** And every break it reports is one the whole read reports, in the same words. */
  lemma LaterBreaks(items: seq<Item>, after: nat, u: LostUpdate)
    requires Ordered(items) && after > 0
    requires u in Report(Window(items, after), after, |Window(items, after)|) && u.brk
    ensures u in Report(items, 0, |items|)
  {
    var pre := WindowSplits(items, after);
    BreakOfWindow(items, after, Window(items, after), pre, Cut(items, after), u);
  }
}

/**
 The record of what a block showed the model (render.go): a manifest, the delta that
 writes one manifest on another, and the fold that reads a session's records back.
 JSON is a parameter, as is the digest.
 */
module Manifests {
  import opened Common
  import opened Text
  import opened Memory

  datatype Shown = Shown(scope: string, name: string, hash: string, bytes: int, reason: string)

  datatype Manifest = Manifest(entries: seq<Shown>, omitted: seq<Shown>, leftOut: bool)

  const Nothing := Manifest([], [], false)

  /** A keep, an entry, both or neither: what the format lets a reader meet. */
  datatype Op = Op(keep: int, entry: Option<Shown>)

  datatype Delta = Delta(base: string, hash: string, entries: seq<Op>, omitted: seq<Op>, dropped: bool)

  datatype Record = Whole(m: Manifest) | Since(d: Delta)

  /** The JSON of a record, and the record some bytes hold. */
  datatype Codec = Codec(enc: Record -> string, dec: string -> Option<Record>)

  ghost predicate Carries(codec: Codec, r: Record) {
    codec.dec(codec.enc(r)) == Some(r)
  }

  datatype Refusal =
    | Malformed
    | WrongBase
    | NamedTwice
    | KeepAndEntry(i: nat)
    | NoName(i: nat)
    | PastTheEnd(i: nat, keep: int, left: int)
    | NeitherKeepNorEntry(i: nat)
    | WrongHash

  /******* Places in a list *******/

  function KeyOf(e: Shown): Key {
    Key(e.scope, e.name)
  }

  /** No entry is named twice. */
  predicate Distinct(list: seq<Shown>) {
    forall i, j :: 0 <= i < j < |list| ==> KeyOf(list[i]) != KeyOf(list[j])
  }

  /** Where a list names a key, or -1. */
  function At(list: seq<Shown>, k: Key): (j: int)
    ensures -1 <= j < |list|
  {
    if list == [] then -1
    else if KeyOf(list[|list| - 1]) == k then |list| - 1
    else At(list[..|list| - 1], k)
  }

  lemma {:induction false} AtFinds(list: seq<Shown>, k: Key)
    ensures At(list, k) >= 0 ==> KeyOf(list[At(list, k)]) == k
    ensures At(list, k) < 0 ==> forall i :: 0 <= i < |list| ==> KeyOf(list[i]) != k
  {
    if list != [] {
      AtFinds(list[..|list| - 1], k);
    }
  }

  ghost predicate Maps(list: seq<Shown>, at: map<Key, int>) {
    forall k :: (k in at <==> At(list, k) >= 0) && (k in at ==> at[k] == At(list, k))
  }

  method Index(list: seq<Shown>) returns (at: map<Key, int>, ok: bool)
    ensures ok <==> Distinct(list)
    ensures ok ==> Maps(list, at)
  {
    at := map[];
    for i := 0 to |list|
      invariant Maps(list[..i], at)
      invariant Distinct(list[..i])
    {
      var k := KeyOf(list[i]);
      AtFinds(list[..i], k);
      if k in at {
        assert KeyOf(list[at[k]]) == KeyOf(list[i]);
        return map[], false;
      }
      at := at[k := i];
      assert list[..i + 1][..i] == list[..i];
    }
    assert list[..|list|] == list;
    ok := true;
  }

  /******* Writing a delta *******/

  function Flush(run: nat): seq<Op> {
    if run > 0 then [Op(run, None)] else []
  }

  /** The delta of what is left of the next list, with the cursor in the previous one and the run standing at it. */
  function DiffFrom(prev: seq<Shown>, next: seq<Shown>, cursor: nat, run: nat): seq<Op> {
    if next == [] then Flush(run)
    else
      var e, j := next[0], At(prev, KeyOf(next[0]));
      if j >= 0 && prev[j] == e && j == cursor + run then DiffFrom(prev, next[1..], cursor, run + 1)
      else Flush(run) + [Op(0, Some(e))] + DiffFrom(prev, next[1..], if j >= 0 then j + 1 else cursor + run, 0)
  }

  // One step of the pass over the next list.
  lemma DiffStep(prev: seq<Shown>, next: seq<Shown>, i: nat, cursor: nat, run: nat)
    requires i < |next|
    ensures var e := next[i];
            var j := At(prev, KeyOf(e));
            DiffFrom(prev, next[i..], cursor, run) ==
            if j >= 0 && prev[j] == e && j == cursor + run then DiffFrom(prev, next[i + 1..], cursor, run + 1)
            else Flush(run) + [Op(0, Some(e))] +
                 DiffFrom(prev, next[i + 1..], if j >= 0 then j + 1 else cursor + run, 0)
  {
    assert next[i..][0] == next[i] && next[i..][1..] == next[i + 1..];
  }

  method Diff(prev: seq<Shown>, next: seq<Shown>) returns (out: seq<Op>, ok: bool)
    ensures ok <==> Distinct(prev) && Distinct(next)
    ensures ok ==> out == DiffFrom(prev, next, 0, 0)
  {
    out := [];
    var at;
    at, ok := Index(prev);
    if !ok {
      return;
    }
    var _, nextOk := Index(next);
    if !nextOk {
      return [], false;
    }
    out := WriteDiff(prev, next, at);
  }

  lemma Regroup(a: seq<Op>, b: seq<Op>, c: seq<Op>, d: seq<Op>)
    ensures a + (b + c + d) == a + b + c + d
    ensures b == [] ==> a + b + c == a + c
  {
  }

  method WriteDiff(prev: seq<Shown>, next: seq<Shown>, at: map<Key, int>) returns (out: seq<Op>)
    requires Maps(prev, at)
    ensures out == DiffFrom(prev, next, 0, 0)
  {
    out := [];
    var cursor, run := 0, 0;
    ghost var all := DiffFrom(prev, next, 0, 0);
    assert next[0..] == next;
    for i := 0 to |next|
      invariant 0 <= cursor && 0 <= run
      invariant all == out + DiffFrom(prev, next[i..], cursor, run)
    {
      var e := next[i];
      DiffStep(prev, next, i, cursor, run);
      var found := KeyOf(e) in at;
      if found && prev[at[KeyOf(e)]] == e && at[KeyOf(e)] == cursor + run {
        run := run + 1;
      } else {
        Regroup(out, Flush(run), [Op(0, Some(e))],
          DiffFrom(prev, next[i + 1..], if found then at[KeyOf(e)] + 1 else cursor + run, 0));
        if run > 0 {
          out := out + [Op(run, None)];
          cursor := cursor + run;
          run := 0;
        }
        out := out + [Op(0, Some(e))];
        if found {
          cursor := at[KeyOf(e)] + 1;
        }
      }
    }
    assert next[|next|..] == [];
    if run > 0 {
      out := out + [Op(run, None)];
    }
  }

  /******* Reading a delta *******/

  function Prepend(front: seq<Shown>, r: Result<seq<Shown>, Refusal>): Result<seq<Shown>, Refusal> {
    match r case Ok(list) => Ok(front + list) case Err(e) => Err(e)
  }

  /** What the elements from the `i`th on give, with the cursor in the previous list. */
  function ApplyFrom(prev: seq<Shown>, ops: seq<Op>, cursor: nat, i: nat): Result<seq<Shown>, Refusal>
    requires cursor <= |prev|
  {
    if ops == [] then Ok([])
    else match ops[0]
      case Op(keep, Some(e)) =>
        if keep != 0 then Err(KeepAndEntry(i))
        else if e.scope == "" || e.name == "" then Err(NoName(i))
        else
          var j := At(prev, KeyOf(e));
          Prepend([e], ApplyFrom(prev, ops[1..], if j >= 0 then j + 1 else cursor, i + 1))
      case Op(keep, None) =>
        if keep <= 0 then Err(NeitherKeepNorEntry(i))
        else if keep > |prev| - cursor then Err(PastTheEnd(i, keep, |prev| - cursor))
        else Prepend(prev[cursor..cursor + keep], ApplyFrom(prev, ops[1..], cursor + keep, i + 1))
  }

  function ApplyList(prev: seq<Shown>, ops: seq<Op>): Result<seq<Shown>, Refusal> {
    if Distinct(prev) then ApplyFrom(prev, ops, 0, 0) else Err(NamedTwice)
  }

  method Apply(prev: seq<Shown>, ops: seq<Op>) returns (r: Result<seq<Shown>, Refusal>)
    ensures r == ApplyList(prev, ops)
  {
    var at, ok := Index(prev);
    if !ok {
      return Err(NamedTwice);
    }
    var out: seq<Shown> := [];
    var cursor := 0;
    assert ops[0..] == ops;
    PrependNothing(ApplyFrom(prev, ops, 0, 0));
    for i := 0 to |ops|
      invariant 0 <= cursor <= |prev|
      invariant ApplyFrom(prev, ops, 0, 0) == Prepend(out, ApplyFrom(prev, ops[i..], cursor, i))
    {
      var op := ops[i];
      assert ops[i..][0] == op && ops[i..][1..] == ops[i + 1..];
      if op.entry.Some? && op.keep != 0 {
        return Err(KeepAndEntry(i));
      } else if op.entry.Some? {
        var e := op.entry.value;
        if e.scope == "" || e.name == "" {
          return Err(NoName(i));
        }
        if KeyOf(e) in at {
          cursor := at[KeyOf(e)] + 1;
        }
        PrependTwice(out, [e], ApplyFrom(prev, ops[i + 1..], cursor, i + 1));
        out := out + [e];
      } else if op.keep > 0 && op.keep <= |prev| - cursor {
        PrependTwice(out, prev[cursor..cursor + op.keep], ApplyFrom(prev, ops[i + 1..], cursor + op.keep, i + 1));
        out := out + prev[cursor..cursor + op.keep];
        cursor := cursor + op.keep;
      } else if op.keep > 0 {
        return Err(PastTheEnd(i, op.keep, |prev| - cursor));
      } else {
        return Err(NeitherKeepNorEntry(i));
      }
    }
    assert ops[|ops|..] == [] && out + [] == out;
    return Ok(out);
  }

  lemma PrependNothing(r: Result<seq<Shown>, Refusal>)
    ensures Prepend([], r) == r
  {
    if r.Ok? {
      assert [] + r.value == r.value;
    }
  }

  lemma PrependTwice(a: seq<Shown>, b: seq<Shown>, r: Result<seq<Shown>, Refusal>)
    ensures Prepend(a, Prepend(b, r)) == Prepend(a + b, r)
  {
    if r.Ok? {
      assert a + (b + r.value) == a + b + r.value;
    }
  }

  /******* A delta gives back what it was written from *******/

  predicate Named(e: Shown) {
    e.scope != "" && e.name != ""
  }

  ghost predicate AllNamed(list: seq<Shown>) {
    forall i :: 0 <= i < |list| ==> Named(list[i])
  }

  /** Every entry the delta writes whole has a name. */
  ghost predicate WrittenNamed(ops: seq<Op>) {
    forall i :: 0 <= i < |ops| && ops[i].entry.Some? ==> Named(ops[i].entry.value)
  }

  // What reading gives when all goes well, and when an entry has no name.
  ghost predicate Gives(r: Result<seq<Shown>, Refusal>, list: seq<Shown>, named: bool) {
    if named then r == Ok(list) else r.Err? && r.error.NoName?
  }

  /**
   Read with the cursor it was written with, the delta gives the run and then the rest of
   the list, also where the cursor moves backwards, when every entry it writes whole has a
   name; else it is refused for that.
   */
  lemma {:induction false} DiffApplies(prev: seq<Shown>, next: seq<Shown>, cursor: nat, run: nat, i: nat)
    requires cursor + run <= |prev|
    ensures DiffGives(prev, next, cursor, run, i)
  {
    if next == [] {
      EndApplies(prev, cursor, run, i);
    } else {
      var j := At(prev, KeyOf(next[0]));
      if j >= 0 && prev[j] == next[0] && j == cursor + run {
        DiffApplies(prev, next[1..], cursor, run + 1, i);
        RunGrows(prev, next, cursor, cursor + run);
      } else {
        var cursor', i' := if j >= 0 then j + 1 else cursor + run, i + |Flush(run)| + 1;
        var tail := DiffFrom(prev, next[1..], cursor', 0);
        DiffApplies(prev, next[1..], cursor', 0, i');
        NoRun(prev, next[1..], cursor', i', tail);
        DiffWrites(prev, next, cursor, run, cursor');
        NextApplies(prev, next, cursor, run, i, tail, DiffFrom(prev, next, cursor, run), cursor', i');
      }
    }
  }

  ghost predicate DiffGives(prev: seq<Shown>, next: seq<Shown>, cursor: nat, run: nat, i: nat)
    requires cursor + run <= |prev|
  {
    var ops := DiffFrom(prev, next, cursor, run);
    Gives(ApplyFrom(prev, ops, cursor, i), prev[cursor..cursor + run] + next, WrittenNamed(ops))
  }

  lemma RunGrows(prev: seq<Shown>, next: seq<Shown>, a: nat, b: nat)
    requires next != [] && a <= b < |prev| && prev[b] == next[0]
    ensures prev[a..b + 1] + next[1..] == prev[a..b] + next
  {
    assert next == [next[0]] + next[1..];
    assert prev[a..b + 1] == prev[a..b] + [prev[b]];
  }

  // The delta of a list whose first entry is written whole.
  lemma DiffWrites(prev: seq<Shown>, next: seq<Shown>, cursor: nat, run: nat, cursor': nat)
    requires next != []
    requires var j := At(prev, KeyOf(next[0]));
             !(j >= 0 && prev[j] == next[0] && j == cursor + run) && cursor' == (if j >= 0 then j + 1 else cursor + run)
    ensures DiffFrom(prev, next, cursor, run) ==
            Flush(run) + [Op(0, Some(next[0]))] + DiffFrom(prev, next[1..], cursor', 0)
  {
  }

  lemma NoRun(prev: seq<Shown>, next: seq<Shown>, cursor: nat, i: nat, tail: seq<Op>)
    requires cursor <= |prev| && DiffGives(prev, next, cursor, 0, i) && tail == DiffFrom(prev, next, cursor, 0)
    ensures Gives(ApplyFrom(prev, tail, cursor, i), next, WrittenNamed(tail))
  {
    assert prev[cursor..cursor + 0] + next == next;
  }

  lemma NextApplies(prev: seq<Shown>, next: seq<Shown>, cursor: nat, run: nat, i: nat, tail: seq<Op>, ops: seq<Op>,
                    cursor': nat, i': nat)
    requires next != [] && cursor + run <= |prev| && i' == i + |Flush(run)| + 1
    requires cursor' == (if At(prev, KeyOf(next[0])) >= 0 then At(prev, KeyOf(next[0])) + 1 else cursor + run)
    requires Gives(ApplyFrom(prev, tail, cursor', i'), next[1..], WrittenNamed(tail))
    requires ops == Flush(run) + [Op(0, Some(next[0]))] + tail
    ensures Gives(ApplyFrom(prev, ops, cursor, i), prev[cursor..cursor + run] + next, WrittenNamed(ops))
  {
    WriteApplies(prev, cursor, run, next[0], next[1..], tail, i, cursor', i');
    assert [next[0]] + next[1..] == next;
  }

  lemma EndApplies(prev: seq<Shown>, cursor: nat, run: nat, i: nat)
    requires cursor + run <= |prev|
    ensures Gives(ApplyFrom(prev, Flush(run), cursor, i), prev[cursor..cursor + run] + [], WrittenNamed(Flush(run)))
  {
    FlushApplies(prev, cursor, run, [], i);
    assert Flush(run) + [] == Flush(run);
  }

  // A run kept, an entry written whole, and a tail known to give the rest.
  lemma WriteApplies(prev: seq<Shown>, cursor: nat, run: nat, e: Shown, rest: seq<Shown>, tail: seq<Op>, i: nat,
                     cursor': nat, i': nat)
    requires cursor + run <= |prev| && i' == i + |Flush(run)| + 1
    requires cursor' == (if At(prev, KeyOf(e)) >= 0 then At(prev, KeyOf(e)) + 1 else cursor + run)
    requires Gives(ApplyFrom(prev, tail, cursor', i'), rest, WrittenNamed(tail))
    ensures var ops := Flush(run) + [Op(0, Some(e))] + tail;
            Gives(ApplyFrom(prev, ops, cursor, i), prev[cursor..cursor + run] + ([e] + rest), WrittenNamed(ops))
  {
    var ops := [Op(0, Some(e))] + tail;
    FlushApplies(prev, cursor, run, ops, i);
    assert ops[1..] == tail;
    assert Flush(run) + [Op(0, Some(e))] + tail == Flush(run) + ops;
    assert WrittenNamed(Flush(run) + ops) <==> Named(e) && WrittenNamed(tail) by {
      WrittenNamedSplit(run, e, tail);
    }
  }

  lemma FlushApplies(prev: seq<Shown>, cursor: nat, run: nat, ops: seq<Op>, i: nat)
    requires cursor + run <= |prev|
    ensures ApplyFrom(prev, Flush(run) + ops, cursor, i) ==
            Prepend(prev[cursor..cursor + run], ApplyFrom(prev, ops, cursor + run, i + |Flush(run)|))
  {
    if run > 0 {
      assert (Flush(run) + ops)[1..] == ops;
    } else {
      assert Flush(run) + ops == ops;
      var r := ApplyFrom(prev, ops, cursor, i);
      assert r.Ok? ==> prev[cursor..cursor] + r.value == r.value;
    }
  }

  lemma WrittenNamedSplit(run: nat, e: Shown, tail: seq<Op>)
    ensures WrittenNamed(Flush(run) + [Op(0, Some(e))] + tail) <==> Named(e) && WrittenNamed(tail)
  {
    var ops := Flush(run) + [Op(0, Some(e))] + tail;
    var n := |Flush(run)|;
    assert ops[n] == Op(0, Some(e));
    assert forall i :: 0 <= i < |tail| ==> tail[i] == ops[n + 1 + i];
  }

  lemma {:induction false} NamedWrites(prev: seq<Shown>, next: seq<Shown>, cursor: nat, run: nat)
    requires AllNamed(next)
    ensures WrittenNamed(DiffFrom(prev, next, cursor, run))
  {
    if next != [] {
      var j := At(prev, KeyOf(next[0]));
      if j >= 0 && prev[j] == next[0] && j == cursor + run {
        NamedWrites(prev, next[1..], cursor, run + 1);
      } else {
        var cursor' := if j >= 0 then j + 1 else cursor + run;
        NamedWrites(prev, next[1..], cursor', 0);
        WrittenNamedSplit(run, next[0], DiffFrom(prev, next[1..], cursor', 0));
      }
    }
  }

  /**
   The delta between two lists read on the first is the second, if and only if the entries it
   writes whole have names.
   */
  lemma ListRoundTrip(prev: seq<Shown>, next: seq<Shown>)
    requires Distinct(prev)
    ensures ApplyList(prev, DiffFrom(prev, next, 0, 0)) == Ok(next) <==> WrittenNamed(DiffFrom(prev, next, 0, 0))
    ensures AllNamed(next) ==> ApplyList(prev, DiffFrom(prev, next, 0, 0)) == Ok(next)
  {
    DiffApplies(prev, next, 0, 0, 0);
    assert prev[0..0] + next == next;
    if AllNamed(next) {
      NamedWrites(prev, next, 0, 0);
    }
  }

  lemma AtPlace(list: seq<Shown>, i: nat)
    requires Distinct(list) && i < |list|
    ensures At(list, KeyOf(list[i])) == i
  {
    AtFinds(list, KeyOf(list[i]));
    var j := At(list, KeyOf(list[i]));
    assert j >= 0 && KeyOf(list[j]) == KeyOf(list[i]);
  }

  lemma {:induction false} StandingIsKept(prev: seq<Shown>, i: nat, rest: seq<Shown>)
    requires Distinct(prev) && i <= |prev| && rest == prev[i..]
    ensures DiffFrom(prev, rest, 0, i) == Flush(|prev|)
    decreases |rest|
  {
    if rest != [] {
      AtPlace(prev, i);
      StandingIsKept(prev, i + 1, rest[1..]);
    }
  }

  /** What did not move is not written again: a list as it was is one keep. */
  lemma UnchangedIsOneKeep(prev: seq<Shown>)
    requires Distinct(prev)
    ensures DiffFrom(prev, prev, 0, 0) == Flush(|prev|)
  {
    StandingIsKept(prev, 0, prev);
  }

  /** An entry without a name that moved is written whole, and the reader refuses it. */
  lemma NamelessIsRefused()
    ensures var e := Shown("user", "", "h", 1, "");
            ApplyList([], DiffFrom([], [e], 0, 0)) == Err(NoName(0))
  {
    var e := Shown("user", "", "h", 1, "");
    assert [e][1..] == [];
    assert DiffFrom([], [e], 0, 0) == [Op(0, Some(e))];
  }

  /******* Exactly what a delta writes, and exactly what a reader takes *******/

  /** The entries that do not stand in the previous list where the ones before them left off. */
  function Moved(prev: seq<Shown>, next: seq<Shown>, cursor: nat): seq<Shown> {
    if next == [] then []
    else
      var e, j := next[0], At(prev, KeyOf(next[0]));
      if j == cursor && prev[j] == e then Moved(prev, next[1..], cursor + 1)
      else [e] + Moved(prev, next[1..], if j >= 0 then j + 1 else cursor)
  }

  /** The entries a delta writes whole. */
  function WrittenOf(ops: seq<Op>): seq<Shown> {
    if ops == [] then []
    else (if ops[0].entry.Some? then [ops[0].entry.value] else []) + WrittenOf(ops[1..])
  }

  lemma WrittenFirst(op: Op, ops: seq<Op>)
    ensures WrittenOf([op] + ops) == (if op.entry.Some? then [op.entry.value] else []) + WrittenOf(ops)
  {
    assert ([op] + ops)[1..] == ops;
  }

  lemma WrittenFlush(run: nat, ops: seq<Op>)
    ensures WrittenOf(Flush(run) + ops) == WrittenOf(ops)
  {
    if run > 0 {
      WrittenFirst(Op(run, None), ops);
      assert [] + WrittenOf(ops) == WrittenOf(ops);
    } else {
      assert Flush(run) + ops == ops;
    }
  }

  lemma WrittenNext(run: nat, e: Shown, tail: seq<Op>)
    ensures WrittenOf(Flush(run) + [Op(0, Some(e))] + tail) == [e] + WrittenOf(tail)
  {
    assert Flush(run) + [Op(0, Some(e))] + tail == Flush(run) + ([Op(0, Some(e))] + tail);
    WrittenFlush(run, [Op(0, Some(e))] + tail);
    WrittenFirst(Op(0, Some(e)), tail);
  }

  /** A delta writes whole exactly the entries that moved or changed, in order, and keeps the others. */
  lemma {:induction false} WritesMoved(prev: seq<Shown>, next: seq<Shown>, cursor: nat, run: nat)
    ensures WrittenOf(DiffFrom(prev, next, cursor, run)) == Moved(prev, next, cursor + run)
  {
    if next == [] {
      WrittenFlush(run, []);
      assert Flush(run) + [] == Flush(run);
    } else {
      var j := At(prev, KeyOf(next[0]));
      if j >= 0 && prev[j] == next[0] && j == cursor + run {
        WritesMoved(prev, next[1..], cursor, run + 1);
      } else {
        var cursor' := if j >= 0 then j + 1 else cursor + run;
        WritesMoved(prev, next[1..], cursor', 0);
        DiffWrites(prev, next, cursor, run, cursor');
        WrittenNext(run, next[0], DiffFrom(prev, next[1..], cursor', 0));
      }
    }
  }

  /** Where the reader stands in the previous list after the first `n` elements. */
  function CursorAt(prev: seq<Shown>, ops: seq<Op>, n: nat): int
    requires n <= |ops|
  {
    if n == 0 then 0
    else match ops[n - 1]
      case Op(_, Some(e)) => if At(prev, KeyOf(e)) >= 0 then At(prev, KeyOf(e)) + 1 else CursorAt(prev, ops, n - 1)
      case Op(keep, None) => CursorAt(prev, ops, n - 1) + keep
  }

  /** An element a reader takes: an entry with a name and no keep, or a keep of entries that are there. */
  predicate WellPlaced(prev: seq<Shown>, ops: seq<Op>, i: nat)
    requires i < |ops|
  {
    match ops[i]
    case Op(keep, Some(e)) => keep == 0 && e.scope != "" && e.name != ""
    case Op(keep, None) => 0 < keep <= |prev| - CursorAt(prev, ops, i)
  }

  lemma ApplyStep(prev: seq<Shown>, ops: seq<Op>, n: nat, cursor: nat)
    requires n < |ops| && cursor == CursorAt(prev, ops, n) && cursor <= |prev|
    ensures !WellPlaced(prev, ops, n) ==> ApplyFrom(prev, ops[n..], cursor, n).Err?
    ensures WellPlaced(prev, ops, n) ==>
              var next := CursorAt(prev, ops, n + 1);
              && 0 <= next <= |prev|
              && (ApplyFrom(prev, ops[n..], cursor, n).Ok? <==> ApplyFrom(prev, ops[n + 1..], next, n + 1).Ok?)
  {
    assert ops[n..][0] == ops[n] && ops[n..][1..] == ops[n + 1..];
  }

  lemma {:induction false} WellPlacedFrom(prev: seq<Shown>, ops: seq<Op>, n: nat, cursor: nat)
    requires n <= |ops| && cursor == CursorAt(prev, ops, n) && cursor <= |prev|
    ensures ApplyFrom(prev, ops[n..], cursor, n).Ok? <==> forall i :: n <= i < |ops| ==> WellPlaced(prev, ops, i)
    decreases |ops| - n
  {
    if n == |ops| {
      assert ops[n..] == [];
    } else {
      ApplyStep(prev, ops, n, cursor);
      if WellPlaced(prev, ops, n) {
        WellPlacedFrom(prev, ops, n + 1, CursorAt(prev, ops, n + 1));
      }
    }
  }

  /** A delta is read if and only if the list names no entry twice and every element of it can be taken. */
  lemma ReadsWellPlaced(prev: seq<Shown>, ops: seq<Op>)
    ensures ApplyList(prev, ops).Ok? <==> Distinct(prev) && forall i :: 0 <= i < |ops| ==> WellPlaced(prev, ops, i)
  {
    assert ops[0..] == ops;
    WellPlacedFrom(prev, ops, 0, 0);
  }
}

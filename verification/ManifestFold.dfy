/** Manifests as a session records them (render.go): their identity, the record on an earlier one, and the fold. */
module ManifestFold {
  import opened Common
  import opened Text
  import opened Memory
  import opened Manifests

  /******* Identity *******/

  // The fields every line has, and what follows them.
  function Fields(e: Shown, tail: string): string {
    e.scope + "/" + (e.name + " " + (e.hash + " " + (Itoa(e.bytes) + tail)))
  }

  function ShownLine(e: Shown): string {
    "+ " + Fields(e, "\n")
  }

  function OmittedLine(e: Shown): string {
    "- " + Fields(e, " " + (e.reason + "\n"))
  }

  lemma Join(a: string, b: string, c: string)
    ensures a + (b + c) == a + b + c
  {
  }

  lemma FieldsAppend(e: Shown, tail: string, x: string)
    ensures Fields(e, tail) + x == Fields(e, tail + x)
  {
    var n := Itoa(e.bytes);
    Join(n, tail, x);
    Join(e.hash + " ", n + tail, x);
    Join(e.name + " ", e.hash + " " + (n + tail), x);
    Join(e.scope + "/", e.name + " " + (e.hash + " " + (n + tail)), x);
  }

  function DigestText(m: Manifest): string
    decreases |m.entries| + |m.omitted|
  {
    if m.entries != [] then ShownLine(m.entries[0]) + DigestText(m.(entries := m.entries[1..]))
    else if m.omitted != [] then OmittedLine(m.omitted[0]) + DigestText(m.(omitted := m.omitted[1..]))
    else if m.leftOut then "x block\n"
    else ""
  }

  /** The lines by their characters. */
  lemma LineReads(e: Shown) returns (bytes: string)
    ensures Numeral(bytes, e.bytes)
    ensures ShownLine(e) == "+ " + (e.scope + "/" + (e.name + " " + (e.hash + " " + (bytes + "\n"))))
    ensures OmittedLine(e) ==
            "- " + (e.scope + "/" + (e.name + " " + (e.hash + " " + (bytes + (" " + (e.reason + "\n"))))))
  {
    bytes := Itoa(e.bytes);
    ItoaReads(e.bytes);
  }

  function Digest(hash: string -> string, m: Manifest): string {
    hash(DigestText(m))
  }

  method ComputeDigest(hash: string -> string, m: Manifest) returns (h: string)
    ensures h == Digest(hash, m)
  {
    var b := WriteShown(m);
    var t := WriteOmitted(m.omitted, m.leftOut);
    h := hash(b + t);
  }

  method WriteShown(m: Manifest) returns (b: string)
    ensures b + DigestText(m.(entries := [])) == DigestText(m)
  {
    b := "";
    assert m.(entries := m.entries[0..]) == m;
    for i := 0 to |m.entries|
      invariant b + DigestText(m.(entries := m.entries[i..])) == DigestText(m)
    {
      ShownFirst(m, i);
      Join(b, ShownLine(m.entries[i]), DigestText(m.(entries := m.entries[i + 1..])));
      b := b + ShownLine(m.entries[i]);
    }
    assert m.entries[|m.entries|..] == [];
  }

  method WriteOmitted(list: seq<Shown>, leftOut: bool) returns (b: string)
    ensures b == DigestText(Manifest([], list, leftOut))
  {
    b := "";
    assert list[0..] == list;
    for i := 0 to |list|
      invariant b + DigestText(Manifest([], list[i..], leftOut)) == DigestText(Manifest([], list, leftOut))
    {
      OmittedFirst(list, i, leftOut);
      Join(b, OmittedLine(list[i]), DigestText(Manifest([], list[i + 1..], leftOut)));
      b := b + OmittedLine(list[i]);
    }
    assert list[|list|..] == [];
    b := b + if leftOut then "x block\n" else "";
  }

  lemma ShownFirst(m: Manifest, i: nat)
    requires i < |m.entries|
    ensures DigestText(m.(entries := m.entries[i..])) ==
            ShownLine(m.entries[i]) + DigestText(m.(entries := m.entries[i + 1..]))
  {
    assert m.entries[i..][1..] == m.entries[i + 1..];
  }

  lemma OmittedFirst(list: seq<Shown>, i: nat, leftOut: bool)
    requires i < |list|
    ensures DigestText(Manifest([], list[i..], leftOut)) ==
            OmittedLine(list[i]) + DigestText(Manifest([], list[i + 1..], leftOut))
  {
    assert list[i..][1..] == list[i + 1..];
  }

  /** The fields keep to what their separators allow, as names, digests and reasons do. */
  predicate Wellformed(e: Shown) {
    '/' !in e.scope && ' ' !in e.name && ' ' !in e.hash && '\n' !in e.reason
  }

  ghost predicate WellformedManifest(m: Manifest) {
    && (forall i :: 0 <= i < |m.entries| ==> Wellformed(m.entries[i]))
    && (forall i :: 0 <= i < |m.omitted| ==> Wellformed(m.omitted[i]))
  }

  function WithoutReason(e: Shown): Shown {
    e.(reason := "")
  }

  /** What the digest sees: a shown entry's reason is not written. */
  function Seen(m: Manifest): Manifest {
    m.(entries := seq(|m.entries|, i requires 0 <= i < |m.entries| => WithoutReason(m.entries[i])))
  }

  lemma SplitFields(a: Shown, x: string, b: Shown, y: string, c: char)
    requires Wellformed(a) && Wellformed(b) && (c == '\n' || c == ' ')
    requires Fields(a, [c] + x) == Fields(b, [c] + y)
    ensures WithoutReason(a) == WithoutReason(b) && x == y
  {
    var n, k := Itoa(a.bytes), Itoa(b.bytes);
    ItoaChars(a.bytes);
    ItoaChars(b.bytes);
    Join(n, [c], x);
    Join(k, [c], y);
    SplitUnique(a.scope, a.name + " " + (a.hash + " " + (n + [c] + x)), b.scope,
      b.name + " " + (b.hash + " " + (k + [c] + y)), '/');
    SplitUnique(a.name, a.hash + " " + (n + [c] + x), b.name, b.hash + " " + (k + [c] + y), ' ');
    SplitUnique(a.hash, n + [c] + x, b.hash, k + [c] + y, ' ');
    SplitUnique(n, x, k, y, c);
    ItoaInjective(a.bytes, b.bytes);
  }

  lemma SamePrefix(p: string, s: string, t: string)
    requires p + s == p + t
    ensures s == t
  {
    assert (p + s)[|p|..] == s && (p + t)[|p|..] == t;
  }

  lemma ShownLineUnique(a: Shown, x: string, b: Shown, y: string)
    requires Wellformed(a) && Wellformed(b) && ShownLine(a) + x == ShownLine(b) + y
    ensures WithoutReason(a) == WithoutReason(b) && x == y
  {
    Join("+ ", Fields(a, "\n"), x);
    Join("+ ", Fields(b, "\n"), y);
    SamePrefix("+ ", Fields(a, "\n") + x, Fields(b, "\n") + y);
    FieldsAppend(a, "\n", x);
    FieldsAppend(b, "\n", y);
    SplitFields(a, x, b, y, '\n');
  }

  lemma OmittedLineUnique(a: Shown, x: string, b: Shown, y: string)
    requires Wellformed(a) && Wellformed(b) && OmittedLine(a) + x == OmittedLine(b) + y
    ensures a == b && x == y
  {
    var s, t := a.reason + "\n", b.reason + "\n";
    Join("- ", Fields(a, " " + s), x);
    Join("- ", Fields(b, " " + t), y);
    SamePrefix("- ", Fields(a, " " + s) + x, Fields(b, " " + t) + y);
    FieldsAppend(a, " " + s, x);
    FieldsAppend(b, " " + t, y);
    Join(" ", s, x);
    Join(" ", t, y);
    SplitFields(a, s + x, b, t + y, ' ');
    SplitUnique(a.reason, x, b.reason, y, '\n');
  }

  // The first byte of the text says what comes next.
  function Kind(m: Manifest): string {
    if m.entries != [] then "+" else if m.omitted != [] then "-" else if m.leftOut then "x" else ""
  }

  lemma KindShows(m: Manifest)
    ensures var t := DigestText(m); Kind(m) == if t == "" then "" else [t[0]]
  {
    if m.entries != [] {
      assert DigestText(m)[0] == ShownLine(m.entries[0])[0] == '+';
    } else if m.omitted != [] {
      assert DigestText(m)[0] == OmittedLine(m.omitted[0])[0] == '-';
    }
  }

  /** Manifests digest the same text exactly when they show and omit the same, but for the reasons of shown entries. */
  lemma {:induction false} DigestTextInjective(m: Manifest, n: Manifest)
    requires WellformedManifest(m) && WellformedManifest(n)
    ensures DigestText(m) == DigestText(n) <==> Seen(m) == Seen(n)
    decreases |m.entries| + |m.omitted|
  {
    if DigestText(m) == DigestText(n) {
      SameTextSameSeen(m, n);
    }
    if Seen(m) == Seen(n) {
      SameSeenSameText(m, n);
    }
  }

  lemma {:induction false} SameTextSameSeen(m: Manifest, n: Manifest)
    requires WellformedManifest(m) && WellformedManifest(n) && DigestText(m) == DigestText(n)
    ensures Seen(m) == Seen(n)
    decreases |m.entries| + |m.omitted|
  {
    KindShows(m);
    KindShows(n);
    if m.entries != [] {
      var m', n' := m.(entries := m.entries[1..]), n.(entries := n.entries[1..]);
      ShownLineUnique(m.entries[0], DigestText(m'), n.entries[0], DigestText(n'));
      SameTextSameSeen(m', n');
      SeenFirst(m);
      SeenFirst(n);
      assert Seen(m) == Seen(n);
    } else if m.omitted != [] {
      var m', n' := m.(omitted := m.omitted[1..]), n.(omitted := n.omitted[1..]);
      OmittedLineUnique(m.omitted[0], DigestText(m'), n.omitted[0], DigestText(n'));
      SameTextSameSeen(m', n');
      SeenOmitted(m, n, m', n');
    }
  }

  lemma SeenOmitted(m: Manifest, n: Manifest, m': Manifest, n': Manifest)
    requires m.entries == [] && n.entries == [] && m.omitted != [] && n.omitted != [] && m.omitted[0] == n.omitted[0]
    requires m' == m.(omitted := m.omitted[1..]) && n' == n.(omitted := n.omitted[1..]) && Seen(m') == Seen(n')
    ensures Seen(m) == Seen(n)
  {
    assert Seen(m').omitted == Seen(n').omitted;
    assert m.omitted == [m.omitted[0]] + m'.omitted && n.omitted == [n.omitted[0]] + n'.omitted;
  }

  lemma SeenFirst(m: Manifest)
    requires m.entries != []
    ensures Seen(m).entries == [WithoutReason(m.entries[0])] + Seen(m.(entries := m.entries[1..])).entries
  {
  }

  lemma {:induction false} SameSeenSameText(m: Manifest, n: Manifest)
    requires Seen(m) == Seen(n)
    ensures DigestText(m) == DigestText(n)
    decreases |m.entries|
  {
    assert |m.entries| == |Seen(m).entries| == |n.entries|;
    if m.entries != [] {
      var m', n' := m.(entries := m.entries[1..]), n.(entries := n.entries[1..]);
      SeenFirst(m);
      SeenFirst(n);
      assert Seen(m').entries == Seen(m).entries[1..] && Seen(n').entries == Seen(n).entries[1..];
      SameSeenSameText(m', n');
      assert Seen(m).entries[0] == Seen(n).entries[0];
    } else {
      assert m == n;
    }
  }

  /** Two manifests that differ in the reason of a shown entry alone digest the same text. */
  lemma ShownReasonIsNotDigested(e: Shown, reason: string)
    requires e.reason != reason
    ensures var m, n := Manifest([e], [], false), Manifest([e.(reason := reason)], [], false);
            m != n && DigestText(m) == DigestText(n)
  {
    var m, n := Manifest([e], [], false), Manifest([e.(reason := reason)], [], false);
    assert m.entries[0] != n.entries[0];
    assert Seen(m).entries == Seen(n).entries;
    SameSeenSameText(m, n);
  }

  /** So the digest tells well-formed manifests apart when their shown entries carry no reason. */
  lemma DigestInjective(hash: string -> string, m: Manifest, n: Manifest)
    requires Sound(hash) && WellformedManifest(m) && WellformedManifest(n)
    requires forall i :: 0 <= i < |m.entries| ==> m.entries[i].reason == ""
    requires forall i :: 0 <= i < |n.entries| ==> n.entries[i].reason == ""
    requires Digest(hash, m) == Digest(hash, n)
    ensures m == n
  {
    DigestTextInjective(m, n);
    assert Seen(m).entries == m.entries && Seen(n).entries == n.entries;
  }

  /******* One record on another *******/

  function DeltaOn(hash: string -> string, prev: Manifest, m: Manifest): Delta {
    Delta(Digest(hash, prev), Digest(hash, m),
          DiffFrom(prev.entries, m.entries, 0, 0), DiffFrom(prev.omitted, m.omitted, 0, 0), m.leftOut)
  }

  predicate Deltable(prev: Manifest, m: Manifest) {
    && !m.leftOut && !prev.leftOut
    && Distinct(prev.entries) && Distinct(m.entries) && Distinct(prev.omitted) && Distinct(m.omitted)
  }

  /** `RecordSince`: the delta where there can be one and it is smaller, else the whole. */
  function RecordSince(hash: string -> string, codec: Codec, prev: Manifest, m: Manifest): Record {
    if Deltable(prev, m) && |codec.enc(Since(DeltaOn(hash, prev, m)))| < |codec.enc(Whole(m))|
    then Since(DeltaOn(hash, prev, m))
    else Whole(m)
  }

  /** The shorter of the whole record and, where there can be one, the delta; the whole one of two as long. */
  lemma SinceIsShorter(hash: string -> string, codec: Codec, prev: Manifest, m: Manifest)
    ensures var r, whole, delta := RecordSince(hash, codec, prev, m), Whole(m), Since(DeltaOn(hash, prev, m));
            var can := !m.leftOut && !prev.leftOut && Distinct(prev.entries) && Distinct(m.entries) &&
                       Distinct(prev.omitted) && Distinct(m.omitted);
            && (r == whole || (r == delta && can)) && |codec.enc(r)| <= |codec.enc(whole)|
            && (can ==> |codec.enc(r)| <= |codec.enc(delta)|)
            && (|codec.enc(r)| == |codec.enc(whole)| ==> r == whole)
  {
  }

  method WriteRecordSince(hash: string -> string, codec: Codec, prev: Manifest, m: Manifest) returns (data: string)
    ensures data == codec.enc(RecordSince(hash, codec, prev, m))
  {
    var whole := codec.enc(Whole(m));
    if m.leftOut || prev.leftOut {
      return whole;
    }
    var entries, ok1 := Diff(prev.entries, m.entries);
    var omitted, ok2 := Diff(prev.omitted, m.omitted);
    if !ok1 || !ok2 {
      return whole;
    }
    var base := ComputeDigest(hash, prev);
    var h := ComputeDigest(hash, m);
    var delta := codec.enc(Since(Delta(base, h, entries, omitted, m.leftOut)));
    if |delta| >= |whole| {
      return whole;
    }
    return delta;
  }

  function ApplyDelta(hash: string -> string, m: Manifest, d: Delta): Result<Manifest, Refusal> {
    match ApplyList(m.entries, d.entries)
    case Err(e) => Err(e)
    case Ok(entries) =>
      match ApplyList(m.omitted, d.omitted)
      case Err(e) => Err(e)
      case Ok(omitted) =>
        var out := Manifest(entries, omitted, d.dropped);
        if Digest(hash, out) == d.hash then Ok(out) else Err(WrongHash)
  }

  method FoldDelta(hash: string -> string, m: Manifest, d: Delta) returns (r: Result<Manifest, Refusal>)
    ensures r == ApplyDelta(hash, m, d)
  {
    var entries := Apply(m.entries, d.entries);
    if entries.Err? {
      return Err(entries.error);
    }
    var omitted := Apply(m.omitted, d.omitted);
    if omitted.Err? {
      return Err(omitted.error);
    }
    var out := Manifest(entries.value, omitted.value, d.dropped);
    var got := ComputeDigest(hash, out);
    return if got == d.hash then Ok(out) else Err(WrongHash);
  }

  /** `ApplyManifestRecord`: a whole record is its manifest; a delta must be based on the one in force. */
  function ApplyRecord(hash: string -> string, codec: Codec, m: Manifest, data: string): Result<Manifest, Refusal> {
    match codec.dec(data)
    case None => Err(Malformed)
    case Some(Whole(w)) => Ok(w)
    case Some(Since(d)) => if d.base != Digest(hash, m) then Err(WrongBase) else ApplyDelta(hash, m, d)
  }

  /** Entries that a delta would write whole have names. */
  ghost predicate Writes(prev: Manifest, m: Manifest) {
    WrittenNamed(DiffFrom(prev.entries, m.entries, 0, 0)) && WrittenNamed(DiffFrom(prev.omitted, m.omitted, 0, 0))
  }

  ghost predicate NamedManifest(m: Manifest) {
    AllNamed(m.entries) && AllNamed(m.omitted)
  }

  lemma DeltaRoundTrip(hash: string -> string, prev: Manifest, m: Manifest)
    requires Deltable(prev, m)
    ensures ApplyDelta(hash, prev, DeltaOn(hash, prev, m)) == Ok(m) <==> Writes(prev, m)
    ensures NamedManifest(m) ==> Writes(prev, m)
  {
    ListRoundTrip(prev.entries, m.entries);
    ListRoundTrip(prev.omitted, m.omitted);
    if NamedManifest(m) {
      NamedWrites(prev.entries, m.entries, 0, 0);
      NamedWrites(prev.omitted, m.omitted, 0, 0);
    }
  }

  /**
   A record written on a manifest and read on that manifest gives back what was recorded,
   whether it came out whole or as a delta, unless it is a delta that writes a nameless entry.
   */
  lemma SinceRoundTrip(hash: string -> string, codec: Codec, prev: Manifest, m: Manifest)
    requires Carries(codec, RecordSince(hash, codec, prev, m))
    ensures var r := RecordSince(hash, codec, prev, m);
            ApplyRecord(hash, codec, prev, codec.enc(r)) == Ok(m) <==> r.Whole? || Writes(prev, m)
    ensures NamedManifest(m) ==> ApplyRecord(hash, codec, prev, codec.enc(RecordSince(hash, codec, prev, m))) == Ok(m)
  {
    if Deltable(prev, m) {
      DeltaRoundTrip(hash, prev, m);
    }
  }

  /******* The manifests last in force *******/

  const Depth := 8

  /** The identity of a manifest. */
  function Identity(hash: string -> string): Manifest -> string {
    m => Digest(hash, m)
  }

  /** Read the history from its end and take the first `n` manifests not met before. */
  function Latest(id: Manifest -> string, history: seq<Manifest>, met: set<string>, n: nat): seq<Manifest> {
    if n == 0 || history == [] then []
    else
      var front, m := history[..|history| - 1], history[|history| - 1];
      if id(m) in met then Latest(id, front, met, n)
      else [m] + Latest(id, front, met + {id(m)}, n - 1)
  }

  function Window(id: Manifest -> string, history: seq<Manifest>): seq<Manifest> {
    Latest(id, history, {}, Depth)
  }

  lemma {:induction false} LatestDiffer(id: Manifest -> string, history: seq<Manifest>, met: set<string>, n: nat)
    ensures var w := Latest(id, history, met, n);
            && |w| <= n
            && (forall i :: 0 <= i < |w| ==> id(w[i]) !in met)
            && (forall i, j :: 0 <= i < j < |w| ==> id(w[i]) != id(w[j]))
  {
    if n > 0 && history != [] {
      var front, m := history[..|history| - 1], history[|history| - 1];
      if id(m) in met {
        LatestDiffer(id, front, met, n);
      } else {
        LatestDiffer(id, front, met + {id(m)}, n - 1);
      }
    }
  }

  function Without(id: Manifest -> string, w: seq<Manifest>, h: string): seq<Manifest> {
    if w == [] then [] else if id(w[0]) == h then w[1..] else [w[0]] + Without(id, w[1..], h)
  }

  lemma {:induction false} WithoutNone(id: Manifest -> string, w: seq<Manifest>, h: string)
    requires forall i :: 0 <= i < |w| ==> id(w[i]) != h
    ensures Without(id, w, h) == w
  {
    if w != [] {
      WithoutNone(id, w[1..], h);
    }
  }

  function Take(w: seq<Manifest>, n: nat): seq<Manifest> {
    if |w| <= n then w else w[..n]
  }

  /** What moving to the front does to the rest: it is as if the moved one had been met already. */
  lemma {:induction false} LatestWithout(id: Manifest -> string, history: seq<Manifest>, met: set<string>, n: nat,
                                         h: string)
    requires h !in met
    ensures Latest(id, history, met + {h}, n) == Take(Without(id, Latest(id, history, met, n + 1), h), n)
  {
    if n > 0 && history != [] {
      var front, m := history[..|history| - 1], history[|history| - 1];
      var x := id(m);
      if x in met {
        LatestWithout(id, front, met, n, h);
      } else if x == h {
        LatestDiffer(id, front, met + {h}, n);
        var w := Latest(id, front, met + {h}, n);
        assert ([m] + w)[1..] == w;
      } else {
        LatestWithout(id, front, met + {x}, n - 1, h);
        assert met + {x} + {h} == met + {h} + {x};
        var w := Latest(id, front, met + {x}, n);
        assert ([m] + w)[1..] == w;
      }
    }
  }

  /** `push`: to the front, out of its old place, and the oldest past the depth dropped. */
  function Pushed(id: Manifest -> string, w: seq<Manifest>, m: Manifest): seq<Manifest> {
    Take([m] + Without(id, w, id(m)), Depth)
  }

  /** Pushing keeps the window the manifests last in force. */
  lemma PushKeepsWindow(id: Manifest -> string, history: seq<Manifest>, m: Manifest)
    ensures Pushed(id, Window(id, history), m) == Window(id, history + [m])
  {
    var h := id(m);
    assert (history + [m])[..|history|] == history;
    LatestWithout(id, history, {}, Depth - 1, h);
    assert {} + {h} == {h};
  }

  /******* The fold *******/

  function Digests(id: Manifest -> string, w: seq<Manifest>): (r: seq<string>)
    ensures |r| == |w| && forall i :: 0 <= i < |w| ==> r[i] == id(w[i])
  {
    seq(|w|, i requires 0 <= i < |w| => id(w[i]))
  }

  /** `slices.Index`. */
  function IndexOf(hashes: seq<string>, h: string): (i: int)
    ensures i == -1 || (0 <= i < |hashes| && hashes[i] == h && forall j :: 0 <= j < i ==> hashes[j] != h)
    ensures i == -1 ==> h !in hashes
  {
    if hashes == [] then -1
    else if hashes[0] == h then 0
    else var i := IndexOf(hashes[1..], h); if i < 0 then -1 else i + 1
  }

  function Deleted<T>(s: seq<T>, i: nat): seq<T>
    requires i < |s|
  {
    s[..i] + s[i + 1..]
  }

  lemma {:induction false} WithoutAt(id: Manifest -> string, w: seq<Manifest>, h: string, i: nat)
    requires i < |w| && id(w[i]) == h
    requires forall j :: 0 <= j < i ==> id(w[j]) != h
    ensures Without(id, w, h) == Deleted(w, i)
  {
    if i > 0 {
      WithoutAt(id, w[1..], h, i - 1);
      assert Deleted(w, i) == [w[0]] + Deleted(w[1..], i - 1);
    }
  }

  lemma DeleteIsWithout(id: Manifest -> string, w: seq<Manifest>, h: string)
    ensures var i := IndexOf(Digests(id, w), h);
            Without(id, w, h) == if i < 0 then w else Deleted(w, i)
  {
    var i := IndexOf(Digests(id, w), h);
    if i < 0 {
      assert forall j :: 0 <= j < |w| ==> Digests(id, w)[j] != h;
      WithoutNone(id, w, h);
    } else {
      WithoutAt(id, w, h, i);
    }
  }

  // A list with `x` at its front, out of place `i` if that is one, within the depth.
  function ToFront<T>(s: seq<T>, i: int, x: T): seq<T>
    requires i < |s|
  {
    var t := [x] + if i < 0 then s else Deleted(s, i);
    if |t| > Depth then t[..Depth] else t
  }

  lemma ToFrontDigests(id: Manifest -> string, w: seq<Manifest>, i: int, m: Manifest)
    requires i < |w|
    ensures Digests(id, ToFront(w, i, m)) == ToFront(Digests(id, w), i, id(m))
  {
  }

  /** The manifest a record puts in force after a history, or why it is refused. */
  function Resolve(hash: string -> string, codec: Codec, history: seq<Manifest>, data: string)
    : Result<Manifest, Refusal>
  {
    match codec.dec(data)
    case None => Err(Malformed)
    case Some(Whole(m)) => Ok(m)
    case Some(Since(d)) =>
      var w := Window(Identity(hash), history);
      var i := IndexOf(Digests(Identity(hash), w), d.base);
      if i >= 0 then ApplyDelta(hash, w[i], d)
      else if history == [] && d.base == Digest(hash, Nothing) then ApplyDelta(hash, Nothing, d)
      else Err(WrongBase)
  }

  /** The manifests in force one after another along the records of a session; a refused record puts none in force. */
  function Extended(hash: string -> string, codec: Codec, history: seq<Manifest>, data: string): seq<Manifest> {
    match Resolve(hash, codec, history, data) case Ok(m) => history + [m] case Err(_) => history
  }

  function History(hash: string -> string, codec: Codec, records: seq<string>): seq<Manifest> {
    if records == [] then []
    else Extended(hash, codec, History(hash, codec, records[..|records| - 1]), records[|records| - 1])
  }

  function InForce(history: seq<Manifest>): Manifest {
    if history == [] then Nothing else history[|history| - 1]
  }

  /**
   What a delta puts in force is what it says it is: it was written on a manifest of the
   window, or on nothing where the history is empty, and gives the manifest of its hash.
   */
  lemma DeltaIsChecked(hash: string -> string, codec: Codec, history: seq<Manifest>, data: string, d: Delta)
    requires codec.dec(data) == Some(Since(d)) && Resolve(hash, codec, history, data).Ok?
    ensures Digest(hash, Resolve(hash, codec, history, data).value) == d.hash
    ensures || (history == [] && d.base == Digest(hash, Nothing))
            || exists i :: 0 <= i < |Window(Identity(hash), history)| &&
                           Digest(hash, Window(Identity(hash), history)[i]) == d.base
  {
    var w := Window(Identity(hash), history);
    var i := IndexOf(Digests(Identity(hash), w), d.base);
    if i >= 0 {
      assert Digest(hash, w[i]) == d.base;
    }
  }

  lemma {:induction false} LatestOfFew(id: Manifest -> string, history: seq<Manifest>, met: set<string>, n: nat)
    requires |history| <= n && forall i :: 0 <= i < |history| ==> id(history[i]) !in met
    requires forall i, j :: 0 <= i < j < |history| ==> id(history[i]) != id(history[j])
    ensures |Latest(id, history, met, n)| == |history|
    ensures forall i :: 0 <= i < |history| ==> Latest(id, history, met, n)[i] == history[|history| - 1 - i]
  {
    if history != [] {
      var front, m := history[..|history| - 1], history[|history| - 1];
      LatestOfFew(id, front, met + {id(m)}, n - 1);
    }
  }

  /** The window holds eight manifests: of at most eight that differ all of them, the last first, and never more. */
  lemma WindowOfEight(id: Manifest -> string, history: seq<Manifest>)
    ensures |Window(id, history)| <= 8
    ensures |history| <= 8 && (forall i, j :: 0 <= i < j < |history| ==> id(history[i]) != id(history[j])) ==>
              && |Window(id, history)| == |history|
              && forall i :: 0 <= i < |history| ==> Window(id, history)[i] == history[|history| - 1 - i]
  {
    LatestDiffer(id, history, {}, Depth);
    if |history| <= 8 && forall i, j :: 0 <= i < j < |history| ==> id(history[i]) != id(history[j]) {
      LatestOfFew(id, history, {}, Depth);
    }
  }

  /** The records of a manifest on each other. */
  function Records(hash: string -> string, codec: Codec, m: Manifest): Manifest -> Record {
    base => RecordSince(hash, codec, base, m)
  }

  /** The least by encoded length of `whole` and the deltas on `bases`; `whole`, then the first base, among equals. */
  function Smallest(enc: Record -> string, since: Manifest -> Record, whole: Record, bases: seq<Manifest>): Record {
    if bases == [] then whole
    else
      var best := Smallest(enc, since, whole, bases[..|bases| - 1]);
      var r := since(bases[|bases| - 1]);
      if |enc(r)| < |enc(best)| then r else best
  }

  /** It is one of them: the whole record, or the record on the `i`th manifest. */
  lemma {:induction false} SmallestIs(enc: Record -> string, since: Manifest -> Record, whole: Record,
                                      bases: seq<Manifest>)
    returns (i: int)
    ensures var r := Smallest(enc, since, whole, bases);
            -1 <= i < |bases| && (if i < 0 then r == whole else r == since(bases[i]))
  {
    i := -1;
    if bases != [] {
      var n := |bases| - 1;
      i := SmallestIs(enc, since, whole, bases[..n]);
      if Smallest(enc, since, whole, bases) == since(bases[n]) {
        i := n;
      }
    }
  }

  /** And none of them is smaller. */
  lemma {:induction false} SmallestLeast(enc: Record -> string, since: Manifest -> Record, whole: Record,
                                         bases: seq<Manifest>, i: nat)
    requires i < |bases|
    ensures var r := Smallest(enc, since, whole, bases); |enc(r)| <= |enc(since(bases[i]))| && |enc(r)| <= |enc(whole)|
  {
    var n := |bases| - 1;
    if i < n {
      SmallestLeast(enc, since, whole, bases[..n], i);
    } else if n > 0 {
      SmallestLeast(enc, since, whole, bases[..n], n - 1);
    }
  }

  /** The record a fold that holds the window of a history writes of a manifest. */
  function FoldRecord(hash: string -> string, codec: Codec, history: seq<Manifest>, m: Manifest): Record {
    Smallest(codec.enc, Records(hash, codec, m), Whole(m), Window(Identity(hash), history))
  }

  class Fold {
    const hash: string -> string
    const codec: Codec
    var recent: seq<Manifest>
    var hashes: seq<string>
    ghost var history: seq<Manifest>

    /** The fold holds exactly the last distinct manifests in force. */
    ghost predicate Valid()
      reads this
    {
      recent == Window(Identity(hash), history) && hashes == Digests(Identity(hash), recent)
    }

    constructor (hash: string -> string, codec: Codec)
      ensures this.hash == hash && this.codec == codec && Valid() && history == []
    {
      this.hash, this.codec := hash, codec;
      recent, hashes, history := [], [], [];
    }

    method Push(m: Manifest, h: string)
      requires Valid() && h == Digest(hash, m)
      modifies this
      ensures Valid() && history == old(history) + [m]
    {
      var i := IndexOf(hashes, h);
      DeleteIsWithout(Identity(hash), recent, h);
      PushKeepsWindow(Identity(hash), history, m);
      ToFrontDigests(Identity(hash), recent, i, m);
      assert Pushed(Identity(hash), recent, m) == ToFront(recent, i, m);
      if i >= 0 {
        recent := Deleted(recent, i);
        hashes := Deleted(hashes, i);
      }
      recent := [m] + recent;
      hashes := [h] + hashes;
      if |recent| > Depth {
        recent := recent[..Depth];
        hashes := hashes[..Depth];
      }
      history := history + [m];
    }

    /** A record is folded as the history says, and a refused one leaves the fold as it was. */
    method Read(data: string) returns (refused: Option<Refusal>)
      requires Valid()
      modifies this
      ensures Valid() && history == Extended(hash, codec, old(history), data)
      ensures refused == match Resolve(hash, codec, old(history), data) case Ok(_) => None case Err(e) => Some(e)
      ensures refused.Some? ==> recent == old(recent) && hashes == old(hashes)
    {
      match codec.dec(data) {
        case None => return Some(Malformed);
        case Some(Whole(m)) =>
          var h := ComputeDigest(hash, m);
          Push(m, h);
          return None;
        case Some(Since(d)) =>
          var i := IndexOf(hashes, d.base);
          var empty := ComputeDigest(hash, Nothing);
          var base := Nothing;
          if i >= 0 {
            base := recent[i];
          } else if !(|recent| == 0 && d.base == empty) {
            return Some(WrongBase);
          }
          var out := FoldDelta(hash, base, d);
          if out.Err? {
            return Some(out.error);
          }
          Push(out.value, d.hash);
          return None;
      }
    }

    method Current() returns (m: Manifest)
      requires Valid()
      ensures m == InForce(history)
    {
      m := if |recent| == 0 then Nothing else recent[0];
    }

    method Record(m: Manifest) returns (data: string)
      requires Valid()
      ensures data == codec.enc(FoldRecord(hash, codec, history, m))
    {
      data := codec.enc(Whole(m));
      ghost var since := Records(hash, codec, m);
      for i := 0 to |recent|
        invariant data == codec.enc(Smallest(codec.enc, since, Whole(m), recent[..i]))
      {
        var d := WriteRecordSince(hash, codec, recent[i], m);
        assert d == codec.enc(since(recent[i]));
        assert recent[..i + 1][..i] == recent[..i];
        if |d| < |data| {
          data := d;
        }
      }
      assert recent[..|recent|] == recent;
    }
  }

  /** Whatever records a session holds, a fold that reads them all holds the window of their history. */
  method ReadAll(f: Fold, records: seq<string>)
    requires f.Valid() && f.history == []
    modifies f
    ensures f.Valid() && f.history == History(f.hash, f.codec, records)
  {
    for i := 0 to |records|
      invariant f.Valid() && f.history == History(f.hash, f.codec, records[..i])
    {
      assert records[..i + 1][..i] == records[..i];
      var _ := f.Read(records[i]);
    }
    assert records[..|records|] == records;
  }

  // A manifest of the window is the one its identity finds.
  lemma WindowFinds(id: Manifest -> string, history: seq<Manifest>, i: nat)
    requires i < |Window(id, history)|
    ensures IndexOf(Digests(id, Window(id, history)), id(Window(id, history)[i])) == i
  {
    LatestDiffer(id, history, {}, Depth);
  }

  /**
   The record a fold writes is read by every fold of the same history and puts the manifest
   in force.
   */
  lemma RecordIsRead(hash: string -> string, codec: Codec, history: seq<Manifest>, m: Manifest)
    requires Carries(codec, FoldRecord(hash, codec, history, m)) && NamedManifest(m)
    ensures var data := codec.enc(FoldRecord(hash, codec, history, m));
            && Resolve(hash, codec, history, data) == Ok(m)
            && InForce(Extended(hash, codec, history, data)) == m
  {
    var w := Window(Identity(hash), history);
    var i := SmallestIs(codec.enc, Records(hash, codec, m), Whole(m), w);
    if i >= 0 {
      WindowFinds(Identity(hash), history, i);
      if Deltable(w[i], m) {
        DeltaRoundTrip(hash, w[i], m);
      }
    }
  }

  /** What a reader of the manifest in force alone accepts, the fold reads the same. */
  lemma FoldReadsMore(hash: string -> string, codec: Codec, history: seq<Manifest>, data: string)
    requires ApplyRecord(hash, codec, InForce(history), data).Ok?
    ensures Resolve(hash, codec, history, data) == ApplyRecord(hash, codec, InForce(history), data)
  {
    if history != [] {
      assert Window(Identity(hash), history)[0] == InForce(history);
      WindowFinds(Identity(hash), history, 0);
    }
  }
}

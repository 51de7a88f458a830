/**
 Entries, changes, names, the rules a store holds an entry to, and the options of a
 write (memory.go).  SHA-256 and UTF-8 validity are parameters; timestamps are left
 out, since they never order records.
 */
module Memory {
  import opened Common
  import opened Text

  /** What the model takes as given: the digest of a text, and which texts are valid UTF-8. */
  datatype Env = Env(hash: string -> string, utf8: string -> bool)

  /** A digest without collisions, never the empty string that stands for no entry. */
  ghost predicate Sound(hash: string -> string) {
    && (forall x, y :: hash(x) == hash(y) ==> x == y)
    && (forall x :: hash(x) != "")
  }

  datatype Key = Key(scope: string, name: string)

  datatype Entry = Entry(
    key: Key,
    content: string,
    meta: map<string, string>,
    hash: string,
    deleted: bool)

  /** One journal record; `prev` and `replaced` are hashes, "" for no entry. */
  datatype Change = Change(
    seqno: nat,
    entry: Entry,
    prev: string,
    replaced: string,
    session: string,
    source: string)

  const SourceReconciled := "reconciled"

  datatype Error =
    | NotFound
    | Invalid
    | TooLarge(size: nat, limit: int, stored: int)
    | Conflict(want: string, have: string, meta: bool)

  /******* Names *******/

  const MaxNameBytes := 64
  const MaxMetaBytes := 1024

  predicate NameChar(c: char) {
    'a' <= c <= 'z' || '0' <= c <= '9'
  }

  /** Kebab-case: no hyphen at either end or beside another, 1 to 64 bytes. */
  predicate ValidName(s: string) {
    && 0 < |s| <= 64
    && (forall i :: 0 <= i < |s| ==> 'a' <= s[i] <= 'z' || '0' <= s[i] <= '9' || s[i] == '-')
    && s[0] != '-' && s[|s| - 1] != '-'
    && (forall i :: 0 < i < |s| ==> s[i - 1] != '-' || s[i] != '-')
  }

  predicate ValidKey(k: Key) {
    ValidName(k.scope) && ValidName(k.name)
  }

  /** The one-pass check remembers only the byte before. */
  method CheckName(s: string) returns (ok: bool)
    ensures ok == ValidName(s)
  {
    if s == "" || |s| > MaxNameBytes {
      return false;
    }
    var prev := '-';
    for i := 0 to |s|
      invariant prev == if i == 0 then '-' else s[i - 1]
      invariant forall j :: 0 <= j < i ==> NameChar(s[j]) || s[j] == '-'
      invariant forall j :: 0 < j < i ==> s[j - 1] != '-' || s[j] != '-'
      invariant i > 0 ==> s[0] != '-'
    {
      var c := s[i];
      if !NameChar(c) && (c != '-' || prev == '-') {
        return false;
      }
      prev := c;
    }
    return prev != '-';
  }

  /** The text "scope/name" stands for one key only, since no name holds a slash. */
  lemma KeyTextInjective(a: Key, b: Key)
    requires ValidKey(a) && ValidKey(b)
    requires a.scope + "/" + a.name == b.scope + "/" + b.name
    ensures a == b
  {
    SplitUnique(a.scope, a.name, b.scope, b.name, '/');
  }

  /******* Metadata *******/

  predicate ReservedKey(k: string) {
    k == "name" || k == "updated"
  }

  predicate ValidField(env: Env, k: string, v: string) {
    ValidName(k) && !ReservedKey(k) && '\r' !in v && '\n' !in v && Trim(v) == v && env.utf8(v)
  }

  predicate ValidMeta(env: Env, meta: map<string, string>) {
    && (forall k :: k in meta ==> ValidField(env, k, meta[k]))
    && FieldBytes(meta, meta.Keys) <= 1024
  }

  function FieldBytes(meta: map<string, string>, keys: set<string>): nat
    requires keys <= meta.Keys
  {
    if keys == {} then 0 else
      var k := Least(keys);
      |k| + |meta[k]| + FieldBytes(meta, keys - {k})
  }

  /** The keys may be summed in any order. */
  lemma {:induction false} FieldBytesRemove(meta: map<string, string>, keys: set<string>, k: string)
    requires keys <= meta.Keys && k in keys
    ensures FieldBytes(meta, keys) == |k| + |meta[k]| + FieldBytes(meta, keys - {k})
    decreases keys
  {
    var l := Least(keys);
    if l != k {
      FieldBytesRemove(meta, keys - {l}, k);
      FieldBytesRemove(meta, keys - {k}, l);
      assert keys - {l} - {k} == keys - {k} - {l};
    }
  }

  /** The lines "key=value" of the keys, in order. */
  function MetaLines(keys: seq<string>, meta: map<string, string>): string
    requires forall k :: k in keys ==> k in meta
  {
    if keys == [] then "" else keys[0] + "=" + meta[keys[0]] + "\n" + MetaLines(keys[1..], meta)
  }

  /** `MetaHash`: the digest of the sorted lines, "" for no metadata. */
  function MetaHash(env: Env, meta: map<string, string>): string {
    if meta == map[] then "" else env.hash(MetaLines(Sorted(meta.Keys), meta))
  }

  method WriteMetaLines(keys: seq<string>, meta: map<string, string>) returns (text: string)
    requires forall k :: k in keys ==> k in meta
    ensures text == MetaLines(keys, meta)
  {
    text := "";
    for i := 0 to |keys|
      invariant text + MetaLines(keys[i..], meta) == MetaLines(keys, meta)
    {
      var line := keys[i] + "=" + meta[keys[i]] + "\n";
      assert keys[i..][1..] == keys[i + 1..];
      assert MetaLines(keys[i..], meta) == line + MetaLines(keys[i + 1..], meta);
      assert text + (line + MetaLines(keys[i + 1..], meta)) == text + line + MetaLines(keys[i + 1..], meta);
      text := text + line;
    }
    assert keys[|keys|..] == [];
  }

  method ComputeMetaHash(env: Env, meta: map<string, string>) returns (h: string)
    ensures h == MetaHash(env, meta) && (meta == map[] ==> h == "")
  {
    if |meta| == 0 {
      return "";
    }
    var text := WriteMetaLines(Sorted(meta.Keys), meta);
    return env.hash(text);
  }

  /** The lines say which keys they are of and what each key holds. */
  lemma {:induction false} MetaLinesInjective(ks: seq<string>, m: map<string, string>,
                                              ls: seq<string>, n: map<string, string>)
    requires forall k :: k in ks ==> k in m && '=' !in k && '\n' !in m[k]
    requires forall k :: k in ls ==> k in n && '=' !in k && '\n' !in n[k]
    requires MetaLines(ks, m) == MetaLines(ls, n)
    ensures ks == ls && forall k :: k in ks ==> m[k] == n[k]
  {
    if ks == [] || ls == [] {
    } else {
      var k, l := ks[0], ls[0];
      var restK, restL := MetaLines(ks[1..], m), MetaLines(ls[1..], n);
      assert MetaLines(ks, m) == k + ['='] + (m[k] + ['\n'] + restK);
      assert MetaLines(ls, n) == l + ['='] + (n[l] + ['\n'] + restL);
      SplitUnique(k, m[k] + ['\n'] + restK, l, n[l] + ['\n'] + restL, '=');
      SplitUnique(m[k], restK, n[l], restL, '\n');
      MetaLinesInjective(ks[1..], m, ls[1..], n);
    }
  }

  lemma NoEqualsInName(s: string)
    requires ValidName(s)
    ensures '=' !in s
  {
  }

  /** Two valid sets of metadata with one hash are one set of metadata. */
  lemma MetaHashInjective(env: Env, m: map<string, string>, n: map<string, string>)
    requires Sound(env.hash) && ValidMeta(env, m) && ValidMeta(env, n)
    requires MetaHash(env, m) == MetaHash(env, n)
    ensures m == n
  {
    if m != map[] && n != map[] {
      forall k | k in m ensures '=' !in k && '\n' !in m[k] { assert ValidField(env, k, m[k]); NoEqualsInName(k); }
      forall k | k in n ensures '=' !in k && '\n' !in n[k] { assert ValidField(env, k, n[k]); NoEqualsInName(k); }
      MetaTextInjective(m, n);
    }
  }

  lemma MetaTextInjective(m: map<string, string>, n: map<string, string>)
    requires forall k :: k in m ==> '=' !in k && '\n' !in m[k]
    requires forall k :: k in n ==> '=' !in k && '\n' !in n[k]
    requires MetaLines(Sorted(m.Keys), m) == MetaLines(Sorted(n.Keys), n)
    ensures m == n
  {
    MetaTextOf(m, Sorted(m.Keys), n, Sorted(n.Keys));
  }

  lemma MetaTextOf(m: map<string, string>, ks: seq<string>, n: map<string, string>, ls: seq<string>)
    requires (forall k :: k in ks <==> k in m) && (forall k :: k in ls <==> k in n)
    requires forall k :: k in m ==> '=' !in k && '\n' !in m[k]
    requires forall k :: k in n ==> '=' !in k && '\n' !in n[k]
    requires MetaLines(ks, m) == MetaLines(ls, n)
    ensures m == n
  {
    assert ks == ls && forall k :: k in ks ==> m[k] == n[k] by {
      MetaLinesInjective(ks, m, ls, n);
    }
    SameLists(m.Keys, ks, n.Keys, ls);
  }

  lemma SameLists(a: set<string>, s: seq<string>, b: set<string>, t: seq<string>)
    requires s == t && (forall k :: k in s <==> k in a) && (forall k :: k in t <==> k in b)
    ensures a == b
  {
  }

  /******* What a store refuses *******/

  function SizeOf(stored: Option<Entry>): int {
    match stored case None => -1 case Some(e) => |e.content|
  }

  /** `CheckEntry`: none, or why a store refuses the entry. */
  function CheckEntry(env: Env, e: Entry, limit: int, stored: Option<Entry>): Option<Error> {
    if !ValidKey(e.key) || e.content == "" || !env.utf8(e.content) || !ValidMeta(env, e.meta) then Some(Invalid)
    else if limit > 0 && |e.content| > limit then Some(TooLarge(|e.content|, limit, SizeOf(stored)))
    else None
  }

  method CheckField(env: Env, k: string, v: string) returns (ok: bool)
    ensures ok == ValidField(env, k, v)
    ensures ok <==>
              && ValidName(k) && k != "name" && k != "updated"
              && '\r' !in v && '\n' !in v && Trim(v) == v && env.utf8(v)
  {
    var keyOk := CheckName(k);
    ok := keyOk && !ReservedKey(k) && '\r' !in v && '\n' !in v && Trim(v) == v && env.utf8(v);
  }

  // The loop over the metadata, in any order.
  method CheckMeta(env: Env, meta: map<string, string>) returns (ok: bool)
    ensures ok == ValidMeta(env, meta)
  {
    var metaBytes := 0;
    var todo := meta.Keys;
    while todo != {}
      invariant todo <= meta.Keys
      invariant forall k :: k in meta && k !in todo ==> ValidField(env, k, meta[k])
      invariant metaBytes + FieldBytes(meta, todo) == FieldBytes(meta, meta.Keys)
      decreases todo
    {
      var k :| k in todo;
      var fieldOk := CheckField(env, k, meta[k]);
      if !fieldOk {
        return false;
      }
      FieldBytesRemove(meta, todo, k);
      metaBytes := metaBytes + |k| + |meta[k]|;
      todo := todo - {k};
    }
    return metaBytes <= MaxMetaBytes;
  }

  /** The check as the program runs it: one pass over the metadata, in any order. */
  method RunCheckEntry(env: Env, e: Entry, limit: int, stored: Option<Entry>) returns (r: Option<Error>)
    ensures r == CheckEntry(env, e, limit, stored)
    ensures r.None? <==>
              && ValidName(e.key.scope) && ValidName(e.key.name) && e.content != "" && env.utf8(e.content)
              && ValidMeta(env, e.meta) && (limit > 0 ==> |e.content| <= limit)
    ensures r.Some? ==>
              || r.value == Invalid
              || r.value == TooLarge(|e.content|, limit, if stored.Some? then |stored.value.content| else -1)
  {
    var scopeOk := CheckName(e.key.scope);
    var nameOk := CheckName(e.key.name);
    if !scopeOk || !nameOk || e.content == "" || !env.utf8(e.content) {
      return Some(Invalid);
    }
    var metaOk := CheckMeta(env, e.meta);
    if !metaOk {
      return Some(Invalid);
    }
    if limit > 0 && |e.content| > limit {
      return Some(TooLarge(|e.content|, limit, SizeOf(stored)));
    }
    return None;
  }

  /******* Options of a write *******/

  datatype PutOptions = PutOptions(
    ifHash: string, conditional: bool,
    base: string, hasBase: bool,
    ifMetaHash: string, metaConditional: bool)

  const NoOptions := PutOptions("", false, "", false, "", false)

  function IfHash(o: PutOptions, h: string): PutOptions {
    o.(ifHash := h, conditional := true)
  }

  function IfMetaHash(o: PutOptions, h: string): PutOptions {
    o.(ifMetaHash := h, metaConditional := true)
  }

  function HashOf(e: Option<Entry>): string {
    match e case None => "" case Some(x) => x.hash
  }

  function MetaHashOf(env: Env, e: Option<Entry>): string {
    match e case None => "" case Some(x) => MetaHash(env, x.meta)
  }

  /** `PutOptions.BaseFor`: the hash a record names as the one the write was built on. */
  function BaseFor(o: PutOptions, held: string): string {
    if o.conditional then o.ifHash else if o.hasBase then o.base else held
  }

  /** `PutOptions.Check`: the content's condition first, then the metadata's. */
  function Check(env: Env, o: PutOptions, stored: Option<Entry>): Option<Error> {
    if o.conditional && HashOf(stored) != o.ifHash
    then Some(Conflict(o.ifHash, HashOf(stored), false))
    else if o.metaConditional && MetaHashOf(env, stored) != o.ifMetaHash
    then Some(Conflict(o.ifMetaHash, MetaHashOf(env, stored), true))
    else None
  }

  /**
   A write passes if and only if the hash and the metadata hash are the ones it was told to
   expect, where it was told; so one without conditions always does.  A conflict names what
   was expected and what was found, the content's first.
   */
  lemma CheckExactly(env: Env, o: PutOptions, stored: Option<Entry>)
    ensures var hash := if stored.Some? then stored.value.hash else "";
            var meta := if stored.Some? then MetaHash(env, stored.value.meta) else "";
            && (Check(env, o, stored).None? <==>
                 (o.conditional ==> hash == o.ifHash) && (o.metaConditional ==> meta == o.ifMetaHash))
            && (o.conditional && hash != o.ifHash ==> Check(env, o, stored) == Some(Conflict(o.ifHash, hash, false)))
            && (Check(env, o, stored).Some? && (o.conditional ==> hash == o.ifHash) ==>
                 Check(env, o, stored) == Some(Conflict(o.ifMetaHash, meta, true)))
  {
  }

  /******* The chain of records *******/

  /** The last record for a key. */
  function LastFor(recs: seq<Change>, k: Key): Option<Change> {
    if recs == [] then None
    else if recs[|recs| - 1].entry.key == k then Some(recs[|recs| - 1])
    else LastFor(recs[..|recs| - 1], k)
  }

  /** The hash of a record's entry while it is live, "" once it is a tombstone. */
  function LiveHash(e: Entry): string {
    if e.deleted then "" else e.hash
  }

  /** The last live state the records hold for a key, "" for none. */
  function HeldHash(recs: seq<Change>, k: Key): string {
    match LastFor(recs, k) case None => "" case Some(c) => LiveHash(c.entry)
  }

  /** Every record names, as what it replaced, the last live state before it. */
  ghost predicate Chained(recs: seq<Change>) {
    forall i :: 0 <= i < |recs| ==> recs[i].replaced == HeldHash(recs[..i], recs[i].entry.key)
  }

  /** Along the journal the numbers increase, and start above zero. */
  ghost predicate Increasing(recs: seq<Change>) {
    && (forall i :: 0 <= i < |recs| ==> recs[i].seqno > 0)
    && (forall i, j :: 0 <= i < j < |recs| ==> recs[i].seqno < recs[j].seqno)
  }

  function LastSeqno(recs: seq<Change>): nat {
    if recs == [] then 0 else recs[|recs| - 1].seqno
  }

  lemma ChainedAppend(recs: seq<Change>, c: Change)
    requires Chained(recs)
    ensures Chained(recs + [c]) <==> c.replaced == HeldHash(recs, c.entry.key)
  {
    var all := recs + [c];
    assert forall i :: 0 <= i < |recs| ==> all[i] == recs[i] && all[..i] == recs[..i];
    assert all[..|recs|] == recs && all[|recs|] == c;
  }

  lemma IncreasingAppend(recs: seq<Change>, c: Change)
    requires Increasing(recs)
    ensures Increasing(recs + [c]) <==> c.seqno > LastSeqno(recs)
  {
    var all := recs + [c];
    assert forall i :: 0 <= i < |recs| ==> all[i] == recs[i];
    assert all[|recs|] == c;
    if c.seqno <= LastSeqno(recs) && recs != [] {
      assert all[|recs| - 1] == recs[|recs| - 1];
    }
  }

  lemma LastForAppend(recs: seq<Change>, c: Change, k: Key)
    ensures LastFor(recs + [c], k) == if c.entry.key == k then Some(c) else LastFor(recs, k)
  {
    assert (recs + [c])[..|recs|] == recs;
  }

  /** What a reader resuming after `after` is given. */
  function After(recs: seq<Change>, after: nat): seq<Change> {
    if recs == [] then []
    else (if recs[0].seqno > after then [recs[0]] else []) + After(recs[1..], after)
  }

  lemma {:induction false} AfterAll(recs: seq<Change>, after: nat)
    requires forall i :: 0 <= i < |recs| ==> recs[i].seqno > after
    ensures After(recs, after) == recs
  {
    if recs != [] {
      AfterAll(recs[1..], after);
      assert recs == [recs[0]] + recs[1..];
    }
  }

  /**
   A reader that stops after any `n` records and resumes with the last number it saw
   gets exactly the rest: nothing twice and nothing skipped.
   */
  lemma {:induction false} ResumeGivesTheRest(recs: seq<Change>, n: nat)
    requires Increasing(recs) && n <= |recs|
    ensures After(recs, LastSeqno(recs[..n])) == recs[n..]
  {
    if n == 0 {
      AfterAll(recs, 0);
      assert recs[..0] == [] && recs[0..] == recs;
    } else {
      ResumeSkips(recs, n, recs[n - 1].seqno);
      assert recs[..n][n - 1] == recs[n - 1];
    }
  }

  lemma {:induction false} ResumeSkips(recs: seq<Change>, n: nat, after: nat)
    requires Increasing(recs) && n <= |recs|
    requires forall i :: 0 <= i < n ==> recs[i].seqno <= after
    requires forall i :: n <= i < |recs| ==> recs[i].seqno > after
    ensures After(recs, after) == recs[n..]
  {
    if n == 0 {
      AfterAll(recs, after);
    } else {
      ResumeSkips(recs[1..], n - 1, after);
      assert recs[1..][n - 1..] == recs[n..];
    }
  }
}

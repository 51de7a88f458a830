/**
 Entry files (filestore/frontmatter.go): a block of "key: value" lines between "---"
 lines, then the content as it is.
 */
module Frontmatter {
  import opened Common
  import opened Text
  import opened Memory

  /** Times as the file writes them; an instant is a number of nanoseconds. */
  datatype Clock = Clock(format: int -> string, parse: string -> Option<int>)

  /** The written form of `t` is one trimmed line and reads back as `t`. */
  ghost predicate Exact(clock: Clock, t: int) {
    var s := clock.format(t);
    '\n' !in s && Trim(s) == s && clock.parse(s) == Some(t)
  }

  const Delimiter := "---\n"

  /******* Writing *******/

  function Line(key: string, value: string): string {
    key + ":" + (if value == "" then "" else " " + value)
  }

  function MetaFields(keys: seq<string>, meta: map<string, string>): (r: seq<string>)
    requires forall k :: k in keys ==> k in meta
    ensures |r| == |keys| && forall i :: 0 <= i < |keys| ==> r[i] == Line(keys[i], meta[keys[i]])
  {
    seq(|keys|, i requires 0 <= i < |keys| => Line(keys[i], meta[keys[i]]))
  }

  /** The lines of the block. */
  function Block(clock: Clock, name: string, t: int, meta: map<string, string>): seq<string> {
    BlockOf("name", name, "updated", clock.format(t), Sorted(meta.Keys), meta)
  }

  // Two leading fields, and those of the keys.
  function BlockOf(first: string, a: string, second: string, b: string, keys: seq<string>, meta: map<string, string>)
    : seq<string>
    requires forall k :: k in keys ==> k in meta
  {
    [Line(first, a), Line(second, b)] + MetaFields(keys, meta)
  }

  function Terminated(lines: seq<string>): string {
    if lines == [] then "" else lines[0] + "\n" + Terminated(lines[1..])
  }

  lemma {:induction false} TerminatedAppend(lines: seq<string>, l: string)
    ensures Terminated(lines + [l]) == Terminated(lines) + l + "\n"
  {
    if lines != [] {
      assert (lines + [l])[1..] == lines[1..] + [l];
      TerminatedAppend(lines[1..], l);
    }
  }

  function Encode(clock: Clock, name: string, t: int, meta: map<string, string>, content: string): string {
    Delimiter + Terminated(Block(clock, name, t, meta)) + Delimiter + content
  }

  method WriteField(b: string, key: string, value: string) returns (out: string)
    ensures out == b + Line(key, value) + "\n"
  {
    out := b + key + ":";
    if value != "" {
      out := out + " " + value;
    }
    out := out + "\n";
  }

  lemma Grows(data: string, lines: seq<string>, l: string)
    requires data == Delimiter + Terminated(lines)
    ensures data + l + "\n" == Delimiter + Terminated(lines + [l])
  {
    TerminatedAppend(lines, l);
  }

  // The fields of the keys, after the lines already there.
  method WriteMeta(data: string, keys: seq<string>, meta: map<string, string>, ghost lines: seq<string>)
    returns (out: string)
    requires forall k :: k in keys ==> k in meta
    requires data == Delimiter + Terminated(lines)
    ensures out == Delimiter + Terminated(lines + MetaFields(keys, meta))
  {
    out := data;
    ghost var done := lines;
    for i := 0 to |keys|
      invariant done == lines + MetaFields(keys, meta)[..i]
      invariant out == Delimiter + Terminated(done)
    {
      ghost var l := Line(keys[i], meta[keys[i]]);
      Grows(out, done, l);
      out := WriteField(out, keys[i], meta[keys[i]]);
      done := done + [l];
    }
    assert MetaFields(keys, meta)[..|keys|] == MetaFields(keys, meta);
  }

  method EncodeFile(clock: Clock, name: string, t: int, meta: map<string, string>, content: string)
    returns (data: string)
    ensures data == Encode(clock, name, t, meta, content)
  {
    Grows(Delimiter, [], Line("name", name));
    data := WriteField(Delimiter, "name", name);
    Grows(data, [] + [Line("name", name)], Line("updated", clock.format(t)));
    data := WriteField(data, "updated", clock.format(t));
    data := WriteMeta(data, Sorted(meta.Keys), meta, [Line("name", name), Line("updated", clock.format(t))]);
    data := data + Delimiter + content;
  }

  /******* Reading *******/

  datatype Decoded = Decoded(meta: map<string, string>, updated: Option<int>, content: string)

  function Split(s: string): seq<string>
    decreases |s|
  {
    var i := Index(s, "\n");
    if i < 0 then [s] else [s[..i]] + Split(s[i + 1..])
  }

  /** A line cut at its first ":", both sides trimmed. */
  function Cut(line: string): Option<(string, string)> {
    var i := Index(line, ":");
    if i < 0 then None else Some((Trim(line[..i]), Trim(line[i + 1..])))
  }

  function CutAll(lines: seq<string>): (r: seq<Option<(string, string)>>)
    ensures |r| == |lines| && forall i :: 0 <= i < |lines| ==> r[i] == Cut(lines[i])
  {
    seq(|lines|, i requires 0 <= i < |lines| => Cut(lines[i]))
  }

  /** What one line of the block adds. */
  function Noted(clock: Clock, d: Decoded, field: Option<(string, string)>): Decoded {
    match field
    case None => d
    case Some((key, value)) =>
      if key == "name" then d
      else if key == "updated" then (match clock.parse(value) case None => d case Some(t) => d.(updated := Some(t)))
      else if !ValidName(key) then d
      else d.(meta := d.meta[key := value])
  }

  function NotedAll(clock: Clock, d: Decoded, fields: seq<Option<(string, string)>>): Decoded {
    if fields == [] then d else Noted(clock, NotedAll(clock, d, fields[..|fields| - 1]), fields[|fields| - 1])
  }

  /** The block and the content of a file that has both delimiters. */
  function Opened(s: string): Option<(string, string)> {
    if !(Delimiter <= s) then None
    else
      var rest := s[|Delimiter|..];
      var i := Index(rest, "\n" + Delimiter);
      if Delimiter <= rest then Some(("", rest[|Delimiter|..]))
      else if i < 0 then None
      else Some((rest[..i], rest[i + 1 + |Delimiter|..]))
  }

  function Decode(clock: Clock, s: string): Decoded {
    match Opened(s)
    case None => Decoded(map[], None, s)
    case Some((block, content)) => NotedAll(clock, Decoded(map[], None, content), CutAll(Split(block)))
  }

  // One line of the block.
  method NoteLine(clock: Clock, d: Decoded, line: string) returns (r: Decoded)
    ensures r == Noted(clock, d, Cut(line))
  {
    r := d;
    var i := Index(line, ":");
    if i < 0 {
      return;
    }
    var key, value := Trim(line[..i]), Trim(line[i + 1..]);
    if key == "name" {
      return;
    } else if key == "updated" {
      var t := clock.parse(value);
      if t.Some? {
        r := d.(updated := t);
      }
    } else if ValidName(key) {
      r := d.(meta := d.meta[key := value]);
    }
  }

  method DecodeFile(clock: Clock, s: string) returns (d: Decoded)
    ensures d == Decode(clock, s)
  {
    if !(Delimiter <= s) {
      return Decoded(map[], None, s);
    }
    var rest := s[|Delimiter|..];
    var block;
    if Delimiter <= rest {
      block, rest := "", rest[|Delimiter|..];
    } else {
      var i := Index(rest, "\n" + Delimiter);
      if i < 0 {
        return Decoded(map[], None, s);
      }
      block, rest := rest[..i], rest[i + 1 + |Delimiter|..];
    }
    assert Opened(s) == Some((block, rest));
    d := Decoded(map[], None, rest);
    var lines := Split(block);
    for n := 0 to |lines|
      invariant d == NotedAll(clock, Decoded(map[], None, rest), CutAll(lines)[..n])
    {
      assert CutAll(lines)[..n + 1][..n] == CutAll(lines)[..n];
      d := NoteLine(clock, d, lines[n]);
    }
    assert CutAll(lines)[..|lines|] == CutAll(lines);
  }

  /******* The closing delimiter is the one written *******/

  // A line of a block: it begins with neither "-" nor a line end.
  predicate Plain(l: string) {
    l != "" && l[0] != '-' && '\n' !in l
  }

  // Text whose lines, but for what follows the last, do not begin with "-".
  predicate Unruled(t: string) {
    && t != "" && t[0] != '-' && t[|t| - 1] == '\n'
    && forall j :: 0 <= j < |t| - 1 && t[j] == '\n' ==> t[j + 1] != '-'
  }

  lemma UnruledBefore(l: string, t: string)
    requires Plain(l) && (t == "" || Unruled(t))
    ensures Unruled(l + "\n" + t)
  {
    var s := l + "\n" + t;
    forall j | 0 <= j < |s| - 1 && s[j] == '\n' ensures s[j + 1] != '-' {
      if j > |l| {
        assert s[j] == t[j - |l| - 1] && s[j + 1] == t[j - |l|];
      }
    }
  }

  lemma {:induction false} BlockIsUnruled(lines: seq<string>)
    requires lines != [] && forall i :: 0 <= i < |lines| ==> Plain(lines[i])
    ensures Unruled(Terminated(lines))
  {
    if |lines| > 1 {
      BlockIsUnruled(lines[1..]);
    }
    UnruledBefore(lines[0], Terminated(lines[1..]));
  }

  lemma {:induction false} SplitTerminated(lines: seq<string>)
    requires lines != [] && forall i :: 0 <= i < |lines| ==> Plain(lines[i])
    ensures Terminated(lines) != "" && Terminated(lines)[|Terminated(lines)| - 1] == '\n'
    ensures Split(Terminated(lines)[..|Terminated(lines)| - 1]) == lines
  {
    var l, rest, s := lines[0], Terminated(lines[1..]), Terminated(lines);
    assert s == l + "\n" + rest;
    var block := s[..|s| - 1];
    if |lines| == 1 {
      assert block == l;
      assert forall j :: OccursAt(l, "\n", j) ==> l[j] == '\n';
    } else {
      SplitTerminated(lines[1..]);
      assert block == l + "\n" + rest[..|rest| - 1];
      FirstOf(l, "\n", rest[..|rest| - 1], '\n');
    }
  }

  // Text without `c` before a `c`.
  lemma FirstOf(a: string, sub: string, b: string, c: char)
    requires sub == [c] && c !in a
    ensures Index(a + sub + b, sub) == |a|
    ensures (a + sub + b)[..|a|] == a && (a + sub + b)[|a| + 1..] == b
  {
    var s := a + sub + b;
    assert OccursAt(s, sub, |a|);
    forall j | OccursAt(s, sub, j) ensures j >= |a| {
      assert s[j..j + 1][0] == s[j];
    }
  }

  lemma ClosesAtEnd(t: string, content: string)
    requires Unruled(t)
    ensures Index(t + Delimiter + content, "\n" + Delimiter) == |t| - 1
  {
    var s, sub := t + Delimiter + content, "\n" + Delimiter;
    assert s[|t| - 1..|t| + 4] == sub;
    assert OccursAt(s, sub, |t| - 1);
    assert forall i :: 0 <= i < |t| ==> s[i] == t[i];
    forall j | OccursAt(s, sub, j) ensures j >= |t| - 1 {
      assert s[j] == sub[0] && s[j + 1] == sub[1];
    }
  }

  /** The first closing delimiter a reader finds is the one the writer wrote, whatever the content holds. */
  lemma OpensWhereWritten(t: string, content: string)
    requires Unruled(t)
    ensures Opened(Delimiter + t + Delimiter + content) == Some((t[..|t| - 1], content))
  {
    var s, rest := Delimiter + t + Delimiter + content, t + Delimiter + content;
    ClosesAtEnd(t, content);
    assert s == Delimiter + rest;
    assert s[|Delimiter|..] == rest;
    assert rest[0] == t[0];
    assert rest[..|t| - 1] == t[..|t| - 1];
    assert rest[|t| + |Delimiter|..] == content;
  }

  /******* The lines read back *******/

  lemma NameIsTrimmed(k: string)
    requires ValidName(k)
    ensures Trim(k) == k && ':' !in k && '\n' !in k
  {
    assert NameChar(k[0]) && NameChar(k[|k| - 1]);
    GraphicIsTrimmed(k);
  }

  lemma LineReads(key: string, value: string)
    requires CutsBack(key, value)
    ensures Plain(Line(key, value)) && Cut(Line(key, value)) == Some((key, value))
  {
    NameIsTrimmed(key);
    var tail := if value == "" then "" else " " + value;
    FirstOf(key, ":", tail, ':');
    if value != "" {
      TrimSpaceBefore(value);
    }
  }

  predicate StoreKey(k: string) {
    ValidName(k) && !ReservedKey(k)
  }

  function Pairs(keys: seq<string>, meta: map<string, string>): (r: seq<Option<(string, string)>>)
    requires forall k :: k in keys ==> k in meta
    ensures |r| == |keys| && forall i :: 0 <= i < |keys| ==> r[i] == Some((keys[i], meta[keys[i]]))
  {
    seq(|keys|, i requires 0 <= i < |keys| => Some((keys[i], meta[keys[i]])))
  }

  function Restrict(meta: map<string, string>, keys: seq<string>): map<string, string>
    requires forall k :: k in keys ==> k in meta
  {
    map k | k in keys :: meta[k]
  }

  lemma NotedAllMore(clock: Clock, d: Decoded, fields: seq<Option<(string, string)>>, f: Option<(string, string)>)
    ensures NotedAll(clock, d, fields + [f]) == Noted(clock, NotedAll(clock, d, fields), f)
  {
    assert (fields + [f])[..|fields|] == fields;
  }

  lemma PairsMore(keys: seq<string>, meta: map<string, string>, k: string)
    requires (forall x :: x in keys ==> x in meta) && k in meta
    ensures (forall x :: x in keys + [k] ==> x in meta)
    ensures Pairs(keys + [k], meta) == Pairs(keys, meta) + [Some((k, meta[k]))]
    ensures Restrict(meta, keys + [k]) == Restrict(meta, keys)[k := meta[k]]
  {
  }

  // What a reader makes of the fields of some keys.
  lemma {:induction false} PairsRead(clock: Clock, d: Decoded, keys: seq<string>, meta: map<string, string>)
    requires forall k :: k in keys ==> k in meta && StoreKey(k)
    requires d.meta == map[]
    ensures NotedAll(clock, d, Pairs(keys, meta)) == d.(meta := Restrict(meta, keys))
  {
    if keys != [] {
      var front, k := keys[..|keys| - 1], keys[|keys| - 1];
      PairsRead(clock, d, front, meta);
      PairsMore(front, meta, k);
      NotedAllMore(clock, d, Pairs(front, meta), Some((k, meta[k])));
      assert keys == front + [k] && StoreKey(k);
    }
  }

  /** The fields of the block. */
  function Fields(clock: Clock, name: string, t: int, meta: map<string, string>): seq<Option<(string, string)>> {
    FieldsOf("name", name, "updated", clock.format(t), Sorted(meta.Keys), meta)
  }

  function FieldsOf(first: string, a: string, second: string, b: string, keys: seq<string>, meta: map<string, string>)
    : seq<Option<(string, string)>>
    requires forall k :: k in keys ==> k in meta
  {
    [Some((first, a)), Some((second, b))] + Pairs(keys, meta)
  }

  lemma FieldsCut(keys: seq<string>, meta: map<string, string>)
    requires forall k :: k in keys ==> k in meta && Writable(k, meta[k])
    ensures forall i :: 0 <= i < |keys| ==> Plain(MetaFields(keys, meta)[i])
    ensures CutAll(MetaFields(keys, meta)) == Pairs(keys, meta)
  {
    var fields := MetaFields(keys, meta);
    forall i | 0 <= i < |keys| ensures Plain(fields[i]) && Cut(fields[i]) == Some((keys[i], meta[keys[i]])) {
      assert keys[i] in keys;
      LineReads(keys[i], meta[keys[i]]);
    }
  }

  lemma OneCut(k: string, v: string)
    requires CutsBack(k, v)
    ensures Plain(Line(k, v)) && CutAll([Line(k, v)]) == [Some((k, v))]
  {
    LineReads(k, v);
  }

  lemma HeadCuts(first: string, a: string, second: string, b: string)
    requires CutsBack(first, a) && CutsBack(second, b)
    ensures Plain(Line(first, a)) && Plain(Line(second, b))
    ensures CutAll([Line(first, a), Line(second, b)]) == [Some((first, a)), Some((second, b))]
  {
    OneCut(first, a);
    OneCut(second, b);
    CutAllConcat([Line(first, a)], [Line(second, b)]);
    assert [Line(first, a)] + [Line(second, b)] == [Line(first, a), Line(second, b)];
  }

  // A field whose line cuts back into it.
  predicate CutsBack(k: string, v: string) {
    ValidName(k) && '\n' !in v && Trim(v) == v
  }

  // The lines of a block cut into its fields.
  lemma LinesCut(first: string, a: string, second: string, b: string, keys: seq<string>, meta: map<string, string>)
    requires CutsBack(first, a) && CutsBack(second, b)
    requires forall k :: k in keys ==> k in meta && Writable(k, meta[k])
    ensures var lines := BlockOf(first, a, second, b, keys, meta);
            && (forall i :: 0 <= i < |lines| ==> Plain(lines[i]))
            && CutAll(lines) == FieldsOf(first, a, second, b, keys, meta)
  {
    HeadCuts(first, a, second, b);
    FieldsCut(keys, meta);
    CutAllConcat([Line(first, a), Line(second, b)], MetaFields(keys, meta));
  }

  lemma NameCuts(k: string, name: string)
    requires ValidName(k) && ValidName(name)
    ensures CutsBack(k, name)
  {
    NameIsTrimmed(name);
  }

  lemma TimeCuts(k: string, clock: Clock, t: int)
    requires ValidName(k) && Exact(clock, t)
    ensures CutsBack(k, clock.format(t))
  {
  }

  lemma OwnNames()
    ensures ValidName("name") && ValidName("updated")
  {
  }

  lemma BlockCuts(clock: Clock, name: string, t: int, meta: map<string, string>)
    requires ValidName(name) && Exact(clock, t)
    requires forall k :: k in meta ==> Writable(k, meta[k])
    ensures var lines := Block(clock, name, t, meta);
            && (forall i :: 0 <= i < |lines| ==> Plain(lines[i]))
            && CutAll(lines) == Fields(clock, name, t, meta)
  {
    OwnNames();
    NameCuts("name", name);
    TimeCuts("updated", clock, t);
    LinesCut("name", name, "updated", clock.format(t), Sorted(meta.Keys), meta);
  }

  lemma CutAllConcat(a: seq<string>, b: seq<string>)
    ensures CutAll(a + b) == CutAll(a) + CutAll(b)
  {
  }

  lemma BlockReads(clock: Clock, name: string, t: int, meta: map<string, string>, d: Decoded)
    requires clock.parse(clock.format(t)) == Some(t) && d.meta == map[]
    requires forall k :: k in meta ==> StoreKey(k)
    ensures NotedAll(clock, d, Fields(clock, name, t, meta)) == Decoded(meta, Some(t), d.content)
  {
    var keys := Sorted(meta.Keys);
    var first, second := Some(("name", name)), Some(("updated", clock.format(t)));
    NotedAllConcat(clock, d, [first, second], Pairs(keys, meta));
    assert [first, second][..1] == [first] && [first][..0] == [];
    assert NotedAll(clock, d, [first]) == Noted(clock, d, first);
    PairsRead(clock, d.(updated := Some(t)), keys, meta);
    assert Restrict(meta, keys) == meta;
  }

  /** A field the file format can carry. */
  predicate Writable(k: string, v: string) {
    StoreKey(k) && '\n' !in v && Trim(v) == v
  }

  lemma {:induction false} NotedAllConcat(clock: Clock, d: Decoded, a: seq<Option<(string, string)>>,
                                          b: seq<Option<(string, string)>>)
    ensures NotedAll(clock, d, a + b) == NotedAll(clock, NotedAll(clock, d, a), b)
  {
    if b == [] {
      assert a + b == a;
    } else {
      assert (a + b)[..|a + b| - 1] == a + b[..|b| - 1];
      NotedAllConcat(clock, d, a, b[..|b| - 1]);
    }
  }

  lemma DecodeOpened(clock: Clock, s: string, block: string, content: string)
    requires Opened(s) == Some((block, content))
    ensures Decode(clock, s) == NotedAll(clock, Decoded(map[], None, content), CutAll(Split(block)))
  {
  }

  lemma BlockDecodes(clock: Clock, lines: seq<string>, content: string)
    requires lines != [] && forall i :: 0 <= i < |lines| ==> Plain(lines[i])
    ensures Decode(clock, Delimiter + Terminated(lines) + Delimiter + content) ==
            NotedAll(clock, Decoded(map[], None, content), CutAll(lines))
  {
    var t := Terminated(lines);
    assert Unruled(t) by {
      BlockIsUnruled(lines);
    }
    var block := t[..|t| - 1];
    assert Split(block) == lines by {
      SplitTerminated(lines);
    }
    OpensWhereWritten(t, content);
    DecodeOpened(clock, Delimiter + t + Delimiter + content, block, content);
  }

  /** A file reads back as it was written: the content to the byte, every field and the time. */
  lemma RoundTrip(clock: Clock, name: string, t: int, meta: map<string, string>, content: string)
    requires ValidName(name) && Exact(clock, t)
    requires forall k :: k in meta ==> Writable(k, meta[k])
    ensures Decode(clock, Encode(clock, name, t, meta, content)) == Decoded(meta, Some(t), content)
  {
    var lines := Block(clock, name, t, meta);
    BlockCuts(clock, name, t, meta);
    BlockDecodes(clock, lines, content);
    forall k | k in meta ensures StoreKey(k) { assert Writable(k, meta[k]); }
    BlockReads(clock, name, t, meta, Decoded(map[], None, content));
  }

  /** Every entry a store accepts comes back from its file, even one whose content looks like a file. */
  lemma AcceptedRoundTrip(env: Env, clock: Clock, e: Entry, limit: int, stored: Option<Entry>, t: int)
    requires CheckEntry(env, e, limit, stored).None? && Exact(clock, t)
    ensures Decode(clock, Encode(clock, e.key.name, t, e.meta, e.content)) == Decoded(e.meta, Some(t), e.content)
  {
    forall k | k in e.meta ensures Writable(k, e.meta[k]) {
      assert ValidField(env, k, e.meta[k]);
    }
    RoundTrip(clock, e.key.name, t, e.meta, e.content);
  }

  /******* Files a person wrote *******/

  lemma {:induction false} SplitHasNoLineEnd(s: string)
    ensures forall i :: 0 <= i < |Split(s)| ==> '\n' !in Split(s)[i]
    decreases |s|
  {
    var i := Index(s, "\n");
    if i < 0 {
      assert forall j :: 0 <= j < |s| && s[j] == '\n' ==> OccursAt(s, "\n", j);
    } else {
      SplitHasNoLineEnd(s[i + 1..]);
      assert forall j :: 0 <= j < i && s[j] == '\n' ==> OccursAt(s, "\n", j);
    }
  }

  // A value as it is cut out of a line.
  predicate CutValue(v: string) {
    '\n' !in v && Trim(v) == v
  }

  lemma CutsValue(l: string)
    requires '\n' !in l && Cut(l).Some?
    ensures CutValue(Cut(l).value.1)
  {
    var value := l[Index(l, ":") + 1..];
    TrimIsTrimmed(value);
    TrimSubset(value, '\n');
  }

  lemma {:induction false} NotedWritable(clock: Clock, d: Decoded, fields: seq<Option<(string, string)>>)
    requires forall i :: 0 <= i < |fields| && fields[i].Some? ==> CutValue(fields[i].value.1)
    requires forall k :: k in d.meta ==> StoreKey(k) && CutValue(d.meta[k])
    ensures var r := NotedAll(clock, d, fields);
            r.content == d.content && forall k :: k in r.meta ==> StoreKey(k) && CutValue(r.meta[k])
  {
    if fields != [] {
      NotedWritable(clock, d, fields[..|fields| - 1]);
    }
  }

  /** Whatever bytes a file holds, what is read from it is the end of the file and fields the store can write. */
  lemma DecodedIsWritable(clock: Clock, s: string)
    ensures var d := Decode(clock, s);
            && |d.content| <= |s| && d.content == s[|s| - |d.content|..]
            && forall k :: k in d.meta ==> Writable(k, d.meta[k])
  {
    var d := Decode(clock, s);
    match Opened(s) {
      case None =>
      case Some((block, content)) =>
        var lines := Split(block);
        SplitHasNoLineEnd(block);
        forall i | 0 <= i < |lines| && CutAll(lines)[i].Some? ensures CutValue(CutAll(lines)[i].value.1) {
          CutsValue(lines[i]);
        }
        NotedWritable(clock, Decoded(map[], None, content), CutAll(lines));
    }
    assert forall k :: k in d.meta ==> StoreKey(k) && CutValue(d.meta[k]);
  }

  /** A file that does not begin with a delimiter, or has no closing one, is all content. */
  lemma DecodeWhole(clock: Clock, s: string)
    requires || !("---\n" <= s)
             || (!("---\n" <= s[4..]) && forall i :: !OccursAt(s[4..], "\n---\n", i))
    ensures Decode(clock, s) == Decoded(map[], None, s)
  {
    if Delimiter <= s {
      assert "\n" + Delimiter == "\n---\n";
      assert Index(s[4..], "\n---\n") == -1;
    }
  }

  /** Else its block ends at the first closing delimiter, and the content is what follows. */
  lemma DecodeParts(clock: Clock, block: string, content: string)
    requires !("---\n" <= block + "\n---\n" + content)
    requires forall i :: OccursAt(block + "\n---\n" + content, "\n---\n", i) ==> i >= |block|
    ensures Decode(clock, "---\n" + (block + "\n---\n" + content)) ==
            NotedAll(clock, Decoded(map[], None, content), CutAll(Split(block)))
  {
    var rest := block + "\n---\n" + content;
    var s := "---\n" + rest;
    assert "\n" + Delimiter == "\n---\n" && s[4..] == rest;
    assert rest[|block|..|block| + 5] == "\n---\n";
    assert OccursAt(rest, "\n---\n", |block|);
    assert rest[..|block|] == block && rest[|block| + 5..] == content;
  }

  lemma DecodeEmptyBlock(clock: Clock, content: string)
    ensures Decode(clock, "---\n---\n" + content) == Decoded(map[], None, content)
  {
    var s := "---\n---\n" + content;
    var d := Decoded(map[], None, content);
    assert s[4..] == "---\n" + content && s[4..][4..] == content;
    assert Opened(s) == Some(("", content));
    DecodeOpened(clock, s, "", content);
    assert Split("") == [""] && Cut("") == None;
    assert CutAll([""]) == [] + [None];
    NotedAllMore(clock, d, [], None);
  }

  /** The lines of a text with "\n" between them. */
  function Rejoined(lines: seq<string>): string {
    if lines == [] then "" else if |lines| == 1 then lines[0] else lines[0] + "\n" + Rejoined(lines[1..])
  }

  /** `strings.Split` at line ends: no line holds one, and with them between the lines are the text. */
  lemma {:induction false} SplitIs(s: string)
    ensures Split(s) != [] && Rejoined(Split(s)) == s && forall i :: 0 <= i < |Split(s)| ==> '\n' !in Split(s)[i]
    decreases |s|
  {
    SplitHasNoLineEnd(s);
    var i := Index(s, "\n");
    if i >= 0 {
      SplitIs(s[i + 1..]);
      assert Split(s)[1..] == Split(s[i + 1..]);
      assert s == s[..i] + "\n" + s[i + 1..];
    }
  }

  /** A line is cut at its first ":", and both sides trimmed; one without ":" is no field. */
  lemma CutIs(a: string, b: string)
    requires ':' !in a
    ensures Cut(a + ":" + b) == Some((Trim(a), Trim(b))) && Cut(a) == None
  {
    FirstOf(a, ":", b, ':');
    assert forall j :: OccursAt(a, ":", j) ==> a[j..j + 1][0] == a[j];
  }

  // The field in place `i` sets the key.
  predicate Sets(fields: seq<Option<(string, string)>>, i: int, k: string) {
    0 <= i < |fields| && fields[i].Some? && fields[i].value.0 == k
  }

  /**
   What is read of a key: a valid name that is not one of the file's own, with the value of
   the last line that sets it.
   */
  lemma {:induction false} FieldIs(clock: Clock, d: Decoded, fields: seq<Option<(string, string)>>, k: string)
    returns (i: int)
    requires d.meta == map[]
    ensures var r := NotedAll(clock, d, fields);
            && (k in r.meta <==> i >= 0 && ValidName(k) && k != "name" && k != "updated")
            && (i >= 0 ==> Sets(fields, i, k)) && (forall j :: Sets(fields, j, k) ==> j <= i)
            && (k in r.meta ==> r.meta[k] == fields[i].value.1)
  {
    i := -1;
    if fields != [] {
      var n := |fields| - 1;
      var front := fields[..n];
      i := FieldIs(clock, d, front, k);
      assert forall j :: 0 <= j < n ==> front[j] == fields[j];
      forall j | Sets(fields, j, k) && j < n ensures j <= i {
        assert Sets(front, j, k);
      }
      if Sets(fields, n, k) {
        i := n;
      }
    }
  }

  /** And of the time: that of the last line "updated" whose value is one. */
  lemma {:induction false} TimeIs(clock: Clock, d: Decoded, fields: seq<Option<(string, string)>>) returns (i: int)
    requires d.updated.None?
    ensures var r := NotedAll(clock, d, fields);
            && (forall j :: Sets(fields, j, "updated") && clock.parse(fields[j].value.1).Some? ==> j <= i)
            && (i >= 0 ==> Sets(fields, i, "updated") && r.updated == clock.parse(fields[i].value.1) &&
                           r.updated.Some?)
            && (i < 0 ==> r.updated.None?)
  {
    i := -1;
    if fields != [] {
      var n := |fields| - 1;
      var front := fields[..n];
      i := TimeIs(clock, d, front);
      assert forall j :: 0 <= j < n ==> front[j] == fields[j];
      forall j | Sets(fields, j, "updated") && clock.parse(fields[j].value.1).Some? && j < n ensures j <= i {
        assert Sets(front, j, "updated");
      }
      if Sets(fields, n, "updated") && clock.parse(fields[n].value.1).Some? {
        i := n;
      }
    }
  }

  /** The file as its bytes: name, time, the fields in byte order of their keys, the content. */
  lemma EncodeReads(clock: Clock, name: string, t: int, meta: map<string, string>, content: string)
    requires name != "" && clock.format(t) != ""
    ensures Encode(clock, name, t, meta, content) ==
            "---\nname: " + name + "\nupdated: " + clock.format(t) + "\n" +
            Terminated(MetaFields(Sorted(meta.Keys), meta)) + "---\n" + content
    ensures forall k, v :: Line(k, v) == if v == "" then k + ":" else k + ": " + v
  {
    BlockOfTerminated("name", name, "updated", clock.format(t), Sorted(meta.Keys), meta);
    Colons(name, clock.format(t));
    Flattened(name, clock.format(t), Terminated(MetaFields(Sorted(meta.Keys), meta)), content);
  }

  lemma Colons(name: string, time: string)
    ensures "name" + ": " + name == "name: " + name && "updated" + ": " + time == "updated: " + time
  {
  }

  lemma BlockOfTerminated(first: string, a: string, second: string, b: string, keys: seq<string>,
                          meta: map<string, string>)
    requires a != "" && b != "" && forall k :: k in keys ==> k in meta
    ensures Terminated(BlockOf(first, a, second, b, keys, meta)) ==
            first + ": " + a + "\n" + (second + ": " + b + "\n" + Terminated(MetaFields(keys, meta)))
  {
    var fields := MetaFields(keys, meta);
    assert BlockOf(first, a, second, b, keys, meta) == [Line(first, a)] + ([Line(second, b)] + fields);
    TerminatedFirst(Line(first, a), [Line(second, b)] + fields);
    TerminatedFirst(Line(second, b), fields);
    LineIs(first, a);
    LineIs(second, b);
  }

  lemma LineIs(k: string, v: string)
    requires v != ""
    ensures Line(k, v) == k + ": " + v
  {
  }

  lemma TerminatedFirst(l: string, rest: seq<string>)
    ensures Terminated([l] + rest) == l + "\n" + Terminated(rest)
  {
    assert ([l] + rest)[1..] == rest;
  }

  lemma Flattened(name: string, time: string, fields: string, content: string)
    ensures "---\n" + ("name: " + name + "\n" + ("updated: " + time + "\n" + fields)) + "---\n" + content ==
            "---\nname: " + name + "\nupdated: " + time + "\n" + fields + "---\n" + content
  {
    assert "---\n" + ("name: " + name + "\n" + ("updated: " + time + "\n" + fields)) ==
           "---\nname: " + name + "\nupdated: " + time + "\n" + fields;
  }

  /** Written back and read again, it is the same. */
  lemma RewriteKeeps(clock: Clock, s: string, name: string, t: int)
    requires ValidName(name) && Exact(clock, t)
    ensures var d := Decode(clock, s);
            && |d.content| <= |s| && d.content == s[|s| - |d.content|..]
            && (forall k :: k in d.meta ==> Writable(k, d.meta[k]))
            && Decode(clock, Encode(clock, name, t, d.meta, d.content)) == d.(updated := Some(t))
  {
    var d := Decode(clock, s);
    DecodedIsWritable(clock, s);
    RoundTrip(clock, name, t, d.meta, d.content);
  }
}

/**
 memory_patch over the directory-backed store (tools.go over filestore/filestore.go), while
 people edit the entry files between its read and its write.
 */
module FilePatch {
  import opened Common
  import opened Memory
  import opened Journal
  import opened Cursor
  import opened FileStore
  import F = Frontmatter
  import P = Patch

  /** A file whose fields came out of a file's bytes. */
  ghost predicate FromBytes(f: File) {
    exists clock, s :: IsDecoded(clock, s, f)
  }

  ghost predicate IsDecoded(clock: F.Clock, s: string, f: File) {
    var d := F.Decode(clock, s);
    f == File(d.content, d.meta)
  }

  lemma FieldsAreText(f: File)
    requires FromBytes(f)
    ensures forall k :: k in f.meta ==> '=' !in k && '\n' !in f.meta[k]
  {
    var clock, s :| IsDecoded(clock, s, f);
    F.DecodedIsWritable(clock, s);
    forall k | k in f.meta ensures '=' !in k && '\n' !in f.meta[k] {
      assert F.Writable(k, f.meta[k]);
      NoEqualsInName(k);
    }
  }

  /** A file that has the hash and the metadata hash another was read with is that file. */
  lemma SameFile(env: Env, a: File, b: File)
    requires Sound(env.hash) && FromBytes(a) && FromBytes(b)
    requires env.hash(a.content) == env.hash(b.content) && MetaHash(env, a.meta) == MetaHash(env, b.meta)
    ensures a == b
  {
    FieldsAreText(a);
    FieldsAreText(b);
    if a.meta != map[] && b.meta != map[] {
      MetaTextInjective(a.meta, b.meta);
    }
  }

  /** What the tool writes back, having read the file `f`. */
  function Patched(env: Env, k: Key, f: File, sub: string, text: string): Entry {
    EntryOf(env, k, f).(content := P.Replace(f.content, sub, text))
  }

  function PatchPut(env: Env, max: int, codec: Codec, d: Disk, k: Key, f: File, sub: string, text: string,
                    session: string)
    : (Disk, Result<Change, Error>)
  {
    PutDisk(env, max, codec, d, Patched(env, k, f, sub, text), P.PatchOptions(env, EntryOf(env, k, f)), session)
  }

  // A write on condition of a file lands on that file only.
  lemma LandsOnWhatWasRead(env: Env, max: int, codec: Codec, d: Disk, k: Key, f: File, sub: string, text: string,
                           session: string)
    requires Sound(env.hash) && FromBytes(f) && (k in d.files ==> FromBytes(d.files[k]))
    requires PatchPut(env, max, codec, d, k, f, sub, text, session).1.Ok?
    ensures k in d.files && d.files[k] == f
  {
    assert Check(env, P.PatchOptions(env, EntryOf(env, k, f)), FoundEntry(env, k, Lookup(d.files, k))).None?;
    assert k in d.files;
    SameFile(env, d.files[k], f);
  }

  /**
   A file read at one moment, and written back at any later one over whatever the directory
   then holds, is written only over that same file: the write is the edit made on the spot,
   its record has Prev equal to Replaced, the replacement applied to the content it landed on
   and the metadata it landed on, and the file's state is journaled just before it when it
   could be and was not.
   */
  lemma PatchIsAtomicOnFiles(env: Env, max: int, codec: Codec, d: Disk, k: Key, f: File, sub: string, text: string,
                             session: string)
    requires ValidDisk(env, codec, d) && FromBytes(f) && (k in d.files ==> FromBytes(d.files[k]))
    requires PatchPut(env, max, codec, d, k, f, sub, text, session).1.Ok?
    ensures k in d.files
    ensures var (d', r) := PatchPut(env, max, codec, d, k, f, sub, text, session);
            var now, c := d.files[k], r.value;
            && (d', r) == PatchPut(env, max, codec, d, k, now, sub, text, session)
            && c.prev == c.replaced
            && P.Substituted(now.content, sub, text, c.entry.content) && c.entry.meta == now.meta
            && c.entry.key == k && d'.files == d.files[k := File(c.entry.content, now.meta)]
            && Follows(env, max, Rebuilt(env, codec, d.journal).entries, Some(now), Read(codec, d.journal),
               Read(codec, d'.journal), c)
  {
    LandsOnWhatWasRead(env, max, codec, d, k, f, sub, text, session);
    P.ReplaceIs(f.content, sub, text);
    PutLands(env, max, codec, d, Patched(env, k, f, sub, text), P.PatchOptions(env, EntryOf(env, k, f)), session);
  }
}

/** The message directory: what is visible, what a power loss cannot take away, and what it may bring back. */
module FileSystem {
  import opened Sums
  import opened PathOrder

  newtype byte = b: int | 0 <= b < 256

  type Bytes = seq<byte>

  /** `flushed` once the contents were fsynced. */
  datatype File = File(bytes: Bytes, flushed: bool)

  /**
   * `files` is the visible directory. Names in `solid` survive a power loss. `unlinked` holds files
   * whose removal is not yet durable: each may be back after a power loss.
   */
  datatype Disk = Disk(files: map<Path, File>, solid: set<Path>, unlinked: map<Path, File>)

  ghost predicate Sane(d: Disk)
  {
    d.solid <= d.files.Keys && d.files.Keys !! d.unlinked.Keys
  }

  /** The names that startup treats as message files. */
  predicate IsMessageFile(p: Path)
  {
    ".incoming-" <= p || (|p| >= 4 && p[|p| - 4..] == ".eml")
  }

  /** They begin with `.incoming-` or end with `.eml`. */
  lemma MessageFileNames(p: Path)
    ensures IsMessageFile(p) <==> (exists rest :: p == ".incoming-" + rest) || (exists stem :: p == stem + ".eml")
  {
    if ".incoming-" <= p {
      assert p == ".incoming-" + p[10..];
    }
    if |p| >= 4 && p[|p| - 4..] == ".eml" {
      assert p == p[..|p| - 4] + ".eml";
    }
    if stem :| p == stem + ".eml" {
      assert p[|p| - 4..] == ".eml";
    }
  }

  function Unlink(d: Disk, p: Path): Disk
  {
    if p in d.files then Disk(d.files - {p}, d.solid - {p}, d.unlinked[p := d.files[p]]) else d
  }

  function Create(d: Disk, p: Path): Disk
  {
    d.(files := d.files[p := File([], false)], solid := d.solid - {p})
  }

  function Write(d: Disk, p: Path, f: File): Disk
  {
    d.(files := d.files[p := f])
  }

  function Rename(d: Disk, source: Path, target: Path): Disk
    requires source in d.files
  {
    var gone := Unlink(d, source);
    gone.(files := gone.files[target := d.files[source]])
  }

  function SyncDir(d: Disk): Disk
  {
    Disk(d.files, d.files.Keys, map[])
  }

  /** Unflushed contents may come back cut short. */
  ghost predicate Survives(f: File, g: File)
  {
    g.flushed && (if f.flushed then g.bytes == f.bytes else |g.bytes| <= |f.bytes|)
  }

  /** `after` is a directory that a power loss may leave behind. */
  ghost predicate CrashImage(d: Disk, after: map<Path, File>)
  {
    && (forall p :: p in d.solid && p in d.files ==> p in after && Survives(d.files[p], after[p]))
    && (forall p :: p in after ==>
          || (p in d.files && Survives(d.files[p], after[p]))
          || (p in d.unlinked && Survives(d.unlinked[p], after[p])))
  }

  function FileSizes(files: map<Path, File>): map<Path, nat>
  {
    map p | p in files && IsMessageFile(p) :: |files[p].bytes|
  }

  /** Bytes held by message files. */
  ghost function DiskBytes(d: Disk): nat
  {
    Sum(FileSizes(d.files))
  }

  /** A new message file adds its bytes. */
  lemma FileAdded(files: map<Path, File>, p: Path, f: File)
    requires p !in files && IsMessageFile(p)
    ensures Sum(FileSizes(files[p := f])) == Sum(FileSizes(files)) + |f.bytes|
  {
    var sizes, more := FileSizes(files), FileSizes(files[p := f]);
    assert more.Keys == sizes.Keys + {p};
    assert more == sizes[p := |f.bytes|];
    SumInsert(sizes, p, |f.bytes|);
  }

  lemma FileWritten(d: Disk, p: Path, f: File)
    requires p !in d.files && IsMessageFile(p)
    ensures DiskBytes(Write(Create(d, p), p, f)) == DiskBytes(d) + |f.bytes|
  {
    FileAdded(d.files, p, f);
    assert Write(Create(d, p), p, f).files == d.files[p := f];
  }
}

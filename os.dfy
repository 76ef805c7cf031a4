/**
 * The host as the library sees it. Everything the library asks of the
 * operating system (stat, lstat, readlink, directory listings, environment
 * variables, the temp directory) is a value here, given to the operations
 * as a parameter. Also Go's fixed-width integers and file mode bits.
 */
module Os {

  /** Go's `error` values as far as the library distinguishes them: only
      `os.IsNotExist` is ever asked of an error. */
  datatype Error = ErrNotExist(path: string) | ErrOther(path: string, cause: string) {
    predicate IsNotExist() { ErrNotExist? }
  }

  datatype Option<T> = None | Some(value: T)

  /** A Go `(value, error)` pair where exactly one of the two is meaningful. */
  datatype Result<T> = Ok(value: T) | Err(error: Error)

  // ---------------------------------------------------------------------------
  // Fixed-width integers

  const TwoTo63: int := 0x8000_0000_0000_0000
  const TwoTo64: int := 0x1_0000_0000_0000_0000

  /** Go's `int64`; also Go's `int`, which is 64 bits wide on the platforms modelled. */
  type int64 = x: int | -TwoTo63 <= x < TwoTo63

  /** Go's `uint64`. */
  type uint64 = x: int | 0 <= x < TwoTo64

  /** Two's-complement truncation of an unbounded integer to 64 bits. */
  function Wrap64(x: int): (r: int64)
    ensures (r - x) % TwoTo64 == 0
    ensures -TwoTo63 <= x < TwoTo63 ==> r == x
  {
    var m := (x + TwoTo63) % TwoTo64;
    assert x + TwoTo63 == ((x + TwoTo63) / TwoTo64) * TwoTo64 + m;
    m - TwoTo63
  }

  /** Go's `a + b` on `int64`: wraps around on overflow. */
  function Add64(a: int64, b: int64): (r: int64)
    ensures (r - (a + b)) % TwoTo64 == 0
    ensures -TwoTo63 <= a + b < TwoTo63 ==> r == a + b
  {
    Wrap64(a + b)
  }

  /** Two values that agree modulo 2^64 truncate to the same int64. */
  lemma WrapCongruent(x: int, y: int)
    requires (x - y) % TwoTo64 == 0
    ensures Wrap64(x) == Wrap64(y)
  {
  }

  /** Accumulating with wrap-around after every step equals wrapping the
      exact total once: the truncation is a homomorphism for `+`. */
  lemma AccumulateWrapped(a: int, b: int)
    ensures Add64(Wrap64(a), Wrap64(b)) == Wrap64(a + b)
  {
  }

  // ---------------------------------------------------------------------------
  // File metadata

  /** Go's `os.FileMode`: a 32-bit word whose top bits are type flags. */
  type FileMode = bv32

  /** `os.ModeDir`, the `d` bit: 1 << 31. */
  const ModeDir: FileMode := 0x8000_0000
  /** `os.ModeSymlink`, the `L` bit: 1 << 27. */
  const ModeSymlink: FileMode := 0x0800_0000

  /** What a stat or lstat call reports about one path. */
  datatype Attrs = Attrs(size: int64, mode: FileMode) {
    /** `FileInfo.IsDir()` */
    predicate IsDir() { mode & ModeDir != 0 }
    /** `FileInfo.Mode() & os.ModeSymlink != 0` */
    predicate IsSymlink() { mode & ModeSymlink != 0 }
    /** The mode names one file type: not both a directory and a symbolic
        link. A real lstat reports modes of this kind; the model does not
        require it, and the lemmas that rely on it take it as a premise. */
    predicate SingleType() { !(IsDir() && IsSymlink()) }
  }

  // ---------------------------------------------------------------------------
  // Directory trees, as seen through Open, Readdirnames and Lstat

  /** What opening a directory path and reading all its names yields. */
  datatype Listing =
    | OpenFailed(err: Error)            // `os.Open(dir)` returned an error
    | ReadFailed(err: Error)            // `f.Readdirnames(-1)` returned an error
    | Listed(entries: seq<Entry>)       // the names, in the order the filesystem returned them

  /** One listed name and the outcome of `os.Lstat(dir + "/" + name)`. */
  datatype Entry = Entry(name: string, lstat: LstatResult) {
    /** Lstat succeeded: the entry is handed to the visitor. */
    predicate Found() { lstat.Lstat? }
    /** Lstat reported not-exist: the entry vanished after the listing. */
    predicate Vanished() { lstat.LstatFailed? && lstat.err.IsNotExist() }
    /** Lstat failed for any other reason. */
    predicate Broken() { lstat.LstatFailed? && !lstat.err.IsNotExist() }
  }

  /** On success, `contents` is what a later Open + Readdirnames of the same
      child path yields. It is consulted only for entries whose mode has the
      directory bit. */
  datatype LstatResult =
    | Lstat(attrs: Attrs, contents: Listing)
    | LstatFailed(err: Error)

  // ---------------------------------------------------------------------------
  // Path-based calls and the environment

  /** The host's answers to the path-based calls of package `os`. */
  datatype Host = Host(
    stat: string -> Result<Attrs>,        // os.Stat
    readlink: string -> Result<string>,   // os.Readlink
    getenv: string -> string,             // os.Getenv ("" when unset)
    tempDir: string                       // os.TempDir()
  )
}

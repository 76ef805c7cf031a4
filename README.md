# gosys in Dafny

A model of `gosys`, a small Go library of file-system and stream helpers, with
proofs about it. The library covers:

- the temp directory and random temp file names;
- existence and type checks on paths;
- file extensions;
- the size of a file, following symbolic links;
- the user's home directory, found through an ordered list of environment variables;
- directory enumeration with a visitor that can stop it early;
- recursive directory sizes;
- a stream that discards everything (`emptyStream`);
- a writer decorator that reports each write's byte count to a callback (`progressStream`).

The operating system is a value given to the operations as a parameter:

- An `Os.Listing` is what opening a directory and reading its names yields:
  an Open error, a Readdirnames error, or the names in filesystem order.
  Each name carries the outcome of its `Lstat`. For a directory entry it
  also carries the listing of the child path.
- An `Os.Host` holds the answers of `os.Stat`, `os.Readlink`, `os.Getenv` and `os.TempDir`.
- A FetchDir visitor is a function of the entries visited so far, the last one
  being the current entry. This models a closure that keeps state.
- The writer wrapped by a progress stream is a `Writer` object. Its reply may
  depend on everything it received before. The callback is a `Progress` object
  that records the values it is called with.

Modules:

- `Os` (os.dfy): errors, `int64` with two's-complement wrap-around, the `os.ModeDir` and `os.ModeSymlink` bits, the directory tree, the host.
- `GoStrings` (gostrings.dfy): `strings.TrimRight`, `strings.TrimPrefix`, `path.Ext`, ASCII `strings.ToLower`, and `%016x`.
- `Sys` (sys.dfy): sys.go.
- `Io` (io.dfy): io.go.

The style follows the source file by file:

- Go code that loops and reassigns is a Dafny method with a loop: `FetchDir`, `FileSize`, `UserHomeDir` and `DirSize`. `FetchDir`, `FileSize` and `DirSize` are proved against specification functions (`Fetch`, `LinkSize`, `Usage`). The ensures of `UserHomeDir` state its result directly: the first qualifying candidate, trimmed, or else the value of `CD`.
- Expression-only code is a function: `FileExt`, `TempDir`, `TempFilename`, the type checks and `emptyStream`.
- `progressStream` is a class whose `Write` changes the wrapped writer's log and the callback's log.

Three behaviours of the code that a reader might not expect, which the model keeps:

- When no candidate variable qualifies, `UserHomeDir` returns the raw, untrimmed value of `CD`, not `""`.
- `progressStream.Write` calls the callback on every write, whatever the sign of the count.
- `FileSize` has no hop limit.

## Model

| member | source | states |
|---|---|---|
| `Os.Wrap64` | sys.go:79 | the named-result `int64` total: a value in the int64 range congruent to the exact value modulo 2^64, equal to it when it fits |
| `Os.Add64` | sys.go:82-84 | the int64 `n += x`: a value in the int64 range congruent to the exact sum modulo 2^64, equal to it when it fits |
| `Os.AccumulateWrapped` | sys.go:82-84 | adding with wrap-around after every `n +=` gives the exact total wrapped once |
| `GoStrings.TrimRight` | sys.go:12 | the longest prefix not ending in a cutset character; everything cut is in the cutset |
| `GoStrings.TrimPrefix` | sys.go:31 | when the prefix is present, prefix + result is the input; otherwise the input unchanged |
| `GoStrings.Lower` | sys.go:31 | same length, each character mapped by ASCII lower-casing on its own |
| `GoStrings.Ext` | sys.go:31 | the suffix from the last dot of the final slash-separated element, and "" exactly when that element has no dot |
| `GoStrings.Hex16` | sys.go:19 | `%016x` of a uint64 is exactly sixteen lower-case hex digits that read back as the value |
| `Sys.TempDir` | sys.go:11-13 | a prefix of `os.TempDir()` that does not end in `/` or `\`; only separators were cut |
| `Sys.TempFilename` | sys.go:15-20 | TempDir(), then `/tmp`, then sixteen lower-case hex digits of the random value, then `.ext` only when ext is non-empty |
| `Sys.TempFilenameRoundTrip` | sys.go:15-20 | a temp file name determines the random value and the extension it was made from |
| `Sys.FileExists` | sys.go:22-25 | true exactly when os.Stat succeeds |
| `Sys.IsDir` | sys.go:49-52 | true exactly when the path exists and its stat mode has the `os.ModeDir` bit |
| `Sys.IsSymLink` | sys.go:54-57 | true exactly when the path exists and its stat mode has the `os.ModeSymlink` bit |
| `Sys.TypeChecksNeedExistence` | sys.go:22-57 | IsDir and IsSymLink imply FileExists; FileSize of a missing path is 0 and of an existing non-link its stat size |
| `Sys.FileExt` | sys.go:27-32 | the lower-cased text after the last dot of the final element; "" exactly when that element has no dot or ends in a dot |
| `Sys.FileExtExamples` | sys.go:28-29 | `//path/path/file.ZIP` gives `zip` and `//path/path/file` gives "" |
| `Sys.FileSize` | sys.go:34-47 | the dereferencing loop returns LinkSize: a failed stat or readlink gives 0, otherwise the size of the first stat that is not a link |
| `Sys.FileSizeFollowsChain` | sys.go:36-46 | for a chain of links `a -> ... -> z`, FileSize(a) is z's size when z exists and is not a link, and 0 when the stat of z fails or z is a link whose readlink fails |
| `Sys.LinkSizeIgnoresBound` | sys.go:36-42 | the size does not depend on the hop bound used for termination |
| `Sys.TrimHome` | sys.go:71-72 | the two-stage trim gives a prefix that does not end in a backslash |
| `Sys.TrimHomeEdges` | sys.go:71-72 | `x/\` trims to `x/` (a trailing slash can survive), and `/` trims to "" |
| `Sys.UserHomeDir` | sys.go:59-77 | the first variable, in the order HOME to CD, that is non-empty and exists, trimmed; the raw value of CD when none qualifies |
| `Sys.FetchDir` | sys.go:91-112 | the enumeration loop returns exactly the error and the visit sequence of Fetch |
| `Sys.FetchListingFailure` | sys.go:92-101 | an Open or Readdirnames error is returned and the visitor is never called |
| `Sys.VanishedEntriesSkipped` | sys.go:103-104 | names whose lstat reports not-exist are skipped: the outcome is that of the listing without them |
| `Sys.VisitedInListingOrder` | sys.go:102-111 | the visited entries are a prefix of the found entries in listing order, and all of them when nil is returned |
| `Sys.VisitorFailureStops` | sys.go:102-109 | if the visitor accepts every entry found before the p-th name and fails on the p-th, that error is returned and exactly the found entries up to the p-th are visited (k visits for the k-th found entry); lstat errors after the p-th name do not matter |
| `Sys.LstatErrorStops` | sys.go:105-106 | at the first lstat error other than not-exist, that error is returned and no later name is visited |
| `Sys.NilExactlyWhenAllAccepted` | sys.go:92-111 | nil is returned exactly when the listing succeeded and every name was skipped as vanished or visited with a nil result |
| `Sys.UsageOfVisited` | sys.go:80-87 | with the always-nil visitor of DirSize, the visited entries add up to DirSize's exact total |
| `Sys.DirSize` | sys.go:79-89 | the int64 total is the exact total (Usage) wrapped to 64 bits |
| `Sys.UsageOfErrorFreeTree` | sys.go:79-89 | on a tree without errors, the total is the sum of the lstat sizes of all non-directory entries transitively contained |
| `Sys.UsageKeepsPartialSum` | sys.go:80 | at the first lstat error other than not-exist, the total is the partial sum of the entries before it; no error is returned |
| `Sys.UsageOfUnreadableDir` | sys.go:80 | a directory that cannot be opened or read counts 0 |
| `Sys.SymlinksNotTraversed` | sys.go:81-85 | a symbolic link whose mode does not also carry the directory bit (`SingleType`, as a real lstat reports) counts its own lstat size, and its contents are not traversed |
| `Io.EmptyStream.Read` | io.go:11-13 | reports the whole buffer as read with no error and leaves the buffer unchanged |
| `Io.EmptyStream.Write` | io.go:15-17 | reports the whole buffer as written with no error |
| `Io.EmptyStream.Close` | io.go:19-21 | returns nil |
| `Io.NewProgressWriter` | io.go:23-25 | a new stream holding exactly the given writer and callback |
| `Io.ProgressStream.Write` | io.go:32-36 | the whole buffer goes to the wrapped writer once; its `(n, err)` is returned unchanged; the callback is called once with n, even on error and whatever its sign |
| `Io.DiscardWithProgress` | io.go:15-36 | a progress writer over the empty stream reports the buffer's full length to the callback and returns no error |

## Left out

- The operating system's calls are parameters, not behaviour: `os.Open`, `Readdirnames`, `os.Lstat`, `os.Stat`, `os.Readlink`, `os.Getenv`, `os.TempDir`.
- The model's lstat may report a mode with both the directory and the symlink bit, which a real lstat does not. Such an entry is traversed as a directory, as `info.IsDir()` decides in the code. `Os.Attrs.SingleType` names the real-system fact, and `SymlinksNotTraversed` takes it as a premise.
- Real `os.Stat` follows symbolic links, so on a real system the loop of `FileSize` and `IsSymLink` never see the symlink bit. The model's stat is abstract and may report it.
- Sys.FileSize: a symbolic-link cycle is outside its requires clause. On a cycle the source loops until the OS refuses. The ghost bound `hops` only measures chains that end; no cap is invented.
- `rand.Uint64()` is a parameter of `TempFilename`.
- Of `fmt.Sprintf`, only the `%s/tmp%016x%s` layout is modelled.
- Sys.FileExt: lower-cases ASCII letters only; Unicode case mapping in `strings.ToLower` is not modelled.
- Go strings are byte strings; the model works on sequences of characters.
- The child path `dir + "/" + name` is implicit: each entry carries the listing of its child path.
- Sys.DirSize: the closure's additions happen after the enumeration rather than interleaved with it. This is equivalent, since the closure only adds to `n` and always returns nil.
- `defer f.Close()`, and races between listing and lstat beyond the not-exist outcome.
- Recursion depth and stack exhaustion.
- The `DevNull` variable, a nil `*emptyStream`.
- Aliasing between the callback and the wrapped writer, for example a callback that writes to the progress stream again.
- Go's `int` is taken to be 64 bits wide, so `int64(n)` keeps n's value.

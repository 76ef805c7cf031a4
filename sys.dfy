/**
 * The file-system helpers of `sys.go`: temp-directory and temp-file names,
 * existence and type checks, extensions, symlink-following file sizes, the
 * home-directory search, directory enumeration with an early-exit visitor,
 * and recursive directory sizes. The host is a parameter everywhere.
 */
module Sys {
  import opened Os
  import opened GoStrings

  // ===========================================================================
  // TempDir and TempFilename (sys.go:11-20)

  const PathSeparators: set<char> := {'/', '\\'}

  /** `TempDir()`: `os.TempDir()` with all trailing slashes and backslashes cut. */
  function TempDir(host: Host): (r: string)
    ensures r <= host.tempDir
    ensures r == [] || r[|r| - 1] !in PathSeparators
    ensures forall i | |r| <= i < |host.tempDir| :: host.tempDir[i] in PathSeparators
  {
    TrimRight(host.tempDir, PathSeparators)
  }

  /** The part of a temp file name after the random digits. */
  function ExtSuffix(ext: string): string
  {
    if ext != "" then "." + ext else ""
  }

  /** `TempFilename(ext)`, with the value of `rand.Uint64()` as `random`:
      TempDir(), then "/tmp", then sixteen lower-case hex digits that read back
      as `random`, then "." + ext when ext is not empty. */
  function TempFilename(host: Host, ext: string, random: uint64): (r: string)
    ensures var d := |TempDir(host)|;
      && |r| == d + 20 + |ExtSuffix(ext)|
      && r[..d] == TempDir(host)
      && r[d..d + 4] == "/tmp"
      && IsLowerHex(r[d + 4..d + 20]) && ParseHex(r[d + 4..d + 20]) == random
      && r[d + 20..] == (if ext == "" then "" else "." + ext)
  {
    var dir, digits, suffix := TempDir(host), Hex16(random), ExtSuffix(ext);
    var name := dir + "/tmp" + digits + suffix;
    assert name[..|dir|] == dir;
    assert name[|dir|..|dir| + 4] == "/tmp";
    assert name[|dir| + 4..|dir| + 20] == digits;
    assert name[|dir| + 20..] == suffix;
    name
  }

  /** Reads a name produced by TempFilename back into its random value and
      extension: the inverse of TempFilename for a fixed host. */
  function ParseTempFilename(host: Host, name: string): (r: Option<(uint64, string)>)
  {
    var prefix := TempDir(host) + "/tmp";
    if !(prefix <= name) || |name| < |prefix| + 16 then None
    else
      var digits, rest := name[|prefix|..|prefix| + 16], name[|prefix| + 16..];
      if !IsLowerHex(digits) then None
      else
        assert Pow16(16) == TwoTo64 by { Pow16Of16(); }
        var v: uint64 := ParseHex(digits);
        if rest == "" then Some((v, ""))
        else if rest[0] == '.' && |rest| > 1 then Some((v, rest[1..]))
        else None
  }

  /** Temp file names determine the random value and the extension they were
      made from. */
  lemma TempFilenameRoundTrip(host: Host, ext: string, random: uint64)
    ensures ParseTempFilename(host, TempFilename(host, ext, random)) == Some((random, ext))
  {
  }

  // ===========================================================================
  // FileExists, IsDir, IsSymLink (sys.go:22-25, 49-57)

  /** `FileExists(path)`: os.Stat succeeds (`err == nil`). */
  predicate FileExists(host: Host, path: string)
    ensures FileExists(host, path) <==> host.stat(path).Ok?
  {
    host.stat(path).Ok?
  }

  /** `IsDir(filename)`: os.Stat returns a FileInfo whose mode has the
      `os.ModeDir` bit. */
  predicate IsDir(host: Host, filename: string)
    ensures IsDir(host, filename) <==>
              FileExists(host, filename) && host.stat(filename).value.mode & ModeDir != 0
  {
    host.stat(filename).Ok? && host.stat(filename).value.IsDir()
  }

  /** `IsSymLink(filename)`: os.Stat succeeds and its mode has the
      `os.ModeSymlink` bit. */
  predicate IsSymLink(host: Host, filename: string)
    ensures IsSymLink(host, filename) <==>
              FileExists(host, filename) && host.stat(filename).value.mode & ModeSymlink != 0
  {
    host.stat(filename).Ok? && host.stat(filename).value.IsSymlink()
  }

  /** Both type checks answer false for a path that does not exist, and a
      path that is neither a dangling nor a broken link has its own size. */
  lemma TypeChecksNeedExistence(host: Host, path: string)
    ensures IsDir(host, path) ==> FileExists(host, path)
    ensures IsSymLink(host, path) ==> FileExists(host, path)
    ensures !FileExists(host, path) ==> LinkSize(host, path, 0) == 0
    ensures FileExists(host, path) && !IsSymLink(host, path) ==>
              LinkSize(host, path, 0) == host.stat(path).value.size
  {
  }

  // ===========================================================================
  // FileExt (sys.go:27-32)

  /** `FileExt(filename)`: the lower-cased text after the last dot of the final
      slash-separated element, or "" when that element has no dot. */
  function FileExt(filename: string): (r: string)
    ensures forall i | ExtDot(filename, i) :: r == Lower(filename[i + 1..])
    ensures (forall i | 0 <= i < |filename| :: !ExtDot(filename, i)) ==> r == ""
    ensures r == "" <==>
      (forall i | 0 <= i < |filename| :: !ExtDot(filename, i)) || filename[|filename| - 1] == '.'
  {
    var e := Ext(filename);
    if e == "" then
      assert forall i | 0 <= i < |filename| :: !ExtDot(filename, i);
      Lower(TrimPrefix(e, "."))
    else
      var i :| ExtDot(filename, i);
      assert e == filename[i..];
      assert "." <= e;
      assert TrimPrefix(e, ".") == filename[i + 1..];
      Lower(TrimPrefix(e, "."))
  }

  /** The two examples given beside FileExt in the source. */
  lemma FileExtExamples()
    ensures FileExt("//path/path/file.ZIP") == "zip"
    ensures FileExt("//path/path/file") == ""
  {
    var zip := "//path/path/file.ZIP";
    assert ExtDot(zip, 16);
    assert zip[17..] == "ZIP";
    var bare := "//path/path/file";
    forall i | 0 <= i < |bare| ensures !ExtDot(bare, i) {
      assert bare[i] != '.' || bare[11] == '/';
    }
  }

  // ===========================================================================
  // FileSize (sys.go:34-47)

  /** Following symbolic links from `path` stops within `hops` readlink steps:
      a stat fails, a stat reports a non-link, or a readlink fails. The source
      has no hop limit; `hops` only measures how far a chain that does end goes. */
  predicate ChainEnds(host: Host, path: string, hops: nat)
    decreases hops
  {
    match host.stat(path)
    case Err(_) => true
    case Ok(a) =>
      !a.IsSymlink() ||
      match host.readlink(path)
      case Err(_) => true
      case Ok(target) => hops > 0 && ChainEnds(host, target, hops - 1)
  }

  /** The size FileSize reports: dereference links until a stat reports a
      non-link; any failing stat or readlink gives 0. */
  function LinkSize(host: Host, path: string, hops: nat): int64
    requires ChainEnds(host, path, hops)
    decreases hops
  {
    match host.stat(path)
    case Err(_) => 0
    case Ok(a) =>
      if !a.IsSymlink() then a.size
      else match host.readlink(path)
        case Err(_) => 0
        case Ok(target) => LinkSize(host, target, hops - 1)
  }

  /** `FileSize(path)`: the loop that replaces `path` by its link target while
      stat reports a symlink. `hops` is a bound on the chain's length, used for
      termination only. */
  method FileSize(host: Host, path: string, ghost hops: nat) returns (size: int64)
    requires ChainEnds(host, path, hops)
    ensures size == LinkSize(host, path, hops)
  {
    var p := path;
    var st := host.stat(p);
    ghost var left := hops;
    while st.Ok? && st.value.IsSymlink()
      invariant st == host.stat(p)
      invariant ChainEnds(host, p, left)
      invariant LinkSize(host, path, hops) == LinkSize(host, p, left)
      decreases left
    {
      var target := host.readlink(p);
      if target.Err? {
        return 0;
      }
      p := target.value;
      st := host.stat(p);
      left := left - 1;
    }
    if st.Ok? {
      return st.value.size;
    }
    return 0;
  }

  /** `paths` is a chain of symbolic links: every path but the last is a link
      (by stat) whose readlink gives the next path. */
  predicate LinkChain(host: Host, paths: seq<string>)
  {
    forall i | 0 <= i < |paths| - 1 ::
      host.stat(paths[i]).Ok? && host.stat(paths[i]).value.IsSymlink() &&
      host.readlink(paths[i]) == Ok(paths[i + 1])
  }

  /** The size reported at the end of a chain: the size of the first stat
      result that is not a link, or 0 when a stat or readlink failed. */
  function ChainEndSize(host: Host, last: string): int64
  {
    match host.stat(last)
    case Ok(a) => if a.IsSymlink() then 0 else a.size
    case Err(_) => 0
  }

  /** FileSize resolves a whole chain of links `a -> b -> ... -> z`: it reports
      z's size when z exists and is not a link, and 0 when the stat of z fails
      or z is a link whose readlink fails. */
  lemma {:induction false} FileSizeFollowsChain(host: Host, paths: seq<string>)
    requires |paths| > 0 && LinkChain(host, paths)
    requires ChainEnds(host, paths[|paths| - 1], 0)
    ensures ChainEnds(host, paths[0], |paths| - 1)
    ensures LinkSize(host, paths[0], |paths| - 1) == ChainEndSize(host, paths[|paths| - 1])
  {
    if |paths| > 1 {
      var rest := paths[1..];
      assert LinkChain(host, rest) by {
        forall i | 0 <= i < |rest| - 1
          ensures host.stat(rest[i]).Ok? && host.stat(rest[i]).value.IsSymlink() &&
                  host.readlink(rest[i]) == Ok(rest[i + 1])
        {
          assert rest[i] == paths[i + 1] && rest[i + 1] == paths[i + 2];
        }
      }
      FileSizeFollowsChain(host, rest);
      assert host.readlink(paths[0]) == Ok(paths[1]);
    }
  }

  /** The hop bound does not change the size reported. */
  lemma {:induction false} LinkSizeIgnoresBound(host: Host, path: string, k: nat, m: nat)
    requires ChainEnds(host, path, k) && ChainEnds(host, path, m)
    ensures LinkSize(host, path, k) == LinkSize(host, path, m)
    decreases k
  {
    match host.stat(path)
    case Err(_) =>
    case Ok(a) =>
      if a.IsSymlink() {
        match host.readlink(path)
        case Err(_) =>
        case Ok(target) => LinkSizeIgnoresBound(host, target, k - 1, m - 1);
      }
  }

  // ===========================================================================
  // UserHomeDir (sys.go:59-77)

  /** The environment variables UserHomeDir tries, in order. */
  const HomeVariables: seq<string> := [
    "HOME", "HOMEPATH", "LOCALAPPDATA", "APPDATA",
    "CSIDL_APPDATA", "ProgramData", "CommonProgramFiles", "CD"
  ]

  /** The k-th variable is set to a path that exists. */
  predicate HomeCandidate(host: Host, k: nat)
    requires k < |HomeVariables|
  {
    var dir := host.getenv(HomeVariables[k]);
    dir != "" && FileExists(host, dir)
  }

  /** The two-stage trim: trailing slashes, then trailing backslashes. */
  function TrimHome(dir: string): (r: string)
    ensures r <= dir
    ensures r == [] || r[|r| - 1] != '\\'
  {
    TrimRight(TrimRight(dir, {'/'}), {'\\'})
  }

  /** `UserHomeDir()`: the first variable, in the order of HomeVariables, whose
      value is non-empty and exists, trimmed; when none qualifies, the raw value
      of the last variable tried, `CD`, which may itself be non-empty. */
  method UserHomeDir(host: Host) returns (dir: string)
    ensures forall k | 0 <= k < |HomeVariables| ::
      HomeCandidate(host, k) && (forall j | 0 <= j < k :: !HomeCandidate(host, j)) ==>
        dir == TrimHome(host.getenv(HomeVariables[k]))
    ensures (forall k | 0 <= k < |HomeVariables| :: !HomeCandidate(host, k)) ==>
      dir == host.getenv("CD")
  {
    dir := "";
    for i := 0 to |HomeVariables|
      invariant forall j | 0 <= j < i :: !HomeCandidate(host, j)
      invariant i > 0 ==> dir == host.getenv(HomeVariables[i - 1])
    {
      dir := host.getenv(HomeVariables[i]);
      if dir != "" && FileExists(host, dir) {
        assert HomeCandidate(host, i);
        dir := TrimRight(dir, {'/'});
        dir := TrimRight(dir, {'\\'});
        return;
      }
    }
  }

  /** The two-stage trim can leave a trailing slash ("x/\" gives "x/"), and
      a home of "/" becomes the empty string. */
  lemma TrimHomeEdges()
    ensures TrimHome("x/\\") == "x/"
    ensures TrimHome("/") == ""
  {
  }

  // ===========================================================================
  // FetchDir (sys.go:91-112)

  /** The visitor `fn`. A Go closure may keep state, so its answer may depend
      on every entry it has been given; it receives the entries visited so
      far, the last being the current one, and answers nil (None) or an error. */
  type Visitor = seq<Entry> -> Option<Error>

  /** The outcome of an enumeration: the error returned (None for nil) and
      the entries handed to the visitor, in order. */
  datatype Fetched = Fetched(err: Option<Error>, visited: seq<Entry>)

  /** The loop of FetchDir over `entries`, after `seen` were visited. */
  function Enumerate(entries: seq<Entry>, visit: Visitor, seen: seq<Entry>): (r: Fetched)
    ensures forall x | x in r.visited :: x in entries && x.Found()
    decreases |entries|
  {
    if entries == [] then Fetched(None, [])
    else
      var e := entries[0];
      match e.lstat
      case LstatFailed(err) =>
        if err.IsNotExist() then Enumerate(entries[1..], visit, seen)
        else Fetched(Some(err), [])
      case Lstat(_, _) =>
        match visit(seen + [e])
        case Some(err) => Fetched(Some(err), [e])
        case None =>
          var rest := Enumerate(entries[1..], visit, seen + [e]);
          Fetched(rest.err, [e] + rest.visited)
  }

  /** What FetchDir returns and which entries it visits. */
  function Fetch(dir: Listing, visit: Visitor): (r: Fetched)
    ensures forall x | x in r.visited :: dir.Listed? && x in dir.entries && x.Found()
  {
    match dir
    case OpenFailed(err) => Fetched(Some(err), [])
    case ReadFailed(err) => Fetched(Some(err), [])
    case Listed(entries) => Enumerate(entries, visit, [])
  }

  /** `FetchDir(dir, fn)`: lists the names, lstats each, skips the vanished
      ones, stops at the first other lstat error or the first visitor error. */
  method FetchDir(dir: Listing, visit: Visitor) returns (err: Option<Error>, visited: seq<Entry>)
    ensures Fetched(err, visited) == Fetch(dir, visit)
  {
    match dir
    case OpenFailed(e) => return Some(e), [];
    case ReadFailed(e) => return Some(e), [];
    case Listed(names) =>
      visited := [];
      for i := 0 to |names|
        invariant var rest := Enumerate(names[i..], visit, visited);
          Fetch(dir, visit) == Fetched(rest.err, visited + rest.visited)
      {
        var e := names[i];
        assert names[i..][1..] == names[i + 1..];
        match e.lstat {
          case LstatFailed(x) =>
            if x.IsNotExist() {
              continue;
            }
            return Some(x), visited;
          case Lstat(_, _) =>
            var reply := visit(visited + [e]);
            if reply.Some? {
              return reply, visited + [e];
            }
            visited := visited + [e];
        }
      }
      err := None;
  }

  // ---------------------------------------------------------------------------
  // Properties of the enumeration

  /** The entries an lstat found, in listing order. */
  function FoundEntries(entries: seq<Entry>): (r: seq<Entry>)
    ensures forall x | x in r :: x in entries && x.Found()
  {
    if entries == [] then []
    else (if entries[0].Found() then [entries[0]] else []) + FoundEntries(entries[1..])
  }

  lemma {:induction false} FoundEntriesAppend(a: seq<Entry>, b: seq<Entry>)
    ensures FoundEntries(a + b) == FoundEntries(a) + FoundEntries(b)
  {
    if a != [] {
      assert (a + b)[1..] == a[1..] + b;
      FoundEntriesAppend(a[1..], b);
    } else {
      assert a + b == b;
    }
  }

  /** Drops the entries that vanished before their lstat. */
  function Present(entries: seq<Entry>): (r: seq<Entry>)
    ensures forall x | x in r :: x in entries && !x.Vanished()
  {
    if entries == [] then []
    else (if entries[0].Vanished() then [] else [entries[0]]) + Present(entries[1..])
  }

  /** Open and Readdirnames failures are returned as they are, and the visitor
      is never called. */
  lemma FetchListingFailure(dir: Listing, visit: Visitor)
    requires !dir.Listed?
    ensures Fetch(dir, visit) == Fetched(Some(dir.err), [])
  {
  }

  /** A name whose lstat reports not-exist is skipped and enumeration goes on
      with the next name: the outcome is that of the listing without it. */
  lemma {:induction false} VanishedEntriesSkipped(entries: seq<Entry>, visit: Visitor, seen: seq<Entry>)
    ensures Enumerate(entries, visit, seen) == Enumerate(Present(entries), visit, seen)
    decreases |entries|
  {
    if entries != [] {
      VanishedEntriesSkipped(entries[1..], visit, seen);
      var s := seen + [entries[0]];
      VanishedEntriesSkipped(entries[1..], visit, s);
      if entries[0].Vanished() {
        assert Present(entries) == Present(entries[1..]);
      } else {
        assert Present(entries)[0] == entries[0];
        assert Present(entries)[1..] == Present(entries[1..]);
      }
    }
  }

  /** The visited entries are found entries in listing order, each visited
      once: a prefix of all found entries, and all of them when nil is
      returned. */
  lemma {:induction false} VisitedInListingOrder(entries: seq<Entry>, visit: Visitor, seen: seq<Entry>)
    ensures Enumerate(entries, visit, seen).visited <= FoundEntries(entries)
    ensures Enumerate(entries, visit, seen).err == None ==>
              Enumerate(entries, visit, seen).visited == FoundEntries(entries)
    decreases |entries|
  {
    if entries != [] {
      var e, tail := entries[0], entries[1..];
      var r := Enumerate(entries, visit, seen);
      if !e.Found() {
        assert FoundEntries(entries) == FoundEntries(tail);
        if e.Vanished() {
          assert r == Enumerate(tail, visit, seen);
          VisitedInListingOrder(tail, visit, seen);
        }
      } else {
        assert FoundEntries(entries) == [e] + FoundEntries(tail);
        if visit(seen + [e]).None? {
          var rest := Enumerate(tail, visit, seen + [e]);
          assert r == Fetched(rest.err, [e] + rest.visited);
          VisitedInListingOrder(tail, visit, seen + [e]);
          PrefixCons(e, rest.visited, FoundEntries(tail));
        }
      }
    }
  }

  lemma PrefixCons(e: Entry, a: seq<Entry>, b: seq<Entry>)
    requires a <= b
    ensures [e] + a <= [e] + b
  {
    assert ([e] + b)[..|a| + 1] == [e] + a;
  }

  /** All entries are found or vanished (no other lstat error). */
  predicate NoBrokenEntries(entries: seq<Entry>)
  {
    forall i | 0 <= i < |entries| :: !entries[i].Broken()
  }

  /** When the visitor accepts every entry found before the p-th name and
      fails with `e` on the p-th, which lstat found, then `e` is returned and
      exactly the found entries up to and including the p-th were visited:
      k visitor calls for the k-th found entry. Names after the p-th are never
      lstat'ed, so any lstat error among them does not matter. */
  lemma {:induction false} VisitorFailureStops(entries: seq<Entry>, visit: Visitor, p: nat, e: Error)
    requires p < |entries| && entries[p].Found()
    requires NoBrokenEntries(entries[..p])
    requires forall j | 1 <= j <= |FoundEntries(entries[..p])| :: visit(FoundEntries(entries[..p])[..j]) == None
    requires visit(FoundEntries(entries[..p + 1])) == Some(e)
    ensures Fetch(Listed(entries), visit) == Fetched(Some(e), FoundEntries(entries[..p + 1]))
    ensures |Fetch(Listed(entries), visit).visited| == |FoundEntries(entries[..p])| + 1
  {
    var found := FoundEntries(entries[..p]);
    forall j | 1 <= j <= |found| ensures visit([] + found[..j]) == visit(found[..j]) {
      assert [] + found[..j] == found[..j];
    }
    assert [] + FoundEntries(entries[..p + 1]) == FoundEntries(entries[..p + 1]);
    VisitorFailureFrom(entries, visit, [], p, e);
    assert entries[..p + 1] == entries[..p] + [entries[p]];
    FoundEntriesAppend(entries[..p], [entries[p]]);
    assert [entries[p]][1..] == [];
  }

  /** FoundEntries of a non-empty prefix, split at its first name. */
  lemma FoundPrefixCons(entries: seq<Entry>, n: nat)
    requires 0 < n <= |entries|
    ensures FoundEntries(entries[..n]) ==
              (if entries[0].Found() then [entries[0]] else []) + FoundEntries(entries[1..][..n - 1])
  {
    assert entries[..n][1..] == entries[1..][..n - 1];
  }

  /** Dropping the first name of a prefix without broken entries keeps it
      without broken entries. */
  lemma NoBrokenTail(entries: seq<Entry>, p: nat)
    requires 0 < p <= |entries| && NoBrokenEntries(entries[..p])
    ensures !entries[0].Broken() && NoBrokenEntries(entries[1..][..p - 1])
  {
    assert entries[..p][0] == entries[0];
    var rest := entries[1..][..p - 1];
    forall j | 0 <= j < |rest| ensures !rest[j].Broken() {
      assert rest[j] == entries[..p][j + 1];
    }
  }

  /** Acceptance of every prefix of `[x] + before` after `seen` is acceptance
      of every prefix of `before` after `seen + [x]`. */
  lemma AcceptedShift(visit: Visitor, seen: seq<Entry>, x: Entry, before: seq<Entry>)
    requires forall j | 1 <= j <= |[x] + before| :: visit(seen + ([x] + before)[..j]) == None
    ensures visit(seen + [x]) == None
    ensures forall j | 1 <= j <= |before| :: visit((seen + [x]) + before[..j]) == None
  {
    assert ([x] + before)[..1] == [x];
    forall j | 1 <= j <= |before| ensures visit((seen + [x]) + before[..j]) == None {
      assert (seen + [x]) + before[..j] == seen + ([x] + before)[..j + 1];
    }
  }

  lemma {:induction false} VisitorFailureFrom(entries: seq<Entry>, visit: Visitor, seen: seq<Entry>, p: nat, e: Error)
    requires p < |entries| && entries[p].Found()
    requires NoBrokenEntries(entries[..p])
    requires forall j | 1 <= j <= |FoundEntries(entries[..p])| ::
               visit(seen + FoundEntries(entries[..p])[..j]) == None
    requires visit(seen + FoundEntries(entries[..p + 1])) == Some(e)
    ensures Enumerate(entries, visit, seen) == Fetched(Some(e), FoundEntries(entries[..p + 1]))
    decreases p
  {
    FoundPrefixCons(entries, p + 1);
    var tail := entries[1..];
    if p == 0 {
      assert FoundEntries(tail[..0]) == [];
      assert FoundEntries(entries[..1]) == [entries[0]] + [] == [entries[0]];
    } else {
      FoundPrefixCons(entries, p);
      NoBrokenTail(entries, p);
      var before := FoundEntries(tail[..p - 1]);
      if entries[0].Vanished() {
        assert FoundEntries(entries[..p]) == [] + before == before;
        assert FoundEntries(entries[..p + 1]) == [] + FoundEntries(tail[..p]) == FoundEntries(tail[..p]);
        VisitorFailureFrom(tail, visit, seen, p - 1, e);
      } else {
        AcceptedShift(visit, seen, entries[0], before);
        var s := seen + [entries[0]];
        assert s + FoundEntries(tail[..p]) == seen + FoundEntries(entries[..p + 1]);
        VisitorFailureFrom(tail, visit, s, p - 1, e);
      }
    }
  }

  /** At the first lstat error other than not-exist, with the visitor
      accepting everything found before it, that error is returned and no
      later name is visited. */
  lemma {:induction false} LstatErrorStops(entries: seq<Entry>, visit: Visitor, i: nat)
    requires i < |entries| && entries[i].Broken()
    requires NoBrokenEntries(entries[..i])
    requires forall j | 1 <= j <= |FoundEntries(entries[..i])| :: visit(FoundEntries(entries[..i])[..j]) == None
    ensures Fetch(Listed(entries), visit) == Fetched(Some(entries[i].lstat.err), FoundEntries(entries[..i]))
  {
    var found := FoundEntries(entries[..i]);
    forall j | 1 <= j <= |found| ensures visit([] + found[..j]) == visit(found[..j]) {
      assert [] + found[..j] == found[..j];
    }
    LstatErrorFrom(entries, visit, [], i);
  }

  lemma {:induction false} LstatErrorFrom(entries: seq<Entry>, visit: Visitor, seen: seq<Entry>, i: nat)
    requires i < |entries| && entries[i].Broken()
    requires NoBrokenEntries(entries[..i])
    requires forall j | 1 <= j <= |FoundEntries(entries[..i])| ::
               visit(seen + FoundEntries(entries[..i])[..j]) == None
    ensures Enumerate(entries, visit, seen) == Fetched(Some(entries[i].lstat.err), FoundEntries(entries[..i]))
    decreases i
  {
    if i == 0 {
      assert entries[..0] == [];
    } else {
      var tail := entries[1..];
      FoundPrefixCons(entries, i);
      NoBrokenTail(entries, i);
      var before := FoundEntries(tail[..i - 1]);
      if entries[0].Vanished() {
        assert FoundEntries(entries[..i]) == [] + before == before;
        LstatErrorFrom(tail, visit, seen, i - 1);
      } else {
        AcceptedShift(visit, seen, entries[0], before);
        LstatErrorFrom(tail, visit, seen + [entries[0]], i - 1);
      }
    }
  }

  /** The i-th listed name is vanished, or found and accepted (nil) by the
      visitor when it is visited. */
  predicate AcceptedAt(entries: seq<Entry>, visit: Visitor, seen: seq<Entry>, i: nat)
    requires i < |entries|
  {
    entries[i].Vanished() ||
    (entries[i].Found() && visit(seen + FoundEntries(entries[..i + 1])) == None)
  }

  /** Every listed name is vanished, or found and accepted by the visitor. */
  predicate AllAccepted(entries: seq<Entry>, visit: Visitor, seen: seq<Entry>)
  {
    forall i | 0 <= i < |entries| :: AcceptedAt(entries, visit, seen, i)
  }

  /** FetchDir returns nil exactly when the listing succeeded and every name
      was skipped as vanished or visited with a nil result. */
  lemma NilExactlyWhenAllAccepted(dir: Listing, visit: Visitor)
    ensures Fetch(dir, visit).err == None <==> dir.Listed? && AllAccepted(dir.entries, visit, [])
  {
    if dir.Listed? {
      NilFrom(dir.entries, visit, []);
    }
  }

  /** The history after the first entry, as Enumerate passes it on. */
  function SeenAfter(e: Entry, seen: seq<Entry>): seq<Entry>
  {
    if e.Found() then seen + [e] else seen
  }

  /** Acceptance of a later name, seen from the rest of the listing. */
  lemma AcceptedAtShift(entries: seq<Entry>, visit: Visitor, seen: seq<Entry>, i: nat)
    requires 1 <= i < |entries|
    ensures AcceptedAt(entries, visit, seen, i) ==
            AcceptedAt(entries[1..], visit, SeenAfter(entries[0], seen), i - 1)
  {
    var e, tail := entries[0], entries[1..];
    assert entries[..i + 1] == [e] + tail[..i];
    FoundEntriesAppend([e], tail[..i]);
    FoundSingleton(e);
    assert seen + FoundEntries(entries[..i + 1]) == SeenAfter(e, seen) + FoundEntries(tail[..i]);
    assert tail[i - 1] == entries[i];
  }

  lemma FoundSingleton(e: Entry)
    ensures FoundEntries([e]) == if e.Found() then [e] else []
  {
  }

  lemma {:induction false} NilFrom(entries: seq<Entry>, visit: Visitor, seen: seq<Entry>)
    ensures Enumerate(entries, visit, seen).err == None <==> AllAccepted(entries, visit, seen)
    decreases |entries|
  {
    if entries != [] {
      var e, tail := entries[0], entries[1..];
      var s := SeenAfter(e, seen);
      NilFrom(tail, visit, s);
      assert entries[..1] == [e];
      FoundSingleton(e);
      assert AcceptedAt(entries, visit, seen, 0) <==>
             e.Vanished() || (e.Found() && visit(seen + [e]) == None);
      forall i | 1 <= i < |entries| {
        AcceptedAtShift(entries, visit, seen, i);
      }
      if AllAccepted(entries, visit, seen) {
        assert forall i | 0 <= i < |tail| :: AcceptedAt(tail, visit, s, i) by {
          forall i | 0 <= i < |tail| ensures AcceptedAt(tail, visit, s, i) {
            assert AcceptedAt(entries, visit, seen, i + 1);
          }
        }
      }
    }
  }

  // ===========================================================================
  // DirSize (sys.go:79-89)

  /** The visitor of DirSize: its own effect is only to add to the total, and
      it always answers nil. */
  const AcceptAll: Visitor := (seen: seq<Entry>) => None

  /** What one visited entry adds to DirSize's total, exactly: the recursive
      size of a directory, or the entry's own lstat size otherwise. */
  function Contribution(e: Entry): int
    requires e.Found()
    decreases e, 0
  {
    if e.lstat.attrs.IsDir() then Usage(e.lstat.contents) else e.lstat.attrs.size
  }

  /** What DirSize adds up over `entries`, exactly: vanished entries are
      skipped, and the first other lstat error ends the sum there. */
  function EntriesUsage(entries: seq<Entry>): int
    decreases entries
  {
    if entries == [] then 0
    else if entries[0].Broken() then 0
    else if entries[0].Vanished() then EntriesUsage(entries[1..])
    else Contribution(entries[0]) + EntriesUsage(entries[1..])
  }

  /** DirSize's total for a directory, in unbounded arithmetic; a directory
      that cannot be opened or read counts 0. */
  function Usage(dir: Listing): int
    decreases dir
  {
    match dir
    case Listed(entries) => EntriesUsage(entries)
    case _ => 0
  }

  /** The sum of the contributions of visited entries, in visiting order. */
  function Total(visited: seq<Entry>): int
    requires forall x | x in visited :: x.Found()
  {
    if visited == [] then 0
    else Total(visited[..|visited| - 1]) + Contribution(visited[|visited| - 1])
  }

  lemma TotalStep(visited: seq<Entry>, i: nat)
    requires i < |visited| && forall x | x in visited :: x.Found()
    ensures Total(visited[..i + 1]) == Total(visited[..i]) + Contribution(visited[i])
  {
    assert visited[..i + 1][..i] == visited[..i];
  }

  lemma {:induction false} TotalPrepend(e: Entry, rest: seq<Entry>)
    requires e.Found() && forall x | x in rest :: x.Found()
    ensures Total([e] + rest) == Contribution(e) + Total(rest)
    decreases |rest|
  {
    if rest != [] {
      var front := rest[..|rest| - 1];
      assert ([e] + rest)[..|rest|] == [e] + front;
      TotalPrepend(e, front);
    }
  }

  /** Under a visitor that always accepts, the entries FetchDir visits add up
      to Usage. */
  lemma {:induction false} UsageOfVisited(entries: seq<Entry>, seen: seq<Entry>)
    ensures EntriesUsage(entries) == Total(Enumerate(entries, AcceptAll, seen).visited)
    decreases |entries|
  {
    if entries != [] {
      var e := entries[0];
      if !e.Broken() {
        var s := if e.Found() then seen + [e] else seen;
        UsageOfVisited(entries[1..], s);
        if e.Found() {
          TotalPrepend(e, Enumerate(entries[1..], AcceptAll, s).visited);
        }
      }
    }
  }

  /** One `n += m` step of DirSize keeps n the wrapped exact total. */
  lemma AddWrapped(n: int64, m: int64, total: int, c: int)
    requires n == Wrap64(total) && m == Wrap64(c)
    ensures Add64(n, m) == Wrap64(total + c)
  {
    AccumulateWrapped(total, c);
  }

  /** `DirSize(dir)`: enumerates with a visitor that adds each directory's
      recursive size and each other entry's size to an int64 total, and
      ignores whatever error FetchDir returns. */
  method DirSize(dir: Listing) returns (n: int64)
    ensures n == Wrap64(Usage(dir))
    decreases dir
  {
    var _, visited := FetchDir(dir, AcceptAll);
    if dir.Listed? {
      UsageOfVisited(dir.entries, []);
    }
    n := 0;
    for i := 0 to |visited|
      invariant n == Wrap64(Total(visited[..i]))
    {
      var e := visited[i];
      assert e in dir.entries;
      var m: int64;
      if e.lstat.attrs.IsDir() {
        m := DirSize(e.lstat.contents);
      } else {
        m := e.lstat.attrs.size;
      }
      assert m == Wrap64(Contribution(e));
      TotalStep(visited, i);
      AddWrapped(n, m, Total(visited[..i]), Contribution(e));
      n := Add64(n, m);
    }
    assert visited[..|visited|] == visited;
  }

  // ---------------------------------------------------------------------------
  // Properties of the directory size

  /** Every listing in the tree succeeded and no lstat failed except with
      not-exist. */
  predicate ErrorFree(dir: Listing)
    decreases dir
  {
    dir.Listed? &&
    forall e | e in dir.entries ::
      !e.Broken() && (e.Found() && e.lstat.attrs.IsDir() ==> ErrorFree(e.lstat.contents))
  }

  /** The lstat sizes of every non-directory entry in the tree, depth first:
      regular files, symbolic links (never followed) and other special files. */
  function FileSizes(dir: Listing): seq<int>
    decreases dir
  {
    match dir
    case Listed(entries) => EntriesFileSizes(entries)
    case _ => []
  }

  function EntriesFileSizes(entries: seq<Entry>): seq<int>
    decreases entries
  {
    if entries == [] then []
    else
      var e := entries[0];
      (if !e.Found() then []
       else if e.lstat.attrs.IsDir() then FileSizes(e.lstat.contents)
       else [e.lstat.attrs.size])
      + EntriesFileSizes(entries[1..])
  }

  function Sum(s: seq<int>): int
  {
    if s == [] then 0 else s[0] + Sum(s[1..])
  }

  lemma {:induction false} SumAppend(a: seq<int>, b: seq<int>)
    ensures Sum(a + b) == Sum(a) + Sum(b)
  {
    if a != [] {
      assert (a + b)[1..] == a[1..] + b;
      SumAppend(a[1..], b);
    } else {
      assert a + b == b;
    }
  }

  /** On a tree without errors, DirSize's exact total is the sum of the lstat
      sizes of all non-directory entries it transitively contains. */
  lemma {:induction false} UsageOfErrorFreeTree(dir: Listing)
    requires ErrorFree(dir)
    ensures Usage(dir) == Sum(FileSizes(dir))
    decreases dir, 1
  {
    UsageOfErrorFreeEntries(dir.entries, dir);
  }

  lemma {:induction false} UsageOfErrorFreeEntries(entries: seq<Entry>, dir: Listing)
    requires ErrorFree(dir) && forall e | e in entries :: e in dir.entries
    ensures EntriesUsage(entries) == Sum(EntriesFileSizes(entries))
    decreases dir, 0, |entries|
  {
    if entries != [] {
      var e := entries[0];
      assert e in dir.entries;
      UsageOfErrorFreeEntries(entries[1..], dir);
      var own := if !e.Found() then []
                 else if e.lstat.attrs.IsDir() then FileSizes(e.lstat.contents)
                 else [e.lstat.attrs.size];
      SumAppend(own, EntriesFileSizes(entries[1..]));
      if e.Found() && e.lstat.attrs.IsDir() {
        UsageOfErrorFreeTree(e.lstat.contents);
      }
    }
  }

  /** DirSize never fails: an Open or Readdirnames failure gives 0, and the
      first lstat error other than not-exist keeps the partial size of the
      entries before it. */
  lemma {:induction false} UsageKeepsPartialSum(entries: seq<Entry>, i: nat)
    requires i < |entries| && entries[i].Broken()
    requires NoBrokenEntries(entries[..i])
    ensures Usage(Listed(entries)) == Usage(Listed(entries[..i]))
    decreases i
  {
    if i > 0 {
      assert entries[..i][1..] == entries[1..][..i - 1];
      var rest := entries[1..][..i - 1];
      assert NoBrokenEntries(rest) by {
        forall j | 0 <= j < |rest| ensures !rest[j].Broken() {
          assert rest[j] == entries[..i][j + 1];
        }
      }
      assert entries[..i][0] == entries[0];
      assert !entries[..i][0].Broken();
      UsageKeepsPartialSum(entries[1..], i - 1);
    }
  }

  lemma UsageOfUnreadableDir(err: Error)
    ensures Usage(OpenFailed(err)) == 0 && Usage(ReadFailed(err)) == 0
  {
  }

  /** A symbolic link whose mode does not also carry the directory bit counts
      as a non-directory: its own size is added and whatever its contents
      are, they are not traversed. */
  lemma SymlinksNotTraversed(e: Entry, other: Listing)
    requires e.Found() && e.lstat.attrs.IsSymlink() && e.lstat.attrs.SingleType()
    ensures Contribution(e) == e.lstat.attrs.size
    ensures Contribution(Entry(e.name, Lstat(e.lstat.attrs, other))) == Contribution(e)
  {
  }
}

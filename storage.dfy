/**
 * The storage engine of the upload service, `FileSystemStorageService`.
 *
 * The service owns one root location, read from configuration at start-up.
 * `store` writes an uploaded file into it after a path-traversal check,
 * `loadAll` lists it, `load` and `loadAsResource` find a file by name, and
 * `deleteAll` and `init` wipe and recreate it. The file system is the
 * abstract one of module FileSystem; the process's working directory, which
 * relative paths start from, is a parameter (`cwd`).
 */
module Storage {
  import opened Wrappers
  import opened Paths
  import opened FileSystem

  /** The exceptions that escape the service. */
  datatype Failure =
    | StorageException(message: string)
    | StorageFileNotFoundException(message: string)
    | InvalidPathException(input: string)
    | NullPointerException

  /** What `loadAsResource` hands back: a `UrlResource` for an absolute path. */
  datatype Resource = Resource(file: Path)

  /** `storage.location` when the configuration leaves it unset. */
  const DefaultLocation: string := "upload-dir"

  const EmptyLocationMessage: string := "File upload location can not be Empty."
  const EmptyFileMessage: string := "Failed to store empty file."
  const OutsideMessage: string := "Cannot store file outside current directory."
  const StoreFailedMessage: string := "Failed to store file."
  const ReadFailedMessage: string := "Failed to read stored files"
  const NotReadablePrefix: string := "Could not read file: "
  const InitFailedMessage: string := "Could not initialize storage"

  // ---------------------------------------------------------------------------
  // The constructor's check
  // ---------------------------------------------------------------------------

  function TrimStart(s: string): (r: string)
    ensures |r| <= |s| && r == s[|s| - |r|..]
    ensures r == [] || r[0] > ' '
    ensures forall i :: 0 <= i < |s| - |r| ==> s[i] <= ' '
  {
    if s != [] && s[0] <= ' ' then TrimStart(s[1..]) else s
  }

  function TrimEnd(s: string): (r: string)
    ensures |r| <= |s| && r == s[..|r|]
    ensures r == [] || r[|r| - 1] > ' '
    ensures forall i :: |r| <= i < |s| ==> s[i] <= ' '
  {
    if s != [] && s[|s| - 1] <= ' ' then TrimEnd(s[..|s| - 1]) else s
  }

  /** `String.trim()`: drops leading and trailing characters up to U+0020.
      What is left, if anything, starts and ends with a character above
      U+0020; `TrimEmptyIffBlank` says when nothing is left. */
  function Trim(s: string): (r: string)
    ensures |r| <= |s|
    ensures r == [] || (r[0] > ' ' && r[|r| - 1] > ' ')
  {
    var t := TrimStart(s);
    var r := TrimEnd(t);
    assert r != [] ==> r[0] == t[0];
    r
  }

  predicate IsBlank(s: string) {
    forall i :: 0 <= i < |s| ==> s[i] <= ' '
  }

  /** `trim()` leaves nothing exactly when every character is blank. */
  lemma TrimEmptyIffBlank(s: string)
    ensures |Trim(s)| == 0 <==> IsBlank(s)
  {
    var t := TrimStart(s);
    var d := |s| - |t|;
    assert forall j :: 0 <= j < |t| ==> t[j] == s[d + j];
    if !IsBlank(s) {
      var i :| 0 <= i < |s| && s[i] > ' ';
      assert d <= i;
      assert t[i - d] > ' ';
    }
  }

  /** Lines 36-41: a blank location is refused with a `StorageException`;
      otherwise the root is `Paths.get(location)`, which throws on a NUL. */
  function RootLocation(location: string): (r: Result<Path, Failure>)
    ensures r.Failure? <==> IsBlank(location) || '\0' in location
    ensures IsBlank(location) ==> r == Failure(StorageException(EmptyLocationMessage))
    ensures !IsBlank(location) && '\0' in location ==> r == Failure(InvalidPathException(location))
    ensures r.Success? ==> Parse(location) == Some(r.value) && WellFormed(r.value)
  {
    TrimEmptyIffBlank(location);
    if |Trim(location)| == 0 then Failure(StorageException(EmptyLocationMessage))
    else
      match Parse(location)
      case None => Failure(InvalidPathException(location))
      case Some(root) => Success(root)
  }

  // ---------------------------------------------------------------------------
  // store
  // ---------------------------------------------------------------------------

  /** Lines 51-66 of `store`: refuse empty content, parse the name, compute
      `root.resolve(name).normalize().toAbsolutePath()` and accept it only if
      its parent equals `root.toAbsolutePath()`. */
  function Destination(root: Path, cwd: seq<string>, name: string, content: seq<byte>): (r: Result<Path, Failure>)
    ensures |content| == 0 ==> r == Failure(StorageException(EmptyFileMessage))
    ensures |content| > 0 && '\0' in name ==> r == Failure(InvalidPathException(name))
    ensures r.Failure? && |content| > 0 && '\0' !in name ==>
              r.error == NullPointerException || r.error == StorageException(OutsideMessage)
    ensures r.Success? ==>
              var base := ToAbsolutePath(root, cwd).names;
              && r.value.absolute
              && |r.value.names| == |base| + 1
              && r.value.names[..|base|] == base
  {
    if |content| == 0 then Failure(StorageException(EmptyFileMessage))
    else
      match Parse(name)
      case None => Failure(InvalidPathException(name))
      case Some(file) =>
        var dest := ToAbsolutePath(Normalize(Resolve(root, file)), cwd);
        match GetParent(dest)
        case None => Failure(NullPointerException)
        case Some(parent) =>
          if parent != ToAbsolutePath(root, cwd) then Failure(StorageException(OutsideMessage))
          else Success(dest)
  }

  /** All of `store`: the destination check, then `Files.copy` with
      `REPLACE_EXISTING`, whose `IOException` becomes a `StorageException`. */
  function StoreEffect(fs: Fs, root: Path, cwd: seq<string>, name: string, content: seq<byte>): (r: Result<Fs, Failure>)
    ensures Destination(root, cwd, name, content).Failure? ==>
              r == Failure(Destination(root, cwd, name, content).error)
    ensures r.Success? ==> Destination(root, cwd, name, content).Success?
    ensures Destination(root, cwd, name, content).Success? ==>
              (r.Failure? <==> Copy(fs, Locate(Destination(root, cwd, name, content).value, cwd), content).None?)
    ensures Destination(root, cwd, name, content).Success? && r.Failure? ==>
              r.error == StorageException(StoreFailedMessage)
    ensures r.Success? && Valid(fs) && WellFormed(root) && AllPlain(cwd) ==> Valid(r.value)
  {
    match Destination(root, cwd, name, content)
    case Failure(e) => Failure(e)
    case Success(dest) =>
      assert WellFormed(root) && AllPlain(cwd) ==> AllPlain(Locate(dest, cwd)) by {
        if WellFormed(root) && AllPlain(cwd) {
          DestinationWellFormed(root, cwd, name, content);
        }
      }
      match Copy(fs, Locate(dest, cwd), content)
      case None => Failure(StorageException(StoreFailedMessage))
      case Some(next) => Success(next)
  }

  /** An accepted destination is made of well-formed names. */
  lemma DestinationWellFormed(root: Path, cwd: seq<string>, name: string, content: seq<byte>)
    requires WellFormed(root) && AllPlain(cwd)
    requires Destination(root, cwd, name, content).Success?
    ensures WellFormed(Destination(root, cwd, name, content).value)
  {
    var file := Parse(name).value;
    NormalizeIsNormal(Resolve(root, file));
    assert AllNames(cwd);
  }

  /** What the parent check guarantees: an accepted destination lies directly
      below the absolute root, under a name that is not `.`. Only a root
      location made of `..` names alone can be followed by `..`; for every
      other name the file system entry written is a direct child of the root
      directory. And an accepted name implies the root location is in normal
      form. */
  lemma StaysInRoot(root: Path, cwd: seq<string>, name: string, content: seq<byte>)
    requires WellFormed(root) && AllPlain(cwd)
    ensures var r := Destination(root, cwd, name, content);
            r.Success? ==>
              var leaf := r.value.names[|r.value.names| - 1];
              && Normal(root)
              && IsName(leaf) && leaf != "."
              && (leaf == ".." ==> !root.absolute && forall i :: 0 <= i < |root.names| ==> root.names[i] == "..")
              && (leaf != ".." ==> IsPlainName(leaf) && Locate(r.value, cwd) == Locate(root, cwd) + [leaf])
  {
    var r := Destination(root, cwd, name, content);
    if r.Success? {
      var file := Parse(name).value;
      var q := Normalize(Resolve(root, file));
      NormalizeIsNormal(Resolve(root, file));
      var a := ToAbsolutePath(root, cwd);
      var leaf := r.value.names[|a.names|];
      assert r.value == ToAbsolutePath(q, cwd);
      assert r.value.names == a.names + [leaf];
      if q.absolute {
        AbsoluteStays(root, cwd, q.names, leaf);
      } else {
        assert !root.absolute && a.names == cwd + root.names;
        RelativeStays(root, cwd, q.names, leaf);
      }
    }
  }

  /** An absolute normal destination directly below the absolute root: the
      root is normal and the leaf is plain. */
  lemma AbsoluteStays(root: Path, cwd: seq<string>, qs: seq<string>, leaf: string)
    requires WellFormed(root) && AllPlain(cwd)
    requires AllNames(qs) && NormalNames(true, qs)
    requires qs == ToAbsolutePath(root, cwd).names + [leaf]
    ensures Normal(root) && IsPlainName(leaf)
    ensures Locate(Path(true, qs), cwd) == Locate(root, cwd) + [leaf]
  {
    var a := ToAbsolutePath(root, cwd);
    assert AllPlain(qs);
    assert AllPlain(a.names) && IsPlainName(leaf) by {
      assert a.names == qs[..|a.names|] && leaf == qs[|a.names|];
    }
    assert AllPlain(root.names) by {
      assert root.names == a.names[|a.names| - |root.names|..];
    }
    PlainNamesAreNormal(root.absolute, root.names);
    PlainIsNormal(true, qs);
    PlainIsNormal(true, a.names);
  }

  /** Plain names are in normal form, absolute or relative. */
  lemma PlainNamesAreNormal(absolute: bool, names: seq<string>)
    requires AllPlain(names)
    ensures NormalNames(absolute, names)
  {
  }

  /** A relative normal destination below a relative root: it is the root
      plus one name; the root is normal; only a root of `..` names can be
      followed by `..`; any other leaf is plain and lands in the root. */
  lemma RelativeStays(root: Path, cwd: seq<string>, qs: seq<string>, leaf: string)
    requires WellFormed(root) && AllPlain(cwd) && !root.absolute
    requires AllNames(qs) && NormalNames(false, qs)
    requires cwd + qs == cwd + root.names + [leaf]
    ensures Normal(root) && IsName(leaf) && leaf != "."
    ensures leaf == ".." ==> forall i :: 0 <= i < |root.names| ==> root.names[i] == ".."
    ensures leaf != ".." ==> IsPlainName(leaf) && Locate(Path(true, cwd + qs), cwd) == Locate(root, cwd) + [leaf]
  {
    var front := cwd + root.names;
    assert qs == root.names + [leaf] by {
      assert qs == (cwd + qs)[|cwd|..];
      assert root.names + [leaf] == (front + [leaf])[|cwd|..];
    }
    assert leaf == qs[|root.names|];
    assert Normal(root) by {
      assert forall i :: 0 <= i < |root.names| ==> root.names[i] == qs[i];
    }
    assert leaf == ".." ==> forall i :: 0 <= i < |root.names| ==> root.names[i] == ".." by {
      assert forall i :: 0 <= i < |root.names| ==> root.names[i] == qs[i];
    }
    assert leaf != ".." ==> Locate(Path(true, cwd + qs), cwd) == Locate(root, cwd) + [leaf] by {
      assert cwd + qs == front + [leaf];
      assert (front + [leaf])[..|front|] == front;
    }
  }

  /** With a root location made of `..` names only, the destination the
      parent check lets through for the name `..` is the parent of the root
      directory; while the root exists, copying onto it fails. */
  lemma ParentOfRootIsNotWritable(fs: Fs, root: Path, cwd: seq<string>, content: seq<byte>)
    requires Valid(fs) && AllPlain(cwd) && !root.absolute
    requires forall i :: 0 <= i < |root.names| ==> root.names[i] == ".."
    requires Exists(fs, Locate(root, cwd))
    ensures Copy(fs, Locate(Path(true, cwd + root.names + [".."]), cwd), content).None?
  {
    var base := Locate(root, cwd);
    var target := Locate(Path(true, cwd + root.names + [".."]), cwd);
    ClimbedRootParent(root, cwd);
    if target != [] {
      assert base[..|base| - 1] in fs.dirs;
      CopyOntoParentFails(fs, base, content);
    }
  }

  /** For a root location of `..` names only, one more `..` reaches either
      `/` or the parent directory of the root. */
  lemma ClimbedRootParent(root: Path, cwd: seq<string>)
    requires AllPlain(cwd) && !root.absolute
    requires forall i :: 0 <= i < |root.names| ==> root.names[i] == ".."
    ensures var base := Locate(root, cwd);
            var target := Locate(Path(true, cwd + root.names + [".."]), cwd);
            target == [] || (base != [] && base[..|base| - 1] == target)
  {
    var m := |root.names|;
    var base := Locate(root, cwd);
    var target := Locate(Path(true, cwd + root.names + [".."]), cwd);
    assert base == if m <= |cwd| then cwd[..|cwd| - m] else [] by {
      assert root.names == Dots(m);
      assert base == Fold(true, [], cwd + Dots(m));
      LocateClimb(cwd, m);
    }
    assert target == if m + 1 <= |cwd| then cwd[..|cwd| - (m + 1)] else [] by {
      assert cwd + root.names + [".."] == cwd + Dots(m + 1);
      LocateClimb(cwd, m + 1);
    }
  }

  /** The location of the working directory followed by `m` climbs. */
  lemma LocateClimb(cwd: seq<string>, m: nat)
    requires AllPlain(cwd)
    ensures Fold(true, [], cwd + Dots(m)) == if m <= |cwd| then cwd[..|cwd| - m] else []
  {
    FoldAppend(true, [], cwd, Dots(m));
    PlainIsNormal(true, cwd);
    AbsoluteDots(cwd, m);
  }

  /** Copying onto the parent directory of an existing entry fails: that
      directory is not empty. */
  lemma CopyOntoParentFails(fs: Fs, k: Key, content: seq<byte>)
    requires Exists(fs, k) && k != [] && k[..|k| - 1] in fs.dirs
    ensures Copy(fs, k[..|k| - 1], content).None?
  {
    var up := k[..|k| - 1];
    assert k == up + [k[|k| - 1]];
    assert k[|k| - 1] in Entries(fs, up);
  }

  /** The security property of `store`: when the root directory exists, a
      successful `store` writes exactly one regular file, a direct child of
      the root directory with a plain name, replacing whatever was there,
      and changes nothing else. */
  lemma StoreWritesOnlyInRoot(fs: Fs, root: Path, cwd: seq<string>, name: string, content: seq<byte>, dest: Path, next: Fs)
    requires Valid(fs) && WellFormed(root) && AllPlain(cwd)
    requires Exists(fs, Locate(root, cwd))
    requires Destination(root, cwd, name, content) == Success(dest)
    requires StoreEffect(fs, root, cwd, name, content) == Success(next)
    ensures var base := Locate(root, cwd);
            var k := Locate(dest, cwd);
            && |k| == |base| + 1 && k[..|base|] == base && IsPlainName(k[|base|])
            && Valid(next)
            && next.files == fs.files[k := content]
            && next.dirs == fs.dirs - {k}
  {
    StoredChild(fs, root, cwd, name, content, dest);
    StoreCopies(fs, root, cwd, name, content, dest, next);
    assert AllPlain(Locate(root, cwd));
  }

  /** A successful `store` is the copy onto the accepted destination. */
  lemma StoreCopies(fs: Fs, root: Path, cwd: seq<string>, name: string, content: seq<byte>, dest: Path, next: Fs)
    requires Destination(root, cwd, name, content) == Success(dest)
    requires StoreEffect(fs, root, cwd, name, content) == Success(next)
    ensures Copy(fs, Locate(dest, cwd), content) == Some(next)
  {
  }

  /** While the root exists, the entry a successful `store` writes is the
      root's location plus one plain name. */
  lemma StoredChild(fs: Fs, root: Path, cwd: seq<string>, name: string, content: seq<byte>, dest: Path)
    requires Valid(fs) && WellFormed(root) && AllPlain(cwd)
    requires Exists(fs, Locate(root, cwd))
    requires Destination(root, cwd, name, content) == Success(dest)
    requires StoreEffect(fs, root, cwd, name, content).Success?
    ensures Locate(dest, cwd) == Locate(root, cwd) + [dest.names[|dest.names| - 1]]
    ensures IsPlainName(dest.names[|dest.names| - 1])
  {
    StaysInRoot(root, cwd, name, content);
    DotDotLeafFails(fs, root, cwd, name, content, dest);
  }

  /** While the root exists, `store` never succeeds in writing onto the
      parent of the root location. */
  lemma DotDotLeafFails(fs: Fs, root: Path, cwd: seq<string>, name: string, content: seq<byte>, dest: Path)
    requires Valid(fs) && WellFormed(root) && AllPlain(cwd)
    requires Exists(fs, Locate(root, cwd))
    requires Destination(root, cwd, name, content) == Success(dest)
    ensures dest.names[|dest.names| - 1] == ".." ==> StoreEffect(fs, root, cwd, name, content).Failure?
  {
    DotDotLeafShape(root, cwd, name, content, dest);
    if dest.names[|dest.names| - 1] == ".." {
      ParentOfRootIsNotWritable(fs, root, cwd, content);
    }
  }

  /** An accepted destination ending in `..` is the parent of a root
      location made of `..` names only. */
  lemma DotDotLeafShape(root: Path, cwd: seq<string>, name: string, content: seq<byte>, dest: Path)
    requires WellFormed(root) && AllPlain(cwd)
    requires Destination(root, cwd, name, content) == Success(dest)
    ensures dest.names[|dest.names| - 1] == ".." ==>
              && !root.absolute
              && (forall i :: 0 <= i < |root.names| ==> root.names[i] == "..")
              && dest == Path(true, cwd + root.names + [".."])
  {
    StaysInRoot(root, cwd, name, content);
    var a := ToAbsolutePath(root, cwd);
    assert dest.names == a.names + [dest.names[|dest.names| - 1]];
  }

  /** A root location that is not in normal form, such as `./upload-dir`,
      refuses every name: `root.toAbsolutePath()` keeps the `.` while the
      destination was normalized. */
  lemma NonNormalRootRejectsAll(root: Path, cwd: seq<string>, name: string, content: seq<byte>)
    requires WellFormed(root) && AllPlain(cwd) && !Normal(root)
    ensures Destination(root, cwd, name, content).Failure?
  {
    StaysInRoot(root, cwd, name, content);
  }

  /** The exact verdict of the check for a relative root location of plain
      names, such as the default `upload-dir`, and a relative name. Let the
      name's normal form be `k` times `..` followed by plain names: it is
      accepted exactly when it climbs no higher than the root location, then
      descends again through the very names it climbed out of, and then
      names one file. The file lands directly in the root. */
  lemma RelativeRootVerdict(root: Path, cwd: seq<string>, name: string, content: seq<byte>, file: Path)
    requires !root.absolute && root.names != [] && AllPlain(root.names) && AllPlain(cwd)
    requires |content| > 0 && Parse(name) == Some(file) && !file.absolute
    ensures var ns := Normalize(file).names;
            var k := LeadingDots(ns);
            Destination(root, cwd, name, content).Success? <==>
              k <= |root.names| && |ns| == 2 * k + 1 && ns[k..2 * k] == root.names[|root.names| - k..]
  {
    var m := RelativeClimb(root, file);
    DestinationAccepts(root, cwd, name, content, file, m);
  }

  /** Where an accepted relative name lands: directly in the root, under
      the plain name that ends its normal form. */
  lemma RelativeRootTarget(root: Path, cwd: seq<string>, name: string, content: seq<byte>, file: Path)
    requires !root.absolute && root.names != [] && AllPlain(root.names) && AllPlain(cwd)
    requires |content| > 0 && Parse(name) == Some(file) && !file.absolute
    requires Destination(root, cwd, name, content).Success?
    ensures var ns := Normalize(file).names;
            var k := LeadingDots(ns);
            && |ns| == 2 * k + 1 && IsPlainName(ns[2 * k])
            && Destination(root, cwd, name, content).value == Path(true, cwd + root.names + [ns[2 * k]])
  {
    var ns := Normalize(file).names;
    var k := LeadingDots(ns);
    var m := RelativeClimb(root, file);
    DestinationLands(root, cwd, name, content, file, m);
    assert cwd + (root.names + [ns[2 * k]]) == cwd + root.names + [ns[2 * k]];
  }

  /** `root.resolve(file).normalize()` for a relative root of plain names,
      and when it is the root plus one name, read off the normal form of
      `file`. */
  lemma RelativeClimb(root: Path, file: Path) returns (m: seq<string>)
    requires !root.absolute && root.names != [] && AllPlain(root.names)
    requires WellFormed(file) && !file.absolute
    ensures Normalize(Resolve(root, file)) == Path(false, m)
    ensures var ns := Normalize(file).names;
            var k := LeadingDots(ns);
            && ((|m| >= 1 && m[..|m| - 1] == root.names) <==>
                  k <= |root.names| && |ns| == 2 * k + 1 && ns[k..2 * k] == root.names[|root.names| - k..])
            && ((|m| >= 1 && m[..|m| - 1] == root.names) ==> IsPlainName(ns[2 * k]) && m == root.names + [ns[2 * k]])
  {
    var ns := Normalize(file).names;
    m := NormalizeBelow(root, file);
    ClimbVerdict(root.names, ns, LeadingDots(ns), m);
  }

  /** The verdict of `ClimbAndReturn` read off the normal form `ns` of the
      name, which climbs `k` levels. */
  lemma ClimbVerdict(rs: seq<string>, ns: seq<string>, k: nat, m: seq<string>)
    requires rs != [] && AllPlain(rs)
    requires k <= |ns| && AllPlain(ns[k..])
    requires m == (if k <= |rs| then rs[..|rs| - k] else Dots(k - |rs|)) + ns[k..]
    ensures (|m| >= 1 && m[..|m| - 1] == rs) <==>
              k <= |rs| && |ns| == 2 * k + 1 && ns[k..2 * k] == rs[|rs| - k..]
    ensures (|m| >= 1 && m[..|m| - 1] == rs) ==> IsPlainName(ns[2 * k]) && m == rs + [ns[2 * k]]
  {
    ClimbAndReturn(rs, k, ns[k..], m);
    TailShape(ns, k);
  }

  /** The names of `ns` after its first `k`, measured in `ns` itself. */
  lemma TailShape(ns: seq<string>, k: nat)
    requires k <= |ns|
    ensures |ns[k..]| == k + 1 <==> |ns| == 2 * k + 1
    ensures |ns| == 2 * k + 1 ==> ns[k..][..k] == ns[k..2 * k] && ns[k..][k] == ns[2 * k]
  {
  }

  /** The names of `root.resolve(file).normalize()` for a relative root of
      plain names and a relative `file` whose normal form climbs `k` levels. */
  lemma NormalizeBelow(root: Path, file: Path) returns (m: seq<string>)
    requires !root.absolute && AllPlain(root.names) && WellFormed(file) && !file.absolute
    ensures var rs := root.names;
            var ns := Normalize(file).names;
            var k := LeadingDots(ns);
            && AllPlain(ns[k..])
            && m == (if k <= |rs| then rs[..|rs| - k] else Dots(k - |rs|)) + ns[k..]
            && Normalize(Resolve(root, file)) == Path(false, m)
  {
    m := Fold(false, [], root.names + file.names);
    NormalizeUnder(root.names, file.names);
    NormalizeResolved(root, file);
  }

  /** `root.resolve(file).normalize()` for a relative root and a relative
      name is the normal form of their names one after the other. */
  lemma NormalizeResolved(root: Path, file: Path)
    requires !root.absolute && !file.absolute
    ensures Normalize(Resolve(root, file)) == Path(false, Fold(false, [], root.names + file.names))
  {
    assert file.names == [] ==> root.names + file.names == root.names;
  }

  /** The arithmetic behind the verdict: after `k` names of `rs` are
      climbed out of and the plain names `t` appended, the result is `rs`
      plus one name exactly when `t` first re-enters the `k` names just
      left and then names one more. */
  lemma ClimbAndReturn(rs: seq<string>, k: nat, t: seq<string>, m: seq<string>)
    requires rs != [] && AllPlain(rs)
    requires m == (if k <= |rs| then rs[..|rs| - k] else Dots(k - |rs|)) + t
    ensures (|m| >= 1 && m[..|m| - 1] == rs) <==> (k <= |rs| && |t| == k + 1 && t[..k] == rs[|rs| - k..])
    ensures (|m| >= 1 && m[..|m| - 1] == rs) ==> m == rs + [t[k]]
  {
    if k <= |rs| {
      var kept := rs[..|rs| - k];
      assert rs == kept + rs[|rs| - k..];
      if |t| == k + 1 {
        assert m[..|m| - 1] == kept + t[..k];
        assert m[|m| - 1] == t[k];
        if m[..|m| - 1] == rs {
          assert t[..k] == (kept + t[..k])[|kept|..];
        }
        assert m == m[..|m| - 1] + [m[|m| - 1]];
      }
    } else {
      assert m[0] == ".." && rs[0] != "..";
    }
  }

  /** The exact verdict of the check for an absolute root location of
      plain names, such as `/var/uploads`, and a relative name. Let the
      name's normal form be `k` times `..` followed by plain names. Climbs
      stop at `/`, so it is accepted exactly when it climbs no higher than
      the root and then re-enters the names it climbed out of, or climbs
      past `/` and then descends through all of the root's names; either way
      it then names one file. */
  lemma AbsoluteRootVerdict(root: Path, cwd: seq<string>, name: string, content: seq<byte>, file: Path)
    requires root.absolute && AllPlain(root.names)
    requires |content| > 0 && Parse(name) == Some(file) && !file.absolute
    ensures var rs := root.names;
            var ns := Normalize(file).names;
            var k := LeadingDots(ns);
            Destination(root, cwd, name, content).Success? <==>
              || (k <= |rs| && |ns| == 2 * k + 1 && ns[k..2 * k] == rs[|rs| - k..])
              || (|rs| < k && |ns| == k + |rs| + 1 && ns[k..k + |rs|] == rs)
  {
    var m := AbsoluteClimb(root, file);
    DestinationAbsolute(root, cwd, name, content, file, m);
  }

  /** Where an accepted relative name lands under an absolute root:
      directly in the root, under the plain name that ends its normal form. */
  lemma AbsoluteRootTarget(root: Path, cwd: seq<string>, name: string, content: seq<byte>, file: Path)
    requires root.absolute && AllPlain(root.names)
    requires |content| > 0 && Parse(name) == Some(file) && !file.absolute
    requires Destination(root, cwd, name, content).Success?
    ensures var ns := Normalize(file).names;
            && ns != [] && IsPlainName(ns[|ns| - 1])
            && Destination(root, cwd, name, content).value == Path(true, root.names + [ns[|ns| - 1]])
  {
    var m := AbsoluteClimb(root, file);
    DestinationAbsolute(root, cwd, name, content, file, m);
  }

  /** `root.resolve(file).normalize()` for an absolute root of plain names,
      and when it is the root plus one name, read off the normal form of
      `file`. */
  lemma AbsoluteClimb(root: Path, file: Path) returns (m: seq<string>)
    requires root.absolute && AllPlain(root.names)
    requires WellFormed(file) && !file.absolute
    ensures Normalize(Resolve(root, file)) == Path(true, m)
    ensures var rs := root.names;
            var ns := Normalize(file).names;
            var k := LeadingDots(ns);
            && ((|m| >= 1 && m[..|m| - 1] == rs) <==>
                  || (k <= |rs| && |ns| == 2 * k + 1 && ns[k..2 * k] == rs[|rs| - k..])
                  || (|rs| < k && |ns| == k + |rs| + 1 && ns[k..k + |rs|] == rs))
            && ((|m| >= 1 && m[..|m| - 1] == rs) ==>
                  ns != [] && IsPlainName(ns[|ns| - 1]) && m == rs + [ns[|ns| - 1]])
  {
    var rs := root.names;
    var ns := Normalize(file).names;
    var k := LeadingDots(ns);
    m := Fold(true, [], rs + file.names);
    AbsoluteUnder(rs, file.names);
    AbsoluteResolved(root, file);
    AbsoluteVerdict(rs, ns, k, m);
  }

  /** The verdict of `AbsoluteClimbAndReturn` read off the normal form `ns`
      of the name, which climbs `k` levels. */
  lemma AbsoluteVerdict(rs: seq<string>, ns: seq<string>, k: nat, m: seq<string>)
    requires k <= |ns| && AllPlain(ns[k..])
    requires m == (if k <= |rs| then rs[..|rs| - k] else []) + ns[k..]
    ensures (|m| >= 1 && m[..|m| - 1] == rs) <==>
              || (k <= |rs| && |ns| == 2 * k + 1 && ns[k..2 * k] == rs[|rs| - k..])
              || (|rs| < k && |ns| == k + |rs| + 1 && ns[k..k + |rs|] == rs)
    ensures (|m| >= 1 && m[..|m| - 1] == rs) ==>
              ns != [] && IsPlainName(ns[|ns| - 1]) && m == rs + [ns[|ns| - 1]]
  {
    AbsoluteClimbAndReturn(rs, k, ns[k..], m);
    AbsoluteTailShape(ns, k, |rs|);
  }

  /** `root.resolve(file).normalize()` for an absolute root and a relative
      name is the normal form of their names one after the other. */
  lemma AbsoluteResolved(root: Path, file: Path)
    requires root.absolute && !file.absolute
    ensures Normalize(Resolve(root, file)) == Path(true, Fold(true, [], root.names + file.names))
  {
    assert file.names == [] ==> root.names + file.names == root.names;
  }

  /** The names of `ns` after its first `k`, measured in `ns` itself. */
  lemma AbsoluteTailShape(ns: seq<string>, k: nat, r: nat)
    requires k <= |ns|
    ensures |ns[k..]| == k + 1 <==> |ns| == 2 * k + 1
    ensures |ns| == 2 * k + 1 ==> ns[k..][..k] == ns[k..2 * k]
    ensures |ns[k..]| == r + 1 <==> |ns| == k + r + 1
    ensures |ns| == k + r + 1 ==> ns[k..][..r] == ns[k..k + r]
    ensures |ns| > k ==> ns[k..][|ns[k..]| - 1] == ns[|ns| - 1]
  {
  }

  /** The arithmetic behind the absolute verdict: after `k` names of `rs`
      are climbed out of, never past `/`, and the plain names `t` appended,
      the result is `rs` plus one name exactly when `t` re-enters the names
      just left, all of `rs` if the climb reached `/`, and names one more. */
  lemma AbsoluteClimbAndReturn(rs: seq<string>, k: nat, t: seq<string>, m: seq<string>)
    requires m == (if k <= |rs| then rs[..|rs| - k] else []) + t
    ensures (|m| >= 1 && m[..|m| - 1] == rs) <==>
              || (k <= |rs| && |t| == k + 1 && t[..k] == rs[|rs| - k..])
              || (|rs| < k && |t| == |rs| + 1 && t[..|rs|] == rs)
    ensures (|m| >= 1 && m[..|m| - 1] == rs) ==> t != [] && m == rs + [t[|t| - 1]]
  {
    if k <= |rs| {
      var kept := rs[..|rs| - k];
      assert rs == kept + rs[|rs| - k..];
      if |t| == k + 1 {
        assert m[..|m| - 1] == kept + t[..k];
        assert m[|m| - 1] == t[k];
        if m[..|m| - 1] == rs {
          assert t[..k] == (kept + t[..k])[|kept|..];
        }
        assert m == m[..|m| - 1] + [m[|m| - 1]];
      }
    } else {
      assert m == t;
      if |t| >= 1 {
        assert t == t[..|t| - 1] + [t[|t| - 1]];
      }
    }
  }

  /** For an absolute root, the check accepts exactly when the normalized
      destination is the root plus one name, and the destination is then
      that path. */
  lemma DestinationAbsolute(root: Path, cwd: seq<string>, name: string, content: seq<byte>, file: Path, m: seq<string>)
    requires |content| > 0 && root.absolute && Parse(name) == Some(file)
    requires Normalize(Resolve(root, file)) == Path(true, m)
    ensures Destination(root, cwd, name, content).Success? <==> |m| >= 1 && m[..|m| - 1] == root.names
    ensures Destination(root, cwd, name, content).Success? ==> Destination(root, cwd, name, content).value == Path(true, m)
  {
    assert ToAbsolutePath(root, cwd) == Path(true, root.names);
  }

  /** The parent of `cwd + m` is `cwd + rs` exactly when `m` is `rs` plus one
      more name. */
  lemma ParentCheck(cwd: seq<string>, m: seq<string>, rs: seq<string>)
    ensures GetParent(Path(true, cwd + m)) == Some(Path(true, cwd + rs))
            <==> |m| >= 1 && m[..|m| - 1] == rs
  {
    var all := cwd + m;
    if |m| >= 1 {
      assert all[..|all| - 1] == cwd + m[..|m| - 1];
      if all[..|all| - 1] == cwd + rs {
        assert m[..|m| - 1] == (cwd + rs)[|cwd|..];
      }
    } else {
      assert all == cwd;
      if all != [] {
        assert |all[..|all| - 1]| < |cwd + rs|;
      }
    }
  }

  // ---------------------------------------------------------------------------
  // Names the check refuses and accepts, for the default location
  // ---------------------------------------------------------------------------

  /** The root for the default configuration, `Paths.get("upload-dir")`. */
  function DefaultRoot(): (r: Path)
    ensures RootLocation(DefaultLocation) == Success(r)
    ensures r == Path(false, [DefaultLocation]) && IsPlainName(DefaultLocation)
  {
    assert IsPlainName(DefaultLocation) && DefaultLocation[0] > ' ';
    PlainLocation(DefaultLocation);
    Path(false, [DefaultLocation])
  }

  /** A location that is one plain name not starting with a blank is
      accepted as a relative root of that one name. */
  lemma PlainLocation(dir: string)
    requires IsPlainName(dir) && dir[0] > ' '
    ensures RootLocation(dir) == Success(Path(false, [dir]))
  {
    ParseRelative([dir], dir);
    assert !IsBlank(dir);
  }

  /** `Paths.get` of a relative name written as plain text. */
  lemma ParseRelative(names: seq<string>, text: string)
    requires AllNames(names) && text == Join(names)
    ensures Parse(text) == Some(Path(false, names))
  {
    ParseFormat(Path(false, names));
    assert Format(Path(false, names)) == text;
  }

  /** The verdict of the parent check for a relative root once the name is
      known to normalize, below the root location, to the names `m`. */
  lemma DestinationRelative(root: Path, cwd: seq<string>, name: string, content: seq<byte>, file: Path, m: seq<string>)
    requires |content| > 0 && !root.absolute && Parse(name) == Some(file)
    requires Normalize(Resolve(root, file)) == Path(false, m)
    ensures |m| >= 1 && m[..|m| - 1] == root.names ==>
              Destination(root, cwd, name, content) == Success(Path(true, cwd + m))
    ensures cwd + m != [] && !(|m| >= 1 && m[..|m| - 1] == root.names) ==>
              Destination(root, cwd, name, content) == Failure(StorageException(OutsideMessage))
    ensures cwd + m == [] ==> Destination(root, cwd, name, content) == Failure(NullPointerException)
    ensures Destination(root, cwd, name, content).Success? <==> |m| >= 1 && m[..|m| - 1] == root.names
  {
    ParentCheck(cwd, m, root.names);
  }

  // The next four lemmas each restate one clause of `DestinationRelative`.
  // A proof that needs only that clause calls one of them, so that the
  // other clauses about `Destination` stay out of its context and the proof
  // stays cheap.

  /** The verdict alone of `DestinationRelative`. */
  lemma DestinationAccepts(root: Path, cwd: seq<string>, name: string, content: seq<byte>, file: Path, m: seq<string>)
    requires |content| > 0 && !root.absolute && Parse(name) == Some(file)
    requires Normalize(Resolve(root, file)) == Path(false, m)
    ensures Destination(root, cwd, name, content).Success? <==> |m| >= 1 && m[..|m| - 1] == root.names
  {
    DestinationRelative(root, cwd, name, content, file, m);
  }

  /** The refusing case alone of `DestinationRelative`. */
  lemma DestinationRefuses(root: Path, cwd: seq<string>, name: string, content: seq<byte>, file: Path, m: seq<string>)
    requires |content| > 0 && !root.absolute && Parse(name) == Some(file)
    requires Normalize(Resolve(root, file)) == Path(false, m)
    requires cwd + m != [] && !(|m| >= 1 && m[..|m| - 1] == root.names)
    ensures Destination(root, cwd, name, content) == Failure(StorageException(OutsideMessage))
  {
    DestinationRelative(root, cwd, name, content, file, m);
  }

  /** The accepting case alone of `DestinationRelative`. */
  lemma DestinationSucceeds(root: Path, cwd: seq<string>, name: string, content: seq<byte>, file: Path, m: seq<string>)
    requires |content| > 0 && !root.absolute && Parse(name) == Some(file)
    requires Normalize(Resolve(root, file)) == Path(false, m)
    requires |m| >= 1 && m[..|m| - 1] == root.names
    ensures Destination(root, cwd, name, content) == Success(Path(true, cwd + m))
  {
    DestinationRelative(root, cwd, name, content, file, m);
  }

  /** Where an accepted name lands, by `DestinationRelative`. */
  lemma DestinationLands(root: Path, cwd: seq<string>, name: string, content: seq<byte>, file: Path, m: seq<string>)
    requires |content| > 0 && !root.absolute && Parse(name) == Some(file)
    requires Normalize(Resolve(root, file)) == Path(false, m)
    requires Destination(root, cwd, name, content).Success?
    ensures |m| >= 1 && m[..|m| - 1] == root.names
    ensures Destination(root, cwd, name, content).value == Path(true, cwd + m)
  {
    DestinationRelative(root, cwd, name, content, file, m);
  }

  /** A name that climbs out of a root of one plain name, such as the
      default `upload-dir`, is refused. */
  lemma ClimbOutRejected(cwd: seq<string>, dir: string, x: string, content: seq<byte>)
    requires AllPlain(cwd) && IsPlainName(dir) && IsPlainName(x) && |content| > 0
    ensures Destination(Path(false, [dir]), cwd, "../" + x, content) == Failure(StorageException(OutsideMessage))
  {
    var file := Path(false, ["..", x]);
    ParseClimb(x);
    NormalizeClimb(dir, x);
    DestinationRefuses(Path(false, [dir]), cwd, "../" + x, content, file, [x]);
  }

  /** `Paths.get("../x")`. */
  lemma ParseClimb(x: string)
    requires IsPlainName(x)
    ensures Parse("../" + x) == Some(Path(false, ["..", x]))
  {
    assert Join(["..", x]) == "../" + x by { assert ["..", x][1..] == [x]; }
    ParseRelative(["..", x], "../" + x);
  }

  /** `dir/../x` normalizes to `x`. */
  lemma NormalizeClimb(dir: string, x: string)
    requires IsPlainName(dir) && IsPlainName(x)
    ensures Normalize(Resolve(Path(false, [dir]), Path(false, ["..", x]))) == Path(false, [x])
  {
    assert Resolve(Path(false, [dir]), Path(false, ["..", x])) == Path(false, [dir, "..", x]);
    FoldThree(false, [], dir, "..", x);
    FoldTwo(false, [], dir, "..");
    assert Push(false, [], dir) == [dir];
    assert Push(false, [dir], "..") == [];
    assert Push(false, [], x) == [x];
  }

  /** A name that climbs out of the root after a detour is refused. */
  lemma ClimbTwiceRejected(cwd: seq<string>, dir: string, a: string, x: string, content: seq<byte>)
    requires AllPlain(cwd) && IsPlainName(dir) && IsPlainName(a) && IsPlainName(x) && |content| > 0
    ensures Destination(Path(false, [dir]), cwd, a + "/../../" + x, content) == Failure(StorageException(OutsideMessage))
  {
    var file := Path(false, [a, "..", "..", x]);
    ParseClimbTwice(a, x);
    NormalizeClimbTwice(dir, a, x);
    DestinationRefuses(Path(false, [dir]), cwd, a + "/../../" + x, content, file, [x]);
  }

  /** `Paths.get("a/../../x")`. */
  lemma ParseClimbTwice(a: string, x: string)
    requires IsPlainName(a) && IsPlainName(x)
    ensures Parse(a + "/../../" + x) == Some(Path(false, [a, "..", "..", x]))
  {
    var names := [a, "..", "..", x];
    assert Join(names) == a + "/../../" + x by {
      assert Join(["..", x]) == ".." + "/" + x by { assert ["..", x][1..] == [x]; }
      assert Join(["..", "..", x]) == ".." + "/" + Join(["..", x]) by { assert ["..", "..", x][1..] == ["..", x]; }
      assert names[1..] == ["..", "..", x];
    }
    ParseRelative(names, a + "/../../" + x);
  }

  /** `dir/a/../../x` normalizes to `x`. */
  lemma NormalizeClimbTwice(dir: string, a: string, x: string)
    requires IsPlainName(dir) && IsPlainName(a) && IsPlainName(x)
    ensures Normalize(Resolve(Path(false, [dir]), Path(false, [a, "..", "..", x]))) == Path(false, [x])
  {
    assert Resolve(Path(false, [dir]), Path(false, [a, "..", "..", x])) == Path(false, [dir, a, "..", "..", x]);
    FoldFive(false, [], dir, a, "..", "..", x);
    FoldFour(false, [], dir, a, "..", "..");
    FoldThree(false, [], dir, a, "..");
    FoldTwo(false, [], dir, a);
    assert Push(false, [], dir) == [dir];
    assert Push(false, [dir], a) == [dir, a];
    assert Push(false, [dir, a], "..") == [dir];
    assert Push(false, [dir], "..") == [];
    assert Push(false, [], x) == [x];
  }

  /** An absolute name replaces the root entirely; `/a/x` is accepted only
      when `/a` happens to be the absolute root, as for `/etc/passwd` it is
      not. */
  lemma AbsoluteNameVerdict(cwd: seq<string>, dir: string, a: string, x: string, content: seq<byte>)
    requires AllPlain(cwd) && IsPlainName(dir) && IsPlainName(a) && IsPlainName(x) && |content| > 0
    ensures var r := Destination(Path(false, [dir]), cwd, "/" + a + "/" + x, content);
            && (r.Success? <==> cwd == [] && a == dir)
            && (r.Failure? ==> r.error == StorageException(OutsideMessage))
  {
    var p := Path(true, [a, x]);
    ParseFormat(p);
    assert Join([a, x]) == a + "/" + x by { assert [a, x][1..] == [x]; }
    assert Format(p) == "/" + a + "/" + x;
    PlainIsNormal(true, p.names);
    assert [a] == cwd + [dir] <==> cwd == [] && a == dir by {
      if [a] == cwd + [dir] {
        assert |cwd| == 0;
        assert (cwd + [dir])[0] == dir;
      }
    }
  }

  /** A name that points into a subdirectory of the root is refused. */
  lemma NestedNameRejected(cwd: seq<string>, dir: string, a: string, x: string, content: seq<byte>)
    requires AllPlain(cwd) && IsPlainName(dir) && IsPlainName(a) && IsPlainName(x) && |content| > 0
    ensures Destination(Path(false, [dir]), cwd, a + "/" + x, content) == Failure(StorageException(OutsideMessage))
  {
    ParseNested(a, x);
    NormalizeNested(dir, a, x);
    assert [dir, a, x][..2] != [dir];
    DestinationRefuses(Path(false, [dir]), cwd, a + "/" + x, content, Path(false, [a, x]), [dir, a, x]);
  }

  /** `Paths.get("a/x")`. */
  lemma ParseNested(a: string, x: string)
    requires IsPlainName(a) && IsPlainName(x)
    ensures Parse(a + "/" + x) == Some(Path(false, [a, x]))
  {
    assert Join([a, x]) == a + "/" + x by { assert [a, x][1..] == [x]; }
    ParseRelative([a, x], a + "/" + x);
  }

  /** `dir/a/x` is already normal. */
  lemma NormalizeNested(dir: string, a: string, x: string)
    requires IsPlainName(dir) && IsPlainName(a) && IsPlainName(x)
    ensures Normalize(Resolve(Path(false, [dir]), Path(false, [a, x]))) == Path(false, [dir, a, x])
  {
    assert Resolve(Path(false, [dir]), Path(false, [a, x])) == Path(false, [dir, a, x]);
    FoldThree(false, [], dir, a, x);
    FoldTwo(false, [], dir, a);
  }

  /** The empty name and `.` normalize to the root itself and are refused;
      `..` normalizes to the working directory, which has no parent when it
      is `/`, so the check throws there. */
  lemma RootItselfRejected(cwd: seq<string>, dir: string, content: seq<byte>)
    requires AllPlain(cwd) && IsPlainName(dir) && |content| > 0
    ensures Destination(Path(false, [dir]), cwd, "", content) == Failure(StorageException(OutsideMessage))
    ensures Destination(Path(false, [dir]), cwd, ".", content) == Failure(StorageException(OutsideMessage))
    ensures Destination(Path(false, [dir]), cwd, "..", content)
            == if cwd == [] then Failure(NullPointerException) else Failure(StorageException(OutsideMessage))
  {
    EmptyNameRejected(cwd, dir, content);
    DotNameRejected(cwd, dir, content);
    DotDotNameRejected(cwd, dir, content);
  }

  lemma EmptyNameRejected(cwd: seq<string>, dir: string, content: seq<byte>)
    requires IsPlainName(dir) && |content| > 0
    ensures Destination(Path(false, [dir]), cwd, "", content) == Failure(StorageException(OutsideMessage))
  {
    var root := Path(false, [dir]);
    assert [dir][..0] != [dir];
    assert cwd + [dir] != [];
    assert Normalize(root) == root by {
      PlainIsNormal(false, [dir]);
    }
    ParseRelative([], "");
    DestinationRefuses(root, cwd, "", content, Path(false, []), [dir]);
  }

  lemma DotNameRejected(cwd: seq<string>, dir: string, content: seq<byte>)
    requires IsPlainName(dir) && |content| > 0
    ensures Destination(Path(false, [dir]), cwd, ".", content) == Failure(StorageException(OutsideMessage))
  {
    var root := Path(false, [dir]);
    assert [dir][..0] != [dir];
    assert cwd + [dir] != [];
    ParseRelative(["."], ".");
    assert Normalize(Resolve(root, Path(false, ["."]))) == Path(false, [dir]) by {
      assert Resolve(root, Path(false, ["."])) == Path(false, [dir, "."]);
      FoldTwo(false, [], dir, ".");
      assert Push(false, [], dir) == [dir];
      assert Push(false, [dir], ".") == [dir];
    }
    DestinationRefuses(root, cwd, ".", content, Path(false, ["."]), [dir]);
  }

  lemma DotDotNameRejected(cwd: seq<string>, dir: string, content: seq<byte>)
    requires IsPlainName(dir) && |content| > 0
    ensures Destination(Path(false, [dir]), cwd, "..", content)
            == if cwd == [] then Failure(NullPointerException) else Failure(StorageException(OutsideMessage))
  {
    var root := Path(false, [dir]);
    assert [][..0] != [dir];
    ParseRelative([".."], "..");
    assert Normalize(Resolve(root, Path(false, [".."]))) == Path(false, []) by {
      assert Resolve(root, Path(false, [".."])) == Path(false, [dir, ".."]);
      FoldTwo(false, [], dir, "..");
      assert Push(false, [], dir) == [dir];
      assert Push(false, [dir], "..") == [];
    }
    assert cwd + [] == cwd;
    DestinationRelative(root, cwd, "..", content, Path(false, [".."]), []);
  }

  /** Under the root location `/`, the empty name and `.` normalize to `/`
      itself, whose parent is `null`: the check throws a
      `NullPointerException` instead of refusing them. */
  lemma SlashRootSelfThrows(cwd: seq<string>, content: seq<byte>)
    requires |content| > 0
    ensures RootLocation("/") == Success(Path(true, []))
    ensures Destination(Path(true, []), cwd, "", content) == Failure(NullPointerException)
    ensures Destination(Path(true, []), cwd, ".", content) == Failure(NullPointerException)
  {
    assert Parse("/") == Some(Path(true, [])) by {
      assert SplitNames("/", "") == Flush("") + SplitNames("", "");
    }
    assert "/"[0] > ' ';
    ParseRelative([], "");
    ParseRelative(["."], ".");
    assert Normalize(Path(true, ["."])) == Path(true, []) by {
      assert Push(true, [], ".") == [];
      assert ["."][..0] == [];
    }
  }

  /** The name `/` normalizes to the file system root, whose parent is
      `null`: the check throws a `NullPointerException`. */
  lemma SlashNameThrows(cwd: seq<string>, root: Path, content: seq<byte>)
    requires |content| > 0
    ensures Destination(root, cwd, "/", content) == Failure(NullPointerException)
  {
    assert Parse("/") == Some(Path(true, [])) by {
      assert SplitNames("/", "") == Flush("") + SplitNames("", "");
    }
  }

  /** A name whose detour stays inside the root is accepted, and the file
      lands directly in the root. */
  lemma DetourAccepted(cwd: seq<string>, dir: string, a: string, x: string, content: seq<byte>)
    requires AllPlain(cwd) && IsPlainName(dir) && IsPlainName(a) && IsPlainName(x) && |content| > 0
    ensures Destination(Path(false, [dir]), cwd, a + "/../" + x, content) == Success(Path(true, cwd + [dir, x]))
  {
    ParseDetour(a, x);
    NormalizeDetour(dir, a, x);
    assert [dir, x][..1] == [dir];
    DestinationSucceeds(Path(false, [dir]), cwd, a + "/../" + x, content, Path(false, [a, "..", x]), [dir, x]);
  }

  /** `Paths.get("a/../x")`. */
  lemma ParseDetour(a: string, x: string)
    requires IsPlainName(a) && IsPlainName(x)
    ensures Parse(a + "/../" + x) == Some(Path(false, [a, "..", x]))
  {
    assert Join(["..", x]) == ".." + "/" + x by { assert ["..", x][1..] == [x]; }
    assert Join([a, "..", x]) == a + "/" + Join(["..", x]) by { assert [a, "..", x][1..] == ["..", x]; }
    ParseRelative([a, "..", x], a + "/../" + x);
  }

  /** `dir/a/../x` normalizes to `dir/x`. */
  lemma NormalizeDetour(dir: string, a: string, x: string)
    requires IsPlainName(dir) && IsPlainName(a) && IsPlainName(x)
    ensures Normalize(Resolve(Path(false, [dir]), Path(false, [a, "..", x]))) == Path(false, [dir, x])
  {
    assert Resolve(Path(false, [dir]), Path(false, [a, "..", x])) == Path(false, [dir, a, "..", x]);
    FoldFour(false, [], dir, a, "..", x);
    FoldThree(false, [], dir, a, "..");
    FoldTwo(false, [], dir, a);
    assert Push(false, [], dir) == [dir];
    assert Push(false, [dir], a) == [dir, a];
    assert Push(false, [dir, a], "..") == [dir];
    assert Push(false, [dir], x) == [dir, x];
  }

  /** A name that leaves the root and re-enters it by its own name is
      accepted: only where the name ends up is checked. */
  lemma ReenterAccepted(cwd: seq<string>, dir: string, x: string, content: seq<byte>)
    requires AllPlain(cwd) && IsPlainName(dir) && IsPlainName(x) && |content| > 0
    ensures Destination(Path(false, [dir]), cwd, "../" + dir + "/" + x, content) == Success(Path(true, cwd + [dir, x]))
  {
    ParseReenter(dir, x);
    NormalizeReenter(dir, x);
    assert [dir, x][..1] == [dir];
    DestinationSucceeds(Path(false, [dir]), cwd, "../" + dir + "/" + x, content, Path(false, ["..", dir, x]), [dir, x]);
  }

  /** `Paths.get("../dir/x")`. */
  lemma ParseReenter(dir: string, x: string)
    requires IsPlainName(dir) && IsPlainName(x)
    ensures Parse("../" + dir + "/" + x) == Some(Path(false, ["..", dir, x]))
  {
    assert Join([dir, x]) == dir + "/" + x by { assert [dir, x][1..] == [x]; }
    assert Join(["..", dir, x]) == ".." + "/" + Join([dir, x]) by { assert ["..", dir, x][1..] == [dir, x]; }
    ParseRelative(["..", dir, x], "../" + dir + "/" + x);
  }

  /** `dir/../dir/x` normalizes to `dir/x`. */
  lemma NormalizeReenter(dir: string, x: string)
    requires IsPlainName(dir) && IsPlainName(x)
    ensures Normalize(Resolve(Path(false, [dir]), Path(false, ["..", dir, x]))) == Path(false, [dir, x])
  {
    assert Resolve(Path(false, [dir]), Path(false, ["..", dir, x])) == Path(false, [dir, "..", dir, x]);
    FoldFour(false, [], dir, "..", dir, x);
    FoldThree(false, [], dir, "..", dir);
    FoldTwo(false, [], dir, "..");
  }

  /** Under an absolute root `/dir`, the name `../../dir/x` climbs past `/`,
      stays there, and comes back into the root: it is accepted, while the
      same name is refused under the relative root `dir`. */
  lemma OvershootAccepted(cwd: seq<string>, dir: string, x: string, content: seq<byte>)
    requires IsPlainName(dir) && IsPlainName(x) && |content| > 0
    ensures Destination(Path(true, [dir]), cwd, "../../" + dir + "/" + x, content) == Success(Path(true, [dir, x]))
  {
    ParseOvershoot(dir, x);
    NormalizeOvershoot(dir, x);
    assert [dir, x][..1] == [dir];
    DestinationAbsolute(Path(true, [dir]), cwd, "../../" + dir + "/" + x, content, Path(false, ["..", "..", dir, x]), [dir, x]);
  }

  /** `Paths.get("../../dir/x")`. */
  lemma ParseOvershoot(dir: string, x: string)
    requires IsPlainName(dir) && IsPlainName(x)
    ensures Parse("../../" + dir + "/" + x) == Some(Path(false, ["..", "..", dir, x]))
  {
    assert Join([dir, x]) == dir + "/" + x by { assert [dir, x][1..] == [x]; }
    assert Join(["..", dir, x]) == ".." + "/" + Join([dir, x]) by { assert ["..", dir, x][1..] == [dir, x]; }
    assert Join(["..", "..", dir, x]) == ".." + "/" + Join(["..", dir, x]) by { assert ["..", "..", dir, x][1..] == ["..", dir, x]; }
    assert "../../" + dir + "/" + x == ".." + "/" + (".." + "/" + (dir + "/" + x));
    ParseRelative(["..", "..", dir, x], "../../" + dir + "/" + x);
  }

  /** `/dir/../../dir/x` normalizes to `/dir/x`. */
  lemma NormalizeOvershoot(dir: string, x: string)
    requires IsPlainName(dir) && IsPlainName(x)
    ensures Normalize(Resolve(Path(true, [dir]), Path(false, ["..", "..", dir, x]))) == Path(true, [dir, x])
  {
    assert Resolve(Path(true, [dir]), Path(false, ["..", "..", dir, x])) == Path(true, [dir, "..", "..", dir, x]);
    FoldFive(true, [], dir, "..", "..", dir, x);
    FoldFour(true, [], dir, "..", "..", dir);
    FoldThree(true, [], dir, "..", "..");
    FoldTwo(true, [], dir, "..");
    assert Push(true, [], dir) == [dir];
    assert Push(true, [dir], "..") == [];
    assert Push(true, [], "..") == [];
    assert Push(true, [dir], x) == [dir, x];
  }

  /** With the root location `..`, the name `..` passes the parent check:
      the destination is the parent of the root directory. */
  lemma DotDotLocationPassesCheck(cwd: seq<string>, content: seq<byte>)
    requires |content| > 0
    ensures RootLocation("..") == Success(Path(false, [".."]))
    ensures Destination(Path(false, [".."]), cwd, "..", content) == Success(Path(true, cwd + ["..", ".."]))
  {
    DotDotLocation();
    DotDotName(cwd, content);
  }

  /** The location `..` is accepted as it stands. */
  lemma DotDotLocation()
    ensures RootLocation("..") == Success(Path(false, [".."]))
  {
    ParseRelative([".."], "..");
    assert ".."[0] > ' ';
  }

  /** Below the root location `..`, the name `..` lands on `../..`. */
  lemma DotDotName(cwd: seq<string>, content: seq<byte>)
    requires |content| > 0
    ensures Destination(Path(false, [".."]), cwd, "..", content) == Success(Path(true, cwd + ["..", ".."]))
  {
    ParseRelative([".."], "..");
    NormalizeDotDot();
    assert ["..", ".."][..1] == [".."];
    DestinationSucceeds(Path(false, [".."]), cwd, "..", content, Path(false, [".."]), ["..", ".."]);
  }

  /** `../..` is already normal. */
  lemma NormalizeDotDot()
    ensures Normalize(Resolve(Path(false, [".."]), Path(false, [".."]))) == Path(false, ["..", ".."])
  {
    assert Resolve(Path(false, [".."]), Path(false, [".."])) == Path(false, ["..", ".."]);
    FoldTwo(false, [], "..", "..");
    assert Push(false, [], "..") == [".."];
    assert Push(false, [".."], "..") == ["..", ".."];
  }

  // ---------------------------------------------------------------------------
  // loadAll, load, loadAsResource
  // ---------------------------------------------------------------------------

  /** `loadAll`: `Files.walk(root, 1)` yields the root and its entries; the
      root is filtered out and each entry relativized against the root. A
      root that is a regular file lists nothing; a missing root makes the
      walk throw, which becomes a `StorageException`. */
  function Listing(fs: Fs, root: Path, cwd: seq<string>): (r: Result<set<Path>, Failure>)
    ensures r.Failure? <==> !Exists(fs, Locate(root, cwd))
    ensures r.Failure? ==> r.error == StorageException(ReadFailedMessage)
    ensures r.Success? ==>
              forall p :: p in r.value <==>
                && !p.absolute && |p.names| == 1
                && Locate(root, cwd) in fs.dirs
                && Exists(fs, Locate(root, cwd) + p.names)
  {
    var dir := Locate(root, cwd);
    assert forall p: Path :: !p.absolute && |p.names| == 1 ==> p == Path(false, [p.names[0]]);
    if dir in fs.dirs then Success(set name | name in Entries(fs, dir) :: Path(false, [name]))
    else if dir in fs.files then Success({})
    else Failure(StorageException(ReadFailedMessage))
  }

  /** Every listed path is the relativized form of the walked entry
      `root.resolve(p)`, that entry is a direct child of the root directory,
      and the root itself is never listed. */
  lemma ListedAreChildren(fs: Fs, root: Path, cwd: seq<string>, p: Path)
    requires Valid(fs) && WellFormed(root) && AllPlain(cwd)
    requires Listing(fs, root, cwd).Success? && p in Listing(fs, root, cwd).value
    ensures p != Path(false, [])
    ensures Relativize(root, Resolve(root, p)) == Some(p)
    ensures IsPlainName(p.names[0])
    ensures Locate(Resolve(root, p), cwd) == Locate(root, cwd) + p.names
  {
    RelativizeResolve(root, p);
    var dir := Locate(root, cwd);
    var n := p.names[0];
    assert p == Path(false, [n]);
    assert Exists(fs, dir + [n]);
    EntryNameIsPlain(fs, dir, n);
    LocateChild(root, cwd, n);
  }

  /** Every entry on disk has a plain name. */
  lemma EntryNameIsPlain(fs: Fs, dir: Key, n: string)
    requires Valid(fs) && Exists(fs, dir + [n])
    ensures IsPlainName(n)
  {
    var k := dir + [n];
    assert AllPlain(k);
    assert n == k[|k| - 1];
  }

  /** The entry `root.resolve(n)` for a plain name `n` is the entry `n`
      directly inside the root directory. */
  lemma LocateChild(root: Path, cwd: seq<string>, n: string)
    requires IsPlainName(n)
    ensures Locate(Resolve(root, Path(false, [n])), cwd) == Locate(root, cwd) + [n]
  {
    var a := ToAbsolutePath(root, cwd);
    assert ToAbsolutePath(Resolve(root, Path(false, [n])), cwd).names == a.names + [n];
    assert (a.names + [n])[..|a.names|] == a.names;
  }

  /** `load(filename)`: `rootLocation.resolve(filename)`, with no check that
      the result stays inside the root. */
  function LoadPath(root: Path, name: string): (r: Result<Path, Failure>)
    ensures r.Failure? <==> '\0' in name
    ensures r.Failure? ==> r.error == InvalidPathException(name)
    ensures r.Success? ==> r.value.absolute == (root.absolute || (name != "" && name[0] == '/'))
  {
    match Parse(name)
    case None => Failure(InvalidPathException(name))
    case Some(file) => Success(Resolve(root, file))
  }

  /** `load` does not contain: with a root of one plain name, such as the
      default `upload-dir`, the name `../x` reaches the entry `x` beside the
      root directory, which lies below the root only if it is the root. */
  lemma LoadClimbsOut(cwd: seq<string>, dir: string, x: string)
    requires AllPlain(cwd) && IsPlainName(dir) && IsPlainName(x)
    ensures LoadPath(Path(false, [dir]), "../" + x) == Success(Path(false, [dir, "..", x]))
    ensures Locate(Path(false, [dir, "..", x]), cwd) == cwd + [x]
    ensures Below(Locate(Path(false, [dir]), cwd), cwd + [x]) <==> x == dir
  {
    ParseClimb(x);
    assert [dir] + ["..", x] == [dir, "..", x];
    LocateClimbOut(cwd, dir, x);
    assert Locate(Path(false, [dir]), cwd) == cwd + [dir] by {
      PlainIsNormal(true, cwd + [dir]);
    }
    assert (cwd + [x])[..|cwd| + 1] == cwd + [dir] <==> x == dir by {
      assert (cwd + [x])[..|cwd| + 1] == cwd + [x];
      assert (cwd + [x])[|cwd|] == x;
      assert (cwd + [dir])[|cwd|] == dir;
    }
  }

  /** The entry `dir/../x` seen from `cwd` is `x` beside `dir`. */
  lemma LocateClimbOut(cwd: seq<string>, dir: string, x: string)
    requires AllPlain(cwd) && IsPlainName(dir) && IsPlainName(x)
    ensures Locate(Path(false, [dir, "..", x]), cwd) == cwd + [x]
  {
    var names := [dir, "..", x];
    assert Locate(Path(false, names), cwd) == Fold(true, [], cwd + names);
    FoldAppend(true, [], cwd, names);
    PlainIsNormal(true, cwd);
    FoldThree(true, cwd, dir, "..", x);
    FoldTwo(true, cwd, dir, "..");
    assert (cwd + [dir])[..|cwd|] == cwd;
  }

  /** `load` of an absolute name ignores the root. */
  lemma LoadAbsolute(root: Path, a: string, x: string)
    requires IsPlainName(a) && IsPlainName(x)
    ensures LoadPath(root, "/" + a + "/" + x) == Success(Path(true, [a, x]))
  {
    var p := Path(true, [a, x]);
    ParseFormat(p);
    assert Join([a, x]) == a + "/" + x by { assert [a, x][1..] == [x]; }
    assert Format(p) == "/" + a + "/" + x;
  }

  /** `loadAsResource(filename)`: the resource for `load(filename)` is
      returned when it `exists()` or `isReadable()`; for a `file:` URL the
      first holds of files and directories, the second of regular files. */
  function ResourceFor(fs: Fs, root: Path, cwd: seq<string>, name: string): (r: Result<Resource, Failure>)
    ensures r.Failure? && r.error.StorageFileNotFoundException? <==>
              LoadPath(root, name).Success? && !Exists(fs, Locate(LoadPath(root, name).value, cwd))
    ensures r.Failure? && r.error.StorageFileNotFoundException? ==>
              r.error.message == NotReadablePrefix + name
    ensures r.Failure? && !r.error.StorageFileNotFoundException? ==> r.error == InvalidPathException(name)
    ensures r.Success? ==>
              && LoadPath(root, name).Success?
              && r.value.file == ToAbsolutePath(LoadPath(root, name).value, cwd)
              && Exists(fs, Locate(r.value.file, cwd))
  {
    match LoadPath(root, name)
    case Failure(e) => Failure(e)
    case Success(file) =>
      var k := Locate(file, cwd);
      if Exists(fs, k) || k in fs.files then Success(Resource(ToAbsolutePath(file, cwd)))
      else Failure(StorageFileNotFoundException(NotReadablePrefix + name))
  }

  /** The bytes a resource streams: those of the regular file it names. */
  function Contents(fs: Fs, cwd: seq<string>, resource: Resource): (r: Option<seq<byte>>)
    ensures r.Some? <==> Locate(resource.file, cwd) in fs.files
  {
    var k := Locate(resource.file, cwd);
    if k in fs.files then Some(fs.files[k]) else None
  }

  /** With a root location in normal form, a plain name passes the check,
      and `store` and `load` both reach the entry of that name directly
      inside the root directory. */
  lemma PlainNameAccepted(root: Path, cwd: seq<string>, name: string, content: seq<byte>)
    requires WellFormed(root) && Normal(root) && AllPlain(cwd)
    requires IsPlainName(name) && |content| > 0
    ensures Destination(root, cwd, name, content).Success?
    ensures Locate(Destination(root, cwd, name, content).value, cwd) == Locate(root, cwd) + [name]
    ensures LoadPath(root, name).Success?
    ensures Locate(LoadPath(root, name).value, cwd) == Locate(root, cwd) + [name]
  {
    var file := Path(false, [name]);
    var a := ToAbsolutePath(root, cwd);
    var base := Locate(root, cwd);
    var resolved := Path(root.absolute, root.names + [name]);
    var dest := Path(true, a.names + [name]);
    assert Parse(name) == Some(file) by {
      ParseRelative([name], name);
    }
    assert Resolve(root, file) == resolved;
    NormalAppend(root, name);
    assert ToAbsolutePath(resolved, cwd) == dest;
    assert Destination(root, cwd, name, content) == Success(dest) by {
      assert (a.names + [name])[..|a.names|] == a.names;
    }
    LocateAppend(root, cwd, name);
  }

  /** A normal path followed by a plain name is still normal. */
  lemma NormalAppend(root: Path, name: string)
    requires WellFormed(root) && Normal(root) && IsPlainName(name)
    ensures Normalize(Path(root.absolute, root.names + [name])) == Path(root.absolute, root.names + [name])
  {
    NormalFixed(root.absolute, root.names);
    FoldAppend(root.absolute, [], root.names, [name]);
    assert Fold(root.absolute, root.names, [name]) == root.names + [name] by { assert [name][..0] == []; }
  }

  /** The location of the root followed by a plain name. */
  lemma LocateAppend(root: Path, cwd: seq<string>, name: string)
    requires IsPlainName(name)
    ensures Locate(Path(true, ToAbsolutePath(root, cwd).names + [name]), cwd) == Locate(root, cwd) + [name]
  {
    var a := ToAbsolutePath(root, cwd);
    FoldAppend(true, [], a.names, [name]);
    assert Fold(true, Locate(root, cwd), [name]) == Locate(root, cwd) + [name] by { assert [name][..0] == []; }
  }

  /** A blank name such as `" "` is not refused: it parses to one plain
      name and is stored directly in the root under that name. */
  lemma BlankNameAccepted(root: Path, cwd: seq<string>, content: seq<byte>)
    requires WellFormed(root) && Normal(root) && AllPlain(cwd) && |content| > 0
    ensures IsBlank(" ")
    ensures Destination(root, cwd, " ", content).Success?
    ensures Locate(Destination(root, cwd, " ", content).value, cwd) == Locate(root, cwd) + [" "]
  {
    assert IsPlainName(" ");
    PlainNameAccepted(root, cwd, " ", content);
  }

  /** Storing a plain name into the existing root directory succeeds, and
      loading the same name afterwards returns exactly the stored bytes. */
  lemma StoreThenLoad(fs: Fs, root: Path, cwd: seq<string>, name: string, content: seq<byte>)
    requires Valid(fs) && WellFormed(root) && Normal(root) && AllPlain(cwd)
    requires IsPlainName(name) && |content| > 0
    requires Locate(root, cwd) in fs.dirs
    requires Locate(root, cwd) + [name] in fs.dirs ==> Entries(fs, Locate(root, cwd) + [name]) == {}
    ensures StoreEffect(fs, root, cwd, name, content).Success?
    ensures var next := StoreEffect(fs, root, cwd, name, content).value;
            && ResourceFor(next, root, cwd, name).Success?
            && Contents(next, cwd, ResourceFor(next, root, cwd, name).value) == Some(content)
  {
    PlainNameAccepted(root, cwd, name, content);
    var base := Locate(root, cwd);
    var k := base + [name];
    assert AllPlain(k) && k[..|base|] == base;
    var next := StoreEffect(fs, root, cwd, name, content).value;
    assert k in next.files && next.files[k] == content;
  }

  /** Storing a plain name into an empty root directory makes `loadAll`
      list exactly that name. */
  lemma StoreIntoEmptyRootLists(fs: Fs, root: Path, cwd: seq<string>, name: string, content: seq<byte>)
    requires Valid(fs) && WellFormed(root) && Normal(root) && AllPlain(cwd)
    requires IsPlainName(name) && |content| > 0
    requires Locate(root, cwd) in fs.dirs && Entries(fs, Locate(root, cwd)) == {}
    ensures StoreEffect(fs, root, cwd, name, content).Success?
    ensures Listing(StoreEffect(fs, root, cwd, name, content).value, root, cwd) == Success({Path(false, [name])})
  {
    PlainNameAccepted(root, cwd, name, content);
    var base := Locate(root, cwd);
    CopyIntoEmptyDirectory(fs, base, name, content);
    ListsOneName(StoreEffect(fs, root, cwd, name, content).value, root, cwd, name);
  }

  /** A root directory with the one entry `name` lists exactly that name. */
  lemma ListsOneName(fs: Fs, root: Path, cwd: seq<string>, name: string)
    requires Locate(root, cwd) in fs.dirs && Entries(fs, Locate(root, cwd)) == {name}
    ensures Listing(fs, root, cwd) == Success({Path(false, [name])})
  {
    var base := Locate(root, cwd);
    var listed := Listing(fs, root, cwd).value;
    forall p ensures p in listed <==> p == Path(false, [name]) {
      assert !p.absolute && |p.names| == 1 ==> base + p.names == base + [p.names[0]];
    }
    assert listed == {Path(false, [name])};
  }

  // ---------------------------------------------------------------------------
  // init and deleteAll
  // ---------------------------------------------------------------------------

  /** After `deleteAll` the root is gone, so `loadAll` fails rather than
      listing nothing; deleting a root that does not exist changes nothing. */
  lemma DeleteAllThenList(fs: Fs, root: Path, cwd: seq<string>)
    requires Valid(fs) && WellFormed(root) && AllPlain(cwd) && Locate(root, cwd) != []
    ensures Listing(DeleteRecursively(fs, Locate(root, cwd)), root, cwd) == Failure(StorageException(ReadFailedMessage))
    ensures !Exists(fs, Locate(root, cwd)) ==> DeleteRecursively(fs, Locate(root, cwd)) == fs
  {
    var dir := Locate(root, cwd);
    assert Below(dir, dir) by { assert dir[..|dir|] == dir; }
    if !Exists(fs, dir) {
      DeleteMissingIsNoOp(fs, dir);
    }
  }

  /** After `deleteAll` and a successful `init`, the root exists and
      `loadAll` lists nothing. */
  lemma ResetLeavesEmptyRoot(fs: Fs, root: Path, cwd: seq<string>)
    requires Valid(fs) && WellFormed(root) && AllPlain(cwd)
    ensures var dir := Locate(root, cwd);
            var created := CreateDirectories(DeleteRecursively(fs, dir), dir);
            created.Some? ==> dir in created.value.dirs && Listing(created.value, root, cwd) == Success({})
  {
    var dir := Locate(root, cwd);
    DeleteThenCreate(fs, dir);
    var created := CreateDirectories(DeleteRecursively(fs, dir), dir);
    if created.Some? {
      ListsNothing(created.value, root, cwd);
    }
  }

  /** A root directory with no entries lists nothing. */
  lemma ListsNothing(fs: Fs, root: Path, cwd: seq<string>)
    requires Locate(root, cwd) in fs.dirs && Entries(fs, Locate(root, cwd)) == {}
    ensures Listing(fs, root, cwd) == Success({})
  {
    var dir := Locate(root, cwd);
    var listed := Listing(fs, root, cwd).value;
    forall p ensures p !in listed {
      assert !p.absolute && |p.names| == 1 ==> dir + p.names == dir + [p.names[0]];
    }
    assert listed == {};
  }

  /** `init` on a root that already exists changes nothing. */
  lemma InitIdempotent(fs: Fs, root: Path, cwd: seq<string>)
    requires Valid(fs) && Locate(root, cwd) in fs.dirs
    ensures CreateDirectories(fs, Locate(root, cwd)) == Some(fs)
  {
    CreateExisting(fs, Locate(root, cwd));
  }

  // ---------------------------------------------------------------------------
  // The service object
  // ---------------------------------------------------------------------------

  class FileSystemStorageService {
    /** The configured location, `Paths.get(properties.getLocation())`. */
    const rootLocation: Path
    /** The directory the process runs in, which relative paths start from. */
    const cwd: seq<string>
    /** The file system the service reads and writes. */
    var fs: Fs

    ghost predicate Valid()
      reads this
    {
      FileSystem.Valid(fs) && WellFormed(rootLocation) && AllPlain(cwd)
    }

    constructor (root: Path, cwd: seq<string>, fs: Fs)
      requires WellFormed(root) && AllPlain(cwd) && FileSystem.Valid(fs)
      ensures Valid() && rootLocation == root && this.cwd == cwd && this.fs == fs
    {
      rootLocation := root;
      this.cwd := cwd;
      this.fs := fs;
    }

    /** The service's constructor: a blank location is refused. */
    static method Create(location: string, cwd: seq<string>, fs: Fs) returns (r: Result<FileSystemStorageService, Failure>)
      requires AllPlain(cwd) && FileSystem.Valid(fs)
      ensures r.Failure? <==> RootLocation(location).Failure?
      ensures r.Failure? ==> r.error == RootLocation(location).error
      ensures r.Success? ==>
                && fresh(r.value) && r.value.Valid()
                && r.value.rootLocation == RootLocation(location).value
                && r.value.cwd == cwd && r.value.fs == fs
    {
      var root := RootLocation(location);
      if root.Failure? {
        return Failure(root.error);
      }
      var service := new FileSystemStorageService(root.value, cwd, fs);
      return Success(service);
    }

    /** `store(file)`. On failure nothing changes; on success the root
        directory, if it existed, gained or replaced one direct child. */
    method Store(name: string, content: seq<byte>) returns (r: Outcome<Failure>)
      requires Valid()
      modifies this
      ensures Valid()
      ensures r.Pass? <==> StoreEffect(old(fs), rootLocation, cwd, name, content).Success?
      ensures r.Pass? ==> fs == StoreEffect(old(fs), rootLocation, cwd, name, content).value
      ensures r.Fail? ==> fs == old(fs) && r.error == StoreEffect(old(fs), rootLocation, cwd, name, content).error
      ensures r.Pass? && Exists(old(fs), Locate(rootLocation, cwd)) ==>
                var k := Locate(Destination(rootLocation, cwd, name, content).value, cwd);
                && k[..|k| - 1] == Locate(rootLocation, cwd) && IsPlainName(k[|k| - 1])
                && fs.files == old(fs).files[k := content]
                && fs.dirs == old(fs).dirs - {k}
    {
      if |content| == 0 {
        return Fail(StorageException(EmptyFileMessage));
      }
      var file := Parse(name);
      if file.None? {
        return Fail(InvalidPathException(name));
      }
      var destination := ToAbsolutePath(Normalize(Resolve(rootLocation, file.value)), cwd);
      var parent := GetParent(destination);
      if parent.None? {
        return Fail(NullPointerException);
      }
      if parent.value != ToAbsolutePath(rootLocation, cwd) {
        return Fail(StorageException(OutsideMessage));
      }
      assert Destination(rootLocation, cwd, name, content) == Success(destination);
      var copied := Copy(fs, Locate(destination, cwd), content);
      if copied.None? {
        return Fail(StorageException(StoreFailedMessage));
      }
      assert StoreEffect(fs, rootLocation, cwd, name, content) == Success(copied.value);
      if Exists(fs, Locate(rootLocation, cwd)) {
        StoreWritesOnlyInRoot(fs, rootLocation, cwd, name, content, destination, copied.value);
      }
      fs := copied.value;
      r := Pass;
    }

    /** `init()`: `Files.createDirectories(rootLocation)`. */
    method Init() returns (r: Outcome<Failure>)
      requires Valid()
      modifies this
      ensures Valid()
      ensures r.Pass? <==> CreateDirectories(old(fs), Locate(rootLocation, cwd)).Some?
      ensures r.Pass? ==> fs == CreateDirectories(old(fs), Locate(rootLocation, cwd)).value
      ensures r.Pass? ==> Locate(rootLocation, cwd) in fs.dirs
      ensures r.Fail? ==> fs == old(fs) && r.error == StorageException(InitFailedMessage)
    {
      var created := CreateDirectories(fs, Locate(rootLocation, cwd));
      if created.None? {
        return Fail(StorageException(InitFailedMessage));
      }
      fs := created.value;
      r := Pass;
    }

    /** `deleteAll()`: the root and everything below it disappear. */
    method DeleteAll()
      requires Valid()
      modifies this
      ensures Valid()
      ensures fs == DeleteRecursively(old(fs), Locate(rootLocation, cwd))
      ensures !Exists(fs, Locate(rootLocation, cwd)) || Locate(rootLocation, cwd) == []
    {
      fs := DeleteRecursively(fs, Locate(rootLocation, cwd));
    }
  }
}

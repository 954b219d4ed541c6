/**
 * An abstract Unix file system: regular files with their bytes and a set of
 * directories, each addressed by the names of its normalized absolute path.
 * The operations are the library calls the storage service makes
 * (`Files.copy` with `REPLACE_EXISTING`, `Files.createDirectories`,
 * `FileSystemUtils.deleteRecursively`, directory listing), each reduced to its
 * effect on this state.
 */
module FileSystem {
  import opened Wrappers
  import opened Paths

  newtype byte = x: int | 0 <= x < 256

  /** A location on disk: the names of a normalized absolute path; `[]` is `/`. */
  type Key = seq<string>

  datatype Fs = Fs(files: map<Key, seq<byte>>, dirs: set<Key>)

  /** The tree is rooted at `/`, a key is a file or a directory but not both,
      every entry lives in an existing directory, and every name is plain. */
  predicate Valid(fs: Fs) {
    && [] in fs.dirs
    && fs.files.Keys !! fs.dirs
    && (forall k :: k in fs.files ==> k != [] && AllPlain(k) && k[..|k| - 1] in fs.dirs)
    && (forall k :: k in fs.dirs && k != [] ==> AllPlain(k) && k[..|k| - 1] in fs.dirs)
  }

  predicate Exists(fs: Fs, k: Key) {
    k in fs.files || k in fs.dirs
  }

  /** `k` is `d` or lies somewhere below it. */
  predicate Below(d: Key, k: Key) {
    |d| <= |k| && k[..|d|] == d
  }

  /** The key the operating system reaches for path `p` when the process
      runs in directory `cwd`; `.` and `..` are resolved lexically. */
  function Locate(p: Path, cwd: seq<string>): (k: Key)
    ensures WellFormed(p) && AllPlain(cwd) ==> AllPlain(k)
  {
    var abs := ToAbsolutePath(p, cwd);
    assert AllPlain(cwd) ==> AllNames(cwd);
    var n := Normalize(abs);
    NormalizeIsNormal(abs);
    assert WellFormed(abs) ==> forall i :: 0 <= i < |n.names| ==> n.names[i] != "." && n.names[i] != "..";
    n.names
  }

  /** The names listed in directory `d`. */
  function Entries(fs: Fs, d: Key): (r: set<string>)
    ensures forall name :: name in r <==> Exists(fs, d + [name])
  {
    var r := set k | k in fs.files.Keys + fs.dirs && |k| == |d| + 1 && k[..|d|] == d :: k[|d|];
    assert forall name :: Exists(fs, d + [name]) ==> (d + [name])[|d|] == name && (d + [name])[..|d|] == d;
    assert forall k :: |k| == |d| + 1 && k[..|d|] == d ==> k == d + [k[|d|]];
    r
  }

  /** `Files.copy(in, target, REPLACE_EXISTING)`. It fails (`None`, an
      `IOException`) when the target is `/`, when its parent directory is
      missing, or when the target is a directory that still has entries; an
      empty directory or a file at the target is replaced. */
  function Copy(fs: Fs, target: Key, content: seq<byte>): (r: Option<Fs>)
    ensures r.None? <==>
      (target == [] || target[..|target| - 1] !in fs.dirs || (target in fs.dirs && Entries(fs, target) != {}))
    ensures r.Some? ==> r.value.files == fs.files[target := content] && r.value.dirs == fs.dirs - {target}
    ensures Valid(fs) && AllPlain(target) && r.Some? ==> Valid(r.value)
  {
    if target == [] || target[..|target| - 1] !in fs.dirs || (target in fs.dirs && Entries(fs, target) != {}) then
      None
    else
      var next := Fs(fs.files[target := content], fs.dirs - {target});
      assert Valid(fs) && AllPlain(target) ==> Valid(next) by {
        if Valid(fs) && AllPlain(target) {
          CopyKeepsValid(fs, target, content);
        }
      }
      Some(next)
  }

  lemma CopyKeepsValid(fs: Fs, target: Key, content: seq<byte>)
    requires Valid(fs) && AllPlain(target) && target != [] && target[..|target| - 1] in fs.dirs
    requires target !in fs.dirs || Entries(fs, target) == {}
    ensures Valid(Fs(fs.files[target := content], fs.dirs - {target}))
  {
    var next := Fs(fs.files[target := content], fs.dirs - {target});
    forall k | k in next.dirs && k != [] ensures k[..|k| - 1] in next.dirs {
      ParentIsNotTarget(fs, target, k);
    }
    forall k | k in next.files && k != [] && k != target ensures k[..|k| - 1] in next.dirs {
      ParentIsNotTarget(fs, target, k);
    }
  }

  /** An existing entry cannot sit in a directory that lists nothing. */
  lemma ParentIsNotTarget(fs: Fs, target: Key, k: Key)
    requires k != [] && Exists(fs, k)
    requires target !in fs.dirs || Entries(fs, target) == {}
    requires k[..|k| - 1] in fs.dirs
    ensures k[..|k| - 1] != target
  {
    assert k == k[..|k| - 1] + [k[|k| - 1]];
    assert k[|k| - 1] in Entries(fs, k[..|k| - 1]);
  }

  /** Copying a new entry into an empty directory leaves that directory
      listing exactly the new name. */
  lemma CopyIntoEmptyDirectory(fs: Fs, d: Key, name: string, content: seq<byte>)
    requires Valid(fs) && AllPlain(d) && IsPlainName(name)
    requires d in fs.dirs && Entries(fs, d) == {}
    ensures Copy(fs, d + [name], content).Some?
    ensures d in Copy(fs, d + [name], content).value.dirs
    ensures Entries(Copy(fs, d + [name], content).value, d) == {name}
  {
    var k := d + [name];
    assert name !in Entries(fs, d);
    assert k[..|k| - 1] == d && AllPlain(k);
    var next := Copy(fs, k, content).value;
    assert d != k;
    forall n ensures n in Entries(next, d) <==> n == name {
      EntryOfNewFile(fs, d, name, n, content);
    }
  }

  /** After writing `d + [name]` into the empty directory `d`, `n` is an
      entry of `d` exactly when it is `name`. */
  lemma EntryOfNewFile(fs: Fs, d: Key, name: string, n: string, content: seq<byte>)
    requires d in fs.dirs && Entries(fs, d) == {}
    ensures var next := Fs(fs.files[d + [name] := content], fs.dirs - {d + [name]});
            n in Entries(next, d) <==> n == name
  {
    assert d + [n] == d + [name] <==> n == name by {
      assert (d + [n])[|d|] == n;
    }
    assert n !in Entries(fs, d);
  }

  /** The keys of `d` and of all its ancestors. */
  function Prefixes(d: Key): (r: set<Key>)
    ensures forall k :: k in r <==> |k| <= |d| && k == d[..|k|]
  {
    set i | 0 <= i <= |d| :: d[..i]
  }

  /** `Files.createDirectories(d)`: creates `d` and every missing ancestor. It
      fails (`None`, an `IOException`) when `d` or an ancestor is a regular
      file. */
  function CreateDirectories(fs: Fs, d: Key): (r: Option<Fs>)
    ensures r.None? <==> exists i :: 0 <= i <= |d| && d[..i] in fs.files
    ensures Valid(fs) && AllPlain(d) && r.Some? ==>
      && Valid(r.value)
      && r.value.files == fs.files
      && r.value.dirs == fs.dirs + Prefixes(d)
      && d in r.value.dirs
  {
    if exists i :: 0 <= i <= |d| && d[..i] in fs.files then None
    else
      var next := Fs(fs.files, fs.dirs + Prefixes(d));
      assert d == d[..|d|];
      assert Valid(fs) && AllPlain(d) ==> Valid(next) by {
        if Valid(fs) && AllPlain(d) {
          forall k | k in next.dirs && k != [] && k !in fs.dirs
            ensures AllPlain(k) && k[..|k| - 1] in next.dirs
          {
            assert k == d[..|k|];
            assert k[..|k| - 1] == d[..|k| - 1];
          }
          forall k | k in next.files ensures k !in next.dirs {
            assert forall i :: 0 <= i <= |d| ==> d[..i] !in fs.files;
          }
        }
      }
      Some(next)
  }

  /** `FileSystemUtils.deleteRecursively(d)`: removes `d` and everything below
      it; nothing happens when `d` does not exist. The root `/` itself is
      never removed. */
  function DeleteRecursively(fs: Fs, d: Key): (r: Fs)
    ensures forall k :: k in r.files <==> k in fs.files && !Below(d, k)
    ensures forall k :: k in r.files ==> k in fs.files && r.files[k] == fs.files[k]
    ensures forall k :: k in r.dirs <==> k in fs.dirs && (k == [] || !Below(d, k))
    ensures Valid(fs) ==> Valid(r)
  {
    var files := map k | k in fs.files && !Below(d, k) :: fs.files[k];
    var dirs := set k | k in fs.dirs && (k == [] || !Below(d, k));
    assert forall k :: k != [] && Below(d, k[..|k| - 1]) ==> Below(d, k) by {
      forall k | k != [] && Below(d, k[..|k| - 1]) ensures Below(d, k) {
        assert k[..|k| - 1][..|d|] == k[..|d|];
      }
    }
    Fs(files, dirs)
  }

  /** After the subtree at `d` is deleted and `d` is recreated, `d` exists
      and lists no entries, unless an ancestor of `d` is a regular file. */
  lemma {:induction false} DeleteThenCreate(fs: Fs, d: Key)
    requires Valid(fs) && AllPlain(d)
    ensures var cleared := DeleteRecursively(fs, d);
            var created := CreateDirectories(cleared, d);
            && (created.None? <==> exists i :: 0 <= i < |d| && d[..i] in fs.files)
            && (created.Some? ==> d in created.value.dirs && Entries(created.value, d) == {})
  {
    var cleared := DeleteRecursively(fs, d);
    var created := CreateDirectories(cleared, d);
    assert d == d[..|d|];
    assert d !in cleared.files by {
      assert Below(d, d);
    }
    forall i | 0 <= i < |d| && d[..i] in fs.files ensures d[..i] in cleared.files {
      assert !Below(d, d[..i]);
    }
    if created.Some? {
      forall name ensures !Exists(created.value, d + [name]) {
        NothingBelowRecreated(fs, d, name);
      }
    }
  }

  /** A name below `d` is gone once `d` is deleted and recreated. */
  lemma NothingBelowRecreated(fs: Fs, d: Key, name: string)
    requires Valid(fs) && AllPlain(d)
    requires CreateDirectories(DeleteRecursively(fs, d), d).Some?
    ensures !Exists(CreateDirectories(DeleteRecursively(fs, d), d).value, d + [name])
  {
    var k := d + [name];
    assert Below(d, k) by { assert k[..|d|] == d; }
    assert k !in Prefixes(d);
  }

  /** Deleting a location that does not exist changes nothing: nothing can
      lie below it either. */
  lemma DeleteMissingIsNoOp(fs: Fs, d: Key)
    requires Valid(fs) && !Exists(fs, d)
    ensures DeleteRecursively(fs, d) == fs
  {
    forall k | k in fs.files ensures !Below(d, k) {
      var up := k[..|k| - 1];
      AncestorsAreDirectories(fs, up);
      assert |d| <= |up| ==> up[..|d|] == k[..|d|];
      assert |d| == |k| ==> k[..|d|] == k;
    }
    forall k | k in fs.dirs ensures !Below(d, k) {
      AncestorsAreDirectories(fs, k);
    }
    var r := DeleteRecursively(fs, d);
    assert r.files == fs.files;
    assert r.dirs == fs.dirs;
  }

  /** Creating a directory that already exists changes nothing. */
  lemma CreateExisting(fs: Fs, d: Key)
    requires Valid(fs) && d in fs.dirs
    ensures CreateDirectories(fs, d) == Some(fs)
  {
    AncestorsAreDirectories(fs, d);
    assert forall i :: 0 <= i <= |d| ==> d[..i] !in fs.files;
    assert fs.dirs + Prefixes(d) == fs.dirs;
  }

  /** Every ancestor of an existing directory is a directory. */
  lemma {:induction false} AncestorsAreDirectories(fs: Fs, d: Key)
    requires Valid(fs) && d in fs.dirs
    ensures forall i :: 0 <= i <= |d| ==> d[..i] in fs.dirs
    decreases |d|
  {
    if d != [] {
      var up := d[..|d| - 1];
      AncestorsAreDirectories(fs, up);
      forall i | 0 <= i <= |d| ensures d[..i] in fs.dirs {
        if i < |d| {
          assert d[..i] == up[..i];
        } else {
          assert d[..i] == d;
        }
      }
    }
  }
}

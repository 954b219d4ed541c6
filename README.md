# Upload storage engine: a verified model

This project models `FileSystemStorageService`, the storage engine of a small
Spring file-upload service. The engine keeps uploaded files in one directory,
the root location, which comes from configuration (`storage.location`,
default `upload-dir`). It offers these operations:

- `store` writes an upload under the root. A security check comes first: the
  normalized absolute destination must have the absolute root as its parent.
- `loadAll` lists the root's direct entries.
- `load` and `loadAsResource` find a stored file by name.
- `deleteAll` wipes the root.
- `init` recreates the root.

The model has three modules:

- **`Paths`** (`paths.dfy`) models the `java.nio.file.Path` operations on a
  Unix file system, lexically like the JDK's `UnixPath`. They are
  `Paths.get`, `toString`, `resolve`, `normalize`, `toAbsolutePath`,
  `getParent` and `relativize`. A path is a flag for a leading `/` plus its
  name elements. A NUL character makes `Paths.get` fail, and a `null` parent
  is `None`.
- **`FileSystem`** (`filesystem.dfy`) is the disk: a map from canonical
  absolute locations to file contents, plus a set of directories. It has the
  library calls the service makes: `Files.copy` with `REPLACE_EXISTING`,
  `Files.createDirectories`, `FileSystemUtils.deleteRecursively` and
  directory listing.
- **`Storage`** (`storage.dfy`) covers the service itself.
  - The constructor check.
  - The destination check of `store` and its full effect.
  - `loadAll`, `load` and `loadAsResource`.
  - The class `FileSystemStorageService`, whose `Store`, `Init` and
    `DeleteAll` methods update the file system in place.

The process's working directory is a parameter (`cwd`). Relative paths are
taken against it.

The main results are about `store`:

- **The security property.** When the root directory exists, a successful
  `store` writes exactly one regular file. That file is a direct child of the
  root directory, its name is plain, and nothing else changes
  (`StoreWritesOnlyInRoot`).
- **The exact verdict of the check.** Take a relative root of plain names,
  such as `upload-dir`, and a relative name. Write the name's normal form as
  `k` copies of `..` followed by plain names. The check accepts exactly
  when:
  - the name climbs at most as many levels as the root has;
  - it then descends back through the same names it climbed out of;
  - it then names exactly one file (`RelativeRootVerdict`).

  For an absolute root such as `/var/uploads`, climbs stop at `/`. A name
  that climbs past `/` is also accepted when it then descends through all
  of the root's names and names one file, so `../../../var/uploads/x` is
  stored as `/var/uploads/x` (`AbsoluteRootVerdict`, `OvershootAccepted`).
- **A root location that is not in normal form,** such as `./upload-dir`,
  refuses every name (`NonNormalRootRejectsAll`).

Behaviour worth knowing:

- **`loadAll` on a missing root** throws `StorageException("Failed to read
  stored files")`, because `Files.walk` throws. It does not return an empty
  listing. Hence after `deleteAll` the listing fails (`DeleteAllThenList`).
  The listing is empty only after a following `init`
  (`ResetLeavesEmptyRoot`).
- **The empty name and `.`** get no separate error. Under a root such as
  `upload-dir` both normalize to the root itself, so they fail the parent
  check with "Cannot store file outside current directory."
  (`RootItselfRejected`). Under the root `/` they normalize to `/`, whose
  parent is `null`, and the check throws a `NullPointerException`
  (`SlashRootSelfThrows`).
- **A blank name such as `" "`** is not refused. `Paths.get` reads it as one
  plain name, and the file is stored directly in the root under that name
  (`BlankNameAccepted`).
- **A name that normalizes to `/`** makes `getParent()` return `null`, and
  the check itself then throws a `NullPointerException` (`SlashNameThrows`).
  Under a relative root of one plain name, such as `upload-dir`, the name
  `..` does the same when the working directory is `/`
  (`RootItselfRejected`). Under a deeper relative root of plain names the
  destination `..` has a parent, and the check refuses it with a
  `StorageException` (`RelativeRootVerdict`). Under a root made only of
  `..` names, such as `..`, the name `..` passes the check
  (`DotDotLocationPassesCheck`), and the copy onto the root's parent then
  fails while the root exists (`ParentOfRootIsNotWritable`).

## Model

All source paths are under `src/main/java/com/example/HWSpring5_2/`; the
table spells them out in full.

| member | source | states |
|---|---|---|
| `Paths.Parse` | src/main/java/com/example/HWSpring5_2/service/impl/FileSystemStorageService.java:58 | `Paths.get(s)` fails exactly when `s` holds a NUL; otherwise every name is non-empty and slash-free, and the path is absolute exactly when `s` starts with `/` |
| `Paths.ParseFormat` | src/main/java/com/example/HWSpring5_2/service/impl/FileSystemStorageService.java:41 | parsing what `toString` prints gives back the same path (round trip) |
| `Paths.Normalize` | src/main/java/com/example/HWSpring5_2/service/impl/FileSystemStorageService.java:59 | `normalize()` keeps absoluteness and never adds names; its normal form, idempotence and fixed points are stated by `NormalizeIsNormal`, `NormalizeIdempotent` and `NormalFixed` |
| `Paths.NormalizeIsNormal` | src/main/java/com/example/HWSpring5_2/service/impl/FileSystemStorageService.java:59 | `normalize()` keeps absoluteness, keeps names well formed and yields a normal form: no `.`, no `..` in an absolute path, and in a relative one every `..` before every other name |
| `Paths.NormalizeIdempotent` | src/main/java/com/example/HWSpring5_2/service/impl/FileSystemStorageService.java:59 | normalizing twice is normalizing once |
| `Paths.NormalFixed` | src/main/java/com/example/HWSpring5_2/service/impl/FileSystemStorageService.java:59 | a path already in normal form is left unchanged by `normalize()` |
| `Paths.FoldPlain` | src/main/java/com/example/HWSpring5_2/service/impl/FileSystemStorageService.java:59 | normalizing plain names after a prefix appends them unchanged |
| `Paths.PlainIsNormal` | src/main/java/com/example/HWSpring5_2/service/impl/FileSystemStorageService.java:59 | a path of plain names is its own normal form |
| `Paths.FoldAppend` | src/main/java/com/example/HWSpring5_2/service/impl/FileSystemStorageService.java:59 | normalization processes a concatenation part by part |
| `Paths.FoldThroughNormal` | src/main/java/com/example/HWSpring5_2/service/impl/FileSystemStorageService.java:57-59 | whether `base` is absolute or relative, normalizing `base/other` depends on `other` only through `other.normalize()` |
| `Paths.FoldDots` | src/main/java/com/example/HWSpring5_2/service/impl/FileSystemStorageService.java:59 | `k` times `..` after plain names removes `k` of them, and past the first keeps the surplus `..` |
| `Paths.LeadingDots` | src/main/java/com/example/HWSpring5_2/service/impl/FileSystemStorageService.java:59 | counts exactly the `..` names a sequence starts with |
| `Paths.NormalShape` | src/main/java/com/example/HWSpring5_2/service/impl/FileSystemStorageService.java:59 | a relative normal form is some `..` names followed by plain names only |
| `Paths.NormalizeUnder` | src/main/java/com/example/HWSpring5_2/service/impl/FileSystemStorageService.java:57-59 | `root.resolve(name).normalize()` for a plain relative root: the climbs of `name` remove that many root names, then its plain names are appended |
| `Paths.AbsoluteUnder` | src/main/java/com/example/HWSpring5_2/service/impl/FileSystemStorageService.java:57-59 | `root.resolve(name).normalize()` for a plain absolute root: the climbs of `name` remove that many root names, never past `/`, then its plain names are appended |
| `Paths.Resolve` | src/main/java/com/example/HWSpring5_2/service/impl/FileSystemStorageService.java:102 | `resolve` keeps paths well formed |
| `Paths.ToAbsolutePath` | src/main/java/com/example/HWSpring5_2/service/impl/FileSystemStorageService.java:62 | `toAbsolutePath()` returns an absolute path, leaves an absolute path alone and puts the working directory before a relative one without normalizing |
| `Paths.GetParent` | src/main/java/com/example/HWSpring5_2/service/impl/FileSystemStorageService.java:62 | `getParent()` is `null` exactly for `/`, the empty path and a one-name relative path, and otherwise is the path minus its last name |
| `Paths.CommonPrefix` | src/main/java/com/example/HWSpring5_2/service/impl/FileSystemStorageService.java:91 | the length of the longest common prefix: the prefixes agree and the next names differ |
| `Paths.Relativize` | src/main/java/com/example/HWSpring5_2/service/impl/FileSystemStorageService.java:91 | `relativize` fails exactly when one path is absolute and the other is not, and otherwise yields a relative path |
| `Paths.RelativizeResolve` | src/main/java/com/example/HWSpring5_2/service/impl/FileSystemStorageService.java:89-91 | relativizing `root.resolve(p)` against the root gives back the relative `p` |
| `Paths.ResolveRelativize` | src/main/java/com/example/HWSpring5_2/service/impl/FileSystemStorageService.java:91 | resolving the relativized path against the base gives back any path that lies below the base |
| `FileSystem.Locate` | src/main/java/com/example/HWSpring5_2/service/impl/FileSystemStorageService.java:70 | the location the operating system reaches for a path is made of plain names |
| `FileSystem.Entries` | src/main/java/com/example/HWSpring5_2/service/impl/FileSystemStorageService.java:87 | a name is listed in a directory exactly when that directory's child of that name exists |
| `FileSystem.Copy` | src/main/java/com/example/HWSpring5_2/service/impl/FileSystemStorageService.java:70-71 | `Files.copy` with `REPLACE_EXISTING` fails exactly at `/`, under a missing parent, or onto a non-empty directory; otherwise the target holds the new bytes, every other file keeps its bytes, and the tree stays consistent |
| `FileSystem.CopyKeepsValid` | src/main/java/com/example/HWSpring5_2/service/impl/FileSystemStorageService.java:70-71 | a successful copy keeps the file system tree consistent |
| `FileSystem.CopyIntoEmptyDirectory` | src/main/java/com/example/HWSpring5_2/service/impl/FileSystemStorageService.java:70-71 | copying a new name into an empty directory succeeds and leaves it listing exactly that name |
| `FileSystem.Prefixes` | src/main/java/com/example/HWSpring5_2/service/impl/FileSystemStorageService.java:144 | exactly the location and all its ancestors |
| `FileSystem.CreateDirectories` | src/main/java/com/example/HWSpring5_2/service/impl/FileSystemStorageService.java:144 | `Files.createDirectories` fails exactly when the location or an ancestor is a regular file; otherwise it adds the location and all its ancestors as directories and touches no file |
| `FileSystem.CreateExisting` | src/main/java/com/example/HWSpring5_2/service/impl/FileSystemStorageService.java:144 | creating a directory that already exists changes nothing |
| `FileSystem.AncestorsAreDirectories` | src/main/java/com/example/HWSpring5_2/service/impl/FileSystemStorageService.java:144 | every ancestor of an existing directory is a directory |
| `FileSystem.DeleteRecursively` | src/main/java/com/example/HWSpring5_2/service/impl/FileSystemStorageService.java:135 | `deleteRecursively` removes exactly the location and what lies below it, never `/`, keeps every other file's bytes and keeps the tree consistent |
| `FileSystem.DeleteMissingIsNoOp` | src/main/java/com/example/HWSpring5_2/service/impl/FileSystemStorageService.java:135 | deleting a location that does not exist changes nothing |
| `FileSystem.DeleteThenCreate` | src/main/java/com/example/HWSpring5_2/service/impl/FileSystemStorageService.java:134-148 | deleting and then recreating a location fails only if an ancestor is a file, and otherwise leaves it an empty directory |
| `Storage.TrimStart` | src/main/java/com/example/HWSpring5_2/service/impl/FileSystemStorageService.java:36 | drops exactly the leading characters up to U+0020 |
| `Storage.TrimEnd` | src/main/java/com/example/HWSpring5_2/service/impl/FileSystemStorageService.java:36 | drops exactly the trailing characters up to U+0020 |
| `Storage.Trim` | src/main/java/com/example/HWSpring5_2/service/impl/FileSystemStorageService.java:36 | `trim()` never lengthens the string, and what it leaves starts and ends with a character above U+0020 |
| `Storage.TrimEmptyIffBlank` | src/main/java/com/example/HWSpring5_2/service/impl/FileSystemStorageService.java:36 | `trim().length() == 0` exactly when every character is at most U+0020 |
| `Storage.RootLocation` | src/main/java/com/example/HWSpring5_2/service/impl/FileSystemStorageService.java:36-41 | the constructor fails exactly for a blank location (with "File upload location can not be Empty.") or one holding a NUL (with `InvalidPathException`); otherwise the root is `Paths.get(location)` |
| `Storage.DefaultRoot` | src/main/java/com/example/HWSpring5_2/configuration/StorageProperties.java:14 | the default location `upload-dir` is accepted and becomes a relative root of one plain name |
| `Storage.FileSystemStorageService.constructor` | src/main/java/com/example/HWSpring5_2/service/impl/FileSystemStorageService.java:41 | the service holds the given root, working directory and file system |
| `Storage.FileSystemStorageService.Create` | src/main/java/com/example/HWSpring5_2/service/impl/FileSystemStorageService.java:33-42 | construction fails exactly as `RootLocation` does, with its error; otherwise a new valid service on that root |
| `Storage.Destination` | src/main/java/com/example/HWSpring5_2/service/impl/FileSystemStorageService.java:51-66 | empty content fails with "Failed to store empty file."; a name holding a NUL fails with `InvalidPathException`; any other failure is the `NullPointerException` of `getParent()` or "Cannot store file outside current directory."; an accepted destination is absolute and is the absolute root plus one name |
| `Storage.StoreEffect` | src/main/java/com/example/HWSpring5_2/service/impl/FileSystemStorageService.java:49-77 | `store` fails with the destination check's own error whenever that check fails, before any copy; after a passed check it fails exactly when `Files.copy` does, with "Failed to store file."; a successful store passed the check and leaves a consistent tree |
| `Storage.StaysInRoot` | src/main/java/com/example/HWSpring5_2/service/impl/FileSystemStorageService.java:57-66 | an accepted destination ends in a name that is not `.`. It ends in `..` only when the root location is all `..`; otherwise the entry written is the root's location plus one plain name. Acceptance also implies the root location is normal |
| `Storage.DotDotLeafFails` | src/main/java/com/example/HWSpring5_2/service/impl/FileSystemStorageService.java:57-72 | while the root exists, an accepted destination ending in `..` always makes the copy fail |
| `Storage.NonNormalRootRejectsAll` | src/main/java/com/example/HWSpring5_2/service/impl/FileSystemStorageService.java:57-66 | a root location not in normal form (such as `./upload-dir`) makes every `store` fail |
| `Storage.ParentOfRootIsNotWritable` | src/main/java/com/example/HWSpring5_2/service/impl/FileSystemStorageService.java:62-72 | for an all-`..` root, the destination `..` that passes the check is the root's parent, and copying onto it fails while the root exists |
| `Storage.CopyOntoParentFails` | src/main/java/com/example/HWSpring5_2/service/impl/FileSystemStorageService.java:70-71 | copying onto the parent directory of an existing entry fails |
| `Paths.AbsoluteDots` | src/main/java/com/example/HWSpring5_2/service/impl/FileSystemStorageService.java:59 | `..` names after an absolute prefix climb until `/` and stay there |
| `Storage.StoreWritesOnlyInRoot` | src/main/java/com/example/HWSpring5_2/service/impl/FileSystemStorageService.java:57-72 | when the root exists, a successful `store` writes one regular file, a plain-named direct child of the root, replacing what was there and changing nothing else |
| `Storage.RelativeRootVerdict` | src/main/java/com/example/HWSpring5_2/service/impl/FileSystemStorageService.java:57-66 | for a plain relative root and a relative name, the check accepts exactly when the normalized name climbs `k <= depth` levels, re-enters the same `k` root names and names one file |
| `Storage.RelativeRootTarget` | src/main/java/com/example/HWSpring5_2/service/impl/FileSystemStorageService.java:57-66 | an accepted relative name has a normal form of `k` climbs, `k` names and one plain file name, and lands at `cwd/root/file`, directly in the root |
| `Storage.AbsoluteRootVerdict` | src/main/java/com/example/HWSpring5_2/service/impl/FileSystemStorageService.java:57-66 | for a plain absolute root and a relative name, the check accepts exactly when the normalized name climbs `k <= depth` levels and re-enters the same `k` root names, or climbs past `/` and descends through all the root's names, and then names one file |
| `Storage.AbsoluteRootTarget` | src/main/java/com/example/HWSpring5_2/service/impl/FileSystemStorageService.java:57-66 | an accepted relative name under an absolute root lands at `root/file`, where `file` is the plain name ending its normal form |
| `Storage.AbsoluteClimb` | src/main/java/com/example/HWSpring5_2/service/impl/FileSystemStorageService.java:57-62 | the normalized `root.resolve(file)` under an absolute root is the root plus one name exactly under the absolute verdict's condition |
| `Storage.AbsoluteClimbAndReturn` | src/main/java/com/example/HWSpring5_2/service/impl/FileSystemStorageService.java:62 | after climbing `k` root names, stopping at `/`, and appending `t`, the result is the root plus one name exactly when `t` re-enters the names left and adds one |
| `Storage.DestinationAbsolute` | src/main/java/com/example/HWSpring5_2/service/impl/FileSystemStorageService.java:57-66 | for an absolute root, the check accepts exactly when the normalized destination is the root plus one name, and returns that path |
| `Storage.NormalizeBelow` | src/main/java/com/example/HWSpring5_2/service/impl/FileSystemStorageService.java:57-59 | the normalized `root.resolve(file)` is what is left of the root after the name's climbs, plus the name's plain names |
| `Storage.RelativeClimb` | src/main/java/com/example/HWSpring5_2/service/impl/FileSystemStorageService.java:57-62 | the normalized `root.resolve(file)` is the root plus one name exactly when the name climbs `k` levels, re-enters the same `k` root names and names one plain file |
| `Storage.ClimbAndReturn` | src/main/java/com/example/HWSpring5_2/service/impl/FileSystemStorageService.java:62 | after climbing `k` root names and appending `t`, the result is the root plus one name exactly when `t` re-enters those `k` names and adds one |
| `Storage.ParentCheck` | src/main/java/com/example/HWSpring5_2/service/impl/FileSystemStorageService.java:62 | the parent of `cwd/m` equals `cwd/root` exactly when `m` is the root plus one name |
| `Storage.DestinationRelative` | src/main/java/com/example/HWSpring5_2/service/impl/FileSystemStorageService.java:57-66 | for a relative root, the check accepts exactly when the normalized destination is the root plus one name, refuses with "Cannot store file outside current directory." otherwise, and throws `NullPointerException` when the destination is `/` |
| `Storage.ParseRelative` | src/main/java/com/example/HWSpring5_2/service/impl/FileSystemStorageService.java:58 | `Paths.get` of names joined by `/` gives those names back |
| `Storage.ClimbOutRejected` | src/main/java/com/example/HWSpring5_2/service/impl/FileSystemStorageService.java:57-66 | `../x` is refused with "Cannot store file outside current directory." |
| `Storage.ClimbTwiceRejected` | src/main/java/com/example/HWSpring5_2/service/impl/FileSystemStorageService.java:57-66 | `a/../../x` is refused with the same error |
| `Storage.AbsoluteNameVerdict` | src/main/java/com/example/HWSpring5_2/service/impl/FileSystemStorageService.java:57-66 | `/a/x` is accepted only when `/a` is the absolute root, so `/etc/passwd` is refused |
| `Storage.NestedNameRejected` | src/main/java/com/example/HWSpring5_2/service/impl/FileSystemStorageService.java:57-66 | `sub/x` is refused |
| `Storage.RootItselfRejected` | src/main/java/com/example/HWSpring5_2/service/impl/FileSystemStorageService.java:57-66 | the empty name and `.` are refused; `..` is refused too, and throws `NullPointerException` when the working directory is `/` |
| `Storage.SlashRootSelfThrows` | src/main/java/com/example/HWSpring5_2/service/impl/FileSystemStorageService.java:36-62 | the location `/` is accepted as the root `/`, and under it the empty name and `.` make the check throw `NullPointerException` |
| `Storage.SlashNameThrows` | src/main/java/com/example/HWSpring5_2/service/impl/FileSystemStorageService.java:62 | the name `/` makes the check throw `NullPointerException` |
| `Storage.DetourAccepted` | src/main/java/com/example/HWSpring5_2/service/impl/FileSystemStorageService.java:57-62 | `a/../report.txt` is accepted and stored as `root/report.txt` |
| `Storage.ReenterAccepted` | src/main/java/com/example/HWSpring5_2/service/impl/FileSystemStorageService.java:57-62 | `../upload-dir/x` is accepted for the root `upload-dir` and stored as `upload-dir/x` |
| `Storage.OvershootAccepted` | src/main/java/com/example/HWSpring5_2/service/impl/FileSystemStorageService.java:57-66 | under the absolute root `/dir`, `../../dir/x` climbs past `/` and is accepted as `/dir/x` |
| `Storage.DotDotLocationPassesCheck` | src/main/java/com/example/HWSpring5_2/service/impl/FileSystemStorageService.java:36-66 | with the location `..` the name `..` passes the check, and the destination is the root's parent |
| `Storage.Listing` | src/main/java/com/example/HWSpring5_2/service/impl/FileSystemStorageService.java:84-97 | `loadAll` fails exactly when the root does not exist, with "Failed to read stored files"; otherwise it lists exactly the one-name relative paths of the root directory's entries |
| `Storage.ListedAreChildren` | src/main/java/com/example/HWSpring5_2/service/impl/FileSystemStorageService.java:87-91 | every listed path is non-empty, is the relativized `root.resolve(p)`, has a plain name and denotes a direct child of the root |
| `Storage.ListsOneName` | src/main/java/com/example/HWSpring5_2/service/impl/FileSystemStorageService.java:87-91 | a root with one entry lists exactly that name |
| `Storage.LoadPath` | src/main/java/com/example/HWSpring5_2/service/impl/FileSystemStorageService.java:100-103 | `load` fails exactly on a NUL, and is absolute exactly when the root or the name is |
| `Storage.LoadClimbsOut` | src/main/java/com/example/HWSpring5_2/service/impl/FileSystemStorageService.java:102 | `load("../x")` reaches `x` next to the root directory, which lies below the root only if `x` is the root's own name |
| `Storage.LoadAbsolute` | src/main/java/com/example/HWSpring5_2/service/impl/FileSystemStorageService.java:102 | `load("/a/x")` is `/a/x` whatever the root |
| `Storage.ResourceFor` | src/main/java/com/example/HWSpring5_2/service/impl/FileSystemStorageService.java:110-128 | `loadAsResource` fails with "Could not read file: " + name exactly when the loaded path does not exist; otherwise it returns the absolute loaded path, which exists |
| `Storage.Contents` | src/main/java/com/example/HWSpring5_2/service/impl/FileSystemStorageService.java:114-117 | a resource has bytes exactly when it names a regular file |
| `Storage.PlainNameAccepted` | src/main/java/com/example/HWSpring5_2/service/impl/FileSystemStorageService.java:57-66 | with a normal root, a plain name passes the check, and `store` and `load` both reach `root/name` |
| `Storage.BlankNameAccepted` | src/main/java/com/example/HWSpring5_2/service/impl/FileSystemStorageService.java:57-66 | a blank name such as `" "` passes the check and is stored directly in the root under that name |
| `Storage.StoreThenLoad` | src/main/java/com/example/HWSpring5_2/service/impl/FileSystemStorageService.java:69-117 | storing a plain name into the root directory succeeds, and `loadAsResource` of that name then yields exactly the stored bytes |
| `Storage.StoreIntoEmptyRootLists` | src/main/java/com/example/HWSpring5_2/service/impl/FileSystemStorageService.java:69-91 | after storing a plain name into an empty root, `loadAll` lists exactly that name |
| `Storage.DeleteAllThenList` | src/main/java/com/example/HWSpring5_2/service/impl/FileSystemStorageService.java:84-136 | after `deleteAll`, `loadAll` fails with "Failed to read stored files"; `deleteAll` on a missing root changes nothing |
| `Storage.ResetLeavesEmptyRoot` | src/main/java/com/example/HWSpring5_2/service/impl/FileSystemStorageService.java:134-148 | after `deleteAll` and a successful `init`, the root exists and `loadAll` lists nothing |
| `Storage.InitIdempotent` | src/main/java/com/example/HWSpring5_2/service/impl/FileSystemStorageService.java:142-149 | `init` on an existing root changes nothing |
| `Storage.FileSystemStorageService.Store` | src/main/java/com/example/HWSpring5_2/service/impl/FileSystemStorageService.java:49-77 | `store` succeeds exactly when `StoreEffect` does and then leaves its file system. On failure it raises the same error and changes nothing. When the root exists, only one plain-named direct child of the root changes |
| `Storage.FileSystemStorageService.Init` | src/main/java/com/example/HWSpring5_2/service/impl/FileSystemStorageService.java:142-149 | `init` creates the root and its ancestors, or fails with "Could not initialize storage" and changes nothing |
| `Storage.FileSystemStorageService.DeleteAll` | src/main/java/com/example/HWSpring5_2/service/impl/FileSystemStorageService.java:134-136 | `deleteAll` removes the root and everything below it, and keeps the tree consistent |

## Left out

- The HTTP controller, the application's start-up runner and the
  configuration binding are not modelled. They are `FileUploadController.java`,
  `HwSpring52Application.java` and `StorageProperties.java` beyond its
  default value. They are framework plumbing.
- `MultipartFile` and byte streams are not modelled. An upload is its name
  and its bytes, and the copy assigns the bytes. A `null` original filename
  (a `NullPointerException` in `Paths.get`) is not modelled.
- I/O failures other than the structural ones are not modelled: permissions,
  a full disk, partial writes. `Copy`, `CreateDirectories` and
  `DeleteRecursively` fail only for reasons the tree itself shows.
- `FileSystem.Locate` resolves `.` and `..` lexically. A real kernel resolves
  `..` physically and follows symbolic links; symbolic links are not
  modelled.
- The working directory (the JVM's `user.dir`) is a fixed parameter and is
  assumed to be made of plain names. A `user.dir` that holds `.` or `..`
  is not modelled.
- `Storage.Listing` returns a set of paths. The laziness, single-use nature
  and file-system-dependent order of the `Files.walk` stream are not
  modelled.
- Concurrent uploads, deletes and reads are not modelled.
- `Paths.Parse`: the model assumes a file-name charset that encodes every
  character. Under a charset such as ASCII (the C/POSIX locale), `Paths.get`
  also throws `InvalidPathException` for a character it cannot encode, so a
  non-ASCII name would fail `store` and `load` there.
- `Paths.Relativize`: the JDK's special handling of `.` and `..` names
  inside its arguments is not modelled. Only the common-prefix algorithm
  is, and `loadAll` only relativizes direct children of the root.
- `Storage.ResourceFor`: the `UrlResource` and URI conversion are reduced to
  the absolute path. `MalformedURLException` (lines 125-126) cannot arise
  for a `file:` URI of a local path, so that branch is not modelled.
  `isReadable()` is taken to hold of every regular file, so permissions are
  not modelled.
- `FileSystem.CreateDirectories` for a root location that is not in normal
  form creates only the canonical location's ancestors. The intermediate
  names a real `createDirectories` would visit are not modelled.
- `Storage.FileSystemStorageService.DeleteAll`: the partial failures of
  `deleteRecursively`, which ignores errors and returns a flag, are not
  modelled. The whole subtree always disappears.

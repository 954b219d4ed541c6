/**
 * Unix file paths as `java.nio.file.Path` handles them on a Unix file system:
 * an optional root `/` followed by a sequence of name elements. Every
 * operation here is purely lexical, like the JDK's own `UnixPath`; nothing
 * consults the file system.
 */
module Paths {
  import opened Wrappers

  /** A path: `absolute` is true when it starts at the root `/`. The empty
      path `""` is `Path(false, [])` and the root is `Path(true, [])`. */
  datatype Path = Path(absolute: bool, names: seq<string>)

  /** A name element as the parser produces it. */
  predicate IsName(s: string) {
    s != "" && '/' !in s && '\0' !in s
  }

  /** A name element that denotes a directory entry rather than `.` or `..`. */
  predicate IsPlainName(s: string) {
    IsName(s) && s != "." && s != ".."
  }

  predicate AllNames(names: seq<string>) {
    forall i :: 0 <= i < |names| ==> IsName(names[i])
  }

  predicate AllPlain(names: seq<string>) {
    forall i :: 0 <= i < |names| ==> IsPlainName(names[i])
  }

  predicate WellFormed(p: Path) {
    AllNames(p.names)
  }

  /** `k` copies of `..`. */
  function Dots(k: nat): (r: seq<string>)
    ensures |r| == k && forall i :: 0 <= i < k ==> r[i] == ".."
  {
    seq(k, _ => "..")
  }

  // ---------------------------------------------------------------------------
  // Parsing and printing (Paths.get and Path.toString)
  // ---------------------------------------------------------------------------

  function Flush(current: string): seq<string> {
    if current == "" then [] else [current]
  }

  /** Splits `s` at every `/`, dropping empty pieces; `current` is the name
      element read so far. */
  function SplitNames(s: string, current: string): (r: seq<string>)
    requires '/' !in current && '\0' !in current && '\0' !in s
    ensures AllNames(r)
    decreases |s|
  {
    if s == [] then Flush(current)
    else if s[0] == '/' then Flush(current) + SplitNames(s[1..], "")
    else SplitNames(s[1..], current + [s[0]])
  }

  /** `Paths.get(s)`: redundant and trailing slashes are dropped, and a NUL
      character makes the JDK throw `InvalidPathException` (here `None`). */
  function Parse(s: string): (r: Option<Path>)
    ensures r.Some? <==> '\0' !in s
    ensures r.Some? ==> WellFormed(r.value) && r.value.absolute == (s != "" && s[0] == '/')
  {
    if '\0' in s then None
    else Some(Path(s != "" && s[0] == '/', SplitNames(s, "")))
  }

  function Join(names: seq<string>): string {
    if |names| == 0 then ""
    else if |names| == 1 then names[0]
    else names[0] + "/" + Join(names[1..])
  }

  /** `Path.toString()`. */
  function Format(p: Path): string {
    (if p.absolute then "/" else "") + Join(p.names)
  }

  lemma {:induction false} SplitWord(w: string, rest: string, current: string)
    requires '/' !in w && '\0' !in w && '/' !in current && '\0' !in current && '\0' !in rest
    ensures SplitNames(w + rest, current) == SplitNames(rest, current + w)
    decreases |w|
  {
    if w == [] {
      assert w + rest == rest;
      assert current + w == current;
    } else {
      assert (w + rest)[0] == w[0];
      assert (w + rest)[1..] == w[1..] + rest;
      SplitWord(w[1..], rest, current + [w[0]]);
      assert current + [w[0]] + w[1..] == current + w;
    }
  }

  lemma {:induction false} JoinFacts(names: seq<string>)
    requires AllNames(names)
    ensures '\0' !in Join(names)
    ensures names != [] ==> Join(names) != "" && Join(names)[0] != '/'
  {
    if |names| > 1 {
      JoinFacts(names[1..]);
      assert Join(names) == names[0] + ("/" + Join(names[1..]));
    }
  }

  lemma {:induction false} SplitJoin(names: seq<string>)
    requires AllNames(names)
    ensures '\0' !in Join(names)
    ensures SplitNames(Join(names), "") == names
  {
    JoinFacts(names);
    if |names| == 1 {
      SplitWord(names[0], "", "");
      assert names[0] + "" == names[0];
      assert "" + names[0] == names[0];
    } else if |names| > 1 {
      var a, tail := names[0], names[1..];
      JoinFacts(tail);
      SplitJoin(tail);
      assert Join(names) == a + ("/" + Join(tail));
      SplitWord(a, "/" + Join(tail), "");
      assert "" + a == a;
      assert ("/" + Join(tail))[1..] == Join(tail);
      assert names == [a] + tail;
    }
  }

  /** Parsing what `toString` prints gives the path back. */
  lemma ParseFormat(p: Path)
    requires WellFormed(p)
    ensures Parse(Format(p)) == Some(p)
  {
    SplitJoin(p.names);
    JoinFacts(p.names);
    var s := Format(p);
    if p.absolute {
      assert s == "/" + Join(p.names);
      assert s[1..] == Join(p.names);
      assert SplitNames(s, "") == Flush("") + SplitNames(s[1..], "");
      assert Flush("") + p.names == p.names;
    } else {
      assert s == Join(p.names);
    }
  }

  // ---------------------------------------------------------------------------
  // Path.resolve, Path.normalize, Path.toAbsolutePath, Path.getParent
  // ---------------------------------------------------------------------------

  /** `base.resolve(other)`. */
  function Resolve(base: Path, other: Path): (r: Path)
    ensures WellFormed(base) && WellFormed(other) ==> WellFormed(r)
  {
    if other.absolute then other
    else if other.names == [] then base
    else Path(base.absolute, base.names + other.names)
  }

  /** One step of `normalize`: `.` disappears, `..` removes the preceding name
      unless that is itself `..`; at the root of an absolute path `..` is
      dropped, at the start of a relative path it is kept. */
  function Push(absolute: bool, acc: seq<string>, name: string): seq<string> {
    if name == "." then acc
    else if name == ".." then
      if |acc| > 0 && acc[|acc| - 1] != ".." then acc[..|acc| - 1]
      else if absolute then acc
      else acc + [name]
    else acc + [name]
  }

  /** The names of `acc` followed by `names`, pushed one at a time. */
  function Fold(absolute: bool, acc: seq<string>, names: seq<string>): seq<string>
    decreases |names|
  {
    if names == [] then acc
    else Push(absolute, Fold(absolute, acc, names[..|names| - 1]), names[|names| - 1])
  }

  /** A normal form: no `.`; `..` only in a relative path, and only before
      every other name. */
  predicate NormalNames(absolute: bool, names: seq<string>) {
    && (forall i :: 0 <= i < |names| ==> names[i] != "." && (absolute ==> names[i] != ".."))
    && (forall i, j :: 0 <= j < i < |names| && names[i] == ".." ==> names[j] == "..")
  }

  predicate Normal(p: Path) {
    NormalNames(p.absolute, p.names)
  }

  /** `p.normalize()`: it never adds names. Its normal form is stated by
      `NormalizeIsNormal`. */
  function Normalize(p: Path): (r: Path)
    ensures r.absolute == p.absolute && |r.names| <= |p.names|
  {
    FoldLength(p.absolute, [], p.names);
    Path(p.absolute, Fold(p.absolute, [], p.names))
  }

  /** Each name pushed adds at most one name. */
  lemma {:induction false} FoldLength(absolute: bool, acc: seq<string>, names: seq<string>)
    ensures |Fold(absolute, acc, names)| <= |acc| + |names|
    decreases |names|
  {
    if names != [] {
      FoldLength(absolute, acc, names[..|names| - 1]);
    }
  }

  /** `normalize()` keeps absoluteness and well-formed names and yields a
      normal form. */
  lemma NormalizeIsNormal(p: Path)
    ensures Normalize(p).absolute == p.absolute
    ensures Normal(Normalize(p))
    ensures WellFormed(p) ==> WellFormed(Normalize(p))
  {
    FoldNormal(p.absolute, [], p.names);
    FoldNames(p.absolute, [], p.names);
  }

  /** `p.toAbsolutePath()` with `cwd` the names of the current directory. */
  function ToAbsolutePath(p: Path, cwd: seq<string>): (r: Path)
    ensures r.absolute
    ensures p.absolute ==> r == p
    ensures !p.absolute ==> r.names == cwd + p.names
  {
    if p.absolute then p else Path(true, cwd + p.names)
  }

  /** `p.getParent()`: `None` where the JDK returns `null`, namely for the
      root, the empty path and a relative path of one name. */
  function GetParent(p: Path): (r: Option<Path>)
    ensures r.None? <==> (p.names == [] || (!p.absolute && |p.names| == 1))
    ensures r.Some? ==> r.value.absolute == p.absolute && p.names == r.value.names + [p.names[|p.names| - 1]]
  {
    if p.names == [] || (!p.absolute && |p.names| == 1) then None
    else Some(Path(p.absolute, p.names[..|p.names| - 1]))
  }

  /** The length of the longest common prefix of `a` and `b`. */
  function CommonPrefix(a: seq<string>, b: seq<string>): (r: nat)
    ensures r <= |a| && r <= |b| && a[..r] == b[..r]
    ensures r < |a| && r < |b| ==> a[r] != b[r]
  {
    if a != [] && b != [] && a[0] == b[0] then
      var k := CommonPrefix(a[1..], b[1..]);
      assert a[..k + 1] == [a[0]] + a[1..][..k];
      assert b[..k + 1] == [b[0]] + b[1..][..k];
      1 + k
    else 0
  }

  /** `base.relativize(other)`; `None` where the JDK throws
      `IllegalArgumentException` because one path is absolute and the other
      is not. */
  function Relativize(base: Path, other: Path): (r: Option<Path>)
    ensures r.None? <==> base.absolute != other.absolute
    ensures r.Some? ==> !r.value.absolute
  {
    if base.absolute != other.absolute then None
    else
      var k := CommonPrefix(base.names, other.names);
      Some(Path(false, Dots(|base.names| - k) + other.names[k..]))
  }

  /** Relativizing against `base` undoes resolving a relative path against it. */
  lemma RelativizeResolve(base: Path, p: Path)
    requires !p.absolute
    ensures Relativize(base, Resolve(base, p)) == Some(p)
  {
    var q := Resolve(base, p);
    assert q.names == base.names + p.names;
    var k := CommonPrefix(base.names, q.names);
    assert forall i :: 0 <= i < |base.names| ==> base.names[i] == q.names[i];
    assert k == |base.names|;
    assert Dots(0) + q.names[k..] == p.names;
  }

  /** Resolving the relativized path against `base` gives `other` back when
      `other` lies below `base`. */
  lemma ResolveRelativize(base: Path, other: Path)
    requires base.absolute == other.absolute
    requires |base.names| <= |other.names| && other.names[..|base.names|] == base.names
    ensures Relativize(base, other).Some?
    ensures Resolve(base, Relativize(base, other).value) == other
  {
    var k := CommonPrefix(base.names, other.names);
    PrefixIsCommon(base.names, other.names);
    assert base.names + other.names[k..] == other.names;
  }

  /** A prefix of `b` is common to `b` in full. */
  lemma {:induction false} PrefixIsCommon(a: seq<string>, b: seq<string>)
    requires |a| <= |b| && b[..|a|] == a
    ensures CommonPrefix(a, b) == |a|
  {
    if a != [] {
      assert a[0] == b[0];
      assert b[1..][..|a| - 1] == a[1..];
      PrefixIsCommon(a[1..], b[1..]);
    }
  }

  // ---------------------------------------------------------------------------
  // Facts about normalization
  // ---------------------------------------------------------------------------

  lemma {:induction false} FoldNormal(absolute: bool, acc: seq<string>, names: seq<string>)
    requires NormalNames(absolute, acc)
    ensures NormalNames(absolute, Fold(absolute, acc, names))
    decreases |names|
  {
    if names != [] {
      FoldNormal(absolute, acc, names[..|names| - 1]);
    }
  }

  lemma {:induction false} FoldNames(absolute: bool, acc: seq<string>, names: seq<string>)
    ensures AllNames(acc) && AllNames(names) ==> AllNames(Fold(absolute, acc, names))
    decreases |names|
  {
    if names != [] {
      FoldNames(absolute, acc, names[..|names| - 1]);
    }
  }

  lemma {:induction false} FoldAppend(absolute: bool, acc: seq<string>, front: seq<string>, back: seq<string>)
    ensures Fold(absolute, acc, front + back) == Fold(absolute, Fold(absolute, acc, front), back)
    decreases |back|
  {
    if back == [] {
      assert front + back == front;
    } else {
      var n := |back|;
      assert (front + back)[..|front + back| - 1] == front + back[..n - 1];
      assert (front + back)[|front + back| - 1] == back[n - 1];
      FoldAppend(absolute, acc, front, back[..n - 1]);
    }
  }

  /** Plain names are simply appended. */
  lemma {:induction false} FoldPlain(absolute: bool, acc: seq<string>, names: seq<string>)
    requires AllPlain(names)
    ensures Fold(absolute, acc, names) == acc + names
    decreases |names|
  {
    if names != [] {
      var n := |names|;
      FoldPlain(absolute, acc, names[..n - 1]);
      assert acc + names == (acc + names[..n - 1]) + [names[n - 1]];
    }
  }

  /** A plain path is its own normal form. */
  lemma PlainIsNormal(absolute: bool, names: seq<string>)
    requires AllPlain(names)
    ensures Fold(absolute, [], names) == names
  {
    FoldPlain(absolute, [], names);
  }

  /** Pushing `names` has the same effect as pushing their relative normal
      form: `normalize` of `a/b` only depends on `b` through
      `b.normalize()`, whether `a` is absolute or relative. */
  lemma {:induction false} FoldThroughNormal(absolute: bool, acc: seq<string>, names: seq<string>)
    ensures Fold(absolute, acc, names) == Fold(absolute, acc, Fold(false, [], names))
    decreases |names|
  {
    if names != [] {
      var n := |names|;
      var front, x := names[..n - 1], names[n - 1];
      var ns := Fold(false, [], front);
      FoldThroughNormal(absolute, acc, front);
      FoldNormal(false, [], front);
      if x == ".." && |ns| > 0 && ns[|ns| - 1] != ".." {
        var m := |ns|;
        assert ns == ns[..m - 1] + [ns[m - 1]];
        assert ns[m - 1] != ".";
        FoldAppend(absolute, acc, ns[..m - 1], [ns[m - 1]]);
        assert [ns[m - 1]][..0] == [];
      } else if x != "." {
        assert Push(false, ns, x) == ns + [x];
        FoldAppend(absolute, acc, ns, [x]);
        assert [x][..0] == [];
      }
    }
  }

  /** Pushing `k` copies of `..` onto plain names climbs `k` levels, and past
      the first name keeps the surplus `..`. */
  lemma {:induction false} FoldDots(names: seq<string>, k: nat)
    requires AllPlain(names)
    ensures Fold(false, names, Dots(k)) ==
            if k <= |names| then names[..|names| - k] else Dots(k - |names|)
    decreases k
  {
    if k > 0 {
      assert Dots(k)[..k - 1] == Dots(k - 1);
      FoldDots(names, k - 1);
      if k - 1 > |names| {
        assert Dots(k - 1 - |names|) + [".."] == Dots(k - |names|);
      } else if k - 1 == |names| {
        assert names[..0] == [];
      } else {
        assert names[..|names| - (k - 1)][..|names| - k] == names[..|names| - k];
      }
    }
  }

  /** The number of `..` names a sequence starts with. */
  function LeadingDots(names: seq<string>): (r: nat)
    ensures r <= |names|
    ensures forall i :: 0 <= i < r ==> names[i] == ".."
    ensures r < |names| ==> names[r] != ".."
  {
    if names != [] && names[0] == ".." then 1 + LeadingDots(names[1..]) else 0
  }

  /** A relative normal form is some `..` names followed by plain names. */
  lemma NormalShape(names: seq<string>)
    requires AllNames(names) && NormalNames(false, names)
    ensures names == Dots(LeadingDots(names)) + names[LeadingDots(names)..]
    ensures AllPlain(names[LeadingDots(names)..])
  {
    var k := LeadingDots(names);
    assert names[..k] == Dots(k);
    assert names == names[..k] + names[k..];
    forall i | k <= i < |names|
      ensures IsPlainName(names[i])
    {
      assert names[k] != ".." && names[i] != ".";
    }
  }

  /** Normalizing `base` followed by a relative path whose normal form climbs
      `k` levels and then names `rest` (plain names): `k` names of `base` are
      removed before `rest` is appended. */
  lemma NormalizeUnder(base: seq<string>, other: seq<string>)
    requires AllPlain(base) && AllNames(other)
    ensures var ns := Fold(false, [], other);
            var k := LeadingDots(ns);
            && AllPlain(ns[k..])
            && Fold(false, [], base + other) ==
               (if k <= |base| then base[..|base| - k] else Dots(k - |base|)) + ns[k..]
  {
    var ns := Fold(false, [], other);
    FoldNormal(false, [], other);
    FoldNames(false, [], other);
    NormalShape(ns);
    var k := LeadingDots(ns);
    calc {
      Fold(false, [], base + other);
      { FoldAppend(false, [], base, other); }
      Fold(false, Fold(false, [], base), other);
      { PlainIsNormal(false, base); }
      Fold(false, base, other);
      { FoldThroughNormal(false, base, other); }
      Fold(false, base, ns);
      { FoldAppend(false, base, Dots(k), ns[k..]); }
      Fold(false, Fold(false, base, Dots(k)), ns[k..]);
      { FoldPlain(false, Fold(false, base, Dots(k)), ns[k..]); FoldDots(base, k); }
      (if k <= |base| then base[..|base| - k] else Dots(k - |base|)) + ns[k..];
    }
  }

  /** `..` pushed onto an absolute path climbs until the root and stays there. */
  lemma {:induction false} AbsoluteDots(names: seq<string>, k: nat)
    requires AllPlain(names)
    ensures Fold(true, names, Dots(k)) == if k <= |names| then names[..|names| - k] else []
    decreases k
  {
    if k > 0 {
      assert Dots(k)[..k - 1] == Dots(k - 1);
      AbsoluteDots(names, k - 1);
      if k - 1 < |names| {
        assert names[..|names| - (k - 1)][..|names| - k] == names[..|names| - k];
      }
    }
  }

  /** Normalizing the absolute `base` followed by a relative path whose
      normal form climbs `k` levels and then names `rest`: `k` names of
      `base` are removed, never more than there are, before `rest` is
      appended. */
  lemma AbsoluteUnder(base: seq<string>, other: seq<string>)
    requires AllPlain(base) && AllNames(other)
    ensures var ns := Fold(false, [], other);
            var k := LeadingDots(ns);
            && AllPlain(ns[k..])
            && Fold(true, [], base + other) ==
               (if k <= |base| then base[..|base| - k] else []) + ns[k..]
  {
    var ns := Fold(false, [], other);
    FoldNormal(false, [], other);
    FoldNames(false, [], other);
    NormalShape(ns);
    var k := LeadingDots(ns);
    calc {
      Fold(true, [], base + other);
      { FoldAppend(true, [], base, other); }
      Fold(true, Fold(true, [], base), other);
      { PlainIsNormal(true, base); }
      Fold(true, base, other);
      { FoldThroughNormal(true, base, other); }
      Fold(true, base, ns);
      { FoldAppend(true, base, Dots(k), ns[k..]); }
      Fold(true, Fold(true, base, Dots(k)), ns[k..]);
      { FoldPlain(true, Fold(true, base, Dots(k)), ns[k..]); AbsoluteDots(base, k); }
      (if k <= |base| then base[..|base| - k] else []) + ns[k..];
    }
  }

  /** `Fold` over two to five names, one `Push` at a time. */
  lemma FoldTwo(absolute: bool, acc: seq<string>, a: string, b: string)
    ensures Fold(absolute, acc, [a, b]) == Push(absolute, Push(absolute, acc, a), b)
  {
    assert [a, b][..1] == [a];
    assert Fold(absolute, acc, [a]) == Push(absolute, acc, a) by {
      assert [a][..0] == [];
    }
  }

  lemma FoldThree(absolute: bool, acc: seq<string>, a: string, b: string, c: string)
    ensures Fold(absolute, acc, [a, b, c]) == Push(absolute, Fold(absolute, acc, [a, b]), c)
  {
    assert [a, b, c][..2] == [a, b];
  }

  lemma FoldFour(absolute: bool, acc: seq<string>, a: string, b: string, c: string, d: string)
    ensures Fold(absolute, acc, [a, b, c, d]) == Push(absolute, Fold(absolute, acc, [a, b, c]), d)
  {
    assert [a, b, c, d][..3] == [a, b, c];
  }

  lemma FoldFive(absolute: bool, acc: seq<string>, a: string, b: string, c: string, d: string, e: string)
    ensures Fold(absolute, acc, [a, b, c, d, e]) == Push(absolute, Fold(absolute, acc, [a, b, c, d]), e)
  {
    assert [a, b, c, d, e][..4] == [a, b, c, d];
  }

  /** `normalize` is idempotent. */
  lemma {:induction false} NormalizeIdempotent(p: Path)
    ensures Normalize(Normalize(p)) == Normalize(p)
  {
    NormalizeIsNormal(p);
    NormalFixed(p.absolute, Normalize(p).names);
  }

  lemma {:induction false} NormalFixed(absolute: bool, names: seq<string>)
    requires NormalNames(absolute, names)
    ensures Fold(absolute, [], names) == names
    decreases |names|
  {
    if names != [] {
      var n := |names|;
      var front := names[..n - 1];
      assert NormalNames(absolute, front);
      NormalFixed(absolute, front);
      if names[n - 1] == ".." && |front| > 0 {
        assert front[|front| - 1] == "..";
      }
    }
  }
}

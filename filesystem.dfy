/**
 * The disk the handler works on, as seen through java.io.File: a map from
 * OS paths to entries, and the operations the handler calls (mkdir,
 * delete, renameTo, opening a FileOutputStream) with the outcomes the
 * operating system gives them.
 */
module FileSystem {
  import opened Wrappers
  import opened Text
  import opened Paths

  datatype Node = File(content: seq<byte>) | Dir

  type Fs = map<Path, Node>

  predicate IsDir(fs: Fs, p: Path) {
    p in fs && fs[p].Dir?
  }

  predicate IsFile(fs: Fs, p: Path) {
    p in fs && fs[p].File?
  }

  function Parent(p: Path): Path
    requires |p| > 0
  {
    p[..|p| - 1]
  }

  /** Some entry lies strictly below `p`. */
  predicate HasChildren(fs: Fs, p: Path) {
    exists k :: k in fs && |k| > |p| && k[..|p|] == p
  }

  /** The OS root is a directory and the parent of every other entry is a directory. */
  ghost predicate Tree(fs: Fs) {
    IsDir(fs, []) && forall k :: k in fs && |k| > 0 ==> IsDir(fs, Parent(k))
  }

  /** Nothing outside `root` differs between `fs` and `fs'`. */
  ghost predicate SameOutside(fs: Fs, fs': Fs, root: Path) {
    forall k :: !Under(root, k) ==> (k in fs <==> k in fs') && (k in fs ==> fs[k] == fs'[k])
  }

  /** File.mkdir: false when the entry exists or its parent is not a directory. */
  function Mkdir(fs: Fs, p: Path): (r: Option<Fs>)
    ensures r.Some? <==> p !in fs && |p| > 0 && IsDir(fs, Parent(p))
    ensures r.Some? ==> r.value.Keys == fs.Keys + {p} && IsDir(r.value, p)
    ensures r.Some? ==> forall k :: k in fs ==> r.value[k] == fs[k]
  {
    if p in fs || |p| == 0 || !IsDir(fs, Parent(p)) then None else Some(fs[p := Dir])
  }

  /**
   * File.delete: a file is unlinked, a directory is removed only when it is
   * empty; a missing entry or the OS root cannot be removed.
   */
  function Delete(fs: Fs, p: Path): (r: Option<Fs>)
    ensures r.Some? <==> p in fs && |p| > 0 && !(fs[p].Dir? && HasChildren(fs, p))
    ensures r.Some? ==> r.value.Keys == fs.Keys - {p}
    ensures r.Some? ==> forall k :: k in r.value ==> r.value[k] == fs[k]
  {
    if p !in fs || |p| == 0 || (fs[p].Dir? && HasChildren(fs, p)) then None else Some(fs - {p})
  }

  /**
   * new FileOutputStream(file): creates (or truncates) a plain file; fails
   * (FileNotFoundException) when the path is a directory or its parent is
   * not a directory.
   */
  function CreateFile(fs: Fs, p: Path): (r: Option<Fs>)
    ensures r.Some? <==> |p| > 0 && IsDir(fs, Parent(p)) && !IsDir(fs, p)
    ensures r.Some? ==> r.value.Keys == fs.Keys + {p} && r.value[p] == File([])
    ensures r.Some? ==> forall k :: k in fs && k != p ==> r.value[k] == fs[k]
  {
    if |p| == 0 || !IsDir(fs, Parent(p)) || IsDir(fs, p) then None else Some(fs[p := File([])])
  }

  /**
   * Whether rename(2), which File.renameTo calls, succeeds: the source
   * exists, the target's parent is a directory, both differ from the OS
   * root, the target is not inside the source, and an existing target is
   * replaceable (a file by a file, an empty directory by a directory).
   * Renaming an entry to itself succeeds and changes nothing.
   */
  predicate CanRename(fs: Fs, src: Path, dst: Path) {
    && src in fs && |src| > 0 && |dst| > 0 && IsDir(fs, Parent(dst))
    && (src == dst
        || (!Under(src, dst)
            && (dst in fs ==>
                  (fs[src].File? && fs[dst].File?)
                  || (fs[src].Dir? && fs[dst].Dir? && !HasChildren(fs, dst)))))
  }

  /** Where the subtree of `src` lands when it is moved to `dst`. */
  function MovedKeys(fs: Fs, src: Path, dst: Path): set<Path> {
    set j | j in fs && Under(src, j) :: dst + j[|src|..]
  }

  /** A moved key lies below `dst` and came from the matching entry below `src`. */
  lemma MovedOrigin(fs: Fs, src: Path, dst: Path, k: Path)
    requires k in MovedKeys(fs, src, dst)
    ensures Under(dst, k) && src + k[|dst|..] in fs
  {
    var j :| j in fs && Under(src, j) && dst + j[|src|..] == k;
    assert k[..|dst|] == dst;
    assert k[|dst|..] == j[|src|..];
    assert src + j[|src|..] == j;
  }

  /** The entries of the subtree at `src` placed at `dst`; the old target and the subtree removed. */
  function Move(fs: Fs, src: Path, dst: Path): Fs {
    (map k | k in fs && !Under(src, k) && !Under(dst, k) :: fs[k])
    + (map k | k in MovedKeys(fs, src, dst) :: MovedOrigin(fs, src, dst, k); fs[src + k[|dst|..]])
  }

  /** File.renameTo: Some(new disk) when it returns true. */
  function Rename(fs: Fs, src: Path, dst: Path): (r: Option<Fs>)
    ensures r.Some? <==> CanRename(fs, src, dst)
  {
    if !CanRename(fs, src, dst) then None
    else if src == dst then Some(fs)
    else Some(Move(fs, src, dst))
  }

  /**
   * How the operating system walks the segments of a native path from the
   * entry `cur`: "." and ".." are looked up inside the entry reached so
   * far, so the walk fails (ENOENT or ENOTDIR) unless that is an existing
   * directory; ".." at the OS root stays there. A plain segment needs no
   * check: in a tree nothing lies below an entry that is not a directory,
   * so the walk then reaches a missing entry, as the OS does.
   */
  function WalkFrom(fs: Fs, cur: Path, segs: seq<string>): Option<Path>
    decreases |segs|
  {
    if |segs| == 0 then Some(cur)
    else if (segs[0] == "." || segs[0] == "..") && !IsDir(fs, cur) then None
    else WalkFrom(fs, Push(cur, segs[0]), segs[1..])
  }

  /** The entry `new File(native)` denotes on the disk, or None when the path cannot be walked. */
  function Lookup(fs: Fs, native: string): Option<Path> {
    WalkFrom(fs, [], Tokens(native, Slash))
  }

  /** File.isFile. */
  predicate IsFileAt(fs: Fs, native: string) {
    Lookup(fs, native).Some? && IsFile(fs, Lookup(fs, native).value)
  }

  /** File.isDirectory. */
  predicate IsDirAt(fs: Fs, native: string) {
    Lookup(fs, native).Some? && IsDir(fs, Lookup(fs, native).value)
  }

  // ---------------------------------------------------------------- lemmas

  /** A walk that succeeds ends where the lexical reading of the path does. */
  lemma {:induction false} WalkFromLexical(fs: Fs, cur: Path, segs: seq<string>)
    requires WalkFrom(fs, cur, segs).Some?
    ensures WalkFrom(fs, cur, segs).value == NormalizeFrom(cur, segs)
    decreases |segs|
  {
    if |segs| > 0 {
      WalkFromLexical(fs, Push(cur, segs[0]), segs[1..]);
    }
  }

  lemma LookupLexical(fs: Fs, native: string)
    requires Lookup(fs, native).Some?
    ensures Lookup(fs, native).value == OsPath(native)
  {
    WalkFromLexical(fs, [], Tokens(native, Slash));
  }

  /** Clean segments are walked without a lookup, whatever the disk. */
  lemma {:induction false} WalkFromClean(fs: Fs, cur: Path, segs: seq<string>)
    requires Clean(segs)
    ensures WalkFrom(fs, cur, segs) == Some(cur + segs)
    decreases |segs|
  {
    if |segs| > 0 {
      WalkFromClean(fs, cur + [segs[0]], segs[1..]);
      assert cur + [segs[0]] + segs[1..] == cur + segs;
    } else {
      assert cur + segs == cur;
    }
  }

  lemma {:induction false} WalkFromConcat(fs: Fs, cur: Path, a: seq<string>, b: seq<string>)
    ensures WalkFrom(fs, cur, a + b) ==
      (match WalkFrom(fs, cur, a) case None => None case Some(m) => WalkFrom(fs, m, b))
    decreases |a|
  {
    if |a| == 0 {
      assert a + b == b;
    } else {
      assert (a + b)[0] == a[0] && (a + b)[1..] == a[1..] + b;
      WalkFromConcat(fs, Push(cur, a[0]), a[1..], b);
    }
  }

  /** The walk only consults which entries are directories. */
  lemma {:induction false} WalkFromSameDirs(fs: Fs, fs': Fs, cur: Path, segs: seq<string>)
    requires forall p :: IsDir(fs, p) <==> IsDir(fs', p)
    ensures WalkFrom(fs, cur, segs) == WalkFrom(fs', cur, segs)
    decreases |segs|
  {
    if |segs| > 0 {
      WalkFromSameDirs(fs, fs', Push(cur, segs[0]), segs[1..]);
    }
  }

  /** From a directory of a tree, at least as many ".." as its depth reach the OS root. */
  lemma {:induction false} WalkUps(fs: Fs, cur: Path, n: nat)
    requires Tree(fs) && IsDir(fs, cur) && |cur| <= n
    ensures WalkFrom(fs, cur, seq(n, _ => "..")) == Some([])
    decreases n
  {
    var dots := seq(n, _ => "..");
    if n > 0 {
      assert dots[0] == ".." && dots[1..] == seq(n - 1, _ => "..");
      var up := Push(cur, "..");
      assert IsDir(fs, up) by {
        if |cur| > 0 {
          assert up == Parent(cur);
        }
      }
      WalkUps(fs, up, n - 1);
    } else {
      assert |cur| == 0;
    }
  }

  /** What the walk of a resolved path reaches: its lexical reading, whatever the disk. */
  lemma LookupOfResolved(fs: Fs, baseDir: string, currentDir: string, v: string)
    requires ValidBase(baseDir) && IsResolved(v)
    ensures |v| > 0
    ensures Lookup(fs, CreateNativePath(baseDir, currentDir, v)) == Some(OsPath(CreateNativePath(baseDir, currentDir, v)))
  {
    NativeOfResolved(baseDir, currentDir, v);
    WalkFromClean(fs, [], Root(baseDir) + Tokens(v, Slash));
    assert [] + (Root(baseDir) + Tokens(v, Slash)) == Root(baseDir) + Tokens(v, Slash);
  }

  /** `new File(dir, name)` for a clean name is the entry `name` of the directory `dir` denotes. */
  lemma LookupChild(fs: Fs, native: string, name: string)
    requires CleanSegment(name)
    ensures Lookup(fs, native + "/" + name) ==
      (match Lookup(fs, native) case None => None case Some(d) => Some(d + [name]))
  {
    TokensAppend(native, name);
    WalkFromConcat(fs, [], Tokens(native, Slash), [name]);
    if Lookup(fs, native).Some? {
      WalkFromClean(fs, Lookup(fs, native).value, [name]);
    }
  }

  /** A walk of one segment. */
  lemma WalkOne(fs: Fs, cur: Path, seg: string)
    ensures WalkFrom(fs, cur, [seg]) ==
      if (seg == "." || seg == "..") && !IsDir(fs, cur) then None else Some(Push(cur, seg))
  {
    assert [seg][0] == seg && [seg][1..] == [];
  }

  /** "x/.." is the directory of x only when x is an existing directory. */
  lemma LookupUp(fs: Fs, native: string, x: string)
    requires CleanSegment(x)
    ensures Lookup(fs, native + "/" + x + "/..") ==
      (match Lookup(fs, native) case None => None
       case Some(d) => if IsDir(fs, d + [x]) then Some(d) else None)
  {
    var child := native + "/" + x;
    assert native + "/" + x + "/.." == child + "/" + "..";
    LookupChild(fs, native, x);
    TokensAppend(child, "..");
    WalkFromConcat(fs, [], Tokens(child, Slash), [".."]);
    if Lookup(fs, native).Some? {
      var d := Lookup(fs, native).value;
      WalkOne(fs, d + [x], "..");
      assert Push(d + [x], "..") == d;
    }
  }

  /** "p/." is p only when p is an existing directory. */
  lemma LookupDot(fs: Fs, native: string)
    ensures Lookup(fs, native + "/.") ==
      (match Lookup(fs, native) case None => None
       case Some(d) => if IsDir(fs, d) then Some(d) else None)
  {
    assert native + "/." == native + "/" + ".";
    TokensAppend(native, ".");
    WalkFromConcat(fs, [], Tokens(native, Slash), ["."]);
    if Lookup(fs, native).Some? {
      WalkOne(fs, Lookup(fs, native).value, ".");
    }
  }

  /**
   * Below the root, "x/../a" with x not a directory cannot be walked,
   * although its lexical reading is the entry a of the root.
   */
  lemma UpThroughMissing(fs: Fs, baseDir: string, x: string, a: string)
    requires ValidBase(baseDir) && CleanSegment(x) && CleanSegment(a)
    requires !IsDir(fs, Root(baseDir) + [x])
    ensures Lookup(fs, baseDir + "/" + x + "/../" + a).None?
    ensures OsPath(baseDir + "/" + x + "/../" + a) == Root(baseDir) + [a]
  {
    var up := baseDir + "/" + x + "/..";
    assert baseDir + "/" + x + "/../" + a == up + "/" + a;
    WalkFromClean(fs, [], Root(baseDir));
    assert [] + Root(baseDir) == Root(baseDir);
    LookupUp(fs, baseDir, x);
    LookupChild(fs, up, a);
    OsPathChild(up, a);
    UpLexical(baseDir, x);
  }

  /** "f/." below the root, with f not a directory, cannot be walked; its lexical reading is f. */
  lemma DotAfterNonDirectory(fs: Fs, baseDir: string, f: string)
    requires ValidBase(baseDir) && CleanSegment(f)
    requires !IsDir(fs, Root(baseDir) + [f])
    ensures Lookup(fs, baseDir + "/" + f + "/.").None?
    ensures OsPath(baseDir + "/" + f + "/.") == Root(baseDir) + [f]
  {
    var child := baseDir + "/" + f;
    WalkFromClean(fs, [], Root(baseDir));
    assert [] + Root(baseDir) == Root(baseDir);
    LookupChild(fs, baseDir, f);
    LookupDot(fs, child);
    assert child + "/." == child + "/" + ".";
    TokensAppend(child, ".");
    TokensAppend(baseDir, f);
    NormalizeFromConcat([], Root(baseDir) + [f], ["."]);
    NormalizeFromOfClean([], Root(baseDir) + [f]);
    assert [] + (Root(baseDir) + [f]) == Root(baseDir) + [f];
    assert ["."][0] == "." && ["."][1..] == [];
  }

  lemma UpLexical(baseDir: string, x: string)
    requires ValidBase(baseDir) && CleanSegment(x)
    ensures OsPath(baseDir + "/" + x + "/..") == Root(baseDir)
  {
    var child := baseDir + "/" + x;
    assert child + "/.." == child + "/" + "..";
    TokensAppend(child, "..");
    TokensAppend(baseDir, x);
    NormalizeFromConcat([], Root(baseDir) + [x], [".."]);
    NormalizeFromOfClean([], Root(baseDir) + [x]);
    assert [] + (Root(baseDir) + [x]) == Root(baseDir) + [x];
    assert [".."][0] == ".." && [".."][1..] == [];
    assert Push(Root(baseDir) + [x], "..") == Root(baseDir);
  }

  /**
   * With the served root an existing directory of a tree, as many "/.." as
   * the root has segments, appended to it, reach the OS root.
   */
  lemma UpsReachOsRoot(fs: Fs, baseDir: string)
    requires ValidBase(baseDir) && Tree(fs) && IsDir(fs, Root(baseDir))
    ensures Lookup(fs, baseDir + Ups(|Root(baseDir)|)) == Some([])
  {
    var n := |Root(baseDir)|;
    TokensOfUps(baseDir, n);
    WalkFromConcat(fs, [], Root(baseDir), seq(n, _ => ".."));
    WalkFromClean(fs, [], Root(baseDir));
    assert [] + Root(baseDir) == Root(baseDir);
    WalkUps(fs, Root(baseDir), n);
  }

  /**
   * Without resolvePath a path is not confined: a client path made of as
   * many "/.." as the root has segments reaches the OS root, which lies
   * outside any root other than "/".
   */
  lemma UnresolvedPathCanEscape(fs: Fs, baseDir: string, currentDir: string)
    requires ValidBase(baseDir) && Tree(fs) && IsDir(fs, Root(baseDir))
    requires |Root(baseDir)| > 0
    ensures |Ups(|Root(baseDir)|)| > 0
    ensures Lookup(fs, CreateNativePath(baseDir, currentDir, Ups(|Root(baseDir)|))) == Some([])
    ensures !Under(Root(baseDir), [])
  {
    var n := |Root(baseDir)|;
    UpsStartsWithSlash(n);
    assert CreateNativePath(baseDir, currentDir, Ups(n)) == baseDir + Ups(n);
    UpsReachOsRoot(fs, baseDir);
  }

  lemma UnderTrans(a: Path, b: Path, c: Path)
    requires Under(a, b) && Under(b, c)
    ensures Under(a, c)
  {
    assert c[..|a|] == c[..|b|][..|a|];
  }

  /** Every proper ancestor of an entry of a tree is a directory. */
  lemma {:induction false} AncestorIsDir(fs: Fs, a: Path, k: Path)
    requires Tree(fs)
    requires k in fs && Under(a, k) && |a| < |k|
    ensures IsDir(fs, a)
    decreases |k| - |a|
  {
    var p := Parent(k);
    assert IsDir(fs, p);
    if |a| < |p| {
      assert p[..|a|] == k[..|a|];
      AncestorIsDir(fs, a, p);
    } else {
      assert a == p;
    }
  }

  /** An entry is a child of its parent. */
  lemma ChildWitness(fs: Fs, k: Path)
    requires k in fs && |k| > 0
    ensures HasChildren(fs, Parent(k))
  {
    assert k[..|Parent(k)|] == Parent(k);
  }

  lemma MkdirPreservesTree(fs: Fs, p: Path)
    requires Tree(fs) && Mkdir(fs, p).Some?
    ensures Tree(Mkdir(fs, p).value)
  {
  }

  lemma DeletePreservesTree(fs: Fs, p: Path)
    requires Tree(fs) && Delete(fs, p).Some?
    ensures Tree(Delete(fs, p).value)
  {
    var fs' := Delete(fs, p).value;
    forall k | k in fs' && |k| > 0
      ensures IsDir(fs', Parent(k))
    {
      ChildWitness(fs, k);
    }
  }

  lemma CreateFilePreservesTree(fs: Fs, p: Path)
    requires Tree(fs) && CreateFile(fs, p).Some?
    ensures Tree(CreateFile(fs, p).value)
  {
  }

  /** Writing new content into an existing file keeps the tree. */
  lemma WritePreservesTree(fs: Fs, p: Path, content: seq<byte>)
    requires Tree(fs) && IsFile(fs, p)
    ensures Tree(fs[p := File(content)])
  {
  }

  /** The subtree of `src` is found at `dst` after the move. */
  lemma MoveSubtree(fs: Fs, src: Path, dst: Path, s: seq<string>)
    requires src + s in fs
    ensures dst + s in Move(fs, src, dst) && Move(fs, src, dst)[dst + s] == fs[src + s]
  {
    var j := src + s;
    assert j[..|src|] == src && j[|src|..] == s;
    assert dst + s in MovedKeys(fs, src, dst);
    assert (dst + s)[|dst|..] == s;
  }

  /** Entries outside both subtrees are untouched by the move. */
  lemma MoveOutside(fs: Fs, src: Path, dst: Path, k: Path)
    requires !Under(src, k) && !Under(dst, k)
    ensures k in Move(fs, src, dst) <==> k in fs
    ensures k in fs ==> Move(fs, src, dst)[k] == fs[k]
  {
    forall j | j in fs && Under(src, j)
      ensures dst + j[|src|..] != k
    {
      assert (dst + j[|src|..])[..|dst|] == dst;
    }
    assert k !in MovedKeys(fs, src, dst);
  }

  /** Every entry after the move is either moved (below `dst`) or kept. */
  lemma MoveDomain(fs: Fs, src: Path, dst: Path, k: Path)
    requires k in Move(fs, src, dst)
    ensures (Under(dst, k) && src + k[|dst|..] in fs) || (k in fs && !Under(src, k) && !Under(dst, k))
  {
    if k in MovedKeys(fs, src, dst) {
      MovedOrigin(fs, src, dst, k);
    }
  }

  /** Every proper ancestor of an entry of a tree is a directory with children. */
  lemma AncestorHasChildren(fs: Fs, a: Path, k: Path)
    requires Tree(fs)
    requires k in fs && Under(a, k) && |a| < |k|
    ensures IsDir(fs, a) && HasChildren(fs, a)
  {
    AncestorIsDir(fs, a, k);
  }

  /** A renameable target is not a proper ancestor of the source. */
  lemma TargetNotAboveSource(fs: Fs, src: Path, dst: Path)
    requires Tree(fs) && CanRename(fs, src, dst) && src != dst
    ensures !(Under(dst, src) && |dst| < |src|)
  {
    if Under(dst, src) && |dst| < |src| {
      AncestorHasChildren(fs, dst, src);
    }
  }

  lemma MoveRemovesSource(fs: Fs, src: Path, dst: Path)
    requires Tree(fs) && CanRename(fs, src, dst) && src != dst
    ensures src !in Move(fs, src, dst)
  {
    TargetNotAboveSource(fs, src, dst);
    forall j | j in fs && Under(src, j)
      ensures dst + j[|src|..] != src
    {
      var k := dst + j[|src|..];
      assert k[..|dst|] == dst;
      assert |dst| == |src| ==> src[..|dst|] == src;
    }
    assert src !in MovedKeys(fs, src, dst);
  }

  /**
   * What a successful rename of `src` to a different `dst` does to a tree:
   * the subtree of `src` now lies at `dst`, `src` is gone, and every entry
   * outside both subtrees is untouched.
   */
  lemma RenameMoves(fs: Fs, src: Path, dst: Path)
    requires Tree(fs) && src != dst && Rename(fs, src, dst).Some?
    ensures var fs' := Rename(fs, src, dst).value;
      && dst in fs' && fs'[dst] == fs[src]
      && src !in fs'
      && (forall s :: src + s in fs ==> dst + s in fs' && fs'[dst + s] == fs[src + s])
      && (forall k :: !Under(src, k) && !Under(dst, k) ==> (k in fs' <==> k in fs) && (k in fs ==> fs'[k] == fs[k]))
  {
    forall s | src + s in fs
      ensures dst + s in Move(fs, src, dst) && Move(fs, src, dst)[dst + s] == fs[src + s]
    {
      MoveSubtree(fs, src, dst, s);
    }
    assert src + [] == src && dst + [] == dst;
    MoveRemovesSource(fs, src, dst);
    forall k | !Under(src, k) && !Under(dst, k)
      ensures (k in Move(fs, src, dst) <==> k in fs) && (k in fs ==> Move(fs, src, dst)[k] == fs[k])
    {
      MoveOutside(fs, src, dst, k);
    }
  }

  /** After a move, the parent of a moved entry is a directory. */
  lemma MoveParentMoved(fs: Fs, src: Path, dst: Path, s: seq<string>)
    requires Tree(fs) && CanRename(fs, src, dst) && src != dst
    requires src + s in fs
    ensures |dst + s| > 0 && IsDir(Move(fs, src, dst), Parent(dst + s))
  {
    var k := dst + s;
    var p := Parent(k);
    if |s| == 0 {
      assert k == dst && p == Parent(dst);
      assert !Under(dst, p);
      assert !Under(src, p);
      MoveOutside(fs, src, dst, p);
    } else {
      var j := src + s;
      assert IsDir(fs, Parent(j));
      assert Parent(j) == src + s[..|s| - 1];
      assert p == dst + s[..|s| - 1];
      MoveSubtree(fs, src, dst, s[..|s| - 1]);
    }
  }

  /** After a move, the parent of a kept entry is a directory. */
  lemma MoveParentKept(fs: Fs, src: Path, dst: Path, k: Path)
    requires Tree(fs)
    requires k in fs && !Under(src, k) && !Under(dst, k) && |k| > 0
    ensures IsDir(Move(fs, src, dst), Parent(k))
  {
    var p := Parent(k);
    assert IsDir(fs, p);
    assert k[..|p|] == p;
    assert !Under(src, p) by {
      if Under(src, p) {
        UnderTrans(src, p, k);
      }
    }
    assert !Under(dst, p) by {
      if Under(dst, p) {
        UnderTrans(dst, p, k);
      }
    }
    MoveOutside(fs, src, dst, p);
  }

  lemma MoveParent(fs: Fs, src: Path, dst: Path, k: Path)
    requires Tree(fs) && CanRename(fs, src, dst) && src != dst
    requires k in Move(fs, src, dst) && |k| > 0
    ensures IsDir(Move(fs, src, dst), Parent(k))
  {
    MoveDomain(fs, src, dst, k);
    if Under(dst, k) && src + k[|dst|..] in fs {
      assert k == dst + k[|dst|..];
      MoveParentMoved(fs, src, dst, k[|dst|..]);
    } else {
      MoveParentKept(fs, src, dst, k);
    }
  }

  lemma RenamePreservesTree(fs: Fs, src: Path, dst: Path)
    requires Tree(fs) && Rename(fs, src, dst).Some?
    ensures Tree(Rename(fs, src, dst).value)
  {
    if src != dst {
      var fs' := Move(fs, src, dst);
      assert !Under(src, []) && !Under(dst, []);
      MoveOutside(fs, src, dst, []);
      forall k | k in fs' && |k| > 0
        ensures IsDir(fs', Parent(k))
      {
        MoveParent(fs, src, dst, k);
      }
    }
  }

  /** An operation on entries below `root` changes nothing outside it. */
  lemma RenameInside(fs: Fs, src: Path, dst: Path, root: Path)
    requires Tree(fs) && Rename(fs, src, dst).Some?
    requires Under(root, src) && Under(root, dst)
    ensures SameOutside(fs, Rename(fs, src, dst).value, root)
  {
    if src != dst {
      RenameMoves(fs, src, dst);
      forall k | !Under(root, k)
        ensures !Under(src, k) && !Under(dst, k)
      {
        if Under(src, k) { UnderTrans(root, src, k); }
        if Under(dst, k) { UnderTrans(root, dst, k); }
      }
    }
  }
}

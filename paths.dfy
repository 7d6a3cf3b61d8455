/**
 * Virtual paths (resolvePath), their anchoring under the server root
 * (createNativePath) and how the operating system reads the resulting
 * native path string.
 */
module Paths {
  import opened Text

  /** An absolute path as the operating system sees it: its segments from the OS root. */
  type Path = seq<string>

  predicate CleanSegment(s: string) {
    |s| > 0 && s != "." && s != ".." && '/' !in s
  }

  /** No empty, "." or ".." segment and no slash inside a segment. */
  predicate Clean(segs: seq<string>) {
    forall i :: 0 <= i < |segs| ==> CleanSegment(segs[i])
  }

  /** One step of resolvePath's segment stack: ".." pops (nothing to pop at the root), "." is skipped. */
  function Push(stack: seq<string>, seg: string): seq<string> {
    if seg == ".." then (if |stack| == 0 then stack else stack[..|stack| - 1])
    else if seg == "." then stack
    else stack + [seg]
  }

  function NormalizeFrom(stack: seq<string>, segs: seq<string>): seq<string>
    decreases |segs|
  {
    if |segs| == 0 then stack else NormalizeFrom(Push(stack, segs[0]), segs[1..])
  }

  function Normalize(segs: seq<string>): seq<string> {
    NormalizeFrom([], segs)
  }

  /** "/" followed by the segments separated by "/"; the root alone is "/". */
  function Render(segs: seq<string>): string {
    "/" + Join(segs, "/")
  }

  /** A relative argument is taken relative to the current directory. */
  function Absolute(currentDir: string, path: string): string
    requires |path| > 0
  {
    if path[0] != '/' then currentDir + "/" + path else path
  }

  /** What resolvePath returns for `path` when the working directory is `currentDir`. */
  function Resolve(currentDir: string, path: string): string
    requires |path| > 0
  {
    Render(Normalize(Tokens(Absolute(currentDir, path), Slash)))
  }

  /** A resolved virtual path: "/" and clean segments, nothing else. */
  predicate IsResolved(v: string) {
    Clean(Tokens(v, Slash)) && v == Render(Tokens(v, Slash))
  }

  /** resolvePath: the segment stack loop, then the StringBuilder loop. */
  method ResolvePath(currentDir: string, path: string) returns (r: string)
    requires |path| > 0
    ensures r == Resolve(currentDir, path)
  {
    var full := path;
    if path[0] != '/' {
      full := currentDir + "/" + path;
    }
    var tokens := Tokens(full, Slash);
    var segments: seq<string> := [];
    var i := 0;
    while i < |tokens|
      invariant 0 <= i <= |tokens|
      invariant NormalizeFrom(segments, tokens[i..]) == Normalize(tokens)
    {
      var segment := tokens[i];
      if segment == ".." {
        if |segments| > 0 {
          segments := segments[..|segments| - 1];
        }
      } else if segment == "." {
        // skip
      } else {
        segments := segments + [segment];
      }
      assert tokens[i..][1..] == tokens[i + 1..];
      i := i + 1;
    }
    assert tokens[i..] == [];
    var buf := "/";
    var j := 0;
    while j < |segments|
      invariant 0 <= j <= |segments|
      invariant buf == "/" + Join(segments[..j], "/") + (if 0 < j < |segments| then "/" else "")
    {
      assert segments[..j + 1][..j] == segments[..j];
      buf := buf + segments[j];
      if j + 1 < |segments| {
        buf := buf + "/";
      }
      j := j + 1;
    }
    assert segments[..j] == segments;
    r := buf;
  }

  /** createNativePath: the virtual path placed under the server root `baseDir`. */
  function CreateNativePath(baseDir: string, currentDir: string, ftpPath: string): string
    requires |ftpPath| > 0
  {
    if ftpPath[0] == '/' then baseDir + ftpPath else baseDir + currentDir + "/" + ftpPath
  }

  /**
   * The lexical reading of a native path string: repeated slashes
   * collapse, "." is dropped and ".." removes the segment before it,
   * stopping at the OS root. It is the entry the operating system opens
   * whenever every "." and ".." is looked up in an existing directory
   * (FileSystem.Lookup walks the disk and refuses the other paths).
   */
  function OsPath(native: string): Path {
    Normalize(Tokens(native, Slash))
  }

  /** user.dir: an absolute directory whose segments are clean. */
  predicate ValidBase(baseDir: string) {
    |baseDir| > 0 && baseDir[0] == '/' && Clean(Tokens(baseDir, Slash))
  }

  /** The served root directory as an OS path. */
  function Root(baseDir: string): Path {
    Tokens(baseDir, Slash)
  }

  /** `p` is `dir` or lies below it. */
  predicate Under(dir: Path, p: Path) {
    |dir| <= |p| && p[..|dir|] == dir
  }

  // ---------------------------------------------------------------- lemmas

  lemma {:induction false} NormalizeFromClean(stack: seq<string>, segs: seq<string>)
    requires Clean(stack)
    requires WellFormedTokens(segs, Slash)
    ensures Clean(NormalizeFrom(stack, segs))
    decreases |segs|
  {
    if |segs| > 0 {
      var next := Push(stack, segs[0]);
      assert Clean(next) by {
        if segs[0] != ".." && segs[0] != "." {
          assert next == stack + [segs[0]];
          assert '/' !in segs[0] by {
            assert NoneIn(segs[0], Slash);
          }
        }
      }
      NormalizeFromClean(next, segs[1..]);
    }
  }

  /** Clean segments pass through the stack unchanged. */
  lemma {:induction false} NormalizeFromOfClean(stack: seq<string>, segs: seq<string>)
    requires Clean(segs)
    ensures NormalizeFrom(stack, segs) == stack + segs
    decreases |segs|
  {
    if |segs| > 0 {
      NormalizeFromOfClean(stack + [segs[0]], segs[1..]);
      assert stack + [segs[0]] + segs[1..] == stack + segs;
    } else {
      assert stack + segs == stack;
    }
  }

  lemma {:induction false} NormalizeFromConcat(stack: seq<string>, a: seq<string>, b: seq<string>)
    ensures NormalizeFrom(stack, a + b) == NormalizeFrom(NormalizeFrom(stack, a), b)
    decreases |a|
  {
    if |a| == 0 {
      assert a + b == b;
    } else {
      assert (a + b)[0] == a[0] && (a + b)[1..] == a[1..] + b;
      NormalizeFromConcat(Push(stack, a[0]), a[1..], b);
    }
  }

  lemma CleanIsWellFormed(segs: seq<string>)
    requires Clean(segs)
    ensures WellFormedTokens(segs, Slash)
  {
    forall i | 0 <= i < |segs| ensures NoneIn(segs[i], Slash) {
      assert '/' !in segs[i];
    }
  }

  /** Rendering clean segments and tokenizing on "/" gives the segments back. */
  lemma TokensOfRender(segs: seq<string>)
    requires Clean(segs)
    ensures Tokens(Render(segs), Slash) == segs
  {
    CleanIsWellFormed(segs);
    TokensOfJoin(segs, '/', Slash);
    TokensSplit([], '/', Join(segs, "/"), Slash);
    assert [] + ['/'] + Join(segs, "/") == Render(segs);
  }

  lemma RenderIsResolved(segs: seq<string>)
    requires Clean(segs)
    ensures IsResolved(Render(segs))
    ensures Render(segs)[0] == '/'
  {
    TokensOfRender(segs);
  }

  /**
   * resolvePath always returns "/" followed by segments none of which is
   * empty, "." or "..".
   */
  lemma ResolveShape(currentDir: string, path: string)
    requires |path| > 0
    ensures IsResolved(Resolve(currentDir, path))
    ensures Resolve(currentDir, path)[0] == '/'
  {
    var tokens := Tokens(Absolute(currentDir, path), Slash);
    TokensWellFormed(Absolute(currentDir, path), Slash);
    NormalizeFromClean([], tokens);
    RenderIsResolved(Normalize(tokens));
  }

  /** A resolved path resolves to itself, whatever the working directory. */
  lemma ResolveOfResolved(currentDir: string, v: string)
    requires IsResolved(v)
    ensures |v| > 0 && Resolve(currentDir, v) == v
  {
    var segs := Tokens(v, Slash);
    RenderIsResolved(segs);
    NormalizeFromOfClean([], segs);
    assert [] + segs == segs;
  }

  /** Re-resolving a result returns it unchanged, with any working directory. */
  lemma ResolveIdempotent(currentDir: string, otherDir: string, path: string)
    requires |path| > 0
    ensures |Resolve(currentDir, path)| > 0
    ensures Resolve(otherDir, Resolve(currentDir, path)) == Resolve(currentDir, path)
  {
    ResolveShape(currentDir, path);
    ResolveOfResolved(otherDir, Resolve(currentDir, path));
  }

  /** A resolved path under a valid root names the root's segments followed by its own. */
  lemma NativeOfResolved(baseDir: string, currentDir: string, v: string)
    requires ValidBase(baseDir)
    requires IsResolved(v)
    ensures |v| > 0 && OsPath(CreateNativePath(baseDir, currentDir, v)) == Root(baseDir) + Tokens(v, Slash)
    ensures Tokens(CreateNativePath(baseDir, currentDir, v), Slash) == Root(baseDir) + Tokens(v, Slash)
    ensures Clean(Root(baseDir) + Tokens(v, Slash))
  {
    var segs := Tokens(v, Slash);
    RenderIsResolved(segs);
    assert v[0] == '/';
    assert CreateNativePath(baseDir, currentDir, v) == baseDir + v;
    assert v == [] + ['/'] + v[1..];
    TokensSplit([], '/', v[1..], Slash);
    assert Tokens([], Slash) == [];
    assert segs == Tokens(v[1..], Slash);
    assert baseDir + v == baseDir + ['/'] + v[1..];
    TokensSplit(baseDir, '/', v[1..], Slash);
    NormalizeFromConcat([], Root(baseDir), segs);
    NormalizeFromOfClean([], Root(baseDir));
    NormalizeFromOfClean(Root(baseDir), segs);
    assert [] + Root(baseDir) == Root(baseDir);
    assert Tokens(baseDir + v, Slash) == Root(baseDir) + segs;
  }

  /**
   * Sandboxing of the resolvePath users: whatever the argument and the
   * working directory, the native path of the resolved argument is the
   * server root or lies below it.
   */
  lemma ResolvedStaysUnderRoot(baseDir: string, currentDir: string, path: string)
    requires ValidBase(baseDir)
    requires |path| > 0
    ensures |Resolve(currentDir, path)| > 0
    ensures Under(Root(baseDir), OsPath(CreateNativePath(baseDir, currentDir, Resolve(currentDir, path))))
  {
    ResolveShape(currentDir, path);
    NativeOfResolved(baseDir, currentDir, Resolve(currentDir, path));
  }

  /** Appending "/" and a segment without slashes appends that one token. */
  lemma TokensAppend(native: string, seg: string)
    requires |seg| > 0 && '/' !in seg
    ensures Tokens(native + "/" + seg, Slash) == Tokens(native, Slash) + [seg]
  {
    assert native + "/" + seg == native + ['/'] + seg;
    TokensSplit(native, '/', seg, Slash);
    assert NoneIn(seg, Slash);
    ScanPlain(seg, Slash, []);
    assert [] + seg == seg;
  }

  /** `new File(dir, name)` for a clean name is the entry `name` inside `dir`. */
  lemma OsPathChild(native: string, name: string)
    requires CleanSegment(name)
    ensures OsPath(native + "/" + name) == OsPath(native) + [name]
  {
    TokensAppend(native, name);
    var segs := Tokens(native, Slash);
    NormalizeFromConcat([], segs, [name]);
    assert NormalizeFrom(OsPath(native), [name]) == OsPath(native) + [name] by {
      assert [name][1..] == [];
    }
  }

  /** A ".." at the root is a no-op. */
  lemma {:induction false} DotDotAtRoot(segs: seq<string>)
    ensures Normalize([".."] + segs) == Normalize(segs)
  {
    assert ([".."] + segs)[0] == ".." && ([".."] + segs)[1..] == segs;
  }

  /** `n` times "/..". */
  function Ups(n: nat): string
    decreases n
  {
    if n == 0 then "" else Ups(n - 1) + "/.."
  }

  lemma {:induction false} TokensOfUps(prefix: string, n: nat)
    ensures Tokens(prefix + Ups(n), Slash) == Tokens(prefix, Slash) + seq(n, _ => "..")
    decreases n
  {
    if n == 0 {
      assert prefix + Ups(0) == prefix;
      assert Tokens(prefix, Slash) + seq(0, _ => "..") == Tokens(prefix, Slash);
    } else {
      TokensOfUps(prefix, n - 1);
      assert prefix + Ups(n) == (prefix + Ups(n - 1)) + ['/'] + "..";
      TokensSplit(prefix + Ups(n - 1), '/', "..", Slash);
      ScanPlain("..", Slash, []);
      assert [] + ".." == "..";
      assert seq(n - 1, _ => "..") + [".."] == seq(n, _ => "..");
    }
  }

  lemma {:induction false} UpsStartsWithSlash(n: nat)
    requires n > 0
    ensures |Ups(n)| > 0 && Ups(n)[0] == '/'
    decreases n
  {
    if n > 1 {
      UpsStartsWithSlash(n - 1);
    }
  }
}

/**
 * POSIX-like path handling.  src/os/fs/util.ts (`normalize`, `splitPath`),
 * src/os/apps/terminal/worker.ts (`normalize`, `joinPath`, `splitPath`) and
 * src/os/system/storage.ts (`norm`, `split`) carry the same stack loop; it
 * is defined once here.  The two `splitPath` copies differ only in the name
 * of the root path: "" in util.ts and storage.ts, `undefined` in the worker.
 */
module Paths {
  import opened Wrappers
  import opened Strings

  /** A segment that survives normalisation. */
  predicate IsSegment(s: string) {
    s != "" && s != "." && s != ".." && '/' !in s
  }

  predicate AllSegments(st: seq<string>) {
    forall i :: 0 <= i < |st| ==> IsSegment(st[i])
  }

  predicate NoSlash(parts: seq<string>) {
    forall i :: 0 <= i < |parts| ==> '/' !in parts[i]
  }

  /** One iteration of the loop: skip "" and ".", pop on ".." (a no-op on an empty stack), else push. */
  function Step(stack: seq<string>, seg: string): seq<string> {
    if seg == "" || seg == "." then stack
    else if seg == ".." then (if stack == [] then [] else stack[..|stack| - 1])
    else stack + [seg]
  }

  /** The loop over the remaining pieces, from a given stack. */
  function Fold(stack: seq<string>, parts: seq<string>): (r: seq<string>)
    ensures AllSegments(stack) && NoSlash(parts) ==> AllSegments(r)
    decreases |parts|
  {
    if parts == [] then stack
    else Fold(Step(stack, parts[0]), parts[1..])
  }

  /** The stack the loop ends with: only real segments are left. */
  function NormStack(p: string): (st: seq<string>)
    ensures AllSegments(st)
  {
    Fold([], SplitOn(p, '/'))
  }

  /** `normalize` / `norm`: "/" followed by the stack joined with "/". */
  function Normalize(p: string): string {
    "/" + JoinWith(NormStack(p), '/')
  }

  /** The loop itself, as written in each of the three copies. */
  method NormalizeLoop(p: string) returns (r: string)
    ensures r == Normalize(p)
  {
    var parts := SplitOn(p, '/');
    var stack: seq<string> := [];
    var i := 0;
    while i < |parts|
      invariant 0 <= i <= |parts|
      invariant Fold(stack, parts[i..]) == Fold([], parts)
    {
      assert parts[i..][1..] == parts[i + 1..];
      var seg := parts[i];
      if seg == "" || seg == "." {
      } else if seg == ".." {
        if stack != [] {
          stack := stack[..|stack| - 1];
        }
      } else {
        stack := stack + [seg];
      }
      i := i + 1;
    }
    assert parts[i..] == [];
    r := "/" + JoinWith(stack, '/');
  }

  /** Real segments are all pushed. */
  lemma {:induction false} FoldSegments(stack: seq<string>, segs: seq<string>)
    requires AllSegments(segs)
    ensures Fold(stack, segs) == stack + segs
    decreases |segs|
  {
    if segs != [] {
      FoldSegments(stack + [segs[0]], segs[1..]);
      assert stack + [segs[0]] + segs[1..] == stack + segs;
    }
  }

  /** Splitting "/" + j gives an empty first piece, then the pieces of j. */
  lemma SplitRooted(j: string)
    ensures SplitOn("/" + j, '/') == [""] + SplitOn(j, '/')
  {
    SplitOnConcat("", j, '/');
    assert "" + ['/'] + j == "/" + j;
  }

  /** A path that is "/" plus joined segments is left as it is, and its stack is those segments. */
  lemma NormalizeCanonical(st: seq<string>)
    requires AllSegments(st)
    ensures NormStack("/" + JoinWith(st, '/')) == st
    ensures Normalize("/" + JoinWith(st, '/')) == "/" + JoinWith(st, '/')
  {
    var j := JoinWith(st, '/');
    SplitRooted(j);
    if st == [] {
      assert SplitOn(j, '/') == [""];
      assert Fold([], [""]) == Fold([], []) == [];
      assert Fold([], [""] + [""]) == Fold([], [""]);
    } else {
      SplitJoin(st, '/');
      FoldSegments([], st);
      assert Fold([], [""] + st) == Fold([], st);
    }
  }

  /** Normalising twice is normalising once. */
  lemma NormalizeIdempotent(p: string)
    ensures Normalize(Normalize(p)) == Normalize(p)
  {
    NormalizeCanonical(NormStack(p));
  }

  /**
   * The output is "/" and, when the stack is non-empty, exactly the stack's
   * segments between the slashes: none empty, "." or "..".
   */
  lemma NormalizeShape(p: string)
    ensures Normalize(p)[0] == '/'
    ensures NormStack(p) == [] ==> Normalize(p) == "/"
    ensures NormStack(p) != [] ==> SplitOn(Normalize(p)[1..], '/') == NormStack(p)
  {
    var st := NormStack(p);
    if st != [] {
      assert Normalize(p)[1..] == JoinWith(st, '/');
      SplitJoin(st, '/');
    }
  }

  /** A worked example of `Normalize`'s contract: ".." at the root is dropped. */
  lemma DotDotAtRoot()
    ensures Normalize("/..") == "/"
  {
    assert SplitOn("..", '/') == [".."] by { SplitOnSingle("..", '/'); }
    SplitRooted("..");
    assert "/" + ".." == "/..";
  }

  /** `.filter(Boolean)` on strings. */
  function NonEmpty(parts: seq<string>): (r: seq<string>)
    ensures forall s :: s in r <==> s in parts && s != ""
    decreases |parts|
  {
    if parts == [] then []
    else if parts[0] == "" then NonEmpty(parts[1..])
    else [parts[0]] + NonEmpty(parts[1..])
  }

  lemma {:induction false} NonEmptyOfSegments(st: seq<string>)
    requires AllSegments(st)
    ensures NonEmpty(st) == st
    decreases |st|
  {
    if st != [] {
      NonEmptyOfSegments(st[1..]);
      assert st == [st[0]] + st[1..];
    }
  }

  /** `normalize(path).split('/').filter(Boolean)` recovers the stack. */
  lemma PiecesOfNormalized(p: string)
    ensures NonEmpty(SplitOn(Normalize(p), '/')) == NormStack(p)
  {
    var st := NormStack(p);
    SplitRooted(JoinWith(st, '/'));
    if st == [] {
      assert SplitOn(JoinWith(st, '/'), '/') == [""];
      assert NonEmpty([""] + [""]) == [];
    } else {
      SplitJoin(st, '/');
      NonEmptyOfSegments(st);
      assert ([""] + st)[1..] == st;
    }
  }

  /** The pieces `splitPath` works on. */
  function Pieces(p: string): seq<string> {
    NonEmpty(SplitOn(Normalize(p), '/'))
  }

  datatype PathSplit = PathSplit(parent: string, name: string)

  /** `splitPath` of src/os/fs/util.ts and `split` of src/os/system/storage.ts: the root has name "". */
  function SplitPath(p: string): (r: PathSplit)
    ensures NormStack(p) == [] ==> r == PathSplit("/", "")
    ensures NormStack(p) != [] ==>
      var st := NormStack(p);
      r == PathSplit("/" + JoinWith(st[..|st| - 1], '/'), st[|st| - 1])
  {
    PiecesOfNormalized(p);
    var parts := Pieces(p);
    if parts == [] then PathSplit("/", "")
    else PathSplit("/" + JoinWith(parts[..|parts| - 1], '/'), parts[|parts| - 1])
  }

  /** `splitPath` of the terminal worker: the root's name is `undefined`. */
  function WorkerSplitPath(p: string): (r: (string, Option<string>))
    ensures NormStack(p) == [] <==> r.1.None?
    ensures r.0 == SplitPath(p).parent
    ensures r.1.Some? ==> r.1.value == SplitPath(p).name && IsSegment(r.1.value)
  {
    PiecesOfNormalized(p);
    var parts := Pieces(p);
    if parts == [] then ("/", None)
    else ("/" + JoinWith(parts[..|parts| - 1], '/'), Some(parts[|parts| - 1]))
  }

  /** `base.replace(/\/$/, '')`: at most one trailing slash goes. */
  function DropTrailingSlash(base: string): string {
    if |base| > 0 && base[|base| - 1] == '/' then base[..|base| - 1] else base
  }

  /** The terminal worker's `joinPath`. */
  function JoinPath(base: string, rel: string): (r: string)
    ensures rel == "" || rel == "." ==> r == base
    ensures rel != "" && rel != "." && rel[0] == '/' ==> r == Normalize(rel)
    ensures rel != "" && rel != "." && rel[0] != '/' ==> r == Normalize(DropTrailingSlash(base) + "/" + rel)
  {
    if rel == "" || rel == "." then base
    else if StartsWith(rel, "/") then Normalize(rel)
    else Normalize(DropTrailingSlash(base) + "/" + rel)
  }

  lemma {:induction false} JoinEndsWithLast(parts: seq<string>, sep: char)
    requires |parts| >= 1
    ensures EndsWith(JoinWith(parts, sep), parts[|parts| - 1])
    decreases |parts|
  {
    if |parts| > 1 {
      var n := |parts|;
      assert parts == parts[..n - 1] + [parts[n - 1]];
      JoinSnoc(parts[..n - 1], parts[n - 1], sep);
    }
  }

  lemma LastCharOfSuffix(j: string, last: string)
    requires EndsWith(j, last) && last != []
    ensures j[|j| - 1] == last[|last| - 1]
  {
    assert j[|j| - |last|..][|last| - 1] == j[|j| - 1];
  }

  /** The join of segments is non-empty and does not end in "/". */
  lemma JoinEndsInSegment(init: seq<string>)
    requires AllSegments(init) && init != []
    ensures JoinWith(init, '/') != [] && JoinWith(init, '/')[|JoinWith(init, '/')| - 1] != '/'
  {
    var last := init[|init| - 1];
    JoinEndsWithLast(init, '/');
    assert IsSegment(last);
    LastCharOfSuffix(JoinWith(init, '/'), last);
    assert last[|last| - 1] in last;
  }

  lemma KeepsNoSlashEnd(s: string)
    requires s != [] && s[|s| - 1] != '/'
    ensures DropTrailingSlash(s) == s
  {
  }

  /** A rooted join of segments never ends in "/" unless it is the root itself. */
  lemma RootedJoinKeepsEnd(init: seq<string>)
    requires AllSegments(init) && init != []
    ensures DropTrailingSlash("/" + JoinWith(init, '/')) == "/" + JoinWith(init, '/')
  {
    var j := JoinWith(init, '/');
    JoinEndsInSegment(init);
    var full := "/" + j;
    assert full[|full| - 1] == j[|j| - 1];
    KeepsNoSlashEnd(full);
  }

  lemma TopLevelText(name: string)
    ensures DropTrailingSlash("/" + JoinWith([], '/')) + "/" + name == "/" + JoinWith([name], '/')
  {
  }

  lemma NestedText(init: seq<string>, name: string)
    requires AllSegments(init) && init != []
    ensures DropTrailingSlash("/" + JoinWith(init, '/')) + "/" + name == "/" + JoinWith(init + [name], '/')
  {
    RootedJoinKeepsEnd(init);
    JoinSnoc(init, name, '/');
  }

  /** Joining parent and name of a non-empty segment list gives its rooted join. */
  lemma JoinParentName(init: seq<string>, name: string)
    requires AllSegments(init) && IsSegment(name)
    ensures JoinPath("/" + JoinWith(init, '/'), name) == "/" + JoinWith(init + [name], '/')
  {
    assert name[0] in name;
    if init == [] {
      TopLevelText(name);
      assert init + [name] == [name];
    } else {
      NestedText(init, name);
    }
    assert AllSegments(init + [name]);
    NormalizeCanonical(init + [name]);
  }

  /** Joining a non-root path's parent and name gives its normal form back. */
  lemma JoinSplitRoundTrip(p: string)
    requires NormStack(p) != []
    ensures WorkerSplitPath(p).1.Some?
    ensures JoinPath(WorkerSplitPath(p).0, WorkerSplitPath(p).1.value) == Normalize(p)
    ensures JoinPath(SplitPath(p).parent, SplitPath(p).name) == Normalize(p)
  {
    var st := NormStack(p);
    assert st == st[..|st| - 1] + [st[|st| - 1]];
    JoinParentName(st[..|st| - 1], st[|st| - 1]);
  }
}

/**
 * The terminal worker's command-line rules (src/os/apps/terminal/worker.ts):
 * tokenising a line, the argument rules of cd, rm, mv and cp, and tab
 * completion.  The file system is an input: `kindOf` answers the worker's
 * `exists` for a path, and `listing` the rows `listDir` would return (None
 * when it throws).
 */
module TerminalWorker {
  import opened Wrappers
  import opened Strings
  import opened Paths
  import opened DirEntries

  const HOME: string := "/home"

  /** `s.split(/\s+/)`: maximal whitespace runs separate the pieces. */
  function SplitWs(s: string): (parts: seq<string>)
    ensures |parts| >= 1
    decreases |s|
  {
    if s == [] then [""]
    else if IsSpace(s[0]) then [""] + SplitWs(TrimStart(s))
    else
      var rest := SplitWs(s[1..]);
      [[s[0]] + rest[0]] + rest[1..]
  }

  /** No piece of a whitespace split contains whitespace. */
  lemma {:induction false} SplitWsNoSpace(s: string)
    ensures forall i, j :: 0 <= i < |SplitWs(s)| && 0 <= j < |SplitWs(s)[i]| ==> !IsSpace(SplitWs(s)[i][j])
    decreases |s|
  {
    if s != [] {
      if IsSpace(s[0]) {
        SplitWsNoSpace(TrimStart(s));
        assert SplitWs(s)[1..] == SplitWs(TrimStart(s));
      } else {
        SplitWsNoSpace(s[1..]);
        var rest := SplitWs(s[1..]);
        assert SplitWs(s)[1..] == rest[1..];
        forall j | 0 <= j < |SplitWs(s)[0]| ensures !IsSpace(SplitWs(s)[0][j]) {
          if j > 0 {
            assert SplitWs(s)[0][j] == rest[0][j - 1];
          }
        }
      }
    }
  }

  /** A string with no whitespace at either end splits into non-empty pieces. */
  lemma {:induction false} SplitWsTrimmed(s: string)
    requires s != [] && !IsSpace(s[0]) && !IsSpace(s[|s| - 1])
    ensures forall i :: 0 <= i < |SplitWs(s)| ==> SplitWs(s)[i] != ""
    decreases |s|
  {
    var tail := s[1..];
    if tail != [] {
      assert tail[|tail| - 1] == s[|s| - 1];
      if IsSpace(tail[0]) {
        var t := TrimStart(tail);
        assert t != [];
        assert t[|t| - 1] == s[|s| - 1];
        SplitWsTrimmed(t);
        assert SplitWs(s)[1..] == SplitWs(t);
      } else {
        SplitWsTrimmed(tail);
        assert SplitWs(s)[1..] == SplitWs(tail)[1..];
      }
    }
  }

  /** Trimming a whitespace run off the front of `b` leaves `b` when `b` starts with a non-space. */
  lemma {:induction false} TrimSpaceRun(ws: string, b: string)
    requires forall i :: 0 <= i < |ws| ==> IsSpace(ws[i])
    requires b == [] || !IsSpace(b[0])
    ensures TrimStart(ws + b) == b
    decreases |ws|
  {
    if ws != [] {
      assert (ws + b)[1..] == ws[1..] + b;
      TrimSpaceRun(ws[1..], b);
    } else {
      assert ws + b == b;
    }
  }

  /** A word with no whitespace in it is a single piece. */
  lemma {:induction false} SplitWsWord(w: string)
    requires forall i :: 0 <= i < |w| ==> !IsSpace(w[i])
    ensures SplitWs(w) == [w]
    decreases |w|
  {
    if w != [] {
      SplitWsWord(w[1..]);
      assert [w[0]] + w[1..] == w;
    }
  }

  /**
   * A word followed by a whitespace run splits into the word and the pieces
   * of what follows the run: with `SplitWsWord` this fixes every piece of a
   * split, in order.
   */
  lemma {:induction false} SplitWsConcat(w: string, ws: string, b: string)
    requires forall i :: 0 <= i < |w| ==> !IsSpace(w[i])
    requires ws != [] && forall i :: 0 <= i < |ws| ==> IsSpace(ws[i])
    requires b == [] || !IsSpace(b[0])
    ensures SplitWs(w + ws + b) == [w] + SplitWs(b)
    decreases |w|
  {
    var s := w + ws + b;
    if w == [] {
      assert s == ws + b;
      TrimSpaceRun(ws, b);
    } else {
      assert s[1..] == w[1..] + ws + b;
      SplitWsConcat(w[1..], ws, b);
      assert [w[0]] + w[1..] == w;
    }
  }

  /** A line: blank, or a command name and its arguments. */
  datatype Parsed = Blank | Line(cmd: string, args: seq<string>)

  /** The head of `handle`: `(line || '').trim()`, then `raw.split(/\s+/)`. */
  function ParseLine(line: string): Parsed {
    var raw := Trim(line);
    if raw == "" then Blank
    else
      var toks := SplitWs(raw);
      Line(toks[0], toks[1..])
  }

  /**
   * Only a blank or all-whitespace line is Blank; otherwise the command and
   * every argument are non-empty and free of whitespace.
   */
  lemma ParseLineSpec(line: string)
    ensures ParseLine(line).Blank? <==> Trim(line) == ""
    ensures ParseLine(line).Line? ==>
      var toks := [ParseLine(line).cmd] + ParseLine(line).args;
      toks == SplitWs(Trim(line))
      && (forall i :: 0 <= i < |toks| ==> toks[i] != "")
      && (forall i, j :: 0 <= i < |toks| && 0 <= j < |toks[i]| ==> !IsSpace(toks[i][j]))
  {
    var raw := Trim(line);
    if raw != "" {
      var t := TrimStart(line);
      assert raw == t[..|raw|];
      assert raw[0] == t[0];
      SplitWsTrimmed(raw);
      SplitWsNoSpace(raw);
      var toks := SplitWs(raw);
      assert [toks[0]] + toks[1..] == toks;
    }
  }

  // ---------------------------------------------------------------- cd

  /** The worker's output messages this model records. */
  datatype Msg = Println(text: string) | SetCwd(path: string)

  /** `args[0] || '/home'`, joined to the working directory. */
  function CdTarget(cwd: string, args: seq<string>): string {
    JoinPath(cwd, if args == [] || args[0] == "" then HOME else args[0])
  }

  predicate IsNormal(p: string) {
    Normalize(p) == p
  }

  /** Joining anything to a normal base gives a normal path. */
  lemma JoinPathNormal(base: string, rel: string)
    requires IsNormal(base)
    ensures IsNormal(JoinPath(base, rel))
  {
    if rel != "" && rel != "." {
      if rel[0] == '/' {
        NormalizeIdempotent(rel);
      } else {
        NormalizeIdempotent(DropTrailingSlash(base) + "/" + rel);
      }
    }
  }

  class Shell {
    var cwd: string
    var out: seq<Msg>

    /** The working directory is always a normal path. */
    ghost predicate Valid()
      reads this
    {
      IsNormal(cwd)
    }

    constructor ()
      ensures Valid() && cwd == HOME && out == []
    {
      cwd := HOME;
      out := [];
      assert SplitOn("home", '/') == ["home"] by { SplitOnSingle("home", '/'); }
      NormalizeCanonical(["home"]);
      assert "/" + JoinWith(["home"], '/') == HOME;
    }

    /** `cd`: move only into an existing directory; say why otherwise. */
    method Cd(args: seq<string>, kindOf: string -> Option<Kind>)
      requires Valid()
      modifies this
      ensures Valid()
      ensures var tgt := CdTarget(old(cwd), args);
        match kindOf(tgt)
        case Some(Dir) => cwd == tgt && out == old(out) + [SetCwd(tgt)]
        case Some(File) => cwd == old(cwd) && out == old(out) + [Println("cd: not a directory")]
        case None => cwd == old(cwd) && out == old(out) + [Println("cd: no such file or directory")]
    {
      var tgt := CdTarget(cwd, args);
      JoinPathNormal(cwd, if args == [] || args[0] == "" then HOME else args[0]);
      match kindOf(tgt) {
        case Some(Dir) =>
          cwd := tgt;
          out := out + [SetCwd(tgt)];
        case Some(File) =>
          out := out + [Println("cd: not a directory")];
        case None =>
          out := out + [Println("cd: no such file or directory")];
      }
    }
  }

  // ---------------------------------------------------------------- rm

  /** `rm`'s flags: recursive iff the first argument is -r or --recursive; the path follows it. */
  function RmArgs(args: seq<string>): (r: (bool, Option<string>))
    ensures r.0 <==> |args| > 0 && (args[0] == "-r" || args[0] == "--recursive")
    ensures r.1.Some? ==> r.1.value != ""
    ensures r.0 ==> r.1 == (if |args| > 1 && args[1] != "" then Some(args[1]) else None)
    ensures !r.0 ==> r.1 == (if |args| > 0 && args[0] != "" then Some(args[0]) else None)
  {
    var recursive := |args| > 0 && (args[0] == "-r" || args[0] == "--recursive");
    var p := if recursive then (if |args| > 1 then args[1] else "") else (if |args| > 0 then args[0] else "");
    (recursive, if p == "" then None else Some(p))
  }

  datatype RmPlan = RmUsage | RmMissing | Remove(target: string, recursive: bool)

  /** The decision `rm` takes before touching storage. */
  function RmDecision(cwd: string, args: seq<string>, kindOf: string -> Option<Kind>): (r: RmPlan)
    ensures r == RmUsage <==> RmArgs(args).1.None?
    ensures RmArgs(args).1.Some? ==> (r == RmMissing <==> kindOf(JoinPath(cwd, RmArgs(args).1.value)).None?)
    ensures r.Remove? ==>
      r.recursive == RmArgs(args).0 && kindOf(r.target).Some? && r.target == JoinPath(cwd, RmArgs(args).1.value)
  {
    var (recursive, p) := RmArgs(args);
    if p.None? then RmUsage
    else
      var tgt := JoinPath(cwd, p.value);
      if kindOf(tgt).None? then RmMissing else Remove(tgt, recursive)
  }

  // ---------------------------------------------------------------- mv / cp

  datatype TransferPlan = TransferUsage | SourceMissing | Transfer(src: string, dst: string, srcKind: Kind)

  /**
   * `mv` and `cp`: both paths are joined to the working directory; a
   * destination that is an existing directory gets the source's name appended.
   */
  function TransferDecision(cwd: string, args: seq<string>, kindOf: string -> Option<Kind>): (r: TransferPlan)
    ensures r == TransferUsage <==> |args| < 2 || args[0] == "" || args[1] == ""
    ensures r.Transfer? ==> r.src == JoinPath(cwd, args[0]) && kindOf(r.src) == Some(r.srcKind)
    ensures r != TransferUsage ==> (r == SourceMissing <==> kindOf(JoinPath(cwd, args[0])).None?)
    ensures r.Transfer? && kindOf(JoinPath(cwd, args[1])) != Some(Dir) ==> r.dst == JoinPath(cwd, args[1])
  {
    if |args| < 2 || args[0] == "" || args[1] == "" then TransferUsage
    else
      var src := JoinPath(cwd, args[0]);
      var dst0 := JoinPath(cwd, args[1]);
      var dst :=
        if kindOf(dst0) == Some(Dir) then
          (match WorkerSplitPath(src).1
           case Some(name) => JoinPath(dst0, name)
           case None => dst0)
        else dst0;
      match kindOf(src)
      case None => SourceMissing
      case Some(k) => Transfer(src, dst, k)
  }

  /**
   * Moving or copying a non-root source into an existing directory lands
   * directly inside it, under the source's own name.
   */
  lemma TransferIntoDirectory(cwd: string, args: seq<string>, kindOf: string -> Option<Kind>)
    requires IsNormal(cwd)
    requires |args| >= 2 && args[0] != "" && args[1] != ""
    requires kindOf(JoinPath(cwd, args[1])) == Some(Dir)
    requires kindOf(JoinPath(cwd, args[0])).Some?
    requires NormStack(JoinPath(cwd, args[0])) != []
    ensures TransferDecision(cwd, args, kindOf).Transfer?
    ensures var plan := TransferDecision(cwd, args, kindOf);
      SplitPath(plan.dst) == PathSplit(JoinPath(cwd, args[1]), SplitPath(plan.src).name)
  {
    var src := JoinPath(cwd, args[0]);
    var dst0 := JoinPath(cwd, args[1]);
    JoinPathNormal(cwd, args[1]);
    var st := NormStack(dst0);
    var name := WorkerSplitPath(src).1.value;
    assert dst0 == "/" + JoinWith(st, '/');
    JoinParentName(st, name);
    NormalizeCanonical(st + [name]);
    var dst := JoinPath(dst0, name);
    assert NormStack(dst) == st + [name];
    assert (st + [name])[..|st|] == st;
  }

  // ---------------------------------------------------------------- completion

  /** `parts[parts.length - 1] || ''`: the token being completed. */
  function LastToken(buffer: string): string {
    var parts := SplitWs(buffer);
    parts[|parts| - 1]
  }

  /** The directory part of a token: up to and including its last "/" (empty without one). */
  function DirPart(token: string): string {
    var slash := LastIndexOf(token, '/');
    if slash >= 0 then token[..slash + 1] else ""
  }

  /** The directory to list and the prefix to match, for one token. */
  function TokenQuery(token: string, cwd: string): (string, string) {
    var slash := LastIndexOf(token, '/');
    var dirPath :=
      if slash >= 0 then
        (if StartsWith(token, "/") then token[..slash + 1] else JoinPath(cwd, token[..slash + 1]))
      else cwd;
    var prefix := if slash >= 0 then token[slash + 1..] else token;
    var listPath := if StartsWith(token, "/") then dirPath else JoinPath(cwd, dirPath);
    (listPath, prefix)
  }

  function CompletionQuery(buffer: string, cwd: string): (string, string) {
    TokenQuery(LastToken(buffer), cwd)
  }

  /** Joining a normal path to any base gives that path back. */
  lemma JoinPathToNormal(base: string, q: string)
    requires IsNormal(q)
    ensures JoinPath(base, q) == q
  {
    NormalizeShape(q);
  }

  /**
   * For a relative token the listed directory is the token's directory part
   * joined once to the working directory, and for a token without "/" it is
   * the working directory itself: the second join changes nothing.
   */
  lemma CompletionListsRelativeDir(token: string, cwd: string)
    requires IsNormal(cwd)
    requires !StartsWith(token, "/")
    ensures '/' !in token ==> TokenQuery(token, cwd).0 == cwd
    ensures '/' in token ==> TokenQuery(token, cwd).0 == JoinPath(cwd, DirPart(token))
  {
    var slash := LastIndexOf(token, '/');
    if slash < 0 {
      JoinPathToNormal(cwd, cwd);
    } else {
      var dir := token[..slash + 1];
      JoinPathNormal(cwd, dir);
      JoinPathToNormal(cwd, JoinPath(cwd, dir));
    }
  }

  /** The first row whose name starts with the prefix. */
  function FirstPrefixed(rows: seq<DirEntry>, prefix: string): (k: int)
    ensures -1 <= k < |rows|
    ensures k >= 0 ==> StartsWith(rows[k].name, prefix)
    ensures k >= 0 ==> forall j :: 0 <= j < k ==> !StartsWith(rows[j].name, prefix)
    ensures k == -1 ==> forall j :: 0 <= j < |rows| ==> !StartsWith(rows[j].name, prefix)
    decreases |rows|
  {
    if rows == [] then -1
    else if StartsWith(rows[0].name, prefix) then 0
    else
      var k := FirstPrefixed(rows[1..], prefix);
      if k == -1 then -1 else k + 1
  }

  /** Row k is the first row with the prefix, and the appended text completes it. */
  predicate CompletesAt(rows: seq<DirEntry>, prefix: string, k: int, text: string)
    requires 0 <= k < |rows|
  {
    && StartsWith(rows[k].name, prefix)
    && (forall j :: 0 <= j < k ==> !StartsWith(rows[j].name, prefix))
    && prefix + text == rows[k].name + (if rows[k].kind == Dir then "/" else "")
  }

  /**
   * `complete`: the text appended to the input line, if any: the rest of the
   * first listed name that starts with the prefix, plus "/" for a directory.
   */
  function Complete(buffer: string, cwd: string, listing: string -> Option<seq<DirEntry>>): (r: Option<string>)
    ensures var q := CompletionQuery(buffer, cwd);
      r.Some? <==> listing(q.0).Some? && exists row :: row in listing(q.0).value && StartsWith(row.name, q.1)
    ensures var q := CompletionQuery(buffer, cwd);
      r.Some? ==> (exists k :: 0 <= k < |listing(q.0).value| && CompletesAt(listing(q.0).value, q.1, k, r.value))
  {
    var (listPath, prefix) := CompletionQuery(buffer, cwd);
    match listing(listPath)
    case None => None
    case Some(rows) =>
      var k := FirstPrefixed(rows, prefix);
      if k == -1 then None
      else
        var row := rows[k];
        var text := row.name[|prefix|..] + (if row.kind == Dir then "/" else "");
        assert prefix + text == row.name + (if row.kind == Dir then "/" else "");
        assert CompletesAt(rows, prefix, k, text);
        Some(text)
  }
}

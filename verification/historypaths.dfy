/**
 * Where FileHistoryDao keeps the history of a configuration file, an agent
 * or a folder's jobs.  Configuration files are named by absolute Unix path
 * strings, as java.io.File holds them (no trailing or doubled `/`); history
 * directories are component paths rooted at the filesystem root, so that
 * `new File(dir, child)` is `dir + Components(child)`.
 */
module HistoryPaths {
  import opened Options
  import opened FileTree

  /** JobConfigHistoryConsts.JOBS_HISTORY_DIR, also Jenkins' own jobs directory name. */
  const JobsDir := "jobs"
  /** JobConfigHistoryConsts.NODES_HISTORY_DIR. */
  const NodesDir := "nodes"

  /** What getHistoryDir throws instead of returning a directory. */
  datatype PathError =
    | NoParent      // File#getParent is null, so startsWith throws NullPointerException
    | OutsideHome   // IllegalArgumentException "object outside of HUDSON"
    | BadSubstring  // StringIndexOutOfBoundsException from substring

  /** String#lastIndexOf(char). */
  function LastIndexOf(s: string, c: char): (i: int)
    ensures -1 <= i < |s|
    ensures i >= 0 ==> s[i] == c && forall j | i < j < |s| :: s[j] != c
    ensures i == -1 <==> forall j | 0 <= j < |s| :: s[j] != c
    decreases |s|
  {
    if |s| == 0 then -1
    else if s[|s| - 1] == c then |s| - 1
    else LastIndexOf(s[..|s| - 1], c)
  }

  predicate StartsWith(s: string, prefix: string) {
    |prefix| <= |s| && s[..|prefix|] == prefix
  }

  /** One path component, or none for the empty string. */
  function Seg(s: string): Path {
    if s == "" then [] else [s]
  }

  /** The components of a relative or absolute path string, as java.io.File normalises them. */
  function Components(s: string): Path
    decreases |s|
  {
    var i := LastIndexOf(s, '/');
    if i < 0 then Seg(s) else Components(s[..i]) + Seg(s[i + 1..])
  }

  /** File#getParent on Unix: the text before the last `/`, the root `/`, or null. */
  function ParentOf(path: string): Option<string> {
    var i := LastIndexOf(path, '/');
    var prefixLength := if |path| > 0 && path[0] == '/' then 1 else 0;
    if i < prefixLength then
      (if prefixLength > 0 && |path| > prefixLength then Some(path[..prefixLength]) else None)
    else Some(path[..i])
  }

  /** File#getName: the text after the last `/`. */
  function NameOf(path: string): string {
    path[LastIndexOf(path, '/') + 1..]
  }

  /**
   * The part of getHistoryDir after its guard: a file directly in JENKINS_HOME
   * is a system configuration kept under `historyRoot/<name without
   * extension>`; anything else is assumed to lie in `<home>/jobs/...` and
   * keeps that relative path under `historyRoot/jobs`.
   */
  function Locate(historyRoot: Path, home: string, configPath: string, parent: string): Result<Path, PathError> {
    if parent == home then
      var name := NameOf(configPath);
      var dot := LastIndexOf(name, '.');
      if dot < 0 then Failure(BadSubstring)
      else Success(historyRoot + Components(name[..dot]))
    else
      var start := |home| + |JobsDir| + 1;
      if start > |parent| then Failure(BadSubstring)
      else Success(historyRoot + [JobsDir] + Components(parent[start..]))
  }

  /**
   * getHistoryDir exactly as written: the guard is a character-wise
   * String#startsWith, so a sibling of JENKINS_HOME whose name merely
   * extends it passes (see `SiblingOfHomeAccepted`).
   */
  function HistoryDirAsWritten(historyRoot: Path, home: string, configPath: string): Result<Path, PathError> {
    match ParentOf(configPath)
    case None => Failure(NoParent)
    case Some(parent) =>
      if !StartsWith(parent, home) then Failure(OutsideHome)
      else Locate(historyRoot, home, configPath, parent)
  }

  /** JENKINS_HOME as the start of the paths below it: with one trailing `/` (the root `/` already has it). */
  function HomePrefix(home: string): string {
    if home != "" && home[|home| - 1] == '/' then home else home + "/"
  }

  /** The parent directory is JENKINS_HOME or lies below it, component-wise. */
  predicate InsideHome(parent: string, home: string) {
    parent == home || StartsWith(parent, HomePrefix(home))
  }

  /**
   * getHistoryDir with the guard it evidently intends: a configuration file
   * outside JENKINS_HOME is rejected.  The rest of the model uses this one.
   */
  function HistoryDir(historyRoot: Path, home: string, configPath: string): (r: Result<Path, PathError>)
    ensures r.Success? ==> ParentOf(configPath).Some? && InsideHome(ParentOf(configPath).value, home)
    ensures r.Success? ==> IsPrefix(historyRoot, r.value)
    ensures ParentOf(configPath).None? ==> r == Failure(NoParent)
    ensures ParentOf(configPath).Some? && !InsideHome(ParentOf(configPath).value, home) ==> r == Failure(OutsideHome)
  {
    match ParentOf(configPath)
    case None => Failure(NoParent)
    case Some(parent) =>
      if !InsideHome(parent, home) then Failure(OutsideHome)
      else Locate(historyRoot, home, configPath, parent)
  }

  /** getHistoryDirForNode: `historyRoot/nodes/<node name>`. */
  function NodeHistoryDir(historyRoot: Path, nodeName: string): Path {
    historyRoot + [NodesDir] + Components(nodeName)
  }

  /** getJobDirectoryIncludingFolder: `historyRoot/jobs`, or `historyRoot/jobs/<folder>/jobs`. */
  function JobDirectoryIncludingFolder(historyRoot: Path, folderName: string): Path {
    historyRoot + [JobsDir] + Components(if folderName == "" then "" else folderName + "/" + JobsDir)
  }

  // ----- lemmas -----

  lemma {:induction false} LastIndexOfAppend(x: string, y: string, c: char)
    ensures LastIndexOf(x + y, c) == (if LastIndexOf(y, c) >= 0 then |x| + LastIndexOf(y, c) else LastIndexOf(x, c))
    decreases |y|
  {
    if y == [] {
      assert x + y == x;
    } else {
      var s := x + y;
      assert s[|s| - 1] == y[|y| - 1];
      if y[|y| - 1] != c {
        assert s[..|s| - 1] == x + y[..|y| - 1];
        LastIndexOfAppend(x, y[..|y| - 1], c);
      }
    }
  }

  /** Components is computed from the last `/`. */
  lemma SplitAtLast(s: string, i: int, front: string, back: string)
    requires LastIndexOf(s, '/') == i >= 0 && s[..i] == front && s[i + 1..] == back
    ensures Components(s) == Components(front) + Seg(back)
  {
  }

  lemma JoinNoSlashAfter(a: string, b: string)
    requires LastIndexOf(b, '/') < 0
    ensures Components(a + "/" + b) == Components(a) + Components(b)
  {
    var s := a + "/" + b;
    LastIndexOfAppend(a + "/", b, '/');
    LastIndexOfAppend(a, "/", '/');
    assert s[..|a|] == a && s[|a| + 1..] == b;
    SplitAtLast(s, |a|, a, b);
  }

  /** The last `/` of `b` is also the last `/` of `a/b`. */
  lemma JoinSplit(a: string, b: string, j: int)
    requires 0 <= LastIndexOf(b, '/') == j
    ensures Components(a + "/" + b) == Components(a + "/" + b[..j]) + Seg(b[j + 1..])
  {
    var s := a + "/" + b;
    var i := |a| + 1 + j;
    LastIndexOfAppend(a + "/", b, '/');
    assert s[..i] == a + "/" + b[..j];
    assert s[i + 1..] == b[j + 1..];
    SplitAtLast(s, i, a + "/" + b[..j], b[j + 1..]);
  }

  lemma JoinSlashAfter(a: string, b: string, j: int)
    requires 0 <= LastIndexOf(b, '/') == j
    requires Components(a + "/" + b[..j]) == Components(a) + Components(b[..j])
    ensures Components(a + "/" + b) == Components(a) + Components(b)
  {
    JoinSplit(a, b, j);
    SplitAtLast(b, j, b[..j], b[j + 1..]);
    Regroup(Components(a), Components(b[..j]), Seg(b[j + 1..]),
            Components(a + "/" + b[..j]), Components(b), Components(a + "/" + b));
  }

  /** Concatenation regrouped, stated over names so no path has to be unfolded. */
  lemma Regroup(x: Path, y: Path, z: Path, xy: Path, yz: Path, xyz: Path)
    requires xy == x + y && yz == y + z && xyz == xy + z
    ensures xyz == x + yz
  {
  }

  /** A path string joined at `/` splits into the components of both halves. */
  lemma {:induction false} ComponentsJoin(a: string, b: string)
    ensures Components(a + "/" + b) == Components(a) + Components(b)
    decreases |b|
  {
    var j := LastIndexOf(b, '/');
    if j < 0 {
      JoinNoSlashAfter(a, b);
    } else {
      ComponentsJoin(a, b[..j]);
      JoinSlashAfter(a, b, j);
    }
  }

  lemma ParentOfJoin(dir: string, name: string)
    requires dir != "" && '/' !in name
    ensures ParentOf(dir + "/" + name) == Some(dir)
    ensures NameOf(dir + "/" + name) == name
  {
    var path := dir + "/" + name;
    LastIndexOfAppend(dir + "/", name, '/');
    LastIndexOfAppend(dir, "/", '/');
    assert LastIndexOf(path, '/') == |dir|;
    assert path[..|dir|] == dir;
    assert path[|dir| + 1..] == name;
  }

  /**
   * A job's configuration file `<home>/jobs/<rel>/<file>` has its history in
   * `historyRoot/jobs/<rel>`.
   */
  lemma JobConfigMapsUnderJobs(historyRoot: Path, home: string, rel: string, file: string)
    requires '/' !in file
    ensures HistoryDir(historyRoot, home, home + "/" + JobsDir + "/" + rel + "/" + file)
         == Success(historyRoot + [JobsDir] + Components(rel))
  {
    var dir := home + "/" + JobsDir + "/" + rel;
    var path := home + "/" + JobsDir + "/" + rel + "/" + file;
    assert path == dir + "/" + file;
    ParentOfJoin(dir, file);
    assert (home + "/") + (JobsDir + "/" + rel) == dir;
    assert InsideHome(dir, home) by {
      assert dir[..|home| + 1] == home + "/";
      assert dir[..|home|] == home;
    }
    assert dir != home by {
      assert |dir| > |home|;
    }
    var start := |home| + |JobsDir| + 1;
    assert start <= |dir|;
    assert Components(dir[start..]) == Components(rel) by {
      assert dir[start..] == "" + "/" + rel;
      ComponentsJoin("", rel);
      assert Components("") == [];
    }
    assert Locate(historyRoot, home, path, dir) == Success(historyRoot + [JobsDir] + Components(rel));
  }

  /**
   * A configuration file directly in JENKINS_HOME (a system configuration)
   * keeps its history in `historyRoot/<name without extension>`; without a
   * `.` in its name getHistoryDir throws.
   */
  lemma SystemConfigMapsUnderRoot(historyRoot: Path, home: string, file: string)
    requires home != "" && '/' !in file
    ensures var dot := LastIndexOf(file, '.');
      HistoryDir(historyRoot, home, home + "/" + file)
        == if dot < 0 then Failure(BadSubstring) else Success(historyRoot + Components(file[..dot]))
  {
    ParentOfJoin(home, file);
  }

  /** The file `/h2/jobs/a/config.xml` sits in `/h2/jobs/a`, which is not below `/h`. */
  lemma SiblingOfHome()
    ensures ParentOf("/h2/jobs/a/config.xml") == Some("/h2/jobs/a")
    ensures !InsideHome("/h2/jobs/a", "/h") && StartsWith("/h2/jobs/a", "/h")
  {
    SiblingParent();
    SiblingText();
  }

  lemma SiblingParent()
    ensures ParentOf("/h2/jobs/a/config.xml") == Some("/h2/jobs/a")
  {
    assert "/h2/jobs/a/config.xml" == "/h2/jobs/a" + "/" + "config.xml";
    ParentOfJoin("/h2/jobs/a", "config.xml");
  }

  lemma SiblingText()
    ensures !InsideHome("/h2/jobs/a", "/h") && StartsWith("/h2/jobs/a", "/h")
  {
    assert "/h"[1] == 'h' && HomePrefix("/h") == "/h/";
    assert "/h2/jobs/a"[2] == '2' && ("/h" + "/")[2] == '/';
  }

  /** The as-written guard lets through every directory whose path text extends JENKINS_HOME. */
  lemma AsWrittenAcceptsTextualPrefix(historyRoot: Path, home: string, dir: string, file: string)
    requires '/' !in file && StartsWith(dir, home) && dir != home && |home| + |JobsDir| + 1 <= |dir|
    ensures HistoryDirAsWritten(historyRoot, home, dir + "/" + file)
         == Success(historyRoot + [JobsDir] + Components(dir[|home| + |JobsDir| + 1..]))
  {
    ParentOfJoin(dir, file);
  }

  /**
   * Finding: for JENKINS_HOME `/h` the file `/h2/jobs/a/config.xml` lies
   * outside it, yet the source's startsWith guard accepts it and files its
   * history under `jobs/s/a`.
   */
  lemma SiblingOfHomeAccepted()
    ensures !InsideHome("/h2/jobs/a", "/h")
    ensures HistoryDirAsWritten(["var"], "/h", "/h2/jobs/a/config.xml") == Success(["var", "jobs", "s", "a"])
  {
    SiblingOfHome();
    SiblingOfHomeParts();
    AcceptedUnder(["var"], "/h", "/h2/jobs/a", "config.xml", "/h2/jobs/a/config.xml", ["s", "a"], ["var", "jobs", "s", "a"]);
  }

  /** The pieces of the example: the file name, the relative part below `jobs` and its components. */
  lemma SiblingOfHomeParts()
    ensures "/h2/jobs/a/config.xml" == "/h2/jobs/a" + "/" + "config.xml" && '/' !in "config.xml"
    ensures "/h2/jobs/a" != "/h" && |"/h"| + |JobsDir| + 1 <= |"/h2/jobs/a"|
    ensures Components("/h2/jobs/a"[|"/h"| + |JobsDir| + 1..]) == ["s", "a"]
    ensures ["var", "jobs", "s", "a"] == ["var"] + [JobsDir] + ["s", "a"]
  {
    assert "/h2/jobs/a"[7..] == "s" + "/" + "a";
    TwoComponents("s", "a");
  }

  /** AsWrittenAcceptsTextualPrefix with the pieces of the path named. */
  lemma AcceptedUnder(historyRoot: Path, home: string, dir: string, file: string, path: string, comps: Path, expected: Path)
    requires path == dir + "/" + file && '/' !in file
    requires StartsWith(dir, home) && dir != home && |home| + |JobsDir| + 1 <= |dir|
    requires Components(dir[|home| + |JobsDir| + 1..]) == comps && expected == historyRoot + [JobsDir] + comps
    ensures HistoryDirAsWritten(historyRoot, home, path) == Success(expected)
  {
    AsWrittenAcceptsTextualPrefix(historyRoot, home, dir, file);
  }

  /** Two plain names joined by `/` are two path components. */
  lemma TwoComponents(x: string, y: string)
    requires x != "" && '/' !in x && y != "" && '/' !in y
    ensures Components(x + "/" + y) == [x, y]
  {
    ComponentsJoin(x, y);
    PlainNameComponents(x);
    PlainNameComponents(y);
  }

  /** The corrected guard rejects the same file. */
  lemma SiblingOfHomeRejected()
    ensures HistoryDir(["var"], "/h", "/h2/jobs/a/config.xml") == Failure(OutsideHome)
  {
    SiblingOfHome();
  }

  /** Every parent the intended guard admits, the written startsWith admits too. */
  lemma InsideHomeStartsWith(parent: string, home: string)
    requires InsideHome(parent, home)
    ensures StartsWith(parent, home)
  {
    if parent != home {
      var pre := HomePrefix(home);
      assert pre[..|home|] == home;
      assert parent[..|home|] == parent[..|pre|][..|home|];
    }
  }

  /**
   * The intended guard only narrows the written one: wherever getHistoryDir
   * is corrected it answers as written, and the two differ exactly on a
   * parent directory whose path text starts with JENKINS_HOME without lying
   * inside it, which the correction rejects.
   */
  lemma HistoryDirNarrowsAsWritten(historyRoot: Path, home: string, configPath: string)
    ensures ParentOf(configPath).Some? && InsideHome(ParentOf(configPath).value, home) ==>
      HistoryDir(historyRoot, home, configPath) == HistoryDirAsWritten(historyRoot, home, configPath)
    ensures HistoryDir(historyRoot, home, configPath) != HistoryDirAsWritten(historyRoot, home, configPath) <==>
      && ParentOf(configPath).Some?
      && StartsWith(ParentOf(configPath).value, home)
      && !InsideHome(ParentOf(configPath).value, home)
      && HistoryDir(historyRoot, home, configPath) == Failure(OutsideHome)
      && HistoryDirAsWritten(historyRoot, home, configPath) == Locate(historyRoot, home, configPath, ParentOf(configPath).value)
  {
    if ParentOf(configPath).Some? && InsideHome(ParentOf(configPath).value, home) {
      InsideHomeStartsWith(ParentOf(configPath).value, home);
    }
  }

  /** With the filesystem root as JENKINS_HOME, a job's configuration `/jobs/<rel>/<file>` has its history in `historyRoot/jobs/<rel>`. */
  lemma RootHomeJob(historyRoot: Path, rel: string, file: string)
    requires '/' !in file
    ensures HistoryDir(historyRoot, "/", "/" + JobsDir + "/" + rel + "/" + file)
         == Success(historyRoot + [JobsDir] + Components(rel))
  {
    var dir := "/" + JobsDir + "/" + rel;
    var path := "/" + JobsDir + "/" + rel + "/" + file;
    assert path == dir + "/" + file;
    ParentOfJoin(dir, file);
    assert HomePrefix("/") == "/";
    assert dir[..1] == "/";
    assert |dir| > 1;
    var start := 1 + |JobsDir| + 1;
    assert dir[start..] == rel;
  }

  /** A plain name, such as a revision id, is a single path component. */
  lemma PlainNameComponents(s: string)
    requires s != "" && '/' !in s
    ensures Components(s) == [s]
  {
    assert forall j | 0 <= j < |s| :: s[j] != '/';
  }

  /** Agents with plain names get their own directories, side by side in `historyRoot/nodes`. */
  lemma NodeHistoryDirs(historyRoot: Path, a: string, b: string)
    requires a != "" && '/' !in a && b != "" && '/' !in b
    ensures NodeHistoryDir(historyRoot, a) == historyRoot + [NodesDir, a]
    ensures NodeHistoryDir(historyRoot, a) == NodeHistoryDir(historyRoot, b) <==> a == b
  {
    PlainNameComponents(a);
    PlainNameComponents(b);
    if NodeHistoryDir(historyRoot, a) == NodeHistoryDir(historyRoot, b) {
      assert NodeHistoryDir(historyRoot, a)[|historyRoot| + 1] == a;
    }
  }
}

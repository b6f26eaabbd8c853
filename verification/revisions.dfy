/**
 * The on-disk layout FileHistoryDao reads: a history directory holds one
 * revision directory per saved version, named by its timestamp id; a
 * revision directory holds `history.xml` (the descriptor) and the saved
 * configuration file.
 */
module Revisions {
  import opened Options
  import opened LexOrder
  import opened FileTree
  import opened HistoryPaths

  /** JobConfigHistoryConsts.HISTORY_FILE. */
  const HistoryFile := "history.xml"
  /** JobConfigHistoryConsts.DELETED_MARKER. */
  const DeletedMarker := "_deleted_"
  /** The user recorded when no user is known. */
  const AnonymousName := "Anonym"
  /** Messages.ConfigHistoryListenerHelper_anonymous in the default locale. */
  const AnonymousId := "anonymous"

  /** The operation a revision records (Messages.ConfigHistoryListenerHelper_*). */
  datatype Operation = Created | Changed | Renamed | Deleted

  datatype User = User(fullName: string, id: string)

  /** HistoryDescr: who did what, and the formatted timestamp of when. */
  datatype Descriptor = Descriptor(user: string, userId: string, operation: Operation, timestamp: string)

  /** Contents of a file: a descriptor as XmlFile#write stores it, or plain text. */
  datatype Blob = Descr(descr: Descriptor) | Text(text: string)

  type Fs = Node<Blob>

  /** HistoryFileFilter: a directory holding a `history.xml` file. */
  predicate IsRevisionDir(fs: Fs, p: Path) {
    match Lookup(fs, p)
    case Some(Dir(c)) => HistoryFile in c && c[HistoryFile].File?
    case _ => false
  }

  /** The names of the recognised revision directories inside `dir`; none when `dir` is no directory. */
  function RevisionIds(fs: Fs, dir: Path): (ids: set<string>)
    ensures forall id :: id in ids <==> IsRevisionDir(fs, dir + [id])
  {
    assert forall id | IsRevisionDir(fs, dir + [id]) :: id in ChildNames(fs, dir) by {
      forall id | IsRevisionDir(fs, dir + [id])
        ensures id in ChildNames(fs, dir)
      {
        ChildNamesLookup(fs, dir, id);
      }
    }
    set id | id in ChildNames(fs, dir) && IsRevisionDir(fs, dir + [id])
  }

  /** XmlFile#read of `history.xml`; `None` when it is missing or not a descriptor (an IOException). */
  function ReadDescriptor(fs: Fs, rev: Path): Option<Descriptor> {
    var f := Lookup(fs, rev + [HistoryFile]);
    if f.Some? && f.value.File? && f.value.data.Descr? then Some(f.value.data.descr) else None
  }

  /** isCreatedEntry: the descriptor reads and records Created; an unreadable one counts as not Created. */
  predicate IsCreatedEntry(fs: Fs, rev: Path) {
    var d := ReadDescriptor(fs, rev);
    d.Some? && d.value.operation == Created
  }

  /** XmlFile#asString of a stored file; `None` for a missing file, a directory or a descriptor. */
  function ReadText(fs: Fs, p: Path): Option<string> {
    var f := Lookup(fs, p);
    if f.Some? && f.value.File? && f.value.data.Text? then Some(f.value.data.text) else None
  }

  /** The characters that `.` in a java.util.regex pattern does not match. */
  predicate IsLineTerminator(c: char) {
    c == '\n' || c == '\r' || c == '\U{0085}' || c == '\U{2028}' || c == '\U{2029}'
  }

  /** `name.matches(".*\\.xml$")`. */
  predicate MatchesXml(name: string) {
    |name| >= 4 && name[|name| - 4..] == ".xml" &&
    forall i | 0 <= i < |name| - 4 :: !IsLineTerminator(name[i])
  }

  /** A name getConfigFile takes for the saved configuration. */
  predicate IsConfigName(name: string) {
    name != HistoryFile && MatchesXml(name)
  }

  /** The last configuration name of a listing, as getConfigFile's loop keeps overwriting its candidate. */
  function LastConfigName(names: seq<string>): (r: Option<string>)
    ensures r.None? <==> forall i | 0 <= i < |names| :: !IsConfigName(names[i])
    ensures r.Some? ==> exists i | 0 <= i < |names| ::
      names[i] == r.value && IsConfigName(names[i]) && forall j | i < j < |names| :: !IsConfigName(names[j])
    decreases |names|
  {
    if names == [] then None
    else if IsConfigName(names[|names| - 1]) then Some(names[|names| - 1])
    else LastConfigName(names[..|names| - 1])
  }

  /**
   * getConfigFile: the configuration file saved in revision directory
   * `rev`, or `None` (null) when `rev` is no revision or holds none.  The
   * directory listing is taken in descending name order.
   */
  function ConfigFileOf(fs: Fs, rev: Path): (r: Option<Path>)
    ensures r.Some? ==> IsRevisionDir(fs, rev) && |r.value| == |rev| + 1 && r.value[..|rev|] == rev
    ensures r.Some? ==> IsConfigName(r.value[|rev|]) && Exists(fs, r.value)
    ensures r.None? <==> !IsRevisionDir(fs, rev) || forall n | n in ChildNames(fs, rev) :: !IsConfigName(n)
  {
    if !IsRevisionDir(fs, rev) then None
    else
      var names := Descending(ChildNames(fs, rev));
      match LastConfigName(names)
      case None => None
      case Some(n) =>
        ChildNamesLookup(fs, rev, n);
        assert (rev + [n])[..|rev|] == rev;
        Some(rev + [n])
  }

  /** hasOldRevision: the revision resolves to a saved configuration file that exists. */
  predicate HasOldRevision(fs: Fs, rev: Path) {
    var f := ConfigFileOf(fs, rev);
    f.Some? && Exists(fs, f.value)
  }

  /** A file File#delete removes: a plain file or an empty directory. */
  predicate Deletable(n: Fs) {
    n.File? || n == Dir(map[])
  }

  /**
   * deleteDirectory: File#delete on every entry of `p` (so plain files and
   * empty directories go), then on `p` itself, which only succeeds once it
   * is empty.  Failures are logged and skipped.
   */
  function DeleteDirectory(fs: Fs, p: Path): Fs
    requires p != [] && IsDirAt(fs, p)
  {
    var c := Lookup(fs, p).value.children;
    var left := map k | k in c && !Deletable(c[k]) :: c[k];
    var v: Option<Fs> := if left == map[] then None else Some(Dir(left));
    ExistsParentIsDir(fs, p);
    EditSucceeds(fs, p, v);
    Edit(fs, p, v).value
  }

  /** `sub` occurs in `s` starting at index `i`. */
  predicate OccursAt(s: string, sub: string, i: int) {
    0 <= i <= |s| - |sub| && s[i..i + |sub|] == sub
  }

  /** `s` contains `sub` (String#contains). */
  predicate Contains(s: string, sub: string) {
    exists i | 0 <= i <= |s| :: OccursAt(s, sub, i)
  }

  /** getJobs: the entries of a folder's job history directory that are not deleted histories. */
  function Jobs(fs: Fs, historyRoot: Path, folderName: string): set<string> {
    set n | n in ChildNames(fs, JobDirectoryIncludingFolder(historyRoot, folderName)) && !Contains(n, DeletedMarker)
  }

  /** getDeletedJobs: the entries whose name carries the deleted marker. */
  function DeletedJobs(fs: Fs, historyRoot: Path, folderName: string): set<string> {
    set n | n in ChildNames(fs, JobDirectoryIncludingFolder(historyRoot, folderName)) && Contains(n, DeletedMarker)
  }

  // ----- lemmas -----

  /**
   * After deleteDirectory the directory holds no file any more, so it is no
   * revision; everything outside it is unchanged and its parent is still a
   * directory.
   */
  lemma DeleteDirectoryFacts(fs: Fs, p: Path, q: Path)
    requires p != [] && IsDirAt(fs, p)
    ensures var r := DeleteDirectory(fs, p);
      && (IsPrefix(p, q) && |q| == |p| + 1 ==> Lookup(r, q).None? || Lookup(r, q).value.Dir?)
      && !IsRevisionDir(r, p)
      && (!IsPrefix(p, q) && !IsPrefix(q, p) ==> Lookup(r, q) == Lookup(fs, q))
      && IsDirAt(r, Parent(p))
  {
    var c := Lookup(fs, p).value.children;
    var left := map k | k in c && !Deletable(c[k]) :: c[k];
    var v: Option<Fs> := if left == map[] then None else Some(Dir(left));
    ExistsParentIsDir(fs, p);
    EditSucceeds(fs, p, v);
    var r := Edit(fs, p, v).value;
    assert r == DeleteDirectory(fs, p);
    LookupEdit(fs, p, v, q);
    LookupEdit(fs, p, v, p);
    LookupEdit(fs, p, v, Parent(p));
    assert IsPrefix(Parent(p), p) && !IsPrefix(p, Parent(p));
    assert p[|p|..] == [];
    if IsPrefix(p, q) && |q| == |p| + 1 {
      assert q == p + [q[|p|]];
      assert q[|p|..] == [q[|p|]];
      if v.Some? {
        LookupStep(v.value, q[|p|], []);
      }
    }
  }

  /** A revision is resolved exactly when it holds some configuration name, whatever the listing order. */
  lemma HasOldRevisionIff(fs: Fs, rev: Path)
    ensures HasOldRevision(fs, rev) <==>
      IsRevisionDir(fs, rev) && exists n | n in ChildNames(fs, rev) :: IsConfigName(n)
  {
  }

  /** With a single configuration file in the revision (the normal case) the listing order does not matter. */
  lemma {:induction false} SingleConfigFile(fs: Fs, rev: Path, name: string)
    requires IsRevisionDir(fs, rev) && name in ChildNames(fs, rev) && IsConfigName(name)
    requires forall n | n in ChildNames(fs, rev) && IsConfigName(n) :: n == name
    ensures ConfigFileOf(fs, rev) == Some(rev + [name])
  {
    var names := Descending(ChildNames(fs, rev));
    var r := LastConfigName(names);
    assert name in names;
    assert r.Some?;
    assert r.value in ChildNames(fs, rev);
  }

  /** Outside any folder getJobs and getDeletedJobs list the children of `historyRoot/jobs`. */
  lemma TopLevelJobs(fs: Fs, historyRoot: Path)
    ensures forall n :: n in Jobs(fs, historyRoot, "") <==> n in ChildNames(fs, historyRoot + [JobsDir]) && !Contains(n, DeletedMarker)
    ensures forall n :: n in DeletedJobs(fs, historyRoot, "") <==> n in ChildNames(fs, historyRoot + [JobsDir]) && Contains(n, DeletedMarker)
  {
    assert Components("") == [];
    assert JobDirectoryIncludingFolder(historyRoot, "") == historyRoot + [JobsDir];
  }

  /** A history renamed by delete carries the marker, so it is listed among the deleted jobs. */
  lemma {:induction false} DeletedNameCarriesMarker(name: string, stamp: string)
    ensures Contains(name + DeletedMarker + stamp, DeletedMarker)
  {
    var s := name + DeletedMarker + stamp;
    assert OccursAt(s, DeletedMarker, |name|);
  }
}

/**
 * FileHistoryDao's bookkeeping on delete and rename: a deleted item's or
 * agent's history directory is renamed aside under a name carrying the
 * deleted marker; on rename the old history is moved into the new one and
 * a Renamed revision is added.  Failures of the moves are logged by the
 * source and leave the tree as it was.
 */
module Bookkeeping {
  import opened Options
  import opened LexOrder
  import opened FileTree
  import opened HistoryPaths
  import opened Revisions
  import opened Purge
  import opened HistoryDao

  // ----- File#renameTo -----

  /** What File#renameTo needs to succeed: an existing source and a free target in an existing directory, outside the source. */
  predicate CanRename(fs: Fs, src: Path, dst: Path) {
    src != [] && dst != [] && Exists(fs, src) && !Exists(fs, dst) &&
    IsDirAt(fs, Parent(dst)) && !IsPrefix(src, dst)
  }

  /** The two edits of a rename both find their parent directory. */
  lemma RenameSteps(fs: Fs, src: Path, dst: Path)
    requires CanRename(fs, src, dst)
    ensures Edit(fs, dst, Some(Lookup(fs, src).value)).Some?
    ensures Edit(Edit(fs, dst, Some(Lookup(fs, src).value)).value, src, None).Some?
  {
    var n := Lookup(fs, src).value;
    EditSucceeds(fs, dst, Some(n));
    var fs1 := Edit(fs, dst, Some(n)).value;
    ExistsParentIsDir(fs, src);
    ChildPrefix(Parent(src), src[|src| - 1], dst);
    assert src == Parent(src) + [src[|src| - 1]];
    if IsPrefix(dst, Parent(src)) {
      PrefixTrans(dst, Parent(src), src);
      PrefixExists(fs, dst, src);
      assert false;
    }
    LookupEdit(fs, dst, Some(n), Parent(src));
    EditSucceeds(fs1, src, None);
  }

  lemma PrefixTrans(a: Path, b: Path, c: Path)
    requires IsPrefix(a, b) && IsPrefix(b, c)
    ensures IsPrefix(a, c)
  {
    assert c[..|a|] == c[..|b|][..|a|];
  }

  /** Whatever lies on the way to an existing entry exists too. */
  lemma PrefixExists(fs: Fs, p: Path, q: Path)
    requires IsPrefix(p, q) && Exists(fs, q)
    ensures Exists(fs, p)
  {
    assert q == p + q[|p|..];
    LookupAppend(fs, p, q[|p|..]);
  }

  /**
   * File#renameTo: the entry at `src` moves to `dst` when the platform
   * allows it (`ok`) and CanRename holds; otherwise nothing changes.
   */
  function RenameTo(fs: Fs, src: Path, dst: Path, ok: bool): Fs {
    if ok && CanRename(fs, src, dst) then
      RenameSteps(fs, src, dst);
      var fs1 := Edit(fs, dst, Some(Lookup(fs, src).value)).value;
      Edit(fs1, src, None).value
    else fs
  }

  /**
   * A successful rename: below `dst` lies what lay below `src`, `src` is
   * gone, and every path unrelated to both is unchanged.
   */
  lemma RenameFacts(fs: Fs, src: Path, dst: Path, q: Path)
    requires CanRename(fs, src, dst)
    ensures var r := RenameTo(fs, src, dst, true);
      && (IsPrefix(dst, q) ==> Lookup(r, q) == Lookup(fs, src + q[|dst|..]))
      && (IsPrefix(src, q) ==> Lookup(r, q) == None)
      && (!IsPrefix(src, q) && !IsPrefix(q, src) && !IsPrefix(dst, q) && !IsPrefix(q, dst) ==> Lookup(r, q) == Lookup(fs, q))
  {
    var n := Lookup(fs, src).value;
    RenameSteps(fs, src, dst);
    var fs1 := Edit(fs, dst, Some(n)).value;
    LookupEdit(fs, dst, Some(n), q);
    LookupEdit(fs1, src, None, q);
    if IsPrefix(dst, q) {
      LookupAppend(fs, src, q[|dst|..]);
      if IsPrefix(src, q) || IsPrefix(q, src) {
        PrefixOrder(src, dst, q);
        if IsPrefix(dst, src) {
          PrefixExists(fs, dst, src);
        }
        assert false;
      }
    }
  }

  /** Two prefixes of one path are ordered. */
  lemma PrefixOrder(a: Path, b: Path, q: Path)
    requires IsPrefix(b, q) && (IsPrefix(a, q) || IsPrefix(q, a))
    ensures IsPrefix(a, b) || IsPrefix(b, a)
  {
    if IsPrefix(q, a) {
      PrefixTrans(b, q, a);
    } else if |a| <= |b| {
      assert b[..|a|] == q[..|b|][..|a|];
    } else {
      assert a[..|b|] == q[..|a|][..|b|];
    }
  }

  // ----- delete -----

  /** The name a deleted history is renamed to: item name, deleted marker, timestamp (`yyyyMMdd_HHmmss_SSS`). */
  function DeletedHistoryName(itemName: string, stamp: string): string {
    itemName + DeletedMarker + stamp
  }

  /** Renames history directory `dir` to `name` next to it; a directory without parent stays. */
  function MoveAside(fs: Fs, dir: Path, name: string, ok: bool): Fs {
    if dir == [] then fs else RenameTo(fs, dir, Parent(dir) + Components(name), ok)
  }

  /**
   * deleteItem: a Deleted revision (without configuration copy) is added
   * to the item's history, which is then renamed aside.  `stamp` is the
   * formatted clock reading, `renameOk` whether the platform lets
   * File#renameTo succeed.
   */
  function DeleteItem(dao: Dao, fs: Fs, config: ConfigFile, itemName: string, stamp: string,
                      clock: seq<string>, renameOk: bool): Result<Fs, Crash> {
    match HistoryDir(dao.historyRoot, dao.jenkinsHome, config.path)
    case Failure(e) => Failure(Crash(BadPath(e), fs))
    case Success(dir) =>
      match NewEntryIn(dao, fs, dir, Deleted, clock)
      case Failure(c) => Failure(c)
      case Success(e) => Success(MoveAside(e.fs, dir, DeletedHistoryName(itemName, stamp), renameOk))
  }

  /** deleteNode: the same for an agent's history directory. */
  function DeleteNode(dao: Dao, fs: Fs, agent: Agent, stamp: string, clock: seq<string>, renameOk: bool): Result<Fs, Crash> {
    var dir := NodeHistoryDir(dao.historyRoot, agent.name);
    match NewEntryIn(dao, fs, dir, Deleted, clock)
    case Failure(c) => Failure(c)
    case Success(e) => Success(MoveAside(e.fs, dir, DeletedHistoryName(agent.name, stamp), renameOk))
  }

  /** A renamed history directory: the same revisions with the same contents, under the new path. */
  lemma HistoryRenamed(fs: Fs, dir: Path, target: Path)
    requires CanRename(fs, dir, target)
    ensures var r := RenameTo(fs, dir, target, true);
      && !Exists(r, dir) && Exists(r, target)
      && (forall k :: Lookup(r, target + [k]) == Lookup(fs, dir + [k]))
      && (forall k :: ReadDescriptor(r, target + [k]) == ReadDescriptor(fs, dir + [k]))
      && RevisionIds(r, target) == RevisionIds(fs, dir)
  {
    var r := RenameTo(fs, dir, target, true);
    RenameFacts(fs, dir, target, dir);
    RenameFacts(fs, dir, target, target);
    assert target[|target|..] == [] && dir + [] == dir;
    forall k
      ensures Lookup(r, target + [k]) == Lookup(fs, dir + [k])
      ensures ReadDescriptor(r, target + [k]) == ReadDescriptor(fs, dir + [k])
    {
      RenameFacts(fs, dir, target, target + [k]);
      RenameFacts(fs, dir, target, target + [k] + [HistoryFile]);
      assert (target + [k])[|target|..] == [k];
      assert (target + [k] + [HistoryFile])[|target|..] == [k, HistoryFile];
      assert dir + [k, HistoryFile] == dir + [k] + [HistoryFile];
      assert IsRevisionDir(r, target + [k]) == IsRevisionDir(fs, dir + [k]);
    }
  }

  /**
   * Deleting the history in `dir`: after the Deleted revision `id` is
   * added and the rename succeeds, the history lives on under `name` next
   * to `dir`, holding the purged revisions unchanged plus `id`; `dir` is gone.
   */
  lemma MovedAside(dao: Dao, fs: Fs, dir: Path, name: string, clock: seq<string>)
    requires NewEntryIn(dao, fs, dir, Deleted, clock).Success?
    requires dir != [] && name != "" && '/' !in name && dir[|dir| - 1] != name
    requires !Exists(fs, Parent(dir) + [name])
    ensures var e := NewEntryIn(dao, fs, dir, Deleted, clock).value;
      var purged := PurgeOldEntries(fs, dir, dao.maxHistoryEntries);
      var target := Parent(dir) + [name];
      var after := MoveAside(e.fs, dir, name, true);
      var id := e.rev[|dir|];
      && id in clock
      && !Exists(after, dir)
      && name in ChildNames(after, Parent(dir))
      && RevisionIds(after, target) == RevisionIds(purged, dir) + {id}
      && ReadDescriptor(after, target + [id]) == Some(MakeDescriptor(dao.user, Deleted, id))
      && (forall k | k != id :: Lookup(after, target + [k]) == Lookup(purged, dir + [k]))
  {
    var e := NewEntryIn(dao, fs, dir, Deleted, clock).value;
    var purged := PurgeOldEntries(fs, dir, dao.maxHistoryEntries);
    var id := e.rev[|dir|];
    SiblingOf(dir, name);
    NewEntryFacts(dao, fs, dir, Deleted, clock, Parent(dir) + [name]);
    FreshAside(purged, e.fs, dir, id, MakeDescriptor(dao.user, Deleted, id), name);
  }

  /** A sibling of `dir` under another name is unrelated to it. */
  lemma SiblingOf(dir: Path, name: string)
    requires dir != [] && dir[|dir| - 1] != name
    ensures !IsPrefix(dir, Parent(dir) + [name]) && !IsPrefix(Parent(dir) + [name], dir)
  {
    assert dir == Parent(dir) + [dir[|dir| - 1]];
    SiblingsUnrelated(Parent(dir), dir[|dir| - 1], name);
  }

  /** A history with a fresh revision, renamed aside, keeps that revision and the rest. */
  lemma FreshAside(before: Fs, fs: Fs, dir: Path, id: string, d: Descriptor, name: string)
    requires FreshRevision(before, fs, dir, id, d)
    requires dir != [] && name != "" && '/' !in name && dir[|dir| - 1] != name
    requires !Exists(fs, Parent(dir) + [name])
    ensures var target := Parent(dir) + [name];
      var after := MoveAside(fs, dir, name, true);
      && !Exists(after, dir)
      && name in ChildNames(after, Parent(dir))
      && RevisionIds(after, target) == RevisionIds(before, dir) + {id}
      && ReadDescriptor(after, target + [id]) == Some(d)
      && (forall k | k != id :: Lookup(after, target + [k]) == Lookup(before, dir + [k]))
  {
    var target := Parent(dir) + [name];
    PlainNameComponents(name);
    assert MoveAside(fs, dir, name, true) == RenameTo(fs, dir, target, true);
    FreshRevisionIds(before, fs, dir, id, d);
    assert IsPrefix(dir, dir + [id]) && Exists(fs, dir + [id]);
    SetAside(fs, dir, name, dir + [id]);
  }

  /** The rename of a history directory to a fresh sibling name goes through. */
  lemma SetAside(fs: Fs, dir: Path, name: string, rev: Path)
    requires dir != [] && name != "" && dir[|dir| - 1] != name
    requires !Exists(fs, Parent(dir) + [name]) && IsPrefix(dir, rev) && Exists(fs, rev)
    ensures CanRename(fs, dir, Parent(dir) + [name])
    ensures var target := Parent(dir) + [name];
      var r := RenameTo(fs, dir, target, true);
      && name in ChildNames(r, Parent(dir))
      && !Exists(r, dir)
      && (forall k :: Lookup(r, target + [k]) == Lookup(fs, dir + [k]))
      && (forall k :: ReadDescriptor(r, target + [k]) == ReadDescriptor(fs, dir + [k]))
      && RevisionIds(r, target) == RevisionIds(fs, dir)
  {
    var target := Parent(dir) + [name];
    assert dir == Parent(dir) + [dir[|dir| - 1]];
    SiblingsUnrelated(Parent(dir), dir[|dir| - 1], name);
    PrefixExists(fs, dir, rev);
    ExistsParentIsDir(fs, dir);
    assert Parent(target) == Parent(dir);
    HistoryRenamed(fs, dir, target);
    ChildNamesLookup(RenameTo(fs, dir, target, true), Parent(dir), name);
  }

  /**
   * deleteItem: when the rename goes through, the item's history (purged,
   * plus the Deleted revision) lives on under the marked name next to the
   * old directory, which is gone.
   */
  lemma DeleteItemOutcome(dao: Dao, fs: Fs, config: ConfigFile, itemName: string, stamp: string, clock: seq<string>)
    requires DeleteItem(dao, fs, config, itemName, stamp, clock, true).Success?
    requires '/' !in itemName && '/' !in stamp
    ensures HistoryDir(dao.historyRoot, dao.jenkinsHome, config.path).Success?
    ensures var dir := HistoryDir(dao.historyRoot, dao.jenkinsHome, config.path).value;
      var name := DeletedHistoryName(itemName, stamp);
      var purged := PurgeOldEntries(fs, dir, dao.maxHistoryEntries);
      var after := DeleteItem(dao, fs, config, itemName, stamp, clock, true).value;
      dir != [] ==>
      var target := Parent(dir) + [name];
      dir[|dir| - 1] != name && !Exists(fs, target) ==>
        && !Exists(after, dir)
        && name in ChildNames(after, Parent(dir))
        && exists id | id in clock ::
             && RevisionIds(after, target) == RevisionIds(purged, dir) + {id}
             && ReadDescriptor(after, target + [id]) == Some(MakeDescriptor(dao.user, Deleted, id))
             && (forall k | k != id :: Lookup(after, target + [k]) == Lookup(purged, dir + [k]))
  {
    var dir := HistoryDir(dao.historyRoot, dao.jenkinsHome, config.path).value;
    var name := DeletedHistoryName(itemName, stamp);
    DeleteItemSteps(dao, fs, config, itemName, stamp, clock);
    if dir != [] && dir[|dir| - 1] != name && !Exists(fs, Parent(dir) + [name]) {
      MovedAsideSomewhere(dao, fs, dir, name, clock, DeleteItem(dao, fs, config, itemName, stamp, clock, true).value);
    }
  }

  /**
   * deleteItem of a top-level job, whose history is `historyRoot/jobs/<job>`
   * (`TopLevelJobDir` gives it for `<home>/jobs/<job>/<file>`): when the
   * rename goes through, getJobs no longer lists the job and getDeletedJobs
   * lists the marked name its history now has.
   */
  lemma DeletedJobListedAsDeleted(dao: Dao, fs: Fs, config: ConfigFile, job: string, stamp: string, clock: seq<string>)
    requires '/' !in job && '/' !in stamp
    requires HistoryDir(dao.historyRoot, dao.jenkinsHome, config.path) == Success(dao.historyRoot + [JobsDir] + [job])
    requires !Exists(fs, dao.historyRoot + [JobsDir] + [DeletedHistoryName(job, stamp)])
    requires DeleteItem(dao, fs, config, job, stamp, clock, true).Success?
    ensures var after := DeleteItem(dao, fs, config, job, stamp, clock, true).value;
      && job !in Jobs(after, dao.historyRoot, "")
      && DeletedHistoryName(job, stamp) in DeletedJobs(after, dao.historyRoot, "")
  {
    DeletedJobMovedAside(dao, fs, config, job, stamp, clock, dao.historyRoot + [JobsDir]);
    ListedAfterDelete(DeleteItem(dao, fs, config, job, stamp, clock, true).value, dao.historyRoot, job, stamp);
  }

  /** DeletedJobListedAsDeleted for the history directory `jobs/<job>`, in terms of the listing of `jobs`. */
  lemma DeletedJobMovedAside(dao: Dao, fs: Fs, config: ConfigFile, job: string, stamp: string, clock: seq<string>, jobs: Path)
    requires '/' !in job && '/' !in stamp
    requires HistoryDir(dao.historyRoot, dao.jenkinsHome, config.path) == Success(jobs + [job])
    requires !Exists(fs, jobs + [DeletedHistoryName(job, stamp)])
    requires DeleteItem(dao, fs, config, job, stamp, clock, true).Success?
    ensures var after := DeleteItem(dao, fs, config, job, stamp, clock, true).value;
      && job !in ChildNames(after, jobs)
      && DeletedHistoryName(job, stamp) in ChildNames(after, jobs)
  {
    var dir := jobs + [job];
    var after := DeleteItem(dao, fs, config, job, stamp, clock, true).value;
    assert Parent(dir) == jobs;
    assert dir[|dir| - 1] != DeletedHistoryName(job, stamp) by {
      assert |DeletedHistoryName(job, stamp)| > |job|;
    }
    DeleteItemOutcome(dao, fs, config, job, stamp, clock);
    ChildNamesLookup(after, jobs, job);
  }

  /** getJobs and getDeletedJobs once the job's history has been renamed aside in `historyRoot/jobs`. */
  lemma ListedAfterDelete(after: Fs, historyRoot: Path, job: string, stamp: string)
    requires job !in ChildNames(after, historyRoot + [JobsDir])
    requires DeletedHistoryName(job, stamp) in ChildNames(after, historyRoot + [JobsDir])
    ensures job !in Jobs(after, historyRoot, "")
    ensures DeletedHistoryName(job, stamp) in DeletedJobs(after, historyRoot, "")
  {
    TopLevelJobs(after, historyRoot);
    DeletedNameCarriesMarker(job, stamp);
  }

  /** A top-level job's configuration keeps its history in `historyRoot/jobs/<job>`. */
  lemma TopLevelJobDir(historyRoot: Path, home: string, job: string, file: string)
    requires job != "" && '/' !in job && '/' !in file
    ensures HistoryDir(historyRoot, home, home + "/" + JobsDir + "/" + job + "/" + file) == Success(historyRoot + [JobsDir] + [job])
  {
    JobConfigMapsUnderJobs(historyRoot, home, job, file);
    PlainNameComponents(job);
  }

  /** A successful deleteItem is the new Deleted revision followed by the move aside. */
  lemma DeleteItemSteps(dao: Dao, fs: Fs, config: ConfigFile, itemName: string, stamp: string, clock: seq<string>)
    requires DeleteItem(dao, fs, config, itemName, stamp, clock, true).Success?
    ensures HistoryDir(dao.historyRoot, dao.jenkinsHome, config.path).Success?
    ensures var dir := HistoryDir(dao.historyRoot, dao.jenkinsHome, config.path).value;
      && NewEntryIn(dao, fs, dir, Deleted, clock).Success?
      && DeleteItem(dao, fs, config, itemName, stamp, clock, true).value
         == MoveAside(NewEntryIn(dao, fs, dir, Deleted, clock).value.fs, dir, DeletedHistoryName(itemName, stamp), true)
  {
  }

  /** MovedAside for a tree `after` known to be the result of the move, with the new revision's id left open. */
  lemma MovedAsideSomewhere(dao: Dao, fs: Fs, dir: Path, name: string, clock: seq<string>, after: Fs)
    requires NewEntryIn(dao, fs, dir, Deleted, clock).Success?
    requires dir != [] && name != "" && '/' !in name && dir[|dir| - 1] != name
    requires !Exists(fs, Parent(dir) + [name])
    requires after == MoveAside(NewEntryIn(dao, fs, dir, Deleted, clock).value.fs, dir, name, true)
    ensures var purged := PurgeOldEntries(fs, dir, dao.maxHistoryEntries);
      var target := Parent(dir) + [name];
      && !Exists(after, dir)
      && name in ChildNames(after, Parent(dir))
      && exists id | id in clock ::
           && RevisionIds(after, target) == RevisionIds(purged, dir) + {id}
           && ReadDescriptor(after, target + [id]) == Some(MakeDescriptor(dao.user, Deleted, id))
           && (forall k | k != id :: Lookup(after, target + [k]) == Lookup(purged, dir + [k]))
  {
    MovedAside(dao, fs, dir, name, clock);
    var id := NewEntryIn(dao, fs, dir, Deleted, clock).value.rev[|dir|];
    assert id in clock;
  }

  /** deleteNode: the agent's history moves aside under the marked name in the nodes directory. */
  lemma DeleteNodeOutcome(dao: Dao, fs: Fs, agent: Agent, stamp: string, clock: seq<string>)
    requires DeleteNode(dao, fs, agent, stamp, clock, true).Success?
    requires '/' !in agent.name && '/' !in stamp
    ensures var dir := NodeHistoryDir(dao.historyRoot, agent.name);
      var name := DeletedHistoryName(agent.name, stamp);
      var target := Parent(dir) + [name];
      var purged := PurgeOldEntries(fs, dir, dao.maxHistoryEntries);
      var after := DeleteNode(dao, fs, agent, stamp, clock, true).value;
      dir[|dir| - 1] != name && !Exists(fs, target) ==>
        && !Exists(after, dir)
        && name in ChildNames(after, Parent(dir))
        && exists id | id in clock ::
             && RevisionIds(after, target) == RevisionIds(purged, dir) + {id}
             && ReadDescriptor(after, target + [id]) == Some(MakeDescriptor(dao.user, Deleted, id))
             && (forall k | k != id :: Lookup(after, target + [k]) == Lookup(purged, dir + [k]))
  {
    var dir := NodeHistoryDir(dao.historyRoot, agent.name);
    var name := DeletedHistoryName(agent.name, stamp);
    if dir[|dir| - 1] != name && !Exists(fs, Parent(dir) + [name]) {
      var e := NewEntryIn(dao, fs, dir, Deleted, clock).value;
      assert DeleteNode(dao, fs, agent, stamp, clock, true).value == MoveAside(e.fs, dir, name, true);
      MovedAsideSomewhere(dao, fs, dir, name, clock, DeleteNode(dao, fs, agent, stamp, clock, true).value);
    }
  }

  /**
   * When the rename fails, the Deleted revision stays in the history
   * directory as its newest revision, holding `history.xml` only.
   */
  lemma DeletedEntryStays(dao: Dao, fs: Fs, dir: Path, name: string, clock: seq<string>)
    requires NewEntryIn(dao, fs, dir, Deleted, clock).Success?
    requires forall i | 0 <= i < |clock| :: clock[i] != "" && '/' !in clock[i]
    requires forall i, k | 0 <= i < |clock| && k in RevisionIds(fs, dir) :: Less(k, clock[i])
    ensures var after := MoveAside(NewEntryIn(dao, fs, dir, Deleted, clock).value.fs, dir, name, false);
      exists id | id in clock ::
        && Newest(RevisionIds(after, dir)) == Some(id)
        && ChildNames(after, dir + Components(id)) == {HistoryFile}
        && ReadDescriptor(after, dir + [id]) == Some(MakeDescriptor(dao.user, Deleted, id))
        && (forall k | k != id :: Lookup(after, dir + [k]) == Lookup(PurgeOldEntries(fs, dir, dao.maxHistoryEntries), dir + [k]))
  {
    var e := NewEntryIn(dao, fs, dir, Deleted, clock).value;
    var purged := PurgeOldEntries(fs, dir, dao.maxHistoryEntries);
    assert MoveAside(e.fs, dir, name, false) == e.fs;
    NewEntryFacts(dao, fs, dir, Deleted, clock, []);
    var id := e.rev[|dir|];
    FreshRevisionIds(purged, e.fs, dir, id, MakeDescriptor(dao.user, Deleted, id));
    forall k | k in RevisionIds(e.fs, dir) && k != id
      ensures Less(k, id)
    {
      PurgeAddsNothing(fs, dir, dao.maxHistoryEntries, k);
    }
    NewestIs(RevisionIds(e.fs, dir), id);
    PlainNameComponents(id);
  }

  /**
   * The null dereference of hasDuplicateHistory as written: after a
   * deleteItem whose rename failed, saving the item again with duplicates
   * suppressed finds a newest revision without configuration file and
   * throws, where the intended check reports no duplicate.
   */
  lemma FailedDeleteBreaksDuplicateCheck(dao: Dao, fs: Fs, config: ConfigFile, itemName: string, stamp: string,
                                         clock: seq<string>, current: ConfigFile)
    requires DeleteItem(dao, fs, config, itemName, stamp, clock, false).Success?
    requires forall i | 0 <= i < |clock| :: clock[i] != "" && '/' !in clock[i]
    requires HistoryDir(dao.historyRoot, dao.jenkinsHome, config.path).Success?
    requires forall i, k | 0 <= i < |clock| && k in RevisionIds(fs, HistoryDir(dao.historyRoot, dao.jenkinsHome, config.path).value) ::
      Less(k, clock[i])
    requires current.path == config.path && current.content.Some?
    ensures var after := DeleteItem(dao, fs, config, itemName, stamp, clock, false).value;
      && HasDuplicateHistoryAsWritten(dao, after, current) == Failure(NullRevisionFile)
      && HasDuplicateHistory(dao, after, current) == Success(false)
  {
    var dir := HistoryDir(dao.historyRoot, dao.jenkinsHome, config.path).value;
    var name := DeletedHistoryName(itemName, stamp);
    var after := DeleteItem(dao, fs, config, itemName, stamp, clock, false).value;
    assert after == MoveAside(NewEntryIn(dao, fs, dir, Deleted, clock).value.fs, dir, name, false);
    DeletedEntryStays(dao, fs, dir, name, clock);
    var id :| id in clock && Newest(RevisionIds(after, dir)) == Some(id) && ChildNames(after, dir + Components(id)) == {HistoryFile};
    NewestWithoutConfig(dao, after, current, dir, id);
  }

  /**
   * The same situation one step on: the next saveItem of the job, with
   * duplicates suppressed, crashes as written, while the model's saveItem
   * records a Changed revision.
   */
  lemma FailedDeleteCrashesNextSave(dao: Dao, fs: Fs, config: ConfigFile, itemName: string, stamp: string,
                                    clock: seq<string>, current: ConfigFile, clock2: seq<string>)
    requires !dao.saveDuplicates
    requires DeleteItem(dao, fs, config, itemName, stamp, clock, false).Success?
    requires forall i | 0 <= i < |clock| :: clock[i] != "" && '/' !in clock[i]
    requires HistoryDir(dao.historyRoot, dao.jenkinsHome, config.path).Success?
    requires forall i, k | 0 <= i < |clock| && k in RevisionIds(fs, HistoryDir(dao.historyRoot, dao.jenkinsHome, config.path).value) ::
      Less(k, clock[i])
    requires current.path == config.path && current.content.Some?
    ensures var after := DeleteItem(dao, fs, config, itemName, stamp, clock, false).value;
      && SaveItemAsWritten(dao, after, current, clock2) == Failure(Crash(NullRevisionFile, after))
      && SaveItem(dao, after, current, clock2) == CreateNewHistoryEntryAndCopyConfig(dao, after, current, Changed, clock2)
  {
    var after := DeleteItem(dao, fs, config, itemName, stamp, clock, false).value;
    FailedDeleteBreaksDuplicateCheck(dao, fs, config, itemName, stamp, clock, current);
    SaveItemAsWrittenDeparts(dao, after, current, clock2);
  }

  /** The newest revision holds no configuration file: as written that is a null dereference. */
  lemma NewestWithoutConfig(dao: Dao, fs: Fs, current: ConfigFile, dir: Path, id: string)
    requires HistoryDir(dao.historyRoot, dao.jenkinsHome, current.path) == Success(dir) && current.content.Some?
    requires Newest(RevisionIds(fs, dir)) == Some(id) && ChildNames(fs, dir + Components(id)) == {HistoryFile}
    ensures HasDuplicateHistoryAsWritten(dao, fs, current) == Failure(NullRevisionFile)
    ensures HasDuplicateHistory(dao, fs, current) == Success(false)
  {
    assert ConfigFileOf(fs, dir + Components(id)).None?;
  }

  /**
   * The same for agents: after a deleteNode whose rename failed, the
   * duplicate check of saveNode as written throws, while the intended one
   * reports no duplicate, provided the earlier descriptors are readable.
   */
  lemma FailedNodeDeleteBreaksDuplicateCheck(dao: Dao, fs: Fs, agent: Agent, stamp: string, clock: seq<string>)
    requires DeleteNode(dao, fs, agent, stamp, clock, false).Success?
    requires forall i | 0 <= i < |clock| :: clock[i] != "" && '/' !in clock[i]
    requires forall i, k | 0 <= i < |clock| && k in RevisionIds(fs, NodeHistoryDir(dao.historyRoot, agent.name)) ::
      Less(k, clock[i])
    requires forall k | k in RevisionIds(fs, NodeHistoryDir(dao.historyRoot, agent.name)) ::
      ReadDescriptor(fs, NodeHistoryDir(dao.historyRoot, agent.name) + [k]).Some?
    ensures var after := DeleteNode(dao, fs, agent, stamp, clock, false).value;
      && HasAgentDuplicateAsWritten(dao, after, agent) == Failure(NullRevisionFile)
      && HasAgentDuplicate(dao, after, agent) == Success(false)
  {
    var dir := NodeHistoryDir(dao.historyRoot, agent.name);
    var name := DeletedHistoryName(agent.name, stamp);
    var purged := PurgeOldEntries(fs, dir, dao.maxHistoryEntries);
    var after := DeleteNode(dao, fs, agent, stamp, clock, false).value;
    assert after == MoveAside(NewEntryIn(dao, fs, dir, Deleted, clock).value.fs, dir, name, false);
    DeletedEntryStays(dao, fs, dir, name, clock);
    var id :| id in clock && Newest(RevisionIds(after, dir)) == Some(id) && ChildNames(after, dir + Components(id)) == {HistoryFile}
      && ReadDescriptor(after, dir + [id]).Some?
      && (forall k | k != id :: Lookup(after, dir + [k]) == Lookup(purged, dir + [k]));
    forall k | k in RevisionIds(after, dir)
      ensures ReadDescriptor(after, dir + [k]).Some?
    {
      if k != id {
        PurgeAddsNothing(fs, dir, dao.maxHistoryEntries, k);
        SameEntry(after, fs, dir + [k]);
      }
    }
    AgentNewestWithoutConfig(dao, after, agent, id);
  }

  /** The same for an agent whose descriptors all read. */
  lemma AgentNewestWithoutConfig(dao: Dao, fs: Fs, agent: Agent, id: string)
    requires var dir := NodeHistoryDir(dao.historyRoot, agent.name);
      && (forall k | k in RevisionIds(fs, dir) :: ReadDescriptor(fs, dir + [k]).Some?)
      && Newest(RevisionIds(fs, dir)) == Some(id) && ChildNames(fs, dir + Components(id)) == {HistoryFile}
    ensures HasAgentDuplicateAsWritten(dao, fs, agent) == Failure(NullRevisionFile)
    ensures HasAgentDuplicate(dao, fs, agent) == Success(false)
  {
    var dir := NodeHistoryDir(dao.historyRoot, agent.name);
    assert AgentRevisions(dao, fs, agent.name).Success?;
    assert AgentRevisions(dao, fs, agent.name).value.Keys == RevisionIds(fs, dir);
    assert ConfigFileOf(fs, dir + Components(id)).None?;
  }

  // ----- rename -----

  function Get(m: map<string, Fs>, k: string): Option<Fs> {
    if k in m then Some(m[k]) else None
  }

  /**
   * FilePath#copyRecursiveTo of `src` onto `dest` (absent when `None`):
   * files of `src` overwrite, entries only in `dest` stay; `None` when a
   * file meets a directory, which throws an IOException.
   */
  function Overlay(src: Fs, dest: Option<Fs>): Option<Fs> {
    match src
    case File(_) => if dest.Some? && dest.value.Dir? then None else Some(src)
    case Dir(c) =>
      if dest.Some? && dest.value.File? then None
      else
        var e := if dest.Some? then dest.value.children else map[];
        if forall k | k in c :: Overlay(c[k], Get(e, k)).Some? then
          Some(Dir(map k | k in e.Keys + c.Keys :: if k in c then Overlay(c[k], Get(e, k)).value else e[k]))
        else None
  }

  /** Every file of the copied tree arrives with its content. */
  lemma {:induction false} OverlayKeepsFiles(src: Fs, dest: Option<Fs>, s: Path)
    requires Overlay(src, dest).Some? && Lookup(src, s).Some? && Lookup(src, s).value.File?
    ensures Lookup(Overlay(src, dest).value, s) == Lookup(src, s)
    decreases |s|
  {
    var r := Overlay(src, dest).value;
    if s != [] {
      var c := src.children;
      var k := s[0];
      var e := if dest.Some? && dest.value.Dir? then dest.value.children else map[];
      assert [k] + s[1..] == s;
      LookupStep(src, k, s[1..]);
      LookupStep(r, k, s[1..]);
      OverlayKeepsFiles(c[k], Get(e, k), s[1..]);
    }
  }

  /** Whatever the copied tree does not reach keeps what the target held. */
  lemma {:induction false} OverlayKeepsTarget(src: Fs, dest: Fs, s: Path)
    requires Overlay(src, Some(dest)).Some? && Lookup(src, s).None? && Lookup(dest, s).Some?
    ensures Lookup(Overlay(src, Some(dest)).value, s) == Lookup(dest, s)
    decreases |s|
  {
    var r := Overlay(src, Some(dest)).value;
    var k := s[0];
    assert [k] + s[1..] == s;
    LookupStep(src, k, s[1..]);
    LookupStep(dest, k, s[1..]);
    LookupStep(r, k, s[1..]);
    if src.Dir? && k in src.children {
      OverlayKeepsTarget(src.children[k], dest.children[k], s[1..]);
    }
  }

  /** The old history can be moved: it is a directory, unrelated to the new one, and the platform allows it. */
  predicate MovePossible(fs: Fs, oldDir: Path, dir: Path, ok: bool) {
    ok && IsDirAt(fs, oldDir) && !IsPrefix(oldDir, dir) && !IsPrefix(dir, oldDir)
  }

  /** The move goes through: no file meets a directory, and the new directory can be created. */
  predicate MoveSucceeds(fs: Fs, oldDir: Path, dir: Path, ok: bool) {
    MovePossible(fs, oldDir, dir, ok) &&
    Overlay(Lookup(fs, oldDir).value, Lookup(fs, dir)).Some? && MkDirs(fs, dir).Some?
  }

  lemma ParentIsPrefix(p: Path)
    requires p != []
    ensures IsPrefix(Parent(p), p) && Parent(p) != p
  {
  }

  /** The three edits of a move all find their parent directories. */
  lemma MoveSteps(fs: Fs, oldDir: Path, dir: Path, merged: Fs)
    requires MovePossible(fs, oldDir, dir, true) && MkDirs(fs, dir).Some?
    ensures Edit(MkDirs(fs, dir).value, dir, Some(merged)).Some?
    ensures Edit(Edit(MkDirs(fs, dir).value, dir, Some(merged)).value, oldDir, None).Some?
  {
    var fs1 := MkDirs(fs, dir).value;
    assert IsPrefix([], dir);
    MkDirsFacts(fs, dir, Parent(dir));
    ParentIsPrefix(dir);
    EditSucceeds(fs1, dir, Some(merged));
    var fs2 := Edit(fs1, dir, Some(merged)).value;
    ExistsParentIsDir(fs, oldDir);
    ParentIsPrefix(oldDir);
    MkDirsFacts(fs, dir, Parent(oldDir));
    if IsPrefix(dir, Parent(oldDir)) {
      PrefixTrans(dir, Parent(oldDir), oldDir);
      assert false;
    }
    LookupEdit(fs1, dir, Some(merged), Parent(oldDir));
    EditSucceeds(fs2, oldDir, None);
  }

  /**
   * renameItem's move of the old history: copyRecursiveTo into the new
   * history directory, then deleteRecursive of the old one.  A failure
   * (an IOException, logged) leaves the tree as it was.
   */
  function MoveHistory(fs: Fs, oldDir: Path, dir: Path, ok: bool): Fs {
    if !MovePossible(fs, oldDir, dir, ok) then fs
    else match Overlay(Lookup(fs, oldDir).value, Lookup(fs, dir))
      case None => fs
      case Some(merged) =>
        match MkDirs(fs, dir)
        case None => fs
        case Some(fs1) =>
          MoveSteps(fs, oldDir, dir, merged);
          Edit(Edit(fs1, dir, Some(merged)).value, oldDir, None).value
  }

  /**
   * A move that goes through: every file of the old history arrives at the
   * same place in the new one, entries of the new one the old history does
   * not reach stay, the old directory is gone, and unrelated paths keep
   * their entries.
   */
  lemma MoveFacts(fs: Fs, oldDir: Path, dir: Path, s: Path, q: Path)
    requires MoveSucceeds(fs, oldDir, dir, true)
    ensures var after := MoveHistory(fs, oldDir, dir, true);
      && (Lookup(fs, oldDir + s).Some? && Lookup(fs, oldDir + s).value.File? ==> Lookup(after, dir + s) == Lookup(fs, oldDir + s))
      && (Lookup(fs, oldDir + s).None? && Lookup(fs, dir + s).Some? ==> Lookup(after, dir + s) == Lookup(fs, dir + s))
      && !Exists(after, oldDir)
      && (!IsPrefix(oldDir, q) && !IsPrefix(q, oldDir) && !IsPrefix(dir, q) && !IsPrefix(q, dir) ==> Lookup(after, q) == Lookup(fs, q))
  {
    var src := Lookup(fs, oldDir).value;
    var merged := Overlay(src, Lookup(fs, dir)).value;
    var fs1 := MkDirs(fs, dir).value;
    MoveSteps(fs, oldDir, dir, merged);
    var fs2 := Edit(fs1, dir, Some(merged)).value;
    var after := Edit(fs2, oldDir, None).value;
    assert after == MoveHistory(fs, oldDir, dir, true);
    // the new history's paths are unrelated to the old one
    assert IsPrefix(dir, dir + s) && (dir + s)[|dir|..] == s;
    if IsPrefix(oldDir, dir + s) {
      PrefixOrder(oldDir, dir, dir + s);
      assert false;
    }
    if IsPrefix(dir + s, oldDir) {
      PrefixTrans(dir, dir + s, oldDir);
      assert false;
    }
    LookupEdit(fs2, oldDir, None, dir + s);
    LookupEdit(fs1, dir, Some(merged), dir + s);
    LookupAppend(fs, oldDir, s);
    LookupAppend(fs, dir, s);
    if Lookup(fs, oldDir + s).Some? && Lookup(fs, oldDir + s).value.File? {
      OverlayKeepsFiles(src, Lookup(fs, dir), s);
    }
    if Lookup(fs, oldDir + s).None? && Lookup(fs, dir + s).Some? {
      OverlayKeepsTarget(src, Lookup(fs, dir).value, s);
    }
    LookupEdit(fs2, oldDir, None, oldDir);
    assert IsPrefix(oldDir, oldDir);
    LookupEdit(fs2, oldDir, None, q);
    LookupEdit(fs1, dir, Some(merged), q);
    MkDirsFacts(fs, dir, q);
  }

  /** Whether or not it goes through, the move leaves every path unrelated to both directories alone. */
  lemma MoveOutside(fs: Fs, oldDir: Path, dir: Path, ok: bool, q: Path)
    requires !IsPrefix(oldDir, q) && !IsPrefix(q, oldDir) && !IsPrefix(dir, q) && !IsPrefix(q, dir)
    ensures Lookup(MoveHistory(fs, oldDir, dir, ok), q) == Lookup(fs, q)
  {
    if MoveSucceeds(fs, oldDir, dir, ok) {
      MoveFacts(fs, oldDir, dir, [], q);
    }
  }

  /**
   * renameItem: the old history (at `oldName` next to the new history
   * directory) is moved into the new one, then a Renamed revision with a
   * copy of the configuration is added whether or not the move succeeded.
   */
  function RenameItem(dao: Dao, fs: Fs, config: ConfigFile, oldName: string, clock: seq<string>, moveOk: bool): Result<Fs, Crash> {
    match HistoryDir(dao.historyRoot, dao.jenkinsHome, config.path)
    case Failure(e) => Failure(Crash(BadPath(e), fs))
    case Success(dir) =>
      var moved := if dir == [] then fs else MoveHistory(fs, Parent(dir) + Components(oldName), dir, moveOk);
      CreateNewHistoryEntryAndCopyConfig(dao, moved, config, Renamed, clock)
  }

  /** renameNode: the same for an agent, whose new revision holds its XML. */
  function RenameNode(dao: Dao, fs: Fs, agent: Agent, oldName: string, clock: seq<string>, moveOk: bool): Result<Fs, Crash> {
    var dir := NodeHistoryDir(dao.historyRoot, agent.name);
    var moved := MoveHistory(fs, Parent(dir) + Components(oldName), dir, moveOk);
    NewAgentEntryAndSaveConfig(dao, moved, agent, Renamed, clock)
  }

  /** Equal entries: the same revision status, descriptor and stored texts. */
  lemma SameRevision(a: Fs, pa: Path, b: Fs, pb: Path, n: string)
    requires Lookup(a, pa) == Lookup(b, pb)
    ensures IsRevisionDir(a, pa) == IsRevisionDir(b, pb)
    ensures ReadDescriptor(a, pa) == ReadDescriptor(b, pb)
    ensures ReadText(a, pa + [n]) == ReadText(b, pb + [n])
  {
    LookupAppend(a, pa, [HistoryFile]);
    LookupAppend(b, pb, [HistoryFile]);
    LookupAppend(a, pa, [n]);
    LookupAppend(b, pb, [n]);
  }

  /** A revision of the old history arrives in the new one with its descriptor and its stored files. */
  lemma MovedRevision(fs: Fs, oldDir: Path, dir: Path, k: string, n: string)
    requires MoveSucceeds(fs, oldDir, dir, true) && IsRevisionDir(fs, oldDir + [k])
    ensures var m := MoveHistory(fs, oldDir, dir, true);
      && IsRevisionDir(m, dir + [k])
      && ReadDescriptor(m, dir + [k]) == ReadDescriptor(fs, oldDir + [k])
      && (ReadText(fs, oldDir + [k] + [n]).Some? ==> ReadText(m, dir + [k] + [n]) == ReadText(fs, oldDir + [k] + [n]))
  {
    var m := MoveHistory(fs, oldDir, dir, true);
    assert oldDir + [k, HistoryFile] == oldDir + [k] + [HistoryFile] && dir + [k, HistoryFile] == dir + [k] + [HistoryFile];
    assert oldDir + [k, n] == oldDir + [k] + [n] && dir + [k, n] == dir + [k] + [n];
    ChildNamesLookup(fs, oldDir + [k], HistoryFile);
    MoveFacts(fs, oldDir, dir, [k, HistoryFile], []);
    MoveFacts(fs, oldDir, dir, [k, n], []);
    ChildNamesLookup(m, dir + [k], HistoryFile);
  }

  /**
   * renameItem: a success adds one Renamed revision, holding a copy of
   * the configuration, to the history as the move left it (purged); paths
   * unrelated to both the new and the old history directory keep their
   * entries.
   */
  lemma RenameItemOutcome(dao: Dao, fs: Fs, config: ConfigFile, oldName: string, clock: seq<string>, moveOk: bool)
    requires NameOf(config.path) != HistoryFile
    requires RenameItem(dao, fs, config, oldName, clock, moveOk).Success?
    ensures HistoryDir(dao.historyRoot, dao.jenkinsHome, config.path).Success? && config.content.Some?
    ensures var dir := HistoryDir(dao.historyRoot, dao.jenkinsHome, config.path).value;
      var moved := if dir == [] then fs else MoveHistory(fs, Parent(dir) + Components(oldName), dir, moveOk);
      var after := RenameItem(dao, fs, config, oldName, clock, moveOk).value;
      exists id | id in clock ::
        && FreshRevision(PurgeOldEntries(moved, dir, dao.maxHistoryEntries), after, dir, id, MakeDescriptor(dao.user, Renamed, id))
        && ReadText(after, dir + [id] + [NameOf(config.path)]) == config.content
    ensures var dir := HistoryDir(dao.historyRoot, dao.jenkinsHome, config.path).value;
      var after := RenameItem(dao, fs, config, oldName, clock, moveOk).value;
      dir != [] ==>
      var oldDir := Parent(dir) + Components(oldName);
      forall q | !IsPrefix(dir, q) && !IsPrefix(q, dir) && !IsPrefix(oldDir, q) && !IsPrefix(q, oldDir) ::
        Lookup(after, q) == Lookup(fs, q)
  {
    var dir := HistoryDir(dao.historyRoot, dao.jenkinsHome, config.path).value;
    var moved := if dir == [] then fs else MoveHistory(fs, Parent(dir) + Components(oldName), dir, moveOk);
    assert RenameItem(dao, fs, config, oldName, clock, moveOk) == CreateNewHistoryEntryAndCopyConfig(dao, moved, config, Renamed, clock);
    EntryWithCopy(dao, moved, config, Renamed, clock);
    if dir != [] {
      var oldDir := Parent(dir) + Components(oldName);
      forall q | !IsPrefix(dir, q) && !IsPrefix(q, dir) && !IsPrefix(oldDir, q) && !IsPrefix(q, oldDir)
        ensures Lookup(moved, q) == Lookup(fs, q)
      {
        MoveOutside(fs, oldDir, dir, moveOk, q);
      }
    }
  }

  /**
   * renameItem with purging off: every revision of the old history is a
   * revision of the renamed item afterwards, with the same descriptor and
   * the same stored configuration.
   */
  lemma RenameKeepsOldRevisions(dao: Dao, fs: Fs, config: ConfigFile, oldName: string, clock: seq<string>,
                                dir: Path, k: string, n: string)
    requires NameOf(config.path) != HistoryFile && dao.maxHistoryEntries <= 0
    requires HistoryDir(dao.historyRoot, dao.jenkinsHome, config.path) == Success(dir) && dir != []
    requires MoveSucceeds(fs, Parent(dir) + Components(oldName), dir, true)
    requires RenameItem(dao, fs, config, oldName, clock, true).Success?
    requires k in RevisionIds(fs, Parent(dir) + Components(oldName))
    ensures var oldDir := Parent(dir) + Components(oldName);
      var after := RenameItem(dao, fs, config, oldName, clock, true).value;
      && k in RevisionIds(after, dir)
      && ReadDescriptor(after, dir + [k]) == ReadDescriptor(fs, oldDir + [k])
      && (ReadText(fs, oldDir + [k] + [n]).Some? ==> ReadText(after, dir + [k] + [n]) == ReadText(fs, oldDir + [k] + [n]))
  {
    var oldDir := Parent(dir) + Components(oldName);
    var moved := MoveHistory(fs, oldDir, dir, true);
    var after := RenameItem(dao, fs, config, oldName, clock, true).value;
    RenameItemOutcome(dao, fs, config, oldName, clock, true);
    MovedRevision(fs, oldDir, dir, k, n);
    var id :| id in clock && FreshRevision(PurgeOldEntries(moved, dir, dao.maxHistoryEntries), after, dir, id, MakeDescriptor(dao.user, Renamed, id));
    assert PurgeOldEntries(moved, dir, dao.maxHistoryEntries) == moved;
    assert k != id;
    SameRevision(after, dir + [k], moved, dir + [k], n);
  }

  /**
   * renameNode: a success adds one Renamed revision holding the agent's XML
   * to the moved history; paths unrelated to both agent history directories
   * keep their entries.
   */
  lemma RenameNodeOutcome(dao: Dao, fs: Fs, agent: Agent, oldName: string, clock: seq<string>, moveOk: bool)
    requires RenameNode(dao, fs, agent, oldName, clock, moveOk).Success?
    ensures var dir := NodeHistoryDir(dao.historyRoot, agent.name);
      var moved := MoveHistory(fs, Parent(dir) + Components(oldName), dir, moveOk);
      var after := RenameNode(dao, fs, agent, oldName, clock, moveOk).value;
      exists id | id in clock ::
        && FreshRevision(PurgeOldEntries(moved, dir, dao.maxHistoryEntries), after, dir, id, MakeDescriptor(dao.user, Renamed, id))
        && ReadText(after, dir + [id] + [AgentConfigName]) == Some(agent.xml)
    ensures var dir := NodeHistoryDir(dao.historyRoot, agent.name);
      var oldDir := Parent(dir) + Components(oldName);
      var after := RenameNode(dao, fs, agent, oldName, clock, moveOk).value;
      forall q | !IsPrefix(dir, q) && !IsPrefix(q, dir) && !IsPrefix(oldDir, q) && !IsPrefix(q, oldDir) ::
        Lookup(after, q) == Lookup(fs, q)
  {
    var dir := NodeHistoryDir(dao.historyRoot, agent.name);
    var oldDir := Parent(dir) + Components(oldName);
    var moved := MoveHistory(fs, oldDir, dir, moveOk);
    AgentEntryWithConfig(dao, moved, agent, Renamed, clock);
    forall q | !IsPrefix(dir, q) && !IsPrefix(q, dir) && !IsPrefix(oldDir, q) && !IsPrefix(q, oldDir)
      ensures Lookup(moved, q) == Lookup(fs, q)
    {
      MoveOutside(fs, oldDir, dir, moveOk, q);
    }
  }

  /** renameNode with purging off: the old agent history's revisions all carry over. */
  lemma RenameNodeKeepsOldRevisions(dao: Dao, fs: Fs, agent: Agent, oldName: string, clock: seq<string>, k: string, n: string)
    requires dao.maxHistoryEntries <= 0
    requires var dir := NodeHistoryDir(dao.historyRoot, agent.name);
      && MoveSucceeds(fs, Parent(dir) + Components(oldName), dir, true)
      && k in RevisionIds(fs, Parent(dir) + Components(oldName))
    requires RenameNode(dao, fs, agent, oldName, clock, true).Success?
    ensures var dir := NodeHistoryDir(dao.historyRoot, agent.name);
      var oldDir := Parent(dir) + Components(oldName);
      var after := RenameNode(dao, fs, agent, oldName, clock, true).value;
      && k in RevisionIds(after, dir)
      && ReadDescriptor(after, dir + [k]) == ReadDescriptor(fs, oldDir + [k])
      && (ReadText(fs, oldDir + [k] + [n]).Some? ==> ReadText(after, dir + [k] + [n]) == ReadText(fs, oldDir + [k] + [n]))
  {
    var dir := NodeHistoryDir(dao.historyRoot, agent.name);
    var oldDir := Parent(dir) + Components(oldName);
    var moved := MoveHistory(fs, oldDir, dir, true);
    var after := RenameNode(dao, fs, agent, oldName, clock, true).value;
    RenameNodeOutcome(dao, fs, agent, oldName, clock, true);
    MovedRevision(fs, oldDir, dir, k, n);
    var id :| id in clock && FreshRevision(PurgeOldEntries(moved, dir, dao.maxHistoryEntries), after, dir, id, MakeDescriptor(dao.user, Renamed, id));
    assert PurgeOldEntries(moved, dir, dao.maxHistoryEntries) == moved;
    assert k != id;
    SameRevision(after, dir + [k], moved, dir + [k], n);
  }
}

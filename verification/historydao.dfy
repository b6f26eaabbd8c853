/**
 * FileHistoryDao's write path: allocating a revision directory, writing
 * its descriptor and the configuration copy, and skipping saves that
 * duplicate the newest revision.  The clock is a sequence of sampled
 * revision ids (`yyyy-MM-dd_HH-mm-ss` strings); running out of samples
 * stands in for the clash loop never ending.
 */
module HistoryDao {
  import opened Options
  import opened LexOrder
  import opened FileTree
  import opened HistoryPaths
  import opened Revisions
  import opened Purge

  /** FileHistoryDao's constructor arguments. */
  datatype Dao = Dao(historyRoot: Path, jenkinsHome: string, user: Option<User>, maxHistoryEntries: int, saveDuplicates: bool)

  /** An XmlFile: the absolute path of a configuration file and its text, `None` when it cannot be read. */
  datatype ConfigFile = ConfigFile(path: string, content: Option<string>)

  /** A Jenkins agent (hudson.model.Node): its name and its XStream form. */
  datatype Agent = Agent(name: string, xml: string)

  /** The exceptions that escape the DAO. */
  datatype Error =
    | BadPath(pathError: PathError)  // getHistoryDir throws
    | ClockExhausted                 // every clock sample clashed with an existing revision
    | CannotCreateDir                // "Could not create rootDir"
    | WriteFailed                    // writing history.xml or the configuration copy failed
    | UnreadableConfig               // "Unable to copy": the configuration file cannot be read
    | NullRevisionFile               // NullPointerException: the newest revision holds no configuration file
    | UnreadableHistory              // "Unable to read history for" an agent

  /** An escaped exception and the tree as the operation left it. */
  datatype Crash = Crash(error: Error, at: Fs)

  /** A new revision: the tree holding it and its directory. */
  datatype Entry = Entry(fs: Fs, rev: Path)

  /** The name of the agent configuration written by createNewHistoryEntryAndSaveConfig. */
  const AgentConfigName := "config.xml"

  /** The descriptor createHistoryXmlFile writes: the user, or the anonymous pair without one. */
  function MakeDescriptor(user: Option<User>, op: Operation, timestamp: string): (d: Descriptor)
    ensures d.operation == op && d.timestamp == timestamp
    ensures user.Some? ==> d.user == user.value.fullName && d.userId == user.value.id
    ensures user.None? ==> d.user == AnonymousName && d.userId == AnonymousId
  {
    match user
    case Some(u) => Descriptor(u.fullName, u.id, op, timestamp)
    case None => Descriptor(AnonymousName, AnonymousId, op, timestamp)
  }

  /** The clash loop of createNewHistoryDir: the first sample whose directory does not exist yet. */
  function FirstFree(fs: Fs, dir: Path, clock: seq<string>): (r: Option<nat>)
    ensures r.Some? ==> r.value < |clock| && !IsDirAt(fs, dir + [clock[r.value]])
    ensures r.Some? ==> forall j | 0 <= j < r.value :: IsDirAt(fs, dir + [clock[j]])
    ensures r.None? <==> forall j | 0 <= j < |clock| :: IsDirAt(fs, dir + [clock[j]])
    decreases |clock|
  {
    if clock == [] then None
    else if !IsDirAt(fs, dir + [clock[0]]) then Some(0)
    else match FirstFree(fs, dir, clock[1..])
      case None => None
      case Some(i) => Some(i + 1)
  }

  /**
   * createNewHistoryDir: the first non-clashing sample names the new
   * revision directory, which File#mkdirs creates; an existing plain file
   * of that name passes the `mkdirs() || exists()` check.
   */
  function CreateNewHistoryDir(fs: Fs, dir: Path, clock: seq<string>): (r: Result<Entry, Error>)
    ensures r.Success? ==> |r.value.rev| == |dir| + 1 && r.value.rev[..|dir|] == dir
    ensures r.Success? ==> r.value.rev[|dir|] in clock && !IsDirAt(fs, r.value.rev) && Exists(r.value.fs, r.value.rev)
  {
    match FirstFree(fs, dir, clock)
    case None => Failure(ClockExhausted)
    case Some(i) =>
      var rev := dir + [clock[i]];
      assert rev[..|dir|] == dir && rev[|dir|] == clock[i];
      if Exists(fs, rev) then Success(Entry(fs, rev))
      else match MkDirs(fs, rev)
        case None => Failure(CannotCreateDir)
        case Some(fs1) =>
          MkDirsFacts(fs, rev, rev);
          Success(Entry(fs1, rev))
  }

  /**
   * createNewHistoryEntry in the history directory `dir`: purge, allocate,
   * then write `history.xml` whose timestamp is the new directory's name.
   */
  function NewEntryIn(dao: Dao, fs: Fs, dir: Path, op: Operation, clock: seq<string>): Result<Entry, Crash> {
    var purged := PurgeOldEntries(fs, dir, dao.maxHistoryEntries);
    match CreateNewHistoryDir(purged, dir, clock)
    case Failure(e) => Failure(Crash(e, purged))
    case Success(Entry(fs1, rev)) =>
      var descr := MakeDescriptor(dao.user, op, rev[|rev| - 1]);
      match WriteFile(fs1, rev + [HistoryFile], Descr(descr))
      case None => Failure(Crash(WriteFailed, fs1))
      case Some(fs2) => Success(Entry(fs2, rev))
  }

  /** createNewHistoryEntry(XmlFile, operation): the history directory comes from getHistoryDir. */
  function CreateNewHistoryEntry(dao: Dao, fs: Fs, config: ConfigFile, op: Operation, clock: seq<string>): Result<Entry, Crash> {
    match HistoryDir(dao.historyRoot, dao.jenkinsHome, config.path)
    case Failure(e) => Failure(Crash(BadPath(e), fs))
    case Success(dir) => NewEntryIn(dao, fs, dir, op, clock)
  }

  /**
   * copyConfigFile: opening the copy truncates or creates it, then the
   * original is read; an unreadable original leaves the empty copy behind.
   */
  function CopyConfigFile(fs: Fs, rev: Path, config: ConfigFile): (r: Result<Fs, Crash>)
    ensures r.Success? ==> config.content.Some?
    ensures r.Success? ==> ReadText(r.value, rev + Seg(NameOf(config.path))) == config.content
  {
    var target := rev + Seg(NameOf(config.path));
    match WriteFile(fs, target, Text(""))
    case None => Failure(Crash(WriteFailed, fs))
    case Some(fs1) =>
      match config.content
      case None => Failure(Crash(UnreadableConfig, fs1))
      case Some(text) =>
        WriteFileFacts(fs, target, Text(""), Text(text), target);
        Success(WriteFile(fs, target, Text(text)).value)
  }

  /** createNewHistoryEntryAndCopyConfig. */
  function CreateNewHistoryEntryAndCopyConfig(dao: Dao, fs: Fs, config: ConfigFile, op: Operation, clock: seq<string>): Result<Fs, Crash> {
    match CreateNewHistoryEntry(dao, fs, config, op, clock)
    case Failure(c) => Failure(c)
    case Success(Entry(fs1, rev)) => CopyConfigFile(fs1, rev, config)
  }

  /** createNewHistoryEntryAndSaveConfig: the agent's XML goes to `config.xml` (a PrintStream). */
  function NewAgentEntryAndSaveConfig(dao: Dao, fs: Fs, agent: Agent, op: Operation, clock: seq<string>): Result<Fs, Crash> {
    match NewEntryIn(dao, fs, NodeHistoryDir(dao.historyRoot, agent.name), op, clock)
    case Failure(c) => Failure(c)
    case Success(Entry(fs1, rev)) =>
      match WriteFile(fs1, rev + [AgentConfigName], Text(agent.xml))
      case None => Failure(Crash(WriteFailed, fs1))
      case Some(fs2) => Success(fs2)
  }

  /** The newest revision id: the head of the reverse-sorted list of revision ids. */
  function Newest(ids: set<string>): (r: Option<string>)
    ensures r.None? <==> ids == {}
    ensures r.Some? ==> r.value in ids && forall k | k in ids && k != r.value :: Less(k, r.value)
  {
    if ids == {} then None else Some(Descending(ids)[0])
  }

  /**
   * hasDuplicateHistory(XmlFile) as written: with no revision it is false;
   * otherwise the current text is compared with the newest revision's
   * configuration file, and a revision without one dereferences null.
   */
  function HasDuplicateHistoryAsWritten(dao: Dao, fs: Fs, config: ConfigFile): Result<bool, Error> {
    match HistoryDir(dao.historyRoot, dao.jenkinsHome, config.path)
    case Failure(e) => Failure(BadPath(e))
    case Success(dir) =>
      match Newest(RevisionIds(fs, dir))
      case None => Success(false)
      case Some(id) =>
        if config.content.None? then Success(false)
        else match ConfigFileOf(fs, dir + Components(id))
          case None => Failure(NullRevisionFile)
          case Some(f) => Success(ReadText(fs, f) == config.content)
  }

  /**
   * hasDuplicateHistory(XmlFile) as documented: true exactly when the
   * newest revision is readable and equals the current text; a revision
   * without a configuration file counts as not readable.
   */
  function HasDuplicateHistory(dao: Dao, fs: Fs, config: ConfigFile): Result<bool, Error> {
    match HistoryDir(dao.historyRoot, dao.jenkinsHome, config.path)
    case Failure(e) => Failure(BadPath(e))
    case Success(dir) =>
      match Newest(RevisionIds(fs, dir))
      case None => Success(false)
      case Some(id) =>
        if config.content.None? then Success(false)
        else match ConfigFileOf(fs, dir + Components(id))
          case None => Success(false)
          case Some(f) => Success(ReadText(fs, f) == config.content)
  }

  /** checkDuplicate(XmlFile): whether to save; the duplicate check only runs when duplicates are not saved. */
  function CheckDuplicate(dao: Dao, fs: Fs, config: ConfigFile): Result<bool, Error> {
    if dao.saveDuplicates then Success(true)
    else match HasDuplicateHistory(dao, fs, config)
      case Failure(e) => Failure(e)
      case Success(dup) => Success(!dup)
  }

  /** saveItem: a Changed revision with a copy of the configuration, unless it duplicates the newest one. */
  function SaveItem(dao: Dao, fs: Fs, config: ConfigFile, clock: seq<string>): Result<Fs, Crash> {
    match CheckDuplicate(dao, fs, config)
    case Failure(e) => Failure(Crash(e, fs))
    case Success(save) =>
      if save then CreateNewHistoryEntryAndCopyConfig(dao, fs, config, Changed, clock) else Success(fs)
  }

  /** createNewItem: a Created revision with a copy of the configuration, without duplicate check. */
  function CreateNewItem(dao: Dao, fs: Fs, config: ConfigFile, clock: seq<string>): Result<Fs, Crash> {
    CreateNewHistoryEntryAndCopyConfig(dao, fs, config, Created, clock)
  }

  /**
   * getRevisions(Node): every descriptor is read eagerly, and one that
   * cannot be read aborts the listing.
   */
  function AgentRevisions(dao: Dao, fs: Fs, agentName: string): Result<map<string, Descriptor>, Error> {
    var dir := NodeHistoryDir(dao.historyRoot, agentName);
    var ids := RevisionIds(fs, dir);
    if forall id | id in ids :: ReadDescriptor(fs, dir + [id]).Some? then
      Success(map id | id in ids :: ReadDescriptor(fs, dir + [id]).value)
    else Failure(UnreadableHistory)
  }

  /** hasDuplicateHistory(Node) as written: the newest revision without a configuration file dereferences null. */
  function HasAgentDuplicateAsWritten(dao: Dao, fs: Fs, agent: Agent): Result<bool, Error> {
    var dir := NodeHistoryDir(dao.historyRoot, agent.name);
    match AgentRevisions(dao, fs, agent.name)
    case Failure(e) => Failure(e)
    case Success(revisions) =>
      match Newest(revisions.Keys)
      case None => Success(false)
      case Some(id) =>
        match ConfigFileOf(fs, dir + Components(id))
        case None => Failure(NullRevisionFile)
        case Some(f) => Success(ReadText(fs, f) == Some(agent.xml))
  }

  /** hasDuplicateHistory(Node) as documented: a revision without a configuration file is no duplicate. */
  function HasAgentDuplicate(dao: Dao, fs: Fs, agent: Agent): Result<bool, Error> {
    var dir := NodeHistoryDir(dao.historyRoot, agent.name);
    match AgentRevisions(dao, fs, agent.name)
    case Failure(e) => Failure(e)
    case Success(revisions) =>
      match Newest(revisions.Keys)
      case None => Success(false)
      case Some(id) =>
        match ConfigFileOf(fs, dir + Components(id))
        case None => Success(false)
        case Some(f) => Success(ReadText(fs, f) == Some(agent.xml))
  }

  /** saveNode: a Changed revision of the agent, unless it duplicates the newest one. */
  function SaveNode(dao: Dao, fs: Fs, agent: Agent, clock: seq<string>): Result<Fs, Crash> {
    var save := if dao.saveDuplicates then Success(true)
      else match HasAgentDuplicate(dao, fs, agent)
        case Failure(e) => Failure(e)
        case Success(dup) => Success(!dup);
    match save
    case Failure(e) => Failure(Crash(e, fs))
    case Success(yes) =>
      if yes then NewAgentEntryAndSaveConfig(dao, fs, agent, Changed, clock) else Success(fs)
  }

  /**
   * checkDuplicate(XmlFile) and saveItem exactly as written: the written
   * duplicate check's NullPointerException escapes and nothing is saved
   * (see `Bookkeeping.FailedDeleteCrashesNextSave`).
   */
  function CheckDuplicateAsWritten(dao: Dao, fs: Fs, config: ConfigFile): Result<bool, Error> {
    if dao.saveDuplicates then Success(true)
    else match HasDuplicateHistoryAsWritten(dao, fs, config)
      case Failure(e) => Failure(e)
      case Success(dup) => Success(!dup)
  }

  function SaveItemAsWritten(dao: Dao, fs: Fs, config: ConfigFile, clock: seq<string>): Result<Fs, Crash> {
    match CheckDuplicateAsWritten(dao, fs, config)
    case Failure(e) => Failure(Crash(e, fs))
    case Success(save) =>
      if save then CreateNewHistoryEntryAndCopyConfig(dao, fs, config, Changed, clock) else Success(fs)
  }

  /** saveNode exactly as written, on top of the written agent duplicate check. */
  function SaveNodeAsWritten(dao: Dao, fs: Fs, agent: Agent, clock: seq<string>): Result<Fs, Crash> {
    var save := if dao.saveDuplicates then Success(true)
      else match HasAgentDuplicateAsWritten(dao, fs, agent)
        case Failure(e) => Failure(e)
        case Success(dup) => Success(!dup);
    match save
    case Failure(e) => Failure(Crash(e, fs))
    case Success(yes) =>
      if yes then NewAgentEntryAndSaveConfig(dao, fs, agent, Changed, clock) else Success(fs)
  }

  /** createNewNode: a Created revision of the agent. */
  function CreateNewNode(dao: Dao, fs: Fs, agent: Agent, clock: seq<string>): Result<Fs, Crash> {
    NewAgentEntryAndSaveConfig(dao, fs, agent, Created, clock)
  }

  /** getRevisions(XmlFile): the revision ids of the file's history, each with its lazily read descriptor. */
  function GetRevisions(dao: Dao, fs: Fs, configPath: string): Result<map<string, Option<Descriptor>>, PathError> {
    match HistoryDir(dao.historyRoot, dao.jenkinsHome, configPath)
    case Failure(e) => Failure(e)
    case Success(dir) => Success(Listing(fs, dir))
  }

  /** The revisions of history directory `dir`, each with its descriptor as read. */
  function Listing(fs: Fs, dir: Path): (m: map<string, Option<Descriptor>>)
    ensures forall id :: id in m <==> IsRevisionDir(fs, dir + [id])
    ensures forall id | id in m :: m[id] == ReadDescriptor(fs, dir + [id])
  {
    map id | id in RevisionIds(fs, dir) :: ReadDescriptor(fs, dir + [id])
  }

  /** getJobHistory(jobName): the revisions of a job given by its name relative to the jobs directory. */
  function GetJobHistory(dao: Dao, fs: Fs, jobName: string): map<string, Option<Descriptor>> {
    Listing(fs, dao.historyRoot + [JobsDir] + Components(jobName))
  }

  /** getSystemHistory(name): the revisions of a system configuration, kept directly under the history root. */
  function GetSystemHistory(dao: Dao, fs: Fs, name: string): map<string, Option<Descriptor>> {
    Listing(fs, dao.historyRoot + Components(name))
  }

  /** getOldRevision(XmlFile, identifier): the saved configuration of one revision, `None` for null. */
  function GetOldRevision(dao: Dao, fs: Fs, configPath: string, identifier: string): Result<Option<Path>, PathError> {
    match HistoryDir(dao.historyRoot, dao.jenkinsHome, configPath)
    case Failure(e) => Failure(e)
    case Success(dir) => Success(ConfigFileOf(fs, dir + Components(identifier)))
  }

  /** getOldRevision(String, identifier): throws IllegalArgumentException (`None`) when nothing resolves. */
  function GetOldRevisionByName(dao: Dao, fs: Fs, configFileName: string, identifier: string): Option<Path> {
    ConfigFileOf(fs, dao.historyRoot + Components(configFileName) + Components(identifier))
  }

  /** hasOldRevision(XmlFile, identifier). */
  function HasOldRevisionOf(dao: Dao, fs: Fs, configPath: string, identifier: string): Result<bool, PathError> {
    match HistoryDir(dao.historyRoot, dao.jenkinsHome, configPath)
    case Failure(e) => Failure(e)
    case Success(dir) => Success(HasOldRevision(fs, dir + Components(identifier)))
  }

  /** getOldRevision(Node, identifier): the saved configuration of one agent revision, `None` for null. */
  function GetAgentOldRevision(dao: Dao, fs: Fs, agentName: string, identifier: string): Option<Path> {
    ConfigFileOf(fs, NodeHistoryDir(dao.historyRoot, agentName) + Components(identifier))
  }

  /** hasOldRevision(Node, identifier). */
  predicate HasAgentOldRevision(dao: Dao, fs: Fs, agentName: string, identifier: string) {
    HasOldRevision(fs, NodeHistoryDir(dao.historyRoot, agentName) + Components(identifier))
  }

  // ----- lemmas -----

  /** Writing a file succeeds or fails regardless of the data, and touches only its own path and above. */
  lemma WriteFileFacts(fs: Fs, p: Path, a: Blob, b: Blob, q: Path)
    requires WriteFile(fs, p, a).Some?
    ensures WriteFile(fs, p, b).Some?
    ensures Lookup(WriteFile(fs, p, b).value, p) == Some(File(b))
    ensures !IsPrefix(p, q) && !IsPrefix(q, p) ==> Lookup(WriteFile(fs, p, b).value, q) == Lookup(fs, q)
    ensures IsPrefix(q, p) && q != p ==> IsDirAt(WriteFile(fs, p, b).value, q)
  {
    EditSucceeds(fs, p, Some(File(a)));
    EditSucceeds(fs, p, Some(File(b)));
    LookupEdit(fs, p, Some(File(b)), q);
    LookupEdit(fs, p, Some(File(b)), p);
    assert p[|p|..] == [];
    if IsPrefix(q, p) && q != p {
      assert !IsPrefix(p, q);
    }
  }

  /**
   * `after` differs from `before`, inside history directory `dir`, only by
   * the revision `id`, which is new and carries descriptor `d`.
   */
  ghost predicate FreshRevision(before: Fs, after: Fs, dir: Path, id: string, d: Descriptor) {
    && id !in RevisionIds(before, dir)
    && IsRevisionDir(after, dir + [id])
    && ReadDescriptor(after, dir + [id]) == Some(d)
    && forall k | k != id :: Lookup(after, dir + [k]) == Lookup(before, dir + [k])
  }

  /** A fresh revision adds exactly one id to the listing. */
  lemma FreshRevisionIds(before: Fs, after: Fs, dir: Path, id: string, d: Descriptor)
    requires FreshRevision(before, after, dir, id, d)
    ensures RevisionIds(after, dir) == RevisionIds(before, dir) + {id}
  {
    forall k | k != id
      ensures k in RevisionIds(after, dir) <==> k in RevisionIds(before, dir)
    {
      SameEntry(after, before, dir + [k]);
    }
  }

  lemma {:induction false} EmptyDirLookup(fs: Fs, p: Path, k: string)
    requires Lookup(fs, p) == Some(Dir(map[]))
    ensures Lookup(fs, p + [k]) == None
  {
    LookupAppend(fs, p, [k]);
    var empty: Fs := Dir(map[]);
    LookupStep(empty, k, []);
  }

  /**
   * Allocation: the sample taken is the first one whose directory does not
   * exist, so it names no revision yet; only its own entry changes.
   */
  lemma AllocationFresh(fs: Fs, dir: Path, clock: seq<string>, k: string)
    requires CreateNewHistoryDir(fs, dir, clock).Success?
    ensures var e := CreateNewHistoryDir(fs, dir, clock).value;
      && e.rev == dir + [e.rev[|dir|]]
      && e.rev[|dir|] !in RevisionIds(fs, dir)
      && (exists i | 0 <= i < |clock| :: clock[i] == e.rev[|dir|] && forall j | 0 <= j < i :: clock[j] in RevisionIds(fs, dir) || IsDirAt(fs, dir + [clock[j]]))
      && (k != e.rev[|dir|] ==> Lookup(e.fs, dir + [k]) == Lookup(fs, dir + [k]))
      && (IsDirAt(e.fs, e.rev) ==> Lookup(e.fs, e.rev) == Some(Dir(map[])))
  {
    var e := CreateNewHistoryDir(fs, dir, clock).value;
    var i := FirstFree(fs, dir, clock).value;
    assert e.rev == dir + [clock[i]];
    if !Exists(fs, e.rev) {
      MkDirsFacts(fs, e.rev, dir + [k]);
      MkDirsFacts(fs, e.rev, e.rev);
      if k != clock[i] {
        SiblingsUnrelated(dir, clock[i], k);
      }
    }
  }

  /**
   * A new entry: within the (purged) history directory exactly one
   * revision appears, named by the first free clock sample, holding only
   * `history.xml` with the operation, the user and the directory's own name
   * as timestamp; nothing outside the history directory changes.
   */
  lemma NewEntryFacts(dao: Dao, fs: Fs, dir: Path, op: Operation, clock: seq<string>, q: Path)
    requires NewEntryIn(dao, fs, dir, op, clock).Success?
    ensures var e := NewEntryIn(dao, fs, dir, op, clock).value;
      var purged := PurgeOldEntries(fs, dir, dao.maxHistoryEntries);
      var id := e.rev[|dir|];
      && e.rev == dir + [id] && id in clock
      && FreshRevision(purged, e.fs, dir, id, MakeDescriptor(dao.user, op, id))
      && ChildNames(e.fs, e.rev) == {HistoryFile}
      && (!IsPrefix(dir, q) && !IsPrefix(q, dir) ==> Lookup(e.fs, q) == Lookup(fs, q))
  {
    var purged := PurgeOldEntries(fs, dir, dao.maxHistoryEntries);
    var a := CreateNewHistoryDir(purged, dir, clock).value;
    var rev := a.rev;
    var id := rev[|dir|];
    var d := MakeDescriptor(dao.user, op, id);
    var h := rev + [HistoryFile];
    assert rev == dir + [id] by { AllocationFresh(purged, dir, clock, id); }
    assert rev[|rev| - 1] == id;
    var fs2 := WriteFile(a.fs, h, Descr(d)).value;
    assert NewEntryIn(dao, fs, dir, op, clock).value == Entry(fs2, rev);
    EditSucceeds(a.fs, h, Some(File(Descr(d))));
    assert Parent(h) == rev;
    assert Lookup(a.fs, rev) == Some(Dir(map[])) by {
      AllocationFresh(purged, dir, clock, id);
    }
    WriteFileFacts(a.fs, h, Descr(d), Descr(d), h);
    ChildNamesLookup(fs2, rev, HistoryFile);
    forall k | k != HistoryFile
      ensures !Exists(fs2, rev + [k])
    {
      SiblingsUnrelated(rev, HistoryFile, k);
      WriteFileFacts(a.fs, h, Descr(d), Descr(d), rev + [k]);
      EmptyDirLookup(a.fs, rev, k);
    }
    forall k | k in ChildNames(fs2, rev)
      ensures k == HistoryFile
    {
      ChildNamesLookup(fs2, rev, k);
    }
    forall k | k != id
      ensures Lookup(fs2, dir + [k]) == Lookup(purged, dir + [k])
    {
      AllocationFresh(purged, dir, clock, k);
      ChildPrefix(dir, id, dir + [k]);
      ChildPrefix(rev, HistoryFile, dir + [k]);
      SiblingsUnrelated(dir, id, k);
      WriteFileFacts(a.fs, h, Descr(d), Descr(d), dir + [k]);
    }
    AllocationFresh(purged, dir, clock, id);
    if !IsPrefix(dir, q) && !IsPrefix(q, dir) {
      PurgeOutside(fs, dir, dao.maxHistoryEntries, q);
      ChildPrefix(dir, id, q);
      ChildPrefix(rev, HistoryFile, q);
      if !Exists(purged, rev) {
        MkDirsFacts(purged, rev, q);
      }
      WriteFileFacts(a.fs, h, Descr(d), Descr(d), q);
    }
  }

  /** A new entry changes nothing outside its history directory. */
  lemma NewEntryOutside(dao: Dao, fs: Fs, dir: Path, op: Operation, clock: seq<string>)
    requires NewEntryIn(dao, fs, dir, op, clock).Success?
    ensures SameOutside(fs, NewEntryIn(dao, fs, dir, op, clock).value.fs, dir)
  {
    forall q | !IsPrefix(dir, q) && !IsPrefix(q, dir)
      ensures Lookup(NewEntryIn(dao, fs, dir, op, clock).value.fs, q) == Lookup(fs, q)
    {
      NewEntryFacts(dao, fs, dir, op, clock, q);
    }
  }

  /** Copying the configuration into a new revision keeps it fresh and adds just the copy. */
  lemma CopyKeepsFresh(before: Fs, fs1: Fs, dir: Path, id: string, d: Descriptor, config: ConfigFile)
    requires FreshRevision(before, fs1, dir, id, d) && ChildNames(fs1, dir + [id]) == {HistoryFile}
    requires NameOf(config.path) != HistoryFile
    requires CopyConfigFile(fs1, dir + [id], config).Success?
    ensures var fs2 := CopyConfigFile(fs1, dir + [id], config).value;
      var name := NameOf(config.path);
      && FreshRevision(before, fs2, dir, id, d)
      && ChildNames(fs2, dir + [id]) == {HistoryFile, name}
      && ReadText(fs2, dir + [id] + [name]) == config.content
      && SameOutside(fs1, fs2, dir)
  {
    var rev := dir + [id];
    var name := NameOf(config.path);
    var text := config.content.value;
    if name == "" {
      assert rev + Seg(name) == rev;
      assert IsDirAt(fs1, rev) by { ChildNamesLookup(fs1, rev, HistoryFile); }
      assert false;
    }
    var target := rev + [name];
    assert rev + Seg(name) == target;
    WriteFileFacts(fs1, target, Text(""), Text(text), target);
    var fs2 := WriteFile(fs1, target, Text(text)).value;
    assert CopyConfigFile(fs1, rev, config).value == fs2;
    forall k | k != id
      ensures Lookup(fs2, dir + [k]) == Lookup(fs1, dir + [k])
    {
      SiblingsUnrelated(dir, id, k);
      ChildPrefix(rev, name, dir + [k]);
      WriteFileFacts(fs1, target, Text(""), Text(text), dir + [k]);
    }
    SiblingsUnrelated(rev, name, HistoryFile);
    WriteFileFacts(fs1, target, Text(""), Text(text), rev + [HistoryFile]);
    forall q | !IsPrefix(dir, q) && !IsPrefix(q, dir)
      ensures Lookup(fs2, q) == Lookup(fs1, q)
    {
      InsideUnrelated(dir, [id, name], q);
      assert dir + [id, name] == target;
      WriteFileFacts(fs1, target, Text(""), Text(text), q);
    }
    ChildNamesLookup(fs1, rev, HistoryFile);
    ChildNamesLookup(fs2, rev, HistoryFile);
    assert ReadDescriptor(fs2, rev) == ReadDescriptor(fs1, rev);
    ChildNamesLookup(fs2, rev, name);
    forall k | k != HistoryFile && k != name
      ensures k !in ChildNames(fs2, rev)
    {
      SiblingsUnrelated(rev, name, k);
      WriteFileFacts(fs1, target, Text(""), Text(text), rev + [k]);
      ChildNamesLookup(fs1, rev, k);
      ChildNamesLookup(fs2, rev, k);
    }
  }

  /**
   * createNewHistoryEntryAndCopyConfig: a success adds exactly one revision
   * to the purged history, named by a clock sample, holding the descriptor
   * of `op` and a copy of the configuration text; nothing outside the
   * history directory changes.
   */
  lemma EntryWithCopy(dao: Dao, fs: Fs, config: ConfigFile, op: Operation, clock: seq<string>)
    requires NameOf(config.path) != HistoryFile
    requires CreateNewHistoryEntryAndCopyConfig(dao, fs, config, op, clock).Success?
    ensures HistoryDir(dao.historyRoot, dao.jenkinsHome, config.path).Success? && config.content.Some?
    ensures var dir := HistoryDir(dao.historyRoot, dao.jenkinsHome, config.path).value;
      var after := CreateNewHistoryEntryAndCopyConfig(dao, fs, config, op, clock).value;
      && SameOutside(fs, after, dir)
      && exists id | id in clock ::
        && FreshRevision(PurgeOldEntries(fs, dir, dao.maxHistoryEntries), after, dir, id, MakeDescriptor(dao.user, op, id))
        && ChildNames(after, dir + [id]) == {HistoryFile, NameOf(config.path)}
        && ReadText(after, dir + [id] + [NameOf(config.path)]) == config.content
  {
    var dir := HistoryDir(dao.historyRoot, dao.jenkinsHome, config.path).value;
    var e := NewEntryIn(dao, fs, dir, op, clock).value;
    NewEntryFacts(dao, fs, dir, op, clock, []);
    NewEntryOutside(dao, fs, dir, op, clock);
    var id := e.rev[|dir|];
    CopyKeepsFresh(PurgeOldEntries(fs, dir, dao.maxHistoryEntries), e.fs, dir, id, MakeDescriptor(dao.user, op, id), config);
  }

  /**
   * The documented duplicate check departs from the written one only where
   * the written one dereferences a revision without configuration file:
   * there the source throws and the documented check answers "no duplicate".
   */
  lemma DuplicateChecksAgree(dao: Dao, fs: Fs, config: ConfigFile)
    ensures HasDuplicateHistoryAsWritten(dao, fs, config) != Failure(NullRevisionFile) ==>
      HasDuplicateHistory(dao, fs, config) == HasDuplicateHistoryAsWritten(dao, fs, config)
    ensures HasDuplicateHistoryAsWritten(dao, fs, config) == Failure(NullRevisionFile) ==>
      HasDuplicateHistory(dao, fs, config) == Success(false)
  {
  }

  /**
   * saveItem against saveItem as written: the same outcome, except where the
   * written duplicate check throws; there the source crashes leaving the
   * tree as it was, while the model saves a Changed revision.
   */
  lemma SaveItemAsWrittenDeparts(dao: Dao, fs: Fs, config: ConfigFile, clock: seq<string>)
    ensures dao.saveDuplicates || HasDuplicateHistoryAsWritten(dao, fs, config) != Failure(NullRevisionFile) ==>
      SaveItemAsWritten(dao, fs, config, clock) == SaveItem(dao, fs, config, clock)
    ensures !dao.saveDuplicates && HasDuplicateHistoryAsWritten(dao, fs, config) == Failure(NullRevisionFile) ==>
      && SaveItemAsWritten(dao, fs, config, clock) == Failure(Crash(NullRevisionFile, fs))
      && SaveItem(dao, fs, config, clock) == CreateNewHistoryEntryAndCopyConfig(dao, fs, config, Changed, clock)
  {
    DuplicateChecksAgree(dao, fs, config);
  }

  /** The same for agents: the documented check answers "no duplicate" where the written one throws. */
  lemma AgentDuplicateChecksAgree(dao: Dao, fs: Fs, agent: Agent)
    ensures HasAgentDuplicateAsWritten(dao, fs, agent) != Failure(NullRevisionFile) ==>
      HasAgentDuplicate(dao, fs, agent) == HasAgentDuplicateAsWritten(dao, fs, agent)
    ensures HasAgentDuplicateAsWritten(dao, fs, agent) == Failure(NullRevisionFile) ==>
      HasAgentDuplicate(dao, fs, agent) == Success(false)
  {
  }

  /** saveNode against saveNode as written: they part only where the written check throws. */
  lemma SaveNodeAsWrittenDeparts(dao: Dao, fs: Fs, agent: Agent, clock: seq<string>)
    ensures dao.saveDuplicates || HasAgentDuplicateAsWritten(dao, fs, agent) != Failure(NullRevisionFile) ==>
      SaveNodeAsWritten(dao, fs, agent, clock) == SaveNode(dao, fs, agent, clock)
    ensures !dao.saveDuplicates && HasAgentDuplicateAsWritten(dao, fs, agent) == Failure(NullRevisionFile) ==>
      && SaveNodeAsWritten(dao, fs, agent, clock) == Failure(Crash(NullRevisionFile, fs))
      && SaveNode(dao, fs, agent, clock) == NewAgentEntryAndSaveConfig(dao, fs, agent, Changed, clock)
  {
    AgentDuplicateChecksAgree(dao, fs, agent);
  }

  /**
   * saveItem: when the duplicate check says to skip, the tree is
   * unchanged; otherwise a successful save adds exactly one revision, a
   * Changed one, holding a copy of the configuration text.
   */
  lemma SaveItemOutcome(dao: Dao, fs: Fs, config: ConfigFile, clock: seq<string>)
    requires NameOf(config.path) != HistoryFile
    ensures CheckDuplicate(dao, fs, config) == Success(false) ==> SaveItem(dao, fs, config, clock) == Success(fs)
    ensures SaveItem(dao, fs, config, clock).Success? && CheckDuplicate(dao, fs, config) == Success(true) ==>
      && HistoryDir(dao.historyRoot, dao.jenkinsHome, config.path).Success?
      && config.content.Some?
      && var dir := HistoryDir(dao.historyRoot, dao.jenkinsHome, config.path).value;
         var after := SaveItem(dao, fs, config, clock).value;
         && SameOutside(fs, after, dir)
         && exists id | id in clock ::
           && FreshRevision(PurgeOldEntries(fs, dir, dao.maxHistoryEntries), after, dir, id, MakeDescriptor(dao.user, Changed, id))
           && ChildNames(after, dir + [id]) == {HistoryFile, NameOf(config.path)}
           && ReadText(after, dir + [id] + [NameOf(config.path)]) == config.content
  {
    if SaveItem(dao, fs, config, clock).Success? && CheckDuplicate(dao, fs, config) == Success(true) {
      EntryWithCopy(dao, fs, config, Changed, clock);
    }
  }

  /**
   * Saving and reading back: after a successful createNewHistoryEntryAndCopyConfig
   * getRevisions lists the purged revisions plus the new one with its
   * descriptor, and getOldRevision of the new id resolves to the copy,
   * which holds the configuration text.
   */
  lemma SavedRevisionReadsBack(dao: Dao, fs: Fs, config: ConfigFile, op: Operation, clock: seq<string>)
    requires IsConfigName(NameOf(config.path))
    requires forall i | 0 <= i < |clock| :: clock[i] != "" && '/' !in clock[i]
    requires CreateNewHistoryEntryAndCopyConfig(dao, fs, config, op, clock).Success?
    ensures HistoryDir(dao.historyRoot, dao.jenkinsHome, config.path).Success?
    ensures var dir := HistoryDir(dao.historyRoot, dao.jenkinsHome, config.path).value;
      var purged := PurgeOldEntries(fs, dir, dao.maxHistoryEntries);
      var after := CreateNewHistoryEntryAndCopyConfig(dao, fs, config, op, clock).value;
      exists id | id in clock ::
        && GetRevisions(dao, after, config.path) ==
           Success(GetRevisions(dao, purged, config.path).value[id := Some(MakeDescriptor(dao.user, op, id))])
        && id !in GetRevisions(dao, purged, config.path).value
        && GetOldRevision(dao, after, config.path, id) == Success(Some(dir + [id] + [NameOf(config.path)]))
        && ReadText(after, dir + [id] + [NameOf(config.path)]) == config.content
        && HasOldRevisionOf(dao, after, config.path, id) == Success(true)
  {
    var name := NameOf(config.path);
    EntryWithCopy(dao, fs, config, op, clock);
    var dir := HistoryDir(dao.historyRoot, dao.jenkinsHome, config.path).value;
    var purged := PurgeOldEntries(fs, dir, dao.maxHistoryEntries);
    var after := CreateNewHistoryEntryAndCopyConfig(dao, fs, config, op, clock).value;
    var id :| id in clock
      && FreshRevision(purged, after, dir, id, MakeDescriptor(dao.user, op, id))
      && ChildNames(after, dir + [id]) == {HistoryFile, name}
      && ReadText(after, dir + [id] + [name]) == config.content;
    SavedRevisionAt(dao, purged, after, config.path, id, MakeDescriptor(dao.user, op, id));
  }

  /** The read-back of SavedRevisionReadsBack for one fresh revision `id`. */
  lemma SavedRevisionAt(dao: Dao, purged: Fs, after: Fs, path: string, id: string, d: Descriptor)
    requires id != "" && '/' !in id && IsConfigName(NameOf(path))
    requires HistoryDir(dao.historyRoot, dao.jenkinsHome, path).Success?
    requires var dir := HistoryDir(dao.historyRoot, dao.jenkinsHome, path).value;
      && FreshRevision(purged, after, dir, id, d)
      && ChildNames(after, dir + [id]) == {HistoryFile, NameOf(path)}
    ensures var dir := HistoryDir(dao.historyRoot, dao.jenkinsHome, path).value;
      && GetRevisions(dao, after, path) == Success(GetRevisions(dao, purged, path).value[id := Some(d)])
      && id !in GetRevisions(dao, purged, path).value
      && GetOldRevision(dao, after, path, id) == Success(Some(dir + [id] + [NameOf(path)]))
      && HasOldRevisionOf(dao, after, path, id) == Success(true)
  {
    var dir := HistoryDir(dao.historyRoot, dao.jenkinsHome, path).value;
    var name := NameOf(path);
    PlainNameComponents(id);
    FreshListing(purged, after, dir, id, d);
    RevisionWithCopy(after, dir + [id], name);
    assert GetRevisions(dao, after, path) == Success(Listing(after, dir));
    assert GetRevisions(dao, purged, path) == Success(Listing(purged, dir));
    assert GetOldRevision(dao, after, path, id) == Success(Some(dir + [id] + [name]));
  }

  /** A revision holding its descriptor and one copy resolves to that copy. */
  lemma RevisionWithCopy(fs: Fs, rev: Path, name: string)
    requires IsRevisionDir(fs, rev) && ChildNames(fs, rev) == {HistoryFile, name} && IsConfigName(name)
    ensures ConfigFileOf(fs, rev) == Some(rev + [name])
  {
    SingleConfigFile(fs, rev, name);
  }

  /** A fresh revision adds exactly its own line to the listing. */
  lemma FreshListing(before: Fs, after: Fs, dir: Path, id: string, d: Descriptor)
    requires FreshRevision(before, after, dir, id, d)
    ensures id !in Listing(before, dir)
    ensures Listing(after, dir) == Listing(before, dir)[id := Some(d)]
  {
    FreshRevisionIds(before, after, dir, id, d);
    var m := Listing(before, dir);
    var m1 := Listing(after, dir);
    forall k | k in m1 && k != id
      ensures m1[k] == m[k]
    {
      SameEntry(after, before, dir + [k]);
    }
    assert m1 == m[id := Some(d)];
  }

  /** `config.xml` is a plain name that getConfigFile takes for a configuration. */
  lemma AgentConfigNamePlain()
    ensures NameOf(AgentConfigName) == AgentConfigName
    ensures IsConfigName(AgentConfigName)
  {
    assert forall j | 0 <= j < |AgentConfigName| :: AgentConfigName[j] != '/';
    assert AgentConfigName[|AgentConfigName| - 4..] == ".xml";
  }

  /**
   * createNewHistoryEntryAndSaveConfig: a success adds exactly one revision
   * to the purged agent history, holding the descriptor of `op` and the
   * agent's XML in `config.xml`.
   */
  lemma AgentEntryWithConfig(dao: Dao, fs: Fs, agent: Agent, op: Operation, clock: seq<string>)
    requires NewAgentEntryAndSaveConfig(dao, fs, agent, op, clock).Success?
    ensures var dir := NodeHistoryDir(dao.historyRoot, agent.name);
      var after := NewAgentEntryAndSaveConfig(dao, fs, agent, op, clock).value;
      && SameOutside(fs, after, dir)
      && exists id | id in clock ::
        && FreshRevision(PurgeOldEntries(fs, dir, dao.maxHistoryEntries), after, dir, id, MakeDescriptor(dao.user, op, id))
        && ChildNames(after, dir + [id]) == {HistoryFile, AgentConfigName}
        && ReadText(after, dir + [id] + [AgentConfigName]) == Some(agent.xml)
  {
    var dir := NodeHistoryDir(dao.historyRoot, agent.name);
    var e := NewEntryIn(dao, fs, dir, op, clock).value;
    NewEntryFacts(dao, fs, dir, op, clock, []);
    NewEntryOutside(dao, fs, dir, op, clock);
    var id := e.rev[|dir|];
    var config := ConfigFile(AgentConfigName, Some(agent.xml));
    AgentConfigNamePlain();
    assert Seg(AgentConfigName) == [AgentConfigName];
    WriteFileFacts(e.fs, e.rev + [AgentConfigName], Text(agent.xml), Text(""), e.rev + [AgentConfigName]);
    assert CopyConfigFile(e.fs, e.rev, config) == Success(NewAgentEntryAndSaveConfig(dao, fs, agent, op, clock).value);
    CopyKeepsFresh(PurgeOldEntries(fs, dir, dao.maxHistoryEntries), e.fs, dir, id, MakeDescriptor(dao.user, op, id), config);
  }

  /**
   * Saving an agent and reading it back: the listing gains the new
   * revision with its descriptor, and getOldRevision of the new id resolves
   * to `config.xml`, which holds the agent's XML.
   */
  lemma AgentRevisionReadsBack(dao: Dao, fs: Fs, agent: Agent, op: Operation, clock: seq<string>)
    requires forall i | 0 <= i < |clock| :: clock[i] != "" && '/' !in clock[i]
    requires NewAgentEntryAndSaveConfig(dao, fs, agent, op, clock).Success?
    ensures var dir := NodeHistoryDir(dao.historyRoot, agent.name);
      var purged := PurgeOldEntries(fs, dir, dao.maxHistoryEntries);
      var after := NewAgentEntryAndSaveConfig(dao, fs, agent, op, clock).value;
      exists id | id in clock ::
        && id !in Listing(purged, dir)
        && Listing(after, dir) == Listing(purged, dir)[id := Some(MakeDescriptor(dao.user, op, id))]
        && GetAgentOldRevision(dao, after, agent.name, id) == Some(dir + [id] + [AgentConfigName])
        && ReadText(after, dir + [id] + [AgentConfigName]) == Some(agent.xml)
        && HasAgentOldRevision(dao, after, agent.name, id)
  {
    var dir := NodeHistoryDir(dao.historyRoot, agent.name);
    var purged := PurgeOldEntries(fs, dir, dao.maxHistoryEntries);
    var after := NewAgentEntryAndSaveConfig(dao, fs, agent, op, clock).value;
    AgentEntryWithConfig(dao, fs, agent, op, clock);
    var id :| id in clock
      && FreshRevision(purged, after, dir, id, MakeDescriptor(dao.user, op, id))
      && ChildNames(after, dir + [id]) == {HistoryFile, AgentConfigName}
      && ReadText(after, dir + [id] + [AgentConfigName]) == Some(agent.xml);
    AgentRevisionAt(dao, purged, after, agent, id, MakeDescriptor(dao.user, op, id));
  }

  /** The read-back of AgentRevisionReadsBack for one fresh revision `id`. */
  lemma AgentRevisionAt(dao: Dao, purged: Fs, after: Fs, agent: Agent, id: string, d: Descriptor)
    requires id != "" && '/' !in id
    requires var dir := NodeHistoryDir(dao.historyRoot, agent.name);
      && FreshRevision(purged, after, dir, id, d)
      && ChildNames(after, dir + [id]) == {HistoryFile, AgentConfigName}
    ensures var dir := NodeHistoryDir(dao.historyRoot, agent.name);
      && id !in Listing(purged, dir)
      && Listing(after, dir) == Listing(purged, dir)[id := Some(d)]
      && GetAgentOldRevision(dao, after, agent.name, id) == Some(dir + [id] + [AgentConfigName])
      && HasAgentOldRevision(dao, after, agent.name, id)
  {
    var dir := NodeHistoryDir(dao.historyRoot, agent.name);
    PlainNameComponents(id);
    FreshListing(purged, after, dir, id, d);
    AgentConfigNamePlain();
    RevisionWithCopy(after, dir + [id], AgentConfigName);
  }

  /**
   * saveNode: a duplicate of the newest revision leaves the tree as it
   * was when duplicates are suppressed; otherwise a success adds one
   * Changed revision holding the agent's XML.
   */
  lemma SaveNodeOutcome(dao: Dao, fs: Fs, agent: Agent, clock: seq<string>)
    ensures !dao.saveDuplicates && HasAgentDuplicate(dao, fs, agent) == Success(true) ==>
      SaveNode(dao, fs, agent, clock) == Success(fs)
    ensures SaveNode(dao, fs, agent, clock).Success? && (dao.saveDuplicates || HasAgentDuplicate(dao, fs, agent) == Success(false)) ==>
      var dir := NodeHistoryDir(dao.historyRoot, agent.name);
      var after := SaveNode(dao, fs, agent, clock).value;
      && SameOutside(fs, after, dir)
      && exists id | id in clock ::
        && FreshRevision(PurgeOldEntries(fs, dir, dao.maxHistoryEntries), after, dir, id, MakeDescriptor(dao.user, Changed, id))
        && ReadText(after, dir + [id] + [AgentConfigName]) == Some(agent.xml)
  {
    if SaveNode(dao, fs, agent, clock).Success? && (dao.saveDuplicates || HasAgentDuplicate(dao, fs, agent) == Success(false)) {
      AgentEntryWithConfig(dao, fs, agent, Changed, clock);
    }
  }

  /** The newest id is the one every other id sorts before. */
  lemma NewestIs(ids: set<string>, id: string)
    requires id in ids && forall k | k in ids && k != id :: Less(k, id)
    ensures Newest(ids) == Some(id)
  {
    var n := Newest(ids).value;
    if n != id {
      Asymmetric(n, id);
    }
  }

  /**
   * Duplicate suppression: right after a successful save, saving the same
   * text again with duplicates suppressed changes nothing, provided the
   * clock runs ahead of the existing revision ids and the configuration
   * file has an `.xml` name.
   */
  lemma SaveTwiceIsSkipped(dao: Dao, fs: Fs, config: ConfigFile, clock: seq<string>, dir: Path, clock2: seq<string>)
    requires HistoryDir(dao.historyRoot, dao.jenkinsHome, config.path) == Success(dir)
    requires IsConfigName(NameOf(config.path))
    requires forall i | 0 <= i < |clock| :: clock[i] != "" && '/' !in clock[i]
    requires forall i, k | 0 <= i < |clock| && k in RevisionIds(fs, dir) :: Less(k, clock[i])
    requires CheckDuplicate(dao, fs, config) == Success(true) && SaveItem(dao, fs, config, clock).Success?
    ensures var after := SaveItem(dao, fs, config, clock).value;
      SaveItem(dao.(saveDuplicates := false), after, config, clock2) == Success(after)
  {
    var after := SaveItem(dao, fs, config, clock).value;
    var name := NameOf(config.path);
    var purged := PurgeOldEntries(fs, dir, dao.maxHistoryEntries);
    SaveItemOutcome(dao, fs, config, clock);
    var id :| id in clock
      && FreshRevision(purged, after, dir, id, MakeDescriptor(dao.user, Changed, id))
      && ChildNames(after, dir + [id]) == {HistoryFile, name}
      && ReadText(after, dir + [id] + [name]) == config.content;
    FreshRevisionIds(purged, after, dir, id, MakeDescriptor(dao.user, Changed, id));
    forall k | k in RevisionIds(after, dir) && k != id
      ensures Less(k, id)
    {
      PurgeAddsNothing(fs, dir, dao.maxHistoryEntries, k);
    }
    assert IsRevisionDir(after, dir + [id]);
    SkippedWhenNewestMatches(dao, after, config, dir, id, clock2);
  }

  /** The duplicate check finds the newest revision holding exactly the current text, so the save is skipped. */
  lemma SkippedWhenNewestMatches(dao: Dao, fs: Fs, config: ConfigFile, dir: Path, id: string, clock: seq<string>)
    requires HistoryDir(dao.historyRoot, dao.jenkinsHome, config.path) == Success(dir)
    requires IsConfigName(NameOf(config.path)) && config.content.Some?
    requires id != "" && '/' !in id
    requires IsRevisionDir(fs, dir + [id]) && ChildNames(fs, dir + [id]) == {HistoryFile, NameOf(config.path)}
    requires ReadText(fs, dir + [id] + [NameOf(config.path)]) == config.content
    requires forall k | k in RevisionIds(fs, dir) && k != id :: Less(k, id)
    ensures SaveItem(dao.(saveDuplicates := false), fs, config, clock) == Success(fs)
  {
    NewestIs(RevisionIds(fs, dir), id);
    PlainNameComponents(id);
    SingleConfigFile(fs, dir + [id], NameOf(config.path));
    assert HasDuplicateHistory(dao.(saveDuplicates := false), fs, config) == Success(true);
  }

  /** The revision `rev` resolves to a configuration file holding exactly `content`. */
  predicate HoldsText(fs: Fs, rev: Path, content: Option<string>) {
    content.Some? && ConfigFileOf(fs, rev).Some? && ReadText(fs, ConfigFileOf(fs, rev).value) == content
  }

  /**
   * hasDuplicateHistory(XmlFile): never a duplicate without revisions;
   * otherwise a duplicate exactly when the greatest revision id, and no
   * other, holds the current text.
   */
  lemma DuplicateIffNewestMatches(dao: Dao, fs: Fs, config: ConfigFile, dir: Path)
    requires HistoryDir(dao.historyRoot, dao.jenkinsHome, config.path) == Success(dir)
    ensures HasDuplicateHistory(dao, fs, config).Success?
    ensures RevisionIds(fs, dir) == {} ==> HasDuplicateHistory(dao, fs, config) == Success(false)
    ensures HasDuplicateHistory(dao, fs, config) == Success(true) <==>
      exists id | id in RevisionIds(fs, dir) && IsMax(id, RevisionIds(fs, dir)) :: HoldsText(fs, dir + Components(id), config.content)
  {
    var ids := RevisionIds(fs, dir);
    if ids != {} {
      var n := Newest(ids).value;
      assert IsMax(n, ids);
      forall id | id in ids && IsMax(id, ids)
        ensures id == n
      {
        MaxUnique(ids);
      }
    }
  }

  /** getJobHistory(rel) lists the same revisions as getRevisions of any configuration file of the job in $JENKINS_HOME/jobs/rel. */
  lemma JobHistoryIsRevisions(dao: Dao, fs: Fs, rel: string, file: string)
    requires '/' !in file
    ensures GetRevisions(dao, fs, dao.jenkinsHome + "/" + JobsDir + "/" + rel + "/" + file) == Success(GetJobHistory(dao, fs, rel))
  {
    JobConfigMapsUnderJobs(dao.historyRoot, dao.jenkinsHome, rel, file);
  }

  /** getSystemHistory(name) lists the same revisions as getRevisions of the system configuration `name` + extension in $JENKINS_HOME. */
  lemma SystemHistoryIsRevisions(dao: Dao, fs: Fs, name: string, ext: string)
    requires dao.jenkinsHome != "" && '/' !in name && '/' !in ext && '.' !in ext
    ensures GetRevisions(dao, fs, dao.jenkinsHome + "/" + (name + "." + ext)) == Success(GetSystemHistory(dao, fs, name))
  {
    ExtensionDot(name, ext);
    SystemConfigMapsUnderRoot(dao.historyRoot, dao.jenkinsHome, name + "." + ext);
  }

  /** The last dot of `name.ext` is the one before the extension. */
  lemma ExtensionDot(name: string, ext: string)
    requires '/' !in name && '/' !in ext && '.' !in ext
    ensures '/' !in name + "." + ext
    ensures LastIndexOf(name + "." + ext, '.') == |name| && (name + "." + ext)[..|name|] == name
  {
    var front := name + ".";
    assert LastIndexOf(ext, '.') == -1;
    LastIndexOfAppend(front, ext, '.');
    assert LastIndexOf(".", '.') == 0;
    LastIndexOfAppend(name, ".", '.');
    assert (front + ext)[..|name|] == name by {
      assert forall j | 0 <= j < |name| :: (front + ext)[j] == name[j];
    }
  }
}

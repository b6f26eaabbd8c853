# Job Configuration History: the file-backed history store

A Dafny model of the file-based history store of the Jenkins *Job
Configuration History* plugin. The store keeps every saved version of a job,
system or agent configuration in a timestamped revision directory on disk.
The model covers:

- **FileHistoryDao**:
  - where a configuration's history lives: `getHistoryDir`, the jobs and nodes roots;
  - how a revision is created: a clock-driven directory allocation, `history.xml` holding the
    descriptor, and a copy of the configuration;
  - how old revisions are purged;
  - how the duplicate check decides whether to save;
  - how the history is read back: `getRevisions`, `getOldRevision`, `hasOldRevision`,
    `getJobHistory` and `getSystemHistory`;
  - how a deleted or renamed item's history is moved aside or merged.
- **PluginUtils**: parsing the plugin settings (`Integer.valueOf` of the
  maximum number of entries) into a configured DAO.
- **JobConfigHistorySaveableListener**: the `isSaveable` → `saveItem` gate of
  `onChange`, the choice of an anonymous DAO while Jenkins starts up, and the
  recursive `copyFolder`.

The disk is a tree `FileTree.Node<Blob> = File(data) | Dir(children)`. Every
operation is a pure function from one tree to the next, and exceptions come
back as `Result` failures. The wall clock becomes a parameter: a sequence of
sampled timestamp identifiers. Whether `File#renameTo` or a recursive copy
succeeds is also a boolean parameter.

Modules follow the program's structure:

| module | file | role |
|---|---|---|
| `Options` | options.dfy | `Option` / `Result` |
| `LexOrder` | lexorder.dfy | `String.compareTo` order, maximum, descending listing |
| `FileTree` | filetree.dfy | the disk: lookup, edit, `mkdirs`, write |
| `HistoryPaths` | historypaths.dfy | `java.io.File` path text and `getHistoryDir` |
| `Revisions` | revisions.dfy | revision directories, `history.xml`, `getConfigFile`, `isCreatedEntry`, `deleteDirectory`, `getJobs` |
| `Purge` | purge.dfy | `purgeOldEntries` |
| `HistoryDao` | historydao.dfy | creating, saving and reading revisions; duplicate check |
| `Bookkeeping` | bookkeeping.dfy | `deleteItem`, `deleteNode`, `renameItem`, `renameNode` |
| `PluginUtils` | pluginutils.dfy | `Integer.valueOf`, `createFor` |
| `SaveableListener` | saveablelistener.dfy | `onChange`, `getHistoryDao`, `copyFolder` |

## Model

| member | source | states |
|---|---|---|
| LexOrder.Transitive | jobConfigHistory-plugin/src/main/java/hudson/plugins/jobConfigHistory/FileHistoryDao.java:528-529 | the string order used to sort revision identifiers is transitive |
| LexOrder.Connected | jobConfigHistory-plugin/src/main/java/hudson/plugins/jobConfigHistory/FileHistoryDao.java:528-529 | any two distinct identifiers are ordered one way or the other, so sorting is well defined |
| LexOrder.MaxUnique | jobConfigHistory-plugin/src/main/java/hudson/plugins/jobConfigHistory/FileHistoryDao.java:620-622 | a set of identifiers has at most one greatest element, so "the newest revision" is unique |
| LexOrder.Descending | jobConfigHistory-plugin/src/main/java/hudson/plugins/jobConfigHistory/FileHistoryDao.java:526-529 | sorting in reverse order yields each identifier of the set exactly once, strictly decreasing |
| LexOrder.DescendingRank | jobConfigHistory-plugin/src/main/java/hudson/plugins/jobConfigHistory/FileHistoryDao.java:528-530 | the identifier at position i of the reverse-sorted listing has exactly i newer identifiers |
| FileTree.EditSucceeds | jobConfigHistory-plugin/src/main/java/hudson/plugins/jobConfigHistory/FileHistoryDao.java:180-195 | creating or removing an entry succeeds exactly when its parent is an existing directory |
| FileTree.LookupEdit | jobConfigHistory-plugin/src/main/java/hudson/plugins/jobConfigHistory/FileHistoryDao.java:180-195 | after an edit the edited subtree holds the new node, its ancestors are directories, and every unrelated path is unchanged |
| FileTree.MkDirsFacts | jobConfigHistory-plugin/src/main/java/hudson/plugins/jobConfigHistory/FileHistoryDao.java:233-235 | `mkdirs` leaves an existing directory alone, creates an empty one otherwise, makes every ancestor a directory and touches nothing else |
| HistoryPaths.LastIndexOf | jobConfigHistory-plugin/src/main/java/hudson/plugins/jobConfigHistory/FileHistoryDao.java:483-484 | `lastIndexOf` returns the last position holding the character, or -1 exactly when it does not occur |
| HistoryPaths.HistoryDir | jobConfigHistory-plugin/src/main/java/hudson/plugins/jobConfigHistory/FileHistoryDao.java:472-494 | the corrected `getHistoryDir` succeeds only for a configuration whose directory is the Jenkins home or lies below it component-wise (also for home `/`), and then under the history root; no parent, or a directory outside home, is the matching error |
| HistoryPaths.HistoryDirAsWritten | jobConfigHistory-plugin/src/main/java/hudson/plugins/jobConfigHistory/FileHistoryDao.java:472-494 | `getHistoryDir` exactly as written, guarded by the textual `startsWith`; how it relates to the corrected guard is stated by HistoryPaths.HistoryDirNarrowsAsWritten |
| HistoryPaths.HistoryDirNarrowsAsWritten | jobConfigHistory-plugin/src/main/java/hudson/plugins/jobConfigHistory/FileHistoryDao.java:475-493 | for every file whose directory lies inside home the corrected guard answers exactly as written; the two differ exactly for a directory whose text starts with home without lying in it, which only the correction rejects |
| HistoryPaths.RootHomeJob | jobConfigHistory-plugin/src/main/java/hudson/plugins/jobConfigHistory/FileHistoryDao.java:472-494 | with `/` as the Jenkins home, a job configuration `/jobs/rel/file` keeps its history in `historyRoot/jobs/rel` |
| HistoryPaths.JobDirectoryIncludingFolder | jobConfigHistory-plugin/src/main/java/hudson/plugins/jobConfigHistory/FileHistoryDao.java:679-682 | `getJobDirectoryIncludingFolder`: the job history root for the empty folder name, `<folder>/jobs` below it otherwise; Bookkeeping.DeletedJobListedAsDeleted reads it after a delete |
| HistoryPaths.ComponentsJoin | jobConfigHistory-plugin/src/main/java/hudson/plugins/jobConfigHistory/FileHistoryDao.java:490 | `new File(a, b)` names the components of `a` followed by those of `b` |
| HistoryPaths.ParentOfJoin | jobConfigHistory-plugin/src/main/java/hudson/plugins/jobConfigHistory/FileHistoryDao.java:473 | the parent of `dir/name` is `dir` and its name is `name` |
| HistoryPaths.JobConfigMapsUnderJobs | jobConfigHistory-plugin/src/main/java/hudson/plugins/jobConfigHistory/FileHistoryDao.java:472-494 | a job configuration in `$JENKINS_HOME/jobs/rel` keeps its history in `historyRoot/jobs/rel` |
| HistoryPaths.SystemConfigMapsUnderRoot | jobConfigHistory-plugin/src/main/java/hudson/plugins/jobConfigHistory/FileHistoryDao.java:480-493 | a configuration directly in `$JENKINS_HOME` keeps its history in `historyRoot/<name without extension>`; a name without a dot throws |
| HistoryPaths.AsWrittenAcceptsTextualPrefix | jobConfigHistory-plugin/src/main/java/hudson/plugins/jobConfigHistory/FileHistoryDao.java:472-494 | the guard as written accepts any directory whose text merely starts with the home path and maps it under the jobs root |
| HistoryPaths.SiblingOfHomeAccepted | jobConfigHistory-plugin/src/main/java/hudson/plugins/jobConfigHistory/FileHistoryDao.java:475-477 | with home `/h`, the file `/h2/jobs/a/config.xml` lies outside home, yet the code as written gives it the history directory `var/jobs/s/a` |
| HistoryPaths.SiblingOfHomeRejected | jobConfigHistory-plugin/src/main/java/hudson/plugins/jobConfigHistory/FileHistoryDao.java:475-477 | the corrected guard rejects that same file as outside home |
| HistoryPaths.NodeHistoryDirs | jobConfigHistory-plugin/src/main/java/hudson/plugins/jobConfigHistory/FileHistoryDao.java:923-932 | an agent's history is `historyRoot/nodes/<name>`, and distinct agent names get distinct directories |
| Revisions.RevisionIds | jobConfigHistory-plugin/src/main/java/hudson/plugins/jobConfigHistory/FileHistoryDao.java:357-370 | the listed identifiers are exactly the children that are revision directories |
| Revisions.LastConfigName | jobConfigHistory-plugin/src/main/java/hudson/plugins/jobConfigHistory/FileHistoryDao.java:594-607 | the file picked is an XML configuration name with no later one in the listing; none exactly when no name qualifies |
| Revisions.ConfigFileOf | jobConfigHistory-plugin/src/main/java/hudson/plugins/jobConfigHistory/FileHistoryDao.java:594-607 | `getConfigFile` returns an existing configuration file directly inside the revision, and null exactly when the revision holds none |
| Revisions.HasOldRevisionIff | jobConfigHistory-plugin/src/main/java/hudson/plugins/jobConfigHistory/FileHistoryDao.java:432-436 | a revision exists exactly when its directory is a revision holding some configuration file |
| Revisions.SingleConfigFile | jobConfigHistory-plugin/src/main/java/hudson/plugins/jobConfigHistory/FileHistoryDao.java:594-607 | a revision holding one configuration file resolves to exactly that file |
| Revisions.DeleteDirectoryFacts | jobConfigHistory-plugin/src/main/java/hudson/plugins/jobConfigHistory/FileHistoryDao.java:568-577 | `deleteDirectory` removes the plain files of a revision so it is no longer one, keeps subdirectories, and leaves everything outside unchanged |
| Revisions.DeletedNameCarriesMarker | jobConfigHistory-plugin/src/main/java/hudson/plugins/jobConfigHistory/FileHistoryDao.java:293 | the name a deleted item's history is moved to carries the deleted marker |
| Revisions.Jobs | jobConfigHistory-plugin/src/main/java/hudson/plugins/jobConfigHistory/FileHistoryDao.java:668-671 | `getJobs`: the children of a folder's job history directory without the deleted marker; Bookkeeping.DeletedJobListedAsDeleted shows a deleted job leaving it |
| Revisions.DeletedJobs | jobConfigHistory-plugin/src/main/java/hudson/plugins/jobConfigHistory/FileHistoryDao.java:656-659 | `getDeletedJobs`: the children carrying the deleted marker; Bookkeeping.DeletedJobListedAsDeleted shows a deleted job's history entering it |
| Purge.PurgeRetention | jobConfigHistory-plugin/src/main/java/hudson/plugins/jobConfigHistory/FileHistoryDao.java:522-537 | a revision survives purging exactly when purging is off, fewer than maxEntries-1 revisions are newer, or it is a Created entry; otherwise it is no longer a revision |
| Purge.PurgeAddsNothing | jobConfigHistory-plugin/src/main/java/hudson/plugins/jobConfigHistory/FileHistoryDao.java:522-537 | every revision left after purging was there before, unchanged |
| Purge.PurgeOutside | jobConfigHistory-plugin/src/main/java/hudson/plugins/jobConfigHistory/FileHistoryDao.java:522-537 | purging one history directory changes nothing outside it |
| Purge.PurgeBound | jobConfigHistory-plugin/src/main/java/hudson/plugins/jobConfigHistory/FileHistoryDao.java:525-534 | after purging, at most maxEntries-1 revisions other than Created entries remain |
| Purge.DropFacts | jobConfigHistory-plugin/src/main/java/hudson/plugins/jobConfigHistory/FileHistoryDao.java:530-535 | the purge loop deletes each listed non-Created revision, keeps listed Created ones and unlisted ones untouched |
| Purge.PurgeOldEntries | jobConfigHistory-plugin/src/main/java/hudson/plugins/jobConfigHistory/FileHistoryDao.java:522-537 | `purgeOldEntries`: with purging on, every non-Created revision from the (maxEntries-1)-th newest on is deleted; what survives, the bound and the frame are stated by Purge.PurgeRetention, Purge.PurgeBound and Purge.PurgeOutside |
| HistoryDao.MakeDescriptor | jobConfigHistory-plugin/src/main/java/hudson/plugins/jobConfigHistory/FileHistoryDao.java:140-155 | the descriptor records the operation and timestamp, the user's full name and id, or the anonymous pair when there is no user |
| HistoryDao.FirstFree | jobConfigHistory-plugin/src/main/java/hudson/plugins/jobConfigHistory/FileHistoryDao.java:215-231 | the clock sample used is the first whose directory does not exist yet; none exactly when every sample clashes |
| HistoryDao.CreateNewHistoryDir | jobConfigHistory-plugin/src/main/java/hudson/plugins/jobConfigHistory/FileHistoryDao.java:215-238 | a new revision directory is a child of the history directory, named by a clock sample, absent before and existing after |
| HistoryDao.AllocationFresh | jobConfigHistory-plugin/src/main/java/hudson/plugins/jobConfigHistory/FileHistoryDao.java:215-238 | the allocated identifier is not yet a revision, every earlier clock sample clashed, and no other child changes |
| HistoryDao.NewEntryFacts | jobConfigHistory-plugin/src/main/java/hudson/plugins/jobConfigHistory/FileHistoryDao.java:446-462 | a new entry purges old ones, then adds exactly one fresh revision holding only `history.xml` with the operation's descriptor; other paths are unchanged |
| HistoryDao.NewEntryOutside | jobConfigHistory-plugin/src/main/java/hudson/plugins/jobConfigHistory/FileHistoryDao.java:446-462 | a new history entry changes no path outside its history directory |
| HistoryDao.CopyConfigFile | jobConfigHistory-plugin/src/main/java/hudson/plugins/jobConfigHistory/FileHistoryDao.java:180-195 | a successful copy needs a readable configuration and reads back its text in the revision |
| HistoryDao.EntryWithCopy | jobConfigHistory-plugin/src/main/java/hudson/plugins/jobConfigHistory/FileHistoryDao.java:258-265 | a new revision holds exactly `history.xml` and the configuration copy, with the configuration's text; nothing outside the history directory changes |
| HistoryDao.CreateNewItem | jobConfigHistory-plugin/src/main/java/hudson/plugins/jobConfigHistory/FileHistoryDao.java:247-250 | `createNewItem`: a Created revision with a copy of the configuration and no duplicate check; HistoryDao.EntryWithCopy states its outcome |
| HistoryDao.SaveItem | jobConfigHistory-plugin/src/main/java/hudson/plugins/jobConfigHistory/FileHistoryDao.java:274-278 | `saveItem` with the documented duplicate check; its outcome is stated by HistoryDao.SaveItemOutcome and its one departure from the code as written by HistoryDao.SaveItemAsWrittenDeparts |
| HistoryDao.SaveItemAsWritten | jobConfigHistory-plugin/src/main/java/hudson/plugins/jobConfigHistory/FileHistoryDao.java:274-278 | `saveItem` exactly as written, where the duplicate check's NullPointerException escapes; Bookkeeping.FailedDeleteCrashesNextSave reaches it |
| HistoryDao.CheckDuplicate | jobConfigHistory-plugin/src/main/java/hudson/plugins/jobConfigHistory/FileHistoryDao.java:640-647 | `checkDuplicate`: save when duplicates are kept, else exactly when the documented check finds no duplicate |
| HistoryDao.CheckDuplicateAsWritten | jobConfigHistory-plugin/src/main/java/hudson/plugins/jobConfigHistory/FileHistoryDao.java:640-647 | `checkDuplicate` on top of the duplicate check as written |
| HistoryDao.HasDuplicateHistory | jobConfigHistory-plugin/src/main/java/hudson/plugins/jobConfigHistory/FileHistoryDao.java:617-633 | the documented `hasDuplicateHistory`, characterised by HistoryDao.DuplicateIffNewestMatches |
| HistoryDao.HasDuplicateHistoryAsWritten | jobConfigHistory-plugin/src/main/java/hudson/plugins/jobConfigHistory/FileHistoryDao.java:617-633 | `hasDuplicateHistory` as written, failing with the null dereference at line 624 when the newest revision holds no configuration file |
| HistoryDao.DuplicateChecksAgree | jobConfigHistory-plugin/src/main/java/hudson/plugins/jobConfigHistory/FileHistoryDao.java:617-633 | the documented and the written duplicate check give the same answer except where the written one throws, where the documented one answers false |
| HistoryDao.SaveItemAsWrittenDeparts | jobConfigHistory-plugin/src/main/java/hudson/plugins/jobConfigHistory/FileHistoryDao.java:274-278 | `saveItem` and `saveItem` as written have the same outcome unless the written check throws; then the written one crashes with the tree unchanged and the model saves a Changed revision |
| HistoryDao.SaveItemOutcome | jobConfigHistory-plugin/src/main/java/hudson/plugins/jobConfigHistory/FileHistoryDao.java:274-278 | `saveItem` changes nothing when the duplicate check says no, and otherwise adds one fresh Changed revision holding the configuration, changing nothing outside the history directory |
| HistoryDao.SavedRevisionReadsBack | jobConfigHistory-plugin/src/main/java/hudson/plugins/jobConfigHistory/FileHistoryDao.java:342-436 | after saving, `getRevisions` gains exactly the new identifier with its descriptor, and `getOldRevision`/`hasOldRevision` return the saved copy with the saved text |
| HistoryDao.Listing | jobConfigHistory-plugin/src/main/java/hudson/plugins/jobConfigHistory/FileHistoryDao.java:357-370 | the revision map has one key per revision directory, mapped to the descriptor read from its `history.xml` |
| HistoryDao.GetRevisions | jobConfigHistory-plugin/src/main/java/hudson/plugins/jobConfigHistory/FileHistoryDao.java:342-370 | `getRevisions(XmlFile)`: the revision map of the file's history directory, the same as `getJobHistory`/`getSystemHistory` by HistoryDao.JobHistoryIsRevisions and HistoryDao.SystemHistoryIsRevisions |
| HistoryDao.GetOldRevision | jobConfigHistory-plugin/src/main/java/hudson/plugins/jobConfigHistory/FileHistoryDao.java:398-406 | `getOldRevision(XmlFile, id)`: the configuration file of that revision, or null; HistoryDao.SavedRevisionReadsBack shows it returning the saved copy |
| HistoryDao.GetOldRevisionByName | jobConfigHistory-plugin/src/main/java/hudson/plugins/jobConfigHistory/FileHistoryDao.java:415-422 | `getOldRevision(String, id)`: the configuration file below `historyRoot/<name>/<id>`, the IllegalArgumentException when there is none |
| HistoryDao.HasOldRevisionOf | jobConfigHistory-plugin/src/main/java/hudson/plugins/jobConfigHistory/FileHistoryDao.java:432-436 | `hasOldRevision(XmlFile, id)`: whether that revision holds a configuration file (Revisions.HasOldRevisionIff) |
| HistoryDao.GetAgentOldRevision | jobConfigHistory-plugin/src/main/java/hudson/plugins/jobConfigHistory/FileHistoryDao.java:1013-1016 | `getOldRevision(Node, id)`: the configuration file of an agent revision, or null; HistoryDao.AgentRevisionReadsBack shows it returning `config.xml` |
| HistoryDao.GetJobHistory | jobConfigHistory-plugin/src/main/java/hudson/plugins/jobConfigHistory/FileHistoryDao.java:726-728 | `getJobHistory`: the revision map below `historyRoot/jobs/<name>`, equal to `getRevisions` by HistoryDao.JobHistoryIsRevisions |
| HistoryDao.GetSystemHistory | jobConfigHistory-plugin/src/main/java/hudson/plugins/jobConfigHistory/FileHistoryDao.java:736-738 | `getSystemHistory`: the revision map below `historyRoot/<name>`, equal to `getRevisions` by HistoryDao.SystemHistoryIsRevisions |
| HistoryDao.JobHistoryIsRevisions | jobConfigHistory-plugin/src/main/java/hudson/plugins/jobConfigHistory/FileHistoryDao.java:726-728 | `getJobHistory(rel)` lists the same revisions as `getRevisions` of a configuration file in `$JENKINS_HOME/jobs/rel` |
| HistoryDao.SystemHistoryIsRevisions | jobConfigHistory-plugin/src/main/java/hudson/plugins/jobConfigHistory/FileHistoryDao.java:736-738 | `getSystemHistory(name)` lists the same revisions as `getRevisions` of the system configuration `name.ext` |
| HistoryDao.AgentEntryWithConfig | jobConfigHistory-plugin/src/main/java/hudson/plugins/jobConfigHistory/FileHistoryDao.java:776-791 | a new agent revision holds `history.xml` and `config.xml` with the agent's XML; nothing outside the agent's history directory changes |
| HistoryDao.AgentRevisionReadsBack | jobConfigHistory-plugin/src/main/java/hudson/plugins/jobConfigHistory/FileHistoryDao.java:852-871 | after saving an agent, its listing gains exactly the new identifier and the Node variants of `getOldRevision`/`hasOldRevision` find the saved file |
| HistoryDao.SaveNodeOutcome | jobConfigHistory-plugin/src/main/java/hudson/plugins/jobConfigHistory/FileHistoryDao.java:998-1003 | `saveNode` changes nothing for a duplicate when duplicates are skipped, and otherwise adds one fresh Changed revision with the agent's XML, changing nothing outside the agent's history directory |
| HistoryDao.SaveNode | jobConfigHistory-plugin/src/main/java/hudson/plugins/jobConfigHistory/FileHistoryDao.java:998-1003 | `saveNode` with the documented agent duplicate check; HistoryDao.SaveNodeOutcome states its outcome and HistoryDao.SaveNodeAsWrittenDeparts its departure from the code as written |
| HistoryDao.SaveNodeAsWritten | jobConfigHistory-plugin/src/main/java/hudson/plugins/jobConfigHistory/FileHistoryDao.java:998-1003 | `saveNode` exactly as written, on the agent duplicate check that dereferences null |
| HistoryDao.HasAgentDuplicate | jobConfigHistory-plugin/src/main/java/hudson/plugins/jobConfigHistory/FileHistoryDao.java:941-958 | the documented agent duplicate check: the newest revision's `config.xml` holds the agent's XML |
| HistoryDao.HasAgentDuplicateAsWritten | jobConfigHistory-plugin/src/main/java/hudson/plugins/jobConfigHistory/FileHistoryDao.java:941-958 | the agent duplicate check as written, failing with the null dereference at line 949 |
| HistoryDao.AgentDuplicateChecksAgree | jobConfigHistory-plugin/src/main/java/hudson/plugins/jobConfigHistory/FileHistoryDao.java:941-958 | the two agent duplicate checks agree except where the written one throws, where the documented one answers false |
| HistoryDao.SaveNodeAsWrittenDeparts | jobConfigHistory-plugin/src/main/java/hudson/plugins/jobConfigHistory/FileHistoryDao.java:998-1003 | `saveNode` and `saveNode` as written agree unless the written check throws; then the written one crashes with the tree unchanged and the model saves a Changed revision |
| HistoryDao.CreateNewNode | jobConfigHistory-plugin/src/main/java/hudson/plugins/jobConfigHistory/FileHistoryDao.java:764-767 | `createNewNode`: a Created agent revision with its XML; HistoryDao.AgentEntryWithConfig states the outcome |
| HistoryDao.Newest | jobConfigHistory-plugin/src/main/java/hudson/plugins/jobConfigHistory/FileHistoryDao.java:619-622 | the newest identifier is the one above all others; none exactly for no revisions |
| HistoryDao.DuplicateIffNewestMatches | jobConfigHistory-plugin/src/main/java/hudson/plugins/jobConfigHistory/FileHistoryDao.java:617-633 | with no revisions it is not a duplicate; otherwise it is one exactly when the greatest revision holds a configuration file whose text equals the current one |
| HistoryDao.SaveTwiceIsSkipped | jobConfigHistory-plugin/src/main/java/hudson/plugins/jobConfigHistory/FileHistoryDao.java:640-647 | saving the same configuration again right after it was saved changes nothing when duplicates are skipped |
| HistoryDao.SkippedWhenNewestMatches | jobConfigHistory-plugin/src/main/java/hudson/plugins/jobConfigHistory/FileHistoryDao.java:617-647 | when the newest revision already holds the current text, `saveItem` with duplicates skipped changes nothing |
| Bookkeeping.RenameFacts | jobConfigHistory-plugin/src/main/java/hudson/plugins/jobConfigHistory/FileHistoryDao.java:294-297 | `renameTo` moves the whole subtree to the target, removes the source and leaves unrelated paths unchanged |
| Bookkeeping.HistoryRenamed | jobConfigHistory-plugin/src/main/java/hudson/plugins/jobConfigHistory/FileHistoryDao.java:294-297 | a renamed history directory keeps every revision and descriptor under its new name |
| Bookkeeping.DeleteItem | jobConfigHistory-plugin/src/main/java/hudson/plugins/jobConfigHistory/FileHistoryDao.java:286-298 | `deleteItem`: a Deleted revision, then the rename aside; Bookkeeping.DeleteItemOutcome and Bookkeeping.DeletedEntryStays state both rename outcomes |
| Bookkeeping.DeleteNode | jobConfigHistory-plugin/src/main/java/hudson/plugins/jobConfigHistory/FileHistoryDao.java:798-809 | `deleteNode`: the same for an agent; Bookkeeping.DeleteNodeOutcome states it |
| Bookkeeping.DeleteItemOutcome | jobConfigHistory-plugin/src/main/java/hudson/plugins/jobConfigHistory/FileHistoryDao.java:286-298 | `deleteItem` records a Deleted revision, then moves the history aside to `<name>_deleted_<stamp>`: the old directory is gone and the new one holds the purged revisions plus the Deleted one |
| Bookkeeping.DeletedJobListedAsDeleted | jobConfigHistory-plugin/src/main/java/hudson/plugins/jobConfigHistory/FileHistoryDao.java:286-298 | after deleting a top-level job (history `historyRoot/jobs/<job>`) whose rename goes through, `getJobs("")` no longer lists the job and `getDeletedJobs("")` lists `<job>_deleted_<stamp>` |
| Bookkeeping.TopLevelJobDir | jobConfigHistory-plugin/src/main/java/hudson/plugins/jobConfigHistory/FileHistoryDao.java:472-494 | the configuration `<home>/jobs/<job>/<file>` of a top-level job keeps its history in `historyRoot/jobs/<job>` |
| Bookkeeping.DeleteNodeOutcome | jobConfigHistory-plugin/src/main/java/hudson/plugins/jobConfigHistory/FileHistoryDao.java:798-809 | the same for an agent's history under the nodes root |
| Bookkeeping.DeletedEntryStays | jobConfigHistory-plugin/src/main/java/hudson/plugins/jobConfigHistory/FileHistoryDao.java:286-298 | when `renameTo` fails, the Deleted revision stays as the newest revision of the old directory, holding only `history.xml` |
| Bookkeeping.FailedDeleteBreaksDuplicateCheck | jobConfigHistory-plugin/src/main/java/hudson/plugins/jobConfigHistory/FileHistoryDao.java:617-633 | after a `deleteItem` whose rename fails, the duplicate check as written throws on the newest revision's null file, while the corrected check answers false |
| Bookkeeping.FailedDeleteCrashesNextSave | jobConfigHistory-plugin/src/main/java/hudson/plugins/jobConfigHistory/FileHistoryDao.java:617-633 | after a `deleteItem` whose rename fails, the next `saveItem` as written crashes on the null file with the tree unchanged, while the model's `saveItem` records a Changed revision |
| Bookkeeping.NewestWithoutConfig | jobConfigHistory-plugin/src/main/java/hudson/plugins/jobConfigHistory/FileHistoryDao.java:617-633 | whenever the newest revision holds no configuration file, the check as written throws and the corrected one answers false |
| Bookkeeping.FailedNodeDeleteBreaksDuplicateCheck | jobConfigHistory-plugin/src/main/java/hudson/plugins/jobConfigHistory/FileHistoryDao.java:941-958 | the same for an agent after a `deleteNode` whose rename fails |
| Bookkeeping.AgentNewestWithoutConfig | jobConfigHistory-plugin/src/main/java/hudson/plugins/jobConfigHistory/FileHistoryDao.java:941-958 | the agent duplicate check as written throws when the newest revision holds no file; the corrected one answers false |
| Bookkeeping.OverlayKeepsFiles | jobConfigHistory-plugin/src/main/java/hudson/plugins/jobConfigHistory/FileHistoryDao.java:319-320 | copying the old history over the new one puts every old file in place |
| Bookkeeping.OverlayKeepsTarget | jobConfigHistory-plugin/src/main/java/hudson/plugins/jobConfigHistory/FileHistoryDao.java:319-320 | entries of the new history that the old one lacks survive the copy |
| Bookkeeping.MoveFacts | jobConfigHistory-plugin/src/main/java/hudson/plugins/jobConfigHistory/FileHistoryDao.java:313-330 | moving a renamed item's history copies the old files over, keeps new-only entries, removes the old directory and touches nothing else |
| Bookkeeping.MoveOutside | jobConfigHistory-plugin/src/main/java/hudson/plugins/jobConfigHistory/FileHistoryDao.java:313-330 | whether or not the move of a renamed history goes through, paths unrelated to both the old and the new directory keep their entries |
| Bookkeeping.RenameItem | jobConfigHistory-plugin/src/main/java/hudson/plugins/jobConfigHistory/FileHistoryDao.java:308-334 | `renameItem`: move the old history into the new directory, then add a Renamed revision; Bookkeeping.RenameItemOutcome and Bookkeeping.RenameKeepsOldRevisions state it |
| Bookkeeping.RenameNode | jobConfigHistory-plugin/src/main/java/hudson/plugins/jobConfigHistory/FileHistoryDao.java:818-844 | `renameNode`: the same for an agent; Bookkeeping.RenameNodeOutcome and Bookkeeping.RenameNodeKeepsOldRevisions state it |
| Bookkeeping.MovedRevision | jobConfigHistory-plugin/src/main/java/hudson/plugins/jobConfigHistory/FileHistoryDao.java:313-330 | each old revision is a revision under the new name with the same descriptor and configuration text |
| Bookkeeping.RenameItemOutcome | jobConfigHistory-plugin/src/main/java/hudson/plugins/jobConfigHistory/FileHistoryDao.java:308-334 | `renameItem` moves the history and then adds one fresh Renamed revision holding the configuration; paths unrelated to both the old and the new history directory keep their entries |
| Bookkeeping.RenameKeepsOldRevisions | jobConfigHistory-plugin/src/main/java/hudson/plugins/jobConfigHistory/FileHistoryDao.java:308-334 | without purging, every revision of the old name remains readable under the new name with the same descriptor and text |
| Bookkeeping.RenameNodeOutcome | jobConfigHistory-plugin/src/main/java/hudson/plugins/jobConfigHistory/FileHistoryDao.java:818-844 | `renameNode` moves the agent's history and adds a fresh Renamed revision with the agent's XML; paths unrelated to both agent history directories keep their entries |
| Bookkeeping.RenameNodeKeepsOldRevisions | jobConfigHistory-plugin/src/main/java/hudson/plugins/jobConfigHistory/FileHistoryDao.java:818-844 | without purging, every old agent revision remains readable under the new name |
| PluginUtils.Digit | jobConfigHistory-plugin/src/main/java/hudson/plugins/jobConfigHistory/PluginUtils.java:98-104 | a character's digit value lies in 0..9 exactly for '0'..'9', and is -1 otherwise |
| PluginUtils.ValueOf | jobConfigHistory-plugin/src/main/java/hudson/plugins/jobConfigHistory/PluginUtils.java:98-104 | a parsed value is a 32-bit int and comes from a non-empty string |
| PluginUtils.ParseInt | jobConfigHistory-plugin/src/main/java/hudson/plugins/jobConfigHistory/PluginUtils.java:124-132 | the digit-accumulation loop of `Integer.valueOf`, working in negatives with the overflow guards, computes exactly the reference value |
| PluginUtils.ValueOfStringOrDefault | jobConfigHistory-plugin/src/main/java/hudson/plugins/jobConfigHistory/PluginUtils.java:98-104 | the parsed value when the string is a valid int, the default otherwise |
| PluginUtils.CreateFor | jobConfigHistory-plugin/src/main/java/hudson/plugins/jobConfigHistory/PluginUtils.java:121-138 | the DAO gets the configured root, home and user, the parsed maximum or 0 when unparsable, and saves duplicates exactly when skipping is off |
| PluginUtils.AnonymousDao | jobConfigHistory-plugin/src/main/java/hudson/plugins/jobConfigHistory/PluginUtils.java:94-96 | the anonymous DAO has no user, so every descriptor it writes carries the anonymous name and id |
| PluginUtils.ShowRoundTrip | jobConfigHistory-plugin/src/main/java/hudson/plugins/jobConfigHistory/PluginUtils.java:124-132 | every 32-bit int parses back from its decimal text |
| PluginUtils.IntRangeEdges | jobConfigHistory-plugin/src/main/java/hudson/plugins/jobConfigHistory/PluginUtils.java:124-132 | the int range's edges parse, one past the top is rejected, and a lone sign, the empty string and null are rejected |
| SaveableListener.Merge | jobConfigHistory-plugin/src/main/java/hudson/plugins/jobConfigHistory/JobConfigHistorySaveableListener.java:144-185 | the merged tree exists exactly when the destination did or could be created; an existing file destination is kept as it is |
| SaveableListener.CopyFolder | jobConfigHistory-plugin/src/main/java/hudson/plugins/jobConfigHistory/JobConfigHistorySaveableListener.java:144-185 | `copyFolder`: create the destination directory if missing, copy each listed child, never overwrite a file; SaveableListener.CopyFolderIsMerge relates it to the merge |
| SaveableListener.CopyFolderIsMerge | jobConfigHistory-plugin/src/main/java/hudson/plugins/jobConfigHistory/JobConfigHistorySaveableListener.java:144-185 | `copyFolder` returns normally exactly when no source file must be created under a non-directory, and then leaves the merge of source into destination |
| SaveableListener.DirBlocked | jobConfigHistory-plugin/src/main/java/hudson/plugins/jobConfigHistory/JobConfigHistorySaveableListener.java:155-163 | copying a directory fails exactly when copying one of its listed children fails |
| SaveableListener.MergeIntoAbsent | jobConfigHistory-plugin/src/main/java/hudson/plugins/jobConfigHistory/JobConfigHistorySaveableListener.java:147-152 | copying into a missing destination whose parent exists reproduces the source exactly |
| SaveableListener.FileBlocks | jobConfigHistory-plugin/src/main/java/hudson/plugins/jobConfigHistory/JobConfigHistorySaveableListener.java:165-183 | a source holding any file cannot be copied where the destination cannot be created |
| SaveableListener.MergeKeepsFiles | jobConfigHistory-plugin/src/main/java/hudson/plugins/jobConfigHistory/JobConfigHistorySaveableListener.java:168 | an existing destination file is never overwritten |
| SaveableListener.MergeAddsFiles | jobConfigHistory-plugin/src/main/java/hudson/plugins/jobConfigHistory/JobConfigHistorySaveableListener.java:165-183 | after a successful copy each source file is at its place, unless something already was there |
| SaveableListener.MergeOnlyAdds | jobConfigHistory-plugin/src/main/java/hudson/plugins/jobConfigHistory/JobConfigHistorySaveableListener.java:144-185 | every file in the result was either already in the destination or is the source's file at a previously empty place |
| SaveableListener.MergeKeepsUntouched | jobConfigHistory-plugin/src/main/java/hudson/plugins/jobConfigHistory/JobConfigHistorySaveableListener.java:144-185 | destination entries the source does not name are left as they were |
| SaveableListener.MergeCoversSource | jobConfigHistory-plugin/src/main/java/hudson/plugins/jobConfigHistory/JobConfigHistorySaveableListener.java:147-163 | every source path exists after the copy unless a file lies in the way, and source directories become directories |
| SaveableListener.MergeIdempotent | jobConfigHistory-plugin/src/main/java/hudson/plugins/jobConfigHistory/JobConfigHistorySaveableListener.java:144-185 | merging the same source twice gives the same tree as once |
| SaveableListener.CopyTwice | jobConfigHistory-plugin/src/main/java/hudson/plugins/jobConfigHistory/JobConfigHistorySaveableListener.java:144-185 | after a successful copy, copying again succeeds and changes nothing |
| SaveableListener.CopyIntoNothing | jobConfigHistory-plugin/src/main/java/hudson/plugins/jobConfigHistory/JobConfigHistorySaveableListener.java:147-152 | when the destination cannot be created, nothing appears there |
| SaveableListener.GetHistoryDao | jobConfigHistory-plugin/src/main/java/hudson/plugins/jobConfigHistory/JobConfigHistorySaveableListener.java:211-215 | the DAO carries the current user only once Jenkins has completed initialisation, and is anonymous before |
| SaveableListener.OnChange | jobConfigHistory-plugin/src/main/java/hudson/plugins/jobConfigHistory/JobConfigHistorySaveableListener.java:66-71 | a change that is not saveable touches nothing; a saveable one runs `saveItem` on the file with the chosen DAO, which is the written `saveItem`'s outcome whenever the written duplicate check does not throw |

## Left out

- The Subversion mirroring in `onChange` (JobConfigHistorySaveableListener.java:73-134) is not modelled. It calls into SVNService, which is not part of this model.
- The wall clock, `SimpleDateFormat` and `Thread.sleep` in `createNewHistoryDir` are replaced by a sequence of clock samples, already formatted. An exhausted sequence is the error `ClockExhausted`. This stands in for the endless retry loop.
- The `MavenModule` branch of `getOldRevision(AbstractItem, …)` (FileHistoryDao.java:379-391) is not modelled. It needs Maven types outside this model.
- `copyHistoryAndDelete` and `copyNodeHistoryAndDelete` are not modelled. Nothing in the core calls them.
- `getSystemConfigs` is not modelled: the `NonJobsDirectoryFileFilter` it relies on is not part of this model.
- `HistoryFileFilter`, `DeletedFileFilter` and `JobConfigHistoryConsts` are not part of this model. Their rules are assumed:
  - a revision is a directory holding a `history.xml` file;
  - deleted items carry the marker `_deleted_`;
  - the roots are named `jobs` and `nodes`.
- XStream serialisation is abstract. A file holds either a descriptor or a text. `history.xml` reads as a descriptor or fails (`None`). `XmlFile#asString` reads as a text or fails. Encodings and line terminators are not modelled.
- The localised anonymous user id and the operation names ("Created", "Changed", …) are symbolic constants.
- A null `historyRootDir`, which makes `renameItem` skip moving the old history (FileHistoryDao.java:311), is not modelled.
- Whether `File#renameTo` and the recursive copy of `renameItem`/`renameNode` succeed is a boolean parameter. A failure is modelled as leaving the tree unchanged; partial copies after an I/O error are not modelled.
- `renameTo` onto an existing empty directory is treated as a failure. A history directory at the file-system root (one with no parent) is outside the model.
- Exceptions thrown part-way through a write are modelled as `Crash(error, tree)` values carrying the tree at that point. Logging is not modelled.
- The listing order of `copyFolder`: `File#list` returns names in no specified order. The model copies them in descending name order, and the order matters only for which tree an aborted copy leaves behind. A nonexistent top-level source, which `copyFolder` treats as a file and fails to open, is outside the model.
- `HistoryPaths.HistoryDir`: every operation of the model uses the corrected guard (directory inside home, component-wise), not the textual `startsWith` of FileHistoryDao.java:475. The written guard is `HistoryPaths.HistoryDirAsWritten`, and `HistoryPaths.HistoryDirNarrowsAsWritten` states where the two differ.
- `HistoryDao.SaveItem`: uses the documented duplicate check. Where the newest revision holds no configuration file, the source throws NullPointerException (FileHistoryDao.java:624) and the model saves instead; `HistoryDao.SaveItemAsWritten` and `HistoryDao.SaveItemAsWrittenDeparts` model the written behaviour.
- `HistoryDao.SaveNode`: the same for agents (FileHistoryDao.java:949); see `HistoryDao.SaveNodeAsWritten` and `HistoryDao.SaveNodeAsWrittenDeparts`.
- `SaveableListener.OnChange`: inherits the departure of `HistoryDao.SaveItem`; its contract states agreement with the written `saveItem` only where the written duplicate check does not throw.
- `Revisions.ConfigFileOf`: `File#listFiles` returns names in no specified order, and `getConfigFile` keeps the last configuration name it meets. The model fixes the order to descending, so among several configuration names in one revision it picks the smallest; with one (the normal case) the order does not matter (`Revisions.SingleConfigFile`).
- The recursive copy of `renameItem` (`copyRecursiveTo("**/*")`, FileHistoryDao.java:319-320) copies files only; the model's overlay also recreates empty source directories in the new history.
- `PluginUtils.Digit`: `Character.digit` also accepts non-ASCII Unicode digits; the model accepts only '0'..'9'.
- Concurrency, the Jenkins instance and its init levels become parameters (`initCompleted`, `jenkinsHome`, the current user).

## Findings

| source | as written | input that shows it | evidently intended | confidence | as-written member | corrected member |
|---|---|---|---|---|---|---|
| jobConfigHistory-plugin/src/main/java/hudson/plugins/jobConfigHistory/FileHistoryDao.java:475 | `getHistoryDir` checks `configRootDir.startsWith(hudsonRootDir)` on the path text | home `/h`, configuration `/h2/jobs/a/config.xml`: accepted, history directory `historyRoot/jobs/s/a` | only files whose directory is home itself or lies below it, component-wise, are accepted | not executed | HistoryPaths.SiblingOfHomeAccepted | HistoryPaths.SiblingOfHomeRejected |
| jobConfigHistory-plugin/src/main/java/hudson/plugins/jobConfigHistory/FileHistoryDao.java:617-633 | `hasDuplicateHistory` calls `lastRevision.asString()` on an `XmlFile` whose file is null when the newest revision holds no configuration file; the same in the Node variant at 941-958 | `deleteItem` (or `deleteNode`) whose `renameTo` fails leaves a Deleted revision holding only `history.xml`; the next duplicate check throws NullPointerException | a newest revision without a configuration file is simply not a duplicate | not executed | Bookkeeping.FailedDeleteBreaksDuplicateCheck | HistoryDao.DuplicateIffNewestMatches |

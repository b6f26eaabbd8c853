/**
 * JobConfigHistorySaveableListener: `onChange` saves the changed
 * configuration when the plugin deems it saveable, and `copyFolder` merges
 * a directory tree into another without overwriting existing files.
 */
module SaveableListener {
  import opened Options
  import opened LexOrder
  import opened FileTree
  import opened Revisions
  import opened HistoryDao
  import opened PluginUtils

  // ----- copyFolder -----

  /** The destination tree as copyFolder leaves it, and whether it returned normally (`false`: an IOException). */
  datatype Copy<T> = Copy(dest: Option<Node<T>>, ok: bool)

  /** The entry `n` of an optional directory. */
  function Child<T>(d: Option<Node<T>>, n: string): Option<Node<T>> {
    if d.Some? && d.value.Dir? && n in d.value.children then Some(d.value.children[n]) else None
  }

  /** `d` is an existing directory, so entries can be created in it. */
  predicate IsDirNode<T>(d: Option<Node<T>>) {
    d.Some? && d.value.Dir?
  }

  /** Sets entry `n` of `d`, which must be a directory. */
  function SetChild<T>(d: Option<Node<T>>, n: string, v: Node<T>): Option<Node<T>>
    requires IsDirNode(d)
  {
    Some(Dir(d.value.children[n := v]))
  }

  /**
   * copyFolder(src, dest) on the entry `src` and the destination `dest`
   * (`None` when it does not exist); `canCreate` says whether dest's parent
   * is a directory, so that File#mkdir and FileOutputStream can create it.
   * A directory is created when missing (a failing mkdir is ignored), then
   * every listed name is copied in turn; a file is copied only when its
   * destination does not exist, and a failing FileOutputStream aborts.
   */
  function CopyFolder<T>(src: Node<T>, dest: Option<Node<T>>, canCreate: bool): Copy<T>
    decreases src, 1
  {
    match src
    case File(_) =>
      if dest.Some? then Copy(dest, true)
      else if canCreate then Copy(Some(src), true)
      else Copy(dest, false)
    case Dir(c) =>
      var d0 := if dest.None? && canCreate then Some(Dir(map[])) else dest;
      CopyChildren(src, Descending(c.Keys), d0)
  }

  /** The loop over `src.list()`: copies the listed children of `parent` into `d` until one aborts. */
  function CopyChildren<T>(parent: Node<T>, names: seq<string>, d: Option<Node<T>>): Copy<T>
    requires parent.Dir? && forall i | 0 <= i < |names| :: names[i] in parent.children
    decreases parent, 0, |names|
  {
    if names == [] then Copy(d, true)
    else
      var n := names[0];
      var r := CopyFolder(parent.children[n], Child(d, n), IsDirNode(d));
      var d1 := if IsDirNode(d) && r.dest.Some? then SetChild(d, n, r.dest.value) else d;
      if !r.ok then Copy(d1, false) else CopyChildren(parent, names[1..], d1)
  }

  /** The copy throws: somewhere a file of `src` has to be created where no directory holds it. */
  predicate Blocked<T>(src: Node<T>, dest: Option<Node<T>>, canCreate: bool)
    decreases src
  {
    match src
    case File(_) => dest.None? && !canCreate
    case Dir(c) =>
      var d0 := if dest.None? && canCreate then Some(Dir(map[])) else dest;
      exists n | n in c :: Blocked(c[n], Child(d0, n), IsDirNode(d0))
  }

  /**
   * The merge copyFolder intends: files of `src` are added where the
   * destination has nothing, directories are created where missing, and
   * every existing entry of the destination is kept as it was.
   */
  function Merge<T>(src: Node<T>, dest: Option<Node<T>>, canCreate: bool): (r: Option<Node<T>>)
    ensures r.Some? <==> dest.Some? || canCreate
    ensures dest.Some? && !dest.value.Dir? ==> r == dest
    ensures dest.Some? && dest.value.Dir? ==> r.Some? && r.value.Dir?
    decreases src, 1
  {
    match src
    case File(_) => if dest.Some? then dest else if canCreate then Some(src) else None
    case Dir(c) =>
      var d0 := if dest.None? && canCreate then Some(Dir(map[])) else dest;
      if IsDirNode(d0) then Some(Dir(MergedChildren(src, c.Keys, d0))) else d0
  }

  /** The entries of directory `d` once the children `keys` of `parent` are merged into it. */
  function MergedChildren<T>(parent: Node<T>, keys: set<string>, d: Option<Node<T>>): map<string, Node<T>>
    requires parent.Dir? && keys <= parent.children.Keys && IsDirNode(d)
    decreases parent, 0
  {
    var e := d.value.children;
    map k | k in e.Keys + keys :: if k in keys then Merge(parent.children[k], Child(d, k), true).value else e[k]
  }

  // ----- lemmas about copyFolder -----

  /** The names of a listing. */
  function Listed(names: seq<string>): set<string> {
    set i | 0 <= i < |names| :: names[i]
  }

  /**
   * copyFolder returns normally exactly when the copy is not blocked, and
   * then leaves the intended merge.
   */
  lemma {:induction false} CopyFolderIsMerge<T>(src: Node<T>, dest: Option<Node<T>>, canCreate: bool)
    ensures CopyFolder(src, dest, canCreate).ok <==> !Blocked(src, dest, canCreate)
    ensures CopyFolder(src, dest, canCreate).ok ==> CopyFolder(src, dest, canCreate).dest == Merge(src, dest, canCreate)
    decreases src, 1
  {
    if src.Dir? {
      var c := src.children;
      var d0 := if dest.None? && canCreate then Some(Dir(map[])) else dest;
      var names := Descending(c.Keys);
      SortedDistinctNames(names);
      CopyChildrenIsMerge(src, names, d0);
      DirBlocked(src, dest, canCreate, names);
      DirMerge(src, dest, canCreate, names);
    }
  }

  /** A directory is blocked exactly when one of its listed children is. */
  lemma DirBlocked<T>(src: Node<T>, dest: Option<Node<T>>, canCreate: bool, names: seq<string>)
    requires src.Dir? && Listed(names) == src.children.Keys
    ensures var d0 := if dest.None? && canCreate then Some(Dir(map[])) else dest;
      Blocked(src, dest, canCreate) <==>
      exists i | 0 <= i < |names| :: Blocked(src.children[names[i]], Child(d0, names[i]), IsDirNode(d0))
  {
    var c := src.children;
    var d0 := if dest.None? && canCreate then Some(Dir(map[])) else dest;
    if Blocked(src, dest, canCreate) {
      var n :| n in c && Blocked(c[n], Child(d0, n), IsDirNode(d0));
      assert n in Listed(names);
      var i :| 0 <= i < |names| && names[i] == n;
    }
  }

  /** The merge of a directory is the fold of Merge over its listed children. */
  lemma DirMerge<T>(src: Node<T>, dest: Option<Node<T>>, canCreate: bool, names: seq<string>)
    requires src.Dir? && forall i | 0 <= i < |names| :: names[i] in src.children
    requires forall i, j | 0 <= i < j < |names| :: names[i] != names[j]
    requires Listed(names) == src.children.Keys
    ensures var d0 := if dest.None? && canCreate then Some(Dir(map[])) else dest;
      MergeNames(src, names, d0) == Merge(src, dest, canCreate)
  {
    var d0 := if dest.None? && canCreate then Some(Dir(map[])) else dest;
    MergeNamesIsMerge(src, names, d0);
    if IsDirNode(d0) {
      assert MergeNames(src, names, d0) == Some(Dir(MergedChildren(src, Listed(names), d0)));
    }
  }

  lemma SortedDistinctNames(xs: seq<string>)
    requires StrictlyDescending(xs)
    ensures forall i, j | 0 <= i < j < |xs| :: xs[i] != xs[j]
  {
    forall i, j | 0 <= i < j < |xs|
      ensures xs[i] != xs[j]
    {
      Irreflexive(xs[i]);
    }
  }

  /**
   * The loop over distinct listed names: it returns normally exactly when
   * no listed child is blocked, and then leaves them merged one by one.
   */
  lemma {:induction false} CopyChildrenIsMerge<T>(parent: Node<T>, names: seq<string>, d: Option<Node<T>>)
    requires parent.Dir? && forall i | 0 <= i < |names| :: names[i] in parent.children
    requires forall i, j | 0 <= i < j < |names| :: names[i] != names[j]
    ensures var r := CopyChildren(parent, names, d);
      && (r.ok <==> forall i | 0 <= i < |names| :: !Blocked(parent.children[names[i]], Child(d, names[i]), IsDirNode(d)))
      && (r.ok ==> r.dest == MergeNames(parent, names, d))
    decreases parent, 0, |names|
  {
    if names != [] {
      var n := names[0];
      var c := parent.children;
      var r := CopyFolder(c[n], Child(d, n), IsDirNode(d));
      CopyFolderIsMerge(c[n], Child(d, n), IsDirNode(d));
      var d1 := if IsDirNode(d) && r.dest.Some? then SetChild(d, n, r.dest.value) else d;
      if r.ok {
        var rest := names[1..];
        assert forall i | 0 <= i < |rest| :: rest[i] == names[i + 1] && rest[i] != n;
        ChildAfterSet(d, n, r.dest, rest);
        CopyChildrenIsMerge(parent, rest, d1);
      }
    }
  }

  /** Merging the listed children of `parent` one after another into `d`. */
  function MergeNames<T>(parent: Node<T>, names: seq<string>, d: Option<Node<T>>): Option<Node<T>>
    requires parent.Dir? && forall i | 0 <= i < |names| :: names[i] in parent.children
    decreases |names|
  {
    if names == [] then d
    else
      var n := names[0];
      var m := Merge(parent.children[n], Child(d, n), IsDirNode(d));
      var d1 := if IsDirNode(d) && m.Some? then SetChild(d, n, m.value) else d;
      MergeNames(parent, names[1..], d1)
  }

  /** Merging the children one by one builds the merged directory of Merge. */
  lemma {:induction false} MergeNamesIsMerge<T>(parent: Node<T>, names: seq<string>, d: Option<Node<T>>)
    requires parent.Dir? && forall i | 0 <= i < |names| :: names[i] in parent.children
    requires forall i, j | 0 <= i < j < |names| :: names[i] != names[j]
    ensures !IsDirNode(d) ==> MergeNames(parent, names, d) == d
    ensures IsDirNode(d) ==> MergeNames(parent, names, d) == Some(Dir(MergedChildren(parent, Listed(names), d)))
    decreases |names|
  {
    if names == [] {
      if IsDirNode(d) {
        var e := d.value.children;
        var M := MergedChildren(parent, Listed(names), d);
        assert M.Keys == e.Keys;
        assert M == e;
      }
    } else {
      var n := names[0];
      var rest := names[1..];
      var c := parent.children;
      var m := Merge(c[n], Child(d, n), IsDirNode(d));
      var d1 := if IsDirNode(d) && m.Some? then SetChild(d, n, m.value) else d;
      assert forall i | 0 <= i < |rest| :: rest[i] == names[i + 1] && rest[i] != n;
      ChildAfterSet(d, n, m, rest);
      MergeNamesIsMerge(parent, rest, d1);
      assert MergeNames(parent, names, d) == MergeNames(parent, rest, d1);
      assert Listed(names) == {n} + Listed(rest);
      if IsDirNode(d) {
        var e := d.value.children;
        var e1 := d1.value.children;
        assert e1 == e[n := m.value];
        forall k | k in Listed(rest)
          ensures Child(d1, k) == Child(d, k)
        {
          var i :| 0 <= i < |rest| && rest[i] == k;
        }
        var M := MergedChildren(parent, Listed(names), d);
        var M1 := MergedChildren(parent, Listed(rest), d1);
        assert M1.Keys == M.Keys;
        forall k | k in M
          ensures M1[k] == M[k]
        {
          if k == n {
            assert k !in Listed(rest);
          }
        }
        assert M1 == M;
        assert MergeNames(parent, rest, d1) == Some(Dir(M1));
        assert MergeNames(parent, names, d) == Some(Dir(M));
      }
    }
  }

  /** Setting child `n` leaves the other children and the directory status alone. */
  lemma ChildAfterSet<T>(d: Option<Node<T>>, n: string, v: Option<Node<T>>, rest: seq<string>)
    requires forall i | 0 <= i < |rest| :: rest[i] != n
    ensures var d1 := if IsDirNode(d) && v.Some? then SetChild(d, n, v.value) else d;
      IsDirNode(d1) == IsDirNode(d) && forall i | 0 <= i < |rest| :: Child(d1, rest[i]) == Child(d, rest[i])
  {
  }

  // ----- what the merge promises -----

  /** The entry at `p` of an optional tree. */
  function At<T>(d: Option<Node<T>>, p: Path): Option<Node<T>> {
    if d.Some? then Lookup(d.value, p) else None
  }

  lemma AtStep<T>(d: Option<Node<T>>, p: Path)
    requires p != []
    ensures At(d, p) == At(Child(d, p[0]), p[1..])
  {
    if d.Some? {
      LookupStep(d.value, p[0], p[1..]);
      assert [p[0]] + p[1..] == p;
    }
  }

  /** The entries of a merged directory. */
  lemma MergeChild<T>(src: Node<T>, dest: Option<Node<T>>, canCreate: bool, k: string)
    requires src.Dir?
    ensures var d0 := if dest.None? && canCreate then Some(Dir(map[])) else dest;
      IsDirNode(d0) ==> (Child(Merge(src, dest, canCreate), k) ==
        if k in src.children then Merge(src.children[k], Child(d0, k), true) else Child(d0, k))
  {
    var d0 := if dest.None? && canCreate then Some(Dir(map[])) else dest;
    if IsDirNode(d0) {
      var M := MergedChildren(src, src.children.Keys, d0);
      assert Merge(src, dest, canCreate) == Some(Dir(M));
      if k in src.children {
        assert M[k] == Merge(src.children[k], Child(d0, k), true).value;
      }
    }
  }

  /** A file of `src` with nowhere to go blocks the copy. */
  lemma {:induction false} FileBlocks<T>(src: Node<T>, p: Path, x: T)
    requires Lookup(src, p) == Some(File(x))
    ensures Blocked(src, None, false)
    decreases |p|
  {
    if p != [] {
      LookupStep(src, p[0], p[1..]);
      assert [p[0]] + p[1..] == p;
      var n := p[0];
      FileBlocks(src.children[n], p[1..], x);
      assert Child<T>(None, n) == None;
    }
  }

  /** Copying into a destination that does not exist yet reproduces the source. */
  lemma {:induction false} MergeIntoAbsent<T>(src: Node<T>)
    ensures Merge(src, None, true) == Some(src)
    ensures !Blocked(src, None, true)
    decreases src
  {
    if src.Dir? {
      var c := src.children;
      var d0: Option<Node<T>> := Some(Dir(map[]));
      forall k | k in c
        ensures Merge(c[k], Child(d0, k), true) == Some(c[k]) && !Blocked(c[k], Child(d0, k), true)
      {
        assert Child(d0, k) == None;
        MergeIntoAbsent(c[k]);
      }
      var M := MergedChildren(src, c.Keys, d0);
      assert M.Keys == c.Keys;
      assert M == c;
    }
  }

  /** An existing file of the destination is never overwritten. */
  lemma {:induction false} MergeKeepsFiles<T>(src: Node<T>, dest: Option<Node<T>>, canCreate: bool, p: Path, x: T)
    requires At(dest, p) == Some(File(x))
    ensures At(Merge(src, dest, canCreate), p) == Some(File(x))
    decreases |p|
  {
    if p != [] && src.Dir? {
      var c := src.children;
      var n := p[0];
      AtStep(dest, p);
      var r := Merge(src, dest, canCreate);
      AtStep(r, p);
      MergeChild(src, dest, canCreate, n);
      if n in c {
        MergeKeepsFiles(c[n], Child(dest, n), true, p[1..], x);
      }
    }
  }

  /**
   * When the copy goes through, every file of the source is present at the
   * same place in the destination: the source's own where the destination
   * had nothing, the destination's where it had something.
   */
  lemma {:induction false} MergeAddsFiles<T>(src: Node<T>, dest: Option<Node<T>>, canCreate: bool, p: Path, x: T)
    requires !Blocked(src, dest, canCreate) && Lookup(src, p) == Some(File(x))
    ensures At(Merge(src, dest, canCreate), p) == (if At(dest, p).Some? then At(dest, p) else Some(File(x)))
    decreases |p|
  {
    if p != [] {
      var c := src.children;
      var n := p[0];
      LookupStep(src, n, p[1..]);
      assert [n] + p[1..] == p;
      var d0 := if dest.None? && canCreate then Some(Dir(map[])) else dest;
      assert !Blocked(c[n], Child(d0, n), IsDirNode(d0));
      if IsDirNode(d0) {
        var r := Merge(src, dest, canCreate);
        AtStep(r, p);
        AtStep(d0, p);
        AtStep(dest, p);
        MergeChild(src, dest, canCreate, n);
        MergeAddsFiles(c[n], Child(d0, n), true, p[1..], x);
      } else {
        assert Child(d0, n) == None;
        FileBlocks(c[n], p[1..], x);
        assert false;
      }
    }
  }

  /** Every file of the merge was in the destination, or comes from the source where the destination had nothing. */
  lemma {:induction false} MergeOnlyAdds<T>(src: Node<T>, dest: Option<Node<T>>, canCreate: bool, p: Path, x: T)
    requires At(Merge(src, dest, canCreate), p) == Some(File(x))
    ensures At(dest, p) == Some(File(x)) || (At(dest, p).None? && Lookup(src, p) == Some(File(x)))
    decreases |p|
  {
    var r := Merge(src, dest, canCreate);
    if p != [] && src.Dir? {
      var c := src.children;
      var n := p[0];
      LookupStep(src, n, p[1..]);
      assert [n] + p[1..] == p;
      var d0 := if dest.None? && canCreate then Some(Dir(map[])) else dest;
      AtStep(r, p);
      AtStep(d0, p);
      AtStep(dest, p);
      if IsDirNode(d0) {
        MergeChild(src, dest, canCreate, n);
        if n in c {
          MergeOnlyAdds(c[n], Child(d0, n), true, p[1..], x);
        }
      }
    }
  }

  /** Entries of the destination that the source does not have are left as they were. */
  lemma {:induction false} MergeKeepsUntouched<T>(src: Node<T>, dest: Option<Node<T>>, canCreate: bool, p: Path)
    requires At(dest, p).Some? && Lookup(src, p).None?
    ensures At(Merge(src, dest, canCreate), p) == At(dest, p)
    decreases |p|
  {
    if src.Dir? {
      var c := src.children;
      var n := p[0];
      LookupStep(src, n, p[1..]);
      assert [n] + p[1..] == p;
      AtStep(dest, p);
      AtStep(Merge(src, dest, canCreate), p);
      MergeChild(src, dest, canCreate, n);
      if n in c {
        MergeKeepsUntouched(c[n], Child(dest, n), true, p[1..]);
      }
    }
  }

  predicate IsFileAt<T>(d: Option<Node<T>>, p: Path) {
    At(d, p).Some? && At(d, p).value.File?
  }

  /**
   * Every path of the source is present after the merge, as a directory
   * where the source has one, unless a file of the destination stands in
   * the way.
   */
  lemma {:induction false} MergeCoversSource<T>(src: Node<T>, dest: Option<Node<T>>, canCreate: bool, p: Path)
    requires Lookup(src, p).Some? && (dest.Some? || canCreate)
    requires forall k | 0 <= k < |p| :: !IsFileAt(dest, p[..k])
    ensures At(Merge(src, dest, canCreate), p).Some?
    ensures Lookup(src, p).value.Dir? && !IsFileAt(dest, p) ==> At(Merge(src, dest, canCreate), p).value.Dir?
    decreases |p|
  {
    var r := Merge(src, dest, canCreate);
    var d0 := if dest.None? && canCreate then Some(Dir(map[])) else dest;
    if p == [] {
      if src.Dir? && !IsFileAt(dest, p) {
        assert IsDirNode(d0);
      }
    } else {
      var c := src.children;
      var n := p[0];
      var rest := p[1..];
      LookupStep(src, n, rest);
      assert [n] + rest == p;
      assert p[..0] == [];
      assert IsDirNode(d0);
      AtStep(r, p);
      MergeChild(src, dest, canCreate, n);
      forall k | 0 <= k < |rest|
        ensures !IsFileAt(Child(d0, n), rest[..k])
      {
        assert p[..k + 1] == [n] + rest[..k];
        AtStep(dest, p[..k + 1]);
        AtStep(d0, p[..k + 1]);
        assert p[..k + 1][1..] == rest[..k];
      }
      AtStep(dest, p);
      AtStep(d0, p);
      MergeCoversSource(c[n], Child(d0, n), true, rest);
    }
  }

  /** Copying the same tree a second time changes nothing. */
  lemma {:induction false} MergeIdempotent<T>(src: Node<T>, dest: Option<Node<T>>, canCreate: bool)
    ensures Merge(src, Merge(src, dest, canCreate), canCreate) == Merge(src, dest, canCreate)
    decreases src
  {
    var r := Merge(src, dest, canCreate);
    if src.Dir? {
      var c := src.children;
      var d0 := if dest.None? && canCreate then Some(Dir(map[])) else dest;
      if IsDirNode(d0) {
        var M := MergedChildren(src, c.Keys, d0);
        forall k | k in c
          ensures Merge(c[k], Child(r, k), true) == Child(r, k)
        {
          MergeChild(src, dest, canCreate, k);
          MergeIdempotent(c[k], Child(d0, k), true);
        }
        var M2 := MergedChildren(src, c.Keys, r);
        assert M2.Keys == M.Keys;
        assert M2 == M;
      }
    }
  }

  /** A copy that went through goes through again. */
  lemma {:induction false} NotBlockedAgain<T>(src: Node<T>, dest: Option<Node<T>>, canCreate: bool)
    requires !Blocked(src, dest, canCreate)
    ensures !Blocked(src, Merge(src, dest, canCreate), canCreate)
    decreases src
  {
    var r := Merge(src, dest, canCreate);
    if src.Dir? {
      var c := src.children;
      var d0 := if dest.None? && canCreate then Some(Dir(map[])) else dest;
      if IsDirNode(d0) {
        forall k | k in c
          ensures !Blocked(c[k], Child(r, k), true)
        {
          MergeChild(src, dest, canCreate, k);
          NotBlockedAgain(c[k], Child(d0, k), true);
        }
      }
    }
  }

  /** copyFolder run twice leaves what one run leaves, when the first run returns normally. */
  lemma CopyTwice<T>(src: Node<T>, dest: Option<Node<T>>, canCreate: bool)
    requires CopyFolder(src, dest, canCreate).ok
    ensures var once := CopyFolder(src, dest, canCreate).dest;
      CopyFolder(src, once, canCreate) == Copy(once, true)
  {
    CopyFolderIsMerge(src, dest, canCreate);
    var once := CopyFolder(src, dest, canCreate).dest;
    NotBlockedAgain(src, dest, canCreate);
    CopyFolderIsMerge(src, once, canCreate);
    MergeIdempotent(src, dest, canCreate);
  }

  /** Nothing can be created where the destination's parent is not a directory. */
  lemma {:induction false} CopyIntoNothing<T>(src: Node<T>)
    ensures CopyFolder(src, None, false).dest == None
    decreases src, 1
  {
    if src.Dir? {
      CopyChildrenIntoNothing(src, Descending(src.children.Keys));
    }
  }

  lemma {:induction false} CopyChildrenIntoNothing<T>(parent: Node<T>, names: seq<string>)
    requires parent.Dir? && forall i | 0 <= i < |names| :: names[i] in parent.children
    ensures CopyChildren(parent, names, None).dest == None
    decreases parent, 0, |names|
  {
    if names != [] {
      CopyIntoNothing(parent.children[names[0]]);
      CopyChildrenIntoNothing(parent, names[1..]);
    }
  }

  // ----- onChange -----

  /**
   * getHistoryDao(plugin): the DAO for the current user once Jenkins has
   * completed initialisation, the anonymous one before.
   */
  method GetHistoryDao(settings: Settings, jenkinsHome: string, currentUser: Option<User>, initCompleted: bool)
    returns (dao: Dao)
    ensures dao.user == (if initCompleted then currentUser else None)
    ensures dao.historyRoot == settings.historyRoot && dao.jenkinsHome == jenkinsHome
    ensures dao.maxHistoryEntries == (if ValueOf(settings.maxHistoryEntries).Some? then ValueOf(settings.maxHistoryEntries).value else 0)
    ensures dao.saveDuplicates <==> !settings.skipDuplicateHistory
  {
    if initCompleted {
      dao := CreateFor(settings, jenkinsHome, currentUser);
    } else {
      dao := AnonymousDao(settings, jenkinsHome);
    }
  }

  /**
   * onChange(o, file): nothing when the plugin does not deem the change
   * saveable; otherwise the file is saved through the DAO of getHistoryDao
   * (`dao`; `None` when no DAO is asked for), and its outcome is onChange's.
   * It is the written saveItem's outcome wherever that one does not throw.
   */
  method OnChange(saveable: bool, initCompleted: bool, settings: Settings, jenkinsHome: string,
                  currentUser: Option<User>, fs: Fs, file: ConfigFile, clock: seq<string>)
    returns (dao: Option<Dao>, r: Result<Fs, Crash>)
    ensures !saveable ==> dao.None? && r == Success(fs)
    ensures saveable ==> dao.Some? && dao.value.user == (if initCompleted then currentUser else None)
    ensures saveable ==> dao.value.historyRoot == settings.historyRoot && dao.value.jenkinsHome == jenkinsHome
    ensures saveable ==> r == SaveItem(dao.value, fs, file, clock)
    ensures saveable && HasDuplicateHistoryAsWritten(dao.value, fs, file) != Failure(NullRevisionFile) ==>
      r == SaveItemAsWritten(dao.value, fs, file, clock)
  {
    if !saveable {
      return None, Success(fs);
    }
    var d := GetHistoryDao(settings, jenkinsHome, currentUser, initCompleted);
    dao := Some(d);
    r := SaveItem(d, fs, file, clock);
    SaveItemAsWrittenDeparts(d, fs, file, clock);
  }
}

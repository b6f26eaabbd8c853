/**
 * purgeOldEntries: before a new revision is allocated, the history
 * directory is trimmed so that only the `maxEntries - 1` newest revisions
 * and every Created revision remain; the new revision brings it back to
 * `maxEntries`.
 */
module Purge {
  import opened Options
  import opened LexOrder
  import opened FileTree
  import opened Revisions

  predicate Distinct(ids: seq<string>) {
    forall i, j | 0 <= i < j < |ids| :: ids[i] != ids[j]
  }

  predicate AllRevisions(fs: Fs, dir: Path, ids: seq<string>) {
    forall i | 0 <= i < |ids| :: IsRevisionDir(fs, dir + [ids[i]])
  }

  /** The loop of purgeOldEntries over the revisions past the kept ones: drops each that is not a Created entry. */
  function DropUnlessCreated(fs: Fs, dir: Path, ids: seq<string>): Fs
    requires Distinct(ids) && AllRevisions(fs, dir, ids)
    decreases |ids|
  {
    if ids == [] then fs
    else
      var fs1 := DropOne(fs, dir, ids[0]);
      DropOneFrame(fs, dir, ids[0], ids[1..]);
      DropUnlessCreated(fs1, dir, ids[1..])
  }

  /** One iteration: `continue` for a Created entry, deleteDirectory otherwise. */
  function DropOne(fs: Fs, dir: Path, id: string): Fs
    requires IsRevisionDir(fs, dir + [id])
  {
    if IsCreatedEntry(fs, dir + [id]) then fs else DeleteDirectory(fs, dir + [id])
  }

  /**
   * purgeOldEntries(dir, maxEntries): nothing for `maxEntries <= 0`;
   * otherwise the revisions sorted newest first are dropped from index
   * `maxEntries - 1` on, except Created entries.
   */
  function PurgeOldEntries(fs: Fs, dir: Path, maxEntries: int): Fs {
    if maxEntries <= 0 then fs
    else
      var entriesToLeave := maxEntries - 1;
      var sorted := Descending(RevisionIds(fs, dir));
      if |sorted| >= entriesToLeave then
        SortedDistinct(sorted);
        DropUnlessCreated(fs, dir, sorted[entriesToLeave..])
      else fs
  }

  // ----- lemmas -----

  lemma SortedDistinct(xs: seq<string>)
    requires StrictlyDescending(xs)
    ensures Distinct(xs)
    ensures forall k | 0 <= k <= |xs| :: Distinct(xs[k..])
  {
    forall i, j | 0 <= i < j < |xs|
      ensures xs[i] != xs[j]
    {
      Irreflexive(xs[i]);
    }
  }

  /** Two trees that agree on the entry at `p` agree on everything read from it. */
  lemma SameEntry(a: Fs, b: Fs, p: Path)
    requires Lookup(a, p) == Lookup(b, p)
    ensures IsRevisionDir(a, p) == IsRevisionDir(b, p)
    ensures IsCreatedEntry(a, p) == IsCreatedEntry(b, p)
    ensures ReadDescriptor(a, p) == ReadDescriptor(b, p)
  {
    LookupAppend(a, p, [HistoryFile]);
    LookupAppend(b, p, [HistoryFile]);
  }

  /** How a path relates to a child of `dir`, given how it relates to `dir`. */
  lemma ChildPrefix(dir: Path, k: string, q: Path)
    ensures IsPrefix(dir, dir + [k])
    ensures IsPrefix(dir + [k], q) ==> IsPrefix(dir, q)
    ensures IsPrefix(q, dir + [k]) ==> IsPrefix(q, dir) || q == dir + [k]
  {
    assert (dir + [k])[..|dir|] == dir;
    if IsPrefix(dir + [k], q) {
      assert q[..|dir|] == (dir + [k])[..|dir|];
    }
    if IsPrefix(q, dir + [k]) && |q| <= |dir| {
      assert dir[..|q|] == (dir + [k])[..|q|];
    }
  }

  /** Revision directories of distinct names are unrelated paths. */
  /** A path unrelated to `dir` is unrelated to every path inside it. */
  lemma InsideUnrelated(dir: Path, s: Path, q: Path)
    requires !IsPrefix(dir, q) && !IsPrefix(q, dir)
    ensures !IsPrefix(dir + s, q) && !IsPrefix(q, dir + s)
  {
    var p := dir + s;
    assert p[..|dir|] == dir;
    if |q| <= |dir| {
      assert |q| <= |p| ==> dir[..|q|] == p[..|q|];
    } else if |p| <= |q| {
      assert q[..|dir|] == q[..|p|][..|dir|];
    } else {
      assert p[..|q|][..|dir|] == dir;
    }
  }

  lemma SiblingsUnrelated(dir: Path, a: string, b: string)
    requires a != b
    ensures !IsPrefix(dir + [a], dir + [b]) && !IsPrefix(dir + [b], dir + [a])
  {
    assert (dir + [a])[|dir|] == a && (dir + [b])[|dir|] == b;
  }

  /** Dropping one revision leaves every other entry of the directory as it was. */
  lemma DropOneFrame(fs: Fs, dir: Path, id: string, rest: seq<string>)
    requires IsRevisionDir(fs, dir + [id])
    requires Distinct([id] + rest) && AllRevisions(fs, dir, [id] + rest)
    ensures Distinct(rest) && AllRevisions(DropOne(fs, dir, id), dir, rest)
    ensures forall k | k != id :: Lookup(DropOne(fs, dir, id), dir + [k]) == Lookup(fs, dir + [k])
  {
    var fs1 := DropOne(fs, dir, id);
    forall k | k != id
      ensures Lookup(fs1, dir + [k]) == Lookup(fs, dir + [k])
    {
      DropOneSibling(fs, dir, id, k);
    }
    forall i | 0 <= i < |rest|
      ensures IsRevisionDir(fs1, dir + [rest[i]])
    {
      assert rest[i] == ([id] + rest)[i + 1] && id == ([id] + rest)[0];
      SameEntry(fs1, fs, dir + [rest[i]]);
    }
    assert forall i, j | 0 <= i < j < |rest| :: rest[i] == ([id] + rest)[i + 1] && rest[j] == ([id] + rest)[j + 1];
  }

  /** Dropping revision `id` leaves its sibling `k` as it was. */
  lemma DropOneSibling(fs: Fs, dir: Path, id: string, k: string)
    requires IsRevisionDir(fs, dir + [id]) && k != id
    ensures Lookup(DropOne(fs, dir, id), dir + [k]) == Lookup(fs, dir + [k])
  {
    if !IsCreatedEntry(fs, dir + [id]) {
      SiblingsUnrelated(dir, id, k);
      DeleteDirectoryFacts(fs, dir + [id], dir + [k]);
    }
  }

  /** What the drop loop does to the entry named `k` of the directory. */
  lemma {:induction false} DropFacts(fs: Fs, dir: Path, ids: seq<string>, k: string)
    requires Distinct(ids) && AllRevisions(fs, dir, ids)
    ensures var r := DropUnlessCreated(fs, dir, ids);
      && (k in ids && !IsCreatedEntry(fs, dir + [k]) ==> !IsRevisionDir(r, dir + [k]))
      && (k in ids && IsCreatedEntry(fs, dir + [k]) ==> Lookup(r, dir + [k]) == Lookup(fs, dir + [k]))
      && (k !in ids ==> Lookup(r, dir + [k]) == Lookup(fs, dir + [k]))
    decreases |ids|
  {
    if ids != [] {
      var fs1 := DropOne(fs, dir, ids[0]);
      DropOneFrame(fs, dir, ids[0], ids[1..]);
      assert [ids[0]] + ids[1..] == ids;
      DropFacts(fs1, dir, ids[1..], k);
      if k == ids[0] {
        assert k !in ids[1..];
        if !IsCreatedEntry(fs, dir + [k]) {
          DeleteDirectoryFacts(fs, dir + [k], dir + [k]);
          SameEntry(DropUnlessCreated(fs, dir, ids), fs1, dir + [k]);
        }
      } else {
        SameEntry(fs1, fs, dir + [k]);
      }
    }
  }

  /** The drop loop changes nothing outside the history directory. */
  lemma {:induction false} DropOutside(fs: Fs, dir: Path, ids: seq<string>, q: Path)
    requires Distinct(ids) && AllRevisions(fs, dir, ids)
    requires !IsPrefix(dir, q) && !IsPrefix(q, dir)
    ensures Lookup(DropUnlessCreated(fs, dir, ids), q) == Lookup(fs, q)
    decreases |ids|
  {
    if ids != [] {
      var fs1 := DropOne(fs, dir, ids[0]);
      DropOneFrame(fs, dir, ids[0], ids[1..]);
      DropOutside(fs1, dir, ids[1..], q);
      if !IsCreatedEntry(fs, dir + [ids[0]]) {
        var p := dir + [ids[0]];
        ChildPrefix(dir, ids[0], q);
        DeleteDirectoryFacts(fs, p, q);
      }
    }
  }

  /** In a list without repeats, the element at `i` lies in the tail from `keep` exactly when `i >= keep`. */
  lemma TailMembership(xs: seq<string>, keep: int, i: int)
    requires Distinct(xs) && 0 <= keep <= |xs| && 0 <= i < |xs|
    ensures xs[i] in xs[keep..] <==> i >= keep
  {
    if xs[i] in xs[keep..] {
      var j :| 0 <= j < |xs| - keep && xs[keep..][j] == xs[i];
      assert xs[keep + j] == xs[i];
    }
    if i >= keep {
      assert xs[keep..][i - keep] == xs[i];
    }
  }

  /**
   * Retention: a revision survives the purge exactly when purging is off,
   * fewer than `maxEntries - 1` revisions are newer, or it is a Created
   * entry; a surviving revision is untouched.
   */
  lemma PurgeRetention(fs: Fs, dir: Path, maxEntries: int, id: string)
    requires id in RevisionIds(fs, dir)
    ensures var r := PurgeOldEntries(fs, dir, maxEntries);
      var kept := maxEntries <= 0 || |Newer(RevisionIds(fs, dir), id)| < maxEntries - 1 || IsCreatedEntry(fs, dir + [id]);
      && (kept ==> Lookup(r, dir + [id]) == Lookup(fs, dir + [id]))
      && (!kept ==> !IsRevisionDir(r, dir + [id]))
  {
    if maxEntries > 0 {
      var i := RankOf(RevisionIds(fs, dir), id);
      if |RevisionIds(fs, dir)| >= maxEntries - 1 {
        PurgeAt(fs, dir, maxEntries, i);
      }
    }
  }

  /** What the purge does to the revision at position `i` of the descending order. */
  lemma PurgeAt(fs: Fs, dir: Path, maxEntries: int, i: int)
    requires maxEntries > 0 && |RevisionIds(fs, dir)| >= maxEntries - 1 && 0 <= i < |RevisionIds(fs, dir)|
    ensures var r := PurgeOldEntries(fs, dir, maxEntries);
      var p := dir + [Descending(RevisionIds(fs, dir))[i]];
      && (i < maxEntries - 1 || IsCreatedEntry(fs, p) ==> Lookup(r, p) == Lookup(fs, p))
      && (i >= maxEntries - 1 && !IsCreatedEntry(fs, p) ==> !IsRevisionDir(r, p))
  {
    PurgeUnfold(fs, dir, maxEntries);
    DropTail(fs, dir, Descending(RevisionIds(fs, dir)), maxEntries - 1, i);
  }

  /** The position of `id` in the descending order: the number of ids newer than it. */
  lemma RankOf(ids: set<string>, id: string) returns (i: nat)
    requires id in ids
    ensures i < |Descending(ids)| && Descending(ids)[i] == id && |Newer(ids, id)| == i
  {
    assert id in Descending(ids);
    i :| 0 <= i < |Descending(ids)| && Descending(ids)[i] == id;
    DescendingRank(ids, i);
  }

  /** The purge with something to drop is the drop loop over the listing from `maxEntries - 1` on. */
  lemma PurgeUnfold(fs: Fs, dir: Path, maxEntries: int)
    requires maxEntries > 0 && |RevisionIds(fs, dir)| >= maxEntries - 1
    ensures var sorted := Descending(RevisionIds(fs, dir));
      && Distinct(sorted) && AllRevisions(fs, dir, sorted)
      && Distinct(sorted[maxEntries - 1..]) && AllRevisions(fs, dir, sorted[maxEntries - 1..])
      && PurgeOldEntries(fs, dir, maxEntries) == DropUnlessCreated(fs, dir, sorted[maxEntries - 1..])
  {
    var sorted := Descending(RevisionIds(fs, dir));
    ListingFacts(fs, dir);
    TailFacts(fs, dir, sorted, maxEntries - 1);
  }

  /** The listing sorted newest first names distinct revisions. */
  lemma ListingFacts(fs: Fs, dir: Path)
    ensures Distinct(Descending(RevisionIds(fs, dir))) && AllRevisions(fs, dir, Descending(RevisionIds(fs, dir)))
  {
    SortedDistinct(Descending(RevisionIds(fs, dir)));
  }

  /** A tail of a list of distinct revisions is one too. */
  lemma TailFacts(fs: Fs, dir: Path, ids: seq<string>, keep: int)
    requires Distinct(ids) && AllRevisions(fs, dir, ids) && 0 <= keep <= |ids|
    ensures Distinct(ids[keep..]) && AllRevisions(fs, dir, ids[keep..])
  {
    var tail := ids[keep..];
    assert forall j | 0 <= j < |tail| :: tail[j] == ids[keep + j];
  }

  /** The drop loop over the tail from `keep` of a listing removes exactly its non-Created revisions. */
  lemma DropTail(fs: Fs, dir: Path, sorted: seq<string>, keep: int, i: int)
    requires Distinct(sorted) && AllRevisions(fs, dir, sorted) && 0 <= keep <= |sorted| && 0 <= i < |sorted|
    ensures Distinct(sorted[keep..]) && AllRevisions(fs, dir, sorted[keep..])
    ensures var r := DropUnlessCreated(fs, dir, sorted[keep..]);
      var p := dir + [sorted[i]];
      && (i < keep || IsCreatedEntry(fs, p) ==> Lookup(r, p) == Lookup(fs, p))
      && (i >= keep && !IsCreatedEntry(fs, p) ==> !IsRevisionDir(r, p))
  {
    var tail := sorted[keep..];
    assert forall j | 0 <= j < |tail| :: tail[j] == sorted[keep + j];
    DropFacts(fs, dir, tail, sorted[i]);
    TailMembership(sorted, keep, i);
  }

  /** The purge changes nothing outside the history directory. */
  lemma PurgeOutside(fs: Fs, dir: Path, maxEntries: int, q: Path)
    requires !IsPrefix(dir, q) && !IsPrefix(q, dir)
    ensures Lookup(PurgeOldEntries(fs, dir, maxEntries), q) == Lookup(fs, q)
  {
    if maxEntries > 0 {
      var sorted := Descending(RevisionIds(fs, dir));
      var keep := maxEntries - 1;
      if |sorted| >= keep {
        SortedDistinct(sorted);
        DropOutside(fs, dir, sorted[keep..], q);
      }
    }
  }

  /** Every revision left after the purge was already there, with the same entry. */
  lemma PurgeAddsNothing(fs: Fs, dir: Path, maxEntries: int, k: string)
    requires IsRevisionDir(PurgeOldEntries(fs, dir, maxEntries), dir + [k])
    ensures k in RevisionIds(fs, dir)
    ensures Lookup(PurgeOldEntries(fs, dir, maxEntries), dir + [k]) == Lookup(fs, dir + [k])
  {
    var r := PurgeOldEntries(fs, dir, maxEntries);
    if maxEntries > 0 && |RevisionIds(fs, dir)| >= maxEntries - 1 {
      PurgeUnfold(fs, dir, maxEntries);
      var tail := Descending(RevisionIds(fs, dir))[maxEntries - 1..];
      DropFacts(fs, dir, tail, k);
      if k in tail {
        assert k in Descending(RevisionIds(fs, dir));
      }
    }
    SameEntry(r, fs, dir + [k]);
  }

  lemma {:induction false} SubsetCard(a: set<string>, b: set<string>)
    requires a <= b
    ensures |a| <= |b|
    decreases |b|
  {
    if a != {} {
      var x :| x in a;
      SubsetCard(a - {x}, b - {x});
    }
  }

  lemma {:induction false} SeqSetCard(xs: seq<string>)
    ensures |set x | x in xs| <= |xs|
    decreases |xs|
  {
    if xs != [] {
      SeqSetCard(xs[1..]);
      assert (set x | x in xs) == (set x | x in xs[1..]) + {xs[0]};
    }
  }

  /**
   * Bounded retention: after a purge with `maxEntries > 0` at most
   * `maxEntries - 1` revisions that are not Created entries remain.
   */
  lemma PurgeBound(fs: Fs, dir: Path, maxEntries: int)
    requires maxEntries > 0
    ensures var r := PurgeOldEntries(fs, dir, maxEntries);
      |set k | k in RevisionIds(r, dir) && !IsCreatedEntry(r, dir + [k])| <= maxEntries - 1
  {
    var r := PurgeOldEntries(fs, dir, maxEntries);
    var ids := RevisionIds(fs, dir);
    var sorted := Descending(ids);
    var keep := maxEntries - 1;
    var left := set k | k in RevisionIds(r, dir) && !IsCreatedEntry(r, dir + [k]);
    if |sorted| >= keep {
      forall k | k in left
        ensures k in sorted[..keep]
      {
        PurgeAddsNothing(fs, dir, maxEntries, k);
        SameEntry(r, fs, dir + [k]);
        PurgeRetention(fs, dir, maxEntries, k);
        var i :| 0 <= i < |sorted| && sorted[i] == k;
        DescendingRank(ids, i);
        assert sorted[..keep][i] == k;
      }
      SubsetCard(left, set x | x in sorted[..keep]);
      SeqSetCard(sorted[..keep]);
    } else {
      forall k | k in left
        ensures k in ids
      {
        PurgeAddsNothing(fs, dir, maxEntries, k);
      }
      SubsetCard(left, ids);
    }
  }
}

/**
 * An abstract filesystem: a directory tree whose directories map child
 * names to entries.  Paths are sequences of names relative to the tree's
 * root.  Every mutation the model performs goes through `Edit` (set or
 * remove one entry under an existing directory) or `MkDirs` (File#mkdirs).
 */
module FileTree {
  import opened Options

  datatype Node<T> = File(data: T) | Dir(children: map<string, Node<T>>)

  type Path = seq<string>

  predicate IsPrefix(p: Path, q: Path) {
    |p| <= |q| && q[..|p|] == p
  }

  /** The entry at `p`, if any (File#exists). */
  function Lookup<T>(n: Node<T>, p: Path): Option<Node<T>>
    decreases |p|
  {
    if p == [] then Some(n)
    else match n
      case File(_) => None
      case Dir(c) => if p[0] in c then Lookup(c[p[0]], p[1..]) else None
  }

  predicate Exists<T>(n: Node<T>, p: Path) {
    Lookup(n, p).Some?
  }

  /** File#isDirectory. */
  predicate IsDirAt<T>(n: Node<T>, p: Path) {
    Lookup(n, p).Some? && Lookup(n, p).value.Dir?
  }

  /** The names listed in the directory at `p`; empty when `p` is not a directory (File#list gives null). */
  function ChildNames<T>(n: Node<T>, p: Path): set<string> {
    match Lookup(n, p)
    case Some(Dir(c)) => c.Keys
    case _ => {}
  }

  /** `b` agrees with `a` at every path that neither lies in `dir` nor leads to it. */
  ghost predicate SameOutside<T>(a: Node<T>, b: Node<T>, dir: Path) {
    forall q | !IsPrefix(dir, q) && !IsPrefix(q, dir) :: Lookup(b, q) == Lookup(a, q)
  }

  function Parent(p: Path): Path
    requires p != []
  {
    p[..|p| - 1]
  }

  /**
   * Sets (`v == Some(e)`) or removes (`v == None`) the entry named by `p`
   * inside the directory `Parent(p)`; `None` when that directory does not
   * exist (the Java I/O call fails).  The root itself can be replaced but
   * not removed.
   */
  function Edit<T>(n: Node<T>, p: Path, v: Option<Node<T>>): Option<Node<T>>
    decreases |p|
  {
    if p == [] then v
    else match n
      case File(_) => None
      case Dir(c) =>
        if |p| == 1 then Some(Dir(if v.Some? then c[p[0] := v.value] else c - {p[0]}))
        else if p[0] !in c then None
        else match Edit(c[p[0]], p[1..], v)
          case Some(child) => Some(Dir(c[p[0] := child]))
          case None => None
  }

  /** File#mkdirs: creates every missing directory along `p`; `None` when a file blocks the way. */
  function MkDirs<T>(n: Node<T>, p: Path): Option<Node<T>>
    decreases |p|
  {
    if p == [] then Some(n)
    else match n
      case File(_) => None
      case Dir(c) =>
        var child := if p[0] in c then c[p[0]] else Dir(map[]);
        match MkDirs(child, p[1..])
        case Some(r) => Some(Dir(c[p[0] := r]))
        case None => None
  }

  /** Writes a file (FileOutputStream, XmlFile#write): fails on a directory or a missing parent. */
  function WriteFile<T>(n: Node<T>, p: Path, data: T): Option<Node<T>> {
    if p == [] || IsDirAt(n, p) then None else Edit(n, p, Some(File(data)))
  }

  // ----- lemmas -----

  lemma LookupStep<T>(n: Node<T>, k: string, s: Path)
    ensures Lookup(n, [k] + s) == (if n.Dir? && k in n.children then Lookup(n.children[k], s) else None)
  {
    assert ([k] + s)[1..] == s;
  }

  lemma {:induction false} LookupAppend<T>(n: Node<T>, p: Path, s: Path)
    ensures Lookup(n, p + s) == (if Lookup(n, p).Some? then Lookup(Lookup(n, p).value, s) else None)
    decreases |p|
  {
    if p != [] {
      assert p + s == [p[0]] + (p[1..] + s) && p == [p[0]] + p[1..];
      LookupStep(n, p[0], p[1..] + s);
      LookupStep(n, p[0], p[1..]);
      if n.Dir? && p[0] in n.children {
        LookupAppend(n.children[p[0]], p[1..], s);
      }
    } else {
      assert p + s == s;
    }
  }

  /** A name is listed in the directory at `p` exactly when `p + [k]` exists. */
  lemma ChildNamesLookup<T>(n: Node<T>, p: Path, k: string)
    ensures k in ChildNames(n, p) <==> Exists(n, p + [k])
    ensures Exists(n, p + [k]) ==> IsDirAt(n, p) && Lookup(n, p + [k]) == Some(Lookup(n, p).value.children[k])
  {
    LookupAppend(n, p, [k]);
    if Lookup(n, p).Some? {
      LookupStep(Lookup(n, p).value, k, []);
    }
  }

  /** Anything that exists below the root sits inside an existing directory. */
  lemma {:induction false} ExistsParentIsDir<T>(n: Node<T>, p: Path)
    requires p != [] && Exists(n, p)
    ensures IsDirAt(n, Parent(p))
  {
    assert p == Parent(p) + [p[|p| - 1]];
    ChildNamesLookup(n, Parent(p), p[|p| - 1]);
  }

  /** `Edit` succeeds exactly when the parent directory exists. */
  lemma {:induction false} EditSucceeds<T>(n: Node<T>, p: Path, v: Option<Node<T>>)
    requires p != []
    ensures Edit(n, p, v).Some? <==> IsDirAt(n, Parent(p))
    decreases |p|
  {
    if |p| > 1 && n.Dir? && p[0] in n.children {
      EditSucceeds(n.children[p[0]], p[1..], v);
      assert Parent(p) == [p[0]] + Parent(p[1..]);
      LookupStep(n, p[0], Parent(p[1..]));
    } else if |p| > 1 {
      assert Parent(p) == [p[0]] + Parent(p)[1..];
      LookupStep(n, p[0], Parent(p)[1..]);
    }
  }

  /**
   * Frame of `Edit`: the entry at `p` and below is the new one, the
   * directories above stay directories, everything else is unchanged.
   */
  lemma {:induction false} LookupEdit<T>(n: Node<T>, p: Path, v: Option<Node<T>>, q: Path)
    requires Edit(n, p, v).Some?
    ensures var r := Edit(n, p, v).value;
      if IsPrefix(p, q) then Lookup(r, q) == (if v.Some? then Lookup(v.value, q[|p|..]) else None)
      else if IsPrefix(q, p) then IsDirAt(r, q)
      else Lookup(r, q) == Lookup(n, q)
    decreases |p|
  {
    var r := Edit(n, p, v).value;
    if p == [] {
      assert q[|p|..] == q;
    } else if q == [] {
      assert IsPrefix(q, p);
    } else {
      var c := n.children;
      LookupStep(r, q[0], q[1..]);
      LookupStep(n, q[0], q[1..]);
      assert [q[0]] + q[1..] == q;
      if |p| == 1 {
        if q[0] == p[0] {
          assert IsPrefix(p, q);
          assert q[|p|..] == q[1..];
          if v.Some? {
            assert Lookup(v.value, q[1..]) == Lookup(v.value, q[|p|..]);
          }
        } else {
          assert !IsPrefix(p, q) && !IsPrefix(q, p);
        }
      } else {
        var child := Edit(c[p[0]], p[1..], v).value;
        assert r.children == c[p[0] := child];
        if q[0] == p[0] {
          LookupEdit(c[p[0]], p[1..], v, q[1..]);
          assert IsPrefix(p, q) <==> IsPrefix(p[1..], q[1..]);
          assert IsPrefix(q, p) <==> IsPrefix(q[1..], p[1..]);
          if IsPrefix(p, q) {
            assert q[|p|..] == q[1..][|p[1..]|..];
          }
        } else {
          assert !IsPrefix(p, q) && !IsPrefix(q, p);
        }
      }
    }
  }

  /** `MkDirs` succeeds when no file stands on the way, and then `p` exists. */
  lemma {:induction false} MkDirsFacts<T>(n: Node<T>, p: Path, q: Path)
    requires MkDirs(n, p).Some?
    ensures var r := MkDirs(n, p).value;
      && Exists(r, p)
      && (Exists(n, p) ==> r == n)
      && (!Exists(n, p) ==> Lookup(r, p) == Some(Dir(map[])))
      && (IsPrefix(q, p) && q != p ==> IsDirAt(r, q))
      && (!IsPrefix(q, p) ==> Lookup(r, q) == Lookup(n, q))
    decreases |p|
  {
    var r := MkDirs(n, p).value;
    if p != [] {
      var c := n.children;
      var child := if p[0] in c then c[p[0]] else Dir(map[]);
      var rc := MkDirs(child, p[1..]).value;
      assert r.children == c[p[0] := rc];
      MkDirsFacts(child, p[1..], if q == [] then [] else q[1..]);
      LookupStep(r, p[0], p[1..]);
      LookupStep(n, p[0], p[1..]);
      assert [p[0]] + p[1..] == p;
      if p[0] !in c {
        MkDirsFacts(child, p[1..], p[1..]);
      }
      if q != [] {
        LookupStep(r, q[0], q[1..]);
        LookupStep(n, q[0], q[1..]);
        assert [q[0]] + q[1..] == q;
        if q[0] == p[0] {
          assert IsPrefix(q, p) <==> IsPrefix(q[1..], p[1..]);
          if !IsPrefix(q, p) && p[0] !in c {
            MkDirsFacts(child, p[1..], q[1..]);
            var empty: Node<T> := Dir(map[]);
            assert q[1..] != [];
            assert Lookup(empty, q[1..]) == None;
          }
        } else {
          assert !IsPrefix(q, p);
        }
      }
    }
  }
}

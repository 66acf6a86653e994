/// Directory trees addressed by path: what a mount namespace shows and what a
/// staging tmpfs holds.
module FileTrees {
  import opened Wrappers

  type Path = seq<string>

  /** A file or a link is known by the place its content comes from. A link also says
      what it leads to, as deep as anyone may look through it. */
  datatype Tree = File(origin: Path) | Link(origin: Path, leads: Option<Tree>) | Dir(entries: map<string, Tree>)

  const EMPTY_DIR: Tree := Dir(map[])

  function Entry<T>(entries: map<string, T>, name: string): Option<T> {
    if name in entries then Some(entries[name]) else None
  }

  function With(entries: map<string, Tree>, name: string, x: Option<Tree>): map<string, Tree> {
    if x.Some? then entries[name := x.value] else entries - {name}
  }

  function Get(t: Option<Tree>, path: Path): Option<Tree>
    decreases path
  {
    if path == [] then t
    else if t.Some? && t.value.Dir? then Get(Entry(t.value.entries, path[0]), path[1..])
    else None
  }

  /** What is reached where links are followed. */
  function Behind(t: Option<Tree>): (r: Option<Tree>)
    ensures r.Some? ==> !r.value.Link?
    decreases t
  {
    if t.Some? && t.value.Link? then Behind(t.value.leads) else t
  }

  /** The entries of a directory, or of the one a link leads to. */
  function EntriesOf(t: Option<Tree>): map<string, Tree> {
    if Behind(t).Some? && Behind(t).value.Dir? then Behind(t).value.entries else map[]
  }

  /** What a path names: links on the way are followed, the last component is not. */
  function Through(t: Option<Tree>, path: Path): Option<Tree>
    decreases path
  {
    if path == [] then t else Through(Entry(EntriesOf(t), path[0]), path[1..])
  }

  /** Whether some file stands where a path needs a directory. */
  predicate UnderFile(t: Option<Tree>, path: Path)
    decreases path
  {
    path != [] && ((Behind(t).Some? && Behind(t).value.File?) || UnderFile(Entry(EntriesOf(t), path[0]), path[1..]))
  }

  /** Make `path` show `x`, where everything above it is a directory. */
  function Put(t: Option<Tree>, path: Path, x: Option<Tree>): Option<Tree>
    decreases path
  {
    if path == [] then x
    else if t.Some? && t.value.Dir? then
      Some(Dir(With(t.value.entries, path[0], Put(Entry(t.value.entries, path[0]), path[1..], x))))
    else t
  }

  predicate ParentIsDir(t: Option<Tree>, path: Path)
    decreases path
  {
    path == []
    || (t.Some? && t.value.Dir? && ParentIsDir(Entry(t.value.entries, path[0]), path[1..]))
  }

  /** Strictly above. */
  predicate Above(a: Path, b: Path) {
    a <= b && a != b
  }

  lemma Related(a: Path, b: Path, c: Path)
    requires a <= c && b <= c
    ensures a <= b || b <= a
  {
    assert a == c[..|a|] && b == c[..|b|];
  }

  predicate Comparable(p: Path, q: Path) {
    p <= q || q <= p
  }

  lemma SameEntries<T>(a: map<string, T>, b: map<string, T>)
    requires forall n :: Entry(a, n) == Entry(b, n)
    ensures a == b
  {
    forall n ensures n in a <==> n in b {
      assert Entry(a, n) == Entry(b, n);
    }
    forall n | n in a && n in b ensures a[n] == b[n] {
      assert Entry(a, n) == Entry(b, n);
    }
    assert a.Keys == b.Keys;
  }

  lemma {:induction false} GetPut(t: Option<Tree>, path: Path, x: Option<Tree>)
    requires ParentIsDir(t, path)
    ensures Get(Put(t, path, x), path) == x && ParentIsDir(Put(t, path, x), path)
    decreases path
  {
    if path != [] { GetPut(Entry(t.value.entries, path[0]), path[1..], x); }
  }

  lemma {:induction false} PutGet(t: Option<Tree>, path: Path)
    ensures Put(t, path, Get(t, path)) == t
    decreases path
  {
    if path != [] && t.Some? && t.value.Dir? {
      var e := t.value.entries;
      PutGet(Entry(e, path[0]), path[1..]);
      assert With(e, path[0], Entry(e, path[0])) == e;
    }
  }

  lemma {:induction false} PutPut(t: Option<Tree>, path: Path, x: Option<Tree>, y: Option<Tree>)
    requires ParentIsDir(t, path)
    ensures Put(Put(t, path, x), path, y) == Put(t, path, y)
    decreases path
  {
    if path != [] {
      var e, n := t.value.entries, path[0];
      var c := Put(Entry(e, n), path[1..], x);
      PutPut(Entry(e, n), path[1..], x, y);
      assert Entry(With(e, n, c), n) == c;
      var d := Put(c, path[1..], y);
      assert With(With(e, n, c), n, d) == With(e, n, d);
    }
  }

  /** Showing `x` one level below a directory just shown is showing the changed directory. */
  lemma {:induction false} PutUnder(t: Option<Tree>, path: Path, e: map<string, Tree>, n: string, x: Option<Tree>)
    requires ParentIsDir(t, path)
    ensures Put(Put(t, path, Some(Dir(e))), path + [n], x) == Put(t, path, Some(Dir(With(e, n, x))))
    ensures ParentIsDir(Put(t, path, Some(Dir(e))), path + [n])
    ensures Get(Put(t, path, Some(Dir(e))), path + [n]) == Entry(e, n)
    decreases path
  {
    if path != [] {
      var o, m := t.value.entries, path[0];
      PutUnder(Entry(o, m), path[1..], e, n, x);
      var inner := Put(Entry(o, m), path[1..], Some(Dir(e)));
      assert (path + [n])[1..] == path[1..] + [n];
      PutSome(Entry(o, m), path[1..], Dir(e));
      var s := Put(t, path, Some(Dir(e)));
      assert s.value.entries == With(o, m, inner);
      assert Entry(With(o, m, inner), m) == inner;
      var y := Put(inner, path[1..] + [n], x);
      assert With(With(o, m, inner), m, y) == With(o, m, y);
    }
  }

  lemma {:induction false} PutSome(t: Option<Tree>, path: Path, x: Tree)
    requires ParentIsDir(t, path)
    ensures Put(t, path, Some(x)).Some?
    decreases path
  {
  }

  lemma {:induction false} GetUnder(t: Option<Tree>, path: Path, n: string)
    ensures Get(t, path + [n]) == Get(Get(t, path), [n])
    ensures ParentIsDir(t, path) && Get(t, path).Some? && Get(t, path).value.Dir? ==> ParentIsDir(t, path + [n])
    decreases path
  {
    if path != [] && t.Some? && t.value.Dir? {
      GetUnder(Entry(t.value.entries, path[0]), path[1..], n);
      assert (path + [n])[1..] == path[1..] + [n];
    }
  }

  lemma {:induction false} ThroughUnder(t: Option<Tree>, path: Path, n: string)
    ensures Through(t, path + [n]) == Entry(EntriesOf(Through(t, path)), n)
    ensures UnderFile(t, path + [n]) <==>
            UnderFile(t, path) || (Behind(Through(t, path)).Some? && Behind(Through(t, path)).value.File?)
    decreases path
  {
    if path != [] {
      ThroughUnder(Entry(EntriesOf(t), path[0]), path[1..], n);
      assert (path + [n])[1..] == path[1..] + [n];
    }
  }

  /** With only directories on the way there is nothing to follow. */
  lemma {:induction false} ThroughDirs(t: Option<Tree>, path: Path)
    requires ParentIsDir(t, path)
    ensures Through(t, path) == Get(t, path) && !UnderFile(t, path)
    decreases path
  {
    if path != [] { ThroughDirs(Entry(t.value.entries, path[0]), path[1..]); }
  }

  // --- Staging ------------------------------------------------------------

  /** Whether a directory can be made at `path` that starts out empty. */
  predicate Free(t: Option<Tree>, path: Path)
    decreases path
  {
    t.None?
    || (t.value.Dir? && (if path == [] then t.value.entries == map[]
                         else Free(Entry(t.value.entries, path[0]), path[1..])))
  }

  /** `create_dir_all`, where nothing on the way is a file. */
  function MakeDirs(t: Option<Tree>, path: Path): Tree
    requires Free(t, path)
    decreases path
  {
    if path == [] then (if t.Some? then t.value else EMPTY_DIR)
    else
      var e := if t.Some? then t.value.entries else map[];
      Dir(e[path[0] := MakeDirs(Entry(e, path[0]), path[1..])])
  }

  lemma {:induction false} MakeDirsMakes(t: Option<Tree>, path: Path)
    requires Free(t, path)
    ensures ParentIsDir(Some(MakeDirs(t, path)), path)
    ensures Get(Some(MakeDirs(t, path)), path) == Some(EMPTY_DIR)
    ensures ParentIsDir(t, path) ==> Some(MakeDirs(t, path)) == Put(t, path, Some(EMPTY_DIR))
    decreases path
  {
    if path != [] {
      var e := if t.Some? then t.value.entries else map[];
      MakeDirsMakes(Entry(e, path[0]), path[1..]);
    }
  }

  lemma {:induction false} MakeDirsKeepsFree(t: Option<Tree>, path: Path, q: Path)
    requires Free(t, path) && Free(t, q) && !Comparable(path, q)
    ensures Free(Some(MakeDirs(t, path)), q)
    decreases path
  {
    var e := if t.Some? then t.value.entries else map[];
    if path[0] == q[0] {
      assert path == [path[0]] + path[1..] && q == [q[0]] + q[1..];
      MakeDirsKeepsFree(Entry(e, path[0]), path[1..], q[1..]);
    }
  }

  lemma {:induction false} PutKeepsFree(t: Option<Tree>, path: Path, x: Option<Tree>, q: Path)
    requires ParentIsDir(t, path) && Free(t, q) && !Comparable(path, q)
    ensures Free(Put(t, path, x), q)
    decreases path
  {
    var e := t.value.entries;
    if path[0] == q[0] {
      assert path == [path[0]] + path[1..] && q == [q[0]] + q[1..];
      PutKeepsFree(Entry(e, path[0]), path[1..], x, q[1..]);
    }
  }

  lemma {:induction false} FreeBelow(t: Option<Tree>, path: Path, n: string)
    requires Free(t, path)
    ensures Free(t, path + [n])
    decreases path
  {
    if path != [] && t.Some? {
      FreeBelow(Entry(t.value.entries, path[0]), path[1..], n);
      assert (path + [n])[1..] == path[1..] + [n];
    }
  }

  lemma AbsentIsFree(t: Option<Tree>, path: Path)
    requires ParentIsDir(t, path) && Get(t, path).None?
    ensures Free(t, path)
    decreases path
  {
    if path != [] { AbsentIsFree(Entry(t.value.entries, path[0]), path[1..]); }
  }
}

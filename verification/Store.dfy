/** The filecache table together with its two counters: the next fileid the
    database hands out and the next etag.  An etag is 128 random bits in the
    server; here it is a number never drawn before. */
module Stores {
  import opened Paths
  import opened Tree
  import opened Propagation

  datatype Store = Store(rows: Table, nextId: int, nextEtag: nat)

  const TRASH: Path := ["files_trashbin", "files"]

  /** No file sits where the trash folder belongs. */
  ghost predicate TrashIsFolder(t: Table) {
    forall id :: At(t, id, TRASH) ==> t[id].isDir
  }

  ghost predicate Valid(s: Store) {
    && Shaped(s.rows) && SizesOk(s.rows) && TrashIsFolder(s.rows)
    && s.nextId > 0
    && forall id :: id in s.rows ==> id < s.nextId && s.rows[id].etag < s.nextEtag
  }

  /** What a request reads from outside the table: the clock and the mtimes of
      directories and files on disk. */
  datatype Env = Env(now: int, diskMtime: Path -> int)

  // ── Statements ─────────────────────────────────────────────────────────────

  function Prop(s: Store, p: Path, time: int, delta: int, env: Env): Store {
    var clamped := if time < env.now then time else env.now;
    s.(rows := Propagate(s.rows, p, clamped, delta, s.nextEtag), nextEtag := s.nextEtag + 1)
  }

  ghost function ChainOn(s: Store, p: Path): Store {
    s.(rows := Chain(s.rows, p))
  }

  /** `correct_parent_storage_mtime` on the directory `q`. */
  function Touch(s: Store, q: Path, env: Env): Store {
    s.(rows := map id | id in s.rows ::
         if s.rows[id].path == q
         then s.rows[id].(storageMtime := env.diskMtime(q), mtime := env.diskMtime(q))
         else s.rows[id])
  }

  /** INSERT with an id from the database; `etag` is given by the caller. */
  function Insert(s: Store, r: Row): Store {
    s.(rows := s.rows[s.nextId := r], nextId := s.nextId + 1)
  }

  /** INSERT with a newly drawn etag. */
  function InsertFresh(s: Store, r: Row): Store {
    Insert(s.(nextEtag := s.nextEtag + 1), r.(etag := s.nextEtag))
  }

  ghost function ParentId(s: Store, p: Path): int {
    if p != [] && HasPath(s.rows, Parent(p)) then IdAt(s.rows, Parent(p)) else -1
  }

  ghost function NewRow(s: Store, p: Path, isDir: bool, size: int, mtime: int, storageMtime: int, etag: nat): Row
    requires p != []
  {
    Row(p, ParentId(s, p), Last(p), isDir, size, mtime, storageMtime, etag)
  }

  // ── Histories ──────────────────────────────────────────────────────────────

  /** The rows below `id` are the same in both tables, at the same place relative
      to `id` (which may itself have been moved). */
  ghost predicate SubtreeSame(t: Table, u: Table, id: int)
    requires id in t && id in u
  {
    && (forall j :: (j in t && Above(t[id].path, t[j].path)) <==> (j in u && Above(u[id].path, u[j].path)))
    && (forall j :: j in t && Above(t[id].path, t[j].path) ==>
          && u[j].path == u[id].path + t[j].path[|t[id].path|..]
          && u[j] == t[j].(path := u[j].path))
  }

  /** What holds between the states before and after any write: ids and etags are
      never reused, a directory keeps its etag or gets a new one, and a directory
      that keeps its etag keeps its whole subtree. */
  ghost predicate Evolves(s: Store, u: Store) {
    && s.nextId <= u.nextId && s.nextEtag <= u.nextEtag
    && (forall id :: id in u.rows && id !in s.rows ==> id >= s.nextId)
    && (forall id :: id in s.rows && id in u.rows ==> s.rows[id].isDir == u.rows[id].isDir)
    && (forall id :: id in s.rows && id in u.rows && s.rows[id].isDir ==>
          u.rows[id].etag == s.rows[id].etag || u.rows[id].etag >= s.nextEtag)
    && (forall id :: id in s.rows && id in u.rows && s.rows[id].isDir && u.rows[id].etag == s.rows[id].etag ==>
          SubtreeSame(s.rows, u.rows, id))
  }

  lemma EvolvesReflexive(s: Store)
    ensures Evolves(s, s)
  {
    forall id | id in s.rows
      ensures SubtreeSame(s.rows, s.rows, id)
    {
      forall j | j in s.rows && Above(s.rows[id].path, s.rows[j].path)
        ensures s.rows[j].path == s.rows[id].path + s.rows[j].path[|s.rows[id].path|..]
      {
      }
    }
  }

  lemma SubtreeSameTransitive(t: Table, u: Table, w: Table, id: int)
    requires id in t && id in u && id in w
    requires SubtreeSame(t, u, id) && SubtreeSame(u, w, id)
    ensures SubtreeSame(t, w, id)
  {
    forall j | j in t && Above(t[id].path, t[j].path)
      ensures w[j].path == w[id].path + t[j].path[|t[id].path|..]
      ensures w[j] == t[j].(path := w[j].path)
    {
      assert j in u && Above(u[id].path, u[j].path);
      assert u[j].path[|u[id].path|..] == t[j].path[|t[id].path|..];
    }
  }

  lemma EvolvesTransitive(s: Store, u: Store, w: Store)
    requires Valid(s) && Valid(u) && Evolves(s, u) && Evolves(u, w)
    ensures Evolves(s, w)
  {
    forall id | id in s.rows && id in w.rows
      ensures id in u.rows
    {
    }
    forall id | id in s.rows && id in w.rows && s.rows[id].isDir && w.rows[id].etag == s.rows[id].etag
      ensures SubtreeSame(s.rows, w.rows, id)
    {
      SubtreeSameTransitive(s.rows, u.rows, w.rows, id);
    }
  }

  /** Where a write may change, add or restamp rows: its two ends, anything above
      them, and top-level entries. */
  ghost predicate Near(q: Path, from: Path, to: Path) {
    q == from || q == to || Above(q, from) || Above(q, to) || |q| == 1
  }

  /** A write that moved the subtree `from` to `to` (or, with `from == to`, stayed
      in place), changed rows only near its two ends, removed at most the whole
      subtree at `from`, and stamped everything above either end. */
  ghost predicate Edit(s: Store, u: Store, from: Path, to: Path) {
    && EditBody(s, u, from, to)
    && forall id :: id in u.rows && (Above(u.rows[id].path, from) || Above(u.rows[id].path, to)) ==>
         u.rows[id].etag >= s.nextEtag
  }

  ghost predicate EditBody(s: Store, u: Store, from: Path, to: Path) {
    && from != [] && to != []
    && (from != to ==>
          && !AtOrBelow(from, to) && !AtOrBelow(to, from)
          && forall id :: id in s.rows ==> !AtOrBelow(s.rows[id].path, to))
    && s.nextId <= u.nextId && s.nextEtag <= u.nextEtag
    && (forall id :: id in u.rows && id !in s.rows ==> id >= s.nextId && Near(u.rows[id].path, from, to))
    && (forall id :: id in s.rows && id !in u.rows ==> AtOrBelow(s.rows[id].path, from))
    && (s.rows.Keys <= u.rows.Keys ||
        forall id :: id in s.rows && AtOrBelow(s.rows[id].path, from) ==> id !in u.rows)
    && (forall id :: id in s.rows && id in u.rows ==> EditedRow(s, u.rows[id], s.rows[id], from, to))
  }

  ghost predicate EditedRow(s: Store, after: Row, before: Row, from: Path, to: Path) {
    && after.isDir == before.isDir
    && after.path == Rebase(before.path, from, to)
    && (before.isDir ==> after.etag == before.etag || after.etag >= s.nextEtag)
    && (after == before.(path := after.path) || Near(after.path, from, to))
  }

  /** Nothing near an edit lies below an unstamped row that stayed outside it. */
  lemma NearMisses(p: Path, q: Path, from: Path, to: Path)
    requires Above(p, q) && Near(q, from, to) && from != []
    ensures Above(p, from) || Above(p, to)
  {
    if Above(q, from) {
      AboveTransitive(p, q, from);
    } else if Above(q, to) {
      AboveTransitive(p, q, to);
    }
  }

  lemma EditKeepsInside(s: Store, u: Store, from: Path, to: Path, id: int)
    requires Edit(s, u, from, to)
    requires id in s.rows && id in u.rows && AtOrBelow(s.rows[id].path, from)
    ensures SubtreeSame(s.rows, u.rows, id)
  {
    var p, p' := s.rows[id].path, u.rows[id].path;
    assert EditedRow(s, u.rows[id], s.rows[id], from, to);
    RebaseShape(p, from, to);
    assert s.rows.Keys <= u.rows.Keys;
    forall j | j in u.rows && Above(p', u.rows[j].path)
      ensures !Near(u.rows[j].path, from, to)
      ensures j in s.rows && Above(p, s.rows[j].path)
    {
      var q' := u.rows[j].path;
      AtOrBelowTransitive(q', p', to);
      if Near(q', from, to) {
        NearMisses(p', q', from, to);
        if Above(p', from) {
          AtOrBelowTransitive(from, p', to);
        }
      }
      assert EditedRow(s, u.rows[j], s.rows[j], from, to);
      RebaseAbove(p, s.rows[j].path, from, to);
    }
    forall j | j in s.rows && Above(p, s.rows[j].path)
      ensures Above(p', u.rows[j].path)
      ensures u.rows[j].path == p' + s.rows[j].path[|p|..]
      ensures u.rows[j] == s.rows[j].(path := u.rows[j].path)
    {
      assert EditedRow(s, u.rows[j], s.rows[j], from, to);
      AtOrBelowTransitive(s.rows[j].path, p, from);
      RebaseAbove(p, s.rows[j].path, from, to);
    }
  }

  lemma EditKeepsOutside(s: Store, u: Store, from: Path, to: Path, id: int)
    requires Edit(s, u, from, to)
    requires id in s.rows && id in u.rows && !AtOrBelow(s.rows[id].path, from)
    requires u.rows[id].etag < s.nextEtag
    ensures SubtreeSame(s.rows, u.rows, id)
  {
    var p := s.rows[id].path;
    assert EditedRow(s, u.rows[id], s.rows[id], from, to);
    assert !Above(p, from) && !Above(p, to);
    forall j | j in s.rows && Above(p, s.rows[j].path)
      ensures j in u.rows && u.rows[j] == s.rows[j]
    {
      if AtOrBelow(s.rows[j].path, from) {
        Comparable(p, from, s.rows[j].path);
      }
      assert EditedRow(s, u.rows[j], s.rows[j], from, to);
      if Near(u.rows[j].path, from, to) {
        NearMisses(p, u.rows[j].path, from, to);
      }
    }
    forall j | j in u.rows && Above(p, u.rows[j].path)
      ensures j in s.rows && s.rows[j].path == u.rows[j].path
    {
      if j !in s.rows {
        NearMisses(p, u.rows[j].path, from, to);
      } else {
        assert EditedRow(s, u.rows[j], s.rows[j], from, to);
        if AtOrBelow(s.rows[j].path, from) {
          RebaseShape(s.rows[j].path, from, to);
          Comparable(p, to, u.rows[j].path);
        }
      }
    }
  }

  /** A directory that an edit leaves unstamped keeps its whole subtree. */
  lemma EditEvolves(s: Store, u: Store, from: Path, to: Path)
    requires Valid(s) && Edit(s, u, from, to)
    ensures Evolves(s, u)
  {
    forall id | id in s.rows && id in u.rows
      ensures s.rows[id].isDir == u.rows[id].isDir
      ensures s.rows[id].isDir ==> u.rows[id].etag == s.rows[id].etag || u.rows[id].etag >= s.nextEtag
    {
      assert EditedRow(s, u.rows[id], s.rows[id], from, to);
    }
    forall id | id in s.rows && id in u.rows && s.rows[id].isDir && u.rows[id].etag == s.rows[id].etag
      ensures SubtreeSame(s.rows, u.rows, id)
    {
      if AtOrBelow(s.rows[id].path, from) {
        EditKeepsInside(s, u, from, to, id);
      } else {
        EditKeepsOutside(s, u, from, to, id);
      }
    }
  }
}

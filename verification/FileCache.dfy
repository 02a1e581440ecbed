/** The filecache as the server changes it, statement by statement. */
module FileCaches {
  import opened Options
  import opened Paths
  import opened Tree
  import opened Propagation
  import opened Stores
  import opened Statements
  import opened Operations
  import opened TrashProofs
  import opened FileCacheProofs
  import Decimal
  import Outcomes
  import WriteOutcomes

  /** Each method is proved to have exactly the effect of its specification. */
  class FileCache {
    var rows: Table
    var nextId: int
    var nextEtag: nat

    ghost function Contents(): Store
      reads this
    {
      Store(rows, nextId, nextEtag)
    }

    constructor (rows: Table, nextId: int, nextEtag: nat)
      requires Valid(Store(rows, nextId, nextEtag))
      ensures Contents() == Store(rows, nextId, nextEtag)
    {
      this.rows, this.nextId, this.nextEtag := rows, nextId, nextEtag;
    }

    /** The row with this path hash, if any. */
    method LookupByPath(p: Path) returns (found: Option<int>)
      requires Valid(Contents())
      ensures found.Some? <==> HasPath(rows, p)
      ensures found.Some? ==> At(rows, found.value, p) && found.value == IdAt(rows, p)
    {
      var ids := set id | id in rows && rows[id].path == p;
      if ids == {} {
        assert forall id :: At(rows, id, p) ==> id in ids;
        return None;
      }
      var id := AnyOf(ids);
      assert At(rows, id, p);
      return Some(id);
    }

    // ── The propagator ───────────────────────────────────────────────────────

    /** Every row above `p` gets one new etag, and an mtime that is never put back, nor
        ahead of the clock. */
    method PropagateChange(p: Path, time: int, delta: int, env: Env)
      requires p != []
      modifies this
      ensures Contents() == Prop(old(Contents()), p, time, delta, env)
      ensures Outcomes.AllTold(old(Contents()), Contents(), p, time, delta, env)
    {
      Outcomes.PropTellsAll(Contents(), p, time, delta, env);
      var parents := GetParents(p);
      var clamped := if time < env.now then time else env.now;
      var etag := nextEtag;
      nextEtag := nextEtag + 1;
      rows := map id | id in rows ::
        if rows[id].path in parents then Bump(rows[id], clamped, delta, etag) else rows[id];
      assert rows == Propagate(old(rows), p, clamped, delta, etag) by {
        forall id | id in old(rows)
          ensures old(rows)[id].path in parents <==> Above(old(rows)[id].path, p)
        {
          InParents(old(rows)[id].path, p, parents);
        }
      }
    }

    /** Every ancestor, deepest first. */
    method CorrectFolderSizeChain(p: Path)
      requires Valid(Contents())
      modifies this
      ensures Contents() == ChainOn(old(Contents()), p)
    {
      var parents := GetParents(p);
      var i := |parents|;
      assert p[..i] == p;
      while i > 0
        invariant 0 <= i <= |parents|
        invariant Valid(Contents())
        invariant nextId == old(nextId) && nextEtag == old(nextEtag)
        invariant Chain(rows, p[..i]) == Chain(old(rows), p)
      {
        i := i - 1;
        assert Parent(p[..i + 1]) == p[..i];
        RecomputeFolderSize(parents[i]);
      }
    }

    /** SUM and MIN over the direct children; unchanged sizes are not written. */
    method RecomputeFolderSize(q: Path)
      requires Valid(Contents())
      modifies this
      ensures Valid(Contents())
      ensures Contents() == old(Contents()).(rows := RecomputeAt(old(rows), q))
    {
      var folder := LookupByPath(q);
      if folder.None? {
        return;
      }
      var id := folder.value;
      var total, least := SumAndMin(rows, set c | c in rows && rows[c].parent == id);
      assert AnyUnscanned(rows, Children(rows, id)) <==> HasUnscanned(rows, id);
      var size := if least == -1 then -1 else total;
      ExpectedAtLeast(rows, id);
      if size != rows[id].size {
        rows := rows[id := rows[id].(size := size)];
        SameShapeKeeps(old(rows), rows);
      } else {
        assert rows == rows[id := rows[id].(size := size)];
      }
    }

    method CorrectParentStorageMtime(q: Path, env: Env)
      modifies this
      ensures Contents() == Touch(old(Contents()), q, env)
    {
      rows := map id | id in rows ::
        if rows[id].path == q
        then rows[id].(storageMtime := env.diskMtime(q), mtime := env.diskMtime(q))
        else rows[id];
    }

    // ── Ancestor creation ────────────────────────────────────────────────────

    method InsertRow(r: Row)
      modifies this
      ensures Contents() == Insert(old(Contents()), r)
    {
      rows := rows[nextId := r];
      nextId := nextId + 1;
    }

    method NewEtag() returns (etag: nat)
      modifies this`nextEtag
      ensures etag == old(nextEtag) && nextEtag == old(nextEtag) + 1
    {
      etag := nextEtag;
      nextEtag := nextEtag + 1;
    }

    /** One missing directory: insert, parent mtime from disk, propagate. */
    method MakeDir(p: Path, parent: int, env: Env)
      requires Valid(Contents()) && p != [] && At(rows, parent, Parent(p))
      modifies this
      ensures Contents() == MkdirAt(old(Contents()), p, env)
    {
      assert parent == ParentId(Contents(), p);
      var etag := NewEtag();
      InsertRow(Row(p, parent, Last(p), true, 0, env.now, env.now, etag));
      CorrectParentStorageMtime(Parent(p), env);
      PropagateChange(p, env.now, 0, env);
    }

    /** Walks the segments of `p`; a missing first segment is made a sibling of
        `files`, and nothing can be made below a file. */
    method EnsureParentDir(p: Path, env: Env) returns (ok: bool)
      requires Valid(Contents())
      modifies this
      ensures ok <==> CanEnsure(old(rows), p)
      ensures Contents() == if ok then EnsureDirs(old(Contents()), p, env) else old(Contents())
    {
      var found := LookupByPath(p);
      if found.Some? {
        return true;
      }
      ghost var s := Contents();
      var last: Option<int> := None;
      var built: Path := [];
      for i := 0 to |p|
        invariant built == p[..i] && Valid(Contents())
        invariant NoFileAbove(s.rows, built) && Contents() == EnsureDirs(s, built, env)
        invariant HasPath(rows, built)
        invariant last.None? <==> i == 0
        invariant last.Some? ==> At(rows, last.value, built)
        invariant i > 0 ==> HasPath(s.rows, p[..1]) || HasPath(s.rows, ["files"])
      {
        ghost var above := built;
        built := built + [p[i]];
        assert Parent(built) == above && built == p[..i + 1];
        found := LookupByPath(built);
        if found.Some? {
          FoundSegment(s, Contents(), above, built, env);
          last := found;
          continue;
        }
        if last.None? {
          var files := LookupByPath(["files"]);
          if files.None? {
            return false;
          }
          FilesInRoot(Contents(), files.value);
          last := Some(rows[files.value].parent);
        }
        if !rows[last.value].isDir {
          FileInTheWay(s, Contents(), above, p, last.value, env);
          return false;
        }
        MissingSegment(s, Contents(), above, built, last.value, env);
        MakeDir(built, last.value, env);
        last := Some(nextId - 1);
      }
      assert built == p;
      return true;
    }

    // ── PUT and bulk upload ──────────────────────────────────────────────────

    /** The content about to be overwritten, kept as a version. */
    method StoreVersion(p: Path, r: Row, env: Env)
      requires Valid(Contents()) && InFiles(p) && r.size >= -1 && r.etag < nextEtag
      modifies this
      ensures Contents() == Operations.StoreVersion(old(Contents()), p, r, env)
    {
      var v := VersionPath(p, r.mtime);
      if IsPartFile(p) || r.size == 0 || r.isDir {
        return;
      }
      var blocked := Blocked(v);
      if blocked {
        return;
      }
      ghost var s := Contents();
      var ok := EnsureParentDir(Parent(v), env);
      if !ok {
        return;
      }
      VersionParent(s, v, env);
      var found := LookupByPath(v);
      var parent := LookupByPath(Parent(v));
      if found.None? {
        InsertRow(Row(v, parent.value, Last(v), false, r.size, r.mtime, env.now, r.etag));
      }
      CorrectParentStorageMtime(Parent(v), env);
      PropagateChange(v, env.now, 0, env);
      ghost var t := Contents();
      VersionValid(s, p, r, env);
      CorrectFolderSizeChain(v);
    }

    /** A file cannot be written onto a directory or below a file. */
    method Blocked(v: Path) returns (blocked: bool)
      requires Valid(Contents())
      ensures blocked <==> IsDirAt(rows, v) || !NoFileAbove(rows, v)
    {
      var found := LookupByPath(v);
      var parents := GetParents(v);
      blocked := found.Some? && rows[found.value].isDir;
      for i := 0 to |parents|
        invariant blocked <==> IsDirAt(rows, v) || exists j :: 0 <= j < i && FileAt(rows, parents[j])
      {
        var above := LookupByPath(parents[i]);
        blocked := blocked || (above.Some? && !rows[above.value].isDir);
      }
      assert blocked <==> IsDirAt(rows, v) || !NoFileAbove(rows, v) by {
        FilesAmongParents(Contents(), v, parents);
      }
    }

    /** PUT: open, body, version, quota check, then the row and its ancestors. */
    method Put(p: Path, up: Upload, env: Env) returns (outcome: Outcome)
      requires Valid(Contents()) && InFiles(p)
      modifies this
      ensures Result(Contents(), outcome) == Operations.Put(old(Contents()), p, up, env)
      ensures outcome == Done ==> WriteOutcomes.Uploaded(old(Contents()), Contents(), p, up, env)
    {
      hide Shaped, TrashIsFolder, WriteOutcomes.Uploaded;
      ghost var s := Contents();
      WriteOutcomes.PutUploads(s, p, up, env);
      var existing := LookupByPath(p);
      if existing.Some? && rows[existing.value].isDir {
        return Refused;
      }
      var r := if existing.Some? then Some(rows[existing.value]) else None;
      var ensured := EnsureParentDir(Parent(p), env);
      if !ensured {
        return Refused;
      }
      PutOpened(s, p, env);
      var parent := LookupByPath(Parent(p));
      if !rows[parent.value].isDir || !up.checksumOk {
        return Refused;
      }
      if r.None? {
        var over := OverQuotaNow(up.quota, up.size);
        if over {
          return Refused;
        }
        CommitNew(p, parent.value, up, env);
      } else {
        StoreVersion(p, r.value, env);
        PutVersioned(s, p, env);
        var over := OverQuotaNow(up.quota, up.size);
        if over {
          return Refused;
        }
        CommitOverwrite(p, existing.value, r.value, up, env);
      }
      return Done;
    }

    method OverQuotaNow(quota: Quota, size: nat) returns (over: bool)
      requires Valid(Contents())
      ensures over == OverQuota(rows, quota, size)
    {
      match quota {
        case Unlimited => over := false;
        case Limit(bytes) =>
          var root := LookupByPath([]);
          var used := if root.Some? then rows[root.value].size else 0;
          var free := if bytes - used > 0 then bytes - used else 0;
          over := size >= free;
      }
    }

    /** A new file: recompute the chain, then stamp it. */
    method CommitNew(p: Path, parent: int, up: Upload, env: Env)
      requires Valid(Contents()) && InFiles(p) && !HasPath(rows, p)
      requires At(rows, parent, Parent(p)) && rows[parent].isDir
      modifies this
      ensures Contents() == Operations.CommitNew(old(Contents()), p, up, env)
    {
      ghost var s := Contents();
      assert parent == ParentId(s, p);
      var etag := NewEtag();
      InsertRow(Row(p, parent, Last(p), false, up.size, up.mtime, up.mtime, etag));
      NewFileValid(s, Contents(), p, up);
      CorrectFolderSizeChain(p);
      CorrectParentStorageMtime(Parent(p), env);
      PropagateChange(p, up.mtime, 0, env);
    }

    /** The file's own row: its id, path and place stay. */
    method OverwriteRow(p: Path, id: int, up: Upload, reuse: bool)
      requires Valid(Contents()) && At(rows, id, p)
      modifies this
      ensures HasPath(old(rows), p)
      ensures Contents() == Overwrite(old(Contents()), p, up.size, up.mtime, reuse)
    {
      UniqueId(Contents(), id, p);
      var drawn := NewEtag();
      var etag := if reuse then rows[id].etag else drawn;
      rows := rows[id := rows[id].(size := up.size, mtime := up.mtime, storageMtime := up.mtime, etag := etag)];
    }

    /** An overwrite: update the row, then send the signed difference up. */
    method CommitOverwrite(p: Path, id: int, r: Row, up: Upload, env: Env)
      requires Valid(Contents()) && InFiles(p) && At(rows, id, p)
      modifies this
      ensures HasPath(old(rows), p)
      ensures Contents() == Operations.CommitOverwrite(old(Contents()), p, r, up, env)
      ensures id in rows
      ensures rows[id].etag == if r.storageMtime != 0 && r.storageMtime == env.diskMtime(p) then old(rows)[id].etag
                               else old(nextEtag)
    {
      hide Shaped, SizesOk, TrashIsFolder, Outcomes.AllTold, Overwrite, Touch, Prop;
      ghost var s := Contents();
      OverwriteRow(p, id, up, ReusesEtag(r, p, env));
      CorrectParentStorageMtime(Parent(p), env);
      PropagateChange(p, up.mtime, up.size - r.size, env);
      WriteOutcomes.OverwriteKeys(s, p, r, up, env);
      WriteOutcomes.CommitOverwriteTells(s, p, r, up, env, id);
    }

    /** One part of a bulk upload. */
    method BulkWrite(p: Path, up: Upload, env: Env) returns (outcome: Outcome)
      requires Valid(Contents()) && InFiles(p)
      modifies this
      ensures Result(Contents(), outcome) == Operations.BulkWrite(old(Contents()), p, up, env)
    {
      hide Shaped, SizesOk, TrashIsFolder, Outcomes.AllTold, Overwrite, Operations.StoreVersion, Prop, UniquePaths;
      ghost var s := Contents();
      var parent := LookupByPath(Parent(p));
      if parent.None? || !rows[parent.value].isDir {
        return Refused;
      }
      var existing := LookupByPath(p);
      if existing.Some? && rows[existing.value].isDir {
        return Refused;
      }
      if existing.Some? {
        var id, r := existing.value, rows[existing.value];
        WriteOutcomes.RowAtIsOk(s, p);
        StoreVersion(p, r, env);
        PutVersioned(s, p, env);
        OverwriteRow(p, id, up, false);
        PropagateChange(p, up.mtime, up.size - r.size, env);
      } else {
        var etag := NewEtag();
        InsertRow(Row(p, parent.value, Last(p), false, up.size, up.mtime, up.mtime, etag));
        PropagateChange(p, up.mtime, up.size, env);
      }
      return Done;
    }

    // ── MKCOL ────────────────────────────────────────────────────────────────

    method Mkcol(p: Path, env: Env) returns (outcome: Outcome)
      requires Valid(Contents()) && InFiles(p)
      modifies this
      ensures Result(Contents(), outcome) == Operations.Mkcol(old(Contents()), p, env)
    {
      ghost var s := Contents();
      var existing := LookupByPath(p);
      if existing.Some? {
        return Refused;
      }
      var ensured := EnsureParentDir(Parent(p), env);
      if !ensured {
        return Refused;
      }
      PutOpened(s, p, env);
      var parent := LookupByPath(Parent(p));
      if !rows[parent.value].isDir {
        return Refused;
      }
      var etag := NewEtag();
      InsertRow(Row(p, parent.value, Last(p), true, 0, env.now, env.now, etag));
      PropagateChange(p, env.now, 0, env);
      return Done;
    }

    // ── COPY and MOVE ────────────────────────────────────────────────────────

    /** `diskOk` says whether the disk copy otherwise succeeds. */
    method Copy(from: Path, to: Path, diskOk: bool, env: Env) returns (outcome: Outcome)
      requires Valid(Contents()) && InFiles(from) && InFiles(to)
      modifies this
      ensures Result(Contents(), outcome) == Operations.Copy(old(Contents()), from, to, diskOk, env)
    {
      hide Shaped, SizesOk, TrashIsFolder, CanEnsure, EnsureDirs, Chain, Propagate, CopyRow;
      ghost var s := Contents();
      var source := LookupByPath(from);
      var blocked := Blocked(to);
      if !diskOk || from == to || blocked || (source.Some? && rows[source.value].isDir) {
        return Refused;
      }
      rows := map id | id in rows && rows[id].path != to :: rows[id];
      CopyRemoved(s, to);
      var cloned := CloneRow(from, to, env);
      if !cloned {
        return Refused;
      }
      CopyValid(s, from, to, env);
      PropagateChange(to, env.now, 0, env);
      CorrectFolderSizeChain(to);
      ShadowChain(to, env);
      return Done;
    }

    /** Inserts the clone of the source row, when there is a source row. */
    method CloneRow(from: Path, to: Path, env: Env) returns (ok: bool)
      requires Valid(Contents()) && InFiles(to)
      modifies this
      ensures ok <==> (HasPath(old(rows), from) ==> CanEnsure(old(rows), Parent(to)))
      ensures var s := old(Contents());
        Contents() == if ok && HasPath(s.rows, from) then CopyRow(EnsureDirs(s, Parent(to), env), from, to, env) else s
    {
      ghost var s := Contents();
      var source := LookupByPath(from);
      if source.None? {
        return true;
      }
      ok := EnsureParentDir(Parent(to), env);
      if ok {
        PutOpened(s, to, env);
        CopySourceStays(s, from, to, env);
        var parent := LookupByPath(Parent(to));
        var r := rows[source.value];
        InsertRow(Row(to, parent.value, Last(to), false, r.size, r.mtime, env.now, r.etag));
      }
    }

    method ShadowChain(p: Path, env: Env)
      requires Valid(Contents())
      modifies this
      ensures Contents() == Operations.ShadowChain(old(Contents()), p, env)
    {
      var v := ShadowPath("files_versions", p);
      PropQuiet(Contents(), v, env.now, 0, env, v, v);
      PropagateChange(v, env.now, 0, env);
      CorrectFolderSizeChain(v);
    }

    /** MOVE: the node's own row first, then every row below it. */
    method Move(from: Path, to: Path, env: Env) returns (outcome: Outcome)
      requires Valid(Contents()) && InFiles(from) && InFiles(to)
      modifies this
      ensures Result(Contents(), outcome) == Operations.Move(old(Contents()), from, to, env)
    {
      ghost var s := Contents();
      var source := LookupByPath(from);
      var parent := LookupByPath(Parent(to));
      var target := LookupByPath(to);
      if source.None? || parent.None? || !rows[parent.value].isDir || Above(from, to) || (target.Some? && from != to) {
        return Refused;
      }
      assert MoveAllowed(rows, from, to);
      MoveRow(source.value, from, to, parent.value);
      MoveValid(s, from, to, env);
      CorrectParentStorageMtime(Parent(from), env);
      CorrectParentStorageMtime(Parent(to), env);
      PropagateChange(from, env.now, 0, env);
      PropagateChange(to, env.now, 0, env);
      if Parent(from) != Parent(to) {
        CorrectFolderSizeChain(Parent(from));
        CorrectFolderSizeChain(Parent(to));
      } else {
        CorrectFolderSizeChain(Parent(to));
      }
      ShadowChain(to, env);
      return Done;
    }

    method MoveRow(id: int, from: Path, to: Path, parent: int)
      requires Valid(Contents()) && from != [] && to != [] && !Above(from, to)
      requires At(rows, id, from) && At(rows, parent, Parent(to))
      modifies this
      ensures Contents() == Rekey(old(Contents()), from, to)
    {
      ghost var s := Contents();
      assert parent == ParentId(s, to);
      var isDir := rows[id].isDir;
      rows := rows[id := rows[id].(path := to, name := Last(to), parent := parent)];
      if isDir {
        rows := map j | j in rows :: rows[j].(path := if Above(from, rows[j].path) then Rebase(rows[j].path, from, to) else rows[j].path);
      }
      RekeyInSteps(s, rows, id, from, to);
    }

    // ── PROPPATCH ────────────────────────────────────────────────────────────

    method SetMtime(p: Path, mtime: int, env: Env)
      requires p != []
      modifies this
      ensures Contents() == Operations.SetMtime(old(Contents()), p, mtime, env).store
      ensures rows.Keys == old(rows).Keys
      ensures forall id :: id in rows ==>
                var before, after := old(rows)[id], rows[id];
                if before.path == p then after == before.(mtime := mtime, storageMtime := mtime)
                else Outcomes.Told(before, after, p, mtime, 0, env.now, old(nextEtag))
    {
      rows := map id | id in rows ::
        if rows[id].path == p then rows[id].(mtime := mtime, storageMtime := mtime) else rows[id];
      PropagateChange(p, mtime, 0, env);
    }

    // ── DELETE ───────────────────────────────────────────────────────────────

    /** A file loses its row by id, a directory its row and everything below. */
    method HardDelete(p: Path, env: Env) returns (outcome: Outcome)
      requires Valid(Contents()) && p != []
      modifies this
      ensures Result(Contents(), outcome) == Operations.HardDelete(old(Contents()), p, env)
    {
      ghost var s := Contents();
      var found := LookupByPath(p);
      if found.None? {
        return Refused;
      }
      var id, size := found.value, rows[found.value].size;
      if rows[id].isDir {
        rows := map j | j in rows && rows[j].path != p && !Above(p, rows[j].path) :: rows[j];
      } else {
        rows := rows - {id};
      }
      DeletedRows(s, rows, id, p);
      PropagateChange(p, env.now, if size > 0 then -size else 0, env);
      return Done;
    }

    /** The collision loop: the timestamp moves forward until the name is free in
        the table and on disk. */
    method FreeStamp(base: string, now: nat, onDisk: set<Path>) returns (stamp: nat)
      requires Valid(Contents())
      ensures now <= stamp && !Taken(rows, onDisk, base, stamp)
      ensures forall t :: now <= t < stamp ==> Taken(rows, onDisk, base, t)
      ensures forall t :: now <= t <= stamp ==>
                var q := ["files_trashbin", "files", base + ".d" + Decimal.Text(t)];
                (q in onDisk || exists id :: id in rows && rows[id].path == q) <==> t < stamp
    {
      stamp := now;
      ghost var left := onDisk + set id | id in rows :: rows[id].path;
      ghost var all := left;
      var inCache := LookupByPath(TrashPath(base, stamp));
      while inCache.Some? || TrashPath(base, stamp) in onDisk
        invariant now <= stamp
        invariant inCache.Some? <==> HasPath(rows, TrashPath(base, stamp))
        invariant forall t :: now <= t < stamp ==> Taken(rows, onDisk, base, t)
        invariant forall q :: q in all && q !in left ==> exists t :: now <= t < stamp && q == TrashPath(base, t)
        decreases left
      {
        var q := TrashPath(base, stamp);
        assert q in all by {
          if inCache.Some? {
            assert At(rows, IdAt(rows, q), q);
          }
        }
        forall t | now <= t < stamp
          ensures q != TrashPath(base, t)
        {
          TrashPathInjective(base, t, stamp);
        }
        assert q in left;
        left := left - {q};
        stamp := stamp + 1;
        inCache := LookupByPath(TrashPath(base, stamp));
      }
      forall t | now <= t <= stamp
        ensures var q := ["files_trashbin", "files", base + ".d" + Decimal.Text(t)];
          (q in onDisk || exists id :: id in rows && rows[id].path == q) <==> t < stamp
      {
        TakenIs(rows, onDisk, base, t);
      }
    }

    /** Delete-to-trash.  `onDisk` are the names already present in the trash
        folder on disk. */
    method MoveToTrash(p: Path, now: nat, onDisk: set<Path>, env: Env) returns (outcome: Outcome, stamp: nat)
      requires Valid(Contents()) && InFiles(p)
      modifies this
      ensures Result(Contents(), outcome) == Operations.Trash(old(Contents()), p, stamp, env)
      ensures HasPath(old(rows), p) ==>
                && now <= stamp && !Taken(old(rows), onDisk, Last(p), stamp)
                && forall t :: now <= t < stamp ==> Taken(old(rows), onDisk, Last(p), t)
    {
      hide Outcomes.AllTold;
      ghost var s := Contents();
      var found := LookupByPath(p);
      if found.None? {
        return Refused, now;
      }
      var id, r := found.value, rows[found.value];
      stamp := FreeStamp(Last(p), now, onDisk);
      var to := TrashPath(Last(p), stamp);
      var ok := EnsureParentDir(TRASH, env);
      if !ok {
        return Refused, stamp;
      }
      assert TrashAllowed(s.rows, p, to);
      PrepareTrash(s, stamp, env);
      TrashReadyToMove(s, p, stamp, env);
      MoveIntoTrash(id, p, to, r.size, env);
      return Done, stamp;
    }

    /** Moves the rows and repairs the trash folders first, the old folders last. */
    method MoveIntoTrash(id: int, p: Path, to: Path, size: int, env: Env)
      requires Valid(Contents()) && InFiles(p) && TrashEntry(to)
      requires At(rows, id, p) && !HasPath(rows, to) && IsDirAt(rows, TRASH)
      modifies this
      ensures Contents() == TrashMove(old(Contents()), p, to, size, env)
    {
      hide Outcomes.AllTold, Shaped, SizesOk, TrashIsFolder, Touch, Prop;
      ghost var t := Contents();
      var parent := LookupByPath(TRASH);
      MoveRow(id, p, to, parent.value);
      rows := map j | j in rows :: if j == id then rows[j].(storageMtime := env.diskMtime(to)) else rows[j];
      TrashedRow(t, rows, id, p, to, env);
      TrashRows(t, p, to, env);
      CorrectFolderSizeChain(to);
      CorrectParentStorageMtime(Parent(p), env);
      CorrectParentStorageMtime(Parent(to), env);
      PropagateChange(to, env.now, 0, env);
      PropagateChange(p, env.now, if size > 0 then -size else 0, env);
    }

    /** The other two skeleton folders and the cache folder. */
    method PrepareTrash(ghost s: Store, stamp: int, env: Env)
      requires Valid(s) && CanEnsure(s.rows, TRASH)
      requires Contents() == EnsureDirs(s, TRASH, env)
      modifies this
      ensures Contents() == CacheRow(TrashSkeleton(s, env), stamp)
      ensures Valid(Contents())
    {
      hide Shaped, SizesOk, TrashIsFolder, EnsureDirs, CanEnsure, Evolves, Exact, TrashOnly, CacheRow;
      SkeletonStep(s, TRASH, env);
      SkeletonIfPossible(Contents(), ["files_trashbin", "versions"], env);
      var _ := EnsureParentDir(["files_trashbin", "versions"], env);
      SkeletonIfPossible(Contents(), ["files_trashbin", "keys"], env);
      var _ := EnsureParentDir(["files_trashbin", "keys"], env);
      EnsureCache(stamp);
    }

    method EnsureCache(now: int)
      requires Valid(Contents())
      modifies this
      ensures Valid(Contents()) && Contents() == CacheRow(old(Contents()), now)
    {
      CacheRowAdds(Contents(), now);
      var cache := LookupByPath(["cache"]);
      if cache.None? {
        var root := LookupByPath([]);
        assert Parent(["cache"]) == [];
        var etag := NewEtag();
        InsertRow(Row(["cache"], root.value, "cache", true, 0, now, now, etag));
      }
    }

  }

  method AnyOf<T(==)>(s: set<T>) returns (x: T)
    requires s != {}
    ensures x in s
  {
    x :| x in s;
  }

  /** The root first, the direct parent last. */
  method GetParents(p: Path) returns (parents: seq<Path>)
    ensures |parents| == |p|
    ensures forall i :: 0 <= i < |p| ==> parents[i] == p[..i]
  {
    parents := [];
    var parent: Path := [];
    for i := 0 to |p|
      invariant |parents| == i && parent == p[..i]
      invariant forall j :: 0 <= j < i ==> parents[j] == p[..j]
    {
      parents := parents + [parent];
      parent := parent + [p[i]];
    }
  }

  /** One pass over the children: the sum of their sizes and the least one, both
      zero when there are none. */
  method SumAndMin(t: Table, children: set<int>) returns (total: int, least: int)
    requires children <= t.Keys && SizesOk(t)
    ensures total == SumSizes(t, children)
    ensures least == -1 <==> AnyUnscanned(t, children)
  {
    total, least := 0, 0;
    var todo := children;
    while todo != {}
      invariant todo <= children && least >= -1
      invariant total + SumSizes(t, todo) == SumSizes(t, children)
      invariant least == -1 || AnyUnscanned(t, todo) <==> AnyUnscanned(t, children)
      decreases |todo|
    {
      var c := AnyOf(todo);
      SumRemove(t, todo, c);
      assert AnyUnscanned(t, todo) <==> t[c].size == -1 || AnyUnscanned(t, todo - {c});
      least := if todo == children || t[c].size < least then t[c].size else least;
      total := total + t[c].size;
      todo := todo - {c};
    }
  }

  ghost predicate AnyUnscanned(t: Table, s: set<int>)
    requires s <= t.Keys
  {
    exists c :: c in s && t[c].size == -1
  }
}

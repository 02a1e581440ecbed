/** The batched PROPFIND (section 9.1 of RFC 4918) against single queries. */
module Propfind {
  import opened Options

  // One gated fan-out statement fills per-request maps; each child's properties are
  // then read from the maps instead of being queried.

  datatype File = File(id: int, parent: int, path: string, isDir: bool)

  datatype Share = Share(
    file: int, kind: int, with: Option<string>, owner: string, initiator: Option<string>, note: string, stime: int)

  datatype Comment = Comment(file: int, byUser: bool, actor: string, time: int)

  datatype SystemTag = SystemTag(file: int, id: int, name: string, visible: bool, assignable: bool, color: Option<string>)

  datatype Category = Category(file: int, name: string)

  datatype Custom = Custom(path: string, ns: string, name: string, value: string)

  /** The tables as one user sees them; `systemTags` is already ordered by name. */
  datatype Database = Database(
    uid: string,
    files: seq<File>,
    shares: seq<Share>,
    comments: seq<Comment>,
    readMarks: map<int, int>,
    systemTags: seq<SystemTag>,
    categories: seq<Category>,
    metadata: map<int, string>,
    custom: seq<Custom>,
    displayNames: map<string, string>)

  function Select<T(!new)>(rows: seq<T>, keep: T -> bool): (kept: seq<T>)
    ensures forall r :: r in kept <==> r in rows && keep(r)
  {
    if rows == [] then []
    else Select(rows[..|rows| - 1], keep) + if keep(rows[|rows| - 1]) then [rows[|rows| - 1]] else []
  }

  function Count<T(!new)>(rows: seq<T>, keep: T -> bool): nat {
    |Select(rows, keep)|
  }

  // ── Single-row queries ─────────────────────────────────────────────────────

  function CountChildren(db: Database, id: int): (nat, nat) {
    (Count(db.files, (f: File) => f.parent == id && f.isDir), Count(db.files, (f: File) => f.parent == id && !f.isDir))
  }

  function SharesOf(db: Database, id: int): seq<Share> {
    Select(db.shares, (s: Share) => s.file == id)
  }

  /** `ORDER BY stime DESC LIMIT 1` over the rows with a note; among equal times
      the first row of the scan. */
  function Latest(shares: seq<Share>): (best: Option<Share>)
    decreases |shares|
  {
    if shares == [] then None
    else
      var best, s := Latest(shares[..|shares| - 1]), shares[|shares| - 1];
      if s.note == "" || (best.Some? && best.value.stime >= s.stime) then best else Some(s)
  }

  function NoteOf(shares: seq<Share>): string {
    match Latest(shares)
    case None => ""
    case Some(s) => s.note
  }

  const KINDS: set<int> := {0, 1, 3, 4, 6, 7, 10, 12}

  predicate Party(uid: string, s: Share) {
    s.kind in KINDS && (s.owner == uid || s.initiator == Some(uid) || s.with == Some(uid))
  }

  datatype Detail = Detail(kind: int, with: Option<string>, displayName: string)

  function DetailOf(db: Database, s: Share): Detail {
    var name := s.with.Or("");
    Detail(s.kind, s.with, if s.kind == 0 && name in db.displayNames && s.with.Some? then db.displayNames[name] else name)
  }

  function Details(db: Database, shares: seq<Share>): (ds: seq<Detail>)
    ensures |ds| <= |shares|
  {
    if shares == [] then []
    else
      var s := shares[|shares| - 1];
      Details(db, shares[..|shares| - 1]) + if Party(db.uid, s) then [DetailOf(db, s)] else []
  }

  /** `SELECT DISTINCT`, keeping first occurrences. */
  function Distinct<T(==,!new)>(xs: seq<T>): (ys: seq<T>)
    ensures forall x :: x in ys <==> x in xs
    ensures |ys| <= |xs|
  {
    if xs == [] then []
    else
      var ys, x := Distinct(xs[..|xs| - 1]), xs[|xs| - 1];
      if x in ys then ys else ys + [x]
  }

  function CommentsOf(db: Database, id: int): (nat, nat) {
    var mark := if id in db.readMarks then db.readMarks[id] else 0;
    (Count(db.comments, (c: Comment) => c.file == id),
     Count(db.comments, (c: Comment) => c.file == id && c.byUser && c.actor != db.uid && c.time > mark))
  }

  function SystemTagsOf(db: Database, id: int): seq<SystemTag> {
    Select(db.systemTags, (t: SystemTag) => t.file == id && t.visible)
  }

  function CategoriesOf(db: Database, id: int): seq<Category> {
    Select(db.categories, (c: Category) => c.file == id)
  }

  function MetadataOf(db: Database, id: int): Option<string> {
    if id in db.metadata then Some(db.metadata[id]) else None
  }

  function CustomOf(db: Database, path: string): seq<Custom> {
    Select(db.custom, (c: Custom) => c.path == path)
  }

  // ── What the client asked for ──────────────────────────────────────────────

  const DAV := "DAV:"
  const OC := "http://owncloud.org/ns"
  const NC := "http://nextcloud.org/ns"
  const OCS := "http://open-collaboration-services.org/ns"

  type QName = (Option<string>, string)

  /** `None` is allprop, propname, or no PROPFIND at all. */
  type Requested = Option<seq<QName>>

  predicate PropRequested(req: Requested, ns: string, name: string) {
    match req
    case None => true
    case Some(list) => (Some(ns), name) in list
  }

  predicate PrefixRequested(req: Requested, ns: string, prefix: string) {
    match req
    case None => true
    case Some(list) => exists i :: 0 <= i < |list| && list[i].0 == Some(ns) && prefix <= list[i].1
  }

  datatype Gates = Gates(
    dirCounts: bool, shares: bool, comments: bool, systemTags: bool, tags: bool, metadata: bool, custom: bool)

  predicate ServerNamespace(ns: Option<string>) {
    ns in {Some(DAV), Some(OC), Some(NC), Some(OCS)}
  }

  /** The share gate tests `sharees` in the wrong namespace. */
  function GatesFor(req: Requested): Gates {
    Gates(
      PropRequested(req, NC, "contained-folder-count") || PropRequested(req, NC, "contained-file-count"),
      PropRequested(req, OC, "share-types") || PropRequested(req, OC, "sharees") || PropRequested(req, NC, "note"),
      PropRequested(req, OC, "comments-count") || PropRequested(req, OC, "comments-unread"),
      PropRequested(req, NC, "system-tags"),
      PropRequested(req, OC, "favorite") || PropRequested(req, OC, "tags"),
      PrefixRequested(req, NC, "metadata-"),
      match req
      case None => true
      case Some(list) => exists i :: 0 <= i < |list| && !ServerNamespace(list[i].0))
  }

  // ── The fan-out statement ──────────────────────────────────────────────────

  /** One result row: a sub-select per family, NULL when its gate is off or its
      aggregate saw no rows. */
  datatype KidRow = KidRow(
    file: File,
    dirCounts: Option<(nat, nat)>,
    shares: Option<seq<Share>>,
    comments: Option<(nat, nat)>,
    systemTags: Option<seq<SystemTag>>,
    tags: Option<seq<Category>>,
    metadata: Option<string>)

  function Aggregate<T>(on: bool, rows: seq<T>): Option<seq<T>> {
    if on && rows != [] then Some(rows) else None
  }

  function Kid(db: Database, g: Gates, f: File): KidRow {
    KidRow(f,
      if g.dirCounts && f.isDir then Some(CountChildren(db, f.id)) else None,
      Aggregate(g.shares, SharesOf(db, f.id)),
      if g.comments then Some(CommentsOf(db, f.id)) else None,
      Aggregate(g.systemTags, SystemTagsOf(db, f.id)),
      Aggregate(g.tags, CategoriesOf(db, f.id)),
      if g.metadata then MetadataOf(db, f.id) else None)
  }

  function IsIn(dir: int): File -> bool {
    (f: File) => f.parent == dir
  }

  function ChildrenOf(db: Database, dir: int): seq<File> {
    Select(db.files, IsIn(dir))
  }

  function FanOut(db: Database, g: Gates, dir: int): (rows: seq<KidRow>)
    ensures |rows| == |ChildrenOf(db, dir)|
    ensures forall i :: 0 <= i < |rows| ==> rows[i] == Kid(db, g, ChildrenOf(db, dir)[i])
  {
    seq(|ChildrenOf(db, dir)|, i requires 0 <= i < |ChildrenOf(db, dir)| => Kid(db, g, ChildrenOf(db, dir)[i]))
  }

  // ── The per-request batch ──────────────────────────────────────────────────

  datatype Batch = Batch(
    children: set<int>,
    childPaths: set<string>,
    dirCounts: map<int, (nat, nat)>,
    shareDetails: map<int, seq<Detail>>,
    shareNotes: map<int, string>,
    comments: map<int, (nat, nat)>,
    systemTags: map<int, seq<SystemTag>>,
    tags: map<int, seq<Category>>,
    metadata: map<int, string>,
    custom: map<string, seq<Custom>>)

  function Get<K, V>(m: map<K, V>, k: K): Option<V> {
    if k in m then Some(m[k]) else None
  }

  ghost predicate DistinctIds(files: seq<File>) {
    forall i, j :: 0 <= i < j < |files| ==> files[i].id != files[j].id
  }

  /** Primary key and the unique path hash. */
  ghost predicate Keyed(db: Database) {
    && DistinctIds(db.files)
    && (forall i, j :: 0 <= i < j < |db.files| ==> db.files[i].path != db.files[j].path)
  }

  /** What the maps hold for a child: the gated query, a miss meaning its default. */
  ghost predicate HoldsFor(b: Batch, db: Database, g: Gates, f: File) {
    && f.id in b.children && f.path in b.childPaths
    && Get(b.dirCounts, f.id) == (if g.dirCounts && f.isDir then Some(CountChildren(db, f.id)) else None)
    && Get(b.shareDetails, f.id).Or([]) == (if g.shares then Details(db, SharesOf(db, f.id)) else [])
    && Get(b.shareNotes, f.id).Or("") == (if g.shares then NoteOf(SharesOf(db, f.id)) else "")
    && Get(b.comments, f.id) == Some(if g.comments then CommentsOf(db, f.id) else (0, 0))
    && Get(b.systemTags, f.id).Or([]) == (if g.systemTags then SystemTagsOf(db, f.id) else [])
    && Get(b.tags, f.id) == Some(if g.tags then CategoriesOf(db, f.id) else [])
    && Get(b.metadata, f.id) == (if g.metadata then MetadataOf(db, f.id) else None)
    && Get(b.custom, f.path).Or([]) == (if g.custom then CustomOf(db, f.path) else [])
  }

  // ── The note and detail splits ─────────────────────────────────────────────

  /** The collected share rows of one file, in scan order. */
  function ForFile(all: seq<Share>, id: int): seq<Share> {
    Select(all, (s: Share) => s.file == id)
  }

  lemma ForFileAppend(all: seq<Share>, s: Share, id: int)
    ensures ForFile(all + [s], id) == ForFile(all, id) + if s.file == id then [s] else []
  {
    assert (all + [s])[..|all|] == all;
  }

  lemma LatestAppend(all: seq<Share>, s: Share, id: int)
    ensures var best := Latest(ForFile(all, id));
      Latest(ForFile(all + [s], id)) ==
        if s.file != id || s.note == "" || (best.Some? && best.value.stime >= s.stime) then best else Some(s)
  {
    ForFileAppend(all, s, id);
    var xs := ForFile(all, id);
    assert (xs + [s])[..|xs|] == xs;
    assert xs + [] == xs;
  }

  lemma DetailsAppend(db: Database, all: seq<Share>, s: Share, id: int)
    ensures Details(db, ForFile(all + [s], id)) ==
              Details(db, ForFile(all, id)) + if s.file == id && Party(db.uid, s) then [DetailOf(db, s)] else []
  {
    ForFileAppend(all, s, id);
    var xs := ForFile(all, id);
    assert (xs + [s])[..|xs|] == xs;
    assert xs + [] == xs;
  }

  function NoteIn(best: Option<Share>): Option<string> {
    match best case None => None case Some(s) => Some(s.note)
  }

  function TimeIn(best: Option<Share>): Option<int> {
    match best case None => None case Some(s) => Some(s.stime)
  }

  /** One pass with the best time seen so far per file. */
  method SplitNotes(all: seq<Share>) returns (notes: map<int, string>)
    ensures forall id :: Get(notes, id) == NoteIn(Latest(ForFile(all, id)))
  {
    hide Latest, ForFile;
    notes := map[];
    var bestTime: map<int, int> := map[];
    NothingLatest();
    for i := 0 to |all|
      invariant forall id :: Get(notes, id) == NoteIn(Latest(ForFile(all[..i], id)))
      invariant forall id :: Get(bestTime, id) == TimeIn(Latest(ForFile(all[..i], id)))
    {
      var s := all[i];
      assert all[..i + 1] == all[..i] + [s];
      ghost var before := all[..i];
      forall id
        ensures Latest(ForFile(before + [s], id)) ==
                  if s.file == id && s.note != "" && !(s.file in bestTime && bestTime[s.file] >= s.stime)
                  then Some(s) else Latest(ForFile(before, id))
      {
        LatestAppend(before, s, id);
        assert Get(bestTime, id) == TimeIn(Latest(ForFile(before, id)));
      }
      if s.note == "" || (s.file in bestTime && bestTime[s.file] >= s.stime) {
        continue;
      }
      bestTime := bestTime[s.file := s.stime];
      notes := notes[s.file := s.note];
    }
    assert all[..|all|] == all;
  }

  lemma NothingLatest()
    ensures forall id :: Latest(ForFile([], id)) == None
  {
  }

  method SplitDetails(db: Database, all: seq<Share>) returns (details: map<int, seq<Detail>>)
    ensures forall id :: Get(details, id).Or([]) == Details(db, ForFile(all, id))
  {
    hide ForFile;
    details := map[];
    NoDetails(db);
    for i := 0 to |all|
      invariant forall id :: Get(details, id).Or([]) == Details(db, ForFile(all[..i], id))
    {
      var s := all[i];
      assert all[..i + 1] == all[..i] + [s];
      ghost var before := all[..i];
      forall id
        ensures Details(db, ForFile(before + [s], id)) ==
                  Details(db, ForFile(before, id)) + if s.file == id && Party(db.uid, s) then [DetailOf(db, s)] else []
      {
        DetailsAppend(db, before, s, id);
      }
      if Party(db.uid, s) {
        details := details[s.file := Get(details, s.file).Or([]) + [DetailOf(db, s)]];
      }
    }
    assert all[..|all|] == all;
  }

  lemma NoDetails(db: Database)
    ensures forall id :: Details(db, ForFile([], id)) == []
  {
  }

  /** The note shown is not empty and no other noted share is newer; an empty one
      means there is none. */
  lemma {:induction false} LatestIsNewest(shares: seq<Share>)
    ensures match Latest(shares) {
      case None => forall s :: s in shares ==> s.note == ""
      case Some(b) => b in shares && b.note != "" && forall s :: s in shares && s.note != "" ==> s.stime <= b.stime
    }
    decreases |shares|
  {
    if shares != [] {
      LatestIsNewest(shares[..|shares| - 1]);
    }
  }

  // ── read_dir ───────────────────────────────────────────────────────────────

  lemma {:induction false} ForFileConcat(a: seq<Share>, b: seq<Share>, id: int)
    ensures ForFile(a + b, id) == ForFile(a, id) + ForFile(b, id)
    decreases |b|
  {
    hide ForFile;
    if b == [] {
      NothingForFile();
      assert a + b == a;
    } else {
      var init, s := b[..|b| - 1], b[|b| - 1];
      ForFileConcat(a, init, id);
      assert b == init + [s] && a + b == (a + init) + [s];
      ForFileAppend(a + init, s, id);
      ForFileAppend(init, s, id);
    }
  }

  lemma {:induction false} ForFileUniform(xs: seq<Share>, owner: int, id: int)
    requires forall s :: s in xs ==> s.file == owner
    ensures ForFile(xs, id) == if id == owner then xs else []
    decreases |xs|
  {
    if xs != [] {
      var n := |xs| - 1;
      assert xs[n] in xs;
      ForFileUniform(xs[..n], owner, id);
    }
  }

  /** The decoded columns of the fan-out. */
  datatype Columns = Columns(
    ids: set<int>,
    paths: set<string>,
    dirCounts: map<int, (nat, nat)>,
    comments: map<int, (nat, nat)>,
    systemTags: map<int, seq<SystemTag>>,
    tags: map<int, seq<Category>>,
    metadata: map<int, string>,
    shares: seq<Share>)

  ghost predicate RowsKeyed(rows: seq<KidRow>) {
    && (forall i, j :: 0 <= i < j < |rows| ==> rows[i].file.id != rows[j].file.id)
    && (forall i, s :: 0 <= i < |rows| && s in rows[i].shares.Or([]) ==> s.file == rows[i].file.id)
  }

  ghost predicate Decoded(c: Columns, r: KidRow) {
    && r.file.id in c.ids && r.file.path in c.paths
    && Get(c.dirCounts, r.file.id) == r.dirCounts
    && Get(c.comments, r.file.id) == r.comments
    && Get(c.systemTags, r.file.id) == r.systemTags
    && Get(c.tags, r.file.id) == r.tags
    && Get(c.metadata, r.file.id) == r.metadata
    && ForFile(c.shares, r.file.id) == r.shares.Or([])
  }

  ghost predicate OnlySeen(c: Columns) {
    && c.dirCounts.Keys <= c.ids && c.comments.Keys <= c.ids && c.systemTags.Keys <= c.ids
    && c.tags.Keys <= c.ids && c.metadata.Keys <= c.ids
    && forall id :: id !in c.ids ==> ForFile(c.shares, id) == []
  }

  function Put<K, V>(m: map<K, V>, k: K, v: Option<V>): map<K, V> {
    if v.Some? then m[k := v.value] else m
  }

  function AddRow(c: Columns, r: KidRow): Columns {
    var id := r.file.id;
    Columns(c.ids + {id}, c.paths + {r.file.path},
            Put(c.dirCounts, id, r.dirCounts), Put(c.comments, id, r.comments),
            Put(c.systemTags, id, r.systemTags), Put(c.tags, id, r.tags), Put(c.metadata, id, r.metadata),
            c.shares + r.shares.Or([]))
  }

  lemma AddRowShares(c: Columns, r: KidRow, id: int)
    requires OnlySeen(c) && r.file.id !in c.ids
    requires forall s :: s in r.shares.Or([]) ==> s.file == r.file.id
    ensures ForFile(AddRow(c, r).shares, id) == if id == r.file.id then r.shares.Or([]) else ForFile(c.shares, id)
  {
    hide ForFile;
    ForFileConcat(c.shares, r.shares.Or([]), id);
    ForFileUniform(r.shares.Or([]), r.file.id, id);
  }

  lemma AddRowDecodes(c: Columns, r: KidRow, q: KidRow)
    requires OnlySeen(c) && r.file.id !in c.ids
    requires forall s :: s in r.shares.Or([]) ==> s.file == r.file.id
    requires q == r || (Decoded(c, q) && q.file.id != r.file.id)
    ensures Decoded(AddRow(c, r), q)
  {
    hide ForFile;
    AddRowShares(c, r, q.file.id);
  }

  lemma AddRowSeen(c: Columns, r: KidRow)
    requires OnlySeen(c)
    requires forall s :: s in r.shares.Or([]) ==> s.file == r.file.id
    ensures OnlySeen(AddRow(c, r))
  {
    forall id | id !in AddRow(c, r).ids
      ensures ForFile(AddRow(c, r).shares, id) == []
    {
      ForFileConcat(c.shares, r.shares.Or([]), id);
      ForFileUniform(r.shares.Or([]), r.file.id, id);
    }
  }

  /** The loop over the result rows. */
  method Decode(rows: seq<KidRow>) returns (c: Columns)
    requires RowsKeyed(rows)
    ensures forall i :: 0 <= i < |rows| ==> Decoded(c, rows[i])
  {
    hide ForFile, Decoded;
    c := Columns({}, {}, map[], map[], map[], map[], map[], []);
    assert OnlySeen(c) by { NothingForFile(); }
    for i := 0 to |rows|
      invariant OnlySeen(c)
      invariant forall j :: 0 <= j < i ==> Decoded(c, rows[j])
      invariant forall id :: id in c.ids ==> exists j :: 0 <= j < i && rows[j].file.id == id
    {
      var r := rows[i];
      assert r.file.id !in c.ids;
      forall j | 0 <= j <= i
        ensures Decoded(AddRow(c, r), rows[j])
      {
        AddRowDecodes(c, r, rows[j]);
      }
      AddRowSeen(c, r);
      c := AddRow(c, r);
    }
  }

  lemma NothingForFile()
    ensures forall id :: ForFile([], id) == []
  {
  }

  /** `custom_properties_batch`: one scan, grouped by path. */
  method GroupCustom(db: Database, paths: set<string>) returns (custom: map<string, seq<Custom>>)
    ensures forall p :: p in paths ==> Get(custom, p).Or([]) == CustomOf(db, p)
  {
    custom := map[];
    for i := 0 to |db.custom|
      invariant forall p :: p in paths ==>
                  Get(custom, p).Or([]) == Select(db.custom[..i], (c: Custom) => c.path == p)
    {
      var c := db.custom[i];
      assert db.custom[..i + 1][..i] == db.custom[..i];
      if c.path in paths {
        custom := custom[c.path := Get(custom, c.path).Or([]) + [c]];
      }
    }
    assert db.custom[..|db.custom|] == db.custom;
  }

  /** `read_dir_batched`: run the fan-out, split the shares, and fill every map. */
  method ReadDirBatched(db: Database, dir: int, req: Requested) returns (b: Batch)
    requires Keyed(db)
    ensures forall f :: f in ChildrenOf(db, dir) ==> HoldsFor(b, db, GatesFor(req), f)
  {
    hide Kid, Decoded, HoldsFor, Latest, ForFile, Details, Select, GatesFor;
    var g := GatesFor(req);
    var rows := FanOut(db, g, dir);
    FanOutKeyed(db, g, dir);
    var c := Decode(rows);
    var notes := SplitNotes(c.shares);
    var details := SplitDetails(db, c.shares);
    var comments, tags := map[], map[];
    for i := 0 to |rows|
      invariant forall j :: 0 <= j < i ==> Get(comments, rows[j].file.id) == Some(Get(c.comments, rows[j].file.id).Or((0, 0)))
      invariant forall j :: 0 <= j < i ==> Get(tags, rows[j].file.id) == Some(Get(c.tags, rows[j].file.id).Or([]))
    {
      var id := rows[i].file.id;
      comments := comments[id := Get(c.comments, id).Or((0, 0))];
      tags := tags[id := Get(c.tags, id).Or([])];
    }
    var custom := map[];
    if g.custom {
      custom := GroupCustom(db, c.paths);
    }
    b := Batch(c.ids, c.paths, c.dirCounts, details, notes, comments, c.systemTags, tags, c.metadata, custom);
    forall f | f in ChildrenOf(db, dir)
      ensures HoldsFor(b, db, g, f)
    {
      var i :| 0 <= i < |ChildrenOf(db, dir)| && ChildrenOf(db, dir)[i] == f;
      assert rows[i] == Kid(db, g, f) && Decoded(c, rows[i]);
      KidIs(db, g, f, c);
      BatchHolds(db, g, f, c, b);
    }
  }

  lemma KidIs(db: Database, g: Gates, f: File, c: Columns)
    requires Decoded(c, Kid(db, g, f))
    ensures Kid(db, g, f).file == f && f.path in c.paths
  {
  }

  /** A decoded child with the filled maps. */
  lemma BatchHolds(db: Database, g: Gates, f: File, c: Columns, b: Batch)
    requires Decoded(c, Kid(db, g, f))
    requires b.children == c.ids && b.childPaths == c.paths
    requires b.dirCounts == c.dirCounts && b.systemTags == c.systemTags && b.metadata == c.metadata
    requires Get(b.shareNotes, f.id) == NoteIn(Latest(ForFile(c.shares, f.id)))
    requires Get(b.shareDetails, f.id).Or([]) == Details(db, ForFile(c.shares, f.id))
    requires Get(b.comments, f.id) == Some(Get(c.comments, f.id).Or((0, 0)))
    requires Get(b.tags, f.id) == Some(Get(c.tags, f.id).Or([]))
    requires Get(b.custom, f.path).Or([]) == (if g.custom then CustomOf(db, f.path) else [])
    ensures HoldsFor(b, db, g, f)
  {
    ColumnsHold(db, g, f, c);
  }

  lemma FanOutKeyed(db: Database, g: Gates, dir: int)
    requires Keyed(db)
    ensures RowsKeyed(FanOut(db, g, dir))
  {
    SelectKeyed(db.files, IsIn(dir));
    var rows := FanOut(db, g, dir);
    forall i, j | 0 <= i < j < |rows|
      ensures rows[i].file.id != rows[j].file.id
    {
      var kids := Select(db.files, IsIn(dir));
      assert rows[i].file == kids[i] && rows[j].file == kids[j] && kids[i].id != kids[j].id;
    }
    forall i, s | 0 <= i < |rows| && s in rows[i].shares.Or([])
      ensures s.file == rows[i].file.id
    {
      assert s in SharesOf(db, rows[i].file.id);
    }
  }

  lemma {:induction false} SelectKeyed(files: seq<File>, keep: File -> bool)
    requires DistinctIds(files)
    ensures DistinctIds(Select(files, keep))
    decreases |files|
  {
    if files != [] {
      var n := |files| - 1;
      var init, kept := Select(files[..n], keep), Select(files, keep);
      assert kept == init + if keep(files[n]) then [files[n]] else [];
      SelectKeyed(files[..n], keep);
      forall i, j | 0 <= i < j < |kept|
        ensures kept[i].id != kept[j].id
      {
        assert kept[i] == init[i] && init[i] in init;
        var k :| 0 <= k < n && files[..n][k] == init[i];
        assert files[k] == init[i] && files[k].id != files[n].id;
        if j < |init| {
          assert kept[j] == init[j] && init[i].id != init[j].id;
        }
      }
    }
  }

  /** What one decoded row says in terms of the queries it stands for. */
  lemma ColumnsHold(db: Database, g: Gates, f: File, c: Columns)
    requires Decoded(c, Kid(db, g, f))
    ensures Get(c.dirCounts, f.id) == (if g.dirCounts && f.isDir then Some(CountChildren(db, f.id)) else None)
    ensures Get(c.comments, f.id).Or((0, 0)) == (if g.comments then CommentsOf(db, f.id) else (0, 0))
    ensures Get(c.systemTags, f.id).Or([]) == (if g.systemTags then SystemTagsOf(db, f.id) else [])
    ensures Get(c.tags, f.id).Or([]) == (if g.tags then CategoriesOf(db, f.id) else [])
    ensures Get(c.metadata, f.id) == (if g.metadata then MetadataOf(db, f.id) else None)
    ensures ForFile(c.shares, f.id) == (if g.shares then SharesOf(db, f.id) else [])
  {
  }

  // ── collect_props ──────────────────────────────────────────────────────────

  /** What the property writer reads about one node. */
  datatype Facts = Facts(
    dirCounts: (nat, nat),
    note: string,
    tags: seq<Category>,
    details: seq<Detail>,
    comments: (nat, nat),
    systemTags: seq<SystemTag>,
    metadata: Option<string>,
    custom: seq<Custom>)

  /** The same by single-row queries, nothing gated. */
  function Queried(db: Database, f: File): Facts {
    Facts(
      if f.isDir then CountChildren(db, f.id) else (0, 0),
      NoteOf(SharesOf(db, f.id)),
      CategoriesOf(db, f.id),
      Distinct(Details(db, SharesOf(db, f.id))),
      CommentsOf(db, f.id),
      SystemTagsOf(db, f.id),
      MetadataOf(db, f.id),
      CustomOf(db, f.path))
  }

  /** `collect_props`: a node in the batch is read from the maps, where a miss means
      the default; any other node is queried.  Tags go through their own cache. */
  method CollectFacts(db: Database, b: Batch, f: File, req: Requested) returns (x: Facts)
    ensures f.id !in b.children && f.path !in b.childPaths && Get(b.tags, f.id) == None ==>
              x == Queried(db, f).(tags := if GatesFor(req).tags then CategoriesOf(db, f.id) else [])
    ensures HoldsFor(b, db, GatesFor(req), f) ==>
              var g := GatesFor(req);
              x == Facts(
                if g.dirCounts && f.isDir then CountChildren(db, f.id) else (0, 0),
                if g.shares then NoteOf(SharesOf(db, f.id)) else "",
                if g.tags then CategoriesOf(db, f.id) else [],
                if g.shares then Details(db, SharesOf(db, f.id)) else [],
                if g.comments then CommentsOf(db, f.id) else (0, 0),
                if g.systemTags then SystemTagsOf(db, f.id) else [],
                if g.metadata then MetadataOf(db, f.id) else None,
                if g.custom then CustomOf(db, f.path) else [])
  {
    hide Details, SharesOf, CountChildren, Latest, CommentsOf, SystemTagsOf, CategoriesOf, CustomOf;
    var wantTags := PropRequested(req, OC, "favorite") || PropRequested(req, OC, "tags");
    var tags := if !wantTags then [] else match Get(b.tags, f.id) case Some(t) => t case None => CategoriesOf(db, f.id);
    var custom := if f.path in b.childPaths then Get(b.custom, f.path).Or([]) else CustomOf(db, f.path);
    if f.id in b.children {
      x := Facts(
        if f.isDir then Get(b.dirCounts, f.id).Or((0, 0)) else (0, 0),
        Get(b.shareNotes, f.id).Or(""),
        tags,
        Get(b.shareDetails, f.id).Or([]),
        Get(b.comments, f.id).Or((0, 0)),
        Get(b.systemTags, f.id).Or([]),
        Get(b.metadata, f.id),
        custom);
    } else {
      x := Queried(db, f).(tags := tags, custom := custom);
    }
  }

  // ── Properties ─────────────────────────────────────────────────────────────

  datatype Prop =
    | FolderCount | FileCount | Note | Tags | Favorite | ShareTypes | Sharees
    | CommentsCount | CommentsUnread | SystemTags | Metadata(key: string) | CustomProp(ns: string, name: string)

  function NameOf(p: Prop): QName {
    match p
    case FolderCount => (Some(NC), "contained-folder-count")
    case FileCount => (Some(NC), "contained-file-count")
    case Note => (Some(NC), "note")
    case Tags => (Some(OC), "tags")
    case Favorite => (Some(OC), "favorite")
    case ShareTypes => (Some(OC), "share-types")
    case Sharees => (Some(NC), "sharees")
    case CommentsCount => (Some(OC), "comments-count")
    case CommentsUnread => (Some(OC), "comments-unread")
    case SystemTags => (Some(NC), "system-tags")
    case Metadata(key) => (Some(NC), "metadata-" + key)
    case CustomProp(ns, name) => (Some(ns), name)
  }

  predicate Wanted(req: Requested, p: Prop) {
    req == None || NameOf(p) in req.value
  }

  datatype Value =
    | Number(n: nat) | Text(text: string) | Flag(on: bool) | Names(names: seq<string>)
    | Kinds(kinds: set<int>) | People(details: seq<Detail>) | Shown(tags: seq<SystemTag>)
    | Json(json: Option<string>, key: string) | Stored(values: seq<Custom>)

  const FAVORITE := "_$!<Favorite>!$_"

  function NamesOf(cs: seq<Category>): seq<string> {
    if cs == [] then [] else NamesOf(cs[..|cs| - 1]) + [cs[|cs| - 1].name]
  }

  /** What the response says for one property. */
  function Rendered(x: Facts, p: Prop): Value {
    match p
    case FolderCount => Number(x.dirCounts.0)
    case FileCount => Number(x.dirCounts.1)
    case Note => Text(x.note)
    case Tags => Names(Select(NamesOf(x.tags), (n: string) => n != FAVORITE))
    case Favorite => Flag(FAVORITE in NamesOf(x.tags))
    case ShareTypes => Kinds(set d | d in x.details :: d.kind)
    case Sharees => People(x.details)
    case CommentsCount => Number(x.comments.0)
    case CommentsUnread => Number(x.comments.1)
    case SystemTags => Shown(x.systemTags)
    case Metadata(key) => Json(x.metadata, key)
    case CustomProp(ns, name) =>
      Stored(if ServerNamespace(Some(ns)) then [] else Select(x.custom, (c: Custom) => c.ns == ns && c.name == name))
  }

  predicate Repeats<T(==)>(xs: seq<T>) {
    exists i, j :: 0 <= i < j < |xs| && xs[i] == xs[j]
  }

  lemma RepeatsAppend<T>(xs: seq<T>, x: T)
    ensures Repeats(xs + [x]) <==> Repeats(xs) || x in xs
  {
    var ys := xs + [x];
    if Repeats(xs) {
      var i, j :| 0 <= i < j < |xs| && xs[i] == xs[j];
      assert ys[i] == ys[j];
    }
    if x in xs {
      var i :| 0 <= i < |xs| && xs[i] == x;
      assert ys[i] == ys[|xs|];
    }
    if Repeats(ys) {
      var i, j :| 0 <= i < j < |ys| && ys[i] == ys[j];
      assert if j < |xs| then xs[i] == xs[j] else xs[i] == x;
    }
  }

  lemma {:induction false} DistinctIsSame<T(!new)>(xs: seq<T>)
    ensures Distinct(xs) == xs <==> !Repeats(xs)
    ensures |Distinct(xs)| == |xs| ==> Distinct(xs) == xs
    decreases |xs|
  {
    hide Repeats;
    if xs == [] {
      NoRepeats<T>();
    } else {
      var init, x := xs[..|xs| - 1], xs[|xs| - 1];
      assert xs == init + [x];
      DistinctIsSame(init);
      RepeatsAppend(init, x);
    }
  }

  lemma NoRepeats<T>()
    ensures !Repeats<T>([])
  {
  }

  /** When the sharees of a node come out right. */
  ghost predicate ShareesAgree(db: Database, req: Requested, f: File) {
    var details := Details(db, SharesOf(db, f.id));
    if GatesFor(req).shares then !Repeats(details) else details == []
  }

  /** The batch agrees with the single-row queries: for every database, every
      requested set, every child and every requested property the response is the
      same, except for `nc:sharees`, which agrees exactly when its gate was opened
      and no share is listed twice, or there is nothing to list. */
  lemma BatchAgrees(db: Database, req: Requested, f: File, p: Prop, x: Facts)
    requires Wanted(req, p)
    requires var g := GatesFor(req);
      x == Facts(
        if g.dirCounts && f.isDir then CountChildren(db, f.id) else (0, 0),
        if g.shares then NoteOf(SharesOf(db, f.id)) else "",
        if g.tags then CategoriesOf(db, f.id) else [],
        if g.shares then Details(db, SharesOf(db, f.id)) else [],
        if g.comments then CommentsOf(db, f.id) else (0, 0),
        if g.systemTags then SystemTagsOf(db, f.id) else [],
        if g.metadata then MetadataOf(db, f.id) else None,
        if g.custom then CustomOf(db, f.path) else [])
    ensures Rendered(x, p) == Rendered(Queried(db, f), p) <==> (p.Sharees? ==> ShareesAgree(db, req, f))
  {
    hide Details, SharesOf, CountChildren, Latest, CommentsOf, SystemTagsOf, CategoriesOf, CustomOf;
    var details := Details(db, SharesOf(db, f.id));
    match p
    case Sharees =>
      DistinctIsSame(details);
      if details != [] {
        assert details[0] in Distinct(details);
      }
    case ShareTypes =>
      assert (set d | d in Distinct(details) :: d.kind) == (set d | d in details :: d.kind);
    case Metadata(key) =>
      MetadataGate(req, key);
    case CustomProp(ns, name) =>
      if !ServerNamespace(Some(ns)) {
        CustomGate(req, ns, name);
      }
    case _ =>
  }

  lemma MetadataGate(req: Requested, key: string)
    requires Wanted(req, Metadata(key))
    ensures GatesFor(req).metadata
  {
    if req.Some? {
      var i :| 0 <= i < |req.value| && req.value[i] == NameOf(Metadata(key));
      assert "metadata-" <= "metadata-" + key;
    }
  }

  lemma CustomGate(req: Requested, ns: string, name: string)
    requires Wanted(req, CustomProp(ns, name)) && !ServerNamespace(Some(ns))
    ensures GatesFor(req).custom
  {
    if req.Some? {
      var i :| 0 <= i < |req.value| && req.value[i] == (Some(ns), name);
    }
  }

  /** A client that asks only for `nc:sharees` sees none in a listing, whatever the
      shares are. */
  lemma ShareesAloneAreLost(db: Database, f: File)
    requires Details(db, SharesOf(db, f.id)) != []
    ensures var req := Some([(Some(NC), "sharees")]);
      Wanted(req, Sharees) && !ShareesAgree(db, req, f)
  {
  }
}

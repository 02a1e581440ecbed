/** What a PROPFIND listing answers, in terms of the tables alone. */
module Listing {
  import opened Options
  import opened Propfind

  // ── Rows chosen from a table ───────────────────────────────────────────────

  /** `xs` are the rows of `ys` at the places `ix`, in table order. */
  ghost predicate RowsAt<T>(xs: seq<T>, ys: seq<T>, ix: seq<nat>) {
    && |ix| == |xs|
    && (forall k :: 0 <= k < |ix| ==> ix[k] < |ys| && xs[k] == ys[ix[k]])
    && (forall k, l :: 0 <= k < l < |ix| ==> ix[k] < ix[l])
  }

  /** `xs` are exactly the rows of `ys` that satisfy `keep`, in table order. */
  ghost predicate Chosen<T(!new)>(xs: seq<T>, ys: seq<T>, keep: T -> bool) {
    exists ix: seq<nat> :: RowsAt(xs, ys, ix) && forall j :: 0 <= j < |ys| ==> (j in ix <==> keep(ys[j]))
  }

  lemma ChosenOneMore<T(!new)>(xs: seq<T>, ys: seq<T>, y: T, keep: T -> bool)
    requires Chosen(xs, ys, keep)
    ensures Chosen(if keep(y) then xs + [y] else xs, ys + [y], keep)
  {
    hide RowsAt;
    var ix: seq<nat> :| RowsAt(xs, ys, ix) && forall j :: 0 <= j < |ys| ==> (j in ix <==> keep(ys[j]));
    var n: nat := |ys|;
    RowsAtMore(xs, ys, y, ix);
    PlacesMore(ys, y, keep, ix);
    assert keep(y) ==> RowsAt(xs + [y], ys + [y], ix + [n]);
  }

  lemma RowsAtMore<T>(xs: seq<T>, ys: seq<T>, y: T, ix: seq<nat>)
    requires RowsAt(xs, ys, ix)
    ensures RowsAt(xs, ys + [y], ix) && RowsAt(xs + [y], ys + [y], ix + [|ys|])
    ensures |ys| !in ix
  {
  }

  lemma PlacesMore<T(!new)>(ys: seq<T>, y: T, keep: T -> bool, ix: seq<nat>)
    requires |ys| !in ix && forall j :: 0 <= j < |ys| ==> (j in ix <==> keep(ys[j]))
    ensures var more := if keep(y) then ix + [|ys|] else ix;
      forall j :: 0 <= j <= |ys| ==> (j in more <==> keep((ys + [y])[j]))
  {
  }

  lemma NothingChosen<T(!new)>(keep: T -> bool)
    ensures Chosen([], [], keep)
  {
    assert RowsAt<T>([], [], []);
  }

  lemma {:induction false} SelectChooses<T(!new)>(ys: seq<T>, keep: T -> bool)
    ensures Chosen(Select(ys, keep), ys, keep)
    decreases |ys|
  {
    hide Chosen;
    if ys == [] {
      NothingChosen(keep);
    } else {
      var n := |ys| - 1;
      SelectChooses(ys[..n], keep);
      ChosenOneMore(Select(ys[..n], keep), ys[..n], ys[n], keep);
      assert ys == ys[..n] + [ys[n]];
      var xs := Select(ys[..n], keep);
      assert xs + [] == xs;
    }
  }

  lemma CountLast<T(!new)>(ys: seq<T>, keep: T -> bool)
    ensures Count(ys, keep) ==
              if ys == [] then 0
              else Count(ys[..|ys| - 1], keep) + if keep(ys[|ys| - 1]) then 1 else 0
  {
  }

  /** `COUNT(*)` counts the places. */
  lemma {:induction false} CountIs<T(!new)>(ys: seq<T>, keep: T -> bool) returns (places: set<int>)
    ensures Count(ys, keep) == |places|
    ensures forall i :: i in places <==> 0 <= i < |ys| && keep(ys[i])
    decreases |ys|
  {
    hide Count;
    CountLast(ys, keep);
    places := {};
    if ys != [] {
      var n := |ys| - 1;
      places := CountIs(ys[..n], keep);
      assert n !in places && forall i :: 0 <= i < n ==> ys[..n][i] == ys[i];
      if keep(ys[n]) {
        places := places + {n};
      }
    }
  }

  /** Where no two rows are equal, it counts the rows. */
  lemma {:induction false} CountFiles(files: seq<File>, keep: File -> bool) returns (rows: set<File>)
    requires DistinctIds(files)
    ensures Count(files, keep) == |rows|
    ensures forall g :: g in rows <==> g in files && keep(g)
    decreases |files|
  {
    rows := {};
    if files != [] {
      var n := |files| - 1;
      rows := CountFiles(files[..n], keep);
      assert files[n] !in files[..n];
      assert files == files[..n] + [files[n]];
      if keep(files[n]) {
        rows := rows + {files[n]};
      }
    }
  }

  // ── The right answers ──────────────────────────────────────────────────────

  /** The client listed the name, or listed none. */
  ghost predicate Listed(req: Requested, ns: string, name: string) {
    req == None || (Some(ns), name) in req.value
  }

  /** A share of the file that the user gave, passed on or received. */
  ghost predicate Involved(db: Database, f: File, s: Share) {
    && s.file == f.id && s.kind in {0, 1, 3, 4, 6, 7, 10, 12}
    && (s.owner == db.uid || s.initiator == Some(db.uid) || s.with == Some(db.uid))
  }

  /** One sharee: a user is shown by display name where there is one. */
  ghost predicate ShareeOf(db: Database, s: Share, d: Detail) {
    && d.kind == s.kind && d.with == s.with
    && match s.with
       case None => d.displayName == ""
       case Some(name) =>
         d.displayName == if s.kind == 0 && name in db.displayNames then db.displayNames[name] else name
  }

  ghost predicate ShareesAre(db: Database, f: File, ds: seq<Detail>) {
    exists shares: seq<Share> :: Chosen(shares, db.shares, (s: Share) => Involved(db, f, s)) && |shares| == |ds|
      && forall k :: 0 <= k < |ds| ==> ShareeOf(db, shares[k], ds[k])
  }

  ghost predicate NoteIs(db: Database, f: File, text: string) {
    if text == "" then forall s :: s in db.shares && s.file == f.id ==> s.note == ""
    else exists s :: s in db.shares && s.file == f.id && s.note == text
           && forall t :: t in db.shares && t.file == f.id && t.note != "" ==> t.stime <= s.stime
  }

  ghost predicate TagsAre(db: Database, f: File, names: seq<string>) {
    exists cs: seq<Category> :: Chosen(cs, db.categories, (c: Category) => c.file == f.id && c.name != "_$!<Favorite>!$_")
      && |cs| == |names| && forall k :: 0 <= k < |names| ==> names[k] == cs[k].name
  }

  ghost predicate CommentsAre(db: Database, f: File, n: nat) {
    n == |set i | 0 <= i < |db.comments| && db.comments[i].file == f.id|
  }

  /** By a user other than this one, after this user's read mark or, without one,
      after the epoch. */
  ghost predicate UnreadAre(db: Database, f: File, n: nat) {
    n == |set i | 0 <= i < |db.comments| && var c := db.comments[i];
            && c.file == f.id && c.byUser && c.actor != db.uid
            && c.time > if f.id in db.readMarks then db.readMarks[f.id] else 0|
  }

  ghost predicate InServerNamespace(ns: string) {
    || ns == "DAV:" || ns == "http://owncloud.org/ns" || ns == "http://nextcloud.org/ns"
    || ns == "http://open-collaboration-services.org/ns"
  }

  /** The right value of the property with this name: a stored one, or one that the
      server computes. */
  ghost predicate Right(db: Database, f: File, ns: string, name: string, stored: bool, v: Value) {
    if stored then
      v.Stored? &&
      if InServerNamespace(ns) then v.values == []
      else Chosen(v.values, db.custom, (c: Custom) => c.path == f.path && c.ns == ns && c.name == name)
    else if ns == "http://nextcloud.org/ns" then
      if name == "contained-folder-count" then
        v == Number(if f.isDir then |set g | g in db.files && g.parent == f.id && g.isDir| else 0)
      else if name == "contained-file-count" then
        v == Number(if f.isDir then |set g | g in db.files && g.parent == f.id && !g.isDir| else 0)
      else if name == "note" then v.Text? && NoteIs(db, f, v.text)
      else if name == "system-tags" then
        v.Shown? && Chosen(v.tags, db.systemTags, (t: SystemTag) => t.file == f.id && t.visible)
      else if name == "sharees" then v.People?
      else
        && v.Json? && name == "metadata-" + v.key
        && v.json == if f.id in db.metadata then Some(db.metadata[f.id]) else None
    else
      && ns == "http://owncloud.org/ns"
      && if name == "tags" then v.Names? && TagsAre(db, f, v.names)
         else if name == "favorite" then v == Flag(Category(f.id, "_$!<Favorite>!$_") in db.categories)
         else if name == "share-types" then
           v == Kinds(set s | s in db.shares && Involved(db, f, s) :: s.kind)
         else if name == "comments-count" then v.Number? && CommentsAre(db, f, v.n)
         else name == "comments-unread" && v.Number? && UnreadAre(db, f, v.n)
  }

  // ── The queries answer right ───────────────────────────────────────────────

  lemma ChosenSame<T(!new)>(xs: seq<T>, ys: seq<T>, keep: T -> bool, same: T -> bool)
    requires Chosen(xs, ys, keep) && forall y :: y in ys ==> (keep(y) <==> same(y))
    ensures Chosen(xs, ys, same)
  {
    var ix: seq<nat> :| RowsAt(xs, ys, ix) && forall j :: 0 <= j < |ys| ==> (j in ix <==> keep(ys[j]));
    forall j | 0 <= j < |ys|
      ensures j in ix <==> same(ys[j])
    {
      assert ys[j] in ys;
    }
  }

  /** A choice from a choice. */
  lemma {:induction false} SelectTwice<T(!new)>(ys: seq<T>, first: T -> bool, second: T -> bool, both: T -> bool)
    requires forall y :: y in ys ==> (both(y) <==> first(y) && second(y))
    ensures Select(Select(ys, first), second) == Select(ys, both)
    decreases |ys|
  {
    if ys != [] {
      var n := |ys| - 1;
      SelectTwice(ys[..n], first, second, both);
      var xs := Select(ys[..n], first);
      assert ys[n] in ys;
      assert (xs + [ys[n]])[..|xs|] == xs;
      assert xs + [] == xs;
    }
  }

  /** Each share that counts gives one sharee. */
  lemma {:induction false} DetailsOfParties(db: Database, shares: seq<Share>)
    ensures var ds, ps := Details(db, shares), Select(shares, (s: Share) => Party(db.uid, s));
      |ds| == |ps| && forall k :: 0 <= k < |ds| ==> ds[k] == DetailOf(db, ps[k])
    decreases |shares|
  {
    if shares != [] {
      DetailsOfParties(db, shares[..|shares| - 1]);
    }
  }

  lemma PartyRight(db: Database, f: File, s: Share)
    ensures s.file == f.id && Party(db.uid, s) <==> Involved(db, f, s)
    ensures ShareeOf(db, s, DetailOf(db, s))
  {
  }

  lemma DetailsRight(db: Database, f: File)
    ensures ShareesAre(db, f, Details(db, SharesOf(db, f.id)))
  {
    hide Details, Select, Party, DetailOf, Involved, ShareeOf, Chosen;
    var own, party := (s: Share) => s.file == f.id, (s: Share) => Party(db.uid, s);
    var both := (s: Share) => s.file == f.id && Party(db.uid, s);
    forall s: Share
      ensures s.file == f.id && Party(db.uid, s) <==> Involved(db, f, s)
      ensures ShareeOf(db, s, DetailOf(db, s))
    {
      PartyRight(db, f, s);
    }
    var ps := Select(Select(db.shares, own), party);
    DetailsOfParties(db, Select(db.shares, own));
    SelectTwice(db.shares, own, party, both);
    SelectChooses(db.shares, both);
    ChosenSame(ps, db.shares, both, (s: Share) => Involved(db, f, s));
  }

  lemma TagsRight(db: Database, f: File, tags: seq<Category>)
    requires tags == CategoriesOf(db, f.id)
    ensures TagsAre(db, f, Select(NamesOf(tags), (n: string) => n != FAVORITE))
    ensures FAVORITE in NamesOf(tags) <==> Category(f.id, "_$!<Favorite>!$_") in db.categories
  {
    hide Select, NamesOf, Chosen;
    var own, proper := (c: Category) => c.file == f.id, (c: Category) => c.name != FAVORITE;
    var both := (c: Category) => c.file == f.id && c.name != FAVORITE;
    var cs := Select(tags, proper);
    SelectTwice(db.categories, own, proper, both);
    SelectChooses(db.categories, both);
    ChosenSame(cs, db.categories, both, (c: Category) => c.file == f.id && c.name != "_$!<Favorite>!$_");
    NamesSelect(tags);
    NamesHold(tags);
    if FAVORITE in NamesOf(tags) {
      var c :| c in tags && c.name == FAVORITE;
      assert c == Category(f.id, "_$!<Favorite>!$_");
    }
  }

  lemma {:induction false} NamesSelect(tags: seq<Category>)
    ensures var cs := Select(tags, (c: Category) => c.name != FAVORITE);
      var names := Select(NamesOf(tags), (n: string) => n != FAVORITE);
      |names| == |cs| && forall k :: 0 <= k < |cs| ==> names[k] == cs[k].name
    decreases |tags|
  {
    if tags != [] {
      var n := |tags| - 1;
      NamesSelect(tags[..n]);
      var xs := NamesOf(tags[..n]);
      assert (xs + [tags[n].name])[..|xs|] == xs;
    }
  }

  lemma {:induction false} NamesHold(tags: seq<Category>)
    ensures forall n :: n in NamesOf(tags) <==> exists c :: c in tags && c.name == n
    decreases |tags|
  {
    if tags != [] {
      var init := tags[..|tags| - 1];
      NamesHold(init);
      assert tags == init + [tags[|tags| - 1]];
    }
  }

  lemma SharesRight(db: Database, f: File, details: seq<Detail>)
    requires details == Details(db, SharesOf(db, f.id))
    ensures (set d | d in details :: d.kind) == set s | s in db.shares && Involved(db, f, s) :: s.kind
  {
    hide Details, SharesOf, Involved, Chosen;
    DetailsRight(db, f);
    var keep := (s: Share) => Involved(db, f, s);
    var shares: seq<Share> :| Chosen(shares, db.shares, keep) && |shares| == |details|
      && forall k :: 0 <= k < |details| ==> ShareeOf(db, shares[k], details[k]);
    ChosenHold(shares, db.shares, keep);
    var a, b := set d | d in details :: d.kind, set s | s in db.shares && Involved(db, f, s) :: s.kind;
    forall s | s in db.shares && Involved(db, f, s)
      ensures s.kind in a
    {
      var k :| 0 <= k < |shares| && shares[k] == s;
      assert details[k] in details;
    }
    forall d | d in details
      ensures d.kind in b
    {
      var k :| 0 <= k < |details| && details[k] == d;
      assert shares[k] in shares;
    }
  }

  lemma ChosenHold<T(!new)>(xs: seq<T>, ys: seq<T>, keep: T -> bool)
    requires Chosen(xs, ys, keep)
    ensures forall y :: y in xs <==> y in ys && keep(y)
  {
    var ix: seq<nat> :| RowsAt(xs, ys, ix) && forall j :: 0 <= j < |ys| ==> (j in ix <==> keep(ys[j]));
    forall y | y in ys && keep(y)
      ensures y in xs
    {
      var j :| 0 <= j < |ys| && ys[j] == y;
      var k :| 0 <= k < |ix| && ix[k] == j;
      assert xs[k] == y;
    }
    forall y | y in xs
      ensures y in ys && keep(y)
    {
      var k :| 0 <= k < |xs| && xs[k] == y;
      assert ix[k] in ix;
    }
  }

  lemma NoteRight(db: Database, f: File)
    ensures NoteIs(db, f, NoteOf(SharesOf(db, f.id)))
  {
    hide Latest;
    LatestIsNewest(SharesOf(db, f.id));
  }

  lemma ChildrenRight(db: Database, f: File)
    requires Keyed(db)
    ensures CountChildren(db, f.id).0 == |set g | g in db.files && g.parent == f.id && g.isDir|
    ensures CountChildren(db, f.id).1 == |set g | g in db.files && g.parent == f.id && !g.isDir|
  {
    hide Count;
    var dirs, files := (g: File) => g.parent == f.id && g.isDir, (g: File) => g.parent == f.id && !g.isDir;
    var a := CountFiles(db.files, dirs);
    var b := CountFiles(db.files, files);
    assert a == set g | g in db.files && g.parent == f.id && g.isDir;
    assert b == set g | g in db.files && g.parent == f.id && !g.isDir;
  }

  lemma CommentsRight(db: Database, f: File)
    ensures CommentsAre(db, f, CommentsOf(db, f.id).0)
  {
    hide Count;
    var all := (c: Comment) => c.file == f.id;
    var places := CountIs(db.comments, all);
    assert places == set i | 0 <= i < |db.comments| && db.comments[i].file == f.id;
  }

  lemma UnreadRight(db: Database, f: File)
    ensures UnreadAre(db, f, CommentsOf(db, f.id).1)
  {
    hide Count;
    var mark := if f.id in db.readMarks then db.readMarks[f.id] else 0;
    var unread := (c: Comment) => c.file == f.id && c.byUser && c.actor != db.uid && c.time > mark;
    var places := CountIs(db.comments, unread);
    assert places == set i | 0 <= i < |db.comments| && var c := db.comments[i];
             && c.file == f.id && c.byUser && c.actor != db.uid
             && c.time > if f.id in db.readMarks then db.readMarks[f.id] else 0;
  }

  /** Every single-row query gives the right value. */
  lemma QueriedRight(db: Database, f: File, p: Prop)
    requires Keyed(db)
    ensures var (ns, name) := NameOf(p);
      ns.Some? && Right(db, f, ns.value, name, p.CustomProp?, Rendered(Queried(db, f), p))
  {
    hide Details, SharesOf, CountChildren, Latest, CommentsOf, SystemTagsOf, CategoriesOf, CustomOf, Select,
         NoteIs, TagsAre, CommentsAre, UnreadAre, Involved, Chosen;
    match p
    case FolderCount => ChildrenRight(db, f);
    case FileCount => ChildrenRight(db, f);
    case Note => NoteRight(db, f);
    case Tags => TagsRight(db, f, CategoriesOf(db, f.id));
    case Favorite => TagsRight(db, f, CategoriesOf(db, f.id));
    case ShareTypes => DistinctKinds(db, f);
    case CommentsCount => CommentsRight(db, f);
    case CommentsUnread => UnreadRight(db, f);
    case SystemTags => SystemTagsRight(db, f);
    case CustomProp(ns, name) => CustomRight(db, f, ns, name);
    case Metadata(key) => assert ("metadata-" + key)[0] == 'm';
    case Sharees =>
  }

  lemma DistinctKinds(db: Database, f: File)
    ensures var details := Details(db, SharesOf(db, f.id));
      (set d | d in Distinct(details) :: d.kind) == set s | s in db.shares && Involved(db, f, s) :: s.kind
  {
    hide Details, SharesOf, Involved;
    var details := Details(db, SharesOf(db, f.id));
    SharesRight(db, f, details);
    assert (set d | d in Distinct(details) :: d.kind) == set d | d in details :: d.kind;
  }

  lemma SystemTagsRight(db: Database, f: File)
    ensures Chosen(SystemTagsOf(db, f.id), db.systemTags, (t: SystemTag) => t.file == f.id && t.visible)
  {
    hide Select, Chosen;
    var keep := (t: SystemTag) => t.file == f.id && t.visible;
    SelectChooses(db.systemTags, keep);
    ChosenSame(SystemTagsOf(db, f.id), db.systemTags, keep, (t: SystemTag) => t.file == f.id && t.visible);
  }

  lemma CustomRight(db: Database, f: File, ns: string, name: string)
    ensures ServerNamespace(Some(ns)) <==> InServerNamespace(ns)
    ensures Chosen(Select(CustomOf(db, f.path), (c: Custom) => c.ns == ns && c.name == name), db.custom,
              (c: Custom) => c.path == f.path && c.ns == ns && c.name == name)
  {
    hide Select, Chosen;
    var own, named := (c: Custom) => c.path == f.path, (c: Custom) => c.ns == ns && c.name == name;
    var both := (c: Custom) => c.path == f.path && c.ns == ns && c.name == name;
    SelectTwice(db.custom, own, named, both);
    SelectChooses(db.custom, both);
    ChosenSame(Select(Select(db.custom, own), named), db.custom, both,
      (c: Custom) => c.path == f.path && c.ns == ns && c.name == name);
  }

  // ── The whole listing ──────────────────────────────────────────────────────

  /** The share queries run for a listed `share-types`, `note`, or `sharees` in the
      namespace it is not emitted in. */
  ghost predicate SharesListed(req: Requested) {
    || Listed(req, "http://owncloud.org/ns", "share-types") || Listed(req, "http://owncloud.org/ns", "sharees")
    || Listed(req, "http://nextcloud.org/ns", "note")
  }

  /** A family of which the client listed nothing is not queried. */
  ghost predicate OnlyListed(req: Requested, x: Facts) {
    && (x.dirCounts == (0, 0) ||
        Listed(req, "http://nextcloud.org/ns", "contained-folder-count") ||
        Listed(req, "http://nextcloud.org/ns", "contained-file-count"))
    && (!SharesListed(req) ==> x.note == "" && x.details == [])
    && (x.tags == [] ||
        Listed(req, "http://owncloud.org/ns", "tags") || Listed(req, "http://owncloud.org/ns", "favorite"))
    && (x.comments == (0, 0) ||
        Listed(req, "http://owncloud.org/ns", "comments-count") ||
        Listed(req, "http://owncloud.org/ns", "comments-unread"))
    && (x.systemTags == [] || Listed(req, "http://nextcloud.org/ns", "system-tags"))
    && (x.metadata == None || exists key :: Listed(req, "http://nextcloud.org/ns", "metadata-" + key))
    && (x.custom == [] || req == None || exists n :: n in req.value && (n.0.None? || !InServerNamespace(n.0.value)))
  }

  /** Sharees are all there, repeated where a share is, or none are. */
  ghost predicate ShareesShown(db: Database, req: Requested, f: File, v: Value) {
    v.People? && if SharesListed(req) then ShareesAre(db, f, v.details) else v.details == []
  }

  ghost predicate AnswersRight(db: Database, req: Requested, f: File, x: Facts) {
    && OnlyListed(req, x)
    && ShareesShown(db, req, f, Rendered(x, Sharees))
    && forall p :: Wanted(req, p) ==>
         var (ns, name) := NameOf(p);
         && ns.Some? && Right(db, f, ns.value, name, p.CustomProp?, Rendered(x, p))
         && (Rendered(x, p) == Rendered(Queried(db, f), p) <==> (p.Sharees? ==> ShareesAgree(db, req, f)))
  }

  lemma ChildRight(db: Database, req: Requested, f: File, x: Facts)
    requires Keyed(db)
    requires var g := GatesFor(req);
      x == Facts(
        if g.dirCounts && f.isDir then CountChildren(db, f.id) else (0, 0),
        if g.shares then NoteOf(SharesOf(db, f.id)) else "",
        if g.tags then CategoriesOf(db, f.id) else [],
        if g.shares then Details(db, SharesOf(db, f.id)) else [],
        if g.comments then CommentsOf(db, f.id) else (0, 0),
        if g.systemTags then SystemTagsOf(db, f.id) else [],
        if g.metadata then MetadataOf(db, f.id) else None,
        if g.custom then CustomOf(db, f.path) else [])
    ensures AnswersRight(db, req, f, x)
  {
    hide Details, SharesOf, CountChildren, Latest, CommentsOf, SystemTagsOf, CategoriesOf, CustomOf, Right,
         ShareesAre, GatesFor, OnlyListed, ShareesAgree, SharesListed, Queried, MetadataOf;
    GatesListed(req);
    NothingElse(db, req, f, x);
    DetailsRight(db, f);
    forall p | Wanted(req, p)
      ensures var (ns, name) := NameOf(p);
        && ns.Some? && Right(db, f, ns.value, name, p.CustomProp?, Rendered(x, p))
        && (Rendered(x, p) == Rendered(Queried(db, f), p) <==> (p.Sharees? ==> ShareesAgree(db, req, f)))
    {
      BatchAgrees(db, req, f, p, x);
      QueriedRight(db, f, p);
      if p.Sharees? {
        ShareesAnyRight(db, f, Rendered(x, p));
      }
    }
  }

  lemma ShareesAnyRight(db: Database, f: File, v: Value)
    requires v.People?
    ensures Right(db, f, "http://nextcloud.org/ns", "sharees", false, v)
  {
  }

  lemma GatesListed(req: Requested)
    ensures GatesFor(req).shares <==> SharesListed(req)
  {
  }

  lemma NothingElse(db: Database, req: Requested, f: File, x: Facts)
    requires var g := GatesFor(req);
      && (!(g.dirCounts && f.isDir) ==> x.dirCounts == (0, 0))
      && (!g.shares ==> x.note == "" && x.details == [])
      && (!g.tags ==> x.tags == [])
      && (!g.comments ==> x.comments == (0, 0))
      && (!g.systemTags ==> x.systemTags == [])
      && (!g.metadata ==> x.metadata == None)
      && (!g.custom ==> x.custom == [])
    ensures OnlyListed(req, x)
  {
    if req == None {
      assert Listed(req, "http://nextcloud.org/ns", "metadata-" + "");
    } else if GatesFor(req).metadata {
      var i :| 0 <= i < |req.value| && req.value[i].0 == Some(NC) && "metadata-" <= req.value[i].1;
      var n := req.value[i].1;
      assert n == "metadata-" + n[9..];
      assert Listed(req, "http://nextcloud.org/ns", "metadata-" + n[9..]);
    }
    if req.Some? && GatesFor(req).custom {
      var i :| 0 <= i < |req.value| && !ServerNamespace(req.value[i].0);
      assert req.value[i] in req.value;
    }
  }

  /** The whole request: list the directory into the batch, then answer for every
      child from it. */
  method ListDirectory(db: Database, dir: int, req: Requested) returns (children: seq<File>, answers: seq<Facts>)
    requires Keyed(db)
    ensures Chosen(children, db.files, (f: File) => f.parent == dir) && |answers| == |children|
    ensures forall i :: 0 <= i < |children| ==> AnswersRight(db, req, children[i], answers[i])
  {
    hide AnswersRight, GatesFor, HoldsFor, Select, Chosen;
    var batch := ReadDirBatched(db, dir, req);
    children := ChildrenOf(db, dir);
    SelectChooses(db.files, IsIn(dir));
    ChosenSame(children, db.files, IsIn(dir), (f: File) => f.parent == dir);
    answers := [];
    for i := 0 to |children|
      invariant |answers| == i
      invariant forall j :: 0 <= j < i ==> AnswersRight(db, req, children[j], answers[j])
    {
      assert children[i] in children;
      var x := CollectFacts(db, batch, children[i], req);
      ChildRight(db, req, children[i], x);
      answers := answers + [x];
    }
  }
}

/** File tags: the relations a tag update leaves behind, and the tag XML. */
module Tags {
  import opened Options
  import opened Texts

  const FAVORITE := "_$!<Favorite>!$_"

  // ── Stored tags ────────────────────────────────────────────────────────────

  /** A name that survives trimming as it is. */
  predicate Clean(name: string) {
    name != "" && Trim(name) == name
  }

  lemma {:induction false} TrimIsClean(s: string)
    ensures Trim(s) == "" || Clean(Trim(s))
    decreases |s|
  {
    if s != "" && IsSpace(s[0]) {
      TrimIsClean(s[1..]);
    } else if s != "" && IsSpace(s[|s| - 1]) {
      TrimIsClean(s[..|s| - 1]);
    }
  }

  /** What an update adds, removes and leaves, for a file carrying `before`. */
  function Added(before: set<string>, requested: seq<string>): set<string> {
    set t | t in requested && t !in before && t != FAVORITE && Trim(t) != "" :: Trim(t)
  }

  function Removed(current: seq<string>, requested: seq<string>): set<string> {
    set t | t in current && t !in requested && t != FAVORITE
  }

  function Updated(before: set<string>, requested: seq<string>): set<string> {
    before + Added(before, requested) - (set t | t in before && t !in requested && t != FAVORITE)
  }

  lemma AddedNext(before: set<string>, requested: seq<string>, i: nat)
    requires i < |requested|
    ensures var t := requested[i];
      Added(before, requested[..i + 1]) ==
        Added(before, requested[..i]) +
        if t !in before && t != FAVORITE && Trim(t) != "" then {Trim(t)} else {}
  {
    assert requested[..i + 1] == requested[..i] + [requested[i]];
  }

  lemma AddedNothing(before: set<string>)
    ensures Added(before, []) == {}
  {
  }

  /** Stored names are trimmed; the favorite sentinel is one that is never touched by
      its own name. */
  ghost predicate Stored(before: set<string>) {
    forall t :: t in before ==> Clean(t)
  }

  /** The name is asked for, perhaps with blanks around it. */
  ghost predicate AskedFor(requested: seq<string>, name: string) {
    exists t :: t in requested && t != FAVORITE && Trim(t) == name
  }

  lemma FavoriteIsClean()
    ensures Clean(FAVORITE)
  {
    assert FAVORITE[0] == '_' && FAVORITE[|FAVORITE| - 1] == '_';
  }

  /** Name by name: a stored name stays exactly when it is asked for as it is, a new
      one is there exactly when it is asked for in any form. */
  lemma UpdatedAre(before: set<string>, requested: seq<string>, name: string)
    requires Stored(before)
    ensures name in Updated(before, requested) <==>
              if name in before then name == FAVORITE || name in requested
              else name != "" && AskedFor(requested, name)
  {
    hide Trim;
    FavoriteIsClean();
    if name !in before && name != "" && AskedFor(requested, name) {
      var t :| t in requested && t != FAVORITE && Trim(t) == name;
      assert t !in before;
      assert Trim(t) in Added(before, requested);
    }
  }

  function Sentinel(before: set<string>): set<string> {
    if FAVORITE in before then {FAVORITE} else {}
  }

  /** The file ends with exactly the requested names, and the favorite sentinel
      exactly when it was set before, if and only if the requested names are trimmed
      and not empty. */
  lemma UpdateIsRequest(before: set<string>, requested: seq<string>)
    requires Stored(before)
    ensures Updated(before, requested) == (set t | t in requested && t != FAVORITE) + Sentinel(before) <==>
              forall t :: t in requested && t != FAVORITE ==> Clean(t)
  {
    hide Trim, Updated, Clean;
    var asked := (set t | t in requested && t != FAVORITE) + Sentinel(before);
    forall name
      ensures name in Updated(before, requested) <==>
                if name in before then name == FAVORITE || name in requested
                else name != "" && AskedFor(requested, name)
    {
      UpdatedAre(before, requested, name);
    }
    if forall t :: t in requested && t != FAVORITE ==> Clean(t) {
      forall name
        ensures name in Updated(before, requested) <==> name in asked
      {
        CleanAsked(requested, name);
      }
    } else {
      var t :| t in requested && t != FAVORITE && !Clean(t);
      UncleanIsLeftOut(before, requested, t);
      assert t in asked;
    }
  }

  lemma CleanAsked(requested: seq<string>, name: string)
    requires forall t :: t in requested && t != FAVORITE ==> Clean(t)
    ensures name != "" && AskedFor(requested, name) <==> name in requested && name != FAVORITE
  {
    if name in requested && name != FAVORITE {
      assert Trim(name) == name;
    }
  }

  lemma UncleanIsLeftOut(before: set<string>, requested: seq<string>, t: string)
    requires Stored(before) && !Clean(t)
    ensures t !in Updated(before, requested)
  {
    hide Trim;
    FavoriteIsClean();
    UpdatedAre(before, requested, t);
    if t != "" && AskedFor(requested, t) {
      var r :| r in requested && r != FAVORITE && Trim(r) == t;
      TrimIsClean(r);
    }
  }

  /** A stored name is lost although it is asked for exactly when only padded forms of
      it are: asking for a tag with extra blanks takes the tag away. */
  lemma LostIff(before: set<string>, requested: seq<string>, name: string)
    requires Stored(before) && name in before && name != FAVORITE
    ensures name !in Updated(before, requested) <==> name !in requested
    ensures AskedFor(requested, name) && name !in Updated(before, requested) <==>
              (exists t :: t in requested && t != name && Trim(t) == name) && name !in requested
  {
    hide Trim;
    FavoriteIsClean();
    UpdatedAre(before, requested, name);
  }

  /** What the request means after trimming is what the file ends with if and only if
      no stored name is asked for in padded form only, and a favorite that is not set
      is not named in padded form. */
  lemma UpdateIsTrimmedRequest(before: set<string>, requested: seq<string>)
    requires Stored(before)
    ensures (forall name :: name in Updated(before, requested) <==>
               if name == FAVORITE then name in before else name != "" && AskedFor(requested, name)) <==>
            (forall name :: AskedFor(requested, name) ==>
               if name == FAVORITE then name in before else name in before ==> name in requested)
  {
    hide Trim, Updated, AskedFor;
    FavoriteIsClean();
    forall name
      ensures (name in Updated(before, requested) <==>
                 if name == FAVORITE then name in before else name != "" && AskedFor(requested, name)) <==>
              (AskedFor(requested, name) ==>
                 if name == FAVORITE then name in before else name in before ==> name in requested)
    {
      UpdatedAre(before, requested, name);
      if name in before && name in requested && name != FAVORITE {
        AskedAsItIs(requested, name);
      }
    }
  }

  lemma AskedAsItIs(requested: seq<string>, name: string)
    requires name in requested && name != FAVORITE && Clean(name)
    ensures AskedFor(requested, name)
  {
  }

  /** One user's categories and which files carry them. */
  class TagStore {
    var categories: map<string, int>
    var relations: set<(int, int)>
    var nextId: int

    constructor ()
      ensures Valid() && forall f :: TagsOf(f) == {}
    {
      categories, relations, nextId := map[], {}, 1;
    }

    ghost predicate Valid()
      reads this
    {
      && (forall n :: n in categories ==> Clean(n) && categories[n] < nextId)
      && (forall m, n :: m in categories && n in categories && categories[m] == categories[n] ==> m == n)
      && (forall r :: r in relations ==> r.1 < nextId)
    }

    /** The names a file carries, the favorite sentinel included. */
    ghost function TagsOf(file: int): set<string>
      reads this
    {
      set n | n in categories && (file, categories[n]) in relations
    }

    /** Insert unless there, then read back. */
    method GetOrCreateCategory(tag: string) returns (id: Option<int>)
      requires Valid()
      modifies this
      ensures Valid() && relations == old(relations)
      ensures id.None? <==> Trim(tag) == ""
      ensures id.Some? ==> Trim(tag) in categories && categories[Trim(tag)] == id.value
      ensures forall n :: n in old(categories) ==> n in categories && categories[n] == old(categories)[n]
      ensures forall n :: n in categories && n !in old(categories) ==> n == Trim(tag) && categories[n] >= old(nextId)
      ensures nextId >= old(nextId)
    {
      var name := Trim(tag);
      if name == "" {
        return None;
      }
      if name !in categories {
        TrimIsClean(tag);
        categories := categories[name := nextId];
        nextId := nextId + 1;
      }
      return Some(categories[name]);
    }

    method TagAs(file: int, tag: string) returns (ok: bool)
      requires Valid()
      modifies this
      ensures Valid()
      ensures ok <==> Trim(tag) != ""
      ensures TagsOf(file) == old(TagsOf(file)) + if ok then {Trim(tag)} else {}
      ensures forall f :: f != file ==> TagsOf(f) == old(TagsOf(f))
    {
      var id := GetOrCreateCategory(tag);
      if id.None? {
        return false;
      }
      relations := relations + {(file, id.value)};
      return true;
    }

    method UnTag(file: int, tag: string) returns (ok: bool)
      requires Valid()
      modifies this
      ensures Valid()
      ensures ok <==> Trim(tag) != ""
      ensures TagsOf(file) == old(TagsOf(file)) - {Trim(tag)}
      ensures forall f :: f != file ==> TagsOf(f) == old(TagsOf(f))
    {
      var name := Trim(tag);
      if name == "" {
        return false;
      }
      if name in categories {
        relations := relations - {(file, categories[name])};
      }
      return true;
    }

    method SetFavorite(file: int, state: bool)
      requires Valid()
      modifies this
      ensures Valid()
      ensures TagsOf(file) ==
                if state then old(TagsOf(file)) + {"_$!<Favorite>!$_"} else old(TagsOf(file)) - {"_$!<Favorite>!$_"}
      ensures forall f :: f != file ==> TagsOf(f) == old(TagsOf(f))
    {
      assert Trim(FAVORITE) == FAVORITE;
      if state {
        var _ := TagAs(file, FAVORITE);
      } else {
        var _ := UnTag(file, FAVORITE);
      }
    }

    /** Adds what is asked for and missing, then removes what is there and not asked
        for; the favorite sentinel is skipped on both sides. */
    method UpdateTags(file: int, current: seq<string>, requested: seq<string>)
      requires Valid() && (set t | t in current) == TagsOf(file)
      modifies this
      ensures Valid()
      ensures TagsOf(file) == Updated(old(TagsOf(file)), requested)
      ensures forall f :: f != file ==> TagsOf(f) == old(TagsOf(f))
    {
      AddMissing(file, current, requested);
      RemoveUnasked(file, current, requested);
    }

    method AddMissing(file: int, current: seq<string>, requested: seq<string>)
      requires Valid() && (set t | t in current) == TagsOf(file)
      modifies this
      ensures Valid() && (forall t :: t in current ==> Clean(t))
      ensures TagsOf(file) == old(TagsOf(file)) + Added(old(TagsOf(file)), requested)
      ensures forall f :: f != file ==> TagsOf(f) == old(TagsOf(f))
    {
      hide Added, Trim;
      ghost var before := TagsOf(file);
      assert forall t :: t in current ==> t in before;
      AddedNothing(before);
      for i := 0 to |requested|
        invariant Valid()
        invariant TagsOf(file) == before + Added(before, requested[..i])
        invariant forall f :: f != file ==> TagsOf(f) == old(TagsOf(f))
      {
        var tag := requested[i];
        AddedNext(before, requested, i);
        assert tag in current <==> tag in before;
        if tag in current || tag == FAVORITE {
          continue;
        }
        var _ := TagAs(file, tag);
      }
      assert requested[..|requested|] == requested;
    }

    method RemoveUnasked(file: int, current: seq<string>, requested: seq<string>)
      requires Valid() && forall t :: t in current ==> Clean(t)
      modifies this
      ensures Valid()
      ensures TagsOf(file) == old(TagsOf(file)) - Removed(current, requested)
      ensures forall f :: f != file ==> TagsOf(f) == old(TagsOf(f))
    {
      hide Trim;
      for i := 0 to |current|
        invariant Valid()
        invariant TagsOf(file) == old(TagsOf(file)) - Removed(current[..i], requested)
        invariant forall f :: f != file ==> TagsOf(f) == old(TagsOf(f))
      {
        var tag := current[i];
        assert current[..i + 1] == current[..i] + [tag];
        assert Removed(current[..i + 1], requested) ==
               Removed(current[..i], requested) + if tag in requested || tag == FAVORITE then {} else {tag};
        if tag in requested || tag == FAVORITE {
          continue;
        }
        assert tag in current && Clean(tag);
        var _ := UnTag(file, tag);
      }
      assert current[..|current|] == current;
    }
  }

  // ── XML ────────────────────────────────────────────────────────────────────

  const OPEN := "<oc:tag>"
  const CLOSE := "</oc:tag>"

  /** `str::replace` of one character. */
  function Replace(s: string, c: char, text: string): string {
    if s == "" then "" else (if s[0] == c then text else [s[0]]) + Replace(s[1..], c, text)
  }

  /** The server's three replacements, ampersand first. */
  function Escaped(s: string): string {
    Replace(Replace(Replace(s, '&', "&amp;"), '<', "&lt;"), '>', "&gt;")
  }

  function Code(c: char): string {
    if c == '&' then "&amp;" else if c == '<' then "&lt;" else if c == '>' then "&gt;" else [c]
  }

  function Coded(s: string): string {
    if s == "" then "" else Code(s[0]) + Coded(s[1..])
  }

  lemma {:induction false} ReplaceConcat(s: string, t: string, c: char, text: string)
    ensures Replace(s + t, c, text) == Replace(s, c, text) + Replace(t, c, text)
    decreases |s|
  {
    if s == "" {
      assert s + t == t;
    } else {
      ReplaceConcat(s[1..], t, c, text);
      assert (s + t)[1..] == s[1..] + t;
    }
  }

  lemma {:induction false} ReplaceAbsent(s: string, c: char, text: string)
    requires c !in s
    ensures Replace(s, c, text) == s
    decreases |s|
  {
    if s != "" {
      ReplaceAbsent(s[1..], c, text);
    }
  }

  lemma ReplaceOne(x: char, c: char, text: string)
    ensures Replace([x], c, text) == if x == c then text else [x]
  {
    assert [x][1..] == "";
  }

  lemma EscapedOne(c: char)
    ensures Escaped([c]) == Code(c)
  {
    hide Replace;
    ReplaceOne(c, '&', "&amp;");
    ReplaceOne(c, '<', "&lt;");
    ReplaceOne(c, '>', "&gt;");
    ReplaceAbsent("&amp;", '<', "&lt;");
    ReplaceAbsent("&amp;", '>', "&gt;");
    ReplaceAbsent("&lt;", '>', "&gt;");
  }

  /** The three passes escape each character by itself. */
  lemma {:induction false} EscapedIsCoded(s: string)
    ensures Escaped(s) == Coded(s)
    decreases |s|
  {
    if s != "" {
      var t := s[1..];
      EscapedOne(s[0]);
      EscapedIsCoded(t);
      assert s == [s[0]] + t;
      ReplaceConcat([s[0]], t, '&', "&amp;");
      var a, b := Replace([s[0]], '&', "&amp;"), Replace(t, '&', "&amp;");
      ReplaceConcat(a, b, '<', "&lt;");
      ReplaceConcat(Replace(a, '<', "&lt;"), Replace(b, '<', "&lt;"), '>', "&gt;");
    }
  }

  lemma {:induction false} CodedHasNoAngle(s: string)
    ensures '<' !in Coded(s) && '>' !in Coded(s)
    decreases |s|
  {
    if s != "" {
      CodedHasNoAngle(s[1..]);
    }
  }

  /** Escaping loses nothing. */
  lemma {:induction false} CodedInjective(s: string, t: string)
    requires Coded(s) == Coded(t)
    ensures s == t
    decreases |s|
  {
    if s == "" || t == "" {
      assert Coded(s) == "" <==> s == "";
      assert Coded(t) == "" <==> t == "";
    } else {
      CodeFirst(s[0], t[0], Coded(s[1..]), Coded(t[1..]));
      CodedInjective(s[1..], t[1..]);
      assert s == [s[0]] + s[1..] && t == [t[0]] + t[1..];
    }
  }

  /** No code is the beginning of another. */
  lemma CodeFirst(a: char, b: char, x: string, y: string)
    requires Code(a) + x == Code(b) + y
    ensures a == b && x == y
  {
    var s := Code(a) + x;
    assert s[0] == Code(a)[0] == Code(b)[0];
    if s[0] == '&' {
      assert s[1] == Code(a)[1] == Code(b)[1];
    }
    assert s[|Code(a)|..] == x && (Code(b) + y)[|Code(b)|..] == y;
  }

  /** Character by character; the three that are escaped become entities. */
  lemma EscapedIs(s: string, t: string, c: char)
    ensures Escaped(s + t) == Escaped(s) + Escaped(t)
    ensures Escaped([c]) == if c == '&' then "&amp;" else if c == '<' then "&lt;" else if c == '>' then "&gt;" else [c]
    ensures Escaped("") == ""
  {
    hide Replace, Code;
    EscapedIsCoded(s);
    EscapedIsCoded(t);
    EscapedIsCoded(s + t);
    CodedConcat(s, t);
    EscapedOne(c);
    CodeIs(c);
    EscapedIsCoded("");
  }

  lemma CodeIs(c: char)
    ensures Code(c) == if c == '&' then "&amp;" else if c == '<' then "&lt;" else if c == '>' then "&gt;" else [c]
  {
  }

  lemma {:induction false} CodedConcat(s: string, t: string)
    ensures Coded(s + t) == Coded(s) + Coded(t)
    decreases |s|
  {
    hide Code;
    if s == "" {
      assert s + t == t;
    } else {
      CodedConcat(s[1..], t);
      assert (s + t)[1..] == s[1..] + t;
    }
  }

  lemma EscapedInjective(s: string, t: string)
    requires Escaped(s) == Escaped(t)
    ensures s == t
  {
    EscapedIsCoded(s);
    EscapedIsCoded(t);
    CodedInjective(s, t);
  }

  predicate Plain(s: string) {
    '&' !in s && '<' !in s && '>' !in s
  }

  lemma {:induction false} CodedLength(s: string)
    ensures |Coded(s)| >= |s|
    ensures |Coded(s)| == |s| <==> Plain(s)
    ensures Plain(s) ==> Coded(s) == s
    decreases |s|
  {
    if s != "" {
      CodedLength(s[1..]);
      assert s == [s[0]] + s[1..];
    }
  }

  function Element(tag: string): string {
    OPEN + Escaped(tag) + CLOSE
  }

  function Format(tags: seq<string>): string {
    if tags == [] then "" else Element(tags[0]) + Format(tags[1..])
  }

  /** One element per tag, one after the other. */
  lemma {:induction false} FormatAppend(tags: seq<string>, t: string)
    ensures Format(tags + [t]) == Format(tags) + Element(t)
    ensures Format([]) == ""
    decreases |tags|
  {
    hide Element;
    if tags == [] {
      assert (tags + [t])[1..] == [];
      assert tags + [t] == [t];
    } else {
      FormatAppend(tags[1..], t);
      assert (tags + [t])[1..] == tags[1..] + [t];
    }
  }

  method FormatTagsXml(tags: seq<string>) returns (xml: string)
    ensures xml == Format(tags)
  {
    hide Escaped, Format;
    assert forall x, y: string :: x + OPEN + y + CLOSE == x + (OPEN + y + CLOSE);
    xml := "";
    assert Format([]) == "" by { FormatNothing(); }
    for i := 0 to |tags|
      invariant xml == Format(tags[..i])
    {
      FormatAppend(tags[..i], tags[i]);
      assert tags[..i + 1] == tags[..i] + [tags[i]];
      xml := xml + OPEN;
      xml := xml + Escaped(tags[i]);
      xml := xml + CLOSE;
    }
    assert tags[..|tags|] == tags;
  }

  lemma FormatNothing()
    ensures Format([]) == ""
  {
  }

  /** The values between the markers, left to right; an unclosed one ends it. */
  function Parse(s: string): seq<string>
    decreases |s|
  {
    match Find(s, OPEN)
    case None => []
    case Some(i) =>
      var rest := s[i + |OPEN|..];
      match Find(rest, CLOSE)
      case None => []
      case Some(j) => [rest[..j]] + Parse(rest[j + |CLOSE|..])
  }

  method ParseTagsXml(s: string) returns (tags: seq<string>)
    ensures tags == Parse(s)
  {
    hide Find;
    tags := [];
    var rest := s;
    while true
      invariant tags + Parse(rest) == Parse(s)
      decreases |rest|
    {
      var start := FindSubsequence(rest, OPEN);
      if start.None? {
        break;
      }
      rest := rest[start.value + |OPEN|..];
      var end := FindSubsequence(rest, CLOSE);
      if end.None? {
        break;
      }
      tags := tags + [rest[..end.value]];
      rest := rest[end.value + |CLOSE|..];
    }
  }

  function EscapedAll(tags: seq<string>): (es: seq<string>)
    ensures |es| == |tags| && forall i :: 0 <= i < |tags| ==> es[i] == Escaped(tags[i])
  {
    seq(|tags|, i requires 0 <= i < |tags| => Escaped(tags[i]))
  }

  /** A marker that starts with '<' is first found right after text without one. */
  lemma MarkAfter(e: string, mark: string, rest: string)
    requires '<' !in e && mark != "" && mark[0] == '<'
    ensures Find(e + (mark + rest), mark) == Some(|e|)
    ensures (e + (mark + rest))[..|e|] == e && (e + (mark + rest))[|e| + |mark|..] == rest
  {
    hide Find;
    var s := e + (mark + rest);
    assert s[|e|..|e| + |mark|] == mark;
    forall j | 0 <= j < |e|
      ensures !At(s, mark, j)
    {
      assert s[j] in e;
    }
    FindIs(s, mark, |e|);
  }

  lemma ParseOne(e: string, rest: string)
    requires '<' !in e
    ensures Parse(OPEN + (e + (CLOSE + rest))) == [e] + Parse(rest)
  {
    hide Find, Parse;
    var inner := e + (CLOSE + rest);
    assert "" + (OPEN + inner) == OPEN + inner;
    MarkAfter("", OPEN, inner);
    MarkAfter(e, CLOSE, rest);
    ParseUnfolds(OPEN + inner);
  }

  /** On any text: what stands before the first opening marker is skipped, the value
      goes up to the closing one, and without one it is dropped. */
  lemma ParseIs(junk: string, e: string, rest: string)
    requires '<' !in junk && '<' !in e
    ensures Parse(junk) == []
    ensures Parse(junk + "<oc:tag>" + e) == []
    ensures Parse(junk + "<oc:tag>" + e + "</oc:tag>" + rest) == [e] + Parse(rest)
  {
    hide Find, Parse;
    NoMark(junk, OPEN);
    NoMark(e, CLOSE);
    ParseUnopened(junk);
    MarkAfter(junk, OPEN, e);
    MarkAfter(junk, OPEN, e + (CLOSE + rest));
    MarkAfter(e, CLOSE, rest);
    ParseUnclosed(junk + (OPEN + e), |junk|, e);
    ParseUnfolds(junk + (OPEN + (e + (CLOSE + rest))));
    assert junk + "<oc:tag>" + e == junk + (OPEN + e);
    assert junk + "<oc:tag>" + e + "</oc:tag>" + rest == junk + (OPEN + (e + (CLOSE + rest)));
  }

  lemma NoMark(e: string, mark: string)
    requires '<' !in e && mark != "" && mark[0] == '<'
    ensures Find(e, mark) == None
  {
    hide Find;
    forall j: nat
      ensures !At(e, mark, j)
    {
      if j < |e| {
        assert e[j] in e;
      }
    }
  }

  lemma ParseUnopened(s: string)
    requires Find(s, OPEN) == None
    ensures Parse(s) == []
  {
    hide Find;
  }

  lemma ParseUnclosed(s: string, i: nat, rest: string)
    requires Find(s, OPEN) == Some(i) && i + |OPEN| <= |s| && s[i + |OPEN|..] == rest && Find(rest, CLOSE) == None
    ensures Parse(s) == []
  {
    hide Find;
  }

  lemma ParseUnfolds(s: string)
    ensures var found := Find(s, OPEN);
      found.Some? ==>
        && found.value + |OPEN| <= |s|
        && var rest := s[found.value + |OPEN|..];
           var end := Find(rest, CLOSE);
           end.Some? ==>
             end.value + |CLOSE| <= |rest| && Parse(s) == [rest[..end.value]] + Parse(rest[end.value + |CLOSE|..])
  {
    hide Find;
  }

  /** Parsing formatted tags gives the escaped names in order. */
  lemma {:induction false} ParseFormat(tags: seq<string>)
    ensures Parse(Format(tags)) == EscapedAll(tags)
    decreases |tags|
  {
    hide Escaped, Parse;
    if tags == [] {
      ParseNothing();
    } else {
      EscapedIsCoded(tags[0]);
      CodedHasNoAngle(tags[0]);
      ParseOne(Escaped(tags[0]), Format(tags[1..]));
      FormatFirst(tags);
      ParseFormat(tags[1..]);
      assert EscapedAll(tags) == [Escaped(tags[0])] + EscapedAll(tags[1..]);
    }
  }

  lemma FormatFirst(tags: seq<string>)
    requires tags != []
    ensures Format(tags) == OPEN + (Escaped(tags[0]) + (CLOSE + Format(tags[1..])))
  {
    hide Escaped;
  }

  lemma ParseNothing()
    ensures Parse("") == []
  {
  }

  /** The names themselves come back exactly when none of them needs escaping. */
  lemma RoundTripIff(tags: seq<string>)
    ensures Parse(Format(tags)) == tags <==> forall i :: 0 <= i < |tags| ==> Plain(tags[i])
  {
    ParseFormat(tags);
    forall i | 0 <= i < |tags|
      ensures Escaped(tags[i]) == tags[i] <==> Plain(tags[i])
    {
      EscapedIsCoded(tags[i]);
      CodedLength(tags[i]);
    }
    var es := EscapedAll(tags);
    assert es == tags <==> forall i :: 0 <= i < |tags| ==> es[i] == tags[i];
  }
}

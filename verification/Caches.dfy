/** The session and token caches while their source changes underneath. */
module Caches {
  import opened Options

  // ── The session cache ──────────────────────────────────────────────────────

  type Key = string
  type Identity = string

  /** Times are in seconds. */
  const SESSION_TTL := 60
  const NEGATIVE_TTL := 5

  datatype Entry = Positive(identity: Identity, at: int) | Negative(at: int)

  datatype Found = Hit(identity: Identity) | KnownFailure | Miss

  function Look(entries: map<Key, Entry>, k: Key, now: int, positiveTtl: int): Found {
    if k !in entries then Miss
    else
      match entries[k]
      case Positive(identity, at) => if now - at < positiveTtl then Hit(identity) else Miss
      case Negative(at) => if now - at < NEGATIVE_TTL then KnownFailure else Miss
  }

  predicate Alive(e: Entry, now: int) {
    now - e.at < if e.Positive? then SESSION_TTL else NEGATIVE_TTL
  }

  function Evicted(entries: map<Key, Entry>, now: int): map<Key, Entry> {
    map k | k in entries && Alive(entries[k], now) :: entries[k]
  }

  // ── Histories of the session cache ─────────────────────────────────────────

  datatype CacheEvent = Put(k: Key, identity: Identity) | PutFailure(k: Key) | Wait(seconds: nat) | Evict

  /** The entries and the clock after a list of events. */
  function Play(entries: map<Key, Entry>, now: int, events: seq<CacheEvent>, evicting: bool): (map<Key, Entry>, int)
    decreases |events|
  {
    if events == [] then (entries, now)
    else
      match events[0]
      case Put(k, identity) => Play(entries[k := Positive(identity, now)], now, events[1..], evicting)
      case PutFailure(k) => Play(entries[k := Negative(now)], now, events[1..], evicting)
      case Wait(seconds) => Play(entries, now + seconds, events[1..], evicting)
      case Evict => Play(if evicting then Evicted(entries, now) else entries, now, events[1..], evicting)
  }

  ghost predicate Unobservable(ttl: int) {
    forall entries: map<Key, Entry>, k: Key, t: int, later: int ::
      t <= later ==> Look(Evicted(entries, t), k, later, ttl) == Look(entries, k, later, ttl)
  }

  /** No later lookup can tell whether an eviction took place, exactly as long as
      its positive time to live is at most the default one. */
  lemma EvictionUnobservable(ttl: int)
    ensures Unobservable(ttl) <==> ttl <= 60
  {
    if ttl > SESSION_TTL {
      var entries := map["k" := Positive("id", 0)];
      assert Look(Evicted(entries, SESSION_TTL), "k", SESSION_TTL, ttl) == Miss;
      assert Look(entries, "k", SESSION_TTL, ttl) == Hit("id");
    }
  }

  /** `a` is `b` without some entries that are dead by now. */
  ghost predicate Trimmed(a: map<Key, Entry>, b: map<Key, Entry>, now: int) {
    forall k :: (k in a ==> k in b && a[k] == b[k]) && (k in b && k !in a ==> !Alive(b[k], now))
  }

  lemma {:induction false} TrimmedPlays(a: map<Key, Entry>, b: map<Key, Entry>, now: int, events: seq<CacheEvent>)
    requires Trimmed(a, b, now)
    ensures Play(a, now, events, true).1 == Play(b, now, events, false).1
    ensures Trimmed(Play(a, now, events, true).0, Play(b, now, events, false).0, Play(a, now, events, true).1)
    decreases |events|
  {
    if events != [] {
      var rest := events[1..];
      match events[0]
      case Put(k, identity) => TrimmedPlays(a[k := Positive(identity, now)], b[k := Positive(identity, now)], now, rest);
      case PutFailure(k) => TrimmedPlays(a[k := Negative(now)], b[k := Negative(now)], now, rest);
      case Wait(seconds) => TrimmedPlays(a, b, now + seconds, rest);
      case Evict => TrimmedPlays(Evicted(a, now), b, now, rest);
    }
  }

  /** Over a whole history, a cache that evicts answers every lookup like one that
      never does. */
  lemma EvictingRunsAgree(events: seq<CacheEvent>, start: int, k: Key, ttl: int)
    requires ttl <= 60
    ensures var (a, now) := Play(map[], start, events, true);
      var (b, same) := Play(map[], start, events, false);
      now == same && Look(a, k, now, ttl) == Look(b, k, now, ttl)
  {
    TrimmedPlays(map[], map[], start, events);
  }

  /** What was stored last under the key, by whatever came before it. */
  function Latest(known: Option<Entry>, now: int, events: seq<CacheEvent>, k: Key): Option<Entry>
    decreases |events|
  {
    if events == [] then known
    else
      match events[0]
      case Put(j, identity) => Latest(if j == k then Some(Positive(identity, now)) else known, now, events[1..], k)
      case PutFailure(j) => Latest(if j == k then Some(Negative(now)) else known, now, events[1..], k)
      case Wait(seconds) => Latest(known, now + seconds, events[1..], k)
      case Evict => Latest(known, now, events[1..], k)
  }

  lemma {:induction false} KeptIsLatest(entries: map<Key, Entry>, now: int, events: seq<CacheEvent>, k: Key)
    ensures var known := if k in entries then Some(entries[k]) else None;
      var end := Play(entries, now, events, false).0;
      Latest(known, now, events, k) == if k in end then Some(end[k]) else None
    decreases |events|
  {
    if events != [] {
      var rest := events[1..];
      match events[0]
      case Put(j, identity) => KeptIsLatest(entries[j := Positive(identity, now)], now, rest, k);
      case PutFailure(j) => KeptIsLatest(entries[j := Negative(now)], now, rest, k);
      case Wait(seconds) => KeptIsLatest(entries, now + seconds, rest, k);
      case Evict => KeptIsLatest(entries, now, rest, k);
    }
  }

  /** Over every history, evictions included, a lookup answers by what was stored last
      under its key: the identity for the time to live, a failure for five seconds,
      and nothing after that. */
  lemma LookIsLatest(events: seq<CacheEvent>, start: int, k: Key, ttl: int)
    requires ttl <= 60
    ensures var (entries, now) := Play(map[], start, events, true);
      Look(entries, k, now, ttl) ==
        match Latest(None, start, events, k)
        case None => Miss
        case Some(Positive(identity, at)) => if now - at < ttl then Hit(identity) else Miss
        case Some(Negative(at)) => if now - at < 5 then KnownFailure else Miss
  {
    EvictingRunsAgree(events, start, k, ttl);
    KeptIsLatest(map[], start, events, k);
  }

  // ── A cache in front of a changing source ──────────────────────────────────

  datatype Row = Row(data: string, expires: Option<int>)

  /** What was cached or fetched, when the source was asked, and when it was stored. */
  datatype Cached = Cached(value: Option<Row>, askedAt: int, at: int)

  datatype Asked = Asked(k: Key, value: Option<Row>, at: int)

  /** `now` is the monotone clock, `wall` the clock that token expiry is read from. */
  datatype World = World(now: int, wall: int, source: map<Key, Row>, cache: map<Key, Cached>, pending: map<int, Asked>)

  /** The session cache keeps failures for a while, the token cache does not. */
  datatype Policy = Policy(ttl: int, failureTtl: int, keepsFailures: bool)

  const TOKENS := Policy(300, 0, false)

  /** The caller of a session lookup chooses the time to live of identities. */
  function Sessions(ttl: int): Policy {
    Policy(ttl, NEGATIVE_TTL, true)
  }

  predicate Expired(r: Row, wall: int) {
    r.expires.Some? && wall > r.expires.value
  }

  function Says(w: World, k: Key): Option<Row> {
    if k in w.source then Some(w.source[k]) else None
  }

  /** The hot path of a lookup. */
  function HitOf(w: World, k: Key, p: Policy): Option<Cached> {
    if k !in w.cache then None
    else
      var c := w.cache[k];
      match c.value
      case None => if p.keepsFailures && w.now - c.at < p.failureTtl then Some(c) else None
      case Some(r) => if w.now - c.at < p.ttl && !Expired(r, w.wall) then Some(c) else None
  }

  /** A lookup that misses asks the source in one step and stores the answer in a
      later one; anything may happen in between. */
  datatype Event =
    | Change(source: map<Key, Row>)
    | Tick(seconds: nat)
    | SetWall(wall: int)
    | Ask(request: int, k: Key)
    | Store(request: int)
    | Remove(k: Key)

  predicate Enabled(w: World, e: Event) {
    e.Store? ==> e.request in w.pending
  }

  function Apply(w: World, e: Event, p: Policy): World
    requires Enabled(w, e)
  {
    match e
    case Change(source) => w.(source := source)
    case Tick(seconds) => w.(now := w.now + seconds)
    case SetWall(wall) => w.(wall := wall)
    case Ask(request, k) => w.(pending := w.pending[request := Asked(k, Says(w, k), w.now)])
    case Remove(k) => w.(cache := w.cache - {k})
    case Store(request) =>
      var a := w.pending[request];
      var stored := match a.value case None => p.keepsFailures case Some(r) => !Expired(r, w.wall);
      w.(pending := w.pending - {request},
         cache := if stored then w.cache[a.k := Cached(a.value, a.at, w.now)] else w.cache)
  }

  // ── The session cache as such a cache ──────────────────────────────────────

  /** A session entry is an answer that never expires by itself. */
  function AsCached(e: Entry): Cached {
    match e
    case Positive(identity, at) => Cached(Some(Row(identity, None)), at, at)
    case Negative(at) => Cached(None, at, at)
  }

  function SessionWorld(entries: map<Key, Entry>, now: int, source: map<Key, Row>): World {
    World(now, 0, source, map k | k in entries :: AsCached(entries[k]), map[])
  }

  function FoundOf(hit: Option<Cached>): Found {
    match hit
    case None => Miss
    case Some(c) => if c.value.None? then KnownFailure else Hit(c.value.value.data)
  }

  /** A session lookup is the hot path of a lookup under the session policy. */
  lemma LookIsHit(entries: map<Key, Entry>, k: Key, now: int, ttl: int, source: map<Key, Row>)
    ensures Look(entries, k, now, ttl) == FoundOf(HitOf(SessionWorld(entries, now, source), k, Sessions(ttl)))
  {
  }

  /** Storing an identity or a failure is one fetch of a source that knows the key, or
      does not. */
  lemma PutIsFetch(entries: map<Key, Entry>, k: Key, now: int, ttl: int, source: map<Key, Row>)
    requires k in source ==> source[k].expires.None?
    ensures var e := if k in source then Put(k, source[k].data) else PutFailure(k);
      var w := SessionWorld(entries, now, source);
      SessionWorld(Play(entries, now, [e], true).0, now, source).cache ==
        Apply(Apply(w, Ask(0, k), Sessions(ttl)), Store(0), Sessions(ttl)).cache
  {
    var e := if k in source then Put(k, source[k].data) else PutFailure(k);
    PlayOne(entries, now, e);
  }

  lemma PlayOne(entries: map<Key, Entry>, now: int, e: CacheEvent)
    ensures Play(entries, now, [e], true) ==
              match e
              case Put(k, identity) => (entries[k := Positive(identity, now)], now)
              case PutFailure(k) => (entries[k := Negative(now)], now)
              case Wait(seconds) => (entries, now + seconds)
              case Evict => (Evicted(entries, now), now)
  {
    assert [e][1..] == [];
  }

  class SessionCache {
    var entries: map<Key, Entry>

    constructor ()
      ensures entries == map[]
    {
      entries := map[];
    }

    /** From now on the key answers with the identity for the time to live; other keys
        answer as before. */
    method Insert(k: Key, identity: Identity, now: int)
      modifies this
      ensures entries == Play(old(entries), now, [Put(k, identity)], true).0
      ensures forall j, later, ttl :: later >= now ==>
                Look(entries, j, later, ttl) ==
                  if j != k then Look(old(entries), j, later, ttl)
                  else if later - now < ttl then Hit(identity) else Miss
    {
      PlayOne(entries, now, Put(k, identity));
      entries := entries[k := Positive(identity, now)];
    }

    /** From now on the key is known to fail for five seconds. */
    method InsertNegative(k: Key, now: int)
      modifies this
      ensures entries == Play(old(entries), now, [PutFailure(k)], true).0
      ensures forall j, later, ttl :: later >= now ==>
                Look(entries, j, later, ttl) ==
                  if j != k then Look(old(entries), j, later, ttl)
                  else if later - now < 5 then KnownFailure else Miss
    {
      PlayOne(entries, now, PutFailure(k));
      entries := entries[k := Negative(now)];
    }

    method Lookup(k: Key, now: int, positiveTtl: int) returns (found: Found)
      ensures forall source ::
                found == FoundOf(HitOf(SessionWorld(entries, now, source), k, Sessions(positiveTtl)))
    {
      if k !in entries {
        return Miss;
      }
      match entries[k] {
        case Positive(identity, at) => found := if now - at < positiveTtl then Hit(identity) else Miss;
        case Negative(at) => found := if now - at < NEGATIVE_TTL then KnownFailure else Miss;
      }
    }

    /** No lookup from now on notices, as long as its time to live is at most the
        default one, and nothing that could never answer again is kept. */
    method EvictExpired(now: int)
      modifies this
      ensures entries == Play(old(entries), now, [Evict], true).0
      ensures forall j, later, ttl :: later >= now && ttl <= 60 ==>
                Look(entries, j, later, ttl) == Look(old(entries), j, later, ttl)
      ensures forall j :: j in entries ==> Look(entries, j, now, 60) != Miss
    {
      PlayOne(entries, now, Evict);
      entries := map k | k in entries && Alive(entries[k], now) :: entries[k];
    }
  }

  /** The token cache as a request uses it when nothing comes between asking the
      table and storing the answer. */
  class TokenCache {
    var cache: map<Key, Cached>

    constructor ()
      ensures cache == map[]
    {
      cache := map[];
    }

    /** What is given out has not expired: the row cached less than five minutes ago,
        else the row of the source, and nothing when that one has expired too. */
    method LookupBearer(k: Key, now: int, wall: int, source: map<Key, Row>) returns (answer: Option<Row>)
      modifies this
      ensures answer.Some? && answer.value.expires.Some? ==> wall <= answer.value.expires.value
      ensures var warm := k in old(cache) && now - old(cache)[k].at < 300 && match old(cache)[k].value {
                case None => false
                case Some(r) => r.expires.None? || wall <= r.expires.value
              };
              var known := k in source && (source[k].expires.None? || wall <= source[k].expires.value);
              && answer == (if warm then old(cache)[k].value else if known then Some(source[k]) else None)
              && cache == (if !warm && known then old(cache)[k := Cached(answer, now, now)] else old(cache))
      ensures var w := World(now, wall, source, old(cache), map[]);
        match HitOf(w, k, TOKENS)
        case Some(c) => answer == c.value && cache == old(cache)
        case None => cache == Apply(Apply(w, Ask(0, k), TOKENS), Store(0), TOKENS).cache
    {
      if k in cache {
        var c := cache[k];
        if c.value.Some? && now - c.at < TOKENS.ttl && !Expired(c.value.value, wall) {
          return c.value;
        }
      }
      if k !in source || Expired(source[k], wall) {
        return None;
      }
      cache := cache[k := Cached(Some(source[k]), now, now)];
      return Some(source[k]);
    }

    method Evict(k: Key)
      modifies this
      ensures forall now, wall, source, pending ::
                cache == Apply(World(now, wall, source, old(cache), pending), Remove(k), TOKENS).cache
      ensures forall j, now, wall, source, pending ::
                HitOf(World(now, wall, source, cache, pending), j, TOKENS) ==
                  if j == k then None else HitOf(World(now, wall, source, old(cache), pending), j, TOKENS)
    {
      cache := cache - {k};
    }
  }

  /** A history: every world follows from the one before it. */
  ghost predicate History(ws: seq<World>, es: seq<Event>, p: Policy) {
    && |ws| == |es| + 1
    && ws[0].cache == map[] && ws[0].pending == map[]
    && forall i :: 0 <= i < |es| ==> Enabled(ws[i], es[i]) && ws[i + 1] == Apply(ws[i], es[i], p)
  }

  /** No fetch takes longer than `gap` from asking to storing. */
  ghost predicate Prompt(ws: seq<World>, es: seq<Event>, gap: int)
    requires |ws| == |es| + 1
  {
    forall i :: 0 <= i < |es| && es[i].Store? && es[i].request in ws[i].pending ==>
      ws[i].now - ws[i].pending[es[i].request].at <= gap
  }

  /** At some moment up to `i` the clock showed `t` and the source answered `v`. */
  ghost predicate WasTrue(ws: seq<World>, i: nat, k: Key, v: Option<Row>, t: int)
    requires i < |ws|
  {
    exists j :: 0 <= j <= i && ws[j].now == t && Says(ws[j], k) == v
  }

  ghost predicate Justified(ws: seq<World>, i: nat, gap: int)
    requires i < |ws|
  {
    && (forall k :: k in ws[i].cache ==>
          var c := ws[i].cache[k];
          WasTrue(ws, i, k, c.value, c.askedAt) && c.at - c.askedAt <= gap && c.at <= ws[i].now)
    && (forall r :: r in ws[i].pending ==>
          var a := ws[i].pending[r];
          WasTrue(ws, i, a.k, a.value, a.at))
  }

  lemma WasTrueLater(ws: seq<World>, i: nat, k: Key, v: Option<Row>, t: int)
    requires i + 1 < |ws| && WasTrue(ws, i, k, v, t)
    ensures WasTrue(ws, i + 1, k, v, t)
  {
  }

  lemma PendingJustified(ws: seq<World>, e: Event, p: Policy, gap: int, i: nat, r: int)
    requires i + 1 < |ws| && Justified(ws, i, gap) && Enabled(ws[i], e) && ws[i + 1] == Apply(ws[i], e, p)
    requires r in ws[i + 1].pending
    ensures var a := ws[i + 1].pending[r];
      WasTrue(ws, i + 1, a.k, a.value, a.at)
  {
    var a := ws[i + 1].pending[r];
    if e.Ask? && e.request == r {
      assert ws[i + 1].now == a.at && Says(ws[i + 1], a.k) == a.value;
    } else {
      WasTrueLater(ws, i, a.k, a.value, a.at);
    }
  }

  lemma CachedJustified(ws: seq<World>, e: Event, p: Policy, gap: int, i: nat, k: Key)
    requires i + 1 < |ws| && Justified(ws, i, gap) && Enabled(ws[i], e) && ws[i + 1] == Apply(ws[i], e, p)
    requires e.Store? ==> ws[i].now - ws[i].pending[e.request].at <= gap
    requires k in ws[i + 1].cache
    ensures var c := ws[i + 1].cache[k];
      WasTrue(ws, i + 1, k, c.value, c.askedAt) && c.at - c.askedAt <= gap && c.at <= ws[i + 1].now
  {
    hide WasTrue, Says, Expired;
    var c := ws[i + 1].cache[k];
    WasTrueLater(ws, i, k, c.value, c.askedAt);
  }

  lemma {:induction false} AlwaysJustified(ws: seq<World>, es: seq<Event>, p: Policy, gap: int, i: nat)
    requires History(ws, es, p) && Prompt(ws, es, gap) && i < |ws|
    ensures Justified(ws, i, gap)
    decreases i
  {
    hide WasTrue, Apply;
    if i > 0 {
      AlwaysJustified(ws, es, p, gap, i - 1);
      var e := es[i - 1];
      assert ws[i] == Apply(ws[i - 1], e, p);
      forall r | r in ws[i].pending
        ensures WasTrue(ws, i, ws[i].pending[r].k, ws[i].pending[r].value, ws[i].pending[r].at)
      {
        PendingJustified(ws, e, p, gap, i - 1, r);
      }
      forall k | k in ws[i].cache
        ensures var c := ws[i].cache[k];
          WasTrue(ws, i, k, c.value, c.askedAt) && c.at - c.askedAt <= gap && c.at <= ws[i].now
      {
        CachedJustified(ws, e, p, gap, i - 1, k);
      }
    }
  }

  /** Bounded staleness: in every history, what a cache hit returns was the source's
      answer at an instant no further back than the time to live plus the time one
      fetch takes; an expired token is never returned. */
  lemma HitIsRecent(ws: seq<World>, es: seq<Event>, p: Policy, gap: int, i: nat, k: Key)
    requires History(ws, es, p) && Prompt(ws, es, gap) && i < |ws| && HitOf(ws[i], k, p).Some?
    ensures var c := HitOf(ws[i], k, p).value;
      && (c.value.Some? && c.value.value.expires.Some? ==> ws[i].wall <= c.value.value.expires.value)
      && exists j :: 0 <= j <= i && Says(ws[j], k) == c.value
           && ws[i].now - ws[j].now < gap + if c.value.Some? then p.ttl else p.failureTtl
  {
    AlwaysJustified(ws, es, p, gap, i);
    var c := ws[i].cache[k];
    var j :| 0 <= j <= i && ws[j].now == c.askedAt && Says(ws[j], k) == c.value;
  }

  // ── Revocation ─────────────────────────────────────────────────────────────

  /** What may happen while the key stays out of the source; `clockBack` says whether
      the clock that expiry is read from may be set back. */
  predicate Allowed(w: World, e: Event, k: Key, clockBack: bool) {
    && Enabled(w, e)
    && (e.Change? ==> k !in e.source)
    && (e.SetWall? && !clockBack ==> e.wall >= w.wall)
  }

  predicate Goes(w: World, es: seq<Event>, p: Policy, k: Key, clockBack: bool)
    decreases |es|
  {
    es == [] || (Allowed(w, es[0], k, clockBack) && Goes(Apply(w, es[0], p), es[1..], p, k, clockBack))
  }

  function After(w: World, es: seq<Event>, p: Policy, k: Key, clockBack: bool): World
    requires Goes(w, es, p, k, clockBack)
    decreases |es|
  {
    if es == [] then w else After(Apply(w, es[0], p), es[1..], p, k, clockBack)
  }

  predicate PositiveHit(w: World, k: Key, p: Policy) {
    HitOf(w, k, p).Some? && HitOf(w, k, p).value.value.Some?
  }

  /** The answer could still be given out: expiry aside when the clock may go back. */
  predicate Usable(v: Option<Row>, w: World, clockBack: bool) {
    v.Some? && (clockBack || !Expired(v.value, w.wall))
  }

  /** A usable answer is cached within its time to live, or on its way. */
  ghost predicate CanReturn(w: World, k: Key, p: Policy, clockBack: bool) {
    || (k in w.cache && Usable(w.cache[k].value, w, clockBack) && w.now - w.cache[k].at < p.ttl)
    || (p.ttl > 0 && exists r :: r in w.pending && w.pending[r].k == k && Usable(w.pending[r].value, w, clockBack))
  }

  ghost predicate Returns(w: World, k: Key, p: Policy, clockBack: bool) {
    exists es :: Goes(w, es, p, k, clockBack) && PositiveHit(After(w, es, p, k, clockBack), k, p)
  }

  /** Revocation, exactly.  Once the source has forgotten a key, some continuation that
      never adds it again gives it out if and only if right now a usable answer is
      cached within its time to live or a fetch of one is under way.  This holds from
      every world, and so from every one a history reaches. */
  lemma RevocationExact(w: World, k: Key, p: Policy, clockBack: bool)
    requires k !in w.source
    ensures Returns(w, k, p, clockBack) <==> CanReturn(w, k, p, clockBack)
  {
    if Returns(w, k, p, clockBack) {
      var es :| Goes(w, es, p, k, clockBack) && PositiveHit(After(w, es, p, k, clockBack), k, p);
      ReturnIsOpen(w, es, k, p, clockBack);
    } else if CanReturn(w, k, p, clockBack) {
      Revives(w, k, p, clockBack);
    }
  }

  /** What cannot return now cannot return after any allowed event. */
  lemma StaysGone(w: World, e: Event, k: Key, p: Policy, clockBack: bool)
    requires k !in w.source && Allowed(w, e, k, clockBack) && CanReturn(Apply(w, e, p), k, p, clockBack)
    ensures k !in Apply(w, e, p).source
    ensures CanReturn(w, k, p, clockBack)
  {
    var u := Apply(w, e, p);
    if !(k in u.cache && Usable(u.cache[k].value, u, clockBack) && u.now - u.cache[k].at < p.ttl) {
      var r :| r in u.pending && u.pending[r].k == k && Usable(u.pending[r].value, u, clockBack);
      assert r in w.pending && w.pending[r] == u.pending[r];
    } else if e.Store? && w.pending[e.request].k == k {
      assert e.request in w.pending;
    }
  }

  lemma {:induction false} ReturnIsOpen(w: World, es: seq<Event>, k: Key, p: Policy, clockBack: bool)
    requires k !in w.source && Goes(w, es, p, k, clockBack) && PositiveHit(After(w, es, p, k, clockBack), k, p)
    ensures CanReturn(w, k, p, clockBack)
    decreases |es|
  {
    hide Apply, CanReturn;
    if es == [] {
      HitIsOpen(w, k, p, clockBack);
    } else {
      SourceStays(w, es[0], k, p, clockBack);
      ReturnIsOpen(Apply(w, es[0], p), es[1..], k, p, clockBack);
      StaysGone(w, es[0], k, p, clockBack);
    }
  }

  lemma SourceStays(w: World, e: Event, k: Key, p: Policy, clockBack: bool)
    requires k !in w.source && Allowed(w, e, k, clockBack)
    ensures k !in Apply(w, e, p).source
  {
  }

  lemma HitIsOpen(w: World, k: Key, p: Policy, clockBack: bool)
    requires PositiveHit(w, k, p)
    ensures CanReturn(w, k, p, clockBack)
  {
  }

  /** The clock is set back when it has to be, and the fetch under way is stored. */
  lemma Revives(w: World, k: Key, p: Policy, clockBack: bool)
    requires CanReturn(w, k, p, clockBack)
    ensures Returns(w, k, p, clockBack)
  {
    if k in w.cache && Usable(w.cache[k].value, w, clockBack) && w.now - w.cache[k].at < p.ttl {
      var v := w.cache[k].value.value;
      var wall := if Expired(v, w.wall) then v.expires.value else w.wall;
      GoesOne(w, SetWall(wall), p, k, clockBack);
    } else {
      var r :| r in w.pending && w.pending[r].k == k && Usable(w.pending[r].value, w, clockBack);
      var v := w.pending[r].value.value;
      var wall := if Expired(v, w.wall) then v.expires.value else w.wall;
      GoesTwo(w, SetWall(wall), Store(r), p, k, clockBack);
    }
  }

  lemma GoesOne(w: World, a: Event, p: Policy, k: Key, clockBack: bool)
    requires Allowed(w, a, k, clockBack) && PositiveHit(Apply(w, a, p), k, p)
    ensures Returns(w, k, p, clockBack)
  {
    hide Apply;
    var es := [a];
    assert es[1..] == [];
    assert Goes(Apply(w, a, p), [], p, k, clockBack);
    assert Goes(w, es, p, k, clockBack);
    assert After(w, es, p, k, clockBack) == Apply(w, a, p);
  }

  lemma GoesTwo(w: World, a: Event, b: Event, p: Policy, k: Key, clockBack: bool)
    requires Allowed(w, a, k, clockBack) && Allowed(Apply(w, a, p), b, k, clockBack)
    requires PositiveHit(Apply(Apply(w, a, p), b, p), k, p)
    ensures Returns(w, k, p, clockBack)
  {
    hide Apply;
    GoesOne(Apply(w, a, p), b, p, k, clockBack);
    var more :| Goes(Apply(w, a, p), more, p, k, clockBack) && PositiveHit(After(Apply(w, a, p), more, p, k, clockBack), k, p);
    var es := [a] + more;
    assert es[1..] == more;
    assert Goes(w, es, p, k, clockBack);
    assert After(w, es, p, k, clockBack) == After(Apply(w, a, p), more, p, k, clockBack);
  }

  /** It does happen: from an empty cache, a fetch that asks before a revocation and
      stores after it brings the revoked answer back. */
  lemma LateStoreRevives(k: Key, data: string, p: Policy)
    requires p.ttl > 0
    ensures var known := map[k := Row(data, None)];
      var es := [Change(known), Ask(0, k), Change(map[]), Remove(k), Store(0)];
      exists ws: seq<World> :: History(ws, es, p) && k !in ws[5].source && PositiveHit(ws[5], k, p)
  {
    var known := map[k := Row(data, None)];
    var w0 := World(0, 0, map[], map[], map[]);
    var w1 := Apply(w0, Change(known), p);
    var w2 := Apply(w1, Ask(0, k), p);
    var w3 := Apply(w2, Change(map[]), p);
    var w4 := Apply(w3, Remove(k), p);
    var w5 := Apply(w4, Store(0), p);
    var es := [Change(known), Ask(0, k), Change(map[]), Remove(k), Store(0)];
    var ws := [w0, w1, w2, w3, w4, w5];
    assert History(ws, es, p);
  }
}

/** The bulk upload's multipart parser (section 5.1.1 of RFC 2046) and the part
    loop with its length check.  Bytes are characters here. */
module Multipart {
  import opened Options
  import opened Texts
  import Decimal

  // ── Headers ────────────────────────────────────────────────────────────────

  const CRLF := "\r\n"

  /** `str::lines`: cut at line feeds, drop one carriage return before each. */
  function Lines(s: string): seq<string>
    decreases |s|
  {
    if s == "" then []
    else
      match Find(s, "\n")
      case None => [s]
      case Some(i) => [if i > 0 && s[i - 1] == '\r' then s[..i - 1] else s[..i]] + Lines(s[i + 1..])
  }

  function Lower(s: string): (r: string)
    ensures |r| == |s|
    ensures forall i :: 0 <= i < |s| ==> r[i] as int == s[i] as int + if 65 <= s[i] as int <= 90 then 32 else 0
  {
    seq(|s|, i requires 0 <= i < |s| => if 'A' <= s[i] <= 'Z' then s[i] - 'A' + 'a' else s[i])
  }

  function HeaderMap(lines: seq<string>): map<string, string> {
    if lines == [] then map[]
    else
      var line := lines[|lines| - 1];
      var m := HeaderMap(lines[..|lines| - 1]);
      match Find(line, ":")
      case None => m
      case Some(i) => m[Lower(Trim(line[..i])) := Trim(line[i + 1..])]
  }

  method ParseHeaders(text: string) returns (m: map<string, string>)
    ensures m == HeaderMap(Lines(text))
  {
    m := map[];
    var lines := Lines(text);
    for i := 0 to |lines|
      invariant m == HeaderMap(lines[..i])
    {
      assert lines[..i + 1][..i] == lines[..i];
      var colon := FindSubsequence(lines[i], ":");
      if colon.Some? {
        m := m[Lower(Trim(lines[i][..colon.value])) := Trim(lines[i][colon.value + 1..])];
      }
    }
    assert lines[..|lines|] == lines;
  }

  /** A `usize` in decimal, with an optional plus sign. */
  function ParseLength(s: string): Option<nat> {
    var digits := if s != "" && s[0] == '+' then s[1..] else s;
    if digits != "" && Decimal.AllDigits(digits) then Some(Decimal.Number(digits)) else None
  }

  /** Exactly the digit strings have a length ... */
  lemma LengthIs(s: string)
    ensures ParseLength(s) == None <==>
              s == "" || s == "+" || exists i :: 0 <= i < |s| && !('0' <= s[i] <= '9') && !(i == 0 && s[0] == '+')
  {
    var digits := if s != "" && s[0] == '+' then s[1..] else s;
    if !Decimal.AllDigits(digits) {
      var j :| 0 <= j < |digits| && !Decimal.IsDigit(digits[j]);
      var i := |s| - |digits| + j;
      assert s[i] == digits[j];
    }
  }

  /** ... and a printed number is read back, with or without a sign. */
  lemma LengthReads(n: nat)
    ensures ParseLength(Decimal.Text(n)) == Some(n) == ParseLength("+" + Decimal.Text(n))
  {
    hide Decimal.Digits, Decimal.Number;
    Decimal.NumberOfDigits(n);
    var t := "+" + Decimal.Digits(n);
    assert t[1..] == Decimal.Digits(n);
    assert Decimal.IsDigit(Decimal.Digits(n)[0]);
  }

  /** A header line: its name without case and without the white space around it, and
      the last line of a name wins.  A line without a colon says nothing. */
  lemma HeaderIs(lines: seq<string>, line: string, name: string, value: string)
    ensures ':' !in name && line == name + ":" + value ==>
              HeaderMap(lines + [line]) == HeaderMap(lines)[Lower(Trim(name)) := Trim(value)]
    ensures ':' !in line ==> HeaderMap(lines + [line]) == HeaderMap(lines)
    ensures HeaderMap([]) == map[]
  {
    assert (lines + [line])[..|lines|] == lines;
    if ':' !in line {
      forall j: nat
        ensures !At(line, ":", j)
      {
        assert j < |line| ==> line[j..j + 1][0] == line[j] && line[j] in line;
      }
    } else if ':' !in name && line == name + ":" + value {
      assert line[|name|..|name| + 1] == ":";
      forall j | 0 <= j < |name|
        ensures !At(line, ":", j)
      {
        assert line[j..j + 1][0] == line[j] == name[j] && name[j] in name;
      }
      FindIs(line, ":", |name|);
      assert line[..|name|] == name && line[|name| + 1..] == value;
    }
  }

  // ── The parser ─────────────────────────────────────────────────────────────

  datatype Part = Part(headers: map<string, string>, body: string)

  /** What one call of `next` yields, and how far it moved. */
  datatype Next = End | Bad | Got(part: Part, used: nat)

  function Marker(boundary: string, first: bool): string {
    if first then "--" + boundary else CRLF + "--" + boundary
  }

  /** Headers up to the first empty line, then the body up to the next delimiter. */
  function HeadersAndBody(text: string, boundary: string): (r: Next)
    ensures r.Got? ==> r.used <= |text|
  {
    match Find(text, CRLF + CRLF)
    case None => Bad
    case Some(h) =>
      var body := text[h + 4..];
      var end := match Find(body, Marker(boundary, false)) case Some(e) => e case None => |body|;
      Got(Part(HeaderMap(Lines(text[..h])), body[..end]), h + 4 + end)
  }

  /** What follows a boundary: the closing dashes, or a part and its end. */
  function PartAt(text: string, boundary: string): (r: Next)
    ensures r.Got? ==> r.used <= |text|
  {
    if "--" <= text then End
    else
      var start := if CRLF <= text then 2 else 0;
      match HeadersAndBody(text[start..], boundary)
      case Got(part, used) => Got(part, start + used)
      case r => r
  }

  /** One step on the text that is left. */
  function Step(rest: string, boundary: string, first: bool): (r: Next)
    ensures r.Got? ==> 0 < r.used <= |rest|
  {
    var marker := Marker(boundary, first);
    match Find(rest, marker)
    case None => End
    case Some(i) =>
      match PartAt(rest[i + |marker|..], boundary)
      case End => End
      case Bad => Bad
      case Got(part, used) => Got(part, i + |marker| + used)
  }

  /** `i` is the first place of the boundary in the text that is left. */
  ghost predicate BoundaryAt(rest: string, boundary: string, first: bool, i: nat) {
    var m := (if first then "--" else "\r\n--") + boundary;
    At(rest, m, i) && forall j :: 0 <= j < i ==> !At(rest, m, j)
  }

  /** What follows the boundary at `i`. */
  function AfterBoundary(rest: string, boundary: string, first: bool, i: nat): string
    requires BoundaryAt(rest, boundary, first, i)
  {
    rest[i + |boundary| + (if first then 2 else 4)..]
  }

  /** A part that starts at `text`: at most one line break, the header lines up to the
      first empty line, and a body that ends at the first delimiter or the text. */
  ghost predicate PartIs(text: string, boundary: string, lines: string, body: string, rest: string) {
    && (text == "\r\n" + lines + "\r\n\r\n" + body + rest ||
        (!("\r\n" <= text) && text == lines + "\r\n\r\n" + body + rest))
    && (forall j :: 0 <= j < |lines| ==> !At(lines + "\r\n\r\n", "\r\n\r\n", j))
    && (forall j :: 0 <= j < |body| ==> !At(body + rest, "\r\n--" + boundary, j))
    && (rest == "" || "\r\n--" + boundary <= rest)
  }

  /** One step, in terms of the text alone. */
  lemma StepIs(rest: string, boundary: string, first: bool)
    ensures match Step(rest, boundary, first)
      case End =>
        || (forall i: nat :: !BoundaryAt(rest, boundary, first, i))
        || (exists i: nat :: BoundaryAt(rest, boundary, first, i) && "--" <= AfterBoundary(rest, boundary, first, i))
      case Bad =>
        exists i: nat :: BoundaryAt(rest, boundary, first, i) &&
          var text := AfterBoundary(rest, boundary, first, i);
          !("--" <= text) && forall j :: j >= (if "\r\n" <= text then 2 else 0) ==> !At(text, "\r\n\r\n", j)
      case Got(part, used) =>
        exists i: nat, lines :: BoundaryAt(rest, boundary, first, i) &&
          var text := AfterBoundary(rest, boundary, first, i);
          && !("--" <= text)
          && PartIs(text, boundary, lines, part.body, rest[used..])
          && part.headers == HeaderMap(Lines(lines))
  {
    hide Lines, HeaderMap, Find, PartAt, PartIs, At;
    var m := Marker(boundary, first);
    var found := Find(rest, m);
    FoundBoundary(rest, boundary, first);
    if found.Some? {
      var text := AfterBoundary(rest, boundary, first, found.value);
      PartAtIs(text, boundary);
      var r := PartAt(text, boundary);
      if r.Got? {
        assert rest[found.value + |m| + r.used..] == text[r.used..];
      }
    }
  }

  lemma FoundBoundary(rest: string, boundary: string, first: bool)
    ensures var m := Marker(boundary, first);
      match Find(rest, m)
      case None => forall i: nat :: !BoundaryAt(rest, boundary, first, i)
      case Some(i) =>
        && BoundaryAt(rest, boundary, first, i)
        && i + |m| <= |rest| && rest[i + |m|..] == AfterBoundary(rest, boundary, first, i)
  {
    hide Find;
    var m := Marker(boundary, first);
    assert m == (if first then "--" else "\r\n--") + boundary;
  }

  lemma PartAtIs(text: string, boundary: string)
    ensures match PartAt(text, boundary)
      case End => "--" <= text
      case Bad =>
        !("--" <= text) && forall j :: j >= (if "\r\n" <= text then 2 else 0) ==> !At(text, "\r\n\r\n", j)
      case Got(part, used) =>
        !("--" <= text) && exists lines ::
          PartIs(text, boundary, lines, part.body, text[used..]) && part.headers == HeaderMap(Lines(lines))
  {
    hide Lines, HeaderMap, Find;
    if !("--" <= text) {
      var start := if CRLF <= text then 2 else 0;
      var t := text[start..];
      var found := Find(t, CRLF + CRLF);
      if found.None? {
        forall j | j >= start
          ensures !At(text, "\r\n\r\n", j)
        {
          assert !At(t, CRLF + CRLF, j - start);
          assert j + 4 <= |text| ==> t[j - start..j - start + 4] == text[j..j + 4];
        }
      } else {
        PartOf(text, boundary, start, found.value);
      }
    }
  }

  lemma PartOf(text: string, boundary: string, start: nat, h: nat)
    requires !("--" <= text) && start == (if CRLF <= text then 2 else 0)
    requires Find(text[start..], CRLF + CRLF) == Some(h)
    ensures var r := PartAt(text, boundary);
      && r.Got? && r.part.headers == HeaderMap(Lines(text[start..][..h]))
      && PartIs(text, boundary, text[start..][..h], r.part.body, text[r.used..])
  {
    hide Lines, HeaderMap, Find, At, Marker, PartAt;
    var t := text[start..];
    HeaderBlock(t, h);
    var tail := t[h + 4..];
    BodyEnds(tail, boundary);
    PartAtSays(text, boundary, start, h, t, tail);
    var found := Find(tail, Marker(boundary, false));
    var e := if found.Some? then found.value else |tail|;
    assert text[start + h + 4 + e..] == tail[e..];
    Assembled(text, start, t[..h], tail[..e], tail[e..]);
  }

  lemma PartAtSays(text: string, boundary: string, start: nat, h: nat, t: string, tail: string)
    requires !("--" <= text) && start == (if CRLF <= text then 2 else 0) && t == text[start..]
    requires Find(t, CRLF + CRLF) == Some(h) && h + 4 <= |t| && tail == t[h + 4..]
    ensures var found := Find(tail, Marker(boundary, false));
      var e := if found.Some? then found.value else |tail|;
      PartAt(text, boundary) == Got(Part(HeaderMap(Lines(t[..h])), tail[..e]), start + h + 4 + e)
  {
    hide Lines, HeaderMap, Find, At, Marker;
  }

  lemma BodyEnds(tail: string, boundary: string)
    ensures var found := Find(tail, Marker(boundary, false));
      var e := if found.Some? then found.value else |tail|;
      && e <= |tail| && tail[..e] + tail[e..] == tail
      && (forall j :: 0 <= j < e ==> !At(tail, "\r\n--" + boundary, j))
      && (tail[e..] == "" || "\r\n--" + boundary <= tail[e..])
  {
    hide Find, At;
    assert Marker(boundary, false) == "\r\n--" + boundary;
    CutAtFirst(tail, Marker(boundary, false));
  }

  lemma CutAtFirst(h: string, n: string)
    ensures var found := Find(h, n);
      var e := if found.Some? then found.value else |h|;
      && e <= |h| && h[..e] + h[e..] == h
      && (forall j :: 0 <= j < e ==> !At(h, n, j))
      && (h[e..] == "" || n <= h[e..])
  {
    hide Find;
    var found := Find(h, n);
    if found.Some? {
      assert h[found.value..][..|n|] == h[found.value..found.value + |n|];
    }
  }

  lemma HeaderBlock(t: string, h: nat)
    requires Find(t, CRLF + CRLF) == Some(h)
    ensures h + 4 <= |t|
    ensures t == t[..h] + "\r\n\r\n" + t[h + 4..]
    ensures forall j :: 0 <= j < h ==> !At(t[..h] + "\r\n\r\n", "\r\n\r\n", j)
  {
    hide Find, At;
    EmptyLineAt(t, h);
    forall j | 0 <= j < h
      ensures !At(t[..h] + "\r\n\r\n", "\r\n\r\n", j)
    {
      var u := t[..h] + "\r\n\r\n";
      if At(u, "\r\n\r\n", j) {
        AtPrefix(t, u, "\r\n\r\n", j);
      }
    }
  }

  lemma EmptyLineAt(t: string, h: nat)
    requires Find(t, CRLF + CRLF) == Some(h)
    ensures h + 4 <= |t| && t == t[..h] + "\r\n\r\n" + t[h + 4..]
    ensures forall j :: 0 <= j < h ==> !At(t, "\r\n\r\n", j)
  {
    hide Find;
    assert CRLF + CRLF == "\r\n\r\n";
    CutAround(t, "\r\n\r\n", h);
  }

  lemma CutAround(t: string, n: string, h: nat)
    requires At(t, n, h)
    ensures t == t[..h] + n + t[h + |n|..]
  {
  }

  lemma AtPrefix(t: string, u: string, n: string, j: nat)
    requires u <= t && At(u, n, j)
    ensures At(t, n, j)
  {
    assert t[j..j + |n|] == u[j..j + |n|];
  }

  lemma Assembled(text: string, start: nat, lines: string, body: string, rest: string)
    requires start == (if CRLF <= text then 2 else 0) && text[start..] == lines + "\r\n\r\n" + (body + rest)
    ensures (text == "\r\n" + lines + "\r\n\r\n" + body + rest) ||
            (!("\r\n" <= text) && text == lines + "\r\n\r\n" + body + rest)
  {
    assert lines + "\r\n\r\n" + (body + rest) == lines + "\r\n\r\n" + body + rest;
    if start == 2 {
      assert text == "\r\n" + text[2..];
      assert "\r\n" + (lines + "\r\n\r\n" + body + rest) == "\r\n" + lines + "\r\n\r\n" + body + rest;
    } else {
      assert text == text[0..];
    }
  }

  class Parser {
    const data: string
    const boundary: string
    var pos: nat
    var isFirst: bool
    var done: bool

    constructor (data: string, boundary: string)
      ensures this.data == data && this.boundary == boundary && pos == 0 && isFirst && !done
    {
      this.data, this.boundary := data, boundary;
      pos, isFirst, done := 0, true, false;
    }

    ghost predicate Valid()
      reads this
    {
      pos <= |data|
    }

    /** Every call either ends the iteration or moves forward. */
    method Next() returns (r: Next)
      requires Valid()
      modifies this
      ensures Valid()
      ensures old(done || pos >= |data|) ==> r == End && pos == old(pos) && done == old(done) && isFirst == old(isFirst)
      ensures !old(done || pos >= |data|) ==>
                && r == Step(data[old(pos)..], boundary, old(isFirst))
                && !isFirst
                && (r.Got? ==> pos == old(pos) + r.used > old(pos) && !done)
                && (!r.Got? ==> done)
    {
      hide Find, PartAt;
      if done || pos >= |data| {
        return End;
      }
      var marker := Marker(boundary, isFirst);
      isFirst := false;
      var found := FindSubsequence(data[pos..], marker);
      if found.None? {
        done := true;
        return End;
      }
      var start := found.value + |marker|;
      assert data[pos..][start..] == data[pos + start..];
      pos := pos + start;
      r := ReadPart(data[pos..], boundary);
      done := !r.Got?;
      if r.Got? {
        pos := pos + r.used;
        r := Got(r.part, start + r.used);
      }
    }
  }

  /** The part at the start of `text`, which follows a boundary. */
  method ReadPart(text: string, boundary: string) returns (r: Next)
    ensures r == PartAt(text, boundary)
  {
    hide Find, HeaderMap, Lines, Marker;
    if "--" <= text {
      return End;
    }
    var start := if CRLF <= text then 2 else 0;
    var rest := text[start..];
    var headerEnd := FindSubsequence(rest, CRLF + CRLF);
    if headerEnd.None? {
      return Bad;
    }
    var headers := ParseHeaders(rest[..headerEnd.value]);
    var body := rest[headerEnd.value + 4..];
    var end := FindSubsequence(body, Marker(boundary, false));
    var size := if end.Some? then end.value else |body|;
    return Got(Part(headers, body[..size]), start + headerEnd.value + 4 + size);
  }

  // ── The part loop ──────────────────────────────────────────────────────────

  /** The two validations that are not about length, as the request sees them. */
  datatype Checks = Checks(mtimeOk: map<string, string> -> bool, hashOk: (map<string, string>, string) -> bool)

  datatype File = File(path: string, body: string)

  datatype Verdict = Skip | Stop | Take(file: File)

  const PATH := "x-file-path"
  const LENGTH := "content-length"

  /** A part without a path or with a bad mtime is passed over before its length is
      looked at; a bad length or hash ends the request. */
  function Judge(p: Part, checks: Checks): Verdict {
    if PATH !in p.headers || !checks.mtimeOk(p.headers) then Skip
    else if LENGTH !in p.headers then Stop
    else
      match ParseLength(p.headers[LENGTH])
      case None => Stop
      case Some(n) =>
        if |p.body| != n || !checks.hashOk(p.headers, p.body) then Stop
        else Take(File(p.headers[PATH], p.body))
  }

  /** The files accepted from the text that is left, in order. */
  function Accepted(rest: string, boundary: string, first: bool, checks: Checks): seq<File>
    decreases |rest|
  {
    if rest == "" then []
    else
      match Step(rest, boundary, first)
      case End => []
      case Bad => []
      case Got(part, used) =>
        match Judge(part, checks)
        case Stop => []
        case Skip => Accepted(rest[used..], boundary, false, checks)
        case Take(file) => [file] + Accepted(rest[used..], boundary, false, checks)
  }

  /** A part with a path and a good mtime, but a bad length or hash. */
  predicate Faulty(p: Part, checks: Checks) {
    && "x-file-path" in p.headers && checks.mtimeOk(p.headers)
    && ("content-length" in p.headers && ParseLength(p.headers["content-length"]) == Some(|p.body|) ==>
          !checks.hashOk(p.headers, p.body))
  }

  /** The text that is left leads to bad framing or to a faulty part before its end. */
  predicate Rejected(rest: string, boundary: string, first: bool, checks: Checks)
    decreases |rest|
  {
    rest != "" &&
    match Step(rest, boundary, first)
    case End => false
    case Bad => true
    case Got(part, used) => Faulty(part, checks) || Rejected(rest[used..], boundary, false, checks)
  }

  /** `failed` is status 400: the loop has met bad framing or a faulty part. */
  method HandleParts(data: string, boundary: string, checks: Checks) returns (files: seq<File>, failed: bool)
    ensures files == Accepted(data, boundary, true, checks)
    ensures failed <==> Rejected(data, boundary, true, checks)
  {
    hide Step, ParseLength;
    var parser := new Parser(data, boundary);
    files, failed := [], false;
    assert data[0..] == data;
    while true
      invariant parser.Valid() && fresh(parser) && !failed && !parser.done
      invariant parser.data == data && parser.boundary == boundary
      invariant files + Accepted(data[parser.pos..], boundary, parser.isFirst, checks) ==
                Accepted(data, boundary, true, checks)
      invariant Rejected(data[parser.pos..], boundary, parser.isFirst, checks) <==> Rejected(data, boundary, true, checks)
      decreases |data| - parser.pos
    {
      ghost var rest, first := data[parser.pos..], parser.isFirst;
      assert rest == "" <==> parser.pos >= |data|;
      var next := parser.Next();
      if next.End? {
        break;
      }
      if next.Bad? {
        failed := true;
        break;
      }
      assert data[parser.pos..] == rest[next.used..];
      var verdict := Judge(next.part, checks);
      match verdict {
        case Stop =>
          failed := true;
          break;
        case Skip =>
        case Take(file) =>
          files := files + [file];
      }
    }
  }

  // ── What an honest client prints ───────────────────────────────────────────

  datatype Sent = Sent(lines: seq<string>, body: string)

  predicate CleanLine(line: string) {
    line != "" && '\r' !in line && '\n' !in line
  }

  predicate CleanLines(lines: seq<string>) {
    lines != [] && forall i :: 0 <= i < |lines| ==> CleanLine(lines[i])
  }

  function Join(lines: seq<string>): string
    requires lines != []
  {
    if |lines| == 1 then lines[0] else lines[0] + CRLF + Join(lines[1..])
  }

  /** Everything after a boundary. */
  function Tail(parts: seq<Sent>, boundary: string, epilogue: string): string
    requires forall i :: 0 <= i < |parts| ==> parts[i].lines != []
  {
    if parts == [] then "--" + epilogue
    else
      CRLF + Join(parts[0].lines) + CRLF + CRLF + parts[0].body + Marker(boundary, false) +
      Tail(parts[1..], boundary, epilogue)
  }

  function Print(parts: seq<Sent>, boundary: string, epilogue: string): string
    requires forall i :: 0 <= i < |parts| ==> parts[i].lines != []
  {
    "--" + boundary + Tail(parts, boundary, epilogue)
  }

  /** Single-line headers with a path, an acceptable mtime and the true length. */
  predicate Honest(p: Sent, checks: Checks) {
    && CleanLines(p.lines)
    && var m := HeaderMap(p.lines);
       PATH in m && checks.mtimeOk(m) && LENGTH in m && ParseLength(m[LENGTH]) == Some(|p.body|)
  }

  /** Passed over by its headers, whatever its length says. */
  predicate Skipped(p: Sent, checks: Checks) {
    var m := HeaderMap(p.lines);
    PATH !in m || !checks.mtimeOk(m)
  }

  /** An honest part, or one that is passed over and holds no delimiter. */
  predicate Harmless(p: Sent, boundary: string, checks: Checks) {
    || Honest(p, checks)
    || (CleanLines(p.lines) && Skipped(p, checks) && Find(p.body, Marker(boundary, false)) == None)
  }

  /** The parts that are not passed over, in order. */
  function Kept(parts: seq<Sent>, checks: Checks): (kept: seq<Sent>)
    ensures |kept| <= |parts|
    ensures forall i :: 0 <= i < |kept| ==> kept[i] in parts && !Skipped(kept[i], checks)
  {
    if parts == [] then []
    else (if Skipped(parts[0], checks) then [] else [parts[0]]) + Kept(parts[1..], checks)
  }

  /** The body does not contain the delimiter, and its hash matches. */
  predicate Sound(p: Sent, boundary: string, checks: Checks) {
    Find(p.body, Marker(boundary, false)) == None && checks.hashOk(HeaderMap(p.lines), p.body)
  }

  function FileOf(p: Sent): File {
    var m := HeaderMap(p.lines);
    File(if "x-file-path" in m then m["x-file-path"] else "", p.body)
  }

  /** The files of the parts before the first unsound one. */
  function SoundPrefix(parts: seq<Sent>, boundary: string, checks: Checks): (files: seq<File>)
    ensures |files| <= |parts|
  {
    if parts == [] || !Sound(parts[0], boundary, checks) then []
    else [FileOf(parts[0])] + SoundPrefix(parts[1..], boundary, checks)
  }

  lemma {:induction false} SoundPrefixIs(parts: seq<Sent>, boundary: string, checks: Checks)
    ensures var files := SoundPrefix(parts, boundary, checks);
      && (forall i :: 0 <= i < |files| ==> Sound(parts[i], boundary, checks) && files[i] == FileOf(parts[i]))
      && (|files| < |parts| ==> !Sound(parts[|files|], boundary, checks))
    decreases |parts|
  {
    hide Sound, FileOf;
    if parts != [] {
      SoundPrefixIs(parts[1..], boundary, checks);
    }
  }

  // ── Headers come back ──────────────────────────────────────────────────────

  lemma LinesOne(line: string)
    requires CleanLine(line)
    ensures Lines(line) == [line]
  {
    forall j: nat
      ensures !At(line, "\n", j)
    {
      if j < |line| {
        assert line[j..j + 1][0] == line[j];
        CleanAt(line, j);
      }
    }
  }

  /** A line ends in a line feed, with or without a carriage return. */
  lemma LinesMore(line: string, ending: string, rest: string)
    requires CleanLine(line) && (ending == "\r\n" || ending == "\n")
    ensures Lines(line + ending + rest) == [line] + Lines(rest)
  {
    var s, i := line + ending + rest, |line| + |ending| - 1;
    assert s[i..i + 1] == "\n";
    forall j | 0 <= j < i
      ensures !At(s, "\n", j)
    {
      assert s[j..j + 1][0] == s[j];
      if j < |line| {
        CleanAt(line, j);
      }
    }
    FindIs(s, "\n", i);
    CleanAt(line, |line| - 1);
    assert s[..|line|] == line && s[i + 1..] == rest;
  }

  lemma {:induction false} LinesOfJoin(lines: seq<string>)
    requires CleanLines(lines)
    ensures Lines(Join(lines)) == lines
    decreases |lines|
  {
    hide Lines;
    if |lines| == 1 {
      LinesOne(lines[0]);
    } else {
      LinesMore(lines[0], CRLF, Join(lines[1..]));
      LinesOfJoin(lines[1..]);
    }
  }

  lemma CleanAt(line: string, j: nat)
    requires CleanLine(line) && j < |line|
    ensures line[j] != '\r' && line[j] != '\n'
  {
    assert line[j] in line;
  }

  /** Each carriage return in joined lines is followed by more than a line feed. */
  lemma {:induction false} ReturnsInside(lines: seq<string>, j: nat)
    requires CleanLines(lines) && j < |Join(lines)| && Join(lines)[j] == '\r'
    ensures j + 2 < |Join(lines)| && Join(lines)[j + 2] != '\r'
    decreases |lines|
  {
    var first := lines[0];
    assert CleanLine(first);
    if j < |first| {
      CleanAt(first, j);
    } else {
      var rest := Join(lines[1..]);
      if j == |first| {
        assert CleanLine(lines[1]);
        assert rest[0] == lines[1][0];
        assert rest[0] in lines[1];
      } else {
        var k := j - |first| - 2;
        assert Join(lines)[j] == rest[k];
        ReturnsInside(lines[1..], k);
        assert Join(lines)[j + 2] == rest[k + 2];
      }
    }
  }

  lemma HeaderEnd(lines: seq<string>, x: string)
    requires CleanLines(lines)
    ensures Find(Join(lines) + CRLF + CRLF + x, CRLF + CRLF) == Some(|Join(lines)|)
  {
    var text, n := Join(lines), |Join(lines)|;
    var s := text + CRLF + CRLF + x;
    assert s[n..n + 4] == CRLF + CRLF;
    forall j | 0 <= j < n
      ensures !At(s, CRLF + CRLF, j)
    {
      if At(s, CRLF + CRLF, j) {
        assert s[j] == s[j..j + 4][0] == '\r' == s[j..j + 4][2] == s[j + 2];
        ReturnsInside(lines, j);
      }
    }
    FindIs(s, CRLF + CRLF, n);
  }

  // ── Bodies come back, or come back short ───────────────────────────────────

  /** A delimiter cannot straddle the end of a body: it has one carriage return. */
  lemma NoStraddle(body: string, boundary: string, x: string, j: nat)
    requires '\r' !in boundary && j < |body|
    requires At(body + Marker(boundary, false) + x, Marker(boundary, false), j)
    ensures At(body, Marker(boundary, false), j)
  {
    var d := Marker(boundary, false);
    var s := body + d + x;
    var k := |body| - j;
    if k >= |d| {
      assert body[j..j + |d|] == s[j..j + |d|];
    } else {
      Straddle(body, boundary, x, j);
      OneReturn(boundary, k);
    }
  }

  lemma Straddle(body: string, boundary: string, x: string, j: nat)
    requires j < |body| && |body| - j < |Marker(boundary, false)|
    requires At(body + Marker(boundary, false) + x, Marker(boundary, false), j)
    ensures Marker(boundary, false)[|body| - j] == '\r'
  {
    var d := Marker(boundary, false);
    var s := body + d + x;
    assert s[j..j + |d|][|body| - j] == s[|body|] == d[0];
  }

  lemma OneReturn(boundary: string, k: nat)
    requires '\r' !in boundary && 0 < k < |Marker(boundary, false)|
    ensures Marker(boundary, false)[k] != '\r'
  {
    if k >= 4 {
      assert Marker(boundary, false)[k] == boundary[k - 4];
      assert boundary[k - 4] in boundary;
    }
  }

  lemma FirstDelimiter(body: string, boundary: string, x: string)
    requires '\r' !in boundary
    ensures var d := Marker(boundary, false);
      var e := Find(body + d + x, d);
      && e.Some? && e.value <= |body|
      && (e.value == |body| <==> Find(body, d) == None)
  {
    hide Find, Marker, At;
    var d := Marker(boundary, false);
    var s := body + d + x;
    assert d != "" by {
      MarkerStarts(boundary);
    }
    InContext(body, d, x);
    var e := Find(s, d).value;
    if e < |body| {
      NoStraddle(body, boundary, x, e);
    }
  }

  lemma MarkerStarts(boundary: string)
    ensures Marker(boundary, false) != ""
  {
  }

  /** Where the text `d` is, once it follows `body`. */
  lemma InContext(body: string, d: string, x: string)
    requires d != ""
    ensures At(body + d + x, d, |body|)
    ensures forall j :: At(body, d, j) ==> j < |body| && At(body + d + x, d, j)
  {
    var s := body + d + x;
    assert s[|body|..|body| + |d|] == d;
    forall j | At(body, d, j)
      ensures j < |body| && At(s, d, j)
    {
      assert s[j..j + |d|] == body[j..j + |d|];
    }
  }

  /** Splitting off a header block whose end is known. */
  lemma PartAtHeader(h: string, tail: string, boundary: string)
    requires Find(h + CRLF + CRLF + tail, CRLF + CRLF) == Some(|h|)
    ensures var e := match Find(tail, Marker(boundary, false)) case Some(e) => e case None => |tail|;
      PartAt(CRLF + (h + CRLF + CRLF + tail), boundary) ==
        Got(Part(HeaderMap(Lines(h)), tail[..e]), 2 + |h| + 4 + e)
  {
    hide HeaderMap, Find, Lines, Marker, HeadersAndBody;
    var block := h + CRLF + CRLF + tail;
    AfterBreak(block, boundary);
    Blocks(h, tail);
    BlockOf(block, h, tail, boundary);
  }

  lemma AfterBreak(block: string, boundary: string)
    ensures PartAt(CRLF + block, boundary) ==
              match HeadersAndBody(block, boundary)
              case Got(part, used) => Got(part, 2 + used)
              case r => r
  {
    hide HeadersAndBody;
    var text := CRLF + block;
    assert text[0] == '\r' && text[2..] == block;
  }

  lemma Blocks(h: string, tail: string)
    ensures var block := h + CRLF + CRLF + tail;
      block[..|h|] == h && block[|h| + 4..] == tail
  {
  }

  lemma BlockOf(block: string, h: string, tail: string, boundary: string)
    requires Find(block, CRLF + CRLF) == Some(|h|) && block[..|h|] == h && block[|h| + 4..] == tail
    ensures var e := match Find(tail, Marker(boundary, false)) case Some(e) => e case None => |tail|;
      HeadersAndBody(block, boundary) == Got(Part(HeaderMap(Lines(h)), tail[..e]), |h| + 4 + e)
  {
    hide HeaderMap, Find, Lines, Marker;
  }

  lemma PartAtPrinted(p: Sent, boundary: string, x: string)
    requires CleanLines(p.lines) && '\r' !in boundary
    ensures var d := Marker(boundary, false);
      var r := PartAt(CRLF + Join(p.lines) + CRLF + CRLF + p.body + d + x, boundary);
      var e := Find(p.body + d + x, d);
      && e.Some? && e.value <= |p.body|
      && r == Got(Part(HeaderMap(p.lines), p.body[..e.value]), 2 + |Join(p.lines)| + 4 + e.value)
  {
    hide HeaderMap, Find, Join, Marker, PartAt, Lines;
    var d, h := Marker(boundary, false), Join(p.lines);
    var tail := p.body + d + x;
    FirstDelimiter(p.body, boundary, x);
    HeaderEnd(p.lines, tail);
    LinesOfJoin(p.lines);
    PartAtHeader(h, tail, boundary);
    assert CRLF + h + CRLF + CRLF + p.body + d + x == CRLF + (h + CRLF + CRLF + tail);
    assert tail[..Find(tail, d).value] == p.body[..Find(tail, d).value];
  }

  /** A step that starts at its marker. */
  lemma StepAtMarker(text: string, boundary: string, first: bool)
    ensures var m := Marker(boundary, first);
      Step(m + text, boundary, first) ==
        match PartAt(text, boundary)
        case End => End
        case Bad => Bad
        case Got(part, used) => Got(part, |m| + used)
  {
    hide PartAt, Find;
    var m := Marker(boundary, first);
    var rest := m + text;
    assert rest[|m|..] == text;
    FoundFirst(m, text);
  }

  /** A printed part, read from its marker on. */
  lemma StepPrinted(p: Sent, boundary: string, first: bool, x: string)
    requires CleanLines(p.lines) && '\r' !in boundary
    ensures var d, m := Marker(boundary, false), Marker(boundary, first);
      var rest := m + (CRLF + Join(p.lines) + CRLF + CRLF + p.body + d + x);
      var e := Find(p.body + d + x, d);
      var r := Step(rest, boundary, first);
      && e.Some? && e.value <= |p.body|
      && (e.value == |p.body| <==> Find(p.body, d) == None)
      && r.Got? && r.part == Part(HeaderMap(p.lines), p.body[..e.value])
      && rest[r.used..] == (p.body + d + x)[e.value..]
  {
    hide HeaderMap, Join, PartAt, Find, Step, Marker;
    var d, m := Marker(boundary, false), Marker(boundary, first);
    var head, tail := CRLF + Join(p.lines) + CRLF + CRLF, p.body + d + x;
    var text := CRLF + Join(p.lines) + CRLF + CRLF + p.body + d + x;
    FirstDelimiter(p.body, boundary, x);
    PartAtPrinted(p, boundary, x);
    StepAtMarker(text, boundary, first);
    var e := Find(tail, d).value;
    assert m + text == (m + head) + tail by {
      assert text == head + tail;
    }
    DropInto(m + head, tail, e);
  }

  lemma DropInto(a: string, b: string, e: nat)
    requires e <= |b|
    ensures (a + b)[|a| + e..] == b[e..]
  {
  }

  lemma JudgePrinted(p: Sent, boundary: string, checks: Checks, e: nat)
    requires Harmless(p, boundary, checks) && e <= |p.body|
    requires e == |p.body| <==> Find(p.body, Marker(boundary, false)) == None
    ensures Judge(Part(HeaderMap(p.lines), p.body[..e]), checks) ==
              if Skipped(p, checks) then Skip
              else if Sound(p, boundary, checks) then Take(FileOf(p)) else Stop
  {
    hide HeaderMap, Find, ParseLength;
    if e == |p.body| {
      assert p.body[..e] == p.body;
    }
  }

  lemma StopIsFaulty(p: Part, checks: Checks)
    ensures Judge(p, checks) == Stop <==> Faulty(p, checks)
  {
  }

  /** One part: nothing, its file, or the end of the request. */
  lemma AcceptedOne(p: Sent, boundary: string, first: bool, checks: Checks, x: string)
    requires Harmless(p, boundary, checks) && '\r' !in boundary
    ensures var d := Marker(boundary, false);
      var text := Marker(boundary, first) + (CRLF + Join(p.lines) + CRLF + CRLF + p.body + d + x);
      && Accepted(text, boundary, first, checks) ==
           (if Skipped(p, checks) then Accepted(d + x, boundary, false, checks)
            else if Sound(p, boundary, checks) then [FileOf(p)] + Accepted(d + x, boundary, false, checks) else [])
      && (Rejected(text, boundary, first, checks) <==>
           (!Skipped(p, checks) && !Sound(p, boundary, checks)) || Rejected(d + x, boundary, false, checks))
  {
    hide HeaderMap, Join, FileOf, ParseLength, Step, Judge, Find, Marker, Faulty;
    var d := Marker(boundary, false);
    StepPrinted(p, boundary, first, x);
    var e := Find(p.body + d + x, d).value;
    JudgePrinted(p, boundary, checks, e);
    StopIsFaulty(Part(HeaderMap(p.lines), p.body[..e]), checks);
    if e == |p.body| {
      DropInto(p.body, d + x, 0);
      assert p.body + d + x == p.body + (d + x);
    }
  }

  lemma NothingKept(boundary: string, checks: Checks)
    ensures Kept([], checks) == [] && SoundPrefix([], boundary, checks) == []
  {
  }

  lemma SoundKept(parts: seq<Sent>, boundary: string, checks: Checks)
    requires parts != []
    ensures var kept, rest := Kept(parts, checks), Kept(parts[1..], checks);
      var files := SoundPrefix(rest, boundary, checks);
      && SoundPrefix(kept, boundary, checks) ==
           (if Skipped(parts[0], checks) then files
            else if Sound(parts[0], boundary, checks) then [FileOf(parts[0])] + files else [])
      && |kept| == |rest| + if Skipped(parts[0], checks) then 0 else 1
  {
    hide Skipped, Sound, FileOf;
    var kept, rest := Kept(parts, checks), Kept(parts[1..], checks);
    if Skipped(parts[0], checks) {
      assert kept == rest;
    } else {
      assert kept == [parts[0]] + rest;
      assert kept[1..] == rest;
    }
  }

  /** Bytes are never attributed to the wrong part: whatever the bodies contain, the
      files accepted are exactly those of the parts before the first one whose body
      contains the delimiter or whose hash is wrong, with identical bodies.  Parts
      that are passed over in between change nothing as long as they hold no
      delimiter. */
  lemma {:induction false} AcceptedIsPrefix(
      parts: seq<Sent>, boundary: string, first: bool, checks: Checks, epilogue: string)
    requires forall i :: 0 <= i < |parts| ==> Harmless(parts[i], boundary, checks)
    requires '\r' !in boundary
    ensures forall i :: 0 <= i < |parts| ==> parts[i].lines != []
    ensures Accepted(Marker(boundary, first) + Tail(parts, boundary, epilogue), boundary, first, checks) ==
              SoundPrefix(Kept(parts, checks), boundary, checks)
    ensures Rejected(Marker(boundary, first) + Tail(parts, boundary, epilogue), boundary, first, checks) <==>
              |SoundPrefix(Kept(parts, checks), boundary, checks)| < |Kept(parts, checks)|
    decreases |parts|
  {
    hide HeaderMap, Join, FileOf, ParseLength, Step, Judge, Find, Sound, Marker, Skipped, Kept, SoundPrefix, Faulty;
    NothingKept(boundary, checks);
    forall i | 0 <= i < |parts|
      ensures parts[i].lines != []
    {
      assert Harmless(parts[i], boundary, checks);
    }
    if parts == [] {
      ClosingEnds(boundary, first, epilogue);
    } else {
      var p, x := parts[0], Tail(parts[1..], boundary, epilogue);
      assert Tail(parts, boundary, epilogue) == CRLF + Join(p.lines) + CRLF + CRLF + p.body + Marker(boundary, false) + x;
      AcceptedOne(p, boundary, first, checks, x);
      AcceptedIsPrefix(parts[1..], boundary, false, checks, epilogue);
      SoundKept(parts, boundary, checks);
    }
  }

  lemma ClosingEnds(boundary: string, first: bool, epilogue: string)
    ensures Step(Marker(boundary, first) + ("--" + epilogue), boundary, first) == End
  {
    StepAtMarker("--" + epilogue, boundary, first);
  }

  /** The request fails exactly when some part that is not passed over holds the
      delimiter or has a wrong hash, and the files are those of the parts before it. */
  lemma AllPartsComeBack(parts: seq<Sent>, boundary: string, checks: Checks, epilogue: string)
    requires forall i :: 0 <= i < |parts| ==> Harmless(parts[i], boundary, checks)
    requires '\r' !in boundary
    ensures forall i :: 0 <= i < |parts| ==> parts[i].lines != []
    ensures var text, kept := Print(parts, boundary, epilogue), Kept(parts, checks);
      var files := Accepted(text, boundary, true, checks);
      && |files| <= |kept|
      && (forall i :: 0 <= i < |files| ==> files[i] == FileOf(kept[i]) && Sound(kept[i], boundary, checks))
      && (|files| < |kept| ==> !Sound(kept[|files|], boundary, checks))
      && (Rejected(text, boundary, true, checks) <==> exists i :: 0 <= i < |kept| && !Sound(kept[i], boundary, checks))
  {
    hide Sound, FileOf, Accepted, Rejected, Tail, Kept;
    AcceptedIsPrefix(parts, boundary, true, checks, epilogue);
    SoundPrefixIs(Kept(parts, checks), boundary, checks);
  }

  /** The condition on passed over parts is needed: a part without a path or with a
      bad mtime is passed over before its length is looked at, so a delimiter in its
      body is taken for the end of the part and what follows is read as further
      parts. */
  lemma SkippedPartIsUnchecked(
      parts: seq<Sent>, lines: seq<string>, boundary: string, checks: Checks, epilogue: string, after: string)
    requires forall i :: 0 <= i < |parts| ==> Harmless(parts[i], boundary, checks)
    requires '\r' !in boundary && CleanLines(lines)
    requires PATH !in HeaderMap(lines) || !checks.mtimeOk(HeaderMap(lines))
    ensures forall i :: 0 <= i < |parts| ==> parts[i].lines != []
    ensures var body := Marker(boundary, false) + Tail(parts, boundary, epilogue);
      Accepted(Print([Sent(lines, body)], boundary, after), boundary, true, checks) ==
        SoundPrefix(Kept(parts, checks), boundary, checks)
  {
    hide HeaderMap, Join, Sound, FileOf, ParseLength, Step, Find, Marker, Print, Tail, Kept, SoundPrefix;
    var d, m, x := Marker(boundary, false), Marker(boundary, true), "--" + after;
    AcceptedIsPrefix(parts, boundary, false, checks, epilogue + (d + x));
    var p := Sent(lines, d + Tail(parts, boundary, epilogue));
    PrintOne(p, boundary, after);
    SkippedOne(p, boundary, checks, x);
    TailAppend(parts, boundary, epilogue, d + x);
    assert p.body + d + x == d + (Tail(parts, boundary, epilogue) + (d + x));
    FoundFirst(d, Tail(parts, boundary, epilogue) + (d + x));
  }

  /** A part that is passed over ends at the first delimiter after its headers. */
  lemma SkippedOne(p: Sent, boundary: string, checks: Checks, x: string)
    requires CleanLines(p.lines) && Skipped(p, checks) && '\r' !in boundary
    ensures var d := Marker(boundary, false);
      var e := Find(p.body + d + x, d);
      && e.Some? && e.value <= |p.body|
      && Accepted(Marker(boundary, true) + (CRLF + Join(p.lines) + CRLF + CRLF + p.body + d + x), boundary, true, checks) ==
           Accepted((p.body + d + x)[e.value..], boundary, false, checks)
  {
    hide HeaderMap, Join, Step, Find, Marker;
    StepPrinted(p, boundary, true, x);
  }

  lemma FoundFirst(d: string, x: string)
    ensures Find(d + x, d) == Some(0) && (d + x)[0..] == d + x
  {
    hide Find;
    assert (d + x)[0..|d|] == d;
    FindIs(d + x, d, 0);
  }

  lemma PrintOne(p: Sent, boundary: string, after: string)
    requires p.lines != []
    ensures Print([p], boundary, after) ==
              Marker(boundary, true) +
              (CRLF + Join(p.lines) + CRLF + CRLF + p.body + Marker(boundary, false) + ("--" + after))
  {
    hide Join;
    assert [p][1..] == [];
    assert Tail([], boundary, after) == "--" + after;
  }

  lemma {:induction false} TailAppend(parts: seq<Sent>, boundary: string, epilogue: string, x: string)
    requires forall i :: 0 <= i < |parts| ==> parts[i].lines != []
    ensures Tail(parts, boundary, epilogue) + x == Tail(parts, boundary, epilogue + x)
    decreases |parts|
  {
    hide Join;
    if parts == [] {
      assert "--" + epilogue + x == "--" + (epilogue + x);
    } else {
      TailAppend(parts[1..], boundary, epilogue, x);
      var head := CRLF + Join(parts[0].lines) + CRLF + CRLF + parts[0].body + Marker(boundary, false);
      assert head + Tail(parts[1..], boundary, epilogue) + x == head + (Tail(parts[1..], boundary, epilogue) + x);
    }
  }
}

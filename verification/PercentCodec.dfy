/** Percent encoding of bytes, and the decoder that undoes it. */
module PercentCodec {
  import opened Options

  newtype byte = x: int | 0 <= x < 256

  /** Section 2.1 of RFC 3986; section 3.2 of RFC 5987 for file names. */
  type Bytes = seq<byte>

  const PERCENT: byte := 37

  function HexNibble(b: byte): (n: Option<byte>)
    ensures n.Some? ==> n.value < 16
  {
    if 48 <= b <= 57 then Some(b - 48)
    else if 65 <= b <= 70 then Some(b - 55)
    else if 97 <= b <= 102 then Some(b - 87)
    else None
  }

  /** An upper-case hex digit. */
  function HexDigit(n: byte): (b: byte)
    requires n < 16
    ensures HexNibble(b) == Some(n)
  {
    if n < 10 then 48 + n else 55 + n
  }

  // ── Decoding ───────────────────────────────────────────────────────────────

  predicate EscapeAt(s: Bytes, i: int) {
    0 <= i && i + 2 < |s| && s[i] == PERCENT && HexNibble(s[i + 1]).Some? && HexNibble(s[i + 2]).Some?
  }

  /** Complete escapes become their byte; everything else stays. */
  function Decode(s: Bytes): Bytes {
    if s == [] then []
    else if EscapeAt(s, 0) then [HexNibble(s[1]).value * 16 + HexNibble(s[2]).value] + Decode(s[3..])
    else [s[0]] + Decode(s[1..])
  }

  /** What one hex digit, in either case, stands for. */
  function HexValue(c: byte): int {
    if '0' as int <= c as int <= '9' as int then c as int - '0' as int
    else if 'A' as int <= c as int <= 'F' as int then c as int - 'A' as int + 10
    else if 'a' as int <= c as int <= 'f' as int then c as int - 'a' as int + 10
    else -1
  }

  /** Byte by byte: a percent sign with two hex digits after it gives the byte they
      stand for, and anything else is taken as it is. */
  lemma DecodeIs(b: byte, s: Bytes)
    ensures if IsEscape(b, s)
      then
        && 0 <= 16 * HexValue(s[0]) + HexValue(s[1]) < 256
        && Decode([b] + s) == [(16 * HexValue(s[0]) + HexValue(s[1])) as byte] + Decode(s[2..])
      else Decode([b] + s) == [b] + Decode(s)
    ensures Decode([]) == []
  {
    hide HexNibble, HexValue, Decode;
    var t := [b] + s;
    assert t[1..] == s;
    DecodeStep(t);
    if |s| >= 2 {
      HexAgrees(s[0]);
      HexAgrees(s[1]);
      assert t[1] == s[0] && t[2] == s[1] && t[3..] == s[2..];
    }
  }

  predicate IsEscape(b: byte, s: Bytes) {
    b as int == '%' as int && |s| >= 2 && HexValue(s[0]) >= 0 && HexValue(s[1]) >= 0
  }

  lemma DecodeStep(t: Bytes)
    ensures Decode([]) == []
    ensures t != [] ==>
              Decode(t) == if EscapeAt(t, 0) then [HexNibble(t[1]).value * 16 + HexNibble(t[2]).value] + Decode(t[3..])
                           else [t[0]] + Decode(t[1..])
  {
    hide HexNibble;
  }

  lemma HexAgrees(c: byte)
    ensures HexNibble(c).Some? <==> HexValue(c) >= 0
    ensures HexNibble(c).Some? ==> HexNibble(c).value as int == HexValue(c) < 16
  {
  }

  /** The loop of the request handler. */
  method PercentDecodePath(s: Bytes) returns (out: Bytes)
    ensures out == Decode(s)
  {
    hide HexNibble;
    out := [];
    var i := 0;
    assert s[0..] == s;
    while i < |s|
      invariant 0 <= i <= |s|
      invariant out + Decode(s[i..]) == Decode(s)
    {
      if s[i] == PERCENT && i + 2 < |s| {
        var h, l := HexNibble(s[i + 1]), HexNibble(s[i + 2]);
        if h.Some? && l.Some? {
          assert EscapeAt(s[i..], 0) && s[i..][3..] == s[i + 3..];
          out := out + [h.value * 16 + l.value];
          i := i + 3;
          continue;
        }
      }
      assert !EscapeAt(s[i..], 0) && s[i..][1..] == s[i + 1..];
      out := out + [s[i]];
      i := i + 1;
    }
  }

  /** The archive handler's copy of the loop computes the same function. */
  method UrlDecode(s: Bytes) returns (out: Bytes)
    ensures out == Decode(s)
  {
    hide HexNibble;
    out := [];
    var i := 0;
    assert s[0..] == s;
    while i < |s|
      invariant 0 <= i <= |s|
      invariant out + Decode(s[i..]) == Decode(s)
    {
      var escape := false;
      if s[i] == PERCENT && i + 2 < |s| {
        var h, l := HexNibble(s[i + 1]), HexNibble(s[i + 2]);
        escape := h.Some? && l.Some?;
        if escape {
          out := out + [h.value * 16 + l.value];
        }
      }
      assert escape == EscapeAt(s[i..], 0);
      if escape {
        assert s[i..][3..] == s[i + 3..];
        i := i + 3;
      } else {
        assert s[i..][1..] == s[i + 1..];
        out := out + [s[i]];
        i := i + 1;
      }
    }
  }

  // ── Encoding ───────────────────────────────────────────────────────────────

  predicate Unreserved(b: byte) {
    65 <= b <= 90 || 97 <= b <= 122 || 48 <= b <= 57 || b in {45, 95, 46, 126}
  }

  /** Unreserved, the path separator, and what a path segment may hold as is. */
  predicate PathSafe(b: byte) {
    Unreserved(b) || b in {47, 58, 64, 33, 36, 38, 39, 40, 41, 42, 43, 44, 59, 61}
  }

  /** The characters that are kept: those of section 2.3 of RFC 3986, and in paths the
      separator and what section 3.3 permits in a segment. */
  lemma KeptAre(b: byte)
    ensures var c := b as char;
      && (Unreserved(b) <==> 'A' <= c <= 'Z' || 'a' <= c <= 'z' || '0' <= c <= '9' || c in "-._~")
      && (PathSafe(b) <==> Unreserved(b) || c in "/!$&'()*+,;=:@")
  {
  }

  function Escape(b: byte): Bytes {
    [PERCENT, HexDigit(b / 16), HexDigit(b % 16)]
  }

  function Encode(s: Bytes, keep: byte -> bool): Bytes {
    if s == [] then []
    else (if keep(s[0]) then [s[0]] else Escape(s[0])) + Encode(s[1..], keep)
  }

  lemma EncodeNothing(keep: byte -> bool)
    ensures Encode([], keep) == []
  {
  }

  lemma {:induction false} EncodeAppend(s: Bytes, b: byte, keep: byte -> bool)
    ensures Encode(s + [b], keep) == Encode(s, keep) + if keep(b) then [b] else Escape(b)
    decreases |s|
  {
    hide HexDigit, HexNibble, Escape, Encode;
    EncodeNothing(keep);
    if s == [] {
      assert s + [b] == [b] + s;
      EncodeFirst(b, s, keep);
    } else {
      var t := s[1..];
      EncodeAppend(t, b, keep);
      assert s == [s[0]] + t && s + [b] == [s[0]] + (t + [b]);
      EncodeFirst(s[0], t, keep);
      EncodeFirst(s[0], t + [b], keep);
    }
  }

  lemma EncodeFirst(b: byte, s: Bytes, keep: byte -> bool)
    ensures Encode([b] + s, keep) == (if keep(b) then [b] else Escape(b)) + Encode(s, keep)
  {
    hide HexDigit, HexNibble, Escape;
    assert ([b] + s)[1..] == s;
  }

  method PercentEncodePath(s: Bytes) returns (out: Bytes)
    ensures out == Encode(s, PathSafe)
  {
    hide HexDigit, HexNibble, PathSafe, Encode;
    out := [];
    EncodeNothing(PathSafe);
    for i := 0 to |s|
      invariant out == Encode(s[..i], PathSafe)
    {
      EncodeAppend(s[..i], s[i], PathSafe);
      assert s[..i + 1] == s[..i] + [s[i]];
      if PathSafe(s[i]) {
        out := out + [s[i]];
      } else {
        out := out + [PERCENT];
        out := out + [HexDigit(s[i] / 16)];
        out := out + [HexDigit(s[i] % 16)];
      }
    }
    assert s[..|s|] == s;
  }

  method PercentEncodeFilename(s: Bytes) returns (out: Bytes)
    ensures out == Encode(s, Unreserved)
  {
    hide HexDigit, HexNibble, Unreserved, Encode, Escape;
    out := [];
    EncodeNothing(Unreserved);
    for i := 0 to |s|
      invariant out == Encode(s[..i], Unreserved)
    {
      EncodeAppend(s[..i], s[i], Unreserved);
      assert s[..i + 1] == s[..i] + [s[i]];
      out := out + if Unreserved(s[i]) then [s[i]] else Escape(s[i]);
    }
    assert s[..|s|] == s;
  }

  // ── Round trips ────────────────────────────────────────────────────────────

  lemma HexPair(b: byte)
    ensures HexNibble(HexDigit(b / 16)).value * 16 + HexNibble(HexDigit(b % 16)).value == b
  {
  }

  /** Decoding undoes any encoder that escapes the percent sign, for every byte string. */
  lemma {:induction false} DecodeEncode(s: Bytes, keep: byte -> bool)
    requires !keep(PERCENT)
    ensures Decode(Encode(s, keep)) == s
    decreases |s|
  {
    if s != [] {
      DecodeEncode(s[1..], keep);
      var rest, e := Encode(s[1..], keep), Encode(s, keep);
      if keep(s[0]) {
        assert e[1..] == rest;
      } else {
        HexPair(s[0]);
        assert e[0] == PERCENT && e[1] == HexDigit(s[0] / 16) && e[2] == HexDigit(s[0] % 16);
        assert EscapeAt(e, 0) && e[3..] == rest;
      }
    }
  }

  /** Both encoders of the server are undone, so neither sends two names to one. */
  lemma EncodersAreUndone(s: Bytes, t: Bytes)
    ensures Decode(Encode(s, PathSafe)) == s && Decode(Encode(s, Unreserved)) == s
    ensures Encode(s, PathSafe) == Encode(t, PathSafe) ==> s == t
    ensures Encode(s, Unreserved) == Encode(t, Unreserved) ==> s == t
  {
    DecodeEncode(s, PathSafe);
    DecodeEncode(s, Unreserved);
    DecodeEncode(t, PathSafe);
    DecodeEncode(t, Unreserved);
  }

  predicate UpperHex(b: byte) {
    48 <= b <= 57 || 65 <= b <= 70
  }

  /** Encoded text holds permitted bytes and complete upper-case escapes only. */
  lemma {:induction false} EncodedIsPermitted(s: Bytes, keep: byte -> bool, i: nat)
    requires i < |Encode(s, keep)|
    ensures var e := Encode(s, keep);
      || keep(e[i])
      || (e[i] == PERCENT && i + 2 < |e| && UpperHex(e[i + 1]) && UpperHex(e[i + 2]))
      || (UpperHex(e[i]) && i > 0 && (e[i - 1] == PERCENT || (i > 1 && e[i - 2] == PERCENT)))
    decreases |s|
  {
    var head := if keep(s[0]) then [s[0]] else Escape(s[0]);
    var rest := Encode(s[1..], keep);
    if i >= |head| {
      EncodedIsPermitted(s[1..], keep, i - |head|);
      var e := head + rest;
      assert forall j :: |head| <= j < |e| ==> e[j] == rest[j - |head|];
    }
  }

  /** Text that is already plain is neither encoded nor decoded. */
  lemma {:induction false} PlainStays(s: Bytes, keep: byte -> bool)
    requires forall i :: 0 <= i < |s| ==> keep(s[i]) && s[i] != PERCENT
    ensures Encode(s, keep) == s && Decode(s) == s
    decreases |s|
  {
    if s != [] {
      PlainStays(s[1..], keep);
    }
  }
}

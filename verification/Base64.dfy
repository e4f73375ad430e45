/** The lenient base64 reader: four RFC 4648 decoders tried in turn.
    Each decoder works as the standard library's does: line breaks are skipped, and the
    unused low bits of a final partial group are ignored. */
module Base64 {
  import opened Wrappers
  import Lex

  type byte = Lex.byte
  type sextet = x: int | 0 <= x < 64

  /** An RFC 4648 encoding: section 5 alphabet or section 4 alphabet, padded or not. */
  datatype Encoding = Encoding(url: bool, padded: bool)

  const STD := Encoding(false, true)
  const RAW_STD := Encoding(false, false)
  const URL := Encoding(true, true)
  const RAW_URL := Encoding(true, false)

  const KEY_SIZE := 32

  // ---- alphabet ----------------------------------------------------------

  function Letter(url: bool, v: sextet): char {
    if v < 26 then ('A' as int + v) as char
    else if v < 52 then ('a' as int + v - 26) as char
    else if v < 62 then ('0' as int + v - 52) as char
    else if v == 62 then (if url then '-' else '+')
    else (if url then '_' else '/')
  }

  function Value(url: bool, c: char): Option<sextet> {
    if 'A' <= c <= 'Z' then Some(c as int - 'A' as int)
    else if 'a' <= c <= 'z' then Some(c as int - 'a' as int + 26)
    else if '0' <= c <= '9' then Some(c as int - '0' as int + 52)
    else if c == (if url then '-' else '+') then Some(62)
    else if c == (if url then '_' else '/') then Some(63)
    else None
  }

  // ---- encoding ----------------------------------------------------------

  function Encode(e: Encoding, b: seq<byte>): string {
    if |b| == 0 then ""
    else if |b| == 1 then
      [Letter(e.url, b[0] / 4), Letter(e.url, b[0] % 4 * 16)] + (if e.padded then "==" else "")
    else if |b| == 2 then
      [Letter(e.url, b[0] / 4), Letter(e.url, b[0] % 4 * 16 + b[1] / 16), Letter(e.url, b[1] % 16 * 4)] +
      (if e.padded then "=" else "")
    else
      [Letter(e.url, b[0] / 4), Letter(e.url, b[0] % 4 * 16 + b[1] / 16),
       Letter(e.url, b[1] % 16 * 4 + b[2] / 64), Letter(e.url, b[2] % 64)] + Encode(e, b[3..])
  }

  // ---- decoding ----------------------------------------------------------

  predicate IsNewline(c: char) { c == '\n' || c == '\r' }

  /** The decoders skip line breaks wherever they stand. */
  function SkipNewlines(s: string): string {
    if s == "" then ""
    else if IsNewline(s[0]) then SkipNewlines(s[1..])
    else [s[0]] + SkipNewlines(s[1..])
  }

  /** The bytes of a group of two, three or four letters. */
  function Group(url: bool, g: string): (r: Option<seq<byte>>)
    requires 2 <= |g| <= 4
  {
    if exists i :: 0 <= i < |g| && Value(url, g[i]) == None then None
    else
      var v0: int, v1: int := Value(url, g[0]).value, Value(url, g[1]).value;
      if |g| == 2 then Some([v0 * 4 + v1 / 16])
      else
        var v2: int := Value(url, g[2]).value;
        if |g| == 3 then Some([v0 * 4 + v1 / 16, v1 % 16 * 16 + v2 / 4])
        else
          var v3: int := Value(url, g[3]).value;
          Some([v0 * 4 + v1 / 16, v1 % 16 * 16 + v2 / 4, v2 % 4 * 64 + v3])
  }

  /** Decode text without line breaks, group by group. */
  function DecodeGroups(e: Encoding, s: string): Option<seq<byte>> {
    if s == "" then Some([])
    else if |s| < 4 then
      if e.padded || |s| == 1 then None else Group(e.url, s)
    else if s[3] == '=' then
      if !e.padded || |s| > 4 then None
      else if s[2] == '=' then Group(e.url, s[..2])
      else Group(e.url, s[..3])
    else
      match Group(e.url, s[..4])
      case None => None
      case Some(b) =>
        match DecodeGroups(e, s[4..])
        case None => None
        case Some(rest) => Some(b + rest)
  }

  function Decode(e: Encoding, s: string): Option<seq<byte>> {
    DecodeGroups(e, SkipNewlines(s))
  }

  /** What any of the four decoders reads from a string, if one accepts it. */
  ghost function Lenient(s: string): (r: Option<seq<byte>>)
  {
    if s != "" && exists e :: Decode(e, s).Some? then
      var e :| Decode(e, s).Some?; Decode(e, s)
    else None
  }

  ghost predicate IsKey(e: Encoding, text: string) {
    Decode(e, text).Some? && |Decode(e, text).value| == KEY_SIZE
  }

  /** A published key is 32 bytes in any of the four encodings. */
  ghost function PublishedKey(text: string): (r: Option<seq<byte>>)
  {
    if exists e :: IsKey(e, text) then var e :| IsKey(e, text); Decode(e, text) else None
  }

  /** The order in which both lenient readers try the encodings. */
  const TRIALS: seq<Encoding> := [STD, RAW_STD, URL, RAW_URL]

  method DecodeLenient(s: string) returns (r: Option<seq<byte>>)
    ensures r == Lenient(s)
  {
    if s == "" { return None; }
    var i := 0;
    while i < |TRIALS|
      invariant 0 <= i <= |TRIALS|
      invariant forall k :: 0 <= k < i ==> Decode(TRIALS[k], s) == None
    {
      var d := Decode(TRIALS[i], s);
      if d.Some? {
        DecodersAgree(s, d.value, TRIALS[i]);
        return d;
      }
      i := i + 1;
    }
    forall e ensures Decode(e, s) == None { EveryEncodingIsTried(e); }
    return None;
  }

  method DecodePublishedKey(text: string) returns (r: Option<seq<byte>>)
    ensures r == PublishedKey(text)
  {
    var i := 0;
    while i < |TRIALS|
      invariant 0 <= i <= |TRIALS|
      invariant forall k :: 0 <= k < i ==> !IsKey(TRIALS[k], text)
    {
      var d := Decode(TRIALS[i], text);
      if d.Some? && |d.value| == KEY_SIZE {
        assert IsKey(TRIALS[i], text);
        DecodersAgree(text, d.value, TRIALS[i]);
        return d;
      }
      i := i + 1;
    }
    forall e ensures !IsKey(e, text) { EveryEncodingIsTried(e); }
    return None;
  }

  lemma EveryEncodingIsTried(e: Encoding)
    ensures e in TRIALS
  {
  }

  // ---- round trip --------------------------------------------------------

  lemma {:induction false} EncodeHasNoNewlines(e: Encoding, b: seq<byte>)
    ensures SkipNewlines(Encode(e, b)) == Encode(e, b)
    ensures b != [] ==> Encode(e, b) != ""
  {
    var s := Encode(e, b);
    forall i | 0 <= i < |s| ensures !IsNewline(s[i]) { EncodeLetters(e, b, i); }
    SkipNothing(s);
  }

  lemma {:induction false} EncodeLetters(e: Encoding, b: seq<byte>, i: nat)
    requires i < |Encode(e, b)|
    ensures !IsNewline(Encode(e, b)[i])
  {
    if |b| >= 3 && i >= 4 {
      EncodeLetters(e, b[3..], i - 4);
    }
  }

  lemma {:induction false} SkipNothing(s: string)
    requires forall i :: 0 <= i < |s| ==> !IsNewline(s[i])
    ensures SkipNewlines(s) == s
  {
    if s != "" { SkipNothing(s[1..]); }
  }

  /** The group written for up to three bytes is read back. */
  lemma GroupRoundTrip(url: bool, b: seq<byte>, g: string)
    requires 1 <= |b| <= 3 && |g| == |b| + 1
    requires g[0] == Letter(url, b[0] / 4)
    requires g[1] == Letter(url, b[0] % 4 * 16 + if |b| > 1 then b[1] / 16 else 0)
    requires |b| > 1 ==> g[2] == Letter(url, b[1] % 16 * 4 + if |b| > 2 then b[2] / 64 else 0)
    requires |b| > 2 ==> g[3] == Letter(url, b[2] % 64)
    ensures Group(url, g) == Some(b)
  {
    assert Value(url, g[0]) == Some(b[0] / 4);
    assert Value(url, g[1]) == Some(b[0] % 4 * 16 + if |b| > 1 then b[1] / 16 else 0);
    if |b| > 1 {
      assert Value(url, g[2]) == Some(b[1] % 16 * 4 + if |b| > 2 then b[2] / 64 else 0);
    }
    if |b| > 2 {
      assert Value(url, g[3]) == Some(b[2] % 64);
    }
    var r := Group(url, g);
    assert r.Some? && |r.value| == |b|;
    assert r.value[0] == b[0];
    if |b| > 1 { assert r.value[1] == b[1]; }
    if |b| > 2 { assert r.value[2] == b[2]; }
    assert r.value == b;
  }

  lemma {:induction false} GroupsRoundTrip(e: Encoding, b: seq<byte>)
    ensures DecodeGroups(e, Encode(e, b)) == Some(b)
  {
    var s := Encode(e, b);
    if |b| >= 3 {
      GroupsRoundTrip(e, b[3..]);
      assert s[4..] == Encode(e, b[3..]);
      GroupRoundTrip(e.url, b[..3], s[..4]);
      assert b == b[..3] + b[3..];
    } else if |b| == 2 {
      GroupRoundTrip(e.url, b, s[..3]);
      assert s[..3] == if e.padded then s[..3] else s;
    } else if |b| == 1 {
      GroupRoundTrip(e.url, b, s[..2]);
      assert s[..2] == if e.padded then s[..2] else s;
    }
  }

  /** Every encoding of every byte string is read back by its own decoder. */
  lemma RoundTrip(e: Encoding, b: seq<byte>)
    ensures Decode(e, Encode(e, b)) == Some(b)
  {
    EncodeHasNoNewlines(e, b);
    GroupsRoundTrip(e, b);
  }

  // ---- agreement ---------------------------------------------------------

  lemma GroupsAgree(u: bool, v: bool, g: string)
    requires 2 <= |g| <= 4
    requires Group(u, g).Some? && Group(v, g).Some?
    ensures Group(u, g) == Group(v, g)
  {
  }

  lemma {:induction false} DecodeGroupsAgree(d: Encoding, e: Encoding, s: string)
    requires DecodeGroups(d, s).Some? && DecodeGroups(e, s).Some?
    ensures DecodeGroups(d, s) == DecodeGroups(e, s)
  {
    if s == "" {
    } else if |s| < 4 {
      GroupsAgree(d.url, e.url, s);
    } else if s[3] == '=' {
      GroupsAgree(d.url, e.url, if s[2] == '=' then s[..2] else s[..3]);
    } else {
      GroupsAgree(d.url, e.url, s[..4]);
      DecodeGroupsAgree(d, e, s[4..]);
    }
  }

  /** Whenever two decoders accept a string they read the same bytes, so the order of the
      trials is immaterial. */
  lemma DecodersAgree(s: string, b: seq<byte>, d: Encoding)
    requires Decode(d, s) == Some(b)
    ensures forall e :: Decode(e, s).Some? ==> Decode(e, s) == Some(b)
  {
    forall e | Decode(e, s).Some? ensures Decode(e, s) == Some(b) {
      DecodeGroupsAgree(d, e, SkipNewlines(s));
    }
  }

  /** A non-empty byte field written in any of the four encodings is read as written. */
  lemma LenientRecovers(e: Encoding, b: seq<byte>)
    requires b != []
    ensures Lenient(Encode(e, b)) == Some(b)
  {
    RoundTrip(e, b);
    EncodeHasNoNewlines(e, b);
    DecodersAgree(Encode(e, b), b, e);
  }

  /** A published key is recovered whichever of the four encodings the agent chose, and
      nothing but a text some decoder reads as 32 bytes is taken for one. */
  lemma PublishedKeyRecovered(e: Encoding, b: seq<byte>)
    ensures PublishedKey(Encode(e, b)) == if |b| == KEY_SIZE then Some(b) else None
  {
    RoundTrip(e, b);
    DecodersAgree(Encode(e, b), b, e);
    if |b| == KEY_SIZE { assert IsKey(e, Encode(e, b)); }
  }
}

/** The texts the server writes and reads, letter by letter: base64, record identifiers, decimal
    numbers and the keys joined from them, with the alphabets spelled out. */
module TextForms {
  import opened Wrappers
  import opened Lex
  import Base64
  import Keys
  import Tid

  // ---- byte order --------------------------------------------------------

  lemma SameFirst(a: seq<int>, b: seq<int>, k: nat)
    requires 0 < k <= |a| && k <= |b| && a[..k] == b[..k]
    ensures a[0] == b[0]
  {
    assert a[0] == a[..k][0] == b[..k][0] == b[0];
  }

  /** The first difference decides, and a proper prefix comes first. */
  lemma {:induction false} LessMeans(a: seq<int>, b: seq<int>)
    ensures Less(a, b) <==>
            exists k :: 0 <= k <= |a| && k < |b| && a[..k] == b[..k] && (k == |a| || a[k] < b[k])
  {
    if a != [] && b != [] {
      LessMeans(a[1..], b[1..]);
      if a[0] == b[0] {
        if k :| 0 <= k <= |a| && k < |b| && a[..k] == b[..k] && (k == |a| || a[k] < b[k]) {
          assert k > 0;
          assert a[1..][..k - 1] == a[..k][1..] && b[1..][..k - 1] == b[..k][1..];
        }
        if k :| 0 <= k <= |a| - 1 && k < |b| - 1 && a[1..][..k] == b[1..][..k] && (k == |a| - 1 || a[1..][k] < b[1..][k]) {
          assert a[..k + 1] == [a[0]] + a[1..][..k] && b[..k + 1] == [b[0]] + b[1..][..k];
        }
      } else {
        assert a[..0] == b[..0];
        if k :| 0 <= k <= |a| && k < |b| && a[..k] == b[..k] && (k == |a| || a[k] < b[k]) {
          if k > 0 { SameFirst(a, b, k); }
        }
      }
    } else if b != [] {
      assert a[..0] == b[..0];
    }
  }

  // ---- base64 ------------------------------------------------------------

  /** The letters run from A to Z, a to z and 0 to 9; the last two depend on the alphabet. */
  lemma AlphabetRuns(url: bool, v: Base64.sextet)
    ensures Base64.Letter(url, 0) == 'A' && Base64.Letter(url, 25) == 'Z' && Base64.Letter(url, 26) == 'a' && Base64.Letter(url, 51) == 'z'
    ensures Base64.Letter(url, 52) == '0' && Base64.Letter(url, 61) == '9'
    ensures Base64.Letter(false, 62) == '+' && Base64.Letter(false, 63) == '/' && Base64.Letter(true, 62) == '-' && Base64.Letter(true, 63) == '_'
    ensures v < 61 && v != 25 && v != 51 ==> Base64.Letter(url, v + 1) as int == Base64.Letter(url, v) as int + 1
  {
  }

  /** From every third byte on the rest is encoded by itself, after four letters for each three. */
  lemma {:induction false} EncodedFrom(e: Base64.Encoding, b: seq<byte>, q: nat)
    requires 3 * q <= |b|
    ensures |Base64.Encode(e, b)| >= 4 * q && Base64.Encode(e, b)[4 * q..] == Base64.Encode(e, b[3 * q..])
  {
    if q == 0 {
      assert b[0..] == b;
    } else {
      EncodedFrom(e, b[3..], q - 1);
      assert b[3..][3 * (q - 1)..] == b[3 * q..];
      Peel(Base64.Encode(e, b), Base64.Encode(e, b[3..]), q);
    }
  }

  lemma Peel(s: string, rest: string, q: nat)
    requires q > 0 && |s| == 4 + |rest| && s[4..] == rest && |rest| >= 4 * (q - 1)
    ensures |s| >= 4 * q && s[4 * q..] == rest[4 * (q - 1)..]
  {
  }

  /** Three bytes are four letters, six bits each from the top; one or two bytes left over are two
      or three letters, filled up with zero bits, and padded to four if the encoding pads. */
  lemma Letters(e: Base64.Encoding, x: byte, y: byte, z: byte, rest: seq<byte>)
    ensures Base64.Encode(e, [x, y, z] + rest) ==
            [Base64.Letter(e.url, x / 4), Base64.Letter(e.url, x % 4 * 16 + y / 16),
             Base64.Letter(e.url, y % 16 * 4 + z / 64), Base64.Letter(e.url, z % 64)] + Base64.Encode(e, rest)
    ensures Base64.Encode(e, [x, y]) ==
            [Base64.Letter(e.url, x / 4), Base64.Letter(e.url, x % 4 * 16 + y / 16), Base64.Letter(e.url, y % 16 * 4)] + if e.padded then "=" else ""
    ensures Base64.Encode(e, [x]) == [Base64.Letter(e.url, x / 4), Base64.Letter(e.url, x % 4 * 16)] + if e.padded then "==" else ""
    ensures Base64.Encode(e, []) == ""
  {
    assert ([x, y, z] + rest)[3..] == rest;
  }

  /** Line feeds and carriage returns are skipped wherever they stand. */
  lemma {:induction false} LineBreaksAreSkipped(e: Base64.Encoding, a: string, c: char, b: string)
    requires c == '\n' || c == '\r'
    ensures Base64.SkipNewlines(a + [c] + b) == Base64.SkipNewlines(a + b)
    ensures Base64.Decode(e, a + [c] + b) == Base64.Decode(e, a + b)
  {
    if a == "" {
      assert a + [c] + b == [c] + b && a + b == b;
    } else {
      LineBreaksAreSkipped(e, a[1..], c, b);
      assert (a + [c] + b)[1..] == a[1..] + [c] + b && (a + b)[1..] == a[1..] + b;
    }
  }

  /** Nothing else is: a text that decodes has letters, padding and line breaks only. */
  lemma {:induction false} OnlyLetters(e: Base64.Encoding, s: string, i: nat)
    requires Base64.Decode(e, s).Some? && i < |s|
    ensures var c := s[i];
      || 'A' <= c <= 'Z' || 'a' <= c <= 'z' || '0' <= c <= '9' || c == '=' || c == '\n' || c == '\r'
      || (e.url && (c == '-' || c == '_')) || (!e.url && (c == '+' || c == '/'))
  {
    KeptUnlessBreak(s, i);
    if s[i] in Base64.SkipNewlines(s) { GroupsAreLetters(e, Base64.SkipNewlines(s), s[i]); }
  }

  lemma {:induction false} KeptUnlessBreak(s: string, i: nat)
    requires i < |s|
    ensures s[i] in Base64.SkipNewlines(s) || s[i] == '\n' || s[i] == '\r'
  {
    if i > 0 { KeptUnlessBreak(s[1..], i - 1); }
  }

  lemma {:induction false} GroupsAreLetters(e: Base64.Encoding, s: string, c: char)
    requires Base64.DecodeGroups(e, s).Some? && c in s
    ensures Base64.Value(e.url, c).Some? || c == '='
  {
    if |s| >= 4 {
      assert s == s[..4] + s[4..];
      if s[3] != '=' && c in s[4..] { GroupsAreLetters(e, s[4..], c); }
    }
  }

  /** The empty text stands for no bytes at all, and not for zero of them. */
  lemma EmptyIsNothing(e: Base64.Encoding)
    ensures Base64.Decode(e, "") == Some([]) && Base64.Lenient("") == None
  {
  }

  /** A published key has 32 bytes. */
  lemma PublishedKeyIs32(e: Base64.Encoding, b: seq<byte>)
    ensures Base64.PublishedKey(Base64.Encode(e, b)) == if |b| == 32 then Some(b) else None
  {
    Base64.PublishedKeyRecovered(e, b);
  }

  // ---- record identifiers ------------------------------------------------

  /** The place of a symbol: 2 to 7, then a to z. */
  function Place(c: char): int {
    if '2' <= c <= '7' then c as int - '2' as int else c as int - 'a' as int + 6
  }

  function Reading(s: string): int {
    if s == "" then 0 else Reading(s[..|s| - 1]) * 32 + Place(s[|s| - 1])
  }

  /** Thirteen symbols, read in base 32, are the identifier. */
  lemma {:induction false} TextReads(v: nat, n: nat)
    requires v < Tid.Power32(n)
    ensures Reading(Tid.Text(v, n)) == v
    ensures forall c :: c in Tid.Text(v, n) ==> '2' <= c <= '7' || 'a' <= c <= 'z'
  {
    if n > 0 {
      TextReads(v / 32, n - 1);
      var s := Tid.Text(v, n);
      assert s[..|s| - 1] == Tid.Text(v / 32, n - 1);
    }
  }

  /** The identifier carries the microsecond above its low ten bits, and its text is of the length
      the address needs. */
  lemma FirstOfMicrosecond(now: nat, clockId: nat)
    requires now > 0
    ensures Tid.Emit(clockId, Tid.After(0, now)) == now * 1024 + clockId % 1024 && Tid.TID_LENGTH == 13
    ensures Tid.Emit(clockId, Tid.After(now * 1024, now)) == now * 1024 + (clockId + 1) % 1024
  {
  }

  /** An address ends in thirteen symbols that read as the identifier. */
  lemma GameAddress(serviceDid: string, id: nat)
    requires id < Tid.Power32(13)
    ensures |Tid.GameUri(serviceDid, id)| >= 13
    ensures var uri := Tid.GameUri(serviceDid, id); var text := uri[|uri| - 13..];
      uri == "at://" + serviceDid + "/bot.plays.bot.game/" + text && Reading(text) == id
  {
    TextReads(id, 13);
    var text := Tid.Text(id, 13);
    var uri := Tid.GameUri(serviceDid, id);
    assert uri[|uri| - 13..] == text;
  }

  // ---- decimal numbers and joined keys -----------------------------------

  function Decimal(s: string): int {
    if s == "" then 0 else Decimal(s[..|s| - 1]) * 10 + (s[|s| - 1] as int - '0' as int)
  }

  lemma {:induction false} DigitsRead(n: nat)
    ensures Decimal(Keys.DecNat(n)) == n
  {
    var s := Keys.DecNat(n);
    if n >= 10 {
      DigitsRead(n / 10);
      assert s[..|s| - 1] == Keys.DecNat(n / 10);
    } else {
      assert s[..|s| - 1] == "";
    }
  }

  /** A number in the digits 0 to 9, after a minus sign if it is negative, without leading zeros. */
  lemma NumberReads(n: int)
    ensures n >= 0 ==> Decimal(Keys.Dec(n)) == n && forall c :: c in Keys.Dec(n) ==> '0' <= c <= '9'
    ensures n < 0 ==> Keys.Dec(n) != "" && Keys.Dec(n)[0] == '-' && Decimal(Keys.Dec(n)[1..]) == -n
    ensures n > 0 ==> Keys.Dec(n)[0] != '0'
  {
    if n >= 0 {
      DigitsRead(n);
      if n > 0 { NoLeadingZero(n); }
    } else {
      DigitsRead(-n);
      assert Keys.Dec(n)[1..] == Keys.DecNat(-n);
    }
  }

  lemma {:induction false} NoLeadingZero(n: nat)
    requires n > 0
    ensures Keys.DecNat(n)[0] != '0'
  {
    if n >= 10 { NoLeadingZero(n / 10); }
  }

  /** The associated data of a note on ply 12. */
  lemma AssociatedData(game: string, ply: int, player: string)
    ensures Keys.AAD(game, ply, player) == game + "|" + Keys.Dec(ply) + "|" + player
    ensures Keys.AAD("at://g", 12, "did:p") == "at://g|12|did:p"
  {
    assert Keys.DecNat(12) == Keys.DecNat(1) + ['2'];
    assert Keys.Dec(12) == "12";
  }

  lemma ThreeHundred()
    ensures Keys.Dec(300) == "300"
  {
    assert Keys.DecNat(30) == Keys.DecNat(3) + ['0'];
    assert Keys.DecNat(300) == Keys.DecNat(30) + ['0'];
  }

  /** The pool of games at five minutes a move. */
  lemma PoolOfChess(gameType: string, variant: string)
    ensures Keys.PoolKey(gameType, variant, "perMove", 300, true) == gameType + ":" + variant + ":" + "perMove300" + ":" + "rated"
    ensures Keys.PoolKey(gameType, variant, "perMove", 300, false) == gameType + ":" + variant + ":" + "perMove300" + ":" + "casual"
  {
    ThreeHundred();
    assert "perMove" + "300" == "perMove300";
  }
}

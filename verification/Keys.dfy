/** The string keys the server compares for equality: pool keys, cooldown keys and
    the associated data that binds a ciphertext to its game. */
module Keys {
  import opened Lex

  // ---- decimal rendering -------------------------------------------------

  function Digit(d: int): char
    requires 0 <= d < 10
  {
    ('0' as int + d) as char
  }

  function DecNat(n: nat): (s: string)
    ensures |s| > 0 && forall c :: c in s ==> '0' <= c <= '9'
  {
    if n < 10 then [Digit(n)] else DecNat(n / 10) + [Digit(n % 10)]
  }

  /** Decimal rendering of a signed integer. */
  function Dec(n: int): string {
    if n < 0 then "-" + DecNat(-n) else DecNat(n)
  }

  lemma {:induction false} DecNatInjective(m: nat, n: nat)
    requires DecNat(m) == DecNat(n)
    ensures m == n
  {
    var s := DecNat(m);
    var last := s[|s| - 1];
    assert last == Digit(m % 10) == Digit(n % 10);
    if m >= 10 && n >= 10 {
      assert DecNat(m / 10) == s[..|s| - 1] == DecNat(n / 10);
      DecNatInjective(m / 10, n / 10);
    }
  }

  lemma DecInjective(m: int, n: int)
    requires Dec(m) == Dec(n)
    ensures m == n
  {
    assert m >= 0 ==> Dec(m)[0] in DecNat(m);
    assert n >= 0 ==> Dec(n)[0] in DecNat(n);
    if m < 0 {
      assert Dec(m)[1..] == DecNat(-m) && Dec(n)[1..] == DecNat(-n);
      DecNatInjective(-m, -n);
    } else {
      DecNatInjective(m, n);
    }
  }

  lemma DecHasNo(n: int, c: char)
    requires c != '-' && !('0' <= c <= '9')
    ensures c !in Dec(n)
  {
  }

  // ---- splitting at a separator ------------------------------------------

  /** The last separator of a joined string is where the right part begins. */
  lemma LastSplit(x: string, y: string, x': string, y': string, c: char)
    requires c !in y && c !in y'
    requires x + [c] + y == x' + [c] + y'
    ensures x == x' && y == y'
  {
    var s := x + [c] + y;
    assert s[|x|] == c && s[|x'|] == c;
    assert forall k :: |x| < k < |s| ==> s[k] == y[k - |x| - 1];
    assert forall k :: |x'| < k < |s| ==> s[k] == y'[k - |x'| - 1];
    assert x == s[..|x|] && x' == s[..|x'|];
    assert y == s[|x| + 1..] && y' == s[|x'| + 1..];
  }

  /** The first separator of a joined string is where the left part ends. */
  lemma FirstSplit(x: string, y: string, x': string, y': string, c: char)
    requires c !in x && c !in x'
    requires x + [c] + y == x' + [c] + y'
    ensures x == x' && y == y'
  {
    var s := x + [c] + y;
    assert s[|x|] == c && s[|x'|] == c;
    assert forall k :: 0 <= k < |x| ==> s[k] == x[k];
    assert forall k :: 0 <= k < |x'| ==> s[k] == x'[k];
    assert x == s[..|x|] && x' == s[..|x'|];
    assert y == s[|x| + 1..] && y' == s[|x'| + 1..];
  }

  // ---- pool keys ---------------------------------------------------------

  /** A time control bucket: a per-move budget, or another kind by name. */
  function NormalizeTimeControl(kind: string, perMoveSeconds: int): string {
    if kind == "perMove" then "perMove" + Dec(perMoveSeconds) else kind
  }

  function PoolKey(gameType: string, variant: string, kind: string, perMoveSeconds: int, rated: bool): string {
    gameType + ":" + variant + ":" + NormalizeTimeControl(kind, perMoveSeconds) + ":" +
    (if rated then "rated" else "casual")
  }

  /** Two seeks that meet in a pool agree on everything a game is created from.  Game types
      are NSIDs, which hold no colon; the variant is free text and may hold any.  The clock
      admits only per-move time controls. */
  lemma PoolKeyInjective(g: string, v: string, s: int, r: bool, g': string, v': string, s': int, r': bool)
    requires ':' !in g && ':' !in g'
    requires PoolKey(g, v, "perMove", s, r) == PoolKey(g', v', "perMove", s', r')
    ensures g == g' && v == v' && s == s' && r == r'
  {
    var n, n' := NormalizeTimeControl("perMove", s), NormalizeTimeControl("perMove", s');
    var t, t' := if r then "rated" else "casual", if r' then "rated" else "casual";
    assert ':' !in t && ':' !in t';
    LastSplit(g + ":" + v + ":" + n, t, g' + ":" + v' + ":" + n', t', ':');
    DecHasNo(s, ':');
    DecHasNo(s', ':');
    assert ':' !in n && ':' !in n';
    LastSplit(g + ":" + v, n, g' + ":" + v', n', ':');
    FirstSplit(g, v, g', v', ':');
    assert n[7..] == Dec(s) && n'[7..] == Dec(s');
    DecInjective(s, s');
    assert r == r' by {
      assert "rated"[0] != "casual"[0];
    }
  }

  // ---- cooldown keys -----------------------------------------------------

  function CooldownKey(a: string, b: string): string {
    if StringLess(b, a) then b + "|" + a else a + "|" + b
  }

  /** A key stands for an unordered pair: the order of the arguments is immaterial, and
      two keys are equal only for the same two agents. */
  lemma CooldownKeyIsUnordered(a: string, b: string, c: string, d: string)
    ensures CooldownKey(a, b) == CooldownKey(b, a)
    ensures '|' !in a + b + c + d ==>
              (CooldownKey(a, b) == CooldownKey(c, d) <==> (a == c && b == d) || (a == d && b == c))
  {
    StringTrichotomy(a, b);
    StringTrichotomy(b, a);
    StringTrichotomy(c, d);
    StringTrichotomy(d, c);
    if '|' !in a + b + c + d && CooldownKey(a, b) == CooldownKey(c, d) {
      assert '|' !in a && '|' !in b && '|' !in c && '|' !in d;
      var x, y := if StringLess(b, a) then b else a, if StringLess(b, a) then a else b;
      var x', y' := if StringLess(d, c) then d else c, if StringLess(d, c) then c else d;
      FirstSplit(x, y, x', y', '|');
    }
  }

  // ---- associated data ---------------------------------------------------

  function AAD(gameUri: string, ply: int, playerDid: string): string {
    gameUri + "|" + Dec(ply) + "|" + playerDid
  }

  /** The associated data names one (game, ply, player); a DID holds no '|'. */
  lemma AADInjective(g: string, n: int, p: string, g': string, n': int, p': string)
    requires '|' !in p && '|' !in p'
    requires AAD(g, n, p) == AAD(g', n', p')
    ensures g == g' && n == n' && p == p'
  {
    LastSplit(g + "|" + Dec(n), p, g' + "|" + Dec(n'), p', '|');
    DecHasNo(n, '|');
    DecHasNo(n', '|');
    LastSplit(g, Dec(n), g', Dec(n'), '|');
    DecInjective(n, n');
  }
}

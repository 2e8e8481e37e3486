/** The JavaScript string and number primitives the two components rely on:
    `String.prototype.trim`, `String.prototype.toLowerCase`,
    `String.prototype.includes` and `Number.prototype.toString` on the
    integers returned by `Date.now()`, taken to be non-negative. Strings are
    sequences of code points. */
module JsString {

  /** The code points `trim` removes: ECMAScript's WhiteSpace production
      (tab, vertical tab, form feed, ZERO WIDTH NO-BREAK SPACE and every
      Unicode "Space_Separator") and its LineTerminator production. */
  const WhiteSpace: set<char> := {
    '\t', '\U{000B}', '\U{000C}', ' ', '\U{00A0}', '\U{FEFF}', '\U{1680}',
    '\U{2000}', '\U{2001}', '\U{2002}', '\U{2003}', '\U{2004}', '\U{2005}',
    '\U{2006}', '\U{2007}', '\U{2008}', '\U{2009}', '\U{200A}',
    '\U{202F}', '\U{205F}', '\U{3000}',
    '\n', '\r', '\U{2028}', '\U{2029}'
  }

  /** Every code point of `s` is in `ws` (this includes the empty string). */
  ghost predicate AllIn(s: string, ws: set<char>) {
    forall i :: 0 <= i < |s| ==> s[i] in ws
  }

  /** Every code point of `s` is white space. */
  ghost predicate IsBlank(s: string) {
    AllIn(s, WhiteSpace)
  }

  /** `s` with its leading code points from `ws` removed. */
  function TrimStart(s: string, ws: set<char>): (r: string)
    ensures |r| <= |s| && r == s[|s| - |r|..]
    ensures AllIn(s[..|s| - |r|], ws)
    ensures r == [] || r[0] !in ws
  {
    if s != [] && s[0] in ws then
      var r := TrimStart(s[1..], ws);
      DropFirstBlank(s, r, ws);
      r
    else
      s
  }

  /** `s` with its trailing code points from `ws` removed. */
  function TrimEnd(s: string, ws: set<char>): (r: string)
    ensures |r| <= |s| && r == s[..|r|]
    ensures AllIn(s[|r|..], ws)
    ensures r == [] || r[|r| - 1] !in ws
  {
    if s != [] && s[|s| - 1] in ws then
      var r := TrimEnd(s[..|s| - 1], ws);
      DropLastBlank(s, r, ws);
      r
    else
      s
  }

  /** A suffix `r` of `s[1..]` whose cut-off part is in `ws` is a suffix of
      `s` whose cut-off part is in `ws`, when `s[0]` is in `ws`. */
  lemma DropFirstBlank(s: string, r: string, ws: set<char>)
    requires s != [] && s[0] in ws
    requires |r| <= |s| - 1 && r == s[1..][|s| - 1 - |r|..]
    requires AllIn(s[1..][..|s| - 1 - |r|], ws)
    ensures r == s[|s| - |r|..]
    ensures AllIn(s[..|s| - |r|], ws)
  {
    var n := |s| - |r|;
    assert s[1..][..n - 1] == s[1..n];
    forall i | 0 <= i < n
      ensures s[..n][i] in ws
    {
      if i > 0 {
        assert s[..n][i] == s[1..n][i - 1];
      }
    }
  }

  /** A prefix `r` of `s[..|s| - 1]` whose cut-off part is in `ws` is a
      prefix of `s` whose cut-off part is in `ws`, when the last code point
      of `s` is in `ws`. */
  lemma DropLastBlank(s: string, r: string, ws: set<char>)
    requires s != [] && s[|s| - 1] in ws
    requires |r| <= |s| - 1 && r == s[..|s| - 1][..|r|]
    requires AllIn(s[..|s| - 1][|r|..], ws)
    ensures r == s[..|r|]
    ensures AllIn(s[|r|..], ws)
  {
    var n := |r|;
    assert s[..|s| - 1][n..] == s[n..|s| - 1];
    forall i | 0 <= i < |s| - n
      ensures s[n..][i] in ws
    {
      if i < |s| - 1 - n {
        assert s[n..][i] == s[n..|s| - 1][i];
      }
    }
  }

  /** `s` with the code points of `ws` removed from both ends; `s.trim()` is
      `Trim(s, WhiteSpace)`. */
  function Trim(s: string, ws: set<char>): string {
    TrimEnd(TrimStart(s, ws), ws)
  }

  /** `Trim` keeps the contiguous piece `s[a..b]` of `s`, everything it
      drops is in `ws`, and what it keeps neither starts nor ends with a code
      point of `ws`. */
  lemma TrimIsInfix(s: string, ws: set<char>) returns (a: nat, b: nat)
    ensures a <= b <= |s| && Trim(s, ws) == s[a..b]
    ensures AllIn(s[..a], ws) && AllIn(s[b..], ws)
    ensures Trim(s, ws) == [] || (Trim(s, ws)[0] !in ws && Trim(s, ws)[|Trim(s, ws)| - 1] !in ws)
  {
    var t := TrimStart(s, ws);
    var u := TrimEnd(t, ws);
    assert Trim(s, ws) == u;
    PrefixOfSuffix(s, t, u);
    a := |s| - |t|;
    b := a + |u|;
    assert u == s[a..b];
    assert AllIn(s[..a], ws);
    assert AllIn(s[b..], ws) by { assert AllIn(t[|u|..], ws); }
    assert u == [] || u[0] !in ws;
    assert u == [] || u[|u| - 1] !in ws;
  }

  /** A prefix `u` of a suffix `t` of `s` is a slice of `s`, and what
      follows `u` in `t` is what follows it in `s`. */
  lemma PrefixOfSuffix<T>(s: seq<T>, t: seq<T>, u: seq<T>)
    requires |t| <= |s| && t == s[|s| - |t|..]
    requires |u| <= |t| && u == t[..|u|]
    ensures u == s[|s| - |t|..|s| - |t| + |u|]
    ensures t[|u|..] == s[|s| - |t| + |u|..]
    ensures u != [] ==> u[0] == t[0]
  {
  }

  /** The guard `!s.trim()` of both components: trimming leaves nothing
      exactly when every code point of `s` is in `ws`. */
  lemma TrimEmptyIffBlank(s: string, ws: set<char>)
    ensures Trim(s, ws) == [] <==> AllIn(s, ws)
  {
    var t := TrimStart(s, ws);
    if Trim(s, ws) == [] {
      assert AllIn(t[0..], ws);
      assert s == s[..|s| - |t|] + t;
    }
  }

  /** `c.toLowerCase()` restricted to ASCII: `A`..`Z` map to `a`..`z`. */
  function LowerChar(c: char): char {
    if 'A' <= c <= 'Z' then (c as int + 32) as char else c
  }

  /** `s.toLowerCase()`, one code point at a time: capitals become the
      matching small letters and every other code point is kept. */
  function ToLower(s: string): (r: string)
    ensures |r| == |s|
    ensures forall i :: 0 <= i < |s| && !('A' <= s[i] <= 'Z') ==> r[i] == s[i]
    ensures forall i :: 0 <= i < |s| && 'A' <= s[i] <= 'Z' ==>
              'a' <= r[i] <= 'z' && r[i] as int - 'a' as int == s[i] as int - 'A' as int
  {
    seq(|s|, i requires 0 <= i < |s| => LowerChar(s[i]))
  }

  /** Lower-casing twice is the same as lower-casing once, and the result
      holds no upper-case ASCII letter. */
  lemma ToLowerIdempotent(s: string)
    ensures ToLower(ToLower(s)) == ToLower(s)
    ensures forall i :: 0 <= i < |s| ==> !('A' <= ToLower(s)[i] <= 'Z')
  {
  }

  /** `t` occurs in `s` starting at index `k`. */
  ghost predicate OccursAt(s: string, t: string, k: int) {
    0 <= k && k + |t| <= |s| && s[k..k + |t|] == t
  }

  /** `s.includes(t)`: tries every start position from the left. */
  function Includes(s: string, t: string): (r: bool)
    ensures r <==> exists k :: OccursAt(s, t, k)
  {
    if |t| > |s| then
      assert forall k :: !OccursAt(s, t, k);
      false
    else if s[..|t|] == t then
      assert OccursAt(s, t, 0);
      true
    else
      OccursShift(s, t);
      Includes(s[1..], t)
  }

  /** When `t` does not start `s`, it occurs in `s` exactly when it occurs
      in `s` without its first code point. */
  lemma OccursShift(s: string, t: string)
    requires |t| <= |s| && s[..|t|] != t
    ensures (exists k :: OccursAt(s, t, k)) <==> (exists k :: OccursAt(s[1..], t, k))
  {
    if k :| OccursAt(s[1..], t, k) {
      assert s[1..][k..k + |t|] == s[k + 1..k + 1 + |t|];
      assert OccursAt(s, t, k + 1);
    }
    if k :| OccursAt(s, t, k) {
      assert k != 0;
      assert s[1..][k - 1..k - 1 + |t|] == s[k..k + |t|];
      assert OccursAt(s[1..], t, k - 1);
    }
  }

  /** Every string includes the empty string. */
  lemma IncludesEmpty(s: string)
    ensures Includes(s, "")
  {
    assert OccursAt(s, "", 0);
  }

  /** The decimal digit for `d`. */
  function DigitChar(d: nat): (c: char)
    requires d < 10
    ensures '0' <= c <= '9'
  {
    ('0' as int + d) as char
  }

  /** `n.toString()` for a non-negative integer: its decimal digits, most
      significant first, without leading zeros. */
  function DecimalString(n: nat): (r: string)
    ensures |r| >= 1
    ensures forall i :: 0 <= i < |r| ==> '0' <= r[i] <= '9'
    ensures |r| > 1 ==> r[0] != '0'
    decreases n
  {
    if n < 10 then [DigitChar(n)] else DecimalString(n / 10) + [DigitChar(n % 10)]
  }

  /** The number a string of decimal digits denotes. */
  function DigitsValue(s: string): nat
    requires forall i :: 0 <= i < |s| ==> '0' <= s[i] <= '9'
  {
    if s == [] then 0
    else 10 * DigitsValue(s[..|s| - 1]) + (s[|s| - 1] as int - '0' as int)
  }

  /** Reading the digits `DecimalString` writes gives back the number, so
      distinct clock readings give distinct identifiers. */
  lemma {:induction false} DecimalStringRoundTrip(n: nat)
    ensures DigitsValue(DecimalString(n)) == n
    decreases n
  {
    if n >= 10 {
      var r := DecimalString(n);
      assert r[..|r| - 1] == DecimalString(n / 10);
      DecimalStringRoundTrip(n / 10);
    }
  }

  /** Different clock readings never share an id text. */
  lemma DecimalStringInjective(m: nat, n: nat)
    requires m != n
    ensures DecimalString(m) != DecimalString(n)
  {
    DecimalStringRoundTrip(m);
    DecimalStringRoundTrip(n);
  }
}

/** Character and string helpers shared by the scraper and the dashboard query:
    Python's `str.strip()`, `str.startswith`, `str.split('?')[0]`, and the
    case-insensitive matching of a Mongo `$regex` with option "i" restricted to
    literal terms. */
module Text {

  /** The code points for which Python's `str.isspace()` holds. */
  const SpaceCodes: set<int> := {
    9, 10, 11, 12, 13, 28, 29, 30, 31, 32, 0x85, 0xA0, 0x1680,
    0x2000, 0x2001, 0x2002, 0x2003, 0x2004, 0x2005, 0x2006, 0x2007, 0x2008, 0x2009, 0x200A,
    0x2028, 0x2029, 0x202F, 0x205F, 0x3000 }

  /** Python's `str.isspace()` for one character. */
  predicate IsSpace(c: char)
    ensures c == ' ' || c == '\t' || c == '\n' || c == '\r' ==> IsSpace(c)
  {
    c as int in SpaceCodes
  }

  /** The end of the run of whitespace in `s` that starts at `k`. */
  function SpaceRunEnd(s: string, k: nat): (n: nat)
    requires k <= |s|
    ensures k <= n <= |s|
    ensures forall i :: k <= i < n ==> IsSpace(s[i])
    ensures n == |s| || !IsSpace(s[n])
    decreases |s| - k
  {
    if k < |s| && IsSpace(s[k]) then SpaceRunEnd(s, k + 1) else k
  }

  /** The start of the run of whitespace in `s` that ends at `k`, not going below `lo`. */
  function SpaceRunStart(s: string, lo: nat, k: nat): (m: nat)
    requires lo <= k <= |s|
    ensures lo <= m <= k
    ensures forall i :: m <= i < k ==> IsSpace(s[i])
    ensures m == lo || !IsSpace(s[m - 1])
  {
    if lo < k && IsSpace(s[k - 1]) then SpaceRunStart(s, lo, k - 1) else k
  }

  /** Python's `s.strip()`: the text between the leading and the trailing whitespace. */
  function Strip(s: string): (r: string)
    ensures |r| <= |s|
    ensures r == [] || (!IsSpace(r[0]) && !IsSpace(r[|r| - 1]))
    ensures r == [] <==> forall i :: 0 <= i < |s| ==> IsSpace(s[i])
    ensures exists a :: MiddleAt(s, r, a)
  {
    var a := SpaceRunEnd(s, 0);
    var b := SpaceRunStart(s, a, |s|);
    assert MiddleAt(s, s[a..b], a);
    s[a..b]
  }

  /** `r` is the piece of `s` starting at `a`, with only whitespace before and after it. */
  predicate MiddleAt(s: string, r: string, a: int) {
    && 0 <= a && a + |r| <= |s| && r == s[a..a + |r|]
    && (forall i :: 0 <= i < a ==> IsSpace(s[i]))
    && (forall i :: a + |r| <= i < |s| ==> IsSpace(s[i]))
  }

  /** Stripping text that has no surrounding whitespace leaves it as it is. */
  lemma {:induction false} StripIdempotent(s: string)
    ensures Strip(Strip(s)) == Strip(s)
  {
    var r := Strip(s);
    if r != [] {
      assert SpaceRunEnd(r, 0) == 0;
      assert SpaceRunStart(r, 0, |r|) == |r|;
    }
  }

  /** Python's `s.split('?')[0]`: everything before the first '?', or all of `s`. */
  function BeforeQuery(s: string): (r: string)
    ensures '?' !in r
    ensures r <= s
    ensures r == s || s[|r|] == '?'
    ensures '?' !in s ==> r == s
  {
    if s == [] then []
    else if s[0] == '?' then []
    else [s[0]] + BeforeQuery(s[1..])
  }

  /** Python's `s.startswith(p)`. */
  predicate StartsWith(s: string, p: string) {
    p <= s
  }

  /** ASCII lower-casing of one character; other characters are left alone. */
  function Lower(c: char): char {
    if 'A' <= c <= 'Z' then (c as int + 32) as char else c
  }

  /** ASCII lower-casing of a string: no upper-case ASCII letter is left, each one is
      replaced by its lower-case letter, and every other character is kept. */
  function LowerStr(s: string): (r: string)
    ensures |r| == |s|
    ensures forall i :: 0 <= i < |r| ==> !('A' <= r[i] <= 'Z')
    ensures forall i :: 0 <= i < |s| && !('A' <= s[i] <= 'Z') ==> r[i] == s[i]
    ensures forall i :: 0 <= i < |s| && 'A' <= s[i] <= 'Z' ==> r[i] as int == s[i] as int + 32
  {
    seq(|s|, i requires 0 <= i < |s| => Lower(s[i]))
  }

  /** `t` occurs in `h` as a contiguous piece. */
  predicate IsInfix(t: string, h: string) {
    exists i :: 0 <= i <= |h| - |t| && OccursAt(t, h, i)
  }

  predicate OccursAt(t: string, h: string, i: int) {
    0 <= i <= |h| - |t| && h[i..i + |t|] == t
  }

  /** A Mongo `$regex` match with option "i" of a literal term `t` against field text `h`. */
  predicate ContainsCI(h: string, t: string)
    ensures t == [] ==> ContainsCI(h, t)
    ensures ContainsCI(h, t) ==> |t| <= |h|
  {
    assert t == [] ==> OccursAt(LowerStr(t), LowerStr(h), 0);
    IsInfix(LowerStr(t), LowerStr(h))
  }

  /** Two characters that are equal once case is ignored. */
  predicate SameLetterCI(a: char, b: char) {
    Lower(a) == Lower(b)
  }

  /** Reference definition: some window of `h` agrees with `t` character by character, ignoring case. */
  predicate MatchesAtCI(h: string, t: string, i: int) {
    0 <= i <= |h| - |t| && forall j :: 0 <= j < |t| ==> SameLetterCI(h[i + j], t[j])
  }

  /** The lower-case-then-search definition agrees with the character-by-character reference. */
  lemma ContainsCIIsWindowMatch(h: string, t: string)
    ensures ContainsCI(h, t) <==> exists i :: MatchesAtCI(h, t, i)
  {
    var lh, lt := LowerStr(h), LowerStr(t);
    if ContainsCI(h, t) {
      var i :| 0 <= i <= |lh| - |lt| && OccursAt(lt, lh, i);
      assert lh[i..i + |lt|] == lt;
      forall j | 0 <= j < |t| ensures SameLetterCI(h[i + j], t[j]) {
        assert lh[i..i + |lt|][j] == lt[j];
      }
      assert MatchesAtCI(h, t, i);
    }
    if i :| MatchesAtCI(h, t, i) {
      assert lh[i..i + |lt|] == lt by {
        forall j | 0 <= j < |lt| ensures lh[i..i + |lt|][j] == lt[j] {
          assert SameLetterCI(h[i + j], t[j]);
        }
      }
      assert OccursAt(lt, lh, i);
    }
  }

  /** Lower-casing the search term first does not change what it matches. */
  lemma ContainsCILowerTerm(h: string, t: string)
    ensures ContainsCI(h, LowerStr(t)) <==> ContainsCI(h, t)
  {
    assert LowerStr(LowerStr(t)) == LowerStr(t);
  }
}

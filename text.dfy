/**
 * The string primitives the store relies on: ASCII lower-casing, the first
 * occurrence of a substring (`indexOf`, `replace` with a string pattern) and
 * the relational `>` of JavaScript strings.
 */
module Text {
  import opened Wrappers

  /** Lower-case one character (ASCII letters only). */
  function LowerChar(c: char): (r: char) {
    if 'A' <= c <= 'Z' then (c as int + 32) as char else c
  }

  /** `String.prototype.toLowerCase`, restricted to ASCII letters. */
  function Lower(s: string): (r: string)
    ensures |r| == |s|
    ensures forall i :: 0 <= i < |s| ==> r[i] == LowerChar(s[i])
  {
    seq(|s|, i requires 0 <= i < |s| => LowerChar(s[i]))
  }

  /** `p` occurs in `s` starting at index `j`. */
  predicate OccursAt(s: string, p: string, j: nat) {
    j + |p| <= |s| && s[j..j + |p|] == p
  }

  /** `s` begins with `p`. */
  predicate StartsWith(s: string, p: string) {
    |p| <= |s| && s[..|p|] == p
  }

  /** The first index at or after `k` where `p` occurs in `s`. */
  function FirstIndexFrom(s: string, p: string, k: nat): (r: Option<nat>)
    requires k <= |s|
    ensures r.Some? ==> k <= r.value && OccursAt(s, p, r.value)
    ensures r.Some? ==> forall j :: k <= j < r.value ==> !OccursAt(s, p, j)
    ensures r.None? ==> forall j :: k <= j <= |s| ==> !OccursAt(s, p, j)
    decreases |s| - k
  {
    if OccursAt(s, p, k) then Some(k)
    else if k == |s| then None
    else FirstIndexFrom(s, p, k + 1)
  }

  /** `s.indexOf(p)`: the least index where `p` occurs (None for -1). */
  function FirstIndex(s: string, p: string): (r: Option<nat>)
    ensures r.Some? ==> OccursAt(s, p, r.value)
    ensures r.Some? ==> forall j :: 0 <= j < r.value ==> !OccursAt(s, p, j)
    ensures r.None? ==> forall j :: 0 <= j <= |s| ==> !OccursAt(s, p, j)
  {
    FirstIndexFrom(s, p, 0)
  }

  /** `s.indexOf(p) === 0` holds exactly when `s` starts with `p`. */
  lemma IndexOfZeroIsPrefix(s: string, p: string)
    ensures FirstIndex(s, p) == Some(0) <==> StartsWith(s, p)
  {
  }

  /** `s.replace(p, '')`: delete the first occurrence of `p`, if any. */
  function ReplaceFirst(s: string, p: string): (r: string)
    ensures FirstIndex(s, p).None? ==> r == s
    ensures FirstIndex(s, p).Some? ==> |r| == |s| - |p|
  {
    match FirstIndex(s, p)
    case None => s
    case Some(i) => s[..i] + s[i + |p|..]
  }

  /** Deleting the first occurrence of a prefix leaves the rest. */
  lemma ReplaceFirstOfPrefix(p: string, t: string)
    ensures ReplaceFirst(p + t, p) == t
  {
  }

  /** JavaScript's `a > b` on strings: lexicographic on characters. */
  function LexGreater(a: string, b: string): (r: bool)
    decreases |a|
  {
    if |a| == 0 then false
    else if |b| == 0 then true
    else if a[0] != b[0] then a[0] > b[0]
    else LexGreater(a[1..], b[1..])
  }

  lemma {:induction false} LexIrreflexive(a: string)
    ensures !LexGreater(a, a)
    decreases |a|
  {
    if |a| > 0 { LexIrreflexive(a[1..]); }
  }

  lemma {:induction false} LexTransitive(a: string, b: string, c: string)
    requires LexGreater(a, b) && LexGreater(b, c)
    ensures LexGreater(a, c)
    decreases |a|
  {
    if |c| > 0 && a[0] == b[0] && b[0] == c[0] {
      LexTransitive(a[1..], b[1..], c[1..]);
    }
  }

  /** Two different strings are always ordered one way or the other. */
  lemma {:induction false} LexTotal(a: string, b: string)
    requires a != b
    ensures LexGreater(a, b) || LexGreater(b, a)
    decreases |a|
  {
    if |a| > 0 && |b| > 0 && a[0] == b[0] {
      assert a == [a[0]] + a[1..] && b == [b[0]] + b[1..];
      LexTotal(a[1..], b[1..]);
    }
  }

  /**
   * Comparing two strings of equal length extended by one character each:
   * the prefixes decide, and the last characters break a tie.
   */
  lemma {:induction false} LexAppend(u: string, v: string, c: char, d: char)
    requires |u| == |v|
    ensures LexGreater(u + [c], v + [d]) <==> LexGreater(u, v) || (u == v && c > d)
    decreases |u|
  {
    if |u| == 0 {
      assert u + [c] == [c] && v + [d] == [d];
    } else {
      assert (u + [c])[1..] == u[1..] + [c];
      assert (v + [d])[1..] == v[1..] + [d];
      LexAppend(u[1..], v[1..], c, d);
      if u[0] == v[0] {
        assert u == v <==> u[1..] == v[1..] by {
          if u[1..] == v[1..] { assert u == [u[0]] + u[1..] && v == [v[0]] + v[1..]; }
        }
      }
    }
  }
}

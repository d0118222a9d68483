/** The two operations of Go's `strings` package that the output policy
    uses: `strings.Index` and `strings.Replace` with a count of one. */
module Text {

  /** `pat` occurs in `s` starting at position `p`. */
  predicate OccursAt(s: string, pat: string, p: int) {
    0 <= p && p + |pat| <= |s| && s[p..p + |pat|] == pat
  }

  lemma OccursAtTail(s: string, pat: string, q: int)
    requires |s| > 0 && q >= 0
    ensures OccursAt(s, pat, q + 1) <==> OccursAt(s[1..], pat, q)
  {
    if q + 1 + |pat| <= |s| {
      assert s[q + 1..q + 1 + |pat|] == s[1..][q..q + |pat|];
    }
  }

  /** `strings.Index`: the position of the first occurrence of `pat` in
      `s`, or -1 when there is none. The empty pattern occurs at 0. */
  function Index(s: string, pat: string): (r: int)
    ensures -1 <= r <= |s|
    ensures r >= 0 ==> OccursAt(s, pat, r)
    ensures r >= 0 ==> forall q :: 0 <= q < r ==> !OccursAt(s, pat, q)
    ensures r == -1 <==> forall q :: 0 <= q <= |s| ==> !OccursAt(s, pat, q)
    decreases |s|
  {
    if |pat| > |s| then -1
    else if s[..|pat|] == pat then
      assert OccursAt(s, pat, 0);
      0
    else
      var k := Index(s[1..], pat);
      assert !OccursAt(s, pat, 0);
      assert forall q :: 1 <= q ==> (OccursAt(s, pat, q) <==> OccursAt(s[1..], pat, q - 1)) by {
        forall q | 1 <= q ensures OccursAt(s, pat, q) <==> OccursAt(s[1..], pat, q - 1) {
          OccursAtTail(s, pat, q - 1);
        }
      }
      if k < 0 then -1 else k + 1
  }

  /** A first occurrence is the one `Index` finds. */
  lemma IndexFirst(s: string, pat: string, p: int)
    requires OccursAt(s, pat, p)
    requires forall q :: 0 <= q < p ==> !OccursAt(s, pat, q)
    ensures Index(s, pat) == p
  {
    var r := Index(s, pat);
    assert r != -1 by {
      assert p <= |s|;
    }
    assert !(r < p);
    assert !(p < r);
  }

  /** `strings.Replace(s, pat, repl, 1)`: the first occurrence of `pat` is
      replaced by `repl`; without one, `s` is returned unchanged. */
  function ReplaceOnce(s: string, pat: string, repl: string): (r: string)
    ensures (forall q :: 0 <= q <= |s| ==> !OccursAt(s, pat, q)) ==> r == s
    ensures forall p :: OccursAt(s, pat, p) && (forall q :: 0 <= q < p ==> !OccursAt(s, pat, q))
                        ==> r == s[..p] + repl + s[p + |pat|..]
  {
    var k := Index(s, pat);
    if k < 0 then s else s[..k] + repl + s[k + |pat|..]
  }
}

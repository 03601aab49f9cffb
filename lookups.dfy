/** The case-insensitive field lookups used by the user search:
    `iexact` (equal ignoring case) and `icontains` (substring ignoring case).
    Case is folded on ASCII letters only. */
module Lookups {

  function Lower(c: char): char {
    if 'A' <= c <= 'Z' then (c as int + 32) as char else c
  }

  function LowerStr(s: string): string {
    seq(|s|, i requires 0 <= i < |s| => Lower(s[i]))
  }

  /** `needle` occurs in `hay` starting at position `k`. */
  predicate OccursAt(needle: string, hay: string, k: int) {
    0 <= k && k + |needle| <= |hay| && hay[k..k + |needle|] == needle
  }

  /** `value__iexact=query` */
  predicate IExact(value: string, query: string) {
    LowerStr(value) == LowerStr(query)
  }

  /** `value__icontains=query` */
  predicate IContains(value: string, query: string) {
    exists k | 0 <= k <= |value| :: OccursAt(LowerStr(query), LowerStr(value), k)
  }

  /** The empty query is contained in every value. */
  lemma ContainsEmpty(value: string)
    ensures IContains(value, "")
  {
    assert OccursAt(LowerStr(""), LowerStr(value), 0);
  }

  /** A value equal to the query (ignoring case) contains it. */
  lemma ExactIsContained(value: string, query: string)
    ensures IExact(value, query) ==> IContains(value, query)
  {
    if IExact(value, query) {
      assert OccursAt(LowerStr(query), LowerStr(value), 0);
    }
  }

  /** A value equal to the query (ignoring case) contains every part of the query. */
  lemma ExactThenContains(value: string, query: string, term: string)
    requires IExact(value, query) && IContains(query, term)
    ensures IContains(value, term)
  {
  }

  /** An occurrence inside an occurrence is an occurrence. */
  lemma OccursWithin(t: string, q: string, v: string, k: int, m: int)
    requires OccursAt(q, v, k) && OccursAt(t, q, m)
    ensures OccursAt(t, v, k + m)
  {
    forall i | m <= i < m + |t|
      ensures v[k + i] == q[i]
    {
      assert v[k..k + |q|][i] == v[k + i];
    }
    assert v[k + m..k + m + |t|] == t;
  }

  /** Containment ignoring case is transitive. */
  lemma ContainsTransitive(value: string, query: string, term: string)
    requires IContains(value, query) && IContains(query, term)
    ensures IContains(value, term)
  {
    var v, q, t := LowerStr(value), LowerStr(query), LowerStr(term);
    var k :| 0 <= k <= |value| && OccursAt(q, v, k);
    var m :| 0 <= m <= |query| && OccursAt(t, q, m);
    OccursWithin(t, q, v, k, m);
    assert 0 <= k + m <= |value|;
  }
}

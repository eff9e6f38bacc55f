/** Occurrences of one string in another. */
module Text {

  predicate OccursAt(s: string, sub: string, i: int) { 0 <= i <= |s| && sub <= s[i..] }

  predicate Contains(s: string, sub: string) { exists i | 0 <= i <= |s| :: OccursAt(s, sub, i) }

  lemma ContainsInside(before: string, s: string, after: string, sub: string)
    requires Contains(s, sub)
    ensures Contains(before + s + after, sub)
  {
    var i :| 0 <= i <= |s| && OccursAt(s, sub, i);
    var t := before + s + after;
    assert t[|before| + i..] == s[i..] + after;
    assert OccursAt(t, sub, |before| + i);
  }

  lemma ContainsTransitive(s: string, t: string, sub: string)
    requires Contains(s, t) && Contains(t, sub)
    ensures Contains(s, sub)
  {
    var i :| 0 <= i <= |s| && OccursAt(s, t, i);
    assert s == s[..i] + t + s[i + |t|..] by { assert s[i..] == t + s[i..][|t|..]; }
    ContainsInside(s[..i], t, s[i + |t|..], sub);
  }

  lemma ContainsSelf(s: string)
    ensures Contains(s, s)
  {
    assert s[0..] == s;
    assert OccursAt(s, s, 0);
  }

  lemma PrefixIsContained(s: string, sub: string)
    requires sub <= s
    ensures Contains(s, sub)
  {
    assert s[0..] == s;
    assert OccursAt(s, sub, 0);
  }

  lemma ShorterDoesNotContain(s: string, sub: string)
    requires |s| < |sub|
    ensures !Contains(s, sub)
  {
  }

  lemma ContainsCharacters(s: string, sub: string)
    requires Contains(s, sub)
    ensures forall c <- sub :: c in s
  {
    var i :| 0 <= i <= |s| && OccursAt(s, sub, i);
    forall c | c in sub ensures c in s {
      var k :| 0 <= k < |sub| && sub[k] == c;
      assert s[i..][k] == s[i + k] == c;
    }
  }
}

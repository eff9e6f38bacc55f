/**
  Which messages to try to know what redaction leaves behind: a spelling that is left after the
  passes over some message is left after the passes over one of finitely many, each a chain of
  spellings where every one is followed by what its mask does not supply of the next.
*/
module RedactionTrials {
  import opened RedactionModel
  import opened Secrets
  import opened Text

  // ---- the text after the last mask character ----

  function Tail(s: string): string {
    if s == "" || s[|s| - 1] == BULLET then "" else Tail(s[..|s| - 1]) + [s[|s| - 1]]
  }

  predicate EndsMasked(s: string) { s == "" || s[|s| - 1] == BULLET }

  lemma {:induction false} TailIsEnd(s: string) returns (x: string)
    ensures s == x + Tail(s) && EndsMasked(x) && BULLET !in Tail(s)
  {
    if EndsMasked(s) {
      x := s;
      assert s == s + "";
    } else {
      x := TailIsEnd(s[..|s| - 1]);
      assert s == s[..|s| - 1] + [s[|s| - 1]];
    }
  }

  lemma TailOf(x: string, t: string)
    requires EndsMasked(x) && BULLET !in t
    ensures Tail(x + t) == t
  {
    var s := x + t;
    var y := TailIsEnd(s);
    assert s[|x|..] == t && s[|y|..] == Tail(s);
    assert forall i :: |y| <= i < |s| ==> s[i] == Tail(s)[i - |y|];
    assert forall i :: |x| <= i < |s| ==> s[i] == t[i - |x|];
    assert |x| > 0 ==> s[|x| - 1] == BULLET;
    assert |y| > 0 ==> s[|y| - 1] == BULLET;
    assert |x| == |y|;
  }

  lemma TailGrows(x: string, u: string)
    requires BULLET !in u
    ensures Tail(x + u) == Tail(x) + u
  {
    hide Tail;
    var y := TailIsEnd(x);
    assert x + u == y + (Tail(x) + u);
    TailOf(y, Tail(x) + u);
  }

  lemma TailOfRest(x: string, y: string)
    requires EndsMasked(x) || BULLET in y
    ensures Tail(x + y) == Tail(y)
  {
    hide Tail;
    var z := TailIsEnd(y);
    assert x + y == (x + z) + Tail(y);
    if z == "" { assert x + z == x && y == Tail(y); }
    TailOf(x + z, Tail(y));
  }

  // ---- a pass works on the text between mask characters ----

  /** A mask as it is shown: the mask characters and at most four of the credential. */
  predicate IsMask(mask: string) { MASK_PREFIX <= mask && |mask| <= 12 && BULLET !in mask[8..] }

  predicate Regular(f: SecretForm) { WellFormed(f) && IsMask(f.mask) && |f.text| >= 4 }

  predicate AllRegular(forms: seq<SecretForm>) { forall i :: 0 <= i < |forms| ==> Regular(forms[i]) }

  lemma TailOfMask(mask: string, r: nat)
    requires IsMask(mask) && 0 < r <= |mask|
    ensures Tail(mask[..r]) == if r <= 8 then "" else mask[8..r]
  {
    assert forall i :: 0 <= i < 8 ==> mask[i] == BULLET;
    if r <= 8 {
      assert EndsMasked(mask[..r]);
    } else {
      assert mask[..r] == MASK_PREFIX + mask[8..r];
      assert forall c <- mask[8..r] :: c in mask[8..];
      TailOf(MASK_PREFIX, mask[8..r]);
    }
  }

  lemma MatchFirst(rest: string, g: SecretForm)
    ensures ReplaceAll(g.text + rest, g.text, g.mask) == g.mask + ReplaceAll(rest, g.text, g.mask)
  {
    assert (g.text + rest)[|g.text|..] == rest;
  }

  lemma SkipFirst(s: string, g: SecretForm)
    requires s != "" && !(g.text <= s)
    ensures ReplaceAll(s, g.text, g.mask) == [s[0]] + ReplaceAll(s[1..], g.text, g.mask)
  {
  }

  lemma {:induction false} PassSplits(x: string, y: string, g: SecretForm)
    requires WellFormed(g) && EndsMasked(x)
    ensures ReplaceAll(x + y, g.text, g.mask) == ReplaceAll(x, g.text, g.mask) + ReplaceAll(y, g.text, g.mask)
    ensures EndsMasked(ReplaceAll(x, g.text, g.mask)) && (x != "" ==> ReplaceAll(x, g.text, g.mask) != "")
    decreases |x|
  {
    hide ReplaceAll;
    if x == "" {
      assert x + y == y;
      NothingToReplace(g);
    } else if g.text <= x + y {
      FitsBefore(x, y, g);
      var rest := x[|g.text|..];
      assert x == g.text + rest && x + y == g.text + (rest + y);
      MatchFirst(rest, g);
      MatchFirst(rest + y, g);
      PassSplits(rest, y, g);
    } else {
      assert (x + y)[1..] == x[1..] + y;
      assert g.text <= x ==> g.text <= x + y;
      SkipFirst(x, g);
      SkipFirst(x + y, g);
      PassSplits(x[1..], y, g);
    }
  }

  lemma NothingToReplace(g: SecretForm)
    ensures ReplaceAll("", g.text, g.mask) == ""
  {
  }

  /** A spelling at the start of a text is over before the next mask character. */
  lemma FitsBefore(x: string, y: string, g: SecretForm)
    requires WellFormed(g) && x != "" && EndsMasked(x) && g.text <= x + y
    ensures |g.text| < |x| && EndsMasked(x[|g.text|..])
  {
    assert forall i :: 0 <= i < |g.text| ==> g.text[i] == (x + y)[i];
    assert (x + y)[|x| - 1] == BULLET;
  }

  /** The text after the last mask character decides what it is after a pass. */
  lemma TailOfPass(s: string, g: SecretForm)
    requires WellFormed(g)
    ensures Tail(ReplaceAll(s, g.text, g.mask)) == Tail(ReplaceAll(Tail(s), g.text, g.mask))
  {
    var x := TailIsEnd(s);
    PassSplits(x, Tail(s), g);
    TailOfRest(ReplaceAll(x, g.text, g.mask), ReplaceAll(Tail(s), g.text, g.mask));
  }

  /** Where the last replacement is, and what comes after it. */
  lemma {:induction false} LastMatch(s: string, g: SecretForm) returns (c: string, u: string)
    requires Regular(g) && BULLET !in s && Contains(s, g.text)
    ensures s == c + g.text + u && !Contains(u, g.text)
    ensures BULLET in ReplaceAll(s, g.text, g.mask) && Tail(ReplaceAll(s, g.text, g.mask)) == Tail(g.mask) + u
    decreases |s|
  {
    hide Contains, Tail, ReplaceAll;
    if g.text <= s {
      var rest := s[|g.text|..];
      assert s == g.text + rest;
      if Contains(rest, g.text) {
        c, u := LastMatch(rest, g);
        TailOfRest(g.mask, ReplaceAll(rest, g.text, g.mask));
        MatchFirst(rest, g);
        c := g.text + c;
      } else {
        c, u := "", rest;
        MatchAtStart(rest, g);
      }
    } else {
      NotAtStart(s, g.text);
      c, u := LastMatch(s[1..], g);
      TailOfRest([s[0]], ReplaceAll(s[1..], g.text, g.mask));
      SkipFirst(s, g);
      c := [s[0]] + c;
      assert s == [s[0]] + s[1..];
    }
  }

  lemma NotAtStart(s: string, sub: Spelling)
    requires Contains(s, sub) && !(sub <= s)
    ensures s != "" && Contains(s[1..], sub)
  {
    var i :| 0 <= i <= |s| && OccursAt(s, sub, i);
    assert s[0..] == s;
    assert s[1..][i - 1..] == s[i..];
    assert OccursAt(s[1..], sub, i - 1);
  }

  /** A spelling is replaced at the start of the text that follows a mask character. */
  lemma MatchAtStart(u: string, g: SecretForm)
    requires Regular(g) && BULLET !in u && !Contains(u, g.text)
    ensures BULLET in ReplaceAll(g.text + u, g.text, g.mask)
    ensures Tail(ReplaceAll(g.text + u, g.text, g.mask)) == Tail(g.mask) + u
  {
    MatchFirst(u, g);
    assert g.mask[0] == BULLET;
    ReplaceNothing(u, g.text, g.mask);
    TailGrows(g.mask, u);
  }

  /** A pass that finds nothing in the tail leaves it. */
  lemma QuietPass(s: string, g: SecretForm, w: string)
    requires Regular(g) && Tail(s) == w && !Contains(w, g.text)
    ensures Tail(ReplaceAll(s, g.text, g.mask)) == w
  {
    var x := TailIsEnd(s);
    TailOfPass(s, g);
    ReplaceNothing(w, g.text, g.mask);
    TailOf("", w);
    assert "" + w == w;
  }

  lemma RegularShape(g: SecretForm)
    requires Regular(g)
    ensures WellFormed(g) && IsMask(g.mask) && 8 <= |g.mask| <= 12 && |g.text| >= 4
  {
  }

  // ---- cutting a message short ----

  /** A beginning of the output comes from a beginning of the input, but for a mask cut off. */
  lemma {:induction false} CutPass(m: string, g: SecretForm, q: nat) returns (e: nat, r: nat)
    requires WellFormed(g) && q <= |ReplaceAll(m, g.text, g.mask)|
    ensures e <= |m| && r < |g.mask|
    ensures ReplaceAll(m, g.text, g.mask)[..q] == ReplaceAll(m[..e], g.text, g.mask) + g.mask[..r]
    decreases |m|
  {
    hide ReplaceAll;
    e, r := 0, 0;
    NothingToReplace(g);
    if q > 0 && g.text <= m {
      var rest := m[|g.text|..];
      assert m == g.text + rest;
      MatchFirst(rest, g);
      if q < |g.mask| { return 0, q; }
      e, r := CutPass(rest, g, q - |g.mask|);
      assert m[..|g.text| + e] == g.text + rest[..e];
      MatchFirst(rest[..e], g);
      e := |g.text| + e;
    } else if q > 0 {
      assert m != "";
      SkipFirst(m, g);
      e, r := CutPass(m[1..], g, q - 1);
      assert m[..1 + e][1..] == m[1..][..e];
      assert g.text <= m[..1 + e] ==> g.text <= m;
      SkipFirst(m[..1 + e], g);
      e := 1 + e;
    }
  }

  lemma LongTailIsNoMask(x: string, g: SecretForm, r: nat)
    requires Regular(g) && r < |g.mask| && |Tail(x + g.mask[..r])| >= 4
    ensures r == 0
  {
    if r > 0 {
      assert g.mask[..r][0] == BULLET;
      TailOfRest(x, g.mask[..r]);
      TailOfMask(g.mask, r);
    }
  }

  lemma PassLeavesLong(s: string, g: SecretForm)
    requires Regular(g) && |Tail(ReplaceAll(s, g.text, g.mask))| >= 4
    ensures |Tail(s)| >= 4
  {
    if !Contains(Tail(s), g.text) {
      var x := TailIsEnd(s);
      QuietPass(s, g, Tail(s));
    }
  }

  /** The text from a mask character up to any point is the end of the output of some other message. */
  lemma {:induction false} Cut(msg: string, forms: seq<SecretForm>, a: string) returns (m: string)
    requires AllRegular(forms) && a <= Passes(msg, forms) && |Tail(a)| >= 4
    ensures Tail(Passes(m, forms)) == Tail(a)
    decreases |forms|
  {
    hide Tail, ReplaceAll, Regular;
    m := a;
    if forms != [] {
      var n := |forms| - 1;
      var g, before := forms[n], Passes(msg, forms[..n]);
      assert Regular(g) && AllRegular(forms[..n]);
      RegularShape(g);
      var e, r := CutPass(before, g, |a|);
      assert Passes(msg, forms)[..|a|] == a;
      LongTailIsNoMask(ReplaceAll(before[..e], g.text, g.mask), g, r);
      assert a == ReplaceAll(before[..e], g.text, g.mask);
      PassLeavesLong(before[..e], g);
      m := Cut(msg, forms[..n], before[..e]);
      SameTailSamePass(Passes(m, forms[..n]), before[..e], g);
    }
  }

  lemma SameTailSamePass(s: string, t: string, g: SecretForm)
    requires Regular(g) && Tail(s) == Tail(t)
    ensures Tail(ReplaceAll(s, g.text, g.mask)) == Tail(ReplaceAll(t, g.text, g.mask))
  {
    TailOfPass(s, g);
    TailOfPass(t, g);
  }

  // ---- the messages to try ----

  /** The text that a pass turned into w, where its mask supplied the beginning of w. */
  function Before(w: string, g: SecretForm, p: int): string
    requires BeginsWithTail(w, g.mask, p)
  {
    g.text + w[|g.mask| - p..]
  }

  /**
    The messages to try for a text: the text itself, and wherever the rest of a mask begins it, those
    for the spelling with that mask followed by what the mask does not supply.
  */
  function Trials(w: string, forms: seq<SecretForm>): set<string>
    decreases |forms|
  {
    if forms == [] then {w}
    else
      var g, init := forms[|forms| - 1], forms[..|forms| - 1];
      Trials(w, init)
      + set p, m | 0 <= p < |g.mask| && BeginsWithTail(w, g.mask, p) && m in Trials(Before(w, g, p), init) :: m
  }

  lemma OneMoreTrial(w: string, forms: seq<SecretForm>, p: nat, m: string)
    requires forms != []
    requires var g := forms[|forms| - 1];
      BeginsWithTail(w, g.mask, p) && m in Trials(Before(w, g, p), forms[..|forms| - 1])
    ensures m in Trials(w, forms)
  {
  }

  /** The tail that a pass leaves, if it is b followed by w, and from which texts it comes. */
  lemma BackOneStep(s: string, g: SecretForm, b: string, w: string) returns (c: string, u: string)
    requires Regular(g) && BULLET !in s && |w| >= 4
    requires Contains(s, g.text) && Tail(ReplaceAll(s, g.text, g.mask)) == b + w
    ensures s == c + g.text + u && !Contains(u, g.text) && b + w == g.mask[8..] + u
  {
    c, u := LastMatch(s, g);
    TailOfMask(g.mask, |g.mask|);
    assert g.mask[..|g.mask|] == g.mask;
  }

  /** A text at the end of an output is at the end of the output of a trial, alone or after the same beginning. */
  lemma {:induction false} TrialFor(msg: string, forms: seq<SecretForm>, b: string, w: string) returns (m: string)
    requires AllRegular(forms) && |w| >= 4 && Tail(Passes(msg, forms)) == b + w
    ensures m in Trials(w, forms) && (Tail(Passes(m, forms)) == w || Tail(Passes(m, forms)) == b + w)
    decreases |forms|
  {
    hide Tail, ReplaceAll, Regular, Contains;
    if forms == [] {
      m := w;
      var x := TailIsEnd(msg);
      assert forall c <- w :: c in b + w;
      assert "" + w == w;
      TailOf("", w);
    } else {
      var n := |forms| - 1;
      var g, init, before := forms[n], forms[..n], Passes(msg, forms[..n]);
      assert Regular(g) && AllRegular(init);
      var x := TailIsEnd(before);
      RegularShape(g);
      TailOfPass(before, g);
      if !Contains(Tail(before), g.text) {
        QuietPass(before, g, Tail(before));
        EndClear(b, w, g.text);
        m := TrialFor(msg, init, b, w);
        QuietPass(Passes(m, init), g, Tail(Passes(m, init)));
      } else {
        m := TrialAfterMatch(msg, forms, b, w);
      }
    }
  }

  lemma EndClear(b: string, w: string, sub: string)
    requires !Contains(b + w, sub)
    ensures !Contains(w, sub)
  {
    assert b + w + "" == b + w;
    if Contains(w, sub) { ContainsInside(b, w, "", sub); }
  }

  lemma EndsAlike(s: string, before: string, g: SecretForm, w: string)
    requires Regular(g) && ((Tail(s) == w && !Contains(w, g.text)) || Tail(s) == Tail(before))
    ensures var t := Tail(ReplaceAll(s, g.text, g.mask)); t == w || t == Tail(ReplaceAll(before, g.text, g.mask))
  {
    hide Tail, ReplaceAll, Regular, Contains;
    if Tail(s) == Tail(before) { SameTailSamePass(s, before, g); } else { QuietPass(s, g, w); }
  }

  lemma StartsAlike(s: string, before: string, g: SecretForm, u: string)
    requires Regular(g) && !Contains(u, g.text) && BULLET !in u
    requires Tail(s) == g.text + u || Tail(s) == Tail(before)
    ensures var t := Tail(ReplaceAll(s, g.text, g.mask)); t == g.mask[8..] + u || t == Tail(ReplaceAll(before, g.text, g.mask))
  {
    hide ReplaceAll, Contains;
    if Tail(s) == Tail(before) {
      SameTailSamePass(s, before, g);
    } else {
      TailOfPass(s, g);
      MatchAtStart(u, g);
      TailOfMask(g.mask, |g.mask|);
      assert g.mask[..|g.mask|] == g.mask;
    }
  }

  /** The rest of the shown tail, from where w starts in it. */
  lemma ShownRest(mask: string, b: string, w: string, u: string)
    requires IsMask(mask) && b + w == mask[8..] + u && |b| < |mask| - 8 && |w| >= 4
    ensures BeginsWithTail(w, mask, 8 + |b|) && w[|mask| - (8 + |b|)..] == u
  {
    var p, shown := 8 + |b|, mask[8..];
    assert mask[p] == shown[|b|] && mask[p] in shown;
    assert mask[p..] == shown[|b|..];
    assert w == shown[|b|..] + u by { assert (b + w)[|b|..] == w; }
  }

  lemma {:induction false} TrialAfterMatch(msg: string, forms: seq<SecretForm>, b: string, w: string) returns (m: string)
    requires AllRegular(forms) && |w| >= 4 && forms != [] && Tail(Passes(msg, forms)) == b + w
    requires Contains(Tail(Passes(msg, forms[..|forms| - 1])), forms[|forms| - 1].text)
    ensures m in Trials(w, forms) && (Tail(Passes(m, forms)) == w || Tail(Passes(m, forms)) == b + w)
    decreases |forms|, 0
  {
    hide Tail, ReplaceAll, Regular, Contains, IsMask, BeginsWithTail;
    var n := |forms| - 1;
    var g, init, before := forms[n], forms[..n], Passes(msg, forms[..n]);
    assert Regular(g) && AllRegular(init);
    var x := TailIsEnd(before);
    RegularShape(g);
    TailOfPass(before, g);
    var c, u := BackOneStep(Tail(before), g, b, w);
    assert BULLET !in u by { assert forall a <- u :: a in Tail(before); }
    if |b| >= |g.mask| - 8 {
      var kept := b[|g.mask| - 8..];
      assert u == kept + w by { assert (b + w)[|g.mask| - 8..] == kept + w; }
      assert Tail(before) == (c + g.text + kept) + w;
      m := TrialFor(msg, init, c + g.text + kept, w);
      EndClear(kept, w, g.text);
      EndsAlike(Passes(m, init), before, g, w);
    } else {
      ShownRest(g.mask, b, w, u);
      assert Tail(before) == c + (g.text + u);
      m := TrialFor(msg, init, c, g.text + u);
      OneMoreTrial(w, forms, 8 + |b|, m);
      StartsAlike(Passes(m, init), before, g, u);
    }
  }

  // ---- the trials decide ----

  lemma EndsWith(s: string, f: string)
    requires |Tail(s)| >= |f| && Tail(s)[|Tail(s)| - |f|..] == f
    ensures Contains(s, f)
  {
    hide Tail, Contains;
    var x := TailIsEnd(s);
    var t := Tail(s);
    var front := x + t[..|t| - |f|];
    assert t == t[..|t| - |f|] + f;
    assert s == front + f + "";
    ContainsSelf(f);
    ContainsInside(front, f, "", f);
  }

  /** A text that is left after the passes over some message is left after the passes over a trial. */
  lemma LeftInATrial(msg: string, forms: seq<SecretForm>, f: string) returns (m: string)
    requires AllRegular(forms) && BULLET !in f && |f| >= 4 && Contains(Passes(msg, forms), f)
    ensures m in Trials(f, forms) && Contains(Passes(m, forms), f)
  {
    hide Tail, Passes, Trials, Regular;
    var out := Passes(msg, forms);
    var q :| 0 <= q <= |out| && OccursAt(out, f, q);
    var a := out[..q] + f;
    assert out == out[..q] + out[q..];
    assert a <= out;
    TailGrows(out[..q], f);
    var cut := Cut(msg, forms, a);
    m := TrialFor(cut, forms, Tail(out[..q]), f);
    hide Contains;
    EndsWith(Passes(m, forms), f);
  }

  /** No trial of a spelling keeps it. */
  predicate TrialsPass(forms: seq<SecretForm>) {
    forall i | 0 <= i < |forms| :: forall m <- Trials(forms[i].text, forms) :: !Contains(Passes(m, forms), forms[i].text)
  }

  /** Whatever the spellings, of four characters or more: redaction is complete exactly if it is on the trials. */
  lemma TrialsDecide(forms: seq<SecretForm>)
    requires AllRegular(forms)
    ensures AlwaysClean(forms) <==> TrialsPass(forms)
  {
    hide Contains, Passes, Trials;
    if TrialsPass(forms) {
      forall msg, i | 0 <= i < |forms| ensures !Contains(Passes(msg, forms), forms[i].text) {
        if Contains(Passes(msg, forms), forms[i].text) {
          assert Regular(forms[i]);
          var m := LeftInATrial(msg, forms, forms[i].text);
        }
      }
    }
  }
}

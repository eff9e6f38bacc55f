/**
  Replacing every spelling of a credential by its mask, one spelling after the other: what such
  passes leave behind. A string is a sequence of Unicode characters.
*/
module RedactionModel {
  import opened Secrets
  import opened Text

  type Spelling = s: string | s != "" witness "x"

  /** One spelling of a credential to look for, and its mask. */
  datatype SecretForm = SecretForm(text: Spelling, mask: string)

  const BULLET := '\U{2022}'

  /** Replaces the occurrences of f from left to right. */
  function ReplaceAll(s: string, f: Spelling, mask: string): string {
    if s == "" then ""
    else if f <= s then mask + ReplaceAll(s[|f|..], f, mask)
    else [s[0]] + ReplaceAll(s[1..], f, mask)
  }

  /** A spelling that can be looked for, with a mask that starts with the mask character. */
  predicate WellFormed(f: SecretForm) { BULLET !in f.text && f.mask != "" && f.mask[0] == BULLET }

  predicate AllWellFormed(forms: seq<SecretForm>) { forall i :: 0 <= i < |forms| ==> WellFormed(forms[i]) }

  function Passes(msg: string, forms: seq<SecretForm>): string {
    if forms == [] then msg
    else
      var last := forms[|forms| - 1];
      ReplaceAll(Passes(msg, forms[..|forms| - 1]), last.text, last.mask)
  }

  predicate Clean(s: string, forms: seq<SecretForm>) { forall i :: 0 <= i < |forms| ==> !Contains(s, forms[i].text) }

  // ---- where a spelling in the output of a pass comes from ----

  /** From some position of the mask on, mask and spelling agree as far as both go. */
  predicate Aligns(mask: string, p: int, f: string) {
    0 <= p < |mask| && (mask[p..] <= f || f <= mask[p..])
  }

  /** What of the spelling the mask does not supply. */
  function Leftover(mask: string, p: int, f: string): string
    requires Aligns(mask, p, f)
  {
    if |mask| - p <= |f| then f[|mask| - p..] else ""
  }

  /** A text without the mask character at the start of an output stands at the start of the input. */
  lemma {:induction false} PrefixOrigin(s: string, g: SecretForm, f: string)
    requires WellFormed(g) && BULLET !in f && f <= ReplaceAll(s, g.text, g.mask)
    ensures f <= s && !Contains(f, g.text)
    decreases |f|
  {
    if f == "" {
      ShorterDoesNotContain(f, g.text);
    } else {
      assert f[0] in f;
      assert !(g.text <= s);
      PrefixOrigin(s[1..], g, f[1..]);
      assert s == [s[0]] + s[1..] && f == [f[0]] + f[1..];
      if Contains(f, g.text) {
        var i :| 0 <= i <= |f| && OccursAt(f, g.text, i);
        if i > 0 { assert f[i..] == f[1..][i - 1..] && OccursAt(f[1..], g.text, i - 1); }
      }
    }
  }

  /** The mask supplies the first part of the spelling and the text after a replaced g the rest. */
  predicate Supplied(s: string, g: SecretForm, f: string, p: int) {
    Aligns(g.mask, p, f) && Contains(s, g.text + Leftover(g.mask, p, f)) && !Contains(Leftover(g.mask, p, f), g.text)
  }

  /** A spelling in the output of a pass was in the input clear of g, or a mask supplied its beginning. */
  lemma {:induction false} Origin(s: string, g: SecretForm, f: string, q: int) returns (p: int)
    requires WellFormed(g) && BULLET !in f && f != "" && OccursAt(ReplaceAll(s, g.text, g.mask), f, q)
    ensures (Contains(s, f) && !Contains(f, g.text)) || Supplied(s, g, f, p)
    decreases |s|
  {
    p := 0;
    var out := ReplaceAll(s, g.text, g.mask);
    if g.text <= s {
      var rest := ReplaceAll(s[|g.text|..], g.text, g.mask);
      assert s == g.text + s[|g.text|..] + "";
      if q >= |g.mask| {
        assert out[q..] == rest[q - |g.mask|..];
        p := Origin(s[|g.text|..], g, f, q - |g.mask|);
        FoundFurtherRight(s, |g.text|, g, f, p);
      } else {
        p := q;
        assert out[q..] == g.mask[q..] + rest;
        var r := Leftover(g.mask, q, f);
        assert r <= rest;
        assert forall c <- r :: c in f;
        PrefixOrigin(s[|g.text|..], g, r);
        assert g.text + r <= s;
        PrefixIsContained(s, g.text + r);
      }
    } else if q > 0 {
      assert out[q..] == ReplaceAll(s[1..], g.text, g.mask)[q - 1..];
      p := Origin(s[1..], g, f, q - 1);
      FoundFurtherRight(s, 1, g, f, p);
    } else {
      assert out[0..] == out;
      PrefixOrigin(s, g, f);
      PrefixIsContained(s, f);
    }
  }

  lemma FoundFurtherRight(s: string, n: nat, g: SecretForm, f: string, p: int)
    requires n <= |s|
    requires (Contains(s[n..], f) && !Contains(f, g.text)) || Supplied(s[n..], g, f, p)
    ensures (Contains(s, f) && !Contains(f, g.text)) || Supplied(s, g, f, p)
  {
    assert s == s[..n] + s[n..] + "";
    if Contains(s[n..], f) { ContainsInside(s[..n], s[n..], "", f); }
    if Supplied(s[n..], g, f, p) { ContainsInside(s[..n], s[n..], "", g.text + Leftover(g.mask, p, f)); }
  }

  /** After all passes, whatever the message, no spelling is left. */
  ghost predicate AlwaysClean(forms: seq<SecretForm>) {
    forall msg {:trigger Passes(msg, forms)} :: Clean(Passes(msg, forms), forms)
  }

  // ---- when a pass brings back what was removed ----

  /**
    The mask of spelling j, at position p, begins spelling i, and a message where j is followed by
    the rest of i gets there: no earlier pass touches it and j itself is not in that rest.
  */
  predicate Recreates(forms: seq<SecretForm>, i: nat, j: nat, p: int) {
    i <= j < |forms| && Aligns(forms[j].mask, p, forms[i].text)
    && var rest := Leftover(forms[j].mask, p, forms[i].text);
       Clean(forms[j].text + rest, forms[..j]) && !Contains(rest, forms[j].text)
  }

  ghost predicate NeverRecreates(forms: seq<SecretForm>) {
    forall i: nat, j: nat, p {:trigger Recreates(forms, i, j, p)} :: !Recreates(forms, i, j, p)
  }

  /** After every pass, whatever the message, no spelling is left that was looked for so far. */
  ghost predicate CleanAfterEveryPass(forms: seq<SecretForm>) {
    forall msg, n {:trigger Passes(msg, forms[..n])} :: 0 <= n <= |forms| ==> Clean(Passes(msg, forms[..n]), forms[..n])
  }

  lemma {:induction false} PassesKeepClean(msg: string, forms: seq<SecretForm>, n: nat)
    requires AllWellFormed(forms) && NeverRecreates(forms) && n <= |forms|
    ensures Clean(Passes(msg, forms[..n]), forms[..n])
  {
    if n > 0 {
      var j := n - 1;
      var m, g := Passes(msg, forms[..j]), forms[j];
      PassesKeepClean(msg, forms, j);
      assert forms[..n][..j] == forms[..j] && g in forms;
      forall i | 0 <= i <= j ensures !Contains(ReplaceAll(m, g.text, g.mask), forms[i].text) {
        if Contains(ReplaceAll(m, g.text, g.mask), forms[i].text) { PassRecreates(m, forms, i, j); }
      }
    }
  }

  lemma PassRecreates(m: string, forms: seq<SecretForm>, i: nat, j: nat)
    requires AllWellFormed(forms) && i <= j < |forms| && Clean(m, forms[..j])
    requires Contains(ReplaceAll(m, forms[j].text, forms[j].mask), forms[i].text)
    ensures !NeverRecreates(forms)
  {
    var f, g := forms[i].text, forms[j];
    var out := ReplaceAll(m, g.text, g.mask);
    var q :| 0 <= q <= |out| && OccursAt(out, f, q);
    var p := Origin(m, g, f, q);
    ContainsSelf(g.text);
    assert i < j ==> forms[..j][i] == forms[i];
    var rest := Leftover(g.mask, p, f);
    forall k | 0 <= k < j ensures !Contains(g.text + rest, forms[..j][k].text) {
      if Contains(g.text + rest, forms[..j][k].text) { ContainsTransitive(m, g.text + rest, forms[..j][k].text); }
    }
    assert Recreates(forms, i, j, p);
  }

  lemma {:induction false} ReplaceNothing(s: string, f: Spelling, mask: string)
    requires !Contains(s, f)
    ensures ReplaceAll(s, f, mask) == s
  {
    if s != "" {
      assert s[0..] == s && !OccursAt(s, f, 0);
      assert s == [s[0]] + s[1..] + "";
      if Contains(s[1..], f) { ContainsInside([s[0]], s[1..], "", f); }
      ReplaceNothing(s[1..], f, mask);
    }
  }

  /** A pass replaces the leftmost occurrence and goes on after it. */
  lemma {:induction false} ReplacesLeftmost(a: string, f: Spelling, b: string, mask: string)
    requires forall i :: 0 <= i < |a| ==> !OccursAt(a + f + b, f, i)
    ensures ReplaceAll(a + f + b, f, mask) == a + mask + ReplaceAll(b, f, mask)
  {
    var s := a + f + b;
    if a == "" {
      assert s == f + b && s[|f|..] == b;
    } else {
      assert s[0..] == s && !OccursAt(s, f, 0);
      assert s[1..] == a[1..] + f + b;
      forall i | 0 <= i < |a[1..]| ensures !OccursAt(a[1..] + f + b, f, i) {
        assert s[1..][i..] == s[i + 1..];
        assert !OccursAt(s, f, i + 1);
      }
      ReplacesLeftmost(a[1..], f, b, mask);
    }
  }

  lemma {:induction false} PassesDoNothing(s: string, forms: seq<SecretForm>)
    requires Clean(s, forms)
    ensures Passes(s, forms) == s
  {
    if forms != [] {
      var n := |forms| - 1;
      PassesDoNothing(s, forms[..n]);
      ReplaceNothing(s, forms[n].text, forms[n].mask);
    }
  }

  lemma AlignedOccurs(mask: string, p: int, f: string)
    requires Aligns(mask, p, f)
    ensures Contains(mask + Leftover(mask, p, f), f)
  {
    var out := mask + Leftover(mask, p, f);
    assert out[p..] == mask[p..] + Leftover(mask, p, f);
    assert OccursAt(out, f, p);
  }

  /** A message that brings spelling i back. */
  lemma Witness(forms: seq<SecretForm>, i: nat, j: nat, p: int)
    requires AllWellFormed(forms) && Recreates(forms, i, j, p)
    ensures var rest := Leftover(forms[j].mask, p, forms[i].text);
      && Passes(forms[j].text + rest, forms[..j + 1]) == forms[j].mask + rest
      && Contains(forms[j].mask + rest, forms[i].text)
  {
    hide Contains, Leftover, Aligns;
    var g := forms[j];
    var rest := Leftover(g.mask, p, forms[i].text);
    var w := g.text + rest;
    assert forms[..j + 1][..j] == forms[..j] && forms[..j + 1][j] == g;
    PassesDoNothing(w, forms[..j]);
    assert w[|g.text|..] == rest && g.text <= w;
    ReplaceNothing(rest, g.text, g.mask);
    AlignedOccurs(g.mask, p, forms[i].text);
  }

  /** Exactly then do the passes never bring back a spelling, over every message. */
  lemma CleanExactlyIfNeverRecreated(forms: seq<SecretForm>)
    requires AllWellFormed(forms)
    ensures CleanAfterEveryPass(forms) <==> NeverRecreates(forms)
  {
    if NeverRecreates(forms) {
      forall msg, n | 0 <= n <= |forms| ensures Clean(Passes(msg, forms[..n]), forms[..n]) {
        PassesKeepClean(msg, forms, n);
      }
    } else {
      var i: nat, j: nat, p :| Recreates(forms, i, j, p);
      Witness(forms, i, j, p);
      var msg := forms[j].text + Leftover(forms[j].mask, p, forms[i].text);
      assert forms[..j + 1][i] == forms[i];
      assert !Clean(Passes(msg, forms[..j + 1]), forms[..j + 1]);
    }
  }

  // ---- conditions that can be read off the credentials ----

  /** Position p is in the visible tail of a mask. */
  predicate Visible(mask: string, p: int) { 0 <= p < |mask| && mask[p] != BULLET }

  /** The text begins with the rest of the visible tail. */
  predicate BeginsWithTail(text: string, mask: string, p: int) { Visible(mask, p) && mask[p..] <= text }

  /** The text lies in the visible tail, from position p on. */
  predicate LiesInTail(text: string, mask: string, p: int) { Visible(mask, p) && text <= mask[p..] }

  /** It contains no other spelling. */
  predicate Innermost(forms: seq<SecretForm>, i: nat)
    requires i < |forms|
  {
    forall k | 0 <= k < |forms| :: Contains(forms[i].text, forms[k].text) ==> forms[k].text == forms[i].text
  }

  /** No innermost spelling begins with the rest of a tail that is shown once it has been looked for. */
  ghost predicate TailsBeginNothing(forms: seq<SecretForm>) {
    forall i, j, p :: 0 <= i <= j < |forms| && Innermost(forms, i) ==> !BeginsWithTail(forms[i].text, forms[j].mask, p)
  }

  /** A spelling that lies within a visible tail is replaced after the mask has appeared. */
  ghost predicate InnerComesLater(forms: seq<SecretForm>) {
    forall i, j, p :: 0 <= i < |forms| && 0 <= j < |forms| && LiesInTail(forms[i].text, forms[j].mask, p) ==> j < i
  }

  lemma {:induction false} HasInnermost(forms: seq<SecretForm>, i: nat) returns (k: nat)
    requires i < |forms|
    ensures k < |forms| && Innermost(forms, k) && Contains(forms[i].text, forms[k].text)
    decreases |forms[i].text|
  {
    k := i;
    ContainsSelf(forms[i].text);
    if !Innermost(forms, i) {
      var j :| 0 <= j < |forms| && Contains(forms[i].text, forms[j].text) && forms[j].text != forms[i].text;
      ContainedIsShorter(forms[i].text, forms[j].text);
      k := HasInnermost(forms, j);
      ContainsTransitive(forms[i].text, forms[j].text, forms[k].text);
    }
  }

  lemma ContainedIsShorter(s: string, sub: string)
    requires Contains(s, sub) && s != sub
    ensures |sub| < |s|
  {
    var i :| 0 <= i <= |s| && OccursAt(s, sub, i);
    assert s[i..] == sub ==> i > 0;
  }

  /** An innermost spelling stays away once it has been looked for. */
  lemma {:induction false} InnermostStaysAway(msg: string, forms: seq<SecretForm>, i: nat, n: nat)
    requires AllWellFormed(forms) && TailsBeginNothing(forms) && InnerComesLater(forms)
    requires i < n <= |forms| && Innermost(forms, i)
    ensures !Contains(Passes(msg, forms[..n]), forms[i].text)
  {
    hide Contains, Innermost;
    var j := n - 1;
    var m, f, g := Passes(msg, forms[..j]), forms[i].text, forms[j];
    assert forms[..n][..j] == forms[..j] && forms[..n][j] == g;
    if Contains(ReplaceAll(m, g.text, g.mask), f) {
      assert WellFormed(forms[i]) && f[0] in f && WellFormed(g);
      var p := OriginOf(m, g, f);
      if Contains(m, f) && !Contains(f, g.text) {
        ContainsSelf(f);
        InnermostStaysAway(msg, forms, i, j);
      } else {
        AlignedInTail(g.mask, p, f);
      }
      assert false;
    }
  }

  lemma OriginOf(s: string, g: SecretForm, f: Spelling) returns (p: int)
    requires WellFormed(g) && BULLET !in f && Contains(ReplaceAll(s, g.text, g.mask), f)
    ensures (Contains(s, f) && !Contains(f, g.text)) || Supplied(s, g, f, p)
  {
    var out := ReplaceAll(s, g.text, g.mask);
    var q :| 0 <= q <= |out| && OccursAt(out, f, q);
    p := Origin(s, g, f, q);
  }

  /** Then no spelling is left in the end: each one contains an innermost one. */
  lemma InnermostApartSuffices(forms: seq<SecretForm>)
    requires AllWellFormed(forms) && TailsBeginNothing(forms) && InnerComesLater(forms)
    ensures AlwaysClean(forms)
  {
    hide Contains, Innermost, Passes;
    forall msg, i | 0 <= i < |forms| ensures !Contains(Passes(msg, forms), forms[i].text) {
      var k := HasInnermost(forms, i);
      InnermostStaysAway(msg, forms, k, |forms|);
      assert forms[..|forms|] == forms;
      if Contains(Passes(msg, forms), forms[i].text) {
        ContainsTransitive(Passes(msg, forms), forms[i].text, forms[k].text);
      }
    }
  }

  lemma AlignedInTail(mask: string, p: int, f: Spelling)
    requires Aligns(mask, p, f) && f[0] != BULLET
    ensures BeginsWithTail(f, mask, p) || LiesInTail(f, mask, p)
  {
    AlignedStart(mask, p, f);
  }

  lemma AlignedStart(mask: string, p: int, f: Spelling)
    requires Aligns(mask, p, f)
    ensures mask[p] == f[0]
  {
    assert mask[p..][0] == mask[p];
  }

  /** The text after the mask characters of a credential starts another copy of it. */
  predicate Borders(v: string, b: nat) { 0 < b <= |v| && v[..b] == v[|v| - b..] }

  ghost predicate Complete(v: Spelling, mask: string) {
    forall msg {:trigger ReplaceAll(msg, v, mask)} :: !Contains(ReplaceAll(msg, v, mask), v)
  }

  lemma OnePass(v: Spelling, mask: string)
    requires WellFormed(SecretForm(v, mask))
    ensures CleanAfterEveryPass([SecretForm(v, mask)]) <==> Complete(v, mask)
  {
    var forms := [SecretForm(v, mask)];
    assert forms[..1] == forms && forms[..0] == [];
    forall msg ensures Passes(msg, forms) == ReplaceAll(msg, v, mask) {}
    if Complete(v, mask) {
      forall msg, n | 0 <= n <= 1 ensures Clean(Passes(msg, forms[..n]), forms[..n]) {
        if n == 1 { assert !Contains(ReplaceAll(msg, v, mask), v); }
      }
    }
    if CleanAfterEveryPass(forms) {
      forall msg ensures !Contains(ReplaceAll(msg, v, mask), v) {
        assert Clean(Passes(msg, forms[..1]), forms[..1]);
        assert forms[..1][0] == forms[0];
      }
    }
  }

  /**
    A credential with one spelling, free of mask characters, disappears from every message exactly
    if its mask shows nothing or the shown tail does not overlap the beginning of the credential.
  */
  lemma CompleteExactlyIf(v: Spelling)
    requires BULLET !in v
    ensures Complete(v, MaskSecret(v)) <==> |v| < MASK_MIN_LEN || forall b :: 1 <= b <= 4 ==> !Borders(v, b)
  {
    var forms := [SecretForm(v, MaskSecret(v))];
    OnePass(v, MaskSecret(v));
    CleanExactlyIfNeverRecreated(forms);
    hide Complete, CleanAfterEveryPass, MaskSecret;
    if |v| < MASK_MIN_LEN {
      NothingShown(v);
    } else {
      if b :| 1 <= b <= 4 && Borders(v, b) {
        BorderRecreates(v, b);
        assert !NeverRecreates(forms);
      }
      if !NeverRecreates(forms) {
        var i: nat, j: nat, p :| Recreates(forms, i, j, p);
        TailShown(v, p);
        BorderRecreates(v, 12 - p);
      }
    }
  }

  lemma NothingShown(v: Spelling)
    requires BULLET !in v && |v| < MASK_MIN_LEN
    ensures NeverRecreates([SecretForm(v, MaskSecret(v))])
  {
    var forms := [SecretForm(v, MaskSecret(v))];
    forall i: nat, j: nat, p ensures !Recreates(forms, i, j, p) {
      if Recreates(forms, i, j, p) {
        assert v[0] in v;
        AlignedStart(MaskSecret(v), p, v);
      }
    }
  }

  lemma TailShown(v: Spelling, p: int)
    requires BULLET !in v && |v| >= MASK_MIN_LEN && Aligns(MaskSecret(v), p, v)
    ensures 8 <= p < 12
  {
    AlignedStart(MaskSecret(v), p, v);
    assert v[0] in v;
  }

  lemma BorderRecreates(v: Spelling, b: nat)
    requires |v| >= MASK_MIN_LEN && 1 <= b <= 4
    ensures Borders(v, b) <==> Recreates([SecretForm(v, MaskSecret(v))], 0, 0, 12 - b)
    ensures Borders(v, b) ==> Aligns(MaskSecret(v), 12 - b, v) && Leftover(MaskSecret(v), 12 - b, v) == v[b..]
  {
    var mask := MaskSecret(v);
    var forms := [SecretForm(v, mask)];
    assert mask[12 - b..] == v[|v| - b..];
    assert (v[|v| - b..] <= v) == Borders(v, b);
    if Borders(v, b) {
      assert Clean(v + v[b..], forms[..0]);
      ShorterDoesNotContain(v[b..], v);
    }
  }

  /** An echo that overlaps the shown tail survives: after the mask, the rest completes the credential. */
  lemma OverlappingEcho(v: Spelling, b: nat)
    requires BULLET !in v && |v| >= MASK_MIN_LEN && 1 <= b <= 4 && Borders(v, b)
    ensures Contains(ReplaceAll(v + v[b..], v, MaskSecret(v)), v)
  {
    hide Contains, Borders, Recreates;
    var mask := MaskSecret(v);
    var forms := [SecretForm(v, mask)];
    BorderRecreates(v, b);
    Witness(forms, 0, 0, 12 - b);
    assert forms[..1] == forms && forms[..0] == [];
    assert Passes(v + v[b..], forms) == ReplaceAll(v + v[b..], v, mask);
  }

  /** For instance sixteen characters whose last four are their first four. */
  lemma EchoOfRepeatedWord()
    ensures Contains(ReplaceAll("abcdabcdabcdabcd" + "abcdabcdabcd", "abcdabcdabcdabcd", MaskSecret("abcdabcdabcdabcd")),
                     "abcdabcdabcdabcd")
  {
    hide Contains, ReplaceAll, MaskSecret;
    var v: Spelling := "abcdabcdabcdabcd";
    assert v[..4] == "abcd" == v[12..] && v[4..] == "abcdabcdabcd";
    OverlappingEcho(v, 4);
  }

  // ---- a value with a scheme ----

  /** The forms of a scheme and a token: the whole value and the token alone, both with the mask of the value. */
  function SchemeForms(scheme: string, token: Spelling): seq<SecretForm> {
    [SecretForm(scheme + token, MaskSecret(scheme + token)), SecretForm(token, MaskSecret(scheme + token))]
  }

  /** The value does not occur in an echo of its token that overlaps itself. */
  predicate EchoesApart(scheme: string, token: string) {
    forall b :: 1 <= b <= 4 && Borders(token, b) ==> !Contains(token + token[b..], scheme + token)
  }

  lemma NoSpaceApart(scheme: string, token: string)
    requires ' ' in scheme && ' ' !in token
    ensures EchoesApart(scheme, token)
  {
    hide Contains;
    forall b | 1 <= b <= 4 && Borders(token, b) ensures !Contains(token + token[b..], scheme + token) {
      assert forall c <- token[b..] :: c in token;
      assert ' ' !in token + token[b..] && ' ' in scheme + token;
      if Contains(token + token[b..], scheme + token) { ContainsCharacters(token + token[b..], scheme + token); }
    }
  }

  /**
    A token after a scheme disappears from every message exactly if the mask shows nothing or the
    shown tail does not overlap the beginning of the token; how the scheme begins does not matter.
    A token without a space is apart from its value, as needed here.
  */
  lemma SchemeCompleteExactlyIf(scheme: string, token: Spelling)
    requires 0 < |scheme| <= 7 && EchoesApart(scheme, token) && BULLET !in scheme + token
    ensures AlwaysClean(SchemeForms(scheme, token))
       <==> |scheme + token| < MASK_MIN_LEN || forall b :: 1 <= b <= 4 ==> !Borders(token, b)
  {
    hide AlwaysClean, TailsBeginNothing, InnerComesLater, EchoesApart, Borders;
    if |scheme + token| >= MASK_MIN_LEN {
      if b :| 1 <= b <= 4 && Borders(token, b) { SchemeEcho(scheme, token, b); }
    }
    if |scheme + token| < MASK_MIN_LEN || forall b :: 1 <= b <= 4 ==> !Borders(token, b) {
      SchemeTailsBeginNothing(scheme, token);
      SchemeInnerComesLater(scheme, token);
      assert AllWellFormed(SchemeForms(scheme, token));
      InnermostApartSuffices(SchemeForms(scheme, token));
    }
  }

  lemma SchemeTail(scheme: string, token: Spelling, p: int)
    requires |scheme| <= 7 && Visible(MaskSecret(scheme + token), p)
    ensures |scheme + token| >= MASK_MIN_LEN && 8 <= p < 12
    ensures MaskSecret(scheme + token)[p..] == token[|token| - (12 - p)..]
  {
    var v, mask := scheme + token, MaskSecret(scheme + token);
    assert forall q :: 0 <= q < 8 ==> mask[q] == BULLET;
    assert |v| >= MASK_MIN_LEN;
    assert mask[8..] == v[|v| - 4..] == token[|token| - 4..];
    assert mask[p..] == mask[8..][p - 8..];
  }

  lemma ValueIsNotInnermost(scheme: string, token: Spelling)
    requires scheme != ""
    ensures !Innermost(SchemeForms(scheme, token), 0)
  {
    var forms := SchemeForms(scheme, token);
    assert scheme + token == scheme + token + "";
    ContainsSelf(token);
    ContainsInside(scheme, token, "", token);
    assert forms[1].text == token && |forms[0].text| > |token|;
  }

  lemma SchemeTailsBeginNothing(scheme: string, token: Spelling)
    requires 0 < |scheme| <= 7
    requires |scheme + token| < MASK_MIN_LEN || forall b :: 1 <= b <= 4 ==> !Borders(token, b)
    ensures TailsBeginNothing(SchemeForms(scheme, token))
  {
    var forms := SchemeForms(scheme, token);
    ValueIsNotInnermost(scheme, token);
    hide Innermost, MaskSecret, Visible, Borders;
    forall i, j, p | 0 <= i <= j < |forms| && Innermost(forms, i) ensures !BeginsWithTail(forms[i].text, forms[j].mask, p) {
      if BeginsWithTail(token, MaskSecret(scheme + token), p) { TailBorders(scheme, token, p); }
    }
  }

  lemma TailBorders(scheme: string, token: Spelling, p: int)
    requires |scheme| <= 7 && BeginsWithTail(token, MaskSecret(scheme + token), p)
    ensures |scheme + token| >= MASK_MIN_LEN && 8 <= p < 12 && Borders(token, 12 - p)
  {
    SchemeTail(scheme, token, p);
  }

  lemma SchemeInnerComesLater(scheme: string, token: Spelling)
    requires |scheme| <= 7
    ensures InnerComesLater(SchemeForms(scheme, token))
  {
    var forms := SchemeForms(scheme, token);
    hide MaskSecret, Visible;
    forall i, j, p | 0 <= i < |forms| && 0 <= j < |forms| && LiesInTail(forms[i].text, forms[j].mask, p) ensures j < i {
      SchemeTail(scheme, token, p);
    }
  }

  /** The echo of a token that overlaps itself: the value does not occur in it, and the token's own pass leaves the token. */
  lemma SchemeEcho(scheme: string, token: Spelling, b: nat)
    requires |scheme| <= 7 && EchoesApart(scheme, token)
    requires |scheme + token| >= MASK_MIN_LEN && 1 <= b <= 4 && Borders(token, b)
    ensures Contains(Passes(token + token[b..], SchemeForms(scheme, token)), token)
    ensures !AlwaysClean(SchemeForms(scheme, token))
  {
    var forms, echo, v := SchemeForms(scheme, token), token + token[b..], scheme + token;
    var mask := MaskSecret(v);
    hide MaskSecret, ReplaceAll;
    ReplaceNothing(echo, v, mask);
    assert forms[..1] == [forms[0]] && forms[..1][..0] == [];
    assert Passes(echo, forms[..1]) == echo;
    MatchesItself(token, b, mask);
    assert mask[8..] == token[|token| - 4..] by { SchemeMask(scheme, token); }
    assert Contains(mask + token[b..], token) by { TailCompletes(mask, token, b); }
    assert forms[1].text == token;
  }

  lemma SchemeMask(scheme: string, token: Spelling)
    requires |scheme| <= 7 && |scheme + token| >= MASK_MIN_LEN
    ensures var mask := MaskSecret(scheme + token); |mask| == 12 && |token| >= 9 && mask[8..] == token[|token| - 4..]
  {
  }

  lemma MatchesItself(token: Spelling, b: nat, mask: string)
    requires 1 <= b <= |token|
    ensures ReplaceAll(token + token[b..], token, mask) == mask + token[b..]
  {
    assert (token + token[b..])[|token|..] == token[b..];
    ShorterDoesNotContain(token[b..], token);
    ReplaceNothing(token[b..], token, mask);
  }

  lemma TailCompletes(mask: string, token: Spelling, b: nat)
    requires |mask| == 12 && 1 <= b <= 4 && |token| >= 4 && mask[8..] == token[|token| - 4..] && Borders(token, b)
    ensures Contains(mask + token[b..], token)
  {
    var s := mask + token[b..];
    assert mask[12 - b..] == mask[8..][4 - b..] == token[|token| - b..] == token[..b];
    assert s[12 - b..] == token[..b] + token[b..] == token;
    assert OccursAt(s, token, 12 - b);
  }
}

/** Redacting credentials from text that is shown to tenants (internal/mcp/tenant_policy.go). */
module Redaction {
  import opened RedactionModel
  import opened RedactionTrials
  import opened Secrets
  import opened Text

  /** The bytes of a character in UTF-8. */
  function CharBytes(c: char): nat {
    var n := c as int;
    if n < 0x80 then 1 else if n < 0x800 then 2 else if n < 0x1_0000 then 3 else 4
  }

  function ByteLen(s: string): nat {
    if s == "" then 0 else CharBytes(s[0]) + ByteLen(s[1..])
  }

  lemma {:induction false} ByteLenAppend(s: string, t: string)
    ensures ByteLen(s + t) == ByteLen(s) + ByteLen(t)
    ensures s != "" ==> ByteLen(s) > 0
  {
    if s == "" {
      assert s + t == t;
    } else {
      assert (s + t)[1..] == s[1..] + t;
      ByteLenAppend(s[1..], t);
    }
  }

  /** One to four bytes a character; one for each character of a text in ASCII. */
  lemma {:induction false} BytesOfText(s: string)
    ensures |s| <= ByteLen(s) <= 4 * |s|
    ensures ByteLen(s) == |s| <==> forall i :: 0 <= i < |s| ==> s[i] as int < 0x80
  {
    if s != "" {
      BytesOfText(s[1..]);
      assert forall i :: 0 < i < |s| ==> s[i] == s[1..][i - 1];
    }
  }

  /** A text inside a different one has fewer bytes. */
  lemma InsideIsShorter(s: string, sub: string)
    requires Contains(s, sub) && s != sub
    ensures ByteLen(sub) < ByteLen(s)
  {
    var i :| 0 <= i <= |s| && OccursAt(s, sub, i);
    var rest := s[i..][|sub|..];
    assert s[i..] == sub + rest && s == s[..i] + s[i..];
    ByteLenAppend(s[..i], s[i..]);
    ByteLenAppend(sub, rest);
    ByteLenAppend(rest, "");
  }

  // ---- the spellings of a credential ----

  const SCHEMES := ["Bearer ", "Basic ", "Token "]

  /** The value itself, and what follows one of the first n authorization schemes. */
  function Bases(v: string, n: nat): seq<string>
    requires n <= |SCHEMES|
  {
    if n == 0 then [v]
    else Bases(v, n - 1) + (if SCHEMES[n - 1] <= v then [v[|SCHEMES[n - 1]|..]] else [])
  }

  /** A text that one of these bases spells: as it is or as it stands in a JSON string; json escapes. */
  predicate IsSpelledBy(text: string, bases: seq<string>, json: string -> string) {
    ByteLen(text) >= 4 && exists i :: 0 <= i < |bases| && (text == bases[i] || text == json(bases[i]))
  }

  /** The texts that are looked for on behalf of a header value. */
  predicate IsSpelling(text: string, v: string, json: string -> string) { IsSpelledBy(text, Bases(v, |SCHEMES|), json) }

  ghost function Texts(forms: seq<SecretForm>): set<string> { set f | f in forms :: f.text }

  ghost predicate NoTextTwice(forms: seq<SecretForm>) {
    forall i, j :: 0 <= i < j < |forms| ==> forms[i].text != forms[j].text
  }

  method Add(text: string, mask: string, out: seq<SecretForm>, seen: set<string>) returns (r: seq<SecretForm>, now: set<string>)
    requires seen == Texts(out) && NoTextTwice(out) && forall f <- out :: f.mask == mask
    ensures now == Texts(r) && NoTextTwice(r) && forall f <- r :: f.mask == mask
    ensures now == if ByteLen(text) >= 4 then seen + {text} else seen
  {
    if ByteLen(text) >= 4 && text !in seen {
      r, now := out + [SecretForm(text, mask)], seen + {text};
      assert forall i :: 0 <= i < |out| ==> out[i].text in seen;
      assert r[|out|] in r;
      assert forall f <- out :: f in r;
    } else {
      r, now := out, seen;
    }
  }

  /** Lists exactly the spellings of a value, each once and with the mask of the value. */
  method SecretFormsOf(v: string, json: string -> string) returns (out: seq<SecretForm>)
    ensures forall t :: t in Texts(out) <==> IsSpelling(t, v, json)
    ensures NoTextTwice(out) && forall f <- out :: f.mask == MaskSecret(v)
  {
    hide MaskSecret, ByteLen;
    var mask := MaskSecret(v);
    var bases := [v];
    for i := 0 to |SCHEMES|
      invariant bases == Bases(v, i)
    {
      if SCHEMES[i] <= v { bases := bases + [v[|SCHEMES[i]|..]]; }
    }
    hide Bases;
    out := [];
    var seen := {};
    for i := 0 to |bases|
      invariant seen == Texts(out) && NoTextTwice(out) && forall f <- out :: f.mask == mask
      invariant forall t :: t in seen <==> IsSpelledBy(t, bases[..i], json)
    {
      ghost var before := seen;
      out, seen := Add(bases[i], mask, out, seen);
      out, seen := Add(json(bases[i]), mask, out, seen);
      forall t ensures t in seen <==> IsSpelledBy(t, bases[..i + 1], json) { OneMoreBase(t, bases, i, json); }
    }
    assert bases[..|bases|] == bases;
  }

  lemma OneMoreBase(t: string, bases: seq<string>, i: nat, json: string -> string)
    requires i < |bases|
    ensures IsSpelledBy(t, bases[..i + 1], json)
       <==> IsSpelledBy(t, bases[..i], json) || (ByteLen(t) >= 4 && (t == bases[i] || t == json(bases[i])))
  {
    hide ByteLen;
    if IsSpelledBy(t, bases[..i], json) {
      var k :| 0 <= k < i && (t == bases[..i][k] || t == json(bases[..i][k]));
      assert bases[..i + 1][k] == bases[k];
    }
    if t == bases[i] || t == json(bases[i]) { assert bases[..i + 1][i] == bases[i]; }
    if IsSpelledBy(t, bases[..i + 1], json) {
      var k :| 0 <= k < i + 1 && (t == bases[..i + 1][k] || t == json(bases[..i + 1][k]));
      assert k < i ==> bases[..i][k] == bases[k];
    }
  }

  // ---- what the spellings of a value are ----

  /** The value, or the rest of it after one of the authorization schemes. */
  predicate IsBase(base: string, v: string) {
    base == v || v == "Bearer " + base || v == "Basic " + base || v == "Token " + base
  }

  lemma BasesAreThese(v: string, base: string)
    ensures base in Bases(v, |SCHEMES|) <==> IsBase(base, v)
  {
    var schemes := ["Bearer ", "Basic ", "Token "];
    assert SCHEMES == schemes;
    assert Bases(v, 3) == Bases(v, 2) + (if schemes[2] <= v then [v[|schemes[2]|..]] else []);
    assert Bases(v, 2) == Bases(v, 1) + (if schemes[1] <= v then [v[|schemes[1]|..]] else []);
    assert Bases(v, 1) == Bases(v, 0) + (if schemes[0] <= v then [v[|schemes[0]|..]] else []);
    Rest("Bearer ", base, v);
    Rest("Basic ", base, v);
    Rest("Token ", base, v);
  }

  lemma Rest(scheme: string, base: string, v: string)
    ensures v == scheme + base <==> scheme <= v && v[|scheme|..] == base
  {
  }

  /**
    What is looked for on behalf of a value: exactly the value and what follows a scheme in it, each
    as it is and as it stands in a JSON string, if that takes four bytes or more.
  */
  lemma SpellingsExactly(t: string, v: string, json: string -> string)
    ensures IsSpelling(t, v, json) <==> ByteLen(t) >= 4 && exists base :: IsBase(base, v) && (t == base || t == json(base))
  {
    hide ByteLen, Bases, IsBase;
    var bases := Bases(v, |SCHEMES|);
    if i :| 0 <= i < |bases| && (t == bases[i] || t == json(bases[i])) { BasesAreThese(v, bases[i]); }
    if base :| IsBase(base, v) && (t == base || t == json(base)) {
      BasesAreThese(v, base);
      var i :| 0 <= i < |bases| && bases[i] == base;
    }
  }

  // ---- longer forms first ----

  ghost predicate LongestFirst(forms: seq<SecretForm>) {
    forall i, j :: 0 <= i < j < |forms| ==> ByteLen(forms[i].text) >= ByteLen(forms[j].text)
  }

  function InsertByLength(f: SecretForm, forms: seq<SecretForm>): (r: seq<SecretForm>)
    ensures multiset(r) == multiset(forms) + multiset{f}
  {
    if forms == [] || ByteLen(f.text) >= ByteLen(forms[0].text) then [f] + forms
    else
      assert forms == [forms[0]] + forms[1..];
      [forms[0]] + InsertByLength(f, forms[1..])
  }

  /** The stable sort by length in bytes, longest first. */
  function SortByLength(forms: seq<SecretForm>): (r: seq<SecretForm>)
    ensures multiset(r) == multiset(forms)
  {
    if forms == [] then []
    else
      assert forms == [forms[0]] + forms[1..];
      InsertByLength(forms[0], SortByLength(forms[1..]))
  }

  lemma {:induction false} InsertKeepsOrder(f: SecretForm, forms: seq<SecretForm>)
    requires LongestFirst(forms)
    ensures LongestFirst(InsertByLength(f, forms))
  {
    hide ByteLen;
    if forms != [] && ByteLen(f.text) < ByteLen(forms[0].text) {
      var rest := InsertByLength(f, forms[1..]);
      InsertKeepsOrder(f, forms[1..]);
      forall g | g in rest ensures ByteLen(g.text) <= ByteLen(forms[0].text) {
        assert g in multiset(rest);
        assert g == f || g in forms[1..];
      }
    }
  }

  lemma {:induction false} SortIsSorted(forms: seq<SecretForm>)
    ensures LongestFirst(SortByLength(forms))
  {
    if forms != [] {
      SortIsSorted(forms[1..]);
      InsertKeepsOrder(forms[0], SortByLength(forms[1..]));
    }
  }

  lemma SortKeepsForms(forms: seq<SecretForm>)
    ensures forall f :: f in SortByLength(forms) <==> f in forms
  {
    assert forall f :: f in SortByLength(forms) <==> f in multiset(SortByLength(forms));
    assert forall f :: f in forms <==> f in multiset(forms);
  }

  /** A spelling inside another one is replaced after it, so it never cuts the longer one. */
  lemma InnerSpellingComesLater(forms: seq<SecretForm>, i: nat, j: nat)
    requires LongestFirst(forms) && i < |forms| && j < |forms|
    requires Contains(forms[i].text, forms[j].text) && forms[i].text != forms[j].text
    ensures i < j
  {
    InsideIsShorter(forms[i].text, forms[j].text);
  }

  // ---- the whole redaction ----

  /** Escaping for JSON leaves a character as it is or makes it longer. */
  ghost predicate NeverShortens(json: string -> string) { forall s :: ByteLen(json(s)) >= ByteLen(s) }

  /** A spelling of some header that contains no other spelling of any. */
  ghost predicate IsInnermost(t: string, headers: map<string, string>, json: string -> string) {
    && (exists k :: k in headers && IsSpelling(t, headers[k], json))
    && (forall k, u :: k in headers && IsSpelling(u, headers[k], json) && Contains(t, u) ==> u == t)
  }

  /** This value has a spelling that is replaced after, or with, this text: one that is not longer. */
  ghost predicate ShownAfter(t: string, v: string, json: string -> string) {
    exists u :: IsSpelling(u, v, json) && ByteLen(u) <= ByteLen(t)
  }

  /**
    No spelling holds the mask character, and none that contains no other one begins with a nonempty
    rest of a tail that is shown after it was looked for.
  */
  ghost predicate Separate(headers: map<string, string>, json: string -> string) {
    && (forall k, t :: k in headers && IsSpelling(t, headers[k], json) ==> BULLET !in t)
    && (forall t, n, p :: IsInnermost(t, headers, json) && n in headers && ShownAfter(t, headers[n], json) ==>
          !BeginsWithTail(t, MaskSecret(headers[n]), p))
  }

  /** No spelling of any header is left in this text. */
  ghost predicate NoneLeft(out: string, headers: map<string, string>, json: string -> string) {
    forall k, t :: k in headers && IsSpelling(t, headers[k], json) ==> !Contains(out, t)
  }

  /** A base is the end of its value, all but a scheme of at most seven characters. */
  lemma {:induction false} BaseIsEnd(v: string, n: nat, i: nat)
    requires n <= |SCHEMES| && i < |Bases(v, n)|
    ensures var b := Bases(v, n)[i]; |v| - 7 <= |b| <= |v| && b == v[|v| - |b|..]
  {
    if n > 0 && i < |Bases(v, n - 1)| {
      BaseIsEnd(v, n - 1, i);
    } else if n > 0 {
      assert |SCHEMES[n - 1]| <= 7;
    }
  }

  lemma ShownTailIsEnd(v: string, p: int)
    requires Visible(MaskSecret(v), p)
    ensures |v| >= MASK_MIN_LEN && 8 <= p < 12 && MaskSecret(v)[p..] == v[|v| - (12 - p)..]
  {
    var mask := MaskSecret(v);
    assert forall q :: 0 <= q < 8 ==> mask[q] == BULLET;
    assert |v| >= MASK_MIN_LEN;
    assert mask[8..] == v[|v| - 4..];
    assert mask[p..] == mask[8..][p - 8..];
  }

  lemma EndOfEnd(v: string, b: string, n: nat)
    requires n <= |b| <= |v| && b == v[|v| - |b|..]
    ensures b[|b| - n..] == v[|v| - n..]
  {
  }

  lemma EndContains(b: string, n: nat, t: string)
    requires n <= |b| && t <= b[|b| - n..]
    ensures Contains(b, t)
  {
    assert OccursAt(b, t, |b| - n);
  }

  /** What lies within the shown tail of a value has fewer bytes than any spelling of that value. */
  lemma TailIsShorterThanSpellings(t: string, text: string, v: string, p: int, json: string -> string)
    requires NeverShortens(json) && IsSpelling(text, v, json)
    requires LiesInTail(t, MaskSecret(v), p)
    ensures ByteLen(t) < ByteLen(text)
  {
    hide ByteLen, MaskSecret, Contains;
    ShownTailIsEnd(v, p);
    var bases := Bases(v, |SCHEMES|);
    var i :| 0 <= i < |bases| && (text == bases[i] || text == json(bases[i]));
    BaseIsEnd(v, |SCHEMES|, i);
    hide Bases;
    var b, n := bases[i], 12 - p;
    EndOfEnd(v, b, n);
    EndContains(b, n, t);
    InsideIsShorter(b, t);
  }

  /** A spelling of one of these header values, with the mask of that value. */
  ghost predicate IsFormOf(f: SecretForm, names: set<string>, headers: map<string, string>, json: string -> string)
    requires names <= headers.Keys
  {
    exists k :: k in names && f.mask == MaskSecret(headers[k]) && IsSpelling(f.text, headers[k], json)
  }

  method CollectForms(headers: map<string, string>, json: string -> string) returns (forms: seq<SecretForm>)
    ensures forall f :: f in forms <==> IsFormOf(f, headers.Keys, headers, json)
  {
    hide MaskSecret, IsSpelling, NoTextTwice;
    forms := [];
    var todo := headers.Keys;
    while todo != {}
      invariant todo <= headers.Keys
      invariant forall f :: f in forms <==> IsFormOf(f, headers.Keys - todo, headers, json)
      decreases |todo|
    {
      var k :| k in todo;
      var more := SecretFormsOf(headers[k], json);
      ghost var before := forms;
      forms := forms + more;
      forall f: SecretForm ensures f in forms <==> IsFormOf(f, headers.Keys - (todo - {k}), headers, json) {
        assert f in forms <==> f in before || f in more;
        assert f in more <==> f.mask == MaskSecret(headers[k]) && IsSpelling(f.text, headers[k], json) by {
          if IsSpelling(f.text, headers[k], json) { assert f.text in Texts(more); }
          if f in more { assert f.text in Texts(more); }
        }
      }
      todo := todo - {k};
    }
  }

  /** Longest first, so a form within the shown tail of a value comes after every form of that value. */
  lemma InnerFormComesLater(forms: seq<SecretForm>, i: nat, j: nat, p: int, headers: map<string, string>, json: string -> string)
    requires LongestFirst(forms) && NeverShortens(json) && i < |forms| && j < |forms|
    requires IsFormOf(forms[j], headers.Keys, headers, json)
    requires LiesInTail(forms[i].text, forms[j].mask, p)
    ensures j < i
  {
    hide ByteLen, MaskSecret, IsSpelling, LiesInTail, NeverShortens;
    var k :| k in headers && forms[j].mask == MaskSecret(headers[k]) && IsSpelling(forms[j].text, headers[k], json);
    TailIsShorterThanSpellings(forms[i].text, forms[j].text, headers[k], p, json);
  }

  lemma InnermostForm(forms: seq<SecretForm>, i: nat, headers: map<string, string>, json: string -> string)
    requires forall f :: f in forms <==> IsFormOf(f, headers.Keys, headers, json)
    requires i < |forms| && Innermost(forms, i)
    ensures IsInnermost(forms[i].text, headers, json)
  {
    hide IsSpelling, Contains, MaskSecret;
    assert forms[i] in forms;
    forall k, u | k in headers && IsSpelling(u, headers[k], json) && Contains(forms[i].text, u) ensures u == forms[i].text {
      var j := FormFor(forms, k, u, headers, json);
    }
  }

  /** The form of a spelling is among the forms. */
  lemma FormFor(forms: seq<SecretForm>, k: string, t: string, headers: map<string, string>, json: string -> string)
    returns (i: nat)
    requires forall f :: f in forms <==> IsFormOf(f, headers.Keys, headers, json)
    requires k in headers && IsSpelling(t, headers[k], json)
    ensures i < |forms| && forms[i].text == t
  {
    SpellingNotEmpty(t, headers[k], json);
    hide IsSpelling, MaskSecret;
    var f := SecretForm(t, MaskSecret(headers[k]));
    assert IsFormOf(f, headers.Keys, headers, json);
    i :| 0 <= i < |forms| && forms[i] == f;
  }

  lemma CleanMeansNoneLeft(out: string, forms: seq<SecretForm>, headers: map<string, string>, json: string -> string)
    requires forall f :: f in forms <==> IsFormOf(f, headers.Keys, headers, json)
    ensures Clean(out, forms) <==> NoneLeft(out, headers, json)
  {
    hide IsSpelling, Contains, MaskSecret;
    if Clean(out, forms) {
      forall k, t | k in headers && IsSpelling(t, headers[k], json) ensures !Contains(out, t) {
        var i := FormFor(forms, k, t, headers, json);
      }
    }
    if NoneLeft(out, headers, json) {
      forall i | 0 <= i < |forms| ensures !Contains(out, forms[i].text) { assert forms[i] in forms; }
    }
  }

  lemma SeparateTails(forms: seq<SecretForm>, i: nat, j: nat, p: int, headers: map<string, string>, json: string -> string)
    requires Separate(headers, json) && LongestFirst(forms)
    requires forall f :: f in forms <==> IsFormOf(f, headers.Keys, headers, json)
    requires i <= j < |forms| && Innermost(forms, i)
    ensures !BeginsWithTail(forms[i].text, forms[j].mask, p)
  {
    hide IsSpelling, BeginsWithTail, Contains, MaskSecret, Innermost, IsInnermost, ByteLen;
    InnermostForm(forms, i, headers, json);
    assert forms[j] in forms;
    var n :| n in headers && forms[j].mask == MaskSecret(headers[n]) && IsSpelling(forms[j].text, headers[n], json);
    assert ShownAfter(forms[i].text, headers[n], json);
  }

  lemma SeparateSuffices(forms: seq<SecretForm>, headers: map<string, string>, json: string -> string)
    requires Separate(headers, json) && NeverShortens(json) && LongestFirst(forms)
    requires forall f :: f in forms <==> IsFormOf(f, headers.Keys, headers, json)
    ensures AlwaysClean(forms)
  {
    hide IsSpelling, BeginsWithTail, LiesInTail, NeverShortens, LongestFirst, Innermost, IsInnermost, AlwaysClean, ShownAfter;
    forall i | 0 <= i < |forms| ensures WellFormed(forms[i]) { assert forms[i] in forms; }
    forall i, j, p | 0 <= i <= j < |forms| && Innermost(forms, i) ensures !BeginsWithTail(forms[i].text, forms[j].mask, p) {
      SeparateTails(forms, i, j, p, headers, json);
    }
    forall i, j, p | 0 <= i < |forms| && 0 <= j < |forms| && LiesInTail(forms[i].text, forms[j].mask, p) ensures j < i
    {
      assert forms[j] in forms;
      InnerFormComesLater(forms, i, j, p, headers, json);
    }
    InnermostApartSuffices(forms);
  }

  /**
    Replaces every spelling of every header value, longer ones first. If the innermost spellings
    keep apart from the shown tails, no spelling is left, whatever the message.
  */
  method RedactSecrets(msg: string, headers: map<string, string>, json: string -> string)
    returns (out: string, ghost forms: seq<SecretForm>)
    ensures forall f :: f in forms <==> IsFormOf(f, headers.Keys, headers, json)
    ensures LongestFirst(forms) && out == Passes(msg, forms)
    ensures Separate(headers, json) && NeverShortens(json) ==> NoneLeft(out, headers, json)
    ensures Separate(headers, json) && NeverShortens(json) ==>
      forall k, base :: k in headers && IsBase(base, headers[k]) ==>
        && (ByteLen(base) >= 4 ==> !Contains(out, base))
        && (ByteLen(json(base)) >= 4 ==> !Contains(out, json(base)))
    ensures NoneLeft(msg, headers, json) ==> out == msg
  {
    hide IsBase, ByteLen, IsSpelling, Contains, Separate, ReplaceAll, MaskSecret, LongestFirst, IsFormOf, SortByLength, NeverShortens, NoneLeft;
    var all := CollectForms(headers, json);
    var sorted := SortByLength(all);
    SortIsSorted(all);
    SortKeepsForms(all);
    out := msg;
    for i := 0 to |sorted|
      invariant out == Passes(msg, sorted[..i])
    {
      assert sorted[..i + 1][..i] == sorted[..i] && sorted[..i + 1][i] == sorted[i];
      out := ReplaceAll(out, sorted[i].text, sorted[i].mask);
    }
    assert sorted[..|sorted|] == sorted;
    forms := sorted;
    if Separate(headers, json) && NeverShortens(json) {
      SeparateSuffices(forms, headers, json);
      CleanMeansNoneLeft(out, forms, headers, json);
      NoBaseLeft(out, headers, json);
    }
    if NoneLeft(msg, headers, json) {
      CleanMeansNoneLeft(msg, forms, headers, json);
      PassesDoNothing(msg, forms);
    }
  }

  lemma NoBaseLeft(out: string, headers: map<string, string>, json: string -> string)
    requires NoneLeft(out, headers, json)
    ensures forall k, base :: k in headers && IsBase(base, headers[k]) ==>
      && (ByteLen(base) >= 4 ==> !Contains(out, base))
      && (ByteLen(json(base)) >= 4 ==> !Contains(out, json(base)))
  {
    hide IsSpelling, Contains, ByteLen, IsBase;
    forall k, base | k in headers && IsBase(base, headers[k])
      ensures ByteLen(base) >= 4 ==> !Contains(out, base)
      ensures ByteLen(json(base)) >= 4 ==> !Contains(out, json(base))
    {
      SpellingsExactly(base, headers[k], json);
      SpellingsExactly(json(base), headers[k], json);
    }
  }

  /** Values that are too short for their masks to show anything are separate. */
  lemma ShortValuesAreSeparate(headers: map<string, string>, json: string -> string)
    requires forall k, t :: k in headers && IsSpelling(t, headers[k], json) ==> BULLET !in t
    requires forall k :: k in headers ==> |headers[k]| < 16
    ensures Separate(headers, json)
  {
    hide IsSpelling, IsInnermost, ShownAfter;
    forall n, p | n in headers ensures !Visible(MaskSecret(headers[n]), p) {}
  }

  /** So is a token after a scheme that does not begin with the end of it, whatever the scheme. */
  lemma SchemeValueIsSeparate(name: string, n: nat, token: string, json: string -> string)
    requires n < |SCHEMES| && ByteLen(token) >= 4 && BULLET !in SCHEMES[n] + token
    requires json(SCHEMES[n] + token) == SCHEMES[n] + token && json(token) == token
    requires forall b :: 1 <= b <= 4 ==> !Borders(token, b)
    ensures Separate(map[name := SCHEMES[n] + token], json)
  {
    var v := SCHEMES[n] + token;
    var headers := map[name := v];
    SchemeSpellings(n, token, json);
    ValueHoldsToken(SCHEMES[n], token);
    hide IsSpelling, ByteLen, Contains, MaskSecret, Borders, ShownAfter, Visible;
    forall t, p | IsInnermost(t, headers, json) ensures !BeginsWithTail(t, MaskSecret(v), p) {
      assert name in headers && headers[name] == v && IsSpelling(token, v, json);
      assert t == token;
      if BeginsWithTail(token, MaskSecret(v), p) { TailBorders(SCHEMES[n], token, p); }
    }
  }

  lemma ValueHoldsToken(scheme: string, token: string)
    ensures Contains(scheme + token, token)
  {
    ContainsSelf(token);
    ContainsInside(scheme, token, "", token);
    assert scheme + token + "" == scheme + token;
  }

  /** Spellings of at least four characters, not only bytes, without the mask character. */
  ghost predicate FourCharacters(headers: map<string, string>, json: string -> string) {
    forall k, t :: k in headers && IsSpelling(t, headers[k], json) ==> |t| >= 4 && BULLET !in t
  }

  lemma FormsAreRegular(forms: seq<SecretForm>, headers: map<string, string>, json: string -> string)
    requires forall f :: f in forms <==> IsFormOf(f, headers.Keys, headers, json)
    requires FourCharacters(headers, json)
    ensures AllRegular(forms)
  {
    hide IsSpelling;
    forall i | 0 <= i < |forms| ensures Regular(forms[i]) {
      assert forms[i] in forms;
      var k :| k in headers && forms[i].mask == MaskSecret(headers[k]) && IsSpelling(forms[i].text, headers[k], json);
      MaskIsMask(headers[k], json);
    }
  }

  /** The value is a spelling of its own, so the tail that is shown of it holds no mask character. */
  lemma MaskIsMask(v: string, json: string -> string)
    requires forall t :: IsSpelling(t, v, json) ==> BULLET !in t
    ensures IsMask(MaskSecret(v))
  {
    if |v| >= MASK_MIN_LEN {
      ValueIsSpelling(v, json);
      assert MaskSecret(v)[8..] == v[|v| - 4..];
      assert forall c <- v[|v| - 4..] :: c in v;
    }
  }

  lemma ValueIsSpelling(v: string, json: string -> string)
    requires |v| >= MASK_MIN_LEN
    ensures IsSpelling(v, v, json)
  {
    BytesOfText(v);
    assert Bases(v, 0)[0] == v;
    assert Bases(v, 1)[0] == v;
    assert Bases(v, 2)[0] == v;
    assert Bases(v, 3)[0] == v;
  }

  /** No message keeps a spelling of any header. */
  ghost predicate NoneEverLeft(forms: seq<SecretForm>, headers: map<string, string>, json: string -> string) {
    forall msg {:trigger Passes(msg, forms)} :: NoneLeft(Passes(msg, forms), headers, json)
  }

  /** Exactly if no trial of a spelling keeps it. */
  lemma RedactionCompleteExactlyIf(forms: seq<SecretForm>, headers: map<string, string>, json: string -> string)
    requires forall f :: f in forms <==> IsFormOf(f, headers.Keys, headers, json)
    requires FourCharacters(headers, json)
    ensures NoneEverLeft(forms, headers, json) <==> TrialsPass(forms)
  {
    hide IsFormOf, FourCharacters, TrialsPass, Clean, NoneLeft, Passes;
    FormsAreRegular(forms, headers, json);
    TrialsDecide(forms);
    forall msg ensures Clean(Passes(msg, forms), forms) <==> NoneLeft(Passes(msg, forms), headers, json) {
      CleanMeansNoneLeft(Passes(msg, forms), forms, headers, json);
    }
  }

  /** A value of a scheme and a token with nothing to escape has two spellings: those of SchemeForms. */
  lemma SchemeSpellings(n: nat, token: string, json: string -> string)
    requires n < |SCHEMES| && ByteLen(token) >= 4
    requires json(SCHEMES[n] + token) == SCHEMES[n] + token && json(token) == token
    ensures forall t :: IsSpelling(t, SCHEMES[n] + token, json) <==> t == SCHEMES[n] + token || t == token
  {
    ByteLenAppend(SCHEMES[n], token);
    OneScheme(n, token);
    TwoBases(SCHEMES[n] + token, token, json);
  }

  lemma TwoBases(v: string, token: string, json: string -> string)
    requires Bases(v, |SCHEMES|) == [v, token] && json(v) == v && json(token) == token
    requires ByteLen(v) >= 4 && ByteLen(token) >= 4
    ensures forall t :: IsSpelling(t, v, json) <==> t == v || t == token
  {
    hide ByteLen, Bases;
    assert Bases(v, |SCHEMES|)[0] == v && Bases(v, |SCHEMES|)[1] == token;
  }

  lemma OneScheme(n: nat, token: string)
    requires n < |SCHEMES|
    ensures Bases(SCHEMES[n] + token, 3) == [SCHEMES[n] + token, token]
  {
    var v := SCHEMES[n] + token;
    assert v[|SCHEMES[n]|..] == token && SCHEMES[n] <= v;
    assert forall i :: 0 <= i < |SCHEMES| && i != n ==> SCHEMES[i][1] != SCHEMES[n][1];
    assert forall i :: 0 <= i < |SCHEMES| && i != n ==> !(SCHEMES[i] <= v);
    assert Bases(v, 3) == Bases(v, 2) + (if SCHEMES[2] <= v then [v[|SCHEMES[2]|..]] else []);
    assert Bases(v, 2) == Bases(v, 1) + (if SCHEMES[1] <= v then [v[|SCHEMES[1]|..]] else []);
    assert Bases(v, 1) == Bases(v, 0) + (if SCHEMES[0] <= v then [v[|SCHEMES[0]|..]] else []);
  }

  lemma SpellingNotEmpty(t: string, v: string, json: string -> string)
    requires IsSpelling(t, v, json)
    ensures t != ""
  {
  }
}

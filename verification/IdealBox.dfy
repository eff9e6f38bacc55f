/**
  The laws that the sealing proofs assume of a box contradict nothing: a box that keeps the
  associated data and the text side by side, escaped, meets them.
*/
module IdealBox {
  import opened Results
  import opened Secrets

  function Escape(s: string): string {
    if s == "" then ""
    else
      (match s[0]
       case ':' => "%c"
       case '|' => "%b"
       case '%' => "%p"
       case c => [c]) + Escape(s[1..])
  }

  function Unescape(s: string): string {
    if s == "" then ""
    else if s[0] == '%' && |s| > 1 then
      [if s[1] == 'c' then ':' else if s[1] == 'b' then '|' else '%'] + Unescape(s[2..])
    else [s[0]] + Unescape(s[1..])
  }

  lemma {:induction false} EscapeFree(s: string)
    ensures ':' !in Escape(s) && '|' !in Escape(s)
  {
    if s != "" { EscapeFree(s[1..]); }
  }

  lemma {:induction false} UnescapeEscape(s: string)
    ensures Unescape(Escape(s)) == s
  {
    if s != "" {
      var rest := Escape(s[1..]);
      UnescapeEscape(s[1..]);
      assert s == [s[0]] + s[1..];
      if s[0] == ':' || s[0] == '|' || s[0] == '%' {
        assert Escape(s)[2..] == rest;
      } else {
        assert Escape(s)[1..] == rest;
      }
    }
  }

  function PlainSeal(nonce: nat, plain: string, aad: string): string { Escape(aad) + "|" + Escape(plain) }

  function PlainOpen(body: string, aad: string): Option<string> {
    var head := Escape(aad) + "|";
    if head <= body then Some(Unescape(body[|head|..])) else None
  }

  lemma PlainOpensSealed(nonce: nat, plain: string, aad: string, other: string)
    ensures PlainOpen(PlainSeal(nonce, plain, aad), other) == if other == aad then Some(plain) else None
    ensures ':' !in PlainSeal(nonce, plain, aad)
  {
    var body, head := PlainSeal(nonce, plain, aad), Escape(other) + "|";
    EscapeFree(aad);
    EscapeFree(plain);
    EscapeFree(other);
    UnescapeEscape(plain);
    UnescapeEscape(aad);
    UnescapeEscape(other);
    if head <= body {
      SeparatorSplits('|', Escape(aad), Escape(other), Escape(plain), body[|head|..]);
    }
    if other == aad { assert body[|head|..] == Escape(plain); }
  }

  /** The laws of an ideal box can be met. */
  lemma IdealBoxExists() returns (box: Box)
    ensures Ideal(box)
  {
    box := Box(PlainSeal, PlainOpen);
    forall nonce, plain, aad, other ensures box.open(box.seal(nonce, plain, aad), other) == if other == aad then Some(plain) else None {
      PlainOpensSealed(nonce, plain, aad, other);
    }
    forall nonce, plain, aad ensures ':' !in box.seal(nonce, plain, aad) { PlainOpensSealed(nonce, plain, aad, aad); }
  }
}

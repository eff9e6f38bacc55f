/** Tenant credentials at rest: sealed values, their display form and their update (internal/mcp/tenant_secrets.go). */
module Secrets {
  import opened Results

  const SEAL_PREFIX := "enc:v2:"
  const LEGACY_SEAL_PREFIX := "enc:v1:"
  const MASK_PREFIX := "\U{2022}\U{2022}\U{2022}\U{2022}\U{2022}\U{2022}\U{2022}\U{2022}"
  const MASK_MIN_LEN := 16

  /**
    Authenticated encryption with associated data: seal takes a nonce, a text and the data it is
    bound to; open takes what seal made and the data, and fails unless they belong together.
  */
  datatype Box = Box(seal: (nat, string, string) -> string, open: (string, string) -> Option<string>)

  /** An ideal box opens what it sealed, for the same associated data only; sealed texts are base64url. */
  ghost predicate Ideal(box: Box) {
    && (forall nonce, plain, aad, other {:trigger box.open(box.seal(nonce, plain, aad), other)} ::
          box.open(box.seal(nonce, plain, aad), other) == if other == aad then Some(plain) else None)
    && (forall nonce, plain, aad :: ':' !in box.seal(nonce, plain, aad))
  }

  /** The stored header column: nothing, a JSON object of strings, or anything else. */
  datatype Raw = Absent | Object(values: map<string, string>) | Malformed(text: string)

  datatype SecretError = NotAnObject | NotEncrypted | NoSecretKey | DoesNotOpen | NoRandomness | MaskMismatch

  function TenantHeaderAAD(owner: string, serverUUID: string, header: string): string {
    owner + "\U{1f}" + serverUUID + "\U{1f}" + header
  }

  lemma {:induction false} SeparatorSplits(sep: char, a: string, b: string, x: string, y: string)
    requires sep !in a && sep !in b && a + [sep] + x == b + [sep] + y
    ensures a == b && x == y
  {
    var s, t := a + [sep] + x, b + [sep] + y;
    assert (a != "" ==> s[0] == a[0] && a[0] in a) && (b != "" ==> t[0] == b[0] && b[0] in b);
    if a != "" && b != "" {
      assert s[1..] == a[1..] + [sep] + x && t[1..] == b[1..] + [sep] + y;
      SeparatorSplits(sep, a[1..], b[1..], x, y);
      assert a == [a[0]] + a[1..] && b == [b[0]] + b[1..];
    } else {
      assert s[1..] == t[1..];
      assert a == "" ==> s[1..] == x;
      assert b == "" ==> t[1..] == y;
    }
  }

  /** The associated data names one owner, one server and one header. */
  lemma AADIsInjective(owner: string, uuid: string, name: string, owner': string, uuid': string, name': string)
    requires '\U{1f}' !in owner && '\U{1f}' !in owner' && '\U{1f}' !in uuid && '\U{1f}' !in uuid'
    requires TenantHeaderAAD(owner, uuid, name) == TenantHeaderAAD(owner', uuid', name')
    ensures owner == owner' && uuid == uuid' && name == name'
  {
    var rest, rest' := uuid + "\U{1f}" + name, uuid' + "\U{1f}" + name';
    assert owner + "\U{1f}" + rest == TenantHeaderAAD(owner, uuid, name);
    assert owner' + "\U{1f}" + rest' == TenantHeaderAAD(owner', uuid', name');
    SeparatorSplits('\U{1f}', owner, owner', rest, rest');
    SeparatorSplits('\U{1f}', uuid, uuid', name, name');
  }

  predicate IsV2(v: string) { SEAL_PREFIX <= v }

  predicate IsV1(v: string) { LEGACY_SEAL_PREFIX <= v }

  predicate IsSealed(v: string) { IsV2(v) || IsV1(v) }

  lemma OneFormat(v: string)
    ensures !(IsV1(v) && IsV2(v))
  {
    var fifth := if |v| > 5 then v[5] else ' ';
    assert (IsV1(v) ==> fifth == '1') && (IsV2(v) ==> fifth == '2');
  }

  /** One stored value under either format; v1 binds the header name only. */
  function OpenStoredValue(box: Box, v: string, owner: string, serverUUID: string, name: string): Option<string> {
    if IsV2(v) then box.open(v[|SEAL_PREFIX|..], TenantHeaderAAD(owner, serverUUID, name))
    else if IsV1(v) then box.open(v[|LEGACY_SEAL_PREFIX|..], name)
    else None
  }

  function SealedValue(box: Box, nonce: nat, plain: string, owner: string, serverUUID: string, name: string): string {
    SEAL_PREFIX + box.seal(nonce, plain, TenantHeaderAAD(owner, serverUUID, name))
  }

  /** A value opens exactly under the owner, the server and the header it was sealed for. */
  lemma SealedOpensInPlaceOnly(box: Box, nonce: nat, plain: string, owner: string, uuid: string, name: string,
                               owner': string, uuid': string, name': string)
    requires Ideal(box)
    requires '\U{1f}' !in owner && '\U{1f}' !in owner' && '\U{1f}' !in uuid && '\U{1f}' !in uuid'
    ensures OpenStoredValue(box, SealedValue(box, nonce, plain, owner, uuid, name), owner', uuid', name')
         == if owner' == owner && uuid' == uuid && name' == name then Some(plain) else None
  {
    var v := SealedValue(box, nonce, plain, owner, uuid, name);
    assert v[|SEAL_PREFIX|..] == box.seal(nonce, plain, TenantHeaderAAD(owner, uuid, name));
    if TenantHeaderAAD(owner, uuid, name) == TenantHeaderAAD(owner', uuid', name') {
      AADIsInjective(owner, uuid, name, owner', uuid', name');
    }
  }

  /** A value of the first format opens exactly under its header name, whatever owner and server. */
  lemma LegacyBindsNameOnly(box: Box, nonce: nat, plain: string, name: string, owner: string, uuid: string, name': string)
    requires Ideal(box)
    ensures OpenStoredValue(box, "enc:v1:" + box.seal(nonce, plain, name), owner, uuid, name')
         == if name' == name then Some(plain) else None
  {
    var v := "enc:v1:" + box.seal(nonce, plain, name);
    assert v[|LEGACY_SEAL_PREFIX|..] == box.seal(nonce, plain, name);
    OneFormat(v);
  }

  /** Every value opens, so the headers can be used. */
  ghost predicate Usable(values: map<string, string>, box: Option<Box>, owner: string, uuid: string) {
    forall k <- values :: box.Some? && OpenStoredValue(box.value, values[k], owner, uuid, k).Some?
  }

  /** What a stored value is refused for. */
  function Refusal(v: string, box: Option<Box>): SecretError {
    if !IsSealed(v) then NotEncrypted else if box.None? then NoSecretKey else DoesNotOpen
  }

  /** A value is refused as plain text whether there is a key or not, and a sealed one for the key or for not opening. */
  lemma RefusalFits(v: string, box: Option<Box>)
    ensures Refusal(v, box) == NotEncrypted <==> !("enc:v1:" <= v) && !("enc:v2:" <= v)
    ensures Refusal(v, box) == NoSecretKey <==> ("enc:v1:" <= v || "enc:v2:" <= v) && box.None?
    ensures Refusal(v, box) == DoesNotOpen <==> ("enc:v1:" <= v || "enc:v2:" <= v) && box.Some?
  {
  }

  /** Opens all headers or none: nothing is returned unless every value is sealed and opens. */
  method OpenSealedHeaders(raw: Raw, box: Option<Box>, owner: string, uuid: string)
    returns (r: Result<map<string, string>, SecretError>)
    ensures raw.Absent? ==> r == Success(map[])
    ensures raw.Malformed? ==> r == Failure(NotAnObject)
    ensures raw.Object? ==> (r.Success? <==> Usable(raw.values, box, owner, uuid))
    ensures raw.Object? && r.Success? ==>
      && r.value.Keys == raw.values.Keys
      && forall k <- raw.values :: OpenStoredValue(box.value, raw.values[k], owner, uuid, k) == Some(r.value[k])
    ensures raw.Object? && r.Failure? ==> exists k ::
      && k in raw.values && r.error == Refusal(raw.values[k], box)
      && (box.None? || OpenStoredValue(box.value, raw.values[k], owner, uuid, k).None?)
  {
    hide OpenStoredValue;
    if raw.Absent? { return Success(map[]); }
    if raw.Malformed? { return Failure(NotAnObject); }
    var stored, out := raw.values, map[];
    var todo := stored.Keys;
    while todo != {}
      invariant todo <= stored.Keys && out.Keys == stored.Keys - todo
      invariant forall k <- out :: box.Some? && OpenStoredValue(box.value, stored[k], owner, uuid, k) == Some(out[k])
      decreases |todo|
    {
      var k :| k in todo;
      var v := stored[k];
      if !IsSealed(v) {
        Unopened(box, v, owner, uuid, k);
        return Failure(NotEncrypted);
      }
      if box.None? { return Failure(NoSecretKey); }
      var plain := OpenStoredValue(box.value, v, owner, uuid, k);
      if plain.None? { return Failure(DoesNotOpen); }
      out := out[k := plain.value];
      todo := todo - {k};
    }
    return Success(out);
  }

  lemma Unopened(box: Option<Box>, v: string, owner: string, uuid: string, name: string)
    requires !IsSealed(v)
    ensures box.Some? ==> OpenStoredValue(box.value, v, owner, uuid, name).None?
  {
  }

  /** Seals every header in place; draw gives the random nonce for a header, if there is one. */
  method SealHeaders(plain: map<string, string>, box: Option<Box>, owner: string, uuid: string, draw: string -> Option<nat>)
    returns (r: Result<Raw, SecretError>)
    ensures r.Success? <==> forall k <- plain :: box.Some? && draw(k).Some?
    ensures r.Success? ==>
      && r.value.Object? && r.value.values.Keys == plain.Keys
      && forall k <- plain :: r.value.values[k] == SealedValue(box.value, draw(k).value, plain[k], owner, uuid, k)
    ensures r.Failure? ==> r.error == if box.None? then NoSecretKey else NoRandomness
  {
    hide SealedValue;
    var sealed, todo := map[], plain.Keys;
    while todo != {}
      invariant todo <= plain.Keys && sealed.Keys == plain.Keys - todo
      invariant forall k <- sealed ::
        && box.Some? && draw(k).Some?
        && sealed[k] == SealedValue(box.value, draw(k).value, plain[k], owner, uuid, k)
      decreases |todo|
    {
      var k :| k in todo;
      if box.None? { return Failure(NoSecretKey); }
      var nonce := draw(k);
      if nonce.None? { return Failure(NoRandomness); }
      sealed := sealed[k := SealedValue(box.value, nonce.value, plain[k], owner, uuid, k)];
      todo := todo - {k};
    }
    return Success(Object(sealed));
  }

  /** What was sealed opens to what it was; in another place nothing of it opens. */
  method SealThenOpen(plain: map<string, string>, box: Box, owner: string, uuid: string, owner': string, uuid': string,
                      draw: string -> Option<nat>)
    returns (r: Result<map<string, string>, SecretError>)
    requires Ideal(box) && forall k <- plain :: draw(k).Some?
    requires '\U{1f}' !in owner && '\U{1f}' !in owner' && '\U{1f}' !in uuid && '\U{1f}' !in uuid'
    ensures owner' == owner && uuid' == uuid ==> r == Success(plain)
    ensures (owner' != owner || uuid' != uuid) && plain != map[] ==> r == Failure(DoesNotOpen)
  {
    var sealed := SealHeaders(plain, Some(box), owner, uuid, draw);
    forall k | k in plain ensures OpenStoredValue(box, sealed.value.values[k], owner', uuid', k)
        == if owner' == owner && uuid' == uuid then Some(plain[k]) else None
    {
      SealedOpensInPlaceOnly(box, draw(k).value, plain[k], owner, uuid, k, owner', uuid', k);
    }
    hide OpenStoredValue, SealedValue;
    r := OpenSealedHeaders(sealed.value, Some(box), owner', uuid');
    if r.Success? && owner' == owner && uuid' == uuid {
      assert r.value == plain;
    }
    if plain != map[] {
      var k :| k in plain;
    }
  }

  // ---- the display form ----

  function MaskSecret(v: string): string {
    if |v| < MASK_MIN_LEN then MASK_PREFIX else MASK_PREFIX + v[|v| - 4..]
  }

  predicate IsMaskedValue(v: string) { MASK_PREFIX <= v }

  /** A mask tells two credentials apart only by length 16 or more and the last four characters. */
  lemma MaskReveals(a: string, b: string)
    ensures MaskSecret(a) == MaskSecret(b)
      <==> ((|a| < MASK_MIN_LEN && |b| < MASK_MIN_LEN)
            || (|a| >= MASK_MIN_LEN && |b| >= MASK_MIN_LEN && a[|a| - 4..] == b[|b| - 4..]))
  {
    assert |a| >= MASK_MIN_LEN ==> MaskSecret(a)[|MASK_PREFIX|..] == a[|a| - 4..];
    assert |b| >= MASK_MIN_LEN ==> MaskSecret(b)[|MASK_PREFIX|..] == b[|b| - 4..];
  }

  /** What is shown for a stored value: the mask of the credential, or the bare mask when it does not open. */
  function Display(v: string, box: Option<Box>, owner: string, uuid: string, name: string): string {
    if !IsSealed(v) then MaskSecret(v)
    else if box.None? then MASK_PREFIX
    else
      match OpenStoredValue(box.value, v, owner, uuid, name)
      case Some(plain) => MaskSecret(plain)
      case None => MASK_PREFIX
  }

  const BULLETS := "\U{2022}\U{2022}\U{2022}\U{2022}\U{2022}\U{2022}\U{2022}\U{2022}"

  /** A mask is eight bullets and, of a value of sixteen characters or more, its last four. */
  lemma MaskShows(v: string)
    ensures |v| < 16 ==> MaskSecret(v) == BULLETS
    ensures |v| >= 16 ==> |MaskSecret(v)| == 12 && MaskSecret(v)[..8] == BULLETS && v == v[..|v| - 4] + MaskSecret(v)[8..]
  {
    if |v| >= 16 {
      assert MaskSecret(v)[8..] == v[|v| - 4..];
    }
  }

  /** What is displayed of a sealed value: the mask of what was sealed in its own place and with a key, bullets anywhere else. */
  lemma DisplayOfSealed(box: Box, nonce: nat, plain: string, owner: string, uuid: string, name: string,
                        key: Option<Box>, owner': string, uuid': string, name': string)
    requires Ideal(box) && (key.Some? ==> key.value == box)
    requires '\U{1f}' !in owner && '\U{1f}' !in owner' && '\U{1f}' !in uuid && '\U{1f}' !in uuid'
    ensures Display(SealedValue(box, nonce, plain, owner, uuid, name), key, owner', uuid', name')
         == if key.Some? && owner' == owner && uuid' == uuid && name' == name && |plain| >= 16
            then BULLETS + plain[|plain| - 4..] else BULLETS
  {
    SealedOpensInPlaceOnly(box, nonce, plain, owner, uuid, name, owner', uuid', name');
    hide OpenStoredValue;
    assert SEAL_PREFIX <= SealedValue(box, nonce, plain, owner, uuid, name);
    MaskShows(plain);
    assert |plain| >= 16 ==> plain[|plain| - 4..] == MaskSecret(plain)[8..];
  }

  /** A plain value is displayed as its mask, with or without a key. */
  lemma DisplayOfPlain(v: string, key: Option<Box>, owner: string, uuid: string, name: string)
    requires !("enc:v1:" <= v) && !("enc:v2:" <= v)
    ensures Display(v, key, owner, uuid, name) == if |v| >= 16 then BULLETS + v[|v| - 4..] else BULLETS
  {
  }

  method MaskHeaders(raw: Raw, box: Option<Box>, owner: string, uuid: string) returns (out: map<string, string>)
    ensures out.Keys == if raw.Object? then raw.values.Keys else {}
    ensures forall k <- out :: out[k] == Display(raw.values[k], box, owner, uuid, k) && IsMaskedValue(out[k])
  {
    out := map[];
    if !raw.Object? { return; }
    var stored, todo := raw.values, raw.values.Keys;
    while todo != {}
      invariant todo <= stored.Keys && out.Keys == stored.Keys - todo
      invariant forall k <- out :: out[k] == Display(stored[k], box, owner, uuid, k) && IsMaskedValue(out[k])
      decreases |todo|
    {
      var k :| k in todo;
      var v := stored[k];
      if !IsSealed(v) {
        out := out[k := MaskSecret(v)];
      } else if box.None? {
        out := out[k := MASK_PREFIX];
      } else {
        var plain := OpenStoredValue(box.value, v, owner, uuid, k);
        out := out[k := if plain.Some? then MaskSecret(plain.value) else MASK_PREFIX];
      }
      todo := todo - {k};
    }
  }

  /** A submitted value that can be taken: a full one, or the mask of the plaintext credential stored there. */
  predicate Acceptable(k: string, v: string, stored: map<string, string>) {
    IsMaskedValue(v) ==> k in stored && !IsSealed(stored[k]) && MaskSecret(stored[k]) == v
  }

  /**
    A mask is taken for a stored plain credential exactly if it is that one's own: both short, or both
    long and alike in the last four characters. It is never taken for a sealed or a missing one.
  */
  lemma MaskAcceptedExactlyIf(k: string, other: string, stored: map<string, string>)
    ensures Acceptable(k, MaskSecret(other), stored) <==>
      && k in stored && !("enc:v1:" <= stored[k]) && !("enc:v2:" <= stored[k])
      && if |other| < 16 then |stored[k]| < 16 else |stored[k]| >= 16 && other[|other| - 4..] == stored[k][|stored[k]| - 4..]
  {
    hide MaskSecret;
    MaskShows(other);
    assert MASK_PREFIX <= MaskSecret(other) by {
      if |other| >= 16 { assert MaskSecret(other) == MaskSecret(other)[..8] + MaskSecret(other)[8..]; }
    }
    if k in stored { MaskReveals(other, stored[k]); }
  }

  /** A value that does not look like a mask is always taken, and one that does only if it is a mask. */
  lemma OtherValuesAccepted(k: string, v: string, stored: map<string, string>)
    ensures !(BULLETS <= v) ==> Acceptable(k, v, stored)
    ensures BULLETS <= v && Acceptable(k, v, stored) ==> k in stored && v == MaskSecret(stored[k])
  {
  }

  method MergeMaskedHeaders(submitted: map<string, string>, existing: Raw) returns (r: Result<Raw, SecretError>)
    ensures existing.Malformed? ==> r == Failure(NotAnObject)
    ensures !existing.Malformed? ==>
      var stored := if existing.Object? then existing.values else map[];
      && (r.Success? <==> forall k <- submitted :: Acceptable(k, submitted[k], stored))
      && (r.Failure? ==> r.error == MaskMismatch)
      && (r.Success? ==> r.value.Object? && r.value.values.Keys == submitted.Keys)
      && (r.Success? ==> forall k <- submitted ::
            r.value.values[k] == if IsMaskedValue(submitted[k]) then stored[k] else submitted[k])
  {
    var stored: map<string, string> := map[];
    if existing.Malformed? { return Failure(NotAnObject); }
    if existing.Object? { stored := existing.values; }
    var out, todo := map[], submitted.Keys;
    while todo != {}
      invariant todo <= submitted.Keys && out.Keys == submitted.Keys - todo
      invariant forall k <- out ::
        && Acceptable(k, submitted[k], stored)
        && out[k] == if IsMaskedValue(submitted[k]) then stored[k] else submitted[k]
      decreases |todo|
    {
      var k :| k in todo;
      var v := submitted[k];
      todo := todo - {k};
      if !IsMaskedValue(v) {
        out := out[k := v];
        continue;
      }
      if k !in stored || IsSealed(stored[k]) || MaskSecret(stored[k]) != v {
        assert !Acceptable(k, submitted[k], stored);
        return Failure(MaskMismatch);
      }
      out := out[k := stored[k]];
    }
    return Success(Object(out));
  }

  /** Submitting the masked display unchanged keeps every credential, exactly if none of them is sealed. */
  method MaskThenMerge(existing: map<string, string>) returns (r: Result<Raw, SecretError>)
    ensures r == Success(Object(existing)) <==> forall k <- existing :: !IsSealed(existing[k])
    ensures r.Failure? ==> r.error == MaskMismatch
  {
    hide MaskSecret, IsSealed;
    var shown := MaskHeaders(Object(existing), None, "", "");
    r := MergeMaskedHeaders(shown, Object(existing));
    if r.Success? {
      assert forall k <- shown :: Acceptable(k, shown[k], existing);
      assert r.value.values == existing;
    }
  }
}

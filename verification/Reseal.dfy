/**
  The boot-time migration of tenant credentials from the first sealed format to the second
  (internal/mcp/tenant_reseal.go), over a store with compare-and-set (internal/db/tenant_servers.go).
*/
module Reseal {
  import opened Results
  import opened Secrets
  import opened Text

  /** A server row; only rows of tenants have an owner and are migrated. */
  datatype Row = Row(tenantManaged: bool, owner: Option<string>, headers: Raw)

  type Rows = map<string, Row>

  predicate Mentions(s: string) { Contains(s, LEGACY_SEAL_PREFIX) }

  /** The text of the column mentions the first format. */
  predicate Marked(raw: Raw) {
    match raw
    case Absent => false
    case Malformed(text) => Mentions(text)
    case Object(values) => exists k :: k in values && (Mentions(k) || Mentions(values[k]))
  }

  /** The WHERE clause of the listing query. */
  predicate IsLegacyRow(r: Row) { r.tenantManaged && r.owner.Some? && Marked(r.headers) }

  /** A row as the migration reads it. */
  datatype HeaderRow = HeaderRow(uuid: string, owner: string, headers: Raw)

  /** The rows to migrate, in order of creation. */
  function Listed(rows: Rows, order: seq<string>): seq<HeaderRow> {
    if order == [] then []
    else
      var rest := Listed(rows, order[1..]);
      if order[0] in rows && IsLegacyRow(rows[order[0]])
      then [HeaderRow(order[0], rows[order[0]].owner.value, rows[order[0]].headers)] + rest
      else rest
  }

  predicate Distinct(order: seq<string>) { forall i, j :: 0 <= i < j < |order| ==> order[i] != order[j] }

  predicate IsReadFrom(h: HeaderRow, rows: Rows) {
    h.uuid in rows && IsLegacyRow(rows[h.uuid]) && rows[h.uuid].owner == Some(h.owner) && rows[h.uuid].headers == h.headers
  }

  ghost predicate WellRead(listed: seq<HeaderRow>, rows: Rows, order: seq<string>) {
    && (forall i :: 0 <= i < |listed| ==> listed[i].uuid in order && IsReadFrom(listed[i], rows))
    && (forall i, j :: 0 <= i < j < |listed| ==> listed[i].uuid != listed[j].uuid)
  }

  /** What is listed was read from a row of a tenant that mentions the first format, each once. */
  lemma {:induction false} ListedRows(rows: Rows, order: seq<string>)
    requires Distinct(order)
    ensures WellRead(Listed(rows, order), rows, order)
  {
    if order != [] {
      ListedRows(rows, order[1..]);
      MoreRead(Listed(rows, order[1..]), rows, order);
      if order[0] in rows && IsLegacyRow(rows[order[0]]) {
        var h := HeaderRow(order[0], rows[order[0]].owner.value, rows[order[0]].headers);
        OneMoreRead(h, Listed(rows, order[1..]), rows, order);
      }
    }
  }

  lemma MoreRead(rest: seq<HeaderRow>, rows: Rows, order: seq<string>)
    requires order != [] && Distinct(order) && WellRead(rest, rows, order[1..])
    ensures WellRead(rest, rows, order) && forall i :: 0 <= i < |rest| ==> rest[i].uuid != order[0]
  {
    assert forall u <- order[1..] :: u in order && u != order[0];
  }

  lemma OneMoreRead(h: HeaderRow, rest: seq<HeaderRow>, rows: Rows, order: seq<string>)
    requires WellRead(rest, rows, order) && h.uuid in order && IsReadFrom(h, rows)
    requires forall i :: 0 <= i < |rest| ==> rest[i].uuid != h.uuid
    ensures WellRead([h] + rest, rows, order)
  {
    hide IsReadFrom;
    assert forall i :: 0 < i < |[h] + rest| ==> ([h] + rest)[i] == rest[i - 1];
  }

  /** Where the row of a listed server stands in the order of creation. */
  function Position(order: seq<string>, u: string): nat { if order == [] || order[0] == u then 0 else 1 + Position(order[1..], u) }

  /** The listing keeps the order of creation. */
  lemma {:induction false} ListedInOrder(rows: Rows, order: seq<string>)
    requires Distinct(order)
    ensures forall i, j :: 0 <= i < j < |Listed(rows, order)| ==>
      Position(order, Listed(rows, order)[i].uuid) < Position(order, Listed(rows, order)[j].uuid)
  {
    hide IsLegacyRow;
    if order != [] {
      var rest := Listed(rows, order[1..]);
      ListedInOrder(rows, order[1..]);
      ListedRows(rows, order[1..]);
      forall j | 0 <= j < |rest| ensures Position(order, rest[j].uuid) == 1 + Position(order[1..], rest[j].uuid) {
        assert rest[j].uuid in order[1..];
      }
    }
  }

  lemma {:induction false} EveryLegacyRowIsListed(rows: Rows, order: seq<string>, u: string) returns (i: nat)
    requires u in order && u in rows && IsLegacyRow(rows[u])
    ensures i < |Listed(rows, order)| && Listed(rows, order)[i].uuid == u
  {
    hide IsLegacyRow;
    if order[0] == u { return 0; }
    i := EveryLegacyRowIsListed(rows, order[1..], u);
    if Listed(rows, order) != Listed(rows, order[1..]) { i := i + 1; }
  }

  // ---- one row ----

  datatype ResealError =
    | NoKey | RowNotAnObject | Plaintext | LegacyDoesNotOpen | NonceFailed | ChangedConcurrently | NotFound

  function OpenLegacy(box: Box, v: string, name: string): Option<string>
    requires IsV1(v)
  {
    box.open(v[|LEGACY_SEAL_PREFIX|..], name)
  }

  /** The nonces a run draws, by server and header. */
  type Draw = (string, string) -> Option<nat>

  /** A value that the migration can carry over. */
  predicate ReadyValue(v: string, name: string, uuid: string, box: Box, draw: Draw) {
    IsV2(v) || (IsV1(v) && OpenLegacy(box, v, name).Some? && draw(uuid, name).Some?)
  }

  predicate Ready(h: HeaderRow, box: Box, draw: Draw) {
    h.headers.Object? && forall k <- h.headers.values :: ReadyValue(h.headers.values[k], k, h.uuid, box, draw)
  }

  /** A value of the second format stays; one of the first is sealed anew for its place. */
  function Carried(v: string, name: string, h: HeaderRow, box: Box, draw: Draw): string
    requires ReadyValue(v, name, h.uuid, box, draw)
  {
    if IsV2(v) then v
    else SealedValue(box, draw(h.uuid, name).value, OpenLegacy(box, v, name).value, h.owner, h.uuid, name)
  }

  /** What keeps a value from being carried over. */
  function Obstacle(v: string, name: string, box: Box): ResealError {
    if !IsV1(v) then Plaintext else if OpenLegacy(box, v, name).None? then LegacyDoesNotOpen else NonceFailed
  }

  /** What keeps a row from being carried over. */
  predicate Hinders(e: ResealError, h: HeaderRow, box: Box, draw: Draw) {
    if e == RowNotAnObject then !h.headers.Object?
    else
      && h.headers.Object?
      && exists k ::
        && k in h.headers.values && !ReadyValue(h.headers.values[k], k, h.uuid, box, draw)
        && e == Obstacle(h.headers.values[k], k, box)
  }

  lemma ObstacleIsOfValue(v: string, name: string, box: Box)
    ensures var e := Obstacle(v, name, box); e != RowNotAnObject && e != NoKey && !IsConflict(e)
  {
  }

  predicate IsCarried(h: HeaderRow, out: Raw, box: Box, draw: Draw) {
    && Ready(h, box, draw) && out.Object? && out.values.Keys == h.headers.values.Keys
    && forall k <- out.values :: out.values[k] == Carried(h.headers.values[k], k, h, box, draw)
  }

  /** A value of the second format stays, one of the first is opened and sealed anew, any other is refused. */
  method ResealValue(v: string, name: string, h: HeaderRow, box: Box, draw: Draw) returns (r: Result<string, ResealError>)
    ensures r == if ReadyValue(v, name, h.uuid, box, draw) then Success(Carried(v, name, h, box, draw))
                 else Failure(Obstacle(v, name, box))
    ensures r == Failure(Plaintext) <==> !IsSealed(v)
    ensures r == Failure(LegacyDoesNotOpen) <==> IsV1(v) && box.open(v[|LEGACY_SEAL_PREFIX|..], name) == None
    ensures r == Failure(NonceFailed) <==>
      IsV1(v) && box.open(v[|LEGACY_SEAL_PREFIX|..], name) != None && draw(h.uuid, name) == None
  {
    OneFormat(v);
    if IsV2(v) { return Success(v); }
    if !IsV1(v) { return Failure(Plaintext); }
    var plain := OpenLegacy(box, v, name);
    if plain.None? { return Failure(LegacyDoesNotOpen); }
    var nonce := draw(h.uuid, name);
    if nonce.None? { return Failure(NonceFailed); }
    return Success(SealedValue(box, nonce.value, plain.value, h.owner, h.uuid, name));
  }

  method ResealRow(h: HeaderRow, box: Box, draw: Draw) returns (r: Result<Raw, ResealError>)
    ensures r.Success? <==> Ready(h, box, draw)
    ensures r.Success? ==> IsCarried(h, r.value, box, draw)
    ensures r.Failure? ==> Hinders(r.error, h, box, draw) && r.error != NoKey && !IsConflict(r.error)
  {
    hide SealedValue, ReadyValue, Carried, Obstacle;
    if !h.headers.Object? { return Failure(RowNotAnObject); }
    var stored, out := h.headers.values, map[];
    var todo := stored.Keys;
    while todo != {}
      invariant todo <= stored.Keys && out.Keys == stored.Keys - todo
      invariant forall k <- out :: ReadyValue(stored[k], k, h.uuid, box, draw) && out[k] == Carried(stored[k], k, h, box, draw)
      decreases |todo|
    {
      var name :| name in todo;
      var carried := ResealValue(stored[name], name, h, box, draw);
      if carried.Failure? {
        ObstacleIsOfValue(stored[name], name, box);
        return Failure(carried.error);
      }
      out := out[name := carried.value];
      todo := todo - {name};
    }
    return Success(Object(out));
  }

  // ---- the whole run ----

  /** What a column that was read as absent is compared with. */
  function Stored(read: Raw): Raw { if read.Absent? then Object(map[]) else read }

  class HeaderStore {
    var rows: Rows
    const order: seq<string>

    constructor (rows: Rows, order: seq<string>)
      ensures this.rows == rows && this.order == order
    {
      this.rows, this.order := rows, order;
    }

    /** Anyone may write between two statements of the migration. */
    method OtherWriters(change: Rows -> Rows)
      modifies this
      ensures rows == change(old(rows))
    {
      rows := change(rows);
    }

    /** Replaces the headers of a tenant row only while it still holds what was read. */
    method SetTenantHeaders(uuid: string, expected: Raw, headers: Raw) returns (err: Option<ResealError>)
      modifies this
      ensures var r := old(rows);
        if uuid in r && r[uuid].tenantManaged && r[uuid].headers == Stored(expected)
        then err == None && rows == r[uuid := r[uuid].(headers := headers)]
        else rows == r && err == Some(if uuid in r && r[uuid].tenantManaged then ChangedConcurrently else NotFound)
    {
      var stored := if expected.Absent? then Object(map[]) else expected;
      if uuid in rows && rows[uuid].tenantManaged && rows[uuid].headers == stored {
        rows := rows[uuid := rows[uuid].(headers := headers)];
        return None;
      }
      if uuid in rows && rows[uuid].tenantManaged { return Some(ChangedConcurrently); }
      return Some(NotFound);
    }
  }

  datatype Write = Write(row: HeaderRow, headers: Raw)

  /** What others write before the i-th compare-and-set. */
  type Others = (nat, Rows) -> Rows

  function Put(rows: Rows, w: Write): Rows {
    if w.row.uuid in rows then rows[w.row.uuid := rows[w.row.uuid].(headers := w.headers)] else rows
  }

  /** The rows after so many writes of the migration, each preceded by the writes of others. */
  function Written(rows: Rows, writes: seq<Write>, others: Others): Rows {
    if writes == [] then rows
    else
      var n := |writes| - 1;
      Put(others(n, Written(rows, writes[..n], others)), writes[n])
  }

  /** The row is no longer as it was read. */
  predicate Misses(h: HeaderRow, rows: Rows) {
    !(h.uuid in rows && rows[h.uuid].tenantManaged && rows[h.uuid].headers == Stored(h.headers))
  }

  /** Each write found the row as it was read. */
  predicate Landed(rows: Rows, writes: seq<Write>, others: Others) {
    writes == [] ||
    var n := |writes| - 1;
    Landed(rows, writes[..n], others) && !Misses(writes[n].row, others(n, Written(rows, writes[..n], others)))
  }

  predicate IsConflict(e: ResealError) { e == ChangedConcurrently || e == NotFound }

  /**
    What a run of the migration comes to: the listed rows are carried over one by one, in order, up
    to the first one that cannot be, or that somebody else wrote in the meantime.
  */
  ghost predicate Outcome(rows: Rows, listed: seq<HeaderRow>, box: Option<Box>, draw: Draw, others: Others,
                          writes: seq<Write>, err: Option<ResealError>, final: Rows) {
    var done, last := |writes|, Written(rows, writes, others);
    && Carries(listed, box, draw, writes) && Landed(rows, writes, others)
    && final == (if err.Some? && IsConflict(err.value) then others(done, last) else last)
    && match err
       case None => done == |listed|
       case Some(e) =>
         && done < |listed|
         && if e == NoKey then box.None?
            else box.Some? && if IsConflict(e) then Misses(listed[done], others(done, last))
                              else Hinders(e, listed[done], box.value, draw) && !Ready(listed[done], box.value, draw)
  }

  /** The writes carry over the first listed rows. */
  ghost predicate Carries(listed: seq<HeaderRow>, box: Option<Box>, draw: Draw, writes: seq<Write>) {
    && |writes| <= |listed| && (writes != [] ==> box.Some?)
    && forall i :: 0 <= i < |writes| ==> writes[i].row == listed[i] && IsCarried(listed[i], writes[i].headers, box.value, draw)
  }

  lemma OneMoreWrite(rows: Rows, listed: seq<HeaderRow>, box: Option<Box>, draw: Draw, others: Others,
                     writes: seq<Write>, w: Write)
    requires Carries(listed, box, draw, writes) && Landed(rows, writes, others) && |writes| < |listed|
    requires box.Some? && w.row == listed[|writes|] && IsCarried(w.row, w.headers, box.value, draw)
    requires !Misses(w.row, others(|writes|, Written(rows, writes, others)))
    ensures Carries(listed, box, draw, writes + [w]) && Landed(rows, writes + [w], others)
    ensures Written(rows, writes + [w], others) == Put(others(|writes|, Written(rows, writes, others)), w)
  {
    hide IsCarried;
    assert (writes + [w])[..|writes|] == writes;
  }

  lemma NoWriteYet(rows: Rows, listed: seq<HeaderRow>, box: Option<Box>, draw: Draw, others: Others)
    ensures Carries(listed, box, draw, []) && Landed(rows, [], others) && Written(rows, [], others) == rows
  {
  }

  /** Rewrites every listed row and tells how many it rewrote; stops at the first error. */
  method ResealLegacyTenantHeaders(store: HeaderStore, box: Option<Box>, draw: Draw, others: Others)
    returns (done: nat, err: Option<ResealError>, ghost writes: seq<Write>)
    modifies store
    ensures done == |writes|
    ensures Outcome(old(store.rows), Listed(old(store.rows), store.order), box, draw, others, writes, err, store.rows)
  {
    hide Ready, IsCarried, Hinders, Written, Carries, Landed, Listed;
    var rows := Listed(store.rows, store.order);
    done, writes := 0, [];
    NoWriteYet(store.rows, rows, box, draw, others);
    if |rows| == 0 { return 0, None, []; }
    if box.None? { return 0, Some(NoKey), []; }
    while done < |rows|
      invariant done == |writes| <= |rows|
      invariant store.rows == Written(old(store.rows), writes, others)
      invariant Carries(rows, box, draw, writes) && Landed(old(store.rows), writes, others)
    {
      var row := rows[done];
      var out := ResealRow(row, box.value, draw);
      if out.Failure? { return done, Some(out.error), writes; }
      store.OtherWriters(r => others(done, r));
      var conflict := store.SetTenantHeaders(row.uuid, row.headers, out.value);
      if conflict.Some? { return done, conflict, writes; }
      OneMoreWrite(old(store.rows), rows, box, draw, others, writes, Write(row, out.value));
      writes := writes + [Write(row, out.value)];
      done := done + 1;
    }
    err := None;
  }

  // ---- what a run leaves behind when nobody else writes ----

  ghost predicate Quiet(others: Others) { forall i, rows :: others(i, rows) == rows }

  /** Undisturbed, exactly the first rows change, each into what it is carried over to. */
  lemma {:induction false} WrittenQuietly(rows: Rows, writes: seq<Write>, others: Others, uuid: string)
    requires Quiet(others) && uuid in rows
    requires forall i, j :: 0 <= i < j < |writes| ==> writes[i].row.uuid != writes[j].row.uuid
    ensures uuid in Written(rows, writes, others)
    ensures forall i :: 0 <= i < |writes| && writes[i].row.uuid == uuid ==>
      Written(rows, writes, others)[uuid] == rows[uuid].(headers := writes[i].headers)
    ensures (forall i :: 0 <= i < |writes| ==> writes[i].row.uuid != uuid) ==> Written(rows, writes, others)[uuid] == rows[uuid]
  {
    if writes != [] {
      var n := |writes| - 1;
      WrittenQuietly(rows, writes[..n], others, uuid);
      assert others(n, Written(rows, writes[..n], others)) == Written(rows, writes[..n], others);
    }
  }

  /** Undisturbed, no compare-and-set fails. */
  lemma NoConflict(rows: Rows, order: seq<string>, box: Option<Box>, draw: Draw, others: Others, writes: seq<Write>,
                   err: Option<ResealError>, final: Rows)
    requires Distinct(order) && Quiet(others)
    requires Outcome(rows, Listed(rows, order), box, draw, others, writes, err, final)
    ensures final == Written(rows, writes, others) && (err.Some? ==> !IsConflict(err.value))
    ensures forall i, j :: 0 <= i < j < |writes| ==> writes[i].row.uuid != writes[j].row.uuid
  {
    hide IsCarried, Ready, Hinders, IsLegacyRow, Listed, Written, Landed, IsReadFrom;
    var listed, n := Listed(rows, order), |writes|;
    ListedRows(rows, order);
    assert forall i :: 0 <= i < n ==> writes[i].row == listed[i];
    assert others(n, Written(rows, writes, others)) == Written(rows, writes, others);
    if n < |listed| {
      FromTenant(listed[n], rows);
      WrittenQuietly(rows, writes, others, listed[n].uuid);
    }
  }

  /** Undisturbed, the migration succeeds exactly if there is a key and every listed row can be carried over. */
  lemma SucceedsExactlyIf(rows: Rows, order: seq<string>, box: Option<Box>, draw: Draw, others: Others, writes: seq<Write>,
                          err: Option<ResealError>, final: Rows)
    requires Distinct(order) && Quiet(others)
    requires Outcome(rows, Listed(rows, order), box, draw, others, writes, err, final)
    ensures var listed := Listed(rows, order);
      err.None? <==> listed == [] || (box.Some? && forall i :: 0 <= i < |listed| ==> Ready(listed[i], box.value, draw))
  {
    hide Ready, Hinders, Listed, Landed;
    NoConflict(rows, order, box, draw, others, writes, err, final);
  }

  /** A tenant's row that mentions the first format but cannot be read as an object keeps the migration from succeeding. */
  lemma UnreadableRowIsReported(rows: Rows, order: seq<string>, box: Option<Box>, draw: Draw, others: Others, writes: seq<Write>,
                                err: Option<ResealError>, final: Rows, u: string)
    requires Distinct(order) && Quiet(others) && u in order && u in rows
    requires Outcome(rows, Listed(rows, order), box, draw, others, writes, err, final)
    requires rows[u].tenantManaged && rows[u].owner.Some? && rows[u].headers.Malformed?
    requires Contains(rows[u].headers.text, "enc:v1:")
    ensures err.Some?
  {
    hide Outcome, Hinders, Listed, Contains;
    var i := EveryLegacyRowIsListed(rows, order, u);
    ListedRows(rows, order);
    SucceedsExactlyIf(rows, order, box, draw, others, writes, err, final);
    if box.Some? { assert !Ready(Listed(rows, order)[i], box.value, draw); }
  }

  // ---- meaning ----

  /** Two header columns of a server that open to the same credentials, value by value. */
  ghost predicate SameMeaning(r: Row, s: Row, uuid: string, box: Box) {
    && s.tenantManaged == r.tenantManaged && s.owner == r.owner
    && if r.headers.Object? && r.owner.Some? then
         && s.headers.Object? && s.headers.values.Keys == r.headers.values.Keys
         && forall k <- r.headers.values ::
              OpenStoredValue(box, s.headers.values[k], r.owner.value, uuid, k)
              == OpenStoredValue(box, r.headers.values[k], r.owner.value, uuid, k)
       else s.headers == r.headers
  }

  /** A value opens as before once it is carried over. */
  lemma CarriedOpensTheSame(v: string, name: string, h: HeaderRow, box: Box, draw: Draw)
    requires Ideal(box) && ReadyValue(v, name, h.uuid, box, draw)
    ensures OpenStoredValue(box, Carried(v, name, h, box, draw), h.owner, h.uuid, name)
         == OpenStoredValue(box, v, h.owner, h.uuid, name)
    ensures IsV2(Carried(v, name, h, box, draw))
  {
    if !IsV2(v) {
      var aad, nonce := TenantHeaderAAD(h.owner, h.uuid, name), draw(h.uuid, name).value;
      var sealed := Carried(v, name, h, box, draw);
      assert sealed[|SEAL_PREFIX|..] == box.seal(nonce, OpenLegacy(box, v, name).value, aad);
    }
  }

  /**
    A write of the migration that lands keeps the meaning of its row, whatever others wrote before,
    exactly if the server still has the owner that was read, or there was nothing to seal anew.
  */
  lemma WriteKeepsMeaning(now: Rows, w: Write, box: Box, draw: Draw)
    requires Ideal(box) && IsCarried(w.row, w.headers, box, draw) && !Misses(w.row, now)
    requires '\U{1f}' !in w.row.owner && '\U{1f}' !in w.row.uuid
    requires now[w.row.uuid].owner.Some? ==> '\U{1f}' !in now[w.row.uuid].owner.value
    ensures SameMeaning(now[w.row.uuid], Put(now, w)[w.row.uuid], w.row.uuid, box)
      <==> (now[w.row.uuid].owner == Some(w.row.owner) || AllV2(w.row.headers.values))
    ensures forall u <- now :: u != w.row.uuid ==> Put(now, w)[u] == now[u]
  {
    hide OpenStoredValue, Carried, ReadyValue, AllV2;
    if now[w.row.uuid].owner == Some(w.row.owner) {
      WriteForOwnerKeepsMeaning(now, w, box, draw);
    } else {
      WriteForOtherOwner(now, w, box, draw);
    }
  }

  predicate AllV2(values: map<string, string>) { forall k <- values :: IsV2(values[k]) }

  lemma WriteForOwnerKeepsMeaning(now: Rows, w: Write, box: Box, draw: Draw)
    requires Ideal(box) && IsCarried(w.row, w.headers, box, draw)
    requires !Misses(w.row, now) && now[w.row.uuid].owner == Some(w.row.owner)
    ensures SameMeaning(now[w.row.uuid], Put(now, w)[w.row.uuid], w.row.uuid, box)
    ensures forall u <- now :: u != w.row.uuid ==> Put(now, w)[u] == now[u]
  {
    hide OpenStoredValue, Carried;
    forall k | k in w.headers.values
      ensures OpenStoredValue(box, w.headers.values[k], w.row.owner, w.row.uuid, k)
           == OpenStoredValue(box, w.row.headers.values[k], w.row.owner, w.row.uuid, k)
    {
      CarriedOpensTheSame(w.row.headers.values[k], k, w.row, box, draw);
    }
  }

  /** Under another owner, or none, a value sealed anew is lost: it opened before and does not now. */
  lemma WriteForOtherOwner(now: Rows, w: Write, box: Box, draw: Draw)
    requires Ideal(box) && IsCarried(w.row, w.headers, box, draw)
    requires !Misses(w.row, now) && now[w.row.uuid].owner != Some(w.row.owner)
    requires '\U{1f}' !in w.row.owner && '\U{1f}' !in w.row.uuid
    requires now[w.row.uuid].owner.Some? ==> '\U{1f}' !in now[w.row.uuid].owner.value
    ensures SameMeaning(now[w.row.uuid], Put(now, w)[w.row.uuid], w.row.uuid, box) <==> AllV2(w.row.headers.values)
  {
    var before, after := w.row.headers.values, w.headers.values;
    if AllV2(before) {
      assert after == before;
    } else {
      var k :| k in before && !IsV2(before[k]);
      var nonce, plain := draw(w.row.uuid, k).value, OpenLegacy(box, before[k], k).value;
      assert after[k] == SealedValue(box, nonce, plain, w.row.owner, w.row.uuid, k);
      if now[w.row.uuid].owner.Some? {
        var owner := now[w.row.uuid].owner.value;
        SealedOpensInPlaceOnly(box, nonce, plain, w.row.owner, w.row.uuid, k, owner, w.row.uuid, k);
        assert OpenStoredValue(box, before[k], owner, w.row.uuid, k) == Some(plain);
      } else {
        assert IsV2(after[k]);
      }
    }
  }

  /** Undisturbed and whatever the outcome: every row means what it meant, and only the first rows were rewritten. */
  lemma MeaningIsPreserved(rows: Rows, order: seq<string>, box: Box, draw: Draw, others: Others, writes: seq<Write>,
                           err: Option<ResealError>, final: Rows, uuid: string)
    requires Ideal(box) && Distinct(order) && Quiet(others) && uuid in rows
    requires Outcome(rows, Listed(rows, order), Some(box), draw, others, writes, err, final)
    ensures uuid in final && SameMeaning(rows[uuid], final[uuid], uuid, box)
    ensures (forall i :: 0 <= i < |writes| ==> Listed(rows, order)[i].uuid != uuid) ==> final[uuid] == rows[uuid]
  {
    hide IsCarried, Ready, Hinders, Listed, Landed, SameMeaning, OpenStoredValue, IsLegacyRow;
    var listed := Listed(rows, order);
    NoConflict(rows, order, Some(box), draw, others, writes, err, final);
    WrittenQuietly(rows, writes, others, uuid);
    ListedRows(rows, order);
    if i :| 0 <= i < |writes| && writes[i].row.uuid == uuid {
      FromTenant(listed[i], rows);
      WriteForOwnerKeepsMeaning(rows, writes[i], box, draw);
    } else {
      SameRow(rows[uuid], uuid, box);
    }
  }

  lemma FromTenant(h: HeaderRow, rows: Rows)
    requires IsReadFrom(h, rows)
    ensures h.uuid in rows && !Misses(h, rows) && rows[h.uuid].owner == Some(h.owner)
  {
  }

  lemma SameRow(r: Row, uuid: string, box: Box)
    ensures SameMeaning(r, r, uuid, box)
  {
  }

  // ---- running it again ----

  lemma OccurrenceSpells(v: string, i: int)
    requires OccursAt(v, LEGACY_SEAL_PREFIX, i)
    ensures i + 7 <= |v| && v[i + 5] == '1' && v[i + 6] == ':'
  {
    assert v[i..][5] == '1' && v[i..][6] == ':';
  }

  /** A value as sealing makes it does not mention the first format. */
  lemma SealedMentionsNothing(body: string)
    requires ':' !in body
    ensures !Mentions(SEAL_PREFIX + body)
  {
    var v := SEAL_PREFIX + body;
    assert forall j :: |SEAL_PREFIX| <= j < |v| ==> v[j] in body;
    assert v[5] == '2';
    forall i | 0 <= i <= |v| ensures !OccursAt(v, LEGACY_SEAL_PREFIX, i) {
      if OccursAt(v, LEGACY_SEAL_PREFIX, i) { OccurrenceSpells(v, i); }
    }
  }

  lemma LegacyMentions(v: string)
    requires IsV1(v)
    ensures Mentions(v)
  {
    assert v[0..] == v;
    assert OccursAt(v, LEGACY_SEAL_PREFIX, 0);
  }

  /** A mention of the first format that no migration removes: in a header name or inside a value of the second. */
  predicate Sticks(raw: Raw) {
    raw.Object? && exists k :: k in raw.values && (Mentions(k) || (IsV2(raw.values[k]) && Mentions(raw.values[k])))
  }

  /** A carried-over row mentions the first format exactly where the mention sticks. */
  lemma StillMarkedExactlyIf(h: HeaderRow, out: Raw, box: Box, draw: Draw)
    requires Ideal(box) && IsCarried(h, out, box, draw)
    ensures Marked(out) <==> Sticks(h.headers)
    ensures forall k <- out.values :: IsV2(out.values[k])
  {
    hide Mentions;
    forall k | k in out.values
      ensures IsV2(out.values[k])
      ensures Mentions(out.values[k]) <==> IsV2(h.headers.values[k]) && Mentions(h.headers.values[k])
    {
      var v := h.headers.values[k];
      if !IsV2(v) {
        SealedMentionsNothing(box.seal(draw(h.uuid, k).value, OpenLegacy(box, v, k).value, TenantHeaderAAD(h.owner, h.uuid, k)));
      }
    }
    if Sticks(h.headers) {
      var k :| k in h.headers.values && (Mentions(k) || (IsV2(h.headers.values[k]) && Mentions(h.headers.values[k])));
      assert k in out.values;
    }
    if Marked(out) {
      var k :| k in out.values && (Mentions(k) || Mentions(out.values[k]));
      assert k in h.headers.values;
    }
  }

  /** After an undisturbed success no tenant row holds a value of the first format. */
  lemma NoLegacyValueLeft(rows: Rows, order: seq<string>, box: Option<Box>, draw: Draw, others: Others, writes: seq<Write>,
                          final: Rows, uuid: string, name: string)
    requires box.Some? ==> Ideal(box.value)
    requires Distinct(order) && Quiet(others) && uuid in rows && uuid in order
    requires Outcome(rows, Listed(rows, order), box, draw, others, writes, None, final)
    requires rows[uuid].tenantManaged && rows[uuid].owner.Some?
    ensures uuid in final
    ensures final[uuid].headers.Object? && name in final[uuid].headers.values ==> !IsV1(final[uuid].headers.values[name])
    ensures final[uuid].headers != rows[uuid].headers ==> final[uuid].headers.Object?
    ensures final[uuid].headers != rows[uuid].headers ==>
      forall k <- final[uuid].headers.values :: IsV2(final[uuid].headers.values[k])
  {
    hide Listed, Landed, Mentions;
    var listed := Listed(rows, order);
    NoConflict(rows, order, box, draw, others, writes, None, final);
    WrittenQuietly(rows, writes, others, uuid);
    ListedRows(rows, order);
    if IsLegacyRow(rows[uuid]) {
      var i := EveryLegacyRowIsListed(rows, order, uuid);
      StillMarkedExactlyIf(listed[i], writes[i].headers, box.value, draw);
      if name in writes[i].headers.values { OneFormat(writes[i].headers.values[name]); }
    } else {
      assert final[uuid] == rows[uuid];
      if rows[uuid].headers.Object? && name in rows[uuid].headers.values && IsV1(rows[uuid].headers.values[name]) {
        LegacyMentions(rows[uuid].headers.values[name]);
      }
    }
  }

  /**
    After an undisturbed success a second run finds nothing to rewrite, exactly if no listed row had
    the text of the first format in a header name or inside a value of the second.
  */
  lemma SecondRunIsIdle(rows: Rows, order: seq<string>, box: Option<Box>, draw: Draw, others: Others, writes: seq<Write>,
                        final: Rows)
    requires box.Some? ==> Ideal(box.value)
    requires Distinct(order) && Quiet(others)
    requires Outcome(rows, Listed(rows, order), box, draw, others, writes, None, final)
    ensures Listed(final, order) == [] <==> forall i :: 0 <= i < |Listed(rows, order)| ==> !Sticks(Listed(rows, order)[i].headers)
  {
    hide Listed, Landed, Mentions;
    var listed, again := Listed(rows, order), Listed(final, order);
    NoConflict(rows, order, box, draw, others, writes, None, final);
    ListedRows(rows, order);
    ListedRows(final, order);
    if again != [] {
      var u := again[0].uuid;
      WrittenSame(rows, writes, others, u);
      WrittenQuietly(rows, writes, others, u);
      if i :| 0 <= i < |listed| && listed[i].uuid == u {
        StillMarkedExactlyIf(listed[i], writes[i].headers, box.value, draw);
        assert Sticks(listed[i].headers);
      } else {
        assert final[u] == rows[u];
        var i := EveryLegacyRowIsListed(rows, order, u);
      }
    }
    if i :| 0 <= i < |listed| && Sticks(listed[i].headers) {
      var u := listed[i].uuid;
      WrittenQuietly(rows, writes, others, u);
      StillMarkedExactlyIf(listed[i], writes[i].headers, box.value, draw);
      var j := EveryLegacyRowIsListed(final, order, u);
    }
  }

  lemma {:induction false} WrittenSame(rows: Rows, writes: seq<Write>, others: Others, uuid: string)
    requires Quiet(others)
    ensures uuid in Written(rows, writes, others) <==> uuid in rows
  {
    if writes != [] {
      var n := |writes| - 1;
      WrittenSame(rows, writes[..n], others, uuid);
      assert others(n, Written(rows, writes[..n], others)) == Written(rows, writes[..n], others);
    }
  }

  /** A header column as the program writes it: no colon in a name, and one format prefix in a value. */
  predicate WellWritten(raw: Raw) {
    raw.Object? ==> forall k <- raw.values :: ':' !in k && (IsV2(raw.values[k]) ==> ':' !in raw.values[k][|SEAL_PREFIX|..])
  }

  lemma WellWrittenDoesNotStick(raw: Raw)
    requires WellWritten(raw)
    ensures !Sticks(raw)
  {
    hide Mentions;
    if raw.Object? {
      forall k | k in raw.values ensures !Mentions(k) && (IsV2(raw.values[k]) ==> !Mentions(raw.values[k])) {
        MentionHasColon(k);
        if IsV2(raw.values[k]) {
          SealedMentionsNothing(raw.values[k][|SEAL_PREFIX|..]);
          assert raw.values[k] == SEAL_PREFIX + raw.values[k][|SEAL_PREFIX|..];
        }
      }
    }
  }

  lemma MentionHasColon(s: string)
    ensures Mentions(s) ==> ':' in s
  {
    if Mentions(s) {
      var i :| 0 <= i <= |s| && OccursAt(s, LEGACY_SEAL_PREFIX, i);
      OccurrenceSpells(s, i);
    }
  }

  /** What the migration writes is well written, if what it read is. */
  lemma CarriedIsWellWritten(h: HeaderRow, out: Raw, box: Box, draw: Draw)
    requires Ideal(box) && IsCarried(h, out, box, draw) && WellWritten(h.headers)
    ensures WellWritten(out)
  {
    forall k | k in out.values ensures ':' !in k && ':' !in out.values[k][|SEAL_PREFIX|..] {
      var v := h.headers.values[k];
      if !IsV2(v) {
        var body := box.seal(draw(h.uuid, k).value, OpenLegacy(box, v, k).value, TenantHeaderAAD(h.owner, h.uuid, k));
        assert (SEAL_PREFIX + body)[|SEAL_PREFIX|..] == body;
      }
    }
  }

  /** The migration is idempotent: over rows that the program wrote, a second run rewrites none. */
  lemma SecondRunRewritesNothing(rows: Rows, order: seq<string>, box: Option<Box>, draw: Draw, others: Others,
                                 writes: seq<Write>, final: Rows)
    requires box.Some? ==> Ideal(box.value)
    requires Distinct(order) && Quiet(others)
    requires forall u <- rows :: WellWritten(rows[u].headers)
    requires Outcome(rows, Listed(rows, order), box, draw, others, writes, None, final)
    ensures Listed(final, order) == []
  {
    hide Listed, Outcome, WellWritten, IsLegacyRow, Sticks;
    var listed := Listed(rows, order);
    ListedRows(rows, order);
    forall i | 0 <= i < |listed| ensures !Sticks(listed[i].headers) {
      assert IsReadFrom(listed[i], rows);
      WellWrittenDoesNotStick(listed[i].headers);
    }
    SecondRunIsIdle(rows, order, box, draw, others, writes, final);
  }
}

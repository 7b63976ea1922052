/**
 Vendor price overrides: the rule that picks one, the admin operations on the stored rows, and the
 Redis cache in front of them. Sources: `src/repositories/vendor-price-override.repository.ts` and
 `src/modules/admin-pricing-spine/admin-vendor-overrides.service.ts`.
 */
module Overrides {
  import opened Common
  import opened TtlCaching
  import opened RedisCaching

  type Id = string

  datatype OverrideType = Replace | Delta | Percent

  /** An override of one matrix cell or, without a cell, of the whole product. Values are in hundredths. */
  datatype Row = Row(vendor: Id, version: Id, cell: Option<Id>, kind: OverrideType, value: int, setBy: Id)

  datatype Record = Record(id: Id, cell: Option<Id>, kind: OverrideType, value: int)

  datatype Input = Input(vendor: Id, version: Id, cell: Option<Id>, kind: OverrideType, value: int)

  datatype Error = VersionNotFound | CellNotOfVersion | OverrideNotFound

  const CACHE_TTL_SEC: int := 60
  const PREFIX := "vendor-price-override:"

  function VersionPrefix(version: Id): string {
    PREFIX + version + ":"
  }

  function CacheKey(version: Id, vendor: Id): string {
    VersionPrefix(version) + vendor
  }

  function RecordOf(id: Id, row: Row): Record {
    Record(id, row.cell, row.kind, row.value)
  }

  // ---------- picking the override that applies

  function Find(records: seq<Record>, cell: Option<Id>): Option<Record> {
    if records == [] then None
    else if records[0].cell == cell then Some(records[0])
    else Find(records[1..], cell)
  }

  /** The cell's own override if there is one, else that of the product. An empty cell id counts as none. */
  function PickApplicable(records: seq<Record>, cell: Option<Id>): Option<Record> {
    if cell.Some? && cell.value != "" && Find(records, cell).Some? then Find(records, cell) else Find(records, None)
  }

  predicate Matches(row: Row, vendor: Id, version: Id, cell: Option<Id>) {
    row.vendor == vendor && row.version == version && row.cell == cell
  }

  /** At most one override for a vendor, a version, and a cell or the whole product. */
  ghost predicate Unique(rows: map<Id, Row>) {
    forall a, b :: a in rows && b in rows && Matches(rows[a], rows[b].vendor, rows[b].version, rows[b].cell) ==> a == b
  }

  predicate IsListed(rows: map<Id, Row>, r: Record, vendor: Id, version: Id) {
    r.id in rows && rows[r.id].vendor == vendor && rows[r.id].version == version && r == RecordOf(r.id, rows[r.id])
  }

  /** The records are the vendor's rows for the version, each once, in any order. */
  ghost predicate Lists(records: seq<Record>, rows: map<Id, Row>, vendor: Id, version: Id) {
    && (forall i :: 0 <= i < |records| ==> IsListed(rows, records[i], vendor, version))
    && (forall id :: id in rows && rows[id].vendor == vendor && rows[id].version == version ==>
          RecordOf(id, rows[id]) in records)
    && (forall i, j :: 0 <= i < j < |records| ==> records[i].id != records[j].id)
  }

  lemma {:induction false} FindSound(records: seq<Record>, cell: Option<Id>)
    ensures Find(records, cell).Some? ==> Find(records, cell).value in records && Find(records, cell).value.cell == cell
    ensures Find(records, cell).None? ==> forall r :: r in records ==> r.cell != cell
  {
    if records != [] {
      FindSound(records[1..], cell);
      assert records == [records[0]] + records[1..];
    }
  }

  /** With at most one row per target, the row for a target is found wherever it stands in the list. */
  lemma FindIsRow(records: seq<Record>, rows: map<Id, Row>, vendor: Id, version: Id, cell: Option<Id>, id: Id)
    requires Unique(rows) && Lists(records, rows, vendor, version)
    requires id in rows && Matches(rows[id], vendor, version, cell)
    ensures Find(records, cell) == Some(RecordOf(id, rows[id]))
  {
    FindSound(records, cell);
    assert RecordOf(id, rows[id]) in records;
    var r := Find(records, cell).value;
    assert IsListed(rows, r, vendor, version);
    assert Matches(rows[r.id], rows[id].vendor, rows[id].version, rows[id].cell);
  }

  lemma FindIsNone(records: seq<Record>, rows: map<Id, Row>, vendor: Id, version: Id, cell: Option<Id>)
    requires Lists(records, rows, vendor, version)
    requires forall id :: id in rows ==> !Matches(rows[id], vendor, version, cell)
    ensures Find(records, cell) == None
  {
    FindSound(records, cell);
    forall i | 0 <= i < |records| ensures records[i].cell != cell {
      assert IsListed(rows, records[i], vendor, version);
    }
  }

  /**
   A cell's own override applies to it. Without one, and for an empty or no cell id, that of the whole
   product does, if there is one.
   */
  lemma PickedIs(records: seq<Record>, rows: map<Id, Row>, vendor: Id, version: Id, cell: Option<Id>)
    requires Unique(rows) && Lists(records, rows, vendor, version)
    ensures forall id :: id in rows && cell != None && cell != Some("") && Matches(rows[id], vendor, version, cell) ==>
              PickApplicable(records, cell) == Some(Record(id, rows[id].cell, rows[id].kind, rows[id].value))
    ensures (cell == None || cell == Some("")
             || forall id :: id in rows ==> !Matches(rows[id], vendor, version, cell)) ==>
              && (forall whole :: whole in rows && Matches(rows[whole], vendor, version, None) ==>
                    PickApplicable(records, cell)
                    == Some(Record(whole, rows[whole].cell, rows[whole].kind, rows[whole].value)))
              && ((forall id :: id in rows ==> !Matches(rows[id], vendor, version, None)) ==>
                    PickApplicable(records, cell) == None)
  {
    forall id, target | id in rows && Matches(rows[id], vendor, version, target)
      ensures Find(records, target) == Some(RecordOf(id, rows[id]))
    {
      FindIsRow(records, rows, vendor, version, target, id);
    }
    if forall id :: id in rows ==> !Matches(rows[id], vendor, version, cell) {
      FindIsNone(records, rows, vendor, version, cell);
    }
    if forall id :: id in rows ==> !Matches(rows[id], vendor, version, None) {
      FindIsNone(records, rows, vendor, version, None);
    }
    hide Find, Lists, Unique;
  }

  /** Which override applies does not depend on the order in which the rows are listed. */
  lemma PickIsIndependentOfOrder(
    a: seq<Record>, b: seq<Record>, rows: map<Id, Row>, vendor: Id, version: Id, cell: Option<Id>)
    requires Unique(rows) && Lists(a, rows, vendor, version) && Lists(b, rows, vendor, version)
    ensures PickApplicable(a, cell) == PickApplicable(b, cell)
  {
    FindIsIndependentOfOrder(a, b, rows, vendor, version, cell);
    FindIsIndependentOfOrder(a, b, rows, vendor, version, None);
  }

  lemma FindIsIndependentOfOrder(
    a: seq<Record>, b: seq<Record>, rows: map<Id, Row>, vendor: Id, version: Id, cell: Option<Id>)
    requires Unique(rows) && Lists(a, rows, vendor, version) && Lists(b, rows, vendor, version)
    ensures Find(a, cell) == Find(b, cell)
  {
    if id :| id in rows && Matches(rows[id], vendor, version, cell) {
      FindIsRow(a, rows, vendor, version, cell, id);
      FindIsRow(b, rows, vendor, version, cell, id);
    } else {
      FindIsNone(a, rows, vendor, version, cell);
      FindIsNone(b, rows, vendor, version, cell);
    }
  }

  // ---------- what the admin operations do to the rows

  /** `after` is `before` with the override for the input's target set, in its old row if there is one. */
  ghost predicate IsUpsert(before: map<Id, Row>, after: map<Id, Row>, id: Id, input: Input, actor: Id) {
    && after == before[id := Row(input.vendor, input.version, input.cell, input.kind, input.value, actor)]
    && if id in before then Matches(before[id], input.vendor, input.version, input.cell)
       else forall other :: other in before ==> !Matches(before[other], input.vendor, input.version, input.cell)
  }

  lemma UpsertKeepsUnique(before: map<Id, Row>, after: map<Id, Row>, id: Id, input: Input, actor: Id)
    requires Unique(before) && IsUpsert(before, after, id, input, actor)
    ensures Unique(after)
  {
  }

  // ---------- every run of edits

  datatype Edit = Create(input: Input, actor: Id) | Delete(id: Id)

  /** What an edit may do to the rows, whether or not Redis can be reached; a refused one does nothing. */
  ghost predicate Edited(before: map<Id, Row>, after: map<Id, Row>, e: Edit) {
    match e
    case Create(input, actor) => after == before || exists id :: IsUpsert(before, after, id, input, actor)
    case Delete(id) => after == before - {id}
  }

  lemma EditKeepsUnique(before: map<Id, Row>, after: map<Id, Row>, e: Edit)
    requires Unique(before) && Edited(before, after, e)
    ensures Unique(after)
  {
    if e.Create? && after != before {
      var id :| IsUpsert(before, after, id, e.input, e.actor);
      UpsertKeepsUnique(before, after, id, e.input, e.actor);
    }
  }

  /** The rows after each of some edits in a row, beginning without any. */
  ghost predicate IsRun(states: seq<map<Id, Row>>, edits: seq<Edit>) {
    && |states| == |edits| + 1 && states[0] == map[]
    && forall k :: 0 <= k < |edits| ==> Edited(states[k], states[k + 1], edits[k])
  }

  /** In every run of edits, with Redis up or down, there is at most one override for a target at any time. */
  lemma {:induction false} RunKeepsUnique(states: seq<map<Id, Row>>, edits: seq<Edit>, k: nat)
    requires IsRun(states, edits) && k < |states|
    ensures Unique(states[k])
    decreases k
  {
    if k > 0 {
      RunKeepsUnique(states, edits, k - 1);
      EditKeepsUnique(states[k - 1], states[k], edits[k - 1]);
    }
  }

  /** Once created, an override is the one that applies to its target, however the rows are listed. */
  lemma CreatedOverrideApplies(
    before: map<Id, Row>, after: map<Id, Row>, id: Id, input: Input, actor: Id, records: seq<Record>)
    requires Unique(before) && IsUpsert(before, after, id, input, actor) && input.cell != Some("")
    requires Lists(records, after, input.vendor, input.version)
    ensures PickApplicable(records, input.cell) == Some(Record(id, input.cell, input.kind, input.value))
  {
    UpsertKeepsUnique(before, after, id, input, actor);
    FindIsRow(records, after, input.vendor, input.version, input.cell, id);
  }

  /** Deleting a cell's override lets the whole-product override apply to that cell, if there is one. */
  lemma DeletedCellFallsBack(rows: map<Id, Row>, id: Id, records: seq<Record>)
    requires Unique(rows) && id in rows
    requires Lists(records, rows - {id}, rows[id].vendor, rows[id].version)
    ensures PickApplicable(records, rows[id].cell) == Find(records, None)
    ensures forall whole ::
              whole in rows && whole != id && Matches(rows[whole], rows[id].vendor, rows[id].version, None) ==>
              PickApplicable(records, rows[id].cell) == Some(RecordOf(whole, rows[whole]))
  {
    var vendor, version := rows[id].vendor, rows[id].version;
    FindIsNone(records, rows - {id}, vendor, version, rows[id].cell);
    forall whole | whole in rows && whole != id && Matches(rows[whole], vendor, version, None)
      ensures Find(records, None) == Some(RecordOf(whole, rows[whole]))
    {
      FindIsRow(records, rows - {id}, vendor, version, None, whole);
    }
  }

  /** An upsert or a deletion leaves the listings of every other vendor and version as they were. */
  lemma OthersAreUnaffected(
    before: map<Id, Row>, after: map<Id, Row>, id: Id, vendor: Id, version: Id, records: seq<Record>)
    requires (after == before - {id} && id in before) || (id in after && after == before[id := after[id]])
    requires id in before ==> before[id].vendor != vendor || before[id].version != version
    requires id in after ==> after[id].vendor != vendor || after[id].version != version
    ensures Lists(records, before, vendor, version) <==> Lists(records, after, vendor, version)
  {
    forall k
      ensures k in before && before[k].vendor == vendor && before[k].version == version
         <==> k in after && after[k].vendor == vendor && after[k].version == version
      ensures k in before && k in after && before[k].vendor == vendor && before[k].version == version ==>
                before[k] == after[k]
    {
    }
    assert forall r :: IsListed(before, r, vendor, version) <==> IsListed(after, r, vendor, version);
  }

  // ---------- the cache in front of the rows

  /** A version id holds no colon, so a key determines its version and vendor. */
  predicate PlainId(id: Id) {
    ':' !in id
  }

  function BeforeColon(s: string): string {
    if s == "" || s[0] == ':' then "" else [s[0]] + BeforeColon(s[1..])
  }

  lemma {:induction false} BeforeColonIs(a: string, b: string)
    requires PlainId(a)
    ensures BeforeColon(a + ":" + b) == a
    decreases a
  {
    if a == "" {
      assert (a + ":" + b)[0] == ':';
    } else {
      assert (a + ":" + b)[1..] == a[1..] + ":" + b;
      BeforeColonIs(a[1..], b);
    }
  }

  lemma CacheKeyIsInjective(version: Id, vendor: Id, version': Id, vendor': Id)
    requires PlainId(version) && PlainId(version')
    requires CacheKey(version, vendor) == CacheKey(version', vendor')
    ensures version == version' && vendor == vendor'
  {
    var n := |PREFIX|;
    assert CacheKey(version, vendor)[n..] == version + ":" + vendor;
    assert CacheKey(version', vendor')[n..] == version' + ":" + vendor';
    BeforeColonIs(version, vendor);
    BeforeColonIs(version', vendor');
    assert (version + ":" + vendor)[|version| + 1..] == vendor;
    assert (version' + ":" + vendor')[|version| + 1..] == vendor';
  }

  type Store = map<string, Slot<Option<seq<Record>>>>

  ghost predicate HoldsRows(store: Store, rows: map<Id, Row>, version: Id, vendor: Id) {
    CacheKey(version, vendor) in store ==>
      var value := store[CacheKey(version, vendor)].value;
      value.Some? && value.value.Some? && Lists(value.value.value, rows, vendor, version)
  }

  /** Whatever is cached for a vendor and version is what is stored for them. */
  ghost predicate Coherent(store: Store, rows: map<Id, Row>) {
    forall version, vendor :: PlainId(version) ==> HoldsRows(store, rows, version, vendor)
  }

  /** Rows of one vendor and version changed, and their key dropped: the cache agrees with the rows again. */
  lemma DropKeepsCoherent(store: Store, before: map<Id, Row>, after: map<Id, Row>, id: Id, vendor: Id, version: Id)
    requires Coherent(store, before)
    requires (after == before - {id} && id in before) || (id in after && after == before[id := after[id]])
    requires id in before ==> before[id].vendor == vendor && before[id].version == version
    requires id in after ==> after[id].vendor == vendor && after[id].version == version
    ensures Coherent(store - {CacheKey(version, vendor)}, after)
  {
    var store' := store - {CacheKey(version, vendor)};
    forall version', vendor' | PlainId(version') ensures HoldsRows(store', after, version', vendor') {
      assert HoldsRows(store, before, version', vendor');
      if CacheKey(version', vendor') in store' {
        if version' != version || vendor' != vendor {
          var listing := store[CacheKey(version', vendor')].value.value.value;
          OthersAreUnaffected(before, after, id, vendor', version', listing);
        }
      }
    }
  }

  lemma FillKeepsCoherent(store: Store, rows: map<Id, Row>, vendor: Id, version: Id, records: seq<Record>, now: int)
    requires Coherent(store, rows) && PlainId(version) && Lists(records, rows, vendor, version)
    ensures Coherent(store[CacheKey(version, vendor) := Stored(CACHE_TTL_SEC * 1000, Some(records), now)], rows)
  {
    var store' := store[CacheKey(version, vendor) := Stored(CACHE_TTL_SEC * 1000, Some(records), now)];
    forall version', vendor' | PlainId(version') ensures HoldsRows(store', rows, version', vendor') {
      assert HoldsRows(store, rows, version', vendor');
      if CacheKey(version', vendor') == CacheKey(version, vendor) {
        CacheKeyIsInjective(version', vendor', version, vendor);
      }
    }
  }

  class VendorOverrides {
    var versions: set<Id>
    var cells: map<Id, Id>
    var rows: map<Id, Row>
    const redis: RedisCache<seq<Record>>

    constructor (versions: set<Id>, cells: map<Id, Id>, redis: RedisCache<seq<Record>>)
      requires redis.store == map[]
      ensures this.redis == redis && rows == map[] && Unique(rows) && Coherent(redis.store, rows)
    {
      this.versions, this.cells, this.rows := versions, cells, map[];
      this.redis := redis;
    }

    /**
     The vendor's rows for a version, from Redis while they are there, else from the database. As long
     as the cache agrees with the rows, so does every read, and it goes on agreeing.
     */
    method LoadForVendorAndVersion(vendor: Id, version: Id, now: int) returns (records: seq<Record>)
      requires PlainId(version)
      modifies redis
      ensures var key, store := CacheKey(version, vendor), old(redis.store);
              var cached := if redis.connected && IsLive(store, key, now) then store[key].value.value else None;
              if cached.Some? then records == cached.value && redis.store == store
              else
                && Lists(records, rows, vendor, version)
                && redis.store == if redis.connected then store[key := Slot(Some(Some(records)), now + 60_000)]
                                  else store
      ensures old(Coherent(redis.store, rows)) ==> Lists(records, rows, vendor, version) && Coherent(redis.store, rows)
      ensures redis.connected == old(redis.connected)
    {
      ghost var coherent := Coherent(redis.store, rows);
      assert coherent ==> HoldsRows(redis.store, rows, version, vendor);
      var loaded := FindMany(vendor, version);
      var value := redis.GetOrLoad(CacheKey(version, vendor), CACHE_TTL_SEC, Some(loaded), now);
      if coherent {
        FillKeepsCoherent(old(redis.store), rows, vendor, version, loaded, now);
      }
      return value.value;
    }

    /** The database query: the rows in an order of its choosing. */
    method FindMany(vendor: Id, version: Id) returns (records: seq<Record>)
      ensures Lists(records, rows, vendor, version)
    {
      records := [];
      var left := set id | id in rows && rows[id].vendor == vendor && rows[id].version == version;
      ghost var all := left;
      while left != {}
        invariant left <= all
        invariant forall i :: 0 <= i < |records| ==>
                    IsListed(rows, records[i], vendor, version) && records[i].id !in left
        invariant forall id :: id in all - left ==> RecordOf(id, rows[id]) in records
        invariant forall i, j :: 0 <= i < j < |records| ==> records[i].id != records[j].id
        decreases left
      {
        var id :| id in left;
        records := records + [RecordOf(id, rows[id])];
        left := left - {id};
      }
    }

    /**
     Sets the override for a target. There is still at most one per target, and with Redis up a cache
     that agreed with the rows still does; a refusal changes nothing.
     */
    method Create(input: Input, freshId: Id, actor: Id) returns (result: Result<Record, Error>)
      requires freshId !in rows && Unique(rows)
      modifies this`rows, redis
      ensures Unique(rows) && Edited(old(rows), rows, Edit.Create(input, actor))
      ensures redis.connected == old(redis.connected)
      ensures old(Coherent(redis.store, rows)) && redis.connected ==> Coherent(redis.store, rows)
      ensures !redis.connected ==> redis.store == old(redis.store)
      ensures result.Success? <==>
                && input.version in versions
                && (input.cell.Some? ==> input.cell.value in cells && cells[input.cell.value] == input.version)
      ensures result.Success? ==> IsUpsert(old(rows), rows, result.value.id, input, actor)
                                  && result.value == RecordOf(result.value.id, rows[result.value.id])
      ensures result.Failure? ==> rows == old(rows) && redis.store == old(redis.store)
                                  && (result.error == VersionNotFound <==> input.version !in versions)
    {
      if input.version !in versions {
        return Failure(VersionNotFound);
      }
      if input.cell.Some? && (input.cell.value !in cells || cells[input.cell.value] != input.version) {
        return Failure(CellNotOfVersion);
      }
      var id := freshId;
      if exists e :: e in rows && Matches(rows[e], input.vendor, input.version, input.cell) {
        id :| id in rows && Matches(rows[id], input.vendor, input.version, input.cell);
        rows := rows[id := rows[id].(kind := input.kind, value := input.value, setBy := actor)];
      } else {
        rows := rows[id := Row(input.vendor, input.version, input.cell, input.kind, input.value, actor)];
      }
      assert IsUpsert(old(rows), rows, id, input, actor);
      UpsertKeepsUnique(old(rows), rows, id, input, actor);
      redis.Del(CacheKey(input.version, input.vendor));
      if old(Coherent(redis.store, rows)) {
        DropKeepsCoherent(old(redis.store), old(rows), rows, id, input.vendor, input.version);
      }
      return Success(RecordOf(id, rows[id]));
    }

    method Delete(id: Id) returns (result: Result<Id, Error>)
      requires Unique(rows)
      modifies this`rows, redis
      ensures Unique(rows) && Edited(old(rows), rows, Edit.Delete(id))
      ensures redis.connected == old(redis.connected)
      ensures old(Coherent(redis.store, rows)) && redis.connected ==> Coherent(redis.store, rows)
      ensures !redis.connected ==> redis.store == old(redis.store)
      ensures id in old(rows) ==> result == Success(id) && rows == old(rows) - {id}
      ensures id !in old(rows) ==>
                result == Failure(OverrideNotFound) && rows == old(rows) && redis.store == old(redis.store)
    {
      if id !in rows {
        return Failure(OverrideNotFound);
      }
      var existing := rows[id];
      rows := rows - {id};
      redis.Del(CacheKey(existing.version, existing.vendor));
      if old(Coherent(redis.store, rows)) {
        DropKeepsCoherent(old(redis.store), old(rows), rows, id, existing.vendor, existing.version);
      }
      return Success(id);
    }

    /** Drops the cached rows of every vendor of a version. What else is cached stays. */
    method InvalidateForVersion(version: Id)
      requires PlainId(version)
      modifies redis
      ensures old(Coherent(redis.store, rows)) ==> Coherent(redis.store, rows)
      ensures redis.connected == old(redis.connected)
      ensures redis.connected ==> forall vendor :: CacheKey(version, vendor) !in redis.store
      ensures forall version', vendor ::
                PlainId(version') && version' != version && CacheKey(version', vendor) in old(redis.store) ==>
                CacheKey(version', vendor) in redis.store
                && redis.store[CacheKey(version', vendor)] == old(redis.store)[CacheKey(version', vendor)]
    {
      redis.DelByPrefix(VersionPrefix(version));
      forall version', vendor' | old(Coherent(redis.store, rows)) && PlainId(version')
        ensures HoldsRows(redis.store, rows, version', vendor')
      {
        assert HoldsRows(old(redis.store), rows, version', vendor');
      }
      forall version', vendor | PlainId(version')
        ensures HasPrefix(CacheKey(version', vendor), VersionPrefix(version)) <==> version' == version
      {
        PrefixTellsVersion(version, version', vendor);
      }
    }
  }

  lemma PrefixTellsVersion(version: Id, version': Id, vendor: Id)
    requires PlainId(version) && PlainId(version')
    ensures HasPrefix(CacheKey(version', vendor), VersionPrefix(version)) <==> version' == version
  {
    var key := CacheKey(version', vendor);
    if HasPrefix(key, VersionPrefix(version)) {
      var rest := key[|VersionPrefix(version)|..];
      assert key == CacheKey(version, rest);
      CacheKeyIsInjective(version, rest, version', vendor);
    }
  }
}

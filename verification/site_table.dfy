/**
 The `site_options` table as a sequence of rows scanned in order. Each row
 holds its lookup columns after affinity conversion (`IndexKey`).
 `INSERT OR REPLACE` deletes every row that conflicts on the unique index
 before appending the new one, and each sub-select of the resolver takes the
 first matching row (`LIMIT 1`). The lemmas here show that this table
 behaves as the map of `OverrideStore`, so that everything proved about
 `Resolver` holds of the table as well.
 */
module SiteTable {
  import opened Wrappers
  import opened OverrideStore
  import opened Resolver

  /** One row of `site_options`. */
  datatype Row = Row(key: IndexKey, onSite: bool)

  type Table = seq<Row>

  /** Number of rows whose lookup columns equal `ik`. */
  function CountKey(t: Table, ik: IndexKey): nat
    decreases |t|
  {
    if |t| == 0 then 0
    else (if t[0].key == ik then 1 else 0) + CountKey(t[1..], ik)
  }

  /** No two rows carry the same key. */
  predicate PairwiseDistinct(t: Table) {
    forall i, j :: 0 <= i < j < |t| ==> t[i].key != t[j].key
  }

  lemma {:induction false} CountZero(t: Table, ik: IndexKey)
    ensures CountKey(t, ik) == 0 <==> forall i :: 0 <= i < |t| ==> t[i].key != ik
    decreases |t|
  {
    if |t| > 0 {
      CountZero(t[1..], ik);
      assert forall i :: 1 <= i < |t| ==> t[i] == t[1..][i - 1];
    }
  }

  /** No key is held by more than one row. */
  ghost predicate AtMostOnePerKey(t: Table) {
    forall ik :: CountKey(t, ik) <= 1
  }

  lemma {:induction false} CountAtMostOne(t: Table)
    ensures PairwiseDistinct(t) <==> AtMostOnePerKey(t)
    decreases |t|
  {
    if |t| == 0 {
      assert forall ik :: CountKey(t, ik) == 0;
    } else {
      var rest := t[1..];
      CountAtMostOne(rest);
      CountZero(rest, t[0].key);
      assert forall i :: 1 <= i < |t| ==> t[i] == rest[i - 1];
      assert PairwiseDistinct(t) <==> PairwiseDistinct(rest) && forall i :: 0 <= i < |rest| ==> rest[i].key != t[0].key;
      assert forall ik :: CountKey(t, ik) == (if t[0].key == ik then 1 else 0) + CountKey(rest, ik);
      if PairwiseDistinct(t) {
        forall ik ensures CountKey(t, ik) <= 1 {
          assert CountKey(rest, ik) <= 1;
        }
      }
      if AtMostOnePerKey(t) {
        forall ik ensures CountKey(rest, ik) <= 1 {
          assert CountKey(t, ik) <= 1;
        }
        assert CountKey(t, t[0].key) <= 1;
      }
    }
  }

  /** The unique index `idx_site_options`: no two rows carry the same key,
      which is the same as no key being held by more than one row. */
  ghost predicate UniqueIndex(t: Table): (b: bool)
    ensures b <==> AtMostOnePerKey(t)
  {
    CountAtMostOne(t);
    PairwiseDistinct(t)
  }

  /** `SELECT on_site ... WHERE <key> LIMIT 1`: the first row with key `ik`
      in scan order, or NULL when there is none. */
  function SelectOne(t: Table, ik: IndexKey): (r: Option<bool>)
    ensures r.None? <==> forall i :: 0 <= i < |t| ==> t[i].key != ik
    ensures r.Some? ==> exists i :: && 0 <= i < |t| && t[i].key == ik && t[i].onSite == r.value
                                    && forall j :: 0 <= j < i ==> t[j].key != ik
    decreases |t|
  {
    if |t| == 0 then None
    else if t[0].key == ik then Some(t[0].onSite)
    else SelectOne(t[1..], ik)
  }

  /** The delete half of `REPLACE`: every row with key `ik` removed, the
      others kept in order. */
  function Without(t: Table, ik: IndexKey): (r: Table)
    ensures CountKey(r, ik) == 0
    ensures forall ik' :: ik' != ik ==> CountKey(r, ik') == CountKey(t, ik')
    ensures SelectOne(r, ik).None?
    ensures forall ik' :: ik' != ik ==> SelectOne(r, ik') == SelectOne(t, ik')
    decreases |t|
  {
    if |t| == 0 then []
    else
      var rest := Without(t[1..], ik);
      if t[0].key == ik then rest
      else
        assert ([t[0]] + rest)[0] == t[0] && ([t[0]] + rest)[1..] == rest;
        [t[0]] + rest
  }

  lemma {:induction false} CountKeyAppend(a: Table, row: Row, ik: IndexKey)
    ensures CountKey(a + [row], ik) == CountKey(a, ik) + (if row.key == ik then 1 else 0)
    decreases |a|
  {
    if |a| == 0 {
      assert a + [row] == [row];
    } else {
      assert (a + [row])[1..] == a[1..] + [row];
      CountKeyAppend(a[1..], row, ik);
    }
  }

  lemma {:induction false} SelectOneAppend(a: Table, row: Row, ik: IndexKey)
    ensures SelectOne(a + [row], ik)
         == if SelectOne(a, ik).Some? then SelectOne(a, ik)
            else if row.key == ik then Some(row.onSite) else None
    decreases |a|
  {
    if |a| == 0 {
      assert a + [row] == [row];
    } else {
      assert (a + [row])[1..] == a[1..] + [row];
      SelectOneAppend(a[1..], row, ik);
    }
  }

  /** `INSERT OR REPLACE`: the key is converted as the columns' affinity
      converts it; afterwards exactly one row holds the converted key,
      carrying the written value; rows of every other key are untouched, so
      the unique index is kept. */
  function InsertOrReplace(t: Table, k: Key, onSite: bool): (r: Table)
    ensures CountKey(r, Stored(k)) == 1
    ensures forall ik :: ik != Stored(k) ==> CountKey(r, ik) == CountKey(t, ik)
    ensures UniqueIndex(t) ==> UniqueIndex(r)
    ensures SelectOne(r, Stored(k)) == Some(onSite)
    ensures forall ik :: ik != Stored(k) ==> SelectOne(r, ik) == SelectOne(t, ik)
  {
    var row := Row(Stored(k), onSite);
    var w := Without(t, row.key);
    assert forall ik :: CountKey(w + [row], ik) == CountKey(w, ik) + (if row.key == ik then 1 else 0) by {
      forall ik { CountKeyAppend(w, row, ik); }
    }
    assert forall ik :: SelectOne(w + [row], ik)
                        == if SelectOne(w, ik).Some? then SelectOne(w, ik)
                           else if row.key == ik then Some(row.onSite) else None by {
      forall ik { SelectOneAppend(w, row, ik); }
    }
    w + [row]
  }

  /** The keys present in the table. */
  function KeysOf(t: Table): set<IndexKey> {
    set i | 0 <= i < |t| :: t[i].key
  }

  /** The table read as a store: each present key mapped to what its
      `LIMIT 1` sub-select returns. */
  function Contents(t: Table): Store {
    map ik | ik in KeysOf(t) :: SelectOne(t, ik).value
  }

  /** A point lookup in the store reads what the sub-select reads. */
  lemma ContentsFind(t: Table, ik: IndexKey)
    ensures Find(Contents(t), ik) == SelectOne(t, ik)
  {
    if SelectOne(t, ik).Some? {
      var i :| 0 <= i < |t| && t[i].key == ik;
      assert ik in KeysOf(t);
    }
  }

  lemma StoreExt(a: Store, b: Store)
    requires forall ik :: Find(a, ik) == Find(b, ik)
    ensures a == b
  {
    assert forall ik :: ik in a <==> Find(a, ik).Some?;
  }

  /** `INSERT OR REPLACE` on the table is the map update on its contents. */
  lemma {:induction false} InsertOrReplaceRefinesUpsert(t: Table, k: Key, onSite: bool)
    ensures Contents(InsertOrReplace(t, k, onSite)) == Upsert(Contents(t), k, onSite)
  {
    var r := InsertOrReplace(t, k, onSite);
    var u := Upsert(Contents(t), k, onSite);
    forall ik
      ensures Find(Contents(r), ik) == Find(u, ik)
    {
      ContentsFind(r, ik);
      ContentsFind(t, ik);
    }
    StoreExt(Contents(r), u);
  }

  /** `fetch_site_option` as the SQL is written: one `LIMIT 1` sub-select per
      `WHERE` clause, each comparing after the columns' affinity is applied to
      the bound value (`Stored`), combined by `COALESCE` with `TRUE`. */
  function FetchFromTable(t: Table, siteId: int, brand: string, pn: string, dpId: int): (r: SiteOption)
    ensures r.siteId == siteId && r.brand == brand && r.pn == pn && r.dpId == dpId
  {
    var onSite := Coalesce([ SelectOne(t, Stored(Key(siteId, brand, pn, dpId))),
                             SelectOne(t, Stored(Key(siteId, brand, pn, 0))),
                             SelectOne(t, Stored(Key(siteId, brand, "*", 0))),
                             SelectOne(t, Stored(Key(siteId, "*", "*", 0))) ], true);
    SiteOption(siteId, brand, pn, dpId, onSite)
  }

  /** The SQL query resolves the table's contents exactly as `Resolver` does. */
  lemma FetchFromTableRefines(t: Table, siteId: int, brand: string, pn: string, dpId: int)
    ensures FetchFromTable(t, siteId, brand, pn, dpId) == FetchSiteOption(Contents(t), siteId, brand, pn, dpId)
  {
    var l := Ladder(Key(siteId, brand, pn, dpId));
    ContentsFind(t, Stored(l[0]));
    ContentsFind(t, Stored(l[1]));
    ContentsFind(t, Stored(l[2]));
    ContentsFind(t, Stored(l[3]));
  }
}

/**
 The override store of the site-option fills scheme: a durable mapping from
 the four lookup columns `(site_id, brand, pn, dp_id)` to the `on_site` flag.

 `brand` and `pn` are declared with the type name `string`, which gives them
 SQLite's NUMERIC affinity: text that spells an integer is stored, and compared,
 as that integer, so "000111" and "111" name the same row. A caller's `Key` is
 therefore stored as an `IndexKey` holding the converted cells, and the unique
 index makes the table a function of the `IndexKey`: the store is a `map`, and
 `INSERT OR REPLACE` a map update.
 */
module OverrideStore {
  import opened Wrappers

  /** The placeholder stored in `brand` or `pn` to make a fill over all brands or items. */
  const Wildcard: string := "*"

  /** The placeholder stored in `dp_id` to make a fill over all variants of an item. */
  const AllVariants: int := 0

  /** Bounds of SQLite's 64-bit INTEGER storage class. */
  const MinInt64: int := -0x8000_0000_0000_0000
  const MaxInt64: int := 0x7fff_ffff_ffff_ffff

  /** The four lookup arguments as a caller passes them. */
  datatype Key = Key(siteId: int, brand: string, pn: string, dpId: int)

  /** The `SiteOption` record: a lookup key together with its `on_site` flag. */
  datatype SiteOption = SiteOption(siteId: int, brand: string, pn: string, dpId: int, onSite: bool)

  /** A value in a NUMERIC-affinity column: an INTEGER or a TEXT. */
  datatype Cell = Integer(n: int) | Text(s: string)

  /** The lookup columns of a row as SQLite holds them. */
  datatype IndexKey = IndexKey(siteId: int, brand: Cell, pn: Cell, dpId: int)

  predicate IsDigit(c: char) {
    '0' <= c <= '9'
  }

  predicate AllDigits(s: string) {
    forall i :: 0 <= i < |s| ==> IsDigit(s[i])
  }

  /** The number a string of decimal digits spells. */
  function DigitsValue(s: string): nat
    requires AllDigits(s)
    decreases |s|
  {
    if |s| == 0 then 0
    else DigitsValue(s[..|s| - 1]) * 10 + (s[|s| - 1] as int - '0' as int)
  }

  /** A well-formed integer literal: an optional sign and at least one digit. */
  predicate IsIntegerText(s: string) {
    || (|s| >= 1 && AllDigits(s))
    || (|s| >= 2 && (s[0] == '+' || s[0] == '-') && AllDigits(s[1..]))
  }

  function IntegerValue(s: string): int
    requires IsIntegerText(s)
  {
    if |s| >= 1 && AllDigits(s) then DigitsValue(s)
    else
      var magnitude: int := DigitsValue(s[1..]);
      if s[0] == '-' then -magnitude else magnitude
  }

  /** NUMERIC affinity applied to a text value: an integer literal that fits
      64 bits becomes that INTEGER; any other text is kept as it is. */
  function NumericAffinity(s: string): (c: Cell)
    ensures c.Text? ==> c.s == s
    ensures c.Integer? ==> IsIntegerText(s) && c.n == IntegerValue(s) && MinInt64 <= c.n <= MaxInt64
    ensures IsIntegerText(s) && MinInt64 <= IntegerValue(s) <= MaxInt64 ==> c.Integer?
  {
    if IsIntegerText(s) && MinInt64 <= IntegerValue(s) <= MaxInt64 then Integer(IntegerValue(s))
    else Text(s)
  }

  /** The placeholder is kept as text, and no other string converts to it. */
  lemma WildcardSurvivesAffinity(s: string)
    ensures NumericAffinity(s) == NumericAffinity(Wildcard) <==> s == Wildcard
  {
    assert !IsIntegerText(Wildcard) by {
      assert !IsDigit(Wildcard[0]);
    }
  }

  /** Under this model's conversion, text that is not an integer literal is
      compared as the string it is. (SQLite's own conversion goes further:
      it stores "1.0" as the same INTEGER as "1".) */
  lemma TextKeepsIdentity(a: string, b: string)
    requires !IsIntegerText(a)
    ensures NumericAffinity(a) == NumericAffinity(b) <==> a == b
  {
  }

  lemma {:induction false} LeadingZeroValue(s: string)
    requires AllDigits(s)
    ensures AllDigits("0" + s) && DigitsValue("0" + s) == DigitsValue(s)
    decreases |s|
  {
    assert AllDigits("0" + s);
    if |s| > 0 {
      var init := s[..|s| - 1];
      assert ("0" + s)[..|"0" + s| - 1] == "0" + init;
      LeadingZeroValue(init);
    }
  }

  /** A leading zero does not change which row a part number names:
      "0111" and "111" are stored as the same INTEGER. */
  lemma LeadingZeroIgnored(s: string)
    requires |s| >= 1 && AllDigits(s) && DigitsValue(s) <= MaxInt64
    ensures NumericAffinity("0" + s) == NumericAffinity(s)
  {
    LeadingZeroValue(s);
    assert IsIntegerText("0" + s) && IntegerValue("0" + s) == DigitsValue(s);
  }

  /** The row key a write or a `WHERE` comparison uses for `k`. */
  function Stored(k: Key): (r: IndexKey)
    ensures r.siteId == k.siteId && r.dpId == k.dpId
    ensures r.brand == Text(Wildcard) <==> k.brand == Wildcard
    ensures r.pn == Text(Wildcard) <==> k.pn == Wildcard
  {
    WildcardSurvivesAffinity(k.brand);
    WildcardSurvivesAffinity(k.pn);
    assert NumericAffinity(Wildcard) == Text(Wildcard);
    IndexKey(k.siteId, NumericAffinity(k.brand), NumericAffinity(k.pn), k.dpId)
  }

  /** At most one `on_site` value per stored key: the unique index `idx_site_options`. */
  type Store = map<IndexKey, bool>

  /** A key with no placeholder in any of brand, pn or dp_id. */
  predicate IsConcrete(k: Key) {
    k.brand != Wildcard && k.pn != Wildcard && k.dpId != AllVariants
  }

  /** True iff the stored key `fill` matches the lookup key `q` field by field:
      same site, and every other field either a placeholder or stored as the
      same cell as the query's. A matching fill is not necessarily consulted:
      the resolver reads only its four ladder rungs. */
  predicate Covers(fill: Key, q: Key) {
    && fill.siteId == q.siteId
    && (fill.brand == Wildcard || NumericAffinity(fill.brand) == NumericAffinity(q.brand))
    && (fill.pn == Wildcard || NumericAffinity(fill.pn) == NumericAffinity(q.pn))
    && (fill.dpId == AllVariants || fill.dpId == q.dpId)
  }

  /** Number of fields of `k` that hold a real value rather than a placeholder. */
  function Specificity(k: Key): nat {
    (if k.brand != Wildcard then 1 else 0)
    + (if k.pn != Wildcard then 1 else 0)
    + (if k.dpId != AllVariants then 1 else 0)
  }

  /** Point lookup of a stored key. */
  function Find(st: Store, ik: IndexKey): Option<bool> {
    if ik in st then Some(st[ik]) else None
  }

  /** Exact-key point lookup, comparing as SQLite does; applies no fallback. */
  function Lookup(st: Store, k: Key): (r: Option<bool>)
    ensures r.Some? <==> Stored(k) in st
    ensures r.Some? ==> r.value == st[Stored(k)]
  {
    Find(st, Stored(k))
  }

  /** `INSERT OR REPLACE`: afterwards `k`, and every key stored as the same
      row, holds `onSite`; every key stored as another row holds what it held
      before; one row at most is added. */
  function Upsert(st: Store, k: Key, onSite: bool): (r: Store)
    ensures forall k' :: Stored(k') == Stored(k) ==> Lookup(r, k') == Some(onSite)
    ensures forall k' :: Stored(k') != Stored(k) ==> Lookup(r, k') == Lookup(st, k')
    ensures r.Keys == st.Keys + {Stored(k)}
    ensures Stored(k) in st ==> |r| == |st|
    ensures Stored(k) !in st ==> |r| == |st| + 1
  {
    st[Stored(k) := onSite]
  }

  /** Writing the same value to the same key twice is the same as writing it once. */
  lemma UpsertIdempotent(st: Store, k: Key, onSite: bool)
    ensures Upsert(Upsert(st, k, onSite), k, onSite) == Upsert(st, k, onSite)
  {
  }

  /** A second write to the same row replaces the first, even when it spells
      the key differently ("111" after "000111"): the last writer wins. */
  lemma UpsertLastWriteWins(st: Store, k1: Key, v1: bool, k2: Key, v2: bool)
    requires Stored(k1) == Stored(k2)
    ensures Upsert(Upsert(st, k1, v1), k2, v2) == Upsert(st, k2, v2)
  {
  }

  /** Writes to different rows do not interfere, so their order does not matter. */
  lemma UpsertCommutes(st: Store, k1: Key, v1: bool, k2: Key, v2: bool)
    requires Stored(k1) != Stored(k2)
    ensures Upsert(Upsert(st, k1, v1), k2, v2) == Upsert(Upsert(st, k2, v2), k1, v1)
  {
  }
}

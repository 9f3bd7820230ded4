/**
 The cascading override resolver (`fetch_site_option`). A lookup key is
 resolved by trying four stored keys in a fixed order, from the most to the
 least specific, and taking the value of the first one that is present; when
 none is, the flag defaults to `true` ("available unless excluded"). Each
 rung is compared as SQLite compares it, through `Lookup`.
 */
module Resolver {
  import opened Wrappers
  import opened OverrideStore

  /** The value `COALESCE` falls back to when no override applies. */
  const Default: bool := true

  /** The four candidate keys, in the order the `COALESCE` tries them:
      exact key, item fill, brand fill, site-wide fill. */
  function Ladder(q: Key): (r: seq<Key>)
    ensures |r| == 4
    ensures forall i :: 0 <= i < |r| ==> Covers(r[i], q)
  {
    [ q,
      Key(q.siteId, q.brand, q.pn, AllVariants),
      Key(q.siteId, q.brand, Wildcard, AllVariants),
      Key(q.siteId, Wildcard, Wildcard, AllVariants) ]
  }

  /** SQL `COALESCE`: the first non-NULL argument, else `dflt`. */
  function Coalesce(xs: seq<Option<bool>>, dflt: bool): (r: bool)
    ensures (forall i :: 0 <= i < |xs| ==> xs[i].None?) ==> r == dflt
    ensures forall i :: 0 <= i < |xs| && xs[i].Some? && (forall j :: 0 <= j < i ==> xs[j].None?)
                        ==> r == xs[i].value
    decreases |xs|
  {
    if |xs| == 0 then dflt
    else if xs[0].Some? then xs[0].value
    else Coalesce(xs[1..], dflt)
  }

  /** The results of the four point lookups, one per rung of the ladder. */
  function Candidates(st: Store, q: Key): seq<Option<bool>> {
    var l := Ladder(q);
    [Lookup(st, l[0]), Lookup(st, l[1]), Lookup(st, l[2]), Lookup(st, l[3])]
  }

  /** Rung `i` of the ladder is the first one with a stored override. */
  predicate FirstHitAt(st: Store, q: Key, i: int) {
    && 0 <= i < 4
    && Lookup(st, Ladder(q)[i]).Some?
    && forall j :: 0 <= j < i ==> Lookup(st, Ladder(q)[j]).None?
  }

  /** The resolved `on_site` flag for `q`: the value stored at the first
      rung of the ladder that has one, or the default when none has. */
  function Resolve(st: Store, q: Key): (r: bool)
    ensures forall i :: FirstHitAt(st, q, i) ==> r == Lookup(st, Ladder(q)[i]).value
    ensures (forall i :: 0 <= i < 4 ==> Lookup(st, Ladder(q)[i]).None?) ==> r == Default
  {
    var c := Candidates(st, q);
    assert forall i :: 0 <= i < 4 ==> c[i] == Lookup(st, Ladder(q)[i]);
    Coalesce(c, Default)
  }

  /** `fetch_site_option`: echoes the lookup key and carries the resolved flag. */
  function FetchSiteOption(st: Store, siteId: int, brand: string, pn: string, dpId: int): (r: SiteOption)
    ensures r.siteId == siteId && r.brand == brand && r.pn == pn && r.dpId == dpId
    ensures r.onSite == Resolve(st, Key(siteId, brand, pn, dpId))
  {
    SiteOption(siteId, brand, pn, dpId, Resolve(st, Key(siteId, brand, pn, dpId)))
  }

  // ---------------------------------------------------------------------------
  // Precedence, stated directly over the four `WHERE` clauses.
  // ---------------------------------------------------------------------------

  /** An exact override wins over every fill. */
  lemma ResolveExact(st: Store, s: int, b: string, p: string, d: int, v: bool)
    requires Lookup(st, Key(s, b, p, d)) == Some(v)
    ensures Resolve(st, Key(s, b, p, d)) == v
  {
    assert FirstHitAt(st, Key(s, b, p, d), 0);
  }

  /** Without an exact override, the item fill wins over brand and site fills. */
  lemma ResolveItemFill(st: Store, s: int, b: string, p: string, d: int, v: bool)
    requires Lookup(st, Key(s, b, p, d)).None?
    requires Lookup(st, Key(s, b, p, AllVariants)) == Some(v)
    ensures Resolve(st, Key(s, b, p, d)) == v
  {
    assert FirstHitAt(st, Key(s, b, p, d), 1);
  }

  /** Without exact override or item fill, the brand fill wins over the site fill. */
  lemma ResolveBrandFill(st: Store, s: int, b: string, p: string, d: int, v: bool)
    requires Lookup(st, Key(s, b, p, d)).None?
    requires Lookup(st, Key(s, b, p, AllVariants)).None?
    requires Lookup(st, Key(s, b, Wildcard, AllVariants)) == Some(v)
    ensures Resolve(st, Key(s, b, p, d)) == v
  {
    assert FirstHitAt(st, Key(s, b, p, d), 2);
  }

  /** Only the site-wide fill applies when no narrower rung is stored. */
  lemma ResolveSiteFill(st: Store, s: int, b: string, p: string, d: int, v: bool)
    requires Lookup(st, Key(s, b, p, d)).None?
    requires Lookup(st, Key(s, b, p, AllVariants)).None?
    requires Lookup(st, Key(s, b, Wildcard, AllVariants)).None?
    requires Lookup(st, Key(s, Wildcard, Wildcard, AllVariants)) == Some(v)
    ensures Resolve(st, Key(s, b, p, d)) == v
  {
    assert FirstHitAt(st, Key(s, b, p, d), 3);
  }

  /** With none of the four rungs stored, the flag is `true`. */
  lemma ResolveDefault(st: Store, s: int, b: string, p: string, d: int)
    requires Lookup(st, Key(s, b, p, d)).None?
    requires Lookup(st, Key(s, b, p, AllVariants)).None?
    requires Lookup(st, Key(s, b, Wildcard, AllVariants)).None?
    requires Lookup(st, Key(s, Wildcard, Wildcard, AllVariants)).None?
    ensures Resolve(st, Key(s, b, p, d))
  {
  }

  /** A narrower fill wins: an item fill of `false` under a brand fill of
      `true` resolves every variant without its own override to `false`. */
  lemma NarrowerFillWins(st: Store, s: int, b: string, p: string, d: int)
    requires Lookup(st, Key(s, b, Wildcard, AllVariants)) == Some(true)
    requires Lookup(st, Key(s, b, p, AllVariants)) == Some(false)
    requires d == AllVariants || Lookup(st, Key(s, b, p, d)).None?
    ensures !Resolve(st, Key(s, b, p, d))
  {
    if d == AllVariants {
      ResolveExact(st, s, b, p, d, false);
    } else {
      ResolveItemFill(st, s, b, p, d, false);
    }
  }

  /** The flag is `false` only because some rung of the ladder stores `false`;
      it is never made up. */
  lemma ResolveFalseHasWitness(st: Store, q: Key)
    requires !Resolve(st, q)
    ensures exists i :: 0 <= i < 4 && Lookup(st, Ladder(q)[i]) == Some(false)
  {
    var l := Ladder(q);
    if Lookup(st, l[0]).Some? {
      assert FirstHitAt(st, q, 0);
    } else if Lookup(st, l[1]).Some? {
      assert FirstHitAt(st, q, 1);
    } else if Lookup(st, l[2]).Some? {
      assert FirstHitAt(st, q, 2);
    } else if Lookup(st, l[3]).Some? {
      assert FirstHitAt(st, q, 3);
    }
  }

  // ---------------------------------------------------------------------------
  // Isolation: only the four rungs are ever read.
  // ---------------------------------------------------------------------------

  /** Two stores that agree on the four rungs resolve `q` alike. */
  lemma ResolveDependsOnlyOnLadder(st1: Store, st2: Store, q: Key)
    requires forall i :: 0 <= i < 4 ==> Lookup(st1, Ladder(q)[i]) == Lookup(st2, Ladder(q)[i])
    ensures Resolve(st1, q) == Resolve(st2, q)
  {
    assert Candidates(st1, q) == Candidates(st2, q);
  }

  /** Site isolation: records of other sites never affect resolution. */
  lemma SiteIsolation(st1: Store, st2: Store, q: Key)
    requires forall k: Key :: k.siteId == q.siteId ==> Lookup(st1, k) == Lookup(st2, k)
    ensures Resolve(st1, q) == Resolve(st2, q)
  {
    forall i | 0 <= i < 4
      ensures Lookup(st1, Ladder(q)[i]) == Lookup(st2, Ladder(q)[i])
    {
      assert Ladder(q)[i].siteId == q.siteId;
    }
    ResolveDependsOnlyOnLadder(st1, st2, q);
  }

  /** Writing an override at another site leaves resolution unchanged. */
  lemma UpsertOtherSite(st: Store, k: Key, v: bool, q: Key)
    requires k.siteId != q.siteId
    ensures Resolve(Upsert(st, k, v), q) == Resolve(st, q)
  {
    SiteIsolation(Upsert(st, k, v), st, q);
  }

  /** After storing `v` at a key, resolving that very key yields `v`. */
  lemma UpsertThenResolve(st: Store, q: Key, v: bool)
    ensures Resolve(Upsert(st, q, v), q) == v
  {
    assert FirstHitAt(Upsert(st, q, v), q, 0);
  }

  /** Two spellings of one stored key ("111" and "000111" as pn) resolve alike. */
  lemma ResolveRespectsAffinity(st: Store, q1: Key, q2: Key)
    requires Stored(q1) == Stored(q2)
    ensures Resolve(st, q1) == Resolve(st, q2)
  {
    forall i | 0 <= i < 4
      ensures Lookup(st, Ladder(q1)[i]) == Lookup(st, Ladder(q2)[i])
    {
      assert Stored(Ladder(q1)[i]) == Stored(Ladder(q2)[i]);
    }
    assert Candidates(st, q1) == Candidates(st, q2);
  }

  /** A fill on a pn for every brand, `(s, "*", p, 0)`, covers the lookup key
      but is not a rung of the ladder, so writing it never changes resolution. */
  lemma OffLadderFillIgnored(st: Store, s: int, b: string, p: string, d: int, v: bool)
    requires b != Wildcard && p != Wildcard
    ensures Covers(Key(s, Wildcard, p, AllVariants), Key(s, b, p, d))
    ensures Resolve(Upsert(st, Key(s, Wildcard, p, AllVariants), v), Key(s, b, p, d)) == Resolve(st, Key(s, b, p, d))
  {
    var fill := Key(s, Wildcard, p, AllVariants);
    var q := Key(s, b, p, d);
    WildcardSurvivesAffinity(b);
    WildcardSurvivesAffinity(p);
    forall i | 0 <= i < 4
      ensures Stored(Ladder(q)[i]) != Stored(fill)
    {
    }
    ResolveDependsOnlyOnLadder(Upsert(st, fill, v), st, q);
  }

  // ---------------------------------------------------------------------------
  // Shape of the ladder and the placeholder collisions.
  // ---------------------------------------------------------------------------

  /** For a concrete key each rung drops exactly one more field than the
      previous one: specificity 3, 2, 1, 0. */
  lemma LadderSpecificity(q: Key)
    requires IsConcrete(q)
    ensures forall i :: 0 <= i < 4 ==> Specificity(Ladder(q)[i]) == 3 - i
  {
  }

  /** Which rungs read the same row for each placeholder in the lookup key. */
  lemma LadderCollisions(q: Key)
    ensures q.dpId == AllVariants <==> Stored(Ladder(q)[0]) == Stored(Ladder(q)[1])
    ensures q.pn == Wildcard <==> Stored(Ladder(q)[1]) == Stored(Ladder(q)[2])
    ensures q.brand == Wildcard <==> Stored(Ladder(q)[2]) == Stored(Ladder(q)[3])
  {
    WildcardSurvivesAffinity(q.pn);
    WildcardSurvivesAffinity(q.brand);
  }

  /** The four rungs read four different rows exactly when the lookup key
      holds no placeholder; a real `pn` of "*" or `dp_id` of 0 makes rungs
      coincide. */
  lemma LadderDistinctIffConcrete(q: Key)
    ensures IsConcrete(q) <==> forall i, j :: 0 <= i < j < 4 ==> Stored(Ladder(q)[i]) != Stored(Ladder(q)[j])
  {
    var l := Ladder(q);
    LadderCollisions(q);
    if IsConcrete(q) {
      assert Stored(l[0]).dpId != Stored(l[2]).dpId && Stored(l[0]).dpId != Stored(l[3]).dpId;
      assert Stored(l[1]).pn != Stored(l[3]).pn;
    }
  }
}

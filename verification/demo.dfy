/**
 The scenario of `main`: three writes at three levels of specificity on site
 8080, then four lookups that land on the exact override, the item fill, the
 brand fill and the default in turn. `main` opens the persistent file `wf.db`;
 the scenario assumes it is empty, or holds only rows at `main`'s three keys,
 which these writes replace; the contents are the same either way.
 */
module Demo {
  import opened OverrideStore
  import opened Resolver
  import opened SiteTable

  /** The columns `main` writes and reads, after NUMERIC affinity: the part
      numbers are stored as integers, the brands and the placeholder as text. */
  lemma DemoCells()
    ensures NumericAffinity("000111") == Integer(111)
    ensures NumericAffinity("111") == Integer(111)
    ensures NumericAffinity("000112") == Integer(112)
    ensures NumericAffinity("000113") == Integer(113)
    ensures NumericAffinity("ASHLEY") == Text("ASHLEY")
    ensures NumericAffinity("MEH") == Text("MEH")
    ensures NumericAffinity(Wildcard) == Text(Wildcard)
  {
    assert "000111"[..5] == "00011";
    assert "000112"[..5] == "00011";
    assert "000113"[..5] == "00011";
    assert "00011"[..4] == "0001";
    assert "0001"[..3] == "000";
    assert "000"[..2] == "00";
    assert "00"[..1] == "0";
    assert "111"[..2] == "11";
    assert "11"[..1] == "1";
    assert DigitsValue("000111") == 111 && DigitsValue("111") == 111;
    assert DigitsValue("000112") == 112 && DigitsValue("000113") == 113;
    assert !IsDigit(Wildcard[0]);
  }

  /** The table after the three `store_site_option` calls of `main`, in order. */
  function DemoTable(): Table {
    var t1 := InsertOrReplace([], Key(8080, "ASHLEY", "*", 0), true);
    var t2 := InsertOrReplace(t1, Key(8080, "ASHLEY", "000111", 0), false);
    InsertOrReplace(t2, Key(8080, "ASHLEY", "000111", 1000000), false)
  }

  /** The same three writes, applied to the store. */
  function DemoStore(): Store {
    var s1 := Upsert(map[], Key(8080, "ASHLEY", "*", 0), true);
    var s2 := Upsert(s1, Key(8080, "ASHLEY", "000111", 0), false);
    Upsert(s2, Key(8080, "ASHLEY", "000111", 1000000), false)
  }

  /** The three writes leave one row per key, and the table reads as the store. */
  lemma DemoTableContents()
    ensures UniqueIndex(DemoTable())
    ensures Contents(DemoTable()) == DemoStore()
  {
    var t1 := InsertOrReplace([], Key(8080, "ASHLEY", "*", 0), true);
    var t2 := InsertOrReplace(t1, Key(8080, "ASHLEY", "000111", 0), false);
    assert UniqueIndex([]) by {
      forall ik ensures CountKey([], ik) <= 1 { }
    }
    InsertOrReplaceRefinesUpsert([], Key(8080, "ASHLEY", "*", 0), true);
    InsertOrReplaceRefinesUpsert(t1, Key(8080, "ASHLEY", "000111", 0), false);
    InsertOrReplaceRefinesUpsert(t2, Key(8080, "ASHLEY", "000111", 1000000), false);
    assert Contents([]) == map[];
  }

  /** `main`'s first lookup: the exact override of variant 1000000 (false). */
  lemma DemoExactOverride()
    ensures !Resolve(DemoStore(), Key(8080, "ASHLEY", "000111", 1000000))
  {
    ResolveExact(DemoStore(), 8080, "ASHLEY", "000111", 1000000, false);
  }

  /** `main`'s second lookup: variant 1000001 has no override of its own and
      falls to the fill over item 000111 (false). */
  lemma DemoItemFill()
    ensures !Resolve(DemoStore(), Key(8080, "ASHLEY", "000111", 1000001))
  {
    ResolveItemFill(DemoStore(), 8080, "ASHLEY", "000111", 1000001, false);
  }

  /** `main`'s third lookup: item 000113 has no fill and falls to the fill
      over brand ASHLEY (true). */
  lemma DemoBrandFill()
    ensures Resolve(DemoStore(), Key(8080, "ASHLEY", "000113", 1000000))
  {
    DemoCells();
    ResolveBrandFill(DemoStore(), 8080, "ASHLEY", "000113", 1000000, true);
  }

  /** `main`'s fourth lookup: brand MEH has nothing stored at any rung, so the
      default applies (true). */
  lemma DemoDefault()
    ensures Resolve(DemoStore(), Key(8080, "MEH", "000112", 1000000))
  {
    var st := DemoStore();
    assert forall ik :: ik in st ==> ik.brand == Text("ASHLEY") by {
      DemoCells();
    }
    assert NumericAffinity("MEH") == Text("MEH") by {
      DemoCells();
    }
    ResolveDefault(st, 8080, "MEH", "000112", 1000000);
  }

  /** Looking up pn "111" reads the rows written as "000111": the exact
      override of variant 1000000 applies (false). */
  lemma DemoAliasLookup()
    ensures !Resolve(DemoStore(), Key(8080, "ASHLEY", "111", 1000000))
  {
    DemoCells();
    ResolveExact(DemoStore(), 8080, "ASHLEY", "111", 1000000, false);
  }

  /** Writing an item fill at pn "111" replaces the fill written as "000111",
      so variant 1000001 of "000111" now resolves to the new value (true). */
  lemma DemoAliasWrite()
    ensures Resolve(Upsert(DemoStore(), Key(8080, "ASHLEY", "111", 0), true), Key(8080, "ASHLEY", "000111", 1000001))
  {
    DemoCells();
    var st := Upsert(DemoStore(), Key(8080, "ASHLEY", "111", 0), true);
    ResolveItemFill(st, 8080, "ASHLEY", "000111", 1000001, true);
  }

  /** The four lookups of `main`, run as SQL against the table, resolve to
      false, false, true, true. */
  lemma DemoScenario()
    ensures !FetchFromTable(DemoTable(), 8080, "ASHLEY", "000111", 1000000).onSite
    ensures !FetchFromTable(DemoTable(), 8080, "ASHLEY", "000111", 1000001).onSite
    ensures FetchFromTable(DemoTable(), 8080, "ASHLEY", "000113", 1000000).onSite
    ensures FetchFromTable(DemoTable(), 8080, "MEH", "000112", 1000000).onSite
  {
    var t := DemoTable();
    DemoTableContents();
    DemoExactOverride();
    DemoItemFill();
    DemoBrandFill();
    DemoDefault();
    FetchFromTableRefines(t, 8080, "ASHLEY", "000111", 1000000);
    FetchFromTableRefines(t, 8080, "ASHLEY", "000111", 1000001);
    FetchFromTableRefines(t, 8080, "ASHLEY", "000113", 1000000);
    FetchFromTableRefines(t, 8080, "MEH", "000112", 1000000);
  }
}

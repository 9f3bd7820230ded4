# Site-option fills: cascading override resolution

A Dafny model of the site-option fills prototype (`main.py`). The system
decides one boolean, `on_site` ("this catalog item variant is offered at
this site"). It stores overrides at four levels of specificity, keyed by
`(site_id, brand, pn, dp_id)`. The placeholders `"*"` (for brand or pn) and
`0` (for dp_id) turn a row into a *fill* that covers every matching item or
variant. A lookup tries four keys in a fixed order: the exact key, the item
fill `(s, b, p, 0)`, the brand fill `(s, b, "*", 0)` and the site-wide fill
`(s, "*", "*", 0)`. It returns the first value found, or `true` when none of
them is stored.

The columns `brand` and `pn` are declared with the type name `string`
(main.py:21-22). In SQLite that name gives them NUMERIC affinity. Text that
spells an integer is stored as that integer, and the bound parameter in each
`WHERE` clause is converted the same way. So `"000111"` and `"111"` name the
same row, both when writing and when looking up. The model keeps the
caller's `Key` (strings) for the arguments and the returned `SiteOption`. It
stores and compares the converted `IndexKey`, built by `Stored` and
`NumericAffinity`.

Modules:

- `OverrideStore` (`override_store.dfy`): the `Key`, `IndexKey` and
  `SiteOption` records and NUMERIC affinity. The store is a
  `map<IndexKey, bool>`, and `INSERT OR REPLACE` is `Upsert`. It also defines
  the `IsConcrete`, `Covers` and `Specificity` vocabulary used by the lemmas.
- `Resolver` (`resolver.dfy`): the ladder, SQL `COALESCE`, `Resolve` and
  `FetchSiteOption`, with lemmas for precedence, the default, site isolation
  and placeholder collisions.
- `SiteTable` (`site_table.dfy`): the table as a sequence of rows.
  `INSERT OR REPLACE` deletes conflicting rows and then appends. Each
  sub-select returns the first matching row (`LIMIT 1`). Lemmas show that
  the table keeps the unique index, and that it reads as the map of
  `OverrideStore`. The four-sub-select query resolves the way `Resolver`
  does.
- `Demo` (`demo.dfy`): the scenario run by `main`, plus a lookup and a write
  that spell the part number `"111"` instead of `"000111"`.
- `Wrappers` (`wrappers.dfy`): `Option`, which stands for a sub-select that
  returns a value or NULL.

The placeholders are kept as the source has them: `"*"` and `0`.
`fetch_site_option` accepts any key, placeholders included, and the model
does the same. `LadderCollisions` and `LadderDistinctIffConcrete` show what
such input does: a real `pn` of `"*"` or `dp_id` of `0` makes rungs of the
ladder read the same row.

## Model

| member | source | states |
|---|---|---|
| OverrideStore.NumericAffinity | main.py:21-22 | text in a column declared string becomes an INTEGER exactly when it is an integer literal within 64 bits, carrying that literal's value; other text is kept verbatim |
| OverrideStore.WildcardSurvivesAffinity | main.py:21-22 | the placeholder "*" stays text, and no other string is stored as the same cell |
| OverrideStore.TextKeepsIdentity | main.py:21-22 | under the model's conversion, text that is not an integer literal names the same cell only as the identical string (SQLite's own conversion is wider; see Left out) |
| OverrideStore.Stored | main.py:42-45 | the row key a WHERE operand here, and the `INSERT OR REPLACE` of main.py:56, both use: site_id and dp_id pass unchanged (INTEGER columns), brand and pn are converted under the NUMERIC affinity their `string` declarations at main.py:21-22 give, and each holds the placeholder cell exactly when the caller passed "*" |
| OverrideStore.Lookup | main.py:42-45 | the exact-key lookup each rung performs: a value is found exactly when the store holds the key's converted row, and it is that row's value; no other row is consulted |
| OverrideStore.LeadingZeroIgnored | main.py:21-22 | a leading zero does not change the stored cell of a digit string within 64 bits ("0111" and "111" name one row) |
| OverrideStore.Upsert | main.py:53-57 | after insert-or-replace every key stored as the written row holds the written value, every key stored as another row holds what it held, the row set grows by that row only, and the size grows by one exactly when the row was new |
| OverrideStore.UpsertIdempotent | main.py:56 | storing the same key and value twice gives the same store as storing it once |
| OverrideStore.UpsertLastWriteWins | main.py:56 | storing v1 then v2 at keys stored as the same row (also "000111" then "111") equals storing v2 alone |
| OverrideStore.UpsertCommutes | main.py:56 | writes to different rows are independent: their order does not change the store |
| Resolver.Ladder | main.py:42-45 | the four candidate keys each cover the lookup key: same site, every other field a placeholder or stored as the same cell as the query's |
| Resolver.Coalesce | main.py:41-46 | COALESCE yields the value of the first non-NULL argument, and the default when all are NULL |
| Resolver.Resolve | main.py:36-50 | the resolved flag is the stored value of the first ladder rung that is present, and true when no rung is present |
| Resolver.FetchSiteOption | main.py:50 | the returned SiteOption echoes site_id, brand, pn and dp_id and carries the resolved flag |
| Resolver.ResolveExact | main.py:42 | an exact override decides the result whatever fills exist at broader keys |
| Resolver.ResolveItemFill | main.py:43 | without an exact override the item fill (s,b,p,0) decides, ahead of brand and site fills |
| Resolver.ResolveBrandFill | main.py:44 | without exact override or item fill, the brand fill (s,b,'*',0) decides, ahead of the site-wide fill |
| Resolver.ResolveSiteFill | main.py:45 | with only the site-wide fill (s,'*','*',0) among the rungs, it decides |
| Resolver.ResolveDefault | main.py:46 | with none of the four rungs stored the flag is true |
| Resolver.NarrowerFillWins | main.py:43-44 | an item fill of false under a brand fill of true resolves every variant without its own override to false |
| Resolver.ResolveFalseHasWitness | main.py:41-46 | a false result always comes from some rung that stores false; the default never yields false |
| Resolver.ResolveDependsOnlyOnLadder | main.py:42-45 | two stores that agree on the four rungs resolve the key alike, whatever else they hold |
| Resolver.SiteIsolation | main.py:42-45 | records of other sites never change resolution, because every rung carries the query's site_id |
| Resolver.UpsertOtherSite | main.py:42-45 | writing an override at another site leaves every resolution at this site unchanged |
| Resolver.UpsertThenResolve | main.py:42 | after storing v at a key, resolving that key yields v |
| Resolver.ResolveRespectsAffinity | main.py:42-45 | two lookup keys stored as the same row (pn "111" and "000111") resolve alike in every store |
| Resolver.OffLadderFillIgnored | main.py:42-45 | a fill on (s,'*',p,0) covers the key but is not one of the four rungs, so writing it never changes the resolution, in every store |
| Resolver.LadderSpecificity | main.py:42-45 | for a key without placeholders the rungs have 3, 2, 1 and 0 real fields, in that order |
| Resolver.LadderDistinctIffConcrete | main.py:42-45 | the four rungs read four different rows exactly when the lookup key holds no placeholder |
| Resolver.LadderCollisions | main.py:42-45 | a dp_id of 0 makes the exact key and the item fill one row, a pn of "*" the item and brand fills, a brand of "*" the brand and site-wide fills, and only in those cases |
| SiteTable.UniqueIndex | main.py:30-31 | the unique index idx_site_options: no two rows carry the same key, proved equivalent to no key being held by more than one row |
| SiteTable.SelectOne | main.py:42 | LIMIT 1 returns NULL exactly when no row has the stored key, else the value of the first row with that key |
| SiteTable.Without | main.py:56 | the delete half of REPLACE leaves no row with the key and keeps the rows and first matches of every other key |
| SiteTable.InsertOrReplace | main.py:56 | after insert-or-replace exactly one row holds the converted key, with the written value; other keys' rows are unchanged; the unique index is preserved |
| SiteTable.ContentsFind | main.py:42 | a point lookup in the table's contents reads what the LIMIT 1 sub-select reads |
| SiteTable.InsertOrReplaceRefinesUpsert | main.py:56 | insert-or-replace on the table is the map update on its contents |
| SiteTable.FetchFromTable | main.py:36-50 | the query as written echoes the lookup key in the returned SiteOption |
| SiteTable.FetchFromTableRefines | main.py:40-50 | the four-sub-select COALESCE query on the table returns what Resolver returns on its contents |
| Demo.DemoCells | main.py:67-80 | main's part numbers are stored as the integers 111, 112 and 113 (and "111" as 111); its brands and "*" stay text |
| Demo.DemoTableContents | main.py:66-71 | the three writes of main leave one row per key, and the table reads as the store built by three upserts |
| Demo.DemoExactOverride | main.py:73-74 | the first lookup of main hits the exact override and yields false |
| Demo.DemoItemFill | main.py:75-76 | the second lookup falls to the item fill and yields false |
| Demo.DemoBrandFill | main.py:77-78 | the third lookup falls to the brand fill and yields true |
| Demo.DemoDefault | main.py:79-80 | the fourth lookup finds no rung and yields the default true |
| Demo.DemoAliasLookup | main.py:42 | after main's writes, a lookup of pn "111" hits the exact override written as "000111" and yields false |
| Demo.DemoAliasWrite | main.py:56 | after main's writes, an item fill written at pn "111" replaces the one written as "000111" |
| Demo.DemoScenario | main.py:66-80 | run as SQL on the table, the four lookups of main yield false, false, true, true |

## Left out

- Opening, committing and closing the SQLite connection, `create_tables`, and the `print` calls in `main` (main.py:14-33, 60-86). These are persistence and I/O plumbing. Two things from `create_tables` are kept: the NUMERIC affinity of the `string` columns, and the unique index (the table's `UniqueIndex` invariant, and the store being a map).
- OverrideStore.NumericAffinity: converts only integer literals (an optional sign and decimal digits) that fit in 64 bits. SQLite's numeric conversion also skips leading and trailing spaces, so " 111" and "111 " become the INTEGER 111. It turns real and exponent forms into numbers: "111.0" and "1.11e2" become the INTEGER 111, and "1.5" becomes a REAL. It turns integer literals beyond 64 bits into REALs. The model keeps all such text verbatim, so these spellings are distinct keys in the model although SQLite stores them as one row.
- OverrideStore.TextKeepsIdentity: holds of the model's conversion only. In SQLite, "1.0", "1.0e0" and " 1" are not integer literals, yet each is stored as the same INTEGER cell as "1".
- OverrideStore.Upsert: for a `site_id` or `dp_id` outside the signed 64-bit range, Python's sqlite3 raises OverflowError when binding the parameters (main.py:55-57). The model's `int` fields accept any value and store it.
- SiteTable.InsertOrReplace: models the same write, and has the same gap. A `site_id` or `dp_id` outside the signed 64-bit range makes sqlite3 raise OverflowError when binding (main.py:55-57), but the row is inserted here.
- Resolver.FetchSiteOption: for the same out-of-range integers the query raises OverflowError (main.py:40-47). The model resolves such keys like any other.
- SiteTable.FetchFromTable: models the same query, and has the same gap. Out-of-range integers raise OverflowError at main.py:40-47, but they are resolved here.
- sqlite3 errors, such as a failed connect or a locked or unwritable file, propagate to the caller. The model has no storage to fail.
- SQLite's integer encoding of booleans and the `== 1` conversion (main.py:26, 49). Values are modelled as `bool` directly.
- NULL `on_site` values (main.py:24). `store_site_option` binds whatever it is given, and every call in `main` passes True or False. A caller passing `None` stores an explicit NULL (the column default applies only when the column is omitted), which `COALESCE` skips so that the rung falls through to the next. The model stores `bool` values and so excludes this.
- The `on_site` column default `true` (main.py:26). Every insert supplies the column, so the default never applies.
- Interleaving between connections. Each `store_site_option` is one `INSERT OR REPLACE` statement, and each `fetch_site_option` is one `SELECT`, which SQLite runs atomically even though it reads four keys. The model treats each call as one step on the store.

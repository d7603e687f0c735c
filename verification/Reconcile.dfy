/** reconciliation.py: bringing the holdings table to the broker's snapshot.  One row per ticker. */
module Reconcile {
  import opened Prelude
  import opened Holdings

  datatype KisHolding = KisHolding(ticker: string, name: string, quantity: real, avgPrice: real, market: Option<string>)

  type Snapshot = map<string, KisHolding>

  datatype Counts = Counts(inserted: nat, updated: nat, deleted: nat)

  /** By ticker; of several entries for one ticker the last counts. */
  function ByTicker(ks: seq<KisHolding>): Snapshot {
    if ks == [] then map[] else ByTicker(DropLast(ks))[Last(ks).ticker := Last(ks)]
  }

  /** Entry k is the last one for the ticker. */
  ghost predicate IsLastEntry(ks: seq<KisHolding>, t: string, k: int) {
    0 <= k < |ks| && ks[k].ticker == t && forall j | k < j < |ks| :: ks[j].ticker != t
  }

  /** A ticker is in the map exactly when some entry carries it, and its value is the last such entry. */
  lemma {:induction false} ByTickerIsLastEntry(ks: seq<KisHolding>, t: string)
    ensures t in ByTicker(ks) <==> exists e <- ks :: e.ticker == t
    ensures t in ByTicker(ks) ==> exists k :: IsLastEntry(ks, t, k) && ByTicker(ks)[t] == ks[k]
  {
    if ks != [] {
      var before, n := DropLast(ks), |ks| - 1;
      ByTickerIsLastEntry(before, t);
      assert ks == before + [ks[n]];
      if ks[n].ticker == t {
        assert IsLastEntry(ks, t, n);
      } else if t in ByTicker(before) {
        var k :| IsLastEntry(before, t, k) && ByTicker(before)[t] == before[k];
        assert IsLastEntry(ks, t, k);
      }
    }
  }

  function Inserted(k: KisHolding): Holding {
    Holding(k.name, k.quantity, k.avgPrice, k.market)
  }

  /** A row already present keeps its name. */
  function Overwritten(h: Holding, k: KisHolding): Holding {
    h.(quantity := k.quantity, avgPrice := k.avgPrice, market := k.market)
  }

  predicate Differs(h: Holding, k: KisHolding) {
    h.quantity != k.quantity || h.avgPrice != k.avgPrice || h.market != k.market
  }

  function Reconciled(db: Table, kis: Snapshot): Table {
    map t | t in kis ::
      if t in db then Overwritten(db[t], kis[t]) else Inserted(kis[t])
  }

  function Changed(db: Table, kis: Snapshot): set<string> {
    set t | t in db && t in kis && Differs(db[t], kis[t])
  }

  function Missing(db: Table, kis: Snapshot): set<string> {
    set t | t in kis && t !in db
  }

  function Gone(db: Table, kis: Snapshot): set<string> {
    set t | t in db && t !in kis
  }

  function CountsOf(db: Table, kis: Snapshot): Counts {
    Counts(|Missing(db, kis)|, |Changed(db, kis)|, |Gone(db, kis)|)
  }

  // ----- The three loops -----

  /** Every key once, in some order. */
  ghost predicate Lists(keys: seq<string>, s: set<string>) {
    (forall k :: k in keys <==> k in s) && Distinct(keys)
  }

  /** Keys added over those of `keys`, with how many there were. */
  function InsertEach(db: Table, kis: Snapshot, keys: seq<string>): (Table, nat)
    requires forall k <- keys :: k in kis
  {
    if keys == [] then (db, 0)
    else
      var (rows, n) := InsertEach(db, kis, DropLast(keys));
      var t := Last(keys);
      if t in db then (rows, n) else (rows[t := Inserted(kis[t])], n + 1)
  }

  function UpdateEach(db: Table, kis: Snapshot, before: Table, keys: seq<string>): (Table, nat)
    requires forall k <- keys :: k in db
  {
    if keys == [] then (before, 0)
    else
      var (rows, n) := UpdateEach(db, kis, before, DropLast(keys));
      var t := Last(keys);
      if t in kis && Differs(db[t], kis[t]) then (rows[t := Overwritten(db[t], kis[t])], n + 1) else (rows, n)
  }

  function DeleteEach(kis: Snapshot, before: Table, keys: seq<string>): (Table, nat) {
    if keys == [] then (before, 0)
    else
      var (rows, n) := DeleteEach(kis, before, DropLast(keys));
      var t := Last(keys);
      if t in kis then (rows, n) else (rows - {t}, n + 1)
  }

  /** How many of the listed keys are in s. */
  function CountIn(keys: seq<string>, s: set<string>): nat {
    if keys == [] then 0 else CountIn(DropLast(keys), s) + if Last(keys) in s then 1 else 0
  }

  lemma {:induction false} CountInIsSize(keys: seq<string>, s: set<string>)
    requires Distinct(keys) && forall k <- s :: k in keys
    ensures CountIn(keys, s) == |s|
  {
    if keys != [] {
      var t := Last(keys);
      CountInIsSize(DropLast(keys), s - {t});
      OtherKeysOnly(DropLast(keys), s, t);
      assert t in s ==> s == (s - {t}) + {t};
      assert t !in s ==> s == s - {t};
    }
  }

  lemma {:induction false} OtherKeysOnly(keys: seq<string>, s: set<string>, t: string)
    requires t !in keys
    ensures CountIn(keys, s - {t}) == CountIn(keys, s)
  {
    if keys != [] {
      OtherKeysOnly(DropLast(keys), s, t);
    }
  }

  lemma {:induction false} InsertEachMeans(db: Table, kis: Snapshot, keys: seq<string>)
    requires forall k <- keys :: k in kis
    ensures var (rows, n) := InsertEach(db, kis, keys);
            && (forall t :: t in rows <==> t in db || t in keys)
            && (forall t | t in rows :: rows[t] == if t in db then db[t] else Inserted(kis[t]))
            && n == CountIn(keys, Missing(db, kis))
  {
    if keys != [] {
      InsertEachMeans(db, kis, DropLast(keys));
      assert keys == DropLast(keys) + [Last(keys)];
    }
  }

  lemma {:induction false} UpdateEachMeans(db: Table, kis: Snapshot, before: Table, keys: seq<string>)
    requires forall k <- keys :: k in db
    requires forall t | t in db :: t in before && before[t] == db[t]
    ensures var (rows, n) := UpdateEach(db, kis, before, keys);
            && (forall t :: t in rows <==> t in before)
            && (forall t | t in rows :: rows[t] == if t in keys && t in kis then Overwritten(db[t], kis[t]) else before[t])
            && n == CountIn(keys, Changed(db, kis))
  {
    if keys != [] {
      UpdateEachMeans(db, kis, before, DropLast(keys));
      assert keys == DropLast(keys) + [Last(keys)];
    }
  }

  lemma {:induction false} DeleteEachMeans(db: Table, kis: Snapshot, before: Table, keys: seq<string>)
    requires forall k <- keys :: k in db
    ensures var (rows, n) := DeleteEach(kis, before, keys);
            && (forall t :: t in rows <==> t in before && (t in keys ==> t in kis))
            && (forall t | t in rows :: rows[t] == before[t])
            && n == CountIn(keys, Gone(db, kis))
  {
    if keys != [] {
      DeleteEachMeans(db, kis, before, DropLast(keys));
      assert keys == DropLast(keys) + [Last(keys)];
    }
  }

  /** The three loops together make the table `Reconciled` and the counts `CountsOf`. */
  lemma ThreeLoopsReconcile(db: Table, kis: Snapshot, kisKeys: seq<string>, dbKeys: seq<string>)
    requires Lists(kisKeys, kis.Keys) && Lists(dbKeys, db.Keys)
    ensures var (r1, inserted) := InsertEach(db, kis, kisKeys);
            var (r2, updated) := UpdateEach(db, kis, r1, dbKeys);
            var (r3, deleted) := DeleteEach(kis, r2, dbKeys);
            r3 == Reconciled(db, kis) && Counts(inserted, updated, deleted) == CountsOf(db, kis)
  {
    InsertEachMeans(db, kis, kisKeys);
    var r1 := InsertEach(db, kis, kisKeys).0;
    UpdateEachMeans(db, kis, r1, dbKeys);
    DeleteEachMeans(db, kis, UpdateEach(db, kis, r1, dbKeys).0, dbKeys);
    CountsAreSizes(db, kis, kisKeys, dbKeys);
    var r2 := UpdateEach(db, kis, r1, dbKeys).0;
    SameAsReconciled(db, kis, r1, r2, DeleteEach(kis, r2, dbKeys).0);
  }

  lemma CountsAreSizes(db: Table, kis: Snapshot, kisKeys: seq<string>, dbKeys: seq<string>)
    requires Lists(kisKeys, kis.Keys) && Lists(dbKeys, db.Keys)
    ensures CountsOf(db, kis) ==
              Counts(CountIn(kisKeys, Missing(db, kis)), CountIn(dbKeys, Changed(db, kis)), CountIn(dbKeys, Gone(db, kis)))
  {
    CountInIsSize(kisKeys, Missing(db, kis));
    CountInIsSize(dbKeys, Changed(db, kis));
    CountInIsSize(dbKeys, Gone(db, kis));
  }

  lemma SameAsReconciled(db: Table, kis: Snapshot, r1: Table, r2: Table, r3: Table)
    requires forall t :: t in r1 <==> t in db || t in kis
    requires forall t | t in r1 :: r1[t] == if t in db then db[t] else Inserted(kis[t])
    requires forall t :: t in r2 <==> t in r1
    requires forall t | t in r2 :: r2[t] == if t in db && t in kis then Overwritten(db[t], kis[t]) else r1[t]
    requires forall t :: t in r3 <==> t in r2 && (t in db ==> t in kis)
    requires forall t | t in r3 :: r3[t] == r2[t]
    ensures r3 == Reconciled(db, kis)
  {}

  /** The table says of every ticker what the broker's list says last, and lists nothing else; a row that
    * was there before keeps its name. */
  ghost predicate MirrorsList(before: Table, ks: seq<KisHolding>, after: Table) {
    && (forall t :: t in after <==> exists e <- ks :: e.ticker == t)
    && forall t, k | IsLastEntry(ks, t, k) ::
         && t in after && after[t].quantity == ks[k].quantity && after[t].avgPrice == ks[k].avgPrice
         && after[t].market == ks[k].market && after[t].name == (if t in before then before[t].name else ks[k].name)
  }

  /** Against the rows before: how many are new, how many both times there and now different, how many gone. */
  ghost predicate CountsRows(before: Table, after: Table, counts: Counts) {
    && counts.inserted == |set t | t in after && t !in before|
    && counts.updated == |set t | t in after && t in before && after[t] != before[t]|
    && counts.deleted == |set t | t in before && t !in after|
  }

  lemma LastEntryIsMapped(ks: seq<KisHolding>, t: string, k: int)
    requires IsLastEntry(ks, t, k)
    ensures t in ByTicker(ks) && ByTicker(ks)[t] == ks[k]
  {
    ByTickerIsLastEntry(ks, t);
    assert ks[k] in ks;
  }

  /** After reconciling, the table mirrors the list as the broker sent it. */
  lemma ReconciledMirrorsList(db: Table, ks: seq<KisHolding>)
    ensures MirrorsList(db, ks, Reconciled(db, ByTicker(ks)))
  {
    forall t
      ensures t in ByTicker(ks) <==> exists e <- ks :: e.ticker == t
    {
      ByTickerIsLastEntry(ks, t);
    }
    forall t, k | IsLastEntry(ks, t, k) {
      LastEntryIsMapped(ks, t, k);
    }
  }

  /** The counts are those of the rows that came, changed and went. */
  lemma CountsAreRows(db: Table, kis: Snapshot)
    ensures CountsRows(db, Reconciled(db, kis), CountsOf(db, kis))
  {
    var after := Reconciled(db, kis);
    assert Missing(db, kis) == set t | t in after && t !in db;
    assert Changed(db, kis) == set t | t in after && t in db && after[t] != db[t];
    assert Gone(db, kis) == set t | t in db && t !in after;
  }

  class HoldingsTable {
    var rows: Table

    constructor (rows: Table)
      ensures this.rows == rows
    {
      this.rows := rows;
    }

    method MapSnapshot(ks: seq<KisHolding>) returns (m: Snapshot)
      ensures m == ByTicker(ks)
    {
      m := map[];
      for i := 0 to |ks|
        invariant m == ByTicker(ks[..i])
      {
        assert DropLast(ks[..i + 1]) == ks[..i];
        m := m[ks[i].ticker := ks[i]];
      }
      assert ks[..|ks|] == ks;
    }

    /** The order in which a dictionary's keys are visited. */
    static method KeysInOrder(s: set<string>) returns (keys: seq<string>)
      ensures Lists(keys, s)
    {
      keys := [];
      var todo := s;
      while todo != {}
        invariant Distinct(keys)
        invariant forall k :: k in s <==> k in keys || k in todo
        invariant forall k :: k in keys ==> k !in todo
        decreases |todo|
      {
        var t :| t in todo;
        keys, todo := keys + [t], todo - {t};
      }
    }

    method InsertMissing(db: Table, kis: Snapshot, keys: seq<string>) returns (inserted: nat)
      requires rows == db && forall k <- keys :: k in kis
      modifies this
      ensures (rows, inserted) == InsertEach(db, kis, keys)
    {
      inserted := 0;
      for i := 0 to |keys|
        invariant (rows, inserted) == InsertEach(db, kis, keys[..i])
      {
        assert DropLast(keys[..i + 1]) == keys[..i];
        if keys[i] !in db {
          rows := rows[keys[i] := Inserted(kis[keys[i]])];
          inserted := inserted + 1;
        }
      }
      assert keys[..|keys|] == keys;
    }

    method UpdateChanged(db: Table, kis: Snapshot, keys: seq<string>) returns (updated: nat)
      requires forall k <- keys :: k in db
      modifies this
      ensures (rows, updated) == UpdateEach(db, kis, old(rows), keys)
    {
      updated := 0;
      for i := 0 to |keys|
        invariant (rows, updated) == UpdateEach(db, kis, old(rows), keys[..i])
      {
        assert DropLast(keys[..i + 1]) == keys[..i];
        var t := keys[i];
        if t in kis && Differs(db[t], kis[t]) {
          rows := rows[t := Overwritten(db[t], kis[t])];
          updated := updated + 1;
        }
      }
      assert keys[..|keys|] == keys;
    }

    method DeleteGone(kis: Snapshot, keys: seq<string>) returns (deleted: nat)
      modifies this
      ensures (rows, deleted) == DeleteEach(kis, old(rows), keys)
    {
      deleted := 0;
      for i := 0 to |keys|
        invariant (rows, deleted) == DeleteEach(kis, old(rows), keys[..i])
      {
        assert DropLast(keys[..i + 1]) == keys[..i];
        if keys[i] !in kis {
          rows := rows - {keys[i]};
          deleted := deleted + 1;
        }
      }
      assert keys[..|keys|] == keys;
    }

    /** reconcile_holdings: insert, then update, then delete, against the rows as first read. */
    method ReconcileHoldings(ks: seq<KisHolding>) returns (counts: Counts)
      modifies this
      ensures rows == Reconciled(old(rows), ByTicker(ks)) && counts == CountsOf(old(rows), ByTicker(ks))
      ensures MirrorsList(old(rows), ks, rows) && CountsRows(old(rows), rows, counts)
    {
      ReconciledMirrorsList(rows, ks);
      CountsAreRows(rows, ByTicker(ks));
      var db := rows;
      var kis := MapSnapshot(ks);
      var kisKeys := KeysInOrder(kis.Keys);
      var dbKeys := KeysInOrder(db.Keys);
      ThreeLoopsReconcile(db, kis, kisKeys, dbKeys);
      var inserted := InsertMissing(db, kis, kisKeys);
      var updated := UpdateChanged(db, kis, dbKeys);
      var deleted := DeleteGone(kis, dbKeys);
      counts := Counts(inserted, updated, deleted);
    }
  }

  /** The table says of every ticker what the broker says, whatever it said before. */
  ghost predicate Mirrors(db: Table, kis: Snapshot) {
    && (forall t :: t in db <==> t in kis)
    && forall t | t in db :: db[t].quantity == kis[t].quantity && db[t].avgPrice == kis[t].avgPrice && db[t].market == kis[t].market
  }

  lemma NothingCounted(db: Table, kis: Snapshot)
    ensures CountsOf(db, kis) == Counts(0, 0, 0) <==> Missing(db, kis) == {} && Changed(db, kis) == {} && Gone(db, kis) == {}
  {}

  /** Afterwards the table mirrors the snapshot; it did so before exactly when nothing is counted. */
  lemma ReconciledMirrors(db: Table, kis: Snapshot)
    ensures Mirrors(Reconciled(db, kis), kis)
    ensures CountsOf(db, kis) == Counts(0, 0, 0) <==> Mirrors(db, kis)
    ensures Mirrors(db, kis) ==> Reconciled(db, kis) == db
  {
    NothingCounted(db, kis);
    assert forall t :: t in Missing(db, kis) <==> t in kis && t !in db;
    assert forall t :: t in Gone(db, kis) <==> t in db && t !in kis;
    assert forall t :: t in Changed(db, kis) <==> t in db && t in kis && Differs(db[t], kis[t]);
  }

  /** A second run right after the first changes nothing and counts nothing. */
  lemma SecondRunIsIdle(db: Table, ks: seq<KisHolding>)
    ensures var once := Reconciled(db, ByTicker(ks));
            Reconciled(once, ByTicker(ks)) == once && CountsOf(once, ByTicker(ks)) == Counts(0, 0, 0)
  {
    ReconciledMirrors(db, ByTicker(ks));
    ReconciledMirrors(Reconciled(db, ByTicker(ks)), ByTicker(ks));
  }
}

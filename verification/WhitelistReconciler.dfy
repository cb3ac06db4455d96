/** Bringing a game whitelist, the ownership rows and the desired identities together
    (api/whitelist_reconciler.go, SetUserWhitelistForIdentity in database/database.go). */
module WhitelistReconciler {
  import opened Wrappers

  type Key = nat
  type Account = string

  /** A game identity: spellings that the game treats as the same player share a key. */
  datatype Name = Name(key: Key, spelling: string)

  /** What the database says of an account; Unreadable stands for a query that failed. */
  datatype Standing = NotEligible | Missing | Unverified | Invalid | Resolved(name: Name) | Unreadable
  datatype User = User(account: Account, standing: Standing)

  type Rows = map<Account, Name>
  type Desired = map<Account, Name>

  datatype Summary = Summary(
    eligible: nat, desired: nat, missing: nat, unverified: nat, invalid: nat,
    added: nat, removed: nat, manual: nat)

  function KeysOf(names: map<Account, Name>): set<Key> {
    set a | a in names :: names[a].key
  }

  /** Storing an owner takes the identity away from every other account. */
  function SetRow(rows: Rows, account: Account, name: Name): Rows {
    (map a | a in rows && (a == account || rows[a].key != name.key) :: rows[a])[account := name]
  }

  // ---------------------------------------------------------------- what a run settles

  /** The account's recorded ownership of `key` outlives the run: it still wants that identity,
      or it lost its access altogether. */
  ghost predicate Keeps(rows0: Rows, desired: Desired, account: Account, key: Key) {
    && account in rows0 && rows0[account].key == key
    && (account in desired ==> desired[account].key == key)
  }

  ghost predicate Claimed(rows0: Rows, desired: Desired, done: set<Account>, key: Key) {
    exists a :: a in done && Keeps(rows0, desired, a, key)
  }

  ghost predicate OwnedBy(rows: Rows, done: set<Account>, key: Key) {
    exists a :: a in rows && a in done && rows[a].key == key
  }

  ghost predicate SoleOwner(rows0: Rows, account: Account) {
    account in rows0 && forall a :: a in rows0 && a != account ==> rows0[a].key != rows0[account].key
  }

  ghost predicate SteadyOwner(before: set<Key>, rows0: Rows, account: Account, wanted: Name) {
    SoleOwner(rows0, account) && rows0[account].key == wanted.key && wanted.key in before
  }

  /** The ownership rows once the accounts in `done` have been looked at. */
  ghost predicate RowsOK(before: set<Key>, rows0: Rows, desired: Desired, done: set<Account>, rows: Rows) {
    // a row of a finished account is for its desired identity, and never adopts a foreign entry
    && (forall a :: a in rows && a in done ==>
          && a in desired && rows[a].key == desired[a].key
          && (rows[a].key !in before || Claimed(rows0, desired, done, rows[a].key)))
    // the others are as they were
    && (forall a :: a in rows && a !in done ==> a in rows0 && rows[a] == rows0[a])
    // what was added, or owned by somebody whose claim outlives the run, is owned
    && (forall a :: a in desired && a in done && desired[a].key !in before ==> OwnedBy(rows, done, desired[a].key))
    && (forall key :: key in KeysOf(desired) && Claimed(rows0, desired, done, key) ==> OwnedBy(rows, done, key))
    // nobody shares a finished account's identity
    && (forall a, b :: a in rows && b in rows && a in done && a != b ==> rows[a].key != rows[b].key)
    // a sole owner that keeps its identity keeps its row
    && (forall a :: a in done && a in desired && SteadyOwner(before, rows0, a, desired[a]) ==>
          a in rows && rows[a] == desired[a])
  }

  /** The whitelist once the accounts in `done` have been looked at. */
  ghost function Listed(before: set<Key>, rows0: Rows, desired: Desired, done: set<Account>): set<Key> {
    (before + set a | a in desired && a in done :: desired[a].key)
    - (set a | a in rows0 && a in done && rows0[a].key !in KeysOf(desired) :: rows0[a].key)
  }

  ghost predicate NothingForeignRemoved(before: set<Key>, rows0: Rows, desired: Desired, now: set<Key>) {
    forall key :: key in before && key !in now ==> key in KeysOf(rows0) && key !in KeysOf(desired)
  }

  // ---------------------------------------------------------------- the names in the rows

  /** Each desired identity has one account to hand ownership to. */
  ghost predicate OwnersOK(desired: Desired, owners: map<Key, Account>) {
    && owners.Keys == KeysOf(desired)
    && forall k :: k in owners ==> owners[k] in desired && desired[owners[k]].key == k
  }

  /** The account lost its access, and somebody else wants its identity. */
  predicate HandsOver(rows0: Rows, desired: Desired, a: Account) {
    a in rows0 && a !in desired && rows0[a].key in KeysOf(desired)
  }

  ghost predicate Handed(rows0: Rows, desired: Desired, done: set<Account>, name: Name) {
    exists a :: a in done && HandsOver(rows0, desired, a) && rows0[a] == name
  }

  /** A row carries the desired name of its account; only the heir of an identity that was handed
      over carries the recorded name of somebody who lost access. */
  ghost predicate NamesOK(rows0: Rows, desired: Desired, owners: map<Key, Account>, done: set<Account>, rows: Rows) {
    && (forall a :: a in rows && a in done && a in desired ==>
          rows[a] == desired[a]
          || (Handed(rows0, desired, done, rows[a]) && rows[a].key in owners && owners[rows[a].key] == a))
    && (forall b :: b in done && HandsOver(rows0, desired, b) && rows0[b].key in owners ==>
          var heir := owners[rows0[b].key];
          heir in rows && rows[heir].key == rows0[b].key && Handed(rows0, desired, done, rows[heir]))
  }

  /** A successful run.  `owners` names, for every desired identity, the first account of the
      user list that wants it. */
  ghost predicate Reconciled(before: set<Key>, rows0: Rows, desired: Desired, owners: map<Key, Account>,
                             after: set<Key>, rows: Rows) {
    && OwnersOK(desired, owners)
    && after == (before - (KeysOf(rows0) - KeysOf(desired))) + KeysOf(desired)
    && RowsOK(before, rows0, desired, rows0.Keys + desired.Keys, rows)
    && NamesOK(rows0, desired, owners, rows0.Keys + desired.Keys, rows)
  }

  // ---------------------------------------------------------------- one account at a time

  lemma OwnAccount(before: set<Key>, rows0: Rows, desired: Desired, done: set<Account>, rows: Rows, a: Account)
    requires RowsOK(before, rows0, desired, done, rows)
    requires done <= desired.Keys && a in desired && a !in done
    requires Keeps(rows0, desired, a, desired[a].key) || desired[a].key !in before
    ensures RowsOK(before, rows0, desired, done + {a}, SetRow(rows, a, desired[a]))
  {
    var key, done', rows' := desired[a].key, done + {a}, SetRow(rows, a, desired[a]);
    assert OwnedBy(rows', done', key) by { assert a in rows' && rows'[a].key == key; }
    if Keeps(rows0, desired, a, key) { assert Claimed(rows0, desired, done', key); }
    ClaimsGrow(rows0, desired, done, a);
    forall k | k != key && OwnedBy(rows, done, k) ensures OwnedBy(rows', done', k) {
      var b :| b in rows && b in done && rows[b].key == k;
      assert b in rows' && rows'[b] == rows[b];
    }
  }

  lemma LeaveAccount(before: set<Key>, rows0: Rows, desired: Desired, done: set<Account>, rows: Rows, a: Account)
    requires RowsOK(before, rows0, desired, done, rows)
    requires a !in done
    requires forall k :: k in KeysOf(desired) ==> !Keeps(rows0, desired, a, k)
    requires a in desired ==> desired[a].key in before || OwnedBy(rows, done, desired[a].key)
    ensures RowsOK(before, rows0, desired, done + {a}, rows - {a})
  {
    var done', rows' := done + {a}, rows - {a};
    ClaimsGrow(rows0, desired, done, a);
    forall k | OwnedBy(rows, done, k) ensures OwnedBy(rows', done', k) {
      var b :| b in rows && b in done && rows[b].key == k;
      assert b in rows' && rows'[b] == rows[b];
    }
    forall b | b in rows' && b in done' ensures b in done {}
    if a in desired && SoleOwner(rows0, a) && rows0[a].key == desired[a].key {
      assert Keeps(rows0, desired, a, desired[a].key);
    }
  }

  lemma HandOver(before: set<Key>, rows0: Rows, desired: Desired, done: set<Account>, rows: Rows, a: Account, heir: Account)
    requires RowsOK(before, rows0, desired, done, rows)
    requires desired.Keys <= done && a !in done && a in rows0
    requires heir in desired && desired[heir].key == rows0[a].key
    ensures RowsOK(before, rows0, desired, done + {a}, SetRow(rows, heir, rows0[a]) - {a})
  {
    var key, done', rows' := rows0[a].key, done + {a}, SetRow(rows, heir, rows0[a]) - {a};
    assert Keeps(rows0, desired, a, key);
    assert Claimed(rows0, desired, done', key);
    assert OwnedBy(rows', done', key) by { assert heir in rows' && rows'[heir].key == key; }
    ClaimsGrow(rows0, desired, done, a);
    forall k | k != key && OwnedBy(rows, done, k) ensures OwnedBy(rows', done', k) {
      var b :| b in rows && b in done && rows[b].key == k;
      assert b in rows' && rows'[b] == rows[b];
    }
  }

  lemma ClaimsGrow(rows0: Rows, desired: Desired, done: set<Account>, a: Account)
    ensures forall k :: Claimed(rows0, desired, done, k) ==> Claimed(rows0, desired, done + {a}, k)
    ensures forall k :: Claimed(rows0, desired, done + {a}, k) ==>
              Claimed(rows0, desired, done, k) || Keeps(rows0, desired, a, k)
  {}

  lemma AtTheStart(before: set<Key>, rows0: Rows, desired: Desired)
    ensures RowsOK(before, rows0, desired, {}, rows0) && Listed(before, rows0, desired, {}) == before
  {}

  lemma WhenAllDone(before: set<Key>, rows0: Rows, desired: Desired, owners: map<Key, Account>, after: set<Key>, rows: Rows)
    requires after == Listed(before, rows0, desired, rows0.Keys + desired.Keys)
    requires RowsOK(before, rows0, desired, rows0.Keys + desired.Keys, rows) && OwnersOK(desired, owners)
    requires NamesOK(rows0, desired, owners, rows0.Keys + desired.Keys, rows)
    ensures Reconciled(before, rows0, desired, owners, after, rows)
  {
    hide RowsOK, NamesOK, OwnersOK;
  }

  /** What looking at one more account does to the whitelist. */
  lemma ListedStep(before: set<Key>, rows0: Rows, desired: Desired, done: set<Account>, a: Account)
    ensures var added := if a in desired then {desired[a].key} else {};
            var dropped := if a in rows0 && rows0[a].key !in KeysOf(desired) then {rows0[a].key} else {};
            && Listed(before, rows0, desired, done + {a}) == (Listed(before, rows0, desired, done) + added) - dropped
            && NothingForeignRemoved(before, rows0, desired, Listed(before, rows0, desired, done) + added)
    ensures NothingForeignRemoved(before, rows0, desired, Listed(before, rows0, desired, done))
    ensures NothingForeignRemoved(before, rows0, desired, Listed(before, rows0, desired, done + {a}))
  {
    var names, names' := set b | b in desired && b in done :: desired[b].key,
                         set b | b in desired && b in done + {a} :: desired[b].key;
    assert names' == names + if a in desired then {desired[a].key} else {};
    var stale, stale' := set b | b in rows0 && b in done && rows0[b].key !in KeysOf(desired) :: rows0[b].key,
                         set b | b in rows0 && b in done + {a} && rows0[b].key !in KeysOf(desired) :: rows0[b].key;
    assert stale' == stale + if a in rows0 && rows0[a].key !in KeysOf(desired) then {rows0[a].key} else {};
  }

  /** A desired identity is missing only if it was never there and nobody handled so far wants it. */
  lemma ListedMember(before: set<Key>, rows0: Rows, desired: Desired, done: set<Account>, rows: Rows, a: Account)
    requires RowsOK(before, rows0, desired, done, rows) && a in desired
    ensures desired[a].key in Listed(before, rows0, desired, done) ==>
              desired[a].key in before || OwnedBy(rows, done, desired[a].key)
    ensures desired[a].key !in Listed(before, rows0, desired, done) ==> desired[a].key !in before
    ensures a !in done && a !in rows0 ==> a !in rows
    ensures desired[a].key in KeysOf(desired)
  {}

  // ---------------------------------------------------------------- the names, one account at a time

  lemma HandedGrows(rows0: Rows, desired: Desired, done: set<Account>, a: Account, name: Name)
    requires Handed(rows0, desired, done, name)
    ensures Handed(rows0, desired, done + {a}, name)
  {
    var b :| b in done && HandsOver(rows0, desired, b) && rows0[b] == name;
    assert b in done + {a};
  }

  lemma NamesAtTheStart(rows0: Rows, desired: Desired, owners: map<Key, Account>)
    ensures NamesOK(rows0, desired, owners, {}, rows0)
  {}

  /** While the desired accounts are looked at, nothing is handed over yet. */
  lemma NamesWhileDesired(rows0: Rows, desired: Desired, owners: map<Key, Account>, done: set<Account>, rows: Rows, a: Account)
    requires NamesOK(rows0, desired, owners, done, rows) && done <= desired.Keys && a in desired
    ensures NamesOK(rows0, desired, owners, done + {a}, SetRow(rows, a, desired[a]))
    ensures NamesOK(rows0, desired, owners, done + {a}, rows - {a})
  {
    assert forall b :: b in done + {a} ==> !HandsOver(rows0, desired, b);
  }

  lemma NamesLeave(rows0: Rows, desired: Desired, owners: map<Key, Account>, done: set<Account>, rows: Rows, a: Account)
    requires NamesOK(rows0, desired, owners, done, rows) && OwnersOK(desired, owners) && a !in desired
    requires a in rows0 ==> rows0[a].key !in owners
    ensures NamesOK(rows0, desired, owners, done + {a}, rows - {a})
  {
    hide KeysOf;
    var rows' := rows - {a};
    assert !HandsOver(rows0, desired, a);
    forall b | b in rows' && b in desired && Handed(rows0, desired, done, rows'[b]) ensures Handed(rows0, desired, done + {a}, rows'[b]) {
      HandedGrows(rows0, desired, done, a, rows'[b]);
    }
  }

  lemma NamesHandOver(rows0: Rows, desired: Desired, owners: map<Key, Account>, done: set<Account>, rows: Rows, a: Account)
    requires NamesOK(rows0, desired, owners, done, rows) && OwnersOK(desired, owners)
    requires desired.Keys <= done && HandsOver(rows0, desired, a)
    ensures NamesOK(rows0, desired, owners, done + {a}, SetRow(rows, owners[rows0[a].key], rows0[a]) - {a})
  {
    hide KeysOf;
    var key, done' := rows0[a].key, done + {a};
    var heir := owners[key];
    var rows' := SetRow(rows, heir, rows0[a]) - {a};
    assert Handed(rows0, desired, done', rows0[a]) by { assert a in done'; }
    forall b | b in rows' && b != heir && Handed(rows0, desired, done, rows'[b]) ensures Handed(rows0, desired, done', rows'[b]) {
      HandedGrows(rows0, desired, done, a, rows'[b]);
    }
    forall b | b in done && HandsOver(rows0, desired, b) && rows0[b].key != key
      ensures var h := owners[rows0[b].key]; h in rows' && rows'[h] == rows[h] && Handed(rows0, desired, done', rows'[h])
    {
      var h := owners[rows0[b].key];
      HandedGrows(rows0, desired, done, a, rows[h]);
    }
  }

  // ---------------------------------------------------------------- what follows for callers

  /** A desired identity ends up owned by a desired account exactly when the run added it, or it
      was owned by an account that keeps it or that lost its access. */
  lemma OwnedAfterwards(before: set<Key>, rows0: Rows, desired: Desired, owners: map<Key, Account>, after: set<Key>, rows: Rows, key: Key)
    requires Reconciled(before, rows0, desired, owners, after, rows) && key in KeysOf(desired)
    ensures key in KeysOf(rows) <==>
            key !in before || exists a :: Keeps(rows0, desired, a, key)
  {}

  /** Every row belongs to a desired account and names its desired identity, and an identity that
      was present without an owner is not adopted. */
  lemma RowsAreDesired(before: set<Key>, rows0: Rows, desired: Desired, owners: map<Key, Account>, after: set<Key>, rows: Rows,
                       account: Account)
    requires Reconciled(before, rows0, desired, owners, after, rows) && account in rows
    ensures account in desired && rows[account].key == desired[account].key
    ensures rows[account].key in before ==> rows[account].key in KeysOf(rows0)
    ensures forall a :: a in rows && a != account ==> rows[a].key != rows[account].key
  {}

  lemma SecondRunKeepsRow(before: set<Key>, rows0: Rows, desired: Desired, owners: map<Key, Account>,
                          once: set<Key>, rows1: Rows, twice: set<Key>, rows2: Rows, account: Account)
    requires Reconciled(before, rows0, desired, owners, once, rows1)
    requires Reconciled(once, rows1, desired, owners, twice, rows2)
    requires account in rows1
    ensures account in desired && account in rows2 && rows2[account] == desired[account]
  {
    hide NamesOK, OwnersOK;
    RowsAreDesired(before, rows0, desired, owners, once, rows1, account);
    assert desired[account].key in KeysOf(desired);
    assert SteadyOwner(once, rows1, account, desired[account]);
    assert account in rows1.Keys + desired.Keys;
  }

  /** A second run right after a successful one adds nothing and removes nothing, and leaves every
      row with the same account, under the desired spelling. */
  lemma SecondRunIsQuiet(before: set<Key>, rows0: Rows, desired: Desired, owners: map<Key, Account>,
                         once: set<Key>, rows1: Rows, twice: set<Key>, rows2: Rows)
    requires Reconciled(before, rows0, desired, owners, once, rows1)
    requires Reconciled(once, rows1, desired, owners, twice, rows2)
    ensures twice == once
    ensures rows2.Keys == rows1.Keys <= desired.Keys
    ensures forall a :: a in rows2 ==> rows2[a] == desired[a]
  {
    hide NamesOK, OwnersOK;
    forall a | a in rows1 ensures a in desired && a in rows2 && rows2[a] == desired[a] {
      SecondRunKeepsRow(before, rows0, desired, owners, once, rows1, twice, rows2, a);
    }
    forall a | a in rows2 ensures a in rows1 {
      RowsAreDesired(once, rows1, desired, owners, twice, rows2, a);
      var key := rows2[a].key;
      assert key in KeysOf(rows1);
      var b :| b in rows1 && rows1[b].key == key;
      assert b in rows2 && rows2[b].key == key;
    }
    forall key | key in KeysOf(rows1) ensures key in KeysOf(desired) {
      var a :| a in rows1 && rows1[a].key == key;
      RowsAreDesired(before, rows0, desired, owners, once, rows1, a);
    }
  }

  /** Everybody who lost access while another account wants the identity had recorded the very
      spelling that the heir's provider reports. */
  ghost predicate SpellingsAgree(rows0: Rows, desired: Desired, owners: map<Key, Account>)
    requires OwnersOK(desired, owners)
  {
    forall b :: HandsOver(rows0, desired, b) ==> rows0[b] == desired[owners[rows0[b].key]]
  }

  ghost predicate OneOwner(rows: Rows) {
    forall a, b :: a in rows && b in rows && a != b ==> rows[a].key != rows[b].key
  }

  /** The store gives an identity one owner; every run leaves it so. */
  lemma OneOwnerAfterwards(before: set<Key>, rows0: Rows, desired: Desired, owners: map<Key, Account>, after: set<Key>, rows: Rows)
    requires Reconciled(before, rows0, desired, owners, after, rows)
    ensures OneOwner(rows)
  {
    hide NamesOK, OwnersOK;
  }

  lemma HeirsRow(before: set<Key>, rows0: Rows, desired: Desired, owners: map<Key, Account>, after: set<Key>, rows: Rows, b: Account)
    requires Reconciled(before, rows0, desired, owners, after, rows) && OneOwner(rows0) && HandsOver(rows0, desired, b)
    ensures owners[rows0[b].key] in rows && rows[owners[rows0[b].key]] == rows0[b]
  {
    hide RowsOK, KeysOf;
    var heir := owners[rows0[b].key];
    assert b in rows0.Keys + desired.Keys;
    var c :| c in rows0.Keys + desired.Keys && HandsOver(rows0, desired, c) && rows0[c] == rows[heir];
  }

  /** A second run changes no row at all if the spellings of what was handed over agree, and, with
      one owner for each identity, only then. */
  lemma SecondRunChangesNoRow(before: set<Key>, rows0: Rows, desired: Desired, owners: map<Key, Account>,
                              once: set<Key>, rows1: Rows, twice: set<Key>, rows2: Rows)
    requires Reconciled(before, rows0, desired, owners, once, rows1)
    requires Reconciled(once, rows1, desired, owners, twice, rows2)
    ensures SpellingsAgree(rows0, desired, owners) ==> rows2 == rows1
    ensures OneOwner(rows0) ==> (rows2 == rows1 <==> SpellingsAgree(rows0, desired, owners))
  {
    SecondRunIsQuiet(before, rows0, desired, owners, once, rows1, twice, rows2);
    hide RowsOK, KeysOf;
    if SpellingsAgree(rows0, desired, owners) {
      forall a | a in rows1 ensures rows1[a] == desired[a] {
        assert a in rows2 && a in rows0.Keys + desired.Keys;
      }
    }
    if OneOwner(rows0) && rows2 == rows1 {
      forall b | HandsOver(rows0, desired, b) ensures rows0[b] == desired[owners[rows0[b].key]] {
        HeirsRow(before, rows0, desired, owners, once, rows1, b);
      }
    }
  }

  /** The input for which it does not hold: the identity moves to an account whose provider spells
      it differently.  The first run stores the old spelling, the second one the new. */
  lemma HandOverKeepsOldSpelling(x: Name, y: Name, once: set<Key>, rows1: Rows, twice: set<Key>, rows2: Rows)
    requires x.key == y.key && x != y
    requires Reconciled({x.key}, map["ann" := x], map["bob" := y], map[x.key := "bob"], once, rows1)
    requires Reconciled(once, rows1, map["bob" := y], map[x.key := "bob"], twice, rows2)
    ensures rows1 == map["bob" := x] && rows2 == map["bob" := y] && rows1 != rows2
  {
    var rows0: Rows, desired: Desired, owners := map["ann" := x], map["bob" := y], map[x.key := "bob"];
    assert rows0["ann"] == x && desired["bob"] == y && owners[x.key] == "bob";
    assert KeysOf(desired) == {x.key} by { assert "bob" in desired; }
    assert HandsOver(rows0, desired, "ann");
    HeirsRow({x.key}, rows0, desired, owners, once, rows1, "ann");
    SecondRunIsQuiet({x.key}, rows0, desired, owners, once, rows1, twice, rows2);
    assert "bob" in rows2;
  }

  /** If every identity was present, and nobody wants the one it owned, nothing is owned. */
  lemma ForeignOnly(before: set<Key>, rows0: Rows, desired: Desired, owners: map<Key, Account>, after: set<Key>, rows: Rows)
    requires Reconciled(before, rows0, desired, owners, after, rows) && KeysOf(desired) <= before
    requires forall a :: a in rows0 ==> a in desired && rows0[a].key != desired[a].key
    ensures rows == map[]
  {
    hide NamesOK, OwnersOK;
    forall a | a in rows ensures false {
      RowsAreDesired(before, rows0, desired, owners, after, rows, a);
    }
  }

  /** Two accounts that stay eligible and swap identities both lose ownership: the entries stay
      listed, and no row will remove them later. */
  lemma ExchangeLosesOwnership(x: Name, y: Name, owners: map<Key, Account>, after: set<Key>, rows: Rows)
    requires x.key != y.key
    requires Reconciled({x.key, y.key}, map["ann" := x, "bob" := y], map["ann" := y, "bob" := x], owners, after, rows)
    ensures after == {x.key, y.key} && rows == map[]
  {
    var rows0: Rows, desired: Desired := map["ann" := x, "bob" := y], map["ann" := y, "bob" := x];
    TwoKeys(x, y);
    TwoKeys(y, x);
    assert rows0["ann"] == x && rows0["bob"] == y && desired["ann"] == y && desired["bob"] == x;
    hide NamesOK, OwnersOK, KeysOf, RowsOK;
    ForeignOnly({x.key, y.key}, rows0, desired, owners, after, rows);
  }

  lemma TwoKeys(x: Name, y: Name)
    ensures KeysOf(map["ann" := x, "bob" := y]) == {x.key, y.key}
  {
    var rows: Rows := map["ann" := x, "bob" := y];
    assert "ann" in rows && "bob" in rows && rows["ann"] == x && rows["bob"] == y;
  }

  lemma FirstHandOver(x: Name, y: Name)
    requires x.key == y.key
    ensures Reconciled({x.key}, map["ann" := x], map["bob" := y], map[x.key := "bob"], {x.key}, map["bob" := x])
  {
    var rows0: Rows, desired: Desired, rows1: Rows := map["ann" := x], map["bob" := y], map["bob" := x];
    assert rows0["ann"] == x && desired["bob"] == y && rows1["bob"] == x;
    assert KeysOf(rows0) == {x.key} by { assert "ann" in rows0; }
    assert KeysOf(desired) == {x.key} by { assert "bob" in desired; }
    assert HandsOver(rows0, desired, "ann") && Handed(rows0, desired, {"ann", "bob"}, x);
    assert Keeps(rows0, desired, "ann", x.key);
    assert Claimed(rows0, desired, {"ann", "bob"}, x.key) && OwnedBy(rows1, {"ann", "bob"}, x.key);
    assert rows0.Keys + desired.Keys == {"ann", "bob"};
  }

  lemma SecondHandOver(x: Name, y: Name)
    requires x.key == y.key
    ensures Reconciled({x.key}, map["bob" := x], map["bob" := y], map[x.key := "bob"], {x.key}, map["bob" := y])
  {
    var rows1: Rows, desired: Desired := map["bob" := x], map["bob" := y];
    assert desired["bob"] == y && rows1["bob"] == x;
    assert KeysOf(desired) == {x.key} by { assert "bob" in desired; }
    assert KeysOf(rows1) == {x.key} by { assert "bob" in rows1; }
    assert Keeps(rows1, desired, "bob", x.key);
    assert Claimed(rows1, desired, {"bob"}, x.key) && OwnedBy(desired, {"bob"}, x.key);
    assert rows1.Keys + desired.Keys == {"bob"};
  }

  /** These runs exist: the identity is handed over, and then respelled. */
  lemma HandOverHappens(x: Name, y: Name)
    requires x.key == y.key
    ensures Reconciled({x.key}, map["ann" := x], map["bob" := y], map[x.key := "bob"], {x.key}, map["bob" := x])
    ensures Reconciled({x.key}, map["bob" := x], map["bob" := y], map[x.key := "bob"], {x.key}, map["bob" := y])
  {
    hide Reconciled;
    FirstHandOver(x, y);
    SecondHandOver(x, y);
  }

  // ---------------------------------------------------------------- the reconciler

  ghost predicate Distinct(users: seq<User>) {
    forall i, j :: 0 <= i < j < |users| ==> users[i].account != users[j].account
  }

  /** The desired identity of each account that may join with a verified one. */
  ghost predicate Wanted(users: seq<User>, desired: Desired) {
    && (forall u :: u in users && u.standing.Resolved? ==> u.account in desired && desired[u.account] == u.standing.name)
    && (forall a :: a in desired ==> exists u :: u in users && u.account == a && u.standing == Resolved(desired[a]))
  }

  /** How many accounts of the list stand like this. */
  function Positions(users: seq<User>, standing: Standing): set<nat> {
    set i: nat | i < |users| && users[i].standing == standing
  }

  predicate AllRead(users: seq<User>) {
    forall i :: 0 <= i < |users| ==> !users[i].standing.Unreadable?
  }

  /** The summary counts every eligible account once, by what is known of its identity. */
  ghost predicate Counted(users: seq<User>, desired: Desired, summary: Summary) {
    && summary.missing == |Positions(users, Missing)|
    && summary.unverified == |Positions(users, Unverified)|
    && summary.invalid == |Positions(users, Invalid)|
    && summary.eligible == |users| - |Positions(users, NotEligible)|
    && summary.eligible == |desired| + summary.missing + summary.unverified + summary.invalid
  }

  lemma NoPositions()
    ensures forall s :: |Positions([], s)| == 0
  {
    forall s ensures Positions([], s) == {} {}
  }

  lemma PositionsGrow(users: seq<User>, i: nat, standing: Standing)
    requires i < |users|
    ensures |Positions(users[..i + 1], standing)| == |Positions(users[..i], standing)| + if users[i].standing == standing then 1 else 0
  {
    var before, after := Positions(users[..i], standing), Positions(users[..i + 1], standing);
    assert after == if users[i].standing == standing then before + {i} else before;
  }

  /** The counters after one more account. */
  ghost predicate Tallied(before: Summary, standing: Standing, after: Summary) {
    && after.eligible == before.eligible + (if standing.NotEligible? then 0 else 1)
    && after.missing == before.missing + (if standing.Missing? then 1 else 0)
    && after.unverified == before.unverified + (if standing.Unverified? then 1 else 0)
    && after.invalid == before.invalid + (if standing.Invalid? then 1 else 0)
  }

  lemma CountedGrows(users: seq<User>, i: nat, desired: Desired, desired': Desired, before: Summary, after: Summary)
    requires i < |users| && Counted(users[..i], desired, before) && Tallied(before, users[i].standing, after)
    requires !users[i].standing.Unreadable? && |desired'| == |desired| + if users[i].standing.Resolved? then 1 else 0
    ensures Counted(users[..i + 1], desired', after)
  {
    hide Positions;
    PositionsGrow(users, i, NotEligible);
    PositionsGrow(users, i, Missing);
    PositionsGrow(users, i, Unverified);
    PositionsGrow(users, i, Invalid);
  }

  lemma NothingWanted(users: seq<User>)
    ensures Wanted(users[..0], map[]) && OwnersOK(map[], map[]) && FirstOwners(users[..0], map[])
  {}

  lemma OwnersKeys(desired: Desired, owners: map<Key, Account>)
    requires OwnersOK(desired, owners)
    ensures owners.Keys == KeysOf(desired)
  {}

  lemma NoneCounted()
    ensures Counted([], map[], Summary(0, 0, 0, 0, 0, 0, 0, 0))
  {
    hide Positions;
    NoPositions();
  }

  lemma AllReadNext(users: seq<User>, i: nat)
    requires i < |users| && AllRead(users[..i])
    ensures AllRead(users[..i + 1]) <==> !users[i].standing.Unreadable?
    ensures users[i].standing.Unreadable? ==> !AllRead(users)
  {
    assert users[..i + 1][i] == users[i];
  }

  /** The desired identities of the accounts in `done`. */
  ghost function KeysDone(desired: Desired, done: set<Account>): set<Key> {
    set a | a in desired && a in done :: desired[a].key
  }

  /** An identity is added to the game exactly when it was neither there nor added before. */
  lemma AddedGrows(before: set<Key>, rows0: Rows, desired: Desired, done: set<Account>, a: Account)
    requires a in desired
    ensures var key, next := desired[a].key, KeysDone(desired, done + {a}) - before;
            |next| == |KeysDone(desired, done) - before| + if key in Listed(before, rows0, desired, done) then 0 else 1
  {
    var key, had, next := desired[a].key, KeysDone(desired, done) - before, KeysDone(desired, done + {a}) - before;
    assert key in KeysOf(desired);
    assert key in Listed(before, rows0, desired, done) <==> key in before || key in KeysDone(desired, done);
    assert next == if key in before then had else had + {key};
  }

  /** The removals follow from the additions. */
  lemma AddedAndRemoved(before: set<Key>, gone: set<Key>, wanted: set<Key>, added: nat, removed: nat)
    requires gone !! wanted && added == |wanted - before|
    requires |(before - gone) + wanted| == |before| + added - removed
    ensures removed == |before * gone|
  {
    assert (before - gone) + wanted == (before - gone) + (wanted - before);
    assert before == (before - gone) + before * gone;
  }

  lemma ReconciledCounts(before: set<Key>, rows0: Rows, desired: Desired, owners: map<Key, Account>, after: set<Key>, rows: Rows,
                         added: nat, removed: nat)
    requires Reconciled(before, rows0, desired, owners, after, rows)
    requires added == |KeysOf(desired) - before| && |after| == |before| + added - removed
    ensures removed == |before * (KeysOf(rows0) - KeysOf(desired))|
  {
    hide KeysOf, RowsOK, NamesOK, OwnersOK;
    AddedAndRemoved(before, KeysOf(rows0) - KeysOf(desired), KeysOf(desired), added, removed);
  }

  function Outside(actual: set<Key>, names: set<Key>): (manual: set<Key>)
    ensures manual == actual - names
  {
    set key | key in actual && key !in names
  }

  lemma CountedStays(users: seq<User>, desired: Desired, before: Summary, after: Summary)
    requires Counted(users, desired, before)
    requires after.eligible == before.eligible && after.missing == before.missing
    requires after.unverified == before.unverified && after.invalid == before.invalid
    ensures Counted(users, desired, after)
  {}

  lemma AllKeysDone(desired: Desired)
    ensures KeysDone(desired, desired.Keys) == KeysOf(desired) && KeysDone(desired, {}) == {}
  {}

  lemma WantedGrows(users: seq<User>, i: nat, desired: Desired)
    requires Distinct(users) && i < |users| && Wanted(users[..i], desired)
    ensures users[i].account !in desired
    ensures Wanted(users[..i + 1],
                   if users[i].standing.Resolved? then desired[users[i].account := users[i].standing.name] else desired)
  {}

  lemma OwnersGrow(desired: Desired, owners: map<Key, Account>, account: Account, name: Name)
    requires OwnersOK(desired, owners) && account !in desired
    ensures OwnersOK(desired[account := name], if name.key in owners then owners else owners[name.key := account])
  {
    var desired' := desired[account := name];
    assert account in desired';
    forall k | k in KeysOf(desired) ensures k in KeysOf(desired') {
      var a :| a in desired && desired[a].key == k;
      assert a in desired' && desired'[a] == desired[a];
    }
  }

  /** The first user of the list whose verified identity has the key. */
  function FirstWith(users: seq<User>, key: Key): Option<Account> {
    if users == [] then None
    else
      var rest, last := FirstWith(users[..|users| - 1], key), users[|users| - 1];
      if rest.None? && last.standing.Resolved? && last.standing.name.key == key then Some(last.account) else rest
  }

  ghost predicate FirstOwners(users: seq<User>, owners: map<Key, Account>) {
    forall k :: FirstWith(users, k) == if k in owners then Some(owners[k]) else None
  }

  lemma FirstOwnersGrow(users: seq<User>, i: nat, owners: map<Key, Account>)
    requires i < |users| && FirstOwners(users[..i], owners)
    ensures FirstOwners(users[..i + 1],
      if users[i].standing.Resolved? && users[i].standing.name.key !in owners
      then owners[users[i].standing.name.key := users[i].account] else owners)
  {
    assert users[..i + 1][..i] == users[..i];
  }

  class Reconciler {
    var whitelist: set<Key>             // what the game enforces
    var rows: Rows                      // user_whitelists
    ghost var states: seq<set<Key>>     // every state the whitelist went through
    ghost var faults: nat               // requests that failed

    constructor (whitelist: set<Key>, rows: Rows)
      ensures this.whitelist == whitelist && this.rows == rows && states == [] && faults == 0
    {
      this.whitelist, this.rows, states, faults := whitelist, rows, [], 0;
    }

    /** One request to the game; one that fails may still have taken effect. */
    method Change(whitelist': set<Key>) returns (ok: bool)
      modifies this`whitelist, this`states, this`faults
      ensures ok ==> whitelist == whitelist'
      ensures whitelist == whitelist' || whitelist == old(whitelist)
      ensures states == old(states) + [whitelist] && faults == old(faults) + if ok then 0 else 1
    {
      ok := false;
      if * { whitelist := whitelist'; if * { ok := true; } }
      if !ok { faults := faults + 1; }
      states := states + [whitelist];
    }

    method SetUserWhitelistForIdentity(account: Account, name: Name) returns (ok: bool)
      modifies this`rows, this`faults
      ensures rows == if ok then SetRow(old(rows), account, name) else old(rows)
      ensures faults == old(faults) + if ok then 0 else 1
    {
      if * {
        faults := faults + 1;
        return false;
      }
      rows := SetRow(rows, account, name);
      ok := true;
    }

    method DeleteUserWhitelist(account: Account) returns (ok: bool)
      modifies this`rows, this`faults
      ensures rows == if ok then old(rows) - {account} else old(rows)
      ensures faults == old(faults) + if ok then 0 else 1
    {
      if * {
        faults := faults + 1;
        return false;
      }
      rows := rows - {account};
      ok := true;
    }

    /** Who wants which identity. */
    static method CollectDesired(users: seq<User>)
      returns (ok: bool, desired: Desired, owners: map<Key, Account>, summary: Summary)
      requires Distinct(users)
      ensures ok <==> AllRead(users)
      ensures ok ==> Wanted(users, desired)
      ensures ok ==> OwnersOK(desired, owners) && owners.Keys == KeysOf(desired) && FirstOwners(users, owners)
      ensures ok ==> summary.desired == |desired| && Counted(users, desired, summary)
      ensures summary.added == summary.removed == summary.manual == 0
    {
      desired, owners, summary := map[], map[], Summary(0, 0, 0, 0, 0, 0, 0, 0);
      NoneCounted();
      assert AllRead(users[..0]) && users[..0] == [];
      NothingWanted(users);
      hide FirstWith, Counted, AllRead, Wanted, FirstOwners, OwnersOK, KeysOf, Tallied;
      for i := 0 to |users|
        invariant Wanted(users[..i], desired)
        invariant OwnersOK(desired, owners) && FirstOwners(users[..i], owners)
        invariant Counted(users[..i], desired, summary) && AllRead(users[..i])
        invariant summary.desired == summary.added == summary.removed == summary.manual == 0
      {
        var user := users[i];
        WantedGrows(users, i, desired);
        FirstOwnersGrow(users, i, owners);
        AllReadNext(users, i);
        if user.standing.Unreadable? { ok := false; return; }
        ghost var before, wanted := summary, desired;
        summary := Tally(summary, user.standing);
        match user.standing {
          case Resolved(name) =>
            OwnersGrow(desired, owners, user.account, name);
            desired := desired[user.account := name];
            if name.key !in owners {
              owners := owners[name.key := user.account];
            }
          case _ =>
        }
        CountedGrows(users, i, wanted, desired, before, summary);
      }
      assert users[..|users|] == users;
      ghost var collected := summary;
      OwnersKeys(desired, owners);
      summary := summary.(desired := |desired|);
      CountedStays(users, desired, collected, summary);
      ok := true;
    }

    static method Tally(before: Summary, standing: Standing) returns (after: Summary)
      requires !standing.Unreadable?
      ensures Tallied(before, standing, after)
      ensures after.desired == before.desired && after.added == before.added
      ensures after.removed == before.removed && after.manual == before.manual
    {
      after := before;
      if standing.NotEligible? { return; }
      after := after.(eligible := after.eligible + 1);
      match standing {
        case Missing => after := after.(missing := after.missing + 1);
        case Unverified => after := after.(unverified := after.unverified + 1);
        case Invalid => after := after.(invalid := after.invalid + 1);
        case _ =>
      }
    }

    ghost predicate StatesSafe(from: nat, before: set<Key>, rows0: Rows, desired: Desired)
      reads this
    {
      forall i :: from <= i < |states| ==> NothingForeignRemoved(before, rows0, desired, states[i])
    }

    /** The list half of the loop body for one desired account. */
    method ListDesired(wanted: Name, current: Name, hasOwned: bool, names: set<Key>, actual: set<Key>)
      returns (ok: bool, actual': set<Key>, added: nat, removed: nat)
      requires wanted.key in names && whitelist == actual
      modifies this`whitelist, this`states, this`faults
      ensures if ok then faults == old(faults) else faults > old(faults)
      ensures old(states) <= states
      ensures var dropped := if hasOwned && current.key !in names then {current.key} else {};
              && (forall i :: |old(states)| <= i < |states| ==>
                    states[i] == actual || states[i] == actual + {wanted.key}
                    || states[i] == (actual + {wanted.key}) - dropped)
              && (ok ==> whitelist == actual' == (actual + {wanted.key}) - dropped)
      ensures ok ==> added == (if wanted.key in actual then 0 else 1) && |actual'| + removed == |actual| + added
    {
      ok, actual', added, removed := true, actual, 0, 0;
      if wanted.key !in actual {
        ok := Change(actual + {wanted.key});
        if !ok { return; }
        actual', added := actual + {wanted.key}, 1;
      }
      assert actual' == actual + {wanted.key};
      if hasOwned && current.key != wanted.key && current.key !in names {
        if current.key in actual' {
          ok := Change(actual' - {current.key});
          if !ok { return; }
          actual', removed := actual' - {current.key}, 1;
        }
      }
    }

    /** The row half: HOGS owns what it added or owned before, and adopts nothing else. */
    method OwnOrDrop(account: Account, wanted: Name, keep: bool, drop: bool, ghost before: set<Key>, ghost rows0: Rows,
                     ghost desired: Desired, ghost owners: map<Key, Account>, ghost done: set<Account>)
      returns (ok: bool)
      requires account in desired && account !in done && done <= desired.Keys && wanted == desired[account]
      requires RowsOK(before, rows0, desired, done, rows) && NamesOK(rows0, desired, owners, done, rows)
      requires keep ==> Keeps(rows0, desired, account, wanted.key) || wanted.key !in before
      requires !keep ==> !(account in rows0 && rows0[account].key == wanted.key)
      requires !keep ==> wanted.key in before || OwnedBy(rows, done, wanted.key)
      requires !keep && !drop ==> account !in rows
      modifies this`rows, this`faults
      ensures if ok then faults == old(faults) else faults > old(faults)
      ensures ok ==> RowsOK(before, rows0, desired, done + {account}, rows)
      ensures ok ==> NamesOK(rows0, desired, owners, done + {account}, rows)
    {
      NamesWhileDesired(rows0, desired, owners, done, rows, account);
      hide RowsOK, NamesOK, SetRow, KeysOf;
      ok := true;
      if keep {
        OwnAccount(before, rows0, desired, done, rows, account);
        ok := SetUserWhitelistForIdentity(account, wanted);
      } else {
        LeaveAccount(before, rows0, desired, done, rows, account);
        if drop {
          ok := DeleteUserWhitelist(account);
        } else {
          assert rows - {account} == rows;
        }
      }
    }

    /** The loop body for one desired account. */
    method SettleDesired(account: Account, desired: Desired, names: set<Key>, owned: Rows, actual: set<Key>,
                         ghost before: set<Key>, ghost rows0: Rows, ghost owners: map<Key, Account>, ghost done: set<Account>)
      returns (ok: bool, actual': set<Key>, added: nat, removed: nat)
      requires account in desired && account !in done && done <= desired.Keys
      requires names == KeysOf(desired) && owned == rows0 - done
      requires whitelist == actual == Listed(before, rows0, desired, done)
      requires RowsOK(before, rows0, desired, done, rows) && NamesOK(rows0, desired, owners, done, rows)
      modifies this
      ensures old(states) <= states
      ensures forall i :: |old(states)| <= i < |states| ==> NothingForeignRemoved(before, rows0, desired, states[i])
      ensures ok ==> whitelist == actual' == Listed(before, rows0, desired, done + {account})
      ensures ok ==> RowsOK(before, rows0, desired, done + {account}, rows)
      ensures ok ==> NamesOK(rows0, desired, owners, done + {account}, rows)
      ensures ok ==> |actual'| + removed == |actual| + added
      ensures ok ==> added == if desired[account].key in actual then 0 else 1
      ensures if ok then faults == old(faults) else faults > old(faults)
    {
      hide RowsOK, Listed, NamesOK;
      ListedStep(before, rows0, desired, done, account);
      ListedMember(before, rows0, desired, done, rows, account);
      var wanted, hasOwned := desired[account], account in owned;
      var current := if hasOwned then owned[account] else wanted;
      var sameOwned := hasOwned && current.key == wanted.key;
      ok, actual', added, removed := ListDesired(wanted, current, hasOwned, names, actual);
      if !ok { return; }
      ok := OwnOrDrop(account, wanted, sameOwned || added == 1, hasOwned, before, rows0, desired, owners, done);
    }

    /** The row half for an account that lost its access: its ownership passes to the heir, if
        there is one. */
    method HandOverRow(account: Account, stale: Name, owners: map<Key, Account>, ghost before: set<Key>, ghost rows0: Rows,
                       ghost desired: Desired, ghost done: set<Account>)
      returns (ok: bool)
      requires account in rows0 && rows0[account] == stale && account !in desired && account !in done
      requires desired.Keys <= done && OwnersOK(desired, owners)
      requires RowsOK(before, rows0, desired, done, rows) && NamesOK(rows0, desired, owners, done, rows)
      modifies this`rows, this`faults
      ensures if ok then faults == old(faults) else faults > old(faults)
      ensures ok ==> RowsOK(before, rows0, desired, done + {account}, rows)
      ensures ok ==> NamesOK(rows0, desired, owners, done + {account}, rows)
    {
      assert HandsOver(rows0, desired, account) <==> stale.key in owners;
      hide RowsOK, NamesOK, SetRow, KeysOf, HandsOver;
      if stale.key !in owners {
        LeaveAccount(before, rows0, desired, done, rows, account);
        NamesLeave(rows0, desired, owners, done, rows, account);
      } else {
        var recipient := owners[stale.key];
        HandOver(before, rows0, desired, done, rows, account, recipient);
        NamesHandOver(rows0, desired, owners, done, rows, account);
        ok := SetUserWhitelistForIdentity(recipient, stale);
        if !ok { return; }
      }
      ok := DeleteUserWhitelist(account);
    }

    /** The loop body for one account that owned an entry and is no longer desired. */
    method SettleStale(account: Account, desired: Desired, owners: map<Key, Account>, owned: Rows, actual: set<Key>,
                       ghost before: set<Key>, ghost rows0: Rows, ghost done: set<Account>)
      returns (ok: bool, actual': set<Key>, removed: nat)
      requires account in owned && account !in desired && account !in done && desired.Keys <= done
      requires OwnersOK(desired, owners) && owned == rows0 - desired.Keys
      requires whitelist == actual == Listed(before, rows0, desired, done)
      requires RowsOK(before, rows0, desired, done, rows) && NamesOK(rows0, desired, owners, done, rows)
      modifies this
      ensures old(states) <= states
      ensures forall i :: |old(states)| <= i < |states| ==> NothingForeignRemoved(before, rows0, desired, states[i])
      ensures ok ==> whitelist == actual' == Listed(before, rows0, desired, done + {account})
      ensures ok ==> RowsOK(before, rows0, desired, done + {account}, rows)
      ensures ok ==> NamesOK(rows0, desired, owners, done + {account}, rows)
      ensures ok ==> |actual'| + removed == |actual|
      ensures if ok then faults == old(faults) else faults > old(faults)
    {
      hide RowsOK, Listed, NothingForeignRemoved, KeysOf, NamesOK;
      ListedStep(before, rows0, desired, done, account);
      ok, actual', removed := true, actual, 0;
      var stale := owned[account];
      assert actual + {} == actual;
      if stale.key !in owners && stale.key in actual {
        ok := Change(actual - {stale.key});
        if !ok { return; }
        actual', removed := actual - {stale.key}, 1;
      }
      ok := HandOverRow(account, stale, owners, before, rows0, desired, done);
    }

    /** `for username, wanted := range desired`, in whatever order the map yields. */
    method SettleAllDesired(desired: Desired, names: set<Key>, ghost owners: map<Key, Account>, ghost rows0: Rows)
      returns (ok: bool, actual: set<Key>, owned: Rows, added: nat, removed: nat)
      requires names == KeysOf(desired) && rows == rows0
      modifies this
      ensures old(states) <= states && StatesSafe(|old(states)|, old(whitelist), rows0, desired)
      ensures ok ==> whitelist == actual == Listed(old(whitelist), rows0, desired, desired.Keys)
      ensures ok ==> RowsOK(old(whitelist), rows0, desired, desired.Keys, rows)
      ensures ok ==> NamesOK(rows0, desired, owners, desired.Keys, rows)
      ensures ok ==> owned == rows0 - desired.Keys
      ensures ok ==> |actual| + removed == |old(whitelist)| + added && added == |KeysOf(desired) - old(whitelist)|
      ensures if ok then faults == old(faults) else faults > old(faults)
    {
      NamesAtTheStart(rows0, desired, owners);
      AllKeysDone(desired);
      hide RowsOK, Listed, NothingForeignRemoved, NamesOK, KeysDone;
      ghost var before := whitelist;
      actual, owned, added, removed := whitelist, rows, 0, 0;
      AtTheStart(before, rows0, desired);
      var todo := desired.Keys;
      assert desired.Keys - todo == {};
      while todo != {}
        invariant todo <= desired.Keys && old(states) <= states && StatesSafe(|old(states)|, before, rows0, desired)
        invariant owned == rows0 - (desired.Keys - todo)
        invariant whitelist == actual == Listed(before, rows0, desired, desired.Keys - todo)
        invariant RowsOK(before, rows0, desired, desired.Keys - todo, rows)
        invariant NamesOK(rows0, desired, owners, desired.Keys - todo, rows)
        invariant |actual| + removed == |before| + added && added == |KeysDone(desired, desired.Keys - todo) - before|
        invariant faults == old(faults)
      {
        var account :| account in todo;
        var plus, minus;
        AddedGrows(before, rows0, desired, desired.Keys - todo, account);
        ok, actual, plus, minus :=
          SettleDesired(account, desired, names, owned, actual, before, rows0, owners, desired.Keys - todo);
        if !ok { return; }
        added, removed := added + plus, removed + minus;
        assert (desired.Keys - todo) + {account} == desired.Keys - (todo - {account});
        owned, todo := owned - {account}, todo - {account};
      }
      assert desired.Keys - {} == desired.Keys;
      ok := true;
    }

    /** `for username, stale := range owned`. */
    method SettleAllStale(desired: Desired, owners: map<Key, Account>, owned: Rows, actual0: set<Key>,
                          ghost before: set<Key>, ghost rows0: Rows)
      returns (ok: bool, actual: set<Key>, removed: nat)
      requires OwnersOK(desired, owners) && owned == rows0 - desired.Keys
      requires whitelist == actual0 == Listed(before, rows0, desired, desired.Keys)
      requires RowsOK(before, rows0, desired, desired.Keys, rows) && NamesOK(rows0, desired, owners, desired.Keys, rows)
      modifies this
      ensures old(states) <= states
      ensures forall i :: |old(states)| <= i < |states| ==> NothingForeignRemoved(before, rows0, desired, states[i])
      ensures ok ==> whitelist == actual == Listed(before, rows0, desired, rows0.Keys + desired.Keys)
      ensures ok ==> RowsOK(before, rows0, desired, rows0.Keys + desired.Keys, rows)
      ensures ok ==> NamesOK(rows0, desired, owners, rows0.Keys + desired.Keys, rows)
      ensures ok ==> |actual| + removed == |actual0|
      ensures if ok then faults == old(faults) else faults > old(faults)
    {
      hide RowsOK, Listed, NothingForeignRemoved, OwnersOK, NamesOK;
      actual, removed := actual0, 0;
      var todo := owned.Keys;
      ghost var done := desired.Keys;
      while todo != {}
        invariant todo == rows0.Keys - done && desired.Keys <= done <= rows0.Keys + desired.Keys
        invariant old(states) <= states && StatesSafe(|old(states)|, before, rows0, desired)
        invariant whitelist == actual == Listed(before, rows0, desired, done)
        invariant RowsOK(before, rows0, desired, done, rows) && NamesOK(rows0, desired, owners, done, rows)
        invariant |actual| + removed == |actual0| && faults == old(faults)
      {
        var account :| account in todo;
        var minus;
        ok, actual, minus := SettleStale(account, desired, owners, owned, actual, before, rows0, done);
        if !ok { return; }
        removed, todo, done := removed + minus, todo - {account}, done + {account};
      }
      assert rows0.Keys <= done by {
        forall a | a in rows0.Keys ensures a in done { assert a !in rows0.Keys - done; }
      }
      assert done == rows0.Keys + desired.Keys;
      ok := true;
    }

    /** Both loops over the accounts. */
    method SettleAll(desired: Desired, owners: map<Key, Account>)
      returns (ok: bool, actual: set<Key>, added: nat, removed: nat)
      requires OwnersOK(desired, owners) && owners.Keys == KeysOf(desired)
      modifies this
      ensures old(states) <= states && StatesSafe(|old(states)|, old(whitelist), old(rows), desired)
      ensures ok ==> Reconciled(old(whitelist), old(rows), desired, owners, whitelist, rows) && actual == whitelist
      ensures ok ==> added == |KeysOf(desired) - old(whitelist)|
      ensures ok ==> removed == |old(whitelist) * (KeysOf(old(rows)) - KeysOf(desired))|
      ensures if ok then faults == old(faults) else faults > old(faults)
    {
      hide RowsOK, Listed, NothingForeignRemoved, OwnersOK, Reconciled, NamesOK, KeysOf;
      ghost var before, rows0 := whitelist, rows;
      var owned, dropped, revoked;
      removed := 0;
      ok, actual, owned, added, dropped := SettleAllDesired(desired, owners.Keys, owners, rows0);
      if !ok { return; }
      ok, actual, revoked := SettleAllStale(desired, owners, owned, actual, before, rows0);
      if !ok { return; }
      WhenAllDone(before, rows0, desired, owners, whitelist, rows);
      removed := dropped + revoked;
      ReconciledCounts(before, rows0, desired, owners, whitelist, rows, added, removed);
    }

    /** One reconciliation.  Any query may fail, and any request to the game or the database; it
        succeeds if and only if none does. */
    method ReconcileServer(users: seq<User>) returns (ok: bool, summary: Summary, ghost desired: Desired, ghost owners: map<Key, Account>)
      requires Distinct(users)
      modifies this
      ensures old(states) <= states
      ensures StatesSafe(|old(states)|, old(whitelist), old(rows), desired)
      ensures ok ==> FirstOwners(users, owners) && Wanted(users, desired) && Reconciled(old(whitelist), old(rows), desired, owners, whitelist, rows)
      ensures ok ==> summary.added == |KeysOf(desired) - old(whitelist)|
      ensures ok ==> summary.removed == |old(whitelist) * (KeysOf(old(rows)) - KeysOf(desired))|
      ensures ok ==> summary.manual == |whitelist - KeysOf(desired)|
      ensures ok ==> summary.desired == |desired| && Counted(users, desired, summary)
      ensures faults >= old(faults) && (ok <==> AllRead(users) && faults == old(faults))
    {
      assert StatesSafe(|states|, whitelist, rows, map[]);
      hide *;
      desired, owners, summary := map[], map[], Summary(0, 0, 0, 0, 0, 0, 0, 0);
      if * {
        faults := faults + 1;  // the list of the game or the rows cannot be read
        return false, summary, desired, owners;
      }
      var wanted, heirs;
      ok, wanted, heirs, summary := CollectDesired(users);
      desired, owners := wanted, heirs;
      if !ok { return; }
      var actual, added, removed;
      ok, actual, added, removed := SettleAll(wanted, heirs);
      if !ok { return; }
      var manual := Outside(actual, heirs.Keys);
      ghost var collected := summary;
      summary := summary.(added := added, removed := removed, manual := |manual|);
      CountedStays(users, wanted, collected, summary);
    }
  }
}

/** Bringing a native administrator file, the ownership rows and the desired identities together
    (api/admin_reconciler.go, database/admins.go).  The file is the list its decoder returns. */
module AdminReconciler {
  import opened Wrappers
  import opened WhitelistReconciler
  import ValheimList

  function Keys(list: seq<Name>): set<Key> {
    set n | n in list :: n.key
  }

  /** The first entry of every key that is not `gone`, in the order of the list. */
  function FirstOf(list: seq<Name>, gone: set<Key>): seq<Name> {
    if list == [] then []
    else
      var rest, last := FirstOf(list[..|list| - 1], gone), list[|list| - 1];
      if last.key in gone || last.key in Keys(rest) then rest else rest + [last]
  }

  function CountIn(list: seq<Name>, keys: set<Key>): nat {
    if list == [] then 0
    else CountIn(list[..|list| - 1], keys) + if list[|list| - 1].key in keys then 1 else 0
  }

  predicate DistinctKeys(list: seq<Name>) {
    list == [] || (list[|list| - 1].key !in Keys(list[..|list| - 1]) && DistinctKeys(list[..|list| - 1]))
  }

  lemma KeysOfAppended(list: seq<Name>, n: Name)
    ensures Keys(list + [n]) == Keys(list) + {n.key}
  {
    assert forall m :: m in list + [n] <==> m in list || m == n;
  }

  lemma KeysOfSplit(list: seq<Name>)
    requires list != []
    ensures Keys(list) == Keys(list[..|list| - 1]) + {list[|list| - 1].key}
  {
    KeysOfAppended(list[..|list| - 1], list[|list| - 1]);
    assert list == list[..|list| - 1] + [list[|list| - 1]];
  }

  /** What survives is one entry for every key that stays. */
  lemma {:induction false} FirstOfKeys(list: seq<Name>, gone: set<Key>)
    ensures Keys(FirstOf(list, gone)) == Keys(list) - gone
    ensures DistinctKeys(FirstOf(list, gone))
    ensures forall n :: n in FirstOf(list, gone) ==> n in list
  {
    if list != [] {
      hide Keys;
      var rest, last := FirstOf(list[..|list| - 1], gone), list[|list| - 1];
      FirstOfKeys(list[..|list| - 1], gone);
      KeysOfSplit(list);
      KeysOfAppended(rest, last);
      assert (rest + [last])[..|rest|] == rest;
    }
  }

  /** One more entry: already kept, gone, or new. */
  lemma FirstOfNext(list: seq<Name>, i: nat, gone: set<Key>, names: set<Key>)
    requires i < |list|
    ensures var kept, next, n := FirstOf(list[..i], gone), FirstOf(list[..i + 1], gone), list[i];
            && (n.key in Keys(kept) ==> n.key !in gone)
            && next == (if n.key in gone || n.key in Keys(kept) then kept else kept + [n])
            && Keys(kept + [n]) == Keys(kept) + {n.key}
            && CountIn(list[..i + 1], gone) == CountIn(list[..i], gone) + (if n.key in gone then 1 else 0)
            && CountIn(kept + [n], names) == CountIn(kept, names) + (if n.key in names then 1 else 0)
  {
    hide Keys;
    var kept := FirstOf(list[..i], gone);
    assert list[..i + 1][..i] == list[..i];
    FirstOfKeys(list[..i], gone);
    KeysOfAppended(kept, list[i]);
    assert (kept + [list[i]])[..|kept|] == kept;
  }

  /** Survivors keep their order: what survives of a beginning begins what survives of the whole. */
  lemma {:induction false} FirstOfKeepsOrder(list: seq<Name>, gone: set<Key>, i: nat)
    requires i <= |list|
    ensures FirstOf(list[..i], gone) <= FirstOf(list, gone)
  {
    if i == |list| {
      assert list[..i] == list;
    } else {
      FirstOfKeepsOrder(list[..|list| - 1], gone, i);
      assert list[..|list| - 1][..i] == list[..i];
    }
  }

  /** The surviving entry of a key is its first one. */
  lemma {:induction false} FirstOfIsFirst(list: seq<Name>, gone: set<Key>, i: nat)
    requires i < |list| && list[i].key !in gone && list[i].key !in Keys(list[..i])
    ensures list[i] in FirstOf(list, gone)
  {
    FirstOfKeys(list[..i], gone);
    assert list[..i + 1][..i] == list[..i] && list[..i + 1][i] == list[i];
    assert list[i] in FirstOf(list[..i + 1], gone);
    FirstOfKeepsOrder(list, gone, i + 1);
  }

  lemma WholeList(list: seq<Name>)
    ensures list[..|list|] == list
  {}

  lemma Rejoined(list: seq<Name>)
    requires list != []
    ensures list[..|list|] == list == list[..|list| - 1] + [list[|list| - 1]]
  {}

  /** A list without repeated keys only loses what is gone. */
  lemma {:induction false} FirstOfDistinct(list: seq<Name>, gone: set<Key>)
    requires DistinctKeys(list)
    ensures |FirstOf(list, gone)| + CountIn(list, gone) == |list|
    ensures CountIn(list, gone) == 0 ==> FirstOf(list, gone) == list
  {
    if list != [] {
      var front, last := list[..|list| - 1], list[|list| - 1];
      assert DistinctKeys(front) && last.key !in Keys(front);
      hide Keys, DistinctKeys, FirstOf, CountIn;
      FirstOfDistinct(front, gone);
      FirstOfKeys(front, gone);
      Rejoined(list);
      FirstOfNext(list, |list| - 1, gone, gone);
    }
  }

  lemma {:induction false} NoneCounted(list: seq<Name>, keys: set<Key>)
    requires Keys(list) !! keys
    ensures CountIn(list, keys) == 0
  {
    if list != [] {
      KeysOfSplit(list);
      NoneCounted(list[..|list| - 1], keys);
    }
  }

  /** Some of the rows are gone, the others unchanged. */
  ghost predicate Part(rows: Rows, of: Rows) {
    forall a :: a in rows ==> a in of && rows[a] == of[a]
  }

  /** Who owned one of the names still does. */
  ghost predicate NamedStay(rows0: Rows, names: set<Key>, rows: Rows) {
    forall a :: a in rows0 && rows0[a].key in names ==> a in rows
  }

  lemma PartWithout(rows: Rows, of: Rows, a: Account)
    requires Part(rows, of)
    ensures Part(rows - {a}, of)
  {}

  lemma OneMoreDone(desired: Desired, done: set<Account>, a: Account)
    requires a in desired
    ensures KeysDone(desired, done + {a}) == KeysDone(desired, done) + {desired[a].key}
    ensures desired[a].key in KeysOf(desired)
  {}

  /** An entry is added for a key that is not listed. */
  lemma Append(list: seq<Name>, n: Name, names: set<Key>)
    ensures Keys(list + [n]) == Keys(list) + {n.key}
    ensures DistinctKeys(list) && n.key !in Keys(list) ==> DistinctKeys(list + [n])
    ensures CountIn(list + [n], names) == CountIn(list, names) + (if n.key in names then 1 else 0)
  {
    KeysOfAppended(list, n);
    assert (list + [n])[..|list|] == list;
  }

  // ---------------------------------------------------------------- the ownership rows

  /** The account already owned the identity it desires. */
  predicate Keeper(rows0: Rows, desired: Desired, a: Account) {
    a in rows0 && a in desired && rows0[a].key == desired[a].key
  }

  /** The rows once the desired accounts in `done` have been looked at: a finished account has a
      row only for the identity it desires, alone, and never for an entry that was in the file
      before without being its own; what was added, or was its own, is owned. */
  ghost predicate RowsSettled(before: set<Key>, rows0: Rows, desired: Desired, done: set<Account>, rows: Rows) {
    && (forall a :: a in rows && a in done ==> a in desired && rows[a] == desired[a])
    && (forall a :: a in rows && a in done && rows[a].key in before ==> a in rows0 && rows0[a].key == rows[a].key)
    && (forall a :: a in rows && a !in done ==> a in rows0 && rows[a] == rows0[a])
    && (forall a, b :: a in rows && b in rows && a in done && a != b ==> rows[a].key != rows[b].key)
    && (forall a :: a in desired && a in done && (desired[a].key !in before || Keeper(rows0, desired, a)) ==>
          OwnedBy(rows, done, desired[a].key))
  }

  /** Nothing is left to do: every row is for what its account desires, and everything desired
      is listed. */
  ghost predicate Settled(list: seq<Name>, desired: Desired, rows: Rows) {
    KeysOf(desired) <= Keys(list) && Clean(desired, rows)
  }

  ghost predicate Clean(desired: Desired, rows: Rows) {
    && (forall a :: a in rows ==> a in desired && rows[a] == desired[a])
    && (forall a, b :: a in rows && b in rows && a != b ==> rows[a].key != rows[b].key)
  }

  lemma OwnRow(before: set<Key>, rows0: Rows, desired: Desired, done: set<Account>, rows: Rows, a: Account)
    requires RowsSettled(before, rows0, desired, done, rows) && a in desired
    requires desired[a].key !in before || Keeper(rows0, desired, a)
    ensures RowsSettled(before, rows0, desired, done + {a}, SetRow(rows, a, desired[a]))
  {
    var key, done', rows' := desired[a].key, done + {a}, SetRow(rows, a, desired[a]);
    assert OwnedBy(rows', done', key) by { assert a in rows' && rows'[a].key == key; }
    forall k | k != key && OwnedBy(rows, done, k) ensures OwnedBy(rows', done', k) {
      var b :| b in rows && b in done && rows[b].key == k;
      assert b in rows' && rows'[b] == rows[b];
    }
  }

  lemma NoRow(before: set<Key>, rows0: Rows, desired: Desired, done: set<Account>, rows: Rows, a: Account)
    requires RowsSettled(before, rows0, desired, done, rows) && a in desired && a !in done
    requires !Keeper(rows0, desired, a) && (desired[a].key in before || OwnedBy(rows, done, desired[a].key))
    ensures RowsSettled(before, rows0, desired, done + {a}, rows - {a})
  {
    var done', rows' := done + {a}, rows - {a};
    forall k | OwnedBy(rows, done, k) ensures OwnedBy(rows', done', k) {
      var b :| b in rows && b in done && rows[b].key == k;
      assert b in rows' && rows'[b] == rows[b];
    }
  }

  /** What is listed because of a finished account, and was not before, is owned. */
  lemma AddedIsOwned(before: set<Key>, rows0: Rows, desired: Desired, done: set<Account>, rows: Rows, key: Key)
    requires RowsSettled(before, rows0, desired, done, rows) && key in KeysDone(desired, done)
    ensures key in before || OwnedBy(rows, done, key)
  {
    var a :| a in desired && a in done && desired[a].key == key;
  }

  lemma CleanStays(desired: Desired, rows: Rows, a: Account)
    requires Clean(desired, rows) && a in rows
    ensures SetRow(rows, a, desired[a]) == rows
  {}

  /** The desired identities of the accounts in `done` are listed; what was not listed was added
      at the end. */
  ghost predicate Grown(kept0: seq<Name>, desired: Desired, done: set<Account>, kept: seq<Name>, added: nat) {
    && kept0 <= kept && |kept| == |kept0| + added && DistinctKeys(kept)
    && Keys(kept) == Keys(kept0) + KeysDone(desired, done)
    && CountIn(kept, KeysOf(desired)) == CountIn(kept0, KeysOf(desired)) + added
  }

  /** How many entries belong to nobody who is desired. */
  function Foreign(list: seq<Name>, desired: Desired): int {
    |list| - CountIn(list, KeysOf(desired))
  }

  lemma AddedAreDesired(kept0: seq<Name>, desired: Desired, done: set<Account>, kept: seq<Name>, added: nat)
    requires Grown(kept0, desired, done, kept, added)
    ensures |kept| - CountIn(kept, KeysOf(desired)) == |kept0| - CountIn(kept0, KeysOf(desired))
  {}

  lemma GrownAtFirst(kept0: seq<Name>, desired: Desired)
    requires DistinctKeys(kept0)
    ensures Grown(kept0, desired, {}, kept0, 0)
  {
    assert KeysDone(desired, {}) == {};
  }

  lemma GrownStep(kept0: seq<Name>, desired: Desired, done: set<Account>, kept: seq<Name>, added: nat, a: Account)
    requires Grown(kept0, desired, done, kept, added) && a in desired
    ensures Keys(kept0) <= Keys(kept) && desired[a].key in KeysOf(desired)
    ensures Keys(kept + [desired[a]]) == Keys(kept) + {desired[a].key}
    ensures if desired[a].key in Keys(kept) then Grown(kept0, desired, done + {a}, kept, added)
            else Grown(kept0, desired, done + {a}, kept + [desired[a]], added + 1)
  {
    OneMoreDone(desired, done, a);
    Append(kept, desired[a], KeysOf(desired));
    hide Keys, KeysOf, KeysDone, CountIn, DistinctKeys;
  }

  lemma GrownKeys(kept0: seq<Name>, desired: Desired, done: set<Account>, kept: seq<Name>, added: nat, key: Key)
    requires Grown(kept0, desired, done, kept, added)
    ensures key in Keys(kept) ==> key in Keys(kept0) || key in KeysDone(desired, done)
  {
    hide Keys, KeysOf, KeysDone, CountIn, DistinctKeys;
  }

  lemma LeftDone(desired: Desired, left: set<Account>, owned0: Rows, a: Account)
    requires a in left && left <= desired.Keys
    ensures (desired.Keys - left) + {a} == desired.Keys - (left - {a})
    ensures (owned0 - (desired.Keys - left)) - {a} == owned0 - ((desired.Keys - left) + {a})
  {}

  lemma RowsAtFirst(before: set<Key>, rows0: Rows, desired: Desired, rows: Rows)
    requires Part(rows, rows0)
    ensures RowsSettled(before, rows0, desired, {}, rows)
  {}

  lemma PartKeepsSettled(before: set<Key>, rows0: Rows, desired: Desired, done: set<Account>, rows: Rows, a: Account)
    requires RowsSettled(before, rows0, desired, done, rows) && (a !in desired || a !in rows)
    ensures RowsSettled(before, rows0, desired, done, rows - {a})
  {
    forall k | OwnedBy(rows, done, k) ensures OwnedBy(rows - {a}, done, k) {
      var b :| b in rows && b in done && rows[b].key == k;
      assert b in rows - {a} && (rows - {a})[b] == rows[b];
    }
  }

  /** The exact state of ownership after a successful run: a desired identity is owned if and only
      if it was not listed before, or an account that desires it owned it.  Other than for the
      whitelist, nothing passes from an account that lost its access to another one. */
  lemma OwnedAfterwards(before: set<Key>, rows0: Rows, desired: Desired, rows: Rows, key: Key)
    requires RowsSettled(before, rows0, desired, desired.Keys, rows) && rows.Keys <= desired.Keys
    requires key in KeysOf(desired)
    ensures key in KeysOf(rows) <==>
      key !in before || exists a :: Keeper(rows0, desired, a) && desired[a].key == key
  {
    if key in KeysOf(rows) {
      var a :| a in rows && rows[a].key == key;
      assert a in desired && rows[a] == desired[a];
      assert key in before ==> Keeper(rows0, desired, a);
    }
    if key !in before {
      var a :| a in desired && desired[a].key == key;
      assert OwnedBy(rows, desired.Keys, key);
    } else if a :| Keeper(rows0, desired, a) && desired[a].key == key {
      assert OwnedBy(rows, desired.Keys, key);
    }
  }

  /** The input for which ownership is lost though somebody still desires the entry: its owner
      lost access.  The entry stays, and a later revocation will not remove it. */
  lemma LostOwnerLeavesEntry(x: Name, rows: Rows)
    requires RowsSettled({x.key}, map["ann" := x], map["bob" := x], {"bob"}, rows) && rows.Keys <= {"bob"}
    ensures rows == map[]
  {
    var rows0: Rows, desired: Desired := map["ann" := x], map["bob" := x];
    assert desired["bob"] == x && rows0["ann"] == x;
    assert "bob" !in rows;
    assert rows.Keys == {};
  }

  /** Such a run exists. */
  lemma LostOwnerHappens(x: Name)
    ensures RowsSettled({x.key}, map["ann" := x], map["bob" := x], {"bob"}, map[])
  {
    var desired: Desired := map["bob" := x];
    assert desired["bob"] == x;
  }

  // ---------------------------------------------------------------- runs that fail

  /** The rows after any run, also one that was cut short: a row is as it was, or for what its
      account desires, and no listed entry was adopted. */
  ghost predicate RowsTouched(before: set<Key>, rows0: Rows, desired: Desired, rows: Rows) {
    forall a :: a in rows ==>
      || (a in rows0 && rows[a] == rows0[a])
      || (a in desired && rows[a] == desired[a] && (rows[a].key in before ==> a in rows0 && rows0[a].key == rows[a].key))
  }

  lemma KeepersStay(rows0: Rows, desired: Desired, owned: Rows)
    requires forall a :: a in rows0 && rows0[a].key in KeysOf(desired) ==> a in owned
    ensures forall a :: Keeper(rows0, desired, a) ==> a in owned
  {}

  lemma SettledIsTouched(before: set<Key>, rows0: Rows, desired: Desired, done: set<Account>, rows: Rows)
    requires RowsSettled(before, rows0, desired, done, rows)
    ensures RowsTouched(before, rows0, desired, rows)
  {}

  lemma PartIsTouched(before: set<Key>, rows0: Rows, desired: Desired, rows: Rows)
    requires Part(rows, rows0)
    ensures RowsTouched(before, rows0, desired, rows)
  {}

  lemma {:induction false} CountedIsListed(list: seq<Name>, keys: set<Key>)
    requires CountIn(list, keys) == 0
    ensures Keys(list) !! keys
  {
    if list != [] {
      KeysOfSplit(list);
      CountedIsListed(list[..|list| - 1], keys);
    }
  }

  lemma CleanOwnsDesired(desired: Desired, rows: Rows)
    requires Clean(desired, rows)
    ensures KeysOf(rows) <= KeysOf(desired)
  {}

  ghost function Gone(rows: Rows, desired: Desired): set<Key> {
    KeysOf(rows) - KeysOf(desired)
  }

  /** What a successful run does to the file. */
  ghost predicate FileReconciled(before: seq<Name>, rows: Rows, desired: Desired, after: seq<Name>, added: nat, removed: nat) {
    var survivors := FirstOf(before, Gone(rows, desired));
    && Keys(after) == (Keys(before) - Gone(rows, desired)) + KeysOf(desired)
    && removed == CountIn(before, Gone(rows, desired))
    && (if added == 0 && removed == 0 then after == before
        else survivors <= after && |after| == |survivors| + added && DistinctKeys(after))
    && (DistinctKeys(before) ==> survivors <= after && |after| == |before| + added - removed)
  }

  lemma WhatWasWritten(before: seq<Name>, rows: Rows, desired: Desired, kept: seq<Name>, added: nat, removed: nat)
    requires removed == CountIn(before, Gone(rows, desired))
    requires Grown(FirstOf(before, Gone(rows, desired)), desired, desired.Keys, kept, added)
    ensures FileReconciled(before, rows, desired, if added > 0 || removed > 0 then kept else before, added, removed)
  {
    var gone := Gone(rows, desired);
    FirstOfKeys(before, gone);
    AllKeysDone(desired);
    if DistinctKeys(before) { FirstOfDistinct(before, gone); }
    if added == 0 && removed == 0 {
      CountedIsListed(before, gone);
      assert kept == FirstOf(before, gone);
    }
  }

  lemma KeysReconciled(before: seq<Name>, rows: Rows, desired: Desired, after: seq<Name>, added: nat, removed: nat)
    requires FileReconciled(before, rows, desired, after, added, removed)
    ensures Keys(after) == (Keys(before) - Gone(rows, desired)) + KeysOf(desired)
  {
    hide FirstOf, CountIn, Keys, KeysOf, DistinctKeys, Gone;
  }

  lemma QuietFile(list: seq<Name>, desired: Desired, rows: Rows)
    requires Settled(list, desired, rows)
    ensures Gone(rows, desired) == {} && CountIn(list, {}) == 0 && KeysOf(rows) <= KeysOf(desired)
    ensures Settled(FirstOf(list, {}), desired, rows)
  {
    CleanOwnsDesired(desired, rows);
    NoneCounted(list, {});
    FirstOfKeys(list, {});
  }

  lemma NothingLeft(desired: Desired, rows: Rows, owned: Rows)
    requires Clean(desired, rows) && owned == rows - desired.Keys
    ensures owned == map[]
  {}

  lemma ListedAtLast(before: seq<Name>, rows0: Rows, desired: Desired, rows: Rows, after: seq<Name>, added: nat, removed: nat)
    requires FileReconciled(before, rows0, desired, after, added, removed)
    requires RowsSettled(Keys(before), rows0, desired, desired.Keys, rows) && rows.Keys <= desired.Keys
    ensures Settled(after, desired, rows)
  {
    hide FirstOf, CountIn, Keys, KeysOf, DistinctKeys;
    SettledAtLast(Keys(before), rows0, desired, rows, after);
  }

  lemma SettledAtLast(before: set<Key>, rows0: Rows, desired: Desired, rows: Rows, list: seq<Name>)
    requires RowsSettled(before, rows0, desired, desired.Keys, rows) && rows.Keys <= desired.Keys
    requires KeysOf(desired) <= Keys(list)
    ensures Settled(list, desired, rows)
  {}

  /** What one run, successful or not, can make of the file and the rows. */
  ghost predicate RunMay(list: seq<Name>, rows: Rows, desired: Desired, list': seq<Name>, rows': Rows) {
    && RowsTouched(Keys(list), rows, desired, rows')
    && (list' == list || Keys(list') == (Keys(list) - Gone(rows, desired)) + KeysOf(desired))
  }

  datatype Stage = Stage(desired: Desired, list: seq<Name>, rows: Rows)

  ghost predicate RunsFrom(list: seq<Name>, rows: Rows, runs: seq<Stage>)
    decreases |runs|
  {
    runs == [] || (RunMay(list, rows, runs[0].desired, runs[0].list, runs[0].rows)
                   && RunsFrom(runs[0].list, runs[0].rows, runs[1..]))
  }

  /** A run removes a listed entry that is no longer desired if and only if it has an owner. */
  lemma RemovedIfOwned(list: seq<Name>, rows: Rows, desired: Desired, key: Key)
    requires key in Keys(list) && key !in KeysOf(desired)
    ensures key !in Keys(FirstOf(list, Gone(rows, desired))) <==> key in KeysOf(rows)
  {
    FirstOfKeys(list, Gone(rows, desired));
  }

  lemma UnownedAfterRun(list: seq<Name>, rows: Rows, desired: Desired, list': seq<Name>, rows': Rows, key: Key)
    requires key in Keys(list) && key !in KeysOf(rows) && RunMay(list, rows, desired, list', rows')
    ensures key in Keys(list') && key !in KeysOf(rows')
  {
    hide Keys;
  }

  /** A listed entry without an owner never gets one again and is never removed, whatever is
      desired later and however many runs succeed or fail. */
  lemma {:induction false} UnownedForGood(list: seq<Name>, rows: Rows, runs: seq<Stage>, key: Key)
    requires key in Keys(list) && key !in KeysOf(rows) && RunsFrom(list, rows, runs)
    ensures forall i :: 0 <= i < |runs| ==> key in Keys(runs[i].list) && key !in KeysOf(runs[i].rows)
    decreases |runs|
  {
    if runs != [] {
      var first := runs[0];
      UnownedAfterRun(list, rows, first.desired, first.list, first.rows, key);
      UnownedForGood(first.list, first.rows, runs[1..], key);
      forall i | 0 <= i < |runs| ensures key in Keys(runs[i].list) && key !in KeysOf(runs[i].rows) {
        if i > 0 { assert runs[i] == runs[1..][i - 1]; }
      }
    }
  }

  /** Why only a successful run counts.  The rows of revoked administrators are deleted before the
      file is written: when the write does not take effect, their entries are unowned, and survive
      every later run. */
  lemma LostWriteKeepsAdministrators(list: seq<Name>, rows0: Rows, desired: Desired, rows1: Rows, runs: seq<Stage>, key: Key)
    requires RowsSettled(Keys(list), rows0, desired, desired.Keys, rows1) && rows1.Keys <= desired.Keys
    requires key in Keys(list) && key in Gone(rows0, desired)
    requires RunsFrom(list, rows1, runs)
    ensures key !in KeysOf(rows1)
    ensures forall i :: 0 <= i < |runs| ==> key in Keys(runs[i].list) && key !in KeysOf(runs[i].rows)
  {
    forall a | a in rows1 ensures rows1[a].key != key {
      assert a in desired && rows1[a] == desired[a];
      assert desired[a].key in KeysOf(desired);
    }
    UnownedForGood(list, rows1, runs, key);
  }

  // ---------------------------------------------------------------- the file of Valheim

  function Spellings(list: seq<Name>): seq<string> {
    if list == [] then [] else Spellings(list[..|list| - 1]) + [list[|list| - 1].spelling]
  }

  lemma {:induction false} SpellingsMembers(list: seq<Name>)
    ensures forall s :: s in Spellings(list) <==> exists n :: n in list && n.spelling == s
  {
    if list != [] {
      SpellingsMembers(list[..|list| - 1]);
      assert list == list[..|list| - 1] + [list[|list| - 1]];
    }
  }

  lemma {:induction false} SpellingsDiffer(list: seq<Name>)
    requires DistinctKeys(list) && forall m, n :: m in list && n in list && m.spelling == n.spelling ==> m.key == n.key
    ensures ValheimList.NoRepeats(Spellings(list))
  {
    if list != [] {
      var front, last := list[..|list| - 1], list[|list| - 1];
      assert forall n :: n in front ==> n in list;
      SpellingsDiffer(front);
      SpellingsMembers(front);
      assert (Spellings(front) + [last.spelling])[..|Spellings(front)|] == Spellings(front);
    }
  }

  /** Valheim compares identifiers literally.  The administrator file a reconciliation writes is
      read back entry by entry, so the next run starts from exactly this list. */
  lemma ValheimFileReadsBack(list: seq<Name>)
    requires DistinctKeys(list) && forall m, n :: m in list && n in list && m.spelling == n.spelling ==> m.key == n.key
    requires forall n :: n in list ==> ValheimList.ValidPlatformId(n.spelling)
    ensures ValheimList.Decoded(ValheimList.Encoded(ValheimList.ADMIN_HEADER, Spellings(list))) == Some(Spellings(list))
  {
    SpellingsDiffer(list);
    SpellingsMembers(list);
    ValheimList.BothListsReadBack(Spellings(list));
  }

  /** How a run ended. */
  datatype End = Done | NotStarted | Interrupted | NotWritten

  class AdminReconciler {
    var file: seq<Name>
    var rows: Rows
    ghost var faults: nat  // queries, reads and writes that failed

    constructor (file: seq<Name>, rows: Rows)
      ensures this.file == file && this.rows == rows && faults == 0
    {
      this.file, this.rows, faults := file, rows, 0;
    }

    method SetUserAdminForIdentity(account: Account, name: Name) returns (ok: bool)
      modifies this`rows, this`faults
      ensures rows == if ok then SetRow(old(rows), account, name) else old(rows)
      ensures faults == old(faults) + if ok then 0 else 1
    {
      if * {
        faults := faults + 1;
        return false;
      }
      rows := SetRow(rows, account, name);
      ok := true;
    }

    method DeleteUserAdmin(account: Account) returns (ok: bool)
      modifies this`rows, this`faults
      ensures rows == if ok then old(rows) - {account} else old(rows)
      ensures faults == old(faults) + if ok then 0 else 1
    {
      if * {
        faults := faults + 1;
        return false;
      }
      rows := rows - {account};
      ok := true;
    }

    /** Any one account that owns the key, as the last one wins in the source's map. */
    method OwnersByKey() returns (owners: map<Key, Account>)
      ensures owners.Keys == KeysOf(rows)
      ensures forall k :: k in owners ==> owners[k] in rows && rows[owners[k]].key == k
    {
      owners := map[];
      var todo := rows.Keys;
      while todo != {}
        invariant todo <= rows.Keys
        invariant forall a :: a in rows && a !in todo ==> rows[a].key in owners
        invariant forall k :: k in owners ==> owners[k] in rows && rows[owners[k]].key == k
      {
        var a :| a in todo;
        owners, todo := owners[rows[a].key := a], todo - {a};
      }
    }

    /** The account that owned the entry loses its row. */
    method Revoke(stale: Account, owned: Rows, ghost rows0: Rows, ghost names: set<Key>) returns (ok: bool, owned': Rows)
      requires owned == rows && Part(rows, rows0) && NamedStay(rows0, names, rows)
      requires stale in rows0 && rows0[stale].key !in names
      modifies this`rows, this`faults
      ensures Part(rows, rows0)
      ensures ok ==> owned' == rows && NamedStay(rows0, names, rows)
      ensures if ok then faults == old(faults) else faults > old(faults)
    {
      PartWithout(rows, rows0, stale);
      ok := DeleteUserAdmin(stale);
      owned' := owned - {stale};
    }

    /** `for _, entry := range decoded`: what stays, and which accounts lose their row at once. */
    method KeepOrRevoke(names: set<Key>)
      returns (ok: bool, kept: seq<Name>, keptKeys: set<Key>, owned: Rows, removed: nat, manual: nat)
      modifies this`rows, this`faults
      ensures ok ==> kept == FirstOf(file, KeysOf(old(rows)) - names) && keptKeys == Keys(kept)
      ensures ok ==> removed == CountIn(file, KeysOf(old(rows)) - names)
      ensures ok ==> manual + CountIn(kept, names) == |kept|
      ensures ok ==> owned == rows
      ensures Part(rows, old(rows))
      ensures ok ==> NamedStay(old(rows), names, rows)
      ensures ok && KeysOf(old(rows)) <= names ==> rows == old(rows)
      ensures if ok then faults == old(faults) else faults > old(faults)
    {
      var ownedByKey := OwnersByKey();
      kept, keptKeys, owned, removed, manual := [], {}, rows, 0, 0;
      ghost var rows0, gone := rows, KeysOf(rows) - names;
      assert Part(rows, rows0);
      assert NamedStay(rows0, names, rows);
      assert FirstOf([], gone) == [] && Keys([]) == {} && CountIn([], gone) == CountIn([], names) == 0;
      hide KeysOf, Keys, FirstOf, CountIn, Part, NamedStay;
      for i := 0 to |file|
        invariant kept == FirstOf(file[..i], gone) && keptKeys == Keys(kept)
        invariant removed == CountIn(file[..i], gone) && manual + CountIn(kept, names) == |kept|
        invariant owned == rows && Part(rows, rows0) && (gone == {} ==> rows == rows0) && faults == old(faults)
        invariant NamedStay(rows0, names, rows)
      {
        var entry := file[i];
        FirstOfNext(file, i, gone, names);
        if entry.key in keptKeys {
        } else if entry.key in names {
          kept, keptKeys := kept + [entry], keptKeys + {entry.key};
        } else if entry.key in ownedByKey {
          removed := removed + 1;
          ok, owned := Revoke(ownedByKey[entry.key], owned, rows0, names);
          if !ok { return; }
        } else {
          kept, keptKeys, manual := kept + [entry], keptKeys + {entry.key}, manual + 1;
        }
      }
      WholeList(file);
      ok := true;
    }

    /** The rows while the desired accounts are looked at. */
    ghost predicate RowsDuring(before: set<Key>, rows0: Rows, desired: Desired, done: set<Account>, owned: Rows)
      reads this`rows
    {
      && RowsSettled(before, rows0, desired, done, rows)
      && Part(owned, rows0) && owned.Keys !! done
      && (forall a :: a in rows && a !in done ==> a in owned)
      && (forall a :: Keeper(rows0, desired, a) && a !in done ==> a in owned)
    }

    /** The row of one desired account whose identity is listed already. */
    method KeepOrDropRow(account: Account, desired: Desired, owned: Rows,
                         ghost before: set<Key>, ghost rows0: Rows, ghost done: set<Account>)
      returns (ok: bool)
      requires account in desired && account !in done && RowsDuring(before, rows0, desired, done, owned)
      requires desired[account].key in before || OwnedBy(rows, done, desired[account].key)
      modifies this`rows, this`faults
      ensures ok ==> RowsDuring(before, rows0, desired, done + {account}, owned - {account})
      ensures !ok ==> rows == old(rows)
      ensures ok && Clean(desired, old(rows)) && (account in owned ==> account in old(rows)) ==> rows == old(rows)
      ensures if ok then faults == old(faults) else faults > old(faults)
    {
      ok := true;
      var wanted := desired[account];
      if Clean(desired, rows) && account in rows { CleanStays(desired, rows, account); }
      if account in owned && owned[account].key != wanted.key {
        NoRow(before, rows0, desired, done, rows, account);
        ok := DeleteUserAdmin(account);
      } else if account in owned {
        OwnRow(before, rows0, desired, done, rows, account);
        ok := SetUserAdminForIdentity(account, wanted);
      } else {
        NoRow(before, rows0, desired, done, rows, account);
        assert rows - {account} == rows;
      }
    }

    /** The loop body for one desired account. */
    method AddOne(account: Account, desired: Desired, kept: seq<Name>, keptKeys: set<Key>, owned: Rows,
                  ghost before: set<Key>, ghost rows0: Rows, ghost done: set<Account>)
      returns (ok: bool, kept': seq<Name>)
      requires account in desired && account !in done && RowsDuring(before, rows0, desired, done, owned)
      requires desired[account].key !in keptKeys ==> desired[account].key !in before
      requires desired[account].key in keptKeys ==> desired[account].key in before || OwnedBy(rows, done, desired[account].key)
      modifies this`rows, this`faults
      ensures !ok ==> rows == old(rows)
      ensures kept' == if desired[account].key in keptKeys then kept else kept + [desired[account]]
      ensures ok ==> RowsDuring(before, rows0, desired, done + {account}, owned - {account})
      ensures Clean(desired, old(rows)) && (account in owned ==> account in old(rows)) ==>
        ok && desired[account].key in keptKeys ==> rows == old(rows)
      ensures if ok then faults == old(faults) else faults > old(faults)
    {
      var wanted := desired[account];
      if wanted.key in keptKeys {
        kept' := kept;
        ok := KeepOrDropRow(account, desired, owned, before, rows0, done);
      } else {
        kept' := kept + [wanted];
        OwnRow(before, rows0, desired, done, rows, account);
        ok := SetUserAdminForIdentity(account, wanted);
      }
    }

    /** `for username, wanted := range desired`, in whatever order the map yields. */
    method AddDesired(desired: Desired, names: set<Key>, kept0: seq<Name>, owned0: Rows, ghost before: set<Key>, ghost rows0: Rows)
      returns (ok: bool, kept: seq<Name>, owned: Rows, added: nat)
      requires names == KeysOf(desired) && before - (KeysOf(rows0) - names) <= Keys(kept0)
      requires Keys(kept0) <= before
      requires rows == owned0 && Part(owned0, rows0) && DistinctKeys(kept0)
      requires forall a :: Keeper(rows0, desired, a) ==> a in owned0
      modifies this`rows, this`faults
      ensures RowsTouched(before, rows0, desired, rows)
      ensures ok ==> RowsDuring(before, rows0, desired, desired.Keys, owned) && owned == owned0 - desired.Keys
      ensures ok ==> Grown(kept0, desired, desired.Keys, kept, added)
      ensures ok && Settled(kept0, desired, owned0) ==> rows == owned0 && added == 0
      ensures if ok then faults == old(faults) else faults > old(faults)
    {
      RowsAtFirst(before, rows0, desired, owned0);
      GrownAtFirst(kept0, desired);
      kept, owned, added := kept0, owned0, 0;
      var keptKeys, left := Keys(kept0), desired.Keys;
      ghost var done: set<Account> := {};
      assert owned == owned0 - done;
      hide KeysOf, Keys, Part, RowsSettled, Clean, Grown, RowsTouched, KeysDone;
      while left != {}
        invariant left <= desired.Keys && done == desired.Keys - left && owned == owned0 - done
        invariant RowsDuring(before, rows0, desired, done, owned)
        invariant Grown(kept0, desired, done, kept, added) && keptKeys == Keys(kept)
        invariant Settled(kept0, desired, owned0) ==> rows == owned0 && added == 0
        invariant faults == old(faults)
      {
        var account :| account in left;
        var key := desired[account].key;
        GrownStep(kept0, desired, done, kept, added, account);
        GrownKeys(kept0, desired, done, kept, added, key);
        if key in KeysDone(desired, done) { AddedIsOwned(before, rows0, desired, done, rows, key); }
        SettledIsTouched(before, rows0, desired, done, rows);
        ok, kept := AddOne(account, desired, kept, keptKeys, owned, before, rows0, done);
        if !ok { return; }
        if key !in keptKeys {
          keptKeys, added := keptKeys + {key}, added + 1;
        }
        LeftDone(desired, left, owned0, account);
        owned, left, done := owned - {account}, left - {account}, done + {account};
      }
      assert done == desired.Keys;
      SettledIsTouched(before, rows0, desired, done, rows);
      ok := true;
    }

    /** `for username := range owned` */
    method RevokeLeftovers(owned: Rows, ghost before: set<Key>, ghost rows0: Rows, ghost desired: Desired) returns (ok: bool)
      requires RowsDuring(before, rows0, desired, desired.Keys, owned)
      modifies this`rows, this`faults
      ensures RowsTouched(before, rows0, desired, rows)
      ensures ok ==> RowsSettled(before, rows0, desired, desired.Keys, rows) && rows.Keys <= desired.Keys
      ensures ok && owned == map[] ==> rows == old(rows)
      ensures if ok then faults == old(faults) else faults > old(faults)
    {
      hide RowsSettled, RowsTouched;
      var left := owned.Keys;
      SettledIsTouched(before, rows0, desired, desired.Keys, rows);
      while left != {}
        invariant RowsSettled(before, rows0, desired, desired.Keys, rows) && left <= owned.Keys
        invariant RowsTouched(before, rows0, desired, rows)
        invariant forall a :: a in rows && a !in desired ==> a in left
        invariant (owned == map[] ==> rows == old(rows)) && faults == old(faults)
      {
        var account :| account in left;
        PartKeepsSettled(before, rows0, desired, desired.Keys, rows, account);
        ok := DeleteUserAdmin(account);
        if !ok { return; }
        SettledIsTouched(before, rows0, desired, desired.Keys, rows);
        left := left - {account};
      }
      ok := true;
    }

    /** The three loops over the entries, the desired accounts and what is left of the rows. */
    method ReconcileRows(desired: Desired, names: set<Key>) returns (ok: bool, kept: seq<Name>, added: nat, removed: nat, manual: nat)
      requires names == KeysOf(desired)
      modifies this`rows, this`faults
      ensures RowsTouched(Keys(file), old(rows), desired, rows)
      ensures ok ==> removed == CountIn(file, Gone(old(rows), desired))
      ensures ok ==> Grown(FirstOf(file, Gone(old(rows), desired)), desired, desired.Keys, kept, added)
      ensures ok ==> RowsSettled(Keys(file), old(rows), desired, desired.Keys, rows) && rows.Keys <= desired.Keys
      ensures ok ==> manual == Foreign(FirstOf(file, Gone(old(rows), desired)), desired)
      ensures ok && Settled(file, desired, old(rows)) ==> rows == old(rows) && added == removed == 0
      ensures if ok then faults == old(faults) else faults > old(faults)
    {
      ghost var rows0, gone := rows, Gone(rows, desired);
      assert gone == KeysOf(rows0) - names;
      FirstOfKeys(file, gone);
      if Settled(file, desired, rows0) { QuietFile(file, desired, rows0); }
      hide FirstOf, CountIn, Keys, KeysOf, Gone, Grown, Part, RowsSettled, DistinctKeys, RowsTouched;
      added := 0;
      var keptKeys, owned;
      ok, kept, keptKeys, owned, removed, manual := KeepOrRevoke(names);
      PartIsTouched(Keys(file), rows0, desired, rows);
      if !ok { return; }
      KeepersStay(rows0, desired, owned);
      ghost var kept0 := kept;
      ok, kept, owned, added := AddDesired(desired, names, kept, owned, Keys(file), rows0);
      if !ok { return; }
      AddedAreDesired(kept0, desired, desired.Keys, kept, added);
      if Settled(file, desired, rows0) { NothingLeft(desired, rows0, owned); }
      ok := RevokeLeftovers(owned, Keys(file), rows0, desired);
    }

    /** Encoding may fail, and the request to the node may fail before or after it took effect. */
    method WriteFile(kept: seq<Name>) returns (ok: bool)
      modifies this`file, this`faults
      ensures if ok then file == kept else file == old(file) || file == kept
      ensures faults == old(faults) + if ok then 0 else 1
    {
      ok := false;
      if * { file := kept; if * { ok := true; } }
      if !ok { faults := faults + 1; }
    }

    /** One reconciliation.  Reading, every database request and writing may fail.  Only a write
        that failed may have changed the file, to what it would have become; such a failure leaves
        the rows as if the write had worked, whether or not it did. */
    method ReconcileAdmins(users: seq<User>) returns (end: End, summary: Summary, ghost desired: Desired)
      requires Distinct(users)
      modifies this
      ensures RunMay(old(file), old(rows), desired, file, rows)
      ensures end.Done? ==> Wanted(users, desired) && summary.desired == |desired|
      ensures end.Done? ==> FileReconciled(old(file), old(rows), desired, file, summary.added, summary.removed)
      ensures end.Done? ==> Settled(file, desired, rows)
      ensures end.Done? || end.NotWritten? ==>
        RowsSettled(Keys(old(file)), old(rows), desired, desired.Keys, rows) && rows.Keys <= desired.Keys
      ensures end.NotWritten? ==> !Settled(old(file), desired, old(rows))
      ensures end.Done? && Settled(old(file), desired, old(rows)) ==>
        summary.added == summary.removed == 0 && file == old(file) && rows == old(rows)
      ensures end.Done? ==> Counted(users, desired, summary)
      ensures faults >= old(faults) && (end.Done? <==> AllRead(users) && faults == old(faults))
      ensures end.NotWritten? || end.Interrupted? ==> faults > old(faults)
      ensures end.Done? ==> summary.manual == Foreign(FirstOf(old(file), Gone(old(rows), desired)), desired)
      ensures end.NotStarted? || end.Interrupted? ==> file == old(file)
      ensures end.NotWritten? ==>
        file == old(file) || FileReconciled(old(file), old(rows), desired, file, summary.added, summary.removed)
      ensures end.NotStarted? ==> rows == old(rows)
    {
      hide Counted, AllRead, Wanted, OwnersOK, Keys, KeysOf, FirstOf, CountIn, DistinctKeys, Part, Grown, Gone, FileReconciled, Settled, RowsSettled, FirstOwners;
      ghost var rows0, before := rows, file;
      desired := map[];
      if * {
        faults := faults + 1;  // the file or the rows cannot be read, or the file not decoded
        return NotStarted, Summary(0, 0, 0, 0, 0, 0, 0, 0), desired;
      }
      var ok, wanted, owners;
      ok, wanted, owners, summary := Reconciler.CollectDesired(users);
      desired := wanted;
      if !ok { return NotStarted, summary, desired; }
      var kept, added, removed, manual;
      ok, kept, added, removed, manual := ReconcileRows(wanted, owners.Keys);
      if !ok { return Interrupted, summary, desired; }
      ghost var collected := summary;
      summary := summary.(added := added, removed := removed, manual := manual);
      CountedStays(users, wanted, collected, summary);
      WhatWasWritten(before, rows0, wanted, kept, added, removed);
      if added > 0 || removed > 0 {
        KeysReconciled(before, rows0, wanted, kept, added, removed);
        ok := WriteFile(kept);
        if !ok { return NotWritten, summary, desired; }
      }
      ListedAtLast(before, rows0, wanted, rows, file, added, removed);
      KeysReconciled(before, rows0, wanted, file, added, removed);
      end := Done;
    }
  }
}

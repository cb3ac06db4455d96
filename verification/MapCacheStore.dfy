/** The bodies the map cache keeps on disk: the size-limited copy of a response and the
    eviction of the least recently touched bodies (api/map_cache.go). */
module MapCacheStore {
  type Key = string

  datatype Body = Body(key: Key, size: nat, touched: int)

  function Total(bodies: seq<Body>): nat {
    if bodies == [] then 0 else bodies[0].size + Total(bodies[1..])
  }

  function Without(bodies: seq<Body>, key: Key): seq<Body> {
    if bodies == [] then []
    else if bodies[0].key == key then Without(bodies[1..], key)
    else [bodies[0]] + Without(bodies[1..], key)
  }

  ghost predicate Distinct(bodies: seq<Body>) {
    bodies != [] ==> (forall b :: b in bodies[1..] ==> b.key != bodies[0].key) && Distinct(bodies[1..])
  }

  ghost predicate OldestFirst(bodies: seq<Body>) {
    bodies != [] ==> (forall b :: b in bodies[1..] ==> bodies[0].touched <= b.touched) && OldestFirst(bodies[1..])
  }

  lemma Members(bodies: seq<Body>)
    requires bodies != []
    ensures forall b :: b in bodies <==> b == bodies[0] || b in bodies[1..]
  {
    assert bodies == [bodies[0]] + bodies[1..];
  }

  lemma {:induction false} WithoutAbsent(bodies: seq<Body>, key: Key)
    requires forall b :: b in bodies ==> b.key != key
    ensures Without(bodies, key) == bodies
  {
    if bodies != [] {
      Members(bodies);
      WithoutAbsent(bodies[1..], key);
    }
  }

  lemma {:induction false} WithoutMembers(bodies: seq<Body>, key: Key)
    requires Distinct(bodies)
    ensures forall b :: b in Without(bodies, key) <==> b in bodies && b.key != key
    ensures Distinct(Without(bodies, key))
  {
    if bodies != [] {
      Members(bodies);
      WithoutMembers(bodies[1..], key);
      if bodies[0].key != key {
        var w := Without(bodies, key);
        assert w[1..] == Without(bodies[1..], key);
        Members(w);
      }
    }
  }

  lemma {:induction false} WithoutTotal(bodies: seq<Body>, b: Body)
    requires b in bodies && Distinct(bodies)
    ensures Total(Without(bodies, b.key)) + b.size == Total(bodies)
    ensures |Without(bodies, b.key)| == |bodies| - 1
  {
    Members(bodies);
    if bodies[0] == b {
      WithoutAbsent(bodies[1..], b.key);
    } else {
      WithoutTotal(bodies[1..], b);
      assert Without(bodies, b.key)[1..] == Without(bodies[1..], b.key);
    }
  }

  lemma {:induction false} TotalAppend(bodies: seq<Body>, b: Body)
    ensures Total(bodies + [b]) == Total(bodies) + b.size
  {
    if bodies == [] {
      assert bodies + [b] == [b];
    } else {
      TotalAppend(bodies[1..], b);
      assert (bodies + [b])[1..] == bodies[1..] + [b];
    }
  }

  function InsertByTouched(b: Body, bodies: seq<Body>): seq<Body> {
    if bodies == [] || b.touched <= bodies[0].touched then [b] + bodies
    else [bodies[0]] + InsertByTouched(b, bodies[1..])
  }

  lemma {:induction false} InsertMembers(b: Body, bodies: seq<Body>)
    ensures forall c :: c in InsertByTouched(b, bodies) <==> c == b || c in bodies
  {
    if bodies != [] {
      Members(bodies);
      if b.touched > bodies[0].touched { InsertMembers(b, bodies[1..]); }
    }
  }

  lemma {:induction false} InsertLength(b: Body, bodies: seq<Body>)
    ensures |InsertByTouched(b, bodies)| == |bodies| + 1
  {
    if bodies != [] && b.touched > bodies[0].touched { InsertLength(b, bodies[1..]); }
  }

  lemma {:induction false} InsertOrdered(b: Body, bodies: seq<Body>)
    requires OldestFirst(bodies)
    ensures OldestFirst(InsertByTouched(b, bodies))
  {
    var r := InsertByTouched(b, bodies);
    InsertMembers(b, bodies);
    if bodies == [] || b.touched <= bodies[0].touched {
      assert r[1..] == bodies;
      if bodies != [] { Members(bodies); }
    } else {
      InsertOrdered(b, bodies[1..]);
      InsertMembers(b, bodies[1..]);
      assert r[1..] == InsertByTouched(b, bodies[1..]);
    }
  }

  lemma {:induction false} InsertDistinct(b: Body, bodies: seq<Body>)
    requires Distinct(bodies) && forall c :: c in bodies ==> c.key != b.key
    ensures Distinct(InsertByTouched(b, bodies))
  {
    var r := InsertByTouched(b, bodies);
    if bodies == [] || b.touched <= bodies[0].touched {
      assert r[1..] == bodies;
    } else {
      Members(bodies);
      InsertDistinct(b, bodies[1..]);
      InsertMembers(b, bodies[1..]);
      assert r[1..] == InsertByTouched(b, bodies[1..]);
    }
  }

  ghost predicate SameBodies(s: seq<Body>, t: seq<Body>) {
    forall b :: b in s <==> b in t
  }

  /** The bodies that were tried are the least recently touched ones. */
  ghost predicate OldestTried(before: seq<Body>, tried: seq<Body>) {
    && OldestFirst(tried) && (forall t :: t in tried ==> t in before)
    && (forall t, b :: t in tried && b in before && b !in tried ==> t.key != b.key && t.touched <= b.touched)
  }

  /** What could not be removed is still there, as is what was not tried. */
  ghost predicate OnlyTriedGone(before: seq<Body>, tried: seq<Body>, failed: seq<Body>, left: seq<Body>) {
    && (forall b :: b in failed ==> b in tried)
    && (forall b :: b in left <==> b in before && (b !in tried || b in failed))
  }

  lemma {:induction false} SameTotal(s: seq<Body>, t: seq<Body>)
    requires Distinct(s) && Distinct(t) && SameBodies(s, t)
    ensures Total(s) == Total(t)
  {
    HasMember(t);
    if s != [] {
      var b := s[0];
      Members(s);
      WithoutMembers(t, b.key);
      WithoutTotal(t, b);
      SameTotal(s[1..], Without(t, b.key));
    }
  }

  lemma HasMember(t: seq<Body>)
    ensures t != [] ==> exists b :: b in t
  {
    if t != [] { assert t[0] in t; }
  }

  /** What is true of the directory after the `count` oldest bodies were tried. */
  ghost predicate Evicted(sorted: seq<Body>, count: nat, failed: seq<Body>, left: seq<Body>) {
    && count <= |sorted| && Distinct(left)
    && (forall b :: b in failed ==> b in sorted[..count])
    && (forall b :: b in left <==> b in sorted[count..] || b in failed)
    && Total(left) + Total(sorted[..count]) == Total(sorted) + Total(failed)
  }

  lemma EvictNone(before: seq<Body>, sorted: seq<Body>)
    requires Distinct(before) && Distinct(sorted) && SameBodies(sorted, before)
    ensures Evicted(sorted, 0, [], before) && Total(sorted) == Total(before)
  {
    assert sorted[0..] == sorted && sorted[..0] == [];
    SameTotal(sorted, before);
  }

  lemma SplitAt(sorted: seq<Body>, i: nat)
    requires i < |sorted|
    ensures Total(sorted[..i + 1]) == Total(sorted[..i]) + sorted[i].size
    ensures forall b :: b in sorted[..i + 1] <==> b in sorted[..i] || b == sorted[i]
    ensures forall b :: b in sorted[i..] <==> b == sorted[i] || b in sorted[i + 1..]
  {
    assert sorted[..i + 1] == sorted[..i] + [sorted[i]];
    assert sorted[i..] == [sorted[i]] + sorted[i + 1..];
    hide Total;
    TotalAppend(sorted[..i], sorted[i]);
  }

  lemma OthersDiffer(sorted: seq<Body>, i: nat)
    requires i < |sorted| && Distinct(sorted)
    ensures forall b :: b in sorted[..i] || b in sorted[i + 1..] ==> b.key != sorted[i].key
  {
    hide Distinct;
    EvictedAreGone(sorted, i);
    EvictedAreGone(sorted, i + 1);
    assert sorted[i] in sorted[..i + 1] && sorted[i] in sorted[i..];
  }

  lemma OneMoreTried(sorted: seq<Body>, i: nat)
    requires i < |sorted| && Distinct(sorted)
    ensures Total(sorted[..i + 1]) == Total(sorted[..i]) + sorted[i].size
    ensures forall b :: b in sorted[..i + 1] <==> b in sorted[..i] || b == sorted[i]
    ensures forall b :: b in sorted[i..] <==> b == sorted[i] || b in sorted[i + 1..]
    ensures forall b :: b in sorted[..i] || b in sorted[i + 1..] ==> b.key != sorted[i].key
  {
    hide *;
    SplitAt(sorted, i);
    OthersDiffer(sorted, i);
  }

  lemma EvictNext(sorted: seq<Body>, i: nat, failed: seq<Body>, left: seq<Body>)
    requires i < |sorted| && Distinct(sorted) && Evicted(sorted, i, failed, left)
    ensures Evicted(sorted, i + 1, failed, Without(left, sorted[i].key))
    ensures Total(sorted[..i + 1]) == Total(sorted[..i]) + sorted[i].size
  {
    OneMoreTried(sorted, i);
    hide Total, Without, Distinct;
    WithoutMembers(left, sorted[i].key);
    WithoutTotal(left, sorted[i]);
  }

  lemma KeepNext(sorted: seq<Body>, i: nat, failed: seq<Body>, left: seq<Body>)
    requires i < |sorted| && Distinct(sorted) && Evicted(sorted, i, failed, left)
    ensures Evicted(sorted, i + 1, failed + [sorted[i]], left)
    ensures Total(sorted[..i + 1]) == Total(sorted[..i]) + sorted[i].size
  {
    OneMoreTried(sorted, i);
    hide Total, Without, Distinct;
    TotalAppend(failed, sorted[i]);
  }

  lemma {:induction false} OldestAreEvicted(sorted: seq<Body>, i: nat)
    requires OldestFirst(sorted) && i <= |sorted|
    ensures forall e, b :: e in sorted[..i] && b in sorted[i..] ==> e.touched <= b.touched
  {
    if i > 0 {
      OldestAreEvicted(sorted[1..], i - 1);
      assert sorted[1..][..i - 1] == sorted[1..i] && sorted[1..][i - 1..] == sorted[i..];
      assert sorted[..i] == [sorted[0]] + sorted[1..i];
      forall b | b in sorted[i..] ensures sorted[0].touched <= b.touched { assert b in sorted[1..]; }
    }
  }

  lemma {:induction false} EvictedAreGone(sorted: seq<Body>, i: nat)
    requires Distinct(sorted) && i <= |sorted|
    ensures forall e, b :: e in sorted[..i] && b in sorted[i..] ==> e.key != b.key
  {
    if i > 0 {
      EvictedAreGone(sorted[1..], i - 1);
      assert sorted[1..][..i - 1] == sorted[1..i] && sorted[1..][i - 1..] == sorted[i..];
      assert sorted[..i] == [sorted[0]] + sorted[1..i];
      forall b | b in sorted[i..] ensures sorted[0].key != b.key { assert b in sorted[1..]; }
    }
  }

  lemma {:induction false} FirstAreOldestFirst(sorted: seq<Body>, i: nat)
    requires OldestFirst(sorted) && i <= |sorted|
    ensures OldestFirst(sorted[..i])
  {
    if i > 0 {
      FirstAreOldestFirst(sorted[1..], i - 1);
      assert sorted[..i][1..] == sorted[1..][..i - 1];
    }
  }

  /** Those that were tried are the oldest, and nothing else is gone. */
  lemma EvictionOrder(before: seq<Body>, sorted: seq<Body>, i: nat, failed: seq<Body>, left: seq<Body>)
    requires Evicted(sorted, i, failed, left) && OldestFirst(sorted) && Distinct(sorted)
    requires SameBodies(sorted, before)
    ensures i <= |sorted| && Distinct(left) && OldestTried(before, sorted[..i]) && OnlyTriedGone(before, sorted[..i], failed, left)
    ensures Total(left) == Total(sorted) - Total(sorted[..i]) + Total(failed)
    ensures Total(sorted[..|sorted|]) == Total(sorted)
  {
    hide OldestFirst, Distinct;
    assert sorted == sorted[..i] + sorted[i..];
    assert sorted[..|sorted|] == sorted;
    OldestAreEvicted(sorted, i);
    EvictedAreGone(sorted, i);
    FirstAreOldestFirst(sorted, i);
  }

  lemma InsertNext(list: seq<Body>, i: nat, sorted: seq<Body>)
    requires i < |list| && Distinct(list) && OldestFirst(sorted) && Distinct(sorted)
    requires forall b :: b in sorted <==> b in list[i + 1..]
    ensures var s := InsertByTouched(list[i], sorted);
            OldestFirst(s) && Distinct(s) && |s| == |sorted| + 1 && forall b :: b in s <==> b in list[i..]
  {
    hide Distinct, OldestFirst, InsertByTouched;
    InsertOrdered(list[i], sorted);
    InsertMembers(list[i], sorted);
    EvictedAreGone(list, i + 1);
    assert list[i] in list[..i + 1];
    InsertDistinct(list[i], sorted);
    InsertLength(list[i], sorted);
    assert list[i..] == [list[i]] + list[i + 1..];
  }

  class MapCache {
    const maxBytes: nat
    var bodies: seq<Body>  // the directory, in the order it lists
    ghost var faults: nat  // removals and listings that failed

    constructor (maxBytes: nat, bodies: seq<Body>)
      ensures this.bodies == bodies && this.maxBytes == maxBytes && faults == 0
    {
      this.maxBytes, this.bodies, faults := maxBytes, bodies, 0;
    }

    /** sort.Slice by modification time; callers only learn that older ones come first, since
        the order of equal times is not specified. */
    static method SortByTouched(list: seq<Body>) returns (sorted: seq<Body>)
      requires Distinct(list)
      ensures OldestFirst(sorted) && Distinct(sorted) && |sorted| == |list|
      ensures SameBodies(sorted, list)
    {
      sorted := [];
      assert OldestFirst(sorted) && Distinct(sorted);
      hide Distinct, OldestFirst, InsertByTouched;
      var i := |list|;
      while i > 0
        invariant 0 <= i <= |list| && |sorted| == |list| - i
        invariant OldestFirst(sorted) && Distinct(sorted)
        invariant forall b :: b in sorted <==> b in list[i..]
      {
        i := i - 1;
        InsertNext(list, i, sorted);
        sorted := InsertByTouched(list[i], sorted);
      }
      assert list[0..] == list;
    }

    /** Its errors are ignored, and the file is counted as gone. */
    method Remove(key: Key) returns (ghost gone: bool)
      modifies this`bodies, this`faults
      ensures bodies == if gone then Without(old(bodies), key) else old(bodies)
      ensures faults == old(faults) + if gone then 0 else 1
    {
      gone := true;
      if * {
        gone, faults := false, faults + 1;
        return;
      }
      bodies := Without(bodies, key);
    }

    /** The bodies in the order of last use are removed, as far as they let themselves be, until
        what is believed to be left fits the bound: the shortest prefix for which it does.  So the
        total ends within the bound if nothing failed, and otherwise exceeds what is believed by
        what could not be removed.  A directory that cannot be listed is left alone. */
    method Prune() returns (ghost tried: seq<Body>, ghost failed: seq<Body>)
      requires Distinct(bodies)
      modifies this`bodies, this`faults
      ensures faults >= old(faults) + |failed|
      ensures Distinct(bodies) && OldestTried(old(bodies), tried) && OnlyTriedGone(old(bodies), tried, failed, bodies)
      ensures tried != [] || faults == old(faults) ==> Total(old(bodies)) - Total(tried) <= maxBytes
      ensures Total(bodies) == Total(old(bodies)) - Total(tried) + Total(failed)
      ensures faults == old(faults) ==> Total(bodies) <= maxBytes
      ensures tried != [] ==> Total(old(bodies)) - Total(tried[..|tried| - 1]) > maxBytes
      ensures Total(old(bodies)) <= maxBytes ==> bodies == old(bodies) && tried == []
    {
      assert Total([]) == 0 && OldestTried(bodies, []) && OnlyTriedGone(bodies, [], [], bodies);
      hide *;
      tried, failed := [], [];
      if * {
        faults := faults + 1;
        return;
      }
      var total := TotalSize();
      if total <= maxBytes {
        return;
      }
      var sorted := SortByTouched(bodies);
      tried, failed := RemoveOldest(sorted, total);
    }

    /** `for _, entry := range bodies` */
    method RemoveOldest(sorted: seq<Body>, size: nat) returns (ghost tried: seq<Body>, ghost failed: seq<Body>)
      requires Distinct(bodies) && size == Total(bodies) > maxBytes
      requires OldestFirst(sorted) && Distinct(sorted) && SameBodies(sorted, bodies)
      modifies this`bodies, this`faults
      ensures faults == old(faults) + |failed|
      ensures Distinct(bodies) && OldestTried(old(bodies), tried) && OnlyTriedGone(old(bodies), tried, failed, bodies)
      ensures size - Total(tried) <= maxBytes
      ensures Total(bodies) == size - Total(tried) + Total(failed)
      ensures failed == [] ==> Total(bodies) <= maxBytes
      ensures tried != [] ==> size - Total(tried[..|tried| - 1]) > maxBytes
    {
      assert Total([]) == 0 && sorted[..0] == [];
      hide *;
      failed := [];
      ghost var before := bodies;
      var total := size;
      EvictNone(before, sorted);
      var i := 0;
      while i < |sorted| && total > maxBytes
        invariant i <= |sorted| && Evicted(sorted, i, failed, bodies) && total == size - Total(sorted[..i])
        invariant i > 0 ==> size - Total(sorted[..i - 1]) > maxBytes
        invariant faults == old(faults) + |failed|
      {
        ghost var left := bodies;
        ghost var gone := Remove(sorted[i].key);
        if gone {
          EvictNext(sorted, i, failed, left);
        } else {
          KeepNext(sorted, i, failed, left);
          failed := failed + [sorted[i]];
        }
        total := total - sorted[i].size;
        i := i + 1;
      }
      tried := sorted[..i];
      if i > 0 { assert tried[..i - 1] == sorted[..i - 1]; }
      EvictionOrder(before, sorted, i, failed, bodies);
    }

    method TotalSize() returns (total: nat)
      ensures total == Total(bodies)
    {
      total := 0;
      for i := 0 to |bodies|
        invariant total == Total(bodies[..i])
      {
        TotalAppend(bodies[..i], bodies[i]);
        assert bodies[..i + 1] == bodies[..i] + [bodies[i]];
        total := total + bodies[i].size;
      }
      assert bodies[..|bodies|] == bodies;
    }
  }

  // ---------------------------------------------------------------- copying a response

  type Bytes = seq<bv8>

  function Flat(chunks: seq<Bytes>): Bytes {
    if chunks == [] then [] else Flat(chunks[..|chunks| - 1]) + chunks[|chunks| - 1]
  }

  /** The temporary file of one response, and the cached body and recorded size of its key. */
  class Writer {
    const maxItemBytes: nat
    var file: Bytes
    var size: nat
    var exceeded: bool
    var published: seq<Bytes>  // at most one body under the key
    var recorded: seq<nat>     // and its metadata
    ghost var faults: nat      // calls that failed

    constructor (maxItemBytes: nat, published: seq<Bytes>, recorded: seq<nat>)
      ensures this.maxItemBytes == maxItemBytes && this.published == published && this.recorded == recorded
      ensures file == [] && size == 0 && !exceeded
    {
      this.maxItemBytes, this.published, this.recorded := maxItemBytes, published, recorded;
      file, size, exceeded, faults := [], 0, false, 0;
    }

    /** What the writer has kept of the bytes it was offered without an error. */
    ghost predicate Kept(offered: Bytes)
      reads this
    {
      if exceeded then |offered| > maxItemBytes
      else file == offered && size == |offered| <= maxItemBytes
    }

    /** After the limit was passed nothing is kept, but the caller is told all is well so that
        the client still gets the response.  A failing disk keeps only part of the chunk. */
    method Write(p: Bytes, ghost offered: Bytes) returns (ok: bool)
      requires Kept(offered)
      modifies this`file, this`size, this`exceeded, this`faults
      ensures faults == old(faults) + if ok then 0 else 1
      ensures ok ==> Kept(offered + p)
      ensures old(exceeded) || |offered + p| > maxItemBytes ==> ok
    {
      if exceeded {
        return true;
      }
      if size + |p| > maxItemBytes {
        exceeded, file := true, [];
        return true;
      }
      var n: nat :| n <= |p|;
      file, size := file + p[..n], size + n;
      ok := n == |p|;
      if !ok { faults := faults + 1; }
    }

    /** lookup only accepts a body whose size is the recorded one. */
    predicate Usable()
      reads this`published, this`recorded
    {
      |published| == 1 && recorded == [|published[0]|]
    }

    /** What a failed commit can leave: each half is the old one, the new body, or gone; the new
        body is only usable if the old response had the very same size. */
    twostate predicate FailedCommit(offered: Bytes)
      reads this`published, this`recorded
    {
      && (published == old(published) || published == [offered] || published == [])
      && (recorded == old(recorded) || recorded == [])
      && (published == [offered] && Usable() ==> old(recorded) == [|offered|])
    }

    /** Publishes the temporary file.  When the metadata cannot be written both files are removed,
        and errors of that are ignored. */
    method Commit(ghost offered: Bytes) returns (ok: bool)
      requires Kept(offered)
      modifies this`published, this`recorded, this`faults
      ensures faults >= old(faults) && (ok <==> |offered| <= maxItemBytes && faults == old(faults))
      ensures ok ==> |offered| <= maxItemBytes && published == [offered] && recorded == [|offered|] && Usable()
      ensures !ok ==> FailedCommit(offered)
      ensures |offered| > maxItemBytes ==> published == old(published) && recorded == old(recorded)
    {
      if exceeded {
        return false;
      }
      if * {
        faults := faults + 1;  // sync, close or rename failed
        return false;
      }
      published := [file];
      if * {
        faults := faults + 1;
        if * { published := []; }
        if * { recorded := []; }
        return false;
      }
      recorded := [size];
      return true;
    }

    /** copyMapBody and the commit after it.  The client is written first, so whatever ends up
        in the cache has been delivered in full; a response over the limit is delivered in
        full as well and leaves the cache alone. */
    method StoreResponse(chunks: seq<Bytes>) returns (sent: Bytes, copied: bool, committed: bool)
      requires file == [] && size == 0 && !exceeded
      modifies this
      ensures copied ==> sent == Flat(chunks)
      ensures faults >= old(faults) && (committed ==> faults == old(faults))
      ensures faults == old(faults) ==> copied && (committed <==> |Flat(chunks)| <= maxItemBytes)
      ensures committed ==> copied && |sent| <= maxItemBytes && published == [sent] && recorded == [|sent|]
      ensures !committed ==> FailedCommit(Flat(chunks))
      ensures |Flat(chunks)| > maxItemBytes ==> !committed && published == old(published) && recorded == old(recorded)
    {
      sent, copied, committed := [], false, false;
      for i := 0 to |chunks|
        invariant sent == Flat(chunks[..i]) && Kept(sent)
        invariant published == old(published) && recorded == old(recorded)
        invariant !copied && !committed && faults == old(faults)
      {
        assert chunks[..i + 1][..i] == chunks[..i];
        if * {
          faults := faults + 1;  // the origin or the client failed
          return;
        }
        sent := sent + chunks[i];
        var ok := Write(chunks[i], Flat(chunks[..i]));
        if !ok { return; }
      }
      assert chunks[..|chunks|] == chunks;
      copied := true;
      committed := Commit(sent);
    }
  }
}

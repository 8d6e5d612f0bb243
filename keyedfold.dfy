/**
 * The shape of `merge_client_records` in `lobbyharvest/src/utils/normalize.py`,
 * independent of what a record holds: an insertion-ordered dict filled by
 * one pass over the input, where the first item of each key is stored and
 * each later item of that key is absorbed into the stored one.
 *
 * The key and the absorb step are parameters here; the Merge module
 * instantiates them with `generate_client_id` of the names and the
 * date/identifier reconciliation.
 */
module KeyedFold {

  /** An insertion-ordered dict: its keys in insertion order, and the item stored under each. */
  datatype Table<R> = Table(order: seq<string>, items: map<string, R>)

  predicate Distinct(s: seq<string>) {
    forall i, j | 0 <= i < j < |s| :: s[i] != s[j]
  }

  /** The order lists each stored key once, and nothing else. */
  predicate WellFormed<R>(t: Table<R>) {
    && Distinct(t.order)
    && (forall i | 0 <= i < |t.order| :: t.order[i] in t.items)
    && (forall k | k in t.items :: k in t.order)
  }

  /** One pass of the loop: store `r` under a new key, or absorb it into the item already there. */
  function Step<R>(t: Table<R>, r: R, key: R -> string, absorb: (R, R) -> R): (t': Table<R>)
    requires WellFormed(t)
    ensures WellFormed(t')
  {
    var k := key(r);
    if k !in t.items then Table(t.order + [k], t.items[k := r])
    else Table(t.order, t.items[k := absorb(t.items[k], r)])
  }

  /** The table after the loop has seen `rs`. */
  function Fold<R>(rs: seq<R>, key: R -> string, absorb: (R, R) -> R): (t: Table<R>)
    ensures WellFormed(t)
  {
    if rs == [] then Table([], map[]) else Step(Fold(rs[..|rs| - 1], key, absorb), rs[|rs| - 1], key, absorb)
  }

  /** The table after one more record is the step from the table before it. */
  lemma FoldStep<R>(rs: seq<R>, i: nat, key: R -> string, absorb: (R, R) -> R)
    requires i < |rs|
    ensures Fold(rs[..i + 1], key, absorb) == Step(Fold(rs[..i], key, absorb), rs[i], key, absorb)
  {
    assert rs[..i + 1][..i] == rs[..i];
  }

  /** Two items of one key: the second is absorbed into the first. */
  lemma FoldSameKey<R>(a: R, b: R, key: R -> string, absorb: (R, R) -> R)
    requires key(a) == key(b)
    ensures Fold([a, b], key, absorb) == Table([key(a)], map[key(a) := absorb(a, b)])
  {
    var k := key(a);
    FoldOne(a, key, absorb);
    assert [a, b][..1] == [a];
    var t := Fold([a, b], key, absorb);
    assert t == Step(Fold([a], key, absorb), b, key, absorb);
    Overwrite(k, a, absorb(a, b));
  }

  lemma FoldOne<R>(a: R, key: R -> string, absorb: (R, R) -> R)
    ensures Fold([a], key, absorb) == Table([key(a)], map[key(a) := a])
  {
    assert [a][..0] == [];
  }

  lemma Overwrite<R>(k: string, a: R, c: R)
    ensures map[k := a][k := c] == map[k := c]
  {
    assert map[k := a][k := c].Keys == {k};
  }

  /** `list(table.values())`. */
  function Output<R>(t: Table<R>): (out: seq<R>)
    requires WellFormed(t)
    ensures |out| == |t.order|
    ensures forall i | 0 <= i < |out| :: out[i] == t.items[t.order[i]]
  {
    seq(|t.order|, i requires 0 <= i < |t.order| => t.items[t.order[i]])
  }

  /** An item with a new key is appended to the output. */
  lemma OutputNewKey<R>(t: Table<R>, r: R, key: R -> string, absorb: (R, R) -> R)
    requires WellFormed(t) && key(r) !in t.items
    ensures Output(Step(t, r, key, absorb)) == Output(t) + [r]
  {
    forall i | 0 <= i < |t.order| ensures t.order[i] != key(r) { }
  }

  /** The key of each item, in input order. */
  function Keys<R>(rs: seq<R>, key: R -> string): (ks: seq<string>)
    ensures |ks| == |rs|
    ensures forall i | 0 <= i < |rs| :: ks[i] == key(rs[i])
  {
    if rs == [] then [] else Keys(rs[..|rs| - 1], key) + [key(rs[|rs| - 1])]
  }

  /** Where `k` first occurs in `ks`. */
  function FirstIndex(ks: seq<string>, k: string): (i: nat)
    requires k in ks
    ensures i < |ks| && ks[i] == k
    ensures forall j | 0 <= j < i :: ks[j] != k
  {
    if ks[0] == k then 0 else 1 + FirstIndex(ks[1..], k)
  }

  /** The items of `rs` whose key is `k`, in input order. */
  function Group<R>(rs: seq<R>, k: string, key: R -> string): (g: seq<R>)
    ensures |g| <= |rs|
    ensures forall i | 0 <= i < |g| :: key(g[i]) == k
  {
    if rs == [] then []
    else Group(rs[..|rs| - 1], k, key) + (if key(rs[|rs| - 1]) == k then [rs[|rs| - 1]] else [])
  }

  /** The first item of a group with every later one absorbed into it, in order. */
  function Combine<R>(g: seq<R>, absorb: (R, R) -> R): R
    requires |g| >= 1
  {
    if |g| == 1 then g[0] else absorb(Combine(g[..|g| - 1], absorb), g[|g| - 1])
  }

  /** A key occurs in the input iff its group is non-empty. */
  lemma {:induction false} GroupKeys<R>(rs: seq<R>, k: string, key: R -> string)
    ensures k in Keys(rs, key) <==> Group(rs, k, key) != []
  {
    if rs != [] {
      var init := rs[..|rs| - 1];
      GroupKeys(init, k, key);
      assert Keys(rs, key) == Keys(init, key) + [key(rs[|rs| - 1])];
    }
  }

  /** The table holds exactly the keys of the input. */
  lemma {:induction false} FoldKeys<R>(rs: seq<R>, k: string, key: R -> string, absorb: (R, R) -> R)
    ensures k in Fold(rs, key, absorb).items <==> k in Keys(rs, key)
    ensures k in Keys(rs, key) <==> Group(rs, k, key) != []
  {
    GroupKeys(rs, k, key);
    if rs != [] {
      var init := rs[..|rs| - 1];
      FoldKeys(init, k, key, absorb);
      assert Keys(rs, key) == Keys(init, key) + [key(rs[|rs| - 1])];
    }
  }

  /** The item stored under each key is its group combined in input order. */
  lemma {:induction false} FoldGroup<R>(rs: seq<R>, k: string, key: R -> string, absorb: (R, R) -> R)
    requires k in Fold(rs, key, absorb).items
    ensures Group(rs, k, key) != []
    ensures Fold(rs, key, absorb).items[k] == Combine(Group(rs, k, key), absorb)
  {
    assert rs != [];
    var init := rs[..|rs| - 1];
    var last := rs[|rs| - 1];
    var t := Fold(init, key, absorb);
    var g := Group(rs, k, key);
    assert Fold(rs, key, absorb) == Step(t, last, key, absorb);
    FoldKeys(init, k, key, absorb);
    if key(last) != k {
      assert g == Group(init, k, key);
      FoldGroup(init, k, key, absorb);
      assert Fold(rs, key, absorb).items[k] == t.items[k];
    } else if k !in t.items {
      assert g == [last];
    } else {
      FoldGroup(init, k, key, absorb);
      assert g == Group(init, k, key) + [last];
      assert g[..|g| - 1] == Group(init, k, key);
      assert Fold(rs, key, absorb).items[k] == absorb(t.items[k], last);
      assert Combine(g, absorb) == absorb(Combine(g[..|g| - 1], absorb), last);
    }
  }

  /** The first item of a key's group is the input's first item with that key. */
  lemma {:induction false} GroupFirst<R>(rs: seq<R>, k: string, key: R -> string)
    requires k in Keys(rs, key)
    ensures Group(rs, k, key) != [] && Group(rs, k, key)[0] == rs[FirstIndex(Keys(rs, key), k)]
  {
    var init := rs[..|rs| - 1];
    var ks := Keys(rs, key);
    assert ks == Keys(init, key) + [key(rs[|rs| - 1])];
    if k in Keys(init, key) {
      GroupFirst(init, k, key);
      assert FirstIndex(Keys(init, key), k) == FirstIndex(ks, k);
    } else {
      GroupKeys(init, k, key);
      assert FirstIndex(ks, k) == |rs| - 1;
    }
  }

  /** The keys of the output are exactly the input's keys, each once. */
  lemma OrderKeys<R>(rs: seq<R>, key: R -> string, absorb: (R, R) -> R)
    ensures forall k :: k in Fold(rs, key, absorb).order <==> k in Keys(rs, key)
  {
    forall k ensures k in Fold(rs, key, absorb).order <==> k in Keys(rs, key) {
      FoldKeys(rs, k, key, absorb);
    }
  }

  /** Every key of `o` occurs in `ks`, and `o` lists them in the order of their first occurrence there. */
  predicate FirstSeenOrder(o: seq<string>, ks: seq<string>) {
    && (forall i | 0 <= i < |o| :: o[i] in ks)
    && (forall i, j | 0 <= i < j < |o| && o[i] in ks && o[j] in ks :: FirstIndex(ks, o[i]) < FirstIndex(ks, o[j]))
  }

  /** Appending to `ks` does not move the first occurrence of a key already there. */
  lemma FirstIndexAppend(ks: seq<string>, k: string, x: string)
    requires x in ks
    ensures FirstIndex(ks + [k], x) == FirstIndex(ks, x)
  {
    var a, b := FirstIndex(ks, x), FirstIndex(ks + [k], x);
    assert (ks + [k])[a] == x;
  }

  /** A key seen before leaves first occurrences as they were. */
  lemma FirstSeenSeen(o: seq<string>, ks: seq<string>, k: string)
    requires FirstSeenOrder(o, ks) && k in ks
    ensures FirstSeenOrder(o, ks + [k])
  {
    forall x | x in ks ensures FirstIndex(ks + [k], x) == FirstIndex(ks, x) {
      FirstIndexAppend(ks, k, x);
    }
  }

  /** A new key goes after every key seen before. */
  lemma FirstSeenNew(o: seq<string>, ks: seq<string>, k: string)
    requires FirstSeenOrder(o, ks) && k !in ks
    ensures FirstSeenOrder(o + [k], ks + [k])
  {
    var ks' := ks + [k];
    var o' := o + [k];
    forall x | x in ks ensures FirstIndex(ks', x) == FirstIndex(ks, x) {
      FirstIndexAppend(ks, k, x);
    }
    assert FirstIndex(ks', k) == |ks|;
    forall i, j | 0 <= i < j < |o'| && o'[i] in ks' && o'[j] in ks'
      ensures FirstIndex(ks', o'[i]) < FirstIndex(ks', o'[j])
    {
      assert o'[i] == o[i];
      if j < |o| { assert o'[j] == o[j]; }
    }
  }

  /** The keys of the output are in the order of their first occurrence in the input. */
  lemma {:induction false} FoldOrder<R>(rs: seq<R>, key: R -> string, absorb: (R, R) -> R)
    ensures FirstSeenOrder(Fold(rs, key, absorb).order, Keys(rs, key))
  {
    if rs != [] {
      var init := rs[..|rs| - 1];
      var t := Fold(init, key, absorb);
      var k := key(rs[|rs| - 1]);
      FoldOrder(init, key, absorb);
      assert Keys(rs, key) == Keys(init, key) + [k];
      FoldKeys(init, k, key, absorb);
      if k !in t.items {
        FirstSeenNew(t.order, Keys(init, key), k);
      } else {
        FirstSeenSeen(t.order, Keys(init, key), k);
      }
    }
  }

  /** Output item `i` is the combined group of the `i`-th key. */
  lemma OutputItem<R>(rs: seq<R>, key: R -> string, absorb: (R, R) -> R, i: nat)
    requires i < |Output(Fold(rs, key, absorb))|
    ensures Fold(rs, key, absorb).order[i] in Keys(rs, key)
    ensures Group(rs, Fold(rs, key, absorb).order[i], key) != []
    ensures Output(Fold(rs, key, absorb))[i] == Combine(Group(rs, Fold(rs, key, absorb).order[i], key), absorb)
  {
    OrderKeys(rs, key, absorb);
    FoldKeys(rs, Fold(rs, key, absorb).order[i], key, absorb);
    FoldGroup(rs, Fold(rs, key, absorb).order[i], key, absorb);
  }

  /** Input whose keys are all distinct comes back unchanged. */
  lemma {:induction false} DistinctKeysUnchanged<R>(rs: seq<R>, key: R -> string, absorb: (R, R) -> R)
    requires Distinct(Keys(rs, key))
    ensures Output(Fold(rs, key, absorb)) == rs
  {
    if rs != [] {
      var init := rs[..|rs| - 1];
      var ks := Keys(rs, key);
      var k := key(rs[|rs| - 1]);
      assert ks == Keys(init, key) + [k];
      assert Distinct(Keys(init, key)) by {
        forall i, j | 0 <= i < j < |init| ensures Keys(init, key)[i] != Keys(init, key)[j] {
          assert ks[i] == Keys(init, key)[i] && ks[j] == Keys(init, key)[j];
        }
      }
      DistinctKeysUnchanged(init, key, absorb);
      FoldKeys(init, k, key, absorb);
      assert k !in Keys(init, key) by {
        forall i | 0 <= i < |init| ensures Keys(init, key)[i] != k {
          assert ks[i] == Keys(init, key)[i] && ks[|rs| - 1] == k;
        }
      }
      var out := Output(Fold(rs, key, absorb));
      forall i | 0 <= i < |rs| ensures out[i] == rs[i] {
        if i < |init| {
          assert Fold(init, key, absorb).order[i] != k;
        }
      }
    }
  }

  /** Every two items that share a key both satisfy `ok`: an item whose key occurs once is unconstrained. */
  predicate SharedKeysOk<R>(rs: seq<R>, key: R -> string, ok: R -> bool) {
    forall i, j | 0 <= i < j < |rs| && key(rs[i]) == key(rs[j]) :: ok(rs[i]) && ok(rs[j])
  }

  /** A group of two or more items consists of items satisfying `ok`. */
  lemma {:induction false} GroupShared<R>(rs: seq<R>, k: string, key: R -> string, ok: R -> bool)
    requires SharedKeysOk(rs, key, ok) && |Group(rs, k, key)| >= 2
    ensures forall i | 0 <= i < |Group(rs, k, key)| :: ok(Group(rs, k, key)[i])
  {
    var init := rs[..|rs| - 1];
    var last := rs[|rs| - 1];
    assert SharedKeysOk(init, key, ok) by {
      forall i, j | 0 <= i < j < |init| && key(init[i]) == key(init[j]) ensures ok(init[i]) && ok(init[j]) {
        assert init[i] == rs[i] && init[j] == rs[j];
      }
    }
    if key(last) != k {
      assert Group(rs, k, key) == Group(init, k, key);
      GroupShared(init, k, key, ok);
    } else {
      var gi := Group(init, k, key);
      assert Group(rs, k, key) == gi + [last];
      GroupKeys(init, k, key);
      var j := FirstIndex(Keys(init, key), k);
      assert init[j] == rs[j] && key(rs[j]) == key(rs[|rs| - 1]);
      if |gi| >= 2 {
        GroupShared(init, k, key, ok);
      } else {
        GroupFirst(init, k, key);
      }
    }
  }

  /**
   * After the first `i` items, every stored item satisfies `ok` unless no
   * item from position `i` on has its key.
   */
  predicate Ready<R>(rs: seq<R>, i: nat, items: map<string, R>, key: R -> string, ok: R -> bool) {
    forall k | k in items :: ok(items[k]) || (forall m | i <= m < |rs| :: key(rs[m]) != k)
  }

  /**
   * One pass of the loop over items whose shared keys satisfy `ok`: an item
   * whose key is already stored satisfies `ok`, and so does the item stored
   * under that key; readiness carries over as long as absorbing two such
   * items gives one.
   */
  lemma ReadyStep<R>(rs: seq<R>, i: nat, key: R -> string, absorb: (R, R) -> R, ok: R -> bool)
    requires i < |rs| && SharedKeysOk(rs, key, ok)
    requires Ready(rs, i, Fold(rs[..i], key, absorb).items, key, ok)
    requires var t := Fold(rs[..i], key, absorb);
      key(rs[i]) in t.items && ok(t.items[key(rs[i])]) && ok(rs[i]) ==> ok(absorb(t.items[key(rs[i])], rs[i]))
    ensures var t := Fold(rs[..i], key, absorb);
      key(rs[i]) in t.items ==> ok(rs[i]) && ok(t.items[key(rs[i])])
    ensures Ready(rs, i + 1, Fold(rs[..i + 1], key, absorb).items, key, ok)
  {
    var t := Fold(rs[..i], key, absorb);
    var k := key(rs[i]);
    FoldStep(rs, i, key, absorb);
    FoldKeys(rs[..i], k, key, absorb);
    if k in t.items {
      var j := FirstIndex(Keys(rs[..i], key), k);
      assert rs[..i][j] == rs[j];
      assert ok(rs[j]) && ok(rs[i]);
    } else if exists m | i + 1 <= m < |rs| :: key(rs[m]) == k {
      var m :| i + 1 <= m < |rs| && key(rs[m]) == k;
      assert ok(rs[i]) && ok(rs[m]);
    }
  }

  /** There is never more output than input. */
  lemma {:induction false} OutputLength<R>(rs: seq<R>, key: R -> string, absorb: (R, R) -> R)
    ensures |Output(Fold(rs, key, absorb))| <= |rs|
  {
    if rs != [] {
      OutputLength(rs[..|rs| - 1], key, absorb);
    }
  }

  // ---------------------------------------------------------------------
  // Keeping the first item of each key (a `seen` set beside a list)
  // ---------------------------------------------------------------------

  /** The first item of each key, in input order: what a loop that skips keys already in its `seen` set keeps. */
  function Dedup<R>(rs: seq<R>, key: R -> string): (d: seq<R>)
    ensures |d| <= |rs|
  {
    if rs == [] then []
    else
      var prev := Dedup(rs[..|rs| - 1], key);
      if key(rs[|rs| - 1]) in Keys(rs[..|rs| - 1], key) then prev else prev + [rs[|rs| - 1]]
  }

  /** The kept items carry exactly the keys of the input. */
  lemma {:induction false} DedupKeys<R>(rs: seq<R>, key: R -> string)
    ensures forall k :: k in Keys(Dedup(rs, key), key) <==> k in Keys(rs, key)
  {
    if rs != [] {
      var init := rs[..|rs| - 1];
      var last := rs[|rs| - 1];
      DedupKeys(init, key);
      assert Keys(rs, key) == Keys(init, key) + [key(last)];
      if key(last) !in Keys(init, key) {
        var d := Dedup(init, key);
        assert Keys(d + [last], key) == Keys(d, key) + [key(last)] by {
          assert (d + [last])[..|d|] == d;
        }
      }
    }
  }

  /** No key is kept twice. */
  lemma {:induction false} DedupDistinct<R>(rs: seq<R>, key: R -> string)
    ensures Distinct(Keys(Dedup(rs, key), key))
  {
    if rs != [] {
      var init := rs[..|rs| - 1];
      var last := rs[|rs| - 1];
      DedupDistinct(init, key);
      if key(last) !in Keys(init, key) {
        var d := Dedup(init, key);
        DedupKeys(init, key);
        assert (d + [last])[..|d|] == d;
        assert Keys(d + [last], key) == Keys(d, key) + [key(last)];
      }
    }
  }

  /** Each kept item is the first item of the input with its key. */
  lemma {:induction false} DedupFirst<R>(rs: seq<R>, key: R -> string, i: nat)
    requires i < |Dedup(rs, key)|
    ensures key(Dedup(rs, key)[i]) in Keys(rs, key)
    ensures Dedup(rs, key)[i] == rs[FirstIndex(Keys(rs, key), key(Dedup(rs, key)[i]))]
  {
    var init := rs[..|rs| - 1];
    var last := rs[|rs| - 1];
    var d := Dedup(init, key);
    var ks := Keys(rs, key);
    assert ks == Keys(init, key) + [key(last)];
    if i < |d| {
      DedupFirst(init, key, i);
      FirstIndexAppend(Keys(init, key), key(last), key(d[i]));
      assert ks[..|init|] == Keys(init, key);
    } else {
      assert FirstIndex(ks, key(last)) == |rs| - 1;
    }
  }

  /** The kept keys come in the order in which the input first shows them. */
  lemma {:induction false} DedupOrder<R>(rs: seq<R>, key: R -> string)
    ensures FirstSeenOrder(Keys(Dedup(rs, key), key), Keys(rs, key))
  {
    if rs != [] {
      var init := rs[..|rs| - 1];
      var last := rs[|rs| - 1];
      var d := Dedup(init, key);
      DedupOrder(init, key);
      assert Keys(rs, key) == Keys(init, key) + [key(last)];
      if key(last) in Keys(init, key) {
        FirstSeenSeen(Keys(d, key), Keys(init, key), key(last));
      } else {
        FirstSeenNew(Keys(d, key), Keys(init, key), key(last));
        assert (d + [last])[..|d|] == d;
        assert Keys(d + [last], key) == Keys(d, key) + [key(last)];
      }
    }
  }

  /** Keeping the first item is merging with an absorb step that ignores the later item. */
  lemma {:induction false} DedupIsFold<R>(rs: seq<R>, key: R -> string)
    ensures Dedup(rs, key) == Output(Fold(rs, key, (kept: R, later: R) => kept))
  {
    var keep := (kept: R, later: R) => kept;
    if rs != [] {
      var init := rs[..|rs| - 1];
      var last := rs[|rs| - 1];
      var t := Fold(init, key, keep);
      DedupIsFold(init, key);
      FoldKeys(init, key(last), key, keep);
      assert Fold(rs, key, keep) == Step(t, last, key, keep);
      if key(last) in t.items {
        assert Step(t, last, key, keep) == t;
      } else {
        OutputNewKey(t, last, key, keep);
      }
    }
  }

  /** Without repeated keys nothing is dropped. */
  lemma {:induction false} DedupOfDistinct<R>(rs: seq<R>, key: R -> string)
    requires Distinct(Keys(rs, key))
    ensures Dedup(rs, key) == rs
  {
    if rs != [] {
      var init := rs[..|rs| - 1];
      var ks := Keys(rs, key);
      assert ks == Keys(init, key) + [key(rs[|rs| - 1])];
      assert Distinct(Keys(init, key)) by {
        forall i, j | 0 <= i < j < |init| ensures Keys(init, key)[i] != Keys(init, key)[j] {
          assert ks[i] != ks[j];
        }
      }
      DedupOfDistinct(init, key);
      assert key(rs[|rs| - 1]) !in Keys(init, key) by {
        forall i | 0 <= i < |init| ensures Keys(init, key)[i] != key(rs[|rs| - 1]) {
          assert ks[i] != ks[|rs| - 1];
        }
      }
      assert init + [rs[|rs| - 1]] == rs;
    }
  }
}

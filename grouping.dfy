/** Maximal runs of equal keys in a stream of key/value pairs: the groups a
    streaming reducer sees between two key changes. Both grouping reducers
    (`color_completion_reducer.py`, `reducer_analysis.py`) are proved
    against this specification. */
module Grouping {

  /** One run: its key and its values in arrival order. */
  datatype Group<V> = Group(key: string, values: seq<V>)

  /** The pairs a run stands for. */
  function Pairs<V>(g: Group<V>): (r: seq<(string, V)>)
    ensures |r| == |g.values|
    ensures forall i :: 0 <= i < |r| ==> r[i] == (g.key, g.values[i])
  {
    seq(|g.values|, i requires 0 <= i < |g.values| => (g.key, g.values[i]))
  }

  /** The stream a sequence of runs stands for. */
  function Flatten<V>(gs: seq<Group<V>>): seq<(string, V)>
  {
    if gs == [] then [] else Flatten(gs[..|gs| - 1]) + Pairs(gs[|gs| - 1])
  }

  /** Runs that are non-empty and maximal: no two neighbours share a key. */
  predicate Maximal<V>(gs: seq<Group<V>>)
  {
    && (forall i :: 0 <= i < |gs| ==> gs[i].values != [])
    && (forall i :: 0 < i < |gs| ==> gs[i - 1].key != gs[i].key)
  }

  /** One more pair at the end of the stream: it joins the last run when the
      key is the same, and opens a new run otherwise. */
  function Extend<V>(gs: seq<Group<V>>, k: string, v: V): seq<Group<V>>
  {
    if gs != [] && gs[|gs| - 1].key == k
    then gs[..|gs| - 1] + [Group(k, gs[|gs| - 1].values + [v])]
    else gs + [Group(k, [v])]
  }

  /** The maximal runs of equal keys of a stream, in stream order. */
  function Runs<V>(s: seq<(string, V)>): (r: seq<Group<V>>)
    ensures |r| <= |s|
    ensures r == [] <==> s == []
    ensures forall i :: 0 <= i < |r| ==> r[i].values != []
  {
    if s == [] then [] else Extend(Runs(s[..|s| - 1]), s[|s| - 1].0, s[|s| - 1].1)
  }

  /** The last run carries the key of the last pair. */
  lemma RunsLast<V>(s: seq<(string, V)>)
    requires s != []
    ensures Runs(s)[|Runs(s)| - 1].key == s[|s| - 1].0
  {
  }

  /** `Runs` cuts the stream into maximal runs and loses or reorders nothing:
      the runs, put back together, are the stream. */
  lemma RunsCorrect<V>(s: seq<(string, V)>)
    ensures Flatten(Runs(s)) == s
    ensures Maximal(Runs(s))
  {
    RunsFlatten(s);
    RunsMaximal(s);
  }

  lemma {:induction false} RunsFlatten<V>(s: seq<(string, V)>)
    ensures Flatten(Runs(s)) == s
  {
    if s != [] {
      var init, last := s[..|s| - 1], s[|s| - 1];
      RunsFlatten(init);
      ExtendFlatten(Runs(init), last.0, last.1);
      SplitLast(s);
    }
  }

  lemma {:induction false} RunsMaximal<V>(s: seq<(string, V)>)
    ensures Maximal(Runs(s))
  {
    if s != [] {
      var init, last := s[..|s| - 1], s[|s| - 1];
      RunsMaximal(init);
      ExtendMaximal(Runs(init), last.0, last.1);
    }
  }

  lemma SplitLast<T>(s: seq<T>)
    requires s != []
    ensures s[..|s| - 1] + [s[|s| - 1]] == s
  {
  }

  lemma ExtendFlatten<V>(gs: seq<Group<V>>, k: string, v: V)
    ensures Flatten(Extend(gs, k, v)) == Flatten(gs) + [(k, v)]
  {
    var r := Extend(gs, k, v);
    if gs != [] && gs[|gs| - 1].key == k {
      var g := gs[|gs| - 1];
      var g' := Group(k, g.values + [v]);
      assert r[..|r| - 1] == gs[..|gs| - 1];
      assert Pairs(g') == Pairs(g) + [(k, v)];
    } else {
      assert r[..|r| - 1] == gs;
      assert Pairs(Group(k, [v])) == [(k, v)];
    }
  }

  lemma ExtendMaximal<V>(gs: seq<Group<V>>, k: string, v: V)
    requires Maximal(gs)
    ensures Maximal(Extend(gs, k, v))
  {
  }

  /** A pair whose key differs from the last one opens a new run. */
  lemma RunsNewKey<V>(s: seq<(string, V)>, k: string, v: V)
    requires s == [] || s[|s| - 1].0 != k
    ensures Runs(s + [(k, v)]) == Runs(s) + [Group(k, [v])]
  {
    if s != [] {
      RunsLast(s);
    }
    assert (s + [(k, v)])[..|s|] == s;
  }

  /** A pair whose key equals the last one joins the last run. */
  lemma RunsSameKey<V>(s: seq<(string, V)>, k: string, v: V)
    requires s != [] && s[|s| - 1].0 == k
    ensures var r := Runs(s);
            Runs(s + [(k, v)]) == r[..|r| - 1] + [Group(k, r[|r| - 1].values + [v])]
  {
    assert (s + [(k, v)])[..|s|] == s;
  }

  /** Maximal runs are unique: any decomposition of a stream into non-empty
      runs whose neighbours differ in key is the one `Runs` computes. */
  lemma {:induction false} RunsUnique<V>(gs: seq<Group<V>>, s: seq<(string, V)>)
    requires Maximal(gs) && Flatten(gs) == s
    ensures Runs(s) == gs
    decreases |s|
  {
    if gs != [] {
      var g := gs[|gs| - 1];
      var k, v := g.key, g.values[|g.values| - 1];
      var d := DropLast(gs);
      DropLastFacts(gs);
      RunsUnique(d, Flatten(d));
      RunsSnoc(Flatten(d), k, v);
    }
  }

  lemma RunsSnoc<V>(s: seq<(string, V)>, k: string, v: V)
    ensures Runs(s + [(k, v)]) == Extend(Runs(s), k, v)
  {
    assert (s + [(k, v)])[..|s|] == s;
  }

  /** The runs with the very last value taken away. */
  function DropLast<V>(gs: seq<Group<V>>): seq<Group<V>>
    requires gs != [] && gs[|gs| - 1].values != []
  {
    var g := gs[|gs| - 1];
    if |g.values| == 1 then gs[..|gs| - 1]
    else gs[..|gs| - 1] + [Group(g.key, g.values[..|g.values| - 1])]
  }

  lemma DropLastFacts<V>(gs: seq<Group<V>>)
    requires gs != [] && Maximal(gs)
    ensures var g := gs[|gs| - 1];
            var k, v := g.key, g.values[|g.values| - 1];
            && Maximal(DropLast(gs))
            && Flatten(gs) == Flatten(DropLast(gs)) + [(k, v)]
            && Extend(DropLast(gs), k, v) == gs
  {
    var init, g := gs[..|gs| - 1], gs[|gs| - 1];
    var k, vs := g.key, g.values;
    var front, v := vs[..|vs| - 1], vs[|vs| - 1];
    assert gs == init + [g];
    assert vs == front + [v];
    if |vs| == 1 {
      assert front == [];
      DropSingle(init, k, v);
    } else {
      DropOne(init, k, front, v);
    }
  }

  /** Taking away a last run of one value. */
  lemma DropSingle<V>(init: seq<Group<V>>, k: string, v: V)
    requires Maximal(init + [Group(k, [v])])
    ensures Maximal(init)
    ensures Flatten(init + [Group(k, [v])]) == Flatten(init) + [(k, v)]
    ensures Extend(init, k, v) == init + [Group(k, [v])]
  {
    var gs := init + [Group(k, [v])];
    assert forall i :: 0 <= i < |init| ==> init[i] == gs[i];
    FlattenSnoc(init, Group(k, [v]));
    assert Pairs(Group(k, [v])) == [(k, v)];
    if init != [] {
      assert gs[|init| - 1].key != gs[|init|].key;
    }
  }

  /** Taking away the last value of a last run of several values. */
  lemma DropOne<V>(init: seq<Group<V>>, k: string, front: seq<V>, v: V)
    requires front != [] && Maximal(init + [Group(k, front + [v])])
    ensures Maximal(init + [Group(k, front)])
    ensures Flatten(init + [Group(k, front + [v])]) == Flatten(init + [Group(k, front)]) + [(k, v)]
    ensures Extend(init + [Group(k, front)], k, v) == init + [Group(k, front + [v])]
  {
    var gs, d := init + [Group(k, front + [v])], init + [Group(k, front)];
    assert forall i :: 0 <= i < |init| ==> init[i] == gs[i] == d[i];
    FlattenSnoc(init, Group(k, front + [v]));
    FlattenSnoc(init, Group(k, front));
    assert Pairs(Group(k, front + [v])) == Pairs(Group(k, front)) + [(k, v)];
    assert d[..|d| - 1] == init;
  }

  lemma FlattenSnoc<V>(gs: seq<Group<V>>, g: Group<V>)
    ensures Flatten(gs + [g]) == Flatten(gs) + Pairs(g)
  {
    assert (gs + [g])[..|gs|] == gs;
  }

  /** Stream keys, in order. */
  function Keys<V>(s: seq<(string, V)>): (r: seq<string>)
    ensures |r| == |s| && forall i :: 0 <= i < |s| ==> r[i] == s[i].0
  {
    seq(|s|, i requires 0 <= i < |s| => s[i].0)
  }

  /** Run keys, in order. */
  function GroupKeys<V>(gs: seq<Group<V>>): (r: seq<string>)
    ensures |r| == |gs| && forall i :: 0 <= i < |gs| ==> r[i] == gs[i].key
  {
    seq(|gs|, i requires 0 <= i < |gs| => gs[i].key)
  }

  /** Every run key is a stream key and every stream key has a run. */
  lemma {:induction false} RunKeys<V>(s: seq<(string, V)>)
    ensures forall k :: k in GroupKeys(Runs(s)) <==> k in Keys(s)
  {
    if s != [] {
      var init := s[..|s| - 1];
      RunKeys(init);
      assert Keys(s) == Keys(init) + [s[|s| - 1].0];
      var gs := Runs(init);
      if gs != [] && gs[|gs| - 1].key == s[|s| - 1].0 {
        assert GroupKeys(Runs(s)) == GroupKeys(gs);
      } else {
        assert GroupKeys(Runs(s)) == GroupKeys(gs) + [s[|s| - 1].0];
      }
    }
  }

  /** The shuffle's guarantee: equal keys are delivered next to each other. */
  predicate KeysContiguous<V>(s: seq<(string, V)>)
  {
    forall i, j, m :: 0 <= i < j < m < |s| && s[i].0 == s[m].0 ==> s[j].0 == s[i].0
  }

  /** On a stream whose equal keys are contiguous there is exactly one run per
      distinct key: the run keys are pairwise different and they are all the
      stream's keys. */
  lemma OneRunPerKey<V>(s: seq<(string, V)>)
    requires KeysContiguous(s)
    ensures DistinctKeys(Runs(s))
    ensures forall k :: k in GroupKeys(Runs(s)) <==> k in Keys(s)
  {
    RunKeys(s);
    RunKeysDistinct(s);
  }

  /** No two runs share a key. */
  predicate DistinctKeys<V>(gs: seq<Group<V>>)
  {
    forall i, j :: 0 <= i < j < |gs| ==> gs[i].key != gs[j].key
  }

  lemma {:induction false} RunKeysDistinct<V>(s: seq<(string, V)>)
    requires KeysContiguous(s)
    ensures DistinctKeys(Runs(s))
  {
    if s != [] {
      var init, k, v := s[..|s| - 1], s[|s| - 1].0, s[|s| - 1].1;
      assert KeysContiguous(init) by {
        assert forall i :: 0 <= i < |init| ==> init[i] == s[i];
      }
      RunKeysDistinct(init);
      var gs := Runs(init);
      assert Runs(s) == Extend(gs, k, v);
      if !(gs != [] && gs[|gs| - 1].key == k) {
        if init != [] {
          RunsLast(init);
          NewKeyIsFresh(s);
        }
        RunKeys(init);
        ExtendDistinct(gs, k, v);
      } else {
        ExtendDistinct(gs, k, v);
      }
    }
  }

  lemma ExtendDistinct<V>(gs: seq<Group<V>>, k: string, v: V)
    requires DistinctKeys(gs)
    requires (gs != [] && gs[|gs| - 1].key == k) || k !in GroupKeys(gs)
    ensures DistinctKeys(Extend(gs, k, v))
  {
    var r := Extend(gs, k, v);
    assert |r| > 0;
    assert forall i :: 0 <= i < |r| - 1 ==> r[i] == gs[i];
    if !(gs != [] && gs[|gs| - 1].key == k) {
      assert forall i :: 0 <= i < |gs| ==> gs[i].key != k;
    }
  }

  /** On a contiguous stream, a key that differs from the one before it has
      not been seen earlier. */
  lemma NewKeyIsFresh<V>(s: seq<(string, V)>)
    requires KeysContiguous(s) && |s| >= 2 && s[|s| - 2].0 != s[|s| - 1].0
    ensures s[|s| - 1].0 !in Keys(s[..|s| - 1])
  {
  }

  /** Lexicographic order on keys, character by character (the shuffle's
      byte order on UTF-8 text is this order on code points). */
  predicate KeyLe(a: string, b: string)
  {
    if a == [] then true
    else if b == [] then false
    else if a[0] != b[0] then a[0] < b[0]
    else KeyLe(a[1..], b[1..])
  }

  lemma {:induction false} KeyLeAntisymmetric(a: string, b: string)
    requires KeyLe(a, b) && KeyLe(b, a)
    ensures a == b
  {
    if a != [] && b != [] {
      KeyLeAntisymmetric(a[1..], b[1..]);
      assert a == [a[0]] + a[1..] && b == [b[0]] + b[1..];
    }
  }

  lemma {:induction false} KeyLeTransitive(a: string, b: string, c: string)
    requires KeyLe(a, b) && KeyLe(b, c)
    ensures KeyLe(a, c)
  {
    if a != [] && b != [] && c != [] && a[0] == b[0] && b[0] == c[0] {
      KeyLeTransitive(a[1..], b[1..], c[1..]);
    }
  }

  /** Keys in ascending order, as the shuffle delivers them. */
  predicate KeysSorted<V>(s: seq<(string, V)>)
  {
    forall i, j :: 0 <= i < j < |s| ==> KeyLe(s[i].0, s[j].0)
  }

  /** A sorted stream has its equal keys next to each other, so on sorted
      input there is one run per distinct key. */
  lemma SortedIsContiguous<V>(s: seq<(string, V)>)
    requires KeysSorted(s)
    ensures KeysContiguous(s)
  {
    forall i, j, m | 0 <= i < j < m < |s| && s[i].0 == s[m].0
      ensures s[j].0 == s[i].0
    {
      KeyLeAntisymmetric(s[i].0, s[j].0);
    }
  }

  /** The runs whose key is not the empty string, in order: the runs a
      reducer guarded by `if current_key:` reports. */
  function Named<V>(gs: seq<Group<V>>): (r: seq<Group<V>>)
    ensures |r| <= |gs|
  {
    if gs == [] then []
    else Named(gs[..|gs| - 1]) + (if gs[|gs| - 1].key != "" then [gs[|gs| - 1]] else [])
  }

  /** `Named` keeps exactly the runs with a non-empty key, each an unchanged
      run of the input, and keeps distinct keys distinct. */
  lemma {:induction false} NamedRuns<V>(gs: seq<Group<V>>)
    ensures forall i :: 0 <= i < |Named(gs)| ==> Named(gs)[i].key != "" && Named(gs)[i] in gs
    ensures forall k :: k in GroupKeys(Named(gs)) <==> k != "" && k in GroupKeys(gs)
    ensures DistinctKeys(gs) ==> DistinctKeys(Named(gs))
  {
    if gs != [] {
      var init, g := gs[..|gs| - 1], gs[|gs| - 1];
      NamedRuns(init);
      var n, ni := Named(gs), Named(init);
      assert GroupKeys(gs) == GroupKeys(init) + [g.key];
      assert forall x :: x in init ==> x in gs;
      if g.key != "" {
        assert n == ni + [g];
        assert GroupKeys(n) == GroupKeys(ni) + [g.key];
        if DistinctKeys(gs) {
          assert DistinctKeys(init);
          assert g.key !in GroupKeys(init);
        }
      } else {
        assert n == ni;
        if DistinctKeys(gs) {
          assert DistinctKeys(init);
        }
      }
    }
  }

  /** The values of the pairs with key `k`, in stream order. */
  function ValuesOf<V>(s: seq<(string, V)>, k: string): seq<V>
  {
    if s == [] then []
    else ValuesOf(s[..|s| - 1], k) + (if s[|s| - 1].0 == k then [s[|s| - 1].1] else [])
  }

  lemma {:induction false} ValuesOfAppend<V>(a: seq<(string, V)>, b: seq<(string, V)>, k: string)
    ensures ValuesOf(a + b, k) == ValuesOf(a, k) + ValuesOf(b, k)
    decreases |b|
  {
    if b == [] {
      assert a + b == a;
    } else {
      var init, last := b[..|b| - 1], b[|b| - 1];
      ValuesOfAppend(a, init, k);
      assert (a + b)[..|a + b| - 1] == a + init;
      assert (a + b)[|a + b| - 1] == last;
    }
  }

  /** A run holds the values of its own key and none of any other key. */
  lemma {:induction false} ValuesOfPairs<V>(g: Group<V>, k: string)
    ensures ValuesOf(Pairs(g), k) == if g.key == k then g.values else []
    decreases |g.values|
  {
    if g.values != [] {
      var vs := g.values;
      var front, v := vs[..|vs| - 1], vs[|vs| - 1];
      assert vs == front + [v];
      ValuesOfPairs(Group(g.key, front), k);
      PairsSnoc(g.key, front, v);
      ValuesOfSnoc(Pairs(Group(g.key, front)), (g.key, v), k);
    }
  }

  lemma PairsSnoc<V>(key: string, front: seq<V>, v: V)
    ensures Pairs(Group(key, front + [v])) == Pairs(Group(key, front)) + [(key, v)]
  {
  }

  lemma ValuesOfSnoc<V>(s: seq<(string, V)>, p: (string, V), k: string)
    ensures ValuesOf(s + [p], k) == ValuesOf(s, k) + (if p.0 == k then [p.1] else [])
  {
    assert (s + [p])[..|s|] == s;
  }

  /** A key no run carries has no values in the stream the runs stand for. */
  lemma {:induction false} FlattenMissingKey<V>(gs: seq<Group<V>>, k: string)
    requires k !in GroupKeys(gs)
    ensures ValuesOf(Flatten(gs), k) == []
  {
    if gs != [] {
      var init, g := gs[..|gs| - 1], gs[|gs| - 1];
      assert GroupKeys(gs) == GroupKeys(init) + [g.key];
      FlattenMissingKey(init, k);
      ValuesOfAppend(Flatten(init), Pairs(g), k);
      ValuesOfPairs(g, k);
    }
  }

  /** When no two runs share a key, a run's values are all the values of its
      key in the stream the runs stand for. */
  lemma {:induction false} FlattenValuesOf<V>(gs: seq<Group<V>>, i: nat)
    requires DistinctKeys(gs) && i < |gs|
    ensures ValuesOf(Flatten(gs), gs[i].key) == gs[i].values
  {
    var init, g := gs[..|gs| - 1], gs[|gs| - 1];
    var k := gs[i].key;
    assert DistinctKeys(init);
    ValuesOfAppend(Flatten(init), Pairs(g), k);
    ValuesOfPairs(g, k);
    if i == |gs| - 1 {
      assert forall j :: 0 <= j < |init| ==> init[j].key != k;
      FlattenMissingKey(init, k);
    } else {
      assert init[i] == gs[i];
      FlattenValuesOf(init, i);
    }
  }

  /** On a stream whose equal keys are contiguous, each run holds every value
      of its key, in stream order. */
  lemma RunHoldsAllValues<V>(s: seq<(string, V)>, i: nat)
    requires KeysContiguous(s) && i < |Runs(s)|
    ensures Runs(s)[i].values == ValuesOf(s, Runs(s)[i].key)
  {
    RunsCorrect(s);
    RunKeysDistinct(s);
    FlattenValuesOf(Runs(s), i);
  }
}

/** Generic table operations behind the pandas `groupby` reductions and row
    filters: the distinct keys of a table, and per-key sums and counts. */
module Grouping {
  import opened Tables

  /** No key occurs twice. */
  ghost predicate Distinct<K>(ks: seq<K>) {
    forall a, b :: 0 <= a < b < |ks| ==> ks[a] != ks[b]
  }

  /** Some row of the table has key `k`. */
  ghost predicate Occurs<R, K(!new)>(rows: seq<R>, key: R -> K, k: K) {
    exists n :: 0 <= n < |rows| && key(rows[n]) == k
  }

  /** The distinct keys of a table, each once, in order of first occurrence. */
  function DistinctKeys<R, K(==,!new)>(rows: seq<R>, key: R -> K): (ks: seq<K>)
    ensures Distinct(ks)
    ensures forall k :: k in ks <==> Occurs(rows, key, k)
    ensures |ks| <= |rows|
  {
    if |rows| == 0 then []
    else
      var init := rows[..|rows| - 1];
      var prev := DistinctKeys(init, key);
      var k := key(rows[|rows| - 1]);
      assert forall k' :: Occurs(rows, key, k') <==> Occurs(init, key, k') || k' == k by {
        forall k' | Occurs(init, key, k') ensures Occurs(rows, key, k') {
          var n :| 0 <= n < |init| && key(init[n]) == k';
          assert rows[n] == init[n];
        }
        forall k' | Occurs(rows, key, k') && k' != k ensures Occurs(init, key, k') {
          var n :| 0 <= n < |rows| && key(rows[n]) == k';
          assert n < |init| && init[n] == rows[n];
        }
      }
      if k in prev then prev else prev + [k]
  }

  /** Sum of `val` over the rows whose key is `k`. */
  function SumWhere<R, K(==,!new)>(rows: seq<R>, key: R -> K, k: K, val: R -> real): real {
    if |rows| == 0 then 0.0
    else
      SumWhere(rows[..|rows| - 1], key, k, val)
      + (if key(rows[|rows| - 1]) == k then val(rows[|rows| - 1]) else 0.0)
  }

  /** Number of rows whose key is `k`. */
  function CountWhere<R, K(==,!new)>(rows: seq<R>, key: R -> K, k: K): nat {
    if |rows| == 0 then 0
    else CountWhere(rows[..|rows| - 1], key, k) + (if key(rows[|rows| - 1]) == k then 1 else 0)
  }

  /** Sum of `val` over all rows. */
  function Total<R>(rows: seq<R>, val: R -> real): real {
    if |rows| == 0 then 0.0 else Total(rows[..|rows| - 1], val) + val(rows[|rows| - 1])
  }

  /** Sum over a list of keys of the per-key sums. */
  function SumOverKeys<R, K(==,!new)>(rows: seq<R>, key: R -> K, ks: seq<K>, val: R -> real): real {
    if |ks| == 0 then 0.0
    else SumOverKeys(rows, key, ks[..|ks| - 1], val) + SumWhere(rows, key, ks[|ks| - 1], val)
  }

  /** Mean of `val` over the rows whose key is `k` (zero for a key that does not occur). */
  function MeanWhere<R, K(==,!new)>(rows: seq<R>, key: R -> K, k: K, val: R -> real): real {
    var c := CountWhere(rows, key, k);
    if c == 0 then 0.0 else SumWhere(rows, key, k, val) / (c as real)
  }

  /** The rows satisfying `p`, in table order. */
  function Filter<T(!new)>(s: seq<T>, p: T -> bool): (r: seq<T>)
    ensures |r| <= |s|
    ensures forall x :: x in r <==> x in s && p(x)
  {
    if |s| == 0 then []
    else
      var init := s[..|s| - 1];
      assert s == init + [s[|s| - 1]];
      Filter(init, p) + (if p(s[|s| - 1]) then [s[|s| - 1]] else [])
  }

  /** Filtering distributes over concatenation, so it keeps table order. */
  lemma {:induction false} FilterAppend<T(!new)>(a: seq<T>, b: seq<T>, p: T -> bool)
    ensures Filter(a + b, p) == Filter(a, p) + Filter(b, p)
    decreases |b|
  {
    if |b| == 0 {
      assert a + b == a;
    } else {
      var b' := b[..|b| - 1];
      assert (a + b)[..|a + b| - 1] == a + b';
      assert (a + b)[|a + b| - 1] == b[|b| - 1];
      FilterAppend(a, b', p);
    }
  }

  /** A key that occurs in no row sums to zero. */
  lemma {:induction false} SumWhereAbsent<R, K(!new)>(rows: seq<R>, key: R -> K, k: K, val: R -> real)
    requires !Occurs(rows, key, k)
    ensures SumWhere(rows, key, k, val) == 0.0
  {
    if |rows| > 0 {
      var init := rows[..|rows| - 1];
      forall n | 0 <= n < |init| ensures key(init[n]) != k {
        assert init[n] == rows[n];
      }
      SumWhereAbsent(init, key, k, val);
    }
  }

  /** A key that occurs has a non-empty group, so its mean is a proper mean. */
  lemma {:induction false} CountWherePositive<R, K(!new)>(rows: seq<R>, key: R -> K, k: K)
    requires Occurs(rows, key, k)
    ensures CountWhere(rows, key, k) > 0
  {
    var init := rows[..|rows| - 1];
    if key(rows[|rows| - 1]) != k {
      var n :| 0 <= n < |rows| && key(rows[n]) == k;
      assert n < |init| && init[n] == rows[n];
      CountWherePositive(init, key, k);
    }
  }

  /** If every row of a group has value `c`, the group sums to `c` times its size. */
  lemma {:induction false} ConstantGroupSum<R, K(!new)>(rows: seq<R>, key: R -> K, k: K, val: R -> real, c: real)
    requires forall n :: 0 <= n < |rows| && key(rows[n]) == k ==> val(rows[n]) == c
    ensures SumWhere(rows, key, k, val) == c * (CountWhere(rows, key, k) as real)
  {
    if |rows| > 0 {
      var init := rows[..|rows| - 1];
      assert forall n :: 0 <= n < |init| ==> init[n] == rows[n];
      ConstantGroupSum(init, key, k, val, c);
    }
  }

  /** If every row of a non-empty group has value `c`, the group's mean is `c`. */
  lemma {:induction false} ConstantGroupMean<R, K(!new)>(rows: seq<R>, key: R -> K, k: K, val: R -> real, c: real)
    requires Occurs(rows, key, k)
    requires forall n :: 0 <= n < |rows| && key(rows[n]) == k ==> val(rows[n]) == c
    ensures MeanWhere(rows, key, k, val) == c
  {
    CountWherePositive(rows, key, k);
    ConstantGroupSum(rows, key, k, val, c);
    var cnt := CountWhere(rows, key, k) as real;
    var sum := SumWhere(rows, key, k, val);
    assert sum == c * cnt && cnt != 0.0;
    DivCancel(c, cnt);
    assert MeanWhere(rows, key, k, val) == sum / cnt;
    assert sum / cnt == (c * cnt) / cnt;
  }

  /** Dividing a product by a non-zero factor gives the other factor back. */
  lemma {:induction false} DivCancel(c: real, n: real)
    requires n != 0.0
    ensures (c * n) / n == c
  {
  }

  /** Appending one row adds its value to the sum over a distinct key list
      exactly when its key is in that list. */
  lemma {:induction false} SumOverKeysSnoc<R, K(!new)>(rows: seq<R>, key: R -> K, ks: seq<K>, val: R -> real)
    requires |rows| > 0 && Distinct(ks)
    ensures SumOverKeys(rows, key, ks, val)
      == SumOverKeys(rows[..|rows| - 1], key, ks, val)
         + (if key(rows[|rows| - 1]) in ks then val(rows[|rows| - 1]) else 0.0)
  {
    if |ks| > 0 {
      var ks' := ks[..|ks| - 1];
      assert Distinct(ks');
      SumOverKeysSnoc(rows, key, ks', val);
      var last := rows[|rows| - 1];
      assert key(last) in ks <==> key(last) in ks' || key(last) == ks[|ks| - 1];
      assert key(last) == ks[|ks| - 1] ==> key(last) !in ks';
    }
  }

  /** Grouping conserves the total: the per-key sums over the distinct keys add
      up to the sum over all rows. */
  lemma {:induction false} GroupTotal<R, K(!new)>(rows: seq<R>, key: R -> K, val: R -> real)
    ensures SumOverKeys(rows, key, DistinctKeys(rows, key), val) == Total(rows, val)
  {
    if |rows| > 0 {
      var init := rows[..|rows| - 1];
      var last := rows[|rows| - 1];
      var prev := DistinctKeys(init, key);
      GroupTotal(init, key, val);
      if key(last) in prev {
        SumOverKeysSnoc(rows, key, prev, val);
      } else {
        var ks := prev + [key(last)];
        assert ks[..|ks| - 1] == prev;
        SumOverKeysSnoc(rows, key, prev, val);
        assert !Occurs(init, key, key(last));
        SumWhereAbsent(init, key, key(last), val);
      }
    }
  }

  /** The concatenation, in table order, of the rows `f` produces for each row. */
  function ConcatMap<A, B>(s: seq<A>, f: A -> seq<B>): seq<B> {
    if |s| == 0 then [] else ConcatMap(s[..|s| - 1], f) + f(s[|s| - 1])
  }

  /** ConcatMap keeps table order: it distributes over concatenation. */
  lemma {:induction false} ConcatMapAppend<A, B>(s1: seq<A>, s2: seq<A>, f: A -> seq<B>)
    ensures ConcatMap(s1 + s2, f) == ConcatMap(s1, f) + ConcatMap(s2, f)
    decreases |s2|
  {
    if |s2| == 0 {
      assert s1 + s2 == s1;
    } else {
      var s2' := s2[..|s2| - 1];
      assert (s1 + s2)[..|s1 + s2| - 1] == s1 + s2';
      assert (s1 + s2)[|s1 + s2| - 1] == s2[|s2| - 1];
      ConcatMapAppend(s1, s2', f);
    }
  }

  /** A row for which `f` produces nothing can be dropped. */
  lemma {:induction false} ConcatMapSkip<A, B>(s1: seq<A>, a: A, s2: seq<A>, f: A -> seq<B>)
    requires f(a) == []
    ensures ConcatMap(s1 + [a] + s2, f) == ConcatMap(s1, f) + ConcatMap(s2, f)
  {
    var one := ConcatMap([a], f);
    assert [a][..0] == [];
    assert one == ConcatMap([], f) + f(a);
    assert one == [];
    ConcatMapAppend(s1, [a], f);
    var left := ConcatMap(s1 + [a], f);
    assert left == ConcatMap(s1, f) + one;
    assert left == ConcatMap(s1, f);
    ConcatMapAppend(s1 + [a], s2, f);
  }

  /** Every produced row comes from some input row. */
  lemma {:induction false} ConcatMapSound<A, B>(s: seq<A>, f: A -> seq<B>, b: B)
    requires b in ConcatMap(s, f)
    ensures exists n :: 0 <= n < |s| && b in f(s[n])
  {
    var init := s[..|s| - 1];
    if b in ConcatMap(init, f) {
      ConcatMapSound(init, f, b);
      var n :| 0 <= n < |init| && b in f(init[n]);
      assert init[n] == s[n];
    } else {
      assert b in f(s[|s| - 1]);
    }
  }

  /** Every row produced for an input row is in the concatenation. */
  lemma {:induction false} ConcatMapComplete<A, B>(s: seq<A>, f: A -> seq<B>, n: nat, b: B)
    requires n < |s| && b in f(s[n])
    ensures b in ConcatMap(s, f)
  {
    var init := s[..|s| - 1];
    if n < |init| {
      assert init[n] == s[n];
      ConcatMapComplete(init, f, n, b);
    }
  }

  /** Some row succeeds under `f`. */
  ghost predicate AnyOk<A, B>(s: seq<A>, f: A -> Result<B>) {
    exists n :: 0 <= n < |s| && f(s[n]).Ok?
  }

  /** The value of the last row that succeeds under `f`, or `prev` when none does. */
  function LastOk<A, B>(s: seq<A>, f: A -> Result<B>, prev: B): B {
    if |s| == 0 then prev
    else if f(s[|s| - 1]).Ok? then f(s[|s| - 1]).value
    else LastOk(s[..|s| - 1], f, prev)
  }

  /** LastOk is the value of the last successful row, and it is `prev` exactly
      when no row succeeds. */
  lemma {:induction false} LastOkIsLast<A, B>(s: seq<A>, f: A -> Result<B>, prev: B)
    ensures !AnyOk(s, f) ==> LastOk(s, f, prev) == prev
    ensures AnyOk(s, f) ==>
      exists n ::
        && 0 <= n < |s| && f(s[n]).Ok? && LastOk(s, f, prev) == f(s[n]).value
        && forall m :: n < m < |s| ==> f(s[m]).Err?
  {
    if |s| > 0 {
      var init := s[..|s| - 1];
      assert forall n :: 0 <= n < |init| ==> init[n] == s[n];
      LastOkIsLast(init, f, prev);
      if f(s[|s| - 1]).Err? {
        assert AnyOk(s, f) ==> AnyOk(init, f);
      }
    }
  }

  /** `f` applied to every element, in order. */
  function Map<A, B>(s: seq<A>, f: A -> B): (r: seq<B>)
    ensures |r| == |s|
    ensures forall i :: 0 <= i < |s| ==> r[i] == f(s[i])
  {
    if |s| == 0 then [] else Map(s[..|s| - 1], f) + [f(s[|s| - 1])]
  }

  /** One output row per key whose measure is that key's group sum: the output
      rows add up to the sum over the keys. */
  lemma {:induction false} MapTotal<R, K(!new), O>(rows: seq<R>, key: R -> K, val: R -> real, ks: seq<K>, f: K -> O, g: O -> real)
    requires forall k :: k in ks ==> g(f(k)) == SumWhere(rows, key, k, val)
    ensures Total(Map(ks, f), g) == SumOverKeys(rows, key, ks, val)
  {
    if |ks| > 0 {
      var ks' := ks[..|ks| - 1];
      assert forall k :: k in ks' ==> k in ks;
      MapTotal(rows, key, val, ks', f, g);
      assert Map(ks, f)[..|ks| - 1] == Map(ks', f);
    }
  }

  /** A measure that is another one scaled by a constant throughout a group
      sums to the scaled group sum. */
  lemma {:induction false} SumWhereScale<R, K(!new)>(rows: seq<R>, key: R -> K, k: K, val: R -> real, scaled: R -> real, c: real)
    requires forall n :: 0 <= n < |rows| && key(rows[n]) == k ==> scaled(rows[n]) == val(rows[n]) * c
    ensures SumWhere(rows, key, k, scaled) == SumWhere(rows, key, k, val) * c
  {
    if |rows| > 0 {
      var init := rows[..|rows| - 1];
      assert forall n :: 0 <= n < |init| ==> init[n] == rows[n];
      SumWhereScale(init, key, k, val, scaled, c);
    }
  }

  /** Dropping rows outside a group changes neither its sum nor its size. */
  lemma {:induction false} FilterKeepsGroup<R(!new), K(!new)>(rows: seq<R>, p: R -> bool, key: R -> K, k: K, val: R -> real)
    requires forall r :: key(r) == k ==> p(r)
    ensures SumWhere(Filter(rows, p), key, k, val) == SumWhere(rows, key, k, val)
    ensures CountWhere(Filter(rows, p), key, k) == CountWhere(rows, key, k)
  {
    if |rows| > 0 {
      var init := rows[..|rows| - 1];
      var last := rows[|rows| - 1];
      FilterKeepsGroup(init, p, key, k, val);
      var fi := Filter(init, p);
      if p(last) {
        var fr := fi + [last];
        assert Filter(rows, p) == fr;
        assert fr[..|fr| - 1] == fi;
        assert fr[|fr| - 1] == last;
      } else {
        assert fi + [] == fi;
        assert Filter(rows, p) == fi;
        assert key(last) != k;
        assert SumWhere(rows, key, k, val) == SumWhere(init, key, k, val);
        assert CountWhere(rows, key, k) == CountWhere(init, key, k);
      }
    }
  }

  /** A table whose rows all have key `k` is one group: its only key is `k`,
      and that group's sum and size are the table's. */
  lemma {:induction false} SingleGroup<R, K(!new)>(rows: seq<R>, key: R -> K, k: K, val: R -> real)
    requires |rows| > 0
    requires forall n :: 0 <= n < |rows| ==> key(rows[n]) == k
    ensures DistinctKeys(rows, key) == [k]
    ensures SumWhere(rows, key, k, val) == Total(rows, val)
    ensures CountWhere(rows, key, k) == |rows|
  {
    var init := rows[..|rows| - 1];
    assert forall n :: 0 <= n < |init| ==> init[n] == rows[n];
    if |init| > 0 {
      SingleGroup(init, key, k, val);
    }
  }

  /** A filter every row passes keeps the table as it is. */
  lemma {:induction false} FilterAllKept<T(!new)>(s: seq<T>, p: T -> bool)
    requires forall n :: 0 <= n < |s| ==> p(s[n])
    ensures Filter(s, p) == s
  {
    if |s| > 0 {
      var init := s[..|s| - 1];
      forall n | 0 <= n < |init| ensures p(init[n]) {
        assert init[n] == s[n];
      }
      FilterAllKept(init, p);
      assert p(s[|s| - 1]);
      assert Filter(s, p) == init + [s[|s| - 1]];
      InitLast(s);
    }
  }

  /** The outputs of the rows, each prepended to the outputs so far: the last
      row's output comes first. */
  function RevConcatMap<A, B>(s: seq<A>, f: A -> seq<B>): seq<B> {
    if |s| == 0 then [] else f(s[|s| - 1]) + RevConcatMap(s[..|s| - 1], f)
  }

  /** Prepending reverses the order of blocks of input. */
  lemma {:induction false} RevConcatMapAppend<A, B>(s1: seq<A>, s2: seq<A>, f: A -> seq<B>)
    ensures RevConcatMap(s1 + s2, f) == RevConcatMap(s2, f) + RevConcatMap(s1, f)
    decreases |s2|
  {
    if |s2| == 0 {
      assert s1 + s2 == s1;
    } else {
      var s2' := s2[..|s2| - 1];
      assert (s1 + s2)[..|s1 + s2| - 1] == s1 + s2';
      assert (s1 + s2)[|s1 + s2| - 1] == s2[|s2| - 1];
      RevConcatMapAppend(s1, s2', f);
    }
  }

  /** An element is in the prepended outputs exactly when some row produced it. */
  lemma {:induction false} RevConcatMapMember<A, B>(s: seq<A>, f: A -> seq<B>, b: B)
    ensures b in RevConcatMap(s, f) <==> exists n :: 0 <= n < |s| && b in f(s[n])
  {
    if |s| > 0 {
      var init := s[..|s| - 1];
      RevConcatMapMember(init, f, b);
      assert forall n :: 0 <= n < |init| ==> init[n] == s[n];
      if b !in f(s[|s| - 1]) && b !in RevConcatMap(init, f) {
        forall n | 0 <= n < |s| ensures b !in f(s[n]) {
          if n < |init| {
            assert s[n] == init[n];
          }
        }
      }
    }
  }

  /** The outputs of the rows, concatenated, are the selected rows mapped,
      when each row produces its image if selected and nothing otherwise. */
  lemma {:induction false} ConcatMapAsFilter<A(!new), B>(s: seq<A>, f: A -> seq<B>, p: A -> bool, g: A -> B)
    requires forall a :: f(a) == if p(a) then [g(a)] else []
    ensures ConcatMap(s, f) == Map(Filter(s, p), g)
  {
    if |s| > 0 {
      var init := s[..|s| - 1];
      var last := s[|s| - 1];
      ConcatMapAsFilter(init, f, p, g);
      var fi := Filter(init, p);
      if p(last) {
        assert Filter(s, p) == fi + [last];
        var m := Map(fi + [last], g);
        assert (fi + [last])[..|fi + [last]| - 1] == fi;
        assert m == Map(fi, g) + [g(last)];
      } else {
        assert Filter(s, p) == fi + [];
        assert fi + [] == fi;
      }
    }
  }

  /** A filter no row passes leaves nothing. */
  lemma {:induction false} FilterNone<T(!new)>(s: seq<T>, p: T -> bool)
    requires forall n :: 0 <= n < |s| ==> !p(s[n])
    ensures Filter(s, p) == []
  {
    if |s| > 0 {
      var init := s[..|s| - 1];
      assert forall n :: 0 <= n < |init| ==> init[n] == s[n];
      FilterNone(init, p);
    }
  }

  /** When no two rows both satisfy `p`, the filter keeps at most one row. */
  lemma {:induction false} FilterAtMostOne<T(!new)>(s: seq<T>, p: T -> bool)
    requires forall a, b :: 0 <= a < b < |s| && p(s[a]) ==> !p(s[b])
    ensures |Filter(s, p)| <= 1
  {
    if |s| > 0 {
      var init := s[..|s| - 1];
      var last := s[|s| - 1];
      assert forall n :: 0 <= n < |init| ==> init[n] == s[n];
      FilterAtMostOne(init, p);
      if p(last) {
        assert forall n :: 0 <= n < |init| ==> !p(init[n]);
        FilterNone(init, p);
      }
    }
  }

  /** Mapping rows to rows that carry the same measure keeps the total. */
  lemma {:induction false} TotalMap<A, B>(s: seq<A>, f: A -> B, g: B -> real, h: A -> real)
    requires forall a :: g(f(a)) == h(a)
    ensures Total(Map(s, f), g) == Total(s, h)
  {
    if |s| > 0 {
      var init := s[..|s| - 1];
      TotalMap(init, f, g, h);
      assert Map(s, f)[..|s| - 1] == Map(init, f);
    }
  }

  /** A row for which `f` produces nothing can be dropped from the prepended outputs. */
  lemma {:induction false} RevConcatMapSkip<A, B>(s1: seq<A>, a: A, s2: seq<A>, f: A -> seq<B>)
    requires f(a) == []
    ensures RevConcatMap(s1 + [a] + s2, f) == RevConcatMap(s1 + s2, f)
  {
    var one := RevConcatMap([a], f);
    assert [a][..0] == [];
    assert one == f(a) + RevConcatMap([], f);
    assert one == [];
    RevConcatMapAppend(s1, [a], f);
    var left := RevConcatMap(s1 + [a], f);
    assert left == one + RevConcatMap(s1, f);
    assert left == RevConcatMap(s1, f);
    RevConcatMapAppend(s1 + [a], s2, f);
    RevConcatMapAppend(s1, s2, f);
  }

  /** When every row produces exactly one output, the concatenation has one
      output per row, in row order. */
  lemma {:induction false} ConcatMapSingletons<A, B>(s: seq<A>, f: A -> seq<B>)
    requires forall n :: 0 <= n < |s| ==> |f(s[n])| == 1
    ensures |ConcatMap(s, f)| == |s|
    ensures forall n :: 0 <= n < |s| ==> ConcatMap(s, f)[n] == f(s[n])[0]
  {
    if |s| > 0 {
      var init := s[..|s| - 1];
      assert forall n :: 0 <= n < |init| ==> init[n] == s[n];
      ConcatMapSingletons(init, f);
    }
  }

  /** Appending one row appends its outputs. */
  lemma {:induction false} ConcatMapSnoc<A, B>(s: seq<A>, a: A, f: A -> seq<B>)
    ensures ConcatMap(s + [a], f) == ConcatMap(s, f) + f(a)
  {
    assert (s + [a])[..|s + [a]| - 1] == s;
  }

  /** A row that produces nothing everywhere produces nothing in total. */
  lemma {:induction false} ConcatMapEmpty<A, B>(s: seq<A>, f: A -> seq<B>)
    requires forall n :: 0 <= n < |s| ==> f(s[n]) == []
    ensures ConcatMap(s, f) == []
  {
    if |s| > 0 {
      var init := s[..|s| - 1];
      assert forall n :: 0 <= n < |init| ==> init[n] == s[n];
      ConcatMapEmpty(init, f);
    }
  }

  /** Appending one row prepends its outputs. */
  lemma {:induction false} RevConcatMapSnoc<A, B>(s: seq<A>, a: A, f: A -> seq<B>)
    ensures RevConcatMap(s + [a], f) == f(a) + RevConcatMap(s, f)
  {
    assert (s + [a])[..|s + [a]| - 1] == s;
  }

  /** Appending one row: some row succeeds exactly when one did before or the
      new one does. */
  lemma {:induction false} AnyOkSnoc<A, B>(s: seq<A>, a: A, f: A -> Result<B>)
    ensures AnyOk(s + [a], f) <==> AnyOk(s, f) || f(a).Ok?
  {
    var s' := s + [a];
    assert s'[|s|] == a;
    if AnyOk(s, f) {
      var n :| 0 <= n < |s| && f(s[n]).Ok?;
      assert s'[n] == s[n];
    }
    if AnyOk(s', f) && !f(a).Ok? {
      var n :| 0 <= n < |s'| && f(s'[n]).Ok?;
      assert n < |s| && s'[n] == s[n];
    }
  }

  /** Appending one row: the last success is the new row's value when it
      succeeds, and the last success before otherwise. */
  lemma {:induction false} LastOkSnoc<A, B>(s: seq<A>, a: A, f: A -> Result<B>, prev: B)
    ensures LastOk(s + [a], f, prev) == if f(a).Ok? then f(a).value else LastOk(s, f, prev)
  {
    assert (s + [a])[..|s + [a]| - 1] == s;
  }

  /** An output of a filter-then-map is the image of a kept row, and back. */
  lemma {:induction false} MapFilterMember<A(!new), B>(s: seq<A>, p: A -> bool, f: A -> B, y: B)
    ensures y in Map(Filter(s, p), f) <==> exists x :: x in s && p(x) && f(x) == y
  {
    var kept := Filter(s, p);
    var r := Map(kept, f);
    if y in r {
      var n :| 0 <= n < |r| && r[n] == y;
      assert kept[n] in kept;
    }
    if exists x :: x in s && p(x) && f(x) == y {
      var x :| x in s && p(x) && f(x) == y;
      assert x in kept;
      var n :| 0 <= n < |kept| && kept[n] == x;
      assert r[n] == y;
    }
  }

  /** A sequence of at most one element holding `x` is `[x]`. */
  lemma {:induction false} OnlyElement<T>(s: seq<T>, x: T)
    requires |s| <= 1 && x in s
    ensures s == [x]
  {
  }

  /** When exactly the element at `n` satisfies `p`, the filter is that element. */
  lemma {:induction false} FilterSingle<T(!new)>(s: seq<T>, p: T -> bool, n: nat)
    requires n < |s| && p(s[n])
    requires forall m :: 0 <= m < |s| && m != n ==> !p(s[m])
    ensures Filter(s, p) == [s[n]]
  {
    FilterAtMostOne(s, p);
    assert s[n] in Filter(s, p);
    OnlyElement(Filter(s, p), s[n]);
  }

  /** Concatenation is associative. */
  lemma {:induction false} AppendAssoc<T>(a: seq<T>, b: seq<T>, c: seq<T>)
    ensures a + (b + c) == (a + b) + c
  {
  }

  /** A non-empty sequence is its prefix followed by its last element. */
  lemma {:induction false} InitLast<T>(s: seq<T>)
    requires |s| > 0
    ensures s == s[..|s| - 1] + [s[|s| - 1]]
  {
  }
}

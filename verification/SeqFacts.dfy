/** Facts about sequences seen as multisets, used where order is immaterial. */
module SeqFacts {

  lemma TakesOut<T>(items: seq<T>, k: nat)
    requires k < |items|
    ensures multiset(items) - multiset{items[k]} == multiset(items[..k] + items[k + 1..])
    ensures multiset(items) == multiset{items[k]} + multiset(items[..k] + items[k + 1..])
  {
    assert items == items[..k] + [items[k]] + items[k + 1..];
  }

  function Mapped<T, U>(f: T -> U, items: seq<T>): seq<U> {
    seq(|items|, i requires 0 <= i < |items| => f(items[i]))
  }

  lemma MappedTakesOut<T, U>(f: T -> U, items: seq<T>, k: nat)
    requires k < |items|
    ensures multiset(Mapped(f, items)) == multiset{f(items[k])} + multiset(Mapped(f, items[..k] + items[k + 1..]))
  {
    var whole := Mapped(f, items);
    assert Mapped(f, items[..k] + items[k + 1..]) == whole[..k] + whole[k + 1..];
    TakesOut(whole, k);
  }

  /** Applying a function item by item commutes with reordering. */
  lemma {:induction false} ReorderMapped<T, U>(f: T -> U, a: seq<T>, b: seq<T>)
    requires multiset(a) == multiset(b)
    ensures multiset(Mapped(f, a)) == multiset(Mapped(f, b))
  {
    SameLength(a, b);
    if a != [] {
      var k := WithoutHead(a, b);
      var rest := b[..k] + b[k + 1..];
      assert multiset(Mapped(f, a[1..])) == multiset(Mapped(f, rest)) by {
        ReorderMapped(f, a[1..], rest);
      }
      assert multiset(Mapped(f, a)) == multiset{f(a[0])} + multiset(Mapped(f, a[1..])) by {
        assert a[..0] + a[1..] == a[1..];
        MappedTakesOut(f, a, 0);
      }
      MappedTakesOut(f, b, k);
    }
  }

  lemma WithoutHead<T>(a: seq<T>, b: seq<T>) returns (k: nat)
    requires a != [] && multiset(a) == multiset(b)
    ensures k < |b| && b[k] == a[0]
    ensures multiset(a[1..]) == multiset(b[..k] + b[k + 1..])
  {
    assert a[0] in multiset(b);
    k :| 0 <= k < |b| && b[k] == a[0];
    assert a[..0] + a[1..] == a[1..];
    TakesOut(a, 0);
    TakesOut(b, k);
  }

  lemma SameLength<T>(a: seq<T>, b: seq<T>)
    requires multiset(a) == multiset(b)
    ensures |a| == |b|
  {
    assert |multiset(a)| == |a| && |multiset(b)| == |b|;
  }

  predicate Distinct<T(==)>(items: seq<T>) {
    forall i, j :: 0 <= i < j < |items| ==> items[i] != items[j]
  }

  lemma {:induction false} DistinctCounts<T>(items: seq<T>)
    ensures Distinct(items) <==> forall item :: multiset(items)[item] <= 1
  {
    if items != [] {
      var rest := items[1..];
      DistinctCounts(rest);
      assert items == [items[0]] + rest;
      DistinctHead(items[0], rest);
      assert Distinct(items) <==> Distinct(rest) && items[0] !in rest by {
        DistinctSplit([items[0]], rest);
      }
    }
  }

  lemma DistinctHead<T>(head: T, rest: seq<T>)
    ensures (forall item :: multiset([head] + rest)[item] <= 1)
       <==> (forall item :: multiset(rest)[item] <= 1) && head !in rest
  {
    assert multiset([head] + rest) == multiset{head} + multiset(rest);
    assert head in rest <==> head in multiset(rest);
    assert head in rest ==> multiset([head] + rest)[head] >= 2;
    assert forall item :: multiset(rest)[item] <= multiset([head] + rest)[item];
  }

  lemma DistinctSplit<T>(a: seq<T>, b: seq<T>)
    ensures Distinct(a + b) <==> Distinct(a) && Distinct(b) && forall i, j :: 0 <= i < |a| && 0 <= j < |b| ==> a[i] != b[j]
  {
    var whole := a + b;
    if Distinct(whole) {
      forall i, j | 0 <= i < j < |a| ensures a[i] != a[j] { assert whole[i] != whole[j]; }
      forall i, j | 0 <= i < j < |b| ensures b[i] != b[j] { assert whole[|a| + i] != whole[|a| + j]; }
      forall i, j | 0 <= i < |a| && 0 <= j < |b| ensures a[i] != b[j] { assert whole[i] != whole[|a| + j]; }
    }
  }

  /** Having no repeats does not depend on the order. */
  lemma DistinctReorder<T>(a: seq<T>, b: seq<T>)
    requires multiset(a) == multiset(b)
    ensures Distinct(a) <==> Distinct(b)
  {
    DistinctCounts(a);
    DistinctCounts(b);
  }
}

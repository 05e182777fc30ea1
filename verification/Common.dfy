/** Small vocabulary shared by every module of the model. */
module Common {
  datatype Option<+T> = None | Some(value: T)

  datatype Result<+T> = Ok(value: T) | Err(error: string)

  /** A Go byte. Strings whose bytes matter are `seq<byte>`; the others are `string`. */
  type byte = x: int | 0 <= x < 256

  function Min(a: int, b: int): int {
    if a <= b then a else b
  }

  function Max(a: int, b: int): int {
    if a <= b then b else a
  }

  function Elems<T>(s: seq<T>): set<T> {
    set x | x in s
  }

  ghost predicate NoDuplicates<T>(s: seq<T>) {
    forall i, j :: 0 <= i < j < |s| ==> s[i] != s[j]
  }

  /** `order` lists exactly the members of `s`, each once, in any order. */
  ghost predicate IsOrderOf<T>(order: seq<T>, s: set<T>) {
    NoDuplicates(order) && Elems(order) == s
  }

  lemma SubsetSize<T>(a: set<T>, b: set<T>)
    requires a <= b
    ensures |a| <= |b|
  {
    assert b == a + (b - a);
  }

  lemma SubsetOfSameSize<T>(a: set<T>, b: set<T>)
    requires a <= b && |a| == |b|
    ensures a == b
  {
    assert b == a + (b - a) && |b| == |a| + |b - a|;
  }

  lemma {:induction false} OrderSize<T>(order: seq<T>)
    requires NoDuplicates(order)
    ensures |Elems(order)| == |order|
  {
    if order == [] {
      assert Elems(order) == {};
    } else {
      var init, x := order[..|order| - 1], order[|order| - 1];
      OrderSize(init);
      assert Elems(order) == Elems(init) + {x};
      assert x !in init;
    }
  }

  lemma MemberOf<T>(s: set<T>) returns (x: T)
    requires s != {}
    ensures x in s
  {
    x :| x in s;
  }

  lemma MemberOutside<T>(a: set<T>, b: set<T>) returns (x: T)
    requires !(a <= b)
    ensures x in a && x !in b
  {
    x :| x in a && x !in b;
  }

  ghost function SomeKey<K, V>(m: map<K, V>): (k: K)
    requires m != map[]
    ensures k in m
  {
    var k :| k in m;
    k
  }

  lemma {:induction false} SomeOrder<T>(s: set<T>) returns (order: seq<T>)
    ensures IsOrderOf(order, s)
    decreases |s|
  {
    if s == {} {
      order := [];
      assert Elems(order) == {};
    } else {
      var x := MemberOf(s);
      var rest := SomeOrder(s - {x});
      order := rest + [x];
      assert Elems(order) == Elems(rest) + {x};
      assert forall k :: 0 <= k < |rest| ==> rest[k] in Elems(rest);
    }
  }
}

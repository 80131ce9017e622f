/** Small shared vocabulary: optional values, sizes, and the ordered-map idiom "first key". */
module Basics {

  datatype Option<+T> = None | Some(value: T)

  /** Width and height as plain integers (mir::geometry::Size). */
  datatype Size = Size(width: int, height: int)

  /** A buffer's id on the wire (rpc_id). */
  datatype Id = Id(rpc: int)

  lemma {:induction false} LeastExists(s: set<Id>)
    requires s != {}
    ensures exists m :: m in s && forall y :: y in s ==> m.rpc <= y.rpc
  {
    var x :| x in s;
    var rest := s - {x};
    if rest == {} {
      assert s == {x};
    } else {
      LeastExists(rest);
      var n :| n in rest && forall y :: y in rest ==> n.rpc <= y.rpc;
      var m := if n.rpc < x.rpc then n else x;
      forall y | y in s
        ensures m.rpc <= y.rpc
      {
        assert y == x || y in rest;
      }
    }
  }

  lemma LeastUnique(s: set<Id>)
    ensures forall a, b :: a in s && b in s && a.rpc <= b.rpc && b.rpc <= a.rpc ==> a == b
  {
  }

  /** The first key of an ordered map whose key set is `s`: where a walk over std::map begins. */
  function Least(s: set<Id>): (m: Id)
    requires s != {}
    ensures m in s && forall y :: y in s ==> m.rpc <= y.rpc
  {
    LeastExists(s);
    LeastUnique(s);
    var m :| m in s && forall y :: y in s ==> m.rpc <= y.rpc;
    m
  }

  lemma CardRemove<T>(s: set<T>, x: T)
    requires x in s
    ensures |s - {x}| == |s| - 1
  {
  }

  lemma CardSubset<T>(a: set<T>, b: set<T>)
    requires a <= b
    ensures |b - a| == |b| - |a|
    ensures |a| <= |b|
  {
    assert b == a + (b - a);
  }

  lemma RemoveKey<K, V>(m: map<K, V>, k: K)
    requires k in m
    ensures (m - {k}).Keys == m.Keys - {k}
    ensures |m - {k}| == |m| - 1
  {
    assert |m.Keys - {k}| == |m.Keys| - 1;
    assert |m - {k}| == |(m - {k}).Keys|;
  }

  lemma RemoveAbsent<K, V>(m: map<K, V>, k: K)
    requires k !in m
    ensures m - {k} == m
  {
  }

  lemma UpdateKey<K, V>(m: map<K, V>, k: K, v: V)
    ensures m[k := v].Keys == m.Keys + {k}
    ensures k in m ==> m[k := v].Keys == m.Keys
    ensures |m[k := v]| == if k in m then |m| else |m| + 1
  {
    assert |m[k := v]| == |m[k := v].Keys|;
    if k in m {
      assert m.Keys + {k} == m.Keys;
    }
  }

  lemma Overwritten<K, V>(m: map<K, V>, k: K, a: V, b: V)
    ensures m[k := a][k := b] == m[k := b]
  {
  }

  /** Erasing one more key from a map already stripped of `gone`. */
  lemma EraseOneMore<K, V>(m: map<K, V>, gone: set<K>, k: K)
    requires k in m && k !in gone && gone <= m.Keys
    ensures m - gone - {k} == m - (gone + {k})
    ensures |m - gone - {k}| == |m| - |gone + {k}|
    ensures |gone + {k}| == |gone| + 1
    ensures multiset(gone + {k}) == multiset(gone) + multiset{k}
  {
    CardSubset(gone + {k}, m.Keys);
    assert (m - (gone + {k})).Keys == m.Keys - (gone + {k});
    assert |m - (gone + {k})| == |(m - (gone + {k})).Keys|;
  }
}

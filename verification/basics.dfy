/** Shapes every other module builds on: an optional value, a JavaScript
    plain object seen as its ordered list of own properties, and the
    "first candidate that resolves" combinator the source uses for its
    alias chains (`a ?? b ?? c`, `a || b || c`, the env-priority loop). */
module Basics {

  datatype Option<+T> = None | Some(value: T)
  {
    /** `this ?? other` for a value that is either present or null. */
    function OrElse(other: Option<T>): Option<T>
    {
      if Some? then this else other
    }
  }

  /** A JavaScript object's own enumerable properties, in insertion order.
      Assigning to a key that is already present keeps its position. */
  type Dict<V> = seq<(string, V)>

  function Keys<V>(d: Dict<V>): seq<string>
  {
    seq(|d|, i requires 0 <= i < |d| => d[i].0)
  }

  function KeySet<V>(d: Dict<V>): set<string>
  {
    set i | 0 <= i < |d| :: d[i].0
  }

  /** No key occurs twice, as in any JavaScript object. */
  ghost predicate DistinctKeys<V>(d: Dict<V>)
  {
    forall i, j :: 0 <= i < j < |d| ==> d[i].0 != d[j].0
  }

  /** Position of the first property named `k`, or `|d|` when there is none. */
  function KeyIndex<V>(d: Dict<V>, k: string): (i: nat)
    ensures i <= |d|
    ensures i < |d| ==> d[i].0 == k
    ensures forall j :: 0 <= j < i ==> d[j].0 != k
  {
    if |d| == 0 then 0
    else if d[0].0 == k then 0
    else 1 + KeyIndex(d[1..], k)
  }

  lemma KeyIndexInKeySet<V>(d: Dict<V>, k: string)
    ensures KeyIndex(d, k) < |d| <==> k in KeySet(d)
  {
  }

  /** Property read `d[k]` restricted to own properties. */
  function Get<V>(d: Dict<V>, k: string): (r: Option<V>)
    ensures r.None? <==> k !in KeySet(d)
    ensures r.Some? ==> exists i :: 0 <= i < |d| && d[i] == (k, r.value)
  {
    var i := KeyIndex(d, k);
    KeyIndexInKeySet(d, k);
    if i < |d| then Some(d[i].1) else None
  }

  /** Property assignment `d[k] = v`. */
  function Put<V>(d: Dict<V>, k: string, v: V): (r: Dict<V>)
    ensures Get(r, k) == Some(v)
    ensures forall k' :: k' != k ==> Get(r, k') == Get(d, k')
    ensures KeySet(r) == KeySet(d) + {k}
    ensures k in KeySet(d) ==> Keys(r) == Keys(d)
    ensures k !in KeySet(d) ==> Keys(r) == Keys(d) + [k]
    ensures DistinctKeys(d) ==> DistinctKeys(r)
  {
    var i := KeyIndex(d, k);
    KeyIndexInKeySet(d, k);
    var r := if i < |d| then d[i := (k, v)] else d + [(k, v)];
    PutFacts(d, k, v, i, r);
    r
  }

  lemma PutFacts<V>(d: Dict<V>, k: string, v: V, i: nat, r: Dict<V>)
    requires i == KeyIndex(d, k)
    requires r == if i < |d| then d[i := (k, v)] else d + [(k, v)]
    ensures Get(r, k) == Some(v)
    ensures forall k' :: k' != k ==> Get(r, k') == Get(d, k')
    ensures KeySet(r) == KeySet(d) + {k}
    ensures k in KeySet(d) ==> Keys(r) == Keys(d)
    ensures k !in KeySet(d) ==> Keys(r) == Keys(d) + [k]
    ensures DistinctKeys(d) ==> DistinctKeys(r)
  {
    KeyIndexInKeySet(d, k);
    assert KeyIndex(r, k) == i by { KeyIndexUnique(r, k, i); }
    forall k' | k' != k ensures Get(r, k') == Get(d, k') {
      KeyIndexPrefix(d, r, k');
    }
    PutKeys(d, k, v, i, r);
  }

  lemma PutKeys<V>(d: Dict<V>, k: string, v: V, i: nat, r: Dict<V>)
    requires i == KeyIndex(d, k)
    requires r == if i < |d| then d[i := (k, v)] else d + [(k, v)]
    ensures KeySet(r) == KeySet(d) + {k}
    ensures i < |d| ==> Keys(r) == Keys(d)
    ensures i == |d| ==> Keys(r) == Keys(d) + [k]
    ensures DistinctKeys(d) ==> DistinctKeys(r)
  {
    if i < |d| {
      assert Keys(r) == Keys(d);
      assert KeySet(r) == KeySet(d) + {k} by {
        forall x | x in KeySet(r) ensures x in KeySet(d) {
          var j :| 0 <= j < |r| && r[j].0 == x;
          assert d[j].0 == x;
        }
        forall x | x in KeySet(d) ensures x in KeySet(r) {
          var j :| 0 <= j < |d| && d[j].0 == x;
          assert r[j].0 == x;
        }
      }
    } else {
      assert Keys(r) == Keys(d) + [k];
      assert KeySet(r) == KeySet(d) + {k} by {
        forall x | x in KeySet(r) ensures x in KeySet(d) + {k} {
          var j :| 0 <= j < |r| && r[j].0 == x;
          if j < |d| { assert d[j].0 == x; }
        }
        forall x | x in KeySet(d) ensures x in KeySet(r) {
          var j :| 0 <= j < |d| && d[j].0 == x;
          assert r[j].0 == x;
        }
        assert r[|d|].0 == k;
      }
    }
  }

  /** Lookups of a key other than the one written agree on both dicts when
      the written dict keeps every old key in place and adds nothing else
      before the first occurrence of `k'`. */
  lemma KeyIndexPrefix<V>(d: Dict<V>, r: Dict<V>, k': string)
    requires |d| <= |r|
    requires forall j :: 0 <= j < |d| ==> r[j].0 == d[j].0
    requires forall j :: 0 <= j < |d| && r[j] != d[j] ==> d[j].0 != k'
    requires forall j :: |d| <= j < |r| ==> r[j].0 != k'
    ensures Get(r, k') == Get(d, k')
  {
    var i := KeyIndex(d, k');
    KeyIndexInKeySet(d, k');
    KeyIndexInKeySet(r, k');
    if i < |d| {
      assert KeyIndex(r, k') == i by { KeyIndexUnique(r, k', i); }
    } else {
      assert KeyIndex(r, k') == |r| by { KeyIndexUnique(r, k', |r|); }
    }
  }

  lemma KeyIndexUnique<V>(d: Dict<V>, k: string, i: nat)
    requires i <= |d|
    requires i < |d| ==> d[i].0 == k
    requires forall j :: 0 <= j < i ==> d[j].0 != k
    ensures KeyIndex(d, k) == i
  {
  }

  lemma GetCons<V>(p: (string, V), d: Dict<V>, k: string)
    ensures Get([p] + d, k) == if p.0 == k then Some(p.1) else Get(d, k)
  {
    assert ([p] + d)[1..] == d;
  }

  /** An object literal whose properties are written only when present,
      as `JSON.stringify` drops `undefined` members. */
  function Present<V>(parts: seq<(string, Option<V>)>): (d: Dict<V>)
    ensures |d| <= |parts|
  {
    if |parts| == 0 then []
    else
      (match parts[0].1 case Some(v) => [(parts[0].0, v)] case None => []) + Present(parts[1..])
  }

  /** Reading a property of such a literal gives the value it was written
      with, or nothing when it was left out. */
  lemma {:induction false} PresentGet<V>(parts: seq<(string, Option<V>)>, i: nat)
    requires i < |parts|
    requires forall a, b :: 0 <= a < b < |parts| ==> parts[a].0 != parts[b].0
    ensures Get(Present(parts), parts[i].0) == parts[i].1
  {
    var k := parts[i].0;
    var rest := Present(parts[1..]);
    if i > 0 {
      PresentGet(parts[1..], i - 1);
      assert parts[1..][i - 1] == parts[i];
      assert parts[0].0 != k;
      match parts[0].1
      case Some(v) => GetCons((parts[0].0, v), rest, k);
      case None => assert Present(parts) == rest;
    } else {
      match parts[0].1
      case Some(v) => GetCons((k, v), rest, k);
      case None =>
        forall j | 0 <= j < |rest| ensures rest[j].0 != k {
          PresentKeys(parts[1..], j);
        }
        assert k !in KeySet(rest);
        assert Present(parts) == rest;
    }
  }

  lemma {:induction false} PresentKeys<V>(parts: seq<(string, Option<V>)>, j: nat)
    requires j < |Present(parts)|
    ensures exists a :: 0 <= a < |parts| && parts[a].0 == Present(parts)[j].0
  {
    var head := match parts[0].1 case Some(v) => [(parts[0].0, v)] case None => [];
    if j < |head| {
      assert Present(parts)[j].0 == parts[0].0;
    } else {
      assert Present(parts)[j] == Present(parts[1..])[j - |head|];
      PresentKeys(parts[1..], j - |head|);
      var a :| 0 <= a < |parts[1..]| && parts[1..][a].0 == Present(parts[1..])[j - |head|].0;
      assert parts[a + 1] == parts[1..][a];
    }
  }

  /** The properties for which `f` yields something, with what it
      yields, in their original order. */
  function KeepValues<A, B>(d: Dict<A>, f: A -> Option<B>): (r: Dict<B>)
    ensures |r| <= |d|
    ensures forall j :: 0 <= j < |r| ==>
              exists i :: 0 <= i < |d| && d[i].0 == r[j].0 && f(d[i].1) == Some(r[j].1)
    ensures forall i :: 0 <= i < |d| && f(d[i].1).Some? ==> (d[i].0, f(d[i].1).value) in r
  {
    if |d| == 0 then []
    else
      var head := match f(d[0].1) case Some(t) => [(d[0].0, t)] case None => [];
      var rest := KeepValues(d[1..], f);
      var r := head + rest;
      assert forall j :: 0 <= j < |r| ==>
               exists i :: 0 <= i < |d| && d[i].0 == r[j].0 && f(d[i].1) == Some(r[j].1) by {
        forall j | 0 <= j < |r|
          ensures exists i :: 0 <= i < |d| && d[i].0 == r[j].0 && f(d[i].1) == Some(r[j].1) {
          if j >= |head| {
            assert r[j] == rest[j - |head|];
            var i :| 0 <= i < |d[1..]| && d[1..][i].0 == r[j].0 && f(d[1..][i].1) == Some(r[j].1);
            assert d[i + 1] == d[1..][i];
          }
        }
      }
      assert forall i :: 0 <= i < |d| && f(d[i].1).Some? ==> (d[i].0, f(d[i].1).value) in r by {
        forall i | 0 <= i < |d| && f(d[i].1).Some? ensures (d[i].0, f(d[i].1).value) in r {
          if i > 0 { assert d[i] == d[1..][i - 1]; }
        }
      }
      r
  }

  /** Order is kept: filtering two consecutive runs of properties gives
      the survivors of the first followed by those of the second. */
  lemma {:induction false} KeepValuesAppend<A, B>(a: Dict<A>, b: Dict<A>, f: A -> Option<B>)
    ensures KeepValues(a + b, f) == KeepValues(a, f) + KeepValues(b, f)
  {
    if |a| == 0 {
      assert a + b == b;
    } else {
      assert (a + b)[0] == a[0];
      assert (a + b)[1..] == a[1..] + b;
      KeepValuesAppend(a[1..], b, f);
    }
  }

  /** The present values, in order. */
  function Somes<T(!new)>(items: seq<Option<T>>): (r: seq<T>)
    ensures |r| <= |items|
    ensures forall x :: x in r <==> Some(x) in items
    ensures |items| == 1 ==> r == (if items[0].Some? then [items[0].value] else [])
  {
    if |items| == 0 then []
    else
      var rest := Somes(items[1..]);
      assert forall x :: Some(x) in items <==> Some(x) == items[0] || Some(x) in items[1..] by {
        assert items == [items[0]] + items[1..];
      }
      (match items[0] case Some(x) => [x] case None => []) + rest
  }

  /** `Somes` keeps the order of its input: it distributes over concatenation. */
  lemma {:induction false} SomesAppend<T(!new)>(a: seq<Option<T>>, b: seq<Option<T>>)
    ensures Somes(a + b) == Somes(a) + Somes(b)
  {
    if |a| == 0 {
      assert a + b == b;
    } else {
      assert (a + b)[0] == a[0];
      assert (a + b)[1..] == a[1..] + b;
      SomesAppend(a[1..], b);
    }
  }

  /** An item assigns `k` when it is present and carries that key. */
  predicate Assigns<V>(item: Option<(string, V)>, k: string)
  {
    item.Some? && item.value.0 == k
  }

  /** Performs the assignments `d[k] = v` of the present items, in order,
      starting from `{}`: the keys are those assigned, and each key holds
      the value of its last assignment. */
  function AssignAll<V>(items: seq<Option<(string, V)>>): (m: Dict<V>)
    ensures DistinctKeys(m)
    ensures forall k :: k in KeySet(m) <==> exists i :: 0 <= i < |items| && Assigns(items[i], k)
    ensures forall k :: k in KeySet(m) ==>
              exists i :: 0 <= i < |items| && items[i] == Some((k, Get(m, k).value))
                          && forall j :: i < j < |items| ==> !Assigns(items[j], k)
  {
    if |items| == 0 then []
    else
      var n := |items| - 1;
      var acc := AssignAll(items[..n]);
      var m := match items[n] case None => acc case Some(kv) => Put(acc, kv.0, kv.1);
      AssignStep(items, acc, m);
      m
  }

  /** A position that assigns a key of the folded object. */
  lemma SomeAssignment<V>(items: seq<Option<(string, V)>>, k: string) returns (i: nat)
    requires k in KeySet(AssignAll(items))
    ensures i < |items| && Assigns(items[i], k)
  {
    i :| 0 <= i < |items| && Assigns(items[i], k);
  }

  /** The position of the last assignment to a key of the folded object. */
  lemma LastAssignment<V>(items: seq<Option<(string, V)>>, k: string) returns (i: nat)
    requires k in KeySet(AssignAll(items))
    ensures i < |items| && items[i] == Some((k, Get(AssignAll(items), k).value))
    ensures forall j :: i < j < |items| ==> !Assigns(items[j], k)
  {
    i :| 0 <= i < |items| && items[i] == Some((k, Get(AssignAll(items), k).value))
         && forall j :: i < j < |items| ==> !Assigns(items[j], k);
  }

  ghost predicate AssignedBy<V>(m: Dict<V>, items: seq<Option<(string, V)>>)
  {
    DistinctKeys(m) && KeysAssigned(m, items) && LastWins(m, items)
  }

  ghost predicate KeysAssigned<V>(m: Dict<V>, items: seq<Option<(string, V)>>)
  {
    forall k :: k in KeySet(m) <==> exists i :: 0 <= i < |items| && Assigns(items[i], k)
  }

  ghost predicate LastWins<V>(m: Dict<V>, items: seq<Option<(string, V)>>)
  {
    forall k :: k in KeySet(m) ==>
      exists i :: 0 <= i < |items| && items[i] == Some((k, Get(m, k).value))
                  && forall j :: i < j < |items| ==> !Assigns(items[j], k)
  }

  /** One more assignment keeps `AssignedBy`. */
  lemma AssignStep<V>(items: seq<Option<(string, V)>>, acc: Dict<V>, m: Dict<V>)
    requires |items| > 0
    requires AssignedBy(acc, items[..|items| - 1])
    requires m == match items[|items| - 1] case None => acc case Some(kv) => Put(acc, kv.0, kv.1)
    ensures AssignedBy(m, items)
  {
    StepKeys(items, acc, m);
    StepLastWins(items, acc, m);
  }

  lemma StepKeys<V>(items: seq<Option<(string, V)>>, acc: Dict<V>, m: Dict<V>)
    requires |items| > 0
    requires KeysAssigned(acc, items[..|items| - 1])
    requires m == match items[|items| - 1] case None => acc case Some(kv) => Put(acc, kv.0, kv.1)
    ensures KeysAssigned(m, items)
  {
    var n := |items| - 1;
    assert forall i :: 0 <= i < n ==> items[..n][i] == items[i];
    forall k ensures k in KeySet(m) <==> exists i :: 0 <= i < |items| && Assigns(items[i], k) {
      if exists i :: 0 <= i < |items| && Assigns(items[i], k) {
        var i :| 0 <= i < |items| && Assigns(items[i], k);
        if i < n {
          assert Assigns(items[..n][i], k);
        }
      }
    }
  }

  lemma StepLastWins<V>(items: seq<Option<(string, V)>>, acc: Dict<V>, m: Dict<V>)
    requires |items| > 0
    requires LastWins(acc, items[..|items| - 1])
    requires m == match items[|items| - 1] case None => acc case Some(kv) => Put(acc, kv.0, kv.1)
    ensures LastWins(m, items)
  {
    var n := |items| - 1;
    forall k | k in KeySet(m)
      ensures exists i :: 0 <= i < |items| && items[i] == Some((k, Get(m, k).value))
                          && forall j :: i < j < |items| ==> !Assigns(items[j], k)
    {
      if items[n].Some? && k == items[n].value.0 {
        assert items[n] == Some((k, Get(m, k).value));
      } else {
        assert k in KeySet(acc);
        var i :| 0 <= i < n && items[..n][i] == Some((k, Get(acc, k).value))
                 && forall j :: i < j < n ==> !Assigns(items[..n][j], k);
        assert items[i] == Some((k, Get(m, k).value));
        forall j | i < j < |items| ensures !Assigns(items[j], k) {
          if j < n {
            assert !Assigns(items[..n][j], k);
          }
        }
      }
    }
  }

  /** Two assignments to the same key, A then B: only B's value remains. */
  lemma AssignTwice<V>(k: string, a: V, b: V)
    ensures AssignAll([Some((k, a)), Some((k, b))]) == [(k, b)]
  {
    assert [Some((k, a)), Some((k, b))][..1] == [Some((k, a))];
    assert [Some((k, a))][..0] == [];
    assert AssignAll([Some((k, a))]) == [(k, a)];
    assert KeyIndex([(k, a)], k) == 0;
  }

  /** The first candidate, in priority order, for which `f` yields a value. */
  function FirstSome<K, T>(candidates: seq<K>, f: K -> Option<T>): (r: Option<T>)
    ensures r.None? <==> forall i :: 0 <= i < |candidates| ==> f(candidates[i]).None?
    ensures r.Some? ==> exists i :: 0 <= i < |candidates| && f(candidates[i]) == r
                                   && forall j :: 0 <= j < i ==> f(candidates[j]).None?
  {
    if |candidates| == 0 then None
    else if f(candidates[0]).Some? then f(candidates[0])
    else
      var r := FirstSome(candidates[1..], f);
      assert r.Some? ==> exists i :: 0 <= i < |candidates| && f(candidates[i]) == r
                                     && forall j :: 0 <= j < i ==> f(candidates[j]).None? by {
        if r.Some? {
          var i :| 0 <= i < |candidates[1..]| && f(candidates[1..][i]) == r
                   && forall j :: 0 <= j < i ==> f(candidates[1..][j]).None?;
          forall j | 0 <= j < i + 1 ensures f(candidates[j]).None? {
            if j > 0 { assert candidates[j] == candidates[1..][j - 1]; }
          }
          assert f(candidates[i + 1]) == r;
        }
      }
      assert r.None? ==> forall i :: 0 <= i < |candidates| ==> f(candidates[i]).None? by {
        if r.None? {
          forall i | 0 <= i < |candidates| ensures f(candidates[i]).None? {
            if i > 0 { assert candidates[i] == candidates[1..][i - 1]; }
          }
        }
      }
      r
  }

  /** Whichever position resolves first decides the result: a later
      candidate can only matter when every earlier one failed. */
  lemma {:induction false} FirstSomeAppend<K, T>(a: seq<K>, b: seq<K>, f: K -> Option<T>)
    ensures FirstSome(a + b, f) == FirstSome(a, f).OrElse(FirstSome(b, f))
  {
    if |a| == 0 {
      assert a + b == b;
    } else {
      assert (a + b)[0] == a[0];
      assert (a + b)[1..] == a[1..] + b;
      FirstSomeAppend(a[1..], b, f);
    }
  }
}

/**
 * Ordinary JavaScript objects used as string-keyed records. Properties are kept
 * in creation order; `Object.keys`/`Object.entries` list array-index keys first,
 * in ascending numeric order, then the other keys in creation order.
 */
module JsObject {
  import opened Wrappers
  import opened Text

  /** The keys present in a property list. */
  function KeysOf<V>(s: seq<(string, V)>): set<string> {
    set i | 0 <= i < |s| :: s[i].0
  }

  /** No key occurs twice, as in any JavaScript object. */
  predicate DistinctKeys<V>(s: seq<(string, V)>) {
    forall i, j :: 0 <= i < j < |s| ==> s[i].0 != s[j].0
  }

  /** `o[k]` when `k in o`, else `undefined`. */
  function Get<V>(s: seq<(string, V)>, k: string): (r: Option<V>)
    ensures r.None? <==> k !in KeysOf(s)
  {
    if s == [] then None
    else if s[0].0 == k then Some(s[0].1)
    else
      assert KeysOf(s) == {s[0].0} + KeysOf(s[1..]) by {
        forall x | x in KeysOf(s) ensures x in {s[0].0} + KeysOf(s[1..]) {
          var i :| 0 <= i < |s| && s[i].0 == x;
          if i > 0 { assert s[1..][i - 1] == s[i]; }
        }
      }
      Get(s[1..], k)
  }

  lemma GetAt<V>(s: seq<(string, V)>, i: nat)
    requires DistinctKeys(s) && i < |s|
    ensures Get(s, s[i].0) == Some(s[i].1)
  {
    if i > 0 {
      assert s[1..][i - 1] == s[i];
      GetAt(s[1..], i - 1);
    }
  }

  lemma {:induction false} GetAppendNew<V>(s: seq<(string, V)>, k: string, v: V)
    requires k !in KeysOf(s)
    ensures Get(s + [(k, v)], k) == Some(v)
  {
    if s != [] {
      assert (s + [(k, v)])[1..] == s[1..] + [(k, v)];
      assert s[0] == (s + [(k, v)])[0];
      assert k !in KeysOf(s[1..]) by {
        forall i | 0 <= i < |s[1..]| ensures s[1..][i].0 != k { assert s[1..][i] == s[i + 1]; }
      }
      GetAppendNew(s[1..], k, v);
    }
  }

  /** `o[k] = v`: overwrites an existing property in place, or creates it at the end. */
  function Put<V>(s: seq<(string, V)>, k: string, v: V): (r: seq<(string, V)>)
    ensures k in KeysOf(s) ==> |r| == |s|
    ensures k in KeysOf(s) ==> forall i :: 0 <= i < |s| ==> r[i] == (if s[i].0 == k then (k, v) else s[i])
    ensures k !in KeysOf(s) ==> r == s + [(k, v)]
    ensures k in KeysOf(r)
  {
    if k in KeysOf(s) then
      seq(|s|, i requires 0 <= i < |s| => if s[i].0 == k then (k, v) else s[i])
    else
      var r := s + [(k, v)];
      assert r[|s|].0 == k;
      r
  }

  /** Reading `k` from a list whose `k` entries all hold `v`, key for key like `s`, gives `v`. */
  lemma {:induction false} GetReplaced<V>(s: seq<(string, V)>, t: seq<(string, V)>, k: string, v: V)
    requires |t| == |s| && k in KeysOf(s)
    requires forall i :: 0 <= i < |s| ==> t[i].0 == s[i].0
    requires forall i :: 0 <= i < |s| && s[i].0 == k ==> t[i].1 == v
    ensures Get(t, k) == Some(v)
  {
    if s[0].0 != k {
      var j :| 0 <= j < |s| && s[j].0 == k;
      assert s[1..][j - 1] == s[j];
      GetReplaced(s[1..], t[1..], k, v);
    }
  }

  /** Reading `k` is unaffected by changes to entries whose key is not `k`. */
  lemma {:induction false} GetUnchanged<V>(s: seq<(string, V)>, t: seq<(string, V)>, k: string)
    requires |t| == |s|
    requires forall i :: 0 <= i < |s| ==> t[i].0 == s[i].0
    requires forall i :: 0 <= i < |s| && s[i].0 == k ==> t[i] == s[i]
    ensures Get(t, k) == Get(s, k)
  {
    if s != [] && s[0].0 != k {
      GetUnchanged(s[1..], t[1..], k);
    }
  }

  /** Appending a property with another key does not change what `k` reads. */
  lemma {:induction false} GetAppendOther<V>(s: seq<(string, V)>, k: string, v: V, k2: string)
    requires k2 != k
    ensures Get(s + [(k, v)], k2) == Get(s, k2)
  {
    if s != [] {
      assert (s + [(k, v)])[1..] == s[1..] + [(k, v)];
      assert s[0] == (s + [(k, v)])[0];
      if s[0].0 != k2 {
        GetAppendOther(s[1..], k, v, k2);
      }
    }
  }

  /** After `o[k] = v`, `o[k]` reads `v` and every other key reads what it read before. */
  lemma GetPut<V>(s: seq<(string, V)>, k: string, v: V, k2: string)
    ensures Get(Put(s, k, v), k) == Some(v)
    ensures k2 != k ==> Get(Put(s, k, v), k2) == Get(s, k2)
  {
    var r := Put(s, k, v);
    if k in KeysOf(s) {
      GetReplaced(s, r, k, v);
      if k2 != k {
        GetUnchanged(s, r, k2);
      }
    } else {
      GetAppendNew(s, k, v);
      if k2 != k {
        GetAppendOther(s, k, v, k2);
      }
    }
  }

  /** Setting a property leaves every other key alone and keeps keys unique. */
  lemma PutKeys<V>(s: seq<(string, V)>, k: string, v: V)
    ensures KeysOf(Put(s, k, v)) == KeysOf(s) + {k}
    ensures DistinctKeys(s) ==> DistinctKeys(Put(s, k, v))
  {
    var r := Put(s, k, v);
    if k in KeysOf(s) {
      assert forall i :: 0 <= i < |s| ==> r[i].0 == s[i].0;
      assert KeysOf(r) == KeysOf(s);
    } else {
      assert r[|s|].0 == k;
      forall x | x in KeysOf(r) ensures x in KeysOf(s) + {k} {
        var i :| 0 <= i < |r| && r[i].0 == x;
        if i < |s| { assert r[i] == s[i]; }
      }
      forall x | x in KeysOf(s) ensures x in KeysOf(r) {
        var i :| 0 <= i < |s| && s[i].0 == x;
        assert r[i] == s[i];
      }
    }
  }

  /** Two property lists with the same keys position by position have the same key set. */
  lemma SameKeysAt<V, W>(e: seq<(string, V)>, p: seq<(string, W)>)
    requires |e| == |p| && forall j :: 0 <= j < |p| ==> e[j].0 == p[j].0
    ensures KeysOf(e) == KeysOf(p)
    ensures DistinctKeys(p) ==> DistinctKeys(e)
  {
    forall k | k in KeysOf(e) ensures k in KeysOf(p) {
      var j :| 0 <= j < |e| && e[j].0 == k;
      assert p[j].0 == k;
    }
    forall k | k in KeysOf(p) ensures k in KeysOf(e) {
      var j :| 0 <= j < |p| && p[j].0 == k;
      assert e[j].0 == k;
    }
  }

  /** `s.map(f)`. */
  function MapSeq<T, U>(f: T -> U, s: seq<T>): (r: seq<U>)
    ensures |r| == |s| && forall i :: 0 <= i < |s| ==> r[i] == f(s[i])
  {
    if s == [] then [] else [f(s[0])] + MapSeq(f, s[1..])
  }

  lemma MapSeqAppend<T, U>(f: T -> U, a: seq<T>, b: seq<T>)
    ensures MapSeq(f, a + b) == MapSeq(f, a) + MapSeq(f, b)
  {
  }

  /** Mapping two permutations of each other gives two permutations of each other. */
  lemma {:induction false} MapSeqPermutes<T, U>(f: T -> U, o: seq<T>, m: seq<T>)
    requires multiset(o) == multiset(m)
    ensures multiset(MapSeq(f, o)) == multiset(MapSeq(f, m))
    decreases |m|
  {
    if m != [] {
      var x := m[|m| - 1];
      assert x in multiset(o);
      var k :| 0 <= k < |o| && o[k] == x;
      var a, b, m' := o[..k], o[k + 1..], m[..|m| - 1];
      assert o == a + [x] + b;
      assert m == m' + [x];
      assert multiset(a + b) == multiset(m') by {
        MultisetMiddle(a, [x], b);
        assert multiset(m) == multiset(m') + multiset([x]);
        MultisetCancel(multiset(a + b), multiset(m'), multiset([x]));
      }
      var y := [f(x)];
      assert MapSeq(f, o) == MapSeq(f, a) + y + MapSeq(f, b) by {
        MapSeqAppend(f, a + [x], b);
        MapSeqAppend(f, a, [x]);
        assert MapSeq(f, [x]) == y;
      }
      assert MapSeq(f, m) == MapSeq(f, m') + y by {
        MapSeqAppend(f, m', [x]);
      }
      assert multiset(MapSeq(f, a) + MapSeq(f, b)) == multiset(MapSeq(f, m')) by {
        MapSeqPermutes(f, a + b, m');
        MapSeqAppend(f, a, b);
      }
      MultisetMiddle(MapSeq(f, a), y, MapSeq(f, b));
    }
  }

  lemma MultisetCancel<U>(p: multiset<U>, q: multiset<U>, y: multiset<U>)
    requires p + y == q + y
    ensures p == q
  {
    assert forall z :: p[z] == (p + y)[z] - y[z];
    assert forall z :: q[z] == (q + y)[z] - y[z];
  }

  lemma MultisetMiddle<U>(p: seq<U>, y: seq<U>, q: seq<U>)
    ensures multiset(p + y + q) == multiset(p + q) + multiset(y)
  {
    assert p + y + q == p + (y + q);
  }

  /** Setting the property just created overwrites its value and nothing else. */
  lemma PutLast<V>(s: seq<(string, V)>, k: string, v0: V, v: V)
    requires k !in KeysOf(s)
    ensures Put(s + [(k, v0)], k, v) == s + [(k, v)]
  {
    var o := s + [(k, v0)];
    assert o[|s|].0 == k;
    var r := Put(o, k, v);
    assert |r| == |o|;
    forall i | 0 <= i < |r| ensures r[i] == (s + [(k, v)])[i] {
      if i < |s| { assert o[i] == s[i] && s[i].0 != k; }
    }
  }

  /** An array index: the canonical decimal form of an integer in [0, 2^32 - 2]. */
  predicate IsArrayIndex(k: string) {
    && |k| > 0
    && (forall i :: 0 <= i < |k| ==> IsDigit(k[i]))
    && (k[0] == '0' ==> |k| == 1)
    && DigitsValue(k) <= 4294967294
  }

  /** Entries in non-decreasing order of `rank` of their keys. */
  predicate SortedBy<V>(rank: string -> nat, s: seq<(string, V)>) {
    forall i, j :: 0 <= i < j < |s| ==> rank(s[i].0) <= rank(s[j].0)
  }

  /** Inserts `e` before the first entry whose rank is not smaller. */
  function InsertBy<V>(rank: string -> nat, e: (string, V), s: seq<(string, V)>): (r: seq<(string, V)>)
    ensures multiset(r) == multiset(s) + multiset{e}
    ensures |r| == |s| + 1
  {
    if s == [] || rank(e.0) <= rank(s[0].0) then
      [e] + s
    else
      assert s == [s[0]] + s[1..];
      [s[0]] + InsertBy(rank, e, s[1..])
  }

  /** Stable insertion sort by `rank`. */
  function SortBy<V>(rank: string -> nat, s: seq<(string, V)>): (r: seq<(string, V)>)
    ensures multiset(r) == multiset(s)
    ensures |r| == |s|
  {
    if s == [] then []
    else
      assert s == [s[0]] + s[1..];
      InsertBy(rank, s[0], SortBy(rank, s[1..]))
  }

  /** Every entry of `InsertBy(rank, e, s)` ranks at least `b` when `e` and all of `s` do. */
  lemma InsertLowerBound<V>(rank: string -> nat, e: (string, V), s: seq<(string, V)>, b: nat)
    requires b <= rank(e.0)
    requires forall i :: 0 <= i < |s| ==> b <= rank(s[i].0)
    ensures forall i :: 0 <= i < |InsertBy(rank, e, s)| ==> b <= rank(InsertBy(rank, e, s)[i].0)
  {
    var t := InsertBy(rank, e, s);
    forall i | 0 <= i < |t| ensures b <= rank(t[i].0) {
      assert t[i] in multiset(t);
      if t[i] != e {
        assert t[i] in multiset(s);
        var k :| 0 <= k < |s| && s[k] == t[i];
      }
    }
  }

  lemma {:induction false} InsertSorted<V>(rank: string -> nat, e: (string, V), s: seq<(string, V)>)
    requires SortedBy(rank, s)
    ensures SortedBy(rank, InsertBy(rank, e, s))
  {
    if s != [] && rank(e.0) > rank(s[0].0) {
      var t := InsertBy(rank, e, s[1..]);
      assert SortedBy(rank, s[1..]) && forall i :: 0 <= i < |s[1..]| ==> rank(s[0].0) <= rank(s[1..][i].0) by {
        forall i | 0 <= i < |s[1..]| ensures rank(s[0].0) <= rank(s[1..][i].0) { assert s[1..][i] == s[i + 1]; }
      }
      InsertSorted(rank, e, s[1..]);
      InsertLowerBound(rank, e, s[1..], rank(s[0].0));
      ConsSorted(rank, s[0], t);
    }
  }

  lemma ConsSorted<V>(rank: string -> nat, x: (string, V), t: seq<(string, V)>)
    requires SortedBy(rank, t)
    requires forall i :: 0 <= i < |t| ==> rank(x.0) <= rank(t[i].0)
    ensures SortedBy(rank, [x] + t)
  {
    var r := [x] + t;
    forall i, j | 0 <= i < j < |r| ensures rank(r[i].0) <= rank(r[j].0) {
      if i > 0 { assert r[i] == t[i - 1] && r[j] == t[j - 1]; }
      else { assert r[j] == t[j - 1]; }
    }
  }

  lemma {:induction false} SortSortsBy<V>(rank: string -> nat, s: seq<(string, V)>)
    ensures SortedBy(rank, SortBy(rank, s))
  {
    if s != [] {
      SortSortsBy(rank, s[1..]);
      InsertSorted(rank, s[0], SortBy(rank, s[1..]));
    }
  }

  /** The entries whose key satisfies `p`, in their original order. */
  function Select<V>(p: string -> bool, s: seq<(string, V)>): (r: seq<(string, V)>)
    ensures forall i :: 0 <= i < |r| ==> p(r[i].0)
    ensures forall e :: e in r ==> e in s
  {
    if s == [] then [] else (if p(s[0].0) then [s[0]] else []) + Select(p, s[1..])
  }

  /** Negation of a key predicate. */
  function Not(p: string -> bool): string -> bool {
    k => !p(k)
  }

  /** The entries whose key is not an array index, in creation order. */
  function NamedEntries<V>(s: seq<(string, V)>): seq<(string, V)> {
    Select(Not(IsArrayIndex), s)
  }

  /** Selected entries first, sorted by `rank`, then the others in their original order. */
  function Hoist<V>(p: string -> bool, rank: string -> nat, s: seq<(string, V)>): seq<(string, V)> {
    SortBy(rank, Select(p, s)) + Select(Not(p), s)
  }

  /** The order in which `Object.keys`/`Object.entries` list an object's properties. */
  function OwnOrder<V>(s: seq<(string, V)>): seq<(string, V)> {
    Hoist(IsArrayIndex, DigitsValue, s)
  }

  lemma {:induction false} SplitMultiset<V>(p: string -> bool, s: seq<(string, V)>)
    ensures multiset(Select(p, s)) + multiset(Select(Not(p), s)) == multiset(s)
  {
    if s != [] {
      SplitMultiset(p, s[1..]);
      assert s == [s[0]] + s[1..];
    }
  }

  lemma {:induction false} SelectAppend<V>(p: string -> bool, a: seq<(string, V)>, b: seq<(string, V)>)
    ensures Select(p, a + b) == Select(p, a) + Select(p, b)
  {
    if a == [] {
      assert a + b == b;
    } else {
      assert (a + b)[1..] == a[1..] + b;
      SelectAppend(p, a[1..], b);
    }
  }

  lemma {:induction false} SelectAll<V>(p: string -> bool, s: seq<(string, V)>)
    requires forall i :: 0 <= i < |s| ==> p(s[i].0)
    ensures Select(p, s) == s
  {
    if s != [] { SelectAll(p, s[1..]); }
  }

  lemma {:induction false} SelectNone<V>(p: string -> bool, s: seq<(string, V)>)
    requires forall i :: 0 <= i < |s| ==> !p(s[i].0)
    ensures Select(p, s) == []
  {
    if s != [] { SelectNone(p, s[1..]); }
  }

  lemma {:induction false} SortSorted<V>(rank: string -> nat, s: seq<(string, V)>)
    requires SortedBy(rank, s)
    ensures SortBy(rank, s) == s
  {
    if s != [] {
      SortSorted(rank, s[1..]);
    }
  }

  lemma SameMultisetSameKeys<V>(a: seq<(string, V)>, b: seq<(string, V)>)
    requires multiset(a) == multiset(b)
    ensures KeysOf(a) == KeysOf(b)
    ensures forall e :: e in a <==> e in b
  {
    assert forall e :: e in a <==> e in multiset(a);
    assert forall e :: e in b <==> e in multiset(b);
    forall k | k in KeysOf(a) ensures k in KeysOf(b) {
      var i :| 0 <= i < |a| && a[i].0 == k;
      assert a[i] in b;
    }
    forall k | k in KeysOf(b) ensures k in KeysOf(a) {
      var i :| 0 <= i < |b| && b[i].0 == k;
      assert b[i] in a;
    }
  }

  lemma DistinctCons<V>(x: (string, V), t: seq<(string, V)>)
    requires x.0 !in KeysOf(t) && DistinctKeys(t)
    ensures DistinctKeys([x] + t)
  {
    var s := [x] + t;
    forall i, j | 0 <= i < j < |s| ensures s[i].0 != s[j].0 {
      assert s[j] == t[j - 1];
      if i > 0 { assert s[i] == t[i - 1]; }
    }
  }

  lemma DistinctTail<V>(s: seq<(string, V)>)
    requires s != [] && DistinctKeys(s)
    ensures s[0].0 !in KeysOf(s[1..]) && DistinctKeys(s[1..])
  {
    forall i | 0 <= i < |s[1..]| ensures s[1..][i].0 != s[0].0 {
      assert s[1..][i] == s[i + 1];
    }
  }

  lemma DistinctAppend<V>(a: seq<(string, V)>, b: seq<(string, V)>)
    requires DistinctKeys(a) && DistinctKeys(b) && KeysOf(a) !! KeysOf(b)
    ensures DistinctKeys(a + b)
  {
    var s := a + b;
    forall i, j | 0 <= i < j < |s| ensures s[i].0 != s[j].0 {
      if j >= |a| && i < |a| {
        assert s[i].0 in KeysOf(a) && s[j] == b[j - |a|];
      } else if i >= |a| {
        assert s[i] == b[i - |a|] && s[j] == b[j - |a|];
      }
    }
  }

  lemma KeysCons<V>(x: (string, V), t: seq<(string, V)>)
    ensures KeysOf([x] + t) == {x.0} + KeysOf(t)
  {
    var s := [x] + t;
    assert s[0] == x;
    forall k | k in KeysOf(s) ensures k in {x.0} + KeysOf(t) {
      var i :| 0 <= i < |s| && s[i].0 == k;
      if i > 0 { assert s[i] == t[i - 1]; }
    }
    forall k | k in KeysOf(t) ensures k in KeysOf(s) {
      var i :| 0 <= i < |t| && t[i].0 == k;
      assert s[i + 1] == t[i];
    }
  }

  lemma {:induction false} InsertDistinct<V>(rank: string -> nat, e: (string, V), s: seq<(string, V)>)
    requires DistinctKeys(s) && e.0 !in KeysOf(s)
    ensures DistinctKeys(InsertBy(rank, e, s))
  {
    if s == [] || rank(e.0) <= rank(s[0].0) {
      DistinctCons(e, s);
    } else {
      DistinctTail(s);
      KeysCons(s[0], s[1..]);
      assert s == [s[0]] + s[1..];
      InsertDistinct(rank, e, s[1..]);
      var t := InsertBy(rank, e, s[1..]);
      SameMultisetSameKeys(t, [e] + s[1..]);
      KeysCons(e, s[1..]);
      DistinctCons(s[0], t);
    }
  }

  lemma {:induction false} SortDistinct<V>(rank: string -> nat, s: seq<(string, V)>)
    requires DistinctKeys(s)
    ensures DistinctKeys(SortBy(rank, s))
  {
    if s != [] {
      DistinctTail(s);
      SortDistinct(rank, s[1..]);
      SameMultisetSameKeys(SortBy(rank, s[1..]), s[1..]);
      InsertDistinct(rank, s[0], SortBy(rank, s[1..]));
    }
  }

  lemma {:induction false} SelectDistinct<V>(p: string -> bool, s: seq<(string, V)>)
    requires DistinctKeys(s)
    ensures DistinctKeys(Select(p, s))
    ensures KeysOf(Select(p, s)) <= KeysOf(s)
  {
    if s != [] {
      DistinctTail(s);
      SelectDistinct(p, s[1..]);
      KeysCons(s[0], s[1..]);
      assert s == [s[0]] + s[1..];
      if p(s[0].0) {
        KeysCons(s[0], Select(p, s[1..]));
        DistinctCons(s[0], Select(p, s[1..]));
      } else {
        assert Select(p, s) == Select(p, s[1..]);
      }
    }
  }

  /** Hoisting permutes the entries and keeps distinct keys distinct. */
  lemma HoistPermutes<V>(p: string -> bool, rank: string -> nat, s: seq<(string, V)>)
    ensures multiset(Hoist(p, rank, s)) == multiset(s)
    ensures KeysOf(Hoist(p, rank, s)) == KeysOf(s)
    ensures DistinctKeys(s) ==> DistinctKeys(Hoist(p, rank, s))
  {
    var srt := SortBy(rank, Select(p, s));
    var rest := Select(Not(p), s);
    SplitMultiset(p, s);
    SameMultisetSameKeys(srt + rest, s);
    if DistinctKeys(s) {
      SelectDistinct(p, s);
      SelectDistinct(Not(p), s);
      SortDistinct(rank, Select(p, s));
      SameMultisetSameKeys(srt, Select(p, s));
      forall k | k in KeysOf(srt) ensures k !in KeysOf(rest) {
        var i :| 0 <= i < |srt| && srt[i].0 == k;
        assert srt[i] in multiset(srt);
      }
      DistinctAppend(srt, rest);
    }
  }

  /** Hoisting puts the selected keys first, in rank order, and leaves the others in place order. */
  lemma HoistOrders<V>(p: string -> bool, rank: string -> nat, s: seq<(string, V)>)
    ensures Select(Not(p), Hoist(p, rank, s)) == Select(Not(p), s)
    ensures forall i, j :: 0 <= i < j < |Hoist(p, rank, s)| && p(Hoist(p, rank, s)[j].0) ==>
              p(Hoist(p, rank, s)[i].0) && rank(Hoist(p, rank, s)[i].0) <= rank(Hoist(p, rank, s)[j].0)
  {
    var srt := SortBy(rank, Select(p, s));
    var rest := Select(Not(p), s);
    assert forall i :: 0 <= i < |srt| ==> p(srt[i].0) by {
      SameMultisetSameKeys(srt, Select(p, s));
      forall i | 0 <= i < |srt| ensures p(srt[i].0) { assert srt[i] in multiset(srt); }
    }
    assert Select(Not(p), srt + rest) == rest by {
      SelectAppend(Not(p), srt, rest);
      SelectNone(Not(p), srt);
      SelectAll(Not(p), rest);
    }
    SortSortsBy(rank, Select(p, s));
    SortedFirst(p, rank, srt, rest);
  }

  /** In a sorted selected part followed by the rest, selected entries come first and ascend. */
  lemma SortedFirst<V>(p: string -> bool, rank: string -> nat, srt: seq<(string, V)>, rest: seq<(string, V)>)
    requires forall i :: 0 <= i < |srt| ==> p(srt[i].0)
    requires forall i :: 0 <= i < |rest| ==> !p(rest[i].0)
    requires SortedBy(rank, srt)
    ensures forall i, j :: 0 <= i < j < |srt + rest| && p((srt + rest)[j].0) ==>
              p((srt + rest)[i].0) && rank((srt + rest)[i].0) <= rank((srt + rest)[j].0)
  {
    var r := srt + rest;
    forall i, j | 0 <= i < j < |r| && p(r[j].0) ensures p(r[i].0) && rank(r[i].0) <= rank(r[j].0) {
      assert j < |srt|;
      assert r[i] == srt[i] && r[j] == srt[j];
    }
  }

  /** Hoisting an already hoisted list changes nothing. */
  lemma HoistIdempotent<V>(p: string -> bool, rank: string -> nat, s: seq<(string, V)>)
    ensures Hoist(p, rank, Hoist(p, rank, s)) == Hoist(p, rank, s)
  {
    var srt := SortBy(rank, Select(p, s));
    var rest := Select(Not(p), s);
    assert forall i :: 0 <= i < |srt| ==> p(srt[i].0) by {
      SameMultisetSameKeys(srt, Select(p, s));
      forall i | 0 <= i < |srt| ensures p(srt[i].0) { assert srt[i] in multiset(srt); }
    }
    assert SortBy(rank, srt) == srt by {
      SortSortsBy(rank, Select(p, s));
      SortSorted(rank, srt);
    }
    HoistSplit(p, rank, srt, rest);
  }

  /** Hoisting a list that is already a sorted selected part followed by the rest changes nothing. */
  lemma HoistSplit<V>(p: string -> bool, rank: string -> nat, srt: seq<(string, V)>, rest: seq<(string, V)>)
    requires forall i :: 0 <= i < |srt| ==> p(srt[i].0)
    requires forall i :: 0 <= i < |rest| ==> !p(rest[i].0)
    requires SortBy(rank, srt) == srt
    ensures Hoist(p, rank, srt + rest) == srt + rest
  {
    assert Select(p, srt + rest) == srt by {
      SelectAppend(p, srt, rest);
      SelectAll(p, srt);
      SelectNone(p, rest);
    }
    assert Select(Not(p), srt + rest) == rest by {
      SelectAppend(Not(p), srt, rest);
      SelectNone(Not(p), srt);
      SelectAll(Not(p), rest);
    }
  }

  /**
   * `Object.entries` lists exactly the object's properties (a permutation of
   * creation order): array-index keys first and ascending, the other keys in
   * creation order; distinct keys stay distinct.
   */
  lemma OwnOrderSpec<V>(s: seq<(string, V)>)
    ensures multiset(OwnOrder(s)) == multiset(s)
    ensures KeysOf(OwnOrder(s)) == KeysOf(s)
    ensures NamedEntries(OwnOrder(s)) == NamedEntries(s)
    ensures forall i, j :: 0 <= i < j < |OwnOrder(s)| && IsArrayIndex(OwnOrder(s)[j].0) ==>
              IsArrayIndex(OwnOrder(s)[i].0) && DigitsValue(OwnOrder(s)[i].0) <= DigitsValue(OwnOrder(s)[j].0)
    ensures DistinctKeys(s) ==> DistinctKeys(OwnOrder(s))
  {
    HoistPermutes(IsArrayIndex, DigitsValue, s);
    HoistOrders(IsArrayIndex, DigitsValue, s);
  }

  /** Without array-index keys, an object lists its properties in creation order. */
  lemma OwnOrderNoIndices<V>(s: seq<(string, V)>)
    requires forall i :: 0 <= i < |s| ==> !IsArrayIndex(s[i].0)
    ensures OwnOrder(s) == s
  {
    SelectNone(IsArrayIndex, s);
    SelectAll(Not(IsArrayIndex), s);
  }

  /** Listing the entries of an object built from its own entries gives the same list. */
  lemma OwnOrderIdempotent<V>(s: seq<(string, V)>)
    ensures OwnOrder(OwnOrder(s)) == OwnOrder(s)
  {
    HoistIdempotent(IsArrayIndex, DigitsValue, s);
  }

  /** Keys strictly increasing under `f` along the list. */
  predicate IncreasingBy<V>(f: string -> int, s: seq<(string, V)>) {
    forall i, j :: 0 <= i < j < |s| ==> f(s[i].0) < f(s[j].0)
  }

  /** Ranks that agree on every key of `s` order it alike. */
  lemma IncreasingAgree<V>(f: string -> int, g: string -> int, s: seq<(string, V)>)
    requires IncreasingBy(g, s)
    requires forall i :: 0 <= i < |s| ==> f(s[i].0) == g(s[i].0)
    ensures IncreasingBy(f, s)
  {
  }

  /** Appending a key ranked above every present key keeps the list increasing. */
  lemma IncreasingSnoc<V>(f: string -> int, s: seq<(string, V)>, k: string, v: V)
    requires IncreasingBy(f, s)
    requires forall i :: 0 <= i < |s| ==> f(s[i].0) < f(k)
    ensures IncreasingBy(f, s + [(k, v)])
  {
    var e := s + [(k, v)];
    forall i, j | 0 <= i < j < |e| ensures f(e[i].0) < f(e[j].0) {
      assert e[i] == s[i];
      if j < |s| { assert e[j] == s[j]; }
    }
  }

  lemma {:induction false} SelectIncreasing<V>(p: string -> bool, f: string -> int, s: seq<(string, V)>)
    requires IncreasingBy(f, s)
    ensures IncreasingBy(f, Select(p, s))
  {
    if s != [] {
      assert IncreasingBy(f, s[1..]) by {
        forall i, j | 0 <= i < j < |s[1..]| ensures f(s[1..][i].0) < f(s[1..][j].0) {
          assert s[1..][i] == s[i + 1] && s[1..][j] == s[j + 1];
        }
      }
      SelectIncreasing(p, f, s[1..]);
      if p(s[0].0) {
        var t := Select(p, s[1..]);
        forall i | 0 <= i < |t| ensures f(s[0].0) < f(t[i].0) {
          assert t[i] in t;
          var k :| 0 <= k < |s[1..]| && s[1..][k] == t[i];
          assert s[k + 1] == t[i];
        }
      }
    }
  }

  /** Hoisting keeps the unselected keys in their original relative order. */
  lemma HoistKeepsOrder<V>(p: string -> bool, rank: string -> nat, f: string -> int, s: seq<(string, V)>)
    requires IncreasingBy(f, s)
    ensures forall i, j :: 0 <= i < j < |Hoist(p, rank, s)| && !p(Hoist(p, rank, s)[i].0) && !p(Hoist(p, rank, s)[j].0) ==>
              f(Hoist(p, rank, s)[i].0) < f(Hoist(p, rank, s)[j].0)
  {
    var srt := SortBy(rank, Select(p, s));
    var rest := Select(Not(p), s);
    var r := srt + rest;
    SameMultisetSameKeys(srt, Select(p, s));
    SelectIncreasing(Not(p), f, s);
    assert forall k :: 0 <= k < |srt| ==> p(srt[k].0) by {
      forall k | 0 <= k < |srt| ensures p(srt[k].0) { assert srt[k] in multiset(srt); }
    }
    forall i, j | 0 <= i < j < |r| && !p(r[i].0) && !p(r[j].0) ensures f(r[i].0) < f(r[j].0) {
      assert i >= |srt|;
      assert r[i] == rest[i - |srt|] && r[j] == rest[j - |srt|];
    }
  }

  /** Listing an object keeps its non-index keys in creation order. */
  lemma OwnOrderKeepsNamedOrder<V>(f: string -> int, s: seq<(string, V)>)
    requires IncreasingBy(f, s)
    ensures forall i, j :: 0 <= i < j < |OwnOrder(s)| && !IsArrayIndex(OwnOrder(s)[i].0) && !IsArrayIndex(OwnOrder(s)[j].0) ==>
              f(OwnOrder(s)[i].0) < f(OwnOrder(s)[j].0)
  {
    HoistKeepsOrder(IsArrayIndex, DigitsValue, f, s);
  }
}

/** Sequence and key-set utilities: order-preserving filtering (JavaScript's
    `Array.prototype.filter`), element-wise mapping, prefix and substring
    tests, and an ascending enumeration of a finite set of integer keys. */
module Seqs {

  /** Keeps, in their original order, exactly the elements satisfying `p`. */
  function Filter<T>(s: seq<T>, p: T -> bool): (r: seq<T>)
    ensures |r| <= |s|
    ensures forall i :: 0 <= i < |r| ==> p(r[i]) && r[i] in s
    ensures forall i :: 0 <= i < |s| && p(s[i]) ==> s[i] in r
    ensures multiset(r) <= multiset(s)
  {
    if |s| == 0 then []
    else
      assert s == [s[0]] + s[1..];
      if p(s[0]) then [s[0]] + Filter(s[1..], p) else Filter(s[1..], p)
  }

  /** Two successive filters are one filter by the conjunction `pq`. */
  lemma {:induction false} FilterFilter<T>(s: seq<T>, p: T -> bool, q: T -> bool, pq: T -> bool)
    requires forall i :: 0 <= i < |s| ==> pq(s[i]) == (p(s[i]) && q(s[i]))
    ensures Filter(Filter(s, p), q) == Filter(s, pq)
  {
    if |s| > 0 {
      FilterFilter(s[1..], p, q, pq);
    }
  }

  /** Filtering with a predicate that holds everywhere keeps everything. */
  lemma {:induction false} FilterAll<T>(s: seq<T>, p: T -> bool)
    requires forall i :: 0 <= i < |s| ==> p(s[i])
    ensures Filter(s, p) == s
  {
    if |s| > 0 {
      FilterAll(s[1..], p);
    }
  }

  function Map<T, U>(s: seq<T>, f: T -> U): (r: seq<U>)
    ensures |r| == |s|
    ensures forall i :: 0 <= i < |s| ==> r[i] == f(s[i])
  {
    seq(|s|, i requires 0 <= i < |s| => f(s[i]))
  }

  /** Filtering after mapping is mapping after filtering by the composed test `qf`. */
  lemma {:induction false} FilterMap<T, U>(s: seq<T>, f: T -> U, q: U -> bool, qf: T -> bool)
    requires forall i :: 0 <= i < |s| ==> qf(s[i]) == q(f(s[i]))
    ensures Filter(Map(s, f), q) == Map(Filter(s, qf), f)
  {
    if |s| > 0 {
      var x, rest := s[0], s[1..];
      assert s == [x] + rest;
      MapCons(x, rest, f);
      FilterCons(f(x), Map(rest, f), q);
      FilterCons(x, rest, qf);
      FilterMap(rest, f, q, qf);
      MapCons(x, Filter(rest, qf), f);
    }
  }

  /** Filtering a sequence with a given first element. */
  lemma FilterCons<T>(x: T, s: seq<T>, p: T -> bool)
    ensures Filter([x] + s, p) == if p(x) then [x] + Filter(s, p) else Filter(s, p)
  {
    assert ([x] + s)[0] == x && ([x] + s)[1..] == s;
  }

  lemma MapCons<T, U>(x: T, s: seq<T>, f: T -> U)
    ensures Map([x] + s, f) == [f(x)] + Map(s, f)
  {
    assert Map([x] + s, f)[0] == f(x);
    assert Map([x] + s, f)[1..] == Map(s, f);
  }

  /** Rows listed under distinct keys: the rows a filter keeps are as many
      as the keys whose test `q` holds, when `q` of each key agrees with `p`
      of its row. */
  lemma {:induction false} FilterCount<T>(ks: seq<int>, rows: seq<T>, p: T -> bool, q: int -> bool)
    requires |rows| == |ks| && Distinct(ks)
    requires forall i :: 0 <= i < |ks| ==> q(ks[i]) == p(rows[i])
    ensures |Filter(rows, p)| == |set k | k in ks && q(k)|
  {
    if |ks| == 0 {
      assert (set k | k in ks && q(k)) == {};
    } else {
      DistinctTail(ks);
      FilterCount(ks[1..], rows[1..], p, q);
      KeysWhereCount(ks, q);
      assert q(ks[0]) == p(rows[0]);
    }
  }

  lemma DistinctTail(ks: seq<int>)
    requires |ks| > 0 && Distinct(ks)
    ensures Distinct(ks[1..]) && ks[0] !in ks[1..]
  {
    var rest := ks[1..];
    forall i, j | 0 <= i < j < |rest|
      ensures rest[i] != rest[j]
    {
      assert rest[i] == ks[i + 1] && rest[j] == ks[j + 1];
    }
    forall j | 0 <= j < |rest|
      ensures rest[j] != ks[0]
    {
      assert rest[j] == ks[j + 1];
    }
  }

  /** Counting the keys that pass `q`, the first key separately. */
  lemma KeysWhereCount(ks: seq<int>, q: int -> bool)
    requires |ks| > 0 && ks[0] !in ks[1..]
    ensures |set k | k in ks && q(k)| == (if q(ks[0]) then 1 else 0) + |set k | k in ks[1..] && q(k)|
  {
    var all := set k | k in ks && q(k);
    var later := set k | k in ks[1..] && q(k);
    assert forall k :: k in ks <==> k == ks[0] || k in ks[1..] by {
      assert ks == [ks[0]] + ks[1..];
    }
    if q(ks[0]) {
      assert all == {ks[0]} + later;
    } else {
      assert all == later;
    }
  }

  /** JavaScript's `String.prototype.startsWith`. */
  predicate StartsWith<T(==)>(s: seq<T>, prefix: seq<T>) {
    |prefix| <= |s| && s[..|prefix|] == prefix
  }

  /** Substring containment, the meaning of SQL `LIKE '%needle%'`. */
  predicate Contains<T(==)>(s: seq<T>, needle: seq<T>)
    decreases |s|
  {
    StartsWith(s, needle) || (|s| > 0 && Contains(s[1..], needle))
  }

  predicate Distinct<T(==)>(s: seq<T>) {
    forall i, j :: 0 <= i < j < |s| ==> s[i] != s[j]
  }

  function Elems<T>(s: seq<T>): set<T> {
    set x | x in s
  }

  /** A list has at most as many different elements as entries, and exactly
      as many when no entry repeats. */
  lemma {:induction false} ElemsCard<T>(s: seq<T>)
    ensures |Elems(s)| <= |s|
    ensures |Elems(s)| == |s| <==> Distinct(s)
  {
    if |s| > 0 {
      var t := s[1..];
      ElemsCard(t);
      assert Elems(s) == {s[0]} + Elems(t);
      if s[0] in t {
        assert Elems(s) == Elems(t);
        var j :| 0 <= j < |t| && t[j] == s[0];
        assert s[0] == s[j + 1];
      } else {
        assert |Elems(s)| == |Elems(t)| + 1;
        if Distinct(t) {
          forall i, j | 0 <= i < j < |s|
            ensures s[i] != s[j]
          {
            if i > 0 {
              assert s[i] == t[i - 1] && s[j] == t[j - 1];
            } else {
              assert s[j] == t[j - 1];
            }
          }
        } else {
          var i, j :| 0 <= i < j < |t| && t[i] == t[j];
          assert s[i + 1] == s[j + 1];
        }
      }
    } else {
      assert Elems(s) == {};
    }
  }

  /** Every non-empty finite set of integers has a least element. */
  lemma LeastKey(s: set<int>)
    requires s != {}
    ensures exists m :: m in s && forall j :: j in s ==> m <= j
    decreases |s|
  {
    if forall y :: y !in s {
      assert false;
    }
    var x :| x in s;
    if s != {x} {
      LeastKey(s - {x});
      var m' :| m' in s - {x} && forall j :: j in s - {x} ==> m' <= j;
      var m := if x < m' then x else m';
      forall j | j in s
        ensures m <= j
      {
        if j != x {
          assert j in s - {x};
        }
      }
    }
  }

  /** The least element of a non-empty finite set of integers. */
  function Least(s: set<int>): (m: int)
    requires s != {}
    ensures m in s && forall j :: j in s ==> m <= j
  {
    LeastKey(s);
    var m :| m in s && forall j :: j in s ==> m <= j;
    m
  }

  /** The keys of a table in ascending order, each exactly once: the order in
      which this model lets the database return rows. */
  function SortedKeys(s: set<int>): (r: seq<int>)
    ensures |r| == |s|
    ensures forall k :: k in r <==> k in s
    ensures forall i, j :: 0 <= i < j < |r| ==> r[i] < r[j]
    ensures Distinct(r)
    decreases |s|
  {
    if s == {} then []
    else
      var m := Least(s);
      var rest := SortedKeys(s - {m});
      assert forall i :: 0 <= i < |rest| ==> m < rest[i] by {
        forall i | 0 <= i < |rest| ensures m < rest[i] {
          assert rest[i] in s - {m};
        }
      }
      [m] + rest
  }
}

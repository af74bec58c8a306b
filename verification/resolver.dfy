/** Single-row lookup and reference resolution.
    Reference resolution: `findActorsByIds`, `findGenresByIds` and
    `findMoviesByIds` all load the rows whose key is among the requested ids
    (`WHERE id IN (...)`), and return nothing without querying when the list
    is empty.  A resolver never fails; callers that need every id to exist
    compare the number of rows returned with the number of ids requested. */
module Resolver {
  import opened Common
  import opened Seqs

  /** `findOne({ where: { id } })` followed by the services' check
      `if (!row) throw new NotFoundException(...)`. */
  function Lookup<T>(table: map<int, T>, id: int, kind: Kind): (r: Result<T>)
    ensures r.Ok? <==> id in table
    ensures r.Ok? ==> r.value == table[id]
    ensures r.Err? ==> r.error == NotFound(kind)
  {
    if id in table then Ok(table[id]) else Err(NotFound(kind))
  }

  /** All rows of a table, in ascending key order: one entry per key. */
  function Rows<T(==)>(table: map<int, T>): (r: seq<T>)
    ensures |r| == |table|
    ensures forall i :: 0 <= i < |r| ==> r[i] == table[SortedKeys(table.Keys)[i]]
    ensures forall i :: 0 <= i < |r| ==> r[i] in table.Values
    ensures forall k :: k in table ==> table[k] in r
  {
    var ks := SortedKeys(table.Keys);
    var r := seq(|ks|, i requires 0 <= i < |ks| => table[ks[i]]);
    RowsComplete(table, ks, r);
    RowsSound(table, ks, r);
    r
  }

  lemma RowsSound<T>(table: map<int, T>, ks: seq<int>, r: seq<T>)
    requires forall i :: 0 <= i < |ks| ==> ks[i] in table
    requires |r| == |ks| && forall i :: 0 <= i < |ks| ==> r[i] == table[ks[i]]
    ensures forall i :: 0 <= i < |r| ==> r[i] in table.Values
  {
    forall i | 0 <= i < |r|
      ensures r[i] in table.Values
    {
      assert ks[i] in table;
    }
  }

  lemma RowsComplete<T>(table: map<int, T>, ks: seq<int>, r: seq<T>)
    requires forall i :: 0 <= i < |ks| ==> ks[i] in table
    requires forall k :: k in table ==> k in ks
    requires |r| == |ks| && forall i :: 0 <= i < |ks| ==> r[i] == table[ks[i]]
    ensures forall k :: k in table ==> table[k] in r
  {
    forall k | k in table
      ensures table[k] in r
    {
      var i :| 0 <= i < |ks| && ks[i] == k;
      assert r[i] == table[k];
    }
  }

  /** The rows of `table` whose key occurs in `ids`. */
  function FindByIds<T>(table: map<int, T>, ids: seq<int>): (r: map<int, T>)
    ensures forall k :: k in r <==> k in ids && k in table
    ensures forall k :: k in r ==> r[k] == table[k]
    ensures |ids| == 0 ==> r == map[]
  {
    if |ids| == 0 then map[]
    else map k | k in ids && k in table :: table[k]
  }

  /** `ids && ids.length > 0`: a list of ids was sent and is not empty,
      the condition under which actor and genre creation resolve movies. */
  predicate NonEmptyIds(ids: Option<seq<int>>) {
    ids.Some? && |ids.value| > 0
  }

  /** Every requested id names an existing row, and none is requested twice. */
  predicate ResolvesExactly<T>(table: map<int, T>, ids: seq<int>) {
    (forall i :: 0 <= i < |ids| ==> ids[i] in table) && Distinct(ids)
  }

  /** The callers' count check `rows.length !== ids.length` fails exactly
      when some id is unknown or some id is repeated. */
  lemma {:induction false} CountCheck<T>(table: map<int, T>, ids: seq<int>)
    ensures |FindByIds(table, ids)| == |ids| <==> ResolvesExactly(table, ids)
  {
    var r := FindByIds(table, ids);
    var e := Elems(ids);
    ElemsCard(ids);
    assert r.Keys <= e;
    assert e == r.Keys + (e - r.Keys);
    assert |e| == |r.Keys| + |e - r.Keys|;
    if ResolvesExactly(table, ids) {
      assert e - r.Keys == {};
    }
    if |r| == |ids| {
      assert |e - r.Keys| == 0;
      forall i | 0 <= i < |ids|
        ensures ids[i] in table
      {
        assert ids[i] in e;
      }
    }
  }

  /** When the count check passes, the associated keys are exactly the
      requested ids. */
  lemma ExactKeys<T>(table: map<int, T>, ids: seq<int>)
    requires ResolvesExactly(table, ids)
    ensures FindByIds(table, ids).Keys == Elems(ids)
  {
  }
}

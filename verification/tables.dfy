/**
 Folds that every line-by-line loop of the helpers shares: apply a parser to
 each line and stop at the first exception, and fill a Python dict by
 assigning key after key, so that a later assignment to a key replaces an
 earlier one.
 */
module Tables {
  import opened Results

  /** Element `i` is the first, at or after `from`, on which `f` raises, and it raises `e`. */
  ghost predicate FirstFailure<A, B>(xs: seq<A>, from: nat, f: A -> Result<B>, e: Error) {
    exists i :: from <= i < |xs| && f(xs[i]) == Err(e) && forall j :: from <= j < i ==> f(xs[j]).Ok?
  }

  /** `[f(x) for x in xs]`: every result in order, or the exception of the first element that raises. */
  function MapAll<A, B>(xs: seq<A>, f: A -> Result<B>): (r: Result<seq<B>>)
    ensures r.Ok? <==> forall i :: 0 <= i < |xs| ==> f(xs[i]).Ok?
    ensures r.Ok? ==> |r.value| == |xs| && forall i :: 0 <= i < |xs| ==> f(xs[i]) == Ok(r.value[i])
    ensures r.Err? ==> FirstFailure(xs, 0, f, r.error)
  {
    if |xs| == 0 then Ok([])
    else
      var y :- f(xs[0]);
      var ys := MapAll(xs[1..], f);
      MapAllStep(xs, f, y, ys);
      var rest :- ys;
      Ok([y] + rest)
  }

  lemma MapAllStep<A, B>(xs: seq<A>, f: A -> Result<B>, y: B, ys: Result<seq<B>>)
    requires |xs| > 0 && f(xs[0]) == Ok(y)
    requires ys.Ok? <==> forall i :: 0 <= i < |xs| - 1 ==> f(xs[1..][i]).Ok?
    requires ys.Ok? ==> |ys.value| == |xs| - 1 && forall i :: 0 <= i < |xs| - 1 ==> f(xs[1..][i]) == Ok(ys.value[i])
    requires ys.Err? ==> FirstFailure(xs[1..], 0, f, ys.error)
    ensures ys.Ok? <==> forall i :: 0 <= i < |xs| ==> f(xs[i]).Ok?
    ensures ys.Ok? ==> forall i :: 0 <= i < |xs| ==> f(xs[i]) == Ok(([y] + ys.value)[i])
    ensures ys.Err? ==> FirstFailure(xs, 0, f, ys.error)
  {
    if ys.Ok? {
      forall i | 0 < i < |xs|
        ensures f(xs[i]) == Ok(([y] + ys.value)[i])
      {
        assert xs[i] == xs[1..][i - 1];
      }
    } else {
      var k :| 0 <= k < |xs| - 1 && f(xs[1..][k]) == Err(ys.error) && forall j :: 0 <= j < k ==> f(xs[1..][j]).Ok?;
      assert xs[1..][k] == xs[k + 1];
      forall j | 0 <= j < k + 1
        ensures f(xs[j]).Ok?
      {
        if j > 0 {
          assert xs[j] == xs[1..][j - 1];
        }
      }
    }
  }

  /** `[x for x in xs if p(x)]`. */
  function Filter<T>(xs: seq<T>, p: T -> bool): (r: seq<T>)
    ensures |r| <= |xs|
    ensures forall i :: 0 <= i < |r| ==> r[i] in xs && p(r[i])
    ensures forall i :: 0 <= i < |xs| && p(xs[i]) ==> xs[i] in r
  {
    if |xs| == 0 then []
    else
      var rest := Filter(xs[1..], p);
      assert forall i :: 0 < i < |xs| ==> xs[i] == xs[1..][i - 1];
      if p(xs[0]) then [xs[0]] + rest else rest
  }

  /**
   Filtering keeps multiplicities: an element that passes occurs as often in
   the result as in the list, and nothing else occurs.
   */
  lemma {:induction false} FilterMultiset<T>(xs: seq<T>, p: T -> bool)
    ensures multiset(Filter(xs, p)) <= multiset(xs)
    ensures forall i :: 0 <= i < |xs| && p(xs[i]) ==> multiset(Filter(xs, p))[xs[i]] == multiset(xs)[xs[i]]
  {
    if |xs| > 0 {
      FilterMultiset(xs[1..], p);
      FilterStep(xs, p, Filter(xs[1..], p));
    }
  }

  /** One step of FilterMultiset: the counts for `xs[1..]` give the counts for `xs`. */
  lemma FilterStep<T>(xs: seq<T>, p: T -> bool, rest: seq<T>)
    requires |xs| > 0
    requires multiset(rest) <= multiset(xs[1..])
    requires forall i :: 0 <= i < |xs| - 1 && p(xs[1..][i]) ==> multiset(rest)[xs[1..][i]] == multiset(xs[1..])[xs[1..][i]]
    ensures var r := if p(xs[0]) then [xs[0]] + rest else rest;
      && multiset(r) <= multiset(xs)
      && (forall i :: 0 <= i < |xs| && p(xs[i]) ==> multiset(r)[xs[i]] == multiset(xs)[xs[i]])
  {
    var r := if p(xs[0]) then [xs[0]] + rest else rest;
    assert xs == [xs[0]] + xs[1..];
    assert multiset(xs) == multiset{xs[0]} + multiset(xs[1..]);
    assert multiset(r) == if p(xs[0]) then multiset{xs[0]} + multiset(rest) else multiset(rest);
    forall i | 0 <= i < |xs| && p(xs[i])
      ensures multiset(r)[xs[i]] == multiset(xs)[xs[i]]
    {
      if i > 0 {
        assert xs[i] == xs[1..][i - 1];
      } else if xs[0] !in xs[1..] {
        assert multiset(xs[1..])[xs[0]] == 0;
      } else {
        var j :| 0 <= j < |xs| - 1 && xs[1..][j] == xs[0];
      }
    }
  }

  /** Filtering a list that starts with `x`: `x` is kept exactly when it passes. */
  lemma FilterCons<T>(x: T, xs: seq<T>, p: T -> bool)
    ensures Filter([x] + xs, p) == if p(x) then [x] + Filter(xs, p) else Filter(xs, p)
  {
    assert ([x] + xs)[1..] == xs;
  }

  /** Filtering a two-element list. */
  lemma FilterPair<T>(a: T, b: T, p: T -> bool)
    ensures Filter([a, b], p) == (if p(a) then [a] else []) + (if p(b) then [b] else [])
  {
    FilterCons(b, [], p);
    assert [b] + [] == [b] && [a] + [b] == [a, b];
    FilterCons(a, [b], p);
  }

  /** Filtering a three-element list. */
  lemma FilterTriple<T>(a: T, b: T, c: T, p: T -> bool)
    ensures Filter([a, b, c], p) == (if p(a) then [a] else []) + (if p(b) then [b] else []) + (if p(c) then [c] else [])
  {
    FilterPair(b, c, p);
    assert [a] + [b, c] == [a, b, c];
    FilterCons(a, [b, c], p);
  }

  /**
   Filtering keeps the order of the elements: filtering a concatenation is
   concatenating the filtered parts.
   */
  lemma {:induction false} FilterAppend<T>(a: seq<T>, b: seq<T>, p: T -> bool)
    ensures Filter(a + b, p) == Filter(a, p) + Filter(b, p)
  {
    if |a| == 0 {
      assert a + b == b;
    } else {
      assert (a + b)[0] == a[0];
      assert (a + b)[1..] == a[1..] + b;
      FilterAppend(a[1..], b, p);
    }
  }

  /** A filter that every element passes changes nothing. */
  lemma FilterKeepsAll<T>(xs: seq<T>, p: T -> bool)
    requires forall i :: 0 <= i < |xs| ==> p(xs[i])
    ensures Filter(xs, p) == xs
  {
    if |xs| > 0 {
      assert forall i :: 0 <= i < |xs| - 1 ==> xs[1..][i] == xs[i + 1];
      FilterKeepsAll(xs[1..], p);
    }
  }

  /** A filter that no element passes leaves nothing. */
  lemma FilterDropsAll<T>(xs: seq<T>, p: T -> bool)
    requires forall i :: 0 <= i < |xs| ==> !p(xs[i])
    ensures Filter(xs, p) == []
  {
    if |xs| > 0 {
      assert forall i :: 0 <= i < |xs| - 1 ==> xs[1..][i] == xs[i + 1];
      FilterDropsAll(xs[1..], p);
    }
  }

  /** A filter that some element fails makes the list shorter. */
  lemma FilterShrinks<T>(xs: seq<T>, p: T -> bool)
    requires exists i :: 0 <= i < |xs| && !p(xs[i])
    ensures |Filter(xs, p)| < |xs|
  {
    assert forall i :: 0 < i < |xs| ==> xs[i] == xs[1..][i - 1];
    if p(xs[0]) {
      FilterShrinks(xs[1..], p);
    }
  }

  /** `zip(a, b)`: pairs up elements and stops at the end of the shorter list. */
  function Zip<A, B>(a: seq<A>, b: seq<B>): (r: seq<(A, B)>)
    ensures |r| == if |a| <= |b| then |a| else |b|
    ensures forall i :: 0 <= i < |r| ==> r[i] == (a[i], b[i])
  {
    if |a| == 0 || |b| == 0 then [] else [(a[0], b[0])] + Zip(a[1..], b[1..])
  }

  function KeysOf<K, V>(ps: seq<(K, V)>): set<K> {
    set i | 0 <= i < |ps| :: ps[i].0
  }

  /** No pair after position `i` has the key of pair `i`. */
  ghost predicate LastOfKey<K, V>(ps: seq<(K, V)>, i: int)
    requires 0 <= i < |ps|
  {
    forall j :: i < j < |ps| ==> ps[j].0 != ps[i].0
  }

  /**
   `for k, v in ps: m[k] = v`: the keys of `m` and of `ps`; a key of `ps`
   maps to the value of its last pair, any other key keeps its value in `m`.
   */
  function Assign<K(==), V>(m: map<K, V>, ps: seq<(K, V)>): (r: map<K, V>)
    ensures r.Keys == m.Keys + KeysOf(ps)
    ensures forall k :: k in m && k !in KeysOf(ps) ==> r[k] == m[k]
    ensures forall i :: 0 <= i < |ps| && LastOfKey(ps, i) ==> r[ps[i].0] == ps[i].1
    decreases |ps|
  {
    if |ps| == 0 then m
    else
      var r := Assign(m[ps[0].0 := ps[0].1], ps[1..]);
      AssignStep(m, ps, r);
      r
  }

  lemma AssignStep<K, V>(m: map<K, V>, ps: seq<(K, V)>, r: map<K, V>)
    requires |ps| > 0
    requires r.Keys == m[ps[0].0 := ps[0].1].Keys + KeysOf(ps[1..])
    requires forall k :: k in m[ps[0].0 := ps[0].1] && k !in KeysOf(ps[1..]) ==> r[k] == m[ps[0].0 := ps[0].1][k]
    requires forall i :: 0 <= i < |ps| - 1 && LastOfKey(ps[1..], i) ==> r[ps[1..][i].0] == ps[1..][i].1
    ensures r.Keys == m.Keys + KeysOf(ps)
    ensures forall k :: k in m && k !in KeysOf(ps) ==> r[k] == m[k]
    ensures forall i :: 0 <= i < |ps| && LastOfKey(ps, i) ==> r[ps[i].0] == ps[i].1
  {
    var tail := ps[1..];
    assert KeysOf(ps) == {ps[0].0} + KeysOf(tail) by {
      forall k | k in KeysOf(ps)
        ensures k in {ps[0].0} + KeysOf(tail)
      {
        var i :| 0 <= i < |ps| && ps[i].0 == k;
        if i > 0 {
          assert tail[i - 1] == ps[i];
        }
      }
      forall k | k in KeysOf(tail)
        ensures k in KeysOf(ps)
      {
        var i :| 0 <= i < |tail| && tail[i].0 == k;
        assert ps[i + 1] == tail[i];
      }
    }
    forall i | 0 <= i < |ps| && LastOfKey(ps, i)
      ensures r[ps[i].0] == ps[i].1
    {
      if i == 0 {
        forall k | k in KeysOf(tail)
          ensures k != ps[0].0
        {
          var j :| 0 <= j < |tail| && tail[j].0 == k;
          assert ps[j + 1] == tail[j];
        }
      } else {
        assert tail[i - 1] == ps[i];
        assert LastOfKey(tail, i - 1) by {
          forall j | i - 1 < j < |tail|
            ensures tail[j].0 != tail[i - 1].0
          {
            assert tail[j] == ps[j + 1];
          }
        }
      }
    }
  }

  /** `dict(ps)`: each key of `ps` maps to the value of its last pair. */
  function ToDict<K(==), V>(ps: seq<(K, V)>): (m: map<K, V>)
    ensures m.Keys == KeysOf(ps)
    ensures forall i :: 0 <= i < |ps| && LastOfKey(ps, i) ==> m[ps[i].0] == ps[i].1
  {
    Assign(map[], ps)
  }

  /** Line `i` parses, and no later line that parses has its key. */
  ghost predicate IsLastRow<A, K, V>(xs: seq<A>, row: A -> Result<(K, V)>, i: int)
    requires 0 <= i < |xs|
  {
    && row(xs[i]).Ok?
    && forall j :: i < j < |xs| && row(xs[j]).Ok? ==> row(xs[j]).value.0 != row(xs[i]).value.0
  }

  /**
   The loop `for line in xs[from:]: k, v = row(line); results[k] = v`: it
   raises the exception of the first line that does not parse; otherwise the
   keys are those of the lines and a key holds the value of its last line.
   */
  function BuildDict<A, K(==), V>(xs: seq<A>, from: nat, row: A -> Result<(K, V)>): (r: Result<map<K, V>>)
    requires from <= |xs|
    ensures r.Ok? <==> forall i :: from <= i < |xs| ==> row(xs[i]).Ok?
    ensures r.Err? ==> FirstFailure(xs, from, row, r.error)
    ensures r.Ok? ==> r.value.Keys == set i | from <= i < |xs| && row(xs[i]).Ok? :: row(xs[i]).value.0
    ensures r.Ok? ==> forall i :: from <= i < |xs| && IsLastRow(xs, row, i) ==> r.value[row(xs[i]).value.0] == row(xs[i]).value.1
  {
    var rows := MapAll(xs[from..], row);
    BuildDictShift(xs, from, row, rows);
    var ps :- rows;
    Ok(ToDict(ps))
  }

  lemma BuildDictShift<A, K, V>(xs: seq<A>, from: nat, row: A -> Result<(K, V)>, rows: Result<seq<(K, V)>>)
    requires from <= |xs| && rows == MapAll(xs[from..], row)
    ensures rows.Ok? <==> forall i :: from <= i < |xs| ==> row(xs[i]).Ok?
    ensures rows.Err? ==> FirstFailure(xs, from, row, rows.error)
    ensures rows.Ok? ==> KeysOf(rows.value) == set i | from <= i < |xs| && row(xs[i]).Ok? :: row(xs[i]).value.0
    ensures rows.Ok? ==> forall i :: from <= i < |xs| && IsLastRow(xs, row, i) ==> LastOfKey(rows.value, i - from) && rows.value[i - from] == row(xs[i]).value
  {
    var tail := xs[from..];
    forall i | from <= i < |xs|
      ensures tail[i - from] == xs[i]
    {
    }
    if rows.Err? {
      var k :| 0 <= k < |tail| && row(tail[k]) == Err(rows.error) && forall j :: 0 <= j < k ==> row(tail[j]).Ok?;
      assert row(xs[k + from]) == Err(rows.error);
      forall j | from <= j < k + from
        ensures row(xs[j]).Ok?
      {
        assert row(tail[j - from]).Ok?;
      }
    } else {
      var ps := rows.value;
      assert forall i :: from <= i < |xs| ==> row(xs[i]) == Ok(ps[i - from]);
      var keys := set i | from <= i < |xs| && row(xs[i]).Ok? :: row(xs[i]).value.0;
      forall k | k in KeysOf(ps)
        ensures k in keys
      {
        var i :| 0 <= i < |ps| && ps[i].0 == k;
        assert row(xs[i + from]) == Ok(ps[i]);
      }
      forall i | from <= i < |xs| && IsLastRow(xs, row, i)
        ensures LastOfKey(ps, i - from)
      {
        forall j | i - from < j < |ps|
          ensures ps[j].0 != ps[i - from].0
        {
          assert row(xs[j + from]) == Ok(ps[j]);
        }
      }
    }
  }

  /**
   When every row parses and a row's key is `name` of its line, the keys
   `BuildDict` reports are the names of the lines.
   */
  lemma KeysAreNames<A, K, V>(xs: seq<A>, row: A -> Result<(K, V)>, name: A -> K, keys: set<K>)
    requires keys == set i | 0 <= i < |xs| && row(xs[i]).Ok? :: row(xs[i]).value.0
    requires forall i :: 0 <= i < |xs| ==> row(xs[i]).Ok? && row(xs[i]).value.0 == name(xs[i])
    ensures keys == set i | 0 <= i < |xs| :: name(xs[i])
  {
    var names := set i | 0 <= i < |xs| :: name(xs[i]);
    forall k | k in names
      ensures k in keys
    {
      var i :| 0 <= i < |xs| && name(xs[i]) == k;
      assert row(xs[i]).value.0 == k;
    }
  }

  /** `BuildDict` over rows whose key is `name` of their line. */
  lemma BuildDictNamed<A, K, V>(xs: seq<A>, row: A -> Result<(K, V)>, name: A -> K)
    requires forall i :: 0 <= i < |xs| && row(xs[i]).Ok? ==> row(xs[i]).value.0 == name(xs[i])
    ensures BuildDict(xs, 0, row).Ok? ==> BuildDict(xs, 0, row).value.Keys == set i | 0 <= i < |xs| :: name(xs[i])
    ensures BuildDict(xs, 0, row).Ok? ==> forall i :: 0 <= i < |xs| && IsLastRow(xs, row, i)
                                                      ==> BuildDict(xs, 0, row).value[name(xs[i])] == row(xs[i]).value.1
  {
    var r := BuildDict(xs, 0, row);
    if r.Ok? {
      KeysAreNames(xs, row, name, r.value.Keys);
    }
  }

  /** A key that some line from `i` on produces is produced by a last line too. */
  lemma KeyHasLastRow<A, K, V>(xs: seq<A>, row: A -> Result<(K, V)>, i: nat) returns (last: nat)
    requires i < |xs| && row(xs[i]).Ok?
    ensures i <= last < |xs| && IsLastRow(xs, row, last) && row(xs[last]).value.0 == row(xs[i]).value.0
    decreases |xs| - i
  {
    if IsLastRow(xs, row, i) {
      last := i;
    } else {
      var j :| i < j < |xs| && row(xs[j]).Ok? && row(xs[j]).value.0 == row(xs[i]).value.0;
      last := KeyHasLastRow(xs, row, j);
    }
  }

  /** Two parsers that agree on every line build the same dict. */
  lemma {:induction false} BuildDictCongruent<K, V>(lines: seq<string>, f: string -> Result<(K, V)>, g: string -> Result<(K, V)>)
    requires forall i :: 0 <= i < |lines| ==> f(lines[i]) == g(lines[i])
    ensures BuildDict(lines, 0, f) == BuildDict(lines, 0, g)
  {
    MapAllCongruent(lines, f, g);
    assert lines[0..] == lines;
  }

  /** Two parsers that agree on every element give the same results. */
  lemma {:induction false} MapAllCongruent<A, B>(xs: seq<A>, f: A -> Result<B>, g: A -> Result<B>)
    requires forall i :: 0 <= i < |xs| ==> f(xs[i]) == g(xs[i])
    ensures MapAll(xs, f) == MapAll(xs, g)
  {
    if |xs| > 0 {
      assert forall i :: 0 <= i < |xs| - 1 ==> xs[1..][i] == xs[i + 1];
      MapAllCongruent(xs[1..], f, g);
    }
  }
}

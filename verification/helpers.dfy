/**
 The list and sequence helpers of utils.py: `indexes` (positions of values
 in a list), `lists2dict` (a dict from two parallel lists) and
 `reverse_complement` (of a DNA string).
 */
module Helpers {
  import opened Results
  import opened Builtins
  import opened Tables

  /**
   `indexes(lista, values)`: for each value in order, the position of its
   first occurrence in `lista`; the first value missing from `lista` raises
   ValueError.
   */
  function Indexes<T(==)>(lista: seq<T>, values: seq<T>): (r: Result<seq<nat>>)
    ensures r.Ok? <==> forall i :: 0 <= i < |values| ==> values[i] in lista
    ensures r.Err? ==> r.error == ValueError
    ensures r.Ok? ==> |r.value| == |values|
    ensures r.Ok? ==> forall i :: 0 <= i < |values| ==>
                        r.value[i] < |lista| && lista[r.value[i]] == values[i] && values[i] !in lista[..r.value[i]]
  {
    var r := MapAll(values, v => ListIndex(lista, v));
    assert r.Err? ==> r.error == ValueError by {
      if r.Err? {
        var i :| 0 <= i < |values| && ListIndex(lista, values[i]) == Err(r.error);
      }
    }
    assert r.Ok? ==> forall i :: 0 <= i < |values| ==> ListIndex(lista, values[i]) == Ok(r.value[i]);
    r
  }

  /** On a list without repeats, the indexes of the list's own elements are 0, 1, 2, ... */
  lemma IndexesOfDistinctSelf<T>(lista: seq<T>)
    requires forall i, j :: 0 <= i < j < |lista| ==> lista[i] != lista[j]
    ensures Indexes(lista, lista).Ok?
    ensures forall i :: 0 <= i < |lista| ==> Indexes(lista, lista).value[i] == i
  {
    var r := Indexes(lista, lista);
    forall i | 0 <= i < |lista|
      ensures r.value[i] == i
    {
    }
  }

  /**
   `lists2dict(listA, listB)`, that is `dict(zip(listA, listB))`: the pairs
   stop at the end of the shorter list, and a key repeated in `listA` takes
   the value paired with its last occurrence.
   */
  function ListsToDict<K(==), V>(listA: seq<K>, listB: seq<V>): (r: map<K, V>)
    ensures r.Keys == set i | 0 <= i < |listA| && i < |listB| :: listA[i]
    ensures forall i :: 0 <= i < |listA| && i < |listB| && (forall j :: i < j < |listA| && j < |listB| ==> listA[j] != listA[i])
                        ==> r[listA[i]] == listB[i]
  {
    var ps := Zip(listA, listB);
    var r := ToDict(ps);
    assert KeysOf(ps) == set i | 0 <= i < |listA| && i < |listB| :: listA[i] by {
      forall k | k in KeysOf(ps)
        ensures k in set i | 0 <= i < |listA| && i < |listB| :: listA[i]
      {
        var i :| 0 <= i < |ps| && ps[i].0 == k;
      }
      forall k | k in set i | 0 <= i < |listA| && i < |listB| :: listA[i]
        ensures k in KeysOf(ps)
      {
        var i :| 0 <= i < |listA| && i < |listB| && listA[i] == k;
        assert ps[i].0 == k;
      }
    }
    forall i | 0 <= i < |listA| && i < |listB| && (forall j :: i < j < |listA| && j < |listB| ==> listA[j] != listA[i])
      ensures LastOfKey(ps, i)
    {
    }
    r
  }

  /** Two lists of the same length without a repeated key: the dict pairs them position by position. */
  lemma ListsToDictPairs<K, V>(listA: seq<K>, listB: seq<V>)
    requires |listA| == |listB|
    requires forall i, j :: 0 <= i < j < |listA| ==> listA[i] != listA[j]
    ensures |ListsToDict(listA, listB).Keys| == |listA|
    ensures forall i :: 0 <= i < |listA| ==> ListsToDict(listA, listB)[listA[i]] == listB[i]
  {
    var r := ListsToDict(listA, listB);
    DistinctCount(listA);
    assert r.Keys == set i | 0 <= i < |listA| :: listA[i];
  }

  /** A list without repeats has as many distinct elements as positions. */
  lemma {:induction false} DistinctCount<T>(xs: seq<T>)
    requires forall i, j :: 0 <= i < j < |xs| ==> xs[i] != xs[j]
    ensures |set i | 0 <= i < |xs| :: xs[i]| == |xs|
  {
    if |xs| > 0 {
      var n := |xs| - 1;
      var init := xs[..n];
      DistinctCount(init);
      var s := set i | 0 <= i < |xs| :: xs[i];
      var s' := set i | 0 <= i < |init| :: init[i];
      assert s == s' + {xs[n]} by {
        forall x | x in s
          ensures x in s' + {xs[n]}
        {
          var i :| 0 <= i < |xs| && xs[i] == x;
          if i < n {
            assert init[i] == x;
          }
        }
      }
      assert forall i :: 0 <= i < |init| ==> init[i] == xs[i];
      assert xs[n] !in s';
    }
  }

  /** The base paired with `c` in the table of `reverse_complement`; any other character raises KeyError. */
  function Complement(c: char): Result<char> {
    match c
    case 'A' => Ok('T')
    case 'C' => Ok('G')
    case 'G' => Ok('C')
    case 'T' => Ok('A')
    case _ => Err(KeyError)
  }

  predicate IsBase(c: char) {
    c == 'A' || c == 'C' || c == 'G' || c == 'T'
  }

  function Reverse<T>(xs: seq<T>): (r: seq<T>)
    ensures |r| == |xs| && forall i :: 0 <= i < |xs| ==> r[i] == xs[|xs| - 1 - i]
  {
    seq(|xs|, i requires 0 <= i < |xs| => xs[|xs| - 1 - i])
  }

  /**
   `reverse_complement(seq)`: each character is looked up (upper-case A, C,
   G and T only, else KeyError), then the list is reversed and joined.
   */
  function ReverseComplement(s: string): (r: Result<string>)
    ensures r.Ok? <==> forall i :: 0 <= i < |s| ==> IsBase(s[i])
    ensures r.Err? ==> r.error == KeyError
    ensures r.Ok? ==> |r.value| == |s| && forall i :: 0 <= i < |s| ==> IsBase(r.value[i])
    ensures r.Ok? ==> forall i :: 0 <= i < |s| ==> Complement(s[|s| - 1 - i]) == Ok(r.value[i])
  {
    var cs := MapAll(s, Complement);
    assert cs.Err? ==> cs.error == KeyError by {
      if cs.Err? {
        var i :| 0 <= i < |s| && Complement(s[i]) == Err(cs.error);
      }
    }
    var bases :- cs;
    Ok(Reverse(bases))
  }

  /** Complementing a base twice gives the base back. */
  lemma ComplementInvolutive(c: char)
    requires IsBase(c)
    ensures Complement(c).Ok? && Complement(Complement(c).value) == Ok(c)
  {
  }

  /** The reverse complement of a reverse complement is the original sequence. */
  lemma ReverseComplementInvolutive(s: string)
    requires ReverseComplement(s).Ok?
    ensures ReverseComplement(ReverseComplement(s).value) == Ok(s)
  {
    var r := ReverseComplement(s).value;
    var rr := ReverseComplement(r);
    assert rr.Ok?;
    forall i | 0 <= i < |s|
      ensures rr.value[i] == s[i]
    {
      var j := |s| - 1 - i;
      assert Complement(r[j]) == Ok(rr.value[i]);
      assert Complement(s[|s| - 1 - j]) == Ok(r[j]);
      ComplementInvolutive(s[i]);
    }
    assert rr.value == s;
  }
}

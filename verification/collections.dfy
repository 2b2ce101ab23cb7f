/** Sequence and dictionary helpers shared by the model: first-match search
    (`FirstOrDefault`), distinctness, and the enumeration order of the
    library's concurrent dictionaries. */
module Collections {
  import opened Outcomes

  predicate Distinct<T(==)>(s: seq<T>) {
    forall i, j :: 0 <= i < j < |s| ==> s[i] != s[j]
  }

  /** The elements of a sequence without repeats are as many as its length. */
  lemma {:induction false} DistinctElements<T>(s: seq<T>)
    requires Distinct(s)
    ensures |set i | 0 <= i < |s| :: s[i]| == |s|
  {
    if |s| > 0 {
      var rest := s[1..];
      assert Distinct(rest) by {
        forall i, j | 0 <= i < j < |rest| ensures rest[i] != rest[j] {
          assert rest[i] == s[i + 1] && rest[j] == s[j + 1];
        }
      }
      DistinctElements(rest);
      var all := set i | 0 <= i < |s| :: s[i];
      var tail := set i | 0 <= i < |rest| :: rest[i];
      assert all == {s[0]} + tail by {
        forall x | x in all ensures x in {s[0]} + tail {
          var i :| 0 <= i < |s| && s[i] == x;
          if i > 0 { assert rest[i - 1] == x; }
        }
        forall x | x in tail ensures x in all {
          var i :| 0 <= i < |rest| && rest[i] == x;
          assert s[i + 1] == x;
        }
      }
      assert s[0] !in tail by {
        forall i | 0 <= i < |rest| ensures rest[i] != s[0] {
          assert rest[i] == s[i + 1];
        }
      }
    }
  }

  /** The numbers below `n`, of which there are `n`. */
  function Below(n: nat): (r: set<nat>)
    ensures forall i: nat :: i in r <==> i < n
    ensures |r| == n
  {
    if n == 0 then {} else Below(n - 1) + {n - 1}
  }

  /** A sequence of numbers below `n` without repeats is at most `n` long. */
  lemma DistinctBounded(s: seq<nat>, n: nat)
    requires Distinct(s) && forall i :: 0 <= i < |s| ==> s[i] < n
    ensures |s| <= n
  {
    DistinctElements(s);
    var elems := set i | 0 <= i < |s| :: s[i];
    assert elems <= Below(n);
    assert Below(n) == elems + (Below(n) - elems);
  }

  /** A prefix of a prefix is a prefix. */
  lemma PrefixTrans<T>(a: seq<T>, b: seq<T>, c: seq<T>)
    requires |a| <= |b| <= |c| && b[..|a|] == a && c[..|b|] == b
    ensures c[..|a|] == a
  {
    assert c[..|a|] == c[..|b|][..|a|];
  }

  /** An element of a prefix is the element at the same place. */
  lemma PrefixAt<T>(b: seq<T>, c: seq<T>, i: nat)
    requires i < |b| <= |c| && c[..|b|] == b
    ensures c[i] == b[i]
  {
    assert c[..|b|][i] == c[i];
  }

  /** Dropping the first element shifts every later index down by one. */
  lemma TailAt<T>(s: seq<T>)
    requires |s| > 0
    ensures forall i :: 1 <= i < |s| ==> s[i] == s[1..][i - 1]
  {
  }

  /** `FirstOrDefault(p)`, as a position: the first element satisfying `p`. */
  function FirstIndex<T>(s: seq<T>, p: T -> bool): (r: Option<nat>)
    ensures r.None? <==> (forall i :: 0 <= i < |s| ==> !p(s[i]))
    ensures r.Some? ==> r.value < |s| && p(s[r.value])
    ensures r.Some? ==> forall j :: 0 <= j < r.value ==> !p(s[j])
  {
    if |s| == 0 then None
    else if p(s[0]) then Some(0)
    else match FirstIndex(s[1..], p)
      case None => None
      case Some(i) => Some(i + 1)
  }

  /** `Any(p)`. */
  predicate AnyMatch<T>(s: seq<T>, p: T -> bool) {
    exists i :: 0 <= i < |s| && p(s[i])
  }

  lemma FirstIndexAny<T>(s: seq<T>, p: T -> bool)
    ensures FirstIndex(s, p).Some? <==> AnyMatch(s, p)
  {
  }

  /** The order in which a concurrent dictionary enumerates its keys. The
      library does not fix it; the model picks one order per key set, and
      every key comes exactly once. */
  ghost function Enumerate(keys: set<string>): (r: seq<string>)
    ensures |r| == |keys|
    ensures forall k :: k in r <==> k in keys
    ensures Distinct(r)
    decreases |keys|
  {
    if keys == {} then []
    else
      var k :| k in keys;
      var rest := Enumerate(keys - {k});
      assert k !in rest;
      [k] + rest
  }

  /** `dictionary.Values`, in enumeration order. */
  ghost function ValuesInOrder<V>(m: map<string, V>): (r: seq<V>)
    ensures |r| == |m|
    ensures forall i :: 0 <= i < |r| ==> r[i] in m.Values
    ensures forall k :: k in m ==> exists i :: 0 <= i < |r| && r[i] == m[k]
  {
    var keys := Enumerate(m.Keys);
    var r := seq(|keys|, i requires 0 <= i < |keys| => m[keys[i]]);
    ValuesCovered(m, keys, r);
    r
  }

  lemma ValuesCovered<V>(m: map<string, V>, keys: seq<string>, r: seq<V>)
    requires forall k :: k in m <==> k in keys
    requires |r| == |keys| && forall i :: 0 <= i < |keys| ==> keys[i] in m && r[i] == m[keys[i]]
    ensures forall k :: k in m ==> exists i :: 0 <= i < |r| && r[i] == m[k]
  {
    forall k | k in m
      ensures exists i :: 0 <= i < |r| && r[i] == m[k]
    {
      var i :| 0 <= i < |keys| && keys[i] == k;
      assert r[i] == m[k];
    }
  }
}

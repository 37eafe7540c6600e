/** Building a dictionary from a sequence of key/value pairs, as Python's
    `dict(iterable)` and a run of item assignments do: every key of the
    pairs is present and holds the value of its last pair. */
module Dict {
  function FromPairs<K, V>(ps: seq<(K, V)>): map<K, V>
  {
    if |ps| == 0 then map[]
    else FromPairs(ps[..|ps| - 1])[ps[|ps| - 1].0 := ps[|ps| - 1].1]
  }

  /** One more pair is one more item assignment. */
  lemma FromPairsSnoc<K, V>(ps: seq<(K, V)>, p: (K, V))
    ensures FromPairs(ps + [p]) == FromPairs(ps)[p.0 := p.1]
  {
    assert (ps + [p])[..|ps|] == ps;
  }

  lemma UnionUpdate<K, V>(m: map<K, V>, n: map<K, V>, k: K, v: V)
    ensures (m + n)[k := v] == m + n[k := v]
  {
  }

  /** Every key of the pairs is present. */
  lemma {:induction false} FromPairsHas<K, V>(ps: seq<(K, V)>, i: nat)
    requires i < |ps|
    ensures ps[i].0 in FromPairs(ps)
  {
    var n := |ps| - 1;
    if i < n {
      FromPairsHas(ps[..n], i);
    }
  }

  /** The pair whose value a key holds: one with that key and no later one. */
  lemma {:induction false} FromPairsLast<K, V>(ps: seq<(K, V)>, k: K) returns (at: nat)
    requires k in FromPairs(ps)
    ensures at < |ps| && ps[at].0 == k && FromPairs(ps)[k] == ps[at].1
    ensures forall j :: at < j < |ps| ==> ps[j].0 != k
  {
    var n := |ps| - 1;
    if ps[n].0 == k {
      at := n;
    } else {
      var init := ps[..n];
      at := FromPairsLast(init, k);
      assert ps[at] == init[at];
    }
  }

  /** Feeding two runs of pairs one after the other is the union of the
      two dictionaries, the second winning. */
  lemma {:induction false} FromPairsAppend<K, V>(a: seq<(K, V)>, b: seq<(K, V)>)
    ensures FromPairs(a + b) == FromPairs(a) + FromPairs(b)
    decreases |b|
  {
    if |b| == 0 {
      assert a + b == a;
    } else {
      var n := |b| - 1;
      assert (a + b)[..|a + b| - 1] == a + b[..n];
      FromPairsAppend(a, b[..n]);
    }
  }
}

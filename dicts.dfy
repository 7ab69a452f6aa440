/**
 * A Python dict updated by a sequence of assignments `d[k] = v`, applied in
 * order: later writes to a key overwrite earlier ones, and nothing is removed.
 */
module Dicts {

  /** The keys a sequence of assignments writes. */
  ghost function KeysOf<K, V>(pairs: seq<(K, V)>): set<K> {
    set p | p in pairs :: p.0
  }

  /** `d[k] = v` for each pair of `pairs` in order, starting from `m`. */
  function Upserts<K(==, !new), V(==, !new)>(m: map<K, V>, pairs: seq<(K, V)>): (r: map<K, V>)
    ensures forall k :: k in r <==> k in m || k in KeysOf(pairs)
    decreases |pairs|
  {
    if pairs == [] then m
    else
      assert forall p :: p in pairs ==> p == pairs[0] || p in pairs[1..];
      Upserts(m[pairs[0].0 := pairs[0].1], pairs[1..])
  }

  /** No key is assigned two different values. */
  ghost predicate Functional<K, V>(pairs: seq<(K, V)>) {
    forall p, q :: p in pairs && q in pairs && p.0 == q.0 ==> p.1 == q.1
  }

  /** Two assignments in front of the rest. */
  lemma UpsertsTwo<K(!new), V(!new)>(m: map<K, V>, p: (K, V), q: (K, V), rest: seq<(K, V)>)
    ensures Upserts(m, [p, q] + rest) == Upserts(m[p.0 := p.1][q.0 := q.1], rest)
  {
    var all := [p, q] + rest;
    assert all[1..] == [q] + rest;
    assert ([q] + rest)[1..] == rest;
  }

  /** One assignment in front of the rest. */
  lemma UpsertsOne<K(!new), V(!new)>(m: map<K, V>, p: (K, V), rest: seq<(K, V)>)
    ensures Upserts(m, [p] + rest) == Upserts(m[p.0 := p.1], rest)
  {
    assert ([p] + rest)[1..] == rest;
  }

  /** The assignments from position i on: the one at i, then the rest. */
  lemma UpsertsAt<K(!new), V(!new)>(m: map<K, V>, pairs: seq<(K, V)>, i: nat)
    requires i < |pairs|
    ensures Upserts(m, pairs[i..]) == Upserts(m[pairs[i].0 := pairs[i].1], pairs[i + 1..])
  {
    assert pairs[i..] == [pairs[i]] + pairs[i + 1..];
    UpsertsOne(m, pairs[i], pairs[i + 1..]);
  }

  /** A key no assignment writes keeps its value. */
  lemma {:induction false} UpsertsUntouched<K(!new), V(!new)>(m: map<K, V>, pairs: seq<(K, V)>, k: K)
    requires k in m && k !in KeysOf(pairs)
    ensures Upserts(m, pairs)[k] == m[k]
    decreases |pairs|
  {
    if pairs != [] {
      assert pairs[0] in pairs;
      assert KeysOf(pairs[1..]) <= KeysOf(pairs) by {
        forall p | p in pairs[1..] ensures p in pairs { }
      }
      UpsertsUntouched(m[pairs[0].0 := pairs[0].1], pairs[1..], k);
    }
  }

  /** When no key gets two different values, every assignment can be read back. */
  lemma {:induction false} UpsertsFunctional<K(!new), V(!new)>(m: map<K, V>, pairs: seq<(K, V)>)
    requires Functional(pairs)
    ensures forall p :: p in pairs ==> Upserts(m, pairs)[p.0] == p.1
    decreases |pairs|
  {
    if pairs != [] {
      var head, rest := pairs[0], pairs[1..];
      var next := m[head.0 := head.1];
      assert forall p :: p in rest ==> p in pairs;
      UpsertsFunctional(next, rest);
      forall p | p in pairs ensures Upserts(m, pairs)[p.0] == p.1 {
        if p.0 in KeysOf(rest) {
          var q :| q in rest && q.0 == p.0;
          assert q in pairs;
        } else {
          assert p == head;
          UpsertsUntouched(next, rest, head.0);
        }
      }
    }
  }
}

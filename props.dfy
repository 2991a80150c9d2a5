/**
 * Attribute maps of the DSL (`HashMap<String, String>` in the source). A map is kept as a
 * list of key/value pairs with distinct keys: `Insert` replaces the value of a key already
 * present and appends a new key at the end. The list order is one admissible iteration
 * order of the hash map; the properties proved about the emitters that walk it do not
 * depend on that order, and lookups go through `Get`.
 */
module Props {
  import opened Wrappers

  type Props = seq<(string, string)>

  ghost predicate DistinctKeys(p: Props) {
    forall i, j :: 0 <= i < j < |p| ==> p[i].0 != p[j].0
  }

  /** The keys of `p`. */
  function Keys(p: Props): set<string>
  {
    if p == [] then {} else {p[0].0} + Keys(p[1..])
  }

  /** `HashMap::get`: the value stored under `k`. */
  function Get(p: Props, k: string): (r: Option<string>)
    ensures r.None? <==> k !in Keys(p)
  {
    if p == [] then None
    else if p[0].0 == k then Some(p[0].1)
    else Get(p[1..], k)
  }

  /** `HashMap::insert`: `k` now maps to `v`; every other key keeps its value. */
  function Insert(p: Props, k: string, v: string): Props
  {
    if p == [] then [(k, v)]
    else if p[0].0 == k then [(k, v)] + p[1..]
    else [p[0]] + Insert(p[1..], k, v)
  }

  /** Inserting adds `k` to the keys and no other key. */
  lemma {:induction false} KeysInsert(p: Props, k: string, v: string)
    ensures Keys(Insert(p, k, v)) == Keys(p) + {k}
  {
    if p != [] && p[0].0 != k {
      KeysInsert(p[1..], k, v);
    }
  }

  lemma {:induction false} GetInsertSame(p: Props, k: string, v: string)
    ensures Get(Insert(p, k, v), k) == Some(v)
  {
    if p != [] && p[0].0 != k {
      GetInsertSame(p[1..], k, v);
    }
  }

  lemma {:induction false} GetInsertOther(p: Props, k: string, v: string, k': string)
    requires k' != k
    ensures Get(Insert(p, k, v), k') == Get(p, k')
  {
    if p != [] && p[0].0 != k {
      GetInsertOther(p[1..], k, v, k');
    }
  }

  /** A key is in `Keys(p)` exactly when some pair of `p` has it. */
  lemma {:induction false} KeysIndexes(p: Props, k: string)
    ensures k in Keys(p) <==> exists i :: 0 <= i < |p| && p[i].0 == k
  {
    if p != [] {
      KeysIndexes(p[1..], k);
      if exists i :: 0 <= i < |p| && p[i].0 == k {
        var i :| 0 <= i < |p| && p[i].0 == k;
        if i > 0 {
          assert p[1..][i - 1].0 == k;
        }
      }
    }
  }

  lemma KeysDistinctHead(p: Props)
    requires p != [] && DistinctKeys(p)
    ensures p[0].0 !in Keys(p[1..])
  {
    var q := p[1..];
    forall i | 0 <= i < |q|
      ensures q[i].0 != p[0].0
    {
      assert q[i] == p[i + 1];
    }
    KeysIndexes(q, p[0].0);
  }

  lemma {:induction false} InsertDistinct(p: Props, k: string, v: string)
    requires DistinctKeys(p)
    ensures DistinctKeys(Insert(p, k, v))
  {
    if p != [] && p[0].0 != k {
      InsertDistinct(p[1..], k, v);
      var r := Insert(p, k, v);
      assert r == [p[0]] + Insert(p[1..], k, v);
      var tail := Insert(p[1..], k, v);
      KeysInsert(p[1..], k, v);
      KeysDistinctHead(p);
      forall j | 0 < j < |r| ensures r[0].0 != r[j].0 {
        assert r[j] == tail[j - 1];
        KeysIndexes(tail, r[j].0);
      }
    }
  }
}

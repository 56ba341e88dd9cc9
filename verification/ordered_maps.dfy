/** PHP's ordered arrays from strings to strings, as sequences of key/value pairs
    with distinct keys: assignment to a new key appends, assignment to an
    existing key replaces the value in place, `unset` removes the entry, and
    `+` keeps the left operand and appends the entries of the right operand
    whose keys the left one lacks. */
module OrderedMaps {
  import opened Wrappers

  type Entries = seq<(string, string)>

  predicate HasKey(m: Entries, k: string) {
    exists i | 0 <= i < |m| :: m[i].0 == k
  }

  predicate UniqueKeys(m: Entries) {
    forall i, j | 0 <= i < j < |m| :: m[i].0 != m[j].0
  }

  /** Position of the entry with key `k`, or `|m|` when there is none. */
  function Find(m: Entries, k: string): (i: nat)
    ensures i <= |m| && (i < |m| ==> m[i].0 == k)
    ensures forall j | 0 <= j < i :: m[j].0 != k
  {
    if m == [] then 0 else if m[0].0 == k then 0 else 1 + Find(m[1..], k)
  }

  /** `isset($m[$k]) ? $m[$k] : null` for non-null values. */
  function Get(m: Entries, k: string): (r: Option<string>)
    ensures r.Some? <==> HasKey(m, k)
    ensures r.Some? ==> (k, r.value) in m
  {
    var i := Find(m, k);
    if i < |m| then Some(m[i].1) else None
  }

  /** With distinct keys, an entry of the array is what a lookup finds. */
  lemma GetEntry(m: Entries, k: string, v: string)
    requires UniqueKeys(m) && (k, v) in m
    ensures Get(m, k) == Some(v)
  {
    var i :| 0 <= i < |m| && m[i] == (k, v);
    var j := Find(m, k);
    assert !(i < j) && !(j < i);
  }

  /** An entry after `$m[$k] = $v` is the new one or an old one. */
  lemma PutEntry(m: Entries, k: string, v: string, x: (string, string))
    requires UniqueKeys(m) && x in Put(m, k, v)
    ensures x == (k, v) || x in m
  {
    var r := Put(m, k, v);
    if x.0 == k {
      var i :| 0 <= i < |r| && r[i] == x;
      var j :| 0 <= j < |r| && r[j] == (k, v);
      assert i == j;
    }
  }

  /** `$m[$k] = $v`. */
  function Put(m: Entries, k: string, v: string): (r: Entries)
    requires UniqueKeys(m)
    ensures UniqueKeys(r) && (k, v) in r
    ensures forall e | e in r && e.0 != k :: e in m
    ensures forall e | e in m && e.0 != k :: e in r
    ensures HasKey(m, k) ==> |r| == |m| && forall i | 0 <= i < |m| :: r[i].0 == m[i].0
    ensures !HasKey(m, k) ==> r == m + [(k, v)]
    ensures forall k' :: HasKey(r, k') <==> k' == k || HasKey(m, k')
  {
    var i := Find(m, k);
    if i < |m| then
      ReplaceAt(m, i, v);
      m[i := (k, v)]
    else m + [(k, v)]
  }

  lemma ReplaceAt(m: Entries, i: nat, v: string)
    requires UniqueKeys(m) && i < |m|
    ensures var r := m[i := (m[i].0, v)];
      && UniqueKeys(r) && (m[i].0, v) in r
      && (forall e | e in r && e.0 != m[i].0 :: e in m)
      && (forall e | e in m && e.0 != m[i].0 :: e in r)
  {
    var r := m[i := (m[i].0, v)];
    assert r[i] == (m[i].0, v);
    forall e | e in r && e.0 != m[i].0
      ensures e in m
    {
      var j :| 0 <= j < |r| && r[j] == e;
      assert m[j] == e;
    }
    forall e | e in m && e.0 != m[i].0
      ensures e in r
    {
      var j :| 0 <= j < |m| && m[j] == e;
      assert r[j] == e;
    }
  }

  /** `unset($m[$k])`: the entry with key `k` is cut out and the others keep
      their order. */
  function Remove(m: Entries, k: string): (r: Entries)
    requires UniqueKeys(m)
    ensures UniqueKeys(r) && !HasKey(r, k)
    ensures forall e | e in r :: e in m
    ensures forall e | e in m && e.0 != k :: e in r
    ensures !HasKey(m, k) ==> r == m
    ensures HasKey(m, k) ==> exists i | 0 <= i < |m| && m[i].0 == k :: r == m[..i] + m[i + 1..]
  {
    var i := Find(m, k);
    if i < |m| then
      assert forall j | i < j < |m| :: m[j].0 != k;
      m[..i] + m[i + 1..]
    else m
  }

  /** The entries of `b` whose keys `a` lacks, in the order of `b`. */
  function Missing(a: Entries, b: Entries): (r: Entries)
    ensures forall e | e in r :: e in b && !HasKey(a, e.0)
    ensures forall e | e in b && !HasKey(a, e.0) :: e in r
  {
    if b == [] then []
    else if HasKey(a, b[|b| - 1].0) then Missing(a, b[..|b| - 1])
    else Missing(a, b[..|b| - 1]) + [b[|b| - 1]]
  }

  /** `$a + $b`: the left operand wins on every shared key. */
  function Union(a: Entries, b: Entries): (r: Entries)
    ensures |r| >= |a| && r[..|a|] == a
    ensures forall e :: e in r[|a|..] <==> e in b && !HasKey(a, e.0)
  {
    a + Missing(a, b)
  }

  /** `+` walks the right operand in order: joining two right operands
      appends what each contributes, and one entry contributes itself
      exactly when the left operand lacks its key. */
  lemma {:induction false} UnionOrder(a: Entries, b1: Entries, b2: Entries)
    ensures Union(a, b1 + b2) == Union(a, b1) + Missing(a, b2)
    ensures forall e :: Missing(a, [e]) == if HasKey(a, e.0) then [] else [e]
  {
    MissingAppend(a, b1, b2);
    forall e
      ensures Missing(a, [e]) == if HasKey(a, e.0) then [] else [e]
    {
      assert [e][..0] == [];
    }
  }

  lemma {:induction false} MissingAppend(a: Entries, b1: Entries, b2: Entries)
    ensures Missing(a, b1 + b2) == Missing(a, b1) + Missing(a, b2)
    decreases |b2|
  {
    if b2 == [] {
      assert b1 + b2 == b1;
    } else {
      var init, x := b2[..|b2| - 1], b2[|b2| - 1];
      assert (b1 + b2)[..|b1 + b2| - 1] == b1 + init;
      assert (b1 + b2)[|b1 + b2| - 1] == x;
      MissingAppend(a, b1, init);
    }
  }

  lemma {:induction false} MissingUnique(a: Entries, b: Entries)
    requires UniqueKeys(b)
    ensures UniqueKeys(Missing(a, b))
  {
    if b != [] {
      MissingUnique(a, b[..|b| - 1]);
    }
  }

  lemma {:induction false} GetMissing(a: Entries, b: Entries, k: string)
    requires UniqueKeys(b)
    ensures Get(Missing(a, b), k) == if HasKey(a, k) then None else Get(b, k)
  {
    if b != [] {
      GetMissing(a, b[..|b| - 1], k);
    }
  }

  lemma {:induction false} FindAppend(a: Entries, b: Entries, k: string)
    ensures Find(a + b, k) == if Find(a, k) < |a| then Find(a, k) else |a| + Find(b, k)
  {
    if a != [] {
      assert (a + b)[0] == a[0] && (a + b)[1..] == a[1..] + b;
      FindAppend(a[1..], b, k);
    } else {
      assert a + b == b;
    }
  }

  /** A lookup in a concatenation finds the first operand's entry first. */
  lemma GetAppend(a: Entries, b: Entries, k: string)
    ensures Get(a + b, k) == if HasKey(a, k) then Get(a, k) else Get(b, k)
  {
    FindAppend(a, b, k);
  }

  /** What `+` promises: the keys of both operands, with distinct keys kept
      distinct, and the left operand's value wherever it has the key. */
  lemma UnionGet(a: Entries, b: Entries, k: string)
    requires UniqueKeys(a) && UniqueKeys(b)
    ensures UniqueKeys(Union(a, b))
    ensures Get(Union(a, b), k) == if HasKey(a, k) then Get(a, k) else Get(b, k)
    ensures HasKey(Union(a, b), k) <==> HasKey(a, k) || HasKey(b, k)
  {
    MissingUnique(a, b);
    GetMissing(a, b, k);
    GetAppend(a, Missing(a, b), k);
    var r := Union(a, b);
    forall i, j | 0 <= i < j < |r|
      ensures r[i].0 != r[j].0
    {
      if j >= |a| && i < |a| {
        assert r[j] in Missing(a, b);
        assert HasKey(a, r[i].0);
      }
    }
  }
}

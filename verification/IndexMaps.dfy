// Insertion-ordered maps: a sequence of entries in which the first occurrence of a
// key wins. Inserting replaces in place or appends; removing closes the gap.
module IndexMaps {
  import opened Results

  datatype Entry<+V> = Entry(key: string, value: V)

  type IndexMap<+V> = seq<Entry<V>>

  function Keys<V>(m: IndexMap<V>): (ks: seq<string>)
    ensures |ks| == |m| && forall i :: 0 <= i < |m| ==> ks[i] == m[i].key
  {
    seq(|m|, i requires 0 <= i < |m| => m[i].key)
  }

  predicate Distinct(names: seq<string>) {
    forall i, j :: 0 <= i < j < |names| ==> names[i] != names[j]
  }

  predicate UniqueKeys<V>(m: IndexMap<V>) {
    forall i, j :: 0 <= i < j < |m| ==> m[i].key != m[j].key
  }

  predicate HasKey<V>(m: IndexMap<V>, key: string) {
    exists i :: 0 <= i < |m| && m[i].key == key
  }

  function Get<V>(m: IndexMap<V>, key: string): (r: Option<V>)
    ensures r.Some? <==> HasKey(m, key)
  {
    if m == [] then None
    else if m[0].key == key then Some(m[0].value)
    else
      assert forall i :: 0 < i < |m| ==> m[i] == m[1..][i - 1];
      Get(m[1..], key)
  }

  // A lookup answers with the first entry under the key.
  lemma {:induction false} GetFirst<V>(m: IndexMap<V>, key: string) returns (i: nat)
    requires HasKey(m, key)
    ensures i < |m| && m[i].key == key && Get(m, key) == Some(m[i].value)
    ensures forall j :: 0 <= j < i ==> m[j].key != key
  {
    if m[0].key == key {
      i := 0;
    } else {
      assert forall i :: 0 < i < |m| ==> m[i] == m[1..][i - 1];
      i := GetFirst(m[1..], key);
      i := i + 1;
    }
  }

  // Lookups in a map of at most three entries.
  lemma GetShort<V>(m: IndexMap<V>, key: string)
    requires |m| <= 3
    ensures Get(m, key) ==
            if |m| > 0 && m[0].key == key then Some(m[0].value)
            else if |m| > 1 && m[1].key == key then Some(m[1].value)
            else if |m| > 2 && m[2].key == key then Some(m[2].value)
            else None
  {
    if |m| > 0 {
      var rest := m[1..];
      if |m| > 1 {
        assert rest[0] == m[1];
        var last := rest[1..];
        if |m| > 2 {
          assert last[0] == m[2] && last[1..] == [];
        }
      }
    }
  }

  // Replace in place when the key is present, append otherwise.
  function Insert<V>(m: IndexMap<V>, key: string, value: V): IndexMap<V> {
    if m == [] then [Entry(key, value)]
    else if m[0].key == key then [Entry(key, value)] + m[1..]
    else [m[0]] + Insert(m[1..], key, value)
  }

  // Remove the entry and close the gap.
  function Remove<V>(m: IndexMap<V>, key: string): IndexMap<V> {
    if m == [] then []
    else if m[0].key == key then m[1..]
    else [m[0]] + Remove(m[1..], key)
  }

  lemma {:induction false} InsertFresh<V>(m: IndexMap<V>, key: string, value: V)
    requires !HasKey(m, key)
    ensures Insert(m, key, value) == m + [Entry(key, value)]
  {
    if m != [] {
      assert m[0].key != key;
      assert forall i :: 0 <= i < |m[1..]| ==> m[1..][i] == m[i + 1];
      InsertFresh(m[1..], key, value);
      assert m == [m[0]] + m[1..];
    }
  }

  lemma {:induction false} GetInsert<V>(m: IndexMap<V>, key: string, value: V, probe: string)
    ensures Get(Insert(m, key, value), probe) == if probe == key then Some(value) else Get(m, probe)
  {
    if m != [] && m[0].key != key {
      GetInsert(m[1..], key, value, probe);
    }
  }

  lemma {:induction false} GetAppend<V>(a: IndexMap<V>, b: IndexMap<V>, key: string)
    ensures Get(a + b, key) == if HasKey(a, key) then Get(a, key) else Get(b, key)
  {
    if a == [] {
      assert a + b == b;
    } else {
      assert (a + b)[1..] == a[1..] + b;
      GetAppend(a[1..], b, key);
      if a[0].key != key {
        assert HasKey(a, key) <==> HasKey(a[1..], key) by {
          assert forall i :: 0 < i < |a| ==> a[i] == a[1..][i - 1];
        }
      } else {
        assert HasKey(a, key);
      }
    }
  }

  // With unique keys, a lookup answers with the entry at the key's position.
  lemma GetAt<V>(m: IndexMap<V>, i: nat)
    requires UniqueKeys(m) && i < |m|
    ensures Get(m, m[i].key) == Some(m[i].value)
  {
    assert HasKey(m, m[i].key);
    var k := GetFirst(m, m[i].key);
  }
}

// Whole rename mappings.
module RenameLaws {
  import opened Results
  import opened IndexMaps
  import opened Values
  import opened Engine
  import opened RecordLaws

  // Where a name is taken by the entries of a mapping, one after the other.
  function Walk(name: string, mapping: IndexMap<string>): string {
    if mapping == [] then name else
      var at, last := Walk(name, mapping[..|mapping| - 1]), mapping[|mapping| - 1];
      if at == last.key then last.value else at
  }

  lemma {:induction false} InsertKeepsUnique(m: IndexMap<Value>, key: string, value: Value)
    requires UniqueKeys(m)
    ensures UniqueKeys(Insert(m, key, value))
    ensures forall probe :: HasKey(Insert(m, key, value), probe) <==> HasKey(m, probe) || probe == key
  {
    var all := Insert(m, key, value);
    forall probe ensures HasKey(all, probe) <==> HasKey(m, probe) || probe == key {
      GetInsert(m, key, value, probe);
    }
    if m != [] && m[0].key != key {
      var rest := m[1..];
      assert forall i :: 0 <= i < |rest| ==> rest[i] == m[i + 1];
      InsertKeepsUnique(rest, key, value);
      var tail := Insert(rest, key, value);
      forall j | 0 <= j < |tail| ensures tail[j].key != m[0].key {
        assert HasKey(tail, tail[j].key);
        if HasKey(rest, tail[j].key) {
          var i :| 0 <= i < |rest| && rest[i].key == tail[j].key;
        }
      }
    }
  }

  lemma RenameOneUnique(entries: IndexMap<Value>, from: string, to: string)
    requires UniqueKeys(entries)
    ensures UniqueKeys(RenameOne(entries, from, to))
  {
    RemoveKeeps(entries, from);
    match Get(entries, from)
    case Some(value) => InsertKeepsUnique(Remove(entries, from), to, value);
    case None =>
  }

  lemma {:induction false} RenameUnique(entries: IndexMap<Value>, mapping: IndexMap<string>)
    requires UniqueKeys(entries)
    ensures UniqueKeys(RenameEntries(entries, mapping))
    decreases |mapping|
  {
    if mapping != [] {
      var n := |mapping| - 1;
      RenameUnique(entries, mapping[..n]);
      RenameOneUnique(RenameEntries(entries, mapping[..n]), mapping[n].key, mapping[n].value);
    }
  }

  // A field of the result stems from a field whose name the mapping takes
  // there, and keeps its value.
  ghost predicate StemsFrom(entries: IndexMap<Value>, mapping: IndexMap<string>, key: string, name: string) {
    && HasKey(entries, name) && Walk(name, mapping) == key
    && Get(RenameEntries(entries, mapping), key) == Get(entries, name)
  }

  ghost predicate Stems(entries: IndexMap<Value>, mapping: IndexMap<string>, key: string) {
    match Get(RenameEntries(entries, mapping), key)
    case Some(_) => exists name :: StemsFrom(entries, mapping, key, name)
    case None => forall name :: HasKey(entries, name) ==> Walk(name, mapping) != key
  }

  lemma StemsLast(entries: IndexMap<Value>, mapping: IndexMap<string>, key: string)
    requires UniqueKeys(entries) && mapping != []
    requires Stems(entries, mapping[..|mapping| - 1], key) && Stems(entries, mapping[..|mapping| - 1], mapping[|mapping| - 1].key)
    ensures Stems(entries, mapping, key)
  {
    var front, last := mapping[..|mapping| - 1], mapping[|mapping| - 1];
    var before := RenameEntries(entries, front);
    RenameUnique(entries, front);
    RenameMoves(before, last.key, last.value, key);
    if Get(RenameEntries(entries, mapping), key).Some? {
      var from := if HasKey(before, last.key) && key == last.value then last.key else key;
      var name :| StemsFrom(entries, front, from, name);
      assert StemsFrom(entries, mapping, key, name);
    }
  }

  // Whatever the mapping, each field of the result has the value of a field
  // that the mapping takes to its name, and a name is absent exactly when no
  // field is taken there.
  lemma {:induction false} RenameStems(entries: IndexMap<Value>, mapping: IndexMap<string>, key: string)
    requires UniqueKeys(entries)
    ensures Stems(entries, mapping, key)
    decreases |mapping|
  {
    if mapping == [] {
      if HasKey(entries, key) {
        assert StemsFrom(entries, mapping, key, key);
      }
    } else {
      var n := |mapping| - 1;
      RenameStems(entries, mapping[..n], key);
      RenameStems(entries, mapping[..n], mapping[n].key);
      StemsLast(entries, mapping, key);
    }
  }

  // The old name of the last entry that gives the name to a field the record
  // had to begin with.
  function Newest(entries: IndexMap<Value>, mapping: IndexMap<string>, key: string): Option<string> {
    if mapping == [] then None else
      var last := mapping[|mapping| - 1];
      if last.value == key && HasKey(entries, last.key) then Some(last.key)
      else Newest(entries, mapping[..|mapping| - 1], key)
  }

  // All entries of the mapping read the original record.
  function AtOnce(entries: IndexMap<Value>, mapping: IndexMap<string>, key: string): Option<Value> {
    match Newest(entries, mapping, key)
    case Some(name) => Get(entries, name)
    case None => if HasKey(mapping, key) then None else Get(entries, key)
  }

  // No entry renames what an earlier one has just named.
  predicate Unchained(mapping: IndexMap<string>) {
    forall i, j :: 0 <= i < j < |mapping| ==> mapping[i].value != mapping[j].key
  }

  lemma {:induction false} NewestNone(entries: IndexMap<Value>, mapping: IndexMap<string>, key: string)
    requires forall i :: 0 <= i < |mapping| ==> mapping[i].value != key
    ensures Newest(entries, mapping, key).None?
  {
    if mapping != [] {
      NewestNone(entries, mapping[..|mapping| - 1], key);
    }
  }

  lemma HasKeySnoc<V>(m: IndexMap<V>, key: string)
    requires m != []
    ensures HasKey(m, key) <==> HasKey(m[..|m| - 1], key) || m[|m| - 1].key == key
  {
    var n := |m| - 1;
    if HasKey(m, key) {
      var i :| 0 <= i < |m| && m[i].key == key;
      assert i < n ==> m[..n][i].key == key;
    }
    if HasKey(m[..n], key) {
      var i :| 0 <= i < n && m[..n][i].key == key;
      assert m[i].key == key;
    }
  }

  lemma {:induction false} UnchainedAtOnce(entries: IndexMap<Value>, mapping: IndexMap<string>, key: string)
    requires UniqueKeys(entries) && UniqueKeys(mapping) && Unchained(mapping)
    ensures Get(RenameEntries(entries, mapping), key) == AtOnce(entries, mapping, key)
    decreases |mapping|
  {
    if mapping != [] {
      var front, last := mapping[..|mapping| - 1], mapping[|mapping| - 1];
      UnchainedAtOnce(entries, front, key);
      UnchainedAtOnce(entries, front, last.key);
      NewestNone(entries, front, last.key);
      assert !HasKey(front, last.key);
      HasKeySnoc(mapping, key);
      RenameUnique(entries, front);
      RenameMoves(RenameEntries(entries, front), last.key, last.value, key);
    }
  }

  lemma RenameStep(entries: IndexMap<Value>, mapping: IndexMap<string>, i: nat)
    requires i < |mapping|
    ensures RenameEntries(entries, mapping[..i + 1]) == RenameOne(RenameEntries(entries, mapping[..i]), mapping[i].key, mapping[i].value)
  {
    assert mapping[..i + 1][..i] == mapping[..i];
  }

  lemma {:induction false} Untouched(entries: IndexMap<Value>, mapping: IndexMap<string>)
    requires forall i :: 0 <= i < |mapping| ==> !HasKey(entries, mapping[i].key)
    ensures RenameEntries(entries, mapping) == entries
    decreases |mapping|
  {
    if mapping != [] {
      Untouched(entries, mapping[..|mapping| - 1]);
    }
  }

  lemma LoneRename(at: string, value: Value, from: string, to: string)
    ensures RenameOne([Entry(at, value)], from, to) == [Entry(if at == from then to else at, value)]
  {
    var lone := [Entry(at, value)];
    assert lone[0].key == at && lone[1..] == [];
    GetShort(lone, from);
  }

  // Once a single field is left, only a real rename of its name moves it.
  lemma {:induction false} LoneStays(entries: IndexMap<Value>, mapping: IndexMap<string>, m: nat, n: nat, at: string, value: Value)
    requires m <= n <= |mapping| && RenameEntries(entries, mapping[..m]) == [Entry(at, value)]
    requires forall i :: m <= i < n && mapping[i].key == at ==> mapping[i].value == at
    ensures RenameEntries(entries, mapping[..n]) == [Entry(at, value)]
    decreases n
  {
    if m < n {
      LoneStays(entries, mapping, m, n - 1, at, value);
      RenameStep(entries, mapping, n - 1);
      LoneRename(at, value, mapping[n - 1].key, mapping[n - 1].value);
    }
  }

  lemma {:induction false} NewestAt(entries: IndexMap<Value>, mapping: IndexMap<string>, i: nat)
    requires i < |mapping| && HasKey(entries, mapping[i].key)
    requires forall j :: i < j < |mapping| ==> mapping[j].value != mapping[i].value || !HasKey(entries, mapping[j].key)
    ensures Newest(entries, mapping, mapping[i].value) == Some(mapping[i].key)
    decreases |mapping|
  {
    var n := |mapping| - 1;
    if i < n {
      assert mapping[..n][i] == mapping[i];
      NewestAt(entries, mapping[..n], i);
    }
  }

  // Entry j renames, to something else, what entry i has just named.
  predicate Hop(mapping: IndexMap<string>, i: nat, j: nat) {
    i < j < |mapping| && mapping[i].value == mapping[j].key != mapping[j].value
  }

  lemma {:induction false} LastHop(mapping: IndexMap<string>, i: nat, j: nat) returns (x: nat, y: nat)
    requires Hop(mapping, i, j)
    ensures Hop(mapping, x, y) && forall l: nat :: !Hop(mapping, y, l)
    decreases |mapping| - j
  {
    if l: nat :| Hop(mapping, j, l) {
      x, y := LastHop(mapping, j, l);
    } else {
      x, y := i, j;
    }
  }

  // A single field the mapping leaves alone up to entry i is renamed there.
  lemma LoneArrives(entries: IndexMap<Value>, mapping: IndexMap<string>, m: nat, i: nat, value: Value)
    requires UniqueKeys(mapping) && m <= i < |mapping|
    requires RenameEntries(entries, mapping[..m]) == [Entry(mapping[i].key, value)]
    ensures RenameEntries(entries, mapping[..i + 1]) == [Entry(mapping[i].value, value)]
  {
    LoneStays(entries, mapping, m, i, mapping[i].key, value);
    RenameStep(entries, mapping, i);
    LoneRename(mapping[i].key, value, mapping[i].key, mapping[i].value);
  }

  lemma HopResult(mapping: IndexMap<string>, i: nat, j: nat)
    requires UniqueKeys(mapping) && Hop(mapping, i, j) && forall l: nat :: !Hop(mapping, j, l)
    ensures RenameEntries([Entry(mapping[i].key, Null)], mapping) == [Entry(mapping[j].value, Null)]
  {
    var entries: IndexMap<Value> := [Entry(mapping[i].key, Null)];
    LoneArrives(entries, mapping, 0, i, Null);
    LoneArrives(entries, mapping, i + 1, j, Null);
    LoneEnds(entries, mapping, j);
  }

  lemma LoneEnds(entries: IndexMap<Value>, mapping: IndexMap<string>, j: nat)
    requires j < |mapping| && (forall l: nat :: !Hop(mapping, j, l))
    requires RenameEntries(entries, mapping[..j + 1]) == [Entry(mapping[j].value, Null)]
    ensures RenameEntries(entries, mapping) == [Entry(mapping[j].value, Null)]
  {
    forall l | j + 1 <= l < |mapping| && mapping[l].key == mapping[j].value ensures mapping[l].value == mapping[j].value {
      assert !Hop(mapping, j, l);
    }
    LoneStays(entries, mapping, j + 1, |mapping|, mapping[j].value, Null);
    assert mapping[..|mapping|] == mapping;
  }

  lemma HopDiffers(mapping: IndexMap<string>, i: nat, j: nat) returns (entries: IndexMap<Value>)
    requires UniqueKeys(mapping) && Hop(mapping, i, j) && forall l: nat :: !Hop(mapping, j, l)
    ensures UniqueKeys(entries) && Get(RenameEntries(entries, mapping), mapping[i].value) != AtOnce(entries, mapping, mapping[i].value)
  {
    entries := [Entry(mapping[i].key, Null)];
    HopResult(mapping, i, j);
    GetShort([Entry(mapping[j].value, Null)], mapping[i].value);
    GetShort(entries, mapping[i].key);
    NewestAt(entries, mapping, i);
  }

  lemma FirstReplaces(a: string, b: string)
    requires a != b
    ensures RenameOne([Entry(a, Bool(true)), Entry(b, Bool(false))], a, b) == [Entry(b, Bool(true))]
  {
    var entries := [Entry(a, Bool(true)), Entry(b, Bool(false))];
    assert entries[1..] == [Entry(b, Bool(false))] && entries[0].key == a;
    GetShort(entries, a);
  }

  lemma SelfRenameDiffers(mapping: IndexMap<string>, i: nat, j: nat) returns (entries: IndexMap<Value>)
    requires UniqueKeys(mapping) && i < j < |mapping| && mapping[i].value == mapping[j].key == mapping[j].value
    ensures UniqueKeys(entries) && Get(RenameEntries(entries, mapping), mapping[j].value) != AtOnce(entries, mapping, mapping[j].value)
  {
    var a, b, n := mapping[i].key, mapping[j].key, |mapping|;
    entries := [Entry(a, Bool(true)), Entry(b, Bool(false))];
    Untouched(entries, mapping[..i]);
    RenameStep(entries, mapping, i);
    FirstReplaces(a, b);
    LoneStays(entries, mapping, i + 1, n, b, Bool(true));
    assert mapping[..n] == mapping;
    GetShort(entries, b);
    NewestAt(entries, mapping, j);
  }

  ghost predicate ReadsAtOnce(mapping: IndexMap<string>) {
    forall entries, key :: UniqueKeys(entries) ==> Get(RenameEntries(entries, mapping), key) == AtOnce(entries, mapping, key)
  }

  // A mapping applied entry by entry acts as one simultaneous rename, on
  // every record, exactly when no entry renames what an earlier one has named.
  lemma RenameAtOnce(mapping: IndexMap<string>)
    requires UniqueKeys(mapping)
    ensures ReadsAtOnce(mapping) <==> Unchained(mapping)
  {
    if Unchained(mapping) {
      forall entries: IndexMap<Value>, key | UniqueKeys(entries)
        ensures Get(RenameEntries(entries, mapping), key) == AtOnce(entries, mapping, key)
      {
        UnchainedAtOnce(entries, mapping, key);
      }
    } else {
      var i: nat, j: nat :| i < j < |mapping| && mapping[i].value == mapping[j].key;
      if Hop(mapping, i, j) {
        var x, y := LastHop(mapping, i, j);
        var entries := HopDiffers(mapping, x, y);
      } else {
        var entries := SelfRenameDiffers(mapping, i, j);
      }
    }
  }

  lemma TwoRenames(entries: IndexMap<Value>, first: Entry<string>, second: Entry<string>)
    ensures RenameEntries(entries, [first, second])
         == RenameOne(RenameOne(entries, first.key, first.value), second.key, second.value)
  {
    var mapping := [first, second];
    RenameStep(entries, mapping, 0);
    RenameStep(entries, mapping, 1);
    assert mapping[..2] == mapping;
  }

  // A swap keeps the first field where it was and loses the second.
  lemma SwapLoses(entries: IndexMap<Value>, a: string, b: string)
    requires UniqueKeys(entries) && HasKey(entries, a) && a != b
    ensures var swapped := RenameEntries(entries, [Entry(a, b), Entry(b, a)]);
            Get(swapped, a) == Get(entries, a) && Get(swapped, b).None?
  {
    var once := RenameOne(entries, a, b);
    TwoRenames(entries, Entry(a, b), Entry(b, a));
    RenameOneUnique(entries, a, b);
    RenameMoves(entries, a, b, b);
    RenameMoves(once, b, a, a);
    RenameMoves(once, b, a, b);
  }
}

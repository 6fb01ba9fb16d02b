// Record operations, through lookups, and casts.
module RecordLaws {
  import opened Results
  import opened IndexMaps
  import opened Paths
  import opened Text
  import Decimals
  import opened Values
  import opened Schemas
  import opened Validation
  import opened Plans
  import opened Engine

  // ---------------------------------------------------------------------
  // Removing, renaming, projecting.
  // ---------------------------------------------------------------------

  lemma {:induction false} RemoveKeeps(m: IndexMap<Value>, key: string)
    requires UniqueKeys(m)
    ensures forall probe :: HasKey(Remove(m, key), probe) <==> HasKey(m, probe) && probe != key
    ensures UniqueKeys(Remove(m, key))
  {
    if m != [] {
      var rest := m[1..];
      RemoveKeeps(rest, key);
      assert forall i :: 0 <= i < |rest| ==> rest[i] == m[i + 1];
      var removed := Remove(m, key);
      forall probe ensures HasKey(removed, probe) <==> HasKey(m, probe) && probe != key {
        HeadOrTail(m, probe);
        HeadOrTail(m, key);
        if m[0].key != key { HeadOrTail(removed, probe); }
      }
      if m[0].key != key {
        var tail := Remove(rest, key);
        assert removed == [m[0]] + tail;
        forall j | 0 <= j < |tail| ensures tail[j].key != m[0].key {
          assert HasKey(tail, tail[j].key);
          HeadOrTail(m, tail[j].key);
        }
      }
    }
  }

  lemma HeadOrTail(m: IndexMap<Value>, key: string)
    requires m != []
    ensures HasKey(m, key) <==> m[0].key == key || HasKey(m[1..], key)
  {
    var rest := m[1..];
    if HasKey(m, key) {
      var i :| 0 <= i < |m| && m[i].key == key;
      assert i > 0 ==> rest[i - 1].key == key;
    }
    if HasKey(rest, key) {
      var i :| 0 <= i < |rest| && rest[i].key == key;
      assert m[i + 1].key == key;
    }
  }

  lemma {:induction false} GetRemove(m: IndexMap<Value>, key: string, probe: string)
    requires UniqueKeys(m)
    ensures Get(Remove(m, key), probe) == if probe == key then None else Get(m, probe)
  {
    if m != [] {
      if m[0].key == key {
        HeadOrTail(m, key);
        RemoveKeeps(m, key);
      } else {
        GetRemove(m[1..], key, probe);
      }
    }
  }

  predicate Names(paths: seq<FieldPath>, key: string) {
    exists i :: 0 <= i < |paths| && paths[i].SimpleName() == Some(key)
  }

  lemma NamesSnoc(front: seq<FieldPath>, last: FieldPath, key: string)
    ensures Names(front + [last], key) <==> Names(front, key) || last.SimpleName() == Some(key)
  {
    var paths := front + [last];
    if Names(front, key) {
      var i :| 0 <= i < |front| && front[i].SimpleName() == Some(key);
      assert paths[i].SimpleName() == Some(key);
    }
    assert paths[|front|] == last;
  }

  // Dropping removes exactly the simply named fields.
  lemma {:induction false} DropRemoves(entries: IndexMap<Value>, paths: seq<FieldPath>, key: string)
    requires UniqueKeys(entries)
    ensures UniqueKeys(DropEntries(entries, paths))
    ensures Get(DropEntries(entries, paths), key) == if Names(paths, key) then None else Get(entries, key)
    decreases |paths|
  {
    if paths != [] {
      var front, last := paths[..|paths| - 1], paths[|paths| - 1];
      DropRemoves(entries, front, key);
      assert paths == front + [last];
      NamesSnoc(front, last, key);
      var before := DropEntries(entries, front);
      if last.SimpleName().Some? {
        RemoveKeeps(before, last.SimpleName().value);
        GetRemove(before, last.SimpleName().value, key);
      }
    }
  }

  // Renaming moves the value and replaces any field of the new name.
  lemma RenameMoves(entries: IndexMap<Value>, from: string, to: string, key: string)
    requires UniqueKeys(entries)
    ensures Get(RenameOne(entries, from, to), key)
         == if !HasKey(entries, from) then Get(entries, key)
            else if key == to then Get(entries, from)
            else if key == from then None
            else Get(entries, key)
  {
    if HasKey(entries, from) {
      GetRemove(entries, from, key);
      GetInsert(Remove(entries, from), to, Get(entries, from).value, key);
    }
  }

  // Projection reads each path and emits nothing else.
  lemma {:induction false} ProjectReads(record: Value, paths: seq<FieldPath>, key: string)
    requires ProjectFields(record, paths).Ok?
    ensures Get(ProjectFields(record, paths).value, key)
         == if Names(paths, key) then Some(ReadPath(record, FieldPath([Key(key)]))) else None
    decreases |paths|
  {
    if paths != [] {
      var front, last := paths[..|paths| - 1], paths[|paths| - 1];
      ProjectReads(record, front, key);
      assert paths == front + [last];
      NamesSnoc(front, last, key);
      var name := last.SimpleName().value;
      assert last == FieldPath([Key(name)]);
      GetInsert(ProjectFields(record, front).value, name, ReadPath(record, last), key);
    }
  }

  // ---------------------------------------------------------------------
  // Expressions.
  // ---------------------------------------------------------------------

  // Coalesce answers with the first value that is not null, and does not
  // evaluate beyond it.
  lemma {:induction false} CoalesceFirst(lib: Lib, record: Value, items: seq<Expr>, n: nat)
    requires n < |items| && forall i :: 0 <= i < n ==> EvalExpr(lib, record, items[i]) == Ok(Null)
    requires EvalExpr(lib, record, items[n]).Err? || !EvalExpr(lib, record, items[n]).value.Null?
    ensures EvalCoalesce(lib, record, items) == EvalExpr(lib, record, items[n])
    decreases n
  {
    if n > 0 {
      assert EvalExpr(lib, record, items[0]) == Ok(Null);
      CoalesceFirst(lib, record, items[1..], n - 1);
    }
  }

  // A cast that succeeds yields null or a value of the named type.
  lemma CastConforms(lib: Lib, value: Value, target: string, policy: CastPolicy)
    requires CastValue(lib, value, target, policy).Ok?
    ensures var r := CastValue(lib, value, target, policy).value;
            r.Null? || (ParseTargetName(target).Ok? && Accepts(ParseTargetName(target).value, r))
  {
  }

  // Casting again changes nothing, under any policy.
  lemma CastIdempotent(lib: Lib, value: Value, target: string, policy: CastPolicy, again: CastPolicy)
    requires CastValue(lib, value, target, policy).Ok?
    ensures CastValue(lib, CastValue(lib, value, target, policy).value, target, again) == CastValue(lib, value, target, policy)
  {
  }

  lemma DigitsPrintBack(digits: string)
    requires digits != "" && AllDigits(digits)
    ensures NatText(DigitsValue(digits)) == digits <==> |digits| == 1 || digits[0] != '0'
  {
    NatTextValue(DigitsValue(digits));
    if digits[0] != '0' || |digits| == 1 {
      CanonicalText(digits);
    }
  }

  lemma SignPeels(x: string, y: string)
    ensures "-" + x == "-" + y <==> x == y
  {
    assert ("-" + x)[1..] == x && ("-" + y)[1..] == y;
  }

  lemma NegativeText(m: nat, digits: string)
    ensures IntText(0 - m) == "-" + digits <==> m > 0 && NatText(m) == digits
  {
    if m > 0 {
      SignPeels(NatText(m), digits);
    } else {
      assert NatText(m)[0] == '0';
    }
  }

  lemma LeadingDigit(digits: string)
    requires digits != "" && AllDigits(digits)
    ensures digits[0] != '0' <==> DigitsValue(digits) > 0 && NatText(DigitsValue(digits)) == digits
  {
    if digits[0] != '0' {
      CanonicalText(digits);
    } else {
      NatTextValue(DigitsValue(digits));
    }
  }

  lemma NegativePrintsBack(digits: string, m: nat)
    requires digits != "" && AllDigits(digits) && m == DigitsValue(digits)
    ensures IntText(0 - m) == "-" + digits <==> digits[0] != '0'
  {
    LeadingDigit(digits);
    NegativeText(m, digits);
  }

  lemma StrictlyRead(lib: Lib, text: string, v: Int64)
    requires CastValue(lib, String(text), "int", StrictCast) == Ok(Int(v))
    ensures ParseInt64(text) == Some(v) && (|text| > 1 ==> text[0] != '0')
  {
  }

  lemma IntegerPrintsBack(text: string, v: Int64)
    requires ParseInt64(text) == Some(v) && (|text| > 1 ==> text[0] != '0')
    ensures text != "" && (StartsWith(text, '-') ==> |text| > 1)
    ensures IntText(v) == text <==> text[0] != '+' && !(text[0] == '-' && text[1] == '0')
  {
    if StartsWith(text, '-') {
      NegativePrintsBack(text[1..], DigitsValue(text[1..]));
      assert text == "-" + text[1..];
    } else if StartsWith(text, '+') {
      NatTextValue(v);
    } else {
      DigitsPrintBack(text);
    }
  }

  // An integer text a strict cast accepts prints back as it was written
  // exactly when it has no plus sign and no zero behind a minus sign.
  lemma StrictIntegers(lib: Lib, text: string, v: Int64)
    requires CastValue(lib, String(text), "int", StrictCast) == Ok(Int(v))
    ensures text != "" && (StartsWith(text, '-') ==> |text| > 1)
    ensures IntText(v) == text <==> text[0] != '+' && !(text[0] == '-' && text[1] == '0')
  {
    StrictlyRead(lib, text, v);
    IntegerPrintsBack(text, v);
  }

  // A try cast never fails on a known target, except for numeric texts.
  lemma TryCastFails(lib: Lib, value: Value, target: string)
    requires ParseTargetName(target).Ok?
    ensures CastValue(lib, value, target, TryCast).Err? <==>
            var ty := ParseTargetName(target).value;
            || (ty.FloatType? && value.Decimal?)
            || (ty.IntType? && value.String? && ParseInt64(value.text).None?)
            || (ty.DecimalType? && value.String? && Decimals.ParseDecimal(value.text).None?)
  {
  }
}

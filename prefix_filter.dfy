/**
 The object filter (`--include DIR --object FILE`): the object file lists
 name prefixes, and both the nested tree and the flat mapping are rebuilt
 keeping only the fields whose flat name starts with one of them. The flat
 mapping is filtered on its keys; the nested tree on each field's
 `flat_name`, and a group survives only with at least one surviving field.
 */
module PrefixFilter {
  import opened PyDict
  import opened Schema

  lemma AnyPrefixSnoc(s: string, prefixes: seq<string>, m: nat)
    requires m < |prefixes|
    ensures AnyPrefix(s, prefixes[..m + 1]) <==> AnyPrefix(s, prefixes[..m]) || StartsWith(s, prefixes[m])
  {
    assert prefixes[..m + 1] == prefixes[..m] + [prefixes[m]];
    if StartsWith(s, prefixes[m]) {
      assert prefixes[m] in prefixes[..m + 1];
    }
  }

  // ---------------------------------------------------------------------------
  // The flat side

  /** The filtered flat mapping built from the first `n` keys of `flat`. */
  function FilterFlatUpTo(flat: Dict<Field>, prefixes: seq<string>, n: nat): Dict<Field>
    requires n <= |flat.keys|
  {
    if n == 0 then Empty()
    else
      var acc := FilterFlatUpTo(flat, prefixes, n - 1);
      var k := flat.keys[n - 1];
      if AnyPrefix(k, prefixes) then Put(acc, k, flat.entries[k]) else acc
  }

  function FilterFlat(flat: Dict<Field>, prefixes: seq<string>): Dict<Field> {
    FilterFlatUpTo(flat, prefixes, |flat.keys|)
  }

  lemma {:induction false} FilterFlatUpToMembers(flat: Dict<Field>, prefixes: seq<string>, n: nat)
    requires n <= |flat.keys|
    ensures var r := FilterFlatUpTo(flat, prefixes, n);
      && (forall k :: k in r.entries <==> k in flat.keys[..n] && AnyPrefix(k, prefixes))
      && (forall k :: k in r.entries ==> k in flat.entries && r.entries[k] == flat.entries[k])
  {
    if n > 0 {
      FilterFlatUpToMembers(flat, prefixes, n - 1);
      assert flat.keys[..n] == flat.keys[..n - 1] + [flat.keys[n - 1]];
    }
  }

  /**
   Appending the key at position `n` of a dictionary to keys that all come
   earlier in it, in its order, keeps them in its order; the new key is not
   among them.
   */
  lemma AppendKeepsOrder<V>(flat: Dict<V>, keys: seq<string>, n: nat)
    requires n < |flat.keys|
    requires forall i :: 0 <= i < |keys| ==> keys[i] in flat.entries && IndexOf(flat, keys[i]) < n
    requires forall i, j :: 0 <= i < j < |keys| ==> IndexOf(flat, keys[i]) < IndexOf(flat, keys[j])
    ensures flat.keys[n] !in keys
    ensures var s := keys + [flat.keys[n]];
      forall i, j :: 0 <= i < j < |s| ==> IndexOf(flat, s[i]) < IndexOf(flat, s[j])
  {
    IndexOfUnique(flat, n);
    var s := keys + [flat.keys[n]];
    forall i, j | 0 <= i < j < |s| ensures IndexOf(flat, s[i]) < IndexOf(flat, s[j]) {
      assert s[i] == keys[i];
      if j < |keys| {
        assert s[j] == keys[j];
      }
    }
  }

  lemma {:induction false} FilterFlatUpToOrder(flat: Dict<Field>, prefixes: seq<string>, n: nat)
    requires n <= |flat.keys|
    ensures forall i :: 0 <= i < |FilterFlatUpTo(flat, prefixes, n).keys| ==>
              && FilterFlatUpTo(flat, prefixes, n).keys[i] in flat.entries
              && IndexOf(flat, FilterFlatUpTo(flat, prefixes, n).keys[i]) < n
    ensures forall i, j :: 0 <= i < j < |FilterFlatUpTo(flat, prefixes, n).keys| ==>
              IndexOf(flat, FilterFlatUpTo(flat, prefixes, n).keys[i]) < IndexOf(flat, FilterFlatUpTo(flat, prefixes, n).keys[j])
  {
    if n > 0 {
      FilterFlatUpToOrder(flat, prefixes, n - 1);
      var acc := FilterFlatUpTo(flat, prefixes, n - 1);
      if AnyPrefix(flat.keys[n - 1], prefixes) {
        AppendKeepsOrder(flat, acc.keys, n - 1);
        IndexOfUnique(flat, n - 1);
      }
    }
  }

  /**
   A key is kept exactly when it starts with one of the prefixes; it keeps its
   value, and the kept keys keep their relative order.
   */
  lemma FilterFlatKeeps(flat: Dict<Field>, prefixes: seq<string>)
    ensures var r := FilterFlat(flat, prefixes);
      && (forall k :: k in r.entries <==> k in flat.entries && AnyPrefix(k, prefixes))
      && (forall k :: k in r.entries ==> r.entries[k] == flat.entries[k])
      && (forall i, j :: 0 <= i < j < |r.keys| ==> IndexOf(flat, r.keys[i]) < IndexOf(flat, r.keys[j]))
  {
    FilterFlatUpToMembers(flat, prefixes, |flat.keys|);
    FilterFlatUpToOrder(flat, prefixes, |flat.keys|);
    assert flat.keys[..|flat.keys|] == flat.keys;
  }

  /** scripts/generator.py:57-60: every flat key is tried against every prefix, and stored on each match. */
  method FilterFlatByPrefix(flat: Dict<Field>, prefixes: seq<string>) returns (newFlat: Dict<Field>)
    ensures newFlat == FilterFlat(flat, prefixes)
  {
    newFlat := Empty();
    for i := 0 to |flat.keys|
      invariant newFlat == FilterFlatUpTo(flat, prefixes, i)
    {
      var fieldName := flat.keys[i];
      ghost var before := newFlat;
      for m := 0 to |prefixes|
        invariant newFlat == if AnyPrefix(fieldName, prefixes[..m]) then Put(before, fieldName, flat.entries[fieldName]) else before
      {
        AnyPrefixSnoc(fieldName, prefixes, m);
        if StartsWith(fieldName, prefixes[m]) {
          PutIdempotent(before, fieldName, flat.entries[fieldName]);
          newFlat := Put(newFlat, fieldName, flat.entries[fieldName]);
        }
      }
      assert prefixes[..|prefixes|] == prefixes;
    }
  }

  // ---------------------------------------------------------------------------
  // The nested side

  /** The field declares a `flat_name` that is a string. */
  predicate HasTextFlatName(f: Field) {
    "flat_name" in f && f["flat_name"].Text?
  }

  /** The field's `flat_name` starts with one of the prefixes. */
  predicate Matches(f: Field, prefixes: seq<string>) {
    HasTextFlatName(f) && AnyPrefix(f["flat_name"].text, prefixes)
  }

  /**
   Trying one field against the prefixes: `flat_name` is looked up (and
   `startswith` called on it) once per prefix, so with no prefixes nothing
   is looked up at all.
   */
  function TryField(f: Field, prefixes: seq<string>): Result<bool> {
    if prefixes == [] then Ok(false)
    else if "flat_name" !in f then Err(KeyError("flat_name"))
    else if !f["flat_name"].Text? then Err(AttributeError("startswith"))
    else Ok(AnyPrefix(f["flat_name"].text, prefixes))
  }

  /** The retained fields among the first `n` fields of a group, or the first crash. */
  function SelectFieldsUpTo(fields: Dict<Field>, prefixes: seq<string>, n: nat): Result<Dict<Field>>
    requires n <= |fields.keys|
  {
    if n == 0 then Ok(Empty())
    else
      match SelectFieldsUpTo(fields, prefixes, n - 1)
      case Err(e) => Err(e)
      case Ok(acc) =>
        var name := fields.keys[n - 1];
        match TryField(fields.entries[name], prefixes)
        case Err(e) => Err(e)
        case Ok(b) => Ok(if b then Put(acc, name, fields.entries[name]) else acc)
  }

  function SelectFields(fields: Dict<Field>, prefixes: seq<string>): Result<Dict<Field>> {
    SelectFieldsUpTo(fields, prefixes, |fields.keys|)
  }

  /**
   The group as it stands in the new tree once `kept` has been inserted into
   it: absent while nothing is kept, otherwise its attributes with `fields`
   replaced by the kept fields.
   */
  function Attach(newNested: Dict<Group>, group: string, meta: Attributes, kept: Dict<Field>): Dict<Group> {
    if kept.keys == [] then newNested else Put(newNested, group, Group(meta, Some(kept)))
  }

  /** The filtered tree built from the first `n` groups of `nested`, or the first crash. */
  function FilterNestedUpTo(nested: Dict<Group>, prefixes: seq<string>, n: nat): Result<Dict<Group>>
    requires n <= |nested.keys|
  {
    if n == 0 then Ok(Empty())
    else
      match FilterNestedUpTo(nested, prefixes, n - 1)
      case Err(e) => Err(e)
      case Ok(acc) =>
        var group := nested.keys[n - 1];
        var g := nested.entries[group];
        if g.fields.None? then Err(KeyError("fields"))
        else
          match SelectFields(g.fields.value, prefixes)
          case Err(e) => Err(e)
          case Ok(kept) => Ok(Attach(acc, group, g.meta, kept))
  }

  function FilterNested(nested: Dict<Group>, prefixes: seq<string>): Result<Dict<Group>> {
    FilterNestedUpTo(nested, prefixes, |nested.keys|)
  }

  lemma {:induction false} SelectFieldsUpToOk(fields: Dict<Field>, prefixes: seq<string>, n: nat)
    requires n <= |fields.keys|
    ensures SelectFieldsUpTo(fields, prefixes, n).Ok? <==>
              prefixes == [] || forall i :: 0 <= i < n ==> HasTextFlatName(fields.entries[fields.keys[i]])
  {
    if n > 0 {
      SelectFieldsUpToOk(fields, prefixes, n - 1);
      if SelectFieldsUpTo(fields, prefixes, n - 1).Ok? && prefixes != [] && !HasTextFlatName(fields.entries[fields.keys[n - 1]]) {
        assert TryField(fields.entries[fields.keys[n - 1]], prefixes).Err?;
      }
    }
  }

  lemma {:induction false} SelectFieldsUpToKeeps(fields: Dict<Field>, prefixes: seq<string>, n: nat)
    requires n <= |fields.keys|
    requires SelectFieldsUpTo(fields, prefixes, n).Ok?
    ensures var kept := SelectFieldsUpTo(fields, prefixes, n).value;
      && (forall name :: name in kept.entries <==> name in fields.keys[..n] && Matches(fields.entries[name], prefixes))
      && (forall name :: name in kept.entries ==> kept.entries[name] == fields.entries[name])
  {
    if n > 0 {
      var prev := SelectFieldsUpTo(fields, prefixes, n - 1);
      assert prev.Ok?;
      SelectFieldsUpToKeeps(fields, prefixes, n - 1);
      var name := fields.keys[n - 1];
      var f := fields.entries[name];
      assert fields.keys[..n] == fields.keys[..n - 1] + [name];
      var t := TryField(f, prefixes);
      assert t.Ok? && t.value == Matches(f, prefixes);
      assert SelectFieldsUpTo(fields, prefixes, n).value == if t.value then Put(prev.value, name, f) else prev.value;
    }
  }

  lemma {:induction false} FilterNestedUpToOk(nested: Dict<Group>, prefixes: seq<string>, n: nat)
    requires n <= |nested.keys|
    ensures FilterNestedUpTo(nested, prefixes, n).Ok? <==>
              forall i :: 0 <= i < n ==> Filterable(nested.entries[nested.keys[i]], prefixes)
  {
    if n > 0 {
      FilterNestedUpToOk(nested, prefixes, n - 1);
      FilterableIffSelects(nested.entries[nested.keys[n - 1]], prefixes);
      FilterableUpToSnoc(nested, prefixes, n);
    }
  }

  /** A group does not crash the filter exactly when it has `fields` and selecting among them does not crash. */
  lemma FilterableIffSelects(g: Group, prefixes: seq<string>)
    ensures Filterable(g, prefixes) <==> g.fields.Some? && SelectFields(g.fields.value, prefixes).Ok?
  {
    if g.fields.Some? {
      SelectFieldsKeeps(g.fields.value, prefixes);
    }
  }

  lemma FilterableUpToSnoc(nested: Dict<Group>, prefixes: seq<string>, n: nat)
    requires 0 < n <= |nested.keys|
    ensures (forall i :: 0 <= i < n ==> Filterable(nested.entries[nested.keys[i]], prefixes)) <==>
              (forall i :: 0 <= i < n - 1 ==> Filterable(nested.entries[nested.keys[i]], prefixes)) &&
              Filterable(nested.entries[nested.keys[n - 1]], prefixes)
  {
  }

  /** A group that does not crash the filter keeps no field exactly when it does not survive. */
  lemma KeptNoneIffDies(g: Group, prefixes: seq<string>)
    requires Filterable(g, prefixes)
    ensures SelectFields(g.fields.value, prefixes).Ok?
    ensures SelectFields(g.fields.value, prefixes).value.keys == [] <==> !Survives(g, prefixes)
  {
    SelectFieldsKeeps(g.fields.value, prefixes);
    var kept := SelectFields(g.fields.value, prefixes).value;
    if kept.keys != [] {
      assert kept.keys[0] in kept.entries;
    }
    if Survives(g, prefixes) {
      var name :| name in g.fields.value.entries && Matches(g.fields.value.entries[name], prefixes);
      assert name in kept.entries;
    }
  }

  /** One step of the group loop: the group is added, as `Retained`, exactly when it survives. */
  lemma AttachKeeps(acc: Dict<Group>, group: string, g: Group, prefixes: seq<string>)
    requires Filterable(g, prefixes) && group !in acc.entries
    ensures SelectFields(g.fields.value, prefixes).Ok?
    ensures var r := Attach(acc, group, g.meta, SelectFields(g.fields.value, prefixes).value);
      && (forall x :: x in r.entries <==> x in acc.entries || (x == group && Survives(g, prefixes)))
      && (forall x :: x in acc.entries ==> r.entries[x] == acc.entries[x])
      && (group in r.entries ==> r.entries[group] == Retained(g, prefixes))
  {
    KeptNoneIffDies(g, prefixes);
  }

  /** One step of the group loop that does not crash: the group before it did not crash either, and is attached. */
  lemma FilterNestedUpToStep(nested: Dict<Group>, prefixes: seq<string>, n: nat)
    requires 0 < n <= |nested.keys|
    requires FilterNestedUpTo(nested, prefixes, n).Ok?
    ensures FilterNestedUpTo(nested, prefixes, n - 1).Ok?
    ensures Filterable(nested.entries[nested.keys[n - 1]], prefixes)
    ensures SelectFields(nested.entries[nested.keys[n - 1]].fields.value, prefixes).Ok?
    ensures var g := nested.entries[nested.keys[n - 1]];
      FilterNestedUpTo(nested, prefixes, n).value ==
        Attach(FilterNestedUpTo(nested, prefixes, n - 1).value, nested.keys[n - 1], g.meta, SelectFields(g.fields.value, prefixes).value)
  {
    FilterNestedUpToOk(nested, prefixes, n);
  }

  /**
   The step of `FilterNestedUpToMembers` on plain values: `acc` holds exactly
   the surviving groups among the first `n - 1`, and `r` attaches group `n - 1`.
   */
  lemma AttachMembers(nested: Dict<Group>, prefixes: seq<string>, n: nat, acc: Dict<Group>, kept: Dict<Field>, r: Dict<Group>)
    requires 0 < n <= |nested.keys|
    requires Filterable(nested.entries[nested.keys[n - 1]], prefixes)
    requires SelectFields(nested.entries[nested.keys[n - 1]].fields.value, prefixes) == Ok(kept)
    requires forall k :: k in acc.entries ==> k in nested.keys[..n - 1]
    requires forall i :: 0 <= i < n - 1 ==> (nested.keys[i] in acc.entries <==> Survives(nested.entries[nested.keys[i]], prefixes))
    requires r == Attach(acc, nested.keys[n - 1], nested.entries[nested.keys[n - 1]].meta, kept)
    ensures forall i :: 0 <= i < n ==> (nested.keys[i] in r.entries <==> Survives(nested.entries[nested.keys[i]], prefixes))
  {
    var group := nested.keys[n - 1];
    KeyNotBefore(nested, n - 1);
    AttachKeeps(acc, group, nested.entries[group], prefixes);
    forall i | 0 <= i < n - 1 ensures nested.keys[i] != group {
      assert nested.keys[i] in nested.keys[..n - 1];
    }
  }

  lemma {:induction false} FilterNestedUpToMembers(nested: Dict<Group>, prefixes: seq<string>, n: nat)
    requires n <= |nested.keys|
    requires FilterNestedUpTo(nested, prefixes, n).Ok?
    ensures forall i :: 0 <= i < n ==>
              (nested.keys[i] in FilterNestedUpTo(nested, prefixes, n).value.entries <==> Survives(nested.entries[nested.keys[i]], prefixes))
  {
    if n > 0 {
      FilterNestedUpToStep(nested, prefixes, n);
      FilterNestedUpToMembers(nested, prefixes, n - 1);
      FilterNestedUpToDomain(nested, prefixes, n - 1);
      var g := nested.entries[nested.keys[n - 1]];
      AttachMembers(nested, prefixes, n, FilterNestedUpTo(nested, prefixes, n - 1).value,
                    SelectFields(g.fields.value, prefixes).value, FilterNestedUpTo(nested, prefixes, n).value);
    }
  }

  /**
   The step of `FilterNestedUpToValues` on plain values: every group of `acc`
   is a filterable group of `nested` kept as `Retained`, and `r` attaches group `n - 1`.
   */
  lemma AttachValues(nested: Dict<Group>, prefixes: seq<string>, n: nat, acc: Dict<Group>, kept: Dict<Field>, r: Dict<Group>)
    requires 0 < n <= |nested.keys|
    requires Filterable(nested.entries[nested.keys[n - 1]], prefixes)
    requires SelectFields(nested.entries[nested.keys[n - 1]].fields.value, prefixes) == Ok(kept)
    requires forall k :: k in acc.entries ==> k in nested.keys[..n - 1]
    requires forall group :: group in acc.entries ==>
               && group in nested.entries
               && Filterable(nested.entries[group], prefixes)
               && acc.entries[group] == Retained(nested.entries[group], prefixes)
    requires r == Attach(acc, nested.keys[n - 1], nested.entries[nested.keys[n - 1]].meta, kept)
    ensures forall group :: group in r.entries ==>
              && group in nested.entries
              && Filterable(nested.entries[group], prefixes)
              && r.entries[group] == Retained(nested.entries[group], prefixes)
  {
    KeyNotBefore(nested, n - 1);
    AttachKeeps(acc, nested.keys[n - 1], nested.entries[nested.keys[n - 1]], prefixes);
  }

  lemma {:induction false} FilterNestedUpToValues(nested: Dict<Group>, prefixes: seq<string>, n: nat)
    requires n <= |nested.keys|
    requires FilterNestedUpTo(nested, prefixes, n).Ok?
    ensures forall group :: group in FilterNestedUpTo(nested, prefixes, n).value.entries ==>
              && group in nested.entries
              && Filterable(nested.entries[group], prefixes)
              && FilterNestedUpTo(nested, prefixes, n).value.entries[group] == Retained(nested.entries[group], prefixes)
  {
    if n > 0 {
      FilterNestedUpToStep(nested, prefixes, n);
      FilterNestedUpToValues(nested, prefixes, n - 1);
      FilterNestedUpToDomain(nested, prefixes, n - 1);
      var g := nested.entries[nested.keys[n - 1]];
      AttachValues(nested, prefixes, n, FilterNestedUpTo(nested, prefixes, n - 1).value,
                   SelectFields(g.fields.value, prefixes).value, FilterNestedUpTo(nested, prefixes, n).value);
    }
  }

  lemma SelectFieldsKeeps(fields: Dict<Field>, prefixes: seq<string>)
    ensures SelectFields(fields, prefixes).Ok? <==>
              prefixes == [] || forall name :: name in fields.entries ==> HasTextFlatName(fields.entries[name])
    ensures SelectFields(fields, prefixes).Ok? ==>
              var kept := SelectFields(fields, prefixes).value;
              && (forall name :: name in kept.entries <==> name in fields.entries && Matches(fields.entries[name], prefixes))
              && (forall name :: name in kept.entries ==> kept.entries[name] == fields.entries[name])
  {
    SelectFieldsUpToOk(fields, prefixes, |fields.keys|);
    if SelectFields(fields, prefixes).Ok? {
      SelectFieldsUpToKeeps(fields, prefixes, |fields.keys|);
    }
    assert fields.keys[..|fields.keys|] == fields.keys;
    if prefixes != [] && forall i :: 0 <= i < |fields.keys| ==> HasTextFlatName(fields.entries[fields.keys[i]]) {
      forall name | name in fields.entries ensures HasTextFlatName(fields.entries[name]) {
        assert fields.keys[IndexIn(fields.keys, name)] == name;
      }
    }
  }

  /** The filter does not crash on this group: it has `fields`, and each field a string `flat_name` (when there are prefixes). */
  predicate Filterable(g: Group, prefixes: seq<string>) {
    g.fields.Some? &&
    (prefixes != [] ==> forall name :: name in g.fields.value.entries ==> HasTextFlatName(g.fields.value.entries[name]))
  }

  /** At least one of the group's fields matches a prefix. */
  predicate Survives(g: Group, prefixes: seq<string>) {
    g.fields.Some? && exists name :: name in g.fields.value.entries && Matches(g.fields.value.entries[name], prefixes)
  }

  /** The group as the filter keeps it: its attributes, with `fields` cut down to the matching fields. */
  function Retained(g: Group, prefixes: seq<string>): (r: Group)
    requires Filterable(g, prefixes)
    ensures r.meta == g.meta && r.fields.Some?
    ensures forall name :: name in r.fields.value.entries <==>
                             name in g.fields.value.entries && Matches(g.fields.value.entries[name], prefixes)
    ensures forall name :: name in r.fields.value.entries ==> r.fields.value.entries[name] == g.fields.value.entries[name]
  {
    SelectFieldsKeeps(g.fields.value, prefixes);
    Group(g.meta, Some(SelectFields(g.fields.value, prefixes).value))
  }

  /**
   The nested filter crashes exactly when some group has no `fields`, or,
   given at least one prefix, some field has no string `flat_name`. When it
   does not, a group is kept exactly when one of its fields matches a prefix,
   and it is kept with its attributes and only the matching fields.
   */
  lemma FilterNestedKeeps(nested: Dict<Group>, prefixes: seq<string>)
    ensures FilterNested(nested, prefixes).Ok? <==>
              forall group :: group in nested.entries ==> Filterable(nested.entries[group], prefixes)
    ensures FilterNested(nested, prefixes).Ok? ==>
              var r := FilterNested(nested, prefixes).value;
              && (forall group :: group in r.entries <==> group in nested.entries && Survives(nested.entries[group], prefixes))
              && (forall group :: group in r.entries ==> r.entries[group] == Retained(nested.entries[group], prefixes))
  {
    FilterNestedUpToOk(nested, prefixes, |nested.keys|);
    assert nested.keys[..|nested.keys|] == nested.keys;
    if FilterNested(nested, prefixes).Ok? {
      var r := FilterNested(nested, prefixes).value;
      FilterNestedUpToMembers(nested, prefixes, |nested.keys|);
      FilterNestedUpToValues(nested, prefixes, |nested.keys|);
      FilterNestedUpToDomain(nested, prefixes, |nested.keys|);
      forall group | group in nested.entries
        ensures group in r.entries <==> Survives(nested.entries[group], prefixes)
      {
        assert nested.keys[IndexOf(nested, group)] == group;
      }
    }
    if forall i :: 0 <= i < |nested.keys| ==> Filterable(nested.entries[nested.keys[i]], prefixes) {
      forall group | group in nested.entries ensures Filterable(nested.entries[group], prefixes) {
        assert nested.keys[IndexOf(nested, group)] == group;
      }
    }
  }

  lemma {:induction false} FilterNestedUpToOrder(nested: Dict<Group>, prefixes: seq<string>, n: nat)
    requires n <= |nested.keys|
    requires FilterNestedUpTo(nested, prefixes, n).Ok?
    ensures forall i :: 0 <= i < |FilterNestedUpTo(nested, prefixes, n).value.keys| ==>
              && FilterNestedUpTo(nested, prefixes, n).value.keys[i] in nested.entries
              && IndexOf(nested, FilterNestedUpTo(nested, prefixes, n).value.keys[i]) < n
    ensures forall i, j :: 0 <= i < j < |FilterNestedUpTo(nested, prefixes, n).value.keys| ==>
              IndexOf(nested, FilterNestedUpTo(nested, prefixes, n).value.keys[i]) <
              IndexOf(nested, FilterNestedUpTo(nested, prefixes, n).value.keys[j])
  {
    if n > 0 {
      FilterNestedUpToStep(nested, prefixes, n);
      FilterNestedUpToOrder(nested, prefixes, n - 1);
      var g := nested.entries[nested.keys[n - 1]];
      if SelectFields(g.fields.value, prefixes).value.keys != [] {
        AppendKeepsOrder(nested, FilterNestedUpTo(nested, prefixes, n - 1).value.keys, n - 1);
        IndexOfUnique(nested, n - 1);
      }
    }
  }

  /** The surviving groups keep their relative order from the input tree. */
  lemma FilterNestedKeepsOrder(nested: Dict<Group>, prefixes: seq<string>)
    ensures FilterNested(nested, prefixes).Ok? ==>
              var r := FilterNested(nested, prefixes).value;
              && (forall group :: group in r.entries ==> group in nested.entries)
              && (forall i, j :: 0 <= i < j < |r.keys| ==> IndexOf(nested, r.keys[i]) < IndexOf(nested, r.keys[j]))
  {
    if FilterNested(nested, prefixes).Ok? {
      FilterNestedUpToOrder(nested, prefixes, |nested.keys|);
      FilterNestedUpToDomain(nested, prefixes, |nested.keys|);
      assert nested.keys[..|nested.keys|] == nested.keys;
    }
  }

  /** Field `name` of group `group` has the string flat name `s`. */
  predicate DeclaresAt(nested: Dict<Group>, group: string, name: string, s: string) {
    && group in nested.entries
    && nested.entries[group].fields.Some?
    && name in nested.entries[group].fields.value.entries
    && HasTextFlatName(nested.entries[group].fields.value.entries[name])
    && nested.entries[group].fields.value.entries[name]["flat_name"].text == s
  }

  /** Some field of the tree has the flat name `s`. */
  ghost predicate Declares(nested: Dict<Group>, s: string) {
    exists group, name :: DeclaresAt(nested, group, name, s)
  }

  /** The filtered tree declares exactly the flat names of the tree that start with a prefix. */
  lemma FilterNestedDeclares(nested: Dict<Group>, prefixes: seq<string>)
    requires FilterNested(nested, prefixes).Ok?
    ensures forall s :: Declares(FilterNested(nested, prefixes).value, s) <==> Declares(nested, s) && AnyPrefix(s, prefixes)
  {
    FilterNestedKeeps(nested, prefixes);
    var r := FilterNested(nested, prefixes).value;
    forall s ensures Declares(r, s) <==> Declares(nested, s) && AnyPrefix(s, prefixes) {
      if Declares(r, s) {
        var group, name :| DeclaresAt(r, group, name, s);
        assert DeclaresAt(nested, group, name, s);
      }
      if Declares(nested, s) && AnyPrefix(s, prefixes) {
        var group, name :| DeclaresAt(nested, group, name, s);
        assert Matches(nested.entries[group].fields.value.entries[name], prefixes);
        assert Survives(nested.entries[group], prefixes);
        assert DeclaresAt(r, group, name, s);
      }
    }
  }

  /**
   The two filters agree: when the flat mapping holds exactly the flat names
   the tree declares, the filtered flat mapping holds exactly the flat names
   the filtered tree declares.
   */
  lemma FiltersAgree(nested: Dict<Group>, flat: Dict<Field>, prefixes: seq<string>)
    requires forall s :: Declares(nested, s) <==> s in flat.entries
    requires FilterNested(nested, prefixes).Ok?
    ensures forall s :: Declares(FilterNested(nested, prefixes).value, s) <==> s in FilterFlat(flat, prefixes).entries
  {
    FilterNestedDeclares(nested, prefixes);
    FilterFlatKeeps(flat, prefixes);
  }

  lemma {:induction false} FilterNestedUpToDomain(nested: Dict<Group>, prefixes: seq<string>, n: nat)
    requires n <= |nested.keys|
    requires FilterNestedUpTo(nested, prefixes, n).Ok?
    ensures forall k :: k in FilterNestedUpTo(nested, prefixes, n).value.entries ==> k in nested.keys[..n]
  {
    if n > 0 {
      FilterNestedUpToDomain(nested, prefixes, n - 1);
      assert nested.keys[..n] == nested.keys[..n - 1] + [nested.keys[n - 1]];
    }
  }

  lemma {:induction false} SelectFieldsErrSticks(fields: Dict<Field>, prefixes: seq<string>, j: nat, n: nat)
    requires j <= n <= |fields.keys|
    requires SelectFieldsUpTo(fields, prefixes, j).Err?
    ensures SelectFieldsUpTo(fields, prefixes, n) == SelectFieldsUpTo(fields, prefixes, j)
  {
    if n > j {
      SelectFieldsErrSticks(fields, prefixes, j, n - 1);
    }
  }

  lemma {:induction false} FilterNestedErrSticks(nested: Dict<Group>, prefixes: seq<string>, j: nat, n: nat)
    requires j <= n <= |nested.keys|
    requires FilterNestedUpTo(nested, prefixes, j).Err?
    ensures FilterNestedUpTo(nested, prefixes, n) == FilterNestedUpTo(nested, prefixes, j)
  {
    if n > j {
      FilterNestedErrSticks(nested, prefixes, j, n - 1);
    }
  }

  /**
   scripts/generator.py:53-55, one match: the group is put into the new tree unless already
   there (`setdefault`), given an empty `fields` unless it has one
   (`setdefault`), and the field is stored in it under its local name.
   */
  method StoreMatch(nn: Dict<Group>, group: string, popped: Group, name: string, innerField: Field,
                    ghost base: Dict<Group>, ghost kept: Dict<Field>) returns (r: Dict<Group>)
    requires group !in base.entries && popped.fields.None?
    requires nn == Attach(base, group, popped.meta, kept)
    ensures r == Attach(base, group, popped.meta, Put(kept, name, innerField))
  {
    ghost var grown := Put(kept, name, innerField);
    assert grown.keys != [] by { assert name in grown.keys; }
    ghost var final := Group(popped.meta, Some(grown));
    r := nn;
    if group !in r.entries {
      r := Put(r, group, popped);
    }
    var cur := r.entries[group];
    if cur.fields.None? {
      cur := cur.(fields := Some(Empty()));
      r := Put(r, group, cur);
    }
    if kept.keys == [] {
      NoKeysIsEmpty(kept);
      assert cur == Group(popped.meta, Some(kept));
      PutOverwrites(base, group, popped, cur);
    } else {
      assert cur == Group(popped.meta, Some(kept));
    }
    PutOverwrites(base, group, cur, final);
    r := Put(r, group, cur.(fields := Some(Put(cur.fields.value, name, innerField))));
  }

  /** scripts/generator.py:51-55: one field of a group tried against every prefix, and stored on each match. */
  method TryPrefixes(nn: Dict<Group>, group: string, popped: Group, name: string, innerField: Field,
                     prefixes: seq<string>, ghost base: Dict<Group>, ghost kept: Dict<Field>) returns (r: Result<Dict<Group>>)
    requires group !in base.entries && popped.fields.None?
    requires nn == Attach(base, group, popped.meta, kept)
    ensures TryField(innerField, prefixes).Err? ==> r == Err(TryField(innerField, prefixes).crash)
    ensures TryField(innerField, prefixes).Ok? ==>
              r == Ok(Attach(base, group, popped.meta,
                             if TryField(innerField, prefixes).value then Put(kept, name, innerField) else kept))
  {
    var cur := nn;
    for m := 0 to |prefixes|
      invariant m > 0 ==> HasTextFlatName(innerField)
      invariant cur == Attach(base, group, popped.meta,
                              if m > 0 && AnyPrefix(innerField["flat_name"].text, prefixes[..m])
                              then Put(kept, name, innerField) else kept)
    {
      if "flat_name" !in innerField {
        return Err(KeyError("flat_name"));
      }
      var flatName := innerField["flat_name"];
      if !flatName.Text? {
        return Err(AttributeError("startswith"));
      }
      AnyPrefixSnoc(flatName.text, prefixes, m);
      if StartsWith(flatName.text, prefixes[m]) {
        PutIdempotent(kept, name, innerField);
        cur := StoreMatch(cur, group, popped, name, innerField, base,
                          if m > 0 && AnyPrefix(flatName.text, prefixes[..m]) then Put(kept, name, innerField) else kept);
      }
    }
    assert prefixes[..|prefixes|] == prefixes;
    r := Ok(cur);
  }

  /** scripts/generator.py:50-55, for one group whose `fields` entry has just been popped. */
  method InsertMatchingFields(newNested: Dict<Group>, group: string, popped: Group, innerFields: Dict<Field>,
                              prefixes: seq<string>) returns (r: Result<Dict<Group>>)
    requires group !in newNested.entries && popped.fields.None?
    ensures SelectFields(innerFields, prefixes).Err? ==> r == Err(SelectFields(innerFields, prefixes).crash)
    ensures SelectFields(innerFields, prefixes).Ok? ==>
              r == Ok(Attach(newNested, group, popped.meta, SelectFields(innerFields, prefixes).value))
  {
    var nn := newNested;
    for j := 0 to |innerFields.keys|
      invariant SelectFieldsUpTo(innerFields, prefixes, j).Ok?
      invariant nn == Attach(newNested, group, popped.meta, SelectFieldsUpTo(innerFields, prefixes, j).value)
    {
      var name := innerFields.keys[j];
      var step := TryPrefixes(nn, group, popped, name, innerFields.entries[name], prefixes,
                              newNested, SelectFieldsUpTo(innerFields, prefixes, j).value);
      if step.Err? {
        SelectFieldsErrSticks(innerFields, prefixes, j + 1, |innerFields.keys|);
        return step;
      }
      nn := step.value;
    }
    r := Ok(nn);
  }

  /** scripts/generator.py:49-55, for the group at position `i`: pop its `fields`, then insert what matches. */
  method FilterGroup(newNested: Dict<Group>, nested: Dict<Group>, prefixes: seq<string>, i: nat)
    returns (step: Result<Dict<Group>>)
    requires i < |nested.keys|
    requires FilterNestedUpTo(nested, prefixes, i) == Ok(newNested)
    ensures step.Ok? ==> FilterNestedUpTo(nested, prefixes, i + 1) == step
    ensures step.Err? ==> FilterNested(nested, prefixes) == step
  {
    var group := nested.keys[i];
    var g := nested.entries[group];
    // popping a missing `fields` entry raises KeyError
    if g.fields.None? {
      step := Err(KeyError("fields"));
    } else {
      var innerFields := g.fields.value;
      g := g.(fields := None);
      FilterNestedUpToDomain(nested, prefixes, i);
      KeyNotBefore(nested, i);
      step := InsertMatchingFields(newNested, group, g, innerFields, prefixes);
    }
    if step.Err? {
      FilterNestedErrSticks(nested, prefixes, i + 1, |nested.keys|);
    }
  }

  /** scripts/generator.py:48-55: the nested tree rebuilt group by group; a crash ends the run. */
  method FilterNestedByPrefix(nested: Dict<Group>, prefixes: seq<string>) returns (r: Result<Dict<Group>>)
    ensures r == FilterNested(nested, prefixes)
  {
    var newNested := Empty();
    for i := 0 to |nested.keys|
      invariant FilterNestedUpTo(nested, prefixes, i) == Ok(newNested)
    {
      var step := FilterGroup(newNested, nested, prefixes, i);
      if step.Err? {
        return step;
      }
      newNested := step.value;
    }
    r := Ok(newNested);
  }
}

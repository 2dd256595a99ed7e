/**
 The stripped flat mapping written to `ecs_stripped_flat.yml`: every flat
 field reduced to those of `description`, `example` and `type` that it has.
 */
module Strip {
  import opened PyDict
  import opened Schema

  /** The attributes a stripped record may keep, in the order they are copied. */
  const RetainedKeys: seq<string> := ["description", "example", "type"]

  /** A stripped record: attribute name to value. */
  type Record = map<string, Value>

  /** The record built from the first `j` retained keys. */
  function StripFieldUpTo(f: Field, j: nat): Record
    requires j <= |RetainedKeys|
  {
    if j == 0 then map[]
    else
      var acc := StripFieldUpTo(f, j - 1);
      var key := RetainedKeys[j - 1];
      if key in f then acc[key := f[key]] else acc
  }

  /** The stripped record of one field. */
  function StripField(f: Field): Record {
    StripFieldUpTo(f, |RetainedKeys|)
  }

  /** The stripped mapping over the first `n` flat keys, in flat order. */
  function StripUpTo(flat: Dict<Field>, n: nat): Dict<Record>
    requires n <= |flat.keys|
  {
    var keys := flat.keys[..n];
    PrefixListedOnce(flat, n);
    DictRep(keys, map k | k in keys :: StripField(flat.entries[k]))
  }

  /** The stripped flat mapping: the flat keys in flat order, each with its stripped record. */
  function Stripped(flat: Dict<Field>): Dict<Record> {
    StripUpTo(flat, |flat.keys|)
  }

  lemma {:induction false} StripFieldUpToKeeps(f: Field, j: nat)
    requires j <= |RetainedKeys|
    ensures var r := StripFieldUpTo(f, j);
      && (forall k :: k in r <==> k in RetainedKeys[..j] && k in f)
      && (forall k :: k in r ==> r[k] == f[k])
  {
    if j > 0 {
      StripFieldUpToKeeps(f, j - 1);
      assert RetainedKeys[..j] == RetainedKeys[..j - 1] + [RetainedKeys[j - 1]];
    }
  }

  /**
   A stripped record holds exactly those of `description`, `example` and
   `type` that the field has, each with the field's own value; nothing is
   filled in for a missing one, so a field with none of them gives `{}`.
   */
  lemma StripFieldKeeps(f: Field)
    ensures var r := StripField(f);
      && (forall k :: k in r <==> k in RetainedKeys && k in f)
      && (forall k :: k in r ==> r[k] == f[k])
      && ((forall k :: k in RetainedKeys ==> k !in f) ==> r == map[])
  {
    StripFieldUpToKeeps(f, |RetainedKeys|);
    assert RetainedKeys[..|RetainedKeys|] == RetainedKeys;
  }

  /**
   The stripped mapping has exactly the flat keys, in flat order, and each
   entry is the stripped record of the flat field of the same name.
   */
  lemma StrippedKeeps(flat: Dict<Field>)
    ensures var s := Stripped(flat);
      && s.keys == flat.keys
      && (forall k :: k in s.entries <==> k in flat.entries)
      && (forall k :: k in s.entries ==> s.entries[k] == StripField(flat.entries[k]))
  {
    assert flat.keys[..|flat.keys|] == flat.keys;
  }

  /** scripts/generator.py:67-70, for one flat entry: its record starts as `{}` and each retained key the field has is copied in. */
  method StripEntry(stripped: Dict<Record>, name: string, field: Field) returns (r: Dict<Record>)
    ensures r == Put(stripped, name, StripField(field))
  {
    r := Put(stripped, name, map[]);
    for j := 0 to |RetainedKeys|
      invariant r == Put(stripped, name, StripFieldUpTo(field, j))
    {
      var fieldName := RetainedKeys[j];
      if fieldName in field {
        PutOverwrites(stripped, name, StripFieldUpTo(field, j), StripFieldUpTo(field, j + 1));
        r := Put(r, name, r.entries[name][fieldName := field[fieldName]]);
      }
    }
  }

  /** scripts/generator.py:64-70: the stripped mapping built entry by entry in flat order. */
  method StripFlat(flat: Dict<Field>) returns (stripped: Dict<Record>)
    ensures stripped == Stripped(flat)
  {
    assert flat.keys[..|flat.keys|] == flat.keys;
    stripped := Empty();
    for i := 0 to |flat.keys|
      invariant stripped == StripUpTo(flat, i)
    {
      var name := flat.keys[i];
      KeyNotBefore(flat, i);
      assert flat.keys[..i + 1] == flat.keys[..i] + [name];
      stripped := StripEntry(stripped, name, flat.entries[name]);
    }
  }
}

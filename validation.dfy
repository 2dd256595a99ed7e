/**
 Validate mode (`--include DIR --validate`): every custom field that is
 also a default field must keep the default field's `type`. The check
 walks the custom flat mapping in its dictionary order and stops at the
 first field that breaks this, reporting the field and both types.
 */
module Validation {
  import opened PyDict
  import opened Schema

  datatype Verdict =
    | Compatible
    | Mismatch(field: string, customType: Value, defaultType: Value)
    | Crashed(crash: Crash)

  /**
   The custom field `k` passes: it is not a default field, or both
   definitions carry a `type` and the two are equal under Python's `==`.
   */
  predicate Agrees(custom: map<string, Field>, default: map<string, Field>, k: string)
    requires k in custom
  {
    k !in default || ("type" in custom[k] && "type" in default[k] && PyEqual(custom[k]["type"], default[k]["type"]))
  }

  /** What the loop reports on reaching a custom field `k` that does not pass. */
  function Report(custom: map<string, Field>, default: map<string, Field>, k: string): Verdict
    requires k in custom && k in default
  {
    if "type" !in custom[k] || "type" !in default[k] then Crashed(KeyError("type"))
    else Mismatch(k, custom[k]["type"], default[k]["type"])
  }

  /** The check over the custom keys in the order given. */
  function CheckKeys(keys: seq<string>, custom: map<string, Field>, default: map<string, Field>): Verdict
    requires forall k :: k in keys ==> k in custom
  {
    if keys == [] then Compatible
    else if Agrees(custom, default, keys[0]) then CheckKeys(keys[1..], custom, default)
    else Report(custom, default, keys[0])
  }

  /** The check of the custom flat mapping against the default one. */
  function Check(custom: Dict<Field>, default: Dict<Field>): Verdict {
    CheckKeys(custom.keys, custom.entries, default.entries)
  }

  /**
   The check passes exactly when every key passes; otherwise it reports the
   first key, in the order given, that does not pass.
   */
  lemma {:induction false} CheckKeysFindsFirst(keys: seq<string>, custom: map<string, Field>, default: map<string, Field>)
    requires forall k :: k in keys ==> k in custom
    ensures CheckKeys(keys, custom, default) == Compatible <==>
              forall i :: 0 <= i < |keys| ==> Agrees(custom, default, keys[i])
    ensures CheckKeys(keys, custom, default) != Compatible ==>
              exists i :: 0 <= i < |keys| && !Agrees(custom, default, keys[i]) &&
                (forall j :: 0 <= j < i ==> Agrees(custom, default, keys[j])) &&
                CheckKeys(keys, custom, default) == Report(custom, default, keys[i])
  {
    if keys != [] {
      CheckKeysFindsFirst(keys[1..], custom, default);
      if Agrees(custom, default, keys[0]) {
        if CheckKeys(keys[1..], custom, default) != Compatible {
          var i :| 0 <= i < |keys[1..]| && !Agrees(custom, default, keys[1..][i]) &&
                   (forall j :: 0 <= j < i ==> Agrees(custom, default, keys[1..][j])) &&
                   CheckKeys(keys[1..], custom, default) == Report(custom, default, keys[1..][i]);
          assert forall j :: 0 <= j < i + 1 ==> Agrees(custom, default, keys[j]) by {
            forall j | 0 <= j < i + 1 ensures Agrees(custom, default, keys[j]) {
              if j > 0 { assert keys[j] == keys[1..][j - 1]; }
            }
          }
          assert keys[i + 1] == keys[1..][i];
        } else {
          forall i | 0 <= i < |keys| ensures Agrees(custom, default, keys[i]) {
            if i > 0 { assert keys[i] == keys[1..][i - 1]; }
          }
        }
      } else {
        assert !Report(custom, default, keys[0]).Compatible?;
      }
    }
  }

  /**
   A mismatch names a field of both mappings whose two types are not equal
   under Python's `==` and are reported as they are; every custom field
   before it passes.
   */
  lemma MismatchIsFirstOffender(custom: Dict<Field>, default: Dict<Field>)
    requires Check(custom, default).Mismatch?
    ensures var v := Check(custom, default);
      && v.field in custom.entries && v.field in default.entries
      && "type" in custom.entries[v.field] && v.customType == custom.entries[v.field]["type"]
      && "type" in default.entries[v.field] && v.defaultType == default.entries[v.field]["type"]
      && !PyEqual(v.customType, v.defaultType)
      && forall j :: 0 <= j < IndexOf(custom, v.field) ==> Agrees(custom.entries, default.entries, custom.keys[j])
  {
    CheckKeysFindsFirst(custom.keys, custom.entries, default.entries);
    var i :| 0 <= i < |custom.keys| && !Agrees(custom.entries, default.entries, custom.keys[i]) &&
             (forall j :: 0 <= j < i ==> Agrees(custom.entries, default.entries, custom.keys[j])) &&
             Check(custom, default) == Report(custom.entries, default.entries, custom.keys[i]);
    IndexOfUnique(custom, i);
  }

  /** The check passes exactly when every custom field passes. */
  lemma CompatibleIffAllAgree(custom: Dict<Field>, default: Dict<Field>)
    ensures Check(custom, default) == Compatible <==>
              forall k :: k in custom.entries ==> Agrees(custom.entries, default.entries, k)
  {
    CheckKeysFindsFirst(custom.keys, custom.entries, default.entries);
    if Check(custom, default) == Compatible {
      forall k | k in custom.entries ensures Agrees(custom.entries, default.entries, k) {
        assert custom.keys[IndexOf(custom, k)] == k;
      }
    }
  }

  /**
   A one-field custom mapping with `type: n` checked against a default with
   `type: b`, a bool: it passes exactly when `n` is the integer `b` stands
   for (`1 == True`), and is otherwise reported with both types.
   */
  lemma BoolTypeAgreesWithItsInt(n: int, b: bool)
    ensures var custom := DictRep(["x"], map["x" := map["type" := Number(n)]]);
            var default := DictRep(["x"], map["x" := map["type" := Flag(b)]]);
      Check(custom, default) == if n == BoolInt(b) then Compatible else Mismatch("x", Number(n), Flag(b))
  {
    var custom := map["x" := map["type" := Number(n)]];
    var default := map["x" := map["type" := Flag(b)]];
    assert ["x"][1..] == [];
    assert Agrees(custom, default, "x") <==> n == BoolInt(b);
    assert Report(custom, default, "x") == Mismatch("x", Number(n), Flag(b));
    assert CheckKeys(["x"], custom, default) == if n == BoolInt(b) then Compatible else Mismatch("x", Number(n), Flag(b));
  }

  /** The validation loop of `main`: returns at the first custom field that does not pass. */
  method ValidateCustom(custom: Dict<Field>, default: Dict<Field>) returns (v: Verdict)
    ensures v == Check(custom, default)
  {
    for i := 0 to |custom.keys|
      invariant CheckKeys(custom.keys[i..], custom.entries, default.entries) == Check(custom, default)
    {
      var field := custom.keys[i];
      assert custom.keys[i..][1..] == custom.keys[i + 1..];
      if field in default.entries {
        if "type" !in custom.entries[field] || "type" !in default.entries[field] {
          return Crashed(KeyError("type"));
        }
        if !PyEqual(custom.entries[field]["type"], default.entries[field]["type"]) {
          return Mismatch(field, custom.entries[field]["type"], default.entries[field]["type"]);
        }
      }
    }
    v := Compatible;
  }
}

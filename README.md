# ECS field generator pipeline in Dafny

This project models the schema pipeline of the ECS generator's `main`
(`scripts/generator.py`). The pipeline runs in this order:

1. It takes the default `(nested, flat)` schema pair.
2. If a custom schema directory is given (`--include`), it does one of two things:
   - in validate mode (`--validate`), it checks the custom flat fields against the default ones and then replaces the default pair with the custom pair;
   - otherwise, it merges the custom pair under the defaults.
3. If an object file is also given (`--object`), it rebuilds both the nested tree and the flat mapping, keeping only fields whose flat name starts with one of the listed prefixes.
4. It strips every flat field down to `description`, `example` and `type`.
5. It runs the output steps that the flags allow.

Python dicts are insertion-ordered, and both the reported mismatch and the output depend on that order. So a dict is modelled as `PyDict.Dict`, which is a key sequence plus a map. Assigning a new key appends it; assigning an existing key keeps its place.

Modules:

- `PyDict` (`pydict.dfy`): the ordered dictionary.
- `Schema` (`schema.dfy`): values and Python's `==` on them, fields, groups, the `(nested, flat)` pair, and uncaught exceptions (`Crash`). A group holds its `fields` entry apart from its other attributes, which therefore never include a `fields` key (`Schema.Attributes`).
- `Validation` (`validation.dfy`): the validate-mode check.
- `PrefixFilter` (`prefix_filter.dfy`): the object filter, on the flat side and the nested side.
- `Strip` (`strip.dfy`): the stripped flat mapping.
- `Generator` (`generator.dfy`): a whole run and the output gating.

Each loop of `main` is a method whose `ensures` ties its result to a specification function. Lemmas then prove what the source promises about that function.

An uncaught Python exception is an outcome, not a precondition:

- `KeyError` for a missing `type`, `fields` or `flat_name`;
- `AttributeError` when `flat_name` is not a string.

The `exit()` that follows a validation failure is the outcome `ValidationFailed`.

## Model

| member | source | states |
|---|---|---|
| PyDict.Put | scripts/generator.py:60 | `d[k] = v`: `k` maps to `v`, other keys keep their membership and values, a new key goes last, an existing key keeps its place |
| PyDict.PutIdempotent | scripts/generator.py:58-60 | storing a field again under the same name, once per matching prefix, leaves the dict as after the first store |
| PyDict.PutOverwrites | scripts/generator.py:66-70 | a later assignment to the same key wins, and the key keeps the place of the first |
| Schema.PyEqualWithoutFlags | scripts/generator.py:34 | the `!=` of the type check is Python's: on values with no bool inside, it is plain inequality of the values |
| Schema.BoolEqualsItsInt | scripts/generator.py:34 | for every bool and integer, in either operand order, the bool equals the integer exactly when it is 1 for `True` or 0 for `False`; a bool equals no value other than a number or a bool; two lists are equal exactly when they have the same length and equal items, position by position |
| Schema.PyEqualSymmetric | scripts/generator.py:34 | swapping the custom and the default type does not change the outcome of the comparison |
| Validation.BoolTypeAgreesWithItsInt | scripts/generator.py:33-36 | for every integer `n` and bool `b`, a custom field `x` with `type: n` passes against a default `x` with `type: b` exactly when `n` is the integer `b` stands for; otherwise the check reports `x` with both types |
| Validation.ValidateCustom | scripts/generator.py:32-36 | the validation loop returns exactly the verdict of the ordered check over the custom keys, stopping at the first offender |
| Validation.CheckKeysFindsFirst | scripts/generator.py:33-36 | the check passes iff every custom key passes; otherwise it reports the first key, in iteration order, that does not pass |
| Validation.MismatchIsFirstOffender | scripts/generator.py:33-36 | a reported mismatch names a field present in both mappings, with its custom and default types exactly as stored and not equal under Python's `==`; every custom field before it passes |
| Validation.CompatibleIffAllAgree | scripts/generator.py:33-36 | validation succeeds iff every custom field is either absent from the defaults or has a `type` there equal to its own under Python's `==` |
| PrefixFilter.FilterFlatKeeps | scripts/generator.py:57-60 | a flat key is kept iff it starts with some prefix (exact `startswith`); its value is unchanged and the kept keys keep their relative order |
| PrefixFilter.FilterFlatByPrefix | scripts/generator.py:57-60 | the nested key/prefix loop builds exactly the filtered flat mapping |
| PrefixFilter.SelectFieldsKeeps | scripts/generator.py:50-55 | the fields of one group: no crash iff there are no prefixes or every field has a string `flat_name`; a field is kept iff its `flat_name` starts with a prefix, under its own name and unchanged |
| PrefixFilter.Retained | scripts/generator.py:48-55 | a kept group keeps its other attributes, and its `fields` holds exactly the matching fields, unchanged |
| PrefixFilter.FilterNestedKeeps | scripts/generator.py:48-55 | the nested filter crashes iff some group lacks `fields` or, given prefixes, some field lacks a string `flat_name`; otherwise a group is kept iff one of its fields matches, and it is kept as `Retained` |
| PrefixFilter.FilterNestedKeepsOrder | scripts/generator.py:48-55 | when the nested filter does not crash, the surviving groups are groups of the input tree, in their input order |
| PrefixFilter.FilterNestedDeclares | scripts/generator.py:48-55 | the filtered tree declares exactly the flat names of the tree that start with a prefix |
| PrefixFilter.FiltersAgree | scripts/generator.py:48-62 | if the flat mapping holds exactly the flat names the tree declares, the filtered flat mapping holds exactly those the filtered tree declares |
| PrefixFilter.StoreMatch | scripts/generator.py:53-55 | the two `setdefault`s and the store leave the group in the new tree holding the kept fields plus this one, with the group's other attributes |
| PrefixFilter.TryPrefixes | scripts/generator.py:51-55 | one field tried against every prefix: it crashes as `TryField` does, or is stored iff its `flat_name` starts with some prefix |
| PrefixFilter.InsertMatchingFields | scripts/generator.py:50-55 | one popped group: the new tree gains the group with exactly its selected fields, or not at all if none match, or the first crash |
| PrefixFilter.FilterGroup | scripts/generator.py:49-55 | one iteration of the group loop: a group without `fields` crashes the whole filter with `KeyError`; otherwise the tree built so far gains exactly this group's contribution, or the filter ends with this group's crash |
| PrefixFilter.FilterNestedByPrefix | scripts/generator.py:48-55 | the group loop, with `pop('fields')`, yields exactly the filtered tree or its first crash |
| Strip.StripFieldKeeps | scripts/generator.py:67-70 | a stripped record holds exactly those of `description`/`example`/`type` that the field has, values unchanged; a field with none of them gives `{}` |
| Strip.StrippedKeeps | scripts/generator.py:64-70 | the stripped mapping has exactly the flat keys, in flat order, each mapped to its field's stripped record |
| Strip.StripEntry | scripts/generator.py:66-70 | one entry: the record starts as `{}` and ends as the field's stripped record, stored under the field's name |
| Strip.StripFlat | scripts/generator.py:64-70 | the strip loop builds exactly the stripped mapping |
| Generator.Steps | scripts/generator.py:72-82 | the stripped dump and the intermediate files always come first; csv and then the search template run iff not intermediate-only; beats and then asciidoc run iff, in addition, neither validate nor object is set; each step runs at most once, in that order (2, 4 or 6 steps) |
| Generator.Emit | scripts/generator.py:64-82 | stripping and the gated output steps turn a final pair into exactly the finished outcome `Finish` |
| Generator.FilterAndEmit | scripts/generator.py:43-82 | with an object file the nested filter runs first and its crash aborts the run, otherwise the flat filter follows and the filtered pair goes to output; without one the pair goes to output unchanged, as `FilterThenFinish` says |
| Generator.RunGenerator | scripts/generator.py:22-82 | a run of `main` step by step ends exactly as the run specification `Run` says |
| Generator.ValidationFailureIsFirstMismatch | scripts/generator.py:32-36 | a validation failure happens only with a custom directory in validate mode; it reports the first custom field whose type is not equal, under Python's `==`, to the default one, with both types |
| Generator.ValidatedRunsAgree | scripts/generator.py:32-38 | in validate mode a run reaches its output steps only if every custom field agrees with the defaults |
| Generator.MismatchStopsRun | scripts/generator.py:32-36 | in validate mode, any custom field whose type is not equal, under Python's `==`, to the default one stops the run before any output step |
| Generator.ValidationReplacesDefaults | scripts/generator.py:37-38 | after a successful validation without an object file, the result is exactly the custom pair, so default-only fields are absent |
| Generator.NoIncludeKeepsDefaults | scripts/generator.py:25-62 | without a custom directory no filter runs: the result is the default pair, whatever the validate and object flags say |
| Generator.ValidatedFilterKeepsPrefixed | scripts/generator.py:37-62 | validate mode with an object file keeps exactly the custom flat fields whose names start with a prefix, unchanged |
| Generator.ValidatedFilterStaysConsistent | scripts/generator.py:37-62 | validate mode with an object file: a custom pair whose flat keys are exactly the tree's flat names yields a result with the same property |
| Generator.FinishedRunsGatedSteps | scripts/generator.py:64-82 | a finished run performs exactly the gated steps, and its stripped mapping is that of its final flat mapping |
| Generator.MergedRunKeepsDefaults | scripts/generator.py:39-62 | without validate, given a merge that never overwrites base entries, every default flat field survives unchanged, or when filtering survives iff it starts with a prefix |

## Left out

- Argument parsing (`argument_parser`) and `read_version` are left out. `Generator.Options` holds the flags, with the custom pair and the object prefixes already loaded.
- The glob discovery of custom schema files is left out.
- Reading and YAML parsing of the object file are left out. Its contents are a `seq<string>` of prefixes.
  - An unreadable or non-list object file is not modelled.
  - When no custom directory is given, the object file is never opened. A file that could not be read therefore makes no difference in the source, but the model still takes its prefixes as given.
- `schema_reader.load_schemas` is not part of this model. Its `(nested, flat)` output is an input to `Run`.
- `ecs_helpers.safe_merge_dicts` is not part of this model. It enters `Run` as two function parameters, with no body. Its one promise, that user schemas never overwrite default entries, is assumed as `KeepsBase` only where a lemma needs it (`Generator.MergedRunKeepsDefaults`).
- The renderers are left out: `yaml_dump`, `intermediate_files`, `csv_generator`, `es_template`, `beats` and `asciidoc_fields`. They appear only as `Generator.Step` values, and the ECS version they receive is not modelled.
- Printed messages are left out. Only the reported data (field name and both types) is kept.
- The exit status is left out. `exit()` ends the run as `ValidationFailed` or, after an output step, simply stops the step list.
- In-place mutation and aliasing are not modelled. The model works on values:
  - `field.pop('fields')` leaves groups that are dropped without `fields` in the old tree, and the model does not track this because the old tree is discarded.
  - The kept group is the same object as the input group; the model builds an equal value instead.
- PrefixFilter.Retained: the order of keys inside a group dict is not modelled. In the source, `fields` is re-added last.
- The order of attributes inside a stripped record is not modelled, because records are plain maps.
- The order of local field names inside a kept group is not proved separately. The loop order is modelled by `SelectFieldsUpTo`, but its ordering property is stated only for the flat filter (`PrefixFilter.FilterFlatKeeps`).
- `Schema.Value` covers strings, integers, booleans and lists only. Floats, nulls and nested YAML mappings are not modelled. Types are compared with `Schema.PyEqual`, which follows Python's `==` on these values, a bool being equal to 1 or 0.
- Python type errors beyond those listed above are not modelled, because the types rule the inputs out: a non-string prefix, a group that is not a mapping (`field.pop`), a `fields` that is not a mapping, a field of a group that is not a mapping (`inner_field['flat_name']`), or a non-mapping flat entry.


/**
 The generator's `main`: load the default schemas, optionally bring in a
 directory of custom schemas (checked against the defaults in validate
 mode, merged under them otherwise), optionally cut the result down to the
 fields named by an object file, strip the flat fields, and hand the result
 to the renderers that the flags allow.
 */
module Generator {
  import opened PyDict
  import opened Schema
  import opened Validation
  import opened PrefixFilter
  import opened Strip

  /** The output steps at the end of `main` (scripts/generator.py:72-82), in the order `main` runs them. */
  datatype Step =
    | DumpStripped  // ecs_stripped_flat.yml
    | Intermediate  // intermediate files from (nested, flat)
    | Csv           // csv from flat
    | EsTemplate    // search template from flat
    | Beats         // beats fields from nested
    | Asciidoc      // field documentation from (nested, flat)

  /**
   The command line of a run, with the files it names already read:
   `custom` holds the `(nested, flat)` pair loaded from the custom schema
   directory, `objectPrefixes` the prefixes listed in the object file.
   */
  datatype Options = Options(
    intermediateOnly: bool,
    custom: Option<Schema>,
    validate: bool,
    objectPrefixes: Option<seq<string>>)

  /** How a run ends. */
  datatype Outcome =
    | ValidationFailed(field: string, customType: Value, defaultType: Value)
    | Aborted(crash: Crash)   // an uncaught exception
    | Finished(nested: Dict<Group>, flat: Dict<Field>, stripped: Dict<Record>, steps: seq<Step>)

  /** scripts/generator.py:72-82: which output steps run, given the three flags that gate them. */
  function Steps(intermediateOnly: bool, validate: bool, objectGiven: bool): (steps: seq<Step>)
    ensures |steps| >= 2 && steps[0] == DumpStripped && steps[1] == Intermediate
    ensures |steps| == if intermediateOnly then 2 else if validate || objectGiven then 4 else 6
    ensures |steps| >= 4 ==> steps[2] == Csv && steps[3] == EsTemplate
    ensures |steps| == 6 ==> steps[4] == Beats && steps[5] == Asciidoc
    ensures Csv in steps <==> !intermediateOnly
    ensures EsTemplate in steps <==> !intermediateOnly
    ensures Beats in steps <==> !intermediateOnly && !validate && !objectGiven
    ensures Asciidoc in steps <==> !intermediateOnly && !validate && !objectGiven
  {
    [DumpStripped, Intermediate] +
    if intermediateOnly then []
    else [Csv, EsTemplate] + if validate || objectGiven then [] else [Beats, Asciidoc]
  }

  /** scripts/generator.py:64-82, once the schema pair is final. */
  function Finish(nested: Dict<Group>, flat: Dict<Field>, opts: Options): Outcome {
    Finished(nested, flat, Stripped(flat), Steps(opts.intermediateOnly, opts.validate, opts.objectPrefixes.Some?))
  }

  /** scripts/generator.py:43-62, and then the rest of the run, from the merged or validated pair. */
  function FilterThenFinish(nested: Dict<Group>, flat: Dict<Field>, opts: Options): Outcome {
    if opts.objectPrefixes.None? then Finish(nested, flat, opts)
    else
      match FilterNested(nested, opts.objectPrefixes.value)
      case Err(e) => Aborted(e)
      case Ok(newNested) => Finish(newNested, FilterFlat(flat, opts.objectPrefixes.value), opts)
  }

  /**
   A whole run of `main`. `mergeNested` and `mergeFlat` stand for the merge
   helper that the default (non-validate) path applies to the nested and the
   flat pair.
   */
  function Run(opts: Options, defaults: Schema,
               mergeNested: (Dict<Group>, Dict<Group>) -> Dict<Group>,
               mergeFlat: (Dict<Field>, Dict<Field>) -> Dict<Field>): Outcome
  {
    if opts.custom.None? then Finish(defaults.nested, defaults.flat, opts)
    else
      var custom := opts.custom.value;
      if opts.validate then
        match Check(custom.flat, defaults.flat)
        case Mismatch(field, customType, defaultType) => ValidationFailed(field, customType, defaultType)
        case Crashed(e) => Aborted(e)
        case Compatible => FilterThenFinish(custom.nested, custom.flat, opts)
      else
        FilterThenFinish(mergeNested(defaults.nested, custom.nested), mergeFlat(defaults.flat, custom.flat), opts)
  }

  /** scripts/generator.py:64-82: strip the final flat mapping and run the steps the flags allow. */
  method Emit(nested: Dict<Group>, flat: Dict<Field>, opts: Options) returns (outcome: Outcome)
    ensures outcome == Finish(nested, flat, opts)
  {
    var stripped := StripFlat(flat);
    var steps := [DumpStripped, Intermediate];
    if !opts.intermediateOnly {
      steps := steps + [Csv, EsTemplate];
      if !(opts.validate || opts.objectPrefixes.Some?) {
        steps := steps + [Beats, Asciidoc];
      }
    }
    outcome := Finished(nested, flat, stripped, steps);
  }

  /** scripts/generator.py:43-82: apply the object filter when an object file is given, then emit. */
  method FilterAndEmit(nested: Dict<Group>, flat: Dict<Field>, opts: Options) returns (outcome: Outcome)
    ensures outcome == FilterThenFinish(nested, flat, opts)
  {
    if opts.objectPrefixes.None? {
      outcome := Emit(nested, flat, opts);
      return;
    }
    var prefixes := opts.objectPrefixes.value;
    var newNested := FilterNestedByPrefix(nested, prefixes);
    if newNested.Err? {
      return Aborted(newNested.crash);
    }
    var newFlat := FilterFlatByPrefix(flat, prefixes);
    outcome := Emit(newNested.value, newFlat, opts);
  }

  /** `main` itself, step by step. */
  method RunGenerator(opts: Options, defaults: Schema,
                      mergeNested: (Dict<Group>, Dict<Group>) -> Dict<Group>,
                      mergeFlat: (Dict<Field>, Dict<Field>) -> Dict<Field>) returns (outcome: Outcome)
    ensures outcome == Run(opts, defaults, mergeNested, mergeFlat)
  {
    var nested, flat := defaults.nested, defaults.flat;
    if opts.custom.None? {
      outcome := Emit(nested, flat, opts);
      return;
    }
    var custom := opts.custom.value;
    if opts.validate {
      var verdict := ValidateCustom(custom.flat, flat);
      if verdict.Mismatch? {
        return ValidationFailed(verdict.field, verdict.customType, verdict.defaultType);
      }
      if verdict.Crashed? {
        return Aborted(verdict.crash);
      }
      nested, flat := custom.nested, custom.flat;
    } else {
      nested, flat := mergeNested(nested, custom.nested), mergeFlat(flat, custom.flat);
    }
    outcome := FilterAndEmit(nested, flat, opts);
  }

  // ---------------------------------------------------------------------------
  // Properties of a run

  /**
   A validation failure happens only in validate mode with a custom
   directory, and reports the first custom field, in custom order, whose
   type is not equal, under Python's `==`, to that of the default field of
   the same name, with both types.
   */
  lemma ValidationFailureIsFirstMismatch(opts: Options, defaults: Schema,
                                         mergeNested: (Dict<Group>, Dict<Group>) -> Dict<Group>,
                                         mergeFlat: (Dict<Field>, Dict<Field>) -> Dict<Field>)
    requires Run(opts, defaults, mergeNested, mergeFlat).ValidationFailed?
    ensures opts.custom.Some? && opts.validate
    ensures var o := Run(opts, defaults, mergeNested, mergeFlat);
            var custom := opts.custom.value.flat;
      && o.field in custom.entries && o.field in defaults.flat.entries
      && "type" in custom.entries[o.field] && o.customType == custom.entries[o.field]["type"]
      && "type" in defaults.flat.entries[o.field] && o.defaultType == defaults.flat.entries[o.field]["type"]
      && !PyEqual(o.customType, o.defaultType)
      && forall j :: 0 <= j < IndexOf(custom, o.field) ==> Agrees(custom.entries, defaults.flat.entries, custom.keys[j])
  {
    MismatchIsFirstOffender(opts.custom.value.flat, defaults.flat);
  }

  /** In validate mode a run gets to its output steps only if every custom field agrees with the defaults. */
  lemma ValidatedRunsAgree(opts: Options, defaults: Schema,
                           mergeNested: (Dict<Group>, Dict<Group>) -> Dict<Group>,
                           mergeFlat: (Dict<Field>, Dict<Field>) -> Dict<Field>)
    requires opts.custom.Some? && opts.validate
    requires Run(opts, defaults, mergeNested, mergeFlat).Finished?
    ensures forall k :: k in opts.custom.value.flat.entries ==>
                          Agrees(opts.custom.value.flat.entries, defaults.flat.entries, k)
  {
    CompatibleIffAllAgree(opts.custom.value.flat, defaults.flat);
  }

  /**
   A successful validation replaces the default pair by the custom one
   outright: without an object file the run ends with exactly the custom
   schemas, so a field that only the defaults define is gone.
   */
  lemma ValidationReplacesDefaults(opts: Options, defaults: Schema,
                                   mergeNested: (Dict<Group>, Dict<Group>) -> Dict<Group>,
                                   mergeFlat: (Dict<Field>, Dict<Field>) -> Dict<Field>)
    requires opts.custom.Some? && opts.validate && opts.objectPrefixes.None?
    requires forall k :: k in opts.custom.value.flat.entries ==>
                           Agrees(opts.custom.value.flat.entries, defaults.flat.entries, k)
    ensures var o := Run(opts, defaults, mergeNested, mergeFlat);
      && o.Finished?
      && o.nested == opts.custom.value.nested
      && o.flat == opts.custom.value.flat
      && forall k :: k in defaults.flat.entries && k !in opts.custom.value.flat.entries ==> k !in o.flat.entries
  {
    CompatibleIffAllAgree(opts.custom.value.flat, defaults.flat);
  }

  /**
   The object file is read only together with a custom directory: without
   one the run ends with the default schemas, unfiltered, whatever the
   other flags say.
   */
  lemma NoIncludeKeepsDefaults(opts: Options, defaults: Schema,
                               mergeNested: (Dict<Group>, Dict<Group>) -> Dict<Group>,
                               mergeFlat: (Dict<Field>, Dict<Field>) -> Dict<Field>)
    requires opts.custom.None?
    ensures var o := Run(opts, defaults, mergeNested, mergeFlat);
      o.Finished? && o.nested == defaults.nested && o.flat == defaults.flat
  {
  }

  /**
   With a custom directory and an object file, a finished run keeps exactly
   the flat fields of the schema it filtered whose names start with a
   listed prefix; in validate mode that schema is the custom one.
   */
  lemma ValidatedFilterKeepsPrefixed(opts: Options, defaults: Schema,
                                     mergeNested: (Dict<Group>, Dict<Group>) -> Dict<Group>,
                                     mergeFlat: (Dict<Field>, Dict<Field>) -> Dict<Field>)
    requires opts.custom.Some? && opts.validate && opts.objectPrefixes.Some?
    requires Run(opts, defaults, mergeNested, mergeFlat).Finished?
    ensures var o := Run(opts, defaults, mergeNested, mergeFlat);
            var custom := opts.custom.value.flat;
      && (forall k :: k in o.flat.entries <==> k in custom.entries && AnyPrefix(k, opts.objectPrefixes.value))
      && (forall k :: k in o.flat.entries ==> o.flat.entries[k] == custom.entries[k])
  {
    FilterFlatKeeps(opts.custom.value.flat, opts.objectPrefixes.value);
  }

  /**
   In validate mode with an object file, a custom pair whose flat mapping
   holds exactly the flat names its tree declares yields a final pair with
   the same property.
   */
  lemma ValidatedFilterStaysConsistent(opts: Options, defaults: Schema,
                                       mergeNested: (Dict<Group>, Dict<Group>) -> Dict<Group>,
                                       mergeFlat: (Dict<Field>, Dict<Field>) -> Dict<Field>)
    requires opts.custom.Some? && opts.validate && opts.objectPrefixes.Some?
    requires forall s :: Declares(opts.custom.value.nested, s) <==> s in opts.custom.value.flat.entries
    requires Run(opts, defaults, mergeNested, mergeFlat).Finished?
    ensures var o := Run(opts, defaults, mergeNested, mergeFlat);
      forall s :: Declares(o.nested, s) <==> s in o.flat.entries
  {
    FiltersAgree(opts.custom.value.nested, opts.custom.value.flat, opts.objectPrefixes.value);
  }

  /**
   Whatever the inputs, a run that reaches its output steps runs exactly
   those that the three flags allow, and its stripped mapping is that of its
   final flat mapping.
   */
  lemma FinishedRunsGatedSteps(opts: Options, defaults: Schema,
                               mergeNested: (Dict<Group>, Dict<Group>) -> Dict<Group>,
                               mergeFlat: (Dict<Field>, Dict<Field>) -> Dict<Field>)
    requires Run(opts, defaults, mergeNested, mergeFlat).Finished?
    ensures var o := Run(opts, defaults, mergeNested, mergeFlat);
      && o.steps == Steps(opts.intermediateOnly, opts.validate, opts.objectPrefixes.Some?)
      && o.stripped == Stripped(o.flat)
  {
  }

  /**
   In validate mode, a custom field that is also a default field with a
   type not equal to it under Python's `==` means the run never reaches its
   output steps.
   */
  lemma MismatchStopsRun(opts: Options, defaults: Schema,
                         mergeNested: (Dict<Group>, Dict<Group>) -> Dict<Group>,
                         mergeFlat: (Dict<Field>, Dict<Field>) -> Dict<Field>, k: string)
    requires opts.custom.Some? && opts.validate
    requires k in opts.custom.value.flat.entries && k in defaults.flat.entries
    requires "type" in opts.custom.value.flat.entries[k] && "type" in defaults.flat.entries[k]
    requires !PyEqual(opts.custom.value.flat.entries[k]["type"], defaults.flat.entries[k]["type"])
    ensures !Run(opts, defaults, mergeNested, mergeFlat).Finished?
  {
    if Run(opts, defaults, mergeNested, mergeFlat).Finished? {
      ValidatedRunsAgree(opts, defaults, mergeNested, mergeFlat);
    }
  }

  /** A merge of flat mappings that never drops or overwrites an entry of the base mapping. */
  ghost predicate KeepsBase(mergeFlat: (Dict<Field>, Dict<Field>) -> Dict<Field>) {
    forall base: Dict<Field>, custom: Dict<Field>, k :: k in base.entries ==>
      k in mergeFlat(base, custom).entries && mergeFlat(base, custom).entries[k] == base.entries[k]
  }

  /**
   Without validate mode, custom schemas never override the defaults: given
   a merge that keeps the base entries, every default flat field reaches the
   end of a run without an object file unchanged, and reaches the end of one
   with an object file unchanged exactly when its name starts with a prefix.
   */
  lemma MergedRunKeepsDefaults(opts: Options, defaults: Schema,
                               mergeNested: (Dict<Group>, Dict<Group>) -> Dict<Group>,
                               mergeFlat: (Dict<Field>, Dict<Field>) -> Dict<Field>)
    requires opts.custom.Some? && !opts.validate
    requires KeepsBase(mergeFlat)
    requires Run(opts, defaults, mergeNested, mergeFlat).Finished?
    ensures var o := Run(opts, defaults, mergeNested, mergeFlat);
      forall k :: k in defaults.flat.entries ==>
        && (k in o.flat.entries <==> opts.objectPrefixes.None? || AnyPrefix(k, opts.objectPrefixes.value))
        && (k in o.flat.entries ==> o.flat.entries[k] == defaults.flat.entries[k])
  {
    var merged := mergeFlat(defaults.flat, opts.custom.value.flat);
    if opts.objectPrefixes.Some? {
      FilterFlatKeeps(merged, opts.objectPrefixes.value);
    }
  }
}

/**
 The two in-memory forms of a field schema that the generator works on:
 the nested tree (group name to group, each group holding its fields under
 their local names) and the flat mapping (dotted flat name to field).
 Both are insertion-ordered dictionaries, because the generator's output
 and the field it reports first depend on dictionary order.
 */
module Schema {
  import opened PyDict

  datatype Option<+T> = None | Some(value: T)

  /** A YAML attribute value as the schema loader hands it over. */
  datatype Value = Text(text: string) | Number(n: int) | Flag(b: bool) | Items(items: seq<Value>)

  /** The integer a Python `bool` stands for in arithmetic and comparison. */
  function BoolInt(b: bool): int {
    if b then 1 else 0
  }

  /**
   Python's `==` on these values. A `bool` is an `int` in Python, so
   `True == 1` and `False == 0`; lists are equal when they have the same
   length and equal items, position by position. Values of other kinds
   never compare equal.
   */
  predicate PyEqual(a: Value, b: Value) {
    match a
    case Text(s) => b.Text? && b.text == s
    case Number(m) => (b.Number? && b.n == m) || (b.Flag? && BoolInt(b.b) == m)
    case Flag(p) => (b.Flag? && b.b == p) || (b.Number? && b.n == BoolInt(p))
    case Items(xs) => b.Items? && |xs| == |b.items| && forall i :: 0 <= i < |xs| ==> PyEqual(xs[i], b.items[i])
  }

  /** Every value equals itself under Python's `==`. */
  lemma {:induction false} PyEqualReflexive(a: Value)
    ensures PyEqual(a, a)
  {
    if a.Items? {
      forall i | 0 <= i < |a.items| ensures PyEqual(a.items[i], a.items[i]) {
        PyEqualReflexive(a.items[i]);
      }
    }
  }

  /** Python's `==` on these values does not depend on the order of its operands. */
  lemma {:induction false} PyEqualSymmetric(a: Value, b: Value)
    ensures PyEqual(a, b) <==> PyEqual(b, a)
  {
    if a.Items? && b.Items? && |a.items| == |b.items| {
      forall i | 0 <= i < |a.items| ensures PyEqual(a.items[i], b.items[i]) <==> PyEqual(b.items[i], a.items[i]) {
        PyEqualSymmetric(a.items[i], b.items[i]);
      }
    }
  }

  /**
   A bool equals exactly the integer it stands for, in either operand
   order, and no value other than a number or a bool; lists are equal when
   they have the same length and equal items, position by position.
   */
  lemma BoolEqualsItsInt()
    ensures forall b: bool, n: int :: PyEqual(Number(n), Flag(b)) <==> n == BoolInt(b)
    ensures forall b: bool, n: int :: PyEqual(Flag(b), Number(n)) <==> n == BoolInt(b)
    ensures forall b: bool, v: Value :: !v.Number? && !v.Flag? ==> !PyEqual(Flag(b), v) && !PyEqual(v, Flag(b))
    ensures forall xs: seq<Value>, ys: seq<Value> ::
              PyEqual(Items(xs), Items(ys)) <==> |xs| == |ys| && forall i :: 0 <= i < |xs| ==> PyEqual(xs[i], ys[i])
  {
  }

  /** A value with no bool anywhere inside it. */
  predicate NoFlag(a: Value) {
    match a
    case Flag(_) => false
    case Items(xs) => forall i :: 0 <= i < |xs| ==> NoFlag(xs[i])
    case _ => true
  }

  /** Without bools, Python's `==` is plain equality of the values. */
  lemma {:induction false} PyEqualWithoutFlags(a: Value, b: Value)
    requires NoFlag(a) && NoFlag(b)
    ensures PyEqual(a, b) <==> a == b
  {
    PyEqualReflexive(a);
    if a.Items? && b.Items? && |a.items| == |b.items| && PyEqual(a, b) {
      forall i | 0 <= i < |a.items| ensures a.items[i] == b.items[i] {
        PyEqualWithoutFlags(a.items[i], b.items[i]);
      }
      assert a.items == b.items;
    }
  }

  /** A field definition: its attributes (`name`, `flat_name`, `type`, `description`, `example`, ...). */
  type Field = map<string, Value>

  /**
   A group of the nested tree: its own attributes, and its `fields`
   entry, which is absent once it has been popped.
   */
  datatype Group = Group(meta: Attributes, fields: Option<Dict<Field>>)

  /**
   A group's attributes other than `fields`: the `fields` entry of the group
   dict is held apart, in `Group.fields`, so it is never among them.
   */
  type Attributes = m: map<string, Value> | "fields" !in m witness map[]

  /** The `(nested, flat)` pair that loading a schema directory produces. */
  datatype Schema = Schema(nested: Dict<Group>, flat: Dict<Field>)

  /** An uncaught Python exception that ends the run. */
  datatype Crash =
    | KeyError(key: string)        // a subscript or `pop` of a missing key
    | AttributeError(attr: string) // a method called on a value that lacks it

  datatype Result<+T> = Ok(value: T) | Err(crash: Crash)

  /** Python's `s.startswith(p)`: exact and case-sensitive. */
  predicate StartsWith(s: string, p: string) {
    |p| <= |s| && s[..|p|] == p
  }

  /** `s` starts with at least one of the prefixes. */
  predicate AnyPrefix(s: string, prefixes: seq<string>) {
    exists p :: p in prefixes && StartsWith(s, p)
  }
}

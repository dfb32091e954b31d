/**
 * An abstract picture of the Java objects that the persistence layer stores and the
 * data converter copies: null, primitive-like values, objects of a named class with
 * their declared fields, and collections.
 */
module Objects {

  type ClassName = string

  datatype Value =
    | Null
      /** A boxed primitive or string: never an instance of a converted class. */
    | Prim(bits: int)
    | Obj(cls: ClassName, fields: seq<Field>)
    | Coll(elems: seq<Value>)

  /**
   * A declared instance field: its name, whether its declared type is a
   * `java.util.Collection`, and the value it holds.
   */
  datatype Field = Field(name: string, holdsCollection: bool, value: Value)

  /** `Class.isInstance`: null is an instance of no class. */
  predicate IsInstance(v: Value, cls: ClassName) {
    v.Obj? && v.cls == cls
  }

  /** `Class.cast` succeeds on null and on instances. */
  predicate Castable(v: Value, cls: ClassName) {
    v.Null? || IsInstance(v, cls)
  }

  function FieldNames(fs: seq<Field>): (names: seq<string>)
    ensures |names| == |fs|
    ensures forall i :: 0 <= i < |fs| ==> names[i] == fs[i].name
  {
    seq(|fs|, i requires 0 <= i < |fs| => fs[i].name)
  }

  /** No two declared fields of a class share a name. */
  predicate DistinctNames(fs: seq<Field>) {
    forall i, j :: 0 <= i < j < |fs| ==> fs[i].name != fs[j].name
  }

  /** `getDeclaredField`: the position of the field called `name`, or -1. */
  function FieldIndex(fs: seq<Field>, name: string): (k: int)
    ensures -1 <= k < |fs|
    ensures k == -1 <==> name !in FieldNames(fs)
    ensures 0 <= k ==> fs[k].name == name && forall j :: 0 <= j < k ==> fs[j].name != name
  {
    if fs == [] then -1
    else if fs[0].name == name then 0
    else
      var k := FieldIndex(fs[1..], name);
      assert FieldNames(fs) == [fs[0].name] + FieldNames(fs[1..]);
      if k == -1 then -1 else k + 1
  }
}

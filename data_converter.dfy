/**
 * One-off migration of stored records from legacy classes to their replacements.
 * Each object whose class has a known conversion becomes a fresh instance of the
 * target class whose same-named fields receive the (recursively translated) source
 * values; every other value is kept as it is.
 */
module Conversion {
  import opened Wrappers
  import opened Objects
  import opened Persistence

  /** One known conversion: instances of `fromClass` become instances of `toClass`. */
  datatype ClassConversion = ClassConversion(fromClass: ClassName, toClass: ClassName)

  /** For each class that can be instantiated, the fields of a fresh instance, in declaration order. */
  type ClassTable = map<ClassName, seq<Field>>

  const SerialVersionUid: string := "serialVersionUID"
  const ConversionFailed: string := "Data conversion failed"

  /** The position of the first conversion whose source class `v` is an instance of, or -1. */
  function FirstConversion(conversions: seq<ClassConversion>, v: Value): (k: int)
    ensures -1 <= k < |conversions|
    ensures k == -1 <==> forall j :: 0 <= j < |conversions| ==> !IsInstance(v, conversions[j].fromClass)
    ensures 0 <= k ==> IsInstance(v, conversions[k].fromClass)
    ensures 0 <= k ==> forall j :: 0 <= j < k ==> !IsInstance(v, conversions[j].fromClass)
  {
    if conversions == [] then -1
    else if IsInstance(v, conversions[0].fromClass) then 0
    else
      var k := FirstConversion(conversions[1..], v);
      if k == -1 then -1 else k + 1
  }

  /** The class `v` is to become: the target of the first matching conversion, if any. */
  function TranslatedClass(conversions: seq<ClassConversion>, v: Value): (r: Option<ClassName>)
    ensures r.Some? ==> v.Obj?
    ensures r.None? <==> forall j :: 0 <= j < |conversions| ==> !IsInstance(v, conversions[j].fromClass)
  {
    var k := FirstConversion(conversions, v);
    if k < 0 then None else Some(conversions[k].toClass)
  }

  /** The translation of one value (`translateObject`). */
  function Translate(classes: ClassTable, conversions: seq<ClassConversion>, v: Value): (r: Result<Value>)
    ensures TranslatedClass(conversions, v).None? ==> r == Ok(v)
    ensures TranslatedClass(conversions, v).Some? && TranslatedClass(conversions, v).value !in classes ==> r.Err?
    ensures r.Ok? && TranslatedClass(conversions, v).Some? ==>
              var to := TranslatedClass(conversions, v).value;
              to in classes && r.value.Obj? && r.value.cls == to && FieldNames(r.value.fields) == FieldNames(classes[to])
    decreases v, 1, 0
  {
    match TranslatedClass(conversions, v)
    case None => Ok(v)
    case Some(to) =>
      if to !in classes then Err("cannot instantiate " + to)
      else
        var fields :- CopyFields(classes, conversions, v, 0, classes[to]);
        Ok(Obj(to, fields))
  }

  /**
   * Copies the fields of `obj` from position `i` on into the target fields `acc`:
   * `serialVersionUID` and fields the target lacks are skipped, the rest are
   * translated and stored under the same name.
   */
  function CopyFields(classes: ClassTable, conversions: seq<ClassConversion>, obj: Value, i: nat, acc: seq<Field>): (r: Result<seq<Field>>)
    requires obj.Obj? && i <= |obj.fields|
    ensures r.Ok? ==> FieldNames(r.value) == FieldNames(acc)
    decreases obj, 0, |obj.fields| - i
  {
    if i == |obj.fields| then Ok(acc)
    else
      var f := obj.fields[i];
      assert f.value < obj by {
        assert f in obj.fields;
      }
      if f.name == SerialVersionUid then CopyFields(classes, conversions, obj, i + 1, acc)
      else
        var k := FieldIndex(acc, f.name);
        if k < 0 then CopyFields(classes, conversions, obj, i + 1, acc)
        else
          var t :- TranslateField(classes, conversions, f.holdsCollection, f.value);
          CopyFields(classes, conversions, obj, i + 1, acc[k := acc[k].(value := t)])
  }

  /**
   * The translation of a field's value (`translateField`): a field declared as a
   * collection becomes a new list of its translated elements; any other value is
   * translated as an object.
   */
  function TranslateField(classes: ClassTable, conversions: seq<ClassConversion>, holdsCollection: bool, v: Value): (r: Result<Value>)
    ensures holdsCollection && !v.Coll? ==> r.Err?
    ensures holdsCollection && r.Ok? ==> v.Coll? && r.value.Coll? && |r.value.elems| == |v.elems|
    decreases v, 2, 0
  {
    if holdsCollection then
      if v.Coll? then
        var elems :- TranslateElements(classes, conversions, v, 0, []);
        Ok(Coll(elems))
      else Err("not a collection")
    else Translate(classes, conversions, v)
  }

  /** Appends the translations of the elements of `coll` from position `i` on to `acc`. */
  function TranslateElements(classes: ClassTable, conversions: seq<ClassConversion>, coll: Value, i: nat, acc: seq<Value>): (r: Result<seq<Value>>)
    requires coll.Coll? && i <= |coll.elems|
    ensures r.Ok? ==> |r.value| == |acc| + |coll.elems| - i && r.value[..|acc|] == acc
    decreases coll, 0, |coll.elems| - i
  {
    if i == |coll.elems| then Ok(acc)
    else
      var t :- Translate(classes, conversions, coll.elems[i]);
      TranslateElements(classes, conversions, coll, i + 1, acc + [t])
  }

  /** `v` translates and the result casts to `toClass`. */
  predicate ConvertsTo(classes: ClassTable, conversions: seq<ClassConversion>, toClass: ClassName, v: Value) {
    Translate(classes, conversions, v).Ok? && Castable(Translate(classes, conversions, v).value, toClass)
  }

  predicate AllConvert(classes: ClassTable, conversions: seq<ClassConversion>, toClass: ClassName, vs: seq<Value>) {
    forall j :: 0 <= j < |vs| ==> ConvertsTo(classes, conversions, toClass, vs[j])
  }

  /** The translations of `vs`, in order. */
  function Converted(classes: ClassTable, conversions: seq<ClassConversion>, toClass: ClassName, vs: seq<Value>): (ts: seq<Value>)
    requires AllConvert(classes, conversions, toClass, vs)
    ensures |ts| == |vs|
    ensures forall j :: 0 <= j < |vs| ==> Translate(classes, conversions, vs[j]) == Ok(ts[j]) && Castable(ts[j], toClass)
  {
    seq(|vs|, j requires 0 <= j < |vs| => Translate(classes, conversions, vs[j]).value)
  }

  class DataConverter {
    const context: FileStore
    const knownConversions: seq<ClassConversion>
    const classes: ClassTable

    constructor (context: FileStore, knownConversions: seq<ClassConversion>, classes: ClassTable)
      ensures this.context == context && this.knownConversions == knownConversions && this.classes == classes
    {
      this.context := context;
      this.knownConversions := knownConversions;
      this.classes := classes;
    }

    /**
     * Moves the records stored for `fromClass` to the store of `toClass`, translated.
     * An empty source changes nothing; a record that fails to translate or to cast
     * aborts with "Data conversion failed" before either store is written; otherwise
     * the target receives the translations in order and the source is emptied.
     */
    method ConvertData(fromClass: ClassName, toClass: ClassName) returns (r: Outcome)
      modifies context
      ensures var originals := StoredItems(old(context.files), fromClass);
              && (originals == [] ==> r == Pass && context.files == old(context.files))
              && (originals != [] && !AllConvert(classes, knownConversions, toClass, originals) ==>
                    r == Fail(ConversionFailed) && context.files == old(context.files))
              && (originals != [] && AllConvert(classes, knownConversions, toClass, originals) ==>
                    r == Pass &&
                    context.files == old(context.files)
                      [DataFilename(toClass) := ListBlob(Converted(classes, knownConversions, toClass, originals))]
                      [DataFilename(fromClass) := ListBlob([])])
    {
      var source := new Persistor(fromClass, context);
      var target := new Persistor(toClass, context);
      var originalObjects := source.Load();
      if |originalObjects| > 0 {
        var translatedObjects: seq<Value> := [];
        for i := 0 to |originalObjects|
          invariant context.files == old(context.files)
          invariant |translatedObjects| == i
          invariant forall j :: 0 <= j < i ==> ConvertsTo(classes, knownConversions, toClass, originalObjects[j])
          invariant forall j :: 0 <= j < i ==> translatedObjects[j] == Translate(classes, knownConversions, originalObjects[j]).value
        {
          var translated := TranslateObject(originalObjects[i]);
          if translated.Err? || !Castable(translated.value, toClass) {
            return Fail(ConversionFailed);
          }
          translatedObjects := translatedObjects + [translated.value];
        }
        assert translatedObjects == Converted(classes, knownConversions, toClass, originalObjects);
        target.Persist(translatedObjects);
        source.Persist([]);
      }
      return Pass;
    }

    method TranslateObject(original: Value) returns (r: Result<Value>)
      ensures r == Translate(classes, knownConversions, original)
      decreases original, 1, 0
    {
      var translatedClass := FindTranslatedClass(original);
      if translatedClass.None? {
        return Ok(original);
      }
      var toClass := translatedClass.value;
      if toClass !in classes {
        return Err("cannot instantiate " + toClass);
      }
      var translated := classes[toClass];
      for i := 0 to |original.fields|
        invariant CopyFields(classes, knownConversions, original, 0, classes[toClass])
               == CopyFields(classes, knownConversions, original, i, translated)
      {
        var originalField := original.fields[i];
        if originalField.name != SerialVersionUid {
          var k := FieldIndex(translated, originalField.name);
          if k >= 0 {
            assert originalField in original.fields;
            var value := TranslateFieldValue(originalField.holdsCollection, originalField.value);
            if value.Err? {
              return Err(value.error);
            }
            translated := translated[k := translated[k].(value := value.value)];
          }
        }
      }
      return Ok(Obj(toClass, translated));
    }

    /** `findTranslatedClass`: scans the known conversions and stops at the first match. */
    method FindTranslatedClass(original: Value) returns (r: Option<ClassName>)
      ensures r == TranslatedClass(knownConversions, original)
    {
      r := None;
      for i := 0 to |knownConversions|
        invariant r.None?
        invariant forall j :: 0 <= j < i ==> !IsInstance(original, knownConversions[j].fromClass)
      {
        if IsInstance(original, knownConversions[i].fromClass) {
          r := Some(knownConversions[i].toClass);
          break;
        }
      }
    }

    method TranslateFieldValue(holdsCollection: bool, originalValue: Value) returns (r: Result<Value>)
      ensures r == TranslateField(classes, knownConversions, holdsCollection, originalValue)
      decreases originalValue, 2, 0
    {
      if !holdsCollection {
        r := TranslateObject(originalValue);
        return;
      }
      if !originalValue.Coll? {
        return Err("not a collection");
      }
      var translatedValue: seq<Value> := [];
      for i := 0 to |originalValue.elems|
        invariant TranslateElements(classes, knownConversions, originalValue, 0, [])
               == TranslateElements(classes, knownConversions, originalValue, i, translatedValue)
      {
        var translatedElement := TranslateObject(originalValue.elems[i]);
        if translatedElement.Err? {
          return Err(translatedElement.error);
        }
        translatedValue := translatedValue + [translatedElement.value];
      }
      return Ok(Coll(translatedValue));
    }
  }
  /** A value no conversion matches -- null, a primitive, a collection, an unlisted class -- comes back unchanged. */
  lemma UnmatchedValuePassesThrough(classes: ClassTable, conversions: seq<ClassConversion>, v: Value)
    requires forall j :: 0 <= j < |conversions| ==> !IsInstance(v, conversions[j].fromClass)
    ensures Translate(classes, conversions, v) == Ok(v)
  {
  }

  /** A match whose target class cannot be instantiated is an error. */
  lemma UninstantiableTargetFails(classes: ClassTable, conversions: seq<ClassConversion>, v: Value)
    requires TranslatedClass(conversions, v).Some? && TranslatedClass(conversions, v).value !in classes
    ensures Translate(classes, conversions, v).Err?
  {
  }

  /**
   * What copying the source fields from position `i` on does to the target fields
   * `acc`: names and declared types stay, `serialVersionUID` and fields the rest of
   * the source lacks keep their values, and every other field receives the
   * translation of the same-named source field.
   */
  lemma {:induction false} CopyFieldsEffect(classes: ClassTable, conversions: seq<ClassConversion>, obj: Value, i: nat,
                                            acc: seq<Field>, res: seq<Field>)
    requires obj.Obj? && i <= |obj.fields|
    requires DistinctNames(obj.fields) && DistinctNames(acc)
    requires CopyFields(classes, conversions, obj, i, acc) == Ok(res)
    ensures |res| == |acc|
    ensures forall k :: 0 <= k < |acc| ==> res[k].name == acc[k].name && res[k].holdsCollection == acc[k].holdsCollection
    ensures forall k :: 0 <= k < |acc| && (acc[k].name == SerialVersionUid || acc[k].name !in FieldNames(obj.fields[i..])) ==>
              res[k] == acc[k]
    ensures forall k, j :: 0 <= k < |acc| && i <= j < |obj.fields| && obj.fields[j].name == acc[k].name && acc[k].name != SerialVersionUid ==>
              TranslateField(classes, conversions, obj.fields[j].holdsCollection, obj.fields[j].value) == Ok(res[k].value)
    decreases |obj.fields| - i
  {
    if i < |obj.fields| {
      var f := obj.fields[i];
      assert FieldNames(obj.fields[i..]) == [f.name] + FieldNames(obj.fields[i + 1..]);
      if f.name == SerialVersionUid {
        CopyFieldsEffect(classes, conversions, obj, i + 1, acc, res);
      } else {
        var k0 := FieldIndex(acc, f.name);
        if k0 < 0 {
          CopyFieldsEffect(classes, conversions, obj, i + 1, acc, res);
        } else {
          var t := TranslateField(classes, conversions, f.holdsCollection, f.value).value;
          var acc' := acc[k0 := acc[k0].(value := t)];
          CopyFieldsEffect(classes, conversions, obj, i + 1, acc', res);
          assert f.name !in FieldNames(obj.fields[i + 1..]) by {
            forall j | i + 1 <= j < |obj.fields| ensures obj.fields[j].name != f.name {
            }
          }
        }
      }
    }
  }

  /**
   * A matched object becomes a fresh instance of the target class with exactly the
   * target's fields: `serialVersionUID` and fields missing from the source keep the
   * fresh instance's values, every other field holds the translation of the
   * same-named source field, and source fields the target lacks are dropped.
   */
  lemma MatchedObjectTranslation(classes: ClassTable, conversions: seq<ClassConversion>, v: Value, to: ClassName)
    requires TranslatedClass(conversions, v) == Some(to)
    requires to in classes && DistinctNames(classes[to]) && DistinctNames(v.fields)
    requires Translate(classes, conversions, v).Ok?
    ensures var r, init := Translate(classes, conversions, v).value, classes[to];
            && r.Obj? && r.cls == to && |r.fields| == |init|
            && FieldNames(r.fields) == FieldNames(init)
            && (forall k :: 0 <= k < |init| && (init[k].name == SerialVersionUid || init[k].name !in FieldNames(v.fields)) ==>
                  r.fields[k] == init[k])
            && (forall k, j :: 0 <= k < |init| && 0 <= j < |v.fields| && v.fields[j].name == init[k].name && init[k].name != SerialVersionUid ==>
                  r.fields[k] == init[k].(value := r.fields[k].value) &&
                  TranslateField(classes, conversions, v.fields[j].holdsCollection, v.fields[j].value) == Ok(r.fields[k].value))
  {
    var fields := CopyFields(classes, conversions, v, 0, classes[to]).value;
    assert v.fields[0..] == v.fields;
    CopyFieldsEffect(classes, conversions, v, 0, classes[to], fields);
  }

  /** What translating the elements of `coll` from position `i` on appends to `acc`. */
  lemma {:induction false} TranslateElementsEffect(classes: ClassTable, conversions: seq<ClassConversion>, coll: Value, i: nat, acc: seq<Value>)
    requires coll.Coll? && i <= |coll.elems|
    ensures TranslateElements(classes, conversions, coll, i, acc).Ok? <==>
              forall j :: i <= j < |coll.elems| ==> Translate(classes, conversions, coll.elems[j]).Ok?
    ensures TranslateElements(classes, conversions, coll, i, acc).Ok? ==>
              var ts := TranslateElements(classes, conversions, coll, i, acc).value;
              && |ts| == |acc| + |coll.elems| - i && ts[..|acc|] == acc
              && forall j :: i <= j < |coll.elems| ==> Translate(classes, conversions, coll.elems[j]) == Ok(ts[|acc| + j - i])
    decreases |coll.elems| - i
  {
    if i < |coll.elems| {
      var t := Translate(classes, conversions, coll.elems[i]);
      if t.Ok? {
        TranslateElementsEffect(classes, conversions, coll, i + 1, acc + [t.value]);
      }
    }
  }

  /**
   * A field declared as a collection translates exactly when it holds a collection
   * whose every element translates, and then becomes a list of the same length
   * holding each element's translation in the original order.
   */
  lemma CollectionFieldTranslation(classes: ClassTable, conversions: seq<ClassConversion>, v: Value)
    ensures TranslateField(classes, conversions, true, v).Ok? <==>
              v.Coll? && forall j :: 0 <= j < |v.elems| ==> Translate(classes, conversions, v.elems[j]).Ok?
    ensures TranslateField(classes, conversions, true, v).Ok? ==>
              var r := TranslateField(classes, conversions, true, v).value;
              && r.Coll? && |r.elems| == |v.elems|
              && forall j :: 0 <= j < |v.elems| ==> Translate(classes, conversions, v.elems[j]) == Ok(r.elems[j])
  {
    if v.Coll? {
      var elems := TranslateElements(classes, conversions, v, 0, []);
      TranslateElementsEffect(classes, conversions, v, 0, []);
      if elems.Ok? {
        assert TranslateField(classes, conversions, true, v) == Ok(Coll(elems.value));
      } else {
        assert TranslateField(classes, conversions, true, v).Err?;
      }
    }
  }

  /**
   * After a successful conversion between distinct classes, loading the target gives
   * the translated records in order and loading the source gives nothing.
   */
  lemma ConversionRoundTrip(classes: ClassTable, conversions: seq<ClassConversion>, files: map<string, Blob>,
                            fromClass: ClassName, toClass: ClassName, originals: seq<Value>)
    requires fromClass != toClass
    requires AllConvert(classes, conversions, toClass, originals)
    ensures var translated := Converted(classes, conversions, toClass, originals);
            var after := files[DataFilename(toClass) := ListBlob(translated)][DataFilename(fromClass) := ListBlob([])];
            && StoredItems(after, toClass) == translated
            && StoredItems(after, fromClass) == []
  {
    var translated := Converted(classes, conversions, toClass, originals);
    DataFilesDiffer(fromClass, toClass);
    PersistThenLoad(files, toClass, translated);
  }
}

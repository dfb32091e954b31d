/**
 * Saving and loading a list of records of one class, plus a per-class id counter,
 * over the device's private file store. The list lives in `<class>.data`, the
 * counter in `<class>.id`.
 */
module Persistence {
  import opened Wrappers
  import opened Java
  import opened Objects

  /** What a file yields when read back: a list, an `Integer`, or anything else (including unreadable bytes). */
  datatype Blob = ListBlob(items: seq<Value>) | IntBlob(n: int) | OtherBlob

  /** The application's private files, by name. */
  class FileStore {
    var files: map<string, Blob>

    constructor (files: map<string, Blob>)
      ensures this.files == files
    {
      this.files := files;
    }
  }

  /** The file holding a class's list: the class name followed by `.data`. */
  function DataFilename(cls: ClassName): (name: string)
    ensures |name| == |cls| + 5 && name[..|cls|] == cls && name[|cls|..] == ".data"
  {
    cls + ".data"
  }

  /** The file holding a class's id counter: the class name followed by `.id`. */
  function IdFilename(cls: ClassName): (name: string)
    ensures |name| == |cls| + 3 && name[..|cls|] == cls && name[|cls|..] == ".id"
  {
    cls + ".id"
  }

  /** The list file of one class is never the counter file of any class. */
  lemma DataAndIdFilesDiffer(c1: ClassName, c2: ClassName)
    ensures DataFilename(c1) != IdFilename(c2)
  {
    var d, i := DataFilename(c1), IdFilename(c2);
    assert d[|d| - 1] == 'a' && i[|i| - 1] == 'd';
  }

  /** Distinct classes keep their lists in distinct files. */
  lemma DataFilesDiffer(c1: ClassName, c2: ClassName)
    requires c1 != c2
    ensures DataFilename(c1) != DataFilename(c2)
  {
    var d1, d2 := DataFilename(c1), DataFilename(c2);
    assert d1[..|c1|] == c1 && d2[..|c2|] == c2;
  }

  /**
   * The longest prefix of `xs` whose elements all cast to `cls`: the items a load
   * collects before the first failing cast ends it.
   */
  function CastPrefix(xs: seq<Value>, cls: ClassName): (r: seq<Value>)
    ensures |r| <= |xs| && r == xs[..|r|]
    ensures forall j :: 0 <= j < |r| ==> Castable(r[j], cls)
    ensures |r| < |xs| ==> !Castable(xs[|r|], cls)
  {
    if xs == [] || !Castable(xs[0], cls) then []
    else [xs[0]] + CastPrefix(xs[1..], cls)
  }

  /** The castable prefix is the only prefix that is all castable and stops at a failure or the end. */
  lemma CastPrefixIsUnique(xs: seq<Value>, cls: ClassName, i: nat)
    requires i <= |xs|
    requires forall j :: 0 <= j < i ==> Castable(xs[j], cls)
    requires i == |xs| || !Castable(xs[i], cls)
    ensures CastPrefix(xs, cls) == xs[..i]
  {
  }

  /** What `load` returns for `cls`: nothing when the file is missing or is not a list. */
  function StoredItems(files: map<string, Blob>, cls: ClassName): (items: seq<Value>)
    ensures DataFilename(cls) !in files ==> items == []
  {
    var name := DataFilename(cls);
    if name in files && files[name].ListBlob? then CastPrefix(files[name].items, cls) else []
  }

  /** The counter `nextId` starts from: 0 without a file, an error when the file does not hold an `Integer`. */
  function StoredId(files: map<string, Blob>, cls: ClassName): (r: Result<int>)
    ensures IdFilename(cls) !in files ==> r == Ok(0)
    ensures r.Err? <==> IdFilename(cls) in files && !files[IdFilename(cls)].IntBlob?
  {
    var name := IdFilename(cls);
    if name !in files then Ok(0)
    else if files[name].IntBlob? then Ok(files[name].n)
    else Err("could not read " + name)
  }

  /** The id `nextId` hands out: one more than the stored counter, as a Java `int`. */
  function NextIdOf(files: map<string, Blob>, cls: ClassName): (r: Result<int>)
    ensures r.Err? <==> StoredId(files, cls).Err?
    ensures r.Ok? && StoredId(files, cls).value < MaxInt && InInt32(StoredId(files, cls).value) ==>
              r.value == StoredId(files, cls).value + 1
  {
    var id :- StoredId(files, cls);
    Ok(Wrap32(id + 1))
  }

  /**
   * The ids `k` successive `nextId` calls return and the files they leave, or the
   * error the first failing call raises.
   */
  function IdsIssued(files: map<string, Blob>, cls: ClassName, k: nat): (r: Result<(seq<int>, map<string, Blob>)>)
    ensures k > 0 && StoredId(files, cls).Err? ==> r.Err?
    ensures r.Ok? ==> |r.value.0| == k
    decreases k
  {
    if k == 0 then Ok(([], files))
    else
      var id :- NextIdOf(files, cls);
      var rest :- IdsIssued(files[IdFilename(cls) := IntBlob(id)], cls, k - 1);
      Ok(([id] + rest.0, rest.1))
  }

  class Persistor {
    const clazz: ClassName
    const context: FileStore

    constructor (clazz: ClassName, context: FileStore)
      ensures this.clazz == clazz && this.context == context
    {
      this.clazz := clazz;
      this.context := context;
    }

    /** Overwrites this class's list file with `items`. */
    method Persist(items: seq<Value>)
      modifies context
      ensures context.files == old(context.files)[DataFilename(clazz) := ListBlob(items)]
    {
      context.files := context.files[DataFilename(clazz) := ListBlob(items)];
    }

    /** Advances the counter and returns its new value; a counter file that cannot be read is an error. */
    method NextId() returns (r: Result<int>)
      modifies context
      ensures r == NextIdOf(old(context.files), clazz)
      ensures r.Ok? ==> context.files == old(context.files)[IdFilename(clazz) := IntBlob(r.value)]
      ensures r.Err? ==> context.files == old(context.files)
    {
      var currentId := LoadCurrentId();
      if currentId.Err? {
        return Err(currentId.error);
      }
      var nextId := Wrap32(currentId.value + 1);
      SaveCurrentId(nextId);
      return Ok(nextId);
    }

    method SaveCurrentId(currentId: int)
      modifies context
      ensures context.files == old(context.files)[IdFilename(clazz) := IntBlob(currentId)]
    {
      context.files := context.files[IdFilename(clazz) := IntBlob(currentId)];
    }

    method LoadCurrentId() returns (r: Result<int>)
      ensures r == StoredId(context.files, clazz)
      ensures r.Ok? && IdFilename(clazz) in context.files ==> context.files[IdFilename(clazz)] == IntBlob(r.value)
    {
      var name := IdFilename(clazz);
      if name in context.files {
        var blob := context.files[name];
        if blob.IntBlob? {
          r := Ok(blob.n);
        } else {
          r := Err("could not read " + name);
        }
      } else {
        r := Ok(0);
      }
    }

    /**
     * Reads this class's list back: empty when the file is missing or is not a list,
     * and otherwise the items up to the first one that does not cast to the class.
     */
    method Load() returns (items: seq<Value>)
      ensures items == StoredItems(context.files, clazz)
      ensures DataFilename(clazz) in context.files && context.files[DataFilename(clazz)].ListBlob? ==>
                items <= context.files[DataFilename(clazz)].items
    {
      items := [];
      var name := DataFilename(clazz);
      if name in context.files && context.files[name].ListBlob? {
        var itemsFromFile := context.files[name].items;
        var i := 0;
        while i < |itemsFromFile| && Castable(itemsFromFile[i], clazz)
          invariant 0 <= i <= |itemsFromFile|
          invariant items == itemsFromFile[..i]
          invariant forall j :: 0 <= j < i ==> Castable(itemsFromFile[j], clazz)
        {
          items := items + [itemsFromFile[i]];
          i := i + 1;
        }
        CastPrefixIsUnique(itemsFromFile, clazz, i);
      }
    }
  }

  /** `persist` followed by `load` gives back the same items in the same order. */
  lemma PersistThenLoad(files: map<string, Blob>, cls: ClassName, items: seq<Value>)
    requires forall j :: 0 <= j < |items| ==> Castable(items[j], cls)
    ensures StoredItems(files[DataFilename(cls) := ListBlob(items)], cls) == items
  {
    CastPrefixIsUnique(items, cls, |items|);
  }

  /** A load that meets a failing cast returns only the items before it. */
  lemma LoadStopsAtFailedCast(files: map<string, Blob>, cls: ClassName, i: nat)
    requires DataFilename(cls) in files && files[DataFilename(cls)].ListBlob?
    requires i < |files[DataFilename(cls)].items| && !Castable(files[DataFilename(cls)].items[i], cls)
    ensures StoredItems(files, cls) <= files[DataFilename(cls)].items[..i]
  {
  }

  /** The first `nextId` without a counter file returns 1. */
  lemma FirstIdIsOne(files: map<string, Blob>, cls: ClassName)
    requires IdFilename(cls) !in files
    ensures NextIdOf(files, cls) == Ok(1)
  {
  }

  /**
   * From a readable counter `s`, `k` successive `nextId` calls return `s + 1`, ...,
   * `s + k`, leave the counter at `s + k`, and leave every class's list as it was.
   */
  lemma {:induction false} SuccessiveIdsAreConsecutive(files: map<string, Blob>, cls: ClassName, s: int, k: nat)
    requires StoredId(files, cls) == Ok(s) && MinInt <= s && s + k <= MaxInt
    ensures IdsIssued(files, cls, k).Ok?
    ensures var (ids, after) := IdsIssued(files, cls, k).value;
            && |ids| == k
            && (forall i :: 0 <= i < k ==> ids[i] == s + i + 1)
            && StoredId(after, cls) == Ok(s + k)
            && forall c :: StoredItems(after, c) == StoredItems(files, c)
    decreases k
  {
    if k > 0 {
      var next := files[IdFilename(cls) := IntBlob(s + 1)];
      assert NextIdOf(files, cls) == Ok(s + 1);
      forall c ensures StoredItems(next, c) == StoredItems(files, c) {
        DataAndIdFilesDiffer(c, cls);
      }
      SuccessiveIdsAreConsecutive(next, cls, s + 1, k - 1);
    }
  }

  /** `persist` never touches any class's counter. */
  lemma PersistLeavesCounters(files: map<string, Blob>, cls: ClassName, items: seq<Value>, other: ClassName)
    ensures StoredId(files[DataFilename(cls) := ListBlob(items)], other) == StoredId(files, other)
  {
    DataAndIdFilesDiffer(cls, other);
  }

  /** `nextId` never changes what `load` returns, for any class. */
  lemma NextIdLeavesLists(files: map<string, Blob>, cls: ClassName, id: int, other: ClassName)
    ensures StoredItems(files[IdFilename(cls) := IntBlob(id)], other) == StoredItems(files, other)
  {
    DataAndIdFilesDiffer(other, cls);
  }
}

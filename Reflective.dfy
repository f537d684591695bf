/**
 * `ReflectiveCsvMapper`: turns one header-keyed record into a fresh object
 * of a target class by calling, for every column, a declared method whose
 * name matches the column.
 *
 * Reflection is abstracted: a target class is its name, the sequence of its
 * declared methods and whether its no-argument constructor can be used; a
 * declared method is its name and what invoking it with one `String` does.
 * An object records, per method name, the last value that method received.
 */
module Reflective {
  import opened CsvErrors
  import opened JavaStrings

  /** What `Method.invoke(object, value)` does for a declared method. */
  datatype Effect =
    | Stores        // the method accepts the String and returns normally
    | Throws        // IllegalAccessException or InvocationTargetException
    | BadArguments  // IllegalArgumentException: not a one-String-parameter method

  datatype DeclaredMethod = DeclaredMethod(name: string, effect: Effect)

  datatype TargetClass = TargetClass(name: string, methods: seq<DeclaredMethod>, constructible: bool)

  /** An object of a target class: which method received which value. */
  class Instance {
    const className: string
    var received: map<string, string>

    constructor (className: string)
      ensures this.className == className && received == map[]
    {
      this.className := className;
      received := map[];
    }

    /** The effect of a setter that stores its argument. */
    method Receive(methodName: string, value: string)
      modifies this
      ensures received == old(received)[methodName := value]
    {
      received := received[methodName := value];
    }
  }

  /** A column name as matched: lower case, every space removed. */
  function NormaliseColumn(column: string): string {
    Replace(ToLowerCase(column), " ", "")
  }

  /** A method name as matched: lower case, every `"set"` deleted in one pass. */
  function SetterKey(methodName: string): string {
    Replace(ToLowerCase(methodName), "set", "")
  }

  predicate Matches(m: DeclaredMethod, column: string) {
    SetterKey(m.name) == column
  }

  predicate HasSetter(cls: TargetClass, column: string) {
    exists m :: m in cls.methods && Matches(m, column)
  }

  /** Two different columns of the record normalise to the same key. */
  predicate Collides(record: map<string, string>) {
    exists a, b :: a in record && b in record && a != b && NormaliseColumn(a) == NormaliseColumn(b)
  }

  /** A normalised column contains neither a space nor an upper-case letter. */
  predicate IsNormal(column: string) {
    forall i :: 0 <= i < |column| ==> column[i] != ' ' && !IsUpper(column[i])
  }

  lemma NormaliseColumnIsNormal(column: string)
    ensures IsNormal(NormaliseColumn(column))
  {
    DeleteCharRemovesAll(ToLowerCase(column), ' ');
    DeleteCharKeepsLower(ToLowerCase(column), ' ');
  }

  /** Normalising leaves a normal column alone, so it is idempotent. */
  lemma NormaliseColumnFixesNormal(column: string)
    requires IsNormal(column)
    ensures NormaliseColumn(column) == column
  {
    assert ToLowerCase(column) == column;
    DeleteAbsentChar(column, ' ');
  }

  lemma NormaliseColumnIdempotent(column: string)
    ensures NormaliseColumn(NormaliseColumn(column)) == NormaliseColumn(column)
  {
    NormaliseColumnIsNormal(column);
    NormaliseColumnFixesNormal(NormaliseColumn(column));
  }

  /**
   * `formatRecord`: a headerless (empty) record is refused; otherwise every
   * column is renamed to its normalised form and keeps its value, and two
   * columns normalising alike make the collection fail.
   */
  function FormatRecord(record: map<string, string>): (r: Result<map<string, string>, Failure<string>>)
    ensures |record| == 0 ==> r == Failure(Headless)
    ensures |record| > 0 && Collides(record) ==> r == Failure(DuplicateKey)
    ensures r.Success? <==> |record| > 0 && !Collides(record)
    ensures r.Success? ==> |r.value| == |record|
    ensures r.Success? ==> forall k :: k in r.value ==> IsNormal(k)
    ensures r.Success? ==> forall k :: k in record ==> NormaliseColumn(k) in r.value && r.value[NormaliseColumn(k)] == record[k]
    ensures r.Success? ==> forall n :: n in r.value ==> exists k :: k in record && NormaliseColumn(k) == n
  {
    if |record| == 0 then Failure(Headless)
    else if Collides(record) then Failure(DuplicateKey)
    else
      var formatted := map k | k in record :: NormaliseColumn(k) := record[k];
      FormattedSize(record, formatted);
      FormattedNormal(record, formatted);
      Success(formatted)
  }

  lemma FormattedNormal(record: map<string, string>, formatted: map<string, string>)
    requires forall n :: n in formatted ==> exists k :: k in record && NormaliseColumn(k) == n
    ensures forall n :: n in formatted ==> IsNormal(n)
  {
    forall n | n in formatted
      ensures IsNormal(n)
    {
      var k :| k in record && NormaliseColumn(k) == n;
      NormaliseColumnIsNormal(k);
    }
  }

  /** Renaming without collisions keeps the number of columns. */
  lemma FormattedSize(record: map<string, string>, formatted: map<string, string>)
    requires !Collides(record)
    requires formatted.Keys == set k | k in record :: NormaliseColumn(k)
    ensures |formatted| == |record|
  {
    var keys := record.Keys;
    var renamed := set k | k in keys :: NormaliseColumn(k);
    InjectiveImageSize(keys, renamed);
  }

  lemma {:induction false} InjectiveImageSize(keys: set<string>, renamed: set<string>)
    requires forall a, b :: a in keys && b in keys && a != b ==> NormaliseColumn(a) != NormaliseColumn(b)
    requires renamed == set k | k in keys :: NormaliseColumn(k)
    ensures |renamed| == |keys|
    decreases |keys|
  {
    if keys != {} {
      var k :| k in keys;
      var rest := set j | j in keys - {k} :: NormaliseColumn(j);
      InjectiveImageSize(keys - {k}, rest);
      assert renamed == rest + {NormaliseColumn(k)};
      assert NormaliseColumn(k) !in rest;
    }
  }

  /** A record whose columns are all normal formats to itself. */
  lemma FormatNormalRecord(record: map<string, string>)
    requires |record| > 0
    requires forall k :: k in record ==> IsNormal(k)
    ensures FormatRecord(record) == Success(record)
  {
    forall k | k in record
      ensures NormaliseColumn(k) == k
    {
      NormaliseColumnFixesNormal(k);
    }
    assert !Collides(record);
    assert FormatRecord(record).Success?;
    var formatted := FormatRecord(record).value;
    forall n | n in formatted
      ensures n in record
    {
      var k :| k in record && NormaliseColumn(k) == n;
    }
    assert formatted.Keys == record.Keys;
    assert forall k :: k in record ==> formatted[k] == record[k];
    assert formatted == record;
  }

  /** Formatting a formatted record changes nothing. */
  lemma FormatRecordIdempotent(record: map<string, string>)
    requires FormatRecord(record).Success?
    ensures FormatRecord(FormatRecord(record).value) == FormatRecord(record)
  {
    FormatNormalRecord(FormatRecord(record).value);
  }

  /**
   * When `setterOf` names, for each column, the only method matching it,
   * and that method stores, every column stores.
   */
  lemma UniqueSettersStore(cls: TargetClass, fields: map<string, string>, setterOf: map<string, string>)
    requires setterOf.Keys == fields.Keys
    requires forall k :: k in fields ==> DeclaredMethod(setterOf[k], Stores) in cls.methods
    requires forall k :: k in fields ==> Matches(DeclaredMethod(setterOf[k], Stores), k)
    requires forall k, m :: k in fields && m in cls.methods && Matches(m, k) ==> m == DeclaredMethod(setterOf[k], Stores)
    ensures AllColumnsStore(cls, fields)
  {
    forall k | k in fields
      ensures HasSetter(cls, k)
    {
      assert DeclaredMethod(setterOf[k], Stores) in cls.methods;
    }
  }

  /**
   * When each column has exactly one matching method, the object the
   * mapping produces is determined: it has received exactly the column
   * values, each through the column's own setter.
   */
  lemma BindsDetermined(cls: TargetClass, fields: map<string, string>, received: map<string, string>, setterOf: map<string, string>)
    requires setterOf.Keys == fields.Keys
    requires forall k, m :: k in fields && m in cls.methods && Matches(m, k) ==> m == DeclaredMethod(setterOf[k], Stores)
    requires Binds(cls, fields, received)
    ensures received.Keys == set k | k in fields :: setterOf[k]
    ensures forall k :: k in fields ==> received[setterOf[k]] == fields[k]
  {
    BindsEveryColumn(cls, fields, received, setterOf);
    BindsOnlyColumns(cls, fields, received, setterOf);
    SettersReceived(fields, received, setterOf);
  }

  lemma SettersReceived(fields: map<string, string>, received: map<string, string>, setterOf: map<string, string>)
    requires setterOf.Keys == fields.Keys
    requires forall k :: k in fields ==> setterOf[k] in received && received[setterOf[k]] == fields[k]
    requires forall n :: n in received ==> exists k :: k in fields && setterOf[k] == n
    ensures received.Keys == set k | k in fields :: setterOf[k]
  {
  }

  /** `BindsDetermined` for a record of two columns, with the object spelled out. */
  lemma BindsTwoColumns(cls: TargetClass, fields: map<string, string>, received: map<string, string>,
                        setterOf: map<string, string>, a: string, b: string)
    requires fields.Keys == {a, b} && setterOf.Keys == fields.Keys
    requires forall k, m :: k in fields && m in cls.methods && Matches(m, k) ==> m == DeclaredMethod(setterOf[k], Stores)
    requires Binds(cls, fields, received)
    ensures received == map[setterOf[a] := fields[a], setterOf[b] := fields[b]]
  {
    BindsEveryColumn(cls, fields, received, setterOf);
    BindsOnlyColumns(cls, fields, received, setterOf);
    TwoSettersReceived(fields, received, setterOf, a, b);
  }

  lemma TwoSettersReceived(fields: map<string, string>, received: map<string, string>,
                           setterOf: map<string, string>, a: string, b: string)
    requires fields.Keys == {a, b} && setterOf.Keys == fields.Keys
    requires forall k :: k in fields ==> setterOf[k] in received && received[setterOf[k]] == fields[k]
    requires forall n :: n in received ==> exists k :: k in fields && setterOf[k] == n
    ensures received == map[setterOf[a] := fields[a], setterOf[b] := fields[b]]
  {
    assert a in fields && b in fields;
    assert received.Keys == {setterOf[a], setterOf[b]};
  }

  lemma BindsEveryColumn(cls: TargetClass, fields: map<string, string>, received: map<string, string>, setterOf: map<string, string>)
    requires setterOf.Keys == fields.Keys
    requires forall k, m :: k in fields && m in cls.methods && Matches(m, k) ==> m == DeclaredMethod(setterOf[k], Stores)
    requires Binds(cls, fields, received)
    ensures forall k :: k in fields ==> setterOf[k] in received && received[setterOf[k]] == fields[k]
  {
    forall k | k in fields
      ensures setterOf[k] in received && received[setterOf[k]] == fields[k]
    {
      var m :| m in cls.methods && Matches(m, k) && m.effect == Stores && m.name in received;
      assert m == DeclaredMethod(setterOf[k], Stores);
    }
  }

  lemma BindsOnlyColumns(cls: TargetClass, fields: map<string, string>, received: map<string, string>, setterOf: map<string, string>)
    requires setterOf.Keys == fields.Keys
    requires forall k, m :: k in fields && m in cls.methods && Matches(m, k) ==> m == DeclaredMethod(setterOf[k], Stores)
    requires Binds(cls, fields, received)
    ensures forall n :: n in received ==> exists k :: k in fields && setterOf[k] == n
  {
    forall n | n in received
      ensures exists k :: k in fields && setterOf[k] == n
    {
      var k := SetterKey(n);
      assert DeclaredMethod(n, Stores) in cls.methods && Matches(DeclaredMethod(n, Stores), k);
    }
  }

  /** Every column has a matching method and every matching method stores. */
  ghost predicate AllColumnsStore(cls: TargetClass, fields: map<string, string>) {
    forall k :: k in fields ==>
      && HasSetter(cls, k)
      && forall m :: m in cls.methods && Matches(m, k) ==> m.effect == Stores
  }

  /**
   * The object is populated from `fields`: every column's value went to one
   * of the column's matching methods, every method that received a value
   * matches a column and received that column's value, and no column's
   * value went through two methods.
   */
  ghost predicate Binds(cls: TargetClass, fields: map<string, string>, received: map<string, string>) {
    && (forall k :: k in fields ==>
          exists m :: m in cls.methods && Matches(m, k) && m.effect == Stores && m.name in received)
    && (forall n :: n in received ==>
          DeclaredMethod(n, Stores) in cls.methods && SetterKey(n) in fields && received[n] == fields[SetterKey(n)])
    && (forall n1, n2 :: n1 in received && n2 in received && SetterKey(n1) == SetterKey(n2) ==> n1 == n2)
  }

  /** `e` is a failure that mapping the column `k` can raise. */
  ghost predicate ColumnCanFail(cls: TargetClass, fields: map<string, string>, k: string, e: Failure<string>) {
    && k in fields
    && ((!HasSetter(cls, k) && e == NoSetter(k, cls.name))
        || exists m :: m in cls.methods && Matches(m, k) &&
             ((m.effect == Throws && e == SetterFailed(cls.name, m.name))
              || (m.effect == BadArguments && e == IllegalArgument(m.name))))
  }

  /** A column without a matching method fails the mapping. */
  lemma MissingSetterFails(cls: TargetClass, fields: map<string, string>, k: string)
    requires k in fields && !HasSetter(cls, k)
    ensures ColumnCanFail(cls, fields, k, NoSetter(k, cls.name))
    ensures !AllColumnsStore(cls, fields)
  {
  }

  /** A matching method that does not store fails the mapping. */
  lemma FailingSetterFails(cls: TargetClass, fields: map<string, string>, k: string, m: DeclaredMethod, e: Failure<string>)
    requires k in fields && m in cls.methods && Matches(m, k)
    requires (m.effect == Throws && e == SetterFailed(cls.name, m.name))
             || (m.effect == BadArguments && e == IllegalArgument(m.name))
    ensures ColumnCanFail(cls, fields, k, e)
    ensures !AllColumnsStore(cls, fields)
  {
  }

  /**
   * Progress of the walk over the columns: each column done so far has a
   * storing setter that received a value, and every value received is the
   * value of a column done so far, through the setter chosen for it.
   */
  ghost predicate BoundSoFar(cls: TargetClass, fields: map<string, string>, chosen: map<string, DeclaredMethod>, received: map<string, string>) {
    && chosen.Keys <= fields.Keys
    && (forall k :: k in chosen ==>
          chosen[k] in cls.methods && Matches(chosen[k], k)
          && chosen[k].effect == Stores && chosen[k].name in received)
    && (forall n :: n in received ==>
          DeclaredMethod(n, Stores) in cls.methods && SetterKey(n) in chosen && chosen[SetterKey(n)].name == n
          && received[n] == fields[SetterKey(n)])
  }

  /** Invoking a storing setter for one more column keeps the walk's progress. */
  lemma BindOneMore(cls: TargetClass, fields: map<string, string>, chosen: map<string, DeclaredMethod>,
                    received: map<string, string>, k: string, setter: DeclaredMethod)
    requires BoundSoFar(cls, fields, chosen, received)
    requires k in fields && k !in chosen && setter in cls.methods && Matches(setter, k) && setter.effect == Stores
    ensures BoundSoFar(cls, fields, chosen[k := setter], received[setter.name := fields[k]])
  {
    assert setter == DeclaredMethod(setter.name, Stores);
  }

  /** `columns` lists each key of `chosen` exactly once. */
  ghost predicate EnumeratesOnce<V>(columns: seq<string>, chosen: map<string, V>) {
    && (forall i, j :: 0 <= i < j < |columns| ==> columns[i] != columns[j])
    && (forall i :: 0 <= i < |columns| ==> columns[i] in chosen)
    && (forall k :: k in chosen ==> k in columns)
  }

  lemma EnumerateOneMore(columns: seq<string>, chosen: map<string, DeclaredMethod>, k: string, setter: DeclaredMethod)
    requires EnumeratesOnce(columns, chosen) && k !in chosen
    ensures EnumeratesOnce(columns + [k], chosen[k := setter])
  {
  }

  lemma EnumeratesAll(columns: seq<string>, chosen: map<string, DeclaredMethod>, fields: map<string, string>)
    requires EnumeratesOnce(columns, chosen) && chosen.Keys == fields.Keys
    ensures EnumeratesOnce(columns, fields)
  {
  }

  /** Once every column has its storing setter, the object binds the record. */
  lemma EveryColumnBound(cls: TargetClass, fields: map<string, string>, chosen: map<string, DeclaredMethod>, received: map<string, string>)
    requires chosen.Keys == fields.Keys
    requires BoundSoFar(cls, fields, chosen, received)
    ensures Binds(cls, fields, received)
    ensures forall k :: k in fields ==> HasSetter(cls, k)
  {
    forall k | k in fields
      ensures HasSetter(cls, k)
      ensures exists m :: m in cls.methods && Matches(m, k) && m.effect == Stores && m.name in received
    {
      var m := chosen[k];
      assert m in cls.methods && Matches(m, k) && m.effect == Stores && m.name in received;
    }
  }

  class ReflectiveCsvMapper {
    const clazz: TargetClass

    constructor (clazz: TargetClass)
      ensures this.clazz == clazz
    {
      this.clazz := clazz;
    }

    /**
     * `findSetterMethod`: some declared method matching the column (`findAny`
     * promises no particular one), or `NoSetter` naming column and class.
     */
    method FindSetter(column: string) returns (r: Result<DeclaredMethod, Failure<string>>)
      ensures r.Success? ==> r.value in clazz.methods && Matches(r.value, column)
      ensures r.Failure? <==> !HasSetter(clazz, column)
      ensures r.Failure? ==> r.error == NoSetter(column, clazz.name)
    {
      if m :| m in clazz.methods && Matches(m, column) {
        r := Success(m);
      } else {
        r := Failure(NoSetter(column, clazz.name));
      }
    }

    /** `newEmptyResultObject`: a fresh, untouched object, or `ConstructionFailed`. */
    method NewEmptyResultObject() returns (r: Result<Instance, Failure<string>>)
      ensures !clazz.constructible ==> r == Failure(ConstructionFailed(clazz.name))
      ensures clazz.constructible ==> r.Success? && fresh(r.value)
      ensures r.Success? ==> r.value.className == clazz.name && r.value.received == map[]
    {
      if !clazz.constructible {
        return Failure(ConstructionFailed(clazz.name));
      }
      var obj := new Instance(clazz.name);
      return Success(obj);
    }

    /**
     * `setValue`: invokes the setter on the object. A setter that throws
     * becomes `SetterFailed` naming class and method; an argument mismatch
     * escapes as `IllegalArgument`. Only a storing setter changes the object.
     */
    method SetValue(setter: DeclaredMethod, obj: Instance, value: string) returns (r: Outcome<Failure<string>>)
      modifies obj
      ensures setter.effect == Stores ==> r == Pass && obj.received == old(obj.received)[setter.name := value]
      ensures setter.effect == Throws ==> r == Fail(SetterFailed(clazz.name, setter.name))
      ensures setter.effect == BadArguments ==> r == Fail(IllegalArgument(setter.name))
      ensures setter.effect != Stores ==> obj.received == old(obj.received)
    {
      match setter.effect
      case Stores =>
        obj.Receive(setter.name, value);
        r := Pass;
      case Throws =>
        r := Fail(SetterFailed(clazz.name, setter.name));
      case BadArguments =>
        r := Fail(IllegalArgument(setter.name));
    }

    /**
     * The `forEach` of `map(record)`: for each column of the formatted
     * record, in no particular order, find a setter and invoke it with the
     * column's raw value; the first failure ends the walk. `calls` lists the
     * columns whose setter was invoked, in order.
     */
    method SetAll(fields: map<string, string>, obj: Instance) returns (r: Outcome<Failure<string>>, ghost calls: seq<string>)
      requires obj.received == map[]
      modifies obj
      ensures r.Pass? ==> Binds(clazz, fields, obj.received) && EnumeratesOnce(calls, fields)
      ensures r.Pass? ==> forall k :: k in fields ==> HasSetter(clazz, k)
      ensures r.Fail? ==> exists k :: ColumnCanFail(clazz, fields, k, r.error)
      ensures AllColumnsStore(clazz, fields) ==> r.Pass?
    {
      calls := [];
      var todo := fields.Keys;
      ghost var chosen: map<string, DeclaredMethod> := map[];
      while todo != {}
        invariant todo <= fields.Keys
        invariant chosen.Keys == fields.Keys - todo
        invariant EnumeratesOnce(calls, chosen)
        invariant BoundSoFar(clazz, fields, chosen, obj.received)
        decreases todo
      {
        var k :| k in todo;
        var found := FindSetter(k);
        if found.Failure? {
          MissingSetterFails(clazz, fields, k);
          return Fail(found.error), calls;
        }
        var setter := found.value;
        label step:
        var outcome := SetValue(setter, obj, fields[k]);
        EnumerateOneMore(calls, chosen, k, setter);
        calls := calls + [k];
        if outcome.Fail? {
          FailingSetterFails(clazz, fields, k, setter, outcome.error);
          return outcome, calls;
        }
        BindOneMore(clazz, fields, chosen, old@step(obj.received), k, setter);
        chosen := chosen[k := setter];
        todo := todo - {k};
      }
      EveryColumnBound(clazz, fields, chosen, obj.received);
      EnumeratesAll(calls, chosen, fields);
      r := Pass;
    }

    /**
     * `map(record)`: construct the object first, then format the record,
     * then set every column on the object.
     */
    method Map(record: map<string, string>) returns (r: Result<Instance, Failure<string>>, ghost calls: seq<string>)
      ensures !clazz.constructible ==> r == Failure(ConstructionFailed(clazz.name)) && calls == []
      ensures clazz.constructible && FormatRecord(record).Failure? ==>
                r == Failure(FormatRecord(record).error) && calls == []
      ensures clazz.constructible && FormatRecord(record).Success? ==>
                var fields := FormatRecord(record).value;
                && (r.Success? ==> fresh(r.value) && r.value.className == clazz.name
                                   && Binds(clazz, fields, r.value.received) && EnumeratesOnce(calls, fields)
                                   && forall k :: k in fields ==> HasSetter(clazz, k))
                && (r.Failure? ==> exists k :: ColumnCanFail(clazz, fields, k, r.error))
                && (AllColumnsStore(clazz, fields) ==> r.Success?)
    {
      calls := [];
      var created := NewEmptyResultObject();
      if created.Failure? {
        return Failure(created.error), calls;
      }
      var obj := created.value;
      var formatted := FormatRecord(record);
      if formatted.Failure? {
        return Failure(formatted.error), calls;
      }
      var outcome;
      outcome, calls := SetAll(formatted.value, obj);
      if outcome.Fail? {
        return Failure(outcome.error), calls;
      }
      r := Success(obj);
    }
  }

  /** The example target class: two getters and two one-String setters. */
  const ExampleOutput := TargetClass("ExampleOutput", [
    DeclaredMethod("getX", BadArguments), DeclaredMethod("setX", Stores),
    DeclaredMethod("getY", BadArguments), DeclaredMethod("setY", Stores)], true)

  /** The setter `ExampleOutput` declares for each of its columns. */
  const ExampleSetters: map<string, string> := map["x" := "setX", "y" := "setY"]

  /** The names of `ExampleOutput`'s methods as matched against columns. */
  lemma ExampleOutputSetterKeys()
    ensures SetterKey("getX") == "getx" && SetterKey("getY") == "gety"
    ensures SetterKey("setX") == "x" && SetterKey("setY") == "y"
  {
    assert ToLowerCase("getX") == "getx";
    ReplaceSkip("etx", "set", "", 0, "tx");
    ReplaceSkip("getx", "set", "", 0, "etx");
    assert ToLowerCase("getY") == "gety";
    ReplaceSkip("ety", "set", "", 0, "ty");
    ReplaceSkip("gety", "set", "", 0, "ety");
    assert ToLowerCase("setX") == "setx";
    ReplaceHit("setx", "set", "", "x");
    assert ToLowerCase("setY") == "sety";
    ReplaceHit("sety", "set", "", "y");
  }

  /** The record `x -> foo, y -> bar` is already normal and formats to itself. */
  lemma ExampleRecordFormats()
    ensures FormatRecord(map["x" := "foo", "y" := "bar"]) == Success(map["x" := "foo", "y" := "bar"])
  {
    var record := map["x" := "foo", "y" := "bar"];
    assert forall k :: k in record ==> k == "x" || k == "y";
    assert IsNormal("x") && IsNormal("y");
    FormatNormalRecord(record);
  }

  /** `ExampleOutput` has exactly one method for each of the columns `x` and `y`, and it stores. */
  lemma ExampleOutputMatches(m: DeclaredMethod)
    requires m in ExampleOutput.methods
    ensures Matches(m, "x") <==> m == DeclaredMethod("setX", Stores)
    ensures Matches(m, "y") <==> m == DeclaredMethod("setY", Stores)
  {
    ExampleOutputSetterKeys();
    assert m == ExampleOutput.methods[0] || m == ExampleOutput.methods[1]
        || m == ExampleOutput.methods[2] || m == ExampleOutput.methods[3];
  }

  /** In `ExampleOutput`, column `x` is served only by `setX` and column `y` only by `setY`. */
  lemma ExampleOutputUnique()
    ensures forall k, m :: k in ExampleSetters && m in ExampleOutput.methods && Matches(m, k) ==>
              m == DeclaredMethod(ExampleSetters[k], Stores)
  {
    forall k, m | k in ExampleSetters && m in ExampleOutput.methods && Matches(m, k)
      ensures m == DeclaredMethod(ExampleSetters[k], Stores)
    {
      ExampleOutputMatches(m);
    }
  }

  /** Every column of the record `x -> foo, y -> bar` has a setter in `ExampleOutput`, and it stores. */
  lemma ExampleOutputStores()
    ensures AllColumnsStore(ExampleOutput, map["x" := "foo", "y" := "bar"])
  {
    assert DeclaredMethod("setX", Stores) in ExampleOutput.methods;
    assert DeclaredMethod("setY", Stores) in ExampleOutput.methods;
    ExampleOutputMatches(DeclaredMethod("setX", Stores));
    ExampleOutputMatches(DeclaredMethod("setY", Stores));
    ExampleOutputUnique();
    UniqueSettersStore(ExampleOutput, map["x" := "foo", "y" := "bar"], ExampleSetters);
  }

  /**
   * The only object the record `x -> foo, y -> bar` can produce has had
   * `setX("foo")` and `setY("bar")` called on it.
   */
  lemma ExampleOutputMapping(received: map<string, string>)
    requires Binds(ExampleOutput, map["x" := "foo", "y" := "bar"], received)
    ensures received == map["setX" := "foo", "setY" := "bar"]
  {
    ExampleOutputUnique();
    BindsTwoColumns(ExampleOutput, map["x" := "foo", "y" := "bar"], received, ExampleSetters, "x", "y");
  }

  /** A header with a space and capitals finds its camel-case setter. */
  lemma SpacedHeaderMatchesSetter()
    ensures NormaliseColumn("X Y") == "xy"
    ensures SetterKey("setXY") == "xy"
  {
    assert ToLowerCase("X Y") == "x y";
    ReplaceSkip("y", " ", "", 0, "");
    ReplaceHit(" y", " ", "", "y");
    ReplaceSkip("x y", " ", "", 0, " y");
    assert ToLowerCase("setXY") == "setxy";
    ReplaceHit("setxy", "set", "", "xy");
  }

  /** Every occurrence of "set" is deleted, not only a leading one. */
  lemma SetterKeyDeletesInnerSet()
    ensures SetterKey("resetX") == "rex"
  {
    assert ToLowerCase("resetX") == "resetx";
    ReplaceHit("setx", "set", "", "x");
    ReplaceSkip("esetx", "set", "", 0, "setx");
    ReplaceSkip("resetx", "set", "", 0, "esetx");
  }

  /**
   * The deletion is a single pass: the "set" that deleting an inner "set"
   * brings together survives, so `sesett` serves the column `set`.
   */
  lemma SetterKeyIsSinglePass()
    ensures SetterKey("sesett") == "set"
  {
    assert ToLowerCase("sesett") == "sesett";
    ReplaceHit("sett", "set", "", "t");
    ReplaceSkip("esett", "set", "", 0, "sett");
    ReplaceSkip("sesett", "set", "", 2, "esett");
  }
}

/**
 * The activity context: a store from identity-compared keys to nullable
 * values, shared by an activity and its sub-activities. A missing key and a
 * key mapped to null both count as "not there" for the existence checks.
 */
module Contexts {
  import opened RuntimeClasses
  import opened ContextKeys
  import opened MessageCategories
  import opened ResultMessages
  import opened Results

  /** A context value: Java `null`, or an object of some runtime class. */
  datatype ContextValue = Null | Obj(runtimeClass: ClassTag, payload: int)

  type ContextMap = map<ActivityContextKey, ContextValue>

  /** `get(key)`: null for an absent key or a key mapped to null, the stored object otherwise. */
  function Lookup(m: ContextMap, key: ActivityContextKey): (v: ContextValue)
    ensures v == Null <==> key !in m || m[key] == Null
    ensures v != Null ==> v == m[key]
  {
    if key in m then m[key] else Null
  }

  /** `contextExists`: the key is present, whatever its value; an absent key reads as null. */
  function Exists(m: ContextMap, key: ActivityContextKey): (b: bool)
    ensures b <==> key in m
    ensures !b ==> Lookup(m, key) == Null
  {
    key in m
  }

  /** `contextExistsAndNotNull`: present and mapped to a non-null value, which is what a lookup sees. */
  function ExistsAndNotNull(m: ContextMap, key: ActivityContextKey): (b: bool)
    ensures b <==> Lookup(m, key) != Null
    ensures b ==> Exists(m, key)
  {
    key in m && m[key] != Null
  }

  /**
   * `addContext(key, value, overwrite)`: the key is always present afterwards and
   * other keys keep their values; the key takes the new value unless the put does
   * not overwrite and the key already held a non-null value.
   */
  function Put(m: ContextMap, key: ActivityContextKey, value: ContextValue, overwrite: bool): (r: ContextMap)
    ensures r.Keys == m.Keys + {key}
    ensures forall k :: k in m && k != key ==> r[k] == m[k]
    ensures overwrite ==> r[key] == value
    ensures !overwrite ==> r[key] == if ExistsAndNotNull(m, key) then m[key] else value
  {
    if overwrite then m[key := value]
    else if !ExistsAndNotNull(m, key) then m[key := value]
    else m
  }

  /** `removeContext(key)`: the key is gone and every other entry is kept. */
  function Remove(m: ContextMap, key: ActivityContextKey): (r: ContextMap)
    ensures r.Keys == m.Keys - {key}
    ensures forall k :: k in r ==> r[k] == m[k]
  {
    m - {key}
  }

  /** The ERROR message recorded when a required key is missing or null. */
  function MissingMessage(key: ActivityContextKey): string
  {
    "'" + key.description + "' does not exist in the current context."
  }

  /** What the typed `get(key, type)` yields: a value (possibly null), or ActivityException. */
  datatype TypedLookup =
    | Found(value: ContextValue)
    | TypeMismatch(key: ActivityContextKey, expected: ClassTag, actual: ClassTag)

  /** `get(key, type)`: null passes, an exact class match passes, anything else is refused. */
  function GetTyped(m: ContextMap, key: ActivityContextKey, expected: ClassTag): (r: TypedLookup)
    ensures r.Found? <==> Lookup(m, key) == Null || Lookup(m, key).runtimeClass == expected
    ensures r.Found? ==> r.value == Lookup(m, key)
    ensures r.TypeMismatch? ==> r == TypeMismatch(key, expected, Lookup(m, key).runtimeClass)
  {
    var value := Lookup(m, key);
    if value == Null then Found(Null)
    else if value.runtimeClass == expected then Found(value)
    else TypeMismatch(key, expected, value.runtimeClass)
  }

  /** An instance of a proper subclass of the requested class is refused. */
  lemma SubclassInstanceRefused(m: ContextMap, key: ActivityContextKey, expected: ClassTag)
    requires Lookup(m, key).Obj? && Lookup(m, key).runtimeClass.IsStrictSubclassOf(expected)
    ensures GetTyped(m, key, expected).TypeMismatch?
  {
    SubclassIsDifferent(Lookup(m, key).runtimeClass, expected);
  }

  /** An overwriting put maps the key to the value and leaves every other key as it was. */
  lemma OverwritingPut(m: ContextMap, key: ActivityContextKey, value: ContextValue, other: ActivityContextKey)
    requires other != key
    ensures Exists(Put(m, key, value, true), key) && Lookup(Put(m, key, value, true), key) == value
    ensures Exists(Put(m, key, value, true), other) == Exists(m, other)
    ensures Lookup(Put(m, key, value, true), other) == Lookup(m, other)
  {
  }

  /** A non-overwriting put changes nothing when the key holds a non-null value, and otherwise acts as an overwriting put. */
  lemma NonOverwritingPut(m: ContextMap, key: ActivityContextKey, value: ContextValue)
    ensures ExistsAndNotNull(m, key) ==> Put(m, key, value, false) == m
    ensures !ExistsAndNotNull(m, key) ==> Put(m, key, value, false) == Put(m, key, value, true)
  {
  }

  /** Of two non-overwriting puts of non-null values, the first one to land wins. */
  lemma FirstNonOverwritingPutWins(m: ContextMap, key: ActivityContextKey, first: ContextValue, second: ContextValue)
    requires first != Null
    ensures Lookup(Put(Put(m, key, first, false), key, second, false), key)
         == if ExistsAndNotNull(m, key) then m[key] else first
  {
  }

  /** Removing a key makes it absent, leaves other keys alone, and is a no-op for an absent key. */
  lemma RemoveOnlyThatKey(m: ContextMap, key: ActivityContextKey, other: ActivityContextKey)
    requires other != key
    ensures !Exists(Remove(m, key), key) && Lookup(Remove(m, key), key) == Null
    ensures Exists(Remove(m, key), other) == Exists(m, other)
    ensures Lookup(Remove(m, key), other) == Lookup(m, other)
    ensures !Exists(m, key) ==> Remove(m, key) == m
  {
  }

  /** Keys are compared by identity: a put under one key is invisible under another with the same description. */
  lemma KeysAreIdentities(m: ContextMap, key: ActivityContextKey, twin: ActivityContextKey, value: ContextValue)
    requires twin != key && twin.description == key.description
    ensures Lookup(Put(m, key, value, true), twin) == Lookup(m, twin)
  {
    OverwritingPut(m, key, value, twin);
  }

  class ActivityContext {
    var context: ContextMap

    /** A fresh context is empty. */
    constructor ()
      ensures context == map[]
    {
      context := map[];
    }

    /** `addContext(key, value)`: put with overwrite. */
    method AddContext(key: ActivityContextKey, value: ContextValue)
      modifies this
      ensures context == Put(old(context), key, value, true)
    {
      AddContextWith(key, value, true);
    }

    /** `addContext(key, value, overwrite)`. */
    method AddContextWith(key: ActivityContextKey, value: ContextValue, overwrite: bool)
      modifies this
      ensures context == Put(old(context), key, value, overwrite)
    {
      if overwrite {
        context := context[key := value];
      } else if !ExistsAndNotNull(context, key) {
        context := context[key := value];
      }
    }

    /** `removeContext(key)`. */
    method RemoveContext(key: ActivityContextKey)
      modifies this
      ensures context == Remove(old(context), key)
    {
      context := context - {key};
    }

    /**
     * `contextExistsAndNotNull(key, result)`: when the key is missing or null,
     * records one ERROR message naming the key's description on `result`.
     */
    method ContextExistsAndNotNullRecording(key: ActivityContextKey, result: ActivityResult) returns (present: bool)
      modifies result`messages
      ensures present == ExistsAndNotNull(context, key)
      ensures result.State() == old(result.State()).(messages :=
        old(result.messages) + if present then [] else [ResultMessage(Error, MissingMessage(key))])
    {
      if !ExistsAndNotNull(context, key) {
        result.AddMessageOf(Error, MissingMessage(key));
        return false;
      }
      return true;
    }

    /**
     * `get(key, result)`: the same value as `get(key)`; a missing or null
     * value also records the ERROR message on `result`.
     */
    method GetRecording(key: ActivityContextKey, result: ActivityResult) returns (value: ContextValue)
      modifies result`messages
      ensures value == Lookup(context, key)
      ensures result.State() == old(result.State()).(messages :=
        old(result.messages) + if value != Null then [] else [ResultMessage(Error, MissingMessage(key))])
    {
      var present := ContextExistsAndNotNullRecording(key, result);
      if !present {
        return Null;
      }
      value := context[key];
    }
  }
}

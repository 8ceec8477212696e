/**
 * Lookups in a plain object literal used as a map from strings
 * (`typoMap[key]`), modelled as a list of entries in declaration order.
 */
module Records {
  import opened Wrappers
  import opened Strings

  /** The value of the first entry with key `key`: a lookup of the object's own keys. */
  function Lookup<V>(table: seq<(string, V)>, key: string): (r: Option<V>)
    ensures r.None? <==> forall i :: 0 <= i < |table| ==> table[i].0 != key
    ensures r.Some? ==> (key, r.value) in table
    ensures forall i :: (0 <= i < |table| && table[i].0 == key && (forall j :: 0 <= j < i ==> table[j].0 != key)) ==> r == Some(table[i].1)
  {
    if table == [] then None
    else if table[0].0 == key then Some(table[0].1)
    else Lookup(table[1..], key)
  }

  /**
   * The truthy properties an object literal inherits from `Object.prototype`,
   * as `String` renders them: its methods render as native functions and
   * `__proto__` (the prototype object itself) as `[object Object]`.
   */
  function InheritedProperty(key: string): (r: Option<string>)
    ensures r.Some? ==> r.value != []
  {
    if key == "__proto__" then Some("[object Object]")
    else if key in ["constructor"] then Some("function Object() { [native code] }")
    else if key in ["hasOwnProperty", "isPrototypeOf", "propertyIsEnumerable", "toString",
                    "valueOf", "toLocaleString", "__defineGetter__", "__defineSetter__",
                    "__lookupGetter__", "__lookupSetter__"]
    then Some("function " + key + "() { [native code] }")
    else None
  }

  /** A key at index `i` that no earlier entry has is looked up to the value at `i`. */
  lemma FirstHit<V>(table: seq<(string, V)>, i: nat, key: string)
    requires i < |table| && table[i].0 == key
    requires forall j :: 0 <= j < i ==> table[j].0 != key
    ensures Lookup(table, key) == Some(table[i].1)
  {
  }

  /**
   * `table[key]` on an object literal, tested for truthiness: an own entry
   * first, else a truthy inherited property.
   */
  function LookupAsWritten(table: seq<(string, string)>, key: string): (r: Option<string>)
    ensures Lookup(table, key).Some? ==> r == Lookup(table, key)
    ensures Lookup(table, key).None? ==> r == InheritedProperty(key)
  {
    if Lookup(table, key).Some? then Lookup(table, key) else InheritedProperty(key)
  }

  /** `constructor` is already in lower case, so a lookup of the lower-cased `constructor` is a lookup of `constructor`. */
  lemma ConstructorLowerCase()
    ensures ToLower("constructor") == "constructor"
  {
    ToLowerUnchanged("constructor");
  }
}

/**
 * An observable value backed by one key of a key/value preference store, for
 * enumerated values persisted by their constant names.
 *
 * The store keeps the listeners registered with it. A write to the store only
 * changes its entries; the change is then delivered to an observable by
 * `NotifyChanged`, the store's synchronous dispatch step, which reaches the
 * observable's listener only while that listener is registered.
 */
module Lifecycle {
  import opened Wrappers

  /** The in-memory key/value preference store and its registered change listeners. */
  class SharedPreferences {
    var entries: map<string, string>
    var listeners: set<object>

    constructor (initial: map<string, string>)
      ensures entries == initial && listeners == {}
    {
      entries := initial;
      listeners := {};
    }

    /** The text stored under `k`, or `fallback` when `k` is absent. */
    function GetString(k: string, fallback: string): string
      reads this
    {
      if k in entries then entries[k] else fallback
    }

    /** `edit().putString(k, v).apply()`. */
    method PutString(k: string, v: string)
      modifies this`entries
      ensures entries == old(entries)[k := v]
    {
      entries := entries[k := v];
    }

    method RegisterListener(l: object)
      modifies this`listeners
      ensures listeners == old(listeners) + {l}
    {
      listeners := listeners + {l};
    }

    method UnregisterListener(l: object)
      modifies this`listeners
      ensures listeners == old(listeners) - {l}
    {
      listeners := listeners - {l};
    }
  }

  /** The result of reading an enumerated value back from its stored name. */
  datatype Decoded<T> = Found(value: T) | UnknownName(text: string)

  /** No two constants share a name. */
  predicate NamesUnique<T>(constants: seq<T>, name: T -> string) {
    forall i, j :: 0 <= i < j < |constants| ==> name(constants[i]) != name(constants[j])
  }

  /**
   * `enumConstants.first { it.name == text }`: the first constant named `text`;
   * `first` throws when there is none, reported here as `UnknownName`.
   */
  function FirstNamed<T>(constants: seq<T>, name: T -> string, text: string): (r: Decoded<T>)
    ensures r.Found? ==> r.value in constants && name(r.value) == text
    ensures r.UnknownName? ==> r.text == text && forall c :: c in constants ==> name(c) != text
  {
    if constants == [] then UnknownName(text)
    else if name(constants[0]) == text then Found(constants[0])
    else FirstNamed(constants[1..], name, text)
  }

  /** Storing a constant by its name and reading the name back yields the same constant. */
  lemma {:induction false} NameRoundTrip<T>(constants: seq<T>, name: T -> string, v: T)
    requires v in constants && NamesUnique(constants, name)
    ensures FirstNamed(constants, name, name(v)) == Found(v)
  {
    if constants[0] != v {
      var k :| 0 <= k < |constants| && constants[k] == v;
      assert name(constants[0]) != name(constants[k]);
      assert v in constants[1..];
      NameRoundTrip(constants[1..], name, v);
    }
  }

  /**
   * `SharedPreferencesEnumeratedLiveData`: the value of enum type `T` stored under
   * `key` as its constant name, cached in `value` for observers.
   */
  class EnumPreferenceLiveData<T(!new)> {
    const prefs: SharedPreferences
    const key: string
    const defaultValue: T
    /** Every constant of the enum, in declaration order. */
    const constants: seq<T>
    const name: T -> string
    /** The value observers see; unset until the first load. */
    var value: Option<T>
    /** Whether the value has active observers. */
    var active: bool

    /** The listener is registered with the store exactly while the value is active. */
    ghost predicate Valid()
      reads this, prefs
    {
      && (active <==> this in prefs.listeners)
      && defaultValue in constants
      && NamesUnique(constants, name)
      && (forall v :: v in constants)
    }

    constructor (prefs: SharedPreferences, key: string, defaultValue: T, constants: seq<T>, name: T -> string)
      requires defaultValue in constants && NamesUnique(constants, name)
      requires forall v :: v in constants
      ensures Valid()
      ensures this.prefs == prefs && this.key == key && this.defaultValue == defaultValue
      ensures this.constants == constants && this.name == name
      ensures value == None && !active
    {
      this.prefs := prefs;
      this.key := key;
      this.defaultValue := defaultValue;
      this.constants := constants;
      this.name := name;
      value := None;
      active := false;
    }

    /**
     * `getValueFromPreferences`: the constant named by the stored text, with the
     * default's name standing in for an absent key.
     */
    function GetValueFromPreferences(): (r: Decoded<T>)
      requires Valid()
      reads this, prefs
      ensures key !in prefs.entries ==> r == Found(defaultValue)
      ensures r.Found? ==> name(r.value) == prefs.GetString(key, name(defaultValue))
      ensures r.UnknownName? <==> key in prefs.entries && forall c :: c in constants ==> name(c) != prefs.entries[key]
    {
      NameRoundTrip(constants, name, defaultValue);
      FirstNamed(constants, name, prefs.GetString(key, name(defaultValue)))
    }

    /** The stored text names `v`, so reading it back gives `v`. */
    lemma StoredRoundTrip(v: T)
      requires Valid() && key in prefs.entries && prefs.entries[key] == name(v)
      ensures GetValueFromPreferences() == Found(v)
    {
      NameRoundTrip(constants, name, v);
    }

    /**
     * `onActive`: reload the cached value from the store, then register the
     * listener. An unknown stored name stops the step before either happens.
     */
    method OnActive() returns (r: Decoded<T>)
      requires Valid() && !active
      modifies this, prefs`listeners
      ensures Valid()
      ensures r == old(GetValueFromPreferences())
      ensures r.Found? ==> value == Some(r.value) && active && prefs.listeners == old(prefs.listeners) + {this}
      ensures r.UnknownName? ==> value == old(value) && !active && prefs.listeners == old(prefs.listeners)
    {
      r := GetValueFromPreferences();
      if r.Found? {
        value := Some(r.value);
        prefs.RegisterListener(this);
        active := true;
      }
    }

    /** `onInactive`: unregister the listener; the cached value stays. */
    method OnInactive()
      requires Valid() && active
      modifies this`active, prefs`listeners
      ensures Valid() && !active
      ensures prefs.listeners == old(prefs.listeners) - {this}
    {
      prefs.UnregisterListener(this);
      active := false;
    }

    /**
     * `setValue`: store `v`'s name under the key and nothing else; the cached
     * value changes only when the store later notifies the listener.
     */
    method SetValue(v: T)
      requires Valid()
      modifies prefs`entries
      ensures Valid()
      ensures prefs.entries == old(prefs.entries)[key := name(v)]
      ensures GetValueFromPreferences() == Found(v)
      ensures value == old(value)
    {
      prefs.PutString(key, name(v));
      StoredRoundTrip(v);
    }

    /**
     * The store reports a change of `changedKey` to this observable. The listener
     * sees it only while registered, and reloads the value only for its own key.
     */
    method NotifyChanged(changedKey: string) returns (r: Option<Decoded<T>>)
      requires Valid()
      modifies this`value
      ensures Valid()
      ensures r.Some? <==> this in prefs.listeners && changedKey == key
      ensures r.None? ==> value == old(value)
      ensures r.Some? ==> r.value == GetValueFromPreferences()
      ensures r.Some? && r.value.Found? ==> value == Some(r.value.value)
      ensures r.Some? && r.value.UnknownName? ==> value == old(value)
    {
      r := None;
      if this in prefs.listeners && changedKey == key {
        var d := GetValueFromPreferences();
        r := Some(d);
        if d.Found? {
          value := Some(d.value);
        }
      }
    }
  }

  /**
   * A write to the observable's key by any writer while the observable is
   * inactive leaves the cached value alone; the next activation picks it up.
   */
  method WriteWhileInactiveThenActivate<T(!new)>(live: EnumPreferenceLiveData<T>, v: T)
    returns (delivered: Option<Decoded<T>>, whileInactive: Option<T>)
    requires live.Valid() && !live.active
    modifies live, live.prefs
    ensures live.prefs.entries == old(live.prefs.entries)[live.key := live.name(v)]
    ensures live.prefs.listeners == old(live.prefs.listeners) + {live}
    ensures delivered.None? && whileInactive == old(live.value)
    ensures live.Valid() && live.active
    ensures live.value == Some(v)
  {
    live.prefs.PutString(live.key, live.name(v));
    delivered := live.NotifyChanged(live.key);
    whileInactive := live.value;
    live.StoredRoundTrip(v);
    var r := live.OnActive();
  }
}

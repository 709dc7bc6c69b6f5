/**
 * The key/value settings table (src/backend/kv_config.rs): records of a key
 * and an optional JSON value, and the typed settings on top of it that read
 * their record, fall back to a default and write that default back.
 *
 * The table is a class whose rows the store operations update; a store
 * failure is a parameter of each operation. JSON values are the type
 * parameter `V`; serialising and deserialising a setting are parameters.
 */
module KvConfig {
  import opened Wrappers

  const TABLE_NAME := "settings"
  const MOTD_KEY := "motd"
  const EXTRA_SOURCES_KEY := "extra_sources"

  /** The `settings` table: the value field of the record stored under each key. */
  class SettingsTable<V> {
    var rows: map<string, Option<V>>

    constructor (rows: map<string, Option<V>>)
      ensures this.rows == rows
    {
      this.rows := rows;
    }
  }

  /** A `KVConfig` record held by the program. */
  class KVConfig<V> {
    var key: string
    var value: Option<V>

    /** `KVConfig::new`. */
    constructor (key: string, value: Option<V>)
      ensures this.key == key && this.value == value
    {
      this.key := key;
      this.value := value;
    }

    /**
     * `KVConfig::set`: the local value is set first; the record is then
     * upserted under its key unless the store fails.
     */
    method Set(table: SettingsTable<V>, v: V, storeError: Option<string>) returns (r: Result<(), string>)
      modifies this, table
      ensures key == old(key) && value == Some(v)
      ensures storeError.None? ==> r == Ok(()) && table.rows == old(table.rows)[key := Some(v)]
      ensures storeError.Some? ==> r == Err(storeError.value) && table.rows == old(table.rows)
    {
      value := Some(v);
      if storeError.Some? {
        return Err(storeError.value);
      }
      table.rows := table.rows[key := value];
      r := Ok(());
    }

    /** `KVConfig::delete`: the record under the key is gone unless the store fails. */
    method Delete(table: SettingsTable<V>, storeError: Option<string>) returns (r: Result<(), string>)
      modifies table
      ensures storeError.None? ==> r == Ok(()) && table.rows == old(table.rows) - {key}
      ensures storeError.Some? ==> r == Err(storeError.value) && table.rows == old(table.rows)
    {
      if storeError.Some? {
        return Err(storeError.value);
      }
      table.rows := table.rows - {key};
      r := Ok(());
    }
  }

  /** `KVConfig::get`: the record's value field under the key, or `None` without a record. */
  function Lookup<V>(rows: map<string, Option<V>>, key: string, readError: Option<string>): (r: Result<Option<Option<V>>, string>)
    ensures readError.Some? <==> r.Err?
    ensures r.Ok? ==> (r.value.Some? <==> key in rows)
    ensures r.Ok? && r.value.Some? ==> r.value.value == rows[key]
  {
    if readError.Some? then Err(readError.value)
    else if key in rows then Ok(Some(rows[key]))
    else Ok(None)
  }

  /** The setting a found record holds: its value, when it has one that deserialises. */
  function Stored<T, V>(found: Option<Option<V>>, fromValue: V -> Result<T, string>): (r: Option<T>)
    ensures r.Some? <==> found.Some? && found.value.Some? && fromValue(found.value.value).Ok?
    ensures r.Some? ==> r.value == fromValue(found.value.value).value
  {
    if found.Some? && found.value.Some? && fromValue(found.value.value).Ok?
    then Some(fromValue(found.value.value).value)
    else None
  }

  /**
   * What `KvOptExt::get` returns and the rows it leaves: a read error is
   * returned; a stored setting is returned without writing; otherwise the
   * default, when there is one, is serialised, written under the key and
   * returned, and without one the result is `None`.
   */
  function GetOutcome<T, V>(rows: map<string, Option<V>>, key: string, readError: Option<string>,
                            fromValue: V -> Result<T, string>, toValue: T -> Result<V, string>,
                            defaultValue: Option<T>, storeError: Option<string>)
    : (out: (Result<Option<T>, string>, map<string, Option<V>>))
    ensures readError.Some? ==> out == (Err(readError.value), rows)
    ensures readError.None? && key in rows && Stored(Some(rows[key]), fromValue).Some? ==>
              out == (Ok(Stored(Some(rows[key]), fromValue)), rows)
    ensures readError.None? && !(key in rows && Stored(Some(rows[key]), fromValue).Some?) ==>
              && (defaultValue.None? ==> out == (Ok(None), rows))
              && (defaultValue.Some? && toValue(defaultValue.value).Err? ==>
                    out == (Err(toValue(defaultValue.value).error), rows))
              && (defaultValue.Some? && toValue(defaultValue.value).Ok? && storeError.Some? ==>
                    out == (Err(storeError.value), rows))
              && (defaultValue.Some? && toValue(defaultValue.value).Ok? && storeError.None? ==>
                    out == (Ok(defaultValue), rows[key := Some(toValue(defaultValue.value).value)]))
    ensures out.1 != rows ==>
              && readError.None? && defaultValue.Some? && toValue(defaultValue.value).Ok? && storeError.None?
              && out == (Ok(defaultValue), rows[key := Some(toValue(defaultValue.value).value)])
    ensures out.0.Ok? && out.0.value.None? ==> defaultValue.None?
  {
    match Lookup(rows, key, readError)
    case Err(e) => (Err(e), rows)
    case Ok(found) =>
      if Stored(found, fromValue).Some? then (Ok(Stored(found, fromValue)), rows)
      else if defaultValue.None? then (Ok(None), rows)
      else
        match toValue(defaultValue.value)
        case Err(e) => (Err(e), rows)
        case Ok(v) =>
          if storeError.Some? then (Err(storeError.value), rows)
          else (Ok(defaultValue), rows[key := Some(v)])
  }

  /** `KvOptExt::get` on the table. */
  method Get<T, V>(table: SettingsTable<V>, key: string, readError: Option<string>,
                   fromValue: V -> Result<T, string>, toValue: T -> Result<V, string>,
                   defaultValue: Option<T>, storeError: Option<string>) returns (r: Result<Option<T>, string>)
    modifies table
    ensures (r, table.rows) == GetOutcome(old(table.rows), key, readError, fromValue, toValue, defaultValue, storeError)
  {
    var found := Lookup(table.rows, key, readError);
    if found.Err? {
      return Err(found.error);
    }
    var stored := Stored(found.value, fromValue);
    if stored.Some? {
      return Ok(stored);
    }
    if defaultValue.None? {
      return Ok(None);
    }
    var v := toValue(defaultValue.value);
    if v.Err? {
      return Err(v.error);
    }
    var record := new KVConfig(key, None);
    var written := record.Set(table, v.value, storeError);
    if written.Err? {
      return Err(written.error);
    }
    r := Ok(defaultValue);
  }

  /** `KvOptExt::set`: the serialised setting is upserted under the key. */
  method SetSetting<T, V>(table: SettingsTable<V>, key: string, setting: T, toValue: T -> Result<V, string>,
                          storeError: Option<string>) returns (r: Result<(), string>)
    modifies table
    ensures toValue(setting).Err? ==> r == Err(toValue(setting).error) && table.rows == old(table.rows)
    ensures toValue(setting).Ok? && storeError.None? ==>
              r == Ok(()) && table.rows == old(table.rows)[key := Some(toValue(setting).value)]
    ensures toValue(setting).Ok? && storeError.Some? ==> r == Err(storeError.value) && table.rows == old(table.rows)
  {
    var v := toValue(setting);
    if v.Err? {
      return Err(v.error);
    }
    var record := new KVConfig(key, None);
    r := record.Set(table, v.value, storeError);
  }

  /** `KvOptExt::delete`: the record under the key is removed. */
  method DeleteSetting<V>(table: SettingsTable<V>, key: string, storeError: Option<string>) returns (r: Result<(), string>)
    modifies table
    ensures storeError.None? ==> r == Ok(()) && table.rows == old(table.rows) - {key}
    ensures storeError.Some? ==> r == Err(storeError.value) && table.rows == old(table.rows)
  {
    var record := new KVConfig(key, None);
    r := record.Delete(table, storeError);
  }

  /** A setting whose serialised form deserialises back to it. */
  ghost predicate RoundTrips<T, V>(fromValue: V -> Result<T, string>, toValue: T -> Result<V, string>, t: T)
  {
    toValue(t).Ok? ==> fromValue(toValue(t).value) == Ok(t)
  }

  /** A read of a stored setting writes nothing; a failed read writes nothing either. */
  lemma GetFoundWritesNothing<T, V>(rows: map<string, Option<V>>, key: string, readError: Option<string>,
                                    fromValue: V -> Result<T, string>, toValue: T -> Result<V, string>,
                                    defaultValue: Option<T>, storeError: Option<string>)
    requires readError.Some? || (key in rows && rows[key].Some? && fromValue(rows[key].value).Ok?)
    ensures GetOutcome(rows, key, readError, fromValue, toValue, defaultValue, storeError).1 == rows
  {
  }

  /**
   * After the key is deleted, the next read writes the default back and
   * returns it (when there is one, it serialises and the store works).
   */
  lemma {:induction false} GetAfterDelete<T, V>(rows: map<string, Option<V>>, key: string,
                                                 fromValue: V -> Result<T, string>, toValue: T -> Result<V, string>,
                                                 d: T)
    requires toValue(d).Ok?
    ensures GetOutcome(rows - {key}, key, None, fromValue, toValue, Some(d), None) ==
              (Ok(Some(d)), (rows - {key})[key := Some(toValue(d).value)])
  {
    assert key !in rows - {key};
    assert Lookup(rows - {key}, key, None) == Ok(None);
  }

  /**
   * Reading twice gives the same setting and the second read writes nothing,
   * when the default round-trips through its serialised form.
   */
  lemma {:induction false} GetTwiceStable<T, V>(rows: map<string, Option<V>>, key: string,
                                                    fromValue: V -> Result<T, string>, toValue: T -> Result<V, string>,
                                                    defaultValue: Option<T>, storeError: Option<string>)
    requires defaultValue.Some? ==> RoundTrips(fromValue, toValue, defaultValue.value)
    ensures var first := GetOutcome(rows, key, None, fromValue, toValue, defaultValue, storeError);
            var second := GetOutcome(first.1, key, None, fromValue, toValue, defaultValue, storeError);
            first.0.Ok? ==> second == (first.0, first.1)
  {
    var first := GetOutcome(rows, key, None, fromValue, toValue, defaultValue, storeError);
    if first.0.Ok? && first.1 != rows {
      var v := toValue(defaultValue.value).value;
      assert first.1 == rows[key := Some(v)];
      assert Lookup(first.1, key, None) == Ok(Some(Some(v)));
      assert Stored(Some(Some(v)), fromValue) == defaultValue;
    }
  }
}

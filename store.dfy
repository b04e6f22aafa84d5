/**
 * The configuration store: one flat map from keys to values held by the
 * embedded engine, written by putValue and putDefault and read by getValue,
 * which falls back to getDefault.
 *
 * A read of a key in `faulty` is one the engine fails with an error other
 * than "key not found" (an I/O or corruption fault); the set is fixed for a
 * store, since nothing in the service makes reads fail.
 */
module ConfigStore {
  import opened Namespace

  /** Go's `err` after a lookup: nil, badger.ErrKeyNotFound, or any other engine error. */
  datatype Err = NoError | KeyNotFound | StoreFault

  /** The `(value string, err error)` pair that getValue and getDefault return. */
  datatype Answer = Answer(value: string, err: Err)

  /** One read-only transaction: txn.Get(key) followed by item.ValueCopy. */
  function Read(kv: map<string, string>, faulty: set<string>, key: string): Answer
  {
    if key in faulty then Answer("", StoreFault)
    else if key in kv then Answer(kv[key], NoError)
    else Answer("", KeyNotFound)
  }

  /** getDefault(key): a read of `"default:" + key`, reported as it comes. */
  function DefaultOf(kv: map<string, string>, faulty: set<string>, key: string): Answer
  {
    Read(kv, faulty, DefaultKey(key))
  }

  /** getValue(key): the key itself, and on any error its default. */
  function ValueOf(kv: map<string, string>, faulty: set<string>, key: string): Answer
  {
    var direct := Read(kv, faulty, key);
    if direct.err == NoError then direct else DefaultOf(kv, faulty, key)
  }

  /** A key the engine can read and holds. */
  predicate Readable(kv: map<string, string>, faulty: set<string>, key: string)
  {
    key in kv && key !in faulty
  }

  class Store {
    var kv: map<string, string>
    const faulty: set<string>

    /** An empty store whose reads of `faulty` fail. */
    constructor (faulty: set<string>)
      ensures kv == map[] && this.faulty == faulty
    {
      kv := map[];
      this.faulty := faulty;
    }

    /** putValue: sets `key` to `val` in one read-write transaction. */
    method Put(key: string, val: string)
      modifies this
      ensures kv == old(kv)[key := val]
    {
      kv := kv[key := val];
    }

    /** putDefault: sets `"default:" + key` and no other key; a direct value is never touched. */
    method PutDefault(key: string, val: string)
      modifies this
      ensures kv == old(kv)[DefaultKey(key) := val]
      ensures key in old(kv) ==> key in kv && kv[key] == old(kv)[key]
    {
      kv := kv[DefaultKey(key) := val];
    }

    /** getDefault: the value under `"default:" + key`, or "" with the engine's error. */
    method GetDefault(key: string) returns (value: string, err: Err)
      ensures Readable(kv, faulty, DefaultKey(key)) ==> value == kv[DefaultKey(key)] && err == NoError
      ensures DefaultKey(key) in faulty ==> value == "" && err == StoreFault
      ensures DefaultKey(key) !in faulty && DefaultKey(key) !in kv ==> value == "" && err == KeyNotFound
      ensures Answer(value, err) == DefaultOf(kv, faulty, key)
    {
      var item := Read(kv, faulty, DefaultKey(key));
      if item.err != NoError {
        return "", item.err;
      }
      value, err := item.value, NoError;
    }

    /** getValue: the stored value of `key` when it can be read, otherwise getDefault(key). */
    method Get(key: string) returns (value: string, err: Err)
      ensures Readable(kv, faulty, key) ==> value == kv[key] && err == NoError
      ensures !Readable(kv, faulty, key) ==> Answer(value, err) == DefaultOf(kv, faulty, key)
      ensures Answer(value, err) == ValueOf(kv, faulty, key)
    {
      var item := Read(kv, faulty, key);
      if item.err != NoError {
        value, err := GetDefault(key);
        return;
      }
      value, err := item.value, NoError;
    }
  }

  /** getValue succeeds exactly when the key or its default can be read, and then yields the stored value. */
  lemma ValueFoundIff(kv: map<string, string>, faulty: set<string>, key: string)
    ensures ValueOf(kv, faulty, key).err == NoError
      <==> Readable(kv, faulty, key) || Readable(kv, faulty, DefaultKey(key))
    ensures Readable(kv, faulty, key) ==> ValueOf(kv, faulty, key).value == kv[key]
    ensures !Readable(kv, faulty, key) && Readable(kv, faulty, DefaultKey(key))
      ==> ValueOf(kv, faulty, key).value == kv[DefaultKey(key)]
  {
  }

  /** With neither the key nor its default present, getValue reports "" with not-found. */
  lemma ValueAbsent(kv: map<string, string>, faulty: set<string>, key: string)
    requires key !in kv && DefaultKey(key) !in kv && DefaultKey(key) !in faulty
    ensures ValueOf(kv, faulty, key) == Answer("", KeyNotFound)
  {
  }

  /**
   * getValue falls back on any error of the direct read, not only on
   * not-found: a fault on the key itself is hidden by a readable default.
   */
  lemma FaultFallsBackToDefault(kv: map<string, string>, faulty: set<string>, key: string)
    requires key in faulty && Readable(kv, faulty, DefaultKey(key))
    ensures ValueOf(kv, faulty, key) == Answer(kv[DefaultKey(key)], NoError)
  {
  }

  /** putValue(k, v) then getValue(k) yields v (unless reads of k fail). */
  lemma PutThenGet(kv: map<string, string>, faulty: set<string>, key: string, val: string)
    requires key !in faulty
    ensures ValueOf(kv[key := val], faulty, key) == Answer(val, NoError)
  {
  }

  /**
   * putValue(k, v) leaves getValue of every other key as it was, except for
   * the key whose default it overwrites (k == "default:" + other).
   */
  lemma PutLeavesOthers(kv: map<string, string>, faulty: set<string>, key: string, val: string, other: string)
    requires other != key && DefaultKey(other) != key
    ensures ValueOf(kv[key := val], faulty, other) == ValueOf(kv, faulty, other)
  {
  }

  /** A readable direct value shadows the default: putDefault never changes what getValue returns for it. */
  lemma DirectShadowsDefault(kv: map<string, string>, faulty: set<string>, key: string, val: string)
    requires Readable(kv, faulty, key)
    ensures ValueOf(kv[DefaultKey(key) := val], faulty, key) == Answer(kv[key], NoError)
  {
  }

  /** putDefault(k, d) on a key with no direct value makes getValue(k) yield d. */
  lemma DefaultServesAbsentKey(kv: map<string, string>, faulty: set<string>, key: string, val: string)
    requires key !in kv && DefaultKey(key) !in faulty
    ensures ValueOf(kv[DefaultKey(key) := val], faulty, key) == Answer(val, NoError)
  {
  }

  /**
   * Seeding a default and then writing the key: getValue first yields the
   * default and, after the write, the written value.
   */
  lemma SeedThenOverride(kv: map<string, string>, faulty: set<string>, key: string, d: string, v: string)
    requires key !in kv && key !in faulty && DefaultKey(key) !in faulty
    ensures ValueOf(kv[DefaultKey(key) := d], faulty, key) == Answer(d, NoError)
    ensures ValueOf(kv[DefaultKey(key) := d][key := v], faulty, key) == Answer(v, NoError)
  {
  }
}

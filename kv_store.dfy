/** The in-memory store: a flat mapping from string keys to string values,
    with the three operations Put, Get and Delete. The Go program keeps the
    mapping in one package-level variable; here it is the field of a `Store`
    object, which the handlers are given. */
module KVStore {

  datatype Option<+T> = None | Some(value: T)

  /** The errors the program produces. `NoSuchKey(key)` is the error `Get`
      returns for an absent key: it wraps the sentinel `ErrorNoSuchKey` and
      names the key. `Other` stands for any error that does not wrap the
      sentinel (in the program, only a failure to read a request body). */
  datatype Error = NoSuchKey(key: string) | Other(message: string)

  /** `errors.Is(err, ErrorNoSuchKey)`: the error is present and wraps the sentinel. */
  predicate IsNoSuchKey(err: Option<Error>)
  {
    err.Some? && err.value.NoSuchKey?
  }

  /** The two results of `Get`: a value and an error (nil is `None`). */
  datatype GetResult = GetResult(value: string, err: Option<Error>)

  /** What `Get(key)` returns when the store holds `m`. */
  function Lookup(m: map<string, string>, key: string): (r: GetResult)
    ensures r.err == None <==> key in m
    ensures key in m ==> r.value == m[key]
    ensures key !in m ==> r.value == "" && r.err == Some(NoSuchKey(key))
  {
    if key in m then GetResult(m[key], None) else GetResult("", Some(NoSuchKey(key)))
  }

  class Store {
    /** The stored mapping; each key appears at most once. */
    var entries: map<string, string>

    /** The store is created empty when the process starts. */
    constructor ()
      ensures entries == map[]
    {
      entries := map[];
    }

    /** Inserts `key` or overwrites its value; always succeeds. */
    method Put(key: string, value: string) returns (err: Option<Error>)
      modifies this
      ensures err == None
      ensures entries == old(entries)[key := value]
    {
      entries := entries[key := value];
      err := None;
    }

    /** Looks `key` up; never changes the store. */
    method Get(key: string) returns (value: string, err: Option<Error>)
      ensures GetResult(value, err) == Lookup(entries, key)
    {
      if key !in entries {
        return "", Some(NoSuchKey(key));
      }
      value, err := entries[key], None;
    }

    /** Removes `key` if present; succeeds whether or not it was there. */
    method Delete(key: string) returns (err: Option<Error>)
      modifies this
      ensures err == None
      ensures entries == old(entries) - {key}
    {
      entries := entries - {key};
      err := None;
    }
  }

  /** After a Put of `value` under `key`, a Get of `key` returns `value` with no error. */
  lemma PutThenGet(m: map<string, string>, key: string, value: string)
    ensures Lookup(m[key := value], key) == GetResult(value, None)
  {
  }

  /** A second Put under the same key replaces the first; the first leaves no trace. */
  lemma PutOverwrites(m: map<string, string>, key: string, v1: string, v2: string)
    ensures m[key := v1][key := v2] == m[key := v2]
    ensures Lookup(m[key := v1][key := v2], key) == GetResult(v2, None)
  {
  }

  /** A Put under `key` leaves the lookup of every other key as it was. */
  lemma PutFrame(m: map<string, string>, key: string, value: string, other: string)
    requires other != key
    ensures Lookup(m[key := value], other) == Lookup(m, other)
  {
  }

  /** After a Delete of `key`, a Get of `key` fails with the not-found error naming `key`. */
  lemma DeleteThenGet(m: map<string, string>, key: string)
    ensures Lookup(m - {key}, key) == GetResult("", Some(NoSuchKey(key)))
  {
  }

  /** A Delete under `key` leaves the lookup of every other key as it was. */
  lemma DeleteFrame(m: map<string, string>, key: string, other: string)
    requires other != key
    ensures Lookup(m - {key}, other) == Lookup(m, other)
  {
  }

  /** Deleting twice leaves the same store as deleting once, and deleting an
      absent key changes nothing. */
  lemma DeleteIdempotent(m: map<string, string>, key: string)
    ensures m - {key} - {key} == m - {key}
    ensures key !in m ==> m - {key} == m
  {
  }
}

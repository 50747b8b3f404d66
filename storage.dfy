/**
 * Trireme's configuration store: string values filed under a namespace and a
 * key, kept in memory as a two-level map and written out by `Save` after
 * every successful change. Writing the file is kept abstract: the model
 * records each snapshot handed to `Save` and leaves its outcome open.
 */
module Storage {
  import opened Wrappers

  /** `KeyNotFound`, or whatever error `Save` reported. */
  datatype Error = KeyNotFound | SaveFailed(reason: string)

  /** The in-memory `storage`: namespace to key to value. */
  type Namespaces = map<string, map<string, string>>

  /** A value is stored under `ns` and `key`. */
  predicate Has(m: Namespaces, ns: string, key: string)
  {
    ns in m && key in m[ns]
  }

  /** The map after `Set`: the namespace is created on first write, only `(ns, key)` changes. */
  function Put(m: Namespaces, ns: string, key: string, value: string): (r: Namespaces)
    ensures Has(r, ns, key) && r[ns][key] == value
    ensures ns !in m ==> r[ns] == map[key := value]
    ensures ns in m ==> r[ns].Keys == m[ns].Keys + {key}
    ensures ns in m ==> forall k :: k in m[ns] && k != key ==> r[ns][k] == m[ns][k]
    ensures r.Keys == m.Keys + {ns}
    ensures forall n :: n in m && n != ns ==> r[n] == m[n]
  {
    if ns !in m then m[ns := map[key := value]] else m[ns := m[ns][key := value]]
  }

  /** The map after `Remove` of a stored key: the key is gone, and so is its namespace once empty. */
  function Delete(m: Namespaces, ns: string, key: string): (r: Namespaces)
    requires Has(m, ns, key)
    ensures !Has(r, ns, key)
    ensures ns in r <==> m[ns].Keys != {key}
    ensures ns in r ==> r[ns].Keys == m[ns].Keys - {key}
    ensures ns in r ==> forall k :: k in r[ns] ==> r[ns][k] == m[ns][k]
    ensures r.Keys == if m[ns].Keys == {key} then m.Keys - {ns} else m.Keys
    ensures forall n :: n in m && n != ns ==> r[n] == m[n]
  {
    var inner := m[ns] - {key};
    if |inner| == 0 then m - {ns} else m[ns := inner]
  }

  /** No namespace is stored without a key. */
  ghost predicate NoEmptyNamespace(m: Namespaces)
  {
    forall ns :: ns in m ==> m[ns] != map[]
  }

  /** `Set` keeps every stored namespace non-empty. */
  lemma PutKeepsNamespacesNonEmpty(m: Namespaces, ns: string, key: string, value: string)
    requires NoEmptyNamespace(m)
    ensures NoEmptyNamespace(Put(m, ns, key, value))
  {
    var r := Put(m, ns, key, value);
    forall n | n in r ensures r[n] != map[] {
      if n == ns {
        assert key in r[n];
      }
    }
  }

  /** `Remove` keeps every stored namespace non-empty, because it drops the one it empties. */
  lemma DeleteKeepsNamespacesNonEmpty(m: Namespaces, ns: string, key: string)
    requires Has(m, ns, key) && NoEmptyNamespace(m)
    ensures NoEmptyNamespace(Delete(m, ns, key))
  {
    var r := Delete(m, ns, key);
    forall n | n in r ensures r[n] != map[] {
      if n == ns {
        var inner := m[ns] - {key};
        assert |inner| != 0;
        assert r[n] == inner;
        var k :| k in inner;
        assert k in r[n];
      }
    }
  }

  /** `Set` then `Remove` of a new key in a new namespace restores the map. */
  lemma PutThenDeleteRestores(m: Namespaces, ns: string, key: string, value: string)
    requires ns !in m
    ensures Delete(Put(m, ns, key, value), ns, key) == m
  {
    var p := Put(m, ns, key, value);
    assert p[ns].Keys == {key};
    assert p - {ns} == m;
  }

  /** More generally, `Set` then `Remove` of any absent key restores a map without empty namespaces. */
  lemma PutThenDeleteRestoresAbsentKey(m: Namespaces, ns: string, key: string, value: string)
    requires NoEmptyNamespace(m) && !Has(m, ns, key)
    ensures Delete(Put(m, ns, key, value), ns, key) == m
  {
    if ns in m {
      var p := Put(m, ns, key, value);
      assert m[ns] != map[];
      assert p[ns] - {key} == m[ns];
      var k :| k in m[ns];
      assert k in p[ns] - {key};
    } else {
      PutThenDeleteRestores(m, ns, key, value);
    }
  }

  /** The JSON-file backed store; `loc` is the file Save writes. */
  class JSONStorage {
    const loc: string
    var s: Namespaces
    /** The maps handed to `Save`, oldest first. */
    var saved: seq<Namespaces>
    /** What each call of `Save` returned, oldest first. */
    ghost var outcomes: seq<Option<Error>>

    /** The store as `New` leaves it: the decoded file, or an empty map for a missing file. */
    constructor (loc: string, s: Namespaces)
      ensures this.loc == loc && this.s == s && saved == [] && outcomes == []
    {
      this.loc := loc;
      this.s := s;
      saved := [];
      outcomes := [];
    }

    /** `Get`: the stored value, or "" and KeyNotFound for a missing namespace or key. */
    function Get(ns: string, key: string): (r: (string, Option<Error>))
      reads this
      ensures r.1.None? <==> Has(s, ns, key)
      ensures Has(s, ns, key) ==> r.0 == s[ns][key]
      ensures !Has(s, ns, key) ==> r == ("", Some(KeyNotFound))
    {
      if ns in s then
        if key in s[ns] then (s[ns][key], None) else ("", Some(KeyNotFound))
      else ("", Some(KeyNotFound))
    }

    /** `Save`: write the current map out; the write's outcome is not modelled. */
    method Save() returns (err: Option<Error>)
      modifies this
      ensures s == old(s)
      ensures saved == old(saved) + [s]
      ensures outcomes == old(outcomes) + [err]
      ensures err != Some(KeyNotFound)
    {
      saved := saved + [s];
      var failure: Option<string> :| true;
      err := if failure.None? then None else Some(SaveFailed(failure.value));
      outcomes := outcomes + [err];
    }

    /** `Set`: store the value, creating the namespace if needed, then return Save's result. */
    method Set(ns: string, key: string, value: string) returns (err: Option<Error>)
      modifies this
      ensures s == Put(old(s), ns, key, value)
      ensures saved == old(saved) + [s]
      ensures outcomes == old(outcomes) + [err]
      ensures err != Some(KeyNotFound)
      ensures Get(ns, key) == (value, None)
      ensures NoEmptyNamespace(old(s)) ==> NoEmptyNamespace(s)
    {
      if ns !in s {
        s := s[ns := map[key := value]];
        err := Save();
      } else {
        s := s[ns := s[ns][key := value]];
        err := Save();
      }
      if NoEmptyNamespace(old(s)) {
        PutKeepsNamespacesNonEmpty(old(s), ns, key, value);
      }
    }

    /**
     * `Remove`: delete a stored key, and its namespace once empty, then return
     * Save's result; a missing namespace or key is KeyNotFound, with no change
     * and no Save.
     */
    method Remove(ns: string, key: string) returns (err: Option<Error>)
      modifies this
      ensures old(Has(s, ns, key)) ==> s == Delete(old(s), ns, key) && saved == old(saved) + [s] && err != Some(KeyNotFound)
      ensures !old(Has(s, ns, key)) ==> s == old(s) && saved == old(saved) && err == Some(KeyNotFound)
      ensures old(Has(s, ns, key)) ==> outcomes == old(outcomes) + [err]
      ensures !old(Has(s, ns, key)) ==> outcomes == old(outcomes)
      ensures Get(ns, key) == ("", Some(KeyNotFound))
      ensures NoEmptyNamespace(old(s)) ==> NoEmptyNamespace(s)
    {
      if ns in s {
        if key in s[ns] {
          ghost var m := s;
          var inner := s[ns] - {key};
          s := s[ns := inner];
          if |s[ns]| == 0 {
            s := s - {ns};
            assert s == m - {ns};
          }
          assert s == Delete(m, ns, key);
          err := Save();
          if NoEmptyNamespace(old(s)) {
            DeleteKeepsNamespacesNonEmpty(old(s), ns, key);
          }
          return;
        }
      }
      err := Some(KeyNotFound);
    }
  }

  /**
   * The sequence of TestJSONStorage, on a store opened on a missing file: the
   * key is absent, `Set` stores it, `Get` returns it, `Remove` deletes it, and
   * the map is empty again. `Save`'s outcome is left open, so the errors of
   * `Set` and `Remove` are only known not to be KeyNotFound.
   */
  method StorageScenario(loc: string)
    returns (before: (string, Option<Error>), setErr: Option<Error>, got: (string, Option<Error>),
             removeErr: Option<Error>, after: (string, Option<Error>), final: Namespaces)
    ensures before == ("", Some(KeyNotFound)) && after == ("", Some(KeyNotFound))
    ensures got == ("C0FF33", None)
    ensures setErr != Some(KeyNotFound) && removeErr != Some(KeyNotFound)
    ensures final == map[]
  {
    var js := new JSONStorage(loc, map[]);
    before := js.Get("testdata", "test1");
    setErr := js.Set("testdata", "test1", "C0FF33");
    got := js.Get("testdata", "test1");
    removeErr := js.Remove("testdata", "test1");
    after := js.Get("testdata", "test1");
    final := js.s;
  }
}

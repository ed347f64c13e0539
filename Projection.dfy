/**
 * Building a record with a fixed key set from `.get(key, "")` lookups, the
 * shape shared by `create_starship`, `create_person` and the thinning step of
 * `get_homeworld`.
 */
module Projection {
  import opened Values

  /** `{k: d.get(k, "") for k in keys}` */
  function Project(d: Fields, keys: set<string>): (r: Fields)
    ensures r.Keys == keys
    ensures forall k :: k in keys && k in d ==> r[k] == d[k]
    ensures forall k :: k in keys && k !in d ==> r[k] == Str("")
  {
    map k | k in keys :: Get(d, k, Str(""))
  }

  /** Projecting twice onto the same keys changes nothing more. */
  lemma ProjectIdempotent(d: Fields, keys: set<string>)
    ensures Project(Project(d, keys), keys) == Project(d, keys)
  {
  }

  /** A record that has exactly the projected keys is its own projection. */
  lemma ProjectFixedPoint(d: Fields, keys: set<string>)
    requires d.Keys == keys
    ensures Project(d, keys) == d
  {
  }

  /** The projection reads only the projected keys of its input. */
  lemma ProjectReadsOnlyKeys(d: Fields, e: Fields, keys: set<string>)
    requires forall k :: k in keys ==> Get(d, k, Str("")) == Get(e, k, Str(""))
    ensures Project(d, keys) == Project(e, keys)
  {
  }

  /**
   * A record holding every projected key, and others besides, projects to
   * the given record on exactly those keys.
   */
  lemma ProjectOfSuperset(d: Fields, expected: Fields)
    requires forall k :: k in expected ==> k in d && d[k] == expected[k]
    ensures Project(d, expected.Keys) == expected
  {
  }
}

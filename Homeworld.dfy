/**
 * `get_homeworld`: resolve a planet identifier through the SWAPI fetch and
 * thin the answer to five fields. The HTTP fetch (`get_swapi_resource`) is a
 * parameter: a function from the request it is given to what it returns.
 */
module Homeworld {
  import opened Values
  import opened Projection

  const PlanetKeys: set<string> := {"name", "diameter", "climate", "terrain", "population"}

  const UrlMarker: string := "https://"

  /** A call of `get_swapi_resource`: by URL alone, or a search with query parameters. */
  datatype Request = Direct(target: Value) | Search(url: string, params: Fields)

  /**
   * `needle in s` on two Python strings, scanning from the left. The empty
   * string occurs in every string, and a needle longer than `s` in none.
   */
  function Occurs(needle: string, s: string): (r: bool)
    ensures r ==> |needle| <= |s|
    ensures needle == [] ==> r
    decreases |s|
  {
    if |s| < |needle| then false
    else s[..|needle|] == needle || Occurs(needle, s[1..])
  }

  /** `needle` is the slice of `s` starting at index `i`. */
  predicate OccursAt(needle: string, s: string, i: int)
  {
    0 <= i && i + |needle| <= |s| && s[i..i + |needle|] == needle
  }

  /** The scan finds the needle exactly when some slice of `s` equals it. */
  lemma {:induction false} OccursIff(needle: string, s: string)
    ensures Occurs(needle, s) <==> exists i :: OccursAt(needle, s, i)
    decreases |s|
  {
    if |s| < |needle| {
    } else if s[..|needle|] == needle {
      assert OccursAt(needle, s, 0);
    } else {
      OccursIff(needle, s[1..]);
      if Occurs(needle, s[1..]) {
        var i :| OccursAt(needle, s[1..], i);
        assert s[1..][i..i + |needle|] == s[i + 1..i + 1 + |needle|];
        assert OccursAt(needle, s, i + 1);
      }
      if exists i :: OccursAt(needle, s, i) {
        var i :| OccursAt(needle, s, i);
        assert i != 0;
        assert s[1..][i - 1..i - 1 + |needle|] == s[i..i + |needle|];
        assert OccursAt(needle, s[1..], i - 1);
      }
    }
  }

  /** A string that starts with the needle contains it. */
  lemma PrefixOccurs(needle: string, s: string)
    requires needle <= s
    ensures Occurs(needle, s)
  {
    assert s[..|needle|] == needle;
  }

  /** Python's `needle in container` for a string needle. */
  function Contains(container: Value, needle: string): (r: Result<bool>)
    ensures container.Str? ==> r == Ok(exists i :: OccursAt(needle, container.s, i))
    ensures container.Lst? ==> r == Ok(Str(needle) in container.items)
    ensures container.Obj? ==> r == Ok(needle in container.fields)
    ensures container.Null? || container.Bool? || container.Num? ==> r == Err(TypeError)
  {
    match container
    case Str(s) => OccursIff(needle, s); Ok(Occurs(needle, s))
    case Lst(items) => Ok(Str(needle) in items)
    case Obj(fields) => Ok(needle in fields)
    case _ => Err(TypeError)
  }

  /**
   * The request `get_homeworld` hands to the fetch: the identifier itself
   * when "https://" occurs in it, otherwise a search of `url`.
   */
  function HomeworldRequest(identifier: Value, url: string): (r: Result<Request>)
    ensures r.Err? <==> Contains(identifier, UrlMarker).Err?
    ensures r.Err? ==> r.error == TypeError
    ensures r.Ok? ==> (r.value.Direct? <==> Contains(identifier, UrlMarker) == Ok(true))
    ensures r.Ok? && r.value.Direct? ==> r.value.target == identifier
    ensures r.Ok? && r.value.Search? ==> r.value.url == url && r.value.params == map["search" := identifier]
  {
    match Contains(identifier, UrlMarker)
    case Err(e) => Err(e)
    case Ok(isUrl) =>
      if isUrl then Ok(Direct(identifier))
      else Ok(Search(url, map["search" := identifier]))
  }

  /** `get_homeworld(identifier, url)` with `get_swapi_resource` given as `fetch`. */
  function GetHomeworld(identifier: Value, url: string, fetch: Request -> Result<Value>): (r: Result<Fields>)
    ensures r.Ok? ==> r.value.Keys == PlanetKeys
  {
    match HomeworldRequest(identifier, url)
    case Err(e) => Err(e)
    case Ok(request) =>
      match fetch(request)
      case Err(e) => Err(e)
      case Ok(Obj(answer)) => Ok(Project(answer, PlanetKeys))
      case Ok(_) => Err(AttributeError)
  }

  /**
   * For a string identifier the URL branch is taken exactly when "https://"
   * is a substring of it, anywhere; otherwise `url` is searched for it.
   */
  lemma DispatchOnString(s: string, url: string)
    ensures (exists i :: OccursAt(UrlMarker, s, i)) ==> HomeworldRequest(Str(s), url) == Ok(Direct(Str(s)))
    ensures (forall i :: !OccursAt(UrlMarker, s, i)) ==>
      HomeworldRequest(Str(s), url) == Ok(Search(url, map["search" := Str(s)]))
  {
  }

  /** An identifier that begins with "https://" is fetched as a URL. */
  lemma UrlPrefixIsDirect(s: string, url: string)
    requires UrlMarker <= s
    ensures HomeworldRequest(Str(s), url) == Ok(Direct(Str(s)))
  {
    PrefixOccurs(UrlMarker, s);
    OccursIff(UrlMarker, s);
  }

  /**
   * The test is a substring test, not a prefix test: an identifier that
   * mentions a URL after some leading text is still fetched as a URL.
   */
  lemma MentionedUrlIsDirect(lead: string, rest: string, url: string)
    requires lead != [] && lead[0] != 'h'
    ensures !(UrlMarker <= lead + UrlMarker + rest)
    ensures HomeworldRequest(Str(lead + UrlMarker + rest), url) == Ok(Direct(Str(lead + UrlMarker + rest)))
  {
    var s := lead + UrlMarker + rest;
    assert s[0] == lead[0];
    assert s[|lead|..|lead| + |UrlMarker|] == UrlMarker;
    assert OccursAt(UrlMarker, s, |lead|);
  }

  /** A missing homeworld (None) makes `in` raise. */
  lemma AbsentHomeworldRaises(url: string, fetch: Request -> Result<Value>)
    ensures GetHomeworld(Null, url, fetch) == Err(TypeError)
  {
  }

  /** Thinning is idempotent. */
  lemma ThinIdempotent(d: Fields)
    ensures Project(Project(d, PlanetKeys), PlanetKeys) == Project(d, PlanetKeys)
  {
    ProjectIdempotent(d, PlanetKeys);
  }

  /**
   * Whatever the fetch answers with a dict, the result is that dict thinned
   * to the five planet fields; any other answer makes `.get` raise.
   */
  lemma ResolvedIsThinned(identifier: Value, url: string, fetch: Request -> Result<Value>, request: Request)
    requires HomeworldRequest(identifier, url) == Ok(request)
    ensures fetch(request).Ok? && fetch(request).value.Obj? ==>
      GetHomeworld(identifier, url, fetch) == Ok(Project(fetch(request).value.fields, PlanetKeys))
    ensures fetch(request).Ok? && !fetch(request).value.Obj? ==>
      GetHomeworld(identifier, url, fetch) == Err(AttributeError)
    ensures fetch(request).Err? ==> GetHomeworld(identifier, url, fetch) == Err(fetch(request).error)
  {
  }

  const Tatooine: Fields := map[
    "name" := Str("Tatooine"), "diameter" := Str("10465"), "climate" := Str("arid"),
    "terrain" := Str("desert"), "population" := Str("200000")]

  const Naboo: Fields := map[
    "name" := Str("Naboo"), "diameter" := Str("12120"), "climate" := Str("temperate"),
    "terrain" := Str("grassy hills, swamps, forests, mountains"), "population" := Str("4500000000")]

  /**
   * A planet URL whose fetched record agrees with `expected` on the five
   * planet fields, whatever other fields it has, resolves to `expected`.
   */
  lemma PlanetByUrl(u: string, url: string, fetch: Request -> Result<Value>, planet: Fields, expected: Fields)
    requires UrlMarker <= u
    requires fetch(Direct(Str(u))) == Ok(Obj(planet))
    requires expected.Keys == PlanetKeys
    requires forall k :: k in expected ==> k in planet && planet[k] == expected[k]
    ensures GetHomeworld(Str(u), url, fetch) == Ok(expected)
  {
    UrlPrefixIsDirect(u, url);
    ProjectOfSuperset(planet, expected);
  }

  /** A planet URL whose record carries the Tatooine fields resolves to the record the script asserts for C-3PO. */
  lemma TatooineResolves(u: string, url: string, fetch: Request -> Result<Value>, world: Fields)
    requires UrlMarker <= u
    requires fetch(Direct(Str(u))) == Ok(Obj(world))
    requires forall k :: k in Tatooine ==> k in world && world[k] == Tatooine[k]
    ensures GetHomeworld(Str(u), url, fetch) == Ok(Tatooine)
  {
    assert Tatooine.Keys == PlanetKeys;
    PlanetByUrl(u, url, fetch, world, Tatooine);
  }

  /** A planet URL whose record carries the Naboo fields resolves to the record the script asserts for R2-D2. */
  lemma NabooResolves(u: string, url: string, fetch: Request -> Result<Value>, world: Fields)
    requires UrlMarker <= u
    requires fetch(Direct(Str(u))) == Ok(Obj(world))
    requires forall k :: k in Naboo ==> k in world && world[k] == Naboo[k]
    ensures GetHomeworld(Str(u), url, fetch) == Ok(Naboo)
  {
    assert Naboo.Keys == PlanetKeys;
    PlanetByUrl(u, url, fetch, world, Naboo);
  }

  /**
   * By name, the fetch answers with a search envelope and that envelope is
   * what gets thinned: an envelope carrying none of the planet fields (the
   * planet sits in its "results" list) resolves to five empty strings.
   */
  lemma SearchEnvelopeThinsToBlank(name: string, url: string, fetch: Request -> Result<Value>, envelope: Fields)
    requires forall i :: !OccursAt(UrlMarker, name, i)
    requires fetch(Search(url, map["search" := Str(name)])) == Ok(Obj(envelope))
    requires forall k :: k in PlanetKeys ==> k !in envelope
    ensures GetHomeworld(Str(name), url, fetch) == Ok(map k | k in PlanetKeys :: Str(""))
  {
    DispatchOnString(name, url);
    assert HomeworldRequest(Str(name), url) == Ok(Search(url, map["search" := Str(name)]));
    assert Project(envelope, PlanetKeys) == map k | k in PlanetKeys :: Str("");
  }
}

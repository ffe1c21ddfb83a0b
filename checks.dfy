/** The checks service: resolving a check's alias to its token through the cache, with a
    full listing of the checks as the fallback, and the path of a single check. */
module Checks {

  import opened Wrappers
  import opened Cache

  /** The errors the resolver can return: the sentinel `ErrTokenNotFound`, or the error of
      the listing call (from the HTTP transport), which is passed on unchanged. */
  datatype Error = TokenNotFound | Transport(message: string)

  /** The two fields of a listed `Check` that the resolver reads. */
  datatype CheckEntry = CheckEntry(alias: string, token: string)

  /** What the listing call `CheckService.List` returned: every check, or the error that
      `NewRequest` or `Do` reported, which is never the sentinel. */
  datatype ListOutcome = Listed(checks: seq<CheckEntry>) | ListFailed(message: string)

  /** What one resolution returns, together with the cache contents it leaves behind. */
  datatype Resolution = Resolution(token: string, err: Option<Error>, cache: map<string, string>)

  // ---------------------------------------------------------------------------
  // Specification of the scan over the listing

  /** The cache after storing `(alias, token)` for every listed check, first to last. */
  function BackFill(m: map<string, string>, checks: seq<CheckEntry>): map<string, string>
  {
    if checks == [] then m
    else
      var c := checks[|checks| - 1];
      BackFill(m, checks[..|checks| - 1])[c.alias := c.token]
  }

  /** The token of the last listed check whose alias is exactly `name`, if any. */
  function LastToken(checks: seq<CheckEntry>, name: string): Option<string>
  {
    if checks == [] then None
    else if checks[|checks| - 1].alias == name then Some(checks[|checks| - 1].token)
    else LastToken(checks[..|checks| - 1], name)
  }

  /** The aliases of the listed checks. */
  function Aliases(checks: seq<CheckEntry>): set<string> {
    set k | 0 <= k < |checks| :: checks[k].alias
  }

  /** `j` is the position of the last listed check with alias `a`. */
  ghost predicate IsLastWith(checks: seq<CheckEntry>, a: string, j: int) {
    && 0 <= j < |checks|
    && checks[j].alias == a
    && forall k :: j < k < |checks| ==> checks[k].alias != a
  }

  /** Back-fill completeness: the keys afterwards are the old keys plus every listed alias. */
  lemma {:induction false} BackFillKeys(m: map<string, string>, checks: seq<CheckEntry>)
    ensures BackFill(m, checks).Keys == m.Keys + Aliases(checks)
  {
    if checks != [] {
      var init := checks[..|checks| - 1];
      BackFillKeys(m, init);
      var n := |checks| - 1;
      assert Aliases(checks) == Aliases(init) + {checks[n].alias} by {
        forall a | a in Aliases(checks)
          ensures a in Aliases(init) + {checks[n].alias}
        {
          var k :| 0 <= k < |checks| && checks[k].alias == a;
          if k < n { assert init[k].alias == a; }
        }
      }
    }
  }

  /** Last writer wins: a listed alias ends up mapped to the token of its last check. */
  lemma {:induction false} BackFillLastWins(m: map<string, string>, checks: seq<CheckEntry>, a: string, j: int)
    requires IsLastWith(checks, a, j)
    ensures a in BackFill(m, checks) && BackFill(m, checks)[a] == checks[j].token
  {
    var n := |checks| - 1;
    if j < n {
      BackFillLastWins(m, checks[..n], a, j);
    }
  }

  /** A key that no listed check carries as its alias keeps its presence and its value. */
  lemma {:induction false} BackFillKeepsOthers(m: map<string, string>, checks: seq<CheckEntry>, a: string)
    requires forall k :: 0 <= k < |checks| ==> checks[k].alias != a
    ensures a in BackFill(m, checks) <==> a in m
    ensures a in m ==> BackFill(m, checks)[a] == m[a]
  {
    if checks != [] {
      var n := |checks| - 1;
      assert checks[n].alias != a;
      BackFillKeepsOthers(m, checks[..n], a);
    }
  }

  /** No check matches exactly when no listed alias equals `name`. */
  lemma {:induction false} LastTokenNone(checks: seq<CheckEntry>, name: string)
    ensures LastToken(checks, name) == None <==> forall k :: 0 <= k < |checks| ==> checks[k].alias != name
  {
    if checks != [] {
      var n := |checks| - 1;
      LastTokenNone(checks[..n], name);
      if checks[n].alias != name {
        assert forall k :: 0 <= k < n ==> checks[..n][k] == checks[k];
      }
    }
  }

  /** When some check matches, the token found is that of the last match. */
  lemma {:induction false} LastTokenIsLast(checks: seq<CheckEntry>, name: string, j: int)
    requires IsLastWith(checks, name, j)
    ensures LastToken(checks, name) == Some(checks[j].token)
  {
    var n := |checks| - 1;
    if j < n {
      LastTokenIsLast(checks[..n], name, j);
    }
  }

  /** Agreement: the token found is the value the back-filled cache holds for `name`. */
  lemma {:induction false} LastTokenAgreesWithBackFill(m: map<string, string>, checks: seq<CheckEntry>, name: string)
    requires LastToken(checks, name).Some?
    ensures name in BackFill(m, checks) && BackFill(m, checks)[name] == LastToken(checks, name).value
  {
    var n := |checks| - 1;
    if checks[n].alias != name {
      LastTokenAgreesWithBackFill(m, checks[..n], name);
    }
  }

  // ---------------------------------------------------------------------------
  // Specification of one resolution

  /** What `TokenForAlias(name)` returns and leaves in the cache, given the cache contents
      `m` before the call and what the listing call would return. */
  function Resolve(m: map<string, string>, name: string, listing: ListOutcome): Resolution
  {
    if name in m then Resolution(m[name], None, m)
    else match listing
      case ListFailed(e) => Resolution("", Some(Transport(e)), m)
      case Listed(checks) =>
        var m' := BackFill(m, checks);
        match LastToken(checks, name)
        case Some(t) => Resolution(t, None, m')
        case None => Resolution("", Some(TokenNotFound), m')
  }

  /** A cache hit returns the cached value, even "", whatever the listing would have said,
      and leaves the cache as it was. */
  lemma ResolveHit(m: map<string, string>, name: string, listing: ListOutcome)
    requires name in m
    ensures Resolve(m, name, listing) == Resolution(m[name], None, m)
  {
  }

  /** On a miss, the error of a failed listing is passed on and nothing is cached. */
  lemma ResolveListingFails(m: map<string, string>, name: string, e: string)
    requires name !in m
    ensures Resolve(m, name, ListFailed(e)) == Resolution("", Some(Transport(e)), m)
  {
  }

  /** On a miss with a listing in hand, found or not, every listed alias is cached with the
      token of its last check and every other key keeps its presence and value. */
  lemma ResolveBackFills(m: map<string, string>, name: string, checks: seq<CheckEntry>)
    requires name !in m
    ensures var r := Resolve(m, name, Listed(checks));
      && r.cache.Keys == m.Keys + Aliases(checks)
      && (forall j :: 0 <= j < |checks| && IsLastWith(checks, checks[j].alias, j) ==>
            checks[j].alias in r.cache && r.cache[checks[j].alias] == checks[j].token)
      && (forall a :: a in m && a !in Aliases(checks) ==> a in r.cache && r.cache[a] == m[a])
  {
    var r := Resolve(m, name, Listed(checks));
    assert r.cache == BackFill(m, checks);
    BackFillKeys(m, checks);
    forall j | 0 <= j < |checks| && IsLastWith(checks, checks[j].alias, j)
      ensures checks[j].alias in r.cache && r.cache[checks[j].alias] == checks[j].token
    {
      BackFillLastWins(m, checks, checks[j].alias, j);
    }
    forall a | a in m && a !in Aliases(checks)
      ensures a in r.cache && r.cache[a] == m[a]
    {
      assert forall k :: 0 <= k < |checks| ==> checks[k].alias in Aliases(checks);
      BackFillKeepsOthers(m, checks, a);
    }
  }

  /** On a miss where some check is named `name`, the token returned is that of the last
      such check, with no error, and it is what the cache now holds for `name`. */
  lemma ResolveFound(m: map<string, string>, name: string, checks: seq<CheckEntry>, j: int)
    requires name !in m
    requires IsLastWith(checks, name, j)
    ensures var r := Resolve(m, name, Listed(checks));
      && r.token == checks[j].token && r.err == None
      && name in r.cache && r.cache[name] == r.token
  {
    LastTokenIsLast(checks, name, j);
    LastTokenAgreesWithBackFill(m, checks, name);
  }

  /** Not found: with no listed alias equal to `name` the result is `("", ErrTokenNotFound)`
      and `name` is still absent from the cache: a failure is never cached. */
  lemma ResolveNotFound(m: map<string, string>, name: string, checks: seq<CheckEntry>)
    requires name !in m
    requires forall k :: 0 <= k < |checks| ==> checks[k].alias != name
    ensures var r := Resolve(m, name, Listed(checks));
      && r.token == "" && r.err == Some(TokenNotFound)
      && name !in r.cache
  {
    LastTokenNone(checks, name);
    BackFillKeepsOthers(m, checks, name);
  }

  /** The sentinel means "no match" and nothing else: `ErrTokenNotFound` is returned exactly
      on a miss whose listing succeeded and holds no check named `name`. */
  lemma ResolveNotFoundExactly(m: map<string, string>, name: string, listing: ListOutcome)
    ensures Resolve(m, name, listing).err == Some(TokenNotFound)
        <==> && name !in m
             && listing.Listed?
             && forall k :: 0 <= k < |listing.checks| ==> listing.checks[k].alias != name
  {
    if name !in m && listing.Listed? {
      LastTokenNone(listing.checks, name);
    }
  }

  /** Every success, hit or miss, leaves the returned token cached under `name`, so a
      second call for the same name is a hit: it returns the same token, whatever the
      listing says then, and changes nothing. */
  lemma ResolveTwice(m: map<string, string>, name: string, first: ListOutcome, second: ListOutcome)
    requires Resolve(m, name, first).err == None
    ensures var r := Resolve(m, name, first);
      && name in r.cache && r.cache[name] == r.token
      && Resolve(r.cache, name, second) == Resolution(r.token, None, r.cache)
  {
    if name !in m {
      LastTokenAgreesWithBackFill(m, first.checks, name);
    }
  }

  // ---------------------------------------------------------------------------
  // The service

  class CheckService {

    /** The cache shared with the client; the HTTP client itself is not part of this model. */
    const cache: MemoryCache

    constructor (cache: MemoryCache)
      ensures this.cache == cache
    {
      this.cache := cache;
    }

    /** `TokenForAlias`: looks `name` up in the cache; on a miss takes the listing, stores every
        listed `(alias, token)` pair in the cache and returns the token of the last check whose
        alias equals `name`, or `ErrTokenNotFound`. */
    method TokenForAlias(name: string, listing: ListOutcome) returns (token: string, err: Option<Error>)
      modifies cache
      ensures Resolution(token, err, cache.items) == Resolve(old(cache.items), name, listing)
    {
      var has, val := cache.Get(name);
      if has {
        return val, None;
      }
      if listing.ListFailed? {
        return "", Some(Transport(listing.message));
      }
      var checks := listing.checks;
      var found := false;
      token := "";
      var i := 0;
      while i < |checks|
        invariant 0 <= i <= |checks|
        invariant cache.items == BackFill(old(cache.items), checks[..i])
        invariant LastToken(checks[..i], name) == if found then Some(token) else None
      {
        assert checks[..i + 1][..i] == checks[..i];
        cache.Put(checks[i].alias, checks[i].token);
        if checks[i].alias == name {
          found, token := true, checks[i].token;
        }
        i := i + 1;
      }
      assert checks[..i] == checks;
      if found {
        return token, None;
      }
      return "", Some(TokenNotFound);
    }
  }

  // ---------------------------------------------------------------------------
  // Paths

  /** `pathForToken`: the path of one check, `checks/` followed by its token. */
  function PathForToken(token: string): (path: string)
    ensures |path| == 7 + |token|
    ensures path[..7] == "checks/" && path[7..] == token
  {
    "checks/" + token
  }

  /** The token named by a single-check path, the inverse of `PathForToken`. */
  function TokenOfPath(path: string): Option<string> {
    if |path| >= 7 && path[..7] == "checks/" then Some(path[7..]) else None
  }

  lemma TokenOfPathInverse(token: string, path: string)
    ensures TokenOfPath(PathForToken(token)) == Some(token)
    ensures TokenOfPath(path) == Some(token) ==> PathForToken(token) == path
  {
  }
}

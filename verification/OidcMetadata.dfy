/** The OpenID Provider metadata cache and the limiter on fetching its signing keys again.

    Anyone can present a token with any key id, so an unknown key id must not turn
    into one round trip per request: fetching again is granted once per interval and
    per provider, whatever key ids arrive. */
module OidcMetadata {
  import opened Windows
  import opened Wrappers

  const CACHE_TTL: real := 300.0
  const REFRESH_INTERVAL: real := 60.0

  // ---------------------------------------------------------------- the limiter

  /** A request that may have to fetch the keys again. */
  datatype Request = Request(uri: string, now: real)

  predicate Permits(refreshedAt: map<string, real>, r: Request) {
    r.uri !in refreshedAt || r.now - refreshedAt[r.uri] >= REFRESH_INTERVAL
  }

  /** What is remembered after the request. */
  function After(refreshedAt: map<string, real>, r: Request): map<string, real> {
    if Permits(refreshedAt, r) then refreshedAt[r.uri := r.now] else refreshedAt
  }

  /** The moments at which fetching from `uri` was granted during a run. */
  function Grants(refreshedAt: map<string, real>, requests: seq<Request>, uri: string): seq<Moment>
    decreases |requests|
  {
    if requests == [] then []
    else
      (if requests[0].uri == uri && Permits(refreshedAt, requests[0]) then [Moment(requests[0].now, false)] else [])
      + Grants(After(refreshedAt, requests[0]), requests[1..], uri)
  }

  ghost predicate ClockNeverGoesBack(requests: seq<Request>) {
    forall i, j :: 0 <= i < j < |requests| ==> requests[i].now <= requests[j].now
  }

  lemma TailClock(requests: seq<Request>)
    requires requests != [] && ClockNeverGoesBack(requests)
    ensures ClockNeverGoesBack(requests[1..])
  {
  }

  /** Grants for one provider are a full interval apart, also from the last one before the run. */
  lemma {:induction false} GrantsAreSpaced(refreshedAt: map<string, real>, requests: seq<Request>, uri: string)
    requires ClockNeverGoesBack(requests)
    ensures var moments := Grants(refreshedAt, requests, uri);
            && Spaced(moments, REFRESH_INTERVAL)
            && (forall i :: 0 <= i < |moments| ==> !moments[i].free)
            && (moments != [] && uri in refreshedAt ==> moments[0].at - refreshedAt[uri] >= REFRESH_INTERVAL)
    decreases |requests|
  {
    if requests != [] {
      TailClock(requests);
      GrantsAreSpaced(After(refreshedAt, requests[0]), requests[1..], uri);
    }
  }

  /** Whatever key ids arrive and however fast: at most one fetch per interval, and one for the edge. */
  lemma GrantsInAnyWindow(
      refreshedAt: map<string, real>, requests: seq<Request>, uri: string, from: real, length: real)
    requires ClockNeverGoesBack(requests) && length >= 0.0
    ensures CountIn(Grants(refreshedAt, requests, uri), from, from + length) <= GapsIn(length, REFRESH_INTERVAL) + 1
  {
    var moments := Grants(refreshedAt, requests, uri);
    GrantsAreSpaced(refreshedAt, requests, uri);
    WindowBound(moments, from, length, REFRESH_INTERVAL);
    NoneFree(moments, from, from + length);
  }

  /** Requests for one provider, one interval after the other. */
  function Every(uri: string, from: real, n: nat): seq<Request>
    decreases n
  {
    if n == 0 then [] else [Request(uri, from)] + Every(uri, from + REFRESH_INTERVAL, n - 1)
  }

  lemma {:induction false} EveryIsGranted(refreshedAt: map<string, real>, uri: string, from: real, n: nat)
    requires uri in refreshedAt ==> from - refreshedAt[uri] >= REFRESH_INTERVAL
    ensures |Grants(refreshedAt, Every(uri, from, n), uri)| == n
    ensures forall i :: 0 <= i < n ==>
                          from <= Grants(refreshedAt, Every(uri, from, n), uri)[i].at <= from + (n - 1) as real * 60.0
    decreases n
  {
    if n > 0 {
      var rest := Every(uri, from + REFRESH_INTERVAL, n - 1);
      assert Every(uri, from, n)[1..] == rest;
      EveryIsGranted(refreshedAt[uri := from], uri, from + REFRESH_INTERVAL, n - 1);
    }
  }

  /** The bound is reached: n intervals leave room for n + 1 fetches. */
  lemma BoundIsReached(uri: string, from: real, n: nat)
    ensures CountIn(Grants(map[], Every(uri, from, n + 1), uri), from, from + n as real * 60.0) == n + 1
  {
    EveryIsGranted(map[], uri, from, n + 1);
    CountAll(Grants(map[], Every(uri, from, n + 1), uri), from, from + n as real * 60.0);
  }

  /** The requests that ask for one provider. */
  function Only(requests: seq<Request>, uri: string): seq<Request> {
    if requests == [] then []
    else (if requests[0].uri == uri then [requests[0]] else []) + Only(requests[1..], uri)
  }

  function Restricted(refreshedAt: map<string, real>, uri: string): map<string, real> {
    map u | u in refreshedAt && u == uri :: refreshedAt[u]
  }

  /** Other providers' requests neither use up nor delay this provider's turn. */
  lemma {:induction false} OtherProvidersDoNotMatter(
      refreshedAt: map<string, real>, requests: seq<Request>, uri: string)
    ensures Grants(refreshedAt, requests, uri) == Grants(Restricted(refreshedAt, uri), Only(requests, uri), uri)
    decreases |requests|
  {
    if requests != [] {
      var r, next := requests[0], After(refreshedAt, requests[0]);
      OtherProvidersDoNotMatter(next, requests[1..], uri);
      if r.uri == uri {
        assert Only(requests, uri)[1..] == Only(requests[1..], uri);
        assert Restricted(next, uri) == After(Restricted(refreshedAt, uri), r);
      } else {
        assert Restricted(next, uri) == Restricted(refreshedAt, uri);
        assert Only(requests, uri) == [] + Only(requests[1..], uri) == Only(requests[1..], uri);
      }
    }
  }

  /** A request a full interval after everything granted so far is granted. */
  lemma {:induction false} NeverRefusedTooLong(
      refreshedAt: map<string, real>, requests: seq<Request>, uri: string, now: real)
    requires uri in refreshedAt ==> now - refreshedAt[uri] >= REFRESH_INTERVAL
    requires forall i :: 0 <= i < |Grants(refreshedAt, requests, uri)| ==>
      now - Grants(refreshedAt, requests, uri)[i].at >= REFRESH_INTERVAL
    ensures Grants(refreshedAt, requests + [Request(uri, now)], uri)
            == Grants(refreshedAt, requests, uri) + [Moment(now, false)]
    decreases |requests|
  {
    var last := Request(uri, now);
    if requests == [] {
      assert requests + [last] == [last];
      assert Grants(After(refreshedAt, last), [last][1..], uri) == [];
    } else {
      var r, next := requests[0], After(refreshedAt, requests[0]);
      var head := if r.uri == uri && Permits(refreshedAt, r) then [Moment(r.now, false)] else [];
      var rest := Grants(next, requests[1..], uri);
      assert (requests + [last])[1..] == requests[1..] + [last];
      assert Grants(refreshedAt, requests, uri) == head + rest;
      forall i | 0 <= i < |rest| ensures now - rest[i].at >= REFRESH_INTERVAL {
        assert rest[i] == (head + rest)[|head| + i];
      }
      if head != [] {
        assert (head + rest)[0] == head[0];
      }
      NeverRefusedTooLong(next, requests[1..], uri, now);
    }
  }

  // ---------------------------------------------------------------- the documents

  datatype Metadata = Metadata(
    issuer: string, authorizationEndpoint: string, tokenEndpoint: string, jwksUri: string)

  /** What came back from the discovery address; None when it could not be read at all. */
  type Fetched = Option<Metadata>

  datatype Cached = Cached(until: real, metadata: Metadata)

  /** str.rstrip("/"). */
  function WithoutTrailingSlashes(s: string): string {
    if s != "" && s[|s| - 1] == '/' then WithoutTrailingSlashes(s[..|s| - 1]) else s
  }

  predicate SameIssuer(metadata: Metadata, issuer: string) {
    WithoutTrailingSlashes(metadata.issuer) == WithoutTrailingSlashes(issuer)
  }

  predicate Complete(metadata: Metadata) {
    metadata.authorizationEndpoint != "" && metadata.tokenEndpoint != "" && metadata.jwksUri != ""
  }

  /** Two addresses have the same issuer exactly when they differ only in slashes at the end. */
  lemma {:induction false} SlashesAreAllThatIsDropped(s: string)
    ensures WithoutTrailingSlashes(s) <= s
    ensures forall i :: |WithoutTrailingSlashes(s)| <= i < |s| ==> s[i] == '/'
    ensures WithoutTrailingSlashes(s) != "" ==> WithoutTrailingSlashes(s)[|WithoutTrailingSlashes(s)| - 1] != '/'
  {
    if s != "" && s[|s| - 1] == '/' {
      SlashesAreAllThatIsDropped(s[..|s| - 1]);
    }
  }

  /** What the keys endpoint answers: key ids, or something that is no key set. */
  datatype KeySet = Keys(kids: set<string>) | Unusable

  datatype KeyResult = Found | NoKid | NoSuchKey | ProviderUnavailable

  predicate Fresh(documents: map<string, Cached>, issuer: string, now: real) {
    issuer in documents && documents[issuer].until > now
  }

  predicate Acceptable(fetched: Fetched, issuer: string) {
    fetched.Some? && Complete(fetched.value) && SameIssuer(fetched.value, issuer)
  }

  /** The document was stored under this key after `since`. */
  ghost predicate StoredSince(
      stored: set<(string, real, Metadata)>, issuer: string, metadata: Metadata, since: real)
  {
    exists entry :: entry in stored && entry.0 == issuer && entry.2 == metadata && entry.1 > since
  }

  class OidcMetadataCache {
    var documents: map<string, Cached>
    var jwksRefreshedAt: map<string, real>
    /** Every document ever stored, under its key and with the moment it was stored. */
    ghost var stored: set<(string, real, Metadata)>

    /** What is cached was fetched, checked against its key, and lives for the TTL. */
    ghost predicate Valid()
      reads this
    {
      && (forall k :: k in documents ==>
            (k, documents[k].until - CACHE_TTL, documents[k].metadata) in stored)
      && (forall entry :: entry in stored ==> SameIssuer(entry.2, entry.0) && Complete(entry.2))
    }

    constructor ()
      ensures Valid() && documents == map[] && jwksRefreshedAt == map[] && stored == {}
    {
      documents, jwksRefreshedAt, stored := map[], map[], {};
    }

    /** What other callers store while this one fetches: checked like its own, and stored between
        its two lock sections. */
    static ghost predicate StoredMeanwhile(others: map<string, Cached>, before: real, after: real) {
      forall k :: k in others ==>
                    && SameIssuer(others[k].metadata, k) && Complete(others[k].metadata)
                    && before <= others[k].until - CACHE_TTL <= after
    }

    /** The first lock section. */
    method ReadFresh(issuer: string, now: real) returns (answer: Option<Metadata>)
      ensures answer == if Fresh(documents, issuer, now) then Some(documents[issuer].metadata) else None
    {
      if issuer in documents {
        var cached := documents[issuer];
        if cached.until > now {
          return Some(cached.metadata);
        }
      }
      return None;
    }

    /** The second one. */
    method Store(issuer: string, metadata: Metadata, now: real)
      requires Valid() && SameIssuer(metadata, issuer) && Complete(metadata)
      modifies this`documents, this`stored
      ensures Valid()
      ensures documents == old(documents)[issuer := Cached(now + CACHE_TTL, metadata)]
      ensures stored == old(stored) + {(issuer, now, metadata)}
    {
      documents := documents[issuer := Cached(now + CACHE_TTL, metadata)];
      stored := stored + {(issuer, now, metadata)};
    }

    method StoreOthers(others: map<string, Cached>, ghost before: real, ghost after: real)
      requires Valid() && StoredMeanwhile(others, before, after)
      modifies this`documents, this`stored
      ensures Valid() && old(stored) <= stored && documents == old(documents) + others
    {
      documents := documents + others;
      stored := stored + set k | k in others :: (k, others[k].until - CACHE_TTL, others[k].metadata);
    }

    /** Answers from the cache while it is fresh; otherwise fetches, checks and remembers.
        `before` and `after` are the clock at the two lock sections, between which other callers
        may store documents, also for this issuer. */
    method GetMetadata(issuer: string, before: real, fetched: Fetched, others: map<string, Cached>, after: real)
      returns (answer: Option<Metadata>)
      requires Valid() && before <= after && StoredMeanwhile(others, before, after)
      modifies this`documents, this`stored
      ensures Valid() && old(stored) <= stored
      ensures answer.Some? ==> SameIssuer(answer.value, issuer) && Complete(answer.value)
      ensures answer.Some? ==> StoredSince(stored, issuer, answer.value, before - CACHE_TTL)
      ensures answer.Some? ==>
                exists at :: (issuer, at, answer.value) in stored && before - 300.0 < at
      ensures issuer in old(documents) && before < old(documents)[issuer].until ==>
        answer == Some(old(documents)[issuer].metadata) && documents == old(documents) && stored == old(stored)
      ensures !(issuer in old(documents) && before < old(documents)[issuer].until) ==>
        && (answer.Some? <==>
            && fetched.Some? && SameIssuer(fetched.value, issuer)
            && fetched.value.authorizationEndpoint != "" && fetched.value.tokenEndpoint != ""
            && fetched.value.jwksUri != "")
        && (answer.Some? ==> answer == fetched)
        && documents == (if answer.None? then old(documents) + others
                         else (old(documents) + others)[issuer := Cached(after + 300.0, answer.value)])
    {
      answer := ReadFresh(issuer, before);
      if answer.Some? {
        assert (issuer, documents[issuer].until - CACHE_TTL, answer.value) in stored;
        return;
      }
      StoreOthers(others, before, after);
      if fetched.None? || !Complete(fetched.value) {
        return None;
      }
      var metadata := fetched.value;
      if WithoutTrailingSlashes(metadata.issuer) != WithoutTrailingSlashes(issuer) {
        return None;
      }
      Store(issuer, metadata, after);
      assert (issuer, after, metadata) in stored;
      return Some(metadata);
    }

    /** Takes the turn before the fetch, so that requests arriving together do not all go. */
    method MayRefresh(uri: string, now: real) returns (granted: bool)
      modifies this`jwksRefreshedAt
      ensures granted <==> uri !in old(jwksRefreshedAt) || now - old(jwksRefreshedAt)[uri] >= 60.0
      ensures jwksRefreshedAt == if granted then old(jwksRefreshedAt)[uri := now] else old(jwksRefreshedAt)
      ensures granted == Permits(old(jwksRefreshedAt), Request(uri, now))
      ensures jwksRefreshedAt == After(old(jwksRefreshedAt), Request(uri, now))
    {
      if uri in jwksRefreshedAt && now - jwksRefreshedAt[uri] < REFRESH_INTERVAL {
        return false;
      }
      jwksRefreshedAt := jwksRefreshedAt[uri := now];
      return true;
    }

    /** Looks the key id up among the keys at hand, and once more after fetching them if
        that is granted. `held` and `fetched` are what the two look-ups come back with. */
    method SigningKey(uri: string, kid: Option<string>, now: real, held: KeySet, fetched: KeySet)
      returns (result: KeyResult, refreshed: bool)
      modifies this`jwksRefreshedAt
      ensures refreshed <==>
        kid.Some? && held.Keys? && kid.value !in held.kids && Permits(old(jwksRefreshedAt), Request(uri, now))
      ensures jwksRefreshedAt == if refreshed then old(jwksRefreshedAt)[uri := now] else old(jwksRefreshedAt)
      ensures result == Found <==>
        kid.Some? && held.Keys?
        && (kid.value in held.kids || (refreshed && fetched.Keys? && kid.value in fetched.kids))
      ensures result == NoKid <==> kid.None?
      ensures result == ProviderUnavailable <==>
        kid.Some? && (held.Unusable? || (refreshed && fetched.Unusable?))
    {
      refreshed := false;
      if kid.None? {
        return NoKid, false;
      }
      if held.Unusable? {
        return ProviderUnavailable, false;
      }
      if kid.value in held.kids {
        return Found, false;
      }
      refreshed := MayRefresh(uri, now);
      if !refreshed {
        return NoSuchKey, false;
      }
      if fetched.Unusable? {
        return ProviderUnavailable, true;
      }
      return if kid.value in fetched.kids then Found else NoSuchKey, true;
    }
  }
}

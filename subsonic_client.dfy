/**
 * The upstream side of src/subsonicClient.ts: the token-authentication query of the
 * Subsonic REST API (`u`, `v`, `c`, `f` plus `p`, or `t` = md5(password + salt) and `s`),
 * URL construction, the now-playing envelope check and entry selection, and the
 * cover-art request. `md5`, the random salt and `fetch` are parameters.
 */
module SubsonicClient {
  import opened Wrappers
  import opened Types
  import opened Text
  import opened Http

  const NowPlayingEndpoint := "/rest/getNowPlaying.view"
  const CoverArtEndpoint := "/rest/getCoverArt.view"
  const CoverArtSize := "500"

  /** The errors the source throws: missing credentials, and failures reported by or on the way to the upstream. */
  datatype Failure = ConfigurationError(message: string) | UpstreamError(message: string)

  type Params = map<string, string>

  /** `new URL(endpoint, serverUrl)` whose search part is set from the parameters. */
  datatype RequestUrl = RequestUrl(serverUrl: string, endpoint: string, search: Params)

  /** An extra query: `Object.entries` of a record whose values may be null or undefined. */
  type Query = seq<(string, Option<string>)>

  /** `URLSearchParams`, seen as a map from parameter name to value; `set` replaces. */
  class SearchParams {
    var entries: Params

    constructor (init: Params)
      ensures entries == init
    {
      entries := init;
    }

    method Set(name: string, value: string)
      modifies this
      ensures entries == old(entries)[name := value]
    {
      entries := entries[name := value];
    }
  }

  // ---------------------------------------------------------------------------
  // Authentication parameters
  // ---------------------------------------------------------------------------

  predicate HasIdentity(params: Params, user: UserConfig, config: AppConfig) {
    && "u" in params && params["u"] == user.username
    && "v" in params && params["v"] == config.apiVersion
    && "c" in params && params["c"] == config.clientName
    && "f" in params && params["f"] == "json"
  }

  /**
   * The parameter set `buildAuthParams` produces, or the error it throws.
   * `salt` is what `randomSalt()` returns for this request.
   */
  function AuthParams(user: UserConfig, config: AppConfig, salt: string, md5: string -> string): (r: Result<Params, Failure>)
    ensures r.Ok? ==> HasIdentity(r.value, user, config)
    ensures r.Ok? ==> r.value.Keys == {"u", "v", "c", "f", "p"} || r.value.Keys == {"u", "v", "c", "f", "t", "s"}
    ensures r.Err? ==> r.error.ConfigurationError?
  {
    var base := map["u" := user.username, "v" := config.apiVersion, "c" := config.clientName, "f" := "json"];
    if user.useTokenAuth == Some(true) then
      if !Truthy(user.password) then
        Err(ConfigurationError("User " + user.slug + " is configured for token auth but no password was provided."))
      else
        Ok(base["t" := md5(user.password.value + salt)]["s" := salt])
    else if Truthy(user.token) && Truthy(user.salt) then
      Ok(base["t" := user.token.value]["s" := user.salt.value])
    else if Truthy(user.password) then
      Ok(base["p" := user.password.value])
    else
      Err(ConfigurationError("No valid authentication credentials found for user " + user.slug + "."))
  }

  /** `buildAuthParams`: builds the parameter object by successive `set` calls. */
  method BuildAuthParams(user: UserConfig, config: AppConfig, salt: string, md5: string -> string)
    returns (r: Result<SearchParams, Failure>)
    ensures r.Err? <==> AuthParams(user, config, salt, md5).Err?
    ensures r.Err? ==> r.error == AuthParams(user, config, salt, md5).error
    ensures r.Ok? ==> fresh(r.value) && r.value.entries == AuthParams(user, config, salt, md5).value
  {
    var params := new SearchParams(map["u" := user.username, "v" := config.apiVersion, "c" := config.clientName, "f" := "json"]);
    if user.useTokenAuth == Some(true) {
      if !Truthy(user.password) {
        return Err(ConfigurationError("User " + user.slug + " is configured for token auth but no password was provided."));
      }
      params.Set("t", md5(user.password.value + salt));
      params.Set("s", salt);
    } else if Truthy(user.token) && Truthy(user.salt) {
      params.Set("t", user.token.value);
      params.Set("s", user.salt.value);
    } else if Truthy(user.password) {
      params.Set("p", user.password.value);
    } else {
      return Err(ConfigurationError("No valid authentication credentials found for user " + user.slug + "."));
    }
    r := Ok(params);
  }

  /** Exactly one credential is sent: the plaintext password, or a token together with its salt. */
  lemma ExactlyOneCredential(user: UserConfig, config: AppConfig, salt: string, md5: string -> string)
    requires AuthParams(user, config, salt, md5).Ok?
    ensures var p := AuthParams(user, config, salt, md5).value;
      && (("p" in p) != ("t" in p))
      && (("t" in p) <==> ("s" in p))
  {
  }

  /**
   * `useTokenAuth` is consulted first: with a password it hashes the password with the
   * request's salt; without one it fails, whatever token and salt are configured.
   */
  lemma TokenAuthTakesPriority(user: UserConfig, config: AppConfig, salt: string, md5: string -> string)
    requires user.useTokenAuth == Some(true)
    ensures Truthy(user.password) ==>
      var r := AuthParams(user, config, salt, md5);
      r.Ok? && r.value["t"] == md5(user.password.value + salt) && r.value["s"] == salt
    ensures !Truthy(user.password) ==>
      AuthParams(user, config, salt, md5)
        == Err(ConfigurationError("User " + user.slug + " is configured for token auth but no password was provided."))
  {
  }

  /**
   * Without `useTokenAuth`, a stored token and salt are sent verbatim: the result does not
   * depend on the hash function or on the request's salt.
   */
  lemma StoredTokenCopiedVerbatim(user: UserConfig, config: AppConfig, salt: string, md5: string -> string,
                                  otherSalt: string, otherMd5: string -> string)
    requires user.useTokenAuth != Some(true) && Truthy(user.token) && Truthy(user.salt)
    ensures var r := AuthParams(user, config, salt, md5);
      r.Ok? && r.value["t"] == user.token.value && r.value["s"] == user.salt.value
    ensures AuthParams(user, config, salt, md5) == AuthParams(user, config, otherSalt, otherMd5)
  {
  }

  /** The plaintext password goes out as `p` exactly when neither token mode applies. */
  lemma PlaintextOnlyAsLastResort(user: UserConfig, config: AppConfig, salt: string, md5: string -> string)
    ensures var r := AuthParams(user, config, salt, md5);
      (r.Ok? && "p" in r.value) <==>
        (user.useTokenAuth != Some(true) && !(Truthy(user.token) && Truthy(user.salt)) && Truthy(user.password))
    ensures var r := AuthParams(user, config, salt, md5);
      r.Ok? && "p" in r.value ==> r.value["p"] == user.password.value
  {
  }

  /** The only failures: token auth without a password, or no credential at all. */
  lemma MissingCredentialsFail(user: UserConfig, config: AppConfig, salt: string, md5: string -> string)
    ensures AuthParams(user, config, salt, md5).Err? <==>
      if user.useTokenAuth == Some(true) then !Truthy(user.password)
      else !(Truthy(user.token) && Truthy(user.salt)) && !Truthy(user.password)
  {
  }

  // ---------------------------------------------------------------------------
  // Extra query keys
  // ---------------------------------------------------------------------------

  /** The parameters after `params.set(key, value)` for each query entry in order, skipping absent values. */
  function MergeQuery(params: Params, query: Query): (r: Params)
    ensures params.Keys <= r.Keys
    ensures forall key :: key in r && key !in params ==> exists i :: 0 <= i < |query| && query[i].0 == key && query[i].1.Some?
  {
    if |query| == 0 then params
    else
      var before := MergeQuery(params, query[..|query| - 1]);
      var (key, value) := query[|query| - 1];
      if value.Some? then before[key := value.value] else before
  }

  /** Some entry of the query sets `key` to a present value. */
  predicate SetsKey(query: Query, key: string) {
    exists i :: 0 <= i < |query| && query[i].0 == key && query[i].1.Some?
  }

  /** A parameter the query does not set keeps its presence and value. */
  lemma {:induction false} MergeQueryKeepsOthers(params: Params, query: Query, key: string)
    requires !SetsKey(query, key)
    ensures key in MergeQuery(params, query) <==> key in params
    ensures key in params ==> MergeQuery(params, query)[key] == params[key]
  {
    if |query| > 0 {
      var prefix := query[..|query| - 1];
      assert forall i :: 0 <= i < |prefix| ==> prefix[i] == query[i];
      MergeQueryKeepsOthers(params, prefix, key);
    }
  }

  /** The last query entry with a present value for a key decides that parameter, auth keys included. */
  lemma {:induction false} MergeQueryLastWins(params: Params, query: Query, i: int)
    requires 0 <= i < |query| && query[i].1.Some?
    requires forall j :: i < j < |query| && query[j].0 == query[i].0 ==> query[j].1.None?
    ensures query[i].0 in MergeQuery(params, query)
    ensures MergeQuery(params, query)[query[i].0] == query[i].1.value
  {
    var prefix := query[..|query| - 1];
    if i < |query| - 1 {
      assert forall j :: i < j < |prefix| ==> prefix[j] == query[j];
      MergeQueryLastWins(params, prefix, i);
    }
  }

  /** The URL `buildUrl` returns, or the error it propagates. */
  function UrlFor(user: UserConfig, config: AppConfig, endpoint: string, query: Query,
                  salt: string, md5: string -> string): (r: Result<RequestUrl, Failure>)
    ensures r.Err? <==> AuthParams(user, config, salt, md5).Err?
    ensures r.Err? ==> r.error == AuthParams(user, config, salt, md5).error
    ensures r.Ok? ==> && r.value.serverUrl == user.serverUrl && r.value.endpoint == endpoint
                      && AuthParams(user, config, salt, md5).value.Keys <= r.value.search.Keys
  {
    match AuthParams(user, config, salt, md5)
    case Err(f) => Err(f)
    case Ok(auth) => Ok(RequestUrl(user.serverUrl, endpoint, MergeQuery(auth, query)))
  }

  /** `buildUrl`: the authentication parameters, then each present extra key set over them. */
  method BuildUrl(user: UserConfig, config: AppConfig, endpoint: string, query: Query,
                  salt: string, md5: string -> string)
    returns (r: Result<RequestUrl, Failure>)
    ensures r == UrlFor(user, config, endpoint, query, salt, md5)
  {
    var auth := BuildAuthParams(user, config, salt, md5);
    if auth.Err? {
      return Err(auth.error);
    }
    var params := auth.value;
    ghost var initial := params.entries;
    var i := 0;
    while i < |query|
      invariant 0 <= i <= |query|
      invariant params.entries == MergeQuery(initial, query[..i])
    {
      assert query[..i + 1][..i] == query[..i];
      var (key, value) := query[i];
      if value.Some? {
        params.Set(key, value.value);
      }
      i := i + 1;
    }
    assert query[..|query|] == query;
    r := Ok(RequestUrl(user.serverUrl, endpoint, params.entries));
  }

  // ---------------------------------------------------------------------------
  // Now playing
  // ---------------------------------------------------------------------------

  /** `fetchJson`: a thrown network error, a non-2xx status, or the parsed body. */
  function FetchJson<B>(outcome: FetchOutcome<B>): (r: Result<B, Failure>)
    ensures r.Ok? <==> outcome.Received? && outcome.response.Ok()
    ensures r.Ok? ==> r.value == outcome.response.body
    ensures r.Err? ==> r.error.UpstreamError?
  {
    match outcome
    case NetworkFailure(message) => Err(UpstreamError(message))
    case Received(response) =>
      if !response.Ok() then
        Err(UpstreamError("Request failed with status " + DecimalText(response.status) + ": " + response.statusText))
      else
        Ok(response.body)
  }

  /** `a.minutesAgo ?? 0`, the sort key. */
  function MinutesAgo(e: NowPlayingEntry): int {
    e.minutesAgo.GetOr(0)
  }

  predicate Matches(e: NowPlayingEntry, username: string) {
    e.username == Some(username)
  }

  /** A single entry is treated as a one-element list. */
  function EntryList(field: EntryField): (r: seq<NowPlayingEntry>)
    ensures field.Single? ==> r == [field.entry]
    ensures field.Many? ==> r == field.entries
  {
    match field
    case Single(e) => [e]
    case Many(es) => es
  }

  /** `entries.filter((entry) => entry.username === username)`. */
  function Filter(es: seq<NowPlayingEntry>, username: string): (r: seq<NowPlayingEntry>)
    ensures forall e :: e in r <==> e in es && Matches(e, username)
  {
    if es == [] then []
    else if Matches(es[0], username) then [es[0]] + Filter(es[1..], username)
    else Filter(es[1..], username)
  }

  /** Filtering keeps list order: the filter of a concatenation is the concatenation of the filters. */
  lemma {:induction false} FilterAppend(a: seq<NowPlayingEntry>, b: seq<NowPlayingEntry>, username: string)
    ensures Filter(a + b, username) == Filter(a, username) + Filter(b, username)
    decreases |a|
  {
    if a != [] {
      assert (a + b)[0] == a[0] && (a + b)[1..] == a[1..] + b;
      FilterAppend(a[1..], b, username);
      if Matches(a[0], username) {
        calc {
          Filter(a + b, username);
          [a[0]] + Filter(a[1..] + b, username);
          [a[0]] + (Filter(a[1..], username) + Filter(b, username));
          ([a[0]] + Filter(a[1..], username)) + Filter(b, username);
        }
      }
    } else {
      assert a + b == b;
    }
  }

  /** Filtering keeps every copy of a matching entry and no copy of any other. */
  lemma {:induction false} FilterCounts(es: seq<NowPlayingEntry>, username: string, e: NowPlayingEntry)
    ensures multiset(Filter(es, username))[e] == if Matches(e, username) then multiset(es)[e] else 0
    decreases |es|
  {
    if es != [] {
      FilterCounts(es[1..], username, e);
      assert es == [es[0]] + es[1..];
      assert multiset(es) == multiset([es[0]]) + multiset(es[1..]);
    }
  }

  /** One entry is kept exactly when it is the user's. */
  lemma FilterSingle(e: NowPlayingEntry, username: string)
    ensures Filter([e], username) == if Matches(e, username) then [e] else []
  {
    assert [e][1..] == [];
  }

  /** The head of the list stably sorted by `MinutesAgo`: the first entry whose key is least. */
  function FirstMinimum(es: seq<NowPlayingEntry>): (r: Option<NowPlayingEntry>)
    ensures r.None? <==> es == []
    ensures r.Some? ==> r.value in es && forall e :: e in es ==> MinutesAgo(r.value) <= MinutesAgo(e)
  {
    if es == [] then None
    else
      var rest := FirstMinimum(es[1..]);
      if rest.None? || MinutesAgo(es[0]) <= MinutesAgo(rest.value) then Some(es[0]) else rest
  }

  /**
   * The stable sort keeps equal keys in list order, so its head is the earliest least entry:
   * the first entry whose key is no larger than the chosen one's is the chosen one.
   */
  lemma {:induction false} FirstMinimumIsEarliest(es: seq<NowPlayingEntry>, i: int)
    requires FirstMinimum(es).Some? && 0 <= i < |es|
    requires MinutesAgo(es[i]) <= MinutesAgo(FirstMinimum(es).value)
    requires forall j :: 0 <= j < i ==> MinutesAgo(es[j]) > MinutesAgo(FirstMinimum(es).value)
    ensures es[i] == FirstMinimum(es).value
    decreases |es|
  {
    var rest := FirstMinimum(es[1..]);
    if !(rest.None? || MinutesAgo(es[0]) <= MinutesAgo(rest.value)) {
      assert es[i] == es[1..][i - 1];
      forall j | 0 <= j < i - 1
        ensures MinutesAgo(es[1..][j]) > MinutesAgo(rest.value)
      {
        assert es[1..][j] == es[j + 1];
      }
      FirstMinimumIsEarliest(es[1..], i - 1);
    }
  }

  /** The `match` of `getNowPlayingEntry`: filter by username, sort by minutes ago, take the first. */
  function SelectEntry(es: seq<NowPlayingEntry>, username: string): (r: Option<NowPlayingEntry>)
    ensures r.None? <==> forall e :: e in es ==> !Matches(e, username)
    ensures r.Some? ==> r.value in es && Matches(r.value, username)
  {
    FirstMinimum(Filter(es, username))
  }

  /** Index `i` holds a matching entry with the least key, and every earlier match has a larger key. */
  predicate IsFirstMinimalMatch(es: seq<NowPlayingEntry>, username: string, i: int) {
    && 0 <= i < |es|
    && Matches(es[i], username)
    && (forall j :: 0 <= j < |es| && Matches(es[j], username) ==> MinutesAgo(es[i]) <= MinutesAgo(es[j]))
    && (forall j :: 0 <= j < i && Matches(es[j], username) ==> MinutesAgo(es[j]) > MinutesAgo(es[i]))
  }

  /** Filtering then taking the first minimum decides on the head entry against the rest's selection. */
  lemma SelectEntryUnfold(es: seq<NowPlayingEntry>, username: string)
    requires es != []
    ensures var rest := SelectEntry(es[1..], username);
      SelectEntry(es, username) ==
        if Matches(es[0], username) && (rest.None? || MinutesAgo(es[0]) <= MinutesAgo(rest.value))
        then Some(es[0]) else rest
  {
    if Matches(es[0], username) {
      assert Filter(es, username) == [es[0]] + Filter(es[1..], username);
      assert ([es[0]] + Filter(es[1..], username))[1..] == Filter(es[1..], username);
    }
  }

  /** A first minimal match of the tail stays one, one place later, unless the head is a match at least as small. */
  lemma FirstMinimalMatchShift(es: seq<NowPlayingEntry>, username: string, k: int)
    requires es != [] && IsFirstMinimalMatch(es[1..], username, k)
    requires Matches(es[0], username) ==> MinutesAgo(es[0]) > MinutesAgo(es[k + 1])
    ensures IsFirstMinimalMatch(es, username, k + 1)
  {
    assert es[k + 1] == es[1..][k];
    forall j | 0 <= j < |es| && Matches(es[j], username)
      ensures MinutesAgo(es[k + 1]) <= MinutesAgo(es[j])
    {
      if j > 0 { assert es[j] == es[1..][j - 1]; }
    }
    forall j | 0 <= j < k + 1 && Matches(es[j], username)
      ensures MinutesAgo(es[j]) > MinutesAgo(es[k + 1])
    {
      if j > 0 { assert es[j] == es[1..][j - 1]; }
    }
  }

  /** A matching head no larger than every match of the tail is the first minimal match. */
  lemma FirstMinimalMatchHead(es: seq<NowPlayingEntry>, username: string)
    requires es != [] && Matches(es[0], username)
    requires forall j :: 0 <= j < |es| - 1 && Matches(es[1..][j], username) ==> MinutesAgo(es[0]) <= MinutesAgo(es[1..][j])
    ensures IsFirstMinimalMatch(es, username, 0)
  {
    forall j | 0 <= j < |es| && Matches(es[j], username)
      ensures MinutesAgo(es[0]) <= MinutesAgo(es[j])
    {
      if j > 0 { assert es[j] == es[1..][j - 1]; }
    }
  }

  /**
   * The selection is null exactly when no entry is the user's, and otherwise is the user's
   * entry with the least `minutesAgo`, ties going to the earliest in list order.
   */
  lemma {:induction false} SelectEntryIsFirstMinimalMatch(es: seq<NowPlayingEntry>, username: string)
    ensures SelectEntry(es, username).None? <==> forall i :: 0 <= i < |es| ==> !Matches(es[i], username)
    ensures SelectEntry(es, username).Some? ==>
      exists i :: IsFirstMinimalMatch(es, username, i) && es[i] == SelectEntry(es, username).value
  {
    if es != [] {
      var rest := es[1..];
      SelectEntryIsFirstMinimalMatch(rest, username);
      SelectEntryUnfold(es, username);
      var sel := SelectEntry(rest, username);
      assert forall j :: 1 <= j < |es| ==> es[j] == rest[j - 1];
      if Matches(es[0], username) && (sel.None? || MinutesAgo(es[0]) <= MinutesAgo(sel.value)) {
        if sel.Some? {
          var k :| IsFirstMinimalMatch(rest, username, k) && rest[k] == sel.value;
        }
        FirstMinimalMatchHead(es, username);
      } else if sel.Some? {
        var k :| IsFirstMinimalMatch(rest, username, k) && rest[k] == sel.value;
        FirstMinimalMatchShift(es, username, k);
      }
    }
  }

  function SampleEntry(id: string, username: string, minutesAgo: Option<int>): NowPlayingEntry {
    NowPlayingEntry(id, None, None, None, None, None, Some(username), minutesAgo, None, None)
  }

  /**
   * Worked case: of alice's entries 5 and 2 minutes old, with bob's 1-minute entry between,
   * the 2-minute one is chosen; a user with no entry gets none.
   */
  lemma SelectionPicksMostRecent()
    ensures var a5, b1, a2 := SampleEntry("1", "alice", Some(5)), SampleEntry("2", "bob", Some(1)), SampleEntry("3", "alice", Some(2));
      && SelectEntry([a5, b1, a2], "alice") == Some(a2)
      && SelectEntry([a5, b1, a2], "carol") == None
  {
    var a5, b1, a2 := SampleEntry("1", "alice", Some(5)), SampleEntry("2", "bob", Some(1)), SampleEntry("3", "alice", Some(2));
    var es := [a5, b1, a2];
    assert es[1..] == [b1, a2] && [b1, a2][1..] == [a2] && [a2][1..] == [];
    assert Filter([a2], "alice") == [a2] + Filter([], "alice") == [a2];
    assert Filter([b1, a2], "alice") == [a2];
    assert Filter(es, "alice") == [a5] + [a2] == [a5, a2];
    assert [a5, a2][1..] == [a2];
    assert Filter([a2], "carol") == [] && Filter([b1, a2], "carol") == [];
  }

  /** Worked case: on a tie the earlier entry wins, and a missing `minutesAgo` counts as 0. */
  lemma SelectionTiesAndMissingAge()
    ensures var x, y := SampleEntry("1", "alice", Some(2)), SampleEntry("2", "alice", Some(2));
      SelectEntry([x, y], "alice") == Some(x)
    ensures var x, y := SampleEntry("1", "alice", Some(3)), SampleEntry("2", "alice", None);
      SelectEntry([x, y], "alice") == Some(y)
  {
    var x, y := SampleEntry("1", "alice", Some(2)), SampleEntry("2", "alice", Some(2));
    assert [x, y][1..] == [y] && [y][1..] == [];
    assert Filter([y], "alice") == [y] + Filter([], "alice") == [y];
    assert Filter([x, y], "alice") == [x] + [y] == [x, y];
    var x', y' := SampleEntry("1", "alice", Some(3)), SampleEntry("2", "alice", None);
    assert [x', y'][1..] == [y'] && [y'][1..] == [];
    assert Filter([y'], "alice") == [y'] + Filter([], "alice") == [y'];
    assert Filter([x', y'], "alice") == [x'] + [y'] == [x', y'];
  }

  /** At most one index is the first minimal match, so the selection is fully determined. */
  lemma FirstMinimalMatchUnique(es: seq<NowPlayingEntry>, username: string, i: int, k: int)
    requires IsFirstMinimalMatch(es, username, i) && IsFirstMinimalMatch(es, username, k)
    ensures i == k
  {
  }

  /** The now-playing result computed from the `subsonic-response` envelope. */
  function EntryFromResponse(body: SubsonicResponse, username: string): (r: Result<Option<NowPlayingEntry>, Failure>)
    ensures r.Err? <==> body.status != "ok"
    ensures r.Err? ==> r.error.UpstreamError?
    ensures r.Ok? && r.value.Some? ==> Matches(r.value.value, username)
  {
    if body.status != "ok" then
      var message := if body.error.Some? then body.error.value.message else "Unknown error";
      Err(UpstreamError("Subsonic getNowPlaying failed: " + message))
    else if body.nowPlaying.None? || body.nowPlaying.value.entry.None? then
      Ok(None)
    else
      var selected := SelectEntry(EntryList(body.nowPlaying.value.entry.value), username);
      SelectEntryIsFirstMinimalMatch(EntryList(body.nowPlaying.value.entry.value), username);
      Ok(selected)
  }

  /** A failed envelope carries the upstream message, or `Unknown error` when there is none. */
  lemma EnvelopeErrorCarriesMessage(body: SubsonicResponse, username: string)
    requires body.status != "ok"
    ensures body.error.Some? ==>
      EntryFromResponse(body, username) == Err(UpstreamError("Subsonic getNowPlaying failed: " + body.error.value.message))
    ensures body.error.None? ==>
      EntryFromResponse(body, username) == Err(UpstreamError("Subsonic getNowPlaying failed: " + "Unknown error"))
  {
  }

  /** An `ok` envelope without entries means nothing is playing: null, not an error. */
  lemma NoEntriesIsNotAnError(body: SubsonicResponse, username: string)
    requires body.status == "ok"
    requires body.nowPlaying.None? || body.nowPlaying.value.entry.None?
    ensures EntryFromResponse(body, username) == Ok(None)
  {
  }

  /** With entries, the result is the first minimal match of the list (a single object being a one-element list). */
  lemma EntriesSelectFirstMinimalMatch(body: SubsonicResponse, username: string)
    requires body.status == "ok" && body.nowPlaying.Some? && body.nowPlaying.value.entry.Some?
    ensures var es := EntryList(body.nowPlaying.value.entry.value);
      var r := EntryFromResponse(body, username);
      && r.Ok?
      && (r.value.None? <==> forall i :: 0 <= i < |es| ==> !Matches(es[i], username))
      && (r.value.Some? ==> exists i :: IsFirstMinimalMatch(es, username, i) && es[i] == r.value.value)
  {
    SelectEntryIsFirstMinimalMatch(EntryList(body.nowPlaying.value.entry.value), username);
  }

  /** `getNowPlayingEntry`: build the URL, fetch the JSON, check the envelope and select the entry. */
  method GetNowPlayingEntry(user: UserConfig, config: AppConfig, salt: string, md5: string -> string,
                            fetch: RequestUrl -> FetchOutcome<NowPlayingResponseBody>)
    returns (r: Result<Option<NowPlayingEntry>, Failure>)
    ensures AuthParams(user, config, salt, md5).Err? ==> r == Err(AuthParams(user, config, salt, md5).error)
    ensures AuthParams(user, config, salt, md5).Ok? ==>
      var url := RequestUrl(user.serverUrl, NowPlayingEndpoint, AuthParams(user, config, salt, md5).value);
      r == match FetchJson(fetch(url))
           case Err(f) => Err(f)
           case Ok(payload) => EntryFromResponse(payload.subsonicResponse, user.username)
    ensures r.Ok? && r.value.Some? ==> Matches(r.value.value, user.username)
  {
    var url := BuildUrl(user, config, NowPlayingEndpoint, [], salt, md5);
    if url.Err? {
      return Err(url.error);
    }
    var payload := FetchJson(fetch(url.value));
    if payload.Err? {
      return Err(payload.error);
    }
    r := EntryFromResponse(payload.value.subsonicResponse, user.username);
  }

  // ---------------------------------------------------------------------------
  // Cover art
  // ---------------------------------------------------------------------------

  function CoverArtQuery(coverArtId: string): Query {
    [("id", Some(coverArtId)), ("size", Some(CoverArtSize))]
  }

  /** The cover-art request carries the cover id and size 500 over the unchanged authentication parameters. */
  lemma CoverArtUrlParams(auth: Params, coverArtId: string)
    ensures var search := MergeQuery(auth, CoverArtQuery(coverArtId));
      && "id" in search && search["id"] == coverArtId
      && "size" in search && search["size"] == CoverArtSize
      && forall k :: k in auth && k != "id" && k != "size" ==> k in search && search[k] == auth[k]
  {
    var q := CoverArtQuery(coverArtId);
    assert q[..1][..0] == [];
    assert MergeQuery(auth, q[..1]) == auth["id" := coverArtId];
    assert q[..|q| - 1] == q[..1];
    assert MergeQuery(auth, q) == auth["id" := coverArtId]["size" := CoverArtSize];
  }

  /** What `proxyCoverArt` returns for a fetch outcome: the response itself when it is 2xx. */
  function CoverArtResult<B>(outcome: FetchOutcome<B>): (r: Result<Response<B>, Failure>)
    ensures r.Ok? <==> outcome.Received? && outcome.response.Ok()
    ensures r.Ok? ==> r.value == outcome.response
  {
    match outcome
    case NetworkFailure(message) => Err(UpstreamError(message))
    case Received(response) =>
      if !response.Ok() then
        Err(UpstreamError("Failed to download cover art: " + DecimalText(response.status) + " " + response.statusText))
      else
        Ok(response)
  }

  /** `proxyCoverArt`: request the cover at size 500 and pass a 2xx response through unmodified. */
  method ProxyCoverArt<B>(user: UserConfig, config: AppConfig, coverArtId: string, salt: string,
                          md5: string -> string, fetch: RequestUrl -> FetchOutcome<B>)
    returns (r: Result<Response<B>, Failure>)
    ensures AuthParams(user, config, salt, md5).Err? ==> r == Err(AuthParams(user, config, salt, md5).error)
    ensures AuthParams(user, config, salt, md5).Ok? ==>
      var search := MergeQuery(AuthParams(user, config, salt, md5).value, CoverArtQuery(coverArtId));
      r == CoverArtResult(fetch(RequestUrl(user.serverUrl, CoverArtEndpoint, search)))
  {
    var url := BuildUrl(user, config, CoverArtEndpoint, CoverArtQuery(coverArtId), salt, md5);
    if url.Err? {
      return Err(url.error);
    }
    r := CoverArtResult(fetch(url.value));
  }
}

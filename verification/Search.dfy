/** The search command: ranks the users the caller may invite, keeps the ranking in the
    caller's session, and answers with one page of it. */
module Search {
  import opened Entities
  import opened EditDistance
  import opened QueryRanking
  import opened Selection
  import opened StableSort

  const MIN_RELEVANCE_VALUE := 0.3

  // ---------- Ranking ----------

  predicate Searchable(u: UserInfo) {
    u.login != "" && u.name != ""
  }

  // What the users table guarantees about the rows of the searching list
  ghost predicate SearchingList(info: seq<UserInfo>) {
    && |info| < TWO_TO_THE_31
    && (forall u :: u in info ==> Searchable(u))
    && (forall i, j :: 0 <= i < j < |info| ==> info[i].id != info[j].id)
  }

  function MaxReal(x: real, y: real): real {
    if x < y then y else x
  }

  function UserRelevance(u: UserInfo, query: string): real {
    if Searchable(u) && query != "" then MaxReal(Relevance(u.login, query), Relevance(u.name, query)) else 0.0
  }

  function Weight(query: string): UserInfo -> real {
    u => UserRelevance(u, query)
  }

  // The users of enough weight, in order
  function Survivors(info: seq<UserInfo>, weight: UserInfo -> real): seq<UserInfo> {
    if info == [] then []
    else (if weight(info[0]) < MIN_RELEVANCE_VALUE then [] else [info[0]]) + Survivors(info[1..], weight)
  }

  function Ranked(info: seq<UserInfo>, query: string): seq<UserInfo> {
    Sort(Survivors(info, Weight(query)), Weight(query))
  }

  lemma {:induction false} SurvivorsTied(info: seq<UserInfo>, weight: UserInfo -> real, w: real)
    ensures Tied(Survivors(info, weight), weight, w) == if w < MIN_RELEVANCE_VALUE then [] else Tied(info, weight, w)
  {
    if info != [] {
      SurvivorsTied(info[1..], weight, w);
      var x, rest := info[0], Survivors(info[1..], weight);
      assert ([x] + rest)[1..] == rest && [] + rest == rest;
      assert Tied([x] + rest, weight, w) == (if weight(x) == w then [x] else []) + Tied(rest, weight, w);
      assert [] + Tied(rest, weight, w) == Tied(rest, weight, w);
    }
  }

  lemma {:induction false} SurvivorsCongruent(info: seq<UserInfo>, weight: UserInfo -> real, other: UserInfo -> real)
    requires forall u :: u in info ==> weight(u) == other(u)
    ensures Survivors(info, weight) == Survivors(info, other)
    ensures forall u :: u in Survivors(info, weight) <==> u in info && weight(u) >= MIN_RELEVANCE_VALUE
  {
    if info != [] {
      SurvivorsCongruent(info[1..], weight, other);
      assert info == [info[0]] + info[1..];
    }
  }

  // The candidates of one relevance that belong in the ranking, in database order
  function Qualified(info: seq<UserInfo>, query: string, w: real): seq<UserInfo> {
    if w < MIN_RELEVANCE_VALUE then [] else Tied(info, Weight(query), w)
  }

  ghost predicate IsRanking(info: seq<UserInfo>, query: string, out: seq<UserInfo>) {
    && Descending(out, Weight(query))
    && forall w :: Tied(out, Weight(query), w) == Qualified(info, query, w)
  }

  /** The ranking is the one list in non-increasing relevance that holds, for every relevance
      of at least 3/10, exactly the candidates of that relevance in database order. */
  lemma RankedIsTheRanking(info: seq<UserInfo>, query: string, out: seq<UserInfo>)
    ensures out == Ranked(info, query) <==> IsRanking(info, query, out)
  {
    var kept := Survivors(info, Weight(query));
    SortIsStable(kept, Weight(query));
    forall w ensures Tied(Ranked(info, query), Weight(query), w) == Qualified(info, query, w) {
      SurvivorsTied(info, Weight(query), w);
      assert Tied(Ranked(info, query), Weight(query), w) == Tied(kept, Weight(query), w);
    }
    if IsRanking(info, query, out) {
      assert Stable(out, Ranked(info, query), Weight(query));
      StableSortUnique(out, Ranked(info, query), Weight(query));
    }
  }

  /** A candidate is listed exactly when its login or name is close enough to the query. */
  lemma RankedMembers(info: seq<UserInfo>, query: string, u: UserInfo)
    requires SearchingList(info) && query != "" && u in info
    ensures u in Ranked(info, query) <==>
            10 * Min(Distance(Tail(u.login), Tail(query)), Distance(Tail(u.name), Tail(query))) <= 7 * |query|
  {
    RelevanceThreshold(u.login, query);
    RelevanceThreshold(u.name, query);
    SurvivorsCongruent(info, Weight(query), Weight(query));
    SortElements(Survivors(info, Weight(query)), Weight(query));
    assert u in Ranked(info, query) <==> u in multiset(Ranked(info, query));
  }

  lemma {:induction false} SurvivorsMultiset(info: seq<UserInfo>, weight: UserInfo -> real)
    ensures multiset(Survivors(info, weight)) <= multiset(info)
  {
    if info != [] {
      SurvivorsMultiset(info[1..], weight);
      assert info == [info[0]] + info[1..];
    }
  }

  lemma {:induction false} DistinctUsers(info: seq<UserInfo>, u: UserInfo)
    requires forall i, j :: 0 <= i < j < |info| ==> info[i].id != info[j].id
    ensures multiset(info)[u] <= 1
  {
    if info != [] {
      DistinctUsers(info[1..], u);
      assert info == [info[0]] + info[1..];
      forall j | 0 <= j < |info[1..]| ensures info[1..][j] != info[0] {
        assert info[j + 1].id != info[0].id;
      }
    }
  }

  /** Nobody is listed twice, and nobody who is not a candidate. */
  lemma RankedOnce(info: seq<UserInfo>, query: string, u: UserInfo)
    requires SearchingList(info)
    ensures multiset(Ranked(info, query))[u] <= multiset(info)[u] <= 1
  {
    SortElements(Survivors(info, Weight(query)), Weight(query));
    SurvivorsMultiset(info, Weight(query));
    DistinctUsers(info, u);
  }

  // ---------- The order of the ranking ----------

  // The distance of a user from the query: that of the closer of login and name
  function Closeness(u: UserInfo, query: string): nat
    requires Searchable(u) && query != ""
  {
    Min(Distance(Tail(u.login), Tail(query)), Distance(Tail(u.name), Tail(query)))
  }

  function CloserWord(u: UserInfo, query: string): string
    requires Searchable(u) && query != ""
  {
    if Distance(Tail(u.login), Tail(query)) <= Distance(Tail(u.name), Tail(query)) then u.login else u.name
  }

  lemma WeightOfCloserWord(u: UserInfo, query: string)
    requires Searchable(u) && query != ""
    ensures Weight(query)(u) == Relevance(CloserWord(u, query), query)
    ensures Closeness(u, query) == Distance(Tail(CloserWord(u, query)), Tail(query))
  {
    RelevanceOrder(u.login, u.name, query);
    RelevanceOrder(u.name, u.login, query);
  }

  // Among users heavy enough to be listed, heavier means closer
  lemma WeightOrder(u: UserInfo, v: UserInfo, query: string)
    requires Searchable(u) && Searchable(v) && query != "" && Weight(query)(v) >= MIN_RELEVANCE_VALUE
    ensures Weight(query)(u) >= Weight(query)(v) <==> Closeness(u, query) <= Closeness(v, query)
  {
    WeightOfCloserWord(u, query);
    WeightOfCloserWord(v, query);
    RelevanceThreshold(CloserWord(v, query), query);
    RelevanceOrder(CloserWord(u, query), CloserWord(v, query), query);
  }

  // Where tied elements stand in the list and where in its ties
  lemma {:induction false} PlacesInTies(s: seq<UserInfo>, weight: UserInfo -> real, w: real, i: nat, j: nat)
    returns (p: nat, q: nat)
    requires i < j < |s| && weight(s[i]) == w == weight(s[j])
    ensures p < q < |Tied(s, weight, w)| && Tied(s, weight, w)[p] == s[i] && Tied(s, weight, w)[q] == s[j]
  {
    if i == 0 {
      p := 0;
      q := PlaceInTies(s[1..], weight, w, j - 1);
      q := q + 1;
    } else {
      p, q := PlacesInTies(s[1..], weight, w, i - 1, j - 1);
      if weight(s[0]) == w {
        p, q := p + 1, q + 1;
      }
    }
  }

  lemma {:induction false} PlaceInTies(s: seq<UserInfo>, weight: UserInfo -> real, w: real, i: nat) returns (p: nat)
    requires i < |s| && weight(s[i]) == w
    ensures p < |Tied(s, weight, w)| && Tied(s, weight, w)[p] == s[i]
  {
    if i == 0 {
      p := 0;
    } else {
      p := PlaceInTies(s[1..], weight, w, i - 1);
      if weight(s[0]) == w {
        p := p + 1;
      }
    }
  }

  lemma {:induction false} PlacesOfTies(s: seq<UserInfo>, weight: UserInfo -> real, w: real, p: nat, q: nat)
    returns (i: nat, j: nat)
    requires p < q < |Tied(s, weight, w)|
    ensures i < j < |s| && s[i] == Tied(s, weight, w)[p] && s[j] == Tied(s, weight, w)[q]
  {
    if weight(s[0]) != w {
      i, j := PlacesOfTies(s[1..], weight, w, p, q);
      i, j := i + 1, j + 1;
    } else if p == 0 {
      i := 0;
      j := PlaceOfTie(s[1..], weight, w, q - 1);
      j := j + 1;
    } else {
      i, j := PlacesOfTies(s[1..], weight, w, p - 1, q - 1);
      i, j := i + 1, j + 1;
    }
  }

  lemma {:induction false} PlaceOfTie(s: seq<UserInfo>, weight: UserInfo -> real, w: real, p: nat) returns (i: nat)
    requires p < |Tied(s, weight, w)|
    ensures i < |s| && s[i] == Tied(s, weight, w)[p]
  {
    if weight(s[0]) == w && p == 0 {
      i := 0;
    } else {
      i := PlaceOfTie(s[1..], weight, w, if weight(s[0]) == w then p - 1 else p);
      i := i + 1;
    }
  }

  lemma ListedUser(info: seq<UserInfo>, query: string, i: nat)
    requires SearchingList(info) && i < |Ranked(info, query)|
    ensures Ranked(info, query)[i] in info && Searchable(Ranked(info, query)[i])
    ensures Weight(query)(Ranked(info, query)[i]) >= MIN_RELEVANCE_VALUE
  {
    var u := Ranked(info, query)[i];
    SortElements(Survivors(info, Weight(query)), Weight(query));
    SurvivorsCongruent(info, Weight(query), Weight(query));
    assert u in multiset(Ranked(info, query));
    assert u in Survivors(info, Weight(query));
  }

  /** The ranking runs from the closest user to the farthest, by the closer of login and name, and
      equally close users stand in database order. */
  lemma RankedByDistance(info: seq<UserInfo>, query: string, i: nat, j: nat)
    requires SearchingList(info) && query != "" && i < j < |Ranked(info, query)|
    ensures var u, v := Ranked(info, query)[i], Ranked(info, query)[j];
            && Searchable(u) && Searchable(v) && Closeness(u, query) <= Closeness(v, query)
            && (Closeness(u, query) == Closeness(v, query) ==>
                  exists a, b :: 0 <= a < b < |info| && info[a] == u && info[b] == v)
  {
    var ranked, weight := Ranked(info, query), Weight(query);
    ListedUser(info, query, i);
    ListedUser(info, query, j);
    WeightOrder(ranked[i], ranked[j], query);
    WeightOrder(ranked[j], ranked[i], query);
    RankedIsTheRanking(info, query, ranked);
    if Closeness(ranked[i], query) == Closeness(ranked[j], query) {
      TiedInDatabaseOrder(info, query, i, j);
    }
  }

  lemma TiedInDatabaseOrder(info: seq<UserInfo>, query: string, i: nat, j: nat)
    requires i < j < |Ranked(info, query)|
    requires Weight(query)(Ranked(info, query)[i]) == Weight(query)(Ranked(info, query)[j]) >= MIN_RELEVANCE_VALUE
    ensures exists a, b :: && 0 <= a < b < |info|
                           && info[a] == Ranked(info, query)[i] && info[b] == Ranked(info, query)[j]
  {
    var ranked, weight := Ranked(info, query), Weight(query);
    var w := weight(ranked[i]);
    RankedIsTheRanking(info, query, ranked);
    assert Tied(ranked, weight, w) == Qualified(info, query, w) == Tied(info, weight, w);
    var p, q := PlacesInTies(ranked, weight, w, i, j);
    var a, b := PlacesOfTies(info, weight, w, p, q);
  }

  // ---------- The cache ----------

  datatype SearchingCache = SearchingCache(query: string, results: map<int, UserInfo>)

  // The database's answer to the searching list query
  datatype Answer = Candidates(info: seq<UserInfo>) | Failed

  // Undefined: the estimator was called with an empty query, whose table has no columns
  datatype Outcome = Code(code: Status) | Undefined

  function Numbered(s: seq<UserInfo>): map<int, UserInfo> {
    map i | 0 <= i < |s| :: s[i]
  }

  predicate Crashes(cache: SearchingCache, query: string, answer: Answer) {
    cache.query != query && query == "" && answer.Candidates? && answer.info != []
  }

  function Filled(query: string, answer: Answer): map<int, UserInfo> {
    if answer.Failed? then map[] else Numbered(Ranked(answer.info, query))
  }

  function NextCache(cache: SearchingCache, query: string, answer: Answer): SearchingCache {
    if cache.query == query then cache else SearchingCache(query, Filled(query, answer))
  }

  function NextOutcome(cache: SearchingCache, query: string, answer: Answer): Outcome {
    if Crashes(cache, query, answer) then Undefined
    else if cache.query != query && answer.Failed? then Code(InternalServerError)
    else Code(Okey)
  }

  ghost function Cache(session: ClientSession): SearchingCache
    reads session
  {
    SearchingCache(session.query, session.results)
  }

  // A map lookup that yields zero for a missing key
  function Lookup(relevance: map<Id, real>): UserInfo -> real {
    (u: UserInfo) => if u.id in relevance then relevance[u.id] else 0.0
  }

  // The relevance of each listed user, by id; an id already present keeps its entry
  method RelevanceTable(info: seq<UserInfo>, query: string) returns (relevance: map<Id, real>)
    requires SearchingList(info) && (info != [] ==> query != "")
    ensures forall u :: u in info ==> Lookup(relevance)(u) == Weight(query)(u)
  {
    relevance := map[];
    for i := 0 to |info|
      invariant forall k :: 0 <= k < i ==>
                  info[k].id in relevance && relevance[info[k].id] == UserRelevance(info[k], query)
      invariant forall k :: i <= k < |info| ==> info[k].id !in relevance
    {
      assert Searchable(info[i]);
      var byLogin := EstimateQueryRanking(info[i].login, query);
      var byName := EstimateQueryRanking(info[i].name, query);
      if info[i].id !in relevance {
        relevance := relevance[info[i].id := MaxReal(byLogin, byName)];
      }
    }
  }

  method UpdateSearchingCache(session: ClientSession, query: string, answer: Answer) returns (outcome: Outcome)
    requires answer.Candidates? ==> SearchingList(answer.info)
    modifies session`query, session`results
    ensures outcome == NextOutcome(old(Cache(session)), query, answer)
    ensures outcome.Code? ==> Cache(session) == NextCache(old(Cache(session)), query, answer)
  {
    if session.query == query {
      return Code(Okey);
    }
    session.query := query;
    session.results := map[];
    if answer.Failed? {
      return Code(InternalServerError);
    }
    var info := answer.info;
    if query == "" && info != [] {
      return Undefined;
    }
    var relevance := RelevanceTable(info, query);
    ghost var rows := info;
    info := Survivors(info, Lookup(relevance));
    SurvivorsCongruent(rows, Lookup(relevance), Weight(query));
    SortCongruent(info, Lookup(relevance), Weight(query));
    info := Sort(info, Lookup(relevance));
    assert info == Ranked(rows, query);
    StoreResults(session, info);
    outcome := Code(Okey);
  }

  method StoreResults(session: ClientSession, info: seq<UserInfo>)
    requires session.results == map[]
    modifies session`results
    ensures session.results == Numbered(info)
  {
    for i := 0 to |info|
      invariant session.results == Numbered(info[..i])
    {
      if i !in session.results {
        session.results := session.results[i := info[i]];
      }
    }
    assert info[..|info|] == info;
  }

  // ---------- Runs of searches in one session ----------

  datatype Call = Call(query: string, answer: Answer)

  // The cache after a run, or None once behaviour was undefined
  function CacheAfter(calls: seq<Call>): Option<SearchingCache> {
    if calls == [] then Some(SearchingCache("", map[]))
    else
      var last := calls[|calls| - 1];
      match CacheAfter(calls[..|calls| - 1])
      case None => None
      case Some(cache) =>
        if Crashes(cache, last.query, last.answer) then None else Some(NextCache(cache, last.query, last.answer))
  }

  // The query of call k differs from the one before it; a session starts with the empty query
  predicate Changes(calls: seq<Call>, k: int)
    requires 0 <= k < |calls|
  {
    calls[k].query != if k == 0 then "" else calls[k - 1].query
  }

  predicate ClearsQuery(calls: seq<Call>, k: int)
    requires 0 <= k < |calls|
  {
    Changes(calls, k) && calls[k].query == "" && calls[k].answer.Candidates? && calls[k].answer.info != []
  }

  predicate LastChange(calls: seq<Call>, k: int)
    requires 0 <= k < |calls|
  {
    Changes(calls, k) && forall j :: k < j < |calls| ==> !Changes(calls, j)
  }

  /** A run stays defined exactly when no call clears a non-empty query while there are candidates. */
  lemma {:induction false} UndefinedExactlyWhenQueryCleared(calls: seq<Call>)
    ensures CacheAfter(calls).None? <==> exists k :: 0 <= k < |calls| && ClearsQuery(calls, k)
    ensures CacheAfter(calls).Some? && calls != [] ==> CacheAfter(calls).value.query == calls[|calls| - 1].query
  {
    if calls != [] {
      var n := |calls| - 1;
      var before := calls[..n];
      UndefinedExactlyWhenQueryCleared(before);
      forall k | 0 <= k < n ensures ClearsQuery(before, k) == ClearsQuery(calls, k) {
      }
      if CacheAfter(before).Some? {
        assert Crashes(CacheAfter(before).value, calls[n].query, calls[n].answer) == ClearsQuery(calls, n);
      }
    }
  }

  // The last call of a defined run, seen from the run before it
  lemma LastCall(calls: seq<Call>)
    requires CacheAfter(calls).Some? && calls != []
    ensures var (before, last) := (calls[..|calls| - 1], calls[|calls| - 1]);
            && CacheAfter(before).Some?
            && Changes(calls, |calls| - 1) == (CacheAfter(before).value.query != last.query)
            && CacheAfter(calls).value == NextCache(CacheAfter(before).value, last.query, last.answer)
  {
    UndefinedExactlyWhenQueryCleared(calls[..|calls| - 1]);
  }

  /** After any defined run the cached results are the ranking of the candidates as they were
      when the session's query last changed, or empty when that fill failed. */
  lemma {:induction false} CacheIsRankingOfLastChange(calls: seq<Call>, k: nat)
    requires CacheAfter(calls).Some? && k < |calls| && LastChange(calls, k)
    ensures CacheAfter(calls).value.results == Filled(calls[k].query, calls[k].answer)
  {
    var before := calls[..|calls| - 1];
    LastCall(calls);
    if k < |before| {
      forall j | 0 <= j < |before| ensures Changes(before, j) == Changes(calls, j) {
      }
      CacheIsRankingOfLastChange(before, k);
    }
  }

  /** While the query never changes, which means it stays empty, there are no results. */
  lemma {:induction false} CacheEmptyBeforeFirstChange(calls: seq<Call>)
    requires CacheAfter(calls).Some? && forall k :: 0 <= k < |calls| ==> !Changes(calls, k)
    ensures CacheAfter(calls).value == SearchingCache("", map[])
  {
    if calls != [] {
      var before := calls[..|calls| - 1];
      LastCall(calls);
      forall j | 0 <= j < |before| ensures !Changes(before, j) {
        assert !Changes(calls, j);
      }
      CacheEmptyBeforeFirstChange(before);
    }
  }

  /** A search that failed to read the candidates leaves an empty ranking behind: repeating
      it succeeds with no results, whoever matches by then. */
  lemma RetryAfterFailedFill(calls: seq<Call>, query: string, again: Answer)
    requires CacheAfter(calls).Some? && CacheAfter(calls).value.query != query
    ensures var failed := calls + [Call(query, Failed)];
            && CacheAfter(failed + [Call(query, again)]) == Some(SearchingCache(query, map[]))
            && NextOutcome(SearchingCache(query, map[]), query, again) == Code(Okey)
  {
    var failed := calls + [Call(query, Failed)];
    assert failed[..|calls|] == calls;
    assert CacheAfter(failed) == Some(SearchingCache(query, map[]));
    var retried := failed + [Call(query, again)];
    assert retried[..|failed|] == failed;
  }

  // ---------- Pages ----------

  predicate InPage(i: int, size: int, offset: int, limit: int) {
    offset <= i < size && i - offset < limit
  }

  function PageOf(results: map<int, UserInfo>, offset: int, limit: int): map<int, UserInfo> {
    map i | i in results && InPage(i, |results|, offset, limit) :: results[i]
  }

  // Results are numbered without gaps and counted by a 64-bit integer
  ghost predicate IsNumbered(results: map<int, UserInfo>) {
    && |results| < TWO_TO_THE_64
    && forall i :: i in results <==> 0 <= i < |results|
  }

  lemma {:induction false} SizeOfRange(m: map<int, UserInfo>, n: nat)
    requires forall i :: i in m <==> 0 <= i < n
    ensures |m| == n
  {
    if n == 0 {
      assert m == map[];
    } else {
      var r := map i | i in m && i != n - 1 :: m[i];
      SizeOfRange(r, n - 1);
      assert m == r[n - 1 := m[n - 1]];
    }
  }

  lemma NumberedIsNumbered(s: seq<UserInfo>)
    ensures |Numbered(s)| == |s|
  {
    SizeOfRange(Numbered(s), |s|);
  }

  /** The page loop, in 64-bit arithmetic: it stops, nothing wraps, and it collects exactly the
      results of the page. */
  method CollectPage(results: map<int, UserInfo>, selection: SelectionBase) returns (data: map<int, UserInfo>)
    requires IsNumbered(results) && selection.Valid()
    ensures data == PageOf(results, selection.offset, selection.limit)
  {
    data := map[];
    var i := selection.offset;
    while i < |results| && (i - selection.offset) % TWO_TO_THE_64 < selection.limit
      invariant selection.offset <= i < TWO_TO_THE_64
      invariant i <= |results| || i == selection.offset
      invariant i - selection.offset <= selection.limit
      invariant data == map k | k in results && selection.offset <= k < i :: results[k]
      decreases |results| - i
    {
      if i !in data {
        data := data[i := results[i]];
      }
      i := (i + 1) % TWO_TO_THE_64;
    }
  }

  /** Pages of one size at consecutive multiples of it tile the results: every result is on
      exactly the page its number divided by the size names. */
  lemma PagesTile(size: int, limit: int, page: nat, i: nat)
    requires 0 < limit
    ensures InPage(i, size, page * limit, limit) <==> i < size && page == i / limit
  {
    var q := i / limit;
    assert q * limit <= i < q * limit + limit;
    if page < q {
      assert (page + 1) * limit <= q * limit by { MultiplyOrder(page + 1, q, limit); }
    } else if q < page {
      assert (q + 1) * limit <= page * limit by { MultiplyOrder(q + 1, page, limit); }
    }
  }

  /** A page of a ranking shows each of its users under its number, and nothing else; so consecutive
      pages show the whole ranking. */
  lemma PageOfRanking(info: seq<UserInfo>, query: string, offset: int, limit: int)
    requires offset >= 0
    ensures var page, ranked := PageOf(Numbered(Ranked(info, query)), offset, limit), Ranked(info, query);
            && (forall i :: i in page <==> offset <= i < |ranked| && i < offset + limit)
            && (forall i :: offset <= i < |ranked| && i < offset + limit ==> page[i] == ranked[i])
  {
    NumberedIsNumbered(Ranked(info, query));
  }

  lemma MultiplyOrder(x: int, y: int, k: int)
    requires x <= y && 0 <= k
    ensures x * k <= y * k
  {
  }

  // ---------- The command ----------

  /** The whole command on its two texts; an unreadable offset or limit leaves the cache alone. */
  method Execute(session: ClientSession, query: string, offset: string, limit: string, answer: Answer)
    returns (outcome: Outcome, data: map<int, UserInfo>)
    requires answer.Candidates? ==> SearchingList(answer.info)
    requires IsNumbered(session.results)
    modifies session`query, session`results
    ensures !Convertible(offset) ==> outcome == Code(InvalidOffsetValue) && Cache(session) == old(Cache(session))
    ensures Convertible(offset) && !Convertible(limit) ==>
              outcome == Code(InvalidLimitValue) && Cache(session) == old(Cache(session))
    ensures Convertible(offset) && Convertible(limit) ==>
              && outcome == NextOutcome(old(Cache(session)), query, answer)
              && (outcome.Code? ==> Cache(session) == NextCache(old(Cache(session)), query, answer))
    ensures outcome != Undefined ==> IsNumbered(session.results)
    ensures data == if outcome == Code(Okey)
                    then PageOf(session.results, Converted(offset, 0), Converted(limit, TWO_TO_THE_64 - 1))
                    else map[]
  {
    data := map[];
    var selection := new SelectionBase();
    var ok := selection.TryConvertToOffset(offset);
    if !ok {
      return Code(InvalidOffsetValue), data;
    }
    ok := selection.TryConvertToLimit(limit);
    if !ok {
      return Code(InvalidLimitValue), data;
    }
    ghost var before := Cache(session);
    outcome := UpdateSearchingCache(session, query, answer);
    if outcome == Undefined {
      return;
    }
    CacheStaysNumbered(before, query, answer);
    if outcome != Code(Okey) {
      return;
    }
    data := CollectPage(session.results, selection);
  }

  lemma RankedLength(info: seq<UserInfo>, query: string)
    ensures |Ranked(info, query)| <= |info|
  {
    var kept := Survivors(info, Weight(query));
    SortElements(kept, Weight(query));
    SurvivorsMultiset(info, Weight(query));
    assert multiset(info) == multiset(kept) + (multiset(info) - multiset(kept));
    assert |multiset(info)| == |info| && |multiset(Ranked(info, query))| == |Ranked(info, query)|;
  }

  lemma CacheStaysNumbered(cache: SearchingCache, query: string, answer: Answer)
    requires IsNumbered(cache.results)
    requires answer.Candidates? ==> SearchingList(answer.info)
    ensures IsNumbered(NextCache(cache, query, answer).results)
  {
    if cache.query != query && answer.Candidates? {
      RankedLength(answer.info, query);
      NumberedIsNumbered(Ranked(answer.info, query));
    }
  }
}

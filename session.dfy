/** The per-render session step of the search page: the three session
    fields `query`, `records` and `total_found`, created with defaults,
    reset when a new query is typed, and refreshed by a PubMed search (and
    a fetch when the search returns ids) on every render while the query is
    non-empty. The Entrez replies are inputs of the step. */
module Session {
  import opened Wrappers
  import opened Text
  import opened Records

  /** The session fields once they exist. */
  datatype State = State(query: string, records: seq<Record>, totalFound: int)

  /** The reply of `Entrez.read` on the search: its "Count" (taken as a
      number) and its "IdList", either of which may be missing. */
  datatype SearchReply = SearchReply(count: Option<nat>, idList: Option<seq<string>>)

  /** A request sent to NCBI Entrez. */
  datatype Request =
    | ESearch(db: string, term: string, retmax: nat, retstart: nat)
    | EFetch(db: string, id: string, rettype: string, retmode: string)

  /** What one search/fetch step leaves behind: the new fields, the
      requests sent in order, and the exception that ended the step early,
      if any. */
  datatype Step = Step(state: State, requests: seq<Request>, raised: Option<string>)

  /** The fields after the defaults for missing ones have been filled in:
      a field that exists keeps its value, a missing one is `""`, `[]` or
      `0`. */
  function WithDefaults(query: Option<string>, records: Option<seq<Record>>, totalFound: Option<int>): (s: State)
    ensures query.Some? ==> s.query == query.value
    ensures records.Some? ==> s.records == records.value
    ensures totalFound.Some? ==> s.totalFound == totalFound.value
    ensures query.None? ==> s.query == ""
    ensures records.None? ==> s.records == []
    ensures totalFound.None? ==> s.totalFound == 0
  {
    State(query.GetOr(""), records.GetOr([]), totalFound.GetOr(0))
  }

  /** The query-change transition. Afterwards the query is the input if
      that is non-empty, and the old query otherwise; the results survive
      exactly when the query did not change. */
  function Submit(s: State, input: string): (t: State)
    ensures t.query == if input != "" then input else s.query
    ensures t.query == s.query ==> t == s
    ensures t.query != s.query ==> t.records == [] && t.totalFound == 0
  {
    if input != "" && input != s.query then State(input, [], 0) else s
  }

  function SearchRequest(s: State, numArticles: nat): Request {
    ESearch("pubmed", s.query, numArticles, 0)
  }

  function FetchRequest(ids: seq<string>): Request {
    EFetch("pubmed", Join(ids, ","), "medline", "text")
  }

  /** The search/fetch update, run whenever the query is non-empty:
      `total_found` takes the reported count (0 when missing) as soon as
      the search returns, and `records` is replaced only when ids came back
      and the fetch succeeded. */
  function SearchStep(s: State, numArticles: nat, search: Result<SearchReply>, fetch: Result<seq<Record>>): (st: Step)
    requires 1 <= numArticles <= 100
    ensures st.state.query == s.query
    ensures |st.requests| <= 2
    ensures search.Err? ==> |st.requests| <= 1
    ensures st.raised.Some? <==>
              s.query != "" && (search.Err? || (search.value.idList.GetOr([]) != [] && fetch.Err?))
    ensures st.raised.Some? ==> st.raised == if search.Err? then Some(search.error) else Some(fetch.error)
  {
    if s.query == "" then Step(s, [], None)
    else
      var searched := [SearchRequest(s, numArticles)];
      match search
      case Err(e) => Step(s, searched, Some(e))
      case Ok(reply) =>
        var counted := s.(totalFound := reply.count.GetOr(0));
        var ids := reply.idList.GetOr([]);
        if ids == [] then Step(counted, searched, None)
        else
          var fetched := searched + [FetchRequest(ids)];
          match fetch
          case Err(e) => Step(counted, fetched, Some(e))
          case Ok(recs) => Step(counted.(records := recs), fetched, None)
  }

  /** One render of the page, from the fields as they exist after their
      defaults are filled in: the query-change transition, then the
      search/fetch update. */
  function RenderStep(s: State, input: string, numArticles: nat,
                      search: Result<SearchReply>, fetch: Result<seq<Record>>): (st: Step)
    requires 1 <= numArticles <= 100
    ensures st.state.query == if input != "" then input else s.query
    ensures st.requests == [] <==> input == "" && s.query == ""
  {
    SearchStep(Submit(s, input), numArticles, search, fetch)
  }

  // ---------------------------------------------------------------------
  // The query-change transition

  /** Typing the same input again changes nothing: the transition is
      idempotent. */
  lemma SubmitIdempotent(s: State, input: string)
    ensures Submit(Submit(s, input), input) == Submit(s, input)
  {
  }

  // ---------------------------------------------------------------------
  // The search/fetch update

  /** With an empty query nothing is requested and nothing changes. */
  lemma NoQueryNoSearch(s: State, numArticles: nat, search: Result<SearchReply>, fetch: Result<seq<Record>>)
    requires 1 <= numArticles <= 100
    requires s.query == ""
    ensures SearchStep(s, numArticles, search, fetch) == Step(s, [], None)
  {
  }

  /** With a query, a search for it is sent first, asking for
      `numArticles` ids (between 1 and 100) from offset 0; the query itself
      is never changed by the update. */
  lemma SearchAlwaysSent(s: State, numArticles: nat, search: Result<SearchReply>, fetch: Result<seq<Record>>)
    requires 1 <= numArticles <= 100
    requires s.query != ""
    ensures var st := SearchStep(s, numArticles, search, fetch);
      && st.requests != []
      && st.requests[0] == ESearch("pubmed", s.query, numArticles, 0)
      && 1 <= st.requests[0].retmax <= 100
      && st.state.query == s.query
  {
  }

  /** A search that returns sets `total_found` to the reported count, or
      0 when there is none, whether or not any ids came back and whether or
      not the fetch then succeeds. */
  lemma TotalFoundFromCount(s: State, numArticles: nat, reply: SearchReply, fetch: Result<seq<Record>>)
    requires 1 <= numArticles <= 100
    requires s.query != ""
    ensures SearchStep(s, numArticles, Ok(reply), fetch).state.totalFound
              == if reply.count.Some? then reply.count.value else 0
  {
  }

  /** `records` is replaced by the fetched list exactly when the search
      returned ids and the fetch succeeded; in every other case it keeps its
      value. */
  lemma RecordsReplacedOnlyByFetch(s: State, numArticles: nat, search: Result<SearchReply>, fetch: Result<seq<Record>>)
    requires 1 <= numArticles <= 100
    ensures var fetched := s.query != "" && search.Ok? && search.value.idList.GetOr([]) != [] && fetch.Ok?;
      SearchStep(s, numArticles, search, fetch).state.records == if fetched then fetch.value else s.records
  {
  }

  /** A fetch is requested exactly when the search returned ids, and it
      names exactly those ids, comma-separated: splitting its `id` at the
      commas gives them back. */
  lemma FetchCarriesTheIds(s: State, numArticles: nat, reply: SearchReply, fetch: Result<seq<Record>>)
    requires 1 <= numArticles <= 100
    requires s.query != ""
    requires forall k :: 0 <= k < |reply.idList.GetOr([])| ==> ',' !in reply.idList.GetOr([])[k]
    ensures var st := SearchStep(s, numArticles, Ok(reply), fetch);
      var ids := reply.idList.GetOr([]);
      && (|st.requests| == 2 <==> ids != [])
      && |st.requests| <= 2
      && (ids != [] ==> st.requests[1] == EFetch("pubmed", st.requests[1].id, "medline", "text")
                        && SplitOn(st.requests[1].id, ',') == ids)
  {
    var ids := reply.idList.GetOr([]);
    if ids != [] {
      SplitJoin(ids, ',');
    }
  }

  /** A failing search raises before any field is touched. */
  lemma SearchFailureChangesNothing(s: State, numArticles: nat, e: string, fetch: Result<seq<Record>>)
    requires 1 <= numArticles <= 100
    requires s.query != ""
    ensures SearchStep(s, numArticles, Err(e), fetch).state == s
    ensures SearchStep(s, numArticles, Err(e), fetch).raised == Some(e)
    ensures SearchStep(s, numArticles, Err(e), fetch).requests == [ESearch("pubmed", s.query, numArticles, 0)]
  {
  }

  /** A failing fetch raises after `total_found` was already set: the new
      count stands next to the records of the previous render. */
  lemma FetchFailureKeepsNewCount(s: State, numArticles: nat, reply: SearchReply, e: string)
    requires 1 <= numArticles <= 100
    requires s.query != "" && reply.idList.GetOr([]) != []
    ensures var st := SearchStep(s, numArticles, Ok(reply), Err(e));
      && st.state == State(s.query, s.records, reply.count.GetOr(0))
      && st.raised == Some(e)
  {
  }

  // ---------------------------------------------------------------------
  // Whole renders

  /** Rendering again with the same input does not reset the results, yet
      it sends the search again: the guard on the input only protects
      `records` from being cleared. */
  lemma RerenderSearchesAgain(s: State, input: string, numArticles: nat,
                              search1: Result<SearchReply>, fetch1: Result<seq<Record>>,
                              search2: Result<SearchReply>, fetch2: Result<seq<Record>>)
    requires 1 <= numArticles <= 100
    requires Submit(s, input).query != ""
    ensures var t := RenderStep(s, input, numArticles, search1, fetch1).state;
      && Submit(t, input) == t
      && RenderStep(t, input, numArticles, search2, fetch2).requests[0]
           == ESearch("pubmed", Submit(s, input).query, numArticles, 0)
  {
    var t := RenderStep(s, input, numArticles, search1, fetch1).state;
    assert t.query == Submit(s, input).query;
  }

  /** After a fetch failed, the next render with the same input retries:
      a successful search with ids and a successful fetch then load the
      records. */
  lemma RetryAfterFetchFailure(s: State, input: string, numArticles: nat,
                               reply: SearchReply, e: string, reply2: SearchReply, recs: seq<Record>)
    requires 1 <= numArticles <= 100
    requires Submit(s, input).query != ""
    requires reply.idList.GetOr([]) != [] && reply2.idList.GetOr([]) != []
    ensures var t := RenderStep(s, input, numArticles, Ok(reply), Err(e));
      && t.raised == Some(e)
      && RenderStep(t.state, input, numArticles, Ok(reply2), Ok(recs)).state
           == State(Submit(s, input).query, recs, reply2.count.GetOr(0))
  {
    var t := RenderStep(s, input, numArticles, Ok(reply), Err(e));
  }

  // ---------------------------------------------------------------------
  // The session object

  /** The page's session state: a field is `None` until the page first
      stores it. */
  class SessionState {
    var query: Option<string>
    var records: Option<seq<Record>>
    var totalFound: Option<int>

    /** A new browser session holds none of the fields. */
    constructor ()
      ensures query == None && records == None && totalFound == None
    {
      query, records, totalFound := None, None, None;
    }

    predicate Initialized()
      reads this
    {
      query.Some? && records.Some? && totalFound.Some?
    }

    function View(): State
      reads this
      requires Initialized()
    {
      State(query.value, records.value, totalFound.value)
    }

    /** Each missing field is created with its default (`""`, `[]`, `0`);
        a field that exists keeps its value. */
    method InitDefaults()
      modifies this
      ensures Initialized()
      ensures View() == WithDefaults(old(query), old(records), old(totalFound))
    {
      if query.None? {
        query := Some("");
      }
      if records.None? {
        records := Some([]);
      }
      if totalFound.None? {
        totalFound := Some(0);
      }
    }

    method SubmitQuery(input: string)
      requires Initialized()
      modifies this
      ensures Initialized()
      ensures View() == Submit(old(View()), input)
    {
      if input != "" && input != query.value {
        query := Some(input);
        records := Some([]);
        totalFound := Some(0);
      }
    }

    /** The search/fetch update against replies given as inputs; returns
        the requests sent and the exception that ended the update early. */
    method SearchAndFetch(numArticles: nat, search: Result<SearchReply>, fetch: Result<seq<Record>>)
      returns (requests: seq<Request>, raised: Option<string>)
      requires Initialized()
      requires 1 <= numArticles <= 100
      modifies this
      ensures Initialized()
      ensures Step(View(), requests, raised) == SearchStep(old(View()), numArticles, search, fetch)
    {
      requests, raised := [], None;
      if query.value != "" {
        requests := [ESearch("pubmed", query.value, numArticles, 0)];
        if search.Err? {
          raised := Some(search.error);
          return;
        }
        totalFound := Some(search.value.count.GetOr(0));
        var newIds := search.value.idList.GetOr([]);
        if newIds != [] {
          requests := requests + [EFetch("pubmed", Join(newIds, ","), "medline", "text")];
          if fetch.Err? {
            raised := Some(fetch.error);
            return;
          }
          records := Some(fetch.value);
        }
      }
    }

    /** One render: defaults, the query-change transition, then the
        search/fetch update. */
    method Render(input: string, numArticles: nat, search: Result<SearchReply>, fetch: Result<seq<Record>>)
      returns (requests: seq<Request>, raised: Option<string>)
      requires 1 <= numArticles <= 100
      modifies this
      ensures Initialized()
      ensures Step(View(), requests, raised)
              == RenderStep(WithDefaults(old(query), old(records), old(totalFound)), input, numArticles, search, fetch)
    {
      InitDefaults();
      SubmitQuery(input);
      requests, raised := SearchAndFetch(numArticles, search, fetch);
    }
  }

  /** The first render of a new session starts from an empty query, no
      records and a zero count. */
  method FirstRender(input: string, numArticles: nat, search: Result<SearchReply>, fetch: Result<seq<Record>>)
    returns (session: SessionState, requests: seq<Request>, raised: Option<string>)
    requires 1 <= numArticles <= 100
    ensures fresh(session)
    ensures session.Initialized()
    ensures Step(session.View(), requests, raised)
            == RenderStep(State("", [], 0), input, numArticles, search, fetch)
  {
    session := new SessionState();
    requests, raised := session.Render(input, numArticles, search, fetch);
  }
}

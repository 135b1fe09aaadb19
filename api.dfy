/** The `/similar-articles` endpoint of the recommendation API (api/app.py): how the
    request is validated, and how the nearest-neighbour answer is turned into the
    list of recommended articles. The text normalisation of the query, the embedding
    model and the HNSW index are one function parameter, `search`, from the query
    string and the requested count to the index's ids and distances, or to `None`
    when the index raises; the data table is a parameter too. */
module Api {
  import opened Text

  /** A parsed JSON value. Numbers are reals; an object is a map, so a repeated key
      keeps its last value, as Python's `json` does. */
  datatype Json =
    | JNull
    | JBool(b: bool)
    | JNum(n: real)
    | JStr(s: string)
    | JArray(items: seq<Json>)
    | JObject(fields: map<string, Json>)

  /** Python truthiness of the value `get_json` returns for this JSON. */
  predicate Truthy(j: Json) {
    match j
    case JNull => false
    case JBool(b) => b
    case JNum(n) => n != 0.0
    case JStr(s) => s != []
    case JArray(items) => items != []
    case JObject(fields) => fields != map[]
  }

  /** `p` occurs in `s` as a contiguous piece (Python's `p in s` on strings). */
  predicate HasInfix(s: string, p: string) {
    p <= s || (s != [] && HasInfix(s[1..], p))
  }

  /** `p` occurs in `s` starting at index i. */
  predicate OccursAt(s: string, p: string, i: nat) {
    i + |p| <= |s| && s[i..i + |p|] == p
  }

  lemma {:induction false} HasInfixAt(s: string, p: string, i: nat)
    requires OccursAt(s, p, i)
    ensures HasInfix(s, p)
  {
    if i > 0 {
      assert s[1..][i - 1..i - 1 + |p|] == s[i..i + |p|];
      HasInfixAt(s[1..], p, i - 1);
    }
  }

  lemma {:induction false} HasInfixFound(s: string, p: string)
    requires HasInfix(s, p)
    ensures exists i: nat :: OccursAt(s, p, i)
  {
    if p <= s {
      assert OccursAt(s, p, 0);
    } else {
      HasInfixFound(s[1..], p);
      var i: nat :| OccursAt(s[1..], p, i);
      assert s[1..][i..i + |p|] == s[i + 1..i + 1 + |p|];
      assert OccursAt(s, p, i + 1);
    }
  }

  /** The recursive test agrees with "p occurs at some index of s". */
  lemma HasInfixSpec(s: string, p: string)
    ensures HasInfix(s, p) <==> exists i: nat :: OccursAt(s, p, i)
  {
    if HasInfix(s, p) {
      HasInfixFound(s, p);
    } else if exists i: nat :: OccursAt(s, p, i) {
      var i: nat :| OccursAt(s, p, i);
      HasInfixAt(s, p, i);
    }
  }

  /** What the first check of `recommend` makes of the body. */
  datatype BodyCheck =
    | QueryMissing          // the 400 "Query input is required!"
    | QueryGiven(query: Json)
    | TypeFailure           // `in` or `[...]` raises TypeError: Flask answers 500

  /** `content = request.get_json(silent=True)`, then `not content or "query" not in
      content`, then `content["query"]`. `None` is a body that is not JSON. */
  function CheckBody(content: Option<Json>): BodyCheck {
    if content.None? || !Truthy(content.value) then QueryMissing
    else match content.value
      case JObject(fields) => if "query" in fields then QueryGiven(fields["query"]) else QueryMissing
      case JArray(items) => if JStr("query") in items then TypeFailure else QueryMissing
      case JStr(s) => if HasInfix(s, "query") then TypeFailure else QueryMissing
      case _ => TypeFailure
  }

  /** Only an object with a "query" key gets past the first check. */
  lemma CheckBodySpec(content: Option<Json>)
    ensures CheckBody(content).QueryGiven? <==> content.Some? && content.value.JObject? && "query" in content.value.fields
    ensures CheckBody(content).QueryGiven? ==> CheckBody(content).query == content.value.fields["query"]
    ensures content.None? || !Truthy(content.value) ==> CheckBody(content) == QueryMissing
    ensures content.Some? && content.value.JObject? && "query" !in content.value.fields ==> CheckBody(content) == QueryMissing
  {
  }

  /** A JSON string body passes `not content`, and `"query" not in content` is then a
      substring test: a string containing "query" goes on to `content["query"]`,
      which raises TypeError, and any other string gets the 400. */
  lemma StringBodyRule(s: string)
    ensures (exists i: nat :: OccursAt(s, "query", i)) ==> CheckBody(Some(JStr(s))) == TypeFailure
    ensures (forall i: nat :: !OccursAt(s, "query", i)) ==> CheckBody(Some(JStr(s))) == QueryMissing
  {
    HasInfixSpec(s, "query");
    if exists i: nat :: OccursAt(s, "query", i) {
      var i: nat :| OccursAt(s, "query", i);
      assert s != [];
    }
  }

  /** Python's `int(text)`, which allows whitespace around the number. */
  function PythonInt(text: string): Option<int> {
    ParseInt(Strip(text))
  }

  const DefaultMaxResults := 3
  const MaxResultsLimit := 4

  /** `request.args.get("maxResults", default=3, type=int)`: the default when the
      argument is absent or `int` rejects it. */
  function MaxResults(args: map<string, string>): int {
    if "maxResults" in args then
      match PythonInt(args["maxResults"])
      case Some(n) => n
      case None => DefaultMaxResults
    else DefaultMaxResults
  }

  /** Any integer written the usual way reaches the endpoint unchanged: in
      particular zero and negative counts pass, as there is no lower bound. */
  lemma MaxResultsReadsIntegers(args: map<string, string>, n: int)
    requires "maxResults" in args && args["maxResults"] == IntToString(n)
    ensures MaxResults(args) == n
  {
    var s := IntToString(n);
    assert forall i :: 0 <= i < |s| ==> !IsSpace(s[i]);
    StripSpec(s);
    IntToStringRoundTrip(n);
  }

  lemma MaxResultsDefault(args: map<string, string>)
    requires "maxResults" !in args || PythonInt(args["maxResults"]).None?
    ensures MaxResults(args) == 3
  {
  }

  /** A row of the article table: its Title, Label, Text and URL columns. */
  datatype DataRow = DataRow(title: string, rowLabel: string, text: string, url: string)

  /** One entry of `best_fits`. */
  datatype Recommendation = Recommendation(id: nat, title: string, rowLabel: string, text: string, url: string, distance: real)

  function RecommendationFor(table: seq<DataRow>, id: nat, distance: real): Recommendation
    requires id < |table|
  {
    var row := table[id];
    Recommendation(id, row.title, row.rowLabel, row.text, row.url, distance)
  }

  /** How many pairs `zip(ids, distances)` yields. */
  function PairCount(ids: seq<nat>, distances: seq<real>): nat {
    if |ids| <= |distances| then |ids| else |distances|
  }

  /** The list `recommend` builds from the index's answer; `None` is the
      IndexError of an id past the end of the table. */
  function Recommendations(table: seq<DataRow>, ids: seq<nat>, distances: seq<real>): Option<seq<Recommendation>>
    decreases |ids|
  {
    if ids == [] || distances == [] then Some([])
    else if ids[0] >= |table| then None
    else match Recommendations(table, ids[1..], distances[1..])
      case None => None
      case Some(rest) => Some([RecommendationFor(table, ids[0], distances[0])] + rest)
  }

  /** One recommendation per (id, distance) pair, in the index's order, each
      carrying row `id` of the table; an error exactly when some id is past the end. */
  lemma {:induction false} RecommendationsSpec(table: seq<DataRow>, ids: seq<nat>, distances: seq<real>)
    ensures var r := Recommendations(table, ids, distances);
      (r.None? <==> exists k :: 0 <= k < PairCount(ids, distances) && ids[k] >= |table|)
      && (r.Some? ==>
            |r.value| == PairCount(ids, distances)
            && forall k :: 0 <= k < |r.value| ==>
                 ids[k] < |table| && r.value[k] == RecommendationFor(table, ids[k], distances[k]))
    decreases |ids|
  {
    if ids != [] && distances != [] && ids[0] < |table| {
      RecommendationsSpec(table, ids[1..], distances[1..]);
      var r := Recommendations(table, ids, distances);
      if r.None? {
        var k :| 0 <= k < PairCount(ids[1..], distances[1..]) && ids[1..][k] >= |table|;
        assert ids[k + 1] >= |table|;
      } else {
        var rest := Recommendations(table, ids[1..], distances[1..]).value;
        forall k | 0 <= k < |r.value|
          ensures ids[k] < |table| && r.value[k] == RecommendationFor(table, ids[k], distances[k])
        {
          if k > 0 {
            assert r.value[k] == rest[k - 1];
            assert ids[k] == ids[1..][k - 1];
            assert distances[k] == distances[1..][k - 1];
          }
        }
      }
    }
  }

  /** The ids of the recommendations are the index's ids, in its order. */
  lemma RecommendationIdsInIndexOrder(table: seq<DataRow>, ids: seq<nat>, distances: seq<real>)
    requires |ids| == |distances|
    requires Recommendations(table, ids, distances).Some?
    ensures var r := Recommendations(table, ids, distances).value;
      |r| == |ids| && forall k :: 0 <= k < |r| ==> r[k].id == ids[k] && r[k].distance == distances[k]
  {
    RecommendationsSpec(table, ids, distances);
  }

  /** The building loop of `recommend`. */
  method BuildRecommendations(table: seq<DataRow>, ids: seq<nat>, distances: seq<real>)
    returns (bestFits: Option<seq<Recommendation>>)
    ensures bestFits == Recommendations(table, ids, distances)
  {
    var n := PairCount(ids, distances);
    var fits: seq<Recommendation> := [];
    var i := 0;
    RecommendationsSpec(table, ids, distances);
    while i < n
      invariant 0 <= i <= n
      invariant forall k :: 0 <= k < i ==> ids[k] < |table|
      invariant |fits| == i && forall k :: 0 <= k < i ==> fits[k] == RecommendationFor(table, ids[k], distances[k])
    {
      if ids[i] >= |table| {
        return None;
      }
      fits := fits + [RecommendationFor(table, ids[i], distances[i])];
      i := i + 1;
    }
    bestFits := Some(fits);
    var expected := Recommendations(table, ids, distances);
    assert expected.Some?;
    assert fits == expected.value;
  }

  /** The endpoint's answers. */
  datatype Response =
    | BadRequest(error: string)
    | InternalServerError
    | Found(bestFits: seq<Recommendation>)

  /** What `knn_query` answers: the ids and distances of the nearest items. */
  datatype Neighbours = Neighbours(ids: seq<nat>, distances: seq<real>)

  const QueryRequired := "Query input is required!"
  const TooManyResults := "Max results should not exceed 4!"

  /** The whole of `recommend`: the body is checked first, then maxResults, then the
      query is normalised, which calls `lower()` on it and so raises for any query
      that is not a string, and the index is searched with it and that count; an
      exception of the index is a 500. */
  function Respond(content: Option<Json>, args: map<string, string>, table: seq<DataRow>,
                   search: (string, int) -> Option<Neighbours>): Response
  {
    match CheckBody(content)
    case QueryMissing => BadRequest(QueryRequired)
    case TypeFailure => InternalServerError
    case QueryGiven(query) =>
      var k := MaxResults(args);
      if k > MaxResultsLimit then BadRequest(TooManyResults)
      else if !query.JStr? then InternalServerError
      else
        match search(query.s, k)
        case None => InternalServerError
        case Some(found) =>
          match Recommendations(table, found.ids, found.distances)
          case None => InternalServerError
          case Some(fits) => Found(fits)
  }

  /** The endpoint as a handler: the same checks, with the loop building the list. */
  method Recommend(content: Option<Json>, args: map<string, string>, table: seq<DataRow>,
                   search: (string, int) -> Option<Neighbours>)
    returns (response: Response)
    ensures response == Respond(content, args, table, search)
  {
    var check := CheckBody(content);
    if check.QueryMissing? {
      return BadRequest(QueryRequired);
    }
    if check.TypeFailure? {
      return InternalServerError;
    }
    var k := MaxResults(args);
    if k > MaxResultsLimit {
      return BadRequest(TooManyResults);
    }
    if !check.query.JStr? {
      return InternalServerError;
    }
    var found := search(check.query.s, k);
    if found.None? {
      return InternalServerError;
    }
    var bestFits := BuildRecommendations(table, found.value.ids, found.value.distances);
    if bestFits.None? {
      return InternalServerError;
    }
    return Found(bestFits.value);
  }

  /** A missing query is reported before maxResults is looked at. */
  lemma QueryCheckedFirst(content: Option<Json>, args: map<string, string>, table: seq<DataRow>,
                          search: (string, int) -> Option<Neighbours>)
    requires content.None? || !content.value.JObject? || "query" !in content.value.fields
    ensures Respond(content, args, table, search) == BadRequest(QueryRequired)
            || Respond(content, args, table, search) == InternalServerError
    ensures content.None? || !Truthy(content.value) ==> Respond(content, args, table, search) == BadRequest(QueryRequired)
  {
    CheckBodySpec(content);
  }

  /** With a query present, a count above 4 is refused; with any other count (zero
      and negative ones included) a query that is not a string fails in `lower()`,
      and a string query is passed to the index with the count as it is; when the
      index answers, the response holds one recommendation per (id, distance) pair. */
  lemma MaxResultsRule(content: Option<Json>, args: map<string, string>, table: seq<DataRow>,
                       search: (string, int) -> Option<Neighbours>)
    requires content.Some? && content.value.JObject? && "query" in content.value.fields
    ensures MaxResults(args) > 4 ==> Respond(content, args, table, search) == BadRequest(TooManyResults)
    ensures MaxResults(args) <= 4 && !content.value.fields["query"].JStr? ==>
      Respond(content, args, table, search) == InternalServerError
    ensures MaxResults(args) <= 4 && content.value.fields["query"].JStr? ==>
      var found := search(content.value.fields["query"].s, MaxResults(args));
      (Respond(content, args, table, search).Found? <==>
         found.Some? && forall k :: 0 <= k < PairCount(found.value.ids, found.value.distances) ==> found.value.ids[k] < |table|)
    ensures Respond(content, args, table, search).Found? ==>
      content.value.fields["query"].JStr? &&
      var found := search(content.value.fields["query"].s, MaxResults(args));
      found.Some? && |Respond(content, args, table, search).bestFits| == PairCount(found.value.ids, found.value.distances)
  {
    CheckBodySpec(content);
    var query := content.value.fields["query"];
    if query.JStr? {
      var found := search(query.s, MaxResults(args));
      if found.Some? {
        RecommendationsSpec(table, found.value.ids, found.value.distances);
      }
    }
  }
}

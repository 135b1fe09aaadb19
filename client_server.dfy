/** How the client's max-results setting meets the endpoint's limit: the slider
    offers five positions, and the endpoint refuses the count the last one gives.
    The home page as written answers a query with a timed mock list and sends no
    request, so this is about the request a client would send with the setting. */
module ClientServer {
  import opened Text
  import Api
  import SettingsModal

  /** The query-string arguments carrying a slider position's count. */
  function ArgsFor(position: SettingsModal.SliderValue): map<string, string> {
    map["maxResults" := IntToString(SettingsModal.MaxResultsFor(position))]
  }

  /** A request with a query and the count of slider position `position` is
      refused with "Max results should not exceed 4!" exactly at the top position. */
  lemma OnlyTopSliderPositionRefused(position: SettingsModal.SliderValue, content: Option<Api.Json>,
                                     table: seq<Api.DataRow>, search: (string, int) -> Option<Api.Neighbours>)
    requires content.Some? && content.value.JObject? && "query" in content.value.fields
    ensures Api.Respond(content, ArgsFor(position), table, search) == Api.BadRequest(Api.TooManyResults)
            <==> position == SettingsModal.SliderMax
  {
    var m := SettingsModal.MaxResultsFor(position);
    Api.MaxResultsReadsIntegers(ArgsFor(position), m);
    Api.MaxResultsRule(content, ArgsFor(position), table, search);
    if position != SettingsModal.SliderMax && content.value.fields["query"].JStr? {
      Api.CheckBodySpec(content);
      var found := search(content.value.fields["query"].s, m);
      if found.Some? {
        Api.RecommendationsSpec(table, found.value.ids, found.value.distances);
      }
    }
  }
}

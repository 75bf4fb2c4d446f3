/**
 * The news tool (tools/news_tool.py): one NewsAPI request, chosen from the
 * query and the optional category and country, and a numbered list of the
 * articles it returns, or one of four fixed messages.
 *
 * The HTTP call is the parameter `fetch`, which gives the decoded reply (or
 * the failure) for a request.
 */
module NewsTool {
  import opened Wrappers
  import opened Text
  import Tooling

  const Descriptor: Tooling.Tool :=
    Tooling.Tool("get_news", "Useful for getting the latest news on a specific topic, category, or from a specific country. Provide a query string and optionally a category and/or country code.")

  const Unavailable: string :=
    "Sorry, the news service is not available at the moment. Configure the API key and try again."

  const ConnectionError: string :=
    "Error obteniendo noticias. No se pudo conectar al servicio de noticias."

  function FailureMessage(error: string): string {
    "Error obteniendo noticias: " + error
  }

  function NoNews(query: string): string {
    "No se encontraron noticias para '" + query + "'"
  }

  const Heading: string := "\U{da}ltimas noticias:"

  const Everything: string := "https://newsapi.org/v2/everything"
  const TopHeadlines: string := "https://newsapi.org/v2/top-headlines"

  /** An HTTP GET: the endpoint and the query parameters. */
  datatype NewsRequest = NewsRequest(url: string, params: map<string, string>)

  /** The request `get_news` sends: the top-headlines endpoint exactly when a
      category or a country is given (and not empty), the fixed parameters
      always, and the category and the country each exactly when given. */
  function RequestFor(query: string, category: Option<string>, country: Option<string>, apiKey: string): (r: NewsRequest)
    ensures r.url == TopHeadlines <==> Truthy(category) || Truthy(country)
    ensures r.url == Everything <==> !Truthy(category) && !Truthy(country)
    ensures r.params.Keys == {"apiKey", "q", "pageSize", "language"}
                             + (if Truthy(category) then {"category"} else {})
                             + (if Truthy(country) then {"country"} else {})
    ensures r.params["apiKey"] == apiKey && r.params["q"] == query
    ensures r.params["pageSize"] == "5" && r.params["language"] == "es"
    ensures Truthy(category) ==> r.params["category"] == category.value
    ensures Truthy(country) ==> r.params["country"] == country.value
  {
    var base := map["apiKey" := apiKey, "q" := query, "pageSize" := "5", "language" := "es"];
    var withCategory := if Truthy(category) then base["category" := category.value] else base;
    var params := if Truthy(country) then withCategory["country" := country.value] else withCategory;
    NewsRequest(if Truthy(category) || Truthy(country) then TopHeadlines else Everything, params)
  }

  /** The request, built as `get_news` builds it: a default endpoint and
      parameters, changed when a category or a country is given. */
  method BuildRequest(query: string, category: Option<string>, country: Option<string>, apiKey: string)
    returns (request: NewsRequest)
    ensures request == RequestFor(query, category, country, apiKey)
  {
    var url := Everything;
    var params := map["apiKey" := apiKey, "q" := query, "pageSize" := "5", "language" := "es"];
    if Truthy(category) || Truthy(country) {
      url := TopHeadlines;
      if Truthy(category) {
        params := params["category" := category.value];
      }
      if Truthy(country) {
        params := params["country" := country.value];
      }
    }
    request := NewsRequest(url, params);
  }

  datatype Source = Source(name: Option<string>)

  /** An entry of the reply's `articles` list; a missing key is `None`. */
  datatype Article = Article(title: Option<string>, source: Option<Source>, description: Option<string>, url: Option<string>)

  /** The decoded reply: `totalResults` and `articles`, each possibly missing. */
  datatype NewsData = NewsData(totalResults: Option<int>, articles: Option<seq<Article>>)

  /** The decoded reply, an HTTP error status, or any other failure with its text. */
  datatype NewsResponse = NewsOk(data: NewsData) | NewsHttpError | NewsFailed(error: string)

  function SourceName(a: Article): string {
    match a.source
    case None => "Fuente desconocida"
    case Some(s) => s.name.GetOr("Fuente desconocida")
  }

  /** The text of an article's entry, with a default for each missing field. */
  function ArticleText(a: Article): string {
    a.title.GetOr("Sin t\U{ed}tulo") + " (" + SourceName(a) + ")\n   "
      + a.description.GetOr("Sin descripci\U{f3}n") + "\n   " + a.url.GetOr("") + "\n"
  }

  /** The texts of the entries, in the order of the reply. */
  function ArticleTexts(articles: seq<Article>): (r: seq<string>)
    ensures |r| == |articles|
    ensures forall i :: 0 <= i < |articles| ==> r[i] == ArticleText(articles[i])
  {
    seq(|articles|, i requires 0 <= i < |articles| => ArticleText(articles[i]))
  }

  /** The entry the loop of `get_news` assembles field by field is the text of the article. */
  lemma EntryText(a: Article, entry: string)
    requires entry == a.title.GetOr("Sin t\U{ed}tulo") + " ("
                      + (if a.source.Some? then a.source.value.name.GetOr("Fuente desconocida") else "Fuente desconocida")
                      + ")\n   " + a.description.GetOr("Sin descripci\U{f3}n") + "\n   " + a.url.GetOr("") + "\n"
    ensures entry == ArticleText(a)
  {
  }

  /** The list of articles, built as `get_news` builds it. */
  method FormatArticles(articles: seq<Article>) returns (reply: string)
    ensures reply == NumberedList(Heading, ArticleTexts(articles))
  {
    var lines := [Heading];
    var i := 0;
    while i < |articles|
      invariant 0 <= i <= |articles|
      invariant |lines| == i + 1 && lines[0] == Heading
      invariant forall j :: 0 <= j < i ==> lines[j + 1] == Numbered(j + 1, ArticleText(articles[j]))
    {
      var article := articles[i];
      var title := article.title.GetOr("Sin t\U{ed}tulo");
      var source := if article.source.Some? then article.source.value.name.GetOr("Fuente desconocida")
                    else "Fuente desconocida";
      var description := article.description.GetOr("Sin descripci\U{f3}n");
      var url := article.url.GetOr("");
      var entry := title + " (" + source + ")\n   " + description + "\n   " + url + "\n";
      EntryText(article, entry);
      lines := lines + [Numbered(i + 1, entry)];
      i := i + 1;
    }
    assert lines == [Heading] + NumberedEntries(ArticleTexts(articles));
    reply := Join("\n", lines);
  }

  /** `get_news`. */
  method GetNews(query: string, category: Option<string>, country: Option<string>, apiKey: Option<string>,
                 fetch: NewsRequest -> NewsResponse)
    returns (reply: string)
    ensures !Truthy(apiKey) ==> reply == Unavailable
    ensures Truthy(apiKey) ==>
              match fetch(RequestFor(query, category, country, apiKey.value))
              case NewsHttpError => reply == ConnectionError
              case NewsFailed(e) => reply == FailureMessage(e)
              case NewsOk(data) =>
                reply == if data.totalResults.GetOr(0) == 0 then NoNews(query)
                         else NumberedList(Heading, ArticleTexts(data.articles.GetOr([])))
  {
    if !Truthy(apiKey) {
      return Unavailable;
    }
    var request := BuildRequest(query, category, country, apiKey.value);
    match fetch(request)
    case NewsHttpError =>
      reply := ConnectionError;
    case NewsFailed(e) =>
      reply := FailureMessage(e);
    case NewsOk(data) =>
      if data.totalResults.GetOr(0) == 0 {
        reply := NoNews(query);
      } else {
        reply := FormatArticles(data.articles.GetOr([]));
      }
  }
}

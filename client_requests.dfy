/** The requests the Inoreader client sends and the way it reads their
    answers: the query of an article listing, the edit-tag, subscription,
    rename, delete and mark-all-as-read forms, the translation of HTTP
    failures into Inoreader exceptions, and the unread-count tables.

    The network is a parameter: every call takes the outcome the server
    would give and returns a Call, the request it sends (if any) together
    with its result. */
module ClientRequests {
  import opened Wrappers
  import opened Text
  import opened StreamIds
  import opened StreamStates
  import opened Articles

  /** A query string or a url-encoded form: name/value pairs in order. */
  type Form = seq<(string, string)>

  datatype Request = Get(path: string, query: Form) | Post(path: string, form: Form)

  /** Why an HTTP call failed: a response with an error status and perhaps
      a body, or no usable response at all. */
  datatype HttpFailure =
    | StatusFailure(statusCode: int, responseBody: Option<string>)
    | NoResponse

  /** What the server answers to one request. */
  datatype HttpOutcome<T> = Succeeded(value: T) | Failed(failure: HttpFailure)

  datatype InoreaderException =
    | Unauthorized(message: string)
    | RateLimited
    | Failure(message: string)

  /** Everything a call can end with other than its value. */
  datatype CallError =
    | Api(exception: InoreaderException)
    | BadArticleId(idError: ShortIdError)
    | SlashInFolderName(newName: string)
    | MissingUnreadCount(stream: StreamId)
    | DuplicateKey(key: string)
    | UnnamedLabel(state: StreamState)

  /** The request a call sent, if it sent one, and what it returned. */
  datatype Call<T> = Call(sent: Option<Request>, result: Result<T, CallError>)

  // ------------------------------------------------------------ errors

  const AuthFailureMessage: string := "Inoreader auth failure"
  const ErrorPrefix: string := "Error="

  /** One leading "Error=" removed, if there is one. */
  function WithoutErrorPrefix(s: string): (r: string)
    ensures ErrorPrefix <= s ==> s == ErrorPrefix + r
    ensures !(ErrorPrefix <= s) ==> r == s
  {
    if ErrorPrefix <= s then s[|ErrorPrefix|..] else s
  }

  predicate IsAuthFailure(cause: HttpFailure)
  {
    cause.StatusFailure? && (cause.statusCode == 401 || cause.statusCode == 403)
  }

  /** An HTTP failure as an InoreaderException: 401 and 403 are auth
      failures, 429 is rate limiting, and anything else keeps the call's
      message, followed by the trimmed response body when there is one. */
  function TransformError(cause: HttpFailure, message: string): (e: InoreaderException)
    ensures e.Unauthorized? <==> IsAuthFailure(cause)
    ensures e.Unauthorized? ==> e.message == AuthFailureMessage
    ensures e.RateLimited? <==> cause.StatusFailure? && cause.statusCode == 429
    ensures e.Failure? ==> message <= e.message
    ensures e.Failure? && (cause.NoResponse? || cause.responseBody.None?) ==> e.message == message
  {
    if IsAuthFailure(cause) then Unauthorized(AuthFailureMessage)
    else if cause.StatusFailure? && cause.statusCode == 429 then RateLimited
    else if cause.StatusFailure? && cause.responseBody.Some? then
      Failure(message + ": " + WithoutErrorPrefix(Trim(cause.responseBody.value)))
    else Failure(message)
  }

  /** The server's "Error=..." bodies: white space around the body and one
      "Error=" are dropped, and only one. */
  lemma ErrorBodyShown(statusCode: int, message: string, lead: string, text: string, trail: string)
    requires statusCode != 401 && statusCode != 403 && statusCode != 429
    requires forall k :: 0 <= k < |lead| ==> IsWhiteSpace(lead[k])
    requires forall k :: 0 <= k < |trail| ==> IsWhiteSpace(trail[k])
    requires text == [] || !IsWhiteSpace(text[|text| - 1])
    ensures TransformError(StatusFailure(statusCode, Some(lead + ErrorPrefix + text + trail)), message)
            == Failure(message + ": " + text)
  {
    ErrorBodyTrimmed(lead, text, trail);
  }

  /** The body as shown: trimmed, then without its "Error=". */
  lemma ErrorBodyTrimmed(lead: string, text: string, trail: string)
    requires forall k :: 0 <= k < |lead| ==> IsWhiteSpace(lead[k])
    requires forall k :: 0 <= k < |trail| ==> IsWhiteSpace(trail[k])
    requires text == [] || !IsWhiteSpace(text[|text| - 1])
    ensures WithoutErrorPrefix(Trim(lead + ErrorPrefix + text + trail)) == text
  {
    var body := ErrorPrefix + text;
    assert lead + ErrorPrefix + text + trail == lead + body + trail;
    assert body[0] == 'E';
    assert body[|body| - 1] == (if text == [] then '=' else text[|text| - 1]);
    TrimmedBody(lead, body, trail);
    assert ErrorPrefix <= body && body[|ErrorPrefix|..] == text;
  }

  /** Trim drops white space on both sides and nothing else. */
  lemma TrimmedBody(lead: string, body: string, trail: string)
    requires forall k :: 0 <= k < |lead| ==> IsWhiteSpace(lead[k])
    requires forall k :: 0 <= k < |trail| ==> IsWhiteSpace(trail[k])
    requires body != [] && !IsWhiteSpace(body[0]) && !IsWhiteSpace(body[|body| - 1])
    ensures Trim(lead + body + trail) == body
  {
    assert lead + body + trail == lead + (body + trail);
    TrimStartSkips(lead, body + trail);
    TrimEndSkips(body, trail);
  }

  lemma {:induction false} TrimStartSkips(lead: string, rest: string)
    requires forall k :: 0 <= k < |lead| ==> IsWhiteSpace(lead[k])
    requires rest != [] && !IsWhiteSpace(rest[0])
    ensures TrimStart(lead + rest) == rest
  {
    if lead != [] {
      assert (lead + rest)[1..] == lead[1..] + rest;
      TrimStartSkips(lead[1..], rest);
    } else {
      assert lead + rest == rest;
    }
  }

  lemma {:induction false} TrimEndSkips(body: string, trail: string)
    requires forall k :: 0 <= k < |trail| ==> IsWhiteSpace(trail[k])
    requires body != [] && !IsWhiteSpace(body[|body| - 1])
    ensures TrimEnd(body + trail) == body
  {
    if trail != [] {
      var shorter := trail[..|trail| - 1];
      assert (body + trail)[..|body + trail| - 1] == body + shorter;
      TrimEndSkips(body, shorter);
    } else {
      assert body + trail == body;
    }
  }

  /** A call that sends `request`: its value on success, the transformed
      failure otherwise. */
  function Send<T>(request: Request, outcome: HttpOutcome<T>, message: string): (c: Call<T>)
    ensures c.sent == Some(request)
    ensures c.result.Ok? <==> outcome.Succeeded?
    ensures outcome.Succeeded? ==> c.result.value == outcome.value
    ensures outcome.Failed? ==> c.result.error == Api(TransformError(outcome.failure, message))
  {
    match outcome
    case Succeeded(value) => Call(Some(request), Ok(value))
    case Failed(failure) => Call(Some(request), Err(Api(TransformError(failure, message))))
  }

  // ----------------------------------------------------- article listing

  /** Int32 Clip: the value moved into [min, max]. */
  function Clip(value: int, min: int, max: int): (r: int)
    requires min <= max
    ensures min <= r <= max
    ensures min <= value <= max ==> r == value
    ensures value < min ==> r == min
    ensures max < value ==> r == max
  {
    if value < min then min else if max < value then max else value
  }

  datatype ArticleListing = Detailed | Brief

  /** The page size limit: 200 full articles or 1000 article ids. */
  function PageLimit(listing: ArticleListing): int
  {
    if listing.Detailed? then 200 else 1000
  }

  function OptionalParam(name: string, value: Option<string>): (form: Form)
    ensures forall n, v :: (n, v) in form <==> n == name && value == Some(v)
  {
    if value.Some? then [(name, value.value)] else []
  }

  function StreamParam(name: string, stream: Option<StreamId>): (form: Form)
    ensures forall n, v :: (n, v) in form <==> n == name && stream.Some? && v == stream.value.id
  {
    if stream.Some? then [(name, stream.value.id)] else []
  }

  function BoolText(b: bool): string
  {
    if b then "true" else "false"
  }

  /** The sort order and the two state filters of a listing. */
  function FilterParams(sortAscending: bool, subtract: Option<StreamId>, intersect: Option<StreamId>): (f: Form)
    ensures forall n, v :: (n, v) in f ==> n == "r" || n == "xt" || n == "it"
    ensures forall v :: ("r", v) in f <==> sortAscending && v == "o"
    ensures forall v :: ("xt", v) in f <==> subtract.Some? && v == subtract.value.id
    ensures forall v :: ("it", v) in f <==> intersect.Some? && v == intersect.value.id
  {
    OptionalParam("r", if sortAscending then Some("o") else None) + StreamParam("xt", subtract) + StreamParam("it", intersect)
  }

  /** The query shared by both listings, up to the pagination token. */
  function ListingHead(listing: ArticleListing, maxArticles: int, minTimeMicros: Option<int>,
                       subtract: Option<StreamId>, intersect: Option<StreamId>,
                       pagination: Option<string>, sortAscending: bool): (head: Form)
    ensures |head| >= 1 && head[0] == ("n", NatToString(Clip(maxArticles, 1, PageLimit(listing))))
    ensures forall n, v :: (n, v) in head ==> n in {"n", "ot", "r", "xt", "it", "c"}
    ensures forall v :: ("r", v) in head <==> sortAscending && v == "o"
    ensures forall v :: ("xt", v) in head <==> subtract.Some? && v == subtract.value.id
    ensures forall v :: ("it", v) in head <==> intersect.Some? && v == intersect.value.id
  {
    var n := Clip(maxArticles, 1, PageLimit(listing));
    var ot := OptionalParam("ot", if minTimeMicros.Some? then Some(IntToString(minTimeMicros.value)) else None);
    var c := OptionalParam("c", pagination);
    [("n", NatToString(n))] + ot + FilterParams(sortAscending, subtract, intersect) + c
  }

  /** The GET that lists the articles of a stream: full articles from
      stream/contents/<stream>, or article ids from stream/items/ids with
      the stream as "s". */
  function ListArticlesRequest(listing: ArticleListing, stream: StreamId, maxArticles: int,
                               minTimeMicros: Option<int>, subtract: Option<StreamId>,
                               intersect: Option<StreamId>, pagination: Option<string>,
                               sortAscending: bool, showFolders: bool, showAnnotations: bool): (req: Request)
    ensures req.Get? && req.query != []
    ensures listing.Detailed? ==> req.path == "stream/contents/" + stream.id
    ensures listing.Brief? ==> req.path == "stream/items/ids"
    ensures req.query[0] == ("n", NatToString(Clip(maxArticles, 1, PageLimit(listing))))
    ensures ("r", "o") in req.query <==> sortAscending
    ensures forall v :: ("xt", v) in req.query <==> subtract.Some? && v == subtract.value.id
    ensures forall v :: ("it", v) in req.query <==> intersect.Some? && v == intersect.value.id
    ensures ("s", stream.id) in req.query <==> listing.Brief?
    ensures ("includeAllDirectStreamIds", BoolText(showFolders)) in req.query
    ensures listing.Detailed? ==> req.query[|req.query| - 1] == ("annotations", if showAnnotations then "1" else "0")
    ensures listing.Brief? ==> forall v :: ("annotations", v) !in req.query
  {
    var head := ListingHead(listing, maxArticles, minTimeMicros, subtract, intersect, pagination, sortAscending);
    var tail := ListingTail(listing, stream, showFolders, showAnnotations);
    HeadNamesKept(head, tail);
    TailNamesKept(head, tail);
    Get(if listing.Detailed? then "stream/contents/" + stream.id else "stream/items/ids", head + tail)
  }

  /** The query after the pagination token: the stream for the id listing,
      whether to show folders, and annotations for the full listing. */
  function ListingTail(listing: ArticleListing, stream: StreamId, showFolders: bool, showAnnotations: bool): (tail: Form)
    ensures forall n, v :: (n, v) in tail ==> n in {"s", "includeAllDirectStreamIds", "annotations"}
    ensures ("s", stream.id) in tail <==> listing.Brief?
    ensures ("includeAllDirectStreamIds", BoolText(showFolders)) in tail
    ensures listing.Detailed? ==> tail[|tail| - 1] == ("annotations", if showAnnotations then "1" else "0")
    ensures listing.Brief? ==> forall v :: ("annotations", v) !in tail
  {
    var folders := ("includeAllDirectStreamIds", BoolText(showFolders));
    if listing.Detailed? then [folders, ("annotations", if showAnnotations then "1" else "0")]
    else [("s", stream.id), folders]
  }

  lemma HeadNamesKept(head: Form, tail: Form)
    requires forall n, v :: (n, v) in tail ==> n in {"s", "includeAllDirectStreamIds", "annotations"}
    ensures forall v :: ("r", v) in head + tail <==> ("r", v) in head
    ensures forall v :: ("xt", v) in head + tail <==> ("xt", v) in head
    ensures forall v :: ("it", v) in head + tail <==> ("it", v) in head
  {
    NamedInHead(head, tail, "r");
    NamedInHead(head, tail, "xt");
    NamedInHead(head, tail, "it");
  }

  lemma TailNamesKept(head: Form, tail: Form)
    requires forall n, v :: (n, v) in head ==> n in {"n", "ot", "r", "xt", "it", "c"}
    ensures forall v :: ("s", v) in head + tail <==> ("s", v) in tail
    ensures forall v :: ("annotations", v) in head + tail <==> ("annotations", v) in tail
  {
    NamedInHead(tail, head, "s");
    NamedInHead(tail, head, "annotations");
  }

  /** A name the other part of a form does not use is given exactly the
      values of the part that has it. */
  lemma NamedInHead(part: Form, other: Form, name: string)
    requires forall n, v :: (n, v) in other ==> n != name
    ensures forall v :: (name, v) in part + other <==> (name, v) in part
    ensures forall v :: (name, v) in other + part <==> (name, v) in part
  {
  }

  /** What a listing or mark-all-as-read is scoped to: the newsfeed (the
      reading list), a folder, a tag, or one subscribed feed. */
  datatype Scope = Newsfeed | InFolder(folder: string) | WithTag(tag: string) | Feed(feedUri: string)

  function ScopeStream(scope: Scope): (stream: StreamId)
    ensures scope.Newsfeed? ==> stream == StreamId.ReadingList
    ensures scope.InFolder? ==> stream.LabelName() == Some(scope.folder)
    ensures scope.WithTag? ==> stream.LabelName() == Some(scope.tag)
    ensures scope.Feed? ==> stream.FeedUri() == Some(scope.feedUri)
  {
    LabelRoundTrip(match scope case InFolder(name) => name case WithTag(name) => name case _ => "");
    FeedRoundTrip(if scope.Feed? then scope.feedUri else "");
    match scope
    case Newsfeed => StreamId.ReadingList
    case InFolder(folder) => StreamId.ForFolder(folder)
    case WithTag(tag) => StreamId.ForTag(tag)
    case Feed(feedUri) => StreamId.ForFeed(feedUri)
  }

  /** The listing as the public methods ask for it: the scope's stream,
      and article states to leave out ("xt") or require ("it"). */
  function ScopedListRequest(listing: ArticleListing, scope: Scope, maxArticles: int, minTimeMicros: Option<int>,
                             subtract: Option<ArticleState>, intersect: Option<ArticleState>,
                             pagination: Option<string>, sortAscending: bool, showFolders: bool,
                             showAnnotations: bool): (req: Request)
    ensures req.Get?
    ensures forall v :: ("xt", v) in req.query <==> subtract.Some? && v == StreamId.ForState(subtract).value.id
    ensures forall v :: ("it", v) in req.query <==> intersect.Some? && v == StreamId.ForState(intersect).value.id
    ensures listing.Brief? ==> ("s", ScopeStream(scope).id) in req.query
  {
    ListArticlesRequest(listing, ScopeStream(scope), maxArticles, minTimeMicros, StreamId.ForState(subtract),
                        StreamId.ForState(intersect), pagination, sortAscending, showFolders, showAnnotations)
  }

  /** Lists article ids: the brief listing sent and its answer. */
  function ListArticlesBrief<T>(stream: StreamId, maxArticles: int, minTimeMicros: Option<int>,
                                subtract: Option<StreamId>, intersect: Option<StreamId>, pagination: Option<string>,
                                sortAscending: bool, showFolders: bool, outcome: HttpOutcome<T>): (c: Call<T>)
    ensures c.sent == Some(ListArticlesRequest(Brief, stream, maxArticles, minTimeMicros, subtract, intersect,
                                               pagination, sortAscending, showFolders, false))
    ensures c.result.Ok? <==> outcome.Succeeded?
    ensures c.result.Err? ==> c.result.error.Api? && c.result.error.exception.Failure? ==>
              "Failed to list article IDs in feed " + stream.id <= c.result.error.exception.message
  {
    Send(ListArticlesRequest(Brief, stream, maxArticles, minTimeMicros, subtract, intersect, pagination,
                             sortAscending, showFolders, false),
         outcome, "Failed to list article IDs in feed " + stream.id)
  }

  /** The page size sent is always within the limit, and a size within the
      limit is sent as asked. */
  lemma PageSizeClipped(listing: ArticleListing, maxArticles: int)
    ensures 1 <= Clip(maxArticles, 1, PageLimit(listing)) <= PageLimit(listing)
    ensures 1 <= maxArticles <= PageLimit(listing) ==> Clip(maxArticles, 1, PageLimit(listing)) == maxArticles
    ensures Clip(Clip(maxArticles, 1, PageLimit(listing)), 1, PageLimit(listing)) == Clip(maxArticles, 1, PageLimit(listing))
  {
  }

  /** The id listing of the newsfeed with one article, folders shown. */
  lemma BriefNewsfeedQuery()
    ensures ListArticlesRequest(Brief, StreamId.ReadingList, 1, None, None, None, None, false, true, false)
            == Get("stream/items/ids", [("n", "1"), ("s", "user/-/state/com.google/reading-list"),
                                        ("includeAllDirectStreamIds", "true")])
  {
    NewsfeedHead();
  }

  /** The full listing of the newsfeed with one article, folders and
      annotations shown. */
  lemma DetailedNewsfeedQuery()
    ensures ListArticlesRequest(Detailed, StreamId.ReadingList, 1, None, None, None, None, false, true, true)
            == Get("stream/contents/" + "user/-/state/com.google/reading-list",
                   [("n", "1"), ("includeAllDirectStreamIds", "true"), ("annotations", "1")])
  {
    NewsfeedHead();
  }

  lemma NewsfeedHead()
    ensures StreamId.ReadingList.id == "user/-/state/com.google/reading-list"
    ensures ListingHead(Brief, 1, None, None, None, None, false) == [("n", "1")]
    ensures ListingHead(Detailed, 1, None, None, None, None, false) == [("n", "1")]
  {
    assert NatToString(1) == "1";
  }

  // ------------------------------------------------------------ edit-tag

  function IdParams(articleIds: seq<string>): (form: Form)
    ensures |form| == |articleIds|
    ensures forall k :: 0 <= k < |articleIds| ==> form[k] == ("i", articleIds[k])
  {
    if articleIds == [] then [] else [("i", articleIds[0])] + IdParams(articleIds[1..])
  }

  /** The edit-tag form: the label to add ("a") or remove ("r"), then one
      "i" per article id in order. */
  function EditTagForm(tagStream: StreamId, removeLabel: bool, articleIds: seq<string>): (form: Form)
    ensures |form| == |articleIds| + 1
    ensures form[0] == (if removeLabel then "r" else "a", tagStream.id)
    ensures forall k :: 0 <= k < |articleIds| ==> form[k + 1] == ("i", articleIds[k])
  {
    [(if removeLabel then "r" else "a", tagStream.id)] + IdParams(articleIds)
  }

  function MarkArticlesMessage(tagStream: StreamId, removeLabel: bool): string
  {
    "Failed to " + (if removeLabel then "untag" else "tag") + " articles with tag " + tagStream.id
  }

  /** Adds a label to, or removes it from, articles. No ids means no
      request; the result is the number of ids. */
  function MarkArticles(tagStream: StreamId, removeLabel: bool, articleIds: seq<string>, outcome: HttpOutcome<()>): (c: Call<int>)
    ensures c.sent.Some? <==> articleIds != []
    ensures c.sent.Some? ==> c.sent.value == Post("edit-tag", EditTagForm(tagStream, removeLabel, articleIds))
    ensures c.result.Ok? ==> c.result.value == |articleIds|
    ensures c.result.Err? <==> articleIds != [] && outcome.Failed?
  {
    if articleIds == [] then Call(None, Ok(0))
    else
      var sent := Send(Post("edit-tag", EditTagForm(tagStream, removeLabel, articleIds)), outcome,
                       MarkArticlesMessage(tagStream, removeLabel));
      Call(sent.sent, if sent.result.Ok? then Ok(|articleIds|) else Err(sent.result.error))
  }

  /** The values of a list of results, in order, or the error of the first
      result that failed. */
  function AllOk<T, E>(rs: seq<Result<T, E>>): (r: Result<seq<T>, E>)
    ensures r.Ok? ==> |r.value| == |rs| && forall k :: 0 <= k < |rs| ==> rs[k] == Ok(r.value[k])
    ensures r.Err? <==> exists k :: 0 <= k < |rs| && rs[k].Err?
    ensures r.Err? ==> exists k :: 0 <= k < |rs| && rs[k] == Err(r.error) && forall j :: 0 <= j < k ==> rs[j].Ok?
  {
    if rs == [] then Ok([])
    else
      match rs[0]
      case Err(e) => Err(e)
      case Ok(first) =>
        match AllOk(rs[1..])
        case Err(e) =>
          assert exists k :: 0 <= k < |rs| && rs[k] == Err(e) && forall j :: 0 <= j < k ==> rs[j].Ok? by {
            var i :| 0 <= i < |rs[1..]| && rs[1..][i] == Err(e) && forall j :: 0 <= j < i ==> rs[1..][j].Ok?;
            assert rs[i + 1] == rs[1..][i];
            forall j | 1 <= j < i + 1 ensures rs[j].Ok? {
              assert rs[j] == rs[1..][j - 1];
            }
          }
          Err(e)
        case Ok(rest) =>
          var r := [first] + rest;
          assert forall k :: 1 <= k < |rs| ==> rs[k] == rs[1..][k - 1] && r[k] == rest[k - 1];
          Ok(r)
  }

  /** The short ids of articles, in order; the first id that does not read
      fails the whole list before anything is sent. */
  function ShortIds(longIds: seq<string>): (r: Result<seq<string>, ShortIdError>)
    ensures r.Ok? ==> |r.value| == |longIds|
    ensures r.Ok? ==> forall k :: 0 <= k < |longIds| ==> ShortIdOf(longIds[k]) == Ok(r.value[k])
    ensures r.Err? <==> exists k :: 0 <= k < |longIds| && ShortIdOf(longIds[k]).Err?
    ensures r.Err? ==> exists k :: 0 <= k < |longIds| && ShortIdOf(longIds[k]) == Err(r.error)
                                   && forall j :: 0 <= j < k ==> ShortIdOf(longIds[j]).Ok?
  {
    var rs := seq(|longIds|, k requires 0 <= k < |longIds| => ShortIdOf(longIds[k]));
    assert forall k :: 0 <= k < |longIds| ==> rs[k] == ShortIdOf(longIds[k]);
    AllOk(rs)
  }

  /** Marks articles given as objects, by their short ids. */
  function MarkArticleObjects(tagStream: StreamId, removeLabel: bool, longIds: seq<string>, outcome: HttpOutcome<()>): (c: Call<int>)
    ensures (exists k :: 0 <= k < |longIds| && ShortIdOf(longIds[k]).Err?) ==> c.sent.None? && c.result.Err?
    ensures ShortIds(longIds).Ok? ==> c == MarkArticles(tagStream, removeLabel, ShortIds(longIds).value, outcome)
  {
    match ShortIds(longIds)
    case Err(e) => Call(None, Err(BadArticleId(e)))
    case Ok(ids) => MarkArticles(tagStream, removeLabel, ids, outcome)
  }

  /** MarkArticles(state): adds the state's system stream. */
  function MarkState(markState: ArticleState, articleIds: seq<string>, outcome: HttpOutcome<()>): (c: Call<int>)
    ensures c == MarkArticles(StreamId.ForState(Some(markState)).value, false, articleIds, outcome)
    ensures c.sent.Some? ==> c.sent.value.form[0] == ("a", StreamId.ForState(Some(markState)).value.id)
  {
    MarkArticles(StreamId.ForState(Some(markState)).value, false, articleIds, outcome)
  }

  /** UnmarkArticles(state): removes the state's system stream. */
  function UnmarkState(unmarkState: ArticleState, articleIds: seq<string>, outcome: HttpOutcome<()>): (c: Call<int>)
    ensures c == MarkArticles(StreamId.ForState(Some(unmarkState)).value, true, articleIds, outcome)
    ensures c.sent.Some? ==> c.sent.value.form[0] == ("r", StreamId.ForState(Some(unmarkState)).value.id)
  {
    MarkArticles(StreamId.ForState(Some(unmarkState)).value, true, articleIds, outcome)
  }

  /** UntagArticles: removes a tag; the label-name cache is not touched. */
  function UntagArticles(tag: string, articleIds: seq<string>, outcome: HttpOutcome<()>): (c: Call<int>)
    ensures c == MarkArticles(StreamId.ForTag(tag), true, articleIds, outcome)
    ensures c.sent.Some? ==> c.sent.value.form[0] == ("r", LabelPrefix + tag)
  {
    MarkArticles(StreamId.ForTag(tag), true, articleIds, outcome)
  }

  /** Conversely, when every long id decodes to the short id at the same
      position, the conversion succeeds with exactly those short ids. */
  lemma ShortIdsOfDecoded(longIds: seq<string>, shortIds: seq<string>)
    requires |longIds| == |shortIds|
    requires forall k :: 0 <= k < |longIds| ==> ShortIdOf(longIds[k]) == Ok(shortIds[k])
    ensures ShortIds(longIds) == Ok(shortIds)
  {
    var r := ShortIds(longIds);
    assert forall k :: 0 <= k < |longIds| ==> !ShortIdOf(longIds[k]).Err?;
    assert r.Ok?;
    assert forall k :: 0 <= k < |longIds| ==> r.value[k] == shortIds[k];
    assert r.value == shortIds;
  }

  /** The two test articles' long ids decode to their short ids, whatever
      32 characters precede the hexadecimal part. */
  lemma TagTestShortIds(prefix: string)
    requires |prefix| == PrefixLength
    ensures ShortIds([prefix + "00000000148b9369", prefix + "00000000148b383e"])
            == Ok(["344691561", "344668222"])
  {
    EditTagTestId(prefix);
    EditTagSecondTestId(prefix);
    ShortIdsOfDecoded([prefix + "00000000148b9369", prefix + "00000000148b383e"], ["344691561", "344668222"]);
  }

  lemma MyTagId()
    ensures StreamId.ForTag("My tag").id == "user/-/label/My tag"
  {
    assert StreamId.ForTag("My tag").id == LabelPrefix + "My tag";
  }

  /** Tagging the two test articles with "My tag" posts
      a=user/-/label/My tag, then their two short ids. */
  lemma TagTestForm(prefix: string)
    requires |prefix| == PrefixLength
    ensures ShortIds([prefix + "00000000148b9369", prefix + "00000000148b383e"])
            == Ok(["344691561", "344668222"])
    ensures EditTagForm(StreamId.ForTag("My tag"), false, ["344691561", "344668222"])
            == [("a", "user/-/label/My tag"), ("i", "344691561"), ("i", "344668222")]
  {
    TagTestShortIds(prefix);
    MyTagId();
    var form := EditTagForm(StreamId.ForTag("My tag"), false, ["344691561", "344668222"]);
    assert |form| == 3 && form[0] == ("a", "user/-/label/My tag");
    assert form[1] == ("i", "344691561") && form[2] == ("i", "344668222");
  }

  // ------------------------------------------------- stream-level requests

  /** mark-all-as-read: the stream and the newest article time seen, in
      Unix microseconds. */
  function MarkAllArticlesAsRead(stream: StreamId, maxSeenMicros: int, outcome: HttpOutcome<()>): (c: Call<()>)
    ensures c.sent == Some(Post("mark-all-as-read", [("s", stream.id), ("ts", IntToString(maxSeenMicros))]))
    ensures c.result.Ok? <==> outcome.Succeeded?
  {
    Send(Post("mark-all-as-read", [("s", stream.id), ("ts", IntToString(maxSeenMicros))]), outcome,
         "Failed to mark all articles as read in " + stream.id)
  }

  /** rename-tag: a folder or tag stream and its new name. */
  function RenameFolderOrTag(stream: StreamId, newName: string, outcome: HttpOutcome<()>): (c: Call<()>)
    ensures c.sent == Some(Post("rename-tag", [("s", stream.id), ("dest", newName)]))
    ensures c.result.Ok? <==> outcome.Succeeded?
  {
    Send(Post("rename-tag", [("s", stream.id), ("dest", newName)]), outcome,
         "Failed to rename folder or tag " + stream.id + " to " + newName)
  }

  /** disable-tag: a folder or tag stream. */
  function DeleteFolderOrTag(stream: StreamId, outcome: HttpOutcome<()>): (c: Call<()>)
    ensures c.sent == Some(Post("disable-tag", [("s", stream.id)]))
    ensures c.result.Ok? <==> outcome.Succeeded?
  {
    Send(Post("disable-tag", [("s", stream.id)]), outcome, "Failed to delete folder or tag " + stream.id)
  }

  /** The stream and the tag or folder names the listing sends. */
  lemma RenameTestForms()
    ensures RenameFolderOrTag(StreamId.ForTag("Old tag"), "New tag", Succeeded(())).sent
            == Some(Post("rename-tag", [("s", "user/-/label/Old tag"), ("dest", "New tag")]))
    ensures DeleteFolderOrTag(StreamId.ForFolder("Old folder"), Succeeded(())).sent
            == Some(Post("disable-tag", [("s", "user/-/label/Old folder")]))
  {
    assert StreamId.ForTag("Old tag").id == LabelPrefix + "Old tag" == "user/-/label/Old tag";
    assert StreamId.ForFolder("Old folder").id == LabelPrefix + "Old folder" == "user/-/label/Old folder";
  }

  /** The folder and tag streams as listed by tag/list. */
  function ListTagAndFolderStates(outcome: HttpOutcome<seq<StreamState>>): (c: Call<seq<StreamState>>)
    ensures c.sent == Some(Get("tag/list", [("types", "1"), ("counts", "1")]))
    ensures c.result.Ok? <==> outcome.Succeeded?
    ensures c.result.Ok? ==> c.result.value == outcome.value
  {
    Send(Get("tag/list", [("types", "1"), ("counts", "1")]), outcome, "Failed to list tag and folder states")
  }

  /** Folders.List: the FolderState entries, in order. */
  function FolderStates(states: seq<StreamState>): (r: seq<StreamState>)
    ensures forall s :: s in r <==> s in states && s.kind == Folder
  {
    if states == [] then []
    else (if states[0].kind == Folder then [states[0]] else []) + FolderStates(states[1..])
  }

  /** Tags.List: the entries whose type is exactly TagState, so active
      searches are left out. */
  function TagStates(states: seq<StreamState>): (r: seq<StreamState>)
    ensures forall s :: s in r <==> s in states && s.kind == Tag
  {
    if states == [] then []
    else (if states[0].kind == Tag then [states[0]] else []) + TagStates(states[1..])
  }

  /** Folders, tags, and every other kind of entry are kept apart. */
  lemma {:induction false} ListsDisjoint(states: seq<StreamState>)
    ensures forall s :: s in FolderStates(states) ==> s !in TagStates(states)
    ensures |FolderStates(states)| + |TagStates(states)| <= |states|
  {
    if states != [] {
      ListsDisjoint(states[1..]);
    }
  }

  // -------------------------------------------------------- subscriptions

  datatype SubscriptionEditAction = Subscribe | Edit | Unsubscribe

  /** The action's name, lower-cased. */
  function ActionText(action: SubscriptionEditAction): string
  {
    match action
    case Subscribe => "subscribe"
    case Edit => "edit"
    case Unsubscribe => "unsubscribe"
  }

  /** The subscription/edit form: action, stream, and the title, folder to
      add and folder to remove when given, in that order. */
  function SubscriptionForm(stream: StreamId, action: SubscriptionEditAction, newTitle: Option<string>,
                            newFolder: Option<string>, removeFromFolder: Option<string>): (form: Form)
    ensures |form| >= 2 && form[0] == ("ac", ActionText(action)) && form[1] == ("s", stream.id)
    ensures forall v :: ("t", v) in form <==> newTitle == Some(v)
    ensures forall v :: ("a", v) in form <==> newFolder.Some? && v == StreamId.ForFolder(newFolder.value).id
    ensures forall v :: ("r", v) in form <==> removeFromFolder.Some? && v == StreamId.ForFolder(removeFromFolder.value).id
  {
    [("ac", ActionText(action)), ("s", stream.id)]
    + OptionalParam("t", newTitle)
    + StreamParam("a", if newFolder.Some? then Some(StreamId.ForFolder(newFolder.value)) else None)
    + StreamParam("r", if removeFromFolder.Some? then Some(StreamId.ForFolder(removeFromFolder.value)) else None)
  }

  function ModifySubscription(stream: StreamId, action: SubscriptionEditAction, newTitle: Option<string>,
                              newFolder: Option<string>, removeFromFolder: Option<string>,
                              outcome: HttpOutcome<()>): (c: Call<()>)
    ensures c.sent == Some(Post("subscription/edit", SubscriptionForm(stream, action, newTitle, newFolder, removeFromFolder)))
    ensures c.result.Ok? <==> outcome.Succeeded?
  {
    Send(Post("subscription/edit", SubscriptionForm(stream, action, newTitle, newFolder, removeFromFolder)),
         outcome, "Failed to modify feed " + stream.id)
  }

  /** Subscriptions.Rename: an edit carrying only the title. */
  function RenameSubscription(feedUri: string, newTitle: string, outcome: HttpOutcome<()>): (c: Call<()>)
    ensures c.sent == Some(Post("subscription/edit", [("ac", "edit"), ("s", FeedPrefix + feedUri), ("t", newTitle)]))
  {
    assert SubscriptionForm(StreamId.ForFeed(feedUri), Edit, Some(newTitle), None, None)
           == [("ac", "edit"), ("s", FeedPrefix + feedUri), ("t", newTitle)];
    ModifySubscription(StreamId.ForFeed(feedUri), Edit, Some(newTitle), None, None, outcome)
  }

  /** Subscriptions.RemoveFromFolder: an edit carrying only the folder to
      leave. */
  function RemoveFromFolder(feedUri: string, folder: string, outcome: HttpOutcome<()>): (c: Call<()>)
    ensures c.sent == Some(Post("subscription/edit", [("ac", "edit"), ("s", FeedPrefix + feedUri), ("r", LabelPrefix + folder)]))
  {
    assert SubscriptionForm(StreamId.ForFeed(feedUri), Edit, None, None, Some(folder))
           == [("ac", "edit"), ("s", FeedPrefix + feedUri), ("r", LabelPrefix + folder)];
    ModifySubscription(StreamId.ForFeed(feedUri), Edit, None, None, Some(folder), outcome)
  }

  /** Subscriptions.Unsubscribe: only the action and the stream. */
  function UnsubscribeFeed(feedUri: string, outcome: HttpOutcome<()>): (c: Call<()>)
    ensures c.sent == Some(Post("subscription/edit", [("ac", "unsubscribe"), ("s", FeedPrefix + feedUri)]))
  {
    assert SubscriptionForm(StreamId.ForFeed(feedUri), SubscriptionEditAction.Unsubscribe, None, None, None)
           == [("ac", "unsubscribe"), ("s", FeedPrefix + feedUri)];
    ModifySubscription(StreamId.ForFeed(feedUri), SubscriptionEditAction.Unsubscribe, None, None, None, outcome)
  }

  /** Subscribing with a title and a folder, and adding to a folder. */
  lemma SubscriptionTestForms(feedUri: string)
    ensures SubscriptionForm(StreamId.ForFeed(feedUri), Subscribe, Some("Science!"), Some("Technology"), None)
            == [("ac", "subscribe"), ("s", "feed/" + feedUri), ("t", "Science!"), ("a", "user/-/label/Technology")]
    ensures SubscriptionForm(StreamId.ForFeed(feedUri), Edit, None, Some("Technology"), None)
            == [("ac", "edit"), ("s", "feed/" + feedUri), ("a", "user/-/label/Technology")]
  {
    var folder := StreamParam("a", Some(StreamId.ForFolder("Technology")));
    assert StreamId.ForFolder("Technology").id == "user/-/label/Technology";
    assert folder == [("a", "user/-/label/Technology")];
    assert OptionalParam("t", Some("Science!")) == [("t", "Science!")];
    assert OptionalParam("t", None) == [] && StreamParam("r", None) == [];
  }

  /** Quick add: subscription/quickadd with the feed stream. */
  function QuickAdd<T>(feedUri: string, outcome: HttpOutcome<T>): (c: Call<T>)
    ensures c.sent == Some(Post("subscription/quickadd", [("quickadd", FeedPrefix + feedUri)]))
    ensures c.result.Ok? <==> outcome.Succeeded?
  {
    Send(Post("subscription/quickadd", [("quickadd", StreamId.ForFeed(feedUri).id)]), outcome, "Failed to subscribe to feed")
  }

  // -------------------------------------------------------- unread counts

  datatype UnreadCountResponse = UnreadCountResponse(id: StreamId, count: int, newestArticleTime: Option<int>)
  datatype UnreadCountResponses = UnreadCountResponses(max: int, unreadCounts: seq<UnreadCountResponse>)
  datatype StreamUnreadState = StreamUnreadState(unreadCount: int, newestArticleTime: Option<int>)

  /** Label or subscription unread counts: a table keyed by label name or
      feed URI, and the server's display cap. */
  datatype KeyedUnreadCounts = KeyedUnreadCounts(counts: map<string, StreamUnreadState>, max: int)

  datatype NewsfeedUnreadCounts = NewsfeedUnreadCounts(allArticles: StreamUnreadState, starredArticleCount: int, max: int)

  function StateOf(response: UnreadCountResponse): StreamUnreadState
  {
    StreamUnreadState(response.count, response.newestArticleTime)
  }

  function GetUnreadCounts(outcome: HttpOutcome<UnreadCountResponses>): (c: Call<UnreadCountResponses>)
    ensures c.sent == Some(Get("unread-count", []))
    ensures c.result.Ok? <==> outcome.Succeeded?
    ensures c.result.Ok? ==> c.result.value == outcome.value
  {
    Send(Get("unread-count", []), outcome, "Failed to get unread counts")
  }

  predicate DistinctKeys<V>(entries: seq<(string, V)>)
  {
    forall i, j :: 0 <= i < j < |entries| ==> entries[i].0 != entries[j].0
  }

  /** Keys are distinct exactly when those before the last are and none of
      them is the last key. */
  lemma DistinctKeysSnoc<V>(entries: seq<(string, V)>)
    requires entries != []
    ensures DistinctKeys(entries) <==>
              DistinctKeys(entries[..|entries| - 1])
              && forall i :: 0 <= i < |entries| - 1 ==> entries[i].0 != entries[|entries| - 1].0
  {
    var init := entries[..|entries| - 1];
    assert forall i :: 0 <= i < |init| ==> init[i] == entries[i];
  }

  /** The keys of the entries. */
  function KeysOf<V>(entries: seq<(string, V)>): set<string>
  {
    if entries == [] then {} else KeysOf(entries[..|entries| - 1]) + {entries[|entries| - 1].0}
  }

  /** A key is among the entries' keys exactly when some entry has it. */
  lemma {:induction false} KeysOfMembers<V>(entries: seq<(string, V)>)
    ensures forall k :: k in KeysOf(entries) <==> exists i :: 0 <= i < |entries| && entries[i].0 == k
    decreases |entries|
  {
    if entries != [] {
      var init := entries[..|entries| - 1];
      KeysOfMembers(init);
      forall k | k in KeysOf(entries)
        ensures exists i :: 0 <= i < |entries| && entries[i].0 == k
      {
        if k in KeysOf(init) {
          var i :| 0 <= i < |init| && init[i].0 == k;
          assert entries[i] == init[i];
        } else {
          assert entries[|entries| - 1].0 == k;
        }
      }
      forall i | 0 <= i < |entries|
        ensures entries[i].0 in KeysOf(entries)
      {
        if i < |init| {
          assert entries[i] == init[i];
        }
      }
    }
  }

  /** Enumerable.ToDictionary: fails on the first key seen twice. */
  function ToDictionary<V>(entries: seq<(string, V)>): (r: Result<map<string, V>, string>)
    ensures r.Ok? ==> r.value.Keys == KeysOf(entries)
    ensures r.Err? ==> r.error in KeysOf(entries)
  {
    if entries == [] then Ok(map[])
    else
      var last := entries[|entries| - 1];
      match ToDictionary(entries[..|entries| - 1])
      case Err(key) => Err(key)
      case Ok(m) => if last.0 in m then Err(last.0) else Ok(m[last.0 := last.1])
  }

  /** A dictionary comes out exactly when no key is repeated. */
  lemma {:induction false} ToDictionaryDistinct<V>(entries: seq<(string, V)>)
    ensures ToDictionary(entries).Ok? <==> DistinctKeys(entries)
    decreases |entries|
  {
    if entries != [] {
      var init := entries[..|entries| - 1];
      var last := entries[|entries| - 1];
      DistinctKeysSnoc(entries);
      ToDictionaryDistinct(init);
      KeysOfMembers(init);
      if ToDictionary(init).Ok? {
        assert forall i :: 0 <= i < |init| ==> init[i] == entries[i];
        assert last.0 in ToDictionary(init).value <==> exists i :: 0 <= i < |init| && init[i].0 == last.0;
      }
    }
  }

  /** A dictionary built holds every entry's key with that entry's value. */
  lemma {:induction false} ToDictionaryContents<V>(entries: seq<(string, V)>)
    requires ToDictionary(entries).Ok?
    ensures var m := ToDictionary(entries).value;
            forall i :: 0 <= i < |entries| ==> entries[i].0 in m && m[entries[i].0] == entries[i].1
    decreases |entries|
  {
    if entries != [] {
      var init := entries[..|entries| - 1];
      var last := entries[|entries| - 1];
      var r := ToDictionary(init).value;
      ToDictionaryContents(init);
      var m := ToDictionary(entries).value;
      assert last.0 !in r && m == r[last.0 := last.1];
      forall i | 0 <= i < |entries|
        ensures entries[i].0 in m && m[entries[i].0] == entries[i].1
      {
        if i < |init| {
          assert entries[i] == init[i];
          assert init[i].0 in r && r[init[i].0] == init[i].1;
        }
      }
    }
  }

  /** The entries of the responses whose stream has a key, keyed by it. */
  function KeyedEntries(responses: seq<UnreadCountResponse>, keyOf: StreamId -> Option<string>): (entries: seq<(string, StreamUnreadState)>)
    ensures forall e :: e in entries ==> exists r :: r in responses && keyOf(r.id) == Some(e.0) && e.1 == StateOf(r)
    ensures forall r :: r in responses && keyOf(r.id).Some? ==> (keyOf(r.id).value, StateOf(r)) in entries
  {
    if responses == [] then []
    else
      var key := keyOf(responses[0].id);
      (if key.Some? then [(key.value, StateOf(responses[0]))] else []) + KeyedEntries(responses[1..], keyOf)
  }

  /** The unread counts of the responses that have a key, as a table keyed
      by it; a key met twice fails the call. */
  function KeyedCounts(responses: UnreadCountResponses, keyOf: StreamId -> Option<string>): (r: Result<KeyedUnreadCounts, CallError>)
    ensures r.Ok? ==> r.value.max == responses.max
    ensures r.Ok? ==> forall k :: k in r.value.counts <==> exists x :: x in responses.unreadCounts && keyOf(x.id) == Some(k)
    ensures r.Ok? ==> forall x :: x in responses.unreadCounts && keyOf(x.id).Some?
                                  ==> keyOf(x.id).value in r.value.counts && r.value.counts[keyOf(x.id).value] == StateOf(x)
    ensures r.Err? ==> r.error.DuplicateKey?
  {
    match ToDictionary(KeyedEntries(responses.unreadCounts, keyOf))
    case Err(key) => Err(DuplicateKey(key))
    case Ok(m) =>
      KeyedTable(responses.unreadCounts, keyOf);
      Ok(KeyedUnreadCounts(m, responses.max))
  }

  /** The table built from the keyed entries holds exactly the keys of the
      responses that have one, each with its response's counts. */
  lemma KeyedTable(responses: seq<UnreadCountResponse>, keyOf: StreamId -> Option<string>)
    requires ToDictionary(KeyedEntries(responses, keyOf)).Ok?
    ensures var m := ToDictionary(KeyedEntries(responses, keyOf)).value;
            && (forall k :: k in m <==> exists x :: x in responses && keyOf(x.id) == Some(k))
            && (forall x :: x in responses && keyOf(x.id).Some? ==> keyOf(x.id).value in m && m[keyOf(x.id).value] == StateOf(x))
  {
    var entries := KeyedEntries(responses, keyOf);
    var m := ToDictionary(entries).value;
    ToDictionaryContents(entries);
    KeysOfMembers(entries);
    forall x | x in responses && keyOf(x.id).Some?
      ensures keyOf(x.id).value in m && m[keyOf(x.id).value] == StateOf(x)
    {
      var i :| 0 <= i < |entries| && entries[i] == (keyOf(x.id).value, StateOf(x));
    }
    forall k | k in m
      ensures exists x :: x in responses && keyOf(x.id) == Some(k)
    {
      var i :| 0 <= i < |entries| && entries[i].0 == k;
      assert entries[i] in entries;
    }
  }

  /** A key new to distinct entries keeps them distinct when put first. */
  lemma DistinctKeysCons<V>(head: (string, V), rest: seq<(string, V)>)
    requires DistinctKeys(rest)
    requires forall e :: e in rest ==> e.0 != head.0
    ensures DistinctKeys([head] + rest)
  {
    var entries := [head] + rest;
    forall i, j | 0 <= i < j < |entries|
      ensures entries[i].0 != entries[j].0
    {
      if i == 0 {
        assert entries[j] == rest[j - 1] && entries[j] in rest;
      } else {
        assert entries[i] == rest[i - 1] && entries[j] == rest[j - 1];
      }
    }
  }

  /** When no two responses share a key, the table is built. */
  lemma {:induction false} KeyedCountsDefined(responses: seq<UnreadCountResponse>, keyOf: StreamId -> Option<string>)
    requires forall i, j :: 0 <= i < j < |responses| && keyOf(responses[i].id).Some? ==> keyOf(responses[i].id) != keyOf(responses[j].id)
    ensures DistinctKeys(KeyedEntries(responses, keyOf))
  {
    if responses != [] {
      var tail := responses[1..];
      assert forall i, j :: 0 <= i < j < |tail| && keyOf(tail[i].id).Some? ==> keyOf(tail[i].id) != keyOf(tail[j].id) by {
        forall i, j | 0 <= i < j < |tail| && keyOf(tail[i].id).Some?
          ensures keyOf(tail[i].id) != keyOf(tail[j].id)
        {
          assert tail[i] == responses[i + 1] && tail[j] == responses[j + 1];
        }
      }
      KeyedCountsDefined(tail, keyOf);
      var rest := KeyedEntries(tail, keyOf);
      var key := keyOf(responses[0].id);
      if key.Some? {
        forall e | e in rest
          ensures e.0 != key.value
        {
          var x :| x in tail && keyOf(x.id) == Some(e.0) && e.1 == StateOf(x);
          var j :| 0 <= j < |tail| && tail[j] == x;
          assert responses[j + 1] == x;
        }
        DistinctKeysCons((key.value, StateOf(responses[0])), rest);
        assert KeyedEntries(responses, keyOf) == [(key.value, StateOf(responses[0]))] + rest;
      } else {
        assert KeyedEntries(responses, keyOf) == rest;
      }
    }
  }

  /** The label side a name belongs to: the folder side takes the names in
      the cached folder set, the tag side every other name. */
  predicate OnLabelSide(name: string, folderNames: set<string>, tagsInsteadOfFolders: bool)
  {
    tagsInsteadOfFolders != (name in folderNames)
  }

  function LabelKey(id: StreamId, folderNames: set<string>, tagsInsteadOfFolders: bool): Option<string>
  {
    var name := id.LabelName();
    if name.Some? && OnLabelSide(name.value, folderNames, tagsInsteadOfFolders) then name else None
  }

  /** Folder or tag unread counts: the label streams on one side of the
      cached folder set, keyed by label name. */
  function LabelUnreadCounts(responses: UnreadCountResponses, folderNames: set<string>, tagsInsteadOfFolders: bool): (r: Result<KeyedUnreadCounts, CallError>)
    ensures r.Ok? ==> r.value.max == responses.max
    ensures r.Ok? ==> forall name :: name in r.value.counts <==>
                        OnLabelSide(name, folderNames, tagsInsteadOfFolders)
                        && exists x :: x in responses.unreadCounts && x.id == StreamId.ForLabel(name)
    ensures r.Ok? ==> forall x :: x in responses.unreadCounts && x.id.LabelName().Some?
                                  && OnLabelSide(x.id.LabelName().value, folderNames, tagsInsteadOfFolders)
                                  ==> x.id.LabelName().value in r.value.counts && r.value.counts[x.id.LabelName().value] == StateOf(x)
  {
    var keyOf := id => LabelKey(id, folderNames, tagsInsteadOfFolders);
    var r := KeyedCounts(responses, keyOf);
    assert r.Ok? ==> forall name :: name in r.value.counts <==>
                        OnLabelSide(name, folderNames, tagsInsteadOfFolders)
                        && exists x :: x in responses.unreadCounts && x.id == StreamId.ForLabel(name) by {
      if r.Ok? {
        forall name
          ensures name in r.value.counts <==>
                    OnLabelSide(name, folderNames, tagsInsteadOfFolders)
                    && exists x :: x in responses.unreadCounts && x.id == StreamId.ForLabel(name)
        {
          if exists x :: x in responses.unreadCounts && x.id == StreamId.ForLabel(name) {
            var x :| x in responses.unreadCounts && x.id == StreamId.ForLabel(name);
            LabelRoundTrip(name);
          }
        }
      }
    }
    r
  }

  /** The folder side and the tag side share no name, and together hold
      every label stream's counts; the folder side keeps to the cached
      folder names. */
  lemma LabelSidesPartition(responses: UnreadCountResponses, folderNames: set<string>)
    requires LabelUnreadCounts(responses, folderNames, false).Ok?
    requires LabelUnreadCounts(responses, folderNames, true).Ok?
    ensures var folders := LabelUnreadCounts(responses, folderNames, false).value.counts.Keys;
            var tags := LabelUnreadCounts(responses, folderNames, true).value.counts.Keys;
            && folders <= folderNames
            && tags * folderNames == {}
            && folders * tags == {}
            && folders + tags == set x | x in responses.unreadCounts && x.id.LabelName().Some? :: x.id.LabelName().value
  {
    var folders := LabelUnreadCounts(responses, folderNames, false).value.counts.Keys;
    var tags := LabelUnreadCounts(responses, folderNames, true).value.counts.Keys;
    var labels := set x | x in responses.unreadCounts && x.id.LabelName().Some? :: x.id.LabelName().value;
    forall name | name in labels
      ensures name in folders + tags
    {
      var x :| x in responses.unreadCounts && x.id.LabelName() == Some(name);
      assert x.id == StreamId.ForLabel(name);
    }
    forall name | name in folders + tags
      ensures name in labels
    {
      var x :| x in responses.unreadCounts && x.id == StreamId.ForLabel(name);
      LabelRoundTrip(name);
    }
  }

  /** Streams listed once give a table on either side. */
  lemma LabelUnreadCountsDefined(responses: UnreadCountResponses, folderNames: set<string>, tagsInsteadOfFolders: bool)
    requires forall i, j :: 0 <= i < j < |responses.unreadCounts| ==> responses.unreadCounts[i].id != responses.unreadCounts[j].id
    ensures LabelUnreadCounts(responses, folderNames, tagsInsteadOfFolders).Ok?
  {
    var rs := responses.unreadCounts;
    var keyOf := id => LabelKey(id, folderNames, tagsInsteadOfFolders);
    forall i, j | 0 <= i < j < |rs| && keyOf(rs[i].id).Some?
      ensures keyOf(rs[i].id) != keyOf(rs[j].id)
    {
    }
    KeyedCountsDefined(rs, keyOf);
    ToDictionaryDistinct(KeyedEntries(rs, keyOf));
  }

  /** Subscription unread counts: the feed streams, keyed by feed URI. */
  function SubscriptionUnreadCounts(responses: UnreadCountResponses): (r: Result<KeyedUnreadCounts, CallError>)
    ensures r.Ok? ==> r.value.max == responses.max
    ensures r.Ok? ==> forall uri :: uri in r.value.counts <==>
                        exists x :: x in responses.unreadCounts && x.id == StreamId.ForFeed(uri)
    ensures r.Ok? ==> forall x :: x in responses.unreadCounts && x.id.FeedUri().Some?
                                  ==> x.id.FeedUri().value in r.value.counts && r.value.counts[x.id.FeedUri().value] == StateOf(x)
  {
    var keyOf := (id: StreamId) => id.FeedUri();
    var r := KeyedCounts(responses, keyOf);
    assert r.Ok? ==> forall uri :: uri in r.value.counts <==>
                        exists x :: x in responses.unreadCounts && x.id == StreamId.ForFeed(uri) by {
      if r.Ok? {
        forall uri
          ensures uri in r.value.counts <==> exists x :: x in responses.unreadCounts && x.id == StreamId.ForFeed(uri)
        {
          if exists x :: x in responses.unreadCounts && x.id == StreamId.ForFeed(uri) {
            var x :| x in responses.unreadCounts && x.id == StreamId.ForFeed(uri);
            FeedRoundTrip(uri);
          }
        }
      }
    }
    r
  }

  /** Streams listed once give a subscription table. */
  lemma SubscriptionUnreadCountsDefined(responses: UnreadCountResponses)
    requires forall i, j :: 0 <= i < j < |responses.unreadCounts| ==> responses.unreadCounts[i].id != responses.unreadCounts[j].id
    ensures SubscriptionUnreadCounts(responses).Ok?
  {
    var rs := responses.unreadCounts;
    var keyOf := (id: StreamId) => id.FeedUri();
    forall i, j | 0 <= i < j < |rs| && keyOf(rs[i].id).Some?
      ensures keyOf(rs[i].id) != keyOf(rs[j].id)
    {
    }
    KeyedCountsDefined(rs, keyOf);
    ToDictionaryDistinct(KeyedEntries(rs, keyOf));
  }

  /** The first response for a stream, if any. */
  function FirstWith(responses: seq<UnreadCountResponse>, id: StreamId): (r: Option<UnreadCountResponse>)
    ensures r.Some? <==> exists x :: x in responses && x.id == id
  {
    if responses == [] then None
    else
      var init := responses[..|responses| - 1];
      var last := responses[|responses| - 1];
      assert forall x :: x in responses <==> x in init || x == last;
      match FirstWith(init, id)
      case Some(first) => Some(first)
      case None => if last.id == id then Some(last) else None
  }

  /** The response found is for the stream, and no earlier one is. */
  lemma {:induction false} FirstWithIsFirst(responses: seq<UnreadCountResponse>, id: StreamId)
    requires FirstWith(responses, id).Some?
    ensures exists i :: 0 <= i < |responses| && responses[i] == FirstWith(responses, id).value
                        && responses[i].id == id && forall j :: 0 <= j < i ==> responses[j].id != id
    decreases |responses|
  {
    var init := responses[..|responses| - 1];
    var last := responses[|responses| - 1];
    assert forall i :: 0 <= i < |init| ==> init[i] == responses[i];
    if FirstWith(init, id).Some? {
      FirstWithIsFirst(init, id);
    } else {
      assert forall x :: x in init ==> x.id != id;
      assert forall j :: 0 <= j < |init| ==> init[j] in init;
      assert responses[|responses| - 1] == FirstWith(responses, id).value;
    }
  }

  /** Once a prefix has a response for the stream, the rest cannot change
      which one comes first. */
  lemma {:induction false} FirstWithPrefix(responses: seq<UnreadCountResponse>, k: nat, id: StreamId)
    requires k <= |responses|
    requires FirstWith(responses[..k], id).Some?
    ensures FirstWith(responses, id) == FirstWith(responses[..k], id)
    decreases |responses| - k
  {
    if k < |responses| {
      FirstWithPrefix(responses, k + 1, id);
      assert responses[..k + 1][..k] == responses[..k];
    } else {
      assert responses[..k] == responses;
    }
  }

  /** The newsfeed counts: the first reading-list response gives the
      unread count and newest time, the first starred response the starred
      count. A missing one fails, the reading list being looked at first. */
  function NewsfeedCountsOf(responses: UnreadCountResponses): (r: Result<NewsfeedUnreadCounts, CallError>)
    ensures r.Ok? <==> (exists x :: x in responses.unreadCounts && x.id == StreamId.ReadingList)
                       && (exists x :: x in responses.unreadCounts && x.id == StreamId.Starred)
    ensures r.Ok? ==> r.value.max == responses.max
    ensures r.Err? ==> r.error.MissingUnreadCount?
  {
    match (FirstWith(responses.unreadCounts, StreamId.ReadingList), FirstWith(responses.unreadCounts, StreamId.Starred))
    case (None, _) => Err(MissingUnreadCount(StreamId.ReadingList))
    case (_, None) => Err(MissingUnreadCount(StreamId.Starred))
    case (Some(all), Some(starred)) => Ok(NewsfeedUnreadCounts(StateOf(all), starred.count, responses.max))
  }

  /** Scans the responses for the first reading-list and the first starred
      entry, stopping once both are found. */
  method GetNewsfeedUnreadCounts(responses: UnreadCountResponses) returns (r: Result<NewsfeedUnreadCounts, CallError>)
    ensures r == NewsfeedCountsOf(responses)
  {
    var rs := responses.unreadCounts;
    var readingList: Option<UnreadCountResponse> := None;
    var starred: Option<UnreadCountResponse> := None;
    var i := 0;
    while i < |rs|
      invariant 0 <= i <= |rs|
      invariant readingList == FirstWith(rs[..i], StreamId.ReadingList)
      invariant starred == FirstWith(rs[..i], StreamId.Starred)
    {
      var response := rs[i];
      assert rs[..i + 1][..i] == rs[..i];
      if readingList.None? && response.id == StreamId.ReadingList {
        readingList := Some(response);
      } else if starred.None? && response.id == StreamId.Starred {
        starred := Some(response);
      }
      i := i + 1;
      if readingList.Some? && starred.Some? {
        break;
      }
    }
    if readingList.Some? {
      FirstWithPrefix(rs, i, StreamId.ReadingList);
    }
    if starred.Some? {
      FirstWithPrefix(rs, i, StreamId.Starred);
    }
    assert rs[..|rs|] == rs;
    if readingList.None? {
      return Err(MissingUnreadCount(StreamId.ReadingList));
    }
    if starred.None? {
      return Err(MissingUnreadCount(StreamId.Starred));
    }
    r := Ok(NewsfeedUnreadCounts(StateOf(readingList.value), starred.value.count, responses.max));
  }
}

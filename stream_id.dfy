/** Stream identifiers: the text ids Inoreader gives to system states,
    folders and tags (labels) and feeds. */
module StreamIds {
  import opened Wrappers
  import opened Text

  const SystemIdPrefix: string := "user/-/state/com.google"
  const LabelPrefix: string := "user/-/label/"
  const FeedPrefix: string := "feed/"

  /** The two article states a label edit can set or clear. */
  datatype ArticleState = Read | Starred

  /** Why a text could not be read as a stream id. */
  datatype ParseError =
    | UnsupportedPrefix(text: string)   // neither a feed nor a user stream
    | MissingSegment(text: string)      // "user" without two more segments
    | MissingFeedUri(text: string)      // "feed" without the "/" and URI after it

  /** A stream id. Being a datatype, two ids are equal exactly when their
      texts are, which is how the class compares and hashes them. */
  datatype StreamId = StreamId(id: string)
  {
    static const Root: StreamId := StreamId(SystemIdPrefix + "/root")
    static const ReadingList: StreamId := StreamId(SystemIdPrefix + "/reading-list")
    static const Read: StreamId := StreamId(SystemIdPrefix + "/read")
    static const Starred: StreamId := StreamId(SystemIdPrefix + "/starred")
    static const Annotated: StreamId := StreamId(SystemIdPrefix + "/annotated")
    static const Broadcast: StreamId := StreamId(SystemIdPrefix + "/broadcast")
    static const Like: StreamId := StreamId(SystemIdPrefix + "/like")
    static const SavedWebPages: StreamId := StreamId(SystemIdPrefix + "/saved-web-pages")

    static function ForLabel(name: string): StreamId
    {
      StreamId(LabelPrefix + name)
    }

    static function ForTag(tagName: string): StreamId
    {
      ForLabel(tagName)
    }

    static function ForFolder(folderName: string): StreamId
    {
      ForLabel(folderName)
    }

    /** The system stream of an article state; no state gives no stream. */
    static function ForState(state: Option<ArticleState>): (r: Option<StreamId>)
      ensures r.Some? <==> state.Some?
      ensures state == Some(ArticleState.Read) ==> r == Some(StreamId.Read)
      ensures state == Some(ArticleState.Starred) ==> r == Some(StreamId.Starred)
    {
      match state
      case None => None
      case Some(Read) => Some(StreamId.Read)
      case Some(Starred) => Some(StreamId.Starred)
    }

    /** The stream of one feed, given the feed's absolute URI text. */
    static function ForFeed(absoluteUri: string): StreamId
    {
      StreamId(FeedPrefix + absoluteUri)
    }

    /** The URI of a feed stream, null for every other stream. */
    function FeedUri(): (r: Option<string>)
      ensures r.Some? <==> FeedPrefix <= id
      ensures r.Some? ==> id == FeedPrefix + r.value
    {
      if FeedPrefix <= id then Some(id[|FeedPrefix|..]) else None
    }

    /** The folder or tag name of a label stream, null for every other
        stream. */
    function LabelName(): (r: Option<string>)
      ensures r.Some? <==> LabelPrefix <= id
      ensures r.Some? ==> this == ForLabel(r.value)
    {
      if LabelPrefix <= id then Some(id[|LabelPrefix|..]) else None
    }
  }

  /** StreamId.Parse: the id text as the server writes it, with a user
      stream's user number replaced by "-". */
  function Parse(text: string): (r: Result<StreamId, ParseError>)
    ensures FeedPrefix <= text ==> r == Ok(StreamId(text))
    ensures r.Ok? && !(FeedPrefix <= text) ==> "user/" <= text && "user/-/" <= r.value.id
    ensures r.Err? <==> !(FeedPrefix <= text) && (Split(text, '/', 3)[0] != "user" || |Split(text, '/', 3)| < 3)
    ensures r.Ok? && !(FeedPrefix <= text) ==> r.value.id == "user/-/" + Split(text, '/', 3)[2]
    ensures r.Err? ==> r.error.text == text
    ensures r.Err? && r.error.MissingFeedUri? <==> text == "feed"
    ensures r.Err? && r.error.MissingSegment? <==> !(FeedPrefix <= text) && Split(text, '/', 3)[0] == "user" && |Split(text, '/', 3)| < 3
  {
    var segments := Split(text, '/', 3);
    SplitJoin(text, '/', 3);
    JoinHead(segments, '/');
    if FeedPrefix <= text then
      assert FeedPrefix + text[|FeedPrefix|..] == text;
      Ok(StreamId.ForFeed(text[|FeedPrefix|..]))
    else if segments[0] == "feed" then
      Err(MissingFeedUri(text))
    else if segments[0] == "user" then
      if |segments| < 3 then Err(MissingSegment(text))
      else Ok(StreamId("user/-/" + segments[2]))
    else Err(UnsupportedPrefix(text))
  }

  /** The joined text starts with the first part, followed by the
      separator when there are more parts. */
  lemma JoinHead(parts: seq<string>, sep: char)
    requires |parts| >= 1
    ensures parts[0] <= Join(parts, sep)
    ensures |parts| > 1 ==> parts[0] + [sep] <= Join(parts, sep)
  {
    if |parts| > 1 {
      assert Join(parts, sep) == parts[0] + [sep] + Join(parts[1..], sep);
    }
  }

  /** A user stream parses to the same stream of the current user "-",
      whatever user number the server wrote. */
  lemma ParseUserStream(userNumber: string, rest: string)
    requires '/' !in userNumber
    ensures Parse("user/" + userNumber + "/" + rest) == Ok(StreamId("user/-/" + rest))
  {
    var text := "user/" + userNumber + "/" + rest;
    assert text == "user" + ['/'] + (userNumber + ['/'] + rest);
    SplitThree(text, "user", userNumber, rest, '/');
  }

  /** A user id without the segment after the user number fails. */
  lemma ParseShortUser(userNumber: string)
    requires '/' !in userNumber
    ensures Parse("user") == Err(MissingSegment("user"))
    ensures Parse("user/" + userNumber) == Err(MissingSegment("user/" + userNumber))
  {
    var text := "user/" + userNumber;
    assert text == "user" + ['/'] + userNumber;
    SplitCons(text, '/', 3, "user", userNumber);
    assert text[0] == 'u';
  }

  /** An id whose first segment is neither "feed" nor "user" fails,
      whatever follows it. */
  lemma ParseUnsupported(head: string, rest: string)
    requires '/' !in head && head != "feed" && head != "user"
    ensures Parse(head) == Err(UnsupportedPrefix(head))
    ensures Parse(head + "/" + rest) == Err(UnsupportedPrefix(head + "/" + rest))
  {
    var text := head + "/" + rest;
    assert text == head + ['/'] + rest;
    SplitCons(text, '/', 3, head, rest);
    assert Split(head, '/', 3) == [head];
    NotFeed(head, rest);
  }

  /** A separator-free first segment other than "feed" does not start a
      feed id. */
  lemma NotFeed(head: string, rest: string)
    requires '/' !in head && head != "feed"
    ensures !(FeedPrefix <= head) && !(FeedPrefix <= head + "/" + rest)
  {
    var text := head + "/" + rest;
    if |head| >= 5 {
      assert head[4] in head;
      assert text[4] == head[4] != FeedPrefix[4];
    } else if |head| == 4 {
      assert text[..4] == head != FeedPrefix[..4];
    } else {
      assert text[|head|] == '/' != FeedPrefix[|head|];
    }
  }

  /** Parsing is idempotent: the text of a parsed id parses to itself. */
  lemma ParseIdempotent(text: string)
    requires Parse(text).Ok?
    ensures Parse(Parse(text).value.id) == Parse(text)
  {
    var t := Parse(text).value;
    if !(FeedPrefix <= text) {
      var segments := Split(text, '/', 3);
      assert t.id == "user/-/" + segments[2] == "user/" + "-" + "/" + segments[2];
      ParseUserStream("-", segments[2]);
    }
  }

  /** Every label id parses to itself. */
  lemma ParseLabel(name: string)
    ensures Parse(StreamId.ForLabel(name).id) == Ok(StreamId.ForLabel(name))
  {
    assert LabelPrefix + name == "user/" + "-" + "/" + ("label/" + name);
    assert LabelPrefix + name == "user/-/" + ("label/" + name);
    ParseUserStream("-", "label/" + name);
  }

  /** Tags and folders share one id space, and the name of either is read
      back from its id. */
  lemma LabelRoundTrip(name: string)
    ensures StreamId.ForTag(name) == StreamId.ForFolder(name)
    ensures StreamId.ForTag(name).LabelName() == Some(name)
    ensures StreamId.ForTag(name).FeedUri() == None
  {
    assert StreamId.ForTag(name).id[|LabelPrefix|..] == name;
    assert StreamId.ForTag(name).id[0] == 'u';
  }

  /** The URI of a feed is read back from its stream id. */
  lemma FeedRoundTrip(absoluteUri: string)
    ensures StreamId.ForFeed(absoluteUri).FeedUri() == Some(absoluteUri)
    ensures StreamId.ForFeed(absoluteUri).LabelName() == None
  {
    assert StreamId.ForFeed(absoluteUri).id[|FeedPrefix|..] == absoluteUri;
    assert StreamId.ForFeed(absoluteUri).id[0] == 'f';
  }

  /** No stream is both a label and a feed. */
  lemma LabelOrFeed(stream: StreamId)
    ensures stream.LabelName().None? || stream.FeedUri().None?
  {
    if stream.LabelName().Some? {
      assert stream.id[0] == 'u';
    }
  }

  /** The system states are neither labels nor feeds. */
  lemma SystemStreamsAreNotLabels()
    ensures StreamId.Read.LabelName() == None && StreamId.Starred.LabelName() == None
    ensures StreamId.ReadingList.LabelName() == None
    ensures StreamId.Read.FeedUri() == None && StreamId.Starred.FeedUri() == None
  {
    assert StreamId.Read.id[0] == 'u' && StreamId.Starred.id[0] == 'u';
    assert StreamId.Read.id[7] == 's';
    assert StreamId.Starred.id[7] == 's';
    assert StreamId.ReadingList.id[7] == 's';
  }
}

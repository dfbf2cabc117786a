/** The client's request methods that touch its label-name cache. A folder
    or tag the client itself creates, renames or deletes is edited into the
    cache once the request has succeeded, a listing of tag and folder
    states rebuilds the cache, and the calls that need to know which labels
    are folders read the cache first. */
module Clients {
  import opened Wrappers
  import opened StreamIds
  import opened StreamStates
  import opened LabelNameCaches
  import opened Articles
  import opened ClientRequests

  class InoreaderClient {
    const labelNameCache: LabelNameCache

    predicate Valid()
      reads this, labelNameCache
    {
      labelNameCache.Valid()
    }

    constructor (cacheDuration: int)
      ensures Valid() && fresh(labelNameCache)
      ensures labelNameCache.cacheDuration == cacheDuration
      ensures labelNameCache.folderNames.names == {} && labelNameCache.tagNames.names == {}
    {
      labelNameCache := new LabelNameCache(cacheDuration);
    }

    /** The cached folder names. */
    function Folders(): set<string>
      reads this, labelNameCache, labelNameCache.folderNames
    {
      labelNameCache.folderNames.names
    }

    /** The cached tag names. */
    function Tags(): set<string>
      reads this, labelNameCache, labelNameCache.tagNames
    {
      labelNameCache.tagNames.names
    }

    // --------------------------------------------------------- articles

    /** TagArticles: after the edit-tag request succeeds with at least one
        id, the tag is known to the cache. */
    method TagArticles(tag: string, articleIds: seq<string>, outcome: HttpOutcome<()>) returns (c: Call<int>)
      requires Valid()
      modifies labelNameCache.folderNames, labelNameCache.tagNames
      ensures c == MarkArticles(StreamId.ForTag(tag), false, articleIds, outcome)
      ensures Folders() == old(Folders())
      ensures Tags() == if c.result.Ok? && articleIds != [] then old(Tags()) + {tag} else old(Tags())
    {
      c := MarkArticles(StreamId.ForTag(tag), false, articleIds, outcome);
      if c.result.Ok? && c.result.value != 0 {
        labelNameCache.Edit(tag, false, false);
      }
    }

    /** TagArticles with articles: their short ids are sent; an id that does
        not read fails the call before the request and the cache edit. */
    method TagArticleObjects(tag: string, articles: seq<Article>, outcome: HttpOutcome<()>) returns (c: Call<int>)
      requires Valid()
      modifies labelNameCache.folderNames, labelNameCache.tagNames
      ensures c == MarkArticleObjects(StreamId.ForTag(tag), false, LongIds(articles), outcome)
      ensures Folders() == old(Folders())
      ensures Tags() == if c.result.Ok? && articles != [] then old(Tags()) + {tag} else old(Tags())
    {
      c := MarkArticleObjects(StreamId.ForTag(tag), false, LongIds(articles), outcome);
      if c.result.Ok? && c.result.value != 0 {
        labelNameCache.Edit(tag, false, false);
      }
    }

    // ---------------------------------------------------- subscriptions

    /** AddToFolder: after the subscription edit succeeds, the folder is
        known to the cache. */
    method AddToFolder(feedUri: string, folder: string, outcome: HttpOutcome<()>) returns (c: Call<()>)
      requires Valid()
      modifies labelNameCache.folderNames, labelNameCache.tagNames
      ensures c == ModifySubscription(StreamId.ForFeed(feedUri), Edit, None, Some(folder), None, outcome)
      ensures Folders() == if c.result.Ok? then old(Folders()) + {folder} else old(Folders())
      ensures Tags() == old(Tags())
    {
      c := ModifySubscription(StreamId.ForFeed(feedUri), Edit, None, Some(folder), None, outcome);
      if c.result.Ok? {
        labelNameCache.Edit(folder, true, false);
      }
    }

    /** Subscribe with a title and a folder, both optional: the folder, when
        given, is known to the cache once the subscription succeeds. */
    method Subscribe(feedUri: string, title: Option<string>, folder: Option<string>, outcome: HttpOutcome<()>) returns (c: Call<()>)
      requires Valid()
      modifies labelNameCache.folderNames, labelNameCache.tagNames
      ensures c == ModifySubscription(StreamId.ForFeed(feedUri), SubscriptionEditAction.Subscribe, title, folder, None, outcome)
      ensures Folders() == if c.result.Ok? && folder.Some? then old(Folders()) + {folder.value} else old(Folders())
      ensures Tags() == old(Tags())
    {
      c := ModifySubscription(StreamId.ForFeed(feedUri), SubscriptionEditAction.Subscribe, title, folder, None, outcome);
      if c.result.Ok? && folder.Some? {
        labelNameCache.Edit(folder.value, true, false);
      }
    }

    // ---------------------------------------------------------- folders

    /** Folders.Rename: a new name with '/' is refused before anything is
        sent; after a successful rename the old name leaves the cached
        folders and the new one joins them. */
    method RenameFolder(folder: string, newName: string, outcome: HttpOutcome<()>) returns (c: Call<()>)
      requires Valid()
      modifies labelNameCache.folderNames, labelNameCache.tagNames
      ensures '/' in newName ==> c == Call(None, Err(SlashInFolderName(newName)))
      ensures '/' !in newName ==> c == RenameFolderOrTag(StreamId.ForFolder(folder), newName, outcome)
      ensures Folders() == if c.result.Ok? then old(Folders()) - {folder} + {newName} else old(Folders())
      ensures Tags() == old(Tags())
    {
      if '/' in newName {
        return Call(None, Err(SlashInFolderName(newName)));
      }
      c := RenameFolderOrTag(StreamId.ForFolder(folder), newName, outcome);
      if c.result.Ok? {
        labelNameCache.Edit(folder, true, true);
        labelNameCache.Edit(newName, true, false);
      }
    }

    /** Folders.Delete: after a successful delete the name leaves the cached
        folders. */
    method DeleteFolder(folder: string, outcome: HttpOutcome<()>) returns (c: Call<()>)
      requires Valid()
      modifies labelNameCache.folderNames, labelNameCache.tagNames
      ensures c == DeleteFolderOrTag(StreamId.ForFolder(folder), outcome)
      ensures Folders() == if c.result.Ok? then old(Folders()) - {folder} else old(Folders())
      ensures Tags() == old(Tags())
    {
      c := DeleteFolderOrTag(StreamId.ForFolder(folder), outcome);
      if c.result.Ok? {
        labelNameCache.Edit(folder, true, true);
      }
    }

    // ------------------------------------------------------------- tags

    /** Tags.Rename: no check on the new name; after a successful rename the
        old name leaves the cached tags and the new one joins them. */
    method RenameTag(tag: string, newName: string, outcome: HttpOutcome<()>) returns (c: Call<()>)
      requires Valid()
      modifies labelNameCache.folderNames, labelNameCache.tagNames
      ensures c == RenameFolderOrTag(StreamId.ForTag(tag), newName, outcome)
      ensures Folders() == old(Folders())
      ensures Tags() == if c.result.Ok? then old(Tags()) - {tag} + {newName} else old(Tags())
    {
      c := RenameFolderOrTag(StreamId.ForTag(tag), newName, outcome);
      if c.result.Ok? {
        labelNameCache.Edit(tag, false, true);
        labelNameCache.Edit(newName, false, false);
      }
    }

    /** Tags.Delete: after a successful delete the name leaves the cached
        tags. */
    method DeleteTag(tag: string, outcome: HttpOutcome<()>) returns (c: Call<()>)
      requires Valid()
      modifies labelNameCache.folderNames, labelNameCache.tagNames
      ensures c == DeleteFolderOrTag(StreamId.ForTag(tag), outcome)
      ensures Folders() == old(Folders())
      ensures Tags() == if c.result.Ok? then old(Tags()) - {tag} else old(Tags())
    {
      c := DeleteFolderOrTag(StreamId.ForTag(tag), outcome);
      if c.result.Ok? {
        labelNameCache.Edit(tag, false, true);
      }
    }

    // ---------------------------------------------------------- listings

    /** tag/list: a successful listing is handed to the cache, which
        rebuilds itself from it, before it is returned. A label entry
        without a Name fails the call. */
    method ListTagAndFolderStates(outcome: HttpOutcome<seq<StreamState>>, now: int) returns (c: Call<seq<StreamState>>)
      requires Valid()
      modifies labelNameCache`lastRefresh, labelNameCache.folderNames, labelNameCache.tagNames
      ensures c.sent == ClientRequests.ListTagAndFolderStates(outcome).sent
      ensures outcome.Failed? ==> c == ClientRequests.ListTagAndFolderStates(outcome)
                                  && Folders() == old(Folders()) && Tags() == old(Tags())
                                  && labelNameCache.lastRefresh == old(labelNameCache.lastRefresh)
      ensures outcome.Succeeded? ==>
                var states := outcome.value;
                && Folders() == NamesOf(states[..NamedPrefix(states)], false)
                && Tags() == NamesOf(states[..NamedPrefix(states)], true)
                && (c.result.Ok? <==> NamedPrefix(states) == |states|)
                && (c.result.Ok? ==> c.result.value == states)
                && (c.result.Err? ==> c.result.error == UnnamedLabel(states[NamedPrefix(states)]))
                && labelNameCache.lastRefresh == (if c.result.Ok? then Some(now) else old(labelNameCache.lastRefresh))
    {
      c := ClientRequests.ListTagAndFolderStates(outcome);
      if c.result.Ok? {
        var states := c.result.value;
        var ok := labelNameCache.OnTagAndFolderStatesListed(states, now);
        if !ok {
          c := Call(c.sent, Err(UnnamedLabel(states[NamedPrefix(states)])));
        }
      }
    }

    /** Folders.List: the folder entries of a listing. */
    method ListFolders(outcome: HttpOutcome<seq<StreamState>>, now: int) returns (c: Call<seq<StreamState>>)
      requires Valid()
      modifies labelNameCache`lastRefresh, labelNameCache.folderNames, labelNameCache.tagNames
      ensures c.sent == ClientRequests.ListTagAndFolderStates(outcome).sent
      ensures outcome.Failed? ==> c.result == Err(ClientRequests.ListTagAndFolderStates(outcome).result.error)
                                  && Folders() == old(Folders()) && Tags() == old(Tags())
                                  && labelNameCache.lastRefresh == old(labelNameCache.lastRefresh)
      ensures outcome.Succeeded? ==>
                var states := outcome.value;
                && Folders() == NamesOf(states[..NamedPrefix(states)], false)
                && Tags() == NamesOf(states[..NamedPrefix(states)], true)
                && labelNameCache.lastRefresh == (if NamedPrefix(states) == |states| then Some(now) else old(labelNameCache.lastRefresh))
                && (NamedPrefix(states) < |states| ==> c.result == Err(UnnamedLabel(states[NamedPrefix(states)])))
      ensures c.result.Ok? <==> outcome.Succeeded? && NamedPrefix(outcome.value) == |outcome.value|
      ensures c.result.Ok? ==> c.result.value == FolderStates(outcome.value)
      ensures c.result.Ok? ==> forall s :: s in c.result.value ==> s.kind == Folder && Name(s).Some? && Name(s).value in Folders()
    {
      c := ListTagAndFolderStates(outcome, now);
      if c.result.Ok? {
        FoldersCached(c.result.value);
        c := Call(c.sent, Ok(FolderStates(c.result.value)));
      }
    }

    /** Tags.List: the tag entries of a listing, active searches left out. */
    method ListTags(outcome: HttpOutcome<seq<StreamState>>, now: int) returns (c: Call<seq<StreamState>>)
      requires Valid()
      modifies labelNameCache`lastRefresh, labelNameCache.folderNames, labelNameCache.tagNames
      ensures c.sent == ClientRequests.ListTagAndFolderStates(outcome).sent
      ensures outcome.Failed? ==> c.result == Err(ClientRequests.ListTagAndFolderStates(outcome).result.error)
                                  && Folders() == old(Folders()) && Tags() == old(Tags())
                                  && labelNameCache.lastRefresh == old(labelNameCache.lastRefresh)
      ensures outcome.Succeeded? ==>
                var states := outcome.value;
                && Folders() == NamesOf(states[..NamedPrefix(states)], false)
                && Tags() == NamesOf(states[..NamedPrefix(states)], true)
                && labelNameCache.lastRefresh == (if NamedPrefix(states) == |states| then Some(now) else old(labelNameCache.lastRefresh))
                && (NamedPrefix(states) < |states| ==> c.result == Err(UnnamedLabel(states[NamedPrefix(states)])))
      ensures c.result.Ok? <==> outcome.Succeeded? && NamedPrefix(outcome.value) == |outcome.value|
      ensures c.result.Ok? ==> c.result.value == TagStates(outcome.value)
      ensures c.result.Ok? ==> forall s :: s in c.result.value ==> s.kind == Tag && Name(s).Some? && Name(s).value in Tags()
    {
      c := ListTagAndFolderStates(outcome, now);
      if c.result.Ok? {
        TagsCached(c.result.value);
        c := Call(c.sent, Ok(TagStates(c.result.value)));
      }
    }

    // ----------------------------------------------------- unread counts

    /** Folder (tagsInsteadOfFolders false) or tag unread counts: the
        unread counts are fetched, the cached label names are read
        (refreshed from `listing` when stale), and the label streams are
        split by the cached folder names. */
    method GetLabelUnreadCounts(tagsInsteadOfFolders: bool, outcome: HttpOutcome<UnreadCountResponses>,
                                listing: Listing, now: int) returns (c: Call<KeyedUnreadCounts>)
      requires Valid()
      modifies labelNameCache`lastRefresh, labelNameCache.folderNames, labelNameCache.tagNames
      ensures c.sent == GetUnreadCounts(outcome).sent
      ensures outcome.Failed? ==> c.result == Err(GetUnreadCounts(outcome).result.error)
      ensures c.result.Ok? ==> (outcome.Succeeded?
                                && c.result == LabelUnreadCounts(outcome.value, Folders(), tagsInsteadOfFolders))
      ensures var states := ListedStates(listing);
              var named := !old(labelNameCache.IsStale(now)) || NamedPrefix(states) == |states|;
              && (c.result.Ok? <==> outcome.Succeeded? && named && LabelUnreadCounts(outcome.value, Folders(), tagsInsteadOfFolders).Ok?)
              && (outcome.Succeeded? && named ==> c.result == LabelUnreadCounts(outcome.value, Folders(), tagsInsteadOfFolders))
              && (outcome.Succeeded? && !named ==> c.result == Err(UnnamedLabel(states[NamedPrefix(states)])))
      ensures var states := ListedStates(listing);
              old(labelNameCache.IsStale(now)) ==>
                && Folders() == NamesOf(states[..NamedPrefix(states)], false)
                && Tags() == NamesOf(states[..NamedPrefix(states)], true)
                && labelNameCache.lastRefresh == (if NamedPrefix(states) == |states| then Some(now) else old(labelNameCache.lastRefresh))
      ensures !old(labelNameCache.IsStale(now)) ==>
                Folders() == old(Folders()) && Tags() == old(Tags()) && labelNameCache.lastRefresh == old(labelNameCache.lastRefresh)
    {
      var unread := GetUnreadCounts(outcome);
      var labels, fetched := labelNameCache.GetLabelNames(listing, now);
      if unread.result.Err? {
        return Call(unread.sent, Err(unread.result.error));
      }
      if labels.Err? {
        return Call(unread.sent, Err(UnnamedLabel(labels.error)));
      }
      c := Call(unread.sent, LabelUnreadCounts(unread.result.value, labels.value.folders.names, tagsInsteadOfFolders));
    }

    /** The full listing: the articles are fetched, the cached label names
        are read (refreshed from `listing` when stale), and every article's
        folders and tags are set from them. */
    method ListArticlesDetailed(request: Request, message: string, outcome: HttpOutcome<seq<Article>>,
                                listing: Listing, now: int) returns (c: Call<seq<Article>>)
      requires Valid()
      modifies labelNameCache`lastRefresh, labelNameCache.folderNames, labelNameCache.tagNames
      modifies ArticlesOf(outcome)
      ensures c.sent == Some(request)
      ensures c.result.Ok? ==> outcome.Succeeded? && c.result.value == outcome.value
      ensures c.result.Ok? ==> forall a :: a in c.result.value ==>
                                 a.folders == FolderNames(a.categories, Folders())
                                 && a.tags == TagNames(a.categories, Folders())
      ensures outcome.Failed? ==> c == Send(request, outcome, message)
      ensures var states := ListedStates(listing);
              var named := !old(labelNameCache.IsStale(now)) || NamedPrefix(states) == |states|;
              && (c.result.Ok? <==> outcome.Succeeded? && named)
              && (outcome.Succeeded? && !named ==> c.result == Err(UnnamedLabel(states[NamedPrefix(states)])))
      ensures var states := ListedStates(listing);
              old(labelNameCache.IsStale(now)) ==>
                && Folders() == NamesOf(states[..NamedPrefix(states)], false)
                && Tags() == NamesOf(states[..NamedPrefix(states)], true)
                && labelNameCache.lastRefresh == (if NamedPrefix(states) == |states| then Some(now) else old(labelNameCache.lastRefresh))
      ensures !old(labelNameCache.IsStale(now)) ==>
                Folders() == old(Folders()) && Tags() == old(Tags()) && labelNameCache.lastRefresh == old(labelNameCache.lastRefresh)
    {
      c := Send(request, outcome, message);
      var labels, fetched := labelNameCache.GetLabelNames(listing, now);
      if c.result.Err? {
        return;
      }
      if labels.Err? {
        return Call(c.sent, Err(UnnamedLabel(labels.error)));
      }
      var articles := c.result.value;
      var known := labels.value.folders.names;
      ghost var tags, refreshed := Tags(), labelNameCache.lastRefresh;
      var i := 0;
      while i < |articles|
        invariant 0 <= i <= |articles|
        invariant Folders() == known && Tags() == tags && labelNameCache.lastRefresh == refreshed
        invariant forall j :: 0 <= j < i ==> (articles[j].folders == FolderNames(articles[j].categories, known)
                                              && articles[j].tags == TagNames(articles[j].categories, known))
      {
        articles[i].SetCategories(labels.value);
        i := i + 1;
      }
    }
  }

  /** The long ids of articles, in order. */
  function LongIds(articles: seq<Article>): (ids: seq<string>)
    ensures |ids| == |articles|
    ensures forall k :: 0 <= k < |articles| ==> ids[k] == articles[k].longId
  {
    seq(|articles|, k requires 0 <= k < |articles| => articles[k].longId)
  }

  /** The articles a successful listing returns. */
  function ArticlesOf(outcome: HttpOutcome<seq<Article>>): set<Article>
  {
    if outcome.Succeeded? then set a | a in outcome.value else {}
  }

  /** After a complete rebuild, every listed folder's name is cached. */
  lemma FoldersCached(states: seq<StreamState>)
    requires NamedPrefix(states) == |states|
    ensures forall s :: s in FolderStates(states) ==> s.kind == Folder && Name(s).Some? && Name(s).value in NamesOf(states[..NamedPrefix(states)], false)
  {
    forall s | s in FolderStates(states)
      ensures s.kind == Folder && Name(s).Some? && Name(s).value in NamesOf(states, false)
    {
      var i :| 0 <= i < |states| && states[i] == s;
      assert Named(states[i]);
      assert Collects(states[i].kind, false);
      NamesOfMembers(states, false, Name(s).value);
    }
    assert states[..NamedPrefix(states)] == states;
  }

  /** After a complete rebuild, every listed tag's name is cached. */
  lemma TagsCached(states: seq<StreamState>)
    requires NamedPrefix(states) == |states|
    ensures forall s :: s in TagStates(states) ==> s.kind == Tag && Name(s).Some? && Name(s).value in NamesOf(states[..NamedPrefix(states)], true)
  {
    forall s | s in TagStates(states)
      ensures s.kind == Tag && Name(s).Some? && Name(s).value in NamesOf(states, true)
    {
      var i :| 0 <= i < |states| && states[i] == s;
      assert Named(states[i]);
      assert Collects(states[i].kind, true);
      NamesOfMembers(states, true, Name(s).value);
    }
    assert states[..NamedPrefix(states)] == states;
  }
}

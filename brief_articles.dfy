/** Minimal articles: an id, a crawl time and the direct folder and tag
    streams. */
module BriefArticles {
  import opened Wrappers
  import opened StreamIds

  datatype BriefArticle = BriefArticle(id: string, crawlTime: int, directStreamIds: seq<StreamId>)
  {
    /** The short id is the id exactly as the server sent it. */
    function ShortId(): (r: string)
    {
      id
    }

    /** The label names of the direct streams, as a set. A direct stream
        that is not a label contributes None, the null that the source's
        null-forgiving projection lets through. */
    function FoldersAndTags(): set<Option<string>>
    {
      NamesOf(directStreamIds)
    }
  }

  /** The label names of a list of stream ids, as a set. */
  function NamesOf(ids: seq<StreamId>): set<Option<string>>
  {
    set d | d in ids :: d.LabelName()
  }

  /** A name is present exactly when its label stream is one of the direct
      streams; folders and tags are not told apart. */
  lemma NamePresent(a: BriefArticle, name: string)
    ensures Some(name) in a.FoldersAndTags() <==> StreamId.ForLabel(name) in a.directStreamIds
    ensures Some(name) in a.FoldersAndTags() <==> StreamId.ForFolder(name) in a.directStreamIds
    ensures Some(name) in a.FoldersAndTags() <==> StreamId.ForTag(name) in a.directStreamIds
  {
    var l := StreamId.ForLabel(name);
    assert l.LabelName() == Some(name) by {
      assert LabelPrefix <= l.id;
      assert l.id[|LabelPrefix|..] == name;
    }
  }

  /** None is present exactly when some direct stream is not a label. */
  lemma NullPresent(a: BriefArticle)
    ensures None in a.FoldersAndTags() <==> exists d :: d in a.directStreamIds && !(LabelPrefix <= d.id)
  {
    if None in a.FoldersAndTags() {
      var d :| d in a.directStreamIds && d.LabelName() == None;
      assert !(LabelPrefix <= d.id);
    }
  }

  /** Appending a stream id adds its projection. */
  lemma {:induction false} NamesOfSnoc(ids: seq<StreamId>, d: StreamId)
    ensures NamesOf(ids + [d]) == NamesOf(ids) + {d.LabelName()}
  {
    assert forall e :: e in ids + [d] <==> e in ids || e == d;
  }

  /** A repeated direct stream id changes nothing: the result is a set. */
  lemma DuplicatesCollapse(ids: seq<StreamId>, d: StreamId)
    requires d in ids
    ensures NamesOf(ids + [d]) == NamesOf(ids)
  {
    NamesOfSnoc(ids, d);
  }

  /** There are never more names than direct stream ids. */
  lemma {:induction false} NamesBounded(ids: seq<StreamId>)
    ensures |NamesOf(ids)| <= |ids|
  {
    if ids != [] {
      var init := ids[..|ids| - 1];
      assert ids == init + [ids[|ids| - 1]];
      NamesOfSnoc(init, ids[|ids| - 1]);
      NamesBounded(init);
    }
  }
}

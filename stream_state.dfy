/** Entries of the tag and folder listing: a stream id and the record type
    chosen by the entry's "type" discriminator. */
module StreamStates {
  import opened Wrappers
  import opened Text
  import opened StreamIds

  /** The record type of an entry: a plain StreamState when the entry has
      no discriminator, FolderState for "folder", TagState for "tag" and
      ActiveSearchState, a kind of TagState, for "active_search". */
  datatype StateKind = Plain | Folder | Tag | ActiveSearch
  {
    /** A FolderState or a TagState, so the entry has a Name. */
    predicate IsLabelState()
    {
      this != Plain
    }

    /** An instance of TagState, which includes ActiveSearchState. */
    predicate IsTagState()
    {
      this == Tag || this == ActiveSearch
    }
  }

  datatype StreamState = StreamState(id: StreamId, kind: StateKind)

  /** The record type for a discriminator value; an unknown value is a
      deserialization error. */
  function KindOf(discriminator: Option<string>): (r: Option<StateKind>)
    ensures discriminator.None? ==> r == Some(Plain)
    ensures r == Some(Folder) <==> discriminator == Some("folder")
    ensures r == Some(Tag) <==> discriminator == Some("tag")
    ensures r == Some(ActiveSearch) <==> discriminator == Some("active_search")
    ensures r == Some(Plain) <==> discriminator.None?
  {
    match discriminator
    case None => Some(Plain)
    case Some(t) =>
      if t == "tag" then Some(Tag)
      else if t == "folder" then Some(Folder)
      else if t == "active_search" then Some(ActiveSearch)
      else None
  }

  /** LabelState.Name: the fourth "/"-separated part of the id, which fails
      (an index out of range) when the id has fewer than three "/". */
  function Name(state: StreamState): (r: Option<string>)
    requires state.kind.IsLabelState()
    ensures r.Some? <==> multiset(state.id.id)['/'] >= 3
    ensures r.Some? ==> |r.value| <= |state.id.id|
    ensures r.Some? ==> state.id.id[|state.id.id| - |r.value|..] == r.value
  {
    var parts := Split(state.id.id, '/', 4);
    SplitLength(state.id.id, '/', 4);
    if |parts| == 4 then
      SplitJoin(state.id.id, '/', 4);
      JoinTail(parts, '/');
      Some(parts[3])
    else None
  }

  /** The last part of a join is a suffix of the joined text. */
  lemma {:induction false} JoinTail(parts: seq<string>, sep: char)
    requires |parts| >= 1
    ensures |parts[|parts| - 1]| <= |Join(parts, sep)|
    ensures Join(parts, sep)[|Join(parts, sep)| - |parts[|parts| - 1]|..] == parts[|parts| - 1]
  {
    if |parts| > 1 {
      JoinTail(parts[1..], sep);
      var j := Join(parts, sep);
      var rest := Join(parts[1..], sep);
      assert j == parts[0] + [sep] + rest;
      assert j[|j| - |rest|..] == rest;
    }
  }

  /** The Name of an entry is everything after the third "/" of its id,
      "/" included. */
  lemma NameAfterThirdSlash(state: StreamState, p0: string, p1: string, p2: string, rest: string)
    requires state.kind.IsLabelState()
    requires '/' !in p0 && '/' !in p1 && '/' !in p2
    requires state.id.id == p0 + "/" + p1 + "/" + p2 + "/" + rest
    ensures Name(state) == Some(rest)
  {
    assert state.id.id == p0 + ['/'] + (p1 + ['/'] + (p2 + ['/'] + rest));
    SplitFour(state.id.id, p0, p1, p2, rest, '/');
  }

  /** A label id falls apart into "user", "-", "label" and the name. */
  lemma SplitLabelId(name: string)
    ensures Split(LabelPrefix + name, '/', 4) == ["user", "-", "label", name]
  {
    SplitFour(LabelPrefix + name, "user", "-", "label", name, '/');
  }

  /** The Name of a label entry is the label name of its id. */
  lemma NameOfLabel(state: StreamState, name: string)
    requires state.kind.IsLabelState() && state.id == StreamId.ForLabel(name)
    ensures Name(state) == Some(name) == state.id.LabelName()
  {
    SplitLabelId(name);
    LabelRoundTrip(name);
  }
}

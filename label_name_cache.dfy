/** The client's cache of folder and tag names, which decides whether a
    label on an article is a folder or a tag. It is rebuilt from a listing
    of tag and folder states when it is older than its time to live, or
    whenever such a listing is fetched, and edited in place when the
    client itself creates, renames or deletes a label. */
module LabelNameCaches {
  import opened Wrappers
  import opened StreamIds
  import opened StreamStates

  /** A mutable set of names (the HashSet the cache owns). */
  class NameSet {
    var names: set<string>

    constructor ()
      ensures names == {}
    {
      names := {};
    }

    method Clear()
      modifies this
      ensures names == {}
    {
      names := {};
    }

    method Add(name: string)
      modifies this
      ensures names == old(names) + {name}
    {
      names := names + {name};
    }

    method Remove(name: string)
      modifies this
      ensures names == old(names) - {name}
    {
      names := names - {name};
    }
  }

  /** The folder and tag sets handed to callers: the cache's own sets, so
      later edits and rebuilds show through them. */
  datatype Labels = Labels(folders: NameSet, tags: NameSet)

  /** The outcome of listing the tag and folder states: the entries, or an
      InoreaderException, which the cache reads as an empty listing. */
  datatype Listing = Listed(states: seq<StreamState>) | ListingFailed

  function ListedStates(listing: Listing): (states: seq<StreamState>)
    ensures listing.ListingFailed? ==> states == []
  {
    if listing.Listed? then listing.states else []
  }

  /** Whether an entry is collected into the tag names (`tags`) or into the
      folder names (not `tags`): FolderState entries are folders, every
      TagState, active searches included, is a tag, and plain entries are
      neither. */
  predicate Collects(kind: StateKind, tags: bool)
  {
    if tags then kind.IsTagState() else kind == Folder
  }

  /** The entry can be collected: it is not a label, or its Name exists. */
  predicate Named(state: StreamState)
  {
    state.kind.IsLabelState() ==> Name(state).Some?
  }

  /** The name one entry adds to the tag or folder set, if any. */
  function Contribution(state: StreamState, tags: bool): (r: set<string>)
    ensures forall name :: name in r <==> Collects(state.kind, tags) && Name(state) == Some(name)
  {
    if Collects(state.kind, tags) && Name(state).Some? then {Name(state).value} else {}
  }

  /** The names a rebuild collects from the entries. */
  function NamesOf(states: seq<StreamState>, tags: bool): set<string>
  {
    if states == [] then {}
    else NamesOf(states[..|states| - 1], tags) + Contribution(states[|states| - 1], tags)
  }

  /** A name is collected exactly when some entry of the right type has it. */
  lemma {:induction false} NamesOfMembers(states: seq<StreamState>, tags: bool, name: string)
    ensures name in NamesOf(states, tags) <==>
              exists i :: 0 <= i < |states| && Collects(states[i].kind, tags) && Name(states[i]) == Some(name)
  {
    if states != [] {
      var init := states[..|states| - 1];
      NamesOfMembers(init, tags, name);
      if name in NamesOf(states, tags) {
        if name in NamesOf(init, tags) {
          var i :| 0 <= i < |init| && Collects(init[i].kind, tags) && Name(init[i]) == Some(name);
          assert states[i] == init[i];
        }
      } else {
        forall i | 0 <= i < |states| && Collects(states[i].kind, tags)
          ensures Name(states[i]) != Some(name)
        {
          if i < |init| {
            assert states[i] == init[i];
          }
        }
      }
    }
  }

  /** Entries that are not labels contribute to neither set. */
  lemma PlainEntriesIgnored(states: seq<StreamState>, plain: StreamState, tags: bool)
    requires plain.kind == Plain
    ensures NamesOf(states + [plain], tags) == NamesOf(states, tags)
  {
    assert (states + [plain])[..|states|] == states;
  }

  /** One more entry adds at most its own name. */
  lemma NamesOfSnoc(states: seq<StreamState>, i: nat, tags: bool)
    requires i < |states|
    ensures NamesOf(states[..i + 1], tags) == NamesOf(states[..i], tags) + Contribution(states[i], tags)
  {
    assert states[..i + 1][..i] == states[..i];
  }

  /** The number of leading entries a rebuild gets through: the index of the
      first label entry whose Name fails, or all of them. */
  function NamedPrefix(states: seq<StreamState>): (k: nat)
    ensures k <= |states|
    ensures forall j :: 0 <= j < k ==> Named(states[j])
    ensures k < |states| ==> !Named(states[k])
  {
    if states == [] then 0
    else if !Named(states[0]) then 0
    else 1 + NamedPrefix(states[1..])
  }

  /** The rebuild stops at the first entry that cannot be named. */
  lemma NamedPrefixAt(states: seq<StreamState>, i: nat)
    requires i <= |states|
    requires forall j :: 0 <= j < i ==> Named(states[j])
    requires i < |states| ==> !Named(states[i])
    ensures NamedPrefix(states) == i
  {
  }

  /** The set a label edit leaves: the name added, or removed. */
  function Edited(names: set<string>, name: string, remove: bool): (r: set<string>)
    ensures name in r <==> !remove
    ensures forall other :: other != name ==> (other in r <==> other in names)
  {
    if remove then names - {name} else names + {name}
  }

  /** The latest edit of a name wins, so repeating an edit changes nothing. */
  lemma EditLastWins(names: set<string>, name: string, first: bool, second: bool)
    ensures Edited(Edited(names, name, first), name, second) == Edited(names, name, second)
  {
  }

  class LabelNameCache {
    /** The time to live, in ticks. */
    const cacheDuration: int
    const folderNames: NameSet
    const tagNames: NameSet
    /** When the freshness stopwatch was last restarted; None while it has
        never run. */
    var lastRefresh: Option<int>

    /** The two sets are distinct objects. */
    predicate Valid()
      reads this
    {
      folderNames != tagNames
    }

    constructor (cacheDuration: int)
      ensures Valid() && fresh(folderNames) && fresh(tagNames)
      ensures this.cacheDuration == cacheDuration
      ensures folderNames.names == {} && tagNames.names == {} && lastRefresh == None
      ensures forall now :: IsStale(now)
    {
      this.cacheDuration := cacheDuration;
      folderNames := new NameSet();
      tagNames := new NameSet();
      lastRefresh := None;
    }

    /** The stopwatch is not running, or more than the time to live has
        elapsed on it. */
    predicate IsStale(now: int)
      reads this
    {
      lastRefresh.None? || now - lastRefresh.value > cacheDuration
    }

    /** Clears both sets and refills them from the entries, then restarts the
        stopwatch. A label entry whose Name fails stops the rebuild with the
        entries before it collected and the stopwatch untouched. */
    method OnTagAndFolderStatesListedUnsynchronized(states: seq<StreamState>, now: int) returns (ok: bool)
      requires Valid()
      modifies this`lastRefresh, folderNames, tagNames
      ensures ok == (NamedPrefix(states) == |states|)
      ensures folderNames.names == NamesOf(states[..NamedPrefix(states)], false)
      ensures tagNames.names == NamesOf(states[..NamedPrefix(states)], true)
      ensures lastRefresh == if ok then Some(now) else old(lastRefresh)
    {
      assert folderNames != tagNames;
      folderNames.Clear();
      tagNames.Clear();
      var i := 0;
      while i < |states|
        invariant 0 <= i <= |states|
        invariant forall j :: 0 <= j < i ==> Named(states[j])
        invariant folderNames.names == NamesOf(states[..i], false)
        invariant tagNames.names == NamesOf(states[..i], true)
        invariant lastRefresh == old(lastRefresh)
      {
        var state := states[i];
        if !Named(state) {
          NamedPrefixAt(states, i);
          return false;
        }
        NamesOfSnoc(states, i, false);
        NamesOfSnoc(states, i, true);
        Collect(state);
        i := i + 1;
      }
      assert states[..i] == states;
      NamedPrefixAt(states, i);
      lastRefresh := Some(now);
      return true;
    }

    /** Adds a named entry's name to the set its type selects. */
    method Collect(state: StreamState)
      requires Valid() && Named(state)
      modifies folderNames, tagNames
      ensures folderNames.names == old(folderNames.names) + Contribution(state, false)
      ensures tagNames.names == old(tagNames.names) + Contribution(state, true)
    {
      if state.kind.IsLabelState() {
        var name := Name(state).value;
        if state.kind == Folder {
          folderNames.Add(name);
        } else {
          tagNames.Add(name);
        }
      }
    }

    /** The listing pushed after any call that lists tag and folder states:
        the same rebuild as a pull. */
    method OnTagAndFolderStatesListed(states: seq<StreamState>, now: int) returns (ok: bool)
      requires Valid()
      modifies this`lastRefresh, folderNames, tagNames
      ensures ok == (NamedPrefix(states) == |states|)
      ensures folderNames.names == NamesOf(states[..NamedPrefix(states)], false)
      ensures tagNames.names == NamesOf(states[..NamedPrefix(states)], true)
      ensures lastRefresh == if ok then Some(now) else old(lastRefresh)
    {
      ok := OnTagAndFolderStatesListedUnsynchronized(states, now);
    }

    /** The current folder and tag names. While the cache is fresh nothing is
        fetched; when it is stale the listing is fetched and the cache rebuilt
        from it, a failed listing counting as an empty one. A label entry
        without a Name fails the call. */
    method GetLabelNames(listing: Listing, now: int) returns (r: Result<Labels, StreamState>, fetched: bool)
      requires Valid()
      modifies this`lastRefresh, folderNames, tagNames
      ensures fetched == old(IsStale(now))
      ensures !fetched ==> folderNames.names == old(folderNames.names) && tagNames.names == old(tagNames.names)
                           && lastRefresh == old(lastRefresh)
      ensures fetched ==>
                var states := ListedStates(listing);
                && folderNames.names == NamesOf(states[..NamedPrefix(states)], false)
                && tagNames.names == NamesOf(states[..NamedPrefix(states)], true)
                && lastRefresh == (if NamedPrefix(states) == |states| then Some(now) else old(lastRefresh))
                && (NamedPrefix(states) < |states| ==> r == Err(states[NamedPrefix(states)]))
      ensures r.Ok? <==> !fetched || NamedPrefix(ListedStates(listing)) == |ListedStates(listing)|
      ensures r.Ok? ==> r.value == Labels(folderNames, tagNames)
      ensures r.Ok? && cacheDuration >= 0 ==> !IsStale(now)
    {
      fetched := IsStale(now);
      if fetched {
        var states := ListedStates(listing);
        var ok := OnTagAndFolderStatesListedUnsynchronized(states, now);
        if !ok {
          return Err(states[NamedPrefix(states)]), fetched;
        }
      }
      r := Ok(Labels(folderNames, tagNames));
    }

    /** Adds a label name to, or removes it from, the folder names or the
        tag names; the other set and the stopwatch are left alone. */
    method Edit(labelName: string, isFolder: bool, remove: bool)
      requires Valid()
      modifies folderNames, tagNames
      ensures folderNames.names == if isFolder then Edited(old(folderNames.names), labelName, remove) else old(folderNames.names)
      ensures tagNames.names == if isFolder then old(tagNames.names) else Edited(old(tagNames.names), labelName, remove)
    {
      var labels := if isFolder then folderNames else tagNames;
      if remove {
        labels.Remove(labelName);
      } else {
        labels.Add(labelName);
      }
    }
  }
}

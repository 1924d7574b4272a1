/**
 * The playlist-associations page: every playlist file in the playlist
 * directory gets an entry, and the two parallel setting lists (playlist
 * names and the cores associated with them) are updated so that each
 * playlist's name is mapped to its current core, appending the name when it
 * is new.
 */
module MenuPlaylist {
  import opened Common
  import opened MenuList

  /** The two parallel lists: `cores[i]` is the core associated with `names[i]`. */
  datatype Associations = Associations(names: seq<string>, cores: seq<string>)

  /** The lists are aligned far enough for every name to have a core slot. */
  predicate Aligned(a: Associations)
  {
    |a.names| <= |a.cores|
  }

  /**
   * `string_list_find_elem`: the 1-based position of the first element equal
   * to `key`, or 0 when there is none.
   */
  function FindElem(names: seq<string>, key: string): (r: nat)
    ensures r == 0 <==> key !in names
    ensures r != 0 ==> r <= |names| && names[r - 1] == key && forall j :: 0 <= j < r - 1 ==> names[j] != key
  {
    if names == [] then 0
    else if names[0] == key then 1
    else
      var r := FindElem(names[1..], key);
      if r == 0 then 0 else r + 1
  }

  /** The core `key` is associated with, if its name is on the list. */
  function Lookup(a: Associations, key: string): Option<string>
    requires Aligned(a)
  {
    var f := FindElem(a.names, key);
    if f == 0 then None else Some(a.cores[f - 1])
  }

  /**
   * One update of the loop: a name already on the list gets its core
   * replaced in place; a new name and its core are appended to their lists.
   */
  function Upsert(a: Associations, key: string, core: string): Associations
    requires Aligned(a)
  {
    var found := FindElem(a.names, key);
    if found != 0 then Associations(a.names, a.cores[found - 1 := core])
    else Associations(a.names + [key], a.cores + [core])
  }

  /** The updates of a sequence of (name, core) pairs, in order. */
  function UpsertAll(a: Associations, pairs: seq<(string, string)>): (r: Associations)
    requires Aligned(a)
    ensures Aligned(r)
  {
    if pairs == [] then a
    else
      var prev := UpsertAll(a, pairs[..|pairs| - 1]);
      UpsertPreservesAlignment(prev, pairs[|pairs| - 1].0, pairs[|pairs| - 1].1);
      Upsert(prev, pairs[|pairs| - 1].0, pairs[|pairs| - 1].1)
  }

  /** The name a playlist file is filed under and the core it gets: its associated one, or `detect`. */
  function PairOf(path: string, basename: string -> string, associatedCore: string -> Option<string>, detect: string): (string, string)
  {
    var name := basename(path);
    (name, match associatedCore(name) case Some(c) => c case None => detect)
  }

  function Pairs(paths: seq<string>, basename: string -> string, associatedCore: string -> Option<string>, detect: string): (r: seq<(string, string)>)
    ensures |r| == |paths|
  {
    seq(|paths|, i requires 0 <= i < |paths| => PairOf(paths[i], basename, associatedCore, detect))
  }

  /** The entries of the page: the playlist's name without extension, labelled with its full path, typed by position. */
  function PlaylistEntries(paths: seq<string>, basename: string -> string, stripExtension: string -> string, start: nat): (r: seq<MenuEntry>)
    ensures |r| == |paths|
  {
    seq(|paths|, i requires 0 <= i < |paths| => TextEntry(stripExtension(basename(paths[i])), paths[i], start + i))
  }

  /**
   * `menu_displaylist_parse_playlist_associations`: one entry per playlist
   * file, and the name/core lists updated for each file in directory order.
   * With no playlist files, nothing changes.
   */
  method ParsePlaylistAssociations(list: Menu, paths: seq<string>, lists: Associations,
                                   basename: string -> string, stripExtension: string -> string,
                                   associatedCore: string -> Option<string>, detect: string, start: nat)
    returns (updated: Associations)
    requires Aligned(lists)
    modifies list
    ensures updated == UpsertAll(lists, Pairs(paths, basename, associatedCore, detect))
    ensures list.entries == old(list.entries) + PlaylistEntries(paths, basename, stripExtension, start)
  {
    var names, cores := lists.names, lists.cores;
    ghost var pairs := Pairs(paths, basename, associatedCore, detect);
    var i := 0;
    while i < |paths|
      invariant i <= |paths|
      invariant Associations(names, cores) == UpsertAll(lists, pairs[..i])
      invariant list.entries == old(list.entries) + PlaylistEntries(paths[..i], basename, stripExtension, start)
    {
      var path := basename(paths[i]);
      var corePath := match associatedCore(path) case Some(c) => c case None => detect;
      var found := FindElem(names, path);
      ghost var before := Associations(names, cores);
      assert pairs[i] == (path, corePath);
      UpsertAllStep(lists, pairs, i);
      PlaylistEntriesStep(old(list.entries), list.entries, paths, basename, stripExtension, start, i);
      if found != 0 {
        cores := cores[found - 1 := corePath];
      } else {
        names := names + [path];
        cores := cores + [corePath];
      }
      assert Associations(names, cores) == Upsert(before, path, corePath);
      list.Add(TextEntry(stripExtension(path), paths[i], start + i));
      i := i + 1;
    }
    assert pairs[..|paths|] == pairs;
    assert paths[..|paths|] == paths;
    updated := Associations(names, cores);
  }

  /** One step of the loop over the pairs. */
  lemma UpsertAllStep(a: Associations, pairs: seq<(string, string)>, i: nat)
    requires Aligned(a) && i < |pairs|
    ensures UpsertAll(a, pairs[..i + 1]) == Upsert(UpsertAll(a, pairs[..i]), pairs[i].0, pairs[i].1)
  {
    assert pairs[..i + 1][..i] == pairs[..i];
  }

  /** One step of the loop over the entries. */
  lemma PlaylistEntriesStep(base: seq<MenuEntry>, entries: seq<MenuEntry>, paths: seq<string>,
                            basename: string -> string, stripExtension: string -> string, start: nat, i: nat)
    requires i < |paths|
    requires entries == base + PlaylistEntries(paths[..i], basename, stripExtension, start)
    ensures entries + [TextEntry(stripExtension(basename(paths[i])), paths[i], start + i)] ==
      base + PlaylistEntries(paths[..i + 1], basename, stripExtension, start)
  {
    var e := PlaylistEntries(paths[..i], basename, stripExtension, start);
    var e' := PlaylistEntries(paths[..i + 1], basename, stripExtension, start);
    assert e' == e + [TextEntry(stripExtension(basename(paths[i])), paths[i], start + i)];
  }

  // ---------------------------------------------------------------------
  // Properties of the update
  // ---------------------------------------------------------------------

  /** Aligned lists stay aligned; equal-length lists stay equal length; a list grows by at most one name. */
  lemma UpsertPreservesAlignment(a: Associations, key: string, core: string)
    requires Aligned(a)
    ensures Aligned(Upsert(a, key, core))
    ensures |a.names| == |a.cores| ==> |Upsert(a, key, core).names| == |Upsert(a, key, core).cores|
    ensures |Upsert(a, key, core).names| - |a.names| == if key in a.names then 0 else 1
  {
  }

  /** Reading back after an update: the updated name gives the new core, every other name what it gave before. */
  lemma {:induction false} UpsertLookup(a: Associations, key: string, core: string, other: string)
    requires |a.names| == |a.cores|
    ensures Lookup(Upsert(a, key, core), key) == Some(core)
    ensures other != key ==> Lookup(Upsert(a, key, core), other) == Lookup(a, other)
  {
    var found := FindElem(a.names, key);
    var b := Upsert(a, key, core);
    if found == 0 {
      FindElemAppend(a.names, key, key);
      FindElemAppend(a.names, key, other);
    } else {
      var g := FindElem(a.names, other);
      if other != key && g != 0 {
        assert g != found;
      }
    }
  }

  /** Appending a name leaves the positions of the names already on the list alone. */
  lemma {:induction false} FindElemAppend(names: seq<string>, key: string, other: string)
    requires key !in names
    ensures FindElem(names + [key], key) == |names| + 1
    ensures other != key ==> FindElem(names + [key], other) == FindElem(names, other)
  {
    if names != [] {
      assert (names + [key])[1..] == names[1..] + [key];
      FindElemAppend(names[1..], key, other);
    }
  }

  /** Updating twice with the same name and core is the same as updating once. */
  lemma UpsertIdempotent(a: Associations, key: string, core: string)
    requires |a.names| == |a.cores|
    ensures Upsert(Upsert(a, key, core), key, core) == Upsert(a, key, core)
  {
    var found := FindElem(a.names, key);
    if found == 0 {
      FindElemAppend(a.names, key, key);
    }
  }

  /** The core the last pair naming `key` carries, if any pair does. */
  function LastCore(pairs: seq<(string, string)>, key: string): Option<string>
  {
    if pairs == [] then None
    else if pairs[|pairs| - 1].0 == key then Some(pairs[|pairs| - 1].1)
    else LastCore(pairs[..|pairs| - 1], key)
  }

  /**
   * After all updates, a name gets the core of the last file filed under it;
   * a name no file is filed under keeps its old core.
   */
  lemma {:induction false} UpsertAllLookup(a: Associations, pairs: seq<(string, string)>, key: string)
    requires |a.names| == |a.cores|
    ensures Lookup(UpsertAll(a, pairs), key) == match LastCore(pairs, key) case Some(c) => Some(c) case None => Lookup(a, key)
  {
    if pairs != [] {
      var init := pairs[..|pairs| - 1];
      var (k, c) := pairs[|pairs| - 1];
      UpsertAllLookup(a, init, key);
      UpsertAllSameLength(a, init);
      UpsertLookup(UpsertAll(a, init), k, c, key);
    }
  }

  /** Equal-length lists on entry stay equal length through all the updates. */
  lemma {:induction false} UpsertAllSameLength(a: Associations, pairs: seq<(string, string)>)
    requires |a.names| == |a.cores|
    ensures |UpsertAll(a, pairs).names| == |UpsertAll(a, pairs).cores|
  {
    if pairs != [] {
      var init := pairs[..|pairs| - 1];
      UpsertAllSameLength(a, init);
      UpsertPreservesAlignment(UpsertAll(a, init), pairs[|pairs| - 1].0, pairs[|pairs| - 1].1);
    }
  }
}

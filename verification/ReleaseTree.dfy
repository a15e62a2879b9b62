/**
 The directory tree of a release as a value, what is found in it by name, and
 where its files and folders are. Ownership, access lists and extended attributes
 are one flag per node.
 */
module ReleaseTree {
  import opened Bytes
  import opened Paths
  import opened Extraction

  /** `mode` is the low twelve bits; `trusted`: owner, group, access list and attributes are the expected ones. */
  datatype Meta = Meta(mode: nat, links: nat, trusted: bool)

  datatype Tree =
    | Dir(meta: Meta, entries: seq<Named>)
    | Plain(meta: Meta, content: seq<byte>)
    | Link
    | Special

  datatype Named = Named(name: seq<byte>, node: Tree)

  /** What a file system guarantees: names are unique, usable and not too long. */
  predicate WellFormed(entries: seq<Named>)
    decreases entries
  {
    && (forall i, j :: 0 <= i < j < |entries| ==> entries[i].name != entries[j].name)
    && (forall i :: 0 <= i < |entries| ==> |entries[i].name| <= NAME_MAX)
    && (forall i :: 0 <= i < |entries| ==> entries[i].node.Dir? ==> WellFormed(entries[i].node.entries))
  }

  /** The entry called `name`, if there is one. */
  function Lookup(entries: seq<Named>, name: seq<byte>): (node: Option<Tree>)
    ensures node.Some? ==> Named(name, node.value) in entries
    ensures node == None ==> forall i :: 0 <= i < |entries| ==> entries[i].name != name
  {
    if entries == [] then None
    else if entries[0].name == name then Some(entries[0].node)
    else Lookup(entries[1..], name)
  }

  /** What opening `place` name by name, following no link, arrives at. */
  function Find(entries: seq<Named>, place: Place): Option<Tree>
    decreases |place|
  {
    if place == [] then None
    else
      var node := Lookup(entries, place[0]);
      if node == None || |place| == 1 then node
      else if node.value.Dir? then Find(node.value.entries, place[1..]) else None
  }

  predicate OfKind(node: Tree, folders: bool) {
    if folders then node.Dir? else node.Plain?
  }

  /** How many folders, or how many files, lie below. */
  function Count(entries: seq<Named>, folders: bool): nat
    decreases entries
  {
    if entries == [] then 0
    else
      var node := entries[0].node;
      (if OfKind(node, folders) then 1 else 0)
      + (if node.Dir? then Count(node.entries, folders) else 0)
      + Count(entries[1..], folders)
  }

  function Under(name: seq<byte>, places: set<Place>): set<Place> {
    set q | q in places :: [name] + q
  }

  /** Where the folders, or the files, below are. */
  function PlacesOf(entries: seq<Named>, folders: bool): set<Place>
    decreases entries
  {
    if entries == [] then {}
    else
      var Named(name, node) := entries[0];
      (if OfKind(node, folders) then {[name]} else {})
      + (if node.Dir? then Under(name, PlacesOf(node.entries, folders)) else {})
      + PlacesOf(entries[1..], folders)
  }

  lemma LookupIsUnique(entries: seq<Named>, i: nat)
    requires WellFormed(entries) && i < |entries|
    ensures Lookup(entries, entries[i].name) == Some(entries[i].node)
  {
  }

  lemma TailIsWellFormed(entries: seq<Named>)
    requires WellFormed(entries) && entries != []
    ensures WellFormed(entries[1..])
    ensures forall e :: e in entries[1..] ==> e.name != entries[0].name
  {
  }

  /** The recursive collection and opening by name agree. */
  lemma {:induction false} PlacesAreFound(entries: seq<Named>, folders: bool, q: Place)
    requires WellFormed(entries)
    ensures q in PlacesOf(entries, folders) <==> Find(entries, q).Some? && OfKind(Find(entries, q).value, folders)
    decreases entries
  {
    if entries == [] {
    } else {
      var Named(name, node) := entries[0];
      var tail := entries[1..];
      TailIsWellFormed(entries);
      PlacesAreFound(tail, folders, q);
      if q != [] && q[0] == name {
        assert Lookup(tail, name) == None;
        assert Find(tail, q) == None;
        assert |q| == 1 ==> q == [name];
      } else {
        assert q != [] ==> Lookup(entries, q[0]) == Lookup(tail, q[0]);
        assert Find(entries, q) == Find(tail, q);
      }
      if node.Dir? {
        UnderIsBelow(name, PlacesOf(node.entries, folders), q);
        PlacesAreFound(node.entries, folders, if q == [] then [] else q[1..]);
      }
    }
  }

  lemma UnderIsBelow(name: seq<byte>, places: set<Place>, q: Place)
    ensures q in Under(name, places) <==> q != [] && q[0] == name && q[1..] in places
  {
    if q != [] && q[0] == name && q[1..] in places {
      assert q == [name] + q[1..];
    }
    forall r | r in places
      ensures ([name] + r)[1..] == r
    {
    }
  }

  lemma {:induction false} UnderKeepsSize(name: seq<byte>, places: set<Place>)
    ensures |Under(name, places)| == |places|
  {
    if places != {} {
      var q :| q in places;
      var rest := places - {q};
      UnderKeepsSize(name, rest);
      assert Under(name, places) == Under(name, rest) + {[name] + q};
      UnderIsBelow(name, rest, [name] + q);
      assert ([name] + q)[1..] == q;
    }
  }

  lemma DisjointSizes<T>(a: set<T>, b: set<T>)
    requires a !! b
    ensures |a + b| == |a| + |b|
  {
  }

  /** Counting visits every place once. */
  lemma {:induction false} CountIsPlaces(entries: seq<Named>, folders: bool)
    requires WellFormed(entries)
    ensures Count(entries, folders) == |PlacesOf(entries, folders)|
    decreases entries
  {
    hide WellFormed, Find, Lookup;
    if entries == [] {
    } else {
      var Named(name, node) := entries[0];
      var tail := entries[1..];
      TailIsWellFormed(entries);
      CountIsPlaces(tail, folders);
      var own := if OfKind(node, folders) then {[name]} else {};
      var below := if node.Dir? then Under(name, PlacesOf(node.entries, folders)) else {};
      var rest := PlacesOf(tail, folders);
      FirstIsApart(entries, folders);
      if node.Dir? {
        ChildIsWellFormed(entries, 0);
        CountIsPlaces(node.entries, folders);
        UnderKeepsSize(name, PlacesOf(node.entries, folders));
      }
      DisjointSizes(own, below);
      DisjointSizes(own + below, rest);
    }
  }

  lemma ChildIsWellFormed(entries: seq<Named>, i: nat)
    requires WellFormed(entries) && i < |entries| && entries[i].node.Dir?
    ensures WellFormed(entries[i].node.entries)
  {
  }

  lemma FirstIsApart(entries: seq<Named>, folders: bool)
    requires WellFormed(entries) && entries != []
    ensures var Named(name, node) := entries[0];
            var own := if OfKind(node, folders) then {[name]} else {};
            var below := if node.Dir? then Under(name, PlacesOf(node.entries, folders)) else {};
            own !! below && (own + below) !! PlacesOf(entries[1..], folders)
  {
    var Named(name, node) := entries[0];
    TailIsWellFormed(entries);
    forall q | q in PlacesOf(entries[1..], folders)
      ensures q != [] && q[0] != name
    {
      PlacesAreFound(entries[1..], folders, q);
      assert Lookup(entries[1..], q[0]).Some?;
    }
    if node.Dir? {
      forall q | q in Under(name, PlacesOf(node.entries, folders))
        ensures q != [] && q[0] == name && q != [name]
      {
        UnderIsBelow(name, PlacesOf(node.entries, folders), q);
        PlacesAreFound(node.entries, folders, q[1..]);
      }
    }
  }
}

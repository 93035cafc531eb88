/** The scanned source tree (listFiles, index.js:13-61). Reading the
    directory is not modelled: the directory listing is an input, and the
    scanner's work is naming, typing and placing its entries. */
module Tree {
  import opened Optional
  import Names

  /** One directory entry as the filesystem lists it, in listing order. */
  datatype Entry = Entry(name: string, isDirectory: bool, entries: seq<Entry>)

  /** A scanned node: its packer type (empty when the name has none), whether
      it is a directory, its path relative to the scanned root and, for a
      directory, its children in enumeration order. */
  datatype Node = Node(packerType: string, isDir: bool, src: string, children: seq<Child>)

  /** A child of a directory under the id the scanner gave it. */
  datatype Child = Child(id: string, node: Node)

  /** The ids of `cs`, in order. */
  function Ids(cs: seq<Child>): (r: seq<string>)
    ensures |r| == |cs| && forall k :: 0 <= k < |cs| ==> r[k] == cs[k].id
  {
    if cs == [] then [] else Ids(cs[..|cs| - 1]) + [cs[|cs| - 1].id]
  }

  /** No two children share an id. */
  predicate UniqueIds(cs: seq<Child>)
  {
    forall a, b :: 0 <= a < b < |cs| ==> cs[a].id != cs[b].id
  }

  /** Where the child with id `id` sits, if there is one. */
  function IndexOf(cs: seq<Child>, id: string): (r: Option<nat>)
    ensures r.None? <==> forall k :: 0 <= k < |cs| ==> cs[k].id != id
    ensures r.Some? ==> r.value < |cs| && cs[r.value].id == id
  {
    if cs == [] then None
    else if cs[|cs| - 1].id == id then Some(|cs| - 1)
    else IndexOf(cs[..|cs| - 1], id)
  }

  /** `flatFiles[id] = node`: a new id goes last, a known id keeps its place
      and takes the new node. */
  function PutChild(cs: seq<Child>, c: Child): seq<Child>
  {
    match IndexOf(cs, c.id)
    case Some(k) => cs[k := c]
    case None => cs + [c]
  }

  /** The id an entry is stored under: a directory keeps the parsed id, a
      file loses its extension as well. */
  function EntryId(e: Entry): string
  {
    if e.isDirectory then Names.DirId(e.name) else Names.FileId(e.name)
  }

  /** The node the scanner builds for `e`, inside the directory whose
      relative path is `dirSrc`; `join` is `path.join`. */
  function ScanEntry(join: (string, string) -> string, dirSrc: string, e: Entry): Node
    decreases e, 0
  {
    var src := join(dirSrc, e.name);
    Node(Names.ParseName(e.name).packerType, e.isDirectory, src,
         if e.isDirectory then Scan(join, src, e.entries) else [])
  }

  /** Each entry with the id and node the scanner gives it, in listing
      order, before entries with equal ids are merged. */
  function Built(join: (string, string) -> string, dirSrc: string, entries: seq<Entry>): (r: seq<Child>)
    ensures |r| == |entries|
    ensures forall j :: 0 <= j < |entries| ==> r[j] == Child(EntryId(entries[j]), ScanEntry(join, dirSrc, entries[j]))
    decreases entries, 1
  {
    if entries == [] then []
    else
      var last := entries[|entries| - 1];
      assert last in entries;
      Built(join, dirSrc, entries[..|entries| - 1]) + [Child(EntryId(last), ScanEntry(join, dirSrc, last))]
  }

  /** The children stored one after the other, as `flatFiles[id] = node`
      does. */
  function PutAll(cs: seq<Child>): seq<Child>
  {
    if cs == [] then [] else PutChild(PutAll(cs[..|cs| - 1]), cs[|cs| - 1])
  }

  /** `listFiles`: the children of a directory whose entries are `entries`,
      each entry put in turn so that a later entry with an id already seen
      replaces the earlier one in its place. */
  function Scan(join: (string, string) -> string, dirSrc: string, entries: seq<Entry>): seq<Child>
    decreases entries, 2
  {
    PutAll(Built(join, dirSrc, entries))
  }

  /** No child after the `j`-th has its id. */
  predicate LastWithId(cs: seq<Child>, j: nat)
    requires j < |cs|
  {
    forall j' :: j < j' < |cs| ==> cs[j'].id != cs[j].id
  }

  /** Storing a child keeps the ids unique, leaves every other child where it
      was, and leaves the new child in the list: in the place of the old child
      with its id, or else at the end. */
  lemma PutChildSpec(cs: seq<Child>, c: Child)
    requires UniqueIds(cs)
    ensures var r := PutChild(cs, c);
      && UniqueIds(r)
      && c in r
      && |cs| <= |r| <= |cs| + 1
      && Ids(cs) == Ids(r)[..|cs|]
      && (forall k :: 0 <= k < |cs| && cs[k].id != c.id ==> r[k] == cs[k])
      && (|r| == |cs| + 1 ==> r[|cs|] == c)
  {
    var r := PutChild(cs, c);
    match IndexOf(cs, c.id)
    case Some(k) =>
      assert r[k] == c;
      assert Ids(cs) == Ids(r)[..|cs|];
    case None =>
      assert r[|cs|] == c;
      assert Ids(cs) == Ids(r)[..|cs|];
  }

  lemma {:induction false} PutAllUnique(cs: seq<Child>)
    ensures UniqueIds(PutAll(cs))
  {
    if cs != [] {
      PutAllUnique(cs[..|cs| - 1]);
      PutChildSpec(PutAll(cs[..|cs| - 1]), cs[|cs| - 1]);
    }
  }

  /** The set of ids of `cs`. */
  function IdSet(cs: seq<Child>): set<string>
  {
    set c | c in cs :: c.id
  }

  lemma PutChildIds(cs: seq<Child>, c: Child)
    ensures IdSet(PutChild(cs, c)) == IdSet(cs) + {c.id}
  {
    var r := PutChild(cs, c);
    match IndexOf(cs, c.id)
    case Some(k) =>
      forall x | x in IdSet(cs) + {c.id} ensures x in IdSet(r) {
        if x != c.id {
          var i :| 0 <= i < |cs| && cs[i].id == x;
          assert r[i] == cs[i];
        } else {
          assert r[k] == c;
        }
      }
      forall x | x in IdSet(r) ensures x in IdSet(cs) + {c.id} {
        var i :| 0 <= i < |r| && r[i].id == x;
        if i != k { assert cs[i] == r[i]; }
      }
    case None =>
      assert r == cs + [c];
  }

  /** Storing children one after the other leaves exactly their ids. */
  lemma {:induction false} PutAllIds(cs: seq<Child>)
    ensures IdSet(PutAll(cs)) == IdSet(cs)
  {
    if cs != [] {
      var n := |cs| - 1;
      PutAllIds(cs[..n]);
      PutChildIds(PutAll(cs[..n]), cs[n]);
      assert cs == cs[..n] + [cs[n]];
      assert IdSet(cs) == IdSet(cs[..n]) + {cs[n].id};
    }
  }

  /** Last one wins: a child that no later child shares its id with is
      stored as it is. */
  lemma {:induction false} PutAllLastWins(cs: seq<Child>)
    ensures forall j :: 0 <= j < |cs| && LastWithId(cs, j) ==> cs[j] in PutAll(cs)
  {
    if cs != [] {
      var n := |cs| - 1;
      var init, c := cs[..n], cs[n];
      PutAllLastWins(init);
      PutAllUnique(init);
      var p := PutAll(init);
      var r := PutAll(cs);
      PutChildSpec(p, c);
      forall j | 0 <= j < n && LastWithId(cs, j) ensures cs[j] in r {
        assert cs[j] == init[j];
        assert LastWithId(init, j);
        var k :| 0 <= k < |p| && p[k] == cs[j];
        assert r[k] == cs[j];
      }
    }
  }

  /** Once an id has a place among the children, later children never move
      it: the ids after the first `i` children are a prefix of the final ids. */
  lemma {:induction false} PutAllKeepsPlaces(cs: seq<Child>, i: nat)
    requires i <= |cs|
    ensures var p := Ids(PutAll(cs[..i]));
      var r := Ids(PutAll(cs));
      |p| <= |r| && p == r[..|p|]
    decreases |cs| - i
  {
    if i < |cs| {
      PutAllKeepsPlaces(cs, i + 1);
      var init := cs[..i + 1];
      assert init[..i] == cs[..i];
      PutAllUnique(cs[..i]);
      PutChildSpec(PutAll(cs[..i]), init[i]);
    } else {
      assert cs[..i] == cs;
    }
  }

  /** What the scanner yields for a directory: no id twice; every entry
      represented under its id and nothing else; the node under an id built
      from the last entry with that id (the order is PutAllKeepsPlaces). */
  lemma {:induction false} ScanSpec(join: (string, string) -> string, dirSrc: string, entries: seq<Entry>)
    ensures var b, r := Built(join, dirSrc, entries), Scan(join, dirSrc, entries);
      && UniqueIds(r)
      && IdSet(r) == IdSet(b)
      && (forall j :: 0 <= j < |b| && LastWithId(b, j) ==> b[j] in r)
  {
    var b := Built(join, dirSrc, entries);
    PutAllUnique(b);
    PutAllIds(b);
    PutAllLastWins(b);
  }

  /** `listFiles` over a directory listing, entry by entry, recursing into
      subdirectories. */
  method ListFiles(join: (string, string) -> string, dirSrc: string, entries: seq<Entry>)
    returns (files: seq<Child>)
    ensures files == Scan(join, dirSrc, entries)
    decreases entries, 1
  {
    files := [];
    var i := 0;
    while i < |entries|
      invariant 0 <= i <= |entries|
      invariant files == PutAll(Built(join, dirSrc, entries[..i]))
    {
      assert entries[i] in entries;
      var c := ListEntry(join, dirSrc, entries[i]);
      ScanTurn(join, dirSrc, entries, i);
      files := PutChild(files, c);
      i := i + 1;
    }
    assert entries[..|entries|] == entries;
  }

  /** The id and node `listFiles` gives one entry of its directory. */
  method ListEntry(join: (string, string) -> string, dirSrc: string, e: Entry) returns (c: Child)
    ensures c == Child(EntryId(e), ScanEntry(join, dirSrc, e))
    decreases e, 0
  {
    var src := join(dirSrc, e.name);
    var parsed := Names.ParseName(e.name);
    if e.isDirectory {
      var sub := ListFiles(join, src, e.entries);
      c := Child(parsed.id, Node(parsed.packerType, true, src, sub));
    } else {
      c := Child(Names.StripExtension(parsed.id), Node(parsed.packerType, false, src, []));
    }
  }

  /** One more entry of the listing is one more child stored. */
  lemma ScanTurn(join: (string, string) -> string, dirSrc: string, entries: seq<Entry>, i: nat)
    requires i < |entries|
    ensures PutAll(Built(join, dirSrc, entries[..i + 1])) ==
      PutChild(PutAll(Built(join, dirSrc, entries[..i])), Child(EntryId(entries[i]), ScanEntry(join, dirSrc, entries[i])))
  {
    var pre := entries[..i + 1];
    assert pre[..i] == entries[..i];
    var b := Built(join, dirSrc, pre);
    assert b[..i] == Built(join, dirSrc, entries[..i]);
  }
}

/** The tree lists each row once, beneath exactly its own ancestors, in an order of its own. */
module TreeTheorems {
  import opened Text
  import opened SlashPaths
  import opened Sorting
  import opened IndexTables
  import opened WorkspaceTree

  ghost predicate DistinctNotes(notes: seq<NoteLine>) {
    forall i, j :: 0 <= i < j < |notes| ==> notes[i].id != notes[j].id
  }

  // ----- what lies beneath a directory

  /** The row lies beneath `parent`, and every directory on the way down has a row. */
  predicate Beneath(dirs: seq<string>, parent: string, id: string)
    decreases |id|
  {
    var up := ContainingDirectory(id);
    up == parent || (id != "" && up != "" && (ContainingShorter(id); up in dirs && Beneath(dirs, parent, up)))
  }

  /** What the level under `parent` should list. */
  predicate Wanted(dirs: seq<string>, notes: seq<NoteLine>, parent: string, item: Item) {
    IsRow(dirs, notes, item.row) && item.above == Below(ContainingDirectory(IdOf(item.row))) && Beneath(dirs, parent, IdOf(item.row))
  }

  /** Rows beneath a child directory are beneath its parent, one directory further down. */
  lemma {:induction false} BeneathChild(dirs: seq<string>, parent: string, d: string, id: string)
    requires d in dirs && d != "" && ContainingDirectory(d) == parent && Beneath(dirs, d, id) && id != ""
    ensures Beneath(dirs, parent, id)
    decreases |id|
  {
    ContainingShorter(id);
    var up := ContainingDirectory(id);
    if up != d { BeneathChild(dirs, parent, d, up); }
  }

  /** A row beneath `parent` is directly under it or beneath one of its child directories. */
  lemma {:induction false} BeneathSplits(dirs: seq<string>, parent: string, id: string) returns (d: string)
    requires "" !in dirs && id != "" && Beneath(dirs, parent, id) && ContainingDirectory(id) != parent
    ensures d in dirs && ContainingDirectory(d) == parent && Beneath(dirs, d, id)
    decreases |id|
  {
    ContainingShorter(id);
    var up := ContainingDirectory(id);
    if ContainingDirectory(up) == parent { d := up; } else { d := BeneathSplits(dirs, parent, up); }
  }

  /** Going down from a directory, its path comes at its place in the chain. */
  lemma {:induction false} ChainThrough(dirs: seq<string>, d: string, id: string)
    requires "" !in dirs && d != "" && id != "" && Beneath(dirs, d, id)
    ensures |Below(ContainingDirectory(id))| > |Chain(d)| && Below(ContainingDirectory(id))[|Chain(d)|] == d
    decreases |id|
  {
    ContainingShorter(id);
    var up := ContainingDirectory(id);
    if up != d { ChainThrough(dirs, d, up); }
  }

  lemma ChildChain(parent: string, d: string)
    requires d != "" && ContainingDirectory(d) == parent
    ensures Chain(d) == Below(parent) && Below(d) == Below(parent) + [d]
  {
    ContainingShorter(d);
  }

  // ----- items

  lemma {:induction false} NoteItems(here: seq<NoteLine>, above: seq<string>)
    ensures forall item :: item in Items(NoteNodes(here), above) <==> item.row.OfNote? && item.above == above && item.row.note in here
    ensures DistinctNotes(here) ==> Distinct(Items(NoteNodes(here), above))
    decreases |here|
  {
    if here != [] {
      var n := |here| - 1;
      var nodes, init := NoteNodes(here), NoteNodes(here[..n]);
      assert nodes == init + [nodes[|nodes| - 1]] && nodes[..|nodes| - 1] == init;
      NoteItems(here[..n], above);
      assert here == here[..n] + [here[n]];
      LastNote(here, above);
    }
  }

  lemma LastNote(here: seq<NoteLine>, above: seq<string>)
    requires here != []
    ensures var nodes := NoteNodes(here);
            nodes != [] && ItemsOf(nodes[|nodes| - 1], above) == [Item(above, OfNote(here[|here| - 1]))]
  {
  }

  lemma {:induction false} ItemsConcat(a: seq<TreeNode>, b: seq<TreeNode>, above: seq<string>)
    ensures Items(a + b, above) == Items(a, above) + Items(b, above)
    decreases |b|
  {
    hide ItemsOf;
    if b == [] {
      assert a + b == a;
    } else {
      LastOfConcat(a, b);
      ItemsConcat(a, b[..|b| - 1], above);
    }
  }

  lemma LastOfConcat<T>(a: seq<T>, b: seq<T>)
    requires b != []
    ensures (a + b)[..|a + b| - 1] == a + b[..|b| - 1] && (a + b)[|a + b| - 1] == b[|b| - 1]
  {
  }

  /** Where a directory's own entry and its subtree's items are listed. */
  predicate InSubtree(dirs: seq<string>, notes: seq<NoteLine>, parent: string, d: string, item: Item) {
    item == Item(Below(parent), OfDir(d)) || Wanted(dirs, notes, d, item)
  }

  /** Every item of a level has an id, since no row is empty. */
  lemma {:induction false} LevelItems(lower: string -> string, dirs: seq<string>, notes: seq<NoteLine>, parent: string)
    requires "" !in dirs && Distinct(dirs) && DistinctNotes(notes) && forall n :: n in notes ==> n.id != ""
    ensures forall item :: item in Items(Level(lower, dirs, notes, parent), Below(parent)) <==> Wanted(dirs, notes, parent, item)
    ensures Distinct(Items(Level(lower, dirs, notes, parent), Below(parent)))
    decreases Room(dirs, parent), 1, 0
  {
    hide Level, Wanted, Items, Distinct, Sort, DirNodes, NoteNodes;
    var here := Sort(DirOrder(lower), DirsUnder(dirs, parent));
    var lines := Sort(NoteOrder(lower), NotesUnder(notes, parent));
    LevelIs(lower, dirs, notes, parent, here);
    SortedHere(lower, dirs, notes, parent);
    var a, b := DirNodes(lower, dirs, notes, parent, here), NoteNodes(lines);
    ItemsConcat(a, b, Below(parent));
    DirItems(lower, dirs, notes, parent, here);
    NoteItems(lines, Below(parent));
    forall item ensures item in Items(a + b, Below(parent)) <==> Wanted(dirs, notes, parent, item) {
      LevelCovers(dirs, notes, parent, here, lines, item);
    }
    forall x | x in Items(a, Below(parent)) ensures x !in Items(b, Below(parent)) {
      LevelCovers(dirs, notes, parent, here, lines, x);
    }
    DistinctConcat(Items(a, Below(parent)), Items(b, Below(parent)));
  }

  /** The two halves of a level hold exactly what is wanted, and never the same item. */
  lemma LevelCovers(dirs: seq<string>, notes: seq<NoteLine>, parent: string, here: seq<string>, lines: seq<NoteLine>, item: Item)
    requires "" !in dirs && forall n :: n in notes ==> n.id != ""
    requires forall d :: d in here <==> d in dirs && ContainingDirectory(d) == parent
    requires forall n :: n in lines <==> n in notes && ContainingDirectory(n.id) == parent
    ensures var inDirs := exists d :: d in here && InSubtree(dirs, notes, parent, d, item);
            var inNotes := item.row.OfNote? && item.above == Below(parent) && item.row.note in lines;
            (Wanted(dirs, notes, parent, item) <==> inDirs || inNotes) && !(inDirs && inNotes)
  {
    if item.row.OfNote? && item.above == Below(parent) && item.row.note in lines {
      forall d | d in here ensures !InSubtree(dirs, notes, parent, d, item) {
        if Wanted(dirs, notes, d, item) { ChainThrough(dirs, d, IdOf(item.row)); ChildChain(parent, d); }
      }
    }
    forall d | d in here && InSubtree(dirs, notes, parent, d, item) ensures Wanted(dirs, notes, parent, item) {
      if item != Item(Below(parent), OfDir(d)) { BeneathChild(dirs, parent, d, IdOf(item.row)); }
    }
    if Wanted(dirs, notes, parent, item) {
      if ContainingDirectory(IdOf(item.row)) == parent {
        if item.row.OfDir? { assert InSubtree(dirs, notes, parent, item.row.dir, item); }
      } else {
        var d := BeneathSplits(dirs, parent, IdOf(item.row));
        assert InSubtree(dirs, notes, parent, d, item);
      }
    }
  }

  lemma SortedHere(lower: string -> string, dirs: seq<string>, notes: seq<NoteLine>, parent: string)
    requires Distinct(dirs) && DistinctNotes(notes)
    ensures var here := Sort(DirOrder(lower), DirsUnder(dirs, parent));
            Distinct(here) && forall d :: d in here <==> d in dirs && ContainingDirectory(d) == parent
    ensures var lines := Sort(NoteOrder(lower), NotesUnder(notes, parent));
            DistinctNotes(lines) && forall n :: n in lines <==> n in notes && ContainingDirectory(n.id) == parent
  {
    hide Sort, DirsUnder, NotesUnder, Distinct, DistinctNotes, DirOrder, NoteOrder;
    var ds, ns := DirsUnder(dirs, parent), NotesUnder(notes, parent);
    DirsUnderDistinct(dirs, parent);
    NotesUnderDistinct(notes, parent);
    SameMembers(Sort(DirOrder(lower), ds), ds);
    SameMembers(Sort(NoteOrder(lower), ns), ns);
    DistinctByCount(ds, Sort(DirOrder(lower), ds));
    DistinctByCount(ns, Sort(NoteOrder(lower), ns));
    DistinctStays(notes, Sort(NoteOrder(lower), ns));
  }

  lemma DistinctStays(notes: seq<NoteLine>, some: seq<NoteLine>)
    requires DistinctNotes(notes) && Distinct(some) && forall n :: n in some ==> n in notes
    ensures DistinctNotes(some)
  {
    SameIdSameNote(notes);
    forall i, j | 0 <= i < j < |some| ensures some[i].id != some[j].id {
      assert some[i] in notes && some[j] in notes;
    }
  }

  lemma SameIdSameNote(notes: seq<NoteLine>)
    requires DistinctNotes(notes)
    ensures forall m, n :: m in notes && n in notes && m.id == n.id ==> m == n
  {
  }

  lemma {:induction false} DirsUnderDistinct(dirs: seq<string>, parent: string)
    requires Distinct(dirs)
    ensures Distinct(DirsUnder(dirs, parent))
    decreases |dirs|
  {
    if dirs != [] { DirsUnderDistinct(dirs[..|dirs| - 1], parent); }
  }

  lemma {:induction false} NotesUnderDistinct(notes: seq<NoteLine>, parent: string)
    requires DistinctNotes(notes)
    ensures Distinct(NotesUnder(notes, parent))
    decreases |notes|
  {
    if notes != [] { NotesUnderDistinct(notes[..|notes| - 1], parent); }
  }

  lemma {:induction false} DirItems(lower: string -> string, dirs: seq<string>, notes: seq<NoteLine>, parent: string, here: seq<string>)
    requires "" !in dirs && Distinct(dirs) && DistinctNotes(notes) && Distinct(here)
    requires forall n :: n in notes ==> n.id != ""
    requires forall d :: d in here ==> d in dirs && ContainingDirectory(d) == parent
    ensures forall item :: item in Items(DirNodes(lower, dirs, notes, parent, here), Below(parent)) <==>
              exists d :: d in here && InSubtree(dirs, notes, parent, d, item)
    ensures Distinct(Items(DirNodes(lower, dirs, notes, parent, here), Below(parent)))
    decreases Room(dirs, parent), 0, |here|
  {
    hide Wanted, Level, Distinct, Sort, Room, InSubtree;
    if here == [] {
      NoItems(lower, dirs, notes, parent);
    } else {
      var n := |here| - 1;
      var last, init := here[n], here[..n];
      assert last in here && here == init + [last];
      DistinctInit(here);
      var before := DirNodes(lower, dirs, notes, parent, init);
      DirItems(lower, dirs, notes, parent, init);
      assert Room(dirs, last) < Room(dirs, parent) by { Deeper(dirs, parent, last); }
      LevelItems(lower, dirs, notes, last);
      LastDirItems(lower, dirs, notes, parent, here);
      var a, b := Items(before, Below(parent)), Items(Level(lower, dirs, notes, last), Below(last));
      SubtreeItems(dirs, notes, parent, last, b);
      forall item ensures item in a + ([Item(Below(parent), OfDir(last))] + b) <==> exists d :: d in here && InSubtree(dirs, notes, parent, d, item) {
        assert item in a <==> exists d :: d in init && InSubtree(dirs, notes, parent, d, item);
      }
      forall x | x in a ensures x !in [Item(Below(parent), OfDir(last))] + b {
        var d :| d in init && InSubtree(dirs, notes, parent, d, x);
        SubtreesApart(dirs, notes, parent, d, last, x);
      }
      DistinctConcat(a, [Item(Below(parent), OfDir(last))] + b);
    }
  }

  lemma NoItems(lower: string -> string, dirs: seq<string>, notes: seq<NoteLine>, parent: string)
    requires "" !in dirs
    ensures Items(DirNodes(lower, dirs, notes, parent, []), Below(parent)) == [] && Distinct<Item>([])
  {
  }

  /** The items of one more directory follow those before it. */
  lemma LastDirItems(lower: string -> string, dirs: seq<string>, notes: seq<NoteLine>, parent: string, here: seq<string>)
    requires "" !in dirs && here != [] && forall d :: d in here ==> d in dirs && ContainingDirectory(d) == parent
    ensures var n := |here| - 1;
            here[n] in here && (forall d :: d in here[..n] ==> d in here)
            && Items(DirNodes(lower, dirs, notes, parent, here), Below(parent)) ==
               Items(DirNodes(lower, dirs, notes, parent, here[..n]), Below(parent))
               + ([Item(Below(parent), OfDir(here[n]))] + Items(Level(lower, dirs, notes, here[n]), Below(here[n])))
  {
    hide Level;
    var n := |here| - 1;
    var last := here[n];
    assert last in here;
    ChildChain(parent, last);
    var nodes, init := DirNodes(lower, dirs, notes, parent, here), DirNodes(lower, dirs, notes, parent, here[..n]);
    assert nodes == init + [Directory(LastSegment(last), last, Level(lower, dirs, notes, last))];
    assert nodes[..|nodes| - 1] == init;
  }

  /** A directory's entry and its subtree's items are together in its subtree, each once. */
  lemma SubtreeItems(dirs: seq<string>, notes: seq<NoteLine>, parent: string, d: string, b: seq<Item>)
    requires "" !in dirs && d != "" && ContainingDirectory(d) == parent && (forall n :: n in notes ==> n.id != "")
    requires Distinct(b) && forall item :: item in b <==> Wanted(dirs, notes, d, item)
    ensures forall item :: item in [Item(Below(parent), OfDir(d))] + b <==> InSubtree(dirs, notes, parent, d, item)
    ensures Distinct([Item(Below(parent), OfDir(d))] + b)
  {
    var own := Item(Below(parent), OfDir(d));
    ChildChain(parent, d);
    if Wanted(dirs, notes, d, own) { ChainThrough(dirs, d, d); }
    DistinctConcat([own], b);
  }

  /** Subtrees of two directories share nothing. */
  lemma SubtreesApart(dirs: seq<string>, notes: seq<NoteLine>, parent: string, d: string, e: string, item: Item)
    requires "" !in dirs && d != e && d != "" && e != "" && (forall n :: n in notes ==> n.id != "")
    requires ContainingDirectory(d) == parent && ContainingDirectory(e) == parent
    requires InSubtree(dirs, notes, parent, d, item)
    ensures !InSubtree(dirs, notes, parent, e, item)
  {
    ChildChain(parent, d);
    ChildChain(parent, e);
    if Wanted(dirs, notes, d, item) { ChainThrough(dirs, d, IdOf(item.row)); }
    if Wanted(dirs, notes, e, item) { ChainThrough(dirs, e, IdOf(item.row)); }
  }

  // ----- the whole tree

  /** Beneath the root means that every directory above has a row. */
  lemma {:induction false} BeneathRoot(dirs: seq<string>, id: string)
    requires "" !in dirs && id != ""
    ensures Beneath(dirs, "", id) <==> Complete(dirs, id)
    decreases |id|
  {
    ContainingShorter(id);
    var up := ContainingDirectory(id);
    if up != "" {
      BeneathRoot(dirs, up);
      assert forall p :: p in Chain(id) <==> p in Chain(up) || p == up;
    }
  }

  /** The tree lists, once and beneath exactly its own ancestors, every row whose ancestors all have
      directory rows, and nothing else. */
  lemma TreeLists(lower: string -> string, dirs: seq<string>, notes: seq<NoteLine>)
    requires "" !in dirs && Distinct(dirs) && DistinctNotes(notes) && forall n :: n in notes ==> n.id != ""
    ensures Distinct(Items(Level(lower, dirs, notes, ""), []))
    ensures forall item :: item in Items(Level(lower, dirs, notes, ""), []) <==>
              IsRow(dirs, notes, item.row) && item.above == Chain(IdOf(item.row)) && Complete(dirs, IdOf(item.row))
  {
    LevelItems(lower, dirs, notes, "");
    forall item
      ensures Wanted(dirs, notes, "", item) <==>
              IsRow(dirs, notes, item.row) && item.above == Chain(IdOf(item.row)) && Complete(dirs, IdOf(item.row))
    {
      if IsRow(dirs, notes, item.row) {
        BeneathRoot(dirs, IdOf(item.row));
        ChildChain(ContainingDirectory(IdOf(item.row)), IdOf(item.row));
      }
    }
  }

  // ----- the order the rows come in

  lemma EarlierOrders(lower: string -> string)
    ensures Ordering(DirOrder(lower)) && Ordering(NoteOrder(lower))
  {
    forall n, p, n', p', n'', p''
      ensures Earlier(lower, n, p, n', p') ==> !Earlier(lower, n', p', n, p)
      ensures Earlier(lower, n, p, n', p') && Earlier(lower, n', p', n'', p'') ==> Earlier(lower, n, p, n'', p'')
      ensures !Earlier(lower, n, p, n', p') && !Earlier(lower, n', p', n'', p'') ==> !Earlier(lower, n, p, n'', p'')
    {
      EarlierOrder(lower, n, p, n', p', n'', p'');
    }
  }

  lemma EarlierOrder(lower: string -> string, n: string, p: string, n': string, p': string, n'': string, p'': string)
    ensures Earlier(lower, n, p, n', p') ==> !Earlier(lower, n', p', n, p)
    ensures Earlier(lower, n, p, n', p') && Earlier(lower, n', p', n'', p'') ==> Earlier(lower, n, p, n'', p'')
    ensures !Earlier(lower, n, p, n', p') && !Earlier(lower, n', p', n'', p'') ==> !Earlier(lower, n, p, n'', p'')
    ensures !Earlier(lower, n, p, n', p') && !Earlier(lower, n', p', n, p) ==> p == p'
  {
    hide Less;
    LessOrder(lower(n), lower(n'), lower(n''));
    LessOrder(lower(n'), lower(n), lower(n''));
    LessOrder(lower(n), lower(n''), lower(n'));
    LessOrder(lower(n'), lower(n''), lower(n));
    LessOrder(p, p', p'');
    LessOrder(p', p, p'');
  }

  lemma {:induction false} DirsUnderCount(dirs: seq<string>, parent: string, x: string)
    ensures multiset(DirsUnder(dirs, parent))[x] == if ContainingDirectory(x) == parent then multiset(dirs)[x] else 0
    decreases |dirs|
  {
    if dirs != [] {
      assert dirs == dirs[..|dirs| - 1] + [dirs[|dirs| - 1]];
      DirsUnderCount(dirs[..|dirs| - 1], parent, x);
    }
  }

  lemma {:induction false} NotesUnderCount(notes: seq<NoteLine>, parent: string, x: NoteLine)
    ensures multiset(NotesUnder(notes, parent))[x] == if ContainingDirectory(x.id) == parent then multiset(notes)[x] else 0
    decreases |notes|
  {
    if notes != [] {
      assert notes == notes[..|notes| - 1] + [notes[|notes| - 1]];
      NotesUnderCount(notes[..|notes| - 1], parent, x);
    }
  }

  lemma SameDirs(lower: string -> string, dirs: seq<string>, dirs': seq<string>, parent: string)
    requires multiset(dirs) == multiset(dirs')
    ensures Sort(DirOrder(lower), DirsUnder(dirs, parent)) == Sort(DirOrder(lower), DirsUnder(dirs', parent))
  {
    hide Ordering, Earlier, Sort, DirsUnder;
    EarlierOrders(lower);
    forall x ensures multiset(DirsUnder(dirs, parent))[x] == multiset(DirsUnder(dirs', parent))[x] {
      DirsUnderCount(dirs, parent, x);
      DirsUnderCount(dirs', parent, x);
    }
    assert multiset(DirsUnder(dirs, parent)) == multiset(DirsUnder(dirs', parent));
    forall a: string, b: string | a != b ensures DirOrder(lower)(a, b) || DirOrder(lower)(b, a) {
      EarlierOrder(lower, LastSegment(a), a, LastSegment(b), b, "", "");
    }
    SortForgets(DirOrder(lower), DirsUnder(dirs, parent), DirsUnder(dirs', parent));
  }

  lemma SameLines(lower: string -> string, notes: seq<NoteLine>, notes': seq<NoteLine>, parent: string)
    requires multiset(notes) == multiset(notes') && DistinctNotes(notes)
    ensures Sort(NoteOrder(lower), NotesUnder(notes, parent)) == Sort(NoteOrder(lower), NotesUnder(notes', parent))
  {
    hide Ordering, Earlier, Sort;
    EarlierOrders(lower);
    SameIdSameNote(notes);
    forall x ensures multiset(NotesUnder(notes, parent))[x] == multiset(NotesUnder(notes', parent))[x] {
      NotesUnderCount(notes, parent, x);
      NotesUnderCount(notes', parent, x);
    }
    var here, here' := NotesUnder(notes, parent), NotesUnder(notes', parent);
    assert multiset(here) == multiset(here');
    assert forall n :: n in here ==> n in notes;
    hide NotesUnder;
    forall a, b | a in here && b in here && a != b ensures NoteOrder(lower)(a, b) || NoteOrder(lower)(b, a) {
      EarlierOrder(lower, a.title, a.id, b.title, b.id, "", "");
    }
    SortForgets(NoteOrder(lower), here, here');
  }

  /** The tree does not depend on the order in which the queries return their rows. */
  lemma {:induction false} OrderDoesNotMatter(lower: string -> string, dirs: seq<string>, dirs': seq<string>,
                                              notes: seq<NoteLine>, notes': seq<NoteLine>, parent: string)
    requires multiset(dirs) == multiset(dirs') && multiset(notes) == multiset(notes') && DistinctNotes(notes)
    requires "" !in dirs && "" !in dirs'
    ensures Level(lower, dirs, notes, parent) == Level(lower, dirs', notes', parent)
    decreases Room(dirs, parent), 1, 0
  {
    hide Level, Sort;
    SameDirs(lower, dirs, dirs', parent);
    SameLines(lower, notes, notes', parent);
    var here := Sort(DirOrder(lower), DirsUnder(dirs, parent));
    LevelIs(lower, dirs, notes, parent, here);
    LevelIs(lower, dirs', notes', parent, here);
    SameDirNodes(lower, dirs, dirs', notes, notes', parent, here);
  }

  lemma {:induction false} SameDirNodes(lower: string -> string, dirs: seq<string>, dirs': seq<string>,
                                        notes: seq<NoteLine>, notes': seq<NoteLine>, parent: string, here: seq<string>)
    requires multiset(dirs) == multiset(dirs') && multiset(notes) == multiset(notes') && DistinctNotes(notes)
    requires "" !in dirs && "" !in dirs'
    requires forall d :: d in here ==> d in dirs && d in dirs' && ContainingDirectory(d) == parent
    ensures DirNodes(lower, dirs, notes, parent, here) == DirNodes(lower, dirs', notes', parent, here)
    decreases Room(dirs, parent), 0, |here|
  {
    hide Level;
    if here != [] {
      var last := here[|here| - 1];
      assert last in here;
      Deeper(dirs, parent, last);
      SameDirNodes(lower, dirs, dirs', notes, notes', parent, here[..|here| - 1]);
      OrderDoesNotMatter(lower, dirs, dirs', notes, notes', last);
    }
  }
}

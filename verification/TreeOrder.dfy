/** How the sidebar's tree is arranged: at every depth directories come first, then notes, each in
    the order of their names, and every directory goes by the last part of its path. */
module TreeOrder {
  import opened SlashPaths
  import opened Sorting
  import opened IndexTables
  import opened WorkspaceTree
  import opened TreeTheorems
  import opened BundleTheorems

  /** Ordered without regard to case, and by the whole path where names then agree. */
  predicate InOrder(lower: string -> string, name: string, path: string, name': string, path': string) {
    Less(lower(name), lower(name')) || (lower(name) == lower(name') && (Less(path, path') || path == path'))
  }

  predicate SiblingsInOrder(lower: string -> string, a: TreeNode, b: TreeNode) {
    match a
    case Directory(name, path, _) => b.Directory? ==> InOrder(lower, name, path, b.name, b.path)
    case Note(id, title, _) => b.Note? && InOrder(lower, title, id, b.title, b.id)
  }

  /** A path right under a directory: its last part is a name without slashes. */
  predicate NamedUnder(parent: string, name: string, path: string) {
    '/' !in name && ((parent == "" && path == name) || path == parent + "/" + name)
  }

  ghost predicate Arranged(lower: string -> string, nodes: seq<TreeNode>, parent: string)
    decreases nodes, 1
  {
    && (forall i, j :: 0 <= i < j < |nodes| ==> SiblingsInOrder(lower, nodes[i], nodes[j]))
    && (forall i :: 0 <= i < |nodes| ==> ArrangedBelow(lower, nodes[i], parent))
  }

  ghost predicate ArrangedBelow(lower: string -> string, node: TreeNode, parent: string)
    decreases node, 0
  {
    node.Directory? ==> NamedUnder(parent, node.name, node.path) && Arranged(lower, node.children, node.path)
  }

  lemma NamesUnder(d: string)
    ensures NamedUnder(ContainingDirectory(d), LastSegment(d), d)
  {
    if '/' in d { LastSlash(d); }
  }

  lemma NotEarlier(lower: string -> string, name: string, path: string, name': string, path': string)
    requires !Earlier(lower, name', path', name, path)
    ensures InOrder(lower, name, path, name', path')
  {
    LessTotal(lower(name), lower(name'));
    LessTotal(path, path');
  }

  lemma SortedDirs(lower: string -> string, dirs: seq<string>, here: seq<string>)
    requires here == Sort(DirOrder(lower), dirs)
    ensures forall i, j :: 0 <= i < j < |here| ==> InOrder(lower, LastSegment(here[i]), here[i], LastSegment(here[j]), here[j])
  {
    hide Ordering, Earlier, InOrder, Sort, LastSegment;
    EarlierOrders(lower);
    SortSorts(DirOrder(lower), dirs);
    forall i, j | 0 <= i < j < |here| ensures InOrder(lower, LastSegment(here[i]), here[i], LastSegment(here[j]), here[j]) {
      assert !DirOrder(lower)(here[j], here[i]);
      NotEarlier(lower, LastSegment(here[i]), here[i], LastSegment(here[j]), here[j]);
    }
  }

  lemma SortedNotes(lower: string -> string, notes: seq<NoteLine>, here: seq<NoteLine>)
    requires here == Sort(NoteOrder(lower), notes)
    ensures forall i, j :: 0 <= i < j < |here| ==> InOrder(lower, here[i].title, here[i].id, here[j].title, here[j].id)
  {
    hide Ordering, Earlier, InOrder, Sort;
    EarlierOrders(lower);
    SortSorts(NoteOrder(lower), notes);
    forall i, j | 0 <= i < j < |here| ensures InOrder(lower, here[i].title, here[i].id, here[j].title, here[j].id) {
      assert !NoteOrder(lower)(here[j], here[i]);
      NotEarlier(lower, here[i].title, here[i].id, here[j].title, here[j].id);
    }
  }

  lemma {:induction false} NoteNodesAre(here: seq<NoteLine>)
    ensures |NoteNodes(here)| == |here|
    ensures forall i :: 0 <= i < |here| ==> NoteNodes(here)[i] == Note(here[i].id, here[i].title, here[i].path)
    decreases |here|
  {
    if here != [] { NoteNodesAre(here[..|here| - 1]); }
  }

  lemma {:induction false} DirNodesAre(lower: string -> string, dirs: seq<string>, notes: seq<NoteLine>, parent: string, here: seq<string>)
    requires "" !in dirs && forall d :: d in here ==> d in dirs && ContainingDirectory(d) == parent
    ensures |DirNodes(lower, dirs, notes, parent, here)| == |here|
    ensures forall i :: 0 <= i < |here| ==>
              DirNodes(lower, dirs, notes, parent, here)[i] == Directory(LastSegment(here[i]), here[i], Level(lower, dirs, notes, here[i]))
    decreases |here|
  {
    hide Level, LastSegment, ContainingDirectory, DirNodes;
    if here == [] {
      NoDirNodes(lower, dirs, notes, parent);
    } else {
      var n := |here| - 1;
      assert forall d :: d in here[..n] ==> d in here;
      DirNodesAre(lower, dirs, notes, parent, here[..n]);
      LastDirNode(lower, dirs, notes, parent, here);
    }
  }

  lemma NoDirNodes(lower: string -> string, dirs: seq<string>, notes: seq<NoteLine>, parent: string)
    requires "" !in dirs
    ensures DirNodes(lower, dirs, notes, parent, []) == []
  {
  }

  lemma LastDirNode(lower: string -> string, dirs: seq<string>, notes: seq<NoteLine>, parent: string, here: seq<string>)
    requires "" !in dirs && here != [] && forall d :: d in here ==> d in dirs && ContainingDirectory(d) == parent
    ensures forall d :: d in here[..|here| - 1] ==> d in here
    ensures var before, last := here[..|here| - 1], here[|here| - 1];
            DirNodes(lower, dirs, notes, parent, here) ==
            DirNodes(lower, dirs, notes, parent, before) + [Directory(LastSegment(last), last, Level(lower, dirs, notes, last))]
  {
    hide Level, LastSegment, ContainingDirectory;
  }

  /** The directories and notes of one level, in its order. */
  ghost predicate LevelOf(lower: string -> string, dirs: seq<string>, notes: seq<NoteLine>, parent: string, here: seq<string>, lines: seq<NoteLine>) {
    here == Sort(DirOrder(lower), DirsUnder(dirs, parent)) && lines == Sort(NoteOrder(lower), NotesUnder(notes, parent))
  }

  lemma LevelSize(lower: string -> string, dirs: seq<string>, notes: seq<NoteLine>, parent: string, here: seq<string>, lines: seq<NoteLine>)
    requires "" !in dirs && LevelOf(lower, dirs, notes, parent, here, lines)
    ensures |Level(lower, dirs, notes, parent)| == |here| + |lines|
    ensures forall d :: d in here ==> d in dirs && ContainingDirectory(d) == parent
  {
    hide Level, Sort, DirNodes, NoteNodes, LastSegment, DirOrder, NoteOrder, ContainingDirectory, DirsUnder, NotesUnder;
    LevelIs(lower, dirs, notes, parent, here);
    DirNodesAre(lower, dirs, notes, parent, here);
    NoteNodesAre(lines);
  }

  /** Its `i`th node. */
  lemma LevelNode(lower: string -> string, dirs: seq<string>, notes: seq<NoteLine>, parent: string, here: seq<string>, lines: seq<NoteLine>, i: nat)
    requires "" !in dirs && LevelOf(lower, dirs, notes, parent, here, lines) && i < |Level(lower, dirs, notes, parent)|
    ensures |Level(lower, dirs, notes, parent)| == |here| + |lines|
    ensures var node := Level(lower, dirs, notes, parent)[i];
            if i < |here| then node == Directory(LastSegment(here[i]), here[i], Level(lower, dirs, notes, here[i]))
            else var line := lines[i - |here|]; node == Note(line.id, line.title, line.path)
  {
    hide Level, Sort, DirNodes, NoteNodes, LastSegment, DirOrder, NoteOrder, ContainingDirectory, DirsUnder, NotesUnder;
    LevelSize(lower, dirs, notes, parent, here, lines);
    LevelIs(lower, dirs, notes, parent, here);
    DirNodesAre(lower, dirs, notes, parent, here);
    NoteNodesAre(lines);
  }

  lemma LevelOrdered(lower: string -> string, dirs: seq<string>, notes: seq<NoteLine>, parent: string, here: seq<string>, lines: seq<NoteLine>)
    requires "" !in dirs && LevelOf(lower, dirs, notes, parent, here, lines)
    ensures var nodes := Level(lower, dirs, notes, parent);
            forall i, j :: 0 <= i < j < |nodes| ==> SiblingsInOrder(lower, nodes[i], nodes[j])
  {
    hide Level, Sort, InOrder, LastSegment, DirOrder, NoteOrder, ContainingDirectory, DirsUnder, NotesUnder;
    SortedDirs(lower, DirsUnder(dirs, parent), here);
    SortedNotes(lower, NotesUnder(notes, parent), lines);
    var nodes := Level(lower, dirs, notes, parent);
    forall i, j | 0 <= i < j < |nodes| ensures SiblingsInOrder(lower, nodes[i], nodes[j]) {
      LevelNode(lower, dirs, notes, parent, here, lines, i);
      LevelNode(lower, dirs, notes, parent, here, lines, j);
      if j < |here| {
        assert InOrder(lower, LastSegment(here[i]), here[i], LastSegment(here[j]), here[j]);
      } else if i >= |here| {
        var a, b := i - |here|, j - |here|;
        assert InOrder(lower, lines[a].title, lines[a].id, lines[b].title, lines[b].id);
      }
    }
  }

  /** Every level of the tree is arranged, over any rows. */
  lemma {:induction false} LevelArranged(lower: string -> string, dirs: seq<string>, notes: seq<NoteLine>, parent: string)
    requires "" !in dirs
    ensures Arranged(lower, Level(lower, dirs, notes, parent), parent)
    decreases Room(dirs, parent)
  {
    hide Level, Sort, LastSegment, DirOrder, NoteOrder, ContainingDirectory, DirsUnder, NotesUnder, NamedUnder, Room, SiblingsInOrder;
    var here, lines := Sort(DirOrder(lower), DirsUnder(dirs, parent)), Sort(NoteOrder(lower), NotesUnder(notes, parent));
    LevelSize(lower, dirs, notes, parent, here, lines);
    LevelOrdered(lower, dirs, notes, parent, here, lines);
    var nodes := Level(lower, dirs, notes, parent);
    forall i | 0 <= i < |nodes| ensures ArrangedBelow(lower, nodes[i], parent) {
      LevelNode(lower, dirs, notes, parent, here, lines, i);
      if i < |here| {
        assert here[i] in here;
        NamesUnder(here[i]);
        Deeper(dirs, parent, here[i]);
        LevelArranged(lower, dirs, notes, here[i]);
      }
      hide Arranged;
    }
  }
}

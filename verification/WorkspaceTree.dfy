/** The sidebar's tree: built level by level from the directory and note rows alone. */
module WorkspaceTree {
  import opened Text
  import opened SlashPaths
  import opened Sorting
  import opened IndexTables

  datatype NoteLine = NoteLine(id: string, path: string, title: string)

  datatype TreeNode =
    | Directory(name: string, path: string, children: seq<TreeNode>)
    | Note(id: string, title: string, path: string)

  function LastSegment(id: string): string {
    if '/' !in id then id else if id[|id| - 1] == '/' then "" else LastSegment(id[..|id| - 1]) + [id[|id| - 1]]
  }

  // ----- one level

  function DirsUnder(dirs: seq<string>, parent: string): (r: seq<string>)
    ensures forall d :: d in r <==> d in dirs && ContainingDirectory(d) == parent
  {
    if dirs == [] then []
    else
      var before := DirsUnder(dirs[..|dirs| - 1], parent);
      assert dirs == dirs[..|dirs| - 1] + [dirs[|dirs| - 1]];
      if ContainingDirectory(dirs[|dirs| - 1]) == parent then before + [dirs[|dirs| - 1]] else before
  }

  function NotesUnder(notes: seq<NoteLine>, parent: string): (r: seq<NoteLine>)
    ensures forall n :: n in r <==> n in notes && ContainingDirectory(n.id) == parent
  {
    if notes == [] then []
    else
      var before := NotesUnder(notes[..|notes| - 1], parent);
      assert notes == notes[..|notes| - 1] + [notes[|notes| - 1]];
      if ContainingDirectory(notes[|notes| - 1].id) == parent then before + [notes[|notes| - 1]] else before
  }

  /** By the lower-cased name, then by the whole path; `lower` is the library's case mapping. */
  predicate Earlier(lower: string -> string, name: string, path: string, name': string, path': string) {
    Less(lower(name), lower(name')) || (lower(name) == lower(name') && Less(path, path'))
  }

  function DirOrder(lower: string -> string): (string, string) -> bool {
    (a: string, b: string) => Earlier(lower, LastSegment(a), a, LastSegment(b), b)
  }

  function NoteOrder(lower: string -> string): (NoteLine, NoteLine) -> bool {
    (a: NoteLine, b: NoteLine) => Earlier(lower, a.title, a.id, b.title, b.id)
  }

  /** The longest directory path there is. */
  function Longest(dirs: seq<string>): (r: nat)
    ensures forall d :: d in dirs ==> |d| <= r
  {
    if dirs == [] then 0
    else
      var before := Longest(dirs[..|dirs| - 1]);
      assert dirs == dirs[..|dirs| - 1] + [dirs[|dirs| - 1]];
      if |dirs[|dirs| - 1]| > before then |dirs[|dirs| - 1]| else before
  }

  /** How many more levels there can be below a path. */
  function Room(dirs: seq<string>, parent: string): nat {
    if |parent| <= Longest(dirs) then Longest(dirs) + 1 - |parent| else 0
  }

  lemma {:induction false} ContainingShorter(id: string)
    requires id != ""
    ensures |ContainingDirectory(id)| < |id|
    decreases |id|
  {
    if '/' in id && id[|id| - 1] != '/' { ContainingShorter(id[..|id| - 1]); }
  }

  lemma Deeper(dirs: seq<string>, parent: string, d: string)
    requires d in dirs && d != "" && ContainingDirectory(d) == parent
    ensures Room(dirs, d) < Room(dirs, parent)
  {
    ContainingShorter(d);
  }

  /** `build_tree_level`: directories first, then notes, each sorted by name. It ends because no
      row has the empty path, so every path is longer than its parent. */
  function Level(lower: string -> string, dirs: seq<string>, notes: seq<NoteLine>, parent: string): seq<TreeNode>
    requires "" !in dirs
    decreases Room(dirs, parent), 1, 0
  {
    var here := Sort(DirOrder(lower), DirsUnder(dirs, parent));
    SameMembers(here, DirsUnder(dirs, parent));
    DirNodes(lower, dirs, notes, parent, here) + NoteNodes(Sort(NoteOrder(lower), NotesUnder(notes, parent)))
  }

  function DirNodes(lower: string -> string, dirs: seq<string>, notes: seq<NoteLine>, parent: string, here: seq<string>): seq<TreeNode>
    requires "" !in dirs && forall d :: d in here ==> d in dirs && ContainingDirectory(d) == parent
    decreases Room(dirs, parent), 0, |here|
  {
    if here == [] then []
    else
      var last := here[|here| - 1];
      assert last in here;
      Deeper(dirs, parent, last);
      DirNodes(lower, dirs, notes, parent, here[..|here| - 1]) + [Directory(LastSegment(last), last, Level(lower, dirs, notes, last))]
  }

  function NoteNodes(here: seq<NoteLine>): seq<TreeNode> {
    if here == [] then []
    else NoteNodes(here[..|here| - 1]) + [Note(here[|here| - 1].id, here[|here| - 1].title, here[|here| - 1].path)]
  }

  // ----- as it runs

  function ListAt<T>(m: map<string, seq<T>>, parent: string): seq<T> {
    if parent in m then m[parent] else []
  }

  method GroupDirs(dirs: seq<string>) returns (m: map<string, seq<string>>)
    ensures forall parent :: ListAt(m, parent) == DirsUnder(dirs, parent)
  {
    m := map[];
    for i := 0 to |dirs|
      invariant forall parent :: ListAt(m, parent) == DirsUnder(dirs[..i], parent)
    {
      assert dirs[..i + 1][..i] == dirs[..i];
      var parent := ContainingDirectory(dirs[i]);
      m := m[parent := (if parent in m then m[parent] else []) + [dirs[i]]];
    }
    assert dirs[..|dirs|] == dirs;
  }

  method GroupNotes(notes: seq<NoteLine>) returns (m: map<string, seq<NoteLine>>)
    ensures forall parent :: ListAt(m, parent) == NotesUnder(notes, parent)
  {
    m := map[];
    for i := 0 to |notes|
      invariant forall parent :: ListAt(m, parent) == NotesUnder(notes[..i], parent)
    {
      assert notes[..i + 1][..i] == notes[..i];
      var parent := ContainingDirectory(notes[i].id);
      m := m[parent := (if parent in m then m[parent] else []) + [notes[i]]];
    }
    assert notes[..|notes|] == notes;
  }

  method BuildTreeLevel(lower: string -> string, ghost dirs: seq<string>, ghost notes: seq<NoteLine>, parent: string,
                        dirsByParent: map<string, seq<string>>, notesByParent: map<string, seq<NoteLine>>) returns (out: seq<TreeNode>)
    requires "" !in dirs
    requires forall p :: ListAt(dirsByParent, p) == DirsUnder(dirs, p)
    requires forall p :: ListAt(notesByParent, p) == NotesUnder(notes, p)
    ensures out == Level(lower, dirs, notes, parent)
    decreases Room(dirs, parent)
  {
    hide Level, Room, Sort, NoteNodes, DirOrder, NoteOrder, DirsUnder, NotesUnder, ContainingDirectory;
    out := [];
    var here := Sort(DirOrder(lower), ListAt(dirsByParent, parent));
    LevelIs(lower, dirs, notes, parent, here);
    for i := 0 to |here|
      invariant out == DirNodes(lower, dirs, notes, parent, here[..i])
    {
      assert here[..i + 1][..i] == here[..i] && here[i] in here;
      Deeper(dirs, parent, here[i]);
      var children := BuildTreeLevel(lower, dirs, notes, here[i], dirsByParent, notesByParent);
      out := out + [Directory(LastSegment(here[i]), here[i], children)];
    }
    assert here[..|here|] == here;
    out := AppendNotes(out, Sort(NoteOrder(lower), ListAt(notesByParent, parent)));
    LevelIs(lower, dirs, notes, parent, here);
  }

  lemma LevelIs(lower: string -> string, dirs: seq<string>, notes: seq<NoteLine>, parent: string, here: seq<string>)
    requires "" !in dirs && here == Sort(DirOrder(lower), DirsUnder(dirs, parent))
    ensures forall d :: d in here ==> d in dirs && ContainingDirectory(d) == parent
    ensures Level(lower, dirs, notes, parent) ==
            DirNodes(lower, dirs, notes, parent, here) + NoteNodes(Sort(NoteOrder(lower), NotesUnder(notes, parent)))
  {
    SameMembers(here, DirsUnder(dirs, parent));
  }

  method AppendNotes(nodes: seq<TreeNode>, lines: seq<NoteLine>) returns (out: seq<TreeNode>)
    ensures out == nodes + NoteNodes(lines)
  {
    out := nodes;
    for i := 0 to |lines|
      invariant out == nodes + NoteNodes(lines[..i])
    {
      assert lines[..i + 1][..i] == lines[..i];
      out := out + [Note(lines[i].id, lines[i].title, lines[i].path)];
    }
    assert lines[..|lines|] == lines;
  }

  /** `workspace_tree_impl` over the rows in whatever order the queries return them. */
  method WorkspaceTreeOf(lower: string -> string, dirs: seq<string>, notes: seq<NoteLine>) returns (out: seq<TreeNode>)
    requires "" !in dirs
    ensures out == Level(lower, dirs, notes, "")
  {
    var dirsByParent := GroupDirs(dirs);
    var notesByParent := GroupNotes(notes);
    out := BuildTreeLevel(lower, dirs, notes, "", dirsByParent, notesByParent);
  }

  // ----- what the tree holds

  /** The directories above a path, from the top down. */
  function Chain(id: string): seq<string>
    decreases |id|
  {
    if id == "" || ContainingDirectory(id) == "" then []
    else ContainingShorter(id); Chain(ContainingDirectory(id)) + [ContainingDirectory(id)]
  }

  function Below(parent: string): seq<string> {
    if parent == "" then [] else Chain(parent) + [parent]
  }

  datatype Row = OfDir(dir: string) | OfNote(note: NoteLine)

  /** A row and the directory nodes it sits beneath. */
  datatype Item = Item(above: seq<string>, row: Row)

  function ItemsOf(node: TreeNode, above: seq<string>): seq<Item>
    decreases node, 0
  {
    match node
    case Directory(_, path, children) => [Item(above, OfDir(path))] + Items(children, above + [path])
    case Note(id, title, path) => [Item(above, OfNote(NoteLine(id, path, title)))]
  }

  function Items(nodes: seq<TreeNode>, above: seq<string>): seq<Item>
    decreases nodes, 1
  {
    if nodes == [] then [] else Items(nodes[..|nodes| - 1], above) + ItemsOf(nodes[|nodes| - 1], above)
  }

  function IdOf(row: Row): string {
    match row case OfDir(d) => d case OfNote(n) => n.id
  }

  predicate IsRow(dirs: seq<string>, notes: seq<NoteLine>, row: Row) {
    match row case OfDir(d) => d in dirs case OfNote(n) => n in notes
  }

  /** Every directory above the path has a row. */
  predicate Complete(dirs: seq<string>, id: string) {
    forall p :: p in Chain(id) ==> p in dirs
  }
}

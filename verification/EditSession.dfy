/** Whole runs of buffered edits: a working text and its map, retyped leaf by leaf. */
module EditSession {
  import opened Text
  import opened Paths
  import opened Spans
  import opened BufferedEdit

  /** The working source and the map that describes it. */
  datatype Doc = Doc(text: string, blocks: seq<BlockSpan>)

  /** One keystroke's worth: the leaf at `path` now reads `text`. */
  datatype Typing = Typing(path: BlockPath, text: string)

  /** The index registered for a path. */
  function IndexOf(blocks: seq<BlockSpan>, path: BlockPath, from: nat): (r: Option<nat>)
    requires from <= |blocks|
    ensures r.Some? ==> from <= r.value < |blocks| && blocks[r.value].path == path
    ensures r.None? ==> forall i :: from <= i < |blocks| ==> blocks[i].path != path
    decreases |blocks| - from
  {
    if from == |blocks| then None
    else if blocks[from].path == path then Some(from)
    else IndexOf(blocks, path, from + 1)
  }

  /** A buffered edit as its caller makes it: the map is adjusted, and the text is spliced over
      the range the leaf occupied before. An unknown path and a container are refused. */
  function Step(doc: Doc, edit: Typing): Doc {
    var i := IndexOf(doc.blocks, edit.path, 0);
    if i.Some? && doc.blocks[i.value].children == [] && Get(doc.text, doc.blocks[i.value].source).Some? then
      Doc(Splice(doc.text, doc.blocks[i.value].source, edit.text), Edited(doc.blocks, i.value, ByteLen(edit.text)))
    else doc
  }

  function Run(doc: Doc, edits: seq<Typing>): Doc
    decreases |edits|
  {
    if edits == [] then doc else Run(Step(doc, edits[0]), edits[1..])
  }

  /** Every text on the way is one a Rust string can hold. */
  ghost predicate TextsFit(doc: Doc, edits: seq<Typing>)
    decreases |edits|
  {
    ByteLen(doc.text) <= ISIZE_MAX && (edits != [] ==> TextsFit(Step(doc, edits[0]), edits[1..]))
  }

  ghost predicate NonEmptyTexts(edits: seq<Typing>) {
    forall k :: 0 <= k < |edits| ==> edits[k].text != ""
  }

  function PathsOf(edits: seq<Typing>): set<BlockPath> {
    set k | 0 <= k < |edits| :: edits[k].path
  }

  /** What was last typed into the leaf at `path`, if anything was. */
  function LastTyped(edits: seq<Typing>, path: BlockPath, before: Option<string>): Option<string> {
    if edits == [] then before
    else LastTyped(edits[1..], path, if edits[0].path == path then Some(edits[0].text) else before)
  }

  function Read(doc: Doc, i: nat): Option<string>
    requires i < |doc.blocks|
  {
    Get(doc.text, doc.blocks[i].source)
  }

  /** An edit is accepted exactly when its path addresses a leaf. */
  ghost predicate Accepts(doc: Doc, edit: Typing, e: nat) {
    e < |doc.blocks| && doc.blocks[e].path == edit.path && doc.blocks[e].children == []
  }

  lemma StepAccepted(doc: Doc, edit: Typing, stale: set<BlockPath>, e: nat)
    requires Laid(doc.text, doc.blocks, stale) && Accepts(doc, edit, e)
    ensures Get(doc.text, doc.blocks[e].source).Some?
    ensures Step(doc, edit) == Doc(Splice(doc.text, doc.blocks[e].source, edit.text),
                                   Edited(doc.blocks, e, ByteLen(edit.text)))
  {
    assert IndexOf(doc.blocks, edit.path, 0) == Some(e);
  }

  /** A container, like an unknown path, is refused with text and map unchanged. */
  lemma StepRefused(doc: Doc, edit: Typing)
    requires forall e :: !Accepts(doc, edit, e)
    ensures Step(doc, edit) == doc
  {
    var i := IndexOf(doc.blocks, edit.path, 0);
    assert i.Some? ==> !Accepts(doc, edit, i.value);
  }

  /** The guard a caller can check: the leaf is not empty, or nothing before or around it starts
      where it does. */
  ghost predicate ClearEdit(doc: Doc, edit: Typing) {
    forall e :: Accepts(doc, edit, e) ==> Clear(doc.blocks, e, ByteLen(edit.text))
  }

  /** One step, accepted or refused. */
  lemma StepKeeps(doc: Doc, edit: Typing, stale: set<BlockPath>)
    requires Laid(doc.text, doc.blocks, stale) && ClearEdit(doc, edit)
    requires ByteLen(doc.text) <= ISIZE_MAX && ByteLen(Step(doc, edit).text) <= ISIZE_MAX
    ensures Laid(Step(doc, edit).text, Step(doc, edit).blocks, stale + {edit.path})
    ensures KeepsTree(doc.blocks, Step(doc, edit).blocks)
    ensures forall i :: 0 <= i < |doc.blocks| && doc.blocks[i].children == [] ==>
              Read(Step(doc, edit), i) == if doc.blocks[i].path == edit.path then Some(edit.text) else Read(doc, i)
    ensures NoneEmpty(doc.blocks) && edit.text != "" ==> NoneEmpty(Step(doc, edit).blocks)
  {
    if e: nat :| Accepts(doc, edit, e) {
      StepAccepted(doc, edit, stale, e);
      AcceptedKeeps(doc, edit, stale, e, Step(doc, edit));
    } else {
      StepRefused(doc, edit);
      assert forall i :: 0 <= i < |doc.blocks| && doc.blocks[i].children == [] ==> !Accepts(doc, edit, i);
    }
  }

  lemma AcceptedKeeps(doc: Doc, edit: Typing, stale: set<BlockPath>, e: nat, next: Doc)
    requires CanEdit(doc.text, doc.blocks, stale, e, edit.text) && doc.blocks[e].path == edit.path
    requires next == Doc(Splice(doc.text, doc.blocks[e].source, edit.text), Edited(doc.blocks, e, ByteLen(edit.text)))
    ensures Laid(next.text, next.blocks, stale + {edit.path})
    ensures KeepsTree(doc.blocks, next.blocks)
    ensures forall i :: 0 <= i < |doc.blocks| && doc.blocks[i].children == [] ==>
              Read(next, i) == if doc.blocks[i].path == edit.path then Some(edit.text) else Read(doc, i)
    ensures NoneEmpty(doc.blocks) && edit.text != "" ==> NoneEmpty(next.blocks)
  {
    hide Laid, Coherent, Get, Splice, Edited, Clear;
    EditKeepsLayout(doc.text, doc.blocks, stale, e, edit.text);
    forall i | 0 <= i < |doc.blocks|
      ensures doc.blocks[i].children == [] ==> Read(next, i) == if doc.blocks[i].path == edit.path then Some(edit.text) else Read(doc, i)
    {
      LeafReads(doc, edit, stale, e, i);
      OutsideTheLeaf(doc.text, doc.blocks, stale, e, i);
    }
    if NoneEmpty(doc.blocks) && edit.text != "" {
      EditKeepsCoherence(doc.text, doc.blocks, stale, e, edit.text);
      CoherentIsLaid(next.text, next.blocks, stale + {edit.path});
    }
  }

  lemma LeafReads(doc: Doc, edit: Typing, stale: set<BlockPath>, e: nat, i: nat)
    requires CanEdit(doc.text, doc.blocks, stale, e, edit.text) && i < |doc.blocks|
    ensures doc.blocks[i].children == [] ==>
              Get(Splice(doc.text, doc.blocks[e].source, edit.text), Edited(doc.blocks, e, ByteLen(edit.text))[i].source)
              == if i == e then Some(edit.text) else Get(doc.text, doc.blocks[i].source)
  {
    hide Get, Splice, Edited, Clear, ByteOff;
    EditReads(doc.text, doc.blocks, stale, e, edit.text, i);
    OutsideTheLeaf(doc.text, doc.blocks, stale, e, i);
  }

  /** Every edit of a session is clear when its turn comes. */
  ghost predicate AllClear(doc: Doc, edits: seq<Typing>)
    decreases |edits|
  {
    edits == [] || (ClearEdit(doc, edits[0]) && AllClear(Step(doc, edits[0]), edits[1..]))
  }

  /** The map is laid out over the text at every moment of a session. */
  ghost predicate LaidThroughout(doc: Doc, edits: seq<Typing>, stale: set<BlockPath>)
    decreases |edits|
  {
    Laid(doc.text, doc.blocks, stale)
    && (edits != [] ==> LaidThroughout(Step(doc, edits[0]), edits[1..], stale + {edits[0].path}))
  }

  /** From a laid-out map, a session keeps it laid out throughout exactly when every edit is clear
      when its turn comes. */
  lemma {:induction false} LaidExactly(doc: Doc, edits: seq<Typing>, stale: set<BlockPath>)
    requires Laid(doc.text, doc.blocks, stale) && TextsFit(doc, edits)
    ensures LaidThroughout(doc, edits, stale) <==> AllClear(doc, edits)
    decreases |edits|
  {
    hide Laid, Get, Step, Clear;
    if edits != [] {
      var next := Step(doc, edits[0]);
      assert ByteLen(next.text) <= ISIZE_MAX;
      if ClearEdit(doc, edits[0]) {
        StepKeeps(doc, edits[0], stale);
        LaidExactly(next, edits[1..], stale + {edits[0].path});
      } else {
        var e: nat :| Accepts(doc, edits[0], e) && !Clear(doc.blocks, e, ByteLen(edits[0].text));
        StepAccepted(doc, edits[0], stale, e);
        ClearOrMisplaced(doc.text, doc.blocks, stale, e, edits[0].text);
      }
    }
  }

  /** Over every run of accepted and refused edits, to any texts, that are clear when their turn
      comes: the map stays laid out but for the runs of the leaves typed into, and every leaf
      reads what was last typed into it, or else what it read at the start. */
  lemma {:induction false} RunKeeps(doc: Doc, edits: seq<Typing>, stale: set<BlockPath>)
    requires Laid(doc.text, doc.blocks, stale) && AllClear(doc, edits) && TextsFit(doc, edits)
    ensures Laid(Run(doc, edits).text, Run(doc, edits).blocks, stale + PathsOf(edits))
    ensures KeepsTree(doc.blocks, Run(doc, edits).blocks)
    ensures forall i :: 0 <= i < |doc.blocks| && doc.blocks[i].children == [] ==>
              Read(Run(doc, edits), i) == LastTyped(edits, doc.blocks[i].path, Read(doc, i))
    decreases |edits|
  {
    hide Laid, Get, Step, ClearEdit;
    if edits == [] {
      assert stale + PathsOf(edits) == stale;
    } else {
      var next := Step(doc, edits[0]);
      assert ByteLen(next.text) <= ISIZE_MAX;
      StepKeeps(doc, edits[0], stale);
      RunKeeps(next, edits[1..], stale + {edits[0].path});
      FirstPath(edits, stale);
    }
  }

  lemma FirstPath(edits: seq<Typing>, stale: set<BlockPath>)
    requires edits != []
    ensures stale + {edits[0].path} + PathsOf(edits[1..]) == stale + PathsOf(edits)
  {
    forall p ensures p in PathsOf(edits) <==> p == edits[0].path || p in PathsOf(edits[1..]) {
      if p in PathsOf(edits[1..]) {
        var k :| 0 <= k < |edits[1..]| && edits[1..][k].path == p;
        assert edits[k + 1].path == p;
      }
      if p in PathsOf(edits) && p != edits[0].path {
        var k :| 0 <= k < |edits| && edits[k].path == p;
        assert edits[1..][k - 1].path == p;
      }
    }
  }

  /** From a coherent map, edits to non-empty texts are always clear, and keep it coherent. */
  lemma {:induction false} RunCoherent(doc: Doc, edits: seq<Typing>, stale: set<BlockPath>)
    requires Coherent(doc.text, doc.blocks, stale) && NonEmptyTexts(edits) && TextsFit(doc, edits)
    ensures AllClear(doc, edits)
    ensures Coherent(Run(doc, edits).text, Run(doc, edits).blocks, stale + PathsOf(edits))
    decreases |edits|
  {
    hide Laid, Coherent, Get, Step;
    CoherentIsLaid(doc.text, doc.blocks, stale);
    if edits == [] {
      assert stale + PathsOf(edits) == stale;
    } else {
      var next := Step(doc, edits[0]);
      assert ByteLen(next.text) <= ISIZE_MAX;
      StepKeeps(doc, edits[0], stale);
      CoherentIsLaid(next.text, next.blocks, stale + {edits[0].path});
      RunCoherent(next, edits[1..], stale + {edits[0].path});
      FirstPath(edits, stale);
    }
  }
}

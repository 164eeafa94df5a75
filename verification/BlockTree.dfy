/** Every registered path leads to the node it was registered for, at every step of a well-nested
    stream, although containers are addressed at their start tag and attached at their end. */
module BlockTree {
  import opened Text
  import opened Paths
  import opened Ast
  import opened Inlines
  import opened Spans
  import opened Events
  import opened BuilderModel

  // ----- paths through the open frames

  function Init<T>(s: seq<T>): seq<T>
    requires s != []
  {
    s[..|s| - 1]
  }

  function Top<T>(s: seq<T>): T
    requires s != []
  {
    s[|s| - 1]
  }

  /** Each open container has the path that was next when it opened, and nothing has been
      attached outside it since. */
  ghost predicate FramesOk(frames: seq<Frame>, rootLen: nat) {
    frames == [] ||
    (FramesOk(Init(frames), rootLen) &&
     (Top(frames).kind.HoldsChildren() ==> Top(frames).kind.path == NextPath(Init(frames), rootLen)))
  }

  /** The path leads to the node, through the finished part of the tree or through the children
      collected so far by an open container. */
  ghost predicate Located(frames: seq<Frame>, root: seq<AstNode>, p: BlockPath, node: AstNode)
    decreases |frames|
  {
    if frames == [] then Walk(root, p) == Some(node)
    else
      var kind := Top(frames).kind;
      if kind.HoldsChildren() && kind.path <= p then Walk(kind.nodes, p[|kind.path|..]) == Some(node)
      else Located(Init(frames), root, p, node)
  }

  lemma NextPathIn(frames: seq<Frame>, rootLen: nat)
    requires frames != []
    ensures NextPath(frames, rootLen) ==
            if Top(frames).kind.HoldsChildren() then Top(frames).kind.path + [|Top(frames).kind.nodes|]
            else NextPath(Init(frames), rootLen)
  {
    var i := ContainerIndex(Init(frames));
    if i.Some? { assert frames[i.value] == Init(frames)[i.value]; }
  }

  lemma WalkedBefore(top: BlockPath, nodes: seq<AstNode>, p: BlockPath, node: AstNode)
    requires top <= p && Walk(nodes, p[|top|..]) == Some(node)
    ensures Before(p, top + [|nodes|])
  {
    hide Before;
    var rest := p[|top|..];
    assert rest != [] && rest[0] < |nodes|;
    hide Walk;
    assert rest == [rest[0]] + rest[1..];
    assert p == top + rest == top + [rest[0]] + rest[1..];
    SiblingsBefore(top, rest[0], rest[1..], |nodes|);
  }

  /** A path that already leads somewhere comes before the next one. */
  lemma {:induction false} LocatedBefore(frames: seq<Frame>, root: seq<AstNode>, p: BlockPath, node: AstNode)
    requires FramesOk(frames, |root|) && Located(frames, root, p, node)
    ensures Before(p, NextPath(frames, |root|))
    decreases |frames|
  {
    if frames == [] {
      WalkedBefore([], root, p, node);
      assert [] + [|root|] == [|root|];
    } else {
      hide Walk, Before, NextPath;
      NextPathIn(frames, |root|);
      var kind := Top(frames).kind;
      if kind.HoldsChildren() && kind.path <= p {
        WalkedBefore(kind.path, kind.nodes, p, node);
      } else {
        LocatedBefore(Init(frames), root, p, node);
        if kind.HoldsChildren() {
          BeforeExtends(p, kind.path, p, kind.path + [|kind.nodes|]);
        }
      }
    }
  }

  // ----- attaching

  function RootAfter(frames: seq<Frame>, root: seq<AstNode>, node: AstNode): seq<AstNode> {
    if ContainerIndex(frames).None? then root + [node] else root
  }

  /** Attaching, seen from the last frame. */
  lemma AttachStep(frames: seq<Frame>, node: AstNode)
    requires frames != []
    ensures var frames', top := AttachIn(frames, node), Top(frames);
            |frames'| == |frames| &&
            (top.kind.HoldsChildren() ==>
               Init(frames') == Init(frames) && Top(frames') == top.(kind := top.kind.(nodes := top.kind.nodes + [node])))
            && (!top.kind.HoldsChildren() ==> Init(frames') == AttachIn(Init(frames), node) && Top(frames') == top)
    ensures ContainerIndex(frames).None? <==> !Top(frames).kind.HoldsChildren() && ContainerIndex(Init(frames)).None?
  {
    var frames' := AttachIn(frames, node);
    if Top(frames).kind.HoldsChildren() {
      assert ContainerIndex(frames) == Some(|frames| - 1);
      assert Init(frames') == Init(frames);
    } else {
      var i := ContainerIndex(Init(frames));
      assert ContainerIndex(frames) == i;
      hide ContainerIndex;
      if i.Some? {
        assert frames[i.value] == Init(frames)[i.value];
        UpdateInit(frames, i.value, frames'[i.value]);
      }
    }
  }

  lemma UpdateInit(frames: seq<Frame>, i: nat, frame: Frame)
    requires i + 1 < |frames|
    ensures Init(frames[i := frame]) == Init(frames)[i := frame] && Top(frames[i := frame]) == Top(frames)
  {
  }

  lemma {:induction false} AttachFramesOk(frames: seq<Frame>, root: seq<AstNode>, node: AstNode)
    requires FramesOk(frames, |root|)
    ensures FramesOk(AttachIn(frames, node), |RootAfter(frames, root, node)|)
    decreases |frames|
  {
    if frames != [] {
      AttachStep(frames, node);
      if !Top(frames).kind.HoldsChildren() { AttachFramesOk(Init(frames), root, node); }
    }
  }

  /** Paths that led somewhere still do. */
  lemma {:induction false} AttachLocated(frames: seq<Frame>, root: seq<AstNode>, node: AstNode, p: BlockPath, x: AstNode)
    requires Located(frames, root, p, x)
    ensures Located(AttachIn(frames, node), RootAfter(frames, root, node), p, x)
    decreases |frames|
  {
    if frames == [] {
      WalkAppend(root, node, p);
    } else {
      AttachStep(frames, node);
      var kind := Top(frames).kind;
      if kind.HoldsChildren() {
        if kind.path <= p { WalkAppend(kind.nodes, node, p[|kind.path|..]); }
      } else {
        AttachLocated(Init(frames), root, node, p, x);
      }
    }
  }

  /** The attached node is found at the path that was next, and its own children below it. */
  lemma {:induction false} AttachedAt(frames: seq<Frame>, root: seq<AstNode>, node: AstNode, rest: BlockPath, x: AstNode)
    requires FramesOk(frames, |root|)
    requires if rest == [] then x == node else Walk(Kids(node), rest) == Some(x)
    ensures Located(AttachIn(frames, node), RootAfter(frames, root, node), NextPath(frames, |root|) + rest, x)
    decreases |frames|
  {
    hide Walk;
    var p := NextPath(frames, |root|) + rest;
    if frames == [] {
      AttachedWalk(root, node, rest, x);
    } else {
      NextPathIn(frames, |root|);
      AttachStep(frames, node);
      hide NextPath;
      var kind := Top(frames).kind;
      if kind.HoldsChildren() {
        assert p == kind.path + ([|kind.nodes|] + rest);
        AttachedWalk(kind.nodes, node, rest, x);
      } else {
        AttachedAt(Init(frames), root, node, rest, x);
      }
    }
  }

  lemma AttachedWalk(nodes: seq<AstNode>, node: AstNode, rest: BlockPath, x: AstNode)
    requires if rest == [] then x == node else Walk(Kids(node), rest) == Some(x)
    ensures Walk(nodes + [node], [|nodes|] + rest) == Some(x)
  {
    if rest == [] { assert [|nodes|] + rest == [|nodes|]; } else { WalkLast(nodes, node, rest); }
  }

  // ----- the invariant

  ghost predicate HasReg(regs: seq<Reg>, p: BlockPath) {
    exists i :: 0 <= i < |regs| && regs[i].path == p
  }

  ghost predicate IsOpen(frames: seq<Frame>, p: BlockPath) {
    exists k :: 0 <= k < |frames| && frames[k].kind.HoldsChildren() && frames[k].kind.path == p
  }

  /** A block's parent is registered, or is a container still open. */
  ghost predicate ParentKnown(frames: seq<Frame>, regs: seq<Reg>, p: BlockPath) {
    |p| >= 2 ==> HasReg(regs, Parent(p)) || IsOpen(frames, Parent(p))
  }

  ghost predicate Tree(frames: seq<Frame>, root: seq<AstNode>, regs: seq<Reg>) {
    && FramesOk(frames, |root|)
    && (forall i :: 0 <= i < |regs| ==> Located(frames, root, regs[i].path, regs[i].node))
    && (forall i, j :: 0 <= i < j < |regs| ==> regs[i].path != regs[j].path)
    && (forall i :: 0 <= i < |regs| ==> regs[i].path != [] && ParentKnown(frames, regs, regs[i].path))
  }

  ghost predicate TreeInv(st: State) {
    Tree(st.frames, st.root, st.regs)
  }

  lemma ParentStays(frames: seq<Frame>, frames': seq<Frame>, regs: seq<Reg>, regs': seq<Reg>, p: BlockPath)
    requires ParentKnown(frames, regs, p)
    requires regs <= regs'
    requires forall q :: IsOpen(frames, q) ==> IsOpen(frames', q) || HasReg(regs', q)
    ensures ParentKnown(frames', regs', p)
  {
    if |p| >= 2 && HasReg(regs, Parent(p)) {
      var i :| 0 <= i < |regs| && regs[i].path == Parent(p);
      assert regs'[i] == regs[i];
    }
  }

  lemma AttachOpen(frames: seq<Frame>, node: AstNode, q: BlockPath)
    requires IsOpen(frames, q)
    ensures IsOpen(AttachIn(frames, node), q)
  {
    var k :| 0 <= k < |frames| && frames[k].kind.HoldsChildren() && frames[k].kind.path == q;
    assert AttachIn(frames, node)[k].kind.HoldsChildren();
  }

  lemma NextPathParent(frames: seq<Frame>, rootLen: nat)
    ensures NextPath(frames, rootLen) != []
    ensures |NextPath(frames, rootLen)| >= 2 ==> IsOpen(frames, Parent(NextPath(frames, rootLen)))
  {
    var i := ContainerIndex(frames);
    if i.Some? { assert Parent(NextPath(frames, rootLen)) == frames[i.value].kind.path; }
  }

  /** Attaching a node, with or without registering it at the path that was next. */
  lemma AttachTree(frames: seq<Frame>, root: seq<AstNode>, regs: seq<Reg>, node: AstNode, added: seq<Reg>)
    requires Tree(frames, root, regs)
    requires added == [] || (|added| == 1 && added[0].path == NextPath(frames, |root|) && added[0].node == node)
    ensures Tree(AttachIn(frames, node), RootAfter(frames, root, node), regs + added)
  {
    var frames', root', regs' := AttachIn(frames, node), RootAfter(frames, root, node), regs + added;
    AttachFramesOk(frames, root, node);
    NextPathParent(frames, |root|);
    forall q | IsOpen(frames, q) ensures IsOpen(frames', q) { AttachOpen(frames, node, q); }
    hide AttachIn, RootAfter, NextPath, Located, FramesOk, IsOpen, HasReg, Before;
    forall i | 0 <= i < |regs'|
      ensures Located(frames', root', regs'[i].path, regs'[i].node)
      ensures regs'[i].path != [] && ParentKnown(frames', regs', regs'[i].path)
      ensures i < |regs| ==> regs'[i].path != NextPath(frames, |root|)
    {
      if i < |regs| {
        AttachLocated(frames, root, node, regs[i].path, regs[i].node);
        ParentStays(frames, frames', regs, regs', regs[i].path);
        LocatedBefore(frames, root, regs[i].path, regs[i].node);
        Trichotomy(regs[i].path, NextPath(frames, |root|));
      } else {
        AttachedAt(frames, root, node, [], node);
        assert NextPath(frames, |root|) + [] == NextPath(frames, |root|);
      }
    }
  }

  lemma PushTree(st: State, node: AstNode, range: Option<Range>, runs: seq<InlineRun>)
    requires TreeInv(st)
    ensures TreeInv(PushBlock(st, node, range, runs))
  {
    var added := if range.Some? then [Reg(NextPath(st.frames, |st.root|), range.value, runs, node)] else [];
    AttachTree(st.frames, st.root, st.regs, node, added);
    AttachIs(if range.Some? then st.(regs := st.regs + added) else st, node);
    assert st.regs + [] == st.regs;
  }

  lemma AttachIs(st: State, node: AstNode)
    ensures Attach(st, node) == st.(frames := AttachIn(st.frames, node), root := RootAfter(st.frames, st.root, node))
  {
  }

  // ----- opening and closing frames

  lemma OpenTree(frames: seq<Frame>, root: seq<AstNode>, regs: seq<Reg>, frame: Frame)
    requires Tree(frames, root, regs)
    requires frame.kind.HoldsChildren() ==> frame.kind.path == NextPath(frames, |root|)
    ensures Tree(frames + [frame], root, regs)
  {
    var frames' := frames + [frame];
    assert Init(frames') == frames && Top(frames') == frame;
    forall q | IsOpen(frames, q) ensures IsOpen(frames', q) {
      var k :| 0 <= k < |frames| && frames[k].kind.HoldsChildren() && frames[k].kind.path == q;
      assert frames'[k] == frames[k];
    }
    forall i | 0 <= i < |regs|
      ensures Located(frames', root, regs[i].path, regs[i].node) && ParentKnown(frames', regs, regs[i].path)
    {
      LocatedBefore(frames, root, regs[i].path, regs[i].node);
      Trichotomy(regs[i].path, NextPath(frames, |root|));
      ParentStays(frames, frames', regs, regs, regs[i].path);
    }
  }

  lemma PopLeafTree(frames: seq<Frame>, root: seq<AstNode>, regs: seq<Reg>)
    requires frames != [] && !Top(frames).kind.HoldsChildren() && Tree(frames, root, regs)
    ensures Tree(Init(frames), root, regs)
  {
    forall q | IsOpen(frames, q) ensures IsOpen(Init(frames), q) {
      var k :| 0 <= k < |frames| && frames[k].kind.HoldsChildren() && frames[k].kind.path == q;
      assert Init(frames)[k] == frames[k];
    }
    forall i | 0 <= i < |regs|
      ensures Located(Init(frames), root, regs[i].path, regs[i].node) && ParentKnown(Init(frames), regs, regs[i].path)
    {
      ParentStays(frames, Init(frames), regs, regs, regs[i].path);
    }
  }

  /** What was open before a container closes is open or registered afterwards. */
  lemma CloseOpen(frames: seq<Frame>, regs: seq<Reg>, added: Reg, q: BlockPath)
    requires frames != [] && Top(frames).kind.HoldsChildren() && added.path == Top(frames).kind.path && IsOpen(frames, q)
    ensures IsOpen(AttachIn(Init(frames), added.node), q) || HasReg(regs + [added], q)
  {
    var k :| 0 <= k < |frames| && frames[k].kind.HoldsChildren() && frames[k].kind.path == q;
    if k == |frames| - 1 {
      assert (regs + [added])[|regs|].path == q;
    } else {
      assert Init(frames)[k] == frames[k];
      AttachOpen(Init(frames), added.node, q);
    }
  }

  /** Closing a container: its children move under the node just attached, at the same paths. */
  lemma CloseTree(frames: seq<Frame>, root: seq<AstNode>, regs: seq<Reg>, added: Reg)
    requires frames != [] && Top(frames).kind.HoldsChildren() && Tree(frames, root, regs)
    requires added.path == Top(frames).kind.path && added.node == NodeOf(Top(frames).kind)
    ensures Tree(AttachIn(Init(frames), added.node), RootAfter(Init(frames), root, added.node), regs + [added])
    ensures forall i :: 0 <= i < |regs| ==> regs[i].path != added.path
  {
    hide AttachIn, RootAfter, NextPath, IsOpen, HasReg, ParentKnown, Located, NodeOf;
    var outer := Init(frames);
    var frames', root', regs' := AttachIn(outer, added.node), RootAfter(outer, root, added.node), regs + [added];
    AttachFramesOk(outer, root, added.node);
    forall q | IsOpen(frames, q) ensures IsOpen(frames', q) || HasReg(regs', q) { CloseOpen(frames, regs, added, q); }
    forall i | 0 <= i < |regs'|
      ensures Located(frames', root', regs'[i].path, regs'[i].node)
      ensures regs'[i].path != [] && ParentKnown(frames', regs', regs'[i].path)
      ensures i < |regs| ==> regs'[i].path != added.path
    {
      if i == |regs| {
        CloseOwn(outer, root, regs', added);
      } else {
        assert regs'[i] == regs[i];
        ParentStays(frames, frames', regs, regs', regs[i].path);
        CloseInner(frames, root, added, regs[i].path, regs[i].node);
      }
    }
    forall i | 0 <= i < |regs| ensures regs[i].path != added.path { assert regs'[i] == regs[i]; }
  }

  /** The container itself is found at the path it was given when it opened. */
  lemma CloseOwn(outer: seq<Frame>, root: seq<AstNode>, regs': seq<Reg>, added: Reg)
    requires FramesOk(outer, |root|) && added.path == NextPath(outer, |root|)
    ensures Located(AttachIn(outer, added.node), RootAfter(outer, root, added.node), added.path, added.node)
    ensures added.path != [] && ParentKnown(AttachIn(outer, added.node), regs', added.path)
  {
    var p := added.path;
    NextPathParent(outer, |root|);
    AttachedAt(outer, root, added.node, [], added.node);
    assert p + [] == p;
    if |p| >= 2 { AttachOpen(outer, added.node, Parent(p)); }
  }

  /** Everything registered before is found where it was, and none at the container's own path. */
  lemma CloseInner(frames: seq<Frame>, root: seq<AstNode>, added: Reg, p: BlockPath, x: AstNode)
    requires frames != [] && Top(frames).kind.HoldsChildren() && FramesOk(frames, |root|) && Located(frames, root, p, x)
    requires added.path == Top(frames).kind.path && added.node == NodeOf(Top(frames).kind)
    ensures Located(AttachIn(Init(frames), added.node), RootAfter(Init(frames), root, added.node), p, x)
    ensures p != added.path
  {
    hide AttachIn, RootAfter;
    var outer, kind := Init(frames), Top(frames).kind;
    if kind.path <= p {
      AttachedAt(outer, root, added.node, p[|kind.path|..], x);
      assert p == kind.path + p[|kind.path|..];
    } else {
      AttachLocated(outer, root, added.node, p, x);
    }
  }

  /** Marking a frame as split, or an item as checked, moves nothing. */
  ghost predicate SameFrames(frames: seq<Frame>, frames': seq<Frame>) {
    && |frames'| == |frames|
    && forall i :: 0 <= i < |frames| ==>
         frames'[i].kind.HoldsChildren() == frames[i].kind.HoldsChildren() &&
         (frames[i].kind.HoldsChildren() ==>
            frames'[i].kind.path == frames[i].kind.path && frames'[i].kind.nodes == frames[i].kind.nodes)
  }

  lemma {:induction false} SameNextPath(frames: seq<Frame>, frames': seq<Frame>, rootLen: nat)
    requires SameFrames(frames, frames')
    ensures NextPath(frames', rootLen) == NextPath(frames, rootLen)
    decreases |frames|
  {
    if frames != [] {
      NextPathIn(frames, rootLen);
      NextPathIn(frames', rootLen);
      SameNextPath(Init(frames), Init(frames'), rootLen);
    }
  }

  lemma {:induction false} SameFramesOk(frames: seq<Frame>, frames': seq<Frame>, rootLen: nat)
    requires SameFrames(frames, frames') && FramesOk(frames, rootLen)
    ensures FramesOk(frames', rootLen)
    decreases |frames|
  {
    if frames != [] {
      SameNextPath(Init(frames), Init(frames'), rootLen);
      SameFramesOk(Init(frames), Init(frames'), rootLen);
    }
  }

  lemma {:induction false} SameLocated(frames: seq<Frame>, frames': seq<Frame>, root: seq<AstNode>, p: BlockPath, x: AstNode)
    requires SameFrames(frames, frames') && Located(frames, root, p, x)
    ensures Located(frames', root, p, x)
    decreases |frames|
  {
    if frames != [] && !(Top(frames).kind.HoldsChildren() && Top(frames).kind.path <= p) {
      SameLocated(Init(frames), Init(frames'), root, p, x);
    }
  }

  lemma SameTree(frames: seq<Frame>, frames': seq<Frame>, root: seq<AstNode>, regs: seq<Reg>)
    requires SameFrames(frames, frames') && Tree(frames, root, regs)
    ensures Tree(frames', root, regs)
  {
    SameFramesOk(frames, frames', |root|);
    forall q | IsOpen(frames, q) ensures IsOpen(frames', q) {
      var k :| 0 <= k < |frames| && frames[k].kind.HoldsChildren() && frames[k].kind.path == q;
      assert frames'[k].kind.HoldsChildren();
    }
    forall i | 0 <= i < |regs|
      ensures Located(frames', root, regs[i].path, regs[i].node) && ParentKnown(frames', regs, regs[i].path)
    {
      SameLocated(frames, frames', root, regs[i].path, regs[i].node);
      ParentStays(frames, frames', regs, regs, regs[i].path);
    }
  }
}

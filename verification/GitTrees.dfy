/** Git trees as maps from file path to blob, and the edits a pathspec commit makes to one. */
module GitTrees {
  import opened Text
  import opened SlashPaths

  /** Blob ids are content addresses, so a blob is its content and mode. */
  datatype Blob = Blob(bytes: string, executable: bool)

  type Tree = map<string, Blob>

  /** What a named path became: the blob read from disk, or nothing. */
  datatype Staged = Staged(path: string, blob: Option<Blob>)

  function Lookup(t: Tree, q: string): Option<Blob> {
    if q in t then Some(t[q]) else None
  }

  /** No file stands where another file needs a directory. */
  ghost predicate PrefixFree(t: Tree) {
    forall p, q :: p in t && q in t ==> !Under(p, q)
  }

  /** The tree editor's `upsert`: the entry takes the place of a subtree, and of a file standing
      where one of its directories has to be. */
  function Upsert(t: Tree, p: string, b: Blob): Tree {
    (map q | q in t && !Nested(q, p) :: t[q])[p := b]
  }

  /** The tree editor's `remove`: the entry goes, with everything under it. */
  function Remove(t: Tree, p: string): Tree {
    map q | q in t && !AtOrUnder(q, p) :: t[q]
  }

  function Edit(t: Tree, s: Staged): Tree {
    if s.blob.Some? then Upsert(t, s.path, s.blob.value) else Remove(t, s.path)
  }

  function Apply(t: Tree, staged: seq<Staged>): Tree {
    if staged == [] then t else Edit(Apply(t, staged[..|staged| - 1]), staged[|staged| - 1])
  }

  /** An edit's reach: the path, what is under it, and for a file the files above it. */
  predicate Touches(s: Staged, q: string) {
    AtOrUnder(q, s.path) || (s.blob.Some? && AtOrUnder(s.path, q))
  }

  ghost predicate Touched(staged: seq<Staged>, q: string) {
    exists i :: 0 <= i < |staged| && Touches(staged[i], q)
  }

  /** Named paths none of which is another or beneath another. */
  ghost predicate Separate(staged: seq<Staged>) {
    forall i, j :: 0 <= i < j < |staged| ==> !Nested(staged[i].path, staged[j].path)
  }

  lemma EditLookup(t: Tree, s: Staged, q: string)
    ensures Lookup(Edit(t, s), q) ==
            if Touches(s, q) then (if q == s.path then s.blob else None) else Lookup(t, q)
  {
  }

  /** A path no edit reaches keeps its entry. */
  lemma {:induction false} UntouchedKept(t: Tree, staged: seq<Staged>, q: string)
    requires !Touched(staged, q)
    ensures Lookup(Apply(t, staged), q) == Lookup(t, q)
    decreases |staged|
  {
    if staged != [] {
      var init, last := staged[..|staged| - 1], staged[|staged| - 1];
      EditLookup(Apply(t, init), last, q);
      assert forall i :: 0 <= i < |init| ==> init[i] == staged[i];
      UntouchedKept(t, init, q);
    }
  }

  /** An edit decides what later edits do not reach: at its path what was staged there, nothing in
      the rest of its reach. */
  lemma {:induction false} LastEditDecides(t: Tree, staged: seq<Staged>, i: nat, q: string)
    requires i < |staged| && Touches(staged[i], q)
    requires forall j :: i < j < |staged| ==> !Touches(staged[j], q)
    ensures Lookup(Apply(t, staged), q) == if q == staged[i].path then staged[i].blob else None
    decreases |staged|
  {
    var init, last := staged[..|staged| - 1], staged[|staged| - 1];
    EditLookup(Apply(t, init), last, q);
    if i < |staged| - 1 { LastEditDecides(t, init, i, q); }
  }

  /** Two paths that both hold `q`, or one that holds it and one it holds, are nested. */
  lemma Reached(q: string, p: string, r: string)
    requires AtOrUnder(q, p) && Nested(q, r)
    ensures Nested(p, r)
  {
    if AtOrUnder(q, r) {
      if |p| <= |r| { assert p == q[..|p|] == r[..|p|]; } else { assert r == q[..|r|] == p[..|r|]; }
    }
  }

  /** With separate names, every named path holds exactly what was staged for it, and nothing is
      left beneath it. */
  lemma SeparateHold(t: Tree, staged: seq<Staged>, i: nat)
    requires Separate(staged) && i < |staged|
    ensures Lookup(Apply(t, staged), staged[i].path) == staged[i].blob
    ensures forall q :: Under(q, staged[i].path) ==> q !in Apply(t, staged)
  {
    forall q | AtOrUnder(q, staged[i].path)
      ensures Lookup(Apply(t, staged), q) == if q == staged[i].path then staged[i].blob else None
    {
      forall j | i < j < |staged| ensures !Touches(staged[j], q) {
        assert !Nested(staged[i].path, staged[j].path);
        if Touches(staged[j], q) { Reached(q, staged[i].path, staged[j].path); }
      }
      LastEditDecides(t, staged, i, q);
    }
  }

  lemma {:induction false} ApplyPrefixFree(t: Tree, staged: seq<Staged>)
    requires PrefixFree(t)
    ensures PrefixFree(Apply(t, staged))
    decreases |staged|
  {
    if staged != [] { ApplyPrefixFree(t, staged[..|staged| - 1]); }
  }

  /** The named path already is what was read: the same blob, or nothing at or beneath it. */
  ghost predicate Matches(t: Tree, s: Staged) {
    if s.blob.Some? then Lookup(t, s.path) == s.blob
    else forall q :: q in t ==> !AtOrUnder(q, s.path)
  }

  /** An edit of a real tree changes nothing exactly when the path already matches. */
  lemma EditNothing(t: Tree, s: Staged)
    requires PrefixFree(t)
    ensures Edit(t, s) == t <==> Matches(t, s)
  {
    EditLookup(t, s, s.path);
    if Edit(t, s) == t {
      forall q | q in t && s.blob.None? ensures !AtOrUnder(q, s.path) { EditLookup(t, s, q); }
    }
    if Matches(t, s) {
      forall q ensures Lookup(Edit(t, s), q) == Lookup(t, q) {
        EditLookup(t, s, q);
      }
      SameLookups(Edit(t, s), t);
    }
  }

  lemma SameLookups(a: Tree, b: Tree)
    requires forall q :: Lookup(a, q) == Lookup(b, q)
    ensures a == b
  {
    forall q ensures q in a <==> q in b { assert Lookup(a, q) == Lookup(b, q); }
    forall q | q in a ensures a[q] == b[q] { assert Lookup(a, q) == Lookup(b, q); }
  }

  /** No edit after the `i`th reaches the path. */
  ghost predicate LastTouches(staged: seq<Staged>, i: nat, q: string) {
    i < |staged| && Touches(staged[i], q) && forall j :: i < j < |staged| ==> !Touches(staged[j], q)
  }

  /** What an edit leaves at a path it reaches. */
  function Puts(s: Staged, q: string): Option<Blob> {
    if q == s.path then s.blob else None
  }

  /** Wherever an edit is the last to reach, the tree already is as it leaves it. */
  ghost predicate AlreadyThere(t: Tree, staged: seq<Staged>) {
    forall i: nat, q :: LastTouches(staged, i, q) ==> Lookup(t, q) == Puts(staged[i], q)
  }

  lemma {:induction false} SomeLastTouch(staged: seq<Staged>, q: string) returns (i: nat)
    requires Touched(staged, q)
    ensures LastTouches(staged, i, q)
    decreases |staged|
  {
    i := |staged| - 1;
    if !Touches(staged[i], q) {
      var init := staged[..i];
      assert forall j :: 0 <= j < i ==> init[j] == staged[j];
      assert Touched(init, q) by {
        var k :| 0 <= k < |staged| && Touches(staged[k], q);
        assert k < i;
      }
      i := SomeLastTouch(init, q);
    }
  }

  /** Edits of any names, nested in one another or not, change nothing exactly when the tree
      already is as they leave it. */
  lemma NothingToCommit(t: Tree, staged: seq<Staged>)
    ensures Apply(t, staged) == t <==> AlreadyThere(t, staged)
  {
    hide Apply, Touches;
    if Apply(t, staged) == t {
      forall i: nat, q | LastTouches(staged, i, q) ensures Lookup(t, q) == Puts(staged[i], q) { LastEditDecides(t, staged, i, q); }
    }
    if AlreadyThere(t, staged) {
      forall q ensures Lookup(Apply(t, staged), q) == Lookup(t, q) {
        if Touched(staged, q) {
          var i := SomeLastTouch(staged, q);
          LastEditDecides(t, staged, i, q);
        } else {
          UntouchedKept(t, staged, q);
        }
      }
      SameLookups(Apply(t, staged), t);
    }
  }

  /** On a real tree and with separate names, that is every named path matching. */
  lemma SeparateNothing(t: Tree, staged: seq<Staged>)
    requires PrefixFree(t) && Separate(staged)
    ensures AlreadyThere(t, staged) <==> forall i :: 0 <= i < |staged| ==> Matches(t, staged[i])
  {
    hide Apply, AlreadyThere, PrefixFree, Separate, Matches;
    NothingToCommit(t, staged);
    if forall i :: 0 <= i < |staged| ==> Matches(t, staged[i]) {
      MatchingKeeps(t, staged);
    }
    if Apply(t, staged) == t {
      forall i | 0 <= i < |staged| ensures Matches(t, staged[i]) { HeldMatches(t, staged, i); }
    }
  }

  lemma HeldMatches(t: Tree, staged: seq<Staged>, i: nat)
    requires Separate(staged) && i < |staged| && Apply(t, staged) == t
    ensures Matches(t, staged[i])
  {
    hide Apply;
    SeparateHold(t, staged, i);
  }

  lemma {:induction false} MatchingKeeps(t: Tree, staged: seq<Staged>)
    requires PrefixFree(t) && forall i :: 0 <= i < |staged| ==> Matches(t, staged[i])
    ensures Apply(t, staged) == t
    decreases |staged|
  {
    if staged != [] {
      MatchingKeeps(t, staged[..|staged| - 1]);
      EditNothing(t, staged[|staged| - 1]);
    }
  }

  /** A file and then its directory: the directory is no file, so it counts as gone and takes the
      file just staged with it. */
  lemma DirectoryTakesFile(b: Blob)
    ensures Apply(map["a/b" := b], [Staged("a/b", Some(b)), Staged("a", None)]) == map[]
  {
    var t: Tree, first, last := map["a/b" := b], Staged("a/b", Some(b)), Staged("a", None);
    assert [first, last][..1] == [first] && [first][..0] == [];
    assert Apply(t, [first]) == Edit(Apply(t, []), first) == t;
    assert AtOrUnder("a/b", "a") by { assert "a" <= "a/b"; }
    assert Edit(t, last) == map[];
  }

  /** A file standing where a staged one needs a directory: neither named nor kept. */
  lemma FileAboveDisplaced(a: Blob, b: Blob)
    ensures var staged := [Staged("a/b", Some(b))];
            Apply(map["a" := a], staged) == map["a/b" := b] && !Named(staged, "a")
  {
    var t: Tree, s := map["a" := a], Staged("a/b", Some(b));
    assert [s][..0] == [];
    assert Apply(t, [s]) == Edit(t, s);
    assert AtOrUnder("a/b", "a") by { assert "a" <= "a/b"; }
    assert Edit(t, s) == map["a/b" := b];
  }

  ghost predicate Named(staged: seq<Staged>, q: string) {
    exists i :: 0 <= i < |staged| && AtOrUnder(q, staged[i].path)
  }

  /** A file standing above a staged file is gone, unless it was named itself. */
  lemma {:induction false} AboveIsGone(t: Tree, staged: seq<Staged>, q: string)
    requires Touched(staged, q) && !Named(staged, q)
    ensures q !in Apply(t, staged)
    decreases |staged|
  {
    var init, last := staged[..|staged| - 1], staged[|staged| - 1];
    EditLookup(Apply(t, init), last, q);
    assert !AtOrUnder(q, last.path);
    if !Touches(last, q) {
      var i :| 0 <= i < |staged| && Touches(staged[i], q);
      assert i < |init| && init[i] == staged[i];
      assert forall j :: 0 <= j < |init| ==> init[j] == staged[j];
      AboveIsGone(t, init, q);
    }
  }

  /** A commit differs from its parent only at or under its named paths exactly when no file of the
      parent stands, unnamed, where a staged file needs a directory. */
  lemma OnlyNamedPathsDiffer(t: Tree, staged: seq<Staged>)
    ensures (forall q :: !Named(staged, q) ==> Lookup(Apply(t, staged), q) == Lookup(t, q))
            <==> (forall q :: q in t && Touched(staged, q) ==> Named(staged, q))
  {
    forall q | !Named(staged, q)
      ensures Lookup(Apply(t, staged), q) == Lookup(t, q) <==> !(q in t && Touched(staged, q))
    {
      if Touched(staged, q) { AboveIsGone(t, staged, q); } else { UntouchedKept(t, staged, q); }
    }
  }
}

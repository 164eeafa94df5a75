/** The staging index, and bringing it into line with a pathspec commit. */
module GitIndex {
  import opened Text
  import opened SlashPaths
  import opened GitTrees
  import opened Sorting

  datatype Flags = Flags(intentToAdd: bool, assumeValid: bool, skipWorktree: bool)

  const NO_FLAGS := Flags(false, false, false)

  /** One entry: stage 0 is unconflicted, 1 to 3 are the sides of a conflict; a zero `stat` reads
      as never stat'ed. */
  datatype Entry = Entry(path: string, stage: nat, blob: Blob, stat: nat, flags: Flags)

  // ----- order

  predicate KeyLess(p: string, s: nat, q: string, t: nat) {
    Less(p, q) || (p == q && s < t)
  }

  ghost predicate SortedIndex(entries: seq<Entry>) {
    forall i, j :: 0 <= i < j < |entries| ==>
      KeyLess(entries[i].path, entries[i].stage, entries[j].path, entries[j].stage)
  }

  ghost predicate DistinctKeys(entries: seq<Entry>) {
    forall i, j :: 0 <= i < j < |entries| ==> !(entries[i].path == entries[j].path && entries[i].stage == entries[j].stage)
  }

  lemma SortedDistinct(entries: seq<Entry>)
    requires SortedIndex(entries)
    ensures DistinctKeys(entries)
  {
    forall i, j | 0 <= i < j < |entries|
      ensures !(entries[i].path == entries[j].path && entries[i].stage == entries[j].stage)
    {
      LessTotal(entries[i].path, entries[j].path);
    }
  }

  /** The entry with this key, if there is one. */
  function At(entries: seq<Entry>, p: string, stage: nat): Option<Entry> {
    if entries == [] then None
    else if entries[|entries| - 1].path == p && entries[|entries| - 1].stage == stage then Some(entries[|entries| - 1])
    else At(entries[..|entries| - 1], p, stage)
  }

  lemma {:induction false} AtMember(entries: seq<Entry>, p: string, stage: nat)
    ensures var r := At(entries, p, stage); r.Some? ==> r.value in entries && r.value.path == p && r.value.stage == stage
    ensures At(entries, p, stage).None? ==> forall i :: 0 <= i < |entries| ==> !(entries[i].path == p && entries[i].stage == stage)
    decreases |entries|
  {
    if entries != [] { AtMember(entries[..|entries| - 1], p, stage); }
  }

  /** Keys being distinct, the lookup finds an entry exactly when it is there. */
  lemma AtExactly(entries: seq<Entry>, p: string, stage: nat, e: Entry)
    requires DistinctKeys(entries)
    ensures At(entries, p, stage) == Some(e) <==> e in entries && e.path == p && e.stage == stage
  {
    AtMember(entries, p, stage);
  }

  /** Two indexes with the same entries at a key look the same there. */
  lemma SameEntriesSameAt(a: seq<Entry>, b: seq<Entry>, p: string, stage: nat)
    requires DistinctKeys(a) && DistinctKeys(b)
    requires forall e: Entry :: e.path == p && e.stage == stage ==> (e in a <==> e in b)
    ensures At(a, p, stage) == At(b, p, stage)
  {
    if At(a, p, stage).Some? { AtExactly(a, p, stage, At(a, p, stage).value); AtExactly(b, p, stage, At(a, p, stage).value); }
    if At(b, p, stage).Some? { AtExactly(a, p, stage, At(b, p, stage).value); AtExactly(b, p, stage, At(b, p, stage).value); }
  }

  /** Binary search for an unconflicted entry. */
  function Search(entries: seq<Entry>, p: string, lo: nat, hi: nat): (r: Option<nat>)
    requires lo <= hi <= |entries|
    ensures r.Some? ==> r.value < |entries| && entries[r.value].path == p && entries[r.value].stage == 0
    decreases hi - lo
  {
    if lo == hi then None
    else
      var mid := lo + (hi - lo) / 2;
      if entries[mid].path == p && entries[mid].stage == 0 then Some(mid)
      else if KeyLess(entries[mid].path, entries[mid].stage, p, 0) then Search(entries, p, mid + 1, hi)
      else Search(entries, p, lo, mid)
  }

  /** On a sorted index it misses nothing. */
  lemma {:induction false} SearchFinds(entries: seq<Entry>, p: string, lo: nat, hi: nat, i: nat)
    requires SortedIndex(entries) && lo <= i < hi <= |entries| && entries[i].path == p && entries[i].stage == 0
    ensures Search(entries, p, lo, hi) == Some(i)
    decreases hi - lo
  {
    hide Less;
    var mid := lo + (hi - lo) / 2;
    LessTotal(entries[mid].path, p);
    if i < mid {
      assert KeyLess(p, 0, entries[mid].path, entries[mid].stage);
      SearchFinds(entries, p, lo, mid, i);
    } else if mid < i {
      assert KeyLess(entries[mid].path, entries[mid].stage, p, 0);
      SearchFinds(entries, p, mid + 1, hi, i);
    }
  }

  function KeyOrder(): (Entry, Entry) -> bool {
    (a: Entry, b: Entry) => KeyLess(a.path, a.stage, b.path, b.stage)
  }

  /** `sort_entries`. */
  function SortEntries(s: seq<Entry>): seq<Entry> {
    Sort(KeyOrder(), s)
  }

  lemma KeyOrders()
    ensures Ordering(KeyOrder())
  {
    forall p, s, q, t, r, u
      ensures KeyLess(p, s, q, t) ==> !KeyLess(q, t, p, s)
      ensures KeyLess(p, s, q, t) && KeyLess(q, t, r, u) ==> KeyLess(p, s, r, u)
      ensures !KeyLess(p, s, q, t) && !KeyLess(q, t, r, u) ==> !KeyLess(p, s, r, u)
    {
      KeyFacts(p, s, q, t, r, u);
    }
  }

  lemma KeyFacts(p: string, s: nat, q: string, t: nat, r: string, u: nat)
    ensures KeyLess(p, s, q, t) ==> !KeyLess(q, t, p, s)
    ensures KeyLess(p, s, q, t) && KeyLess(q, t, r, u) ==> KeyLess(p, s, r, u)
    ensures !KeyLess(p, s, q, t) && !KeyLess(q, t, r, u) ==> !KeyLess(p, s, r, u)
  {
    LessOrder(p, q, r);
    LessOrder(q, p, r);
    LessOrder(p, r, q);
    LessOrder(q, r, p);
  }

  /** Entries with distinct keys have one order. */
  lemma SortSortsEntries(s: seq<Entry>)
    requires DistinctKeys(s)
    ensures SortedIndex(SortEntries(s)) && forall e :: e in SortEntries(s) <==> e in s
  {
    var r := SortEntries(s);
    KeyOrders();
    SortSorts(KeyOrder(), s);
    SameMembers(r, s);
    DistinctByCount(s, r);
    forall i, j | 0 <= i < j < |r| ensures KeyLess(r[i].path, r[i].stage, r[j].path, r[j].stage) {
      assert !KeyOrder()(r[j], r[i]) && r[i] in s && r[j] in s;
      LessTotal(r[i].path, r[j].path);
    }
  }

  /** Sorting moves entries and changes none. */
  lemma SortKeepsAt(s: seq<Entry>, p: string, stage: nat)
    requires DistinctKeys(s)
    ensures At(SortEntries(s), p, stage) == At(s, p, stage)
  {
    SortSortsEntries(s);
    SortedDistinct(SortEntries(s));
    SameEntriesSameAt(SortEntries(s), s, p, stage);
  }

  // ----- `refresh_index_entries`

  predicate Removes(staged: seq<Staged>, p: string) {
    exists i :: 0 <= i < |staged| && staged[i].blob.None? && AtOrUnder(p, staged[i].path)
  }

  predicate Stages(staged: seq<Staged>, p: string) {
    exists i :: 0 <= i < |staged| && staged[i].blob.Some? && staged[i].path == p
  }

  predicate Dropped(staged: seq<Staged>, e: Entry) {
    Removes(staged, e.path) || (e.stage != 0 && Stages(staged, e.path))
  }

  /** `remove_entries`. */
  function Retain(entries: seq<Entry>, staged: seq<Staged>): seq<Entry> {
    if entries == [] then []
    else
      var rest := Retain(entries[..|entries| - 1], staged);
      if Dropped(staged, entries[|entries| - 1]) then rest else rest + [entries[|entries| - 1]]
  }

  /** What a committed path's entry becomes: only intent-to-add is cleared from its flags. */
  function Restaged(was: Option<Entry>, s: Staged): Entry
    requires s.blob.Some?
  {
    Entry(s.path, 0, s.blob.value, 0, if was.Some? then was.value.flags.(intentToAdd := false) else NO_FLAGS)
  }

  function StageOne(entries: seq<Entry>, s: Staged): seq<Entry> {
    if s.blob.None? then entries
    else
      var found := Search(entries, s.path, 0, |entries|);
      if found.Some? then entries[found.value := Restaged(Some(entries[found.value]), s)]
      else entries + [Restaged(None, s)]
  }

  function StageAll(entries: seq<Entry>, staged: seq<Staged>): seq<Entry>
    decreases |staged|
  {
    if staged == [] then entries else StageAll(StageOne(entries, staged[0]), staged[1..])
  }

  function Refreshed(entries: seq<Entry>, staged: seq<Staged>): seq<Entry> {
    var kept := Retain(entries, staged);
    var all := StageAll(kept, staged);
    if |all| > |kept| then SortEntries(all) else all
  }

  class IndexFile {
    var entries: seq<Entry>
    var treeCache: bool

    constructor (entries: seq<Entry>)
      ensures this.entries == entries && treeCache
    {
      this.entries := entries;
      treeCache := true;
    }

    method Refresh(staged: seq<Staged>)
      modifies this
      ensures entries == Refreshed(old(entries), staged) && !treeCache
    {
      RemoveEntries(staged);
      ghost var kept := entries;
      var appended := false;
      assert staged[0..] == staged;
      for i := 0 to |staged|
        invariant StageAll(entries, staged[i..]) == StageAll(kept, staged)
        invariant |entries| >= |kept| && (appended <==> |entries| > |kept|)
      {
        assert staged[i..][0] == staged[i] && staged[i..][1..] == staged[i + 1..];
        if staged[i].blob.Some? {
          var found := Search(entries, staged[i].path, 0, |entries|);
          if found.Some? {
            var existing := entries[found.value];
            entries := entries[found.value := existing.(blob := staged[i].blob.value, stat := 0,
                                                       flags := existing.flags.(intentToAdd := false))];
          } else {
            entries := entries + [Entry(staged[i].path, 0, staged[i].blob.value, 0, NO_FLAGS)];
            appended := true;
          }
        }
      }
      if appended { entries := SortEntries(entries); }
      treeCache := false;
    }

    method RemoveEntries(staged: seq<Staged>)
      modifies this`entries
      ensures entries == Retain(old(entries), staged)
    {
      var kept := [];
      for i := 0 to |entries|
        invariant entries == old(entries) && kept == Retain(entries[..i], staged)
      {
        assert entries[..i + 1][..i] == entries[..i];
        if !Dropped(staged, entries[i]) { kept := kept + [entries[i]]; }
      }
      assert entries[..|entries|] == entries;
      entries := kept;
    }
  }

  // ----- what the refreshed index says

  /** Every lookup finds what is there: when a staged path has an unconflicted entry in the list as
      it stands by then, the search for it succeeds, and no second entry is appended. */
  ghost predicate LookupsHit(entries: seq<Entry>, staged: seq<Staged>)
    decreases |staged|
  {
    staged == []
    || ((staged[0].blob.Some? && At(entries, staged[0].path, 0).Some? ==> Search(entries, staged[0].path, 0, |entries|).Some?)
        && LookupsHit(StageOne(entries, staged[0]), staged[1..]))
  }

  /** An order of names that always does: paths already tracked before new ones. */
  ghost predicate TrackedFirst(entries: seq<Entry>, staged: seq<Staged>) {
    forall i, j :: 0 <= i < j < |staged| && staged[i].blob.Some? && staged[j].blob.Some? ==>
      (At(entries, staged[j].path, 0).Some? ==> At(entries, staged[i].path, 0).Some?)
  }

  /** The entry of a committed path: its blob and mode, as if never stat'ed, with the flags it had
      but for intent-to-add, or none if it is new. */
  predicate CommittedEntry(was: Option<Entry>, blob: Blob, now: Entry) {
    && now.blob == blob && now.stat == 0 && !now.flags.intentToAdd
    && (now.flags.assumeValid <==> was.Some? && was.value.flags.assumeValid)
    && (now.flags.skipWorktree <==> was.Some? && was.value.flags.skipWorktree)
  }

  /** The committed entry at a staged path; nothing at or under a removed one; every other entry as
      it was. */
  ghost predicate RefreshedAt(entries: seq<Entry>, staged: seq<Staged>, p: string, stage: nat, now: Option<Entry>) {
    && (forall i :: 0 <= i < |staged| && staged[i].blob.Some? && staged[i].path == p ==>
          if stage == 0 then now.Some? && CommittedEntry(At(entries, p, 0), staged[i].blob.value, now.value) else now == None)
    && (Removes(staged, p) ==> now == None)
    && (!Stages(staged, p) && !Removes(staged, p) ==> now == At(entries, p, stage))
  }

  lemma {:induction false} RetainAt(entries: seq<Entry>, staged: seq<Staged>)
    requires SortedIndex(entries)
    ensures SortedIndex(Retain(entries, staged))
    ensures forall e :: e in Retain(entries, staged) <==> e in entries && !Dropped(staged, e)
    decreases |entries|
  {
    hide Dropped;
    if entries != [] {
      var init, last := entries[..|entries| - 1], entries[|entries| - 1];
      RetainAt(init, staged);
      var rest := Retain(init, staged);
      assert entries == init + [last];
      forall i | 0 <= i < |rest| ensures KeyLess(rest[i].path, rest[i].stage, last.path, last.stage) {
        assert rest[i] in init;
        var k :| 0 <= k < |init| && init[k] == rest[i];
        assert entries[k] == rest[i];
      }
    }
  }

  lemma RetainLookup(entries: seq<Entry>, staged: seq<Staged>, p: string, stage: nat)
    requires SortedIndex(entries)
    ensures At(Retain(entries, staged), p, stage) ==
            if Removes(staged, p) || (stage != 0 && Stages(staged, p)) then None else At(entries, p, stage)
  {
    hide Removes, Stages, At;
    var kept := Retain(entries, staged);
    RetainAt(entries, staged);
    SortedDistinct(entries);
    SortedDistinct(kept);
    if Removes(staged, p) || (stage != 0 && Stages(staged, p)) {
      if At(kept, p, stage).Some? { AtExactly(kept, p, stage, At(kept, p, stage).value); }
    } else {
      SameEntriesSameAt(kept, entries, p, stage);
    }
  }

  lemma AppendAt(entries: seq<Entry>, e: Entry, p: string, stage: nat)
    ensures At(entries + [e], p, stage) == if e.path == p && e.stage == stage then Some(e) else At(entries, p, stage)
  {
    assert (entries + [e])[..|entries|] == entries;
  }

  lemma {:induction false} UpdateAt(entries: seq<Entry>, k: nat, e: Entry, p: string, stage: nat)
    requires DistinctKeys(entries) && k < |entries| && e.path == entries[k].path && e.stage == entries[k].stage
    ensures DistinctKeys(entries[k := e])
    ensures At(entries[k := e], p, stage) == if e.path == p && e.stage == stage then Some(e) else At(entries, p, stage)
  {
    var now := entries[k := e];
    AtExactly(now, e.path, e.stage, now[k]);
    if !(e.path == p && e.stage == stage) {
      forall x: Entry | x.path == p && x.stage == stage ensures x in entries <==> x in now {
        if x in entries { var i :| 0 <= i < |entries| && entries[i] == x; assert now[i] == x; }
        if x in now { var i :| 0 <= i < |now| && now[i] == x; assert entries[i] == x; }
      }
      SameEntriesSameAt(now, entries, p, stage);
    }
  }

  /** A successful search on distinct keys finds the one entry there is. */
  lemma Found(entries: seq<Entry>, p: string)
    requires DistinctKeys(entries) && Search(entries, p, 0, |entries|).Some?
    ensures At(entries, p, 0) == Some(entries[Search(entries, p, 0, |entries|).value])
  {
    hide Search, At;
    var k := Search(entries, p, 0, |entries|).value;
    AtExactly(entries, p, 0, entries[k]);
  }

  /** Staging one file replaces its entry or adds it, and nothing else, when its lookup hits. */
  lemma StageOneAt(entries: seq<Entry>, s: Staged)
    requires DistinctKeys(entries) && s.blob.Some?
    requires At(entries, s.path, 0).Some? ==> Search(entries, s.path, 0, |entries|).Some?
    ensures DistinctKeys(StageOne(entries, s))
    ensures forall p, stage :: At(StageOne(entries, s), p, stage) ==
              if p == s.path && stage == 0 then Some(Restaged(At(entries, p, 0), s)) else At(entries, p, stage)
    ensures At(entries, s.path, 0).Some? ==>
              |StageOne(entries, s)| == |entries| && (SortedIndex(entries) ==> SortedIndex(StageOne(entries, s)))
    ensures At(entries, s.path, 0).None? ==> |StageOne(entries, s)| == |entries| + 1
  {
    var found := Search(entries, s.path, 0, |entries|);
    var now := StageOne(entries, s);
    AtMember(entries, s.path, 0);
    if found.Some? {
      var i := found.value;
      Found(entries, s.path);
      forall p, stage
        ensures At(now, p, stage) == if p == s.path && stage == 0 then Some(Restaged(At(entries, p, 0), s)) else At(entries, p, stage)
      {
        UpdateAt(entries, i, Restaged(Some(entries[i]), s), p, stage);
      }
      UpdateAt(entries, i, Restaged(Some(entries[i]), s), s.path, 0);
    } else {
      forall p, stage
        ensures At(now, p, stage) == if p == s.path && stage == 0 then Some(Restaged(At(entries, p, 0), s)) else At(entries, p, stage)
      {
        AppendAt(entries, Restaged(None, s), p, stage);
      }
    }
  }

  /** After staging every file, in order, when every lookup hits. */
  lemma {:induction false} StageAllAt(entries: seq<Entry>, staged: seq<Staged>)
    requires DistinctKeys(entries) && Separate(staged) && LookupsHit(entries, staged)
    ensures DistinctKeys(StageAll(entries, staged)) && |StageAll(entries, staged)| >= |entries|
    ensures SortedIndex(entries) && |StageAll(entries, staged)| == |entries| ==> SortedIndex(StageAll(entries, staged))
    ensures forall i, stage :: 0 <= i < |staged| && staged[i].blob.Some? ==>
              At(StageAll(entries, staged), staged[i].path, stage) ==
              if stage == 0 then Some(Restaged(At(entries, staged[i].path, 0), staged[i])) else At(entries, staged[i].path, stage)
    ensures forall p, stage :: !Stages(staged, p) ==> At(StageAll(entries, staged), p, stage) == At(entries, p, stage)
    decreases |staged|
  {
    hide At, StageOne, SortedIndex, DistinctKeys, AtOrUnder, Search;
    if staged != [] {
      var s, rest := staged[0], staged[1..];
      var next := StageOne(entries, s);
      assert forall i :: 0 <= i < |rest| ==> rest[i] == staged[i + 1];
      NotAgain(staged);
      FirstStep(entries, s);
      StageAllAt(next, rest);
      hide LookupsHit, Separate;
      forall p, stage | !Stages(staged, p) ensures At(StageAll(entries, staged), p, stage) == At(entries, p, stage) {
        assert !Stages(rest, p) && !(s.blob.Some? && s.path == p);
      }
      forall i, stage | 0 <= i < |staged| && staged[i].blob.Some?
        ensures At(StageAll(entries, staged), staged[i].path, stage) ==
                if stage == 0 then Some(Restaged(At(entries, staged[i].path, 0), staged[i])) else At(entries, staged[i].path, stage)
      {
        if i > 0 { assert rest[i - 1] == staged[i] && staged[i].path != s.path; }
      }
    }
  }

  /** No later path is the first one. */
  lemma NotAgain(staged: seq<Staged>)
    requires Separate(staged) && staged != []
    ensures Separate(staged[1..]) && forall i :: 1 <= i < |staged| ==> staged[i].path != staged[0].path
    ensures !Stages(staged[1..], staged[0].path)
  {
    forall i | 1 <= i < |staged| ensures staged[i].path != staged[0].path {
      assert !Nested(staged[0].path, staged[i].path);
    }
  }

  /** What staging one file leaves, whether it is a file or not. */
  lemma FirstStep(entries: seq<Entry>, s: Staged)
    requires DistinctKeys(entries)
    requires s.blob.Some? && At(entries, s.path, 0).Some? ==> Search(entries, s.path, 0, |entries|).Some?
    ensures var next := StageOne(entries, s);
            DistinctKeys(next) && |next| >= |entries| && (SortedIndex(entries) && |next| == |entries| ==> SortedIndex(next))
            && forall p, stage :: At(next, p, stage) ==
                 if s.blob.Some? && p == s.path && stage == 0 then Some(Restaged(At(entries, p, 0), s)) else At(entries, p, stage)
  {
    hide At, StageOne, SortedIndex, DistinctKeys, Search;
    if s.blob.Some? { StageOneAt(entries, s); } else { NoFile(entries, s); }
  }

  lemma NoFile(entries: seq<Entry>, s: Staged)
    requires s.blob.None?
    ensures StageOne(entries, s) == entries
  {
  }

  // ----- lookups that miss

  /** Two entries under one key are never made one again. */
  lemma StageOneTwice(entries: seq<Entry>, s: Staged)
    requires !DistinctKeys(entries)
    ensures !DistinctKeys(StageOne(entries, s)) && |StageOne(entries, s)| >= |entries|
  {
    hide Search;
    var i, j :| 0 <= i < j < |entries| && entries[i].path == entries[j].path && entries[i].stage == entries[j].stage;
    var now := StageOne(entries, s);
    assert now[i].path == now[j].path && now[i].stage == now[j].stage;
  }

  lemma {:induction false} StageAllTwice(entries: seq<Entry>, staged: seq<Staged>)
    requires !DistinctKeys(entries)
    ensures !DistinctKeys(StageAll(entries, staged)) && |StageAll(entries, staged)| >= |entries|
    decreases |staged|
  {
    hide StageOne, DistinctKeys;
    if staged != [] {
      StageOneTwice(entries, staged[0]);
      StageAllTwice(StageOne(entries, staged[0]), staged[1..]);
    }
  }

  /** A lookup that misses appends a second entry under the key. */
  lemma MissAppends(entries: seq<Entry>, s: Staged)
    requires s.blob.Some? && At(entries, s.path, 0).Some? && Search(entries, s.path, 0, |entries|).None?
    ensures !DistinctKeys(StageOne(entries, s)) && |StageOne(entries, s)| == |entries| + 1
  {
    AtMember(entries, s.path, 0);
    var i :| 0 <= i < |entries| && entries[i] == At(entries, s.path, 0).value;
    hide Search, At;
    var now := StageOne(entries, s);
    assert now[i].path == now[|entries|].path && now[i].stage == now[|entries|].stage;
  }

  lemma {:induction false} MissesDuplicate(entries: seq<Entry>, staged: seq<Staged>)
    requires DistinctKeys(entries) && Separate(staged) && !LookupsHit(entries, staged)
    ensures !DistinctKeys(StageAll(entries, staged)) && |StageAll(entries, staged)| > |entries|
    decreases |staged|
  {
    hide At, StageOne, DistinctKeys, Search, Separate, SortedIndex;
    var s, rest := staged[0], staged[1..];
    NotAgain(staged);
    if s.blob.Some? && At(entries, s.path, 0).Some? && Search(entries, s.path, 0, |entries|).None? {
      MissAppends(entries, s);
      StageAllTwice(StageOne(entries, s), rest);
    } else {
      FirstStep(entries, s);
      MissesDuplicate(StageOne(entries, s), rest);
    }
  }

  /** The refreshed index is in order, and says at every key exactly what it should. */
  ghost predicate RefreshedRight(entries: seq<Entry>, staged: seq<Staged>) {
    SortedIndex(Refreshed(entries, staged))
    && forall p, stage :: RefreshedAt(entries, staged, p, stage, At(Refreshed(entries, staged), p, stage))
  }

  /** With separate names the refreshed index is right if and only if every lookup finds what is
      there; a path is in it twice otherwise. */
  lemma RefreshIsRight(entries: seq<Entry>, staged: seq<Staged>)
    requires SortedIndex(entries) && Separate(staged)
    ensures RefreshedRight(entries, staged) <==> LookupsHit(Retain(entries, staged), staged)
    ensures DistinctKeys(Refreshed(entries, staged)) <==> LookupsHit(Retain(entries, staged), staged)
  {
    hide At, StageAll, AtOrUnder, LookupsHit, SortedIndex, DistinctKeys, RefreshedAt, Separate, SortEntries;
    var kept := Retain(entries, staged);
    RetainAt(entries, staged);
    SortedDistinct(kept);
    if LookupsHit(kept, staged) {
      HitsRefresh(entries, staged);
      SortedDistinct(Refreshed(entries, staged));
    } else {
      MissesDuplicate(kept, staged);
      SortedTwice(StageAll(kept, staged));
      if SortedIndex(Refreshed(entries, staged)) { SortedDistinct(Refreshed(entries, staged)); }
    }
  }

  lemma HitsRefresh(entries: seq<Entry>, staged: seq<Staged>)
    requires SortedIndex(entries) && Separate(staged) && LookupsHit(Retain(entries, staged), staged)
    ensures RefreshedRight(entries, staged)
  {
    hide At, StageAll, AtOrUnder, LookupsHit;
    var kept := Retain(entries, staged);
    var all := StageAll(kept, staged);
    RetainAt(entries, staged);
    SortedDistinct(kept);
    StageAllAt(kept, staged);
    SortSortsEntries(all);
    forall p, stage ensures RefreshedAt(entries, staged, p, stage, At(Refreshed(entries, staged), p, stage)) {
      SortKeepsAt(all, p, stage);
      RetainLookup(entries, staged, p, stage);
      RetainLookup(entries, staged, p, 0);
      SeparateRemoves(staged, p);
    }
  }

  /** Two entries under one key stay two, wherever sorting puts them. */
  lemma SortedTwice(s: seq<Entry>)
    requires !DistinctKeys(s)
    ensures !DistinctKeys(SortEntries(s))
  {
    var i, j :| 0 <= i < j < |s| && s[i].path == s[j].path && s[i].stage == s[j].stage;
    if s[i] == s[j] {
      TwiceCounted(s, i, j);
    }
    TwiceStays(s, s[i], s[j]);
  }

  // ----- an order that always hits

  /** The entries are still in order, or none of the paths left is there. */
  ghost predicate Searchable(entries: seq<Entry>, staged: seq<Staged>) {
    SortedIndex(entries) || forall i :: 0 <= i < |staged| && staged[i].blob.Some? ==> At(entries, staged[i].path, 0).None?
  }

  lemma SortedHits(entries: seq<Entry>, p: string)
    requires SortedIndex(entries) && At(entries, p, 0).Some?
    ensures Search(entries, p, 0, |entries|).Some?
  {
    AtMember(entries, p, 0);
    var i :| 0 <= i < |entries| && entries[i] == At(entries, p, 0).value;
    SearchFinds(entries, p, 0, |entries|, i);
  }

  lemma {:induction false} TrackedFirstHits(entries: seq<Entry>, staged: seq<Staged>)
    requires DistinctKeys(entries) && Separate(staged) && TrackedFirst(entries, staged) && Searchable(entries, staged)
    ensures LookupsHit(entries, staged)
    decreases |staged|
  {
    hide At, StageOne, SortedIndex, DistinctKeys, AtOrUnder, Search;
    if staged != [] {
      var s, rest := staged[0], staged[1..];
      assert forall i :: 0 <= i < |rest| ==> rest[i] == staged[i + 1];
      NotAgain(staged);
      if s.blob.None? { NoFile(entries, s); }
      else if At(entries, s.path, 0).Some? { SortedHits(entries, s.path); StageOneAt(entries, s); }
      FirstStep(entries, s);
      hide Separate;
      TrackedFirstHits(StageOne(entries, s), rest);
    }
  }

  /** Naming the paths already tracked first is a check a caller can make before the call. */
  lemma TrackedFirstRefreshes(entries: seq<Entry>, staged: seq<Staged>)
    requires SortedIndex(entries) && Separate(staged) && TrackedFirst(entries, staged)
    ensures LookupsHit(Retain(entries, staged), staged) && RefreshedRight(entries, staged)
  {
    hide At, AtOrUnder, SortedIndex, DistinctKeys, TrackedFirst, LookupsHit, RefreshedRight, Separate;
    RetainAt(entries, staged);
    SortedDistinct(Retain(entries, staged));
    KeptTracked(entries, staged);
    TrackedFirstHits(Retain(entries, staged), staged);
    RefreshIsRight(entries, staged);
  }

  lemma SeparateRemoves(staged: seq<Staged>, p: string)
    requires Separate(staged)
    ensures !(Stages(staged, p) && Removes(staged, p))
  {
    if Stages(staged, p) && Removes(staged, p) {
      var i :| 0 <= i < |staged| && staged[i].blob.Some? && staged[i].path == p;
      var j :| 0 <= j < |staged| && staged[j].blob.None? && AtOrUnder(p, staged[j].path);
      assert Nested(staged[i].path, staged[j].path) && Nested(staged[j].path, staged[i].path);
      assert false;
    }
  }

  lemma KeptTracked(entries: seq<Entry>, staged: seq<Staged>)
    requires SortedIndex(entries) && Separate(staged) && TrackedFirst(entries, staged)
    ensures TrackedFirst(Retain(entries, staged), staged)
  {
    hide At, Removes, Separate;
    forall i | 0 <= i < |staged| && staged[i].blob.Some?
      ensures At(Retain(entries, staged), staged[i].path, 0) == At(entries, staged[i].path, 0)
    {
      RetainLookup(entries, staged, staged[i].path, 0);
      SeparateRemoves(staged, staged[i].path);
    }
  }

  // ----- agreement with the committed tree

  /** The index and the tree say the same of a path, and it is not in conflict. */
  ghost predicate Agrees(entries: seq<Entry>, t: Tree, q: string) {
    && (forall stage :: stage != 0 ==> At(entries, q, stage).None?)
    && (match At(entries, q, 0) case None => q !in t case Some(e) => Lookup(t, q) == Some(e.blob))
  }

  /** A file of the old tree that a staged file displaces: a staged file takes the place of its
      directory, or needs a directory in its place. */
  ghost predicate Displaced(t: Tree, staged: seq<Staged>, q: string) {
    q in t && exists i :: 0 <= i < |staged| && staged[i].blob.Some? && Nested(q, staged[i].path) && q != staged[i].path
  }

  /** Where the index agreed with the parent's tree, the refreshed index agrees with the committed
      tree except at a file the commit displaced, whose entry nobody removes. */
  lemma IndexFollowsCommit(entries: seq<Entry>, staged: seq<Staged>, t: Tree, q: string)
    requires SortedIndex(entries) && Separate(staged) && LookupsHit(Retain(entries, staged), staged) && Agrees(entries, t, q)
    ensures Agrees(Refreshed(entries, staged), Apply(t, staged), q) <==> !Displaced(t, staged, q)
  {
    hide At, AtOrUnder, Refreshed, Separate, LookupsHit;
    var now := Refreshed(entries, staged);
    RefreshIsRight(entries, staged);
    assert forall stage :: RefreshedAt(entries, staged, q, stage, At(now, q, stage));
    SeparateRemoves(staged, q);
    if Stages(staged, q) {
      var i :| 0 <= i < |staged| && staged[i].blob.Some? && staged[i].path == q;
      SeparateHold(t, staged, i);
      NamedNotDisplaced(t, staged, i, q);
    } else if Removes(staged, q) {
      var i :| 0 <= i < |staged| && staged[i].blob.None? && AtOrUnder(q, staged[i].path);
      SeparateHold(t, staged, i);
      NamedNotDisplaced(t, staged, i, q);
    } else {
      assert forall stage :: At(now, q, stage) == At(entries, q, stage);
      OtherPath(t, staged, q);
    }
  }

  lemma NamedNotDisplaced(t: Tree, staged: seq<Staged>, i: nat, q: string)
    requires Separate(staged) && i < |staged| && AtOrUnder(q, staged[i].path) && (staged[i].blob.Some? ==> q == staged[i].path)
    ensures !Displaced(t, staged, q)
  {
    SeparatePairs(staged);
    forall j | 0 <= j < |staged| && staged[j].blob.Some? && Nested(q, staged[j].path) ensures q == staged[j].path {
      Reached(q, staged[i].path, staged[j].path);
    }
  }

  lemma SeparatePairs(staged: seq<Staged>)
    requires Separate(staged)
    ensures forall i, j :: 0 <= i < |staged| && 0 <= j < |staged| && i != j ==> !Nested(staged[i].path, staged[j].path)
  {
    forall i, j | 0 <= i < |staged| && 0 <= j < |staged| && i != j ensures !Nested(staged[i].path, staged[j].path) {
      var a, b := if i < j then i else j, if i < j then j else i;
      assert !Nested(staged[a].path, staged[b].path);
    }
  }

  /** What becomes of a path that was neither staged nor removed. */
  lemma OtherPath(t: Tree, staged: seq<Staged>, q: string)
    requires Separate(staged) && !Stages(staged, q) && !Removes(staged, q)
    ensures Displaced(t, staged, q) ==> q !in Apply(t, staged)
    ensures !Displaced(t, staged, q) ==> Lookup(Apply(t, staged), q) == Lookup(t, q)
  {
    if Touched(staged, q) {
      var i :| 0 <= i < |staged| && Touches(staged[i], q);
      assert staged[i].blob.Some? && q != staged[i].path && Nested(q, staged[i].path);
      if AtOrUnder(q, staged[i].path) { SeparateHold(t, staged, i); }
      else {
        SeparatePairs(staged);
        forall j | 0 <= j < |staged| ensures !AtOrUnder(q, staged[j].path) {
          if AtOrUnder(q, staged[j].path) { Reached(q, staged[j].path, staged[i].path); }
        }
        AboveIsGone(t, staged, q);
      }
    } else {
      UntouchedKept(t, staged, q);
    }
  }

  /** A file `a` in tree and index, and `a/b` committed in its place: the index keeps `a`, which the
      commit no longer has. */
  lemma DisplacedStaysInIndex(a: Blob, b: Blob)
    ensures var t: Tree, entries := map["a" := a], [Entry("a", 0, a, 0, NO_FLAGS)];
            var staged := [Staged("a/b", Some(b))];
            Agrees(entries, t, "a") && "a" !in Apply(t, staged) && At(Refreshed(entries, staged), "a", 0).Some?
            && !Agrees(Refreshed(entries, staged), Apply(t, staged), "a")
  {
    var t: Tree, e := map["a" := a], Entry("a", 0, a, 0, NO_FLAGS);
    var staged := [Staged("a/b", Some(b))];
    hide *;
    FileAboveDisplaced(a, b);
    OnlyEntry(e, t);
    DisplacesFile(t, a, b);
    OneIsTracked([e], staged[0]);
    TrackedFirstRefreshes([e], staged);
    IndexFollowsCommit([e], staged, t, "a");
    UntouchedEntry([e], staged, "a");
  }

  lemma OneIsTracked(entries: seq<Entry>, s: Staged)
    requires |entries| == 1
    ensures SortedIndex(entries) && TrackedFirst(entries, [s]) && Separate([s])
  {
  }

  lemma OnlyEntry(e: Entry, t: Tree)
    requires e.path in t && t[e.path] == e.blob && e.stage == 0
    ensures Agrees([e], t, e.path) && At([e], e.path, 0) == Some(e)
  {
    var entries := [e];
    assert entries[..0] == [];
    assert entries[|entries| - 1] == e;
    assert At(entries, e.path, 0) == Some(e);
    assert forall stage :: stage != 0 ==> At(entries, e.path, stage) == At(entries[..0], e.path, stage) == None;
  }

  lemma DisplacesFile(t: Tree, a: Blob, b: Blob)
    requires t == map["a" := a]
    ensures var staged := [Staged("a/b", Some(b))]; Displaced(t, staged, "a") && !Removes(staged, "a") && !Stages(staged, "a")
    ensures "a" !in map["a/b" := b]
  {
    var staged := [Staged("a/b", Some(b))];
    assert AtOrUnder("a/b", "a") by { assert "a" <= "a/b"; }
    assert "a" != "a/b" by { assert |"a"| != |"a/b"|; }
    assert staged[0].blob.Some? && Nested("a", staged[0].path);
  }

  /** A refresh that is right keeps an entry it has nothing to do with. */
  lemma UntouchedEntry(entries: seq<Entry>, staged: seq<Staged>, q: string)
    requires RefreshedRight(entries, staged) && !Removes(staged, q) && !Stages(staged, q)
    ensures At(Refreshed(entries, staged), q, 0) == At(entries, q, 0)
  {
    hide At, Refreshed, Removes;
    assert RefreshedAt(entries, staged, q, 0, At(Refreshed(entries, staged), q, 0));
  }

  function EntryB(was: Blob): Entry {
    Entry("b", 0, was, 0, NO_FLAGS)
  }

  lemma TwoNames(a: Blob, b: Blob)
    ensures var staged := [Staged("a", Some(a)), Staged("b", Some(b))];
            Separate(staged) && !Removes(staged, "b")
    ensures Less("a", "b") && !Less("b", "a")
  {
    assert !AtOrUnder("a", "b") && !AtOrUnder("b", "a");
  }

  /** After `a` was appended behind `b`, the search for `b` goes past it. */
  lemma SearchMisses(was: Blob, newA: Entry)
    requires newA.path == "a" && newA.stage == 0 && Less("a", "b") && !Less("b", "a")
    ensures Search([EntryB(was)], "a", 0, 1) == None
    ensures At([EntryB(was), newA], "b", 0) == Some(EntryB(was)) && Search([EntryB(was), newA], "b", 0, 2) == None
  {
    hide Less;
    assert Search([EntryB(was)], "a", 0, 1) == Search([EntryB(was)], "a", 0, 0) == None;
    assert Search([EntryB(was), newA], "b", 0, 2) == Search([EntryB(was), newA], "b", 2, 2) == None;
    assert [EntryB(was), newA][..1] == [EntryB(was)];
  }

  /** Named the other way round, a new path before a tracked one, the tracked path ends up in the
      index twice: the appended entry misleads the search for it. */
  lemma NewBeforeTrackedDuplicates(was: Blob, a: Blob, b: Blob)
    ensures var entries := [EntryB(was)];
            var staged := [Staged("a", Some(a)), Staged("b", Some(b))];
            SortedIndex(entries) && Separate(staged) && !DistinctKeys(Refreshed(entries, staged))
  {
    var first, second := Staged("a", Some(a)), Staged("b", Some(b));
    var entries, staged := [EntryB(was)], [first, second];
    TwoNames(a, b);
    var newA := Restaged(None, first);
    SearchMisses(was, newA);
    hide Search, At, Separate, AtOrUnder, Less, Removes;
    assert entries[..0] == [];
    assert Retain(entries, staged) == entries;
    assert StageOne(entries, first) == [EntryB(was), newA];
    assert staged[1..] == [second];
    assert !LookupsHit([EntryB(was), newA], [second]);
    assert !LookupsHit(entries, staged);
    RefreshIsRight(entries, staged);
  }

  /** Two entries that share a key share it wherever sorting puts them. */
  lemma TwiceStays(s: seq<Entry>, a: Entry, b: Entry)
    requires a in s && b in s && a.path == b.path && a.stage == b.stage && (a == b ==> multiset(s)[a] >= 2)
    ensures !DistinctKeys(SortEntries(s))
  {
    var r := SortEntries(s);
    SameMembers(r, s);
    var i :| 0 <= i < |r| && r[i] == a;
    if a == b {
      if DistinctKeys(r) { OnceCounted(r, a); }
    } else {
      var j :| 0 <= j < |r| && r[j] == b;
      assert i != j;
      assert if i < j then r[i].path == r[j].path else r[j].path == r[i].path;
    }
  }
}

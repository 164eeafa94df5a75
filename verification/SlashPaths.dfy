/** Slash-separated paths: components, subtree membership and byte order. */
module SlashPaths {

  /** `is_at_or_under`: the path itself, or a path beneath it, recognised by a prefix that ends at
      a slash. */
  predicate AtOrUnder(path: string, top: string) {
    path == top || (|path| > |top| && top <= path && top != "" && path[|top|] == '/')
  }

  predicate Under(path: string, top: string) {
    AtOrUnder(path, top) && path != top
  }

  predicate Nested(p: string, q: string) {
    AtOrUnder(p, q) || AtOrUnder(q, p)
  }

  function Split(path: string): (r: seq<string>)
    ensures r != []
  {
    if path == "" then [""]
    else
      var rest := Split(path[1..]);
      if path[0] == '/' then [""] + rest else [[path[0]] + rest[0]] + rest[1..]
  }

  function Join(parts: seq<string>): string
    requires parts != []
  {
    if |parts| == 1 then parts[0] else parts[0] + "/" + Join(parts[1..])
  }

  lemma {:induction false} SplitAppend(a: string, b: string)
    ensures Split(a + "/" + b) == Split(a) + Split(b)
    decreases |a|
  {
    var path := a + "/" + b;
    if a == "" {
      assert path == "/" + b && path[1..] == b;
    } else {
      assert path[0] == a[0] && path[1..] == a[1..] + "/" + b;
      SplitAppend(a[1..], b);
    }
  }

  lemma {:induction false} JoinAppend(a: seq<string>, b: seq<string>)
    requires a != [] && b != []
    ensures Join(a + b) == Join(a) + "/" + Join(b)
    decreases |a|
  {
    assert (a + b)[0] == a[0] && (a + b)[1..] == a[1..] + b;
    if |a| > 1 { JoinAppend(a[1..], b); }
  }

  lemma {:induction false} JoinSplit(path: string)
    ensures Join(Split(path)) == path
  {
    if path != "" {
      var rest := Split(path[1..]);
      JoinSplit(path[1..]);
      if path[0] != '/' { assert Split(path)[1..] == rest[1..]; }
    }
  }

  /** The byte test recognises exactly the paths whose components start with the removed path's:
      `Notes` does not take `Notes-archive` with it. Nothing is beneath the empty path. */
  lemma AtOrUnderIsComponentwise(path: string, top: string)
    ensures AtOrUnder(path, top) <==> path == top || (top != "" && Split(top) <= Split(path))
  {
    if path != top && top != "" {
      if AtOrUnder(path, top) {
        var rest := path[|top| + 1..];
        assert path == top + "/" + rest;
        SplitAppend(top, rest);
      }
      if Split(top) <= Split(path) {
        var more := Split(path)[|Split(top)|..];
        assert Split(path) == Split(top) + more;
        JoinSplit(path);
        JoinSplit(top);
        assert more == [] ==> Split(path) == Split(top);
        if more != [] { JoinAppend(Split(top), more); }
      }
    }
  }

  // ----- the index's byte order

  /** Lexicographic order of bytes. */
  predicate Less(a: string, b: string) {
    if b == "" then false
    else if a == "" then true
    else if a[0] == b[0] then Less(a[1..], b[1..])
    else a[0] < b[0]
  }

  lemma {:induction false} LessTransitive(a: string, b: string, c: string)
    requires Less(a, b) && Less(b, c)
    ensures Less(a, c)
  {
    if a != "" && a[0] == b[0] == c[0] { LessTransitive(a[1..], b[1..], c[1..]); }
  }

  lemma {:induction false} LessTotal(a: string, b: string)
    ensures a == b || Less(a, b) || Less(b, a)
    ensures !(Less(a, b) && Less(b, a)) && !Less(a, a)
  {
    if a != "" && b != "" && a[0] == b[0] {
      LessTotal(a[1..], b[1..]);
      assert a == [a[0]] + a[1..] && b == [b[0]] + b[1..];
    }
    if a != "" { LessIrreflexive(a); }
  }

  lemma {:induction false} LessIrreflexive(a: string)
    ensures !Less(a, a)
  {
    if a != "" { LessIrreflexive(a[1..]); }
  }

  lemma LessOrder(a: string, b: string, c: string)
    ensures Less(a, b) ==> !Less(b, a)
    ensures Less(a, b) && Less(b, c) ==> Less(a, c)
    ensures !Less(a, b) && !Less(b, c) ==> !Less(a, c)
    ensures !Less(a, b) && !Less(b, a) ==> a == b
  {
    LessTotal(a, b);
    LessTotal(b, c);
    LessTotal(a, c);
    if Less(a, b) && Less(b, c) { LessTransitive(a, b, c); }
    if Less(c, b) && Less(b, a) { LessTransitive(c, b, a); }
  }
}

/** The orders on paths met while indexing: raw byte order (the merge), the order of sortable
    paths (the indexed stream) and the order of path components (the directory walk). */
module PathOrder {
  import IndexSpec

  /** Byte-wise lexicographic order: Go's `<` on strings and SQLite's BINARY collation. */
  predicate Less(a: string, b: string) {
    b != [] && (a == [] || a[0] < b[0] || (a[0] == b[0] && Less(a[1..], b[1..])))
  }

  /** Order of `ORDER BY sortable_path`. */
  predicate SortableLess(a: string, b: string) {
    Less(IndexSpec.SortablePath(a), IndexSpec.SortablePath(b))
  }

  /** The components of a slash-separated path. */
  function Components(path: string): (r: seq<string>)
    ensures r != []
  {
    if path == [] then [""]
    else
      var rest := Components(path[1..]);
      if path[0] == '/' then [""] + rest else [[path[0]] + rest[0]] + rest[1..]
  }

  /** Order of a directory walk that visits the entries of each directory by name. */
  predicate WalkLess(a: seq<string>, b: seq<string>) {
    b != [] && (a == [] || Less(a[0], b[0]) || (a[0] == b[0] && WalkLess(a[1..], b[1..])))
  }

  // --- Strict total order ---

  lemma {:induction false} LessIrreflexive(a: string)
    ensures !Less(a, a)
  {
    if a != [] {
      LessIrreflexive(a[1..]);
    }
  }

  lemma {:induction false} LessTransitive(a: string, b: string, c: string)
    requires Less(a, b) && Less(b, c)
    ensures Less(a, c)
  {
    if a != [] && a[0] == b[0] == c[0] {
      LessTransitive(a[1..], b[1..], c[1..]);
    }
  }

  lemma LessAsymmetric(a: string, b: string)
    requires Less(a, b)
    ensures !Less(b, a)
  {
  }

  lemma {:induction false} LessTotal(a: string, b: string)
    ensures Less(a, b) || a == b || Less(b, a)
  {
    if a != [] && b != [] && a[0] == b[0] {
      LessTotal(a[1..], b[1..]);
      assert a == [a[0]] + a[1..] && b == [b[0]] + b[1..];
    }
  }

  // --- Sortable order against walk order ---

  const SOH := 1 as char

  lemma SortableTail(path: string)
    requires path != []
    ensures IndexSpec.SortablePath(path)[1..] == IndexSpec.SortablePath(path[1..])
  {
  }

  /** At the first difference, one path has a slash and the other a byte that is not above \x01, the
      byte that stands for the slash; \x01 itself leaves the sortable order to the rest of the paths. */
  predicate WalkConflict(a: string, b: string) {
    a != [] && b != []
    && if a[0] == b[0] then WalkConflict(a[1..], b[1..])
       else if a[0] == '/' then b[0] < SOH || (b[0] == SOH && !SortableLess(a[1..], b[1..]))
       else b[0] == '/' && (a[0] < SOH || (a[0] == SOH && SortableLess(a[1..], b[1..])))
  }

  /** Comparing sortable paths is comparing lists of components, except for paths that conflict. */
  lemma {:induction false} SortableIsWalkIff(a: string, b: string)
    ensures (SortableLess(a, b) <==> WalkLess(Components(a), Components(b))) <==> !WalkConflict(a, b)
  {
    if a != [] && b != [] {
      SortableTail(a);
      SortableTail(b);
      if a[0] == b[0] {
        SortableIsWalkIff(a[1..], b[1..]);
        WalkTail(a, b);
      }
    }
  }

  lemma WalkTail(a: string, b: string)
    requires a != [] && b != [] && a[0] == b[0]
    ensures WalkLess(Components(a), Components(b)) <==> WalkLess(Components(a[1..]), Components(b[1..]))
  {
    var ca, cb := Components(a), Components(b);
    var ra, rb := Components(a[1..]), Components(b[1..]);
    if a[0] == '/' {
      assert ca[1..] == ra && cb[1..] == rb && ca[0] == cb[0] == "";
    } else {
      assert ca[0][1..] == ra[0] && cb[0][1..] == rb[0] && ca[0][0] == cb[0][0];
      assert ca[0] == cb[0] <==> ra[0] == rb[0];
      assert ca[1..] == ra[1..] && cb[1..] == rb[1..];
    }
  }

  /** No byte at or below \x01. */
  predicate Clean(path: string) {
    forall i | 0 <= i < |path| :: path[i] > SOH
  }

  lemma {:induction false} CleanNoWalkConflict(a: string, b: string)
    requires Clean(a) && Clean(b)
    ensures !WalkConflict(a, b)
  {
    if a != [] && b != [] && a[0] == b[0] {
      CleanNoWalkConflict(a[1..], b[1..]);
    }
  }

  /** Comparing the sortable paths of clean paths is comparing lists of components. */
  lemma SortableIsWalk(a: string, b: string)
    requires Clean(a) && Clean(b)
    ensures SortableLess(a, b) <==> WalkLess(Components(a), Components(b))
  {
    SortableIsWalkIff(a, b);
    CleanNoWalkConflict(a, b);
  }

  // --- Sortable order against raw order ---

  /** At the first difference, one path has a slash and the other a byte between \x01 and the slash, or
      \x01 with the rest of the paths in the other order. */
  predicate Conflict(a: string, b: string) {
    a != [] && b != []
    && if a[0] == b[0] then Conflict(a[1..], b[1..])
       else if a[0] == '/' then SOH < b[0] < '/' || (b[0] == SOH && SortableLess(a[1..], b[1..]))
       else b[0] == '/' && (SOH < a[0] < '/' || (a[0] == SOH && !SortableLess(a[1..], b[1..])))
  }

  /** The raw order and the sortable order differ on two paths exactly when they conflict. */
  lemma {:induction false} OrdersDisagreeIff(a: string, b: string)
    ensures (Less(a, b) <==> SortableLess(a, b)) <==> !Conflict(a, b)
  {
    if a != [] && b != [] {
      SortableTail(a);
      SortableTail(b);
      if a[0] == b[0] {
        OrdersDisagreeIff(a[1..], b[1..]);
      }
    }
  }
}

/** `parallel_calls`: a count of concurrency constructs. A pool of keywords
    starts from a fixed list and grows with the names a `use` declaration
    imports from a concurrency crate; every `async` block adds 1, and every
    call or macro invocation whose text mentions a pool keyword adds the
    number of matching identifiers found by a pruned scan of its subtree. */
module ParallelCalls {
  import opened Syntax
  import opened Cursors
  import opened Common

  /** The keywords the pool starts with. */
  const Keywords: set<string> := {"std::thread", "tokio", "rayon", "async", "await"}

  /** `needle` occurs in `hay` starting at index `i`. */
  predicate OccursAt(needle: string, hay: string, i: nat)
  {
    i + |needle| <= |hay| && hay[i..i + |needle|] == needle
  }

  /** `str::contains` */
  predicate IsSubstring(needle: string, hay: string)
  {
    exists i: nat | i <= |hay| :: OccursAt(needle, hay, i)
  }

  /** `is_concurrency_related`: some pool keyword occurs in the text. */
  predicate Related(code: string, pool: set<string>)
  {
    exists kw :: kw in pool && IsSubstring(kw, code)
  }

  /** A larger pool can only make more texts related. */
  lemma RelatedMonotone(code: string, pool: set<string>, larger: set<string>)
    requires pool <= larger && Related(code, pool)
    ensures Related(code, larger)
  {
    var kw :| kw in pool && IsSubstring(kw, code);
    assert kw in larger;
  }

  /** Every keyword is related to a text that is the keyword itself. */
  lemma KeywordRelated(kw: string, pool: set<string>)
    requires kw in pool
    ensures Related(kw, pool)
  {
    assert OccursAt(kw, kw, 0);
  }

  /** A node the scan counts: an identifier whose text is related. */
  predicate Hit(n: Node, pool: set<string>)
  {
    IsName(n) && Related(n.text, pool)
  }

  /** The node kinds the scan tests: a path or a plain identifier. */
  predicate IsName(n: Node)
  {
    n.kind == "scoped_identifier" || n.kind == "identifier"
  }

  /** Outcome of scanning part of a tree: the matches found, and whether the
      next node in preorder is to be entered without being tested (the scan
      moves past a match and then, without testing, tries that node's first
      child). */
  datatype Scan = Scan(count: nat, skipNext: bool)

  /** The scan of a subtree entered with the given skip flag. */
  function ScanNode(n: Node, skip: bool, pool: set<string>): Scan
    decreases n, 1
  {
    if !skip && Hit(n, pool) then Scan(1, true) else ScanForest(n.children, false, pool)
  }

  function ScanForest(fs: seq<Node>, skip: bool, pool: set<string>): Scan
    decreases fs, 0
  {
    if fs == [] then Scan(0, skip)
    else
      var a := ScanNode(fs[0], skip, pool);
      var b := ScanForest(fs[1..], a.skipNext, pool);
      Scan(a.count + b.count, b.skipNext)
  }

  /** The scan of the subtrees still pending in a walk, in order. */
  function ScanSeq(s: seq<Item>, skip: bool, pool: set<string>): Scan
  {
    if s == [] then Scan(0, skip)
    else
      var a := ScanNode(s[0].node, skip, pool);
      var b := ScanSeq(s[1..], a.skipNext, pool);
      Scan(a.count + b.count, b.skipNext)
  }

  lemma ScanSeqCons(x: Item, rest: seq<Item>, skip: bool, pool: set<string>)
    ensures ScanSeq([x] + rest, skip, pool).count
            == ScanNode(x.node, skip, pool).count + ScanSeq(rest, ScanNode(x.node, skip, pool).skipNext, pool).count
  {
    assert ([x] + rest)[0] == x;
    assert ([x] + rest)[1..] == rest;
  }

  /** Scanning the children of a node and then the rest of the walk. */
  lemma {:induction false} ScanSeqItems(fs: seq<Node>, d: nat, rest: seq<Item>, skip: bool, pool: set<string>)
    ensures ScanSeq(Items(fs, d) + rest, skip, pool).count
            == ScanForest(fs, skip, pool).count + ScanSeq(rest, ScanForest(fs, skip, pool).skipNext, pool).count
    ensures ScanSeq(Items(fs, d) + rest, skip, pool).skipNext
            == ScanSeq(rest, ScanForest(fs, skip, pool).skipNext, pool).skipNext
    decreases |fs|
  {
    if fs == [] {
      assert Items(fs, d) + rest == rest;
    } else {
      var x := Item(fs[0], d);
      var tail := Items(fs[1..], d) + rest;
      assert Items(fs, d) + rest == [x] + tail;
      assert ([x] + tail)[0] == x;
      assert ([x] + tail)[1..] == tail;
      ScanSeqItems(fs[1..], d, rest, ScanNode(fs[0], skip, pool).skipNext, pool);
    }
  }

  /** The scan of a walk's current node followed by its pending subtrees. */
  ghost function ScanRest(x: Item, rest: seq<Item>, skip: bool, pool: set<string>): nat
  {
    ScanNode(x.node, skip, pool).count + ScanSeq(rest, ScanNode(x.node, skip, pool).skipNext, pool).count
  }

  /** A node that is not tested, or tested without a match, is replaced by
      its children, which start with the skip flag cleared. */
  lemma ScanEnter(x: Item, rest: seq<Item>, skip: bool, pool: set<string>)
    requires skip || !Hit(x.node, pool)
    ensures ScanRest(x, rest, skip, pool) == ScanSeq(Items(x.node.children, x.depth + 1) + rest, false, pool).count
  {
    ScanSeqItems(x.node.children, x.depth + 1, rest, false, pool);
  }

  /** 1 on a node the scan could count, 0 elsewhere. */
  function HitsOf(pool: set<string>): Item -> nat
  {
    (it: Item) => if Hit(it.node, pool) then 1 else 0
  }

  /** The scan never counts more nodes than the subtree has matching nodes,
      nor more than the subtree's size. */
  lemma {:induction false} ScanAtMostHits(n: Node, skip: bool, pool: set<string>, d: nat)
    ensures ScanNode(n, skip, pool).count <= NodeTally(HitsOf(pool), n, d)
    ensures ScanNode(n, skip, pool).count <= Size(n)
    decreases n, 1
  {
    ScanForestAtMostHits(n.children, false, pool, d + 1);
  }

  lemma {:induction false} ScanForestAtMostHits(fs: seq<Node>, skip: bool, pool: set<string>, d: nat)
    ensures ScanForest(fs, skip, pool).count <= ForestTally(HitsOf(pool), fs, d)
    ensures ScanForest(fs, skip, pool).count <= ForestSize(fs)
    decreases fs, 0
  {
    if fs != [] {
      ScanAtMostHits(fs[0], skip, pool, d);
      ScanForestAtMostHits(fs[1..], ScanNode(fs[0], skip, pool).skipNext, pool, d);
    }
  }

  /** The scan counts at most the matching nodes of the subtree's preorder,
      and counts nothing when no node of the subtree matches. */
  lemma ScanCountsOnlyHits(n: Node, skip: bool, pool: set<string>, d: nat)
    ensures ScanNode(n, skip, pool).count <= Tally(HitsOf(pool), Preorder(n, d))
    ensures (forall k :: 0 <= k < |Preorder(n, d)| ==> !Hit(Preorder(n, d)[k].node, pool))
            ==> ScanNode(n, skip, pool).count == 0
  {
    ScanAtMostHits(n, skip, pool, d);
    TallyRecursive(HitsOf(pool), n, d);
    if forall k :: 0 <= k < |Preorder(n, d)| ==> !Hit(Preorder(n, d)[k].node, pool) {
      TallyZero(HitsOf(pool), Preorder(n, d));
    }
  }

  /** `find_parallel_call_in_call_macro` */
  method FindParallelCalls(n: Node, pool: set<string>) returns (count: nat)
    ensures count == ScanNode(n, false, pool).count
  {
    var c := new TreeCursor(n);
    count := 0;
    ghost var total := ScanNode(n, false, pool).count;
    while true
      invariant c.Valid() && c.root == n
      invariant count + ScanRest(c.here, c.pending, false, pool) == total
      decreases |Preorder(n, 0)| - |c.done|
    {
      var node := c.Node();
      ghost var skip := false;
      if IsName(node) && Related(node.text, pool) {
        count := count + 1;
        var more := c.Climb();
        if !more {
          return;
        }
        ScanSeqCons(c.here, c.pending, true, pool);
        skip := true;
      }
      ScanEnter(c.here, c.pending, skip, pool);
      var more := c.Advance();
      if !more {
        return;
      }
      ScanSeqCons(c.here, c.pending, false, pool);
    }
  }

  /** One `scoped_identifier` child of a `use` declaration: when its text is
      related, the text of its last child joins the pool; `None` is the
      panic of `unwrap` on a path without children. */
  function ImportOne(c: Node, pool: set<string>): Option<set<string>>
  {
    if c.kind == "scoped_identifier" && Related(c.text, pool) then
      if c.children == [] then None else Some(pool + {c.children[|c.children| - 1].text})
    else Some(pool)
  }

  /** The children of a `use` declaration, in order, each seeing the pool
      as the earlier children left it. */
  function ImportAll(cs: seq<Node>, pool: set<string>): Option<set<string>>
  {
    if cs == [] then Some(pool)
    else match ImportOne(cs[0], pool)
      case None => None
      case Some(p) => ImportAll(cs[1..], p)
  }

  /** The `for_each` over the children of a `use` declaration. */
  method ImportNames(node: Node, pool0: set<string>) returns (r: Option<set<string>>)
    ensures r == ImportAll(node.children, pool0)
  {
    var cs := node.children;
    var pool := pool0;
    for i := 0 to |cs|
      invariant ImportAll(cs[i..], pool) == ImportAll(cs, pool0)
    {
      assert cs[i..][1..] == cs[i + 1..];
      var c := cs[i];
      if c.kind == "scoped_identifier" && Related(c.text, pool) {
        if c.children == [] {
          return None;
        }
        pool := pool + {c.children[|c.children| - 1].text};
      }
    }
    assert cs[|cs|..] == [];
    return Some(pool);
  }

  /** Imports only add to the pool, and add at most one name per child. */
  lemma {:induction false} ImportGrows(cs: seq<Node>, pool: set<string>)
    requires ImportAll(cs, pool).Some?
    ensures pool <= ImportAll(cs, pool).value
    ensures |ImportAll(cs, pool).value| <= |pool| + |cs|
    decreases |cs|
  {
    if cs != [] {
      var p := ImportOne(cs[0], pool).value;
      assert |p| <= |pool| + 1;
      ImportGrows(cs[1..], p);
    }
  }

  /** The walk's state: the count so far and the keyword pool. */
  datatype ParState = ParState(count: nat, pool: set<string>)

  /** What one node of the outer walk does to the state. */
  function ParStep(st: ParState, n: Node): Option<ParState>
  {
    if n.kind == "use_declaration" then
      match ImportAll(n.children, st.pool)
      case None => None
      case Some(p) => Some(ParState(st.count, p))
    else if n.kind == "async_block" then Some(ParState(st.count + 1, st.pool))
    else if (n.kind == "call_expression" || n.kind == "macro_invocation") && Related(n.text, st.pool) then
      Some(ParState(st.count + ScanNode(n, false, st.pool).count, st.pool))
    else Some(st)
  }

  /** The state after the nodes of `s`, in order, or `None` after a panic. */
  function ParallelFold(s: seq<Item>): Option<ParState>
  {
    if s == [] then Some(ParState(0, Keywords))
    else match ParallelFold(s[..|s| - 1])
      case None => None
      case Some(st) => ParStep(st, s[|s| - 1].node)
  }

  lemma FoldSnoc(s: seq<Item>, x: Item)
    ensures ParallelFold(s + [x]) == if ParallelFold(s).None? then None else ParStep(ParallelFold(s).value, x.node)
  {
    assert (s + [x])[..|s + [x]| - 1] == s;
  }

  /** A panic ends the walk: no later node undoes it. */
  lemma {:induction false} PanicPersists(s: seq<Item>, t: seq<Item>)
    requires ParallelFold(s).None?
    ensures ParallelFold(s + t).None?
    decreases |t|
  {
    if t == [] {
      assert s + t == s;
    } else {
      var u := t[..|t| - 1];
      PanicPersists(s, u);
      assert (s + t)[..|s + t| - 1] == s + u;
    }
  }

  function AsyncFlag(it: Item): nat
  {
    if it.node.kind == "async_block" then 1 else 0
  }

  /** Along the walk the pool only grows from the initial keywords, and every
      `async` block seen so far has been counted. */
  lemma {:induction false} FoldInvariant(s: seq<Item>)
    requires ParallelFold(s).Some?
    ensures Keywords <= ParallelFold(s).value.pool
    ensures ParallelFold(s).value.count >= Tally(AsyncFlag, s)
    decreases |s|
  {
    if s != [] {
      var init := s[..|s| - 1];
      FoldInvariant(init);
      var st := ParallelFold(init).value;
      var n := s[|s| - 1].node;
      if n.kind == "use_declaration" {
        ImportGrows(n.children, st.pool);
      }
    }
  }

  /** A tree whose walk does not panic reports a count. */
  function ParallelCount(t: Node): Option<nat>
  {
    match ParallelFold(Preorder(t, 0))
    case None => None
    case Some(st) => Some(st.count)
  }

  lemma ParallelCountAtLeastAsync(t: Node)
    requires ParallelCount(t).Some?
    ensures ParallelCount(t).value >= Tally(AsyncFlag, Preorder(t, 0))
  {
    FoldInvariant(Preorder(t, 0));
  }

  /** A prefix of the walk that panics makes the whole walk panic. */
  lemma PanicPrefix(t: Node, done: seq<Item>, x: Item, pending: seq<Item>)
    requires done + Preorder(x.node, x.depth) + PreorderItems(pending) == Preorder(t, 0)
    requires ParallelFold(done + [x]).None?
    ensures ParallelCount(t).None?
  {
    var rest := Preorder(x.node, x.depth)[1..] + PreorderItems(pending);
    assert Preorder(t, 0) == (done + [x]) + rest;
    PanicPersists(done + [x], rest);
  }

  /** The body of the walk for one node. */
  method VisitNode(node: Node, count: nat, pool: set<string>) returns (r: Option<ParState>)
    ensures r == ParStep(ParState(count, pool), node)
  {
    if node.kind == "use_declaration" {
      var imported := ImportNames(node, pool);
      if imported.None? {
        return None;
      }
      return Some(ParState(count, imported.value));
    } else if node.kind == "async_block" {
      return Some(ParState(count + 1, pool));
    } else if (node.kind == "call_expression" || node.kind == "macro_invocation") && Related(node.text, pool) {
      var found := FindParallelCalls(node, pool);
      return Some(ParState(count + found, pool));
    }
    return Some(ParState(count, pool));
  }

  /** `parallel_calls` */
  method ParallelCalls(t: Node, src: seq<bv8>) returns (r: Result<Metric>)
    ensures r.Ok? <==> ParallelCount(t).Some?
    ensures r.Ok? ==> r.value == Metric("parallel_calls", ParallelCount(t).value as real)
    ensures r.Err? ==> r.failure.Panic?
  {
    var c := new TreeCursor(t);
    var count: nat := 0;
    var pool := Keywords;
    while true
      invariant c.Valid() && c.root == t
      invariant ParallelFold(c.done) == Some(ParState(count, pool))
      decreases |Preorder(t, 0)| - |c.done|
    {
      FoldSnoc(c.done, c.here);
      var node := c.Node();
      var next := VisitNode(node, count, pool);
      if next.None? {
        WholeSplit(t, c.path);
        PanicPrefix(t, c.done, c.here, c.pending);
        return Err(Panic(UnwrapNone));
      }
      count, pool := next.value.count, next.value.pool;
      var more := c.Advance();
      if !more {
        return Ok(Metric("parallel_calls", count as real));
      }
    }
  }
}

/** The corpus walker: every benchmark directory is walked recursively; the
    registered operators are applied to every `.rs` file, and every
    `Cargo.lock` leads into the directories of the dependencies it lists,
    each at most once per benchmark. The file system is a value: the
    benchmark's directory tree, and a map from the paths that exist under
    the dependency directory to their listings. */
module Entry {
  import opened Syntax
  import opened Common
  import opened Stats
  import Parse

  /** A `.rs` file as read and parsed: its bytes, the tree the parser builds
      from them, and whether that tree contains an error node. */
  datatype Source = Source(bytes: seq<bv8>, tree: Node, hasError: bool)

  /** An item of a directory listing. A file holds what reading it as a
      source file gives (`None`: it cannot be opened or read) and what
      reading it as a lock file gives (`None`: it cannot be read; otherwise
      the paths of the dependencies it lists, resolved under the dependency
      directory). Which of the two is used depends on the file's name.
      `Other` is an entry that is neither a directory nor a file, `Broken`
      one whose entry or file type cannot be read. */
  datatype DirEntry =
    | Dir(name: string, listing: Listing)
    | File(name: string, source: Option<Source>, lock: Option<seq<string>>)
    | Other(name: string)
    | Broken

  /** What `read_dir` gives for a directory. */
  datatype Listing = Listed(entries: seq<DirEntry>) | Unreadable

  /** The paths that exist under the dependency directory, with what
      `read_dir` gives for each. */
  type Deps = map<string, Listing>

  function EntrySize(e: DirEntry): nat
  {
    match e
    case Dir(_, l) => 1 + ListingSize(l)
    case _ => 1
  }

  function ListingSize(l: Listing): nat
  {
    match l
    case Listed(es) => 1 + EntriesSize(es)
    case Unreadable => 1
  }

  function EntriesSize(es: seq<DirEntry>): nat
  {
    if es == [] then 0 else EntrySize(es[0]) + EntriesSize(es[1..])
  }

  predicate EndsWith(s: string, suffix: string)
  {
    |suffix| <= |s| && s[|s| - |suffix|..] == suffix
  }

  /** What each registered operator computes on the tree `t`. */
  function Outputs(t: Node): Parse.Op -> Option<real>
  {
    op => Parse.OpValue(op, t)
  }

  /** `ops.iter().for_each(...)`: every operator of the registry, in order,
      adds its value to the table with `add_or_insert`; `Err` is a panic of
      an operator. */
  function FoldOps(ops: seq<Parse.Op>, val: Parse.Op -> Option<real>, acc: Stats): Result<Stats>
  {
    if ops == [] then Ok(acc)
    else
      match FoldOps(ops[..|ops| - 1], val, acc)
      case Err(f) => Err(f)
      case Ok(s) =>
        var op := ops[|ops| - 1];
        match val(op)
        case None => Err(Panic(UnwrapNone))
        case Some(x) => Ok(AddOrInsert(s, Parse.OpName(op), x))
  }

  /** The operators' contribution for one parsed `.rs` file. */
  function FileStats(s: Source, acc: Stats): Result<Stats>
  {
    if s.hasError then Err(Panic("assertion failed: !tree.root_node().has_error()"))
    else FoldOps(Parse.AstOps(), Outputs(s.tree), acc)
  }

  /** The state of a walk: the table so far, the set of dependency paths
      already entered, and the log of the dependency paths entered, in order. */
  datatype Walk = Walk(stats: Stats, visited: set<string>, walked: seq<string>)

  /** Puts the dependency paths entered earlier in front of a later walk's log. */
  function Prepend(log: seq<string>, r: Result<Walk>): Result<Walk>
  {
    match r
    case Err(f) => Err(f)
    case Ok(w) => Ok(Walk(w.stats, w.visited, log + w.walked))
  }

  lemma PrependNil(r: Result<Walk>)
    ensures Prepend([], r) == r
  {
    if r.Ok? {
      assert [] + r.value.walked == r.value.walked;
    }
  }

  /** One step of the loop over a directory's entries. */
  lemma EntriesStep(deps: Deps, es: seq<DirEntry>, i: nat, v: set<string>, acc: Stats)
    requires i < |es|
    ensures WalkEntry(deps, es[i], v, acc).Err? ==> WalkEntries(deps, es[i..], v, acc) == Err(WalkEntry(deps, es[i], v, acc).failure)
    ensures WalkEntry(deps, es[i], v, acc).Ok? ==>
              var w := WalkEntry(deps, es[i], v, acc).value;
              WalkEntries(deps, es[i..], v, acc) == Prepend(w.walked, WalkEntries(deps, es[i + 1..], w.visited, w.stats))
  {
    assert es[i..][0] == es[i] && es[i..][1..] == es[i + 1..];
  }

  /** One step of the loop over a lock file's dependencies. */
  lemma DepsStep(deps: Deps, ps: seq<string>, i: nat, v: set<string>, acc: Stats)
    requires i < |ps|
    ensures ps[i] !in deps || ps[i] in v ==> WalkDeps(deps, ps[i..], v, acc) == WalkDeps(deps, ps[i + 1..], v, acc)
    ensures ps[i] in deps && ps[i] !in v && WalkListing(deps, deps[ps[i]], v + {ps[i]}).Err? ==>
              WalkDeps(deps, ps[i..], v, acc) == Err(WalkListing(deps, deps[ps[i]], v + {ps[i]}).failure)
    ensures ps[i] in deps && ps[i] !in v && WalkListing(deps, deps[ps[i]], v + {ps[i]}).Ok? ==>
              var w := WalkListing(deps, deps[ps[i]], v + {ps[i]}).value;
              WalkDeps(deps, ps[i..], v, acc) == Prepend([ps[i]] + w.walked, WalkDeps(deps, ps[i + 1..], w.visited, Combine(acc, w.stats)))
  {
    assert ps[i..][0] == ps[i] && ps[i..][1..] == ps[i + 1..];
  }

  lemma PrependPrepend(a: seq<string>, b: seq<string>, r: Result<Walk>)
    ensures Prepend(a, Prepend(b, r)) == Prepend(a + b, r)
  {
    if r.Ok? {
      assert a + (b + r.value.walked) == (a + b) + r.value.walked;
    }
  }

  /** Adding paths to the visited set leaves no more unvisited paths. */
  lemma Unvisited(keys: set<string>, v: set<string>, v': set<string>)
    requires v <= v'
    ensures |keys - v'| <= |keys - v|
  {
    assert keys - v' <= keys - v;
    SubsetCard(keys - v', keys - v);
  }

  /** Entering an unvisited dependency leaves one unvisited path fewer. */
  lemma UnvisitedStrict(keys: set<string>, v: set<string>, p: string)
    requires p in keys && p !in v
    ensures |keys - (v + {p})| < |keys - v|
  {
    assert keys - v == (keys - (v + {p})) + {p};
  }

  lemma SubsetCard(a: set<string>, b: set<string>)
    requires a <= b
    ensures |a| <= |b|
  {
    assert b == a + (b - a);
  }

  /** `analyze_dir` on a directory: a fresh table for its entries. */
  function WalkListing(deps: Deps, l: Listing, v: set<string>): (r: Result<Walk>)
    ensures r.Ok? ==> v <= r.value.visited
    decreases |deps.Keys - v|, ListingSize(l), 0
  {
    match l
    case Unreadable => Err(IoError("read_dir"))
    case Listed(es) => WalkEntries(deps, es, v, map[])
  }

  /** The loop over the entries of a directory, in listing order. */
  function WalkEntries(deps: Deps, es: seq<DirEntry>, v: set<string>, acc: Stats): (r: Result<Walk>)
    ensures r.Ok? ==> v <= r.value.visited
    decreases |deps.Keys - v|, EntriesSize(es), 1
  {
    if es == [] then Ok(Walk(acc, v, []))
    else
      match WalkEntry(deps, es[0], v, acc)
      case Err(f) => Err(f)
      case Ok(w) =>
        Unvisited(deps.Keys, v, w.visited);
        Prepend(w.walked, WalkEntries(deps, es[1..], w.visited, w.stats))
  }

  /** One entry of a directory. */
  function WalkEntry(deps: Deps, e: DirEntry, v: set<string>, acc: Stats): (r: Result<Walk>)
    ensures r.Ok? ==> v <= r.value.visited
    decreases |deps.Keys - v|, EntrySize(e), 0
  {
    match e
    case Broken => Err(IoError("file_type"))
    case Other(_) => Ok(Walk(acc, v, []))
    case Dir(_, l) =>
      (match WalkListing(deps, l, v)
       case Err(f) => Err(f)
       case Ok(w) => Ok(Walk(Combine(acc, w.stats), w.visited, w.walked)))
    case File(name, source, lock) =>
      if EndsWith(name, ".rs") then
        match source
        case None => Err(IoError(name))
        case Some(s) =>
          (match FileStats(s, acc)
           case Err(f) => Err(f)
           case Ok(st) => Ok(Walk(st, v, [])))
      else if name == "Cargo.lock" then
        match lock
        case None => Err(IoError(name))
        case Some(ps) => WalkDeps(deps, ps, v, acc)
      else Ok(Walk(acc, v, []))
  }

  /** The loop over the dependencies of a lock file: a path is entered only
      when it exists and has not been entered before, and it is marked as
      entered before its walk starts. */
  function WalkDeps(deps: Deps, ps: seq<string>, v: set<string>, acc: Stats): (r: Result<Walk>)
    ensures r.Ok? ==> v <= r.value.visited
    decreases |deps.Keys - v|, 0, |ps|
  {
    if ps == [] then Ok(Walk(acc, v, []))
    else
      var p := ps[0];
      if p in deps && p !in v then
        UnvisitedStrict(deps.Keys, v, p);
        match WalkListing(deps, deps[p], v + {p})
        case Err(f) => Err(f)
        case Ok(w) =>
          Unvisited(deps.Keys, v, w.visited);
          Prepend([p] + w.walked, WalkDeps(deps, ps[1..], w.visited, Combine(acc, w.stats)))
      else WalkDeps(deps, ps[1..], v, acc)
  }

  /** The log of a walk from visited set `v`: the paths entered are existing
      dependency paths that were not visited before, none is entered twice,
      and the new visited set is the old one together with them. */
  ghost predicate LogFrom(deps: Deps, v: set<string>, r: Result<Walk>)
  {
    r.Ok? ==>
      var w := r.value;
      && (forall i, j :: 0 <= i < j < |w.walked| ==> w.walked[i] != w.walked[j])
      && (forall i :: 0 <= i < |w.walked| ==> w.walked[i] in deps && w.walked[i] !in v)
      && (forall x :: x in w.visited <==> x in v || x in w.walked)
  }

  /** Two walks one after the other keep the log property. */
  lemma LogCompose(deps: Deps, v: set<string>, w: Walk, r: Result<Walk>)
    requires LogFrom(deps, v, Ok(w)) && LogFrom(deps, w.visited, r)
    ensures LogFrom(deps, v, Prepend(w.walked, r))
  {
    if r.Ok? {
      var a, b := w.walked, r.value.walked;
      var ab := a + b;
      forall i, j | 0 <= i < j < |ab|
        ensures ab[i] != ab[j]
      {
        if i < |a| && j >= |a| {
          assert ab[j] == b[j - |a|] && b[j - |a|] !in w.visited;
          assert ab[i] == a[i] && a[i] in w.visited;
        }
      }
      forall i | 0 <= i < |ab|
        ensures ab[i] in deps && ab[i] !in v
      {
        if i >= |a| {
          assert ab[i] == b[i - |a|] && b[i - |a|] !in w.visited;
        }
      }
      forall x
        ensures x in r.value.visited <==> x in v || x in ab
      {
        assert x in ab <==> x in a || x in b;
      }
    }
  }

  /** Entering `p` and then walking from `v + {p}`. */
  lemma LogEnter(deps: Deps, v: set<string>, p: string, w: Walk, r: Result<Walk>)
    requires p in deps && p !in v
    requires LogFrom(deps, v + {p}, Ok(w)) && LogFrom(deps, w.visited, r)
    ensures LogFrom(deps, v, Prepend([p] + w.walked, r))
  {
    var w' := Walk(w.stats, w.visited, [p] + w.walked);
    forall i | 0 <= i < |w'.walked|
      ensures w'.walked[i] in deps && w'.walked[i] !in v
    {
      if i > 0 {
        assert w'.walked[i] == w.walked[i - 1];
      }
    }
    forall i, j | 0 <= i < j < |w'.walked|
      ensures w'.walked[i] != w'.walked[j]
    {
      assert w'.walked[j] == w.walked[j - 1];
      if i > 0 {
        assert w'.walked[i] == w.walked[i - 1];
      }
    }
    forall x
      ensures x in w'.visited <==> x in v || x in w'.walked
    {
      assert x in w'.walked <==> x == p || x in w.walked;
    }
    assert LogFrom(deps, v, Ok(w'));
    LogCompose(deps, v, w', r);
  }

  /** Every dependency path is entered at most once per walk, only when it
      exists and was not visited, and the visited set is exactly the
      initial one together with the paths entered. */
  lemma {:induction false} ListingLog(deps: Deps, l: Listing, v: set<string>)
    ensures LogFrom(deps, v, WalkListing(deps, l, v))
    decreases |deps.Keys - v|, ListingSize(l), 0
  {
    if l.Listed? {
      EntriesLog(deps, l.entries, v, map[]);
    }
  }

  lemma {:induction false} EntriesLog(deps: Deps, es: seq<DirEntry>, v: set<string>, acc: Stats)
    ensures LogFrom(deps, v, WalkEntries(deps, es, v, acc))
    decreases |deps.Keys - v|, EntriesSize(es), 1
  {
    if es != [] {
      var r := WalkEntry(deps, es[0], v, acc);
      EntryLog(deps, es[0], v, acc);
      if r.Ok? {
        var w := r.value;
        Unvisited(deps.Keys, v, w.visited);
        EntriesLog(deps, es[1..], w.visited, w.stats);
        LogCompose(deps, v, w, WalkEntries(deps, es[1..], w.visited, w.stats));
      }
    }
  }

  lemma {:induction false} EntryLog(deps: Deps, e: DirEntry, v: set<string>, acc: Stats)
    ensures LogFrom(deps, v, WalkEntry(deps, e, v, acc))
    decreases |deps.Keys - v|, EntrySize(e), 0
  {
    match e
    case Dir(_, l) => ListingLog(deps, l, v);
    case File(name, _, lock) =>
      if !EndsWith(name, ".rs") && name == "Cargo.lock" && lock.Some? {
        DepsLog(deps, lock.value, v, acc);
      }
    case _ =>
  }

  lemma {:induction false} DepsLog(deps: Deps, ps: seq<string>, v: set<string>, acc: Stats)
    ensures LogFrom(deps, v, WalkDeps(deps, ps, v, acc))
    decreases |deps.Keys - v|, 0, |ps|
  {
    if ps != [] {
      var p := ps[0];
      if p in deps && p !in v {
        UnvisitedStrict(deps.Keys, v, p);
        var r := WalkListing(deps, deps[p], v + {p});
        ListingLog(deps, deps[p], v + {p});
        if r.Ok? {
          var w := r.value;
          Unvisited(deps.Keys, v, w.visited);
          DepsLog(deps, ps[1..], w.visited, Combine(acc, w.stats));
          LogEnter(deps, v, p, w, WalkDeps(deps, ps[1..], w.visited, Combine(acc, w.stats)));
        }
      } else {
        DepsLog(deps, ps[1..], v, acc);
      }
    }
  }

  /** The dependency paths entered during one benchmark's walk: the
      `analyzed_dependency` set, with the log of the paths entered. */
  class VisitedSet {
    var paths: set<string>
    /** The paths entered, in order (the `|---analyzing` log line). */
    ghost var walked: seq<string>

    constructor ()
      ensures paths == {} && walked == []
    {
      paths := {};
      walked := [];
    }

    method Insert(p: string)
      modifies this
      ensures paths == old(paths) + {p} && walked == old(walked) + [p]
    {
      paths := paths + {p};
      walked := walked + [p];
    }
  }

  /** A method's outcome `r`, with the visited set and log it leaves, is the
      outcome `w` of the walk specification started from log `log0`. */
  ghost predicate Agrees(w: Result<Walk>, r: Result<Stats>, log0: seq<string>, paths: set<string>, log: seq<string>)
  {
    && (r.Ok? <==> w.Ok?)
    && (r.Err? ==> r.failure == w.failure)
    && (r.Ok? ==> r.value == w.value.stats && paths == w.value.visited && log == log0 + w.value.walked)
  }

  lemma EntryWithin(es: seq<DirEntry>, i: nat)
    requires i < |es|
    ensures EntrySize(es[i]) < 1 + EntriesSize(es)
    ensures EntriesSize(es[i..]) == EntrySize(es[i]) + EntriesSize(es[i + 1..])
  {
    assert es[i..][0] == es[i] && es[i..][1..] == es[i + 1..];
    if i > 0 {
      assert es[1..][i - 1..] == es[i..];
      EntryWithin(es[1..], i - 1);
    }
  }

  /** `analyze_dir` */
  method AnalyzeDir(l: Listing, deps: Deps, v: VisitedSet) returns (r: Result<Stats>)
    modifies v
    ensures Agrees(WalkListing(deps, l, old(v.paths)), r, old(v.walked), v.paths, v.walked)
    decreases |deps.Keys - v.paths|, ListingSize(l), 0
  {
    if l.Unreadable? {
      return Err(IoError("read_dir"));
    }
    var es := l.entries;
    var stats: Stats := map[];
    ghost var v0, log0 := v.paths, v.walked;
    ghost var log: seq<string> := [];
    assert es[0..] == es;
    PrependNil(WalkEntries(deps, es, v0, map[]));
    for i := 0 to |es|
      invariant v0 <= v.paths && v.walked == log0 + log
      invariant Prepend(log, WalkEntries(deps, es[i..], v.paths, stats)) == WalkEntries(deps, es, v0, map[])
    {
      EntryWithin(es, i);
      Unvisited(deps.Keys, v0, v.paths);
      ghost var paths := v.paths;
      ghost var w := WalkEntry(deps, es[i], v.paths, stats);
      var step := VisitEntry(es[i], deps, v, stats);
      EntriesAdvance(deps, es, i, log0, log, paths, stats, w, step, v.paths, v.walked);
      if step.Err? {
        return step;
      }
      log := log + w.value.walked;
      stats := step.value;
    }
    assert es[|es|..] == [];
    return Ok(stats);
  }

  /** The loop invariant of `AnalyzeDir` carried over one entry. */
  lemma EntriesAdvance(deps: Deps, es: seq<DirEntry>, i: nat, log0: seq<string>, log: seq<string>,
                       paths: set<string>, stats: Stats, w: Result<Walk>, step: Result<Stats>,
                       paths': set<string>, log': seq<string>)
    requires i < |es| && w == WalkEntry(deps, es[i], paths, stats)
    requires Agrees(w, step, log0 + log, paths', log')
    ensures step.Err? ==> Prepend(log, WalkEntries(deps, es[i..], paths, stats)) == Err(step.failure)
    ensures step.Ok? ==> log' == log0 + (log + w.value.walked)
    ensures step.Ok? ==> Prepend(log + w.value.walked, WalkEntries(deps, es[i + 1..], paths', step.value))
                         == Prepend(log, WalkEntries(deps, es[i..], paths, stats))
  {
    EntriesStep(deps, es, i, paths, stats);
    if step.Ok? {
      PrependPrepend(log, w.value.walked, WalkEntries(deps, es[i + 1..], paths', step.value));
    }
  }

  /** The body of the loop of `analyze_dir` for one entry. */
  method VisitEntry(e: DirEntry, deps: Deps, v: VisitedSet, acc: Stats) returns (r: Result<Stats>)
    modifies v
    ensures Agrees(WalkEntry(deps, e, old(v.paths), acc), r, old(v.walked), v.paths, v.walked)
    decreases |deps.Keys - v.paths|, EntrySize(e), 0
  {
    match e
    case Broken =>
      return Err(IoError("file_type"));
    case Other(_) =>
      return Ok(acc);
    case Dir(_, l) =>
      var sub := AnalyzeDir(l, deps, v);
      if sub.Err? {
        return sub;
      }
      return Ok(Combine(acc, sub.value));
    case File(name, source, lock) =>
      if EndsWith(name, ".rs") {
        if source.None? {
          return Err(IoError(name));
        }
        var s := source.value;
        if s.hasError {
          return Err(Panic("assertion failed: !tree.root_node().has_error()"));
        }
        r := ApplyOps(s.tree, s.bytes, acc);
      } else if name == "Cargo.lock" {
        if lock.None? {
          return Err(IoError(name));
        }
        r := AnalyzeLock(lock.value, deps, v, acc);
      } else {
        return Ok(acc);
      }
  }

  /** The loop over the dependencies listed by a `Cargo.lock`. */
  method AnalyzeLock(ps: seq<string>, deps: Deps, v: VisitedSet, acc: Stats) returns (r: Result<Stats>)
    modifies v
    ensures Agrees(WalkDeps(deps, ps, old(v.paths), acc), r, old(v.walked), v.paths, v.walked)
    decreases |deps.Keys - v.paths|, 0, 0
  {
    var stats := acc;
    ghost var v0, log0 := v.paths, v.walked;
    ghost var log: seq<string> := [];
    assert ps[0..] == ps;
    PrependNil(WalkDeps(deps, ps, v0, acc));
    for i := 0 to |ps|
      invariant v0 <= v.paths && v.walked == log0 + log
      invariant Prepend(log, WalkDeps(deps, ps[i..], v.paths, stats)) == WalkDeps(deps, ps, v0, acc)
    {
      DepsStep(deps, ps, i, v.paths, stats);
      var p := ps[i];
      if p in deps && p !in v.paths {
        ghost var paths := v.paths;
        Unvisited(deps.Keys, v0, v.paths);
        UnvisitedStrict(deps.Keys, v.paths, p);
        v.Insert(p);
        ghost var w := WalkListing(deps, deps[p], paths + {p});
        var sub := AnalyzeDir(deps[p], deps, v);
        DepsAdvance(deps, ps, i, log0, log, paths, stats, w, sub, v.paths, v.walked);
        if sub.Err? {
          return sub;
        }
        log := log + ([p] + w.value.walked);
        stats := Combine(stats, sub.value);
      }
    }
    assert ps[|ps|..] == [];
    return Ok(stats);
  }

  /** The loop invariant of `AnalyzeLock` carried over a dependency that is entered. */
  lemma DepsAdvance(deps: Deps, ps: seq<string>, i: nat, log0: seq<string>, log: seq<string>,
                    paths: set<string>, stats: Stats, w: Result<Walk>, sub: Result<Stats>,
                    paths': set<string>, log': seq<string>)
    requires i < |ps| && ps[i] in deps && ps[i] !in paths
    requires w == WalkListing(deps, deps[ps[i]], paths + {ps[i]})
    requires Agrees(w, sub, log0 + log + [ps[i]], paths', log')
    ensures sub.Err? ==> Prepend(log, WalkDeps(deps, ps[i..], paths, stats)) == Err(sub.failure)
    ensures sub.Ok? ==> log' == log0 + (log + ([ps[i]] + w.value.walked))
    ensures sub.Ok? ==> Prepend(log + ([ps[i]] + w.value.walked), WalkDeps(deps, ps[i + 1..], paths', Combine(stats, sub.value)))
                        == Prepend(log, WalkDeps(deps, ps[i..], paths, stats))
  {
    DepsStep(deps, ps, i, paths, stats);
    if sub.Ok? {
      PrependPrepend(log, [ps[i]] + w.value.walked, WalkDeps(deps, ps[i + 1..], paths', Combine(stats, sub.value)));
      assert log0 + log + [ps[i]] + w.value.walked == log0 + (log + ([ps[i]] + w.value.walked));
    }
  }

  /** The registry applied to one tree. */
  method ApplyOps(t: Node, src: seq<bv8>, acc: Stats) returns (r: Result<Stats>)
    ensures r == FoldOps(Parse.AstOps(), Outputs(t), acc)
  {
    var ops := Parse.AstOps();
    var stats := acc;
    for i := 0 to |ops|
      invariant FoldOps(ops[..i], Outputs(t), acc) == Ok(stats)
    {
      var m := Parse.RunOp(ops[i], t, src);
      FoldOpsStep(ops, i, Outputs(t), acc, stats);
      if m.Err? {
        FoldOpsStops(ops, i + 1, Outputs(t), acc);
        return Err(Panic(UnwrapNone));
      }
      stats := AddOrInsert(stats, m.value.name, m.value.value);
    }
    assert ops[..|ops|] == ops;
    return Ok(stats);
  }

  /** One more operator: its panic ends the fold, its value is added in. */
  lemma FoldOpsStep(ops: seq<Parse.Op>, i: nat, val: Parse.Op -> Option<real>, acc: Stats, stats: Stats)
    requires i < |ops| && FoldOps(ops[..i], val, acc) == Ok(stats)
    ensures val(ops[i]).None? ==> FoldOps(ops[..i + 1], val, acc) == Err(Panic(UnwrapNone))
    ensures val(ops[i]).Some? ==>
              FoldOps(ops[..i + 1], val, acc) == Ok(AddOrInsert(stats, Parse.OpName(ops[i]), val(ops[i]).value))
  {
    assert ops[..i + 1][..i] == ops[..i];
  }

  /** A panic of an operator ends the fold. */
  lemma {:induction false} FoldOpsStops(ops: seq<Parse.Op>, i: nat, val: Parse.Op -> Option<real>, acc: Stats)
    requires i <= |ops| && FoldOps(ops[..i], val, acc).Err?
    ensures FoldOps(ops, val, acc) == FoldOps(ops[..i], val, acc)
    decreases |ops| - i
  {
    if i < |ops| {
      assert ops[..i + 1][..i] == ops[..i];
      FoldOpsStops(ops, i + 1, val, acc);
    } else {
      assert ops[..i] == ops;
    }
  }

  /** The metric names of a sequence of operators. */
  function NamesOf(ops: seq<Parse.Op>): set<string>
  {
    set op | op in ops :: Parse.OpName(op)
  }

  /** The sum of the values the operators report under the name `x`. */
  function OpsTotal(ops: seq<Parse.Op>, val: Parse.Op -> Option<real>, x: string): real
    requires forall op :: op in ops ==> val(op).Some?
  {
    if ops == [] then 0.0
    else
      var op := ops[|ops| - 1];
      OpsTotal(ops[..|ops| - 1], val, x) + (if Parse.OpName(op) == x then val(op).value else 0.0)
  }

  /** When no operator panics, the fold adds, under every name, what the
      operators report under it, and creates exactly the operators' names. */
  lemma {:induction false} FoldOpsTable(ops: seq<Parse.Op>, val: Parse.Op -> Option<real>, acc: Stats)
    requires forall op :: op in ops ==> val(op).Some?
    ensures FoldOps(ops, val, acc).Ok?
    ensures FoldOps(ops, val, acc).value.Keys == acc.Keys + NamesOf(ops)
    ensures forall x :: Get(FoldOps(ops, val, acc).value, x) == Get(acc, x) + OpsTotal(ops, val, x)
    decreases |ops|
  {
    if ops != [] {
      var init := ops[..|ops| - 1];
      assert ops == init + [ops[|ops| - 1]];
      assert forall op :: op in ops <==> op in init || op == ops[|ops| - 1];
      FoldOpsTable(init, val, acc);
    }
  }

  /** A name no operator reports gets nothing. */
  lemma {:induction false} OpsTotalAbsent(ops: seq<Parse.Op>, val: Parse.Op -> Option<real>, x: string)
    requires forall op :: op in ops ==> val(op).Some?
    requires forall j :: 0 <= j < |ops| ==> Parse.OpName(ops[j]) != x
    ensures OpsTotal(ops, val, x) == 0.0
    decreases |ops|
  {
    if ops != [] {
      var init := ops[..|ops| - 1];
      assert forall op :: op in init ==> op in ops;
      OpsTotalAbsent(init, val, x);
    }
  }

  /** A name reported by exactly one operator gets that operator's value. */
  lemma {:induction false} OpsTotalUnique(ops: seq<Parse.Op>, val: Parse.Op -> Option<real>, i: nat)
    requires forall op :: op in ops ==> val(op).Some?
    requires i < |ops| && forall j :: 0 <= j < |ops| && j != i ==> Parse.OpName(ops[j]) != Parse.OpName(ops[i])
    ensures OpsTotal(ops, val, Parse.OpName(ops[i])) == val(ops[i]).value
    decreases |ops|
  {
    var init := ops[..|ops| - 1];
    assert forall op :: op in init ==> op in ops;
    if i == |ops| - 1 {
      OpsTotalAbsent(init, val, Parse.OpName(ops[i]));
    } else {
      OpsTotalUnique(init, val, i);
    }
  }

  /** One `.rs` file whose walk does not panic adds each registered
      operator's value under that operator's name, and creates no other
      key. */
  lemma FileContribution(t: Node, acc: Stats)
    requires Parse.ParallelCalls.ParallelCount(t).Some?
    ensures FoldOps(Parse.AstOps(), Outputs(t), acc).Ok?
    ensures FoldOps(Parse.AstOps(), Outputs(t), acc).value.Keys == acc.Keys + NamesOf(Parse.AstOps())
    ensures forall i :: 0 <= i < |Parse.AstOps()| ==>
              var op := Parse.AstOps()[i];
              Get(FoldOps(Parse.AstOps(), Outputs(t), acc).value, Parse.OpName(op)) == Get(acc, Parse.OpName(op)) + Parse.OpValue(op, t).value
  {
    var ops, val := Parse.AstOps(), Outputs(t);
    forall op | op in ops
      ensures val(op).Some?
    {
      Parse.OnlyParallelCallsPanics(op, t);
    }
    FoldOpsTable(ops, val, acc);
    Parse.RegistryNames();
    forall i | 0 <= i < |ops|
      ensures OpsTotal(ops, val, Parse.OpName(ops[i])) == val(ops[i]).value
    {
      OpsTotalUnique(ops, val, i);
    }
  }

  /** A benchmark: its name and its source directory. */
  datatype Benchmark = Benchmark(name: string, source: Listing)

  /** `analyze_benchmark`: the walk of the benchmark's directory with a
      fresh visited set; an error of the walk becomes a panic (`unwrap`). */
  function BenchmarkStats(deps: Deps, b: Benchmark): Result<Stats>
  {
    match WalkListing(deps, b.source, {})
    case Ok(w) => Ok(w.stats)
    case Err(f) => Err(if f.Panic? then f else Panic(UnwrapErr))
  }

  const UnwrapErr := "called `Result::unwrap()` on an `Err` value"

  /** The results of the benchmarks, in order; the first failure stops the run. */
  function AnalyzeAll(deps: Deps, bs: seq<Benchmark>): Result<seq<BenchResult>>
  {
    if bs == [] then Ok([])
    else
      match AnalyzeAll(deps, bs[..|bs| - 1])
      case Err(f) => Err(f)
      case Ok(rs) =>
        var b := bs[|bs| - 1];
        match BenchmarkStats(deps, b)
        case Err(f) => Err(f)
        case Ok(s) => Ok(rs + [BenchResult(b.name, 0, [RunResult(b.name, s)])])
  }

  /** One result per benchmark, in order, with iterations 0 and the
      benchmark's own walk: what one benchmark reports does not depend on
      the others. */
  lemma {:induction false} AnalyzeAllShape(deps: Deps, bs: seq<Benchmark>)
    ensures AnalyzeAll(deps, bs).Ok? <==> forall i :: 0 <= i < |bs| ==> BenchmarkStats(deps, bs[i]).Ok?
    ensures AnalyzeAll(deps, bs).Ok? ==>
              var rs := AnalyzeAll(deps, bs).value;
              && |rs| == |bs|
              && forall i :: 0 <= i < |bs| ==>
                   rs[i] == BenchResult(bs[i].name, 0, [RunResult(bs[i].name, BenchmarkStats(deps, bs[i]).value)])
    decreases |bs|
  {
    if bs != [] {
      var init := bs[..|bs| - 1];
      AnalyzeAllShape(deps, init);
      assert forall i :: 0 <= i < |init| ==> init[i] == bs[i];
    }
  }

  /** `analyze_benchmark` */
  method AnalyzeBenchmark(b: Benchmark, deps: Deps) returns (r: Result<Stats>)
    ensures r == BenchmarkStats(deps, b)
  {
    var v := new VisitedSet();
    var res := AnalyzeDir(b.source, deps, v);
    if res.Err? {
      return Err(if res.failure.Panic? then res.failure else Panic(UnwrapErr));
    }
    return Ok(res.value);
  }

  lemma {:induction false} AnalyzeAllStops(deps: Deps, bs: seq<Benchmark>, i: nat)
    requires i <= |bs| && AnalyzeAll(deps, bs[..i]).Err?
    ensures AnalyzeAll(deps, bs) == AnalyzeAll(deps, bs[..i])
    decreases |bs| - i
  {
    if i < |bs| {
      assert bs[..i + 1][..i] == bs[..i];
      AnalyzeAllStops(deps, bs, i + 1);
    } else {
      assert bs[..i] == bs;
    }
  }

  /** `ast_code_analyze` up to the result set it serializes: the
      dependency directory must exist, the benchmarks are the ones
      discovered (or the error of their discovery), and each is analysed in
      turn. */
  method AstCodeAnalyze(depDirExists: bool, discovered: Result<seq<Benchmark>>, deps: Deps)
    returns (r: Result<seq<BenchResult>>)
    ensures !depDirExists ==> r == Err(Panic("assertion failed: dependency_dir.exists()"))
    ensures depDirExists && discovered.Err? ==> r == Err(discovered.failure)
    ensures depDirExists && discovered.Ok? ==> r == AnalyzeAll(deps, discovered.value)
  {
    if !depDirExists {
      return Err(Panic("assertion failed: dependency_dir.exists()"));
    }
    if discovered.Err? {
      return Err(discovered.failure);
    }
    var bs := discovered.value;
    var results: seq<BenchResult> := [];
    for i := 0 to |bs|
      invariant AnalyzeAll(deps, bs[..i]) == Ok(results)
    {
      assert bs[..i + 1][..i] == bs[..i];
      var stats := AnalyzeBenchmark(bs[i], deps);
      if stats.Err? {
        AnalyzeAllStops(deps, bs, i + 1);
        return Err(stats.failure);
      }
      results := results + [BenchResult(bs[i].name, 0, [RunResult(bs[i].name, stats.value)])];
    }
    assert bs[..|bs|] == bs;
    return Ok(results);
  }

  /** A dependency whose own lock file lists itself, reached twice from the
      benchmark's lock file: it is entered once, and the walk ends. */
  lemma CyclicLockEndsOnce()
    ensures var deps := map["dep/a" := Listed([File("Cargo.lock", None, Some(["dep/a"]))])];
            var top := Listed([File("Cargo.lock", None, Some(["dep/a", "dep/a", "dep/missing"]))]);
            WalkListing(deps, top, {}) == Ok(Walk(map[], {"dep/a"}, ["dep/a"]))
  {
    var deps := map["dep/a" := Listed([File("Cargo.lock", None, Some(["dep/a"]))])];
    var inner := [File("Cargo.lock", None, Some(["dep/a"]))];
    var ps := ["dep/a", "dep/a", "dep/missing"];
    assert !EndsWith("Cargo.lock", ".rs");
    assert ["dep/a"][1..] == [];
    assert WalkDeps(deps, ["dep/a"], {"dep/a"}, map[]) == Ok(Walk(map[], {"dep/a"}, []));
    assert inner[1..] == [];
    assert WalkEntry(deps, inner[0], {"dep/a"}, map[]) == Ok(Walk(map[], {"dep/a"}, []));
    assert WalkEntries(deps, inner[1..], {"dep/a"}, map[]) == Ok(Walk(map[], {"dep/a"}, []));
    var nothing: seq<string> := [];
    assert nothing + nothing == nothing;
    assert WalkEntries(deps, inner, {"dep/a"}, map[]) == Ok(Walk(map[], {"dep/a"}, []));
    assert WalkListing(deps, deps["dep/a"], {"dep/a"}) == Ok(Walk(map[], {"dep/a"}, []));
    CombineIdentity(map[]);
    assert ps[1..][1..][1..] == [];
    assert WalkDeps(deps, ps[1..], {"dep/a"}, map[]) == Ok(Walk(map[], {"dep/a"}, []));
    assert ["dep/a"] + nothing == ["dep/a"];
    assert "dep/a" in deps && ps[0] == "dep/a";
    var none: set<string> := {};
    assert none + {"dep/a"} == {"dep/a"};
    var empty: Stats := map[];
    assert Combine(empty, empty) == empty;
    assert WalkListing(deps, deps["dep/a"], none + {"dep/a"}) == Ok(Walk(map[], {"dep/a"}, []));
    assert WalkDeps(deps, ps, none, empty) == Ok(Walk(map[], {"dep/a"}, ["dep/a"]));
  }
}

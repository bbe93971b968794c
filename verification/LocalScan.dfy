/** The local repository scan (src/discovery.rs): a walk bounded in depth, entries and results,
    which looks at the children of each directory in order and keeps no more of them than the
    entry budget could still visit. */
module LocalScan {
  import opened Common

  /** Paths are compared by name below a common directory. */
  type Name = nat
  type Path = seq<Name>

  /** An I/O error; a missing or forbidden entry is ignorable. */
  datatype Trouble = Trouble(ignorable: bool)

  /** What looking at a path finds: nothing readable, something that is no directory (or a
      symlink), or a directory with the answer about its `.git` entry and its listing. */
  datatype Node =
    | Unreadable(trouble: Trouble)
    | Plain
    | Directory(git: Probe, listing: Listing)

  datatype Probe = Repository | Ordinary | ProbeFails(trouble: Trouble)

  datatype Listing = CannotList(trouble: Trouble) | Listed(entries: seq<Entry>)

  datatype Entry = Child(name: Name, node: Node) | BadEntry(trouble: Trouble)

  // ---------- The children of a directory, in order ----------

  datatype Named = Named(name: Name, node: Node)

  function Insert(sorted: seq<Named>, c: Named): seq<Named> {
    if sorted == [] || c.name < sorted[0].name then [c] + sorted else [sorted[0]] + Insert(sorted[1..], c)
  }

  function Sorted(children: seq<Named>): seq<Named> {
    if children == [] then [] else Insert(Sorted(children[..|children| - 1]), children[|children| - 1])
  }

  predicate InOrder(s: seq<Named>) {
    forall i, j | 0 <= i < j < |s| :: s[i].name <= s[j].name
  }

  lemma {:induction false} InsertAddsOne(sorted: seq<Named>, c: Named)
    ensures multiset(Insert(sorted, c)) == multiset(sorted) + multiset{c}
  {
    if sorted != [] && c.name >= sorted[0].name {
      InsertAddsOne(sorted[1..], c);
      assert sorted == [sorted[0]] + sorted[1..];
    }
  }

  lemma {:induction false} InsertKeepsOrder(sorted: seq<Named>, c: Named)
    requires InOrder(sorted)
    ensures InOrder(Insert(sorted, c)) && forall x | x in Insert(sorted, c) :: x in sorted || x == c
  {
    if sorted != [] && c.name >= sorted[0].name {
      InsertKeepsOrder(sorted[1..], c);
      var rest := Insert(sorted[1..], c);
      forall i | 0 <= i < |rest| ensures sorted[0].name <= rest[i].name {
        assert rest[i] in rest;
      }
    }
  }

  /** Sorting orders the children and keeps every one of them. */
  lemma {:induction false} SortedIsAPermutation(children: seq<Named>)
    ensures InOrder(Sorted(children)) && multiset(Sorted(children)) == multiset(children)
  {
    if children != [] {
      var rest := children[..|children| - 1];
      SortedIsAPermutation(rest);
      InsertKeepsOrder(Sorted(rest), children[|children| - 1]);
      InsertAddsOne(Sorted(rest), children[|children| - 1]);
      assert children == rest + [children[|children| - 1]];
    }
  }

  function Least(children: seq<Named>, capacity: nat): seq<Named> {
    First(Sorted(children), capacity)
  }

  lemma {:induction false} InsertBelow(sorted: seq<Named>, c: Named, k: nat)
    requires InOrder(sorted) && k <= |sorted|
    ensures |Insert(sorted, c)| == |sorted| + 1
    ensures k > 0 && sorted[k - 1].name <= c.name ==> Insert(sorted, c)[..k] == sorted[..k]
    ensures k > 0 && c.name < sorted[k - 1].name ==> Insert(sorted, c)[..k] == Insert(sorted[..k - 1], c)
  {
    if sorted != [] && c.name >= sorted[0].name && k > 0 {
      InsertBelow(sorted[1..], c, k - 1);
      assert Insert(sorted, c)[..k] == [sorted[0]] + Insert(sorted[1..], c)[..k - 1];
      assert sorted[..k] == [sorted[0]] + sorted[1..][..k - 1];
      if k > 1 {
        assert sorted[..k - 1][1..] == sorted[1..][..k - 2];
      }
    } else if sorted != [] && c.name < sorted[0].name && k > 0 {
      assert Insert(sorted, c)[..k] == [c] + sorted[..k - 1];
      assert sorted[..k - 1] == [] || sorted[..k - 1][0] == sorted[0];
    } else if sorted != [] {
      InsertBelow(sorted[1..], c, 0);
    }
  }

  lemma {:induction false} SortedShape(children: seq<Named>)
    ensures |Sorted(children)| == |children| && InOrder(Sorted(children))
  {
    SortedIsAPermutation(children);
    assert |multiset(Sorted(children))| == |multiset(children)|;
  }

  /** How one more child changes the least ones. */
  lemma {:induction false} FirstGrows(sorted: seq<Named>, child: Named, capacity: nat)
    requires InOrder(sorted)
    ensures |sorted| < capacity ==> First(Insert(sorted, child), capacity) == Insert(First(sorted, capacity), child)
    ensures |sorted| >= capacity > 0 && child.name < sorted[capacity - 1].name ==>
      First(Insert(sorted, child), capacity) == Insert(First(sorted, capacity)[..capacity - 1], child)
    ensures |sorted| >= capacity > 0 && child.name >= sorted[capacity - 1].name ==>
      First(Insert(sorted, child), capacity) == First(sorted, capacity)
    ensures capacity == 0 ==> First(Insert(sorted, child), capacity) == First(sorted, capacity)
  {
    InsertBelow(sorted, child, if |sorted| <= capacity then |sorted| else capacity);
    if |sorted| >= capacity > 0 {
      assert First(sorted, capacity) == sorted[..capacity];
      assert sorted[..capacity][..capacity - 1] == sorted[..capacity - 1];
    }
  }

  lemma LeastGrows(met: seq<Named>, child: Named, capacity: nat)
    ensures Least(met + [child], capacity) == First(Insert(Sorted(met), child), capacity)
  {
    assert (met + [child])[..|met|] == met;
  }

  /** The heap of children, held by its contents in order: when it is full, a smaller child
      replaces the largest. Whatever order the children come in, it holds the least of them. */
  method RetainBoundedChild(heap: seq<Named>, child: Named, capacity: nat, ghost met: seq<Named>) returns (kept: seq<Named>)
    requires heap == Least(met, capacity)
    ensures kept == Least(met + [child], capacity)
  {
    LeastGrows(met, child, capacity);
    SortedShape(met);
    FirstGrows(Sorted(met), child, capacity);
    if capacity == 0 {
      return heap;
    }
    if |heap| < capacity {
      return Insert(heap, child);
    }
    if child.name < heap[|heap| - 1].name {
      return Insert(heap[..|heap| - 1], child);
    }
    return heap;
  }

  // ---------- What a complete scan finds ----------

  function NamedIn(entry: Entry): seq<Named> {
    match entry
    case Child(name, node) => [Named(name, node)]
    case BadEntry(_) => []
  }

  function Children(entries: seq<Entry>): seq<Named> {
    if entries == [] then [] else
    Children(entries[..|entries| - 1]) + NamedIn(entries[|entries| - 1])
  }

  /** The repositories under a path that are inside no other repository, within the depth. */
  function Topmost(node: Node, path: Path, depth: nat): seq<Path>
    decreases depth, 1, 0
  {
    if !node.Directory? || node.git.ProbeFails? then []
    else if node.git.Repository? then [path]
    else if depth == 0 || node.listing.CannotList? then []
    else TopmostOf(Sorted(Children(node.listing.entries)), path, depth - 1)
  }

  function TopmostOf(children: seq<Named>, path: Path, depth: nat): seq<Path>
    decreases depth, 2, |children|
  {
    if children == [] then []
    else TopmostOf(children[..|children| - 1], path, depth) +
         Topmost(children[|children| - 1].node, path + [children[|children| - 1].name], depth)
  }

  /** Nothing a walk of this depth looks at answers with an error. */
  predicate ErrorFree(node: Node, depth: nat)
    decreases depth
  {
    match node
    case Unreadable(_) => false
    case Plain => true
    case Directory(git, listing) =>
      && !git.ProbeFails?
      && (git.Repository? || depth == 0 ||
          (listing.Listed? && forall i | 0 <= i < |listing.entries| ::
             listing.entries[i].Child? && ErrorFree(listing.entries[i].node, depth - 1)))
  }

  /** The paths not seen before, each once. */
  function NotSeen(paths: seq<Path>, seen: set<Path>): seq<Path> {
    if paths == [] then []
    else
      var before := NotSeen(paths[..|paths| - 1], seen);
      var last := paths[|paths| - 1];
      if last in seen || last in paths[..|paths| - 1] then before else before + [last]
  }

  lemma {:induction false} NotSeenJoins(a: seq<Path>, b: seq<Path>, seen: set<Path>)
    ensures NotSeen(a + b, seen) == NotSeen(a, seen) + NotSeen(b, seen + Elements(a))
  {
    if b == [] {
      assert a + b == a;
    } else {
      var s := a + b;
      assert s[..|s| - 1] == a + b[..|b| - 1] && s[|s| - 1] == b[|b| - 1];
      NotSeenJoins(a, b[..|b| - 1], seen);
    }
  }

  datatype Completion = Complete | ResultsLimit | EntriesLimit | TimedOut | ScanError

  datatype Visit = Visited | Failed(trouble: Trouble)

  /** What a scan has done so far, as its callers can tell. */
  datatype Progress = Progress(entries: nat, published: seq<Path>, seen: set<Path>, completion: Completion, cancelled: bool)

  /** Progress is never taken back, and neither is a verdict other than completion. */
  ghost predicate Onward(a: Progress, b: Progress) {
    && a.entries <= b.entries && a.published <= b.published && a.seen <= b.seen
    && (a.cancelled ==> b.cancelled) && (a.completion != Complete ==> b.completion != Complete)
  }

  ghost predicate Found(a: Progress, b: Progress, paths: seq<Path>) {
    b.published == a.published + NotSeen(paths, a.seen) && b.seen == a.seen + Elements(paths)
  }

  ghost predicate OnlyFrom(a: Progress, b: Progress, paths: seq<Path>) {
    a.published <= b.published && forall p | p in b.published[|a.published|..] :: p in paths
  }

  lemma {:induction false} FoundJoins(a: Progress, b: Progress, c: Progress, first: seq<Path>, second: seq<Path>)
    requires Found(a, b, first) && Found(b, c, second)
    ensures Found(a, c, first + second)
  {
    NotSeenJoins(first, second, a.seen);
    assert Elements(first + second) == Elements(first) + Elements(second);
  }

  lemma {:induction false} OnlyFromJoins(a: Progress, b: Progress, c: Progress, first: seq<Path>, second: seq<Path>, all: seq<Path>)
    requires OnlyFrom(a, b, first) && OnlyFrom(b, c, second) && (forall p | p in first :: p in all) && (forall p | p in second :: p in all)
    ensures OnlyFrom(a, c, all)
  {
    assert c.published[|a.published|..] == b.published[|a.published|..] + c.published[|b.published|..];
  }

  lemma {:induction false} InTopmostOf(children: seq<Named>, path: Path, depth: nat, p: Path)
    ensures p in TopmostOf(children, path, depth) <==>
      exists i :: 0 <= i < |children| && p in Topmost(children[i].node, path + [children[i].name], depth)
  {
    if children != [] {
      var rest, last := children[..|children| - 1], children[|children| - 1];
      InTopmostOf(rest, path, depth, p);
      if p in TopmostOf(rest, path, depth) {
        var i :| 0 <= i < |rest| && p in Topmost(rest[i].node, path + [rest[i].name], depth);
        assert children[i] == rest[i];
      }
      if i :| 0 <= i < |children| && p in Topmost(children[i].node, path + [children[i].name], depth) {
        if i < |rest| { assert rest[i] == children[i]; }
      }
    }
  }

  lemma {:induction false} FewerChildrenFewerPaths(some: seq<Named>, all: seq<Named>, path: Path, depth: nat)
    requires forall c | c in some :: c in all
    ensures forall p | p in TopmostOf(some, path, depth) :: p in TopmostOf(all, path, depth)
  {
    forall p | p in TopmostOf(some, path, depth) ensures p in TopmostOf(all, path, depth) {
      InTopmostOf(some, path, depth, p);
      var i :| 0 <= i < |some| && p in Topmost(some[i].node, path + [some[i].name], depth);
      assert some[i] in some;
      var j :| 0 <= j < |all| && all[j] == some[i];
      InTopmostOf(all, path, depth, p);
    }
  }

  lemma {:induction false} LeastAreAmong(children: seq<Named>, capacity: nat)
    ensures forall c | c in Least(children, capacity) :: c in children
  {
    SortedIsAPermutation(children);
    forall c | c in Least(children, capacity) ensures c in children {
      assert c in multiset(Sorted(children));
    }
  }

  lemma {:induction false} SomeChildren(entries: seq<Entry>, i: nat)
    requires i <= |entries|
    ensures forall c | c in Children(entries[..i]) :: c in Children(entries) && exists k :: 0 <= k < i && entries[k] == Child(c.name, c.node)
    decreases |entries|
  {
    if i < |entries| {
      assert entries[..|entries| - 1][..i] == entries[..i];
      SomeChildren(entries[..|entries| - 1], i);
    } else if i > 0 {
      assert entries[..i] == entries;
      SomeChildren(entries[..i - 1], i - 1);
      assert entries[..i - 1][..i - 1] == entries[..i - 1];
    }
  }

  /** What a look at the outside finds: the caller's cancellation, and the clock. */
  datatype Moment = Moment(cancelled: bool, late: bool)

  /** Whether one of the first looks found the scan cancelled or out of time. */
  predicate Disturbed(outside: nat -> Moment, looks: nat) {
    looks > 0 && (Disturbed(outside, looks - 1) || outside(looks - 1).cancelled || outside(looks - 1).late)
  }

  class LocalScan {
    const outside: nat -> Moment
    const entryLimit: nat
    const maxResults: nat
    const maxDepth: nat
    var looks: nat
    var entries: nat
    var results: nat
    var seen: set<Path>
    var completion: Completion
    var published: seq<Path>
    var cancelled: bool

    constructor (outside: nat -> Moment, entryLimit: nat, maxResults: nat, maxDepth: nat)
      ensures Valid() && this.outside == outside && this.entryLimit == entryLimit && this.maxResults == maxResults && this.maxDepth == maxDepth
      ensures Now() == Progress(0, [], {}, Complete, false)
    {
      this.outside, this.entryLimit, this.maxResults, this.maxDepth, this.looks := outside, entryLimit, maxResults, maxDepth, 0;
      entries, results, seen, completion, published, cancelled := 0, 0, {}, Complete, [], false;
    }

    ghost function Now(): Progress
      reads this
    {
      Progress(entries, published, seen, completion, cancelled)
    }

    /** The limits hold at every moment, and a verdict has its reason. */
    ghost predicate Valid()
      reads this
    {
      entries <= entryLimit && |published| <= results <= maxResults && HasReason()
    }

    ghost predicate HasReason()
      reads this
    {
      && (cancelled || completion == TimedOut ==> Disturbed(outside, looks))
      && (completion == EntriesLimit ==> entries == entryLimit)
      && (completion == ResultsLimit ==> results == maxResults)
      && (!cancelled ==> |published| == results)
    }

    ghost predicate Unhindered()
      reads this
    {
      !cancelled && completion == Complete && entries < entryLimit
    }

    /** Looks outside: once cancelled, a scan stays so. */
    method Look() returns (late: bool)
      modifies this`looks, this`cancelled
      ensures looks == old(looks) + 1 && cancelled == (old(cancelled) || outside(old(looks)).cancelled) && late == outside(old(looks)).late
    {
      var moment := outside(looks);
      looks := looks + 1;
      if moment.cancelled { cancelled := true; }
      late := moment.late;
    }

    method Stopped() returns (stop: bool)
      requires Valid()
      modifies this`looks, this`completion, this`cancelled
      ensures Valid() && Onward(old(Now()), Now()) && (completion == ScanError ==> old(completion) == ScanError)
      ensures if stop then !Unhindered() else Now() == old(Now()) && !cancelled && entries < entryLimit
    {
      var late := Look();
      if cancelled { return true; }
      if completion == ResultsLimit { return true; }
      if late {
        completion := TimedOut;
        return true;
      }
      if entries >= entryLimit {
        completion := EntriesLimit;
        return true;
      }
      return false;
    }

    method Send(path: Path)
      modifies this`looks, this`published, this`cancelled
      ensures looks == old(looks) + 1 && cancelled == (old(cancelled) || outside(old(looks)).cancelled)
      ensures published == (if cancelled then old(published) else old(published) + [path])
    {
      var late := Look();
      if !cancelled { published := published + [path]; }
    }

    method Publish(path: Path)
      requires Valid() && !cancelled
      modifies this`looks, this`results, this`seen, this`published, this`cancelled, this`completion
      ensures (completion == ScanError ==> old(completion) == ScanError)
      ensures Valid() && Onward(old(Now()), Now()) && OnlyFrom(old(Now()), Now(), [path])
      ensures Unhindered() ==> Found(old(Now()), Now(), [path])
    {
      assert NotSeen([path], seen) == if path in seen then [] else [path] by {
        assert [path][..0] == [] && NotSeen([], seen) == [];
      }
      if path !in seen {
        seen := seen + {path};
        if results >= maxResults {
          completion := ResultsLimit;
          return;
        }
        results := results + 1;
        Send(path);
      }
    }

    /** Lists a directory, holding on to the least children that the budget could still visit. */
    method List(listing: seq<Entry>, remaining: nat) returns (heap: seq<Named>, failed: Option<Trouble>, ghost met: seq<Named>)
      requires Valid()
      modifies this`looks, this`completion, this`cancelled
      ensures Valid() && Onward(old(Now()), Now()) && (completion == ScanError ==> old(completion) == ScanError)
      ensures heap == Least(met, remaining) && forall c | c in met :: c in Children(listing)
      ensures Unhindered() && failed.None? ==> met == Children(listing)
      ensures (forall e | e in listing :: e.Child?) ==> failed.None?
    {
      heap, failed, met := [], None, [];
      assert Sorted([]) == [];
      for i := 0 to |listing|
        invariant Valid() && Onward(old(Now()), Now()) && heap == Least(met, remaining)
        invariant completion == ScanError ==> old(completion) == ScanError
        invariant met == Children(listing[..i])
      {
        SomeChildren(listing, i);
        var stop := Stopped();
        if stop { return; }
        assert listing[..i + 1][..i] == listing[..i] && listing[i] in listing;
        match listing[i]
        case Child(name, node) =>
          heap := RetainBoundedChild(heap, Named(name, node), remaining, met);
          met := met + [Named(name, node)];
        case BadEntry(trouble) =>
          if !trouble.ignorable {
            return heap, Some(trouble), met;
          }
      }
      assert listing[..|listing|] == listing;
    }

    /** Visits one path: publishes it if it is a repository, and otherwise its children. */
    method Visit(node: Node, path: Path, depth: nat) returns (result: Visit)
      requires Valid() && depth <= maxDepth
      modifies this
      ensures Valid() && Onward(old(Now()), Now())
      ensures OnlyFrom(old(Now()), Now(), Topmost(node, path, maxDepth - depth))
      ensures Unhindered() ==> entries > old(entries)
      ensures Unhindered() && ErrorFree(node, maxDepth - depth) ==> Found(old(Now()), Now(), Topmost(node, path, maxDepth - depth))
      ensures ErrorFree(node, maxDepth - depth) ==> result == Visited && (completion == ScanError ==> old(completion) == ScanError)
      decreases maxDepth - depth, 1
    {
      var stop := Stopped();
      if stop { return Visited; }
      entries := entries + 1;
      match node
      case Unreadable(trouble) => return Failed(trouble);
      case Plain => return Visited;
      case Directory(git, listing) =>
        match git
        case ProbeFails(trouble) => return Failed(trouble);
        case Repository =>
          Publish(path);
          return Visited;
        case Ordinary =>
          if depth >= maxDepth { return Visited; }
          if listing.CannotList? { return Failed(listing.trouble); }
          result := VisitChildren(listing.entries, path, depth);
    }

    method VisitChildren(listing: seq<Entry>, path: Path, depth: nat) returns (result: Visit)
      requires Valid() && depth < maxDepth
      modifies this
      ensures Valid() && Onward(old(Now()), Now())
      ensures OnlyFrom(old(Now()), Now(), TopmostOf(Sorted(Children(listing)), path, maxDepth - depth - 1))
      ensures Unhindered() && CleanEntries(listing, maxDepth - depth - 1) ==>
        Found(old(Now()), Now(), TopmostOf(Sorted(Children(listing)), path, maxDepth - depth - 1))
      ensures CleanEntries(listing, maxDepth - depth - 1) ==> result == Visited && (completion == ScanError ==> old(completion) == ScanError)
      decreases maxDepth - depth, 0
    {
      ghost var below := maxDepth - depth - 1;
      ghost var start := Now();
      var remaining := entryLimit - entries;
      var heap, failed, met := List(listing, remaining);
      if failed.Some? { return Failed(failed.value); }
      ghost var before := Now();
      HeapIsAmong(listing, met, remaining, below);
      VisitAll(heap, path, depth + 1);
      FewerChildrenFewerPaths(heap, Sorted(Children(listing)), path, below);
      assert before.published == start.published && before.seen == start.seen && before.entries == start.entries;
      if Unhindered() {
        HeapIsWhole(met, remaining);
      }
      return Visited;
    }

    /** One root; a symlinked root is an error, and any error is reported unless cancelled. */
    method ScanRoot(root: Root) returns (failed: bool)
      requires Valid()
      modifies this
      ensures Valid() && Onward(old(Now()), Now()) && OnlyFrom(old(Now()), Now(), Topmost(root.node, root.path, maxDepth))
      ensures Unhindered() && !root.symlink && ErrorFree(root.node, maxDepth) ==> Found(old(Now()), Now(), Topmost(root.node, root.path, maxDepth))
      ensures !root.symlink && ErrorFree(root.node, maxDepth) ==> !failed && (completion == ScanError ==> old(completion) == ScanError)
      ensures failed ==> !Unhindered()
    {
      var result := Failed(Trouble(false));
      if !root.symlink {
        result := Visit(root.node, root.path, 0);
      }
      failed := result.Failed? && !cancelled;
      if failed {
        completion := ScanError;
      }
    }

    /** A child that cannot be visited spoils the verdict, unless that is to be expected. */
    method VisitChild(child: Named, path: Path, depth: nat)
      requires Valid() && depth <= maxDepth
      modifies this
      ensures Valid() && Onward(old(Now()), Now())
      ensures OnlyFrom(old(Now()), Now(), Topmost(child.node, path + [child.name], maxDepth - depth))
      ensures Unhindered() ==> entries > old(entries)
      ensures ErrorFree(child.node, maxDepth - depth) ==>
        && (completion == ScanError ==> old(completion) == ScanError)
        && (Unhindered() ==> Found(old(Now()), Now(), Topmost(child.node, path + [child.name], maxDepth - depth)))
      decreases maxDepth - depth, 2
    {
      var visited := Visit(child.node, path + [child.name], depth);
      if visited.Failed? && !visited.trouble.ignorable {
        completion := ScanError;
      }
    }

    method VisitAll(children: seq<Named>, path: Path, depth: nat)
      requires Valid() && depth <= maxDepth
      modifies this
      ensures Valid() && Onward(old(Now()), Now())
      ensures OnlyFrom(old(Now()), Now(), TopmostOf(children, path, maxDepth - depth))
      ensures Unhindered() ==> entries >= old(entries) + |children|
      ensures Unhindered() && (forall c | c in children :: ErrorFree(c.node, maxDepth - depth)) ==>
        Found(old(Now()), Now(), TopmostOf(children, path, maxDepth - depth))
      ensures (forall c | c in children :: ErrorFree(c.node, maxDepth - depth)) ==> (completion == ScanError ==> old(completion) == ScanError)
      decreases maxDepth - depth, 3
    {
      ghost var below := maxDepth - depth;
      for k := 0 to |children|
        invariant Valid() && Onward(old(Now()), Now())
        invariant OnlyFrom(old(Now()), Now(), TopmostOf(children[..k], path, below))
        invariant Unhindered() ==> entries >= old(entries) + k
        invariant (forall c | c in children :: ErrorFree(c.node, below)) ==> (completion == ScanError ==> old(completion) == ScanError)
        invariant Unhindered() && (forall c | c in children :: ErrorFree(c.node, below)) ==> Found(old(Now()), Now(), TopmostOf(children[..k], path, below))
      {
        var stop := Stopped();
        ghost var a := Now();
        if stop {
          FewerChildrenFewerPaths(children[..k], children, path, below);
          return;
        }
        var child := children[k];
        assert child in children && children[..k + 1][..k] == children[..k];
        VisitChild(child, path, depth);
        ghost var b := Now();
        OnlyFromJoins(old(Now()), a, b, TopmostOf(children[..k], path, below), Topmost(child.node, path + [child.name], below), TopmostOf(children[..k + 1], path, below));
        if Unhindered() && forall c | c in children :: ErrorFree(c.node, below) {
          FoundJoins(old(Now()), a, b, TopmostOf(children[..k], path, below), Topmost(child.node, path + [child.name], below));
        }
      }
      assert children[..|children|] == children;
    }
  }

  ghost predicate CleanEntries(listing: seq<Entry>, depth: nat) {
    forall i | 0 <= i < |listing| :: listing[i].Child? && ErrorFree(listing[i].node, depth)
  }

  lemma {:induction false} HeapIsAmong(listing: seq<Entry>, met: seq<Named>, remaining: nat, depth: nat)
    requires forall c | c in met :: c in Children(listing)
    ensures forall c | c in Least(met, remaining) :: c in Sorted(Children(listing))
    ensures CleanEntries(listing, depth) ==> forall c | c in Least(met, remaining) :: ErrorFree(c.node, depth)
  {
    LeastAreAmong(met, remaining);
    SomeChildren(listing, |listing|);
    assert listing[..|listing|] == listing;
    SortedIsAPermutation(Children(listing));
    forall c | c in Least(met, remaining) ensures c in Sorted(Children(listing)) {
      assert c in multiset(Children(listing));
      assert c in multiset(Sorted(Children(listing)));
    }
  }

  /** A heap that did not fill up has dropped nothing. */
  lemma {:induction false} HeapIsWhole(met: seq<Named>, capacity: nat)
    ensures |Least(met, capacity)| < capacity ==> Least(met, capacity) == Sorted(met)
  {}

  // ---------- All roots of a location ----------

  datatype Root = Root(path: Path, node: Node, symlink: bool)

  function AllTopmost(roots: seq<Root>, depth: nat): seq<Path> {
    if roots == [] then []
    else AllTopmost(roots[..|roots| - 1], depth) + Topmost(roots[|roots| - 1].node, roots[|roots| - 1].path, depth)
  }

  predicate Clean(roots: seq<Root>, depth: nat) {
    forall r | r in roots :: !r.symlink && ErrorFree(r.node, depth)
  }

  /** Scans the roots of one location in order. Whatever happens, it looks at no more entries
      and publishes no more repositories than it may, reports at most one error for each root,
      and publishes only topmost repositories. If it reports completion with budget to spare,
      and nothing answered with an error, it has published all of them, each once; and where
      nothing disturbs it, nothing answers with an error and no budget is used up, it does. */
  method ScanLocal(roots: seq<Root>, outside: nat -> Moment, entryLimit: nat, maxResults: nat, maxDepth: nat)
    returns (published: seq<Path>, failures: seq<nat>, verdict: Option<Completion>, entries: nat, looks: nat)
    ensures entries <= entryLimit && |published| <= maxResults && |failures| <= |roots|
    ensures forall p | p in published :: p in AllTopmost(roots, maxDepth)
    ensures verdict == Some(Complete) && entries < entryLimit && Clean(roots, maxDepth) ==>
      published == NotSeen(AllTopmost(roots, maxDepth), {}) && failures == []
    ensures verdict == None || verdict == Some(TimedOut) ==> Disturbed(outside, looks)
    ensures Clean(roots, maxDepth) && !Disturbed(outside, looks) && entries < entryLimit && |published| < maxResults ==> verdict == Some(Complete)
  {
    var scan := new LocalScan(outside, entryLimit, maxResults, maxDepth);
    failures := [];
    ghost var start := scan.Now();
    var i, stop := 0, false;
    while i < |roots| && !stop
      invariant i <= |roots| && scan.Valid() && |failures| <= i
      invariant scan.outside == outside && (Clean(roots, maxDepth) ==> scan.completion != ScanError)
      invariant scan.entryLimit == entryLimit && scan.maxResults == maxResults && scan.maxDepth == maxDepth && fresh(scan)
      invariant OnlyFrom(start, scan.Now(), AllTopmost(roots[..i], maxDepth))
      invariant stop ==> !scan.Unhindered()
      invariant scan.Unhindered() && Clean(roots, maxDepth) ==> Found(start, scan.Now(), AllTopmost(roots[..i], maxDepth)) && failures == []
      decreases |roots| - i, !stop
    {
      stop := scan.Stopped();
      if !stop {
        ghost var a := scan.Now();
        var failed := scan.ScanRoot(roots[i]);
        if failed { failures := failures + [i]; }
        RootsJoin(roots, i, maxDepth, start, a, scan.Now());
        i := i + 1;
      }
    }
    PrefixIsAmong(roots, i, maxDepth);
    assert i == |roots| ==> roots[..i] == roots;
    published, entries, looks := scan.published, scan.entries, scan.looks;
    verdict := if scan.cancelled then None else Some(scan.completion);
  }

  lemma {:induction false} RootsJoin(roots: seq<Root>, i: nat, depth: nat, start: Progress, a: Progress, b: Progress)
    requires i < |roots| && OnlyFrom(start, a, AllTopmost(roots[..i], depth)) && OnlyFrom(a, b, Topmost(roots[i].node, roots[i].path, depth))
    ensures OnlyFrom(start, b, AllTopmost(roots[..i + 1], depth))
    ensures Found(start, a, AllTopmost(roots[..i], depth)) && Found(a, b, Topmost(roots[i].node, roots[i].path, depth)) ==>
      Found(start, b, AllTopmost(roots[..i + 1], depth))
  {
    var first, second := AllTopmost(roots[..i], depth), Topmost(roots[i].node, roots[i].path, depth);
    assert roots[..i + 1][..i] == roots[..i];
    assert AllTopmost(roots[..i + 1], depth) == first + second;
    OnlyFromJoins(start, a, b, first, second, first + second);
    if Found(start, a, first) && Found(a, b, second) {
      FoundJoins(start, a, b, first, second);
    }
  }

  lemma {:induction false} PrefixIsAmong(roots: seq<Root>, i: nat, depth: nat)
    requires i <= |roots|
    ensures forall p | p in AllTopmost(roots[..i], depth) :: p in AllTopmost(roots, depth)
    decreases |roots|
  {
    if i < |roots| {
      assert roots[..|roots| - 1][..i] == roots[..i];
      PrefixIsAmong(roots[..|roots| - 1], i, depth);
    } else {
      assert roots[..i] == roots;
    }
  }
}

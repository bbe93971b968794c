/** What each workload uses (src/status.rs, sum_workload_usage): a walk over the process table
    from each workload's panes. */
module Usage {
  import opened Common

  type Pid = nat
  type SessionId = nat

  const U64_MAX: nat := 0xFFFF_FFFF_FFFF_FFFF

  /** A processor share is added as a number without rounding. */
  datatype Process = Process(parent: Pid, cpu: real, memory: nat)

  datatype ResourceUsage = ResourceUsage(cpu: real, memory: nat)

  type Table = map<Pid, Process>

  function SaturatingAdd(a: nat, b: nat): nat {
    if a + b > U64_MAX then U64_MAX else a + b
  }

  // ---------- What is meant ----------

  predicate IsChild(table: Table, child: Pid, parent: Pid) {
    child in table && table[child].parent == parent
  }

  /** A chain of process ids, each the recorded parent of the next. */
  ghost predicate IsChain(table: Table, chain: seq<Pid>) {
    chain != [] && (|chain| > 1 ==> IsChild(table, chain[|chain| - 1], chain[|chain| - 2]) && IsChain(table, chain[..|chain| - 1]))
  }

  ghost predicate Under(table: Table, roots: seq<Pid>, pid: Pid) {
    exists chain :: IsChain(table, chain) && chain[0] in roots && chain[|chain| - 1] == pid
  }

  /** The live processes of a workload: those at or under its panes. */
  ghost function Workload(table: Table, roots: seq<Pid>): set<Pid> {
    set pid | pid in table && Under(table, roots, pid)
  }

  datatype Totals = Totals(cpu: real, memory: nat) {
    function With(p: Process): Totals { Totals(cpu + p.cpu, memory + p.memory) }
  }

  /** Every process of a set counted once. */
  ghost function Total(table: Table, pids: set<Pid>): Totals
    requires pids <= table.Keys
    decreases |pids|
  {
    if pids == {} then Totals(0.0, 0) else
    var pid :| pid in pids;
    Total(table, pids - {pid}).With(table[pid])
  }

  /** The total does not depend on the order of adding. */
  lemma {:induction false} TotalWith(table: Table, pids: set<Pid>, pid: Pid)
    requires pids <= table.Keys && pid in pids
    ensures Total(table, pids) == Total(table, pids - {pid}).With(table[pid])
    decreases |pids|
  {
    var first: Pid :| first in pids && Total(table, pids) == Total(table, pids - {first}).With(table[first]);
    if first != pid {
      var rest := pids - {first} - {pid};
      assert rest == pids - {pid} - {first};
      TotalWith(table, pids - {first}, pid);
      TotalWith(table, pids - {pid}, first);
      assert Total(table, rest).With(table[pid]).With(table[first]) == Total(table, rest).With(table[first]).With(table[pid]);
    }
  }

  /** What a workload reports: nothing without a live process, and otherwise every processor
      share and the memory up to what the field can hold. */
  ghost function Reported(table: Table, roots: seq<Pid>): Option<ResourceUsage> {
    var pids := Workload(table, roots);
    if pids == {} then None
    else Some(ResourceUsage(Total(table, pids).cpu, SaturatingAdd(Total(table, pids).memory, 0)))
  }

  // ---------- Reachability ----------

  /** A set that holds the roots and every child of its members holds everything under them. */
  lemma {:induction false} ClosedSetsHoldAll(table: Table, closed: set<Pid>, chain: seq<Pid>)
    requires IsChain(table, chain) && chain[0] in closed
    requires forall parent, child | parent in closed && IsChild(table, child, parent) :: child in closed
    ensures chain[|chain| - 1] in closed
    decreases |chain|
  {
    if |chain| > 1 {
      ClosedSetsHoldAll(table, closed, chain[..|chain| - 1]);
      assert chain[..|chain| - 1][|chain| - 2] == chain[|chain| - 2];
    }
  }

  // ---------- The walk ----------

  function ChildrenOf(children: map<Pid, seq<Pid>>, pid: Pid): seq<Pid> {
    if pid in children then children[pid] else []
  }

  ghost predicate Indexes(children: map<Pid, seq<Pid>>, table: Table, pids: set<Pid>) {
    forall parent, child :: child in ChildrenOf(children, parent) <==> child in pids && IsChild(table, child, parent)
  }

  /** Processes come out of the table in any order. */
  method IndexChildren(table: Table) returns (children: map<Pid, seq<Pid>>)
    ensures Indexes(children, table, table.Keys)
  {
    children := map[];
    var left := table.Keys;
    while left != {}
      invariant left <= table.Keys && Indexes(children, table, table.Keys - left)
      decreases |left|
    {
      var pid :| pid in left;
      var parent := table[pid].parent;
      children := children[parent := ChildrenOf(children, parent) + [pid]];
      assert table.Keys - left + {pid} == table.Keys - (left - {pid});
      left := left - {pid};
    }
    assert table.Keys - left == table.Keys;
  }

  ghost predicate AllReached(table: Table, roots: set<Pid>, met: set<Pid>) {
    forall pid | pid in met :: Reaches(table, roots, pid)
  }

  ghost predicate ChildrenMet(table: Table, seen: set<Pid>, met: set<Pid>) {
    forall parent, child | parent in seen && IsChild(table, child, parent) :: child in met
  }

  lemma ElementsJoin<T>(a: seq<T>, b: seq<T>)
    ensures Elements(a + b) == Elements(a) + Elements(b)
  {}

  lemma ElementsPop<T>(s: seq<T>)
    requires s != []
    ensures Elements(s) == Elements(s[..|s| - 1]) + {s[|s| - 1]}
  {
    assert s == s[..|s| - 1] + [s[|s| - 1]];
  }

  /** Everything met is under a root, and whatever is under what was finished has been met. */
  ghost predicate Walking(table: Table, roots: set<Pid>, seen: set<Pid>, open: set<Pid>) {
    && roots <= seen + open
    && AllReached(table, roots, seen + open)
    && ChildrenMet(table, seen, seen + open)
  }

  ghost predicate Reaches(table: Table, roots: set<Pid>, pid: Pid) {
    exists chain :: IsChain(table, chain) && chain[0] in roots && chain[|chain| - 1] == pid
  }

  lemma {:induction false} WalkBegins(table: Table, roots: seq<Pid>)
    ensures Walking(table, Elements(roots), {}, Elements(roots))
  {
    forall pid | pid in roots ensures Reaches(table, Elements(roots), pid) {
      assert IsChain(table, [pid]) && [pid][0] in Elements(roots);
    }
  }

  lemma {:induction false} ChildrenAreReached(table: Table, children: map<Pid, seq<Pid>>, roots: set<Pid>, met: set<Pid>, pid: Pid)
    requires Indexes(children, table, table.Keys) && AllReached(table, roots, met) && pid in met
    ensures AllReached(table, roots, met + Elements(ChildrenOf(children, pid)))
    ensures pid in table.Keys + roots
  {
    var chain :| IsChain(table, chain) && chain[0] in roots && chain[|chain| - 1] == pid;
    forall child | child in ChildrenOf(children, pid) ensures Reaches(table, roots, child) {
      ChildIsReached(table, roots, chain, child);
    }
  }

  /** Taking one process off the pending ones, and putting its children on. */
  lemma {:induction false} WalkGoesOn(table: Table, children: map<Pid, seq<Pid>>, roots: set<Pid>, seen: set<Pid>, open: set<Pid>, pid: Pid)
    requires Indexes(children, table, table.Keys) && Walking(table, roots, seen, open + {pid})
    ensures pid in seen ==> Walking(table, roots, seen, open)
    ensures Walking(table, roots, seen + {pid}, open + Elements(ChildrenOf(children, pid)))
    ensures pid in table.Keys + roots
  {
    var met := seen + (open + {pid});
    ChildrenAreReached(table, children, roots, met, pid);
    assert seen + {pid} + (open + Elements(ChildrenOf(children, pid))) == met + Elements(ChildrenOf(children, pid));
    assert pid in seen ==> seen + open == met;
  }

  lemma {:induction false} ChildIsReached(table: Table, roots: set<Pid>, chain: seq<Pid>, child: Pid)
    requires IsChain(table, chain) && chain[0] in roots && IsChild(table, child, chain[|chain| - 1])
    ensures Reaches(table, roots, child)
  {
    var longer := chain + [child];
    assert longer[..|chain|] == chain;
    assert IsChain(table, longer) && longer[0] in roots && longer[|longer| - 1] == child;
  }

  lemma {:induction false} WalkEnds(table: Table, roots: seq<Pid>, seen: set<Pid>)
    requires Walking(table, Elements(roots), seen, {})
    ensures seen * table.Keys == Workload(table, roots)
  {
    assert seen + {} == seen;
    forall pid | pid in seen ensures Under(table, roots, pid) {
      assert Reaches(table, Elements(roots), pid);
    }
    forall pid | pid in table && Under(table, roots, pid) ensures pid in seen {
      var chain :| IsChain(table, chain) && chain[0] in roots && chain[|chain| - 1] == pid;
      ClosedSetsHoldAll(table, seen, chain);
    }
  }

  /** The running sums are those of the live processes met so far. */
  ghost predicate Tallied(table: Table, seen: set<Pid>, t: Tally) {
    var live := seen * table.Keys;
    && (t.found <==> live != {})
    && t.cpu == Total(table, live).cpu && t.memory == SaturatingAdd(Total(table, live).memory, 0)
  }

  datatype Tally = Tally(cpu: real, memory: nat, found: bool) {
    function With(p: Process): Tally { Tally(cpu + p.cpu, SaturatingAdd(memory, p.memory), true) }
  }

  lemma {:induction false} TallyGoesOn(table: Table, seen: set<Pid>, t: Tally, pid: Pid)
    requires Tallied(table, seen, t) && pid !in seen
    ensures Tallied(table, seen + {pid}, if pid in table then t.With(table[pid]) else t)
  {
    var live := seen * table.Keys;
    if pid in table {
      TotalWith(table, live + {pid}, pid);
      assert live + {pid} - {pid} == live && (seen + {pid}) * table.Keys == live + {pid};
    } else {
      assert (seen + {pid}) * table.Keys == live;
    }
  }

  lemma {:induction false} TallyIsReport(table: Table, roots: seq<Pid>, seen: set<Pid>, t: Tally)
    requires Walking(table, Elements(roots), seen, {}) && Tallied(table, seen, t)
    ensures Reported(table, roots) == if t.found then Some(ResourceUsage(t.cpu, t.memory)) else None
  {
    WalkEnds(table, roots, seen);
  }

  /** Counts one process that had not been seen, if it is still there. */
  method Count(table: Table, ghost seen: set<Pid>, pid: Pid, cpu: real, memory: nat, found: bool) returns (cpuNow: real, memoryNow: nat, foundNow: bool)
    requires Tallied(table, seen, Tally(cpu, memory, found)) && pid !in seen
    ensures Tallied(table, seen + {pid}, Tally(cpuNow, memoryNow, foundNow))
  {
    TallyGoesOn(table, seen, Tally(cpu, memory, found), pid);
    cpuNow, memoryNow, foundNow := cpu, memory, found;
    if pid in table {
      foundNow := true;
      cpuNow := cpu + table[pid].cpu;
      memoryNow := SaturatingAdd(memory, table[pid].memory);
      assert Tally(cpuNow, memoryNow, foundNow) == Tally(cpu, memory, found).With(table[pid]);
    }
  }

  /** Sums one workload. Processes may form cycles, and roots may repeat or be gone. */
  method SumOne(table: Table, children: map<Pid, seq<Pid>>, roots: seq<Pid>) returns (usage: Option<ResourceUsage>)
    requires Indexes(children, table, table.Keys)
    ensures usage == Reported(table, roots)
  {
    var cpu: real, memory: nat, found := 0.0, 0, false;
    var seen: set<Pid> := {};
    var pending := roots;
    ghost var universe := table.Keys + Elements(roots);
    WalkBegins(table, roots);
    assert Tallied(table, seen, Tally(cpu, memory, found)) by { assert seen * table.Keys == {}; }
    while pending != []
      invariant Walking(table, Elements(roots), seen, Elements(pending)) && seen <= universe
      invariant Tallied(table, seen, Tally(cpu, memory, found))
      decreases |universe - seen|, |pending|
    {
      var pid := pending[|pending| - 1];
      ghost var open := Elements(pending[..|pending| - 1]);
      ElementsPop(pending);
      pending := pending[..|pending| - 1];
      ghost var before := pending;
      WalkGoesOn(table, children, Elements(roots), seen, open, pid);
      assert pid in universe;
      if pid !in seen {
        cpu, memory, found := Count(table, seen, pid, cpu, memory, found);
        SmallerWithout(universe, seen, pid);
        seen := seen + {pid};
        pending := pending + ChildrenOf(children, pid);
        ElementsJoin(before, ChildrenOf(children, pid));
      }
    }
    assert Elements(pending) == {};
    TallyIsReport(table, roots, seen, Tally(cpu, memory, found));
    return if found then Some(ResourceUsage(cpu, memory)) else None;
  }

  lemma {:induction false} SmallerWithout(universe: set<Pid>, seen: set<Pid>, pid: Pid)
    requires pid in universe && pid !in seen
    ensures |universe - (seen + {pid})| < |universe - seen|
  {
    assert universe - seen == (universe - (seen + {pid})) + {pid};
  }

  /** Every workload with a live process, and no other, is reported, with the sum over exactly
      the processes at or under its panes. */
  method SumWorkloadUsage(panes: map<SessionId, seq<Pid>>, table: Table) returns (usage: map<SessionId, ResourceUsage>)
    ensures forall id :: id in usage <==> id in panes && Reported(table, panes[id]).Some?
    ensures forall id | id in usage :: Reported(table, panes[id]) == Some(usage[id])
  {
    var children := IndexChildren(table);
    usage := map[];
    var left := panes.Keys;
    while left != {}
      invariant left <= panes.Keys
      invariant forall id :: id in usage <==> id in panes && id !in left && Reported(table, panes[id]).Some?
      invariant forall id | id in usage :: Reported(table, panes[id]) == Some(usage[id])
      decreases |left|
    {
      var id :| id in left;
      var one := SumOne(table, children, panes[id]);
      if one.Some? {
        usage := usage[id := one.value];
      }
      left := left - {id};
    }
  }
}

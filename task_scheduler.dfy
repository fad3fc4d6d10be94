/** The scheduler that picks pending tasks to run side by side: tasks whose dependencies are
    done, highest priority first, with no file in common and none of their files locked. */
module TaskScheduler {
  import opened Common
  import opened Json
  import FileLock
  import TaskModels

  // ---------------------------------------------------------------------------
  // Sequences

  /** The distinct elements of a sequence. */
  function Elems(s: seq<string>): set<string> {
    set x | x in s
  }

  lemma ElemsAppend(s: seq<string>, x: string)
    ensures Elems(s + [x]) == Elems(s) + {x}
  {
    assert forall y :: y in s + [x] <==> y in s || y == x;
  }

  // ---------------------------------------------------------------------------
  // What the scheduler reads of a task dict

  /** The fields the scheduler reads have the types its Python code needs not to raise: a list of
      strings for files, a string for description, a list of task ids (or a falsy value) for
      dependencies. */
  predicate SchedTask(t: Dict) {
    && ("files" in t ==> IsStrList(t["files"]))
    && ("description" in t ==> t["description"].JStr?)
    && ("dependencies" in t ==> IsStrList(t["dependencies"]) || !Truthy(t["dependencies"]))
  }

  /** task.get("dependencies", []) as a list of ids; a falsy value has none. */
  function Dependencies(t: Dict): seq<string> {
    if "dependencies" in t && IsStrList(t["dependencies"]) then AsStrList(t["dependencies"]) else []
  }

  /** The explicit `files` entry, or nothing. */
  function ExplicitFiles(t: Dict): seq<string>
    requires SchedTask(t)
  {
    if "files" in t then AsStrList(t["files"]) else []
  }

  /** task.get("description", ""). */
  function Description(t: Dict): string
    requires SchedTask(t)
  {
    if "description" in t then t["description"].s else ""
  }

  // ---------------------------------------------------------------------------
  // Readiness

  /** A dependency counts as done when it is found, is not an empty dict, and its status is
      "completed". `dep` is what the state manager returns for the dependency's id. */
  predicate DepDone(dep: Option<Dict>) {
    dep.Some? && dep.value != map[] && Get(dep.value, "status", JNull) == JStr("completed")
  }

  /** A task is ready when every one of its dependencies is done (vacuously without any). */
  predicate Ready(t: Dict, lookup: string -> Option<Dict>) {
    forall i | 0 <= i < |Dependencies(t)| :: DepDone(lookup(Dependencies(t)[i]))
  }

  /** _filter_ready_tasks: the ready tasks, in their order. */
  function FilterReady(ts: seq<Dict>, lookup: string -> Option<Dict>): (r: seq<Dict>)
    ensures forall t | t in r :: t in ts && Ready(t, lookup)
    ensures forall t | t in ts && Ready(t, lookup) :: t in r
    ensures IsSubsequence(r, ts)
  {
    if ts == [] then []
    else
      var rest := FilterReady(ts[1..], lookup);
      if Ready(ts[0], lookup) then [ts[0]] + rest
      else
        SubsequenceOfTail(rest, ts);
        rest
  }

  /** _filter_ready_tasks: one pass over the tasks, keeping those whose dependencies are all done. */
  method FilterReadyTasks(tasks: seq<Dict>, lookup: string -> Option<Dict>) returns (ready: seq<Dict>)
    ensures ready == FilterReady(tasks, lookup)
  {
    ready := [];
    var i := 0;
    while i < |tasks|
      invariant 0 <= i <= |tasks|
      invariant ready + FilterReady(tasks[i..], lookup) == FilterReady(tasks, lookup)
    {
      var task := tasks[i];
      FilterReadyStep(tasks, i, lookup);
      ghost var rest := FilterReady(tasks[i + 1..], lookup);
      var allCompleted := AllCompleted(Dependencies(task), lookup);
      if allCompleted {
        AppendAssoc(ready, task, rest);
        ready := ready + [task];
      }
      i := i + 1;
    }
    assert tasks[i..] == [];
  }

  /** One task of the pass: FilterReady on a suffix keeps its first task exactly when it is ready. */
  lemma FilterReadyStep(tasks: seq<Dict>, i: nat, lookup: string -> Option<Dict>)
    requires i < |tasks|
    ensures FilterReady(tasks[i..], lookup)
         == (if Ready(tasks[i], lookup) then [tasks[i]] else []) + FilterReady(tasks[i + 1..], lookup)
  {
    assert tasks[i..][0] == tasks[i] && tasks[i..][1..] == tasks[i + 1..];
  }

  /** The all_completed flag loop: false at the first dependency that is missing, empty or not
      completed. */
  method AllCompleted(dependencies: seq<string>, lookup: string -> Option<Dict>) returns (allCompleted: bool)
    ensures allCompleted <==> forall k | 0 <= k < |dependencies| :: DepDone(lookup(dependencies[k]))
  {
    allCompleted := true;
    var j := 0;
    while j < |dependencies|
      invariant 0 <= j <= |dependencies|
      invariant forall k | 0 <= k < j :: DepDone(lookup(dependencies[k]))
    {
      var depTask := lookup(dependencies[j]);
      if depTask.None? || depTask.value == map[] || Get(depTask.value, "status", JNull) != JStr("completed") {
        allCompleted := false;
        return;
      }
      j := j + 1;
    }
  }

  // ---------------------------------------------------------------------------
  // Priority

  /** _get_priority_score: "high" 3, "medium" (also the default) 2, "low" 1, anything else 2. */
  function PriorityScore(t: Dict): (r: int)
    ensures 1 <= r <= 3
    ensures r == 3 <==> Get(t, "priority", JStr("medium")) == JStr("high")
    ensures r == 1 <==> Get(t, "priority", JStr("medium")) == JStr("low")
  {
    var p := Get(t, "priority", JStr("medium"));
    if p == JStr("high") then 3 else if p == JStr("low") then 1 else 2
  }

  /** The scores agree with TaskPriority's own ordering on the values to_dict writes, and the
      comparison is case-sensitive: "HIGH" scores like an unknown priority. */
  lemma PriorityScoreOfTaskPriority(p: TaskModels.TaskPriority)
    ensures PriorityScore(map["priority" := JStr(TaskModels.PriorityValue(p))]) == TaskModels.ToScore(p)
    ensures PriorityScore(map["priority" := JStr("HIGH")]) == 2
    ensures PriorityScore(map[]) == 2
  {
    assert "HIGH"[0] != "high"[0] && |"HIGH"| != |"low"|;
    assert "medium"[0] != "high"[0] && |"medium"| != |"low"|;
  }

  /** The tasks of one score, in their order. */
  function WithScore(ts: seq<Dict>, s: int): (r: seq<Dict>)
    ensures forall t | t in r :: t in ts && PriorityScore(t) == s
    ensures IsSubsequence(r, ts)
  {
    if ts == [] then []
    else
      var rest := WithScore(ts[1..], s);
      if PriorityScore(ts[0]) == s then [ts[0]] + rest
      else
        SubsequenceOfTail(rest, ts);
        rest
  }

  /** list.sort(key=score, reverse=True): Python's sort is stable, so this is the tasks of score 3,
      then those of score 2, then those of score 1, each group in its original order. */
  function SortByScore(ts: seq<Dict>): seq<Dict> {
    WithScore(ts, 3) + WithScore(ts, 2) + WithScore(ts, 1)
  }

  /** Scores never increase along a sequence. */
  predicate NonIncreasing(ts: seq<Dict>) {
    forall i, j | 0 <= i < j < |ts| :: PriorityScore(ts[i]) >= PriorityScore(ts[j])
  }

  lemma SortedByScore(ts: seq<Dict>)
    ensures NonIncreasing(SortByScore(ts))
  {
    var a, b, c := WithScore(ts, 3), WithScore(ts, 2), WithScore(ts, 1);
    var r := a + b + c;
    forall i | 0 <= i < |r| ensures PriorityScore(r[i]) == if i < |a| then 3 else if i < |a| + |b| then 2 else 1 {
      if i < |a| { assert r[i] in a; }
      else if i < |a| + |b| { assert r[i] == b[i - |a|]; assert r[i] in b; }
      else { assert r[i] == c[i - |a| - |b|]; assert r[i] in c; }
    }
  }

  /** The sort is a permutation. */
  lemma SortIsPermutation(ts: seq<Dict>)
    ensures multiset(SortByScore(ts)) == multiset(ts)
  {
    ScoreGroupsPartition(ts);
  }

  lemma {:induction false} ScoreGroupsPartition(ts: seq<Dict>)
    ensures multiset(WithScore(ts, 3)) + multiset(WithScore(ts, 2)) + multiset(WithScore(ts, 1)) == multiset(ts)
  {
    if ts != [] {
      var t, rest := ts[0], ts[1..];
      ScoreGroupsPartition(rest);
      assert ts == [t] + rest;
      assert multiset(ts) == multiset{t} + multiset(rest);
      WithScoreCons(ts, 3);
      WithScoreCons(ts, 2);
      WithScoreCons(ts, 1);
    }
  }

  lemma WithScoreCons(ts: seq<Dict>, s: int)
    requires ts != []
    ensures multiset(WithScore(ts, s))
         == (if PriorityScore(ts[0]) == s then multiset{ts[0]} else multiset{}) + multiset(WithScore(ts[1..], s))
  {
  }

  lemma {:induction false} WithScoreAppend(a: seq<Dict>, b: seq<Dict>, s: int)
    ensures WithScore(a + b, s) == WithScore(a, s) + WithScore(b, s)
  {
    if a != [] {
      assert (a + b)[1..] == a[1..] + b;
      WithScoreAppend(a[1..], b, s);
    } else {
      assert a + b == b;
    }
  }

  lemma {:induction false} WithScoreTwice(ts: seq<Dict>, s: int, s': int)
    ensures WithScore(WithScore(ts, s), s') == if s == s' then WithScore(ts, s) else []
  {
    if ts != [] {
      WithScoreTwice(ts[1..], s, s');
    }
  }

  /** The sort is stable: the tasks of any one score keep their relative order. */
  lemma SortIsStable(ts: seq<Dict>, s: int)
    ensures WithScore(SortByScore(ts), s) == WithScore(ts, s)
  {
    var a, b, c := WithScore(ts, 3), WithScore(ts, 2), WithScore(ts, 1);
    WithScoreAppend(a + b, c, s);
    WithScoreAppend(a, b, s);
    WithScoreTwice(ts, 3, s);
    WithScoreTwice(ts, 2, s);
    WithScoreTwice(ts, 1, s);
    if s != 1 && s != 2 && s != 3 {
      WithScoreNone(ts, s);
    }
  }

  lemma {:induction false} WithScoreNone(ts: seq<Dict>, s: int)
    requires s != 1 && s != 2 && s != 3
    ensures WithScore(ts, s) == []
  {
    if ts != [] {
      WithScoreNone(ts[1..], s);
    }
  }

  /** Keeping one score commutes with taking a subsequence. */
  lemma {:induction false} WithScoreOfSubsequence(a: seq<Dict>, b: seq<Dict>, s: int)
    requires IsSubsequence(a, b)
    ensures IsSubsequence(WithScore(a, s), WithScore(b, s))
    decreases |b|
  {
    if a != [] {
      if a[0] == b[0] && IsSubsequence(a[1..], b[1..]) {
        WithScoreOfSubsequence(a[1..], b[1..], s);
      } else {
        WithScoreOfSubsequence(a, b[1..], s);
        if PriorityScore(b[0]) == s {
          SubsequenceOfTail(WithScore(a, s), WithScore(b, s));
        }
      }
    }
  }

  // ---------------------------------------------------------------------------
  // Files a task touches

  predicate IsQuote(c: char) { c == '"' || c == '\'' || c == '`' }

  /** filepath.strip().strip('"\'`'). */
  function CleanPath(s: string): string {
    Strip(Strip(s, IsPySpace), IsQuote)
  }

  /** Every candidate, cleaned. */
  function Cleaned(xs: seq<string>): (r: seq<string>)
    ensures |r| == |xs| && forall i | 0 <= i < |xs| :: r[i] == CleanPath(xs[i])
  {
    if xs == [] then [] else [CleanPath(xs[0])] + Cleaned(xs[1..])
  }

  /** The dedup loop of _extract_task_files on cleaned names, from a set of names already seen:
      a name is kept when non-empty and not seen before. */
  function DedupFrom(ns: seq<string>, seen: set<string>): (r: seq<string>)
    ensures forall i | 0 <= i < |r| :: r[i] != "" && r[i] !in seen
    ensures forall i, j | 0 <= i < j < |r| :: r[i] != r[j]
  {
    if ns == [] then []
    else if ns[0] != "" && ns[0] !in seen then [ns[0]] + DedupFrom(ns[1..], seen + {ns[0]})
    else DedupFrom(ns[1..], seen)
  }

  /** Every non-empty name not seen before is kept, and nothing else is. */
  lemma {:induction false} DedupCovers(ns: seq<string>, seen: set<string>)
    ensures forall x | x in DedupFrom(ns, seen) :: x in ns
    ensures forall x | x in ns && x != "" && x !in seen :: x in DedupFrom(ns, seen)
  {
    if ns != [] {
      if ns[0] != "" && ns[0] !in seen {
        DedupCovers(ns[1..], seen + {ns[0]});
      } else {
        DedupCovers(ns[1..], seen);
      }
    }
  }

  /** The position of the first occurrence of `x` in `xs`. */
  function FirstIndex(xs: seq<string>, x: string): (k: nat)
    requires x in xs
    ensures k < |xs| && xs[k] == x
    ensures forall i | 0 <= i < k :: xs[i] != x
  {
    if xs[0] == x then 0 else 1 + FirstIndex(xs[1..], x)
  }

  /** Every name of `r` occurs in `ns`, and earlier names of `r` occur first earlier. */
  predicate OrderedByFirst(r: seq<string>, ns: seq<string>) {
    forall i, j | 0 <= i < j < |r| :: r[i] in ns && r[j] in ns && FirstIndex(ns, r[i]) < FirstIndex(ns, r[j])
  }

  /** Names from the tail of `ns` that avoid its head keep their order of first occurrence in `ns`,
      and none of them occurs first at its head. */
  lemma OrderedByFirstTail(r: seq<string>, ns: seq<string>)
    requires ns != [] && OrderedByFirst(r, ns[1..])
    requires forall x | x in r :: x in ns[1..] && x != ns[0]
    ensures OrderedByFirst(r, ns)
    ensures forall x | x in r :: x in ns && FirstIndex(ns, x) > 0
  {
    forall i, j | 0 <= i < j < |r| ensures r[i] in ns && r[j] in ns && FirstIndex(ns, r[i]) < FirstIndex(ns, r[j]) {
      assert r[i] in r && r[j] in r;
    }
  }

  /** The head of `ns` goes in front of names that occur first after it. */
  lemma OrderedByFirstCons(r: seq<string>, ns: seq<string>)
    requires ns != [] && OrderedByFirst(r, ns)
    requires forall x | x in r :: x in ns && FirstIndex(ns, x) > 0
    ensures OrderedByFirst([ns[0]] + r, ns)
  {
    var r' := [ns[0]] + r;
    forall i, j | 0 <= i < j < |r'| ensures r'[i] in ns && r'[j] in ns && FirstIndex(ns, r'[i]) < FirstIndex(ns, r'[j]) {
      assert r'[j] == r[j - 1] && r[j - 1] in r;
      if i > 0 {
        assert r'[i] == r[i - 1];
      }
    }
  }

  /** The kept names come in the order of their first occurrences. */
  lemma {:induction false} DedupOrder(ns: seq<string>, seen: set<string>)
    ensures OrderedByFirst(DedupFrom(ns, seen), ns)
  {
    if ns != [] {
      var n := ns[0];
      var seen' := if n != "" && n !in seen then seen + {n} else seen;
      var rest := DedupFrom(ns[1..], seen');
      DedupOrder(ns[1..], seen');
      DedupCovers(ns[1..], seen');
      assert forall k | 0 <= k < |rest| :: rest[k] != "" && rest[k] !in seen';
      OrderedByFirstTail(rest, ns);
      if n != "" && n !in seen {
        assert DedupFrom(ns, seen) == [n] + rest;
        OrderedByFirstCons(rest, ns);
      } else {
        assert DedupFrom(ns, seen) == rest;
      }
    }
  }

  /** Deduplicating a concatenation: the first part's result comes first, unchanged. */
  lemma {:induction false} DedupAppend(a: seq<string>, b: seq<string>, seen: set<string>)
    ensures DedupFrom(a + b, seen) == DedupFrom(a, seen) + DedupFrom(b, seen + Elems(DedupFrom(a, seen)))
  {
    if a == [] {
      assert a + b == b;
      assert Elems([]) == {};
      assert seen + {} == seen;
    } else {
      var ab := a + b;
      assert ab[0] == a[0] && ab[1..] == a[1..] + b;
      var n := a[0];
      if n != "" && n !in seen {
        var seen' := seen + {n};
        DedupAppend(a[1..], b, seen');
        var rest := DedupFrom(a[1..], seen');
        assert DedupFrom(a, seen) == [n] + rest;
        ElemsCons(n, rest);
        assert seen' + Elems(rest) == seen + Elems([n] + rest);
      } else {
        DedupAppend(a[1..], b, seen);
        assert DedupFrom(a, seen) == DedupFrom(a[1..], seen);
      }
    }
  }

  lemma ElemsCons(x: string, s: seq<string>)
    ensures Elems([x] + s) == {x} + Elems(s)
  {
    assert forall y :: y in [x] + s <==> y == x || y in s;
  }

  lemma CleanedAppend(a: seq<string>, b: seq<string>)
    ensures Cleaned(a + b) == Cleaned(a) + Cleaned(b)
  {
  }

  /** The candidate paths in the order the source gathers them: the explicit files, then the
      description's matches. `mentions` stands for the three regular-expression scans of the
      description, concatenated in the order they run. */
  function Candidates(t: Dict, mentions: string -> seq<string>): seq<string>
    requires SchedTask(t)
  {
    ExplicitFiles(t) + mentions(Description(t))
  }

  /** _extract_task_files. */
  function TaskFiles(t: Dict, mentions: string -> seq<string>): seq<string>
    requires SchedTask(t)
  {
    DedupFrom(Cleaned(Candidates(t, mentions)), {})
  }

  /** The extracted files carry no duplicate and no empty name, are exactly the non-empty cleaned
      candidates, keep the order of their first occurrences among the candidates, and begin with
      the explicit files' own deduplication. */
  lemma TaskFilesSpec(t: Dict, mentions: string -> seq<string>)
    requires SchedTask(t)
    ensures var r := TaskFiles(t, mentions);
      var cs := Cleaned(Candidates(t, mentions));
      && (forall i | 0 <= i < |r| :: r[i] != "")
      && (forall i, j | 0 <= i < j < |r| :: r[i] != r[j])
      && (forall x :: x in r <==> x in cs && x != "")
      && InFirstOccurrenceOrder(r, cs)
      && DedupFrom(Cleaned(ExplicitFiles(t)), {}) <= r
  {
    var cs := Cleaned(Candidates(t, mentions));
    CleanedAppend(ExplicitFiles(t), mentions(Description(t)));
    DedupAppend(Cleaned(ExplicitFiles(t)), Cleaned(mentions(Description(t))), {});
    DedupCovers(cs, {});
    DedupFirstOccurrenceOrder(cs, {});
  }

  /** `r` lists names of `ns`, one before another exactly when its first occurrence in `ns` comes
      first. */
  predicate InFirstOccurrenceOrder(r: seq<string>, ns: seq<string>) {
    forall i, j | 0 <= i < |r| && 0 <= j < |r| ::
      r[i] in ns && r[j] in ns && (i < j <==> FirstIndex(ns, r[i]) < FirstIndex(ns, r[j]))
  }

  lemma DedupFirstOccurrenceOrder(ns: seq<string>, seen: set<string>)
    ensures InFirstOccurrenceOrder(DedupFrom(ns, seen), ns)
  {
    var r := DedupFrom(ns, seen);
    DedupOrder(ns, seen);
    forall i, j | 0 <= i < |r| && 0 <= j < |r|
      ensures r[i] in ns && r[j] in ns && (i < j <==> FirstIndex(ns, r[i]) < FirstIndex(ns, r[j]))
    {
      if i == j {
        DedupCovers(ns, seen);
        assert r[i] in r;
      }
    }
  }

  /** The files a task touches (none for a dict the scheduler cannot read). */
  function Files(t: Dict, mentions: string -> seq<string>): seq<string> {
    if SchedTask(t) then TaskFiles(t, mentions) else []
  }

  function FileSet(t: Dict, mentions: string -> seq<string>): set<string> {
    Elems(Files(t, mentions))
  }

  /** _extract_task_files: gather the candidates, then deduplicate them with a `seen` set. */
  method ExtractTaskFiles(task: Dict, mentions: string -> seq<string>) returns (files: seq<string>)
    requires SchedTask(task)
    ensures files == TaskFiles(task, mentions)
  {
    var candidates: seq<string> := [];
    if "files" in task {
      candidates := candidates + AsStrList(task["files"]);
    }
    var description := if "description" in task then task["description"].s else "";
    candidates := candidates + mentions(description);
    assert candidates == Candidates(task, mentions);
    files := [];
    var seen: set<string> := {};
    ghost var names := Cleaned(candidates);
    for i := 0 to |candidates|
      invariant files + DedupFrom(names[i..], seen) == DedupFrom(names, {})
      invariant seen == Elems(files)
    {
      assert names[i..][0] == names[i] && names[i..][1..] == names[i + 1..];
      var normalized := CleanPath(candidates[i]);
      if normalized != "" && normalized !in seen {
        ElemsAppend(files, normalized);
        files := files + [normalized];
        seen := seen + {normalized};
      }
    }
    assert names[|candidates|..] == [];
  }

  // ---------------------------------------------------------------------------
  // Selection

  /** The files of each task as the scheduler reads them. */
  function FilesOf(mentions: string -> seq<string>): Dict -> seq<string> {
    t => Files(t, mentions)
  }

  /** is_locked of the lock manager whose directory is `locks`, at time `now`. */
  function LockedIn(locks: map<string, FileLock.LockFile>, now: int): string -> bool {
    f => FileLock.LockedAt(locks, now, f)
  }

  /** A task conflicts when one of its files is already claimed in this round or is locked. */
  predicate Conflicts(files: seq<string>, claimed: set<string>, locked: string -> bool) {
    exists i | 0 <= i < |files| :: files[i] in claimed || locked(files[i])
  }

  function Max(a: int, b: int): int { if a >= b then a else b }

  /** The greedy loop of get_parallelizable_tasks over the sorted ready tasks: `claimed` are the
      files of the tasks chosen so far and `count` how many there are. The cap is checked only
      after a task is chosen, so the first free task is always taken. */
  function Select(ts: seq<Dict>, filesOf: Dict -> seq<string>, locked: string -> bool,
                  claimed: set<string>, count: nat, maxWorkers: int): (r: seq<Dict>)
    ensures IsSubsequence(r, ts)
    ensures count + |r| <= Max(maxWorkers, count + 1)
    decreases |ts|
  {
    if ts == [] then []
    else
      var t := ts[0];
      var files := filesOf(t);
      if Conflicts(files, claimed, locked) then
        var r := Select(ts[1..], filesOf, locked, claimed, count, maxWorkers);
        SubsequenceOfTail(r, ts);
        r
      else if count + 1 >= maxWorkers then
        [t]
      else
        var rest := Select(ts[1..], filesOf, locked, claimed + Elems(files), count + 1, maxWorkers);
        assert ([t] + rest)[1..] == rest;
        [t] + rest
  }

  /** Every chosen task is free: none of its files was claimed before it or is locked, and no two
      chosen tasks share a file. */
  lemma {:induction false} SelectIsFree(ts: seq<Dict>, filesOf: Dict -> seq<string>, locked: string -> bool,
                                        claimed: set<string>, count: nat, maxWorkers: int)
    ensures var r := Select(ts, filesOf, locked, claimed, count, maxWorkers);
      && (forall t | t in r :: Elems(filesOf(t)) !! claimed)
      && (forall t, f | t in r && f in filesOf(t) :: !locked(f))
      && PairwiseDisjoint(r, filesOf)
    decreases |ts|
  {
    if ts != [] {
      var t := ts[0];
      var files := filesOf(t);
      if Conflicts(files, claimed, locked) {
        SelectIsFree(ts[1..], filesOf, locked, claimed, count, maxWorkers);
      } else {
        if count + 1 < maxWorkers {
          SelectIsFree(ts[1..], filesOf, locked, claimed + Elems(files), count + 1, maxWorkers);
          var rest := Select(ts[1..], filesOf, locked, claimed + Elems(files), count + 1, maxWorkers);
          SelectHeadDisjoint(t, rest, filesOf, claimed);
        }
      }
    }
  }

  /** The files of all the given tasks. */
  function FilesOfAll(r: seq<Dict>, filesOf: Dict -> seq<string>): (fs: set<string>)
    ensures forall t | t in r :: Elems(filesOf(t)) <= fs
  {
    if r == [] then {} else Elems(filesOf(r[0])) + FilesOfAll(r[1..], filesOf)
  }

  /** The selection is greedy: a task that is not chosen has a file that is locked or claimed
      (before the round or by a chosen task), unless the cap had been reached. */
  lemma {:induction false} SelectIsGreedy(ts: seq<Dict>, filesOf: Dict -> seq<string>, locked: string -> bool,
                                          claimed: set<string>, count: nat, maxWorkers: int)
    ensures var r := Select(ts, filesOf, locked, claimed, count, maxWorkers);
      forall t | t in ts && t !in r ::
        || (|r| >= 1 && count + |r| >= maxWorkers)
        || Conflicts(filesOf(t), claimed + FilesOfAll(r, filesOf), locked)
    decreases |ts|
  {
    if ts != [] {
      var t0 := ts[0];
      var files := filesOf(t0);
      var r := Select(ts, filesOf, locked, claimed, count, maxWorkers);
      if Conflicts(files, claimed, locked) {
        SelectIsGreedy(ts[1..], filesOf, locked, claimed, count, maxWorkers);
        forall t | t in ts && t !in r
          ensures || (|r| >= 1 && count + |r| >= maxWorkers)
                  || Conflicts(filesOf(t), claimed + FilesOfAll(r, filesOf), locked)
        {
          if t == t0 {
            var i :| 0 <= i < |files| && (files[i] in claimed || locked(files[i]));
            assert files[i] in claimed + FilesOfAll(r, filesOf) || locked(files[i]);
          } else {
            assert t in ts[1..];
          }
        }
      } else if count + 1 < maxWorkers {
        var rest := Select(ts[1..], filesOf, locked, claimed + Elems(files), count + 1, maxWorkers);
        SelectIsGreedy(ts[1..], filesOf, locked, claimed + Elems(files), count + 1, maxWorkers);
        assert r == [t0] + rest;
        assert r[0] == t0 && r[1..] == rest;
        assert FilesOfAll(r, filesOf) == Elems(files) + FilesOfAll(rest, filesOf);
        assert claimed + Elems(files) + FilesOfAll(rest, filesOf) == claimed + FilesOfAll(r, filesOf);
        forall t | t in ts && t !in r
          ensures || (|r| >= 1 && count + |r| >= maxWorkers)
                  || Conflicts(filesOf(t), claimed + FilesOfAll(r, filesOf), locked)
        {
          assert t in ts[1..];
        }
      }
    }
  }

  /** A subsequence keeps the order of scores. */
  lemma {:induction false} SubsequenceNonIncreasing(a: seq<Dict>, b: seq<Dict>)
    requires IsSubsequence(a, b) && NonIncreasing(b)
    ensures NonIncreasing(a)
    decreases |b|
  {
    if a != [] {
      assert NonIncreasing(b[1..]);
      if a[0] == b[0] && IsSubsequence(a[1..], b[1..]) {
        SubsequenceNonIncreasing(a[1..], b[1..]);
        SubsequenceMembers(a[1..], b[1..]);
        SelectHeadOrder(b, a[1..]);
        assert a == [b[0]] + a[1..];
      } else {
        SubsequenceNonIncreasing(a, b[1..]);
      }
    }
  }

  /** No two tasks share a file. */
  predicate PairwiseDisjoint(r: seq<Dict>, filesOf: Dict -> seq<string>) {
    forall i, j | 0 <= i < j < |r| :: Elems(filesOf(r[i])) !! Elems(filesOf(r[j]))
  }

  lemma SelectHeadDisjoint(t: Dict, rest: seq<Dict>, filesOf: Dict -> seq<string>, claimed: set<string>)
    requires forall x | x in rest :: Elems(filesOf(x)) !! claimed + Elems(filesOf(t))
    requires PairwiseDisjoint(rest, filesOf)
    ensures PairwiseDisjoint([t] + rest, filesOf)
  {
    var r := [t] + rest;
    forall i, j | 0 <= i < j < |r| ensures Elems(filesOf(r[i])) !! Elems(filesOf(r[j])) {
      assert r[j] == rest[j - 1] && r[j] in rest;
      if i > 0 {
        assert r[i] == rest[i - 1];
      }
    }
  }

  lemma SelectHeadOrder(ts: seq<Dict>, rest: seq<Dict>)
    requires ts != []
    requires forall x | x in rest :: x in ts[1..]
    requires NonIncreasing(ts[1..]) ==> NonIncreasing(rest)
    ensures NonIncreasing(ts) ==> NonIncreasing([ts[0]] + rest)
  {
    var r := [ts[0]] + rest;
    if NonIncreasing(ts) {
      assert NonIncreasing(ts[1..]);
      forall i, j | 0 <= i < j < |r| ensures PriorityScore(r[i]) >= PriorityScore(r[j]) {
        assert r[j] == rest[j - 1] && r[j] in ts[1..];
        var k :| 0 <= k < |ts[1..]| && ts[1..][k] == r[j];
        assert ts[k + 1] == r[j];
        if i > 0 {
          assert r[i] == rest[i - 1];
        }
      }
    }
  }

  /** get_parallelizable_tasks: nothing for an empty pending list, else the greedy selection over
      the ready tasks sorted by priority. `filesOf` is the file extraction of each task and `locked`
      the lock manager's is_locked at the moment of the call; the scheduler itself passes
      FilesOf(mentions) and LockedIn(locks, now). */
  function Parallelizable(pending: seq<Dict>, lookup: string -> Option<Dict>, filesOf: Dict -> seq<string>,
                          locked: string -> bool, maxWorkers: int): seq<Dict>
  {
    if pending == [] then []
    else Select(SortByScore(FilterReady(pending, lookup)), filesOf, locked, {}, 0, maxWorkers)
  }

  /** What get_parallelizable_tasks promises: every chosen task is a ready pending task; at most
      max_workers are chosen (one when max_workers < 1); their files are pairwise disjoint and none
      is locked; they come in non-increasing priority, and tasks of equal priority keep the order of
      the pending list. */
  lemma ParallelizableSpec(pending: seq<Dict>, lookup: string -> Option<Dict>, filesOf: Dict -> seq<string>,
                           locked: string -> bool, maxWorkers: int)
    ensures var r := Parallelizable(pending, lookup, filesOf, locked, maxWorkers);
      && (pending == [] ==> r == [])
      && (forall t | t in r :: t in pending && Ready(t, lookup))
      && |r| <= Max(maxWorkers, 1)
      && PairwiseDisjoint(r, filesOf)
      && (forall t, f | t in r && f in filesOf(t) :: !locked(f))
      && NonIncreasing(r)
      && (forall s :: IsSubsequence(WithScore(r, s), WithScore(pending, s)))
      && (forall t | t in pending && Ready(t, lookup) && t !in r ::
            |r| == Max(maxWorkers, 1) || Conflicts(filesOf(t), FilesOfAll(r, filesOf), locked))
  {
    if pending != [] {
      var ready := FilterReady(pending, lookup);
      var sorted := SortByScore(ready);
      SortedArePending(pending, lookup);
      SortedByScore(ready);
      var r := Select(sorted, filesOf, locked, {}, 0, maxWorkers);
      SelectIsFree(sorted, filesOf, locked, {}, 0, maxWorkers);
      SubsequenceNonIncreasing(r, sorted);
      SubsequenceMembers(r, sorted);
      forall s ensures IsSubsequence(WithScore(r, s), WithScore(pending, s)) {
        WithScoreOfSubsequence(r, sorted, s);
        SortIsStable(ready, s);
        WithScoreOfSubsequence(ready, pending, s);
        SubsequenceTransitive(WithScore(r, s), WithScore(ready, s), WithScore(pending, s));
      }
      SelectIsGreedy(sorted, filesOf, locked, {}, 0, maxWorkers);
      SortIsPermutation(ready);
      assert {} + FilesOfAll(r, filesOf) == FilesOfAll(r, filesOf);
      forall t | t in pending && Ready(t, lookup) && t !in r
        ensures |r| == Max(maxWorkers, 1) || Conflicts(filesOf(t), FilesOfAll(r, filesOf), locked)
      {
        assert t in ready;
        assert t in multiset(sorted);
      }
    }
  }

  /** get_parallelizable_tasks. `pending` is what the state manager lists as pending, `lookup` its
      task-by-id query, `lm` the lock manager whose is_locked is consulted. */
  method GetParallelizableTasks(lm: FileLock.FileLockManager, pending: seq<Dict>, lookup: string -> Option<Dict>,
                                mentions: string -> seq<string>, maxWorkers: int) returns (selected: seq<Dict>)
    requires forall t | t in pending :: SchedTask(t)
    ensures selected == Parallelizable(pending, lookup, FilesOf(mentions), LockedIn(lm.locks, lm.clock), maxWorkers)
  {
    if pending == [] {
      return [];
    }
    var readyTasks := FilterReadyTasks(pending, lookup);
    var sorted := SortByScore(readyTasks);
    SortedArePending(pending, lookup);
    FilesOfScheduled(sorted, mentions);
    selected := SelectFreeTasks(lm, sorted, mentions, maxWorkers, FilesOf(mentions), LockedIn(lm.locks, lm.clock));
  }

  /** One turn of the selection loop: extract the task's files, scan them for a conflict, and
      take the task (claiming its files) when there is none. */
  method ConsiderTask(lm: FileLock.FileLockManager, task: Dict, mentions: string -> seq<string>,
                      selected: seq<Dict>, lockedFiles: set<string>,
                      ghost filesOf: Dict -> seq<string>, ghost locked: string -> bool)
    returns (selected': seq<Dict>, lockedFiles': set<string>, taken: bool)
    requires SchedTask(task) && filesOf(task) == TaskFiles(task, mentions)
    requires forall f :: locked(f) == FileLock.LockedAt(lm.locks, lm.clock, f)
    ensures taken == !Conflicts(filesOf(task), lockedFiles, locked)
    ensures taken ==> selected' == selected + [task] && lockedFiles' == lockedFiles + Elems(filesOf(task))
    ensures !taken ==> selected' == selected && lockedFiles' == lockedFiles
  {
    var taskFiles := ExtractTaskFiles(task, mentions);
    var conflicts := AnyConflict(lm, taskFiles, lockedFiles, locked);
    taken := !conflicts;
    selected', lockedFiles' := selected, lockedFiles;
    if taken {
      selected' := selected + [task];
      lockedFiles' := ClaimFiles(lockedFiles, taskFiles);
    }
  }

  lemma AppendAssoc<T>(a: seq<T>, x: T, b: seq<T>)
    ensures a + ([x] + b) == (a + [x]) + b
  {
  }

  /** `filesOf` gives what _extract_task_files returns for `t`, a task the scheduler can read. */
  predicate Extracts(filesOf: Dict -> seq<string>, mentions: string -> seq<string>, t: Dict) {
    SchedTask(t) && filesOf(t) == TaskFiles(t, mentions)
  }

  lemma FilesOfScheduled(ts: seq<Dict>, mentions: string -> seq<string>)
    requires forall t | t in ts :: SchedTask(t)
    ensures forall t | t in ts :: Extracts(FilesOf(mentions), mentions, t)
  {
  }

  /** The selection loop of get_parallelizable_tasks over the sorted ready tasks: a task is taken
      when none of its files is claimed in this round or locked, and the loop ends once
      max_workers tasks are taken. `filesOf` and `locked` name what the loop computes for each
      task and each file. */
  method SelectFreeTasks(lm: FileLock.FileLockManager, sorted: seq<Dict>, mentions: string -> seq<string>,
                         maxWorkers: int, ghost filesOf: Dict -> seq<string>, ghost locked: string -> bool)
    returns (selected: seq<Dict>)
    requires forall t {:trigger Extracts(filesOf, mentions, t)} | t in sorted :: Extracts(filesOf, mentions, t)
    requires forall f :: locked(f) == FileLock.LockedAt(lm.locks, lm.clock, f)
    ensures selected == Select(sorted, filesOf, locked, {}, 0, maxWorkers)
  {
    ghost var goal := Select(sorted, filesOf, locked, {}, 0, maxWorkers);
    selected := [];
    var lockedFiles: set<string> := {};
    var i := 0;
    assert sorted[i..] == sorted;
    assert selected + goal == goal;
    while i < |sorted|
      invariant 0 <= i <= |sorted|
      invariant selected + Select(sorted[i..], filesOf, locked, lockedFiles, |selected|, maxWorkers) == goal
    {
      var task := sorted[i];
      ghost var ts, next := sorted[i..], sorted[i + 1..];
      assert ts[0] == task && ts[1..] == next;
      assert Extracts(filesOf, mentions, task);
      ghost var before, claimed := selected, lockedFiles;
      var taken;
      selected, lockedFiles, taken := ConsiderTask(lm, task, mentions, selected, lockedFiles, filesOf, locked);
      if !taken {
        SelectSkip(ts, filesOf, locked, claimed, |before|, maxWorkers);
      } else {
        SelectTake(ts, filesOf, locked, claimed, |before|, maxWorkers);
        if |selected| >= maxWorkers {
          assert selected == before + [task] == goal;
          return;
        }
        ghost var rest := Select(next, filesOf, locked, lockedFiles, |selected|, maxWorkers);
        AppendAssoc(before, task, rest);
      }
      i := i + 1;
      assert sorted[i..] == next;
    }
    assert sorted[i..] == [];
  }

  /** The sorted ready tasks are pending tasks, so the scheduler can read them. */
  lemma SortedArePending(pending: seq<Dict>, lookup: string -> Option<Dict>)
    ensures forall t | t in SortByScore(FilterReady(pending, lookup)) :: t in pending
  {
    var sorted := SortByScore(FilterReady(pending, lookup));
    SortIsPermutation(FilterReady(pending, lookup));
    forall t | t in sorted ensures t in pending {
      assert t in multiset(sorted);
    }
  }

  /** One turn of the selection loop, for a task that conflicts: it is skipped. */
  lemma SelectSkip(ts: seq<Dict>, filesOf: Dict -> seq<string>, locked: string -> bool,
                   claimed: set<string>, count: nat, maxWorkers: int)
    requires ts != [] && Conflicts(filesOf(ts[0]), claimed, locked)
    ensures Select(ts, filesOf, locked, claimed, count, maxWorkers) == Select(ts[1..], filesOf, locked, claimed, count, maxWorkers)
  {
  }

  /** One turn of the selection loop, for a free task: it is taken, and the loop stops at the cap. */
  lemma SelectTake(ts: seq<Dict>, filesOf: Dict -> seq<string>, locked: string -> bool,
                   claimed: set<string>, count: nat, maxWorkers: int)
    requires ts != [] && !Conflicts(filesOf(ts[0]), claimed, locked)
    ensures Select(ts, filesOf, locked, claimed, count, maxWorkers)
      == if count + 1 >= maxWorkers then [ts[0]]
         else [ts[0]] + Select(ts[1..], filesOf, locked, claimed + Elems(filesOf(ts[0])), count + 1, maxWorkers)
  {
  }

  /** The inner conflict scan of get_parallelizable_tasks: stop at the first file already claimed
      in this round or locked by another process. */
  method AnyConflict(lm: FileLock.FileLockManager, taskFiles: seq<string>, lockedFiles: set<string>,
                     ghost locked: string -> bool) returns (conflicts: bool)
    requires forall f :: locked(f) == FileLock.LockedAt(lm.locks, lm.clock, f)
    ensures conflicts == Conflicts(taskFiles, lockedFiles, locked)
  {
    conflicts := false;
    var j := 0;
    while j < |taskFiles|
      invariant 0 <= j <= |taskFiles|
      invariant forall k | 0 <= k < j :: !(taskFiles[k] in lockedFiles || FileLock.LockedAt(lm.locks, lm.clock, taskFiles[k]))
    {
      var filepath := taskFiles[j];
      var locked := lm.IsLocked(filepath);
      if filepath in lockedFiles || locked {
        return true;
      }
      j := j + 1;
    }
  }

  /** Add a chosen task's files to the claimed set, one by one. */
  method ClaimFiles(lockedFiles: set<string>, taskFiles: seq<string>) returns (claimed: set<string>)
    ensures claimed == lockedFiles + Elems(taskFiles)
  {
    claimed := lockedFiles;
    for k := 0 to |taskFiles|
      invariant claimed == lockedFiles + Elems(taskFiles[..k])
    {
      assert taskFiles[..k + 1] == taskFiles[..k] + [taskFiles[k]];
      ElemsAppend(taskFiles[..k], taskFiles[k]);
      claimed := claimed + {taskFiles[k]};
    }
    assert taskFiles[..|taskFiles|] == taskFiles;
  }

  // ---------------------------------------------------------------------------
  // Pairwise check

  /** The fields can_tasks_run_parallel reads beyond SchedTask: a list of ids for dependencies
      (set() of anything else raises or is not what the code means), and a hashable id. */
  predicate PairTask(t: Dict) {
    SchedTask(t) && ("dependencies" in t ==> IsStrList(t["dependencies"]))
    && ("id" in t ==> !t["id"].JArr? && !t["id"].JObj?)
  }

  /** task.get("id") in a set of dependency ids. */
  predicate IdIn(t: Dict, deps: seq<string>) {
    "id" in t && t["id"].JStr? && t["id"].s in deps
  }

  /** can_tasks_run_parallel. */
  function CanRunParallel(t1: Dict, t2: Dict, mentions: string -> seq<string>): (b: bool)
    requires PairTask(t1) && PairTask(t2)
  {
    var files1, files2 := Elems(TaskFiles(t1, mentions)), Elems(TaskFiles(t2, mentions));
    if files1 != {} && files2 != {} && files1 * files2 != {} then false
    else if IdIn(t1, Dependencies(t2)) || IdIn(t2, Dependencies(t1)) then false
    else true
  }

  /** Two tasks can run side by side exactly when they touch no common file and neither depends
      on the other; so the check is symmetric. */
  lemma CanRunParallelSpec(t1: Dict, t2: Dict, mentions: string -> seq<string>)
    requires PairTask(t1) && PairTask(t2)
    ensures CanRunParallel(t1, t2, mentions) <==>
      && (forall f | f in TaskFiles(t1, mentions) :: f !in TaskFiles(t2, mentions))
      && !IdIn(t1, Dependencies(t2)) && !IdIn(t2, Dependencies(t1))
    ensures CanRunParallel(t1, t2, mentions) == CanRunParallel(t2, t1, mentions)
  {
    var files1, files2 := Elems(TaskFiles(t1, mentions)), Elems(TaskFiles(t2, mentions));
    if files1 * files2 != {} {
      var f :| f in files1 * files2;
      assert files1 != {} && files2 != {};
    }
  }
}

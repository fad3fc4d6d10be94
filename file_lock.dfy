/** Advisory file locks: one lock file per locked path in a lock directory, claimed by
    exclusive creation, taken over when stale, and the set of paths this process holds. */
module FileLock {
  import opened Common

  /** A lock file: its text and its modification time in milliseconds (None when stat fails). */
  datatype LockFile = LockFile(content: string, mtime: Option<int>)

  /** _normalize_path: strip '/' at both ends, then turn every '\' into '/'. */
  function NormalizePath(filepath: string): string {
    ReplaceChar(Strip(filepath, IsSlash), '\\', '/')
  }

  predicate IsSlash(c: char) { c == '/' }

  /** A normalised path contains no '\'. */
  lemma NormalizeHasNoBackslash(filepath: string)
    ensures '\\' !in NormalizePath(filepath)
  {
    var r := NormalizePath(filepath);
    assert forall i | 0 <= i < |r| :: r[i] != '\\';
  }

  /** The lock file name of a normalised path: '/' becomes '_', then ".lock" is appended. */
  function LockName(normalized: string): (name: string)
    ensures '/' !in name
    ensures |name| == |normalized| + 5 && name[|normalized|..] == ".lock"
  {
    var r := ReplaceChar(normalized, '/', '_') + ".lock";
    assert forall i | 0 <= i < |r| :: r[i] != '/';
    r
  }

  function LockNameOf(filepath: string): string {
    LockName(NormalizePath(filepath))
  }

  /** A lock name never contains '/' or '\', whatever the path. */
  lemma LockNameIsFlat(filepath: string)
    ensures '/' !in LockNameOf(filepath) && '\\' !in LockNameOf(filepath)
  {
    var n := NormalizePath(filepath);
    var r := LockNameOf(filepath);
    assert r == ReplaceChar(n, '/', '_') + ".lock";
    forall i | 0 <= i < |r| ensures r[i] != '\\' {
      if i < |n| { assert r[i] == ReplaceChar(n, '/', '_')[i]; }
    }
  }

  /** Normalising twice is not normalising once: "a\" becomes "a/" and then "a". */
  lemma NormalizeNotIdempotent()
    ensures NormalizePath("a\\") == "a/"
    ensures NormalizePath(NormalizePath("a\\")) == "a"
  {
    assert StripLeft("a\\", IsSlash) == "a\\";
    assert StripRight("a\\", IsSlash) == "a\\";
    assert ReplaceChar("a\\", '\\', '/') == "a/";
    assert StripLeft("a/", IsSlash) == "a/";
    assert StripRight("a", IsSlash) == "a";
    assert StripRight("a/", IsSlash) == "a";
    assert ReplaceChar("a", '\\', '/') == "a";
  }

  /** Different paths can share a lock file: "a/b" and "a_b" both lock "a_b.lock". */
  lemma LockNameNotInjective()
    ensures LockNameOf("a/b") == LockNameOf("a_b") == "a_b.lock"
  {
    assert StripLeft("a/b", IsSlash) == "a/b";
    assert StripRight("a/b", IsSlash) == "a/b";
    assert StripLeft("a_b", IsSlash) == "a_b";
    assert StripRight("a_b", IsSlash) == "a_b";
    assert ReplaceChar("a/b", '\\', '/') == "a/b";
    assert ReplaceChar("a_b", '\\', '/') == "a_b";
    assert ReplaceChar("a/b", '/', '_') == "a_b";
    assert ReplaceChar("a_b", '/', '_') == "a_b";
  }

  /** _is_lock_stale at time `now`: strictly older than the timeout, or of unknown age. */
  /** What another process does to a lock file while acquire_lock sleeps: nothing, release it, or
      write its own. */
  datatype LockChange = Unchanged | Removed | Written(file: LockFile)

  /** No other process touched the lock file during the first `n` sleeps. */
  predicate Undisturbed(others: nat -> LockChange, n: nat) {
    forall k: nat | k < n :: others(k).Unchanged?
  }

  /** Two directories that agree off one lock file agree once that file is written. */
  lemma WriteOverDifference(d1: map<string, LockFile>, d2: map<string, LockFile>, name: string, f: LockFile)
    requires d1 - {name} == d2 - {name}
    ensures d1[name := f] == d2[name := f]
  {
    forall x | x != name
      ensures (x in d1 <==> x in d2) && (x in d1 ==> d1[x] == d2[x])
    {
      assert x in d1 <==> x in d1 - {name};
      assert x in d2 <==> x in d2 - {name};
      if x in d1 {
        assert d1[x] == (d1 - {name})[x];
        assert d2[x] == (d2 - {name})[x];
      }
    }
  }

  predicate Stale(f: LockFile, now: int, timeout: int) {
    f.mtime.None? || now - f.mtime.value > timeout
  }

  /** A lock that is stale stays stale as time goes on. */
  lemma StaleMonotone(f: LockFile, t1: int, t2: int, timeout: int)
    requires t1 <= t2 && Stale(f, t1, timeout)
    ensures Stale(f, t2, timeout)
  {
  }

  /** is_locked on a lock directory at time `now`: a lock file exists and is not stale at 30 s. */
  predicate LockedAt(locks: map<string, LockFile>, now: int, filepath: string) {
    LockNameOf(filepath) in locks && !Stale(locks[LockNameOf(filepath)], now, 30000)
  }

  /** The text acquire_lock writes into a new lock file. */
  function LockContent(taskId: string, timestamp: string, filepath: string): string {
    "task_id=" + taskId + "\ntimestamp=" + timestamp + "\nfilepath=" + filepath + "\n"
  }

  /** The task id of the first line that starts with "task_id=", the text after its first '='. */
  function OwnerLine(lines: seq<string>): (r: Option<string>)
    ensures r.Some? ==> exists i | 0 <= i < |lines| :: StartsWith(lines[i], "task_id=") && r.value == lines[i][8..]
    ensures r.None? ==> forall i | 0 <= i < |lines| :: !StartsWith(lines[i], "task_id=")
  {
    if lines == [] then None
    else if StartsWith(lines[0], "task_id=") then Some(lines[0][8..])
    else
      var r := OwnerLine(lines[1..]);
      assert forall i | 1 <= i < |lines| :: lines[i] == lines[1..][i - 1];
      r
  }

  /** get_lock_owner on the text of a lock file. */
  function OwnerOf(content: string): Option<string> {
    OwnerLine(Split(content, '\n'))
  }

  /** The owner written by acquire_lock is read back by get_lock_owner, for a task id without newline. */
  lemma OwnerRoundTrip(taskId: string, timestamp: string, filepath: string)
    requires '\n' !in taskId
    ensures OwnerOf(LockContent(taskId, timestamp, filepath)) == Some(taskId)
  {
    var a := "task_id=" + taskId;
    var b := "timestamp=" + timestamp + "\nfilepath=" + filepath + "\n";
    assert LockContent(taskId, timestamp, filepath) == a + ['\n'] + b;
    assert '\n' !in a by {
      forall i | 0 <= i < |a| ensures a[i] != '\n' {
        if i >= 8 { assert a[i] == taskId[i - 8]; }
      }
    }
    SplitAtFirst(a, b, '\n');
    assert StartsWith(a, "task_id=");
    assert a[8..] == taskId;
  }

  /** The paths release_all_locks actually releases: each held key normalised once more. */
  function Renormalized(keys: set<string>): set<string> {
    set p | p in keys :: NormalizePath(p)
  }

  function LockNames(keys: set<string>): set<string> {
    set p | p in keys :: LockName(p)
  }

  /** release_all_locks as written: release_lock on every held key, which normalises it again. */
  function ReleaseAllAsWritten(locks: map<string, LockFile>, active: set<string>): (map<string, LockFile>, set<string>) {
    (locks - LockNames(Renormalized(active)), active - Renormalized(active))
  }

  lemma RenormalizedAdd(keys: set<string>, p: string)
    ensures Renormalized(keys + {p}) == Renormalized(keys) + {NormalizePath(p)}
  {
    var l, r := Renormalized(keys + {p}), Renormalized(keys) + {NormalizePath(p)};
    forall x | x in l ensures x in r {
      var q :| q in keys + {p} && x == NormalizePath(q);
      if q != p { assert x in Renormalized(keys); }
    }
    forall x | x in r ensures x in l {
      if x != NormalizePath(p) {
        var q :| q in keys && x == NormalizePath(q);
        assert q in keys + {p};
      }
    }
  }

  lemma LockNamesAdd(keys: set<string>, p: string)
    ensures LockNames(keys + {p}) == LockNames(keys) + {LockName(p)}
  {
  }

  /** A held backslash-ended path survives release_all_locks as written: both its lock file and its
      entry in the held set remain. */
  lemma ReleaseAllAsWrittenLeavesLock()
    ensures NormalizePath("a\\") == "a/" && LockNameOf("a\\") == "a_.lock"
    ensures "a_.lock" in ReleaseAllAsWritten(map["a_.lock" := LockFile("task_id=t\n", Some(0))], {"a/"}).0
    ensures ReleaseAllAsWritten(map["a_.lock" := LockFile("task_id=t\n", Some(0))], {"a/"}).1 == {"a/"}
  {
    BackslashNames();
    var locks := map["a_.lock" := LockFile("task_id=t\n", Some(0))];
    SingletonReleaseAll(locks, "a/");
    assert "a_.lock" in locks - {"a.lock"};
    assert {"a/"} - {"a"} == {"a/"};
  }

  /** release_all_locks as written with one held path removes the lock and the entry of its re-normalised form. */
  lemma SingletonReleaseAll(locks: map<string, LockFile>, p: string)
    ensures ReleaseAllAsWritten(locks, {p}) == (locks - {LockName(NormalizePath(p))}, {p} - {NormalizePath(p)})
  {
    SingletonRelease(p);
  }

  /** The names involved: "a\" normalises to "a/" (lock "a_.lock"), and "a/" to "a" (lock "a.lock"). */
  lemma BackslashNames()
    ensures NormalizePath("a\\") == "a/" && LockNameOf("a\\") == "a_.lock"
    ensures NormalizePath("a/") == "a" && LockName("a") == "a.lock"
    ensures "a.lock" != "a_.lock" && "a/" != "a"
  {
    NormalizeNotIdempotent();
    assert ReplaceChar("a/", '/', '_') == "a_";
    assert ReplaceChar("a", '/', '_') == "a";
    assert "a.lock"[1] != "a_.lock"[1];
    assert |"a/"| != |"a"|;
  }

  /** What release_all_locks as written releases when one path is held. */
  lemma SingletonRelease(p: string)
    ensures Renormalized({p}) == {NormalizePath(p)}
    ensures LockNames(Renormalized({p})) == {LockName(NormalizePath(p))}
  {
    RenormalizedAdd({}, p);
    LockNamesAdd({}, NormalizePath(p));
    assert Renormalized({}) == {} && LockNames({}) == {};
  }

  /** release_all_locks as evidently intended: release every held key as it is stored. */
  function ReleaseAll(locks: map<string, LockFile>, active: set<string>): (r: (map<string, LockFile>, set<string>))
    ensures r.1 == {}
    ensures forall k | k in active :: LockName(k) !in r.0
    ensures forall n | n in r.0 :: n in locks && r.0[n] == locks[n]
  {
    (locks - LockNames(active), {})
  }

  /** The intended release_all_locks keeps exactly the lock files of paths this process does not hold. */
  lemma ReleaseAllKeepsOthers(locks: map<string, LockFile>, active: set<string>, n: string)
    requires n in locks && forall k | k in active :: LockName(k) != n
    ensures n in ReleaseAll(locks, active).0
  {
  }

  /** The lock files cleanup_stale_locks keeps at time `now`. */
  function FreshLocks(locks: map<string, LockFile>, now: int, timeout: int): (m: map<string, LockFile>)
    ensures forall n :: n in m <==> n in locks && !Stale(locks[n], now, timeout)
    ensures forall n | n in m :: m[n] == locks[n]
  {
    map n | n in locks && !Stale(locks[n], now, timeout) :: locks[n]
  }

  function StaleNames(locks: map<string, LockFile>, now: int, timeout: int): (s: set<string>)
    ensures forall n :: n in s <==> n in locks && Stale(locks[n], now, timeout)
  {
    set n | n in locks && Stale(locks[n], now, timeout)
  }

  /** The lock directory, the paths this process holds, and the wall clock in milliseconds. */
  class FileLockManager {
    /** The "*.lock" files of the lock directory, by name; other files there are not part of it. */
    var locks: map<string, LockFile>
    var active: set<string>
    var clock: int

    constructor (locks: map<string, LockFile>, clock: int)
      ensures this.locks == locks && this.clock == clock && active == {}
    {
      this.locks, this.clock, active := locks, clock, {};
    }

    /** acquire_lock(filepath, task_id, timeout): probe until the timeout elapses, taking over a
        stale lock and sleeping 100 ms after finding a fresh one. `timestamp` is the ISO rendering
        of the clock written into the lock file; `others(k)` is what other processes did to the
        lock file during the k-th sleep. */
    method AcquireLock(filepath: string, taskId: string, timeout: int, timestamp: string, others: nat -> LockChange)
      returns (ok: bool)
      modifies this
      ensures var name := LockNameOf(filepath);
        && old(clock) <= clock && (clock - old(clock)) % 100 == 0
        && locks - {name} == old(locks) - {name}
        && (ok ==> locks == old(locks)[name := LockFile(LockContent(taskId, timestamp, filepath), Some(clock))]
                   && active == old(active) + {NormalizePath(filepath)})
        && (ok ==> clock - old(clock) < timeout)
        && (!ok ==> active == old(active) && clock - old(clock) >= timeout)
      ensures var name := LockNameOf(filepath);
        Undisturbed(others, (clock - old(clock)) / 100) ==>
          && (ok ==> name !in old(locks) || Stale(old(locks)[name], clock, timeout))
          && (!ok ==> locks == old(locks))
          && (!ok && clock > old(clock) ==> name in old(locks) && !Stale(old(locks)[name], clock - 100, timeout))
      ensures var name := LockNameOf(filepath);
        !ok && clock > old(clock) ==>
          var last := others((clock - old(clock)) / 100 - 1);
          last.Removed? || (name in locks && (last.Unchanged? ==> !Stale(locks[name], clock - 100, timeout)))
      ensures ok && clock > old(clock) ==>
        var last := others((clock - old(clock)) / 100 - 1);
        last.Written? ==> Stale(last.file, clock, timeout)
      ensures ok && '\n' !in taskId ==> GetLockOwner(filepath) == Some(taskId)
      ensures ok ==> IsLocked(filepath)
    {
      var normalized := NormalizePath(filepath);
      var name := LockName(normalized);
      var start := clock;
      var n: nat := 0;  // sleeps so far
      while clock - start < timeout
        invariant start == old(clock) <= clock == start + 100 * n
        invariant active == old(active)
        invariant locks - {name} == old(locks) - {name}
        invariant Undisturbed(others, n) && name in locks ==> locks == old(locks)
        invariant Undisturbed(others, n) && name !in locks ==> locks == old(locks) - {name}
        invariant Undisturbed(others, n) && name !in locks && name in old(locks) ==>
          Stale(old(locks)[name], clock, timeout) && clock - start < timeout
        invariant Undisturbed(others, n) && n > 0 ==> name in old(locks) && !Stale(old(locks)[name], clock - 100, timeout)
        invariant n > 0 ==>
          || others(n - 1).Removed?
          || (name !in locks && clock - start < timeout)
          || (name in locks && (others(n - 1).Unchanged? ==> !Stale(locks[name], clock - 100, timeout)))
        invariant n > 0 && others(n - 1).Written? ==>
          || (name in locks && locks[name] == others(n - 1).file)
          || (name !in locks && Stale(others(n - 1).file, clock, timeout))
        decreases timeout - (clock - start), if name in locks then 1 else 0
      {
        if name !in locks {
          WriteOverDifference(locks, old(locks), name, LockFile(LockContent(taskId, timestamp, filepath), Some(clock)));
          locks := locks[name := LockFile(LockContent(taskId, timestamp, filepath), Some(clock))];
          active := active + {normalized};
          if '\n' !in taskId {
            OwnerRoundTrip(taskId, timestamp, filepath);
          }
          return true;
        }
        if Stale(locks[name], clock, timeout) {
          locks := locks - {name};
          continue;
        }
        clock := clock + 100;
        match others(n) {
          case Unchanged =>
          case Removed => locks := locks - {name};
          case Written(f) => locks := locks[name := f];
        }
        n := n + 1;
      }
      return false;
    }

    /** release_lock: delete the lock file if there is one and stop holding the path; a path that
        is not held is a no-op. */
    method ReleaseLock(filepath: string)
      modifies this
      ensures locks == old(locks) - {LockNameOf(filepath)}
      ensures active == old(active) - {NormalizePath(filepath)}
      ensures clock == old(clock)
      ensures !IsLocked(filepath)
    {
      var normalized := NormalizePath(filepath);
      var name := LockName(normalized);
      if name in locks {
        locks := locks - {name};
      }
      active := active - {normalized};
    }

    /** release_all_locks as written: release_lock on a snapshot of the held keys. */
    method ReleaseAllLocks()
      modifies this
      ensures (locks, active) == ReleaseAllAsWritten(old(locks), old(active))
      ensures clock == old(clock)
    {
      var remaining := active;
      while remaining != {}
        invariant remaining <= old(active)
        invariant locks == old(locks) - LockNames(Renormalized(old(active) - remaining))
        invariant active == old(active) - Renormalized(old(active) - remaining)
        invariant clock == old(clock)
        decreases |remaining|
      {
        var p :| p in remaining;
        ghost var held := Renormalized(old(active) - remaining);
        ghost var n := NormalizePath(p);
        ReleaseLock(p);
        assert locks == (old(locks) - LockNames(held)) - {LockName(n)};
        assert active == (old(active) - held) - {n};
        ReleaseAllStep(old(locks), old(active), remaining, p);
        remaining := remaining - {p};
      }
      assert old(active) - remaining == old(active);
    }

    /** release_all_locks as evidently intended: release each held key without normalising it again. */
    method ReleaseAllLocksByKey()
      modifies this
      ensures (locks, active) == ReleaseAll(old(locks), old(active))
      ensures clock == old(clock)
    {
      var remaining := active;
      while remaining != {}
        invariant remaining <= old(active)
        invariant locks == old(locks) - LockNames(old(active) - remaining)
        invariant active == remaining
        invariant clock == old(clock)
        decreases |remaining|
      {
        var k :| k in remaining;
        locks := locks - {LockName(k)};
        active := active - {k};
        ByKeyStep(old(locks), old(active), remaining, k);
        remaining := remaining - {k};
      }
      assert old(active) - remaining == old(active);
    }

    /** is_locked: the lock file exists and is not stale at 30 s. */
    function IsLocked(filepath: string): (b: bool)
      reads this
      ensures b == LockedAt(locks, clock, filepath)
    {
      var name := LockNameOf(filepath);
      name in locks && !Stale(locks[name], clock, 30000)
    }

    /** get_lock_owner: None without a lock file, else the task id its text names. */
    function GetLockOwner(filepath: string): (r: Option<string>)
      reads this
      ensures LockNameOf(filepath) !in locks ==> r.None?
    {
      var name := LockNameOf(filepath);
      if name !in locks then None else OwnerOf(locks[name].content)
    }

    /** cleanup_stale_locks: delete every stale lock file and count them. */
    method CleanupStaleLocks(timeout: int) returns (removed: nat)
      modifies this
      ensures locks == FreshLocks(old(locks), clock, timeout)
      ensures removed == |StaleNames(old(locks), clock, timeout)|
      ensures active == old(active) && clock == old(clock)
    {
      var kept;
      kept, removed := RemoveStale(locks, clock, timeout);
      locks := kept;
    }
  }

  /** The loop of cleanup_stale_locks over the lock directory, one lock file at a time. */
  method RemoveStale(locks: map<string, LockFile>, now: int, timeout: int) returns (kept: map<string, LockFile>, removed: nat)
    ensures kept == FreshLocks(locks, now, timeout)
    ensures removed == |StaleNames(locks, now, timeout)|
  {
    var remaining := locks.Keys;
    ghost var stale := StaleNames(locks, now, timeout);
    kept, removed := locks, 0;
    while remaining != {}
      invariant CleanupInv(locks, kept, stale, remaining, removed)
      decreases |remaining|
    {
      var n :| n in remaining;
      CleanupAdvance(locks, kept, stale, remaining, removed, n, now, timeout);
      if Stale(kept[n], now, timeout) {
        kept := kept - {n};
        removed := removed + 1;
      }
      remaining := remaining - {n};
    }
    assert stale - remaining == stale;
    FreshIsRemovalOfStale(locks, now, timeout);
  }

  /** One step of release_all_locks as written: releasing `p` after the held keys not in `remaining`. */
  lemma ReleaseAllStep(locks: map<string, LockFile>, active: set<string>, remaining: set<string>, p: string)
    requires p in remaining && remaining <= active
    ensures (locks - LockNames(Renormalized(active - remaining))) - {LockName(NormalizePath(p))}
         == locks - LockNames(Renormalized(active - (remaining - {p})))
    ensures (active - Renormalized(active - remaining)) - {NormalizePath(p)}
         == active - Renormalized(active - (remaining - {p}))
  {
    var done := active - remaining;
    assert active - (remaining - {p}) == done + {p};
    RenormalizedAdd(done, p);
    LockNamesAdd(Renormalized(done), NormalizePath(p));
    MapMinusTwice(locks, LockNames(Renormalized(done)), LockName(NormalizePath(p)));
    SetMinusTwice(active, Renormalized(done), NormalizePath(p));
  }

  lemma ByKeyStep(locks: map<string, LockFile>, active: set<string>, remaining: set<string>, k: string)
    requires k in remaining && remaining <= active
    ensures (locks - LockNames(active - remaining)) - {LockName(k)} == locks - LockNames(active - (remaining - {k}))
  {
    assert active - (remaining - {k}) == (active - remaining) + {k};
    LockNamesAdd(active - remaining, k);
  }

  lemma MapMinusTwice(m: map<string, LockFile>, a: set<string>, x: string)
    ensures (m - a) - {x} == m - (a + {x})
  {
  }

  lemma SetMinusTwice(s: set<string>, a: set<string>, x: string)
    ensures (s - a) - {x} == s - (a + {x})
  {
  }

  /** One step of cleanup_stale_locks: the probed name joins the removed ones exactly when stale. */
  lemma CleanupStep(locks: map<string, LockFile>, stale: set<string>, remaining: set<string>, n: string, isStale: bool)
    requires n in remaining && (isStale <==> n in stale)
    ensures isStale ==> (locks - (stale - remaining)) - {n} == locks - (stale - (remaining - {n}))
    ensures isStale ==> |stale - (remaining - {n})| == |stale - remaining| + 1
    ensures !isStale ==> stale - (remaining - {n}) == stale - remaining
  {
    if isStale {
      assert stale - (remaining - {n}) == (stale - remaining) + {n};
    }
  }

  /** Mid-cleanup: the stale locks outside `remaining` are deleted and counted, nothing else is. */
  ghost predicate CleanupInv(orig: map<string, LockFile>, locks: map<string, LockFile>, stale: set<string>,
                             remaining: set<string>, removed: nat) {
    && remaining <= orig.Keys
    && locks == orig - (stale - remaining)
    && removed == |stale - remaining|
  }

  /** Handling one more lock keeps the cleanup invariant. */
  lemma CleanupAdvance(orig: map<string, LockFile>, locks: map<string, LockFile>, stale: set<string>,
                       remaining: set<string>, removed: nat, n: string, now: int, timeout: int)
    requires CleanupInv(orig, locks, stale, remaining, removed)
    requires stale == StaleNames(orig, now, timeout) && n in remaining
    ensures n in locks
    ensures Stale(locks[n], now, timeout) ==> CleanupInv(orig, locks - {n}, stale, remaining - {n}, removed + 1)
    ensures !Stale(locks[n], now, timeout) ==> CleanupInv(orig, locks, stale, remaining - {n}, removed)
  {
    CleanupPick(orig, locks, stale, remaining, n, now, timeout);
    CleanupStep(orig, stale, remaining, n, n in stale);
  }

  /** The lock picked from `remaining` is still there, unchanged, and stale exactly when it was. */
  lemma CleanupPick(orig: map<string, LockFile>, locks: map<string, LockFile>, stale: set<string>,
                    remaining: set<string>, n: string, now: int, timeout: int)
    requires stale == StaleNames(orig, now, timeout) && remaining <= orig.Keys
    requires locks == orig - (stale - remaining) && n in remaining
    ensures n in locks && locks[n] == orig[n]
    ensures Stale(locks[n], now, timeout) <==> n in stale
  {
  }

  lemma FreshIsRemovalOfStale(locks: map<string, LockFile>, now: int, timeout: int)
    ensures locks - StaleNames(locks, now, timeout) == FreshLocks(locks, now, timeout)
  {
  }
}

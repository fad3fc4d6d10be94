/** The state directory: JSON documents and text files by name, read and written whole,
    and the optimistic read-modify-write that the task list and the status go through. */
module StateStore {
  import opened Common
  import opened Json

  const MaxRetries: nat := 5

  /** load_json on a directory: a missing file reads as the empty document. */
  function LoadJsonFrom(files: map<string, Dict>, filename: string): (d: Dict)
    ensures filename !in files ==> d == map[]
    ensures filename in files ==> d == files[filename]
  {
    if filename in files then files[filename] else map[]
  }

  /** data.get('version', 0). */
  function Version(d: Dict): Value {
    Get(d, "version", JInt(0))
  }

  /** The numeric value Python compares for bool, int and float. */
  function Numeric(v: Value): Option<real> {
    match v
    case JBool(b) => Some(if b then 1.0 else 0.0)
    case JInt(i) => Some(i as real)
    case JFloat(r) => Some(r)
    case _ => None
  }

  /** Python's == on two version values: numbers compare by value across bool, int and float. */
  predicate PyEq(a: Value, b: Value) {
    if Numeric(a).Some? && Numeric(b).Some? then Numeric(a) == Numeric(b) else a == b
  }

  /** version + 1: bool and int give an int, float a float; anything else raises TypeError. */
  function BumpVersion(v: Value): (r: Result<Value>)
    ensures r.Ok? <==> Numeric(v).Some?
    ensures r.Ok? ==> Numeric(r.value) == Some(Numeric(v).value + 1.0)
  {
    match v
    case JBool(b) => Ok(JInt(if b then 2 else 1))
    case JInt(i) => Ok(JInt(i + 1))
    case JFloat(x) => Ok(JFloat(x + 1.0))
    case _ => Err(TypeError("can only add numbers to the version"))
  }

  /** What another writer does to the file between this writer's read and its version re-read. */
  datatype Interference = Quiet | Overwrite(doc: Dict) | Remove

  function Interfere(files: map<string, Dict>, filename: string, i: Interference): map<string, Dict> {
    match i
    case Quiet => files
    case Overwrite(doc) => files[filename := doc]
    case Remove => files - {filename}
  }

  /** The other writer's action during attempt k; attempts beyond the given list are quiet. */
  function EnvAt(env: seq<Interference>, k: nat): Interference {
    if k < |env| then env[k] else Quiet
  }

  function ConflictMessage(filename: string): string {
    "Failed to update " + filename + " after 5 attempts"
  }

  /** update_json from attempt `attempt` on: the result (the stored document or the exception)
      and the directory afterwards. */
  function UpdateSpec(files: map<string, Dict>, filename: string, f: Dict -> Result<Dict>,
                      env: seq<Interference>, attempt: nat): (Result<Dict>, map<string, Dict>)
    decreases MaxRetries - attempt
  {
    if attempt >= MaxRetries then (Err(RuntimeError("Failed to update " + filename)), files)
    else
      var current := LoadJsonFrom(files, filename);
      var version := Version(current);
      match f(current)
      case Err(e) => (Err(e), files)
      case Ok(upd) =>
        match BumpVersion(version)
        case Err(e) => (Err(e), files)
        case Ok(next) =>
          var updated := upd["version" := next];
          var seen := Interfere(files, filename, EnvAt(env, attempt));
          if filename !in seen then (Ok(updated), seen[filename := updated])
          else if !PyEq(Version(seen[filename]), version) then
            if attempt < MaxRetries - 1 then UpdateSpec(seen, filename, f, env, attempt + 1)
            else (Err(RuntimeError(ConflictMessage(filename))), seen)
          else (Ok(updated), seen[filename := updated])
  }

  /** The document update_func makes of `d`, stamped with d's version + 1. */
  predicate Stamped(f: Dict -> Result<Dict>, d: Dict, u: Dict) {
    f(d).Ok? && BumpVersion(Version(d)).Ok? && u == f(d).value["version" := BumpVersion(Version(d)).value]
  }

  /** The attempt that ends update_json when it is run from `attempt` on, with the directory that
      attempt starts from: the first attempt that does not see another writer's version, or the
      fifth. */
  function Deciding(files: map<string, Dict>, filename: string, f: Dict -> Result<Dict>,
                    env: seq<Interference>, attempt: nat): (map<string, Dict>, nat)
    decreases MaxRetries - attempt
  {
    if attempt >= MaxRetries then (files, attempt)
    else
      var current := LoadJsonFrom(files, filename);
      if f(current).Err? || BumpVersion(Version(current)).Err? then (files, attempt)
      else
        var seen := Interfere(files, filename, EnvAt(env, attempt));
        if filename in seen && !PyEq(Version(seen[filename]), Version(current)) && attempt < MaxRetries - 1
        then Deciding(seen, filename, f, env, attempt + 1)
        else (files, attempt)
  }

  /** update_json from `attempt` on ends as its deciding attempt does. That attempt reads either
      the document that was there at the start or one that the other writer put there during an
      earlier attempt. */
  lemma {:induction false} DecidingAttempt(files: map<string, Dict>, filename: string,
                                           f: Dict -> Result<Dict>, env: seq<Interference>, attempt: nat)
    requires attempt < MaxRetries
    ensures var (dir, k) := Deciding(files, filename, f, env, attempt);
      && attempt <= k < MaxRetries
      && UpdateSpec(files, filename, f, env, attempt) == UpdateSpec(dir, filename, f, env, k)
      && (|| LoadJsonFrom(dir, filename) == LoadJsonFrom(files, filename)
          || exists j | attempt <= j < k :: EnvAt(env, j).Overwrite? && LoadJsonFrom(dir, filename) == EnvAt(env, j).doc)
    decreases MaxRetries - attempt
  {
    var current := LoadJsonFrom(files, filename);
    if f(current).Ok? && BumpVersion(Version(current)).Ok? {
      var seen := Interfere(files, filename, EnvAt(env, attempt));
      if filename in seen && !PyEq(Version(seen[filename]), Version(current)) && attempt < MaxRetries - 1 {
        DecidingAttempt(seen, filename, f, env, attempt + 1);
        var (dir, k) := Deciding(seen, filename, f, env, attempt + 1);
        assert EnvAt(env, attempt).Overwrite? && LoadJsonFrom(seen, filename) == EnvAt(env, attempt).doc;
        if LoadJsonFrom(dir, filename) == LoadJsonFrom(seen, filename) {
          assert attempt <= attempt < k;
        }
      }
    }
  }

  /** The deciding attempt either raises or stores: when it succeeds, the file holds update_func
      applied to what that attempt read, with that document's version + 1, and every other effect
      on the directory is the other writer's. */
  lemma DecidingOutcome(dir: map<string, Dict>, filename: string, f: Dict -> Result<Dict>,
                        env: seq<Interference>, k: nat)
    requires k < MaxRetries && Deciding(dir, filename, f, env, k) == (dir, k)
    ensures var (r, after) := UpdateSpec(dir, filename, f, env, k);
      var current := LoadJsonFrom(dir, filename);
      && (r.Ok? <==> f(current).Ok? && BumpVersion(Version(current)).Ok?
                     && !(filename in Interfere(dir, filename, EnvAt(env, k))
                          && !PyEq(Version(Interfere(dir, filename, EnvAt(env, k))[filename]), Version(current))))
      && (r.Ok? ==> Stamped(f, current, r.value) && after == Interfere(dir, filename, EnvAt(env, k))[filename := r.value])
      && (f(current).Err? ==> r == Err(f(current).error) && after == dir)
      && (r.Err? ==> || (f(current).Err? && r.error == f(current).error)
                     || (BumpVersion(Version(current)).Err? && r.error == BumpVersion(Version(current)).error)
                     || r.error.RuntimeError?)
  {
  }

  /** A successful update stores exactly what it returns, and that is update_func's result on the
      document the deciding attempt read, with that document's version + 1. */
  lemma UpdateStoresResult(files: map<string, Dict>, filename: string,
                           f: Dict -> Result<Dict>, env: seq<Interference>, attempt: nat)
    requires attempt < MaxRetries
    ensures var (r, after) := UpdateSpec(files, filename, f, env, attempt);
      var (dir, k) := Deciding(files, filename, f, env, attempt);
      && (r.Ok? ==> filename in after && after[filename] == r.value)
      && (r.Ok? ==> Stamped(f, LoadJsonFrom(dir, filename), r.value))
      && (r.Ok? ==> Numeric(Version(r.value)).Some?)
      && (r.Err? ==> var current := LoadJsonFrom(dir, filename);
                     || (f(current).Err? && r.error == f(current).error)
                     || (BumpVersion(Version(current)).Err? && r.error == BumpVersion(Version(current)).error)
                     || r.error.RuntimeError?)
  {
    DecidingAttempt(files, filename, f, env, attempt);
    var (dir, k) := Deciding(files, filename, f, env, attempt);
    DecidingFixed(files, filename, f, env, attempt);
    DecidingOutcome(dir, filename, f, env, k);
  }

  /** The deciding attempt is its own deciding attempt. */
  lemma {:induction false} DecidingFixed(files: map<string, Dict>, filename: string,
                                         f: Dict -> Result<Dict>, env: seq<Interference>, attempt: nat)
    requires attempt < MaxRetries
    ensures var (dir, k) := Deciding(files, filename, f, env, attempt);
      k < MaxRetries && Deciding(dir, filename, f, env, k) == (dir, k)
    decreases MaxRetries - attempt
  {
    var current := LoadJsonFrom(files, filename);
    if f(current).Ok? && BumpVersion(Version(current)).Ok? {
      var seen := Interfere(files, filename, EnvAt(env, attempt));
      if filename in seen && !PyEq(Version(seen[filename]), Version(current)) && attempt < MaxRetries - 1 {
        DecidingFixed(seen, filename, f, env, attempt + 1);
      }
    }
  }

  /** The two directories agree on every file but `filename`. */
  ghost predicate SameOutside(a: map<string, Dict>, b: map<string, Dict>, filename: string) {
    forall k | k != filename :: (k in a <==> k in b) && (k in a ==> a[k] == b[k])
  }

  /** No file but the one being updated is touched by this writer (nor by the other writer, as
      modelled). */
  lemma {:induction false} UpdateKeepsOthers(files: map<string, Dict>, filename: string,
                                             f: Dict -> Result<Dict>, env: seq<Interference>, attempt: nat)
    ensures SameOutside(UpdateSpec(files, filename, f, env, attempt).1, files, filename)
    decreases MaxRetries - attempt
  {
    var after := UpdateSpec(files, filename, f, env, attempt).1;
    if attempt < MaxRetries {
      var current := LoadJsonFrom(files, filename);
      var seen := Interfere(files, filename, EnvAt(env, attempt));
      InterfereSameOutside(files, filename, EnvAt(env, attempt));
      if f(current).Ok? && BumpVersion(Version(current)).Ok? {
        var updated := f(current).value["version" := BumpVersion(Version(current)).value];
        if filename in seen && !PyEq(Version(seen[filename]), Version(current)) {
          if attempt < MaxRetries - 1 {
            assert after == UpdateSpec(seen, filename, f, env, attempt + 1).1;
            UpdateKeepsOthers(seen, filename, f, env, attempt + 1);
            SameOutsideTransitive(after, seen, files, filename);
          } else {
            assert after == seen;
          }
        } else {
          assert after == seen[filename := updated];
          SameOutsideTransitive(after, seen, files, filename);
        }
      } else {
        assert after == files;
      }
    } else {
      assert after == files;
    }
  }

  lemma InterfereSameOutside(files: map<string, Dict>, filename: string, i: Interference)
    ensures SameOutside(Interfere(files, filename, i), files, filename)
  {
  }

  lemma SameOutsideTransitive(a: map<string, Dict>, b: map<string, Dict>, c: map<string, Dict>, filename: string)
    requires SameOutside(a, b, filename) && SameOutside(b, c, filename)
    ensures SameOutside(a, c, filename)
  {
  }

  /** An attempt during which no other writer acts succeeds: the file then holds update_func applied
      to what was read (the empty document for a missing file), with the version bumped. */
  lemma QuietUpdate(files: map<string, Dict>, filename: string, f: Dict -> Result<Dict>,
                    env: seq<Interference>, attempt: nat)
    requires attempt < MaxRetries && EnvAt(env, attempt) == Quiet
    requires f(LoadJsonFrom(files, filename)).Ok? && BumpVersion(Version(LoadJsonFrom(files, filename))).Ok?
    ensures var current := LoadJsonFrom(files, filename);
      var updated := f(current).value["version" := BumpVersion(Version(current)).value];
      && UpdateSpec(files, filename, f, env, attempt) == (Ok(updated), files[filename := updated])
      && Deciding(files, filename, f, env, attempt) == (files, attempt)
  {
  }

  /** Starting from no file at all, a quiet update writes version 1. */
  lemma FirstWriteIsVersionOne(files: map<string, Dict>, filename: string, f: Dict -> Result<Dict>, env: seq<Interference>)
    requires filename !in files && EnvAt(env, 0) == Quiet && f(map[]).Ok?
    ensures UpdateSpec(files, filename, f, env, 0).0 == Ok(f(map[]).value["version" := JInt(1)])
    ensures UpdateSpec(files, filename, f, env, 0).1[filename]["version"] == JInt(1)
  {
    QuietUpdate(files, filename, f, env, 0);
  }

  /** Another writer replaces the document at every attempt from `attempt` on, each time with a
      version different from the one this writer read. */
  predicate ConflictsFrom(f: Dict -> Result<Dict>, prev: Dict, env: seq<Interference>, attempt: nat)
    decreases MaxRetries - attempt
  {
    attempt >= MaxRetries ||
    (&& f(prev).Ok? && BumpVersion(Version(prev)).Ok?
     && EnvAt(env, attempt).Overwrite?
     && !PyEq(Version(EnvAt(env, attempt).doc), Version(prev))
     && ConflictsFrom(f, EnvAt(env, attempt).doc, env, attempt + 1))
  }

  /** An attempt that sees another writer's version retries, or raises after the fifth attempt. */
  lemma ConflictStep(files: map<string, Dict>, filename: string, f: Dict -> Result<Dict>,
                     env: seq<Interference>, attempt: nat)
    requires attempt < MaxRetries
    requires ConflictsFrom(f, LoadJsonFrom(files, filename), env, attempt)
    ensures var seen := Interfere(files, filename, EnvAt(env, attempt));
      UpdateSpec(files, filename, f, env, attempt)
      == if attempt < MaxRetries - 1 then UpdateSpec(seen, filename, f, env, attempt + 1)
         else (Err(RuntimeError(ConflictMessage(filename))), seen)
  {
  }

  /** Five conflicting attempts raise RuntimeError, and the file then holds only what the other
      writer last wrote: this call wrote nothing. */
  lemma {:induction false} ExhaustedRetriesWriteNothing(files: map<string, Dict>, filename: string,
                                                        f: Dict -> Result<Dict>, env: seq<Interference>, attempt: nat)
    requires attempt < MaxRetries
    requires ConflictsFrom(f, LoadJsonFrom(files, filename), env, attempt)
    ensures EnvAt(env, MaxRetries - 1).Overwrite?
    ensures UpdateSpec(files, filename, f, env, attempt)
         == (Err(RuntimeError(ConflictMessage(filename))), files[filename := EnvAt(env, MaxRetries - 1).doc])
    decreases MaxRetries - attempt
  {
    var seen := Interfere(files, filename, EnvAt(env, attempt));
    assert seen == files[filename := EnvAt(env, attempt).doc];
    ConflictStep(files, filename, f, env, attempt);
    if attempt < MaxRetries - 1 {
      assert LoadJsonFrom(seen, filename) == EnvAt(env, attempt).doc;
      ExhaustedRetriesWriteNothing(seen, filename, f, env, attempt + 1);
      assert seen[filename := EnvAt(env, MaxRetries - 1).doc] == files[filename := EnvAt(env, MaxRetries - 1).doc];
    }
  }

  // ---------------------------------------------------------------------------
  // The update functions of add_task and update_status

  /** f"task_{n:03d}" for the int (or bool) counter. A string or float counter raises ValueError
      (an unknown format code); None, a list or a dict raises TypeError (object.__format__ takes no
      format string). */
  function TaskIdFor(n: Value): (r: Result<string>)
    ensures r.Ok? <==> n.JInt? || n.JBool?
    ensures n.JInt? ==> r == Ok("task_" + FormatZeroPadded(n.i, 3))
    ensures n.JStr? || n.JFloat? ==> r.Err? && r.error.ValueError?
    ensures n.JNull? || n.JArr? || n.JObj? ==> r.Err? && r.error.TypeError?
  {
    match n
    case JInt(i) => Ok("task_" + FormatZeroPadded(i, 3))
    case JBool(b) => Ok("task_" + FormatZeroPadded(if b then 1 else 0, 3))
    case JStr(_) => Err(ValueError("Unknown format code 'd' for object of type 'str'"))
    case JFloat(_) => Err(ValueError("Unknown format code 'd' for object of type 'float'"))
    case _ => Err(TypeError("unsupported format string passed to " + TypeName(n) + ".__format__"))
  }

  /** The task as add_task appends it: id, status "pending" and created_at overwritten. */
  function StampTask(task: Dict, id: string, now: string): Dict {
    task["id" := JStr(id)]["status" := JStr("pending")]["created_at" := JStr(now)]
  }

  /** The closure of add_task: default the task list to [] and the counter to 1, name the task after
      the counter, append it and advance the counter. */
  function AddTaskTo(task: Dict, now: string, data: Dict): Result<Dict> {
    var d1 := if "tasks" !in data then data["tasks" := JArr([])] else data;
    var d2 := if "next_task_id" !in d1 then d1["next_task_id" := JInt(1)] else d1;
    var n := d2["next_task_id"];
    match TaskIdFor(n)
    case Err(e) => Err(e)
    case Ok(id) =>
      if !d2["tasks"].JArr? then Err(AttributeError("append"))
      else
        var d3 := d2["tasks" := JArr(d2["tasks"].items + [JObj(StampTask(task, id, now))])];
        Ok(d3["next_task_id" := JInt(if n.JInt? then n.i + 1 else if n.b then 2 else 1)])
  }

  function AddTaskUpdate(task: Dict, now: string): Dict -> Result<Dict> {
    (data: Dict) => AddTaskTo(task, now, data)
  }

  /** A task store add_task can extend: a list of tasks and an int counter, each possibly absent. */
  predicate TaskStoreTyped(data: Dict) {
    ("tasks" in data ==> data["tasks"].JArr?) && ("next_task_id" in data ==> data["next_task_id"].JInt?)
  }

  function Tasks(data: Dict): seq<Value> {
    if "tasks" in data && data["tasks"].JArr? then data["tasks"].items else []
  }

  function NextTaskId(data: Dict): int {
    if "next_task_id" in data && data["next_task_id"].JInt? then data["next_task_id"].i else 1
  }

  /** add_task's update appends exactly one task, named "task_" + the counter zero-padded to three
      digits and marked pending, keeps the earlier tasks, advances the counter by one and leaves
      every other key alone. */
  lemma AddTaskUpdateEffect(task: Dict, now: string, data: Dict)
    requires TaskStoreTyped(data)
    ensures var r := AddTaskUpdate(task, now)(data);
      var id := "task_" + FormatZeroPadded(NextTaskId(data), 3);
      && r.Ok? && TaskStoreTyped(r.value)
      && Tasks(r.value) == Tasks(data) + [JObj(StampTask(task, id, now))]
      && NextTaskId(r.value) == NextTaskId(data) + 1
      && (forall k | k in data && k != "tasks" && k != "next_task_id" :: k in r.value && r.value[k] == data[k])
      && r.value.Keys == data.Keys + {"tasks", "next_task_id"}
      && LastTaskId(r.value) == JStr(id)
  {
    var id := "task_" + FormatZeroPadded(NextTaskId(data), 3);
    var t := JObj(StampTask(task, id, now));
    AddTaskValue(task, now, data);
    StoreWith(data, Tasks(data) + [t], NextTaskId(data) + 1);
    assert StampTask(task, id, now)["id"] == JStr(id);
  }

  /** A store with its task list and counter replaced, every other key kept. */
  lemma StoreWith(data: Dict, ts: seq<Value>, n: int)
    ensures var r := data["tasks" := JArr(ts)]["next_task_id" := JInt(n)];
      && TaskStoreTyped(r) && Tasks(r) == ts && NextTaskId(r) == n
      && (forall k | k in data && k != "tasks" && k != "next_task_id" :: k in r && r[k] == data[k])
      && r.Keys == data.Keys + {"tasks", "next_task_id"}
  {
  }

  /** The document add_task's update makes: both keys replaced, whatever the defaults were. */
  lemma AddTaskValue(task: Dict, now: string, data: Dict)
    requires TaskStoreTyped(data)
    ensures AddTaskUpdate(task, now)(data)
         == Ok(data["tasks" := JArr(Tasks(data) + [JObj(StampTask(task, "task_" + FormatZeroPadded(NextTaskId(data), 3), now))])]
                   ["next_task_id" := JInt(NextTaskId(data) + 1)])
  {
    var d1 := if "tasks" !in data then data["tasks" := JArr([])] else data;
    var d2 := if "next_task_id" !in d1 then d1["next_task_id" := JInt(1)] else d1;
    assert d2["tasks"] == JArr(Tasks(data));
    assert d2["next_task_id"] == JInt(NextTaskId(data));
    var t := JObj(StampTask(task, "task_" + FormatZeroPadded(NextTaskId(data), 3), now));
    assert d2["tasks" := JArr(Tasks(data) + [t])]["next_task_id" := JInt(NextTaskId(data) + 1)]
        == data["tasks" := JArr(Tasks(data) + [t])]["next_task_id" := JInt(NextTaskId(data) + 1)];
  }

  /** On an empty store the first task is "task_001" and the counter becomes 2. */
  lemma FirstTaskId(task: Dict, now: string)
    ensures AddTaskUpdate(task, now)(map[]) == Ok(map["tasks" := JArr([JObj(StampTask(task, "task_001", now))]),
                                                       "next_task_id" := JInt(2)])
  {
    assert NatToString(1) == "1";
    assert Zeros(2) == "00";
    assert FormatZeroPadded(1, 3) == "001";
    assert "task_" + "001" == "task_001";
    AddTaskUpdateEffect(task, now, map[]);
    var r := AddTaskUpdate(task, now)(map[]).value;
    assert r.Keys == {"tasks", "next_task_id"};
    assert Tasks(map[]) + [JObj(StampTask(task, "task_001", now))] == [JObj(StampTask(task, "task_001", now))];
    assert r["tasks"] == JArr(Tasks(r)) && r["next_task_id"] == JInt(NextTaskId(r));
    assert r == map["tasks" := JArr([JObj(StampTask(task, "task_001", now))]), "next_task_id" := JInt(2)];
  }

  /** The id of the task add_task appended last. */
  function LastTaskId(data: Dict): Value {
    var ts := Tasks(data);
    if ts != [] && ts[|ts| - 1].JObj? && "id" in ts[|ts| - 1].fields then ts[|ts| - 1].fields["id"] else JNull
  }

  /** Whatever attempt was stored, the last task in the stored document carries the id that attempt
      gave it, "task_" followed by the counter. */
  lemma StoredTaskId(task: Dict, now: string, d: Dict, u: Dict)
    requires Stamped(AddTaskUpdate(task, now), d, u)
    ensures LastTaskId(u).JStr? && StartsWith(LastTaskId(u).s, "task_")
  {
    var data := AddTaskUpdate(task, now)(d).value;
    var d1 := if "tasks" !in d then d["tasks" := JArr([])] else d;
    var d2 := if "next_task_id" !in d1 then d1["next_task_id" := JInt(1)] else d1;
    var id := TaskIdFor(d2["next_task_id"]).value;
    assert Tasks(data) == d2["tasks"].items + [JObj(StampTask(task, id, now))];
    assert Tasks(u) == Tasks(data);
    assert StampTask(task, id, now)["id"] == JStr(id);
  }

  /** Two tasks added one after the other get different ids. */
  lemma SuccessiveIdsDistinct(t1: Dict, t2: Dict, now1: string, now2: string, data: Dict)
    requires TaskStoreTyped(data)
    ensures var r1 := AddTaskUpdate(t1, now1)(data);
      r1.Ok? && var r2 := AddTaskUpdate(t2, now2)(r1.value);
      r2.Ok? && LastTaskId(r1.value) != LastTaskId(r2.value)
  {
    AddTaskUpdateEffect(t1, now1, data);
    var r1 := AddTaskUpdate(t1, now1)(data).value;
    AddTaskUpdateEffect(t2, now2, r1);
    var n := NextTaskId(data);
    var a, b := FormatZeroPadded(n, 3), FormatZeroPadded(n + 1, 3);
    if a == b {
      FormatZeroPaddedInjective(n, n + 1, 3);
    }
    assert ("task_" + a)[5..] == a && ("task_" + b)[5..] == b;
  }

  /** The closure of update_status: merge the given fields, then stamp last_updated. */
  function StatusUpdate(fields: Dict, now: string): Dict -> Result<Dict> {
    (data: Dict) => Ok((data + fields)["last_updated" := JStr(now)])
  }

  /** What update_status stores when it read `before`: the given fields and last_updated
      written, every other key kept, and the version bumped. */
  predicate StatusStored(fields: Dict, now: string, before: Dict, u: Dict) {
    && u.Keys == before.Keys + fields.Keys + {"last_updated", "version"}
    && u["last_updated"] == JStr(now)
    && Numeric(Version(before)).Some?
    && Numeric(u["version"]) == Some(Numeric(Version(before)).value + 1.0)
    && (forall k | k in fields && k != "last_updated" && k != "version" :: u[k] == fields[k])
    && (forall k | k in before && k !in fields && k != "last_updated" && k != "version" :: u[k] == before[k])
  }

  lemma StatusStamped(fields: Dict, now: string, before: Dict, u: Dict)
    requires Stamped(StatusUpdate(fields, now), before, u)
    ensures StatusStored(fields, now, before, u)
  {
  }

  /** update_status writes the given fields and last_updated, keeps every other key, and bumps the
      version that its deciding attempt read (a "version" among the fields is overridden by the
      bump). It fails only on a version that is not a number or after five conflicts. Stated for
      update_json run from any attempt on; update_status starts it at attempt 0. */
  lemma StatusUpdateEffect(files: map<string, Dict>, fields: Dict, now: string, env: seq<Interference>, attempt: nat)
    requires attempt < MaxRetries
    ensures var (dir, at) := Deciding(files, "status.json", StatusUpdate(fields, now), env, attempt);
      var before := LoadJsonFrom(dir, "status.json");
      var (r, after) := UpdateSpec(files, "status.json", StatusUpdate(fields, now), env, attempt);
      && (r.Ok? ==> "status.json" in after && after["status.json"] == r.value && StatusStored(fields, now, before, r.value))
      && (r.Err? ==> r.error.RuntimeError? || (Numeric(Version(before)).None? && r.error.TypeError?))
  {
    var f := StatusUpdate(fields, now);
    UpdateStoresResult(files, "status.json", f, env, attempt);
    var before := LoadJsonFrom(Deciding(files, "status.json", f, env, attempt).0, "status.json");
    var r := UpdateSpec(files, "status.json", f, env, attempt).0;
    if r.Ok? {
      StatusStamped(fields, now, before, r.value);
    }
  }

  /** With no other writer during the first attempt and a numeric version, update_status succeeds,
      and its deciding attempt is the first one, which read the document that was there. */
  lemma StatusUpdateQuiet(files: map<string, Dict>, fields: Dict, now: string, env: seq<Interference>)
    requires EnvAt(env, 0) == Quiet && Numeric(Version(LoadJsonFrom(files, "status.json"))).Some?
    ensures UpdateSpec(files, "status.json", StatusUpdate(fields, now), env, 0).0.Ok?
    ensures Deciding(files, "status.json", StatusUpdate(fields, now), env, 0) == (files, 0)
  {
    QuietUpdate(files, "status.json", StatusUpdate(fields, now), env, 0);
  }

  // ---------------------------------------------------------------------------
  // The store

  /** StateManager over its state directory. JSON documents and text files are kept apart. */
  class StateManager {
    var jsonFiles: map<string, Dict>
    var textFiles: map<string, string>

    constructor (jsonFiles: map<string, Dict>, textFiles: map<string, string>)
      ensures this.jsonFiles == jsonFiles && this.textFiles == textFiles
    {
      this.jsonFiles, this.textFiles := jsonFiles, textFiles;
    }

    /** load_json: the document, or {} when the file does not exist. */
    function LoadJson(filename: string): (d: Dict)
      reads this
      ensures filename !in jsonFiles ==> d == map[]
    {
      LoadJsonFrom(jsonFiles, filename)
    }

    /** load_text: the content, or "" when the file does not exist. */
    function LoadText(filename: string): (s: string)
      reads this
      ensures filename !in textFiles ==> s == ""
    {
      if filename in textFiles then textFiles[filename] else ""
    }

    /** save_json replaces the document; loading it again gives the data back. */
    method SaveJson(filename: string, data: Dict)
      modifies this
      ensures jsonFiles == old(jsonFiles)[filename := data] && textFiles == old(textFiles)
      ensures LoadJson(filename) == data
    {
      jsonFiles := jsonFiles[filename := data];
    }

    /** save_text replaces the content; loading it again gives the text back. */
    method SaveText(filename: string, content: string)
      modifies this
      ensures textFiles == old(textFiles)[filename := content] && jsonFiles == old(jsonFiles)
      ensures LoadText(filename) == content
    {
      textFiles := textFiles[filename := content];
    }

    /** update_json: at most five read-modify-write attempts; `env` says what another writer does
        during each attempt. */
    method UpdateJson(filename: string, f: Dict -> Result<Dict>, env: seq<Interference>) returns (r: Result<Dict>)
      modifies this
      ensures (r, jsonFiles) == UpdateSpec(old(jsonFiles), filename, f, env, 0)
      ensures textFiles == old(textFiles)
    {
      var attempt := 0;
      while attempt < MaxRetries
        invariant 0 <= attempt <= MaxRetries
        invariant UpdateSpec(old(jsonFiles), filename, f, env, 0) == UpdateSpec(jsonFiles, filename, f, env, attempt)
        invariant textFiles == old(textFiles)
        decreases MaxRetries - attempt
      {
        var current := LoadJson(filename);
        var version := Version(current);
        var upd := f(current);
        if upd.Err? {
          return Err(upd.error);
        }
        var next := BumpVersion(version);
        if next.Err? {
          return Err(next.error);
        }
        var updated := upd.value["version" := next.value];
        jsonFiles := Interfere(jsonFiles, filename, EnvAt(env, attempt));
        if filename !in jsonFiles {
          jsonFiles := jsonFiles[filename := updated];
          return Ok(updated);
        }
        var check := jsonFiles[filename];
        if !PyEq(Version(check), version) {
          if attempt < MaxRetries - 1 {
            attempt := attempt + 1;
            continue;
          }
          return Err(RuntimeError(ConflictMessage(filename)));
        }
        jsonFiles := jsonFiles[filename := updated];
        return Ok(updated);
      }
      return Err(RuntimeError("Failed to update " + filename));
    }

    /** get_status. */
    function GetStatus(): (d: Dict)
      reads this
      ensures "status.json" !in jsonFiles ==> d == map[]
    {
      LoadJson("status.json")
    }

    /** get_tasks. */
    function GetTasks(): (d: Dict)
      reads this
      ensures "tasks.json" !in jsonFiles ==> d == map[]
    {
      LoadJson("tasks.json")
    }

    /** update_status(**fields): the exception of update_json, if any, escapes. */
    method UpdateStatus(fields: Dict, now: string, env: seq<Interference>) returns (error: Option<PyError>)
      modifies this
      ensures var (r, after) := UpdateSpec(old(jsonFiles), "status.json", StatusUpdate(fields, now), env, 0);
        jsonFiles == after && error == (if r.Err? then Some(r.error) else None)
      ensures textFiles == old(textFiles)
    {
      var r := UpdateJson("status.json", StatusUpdate(fields, now), env);
      error := if r.Err? then Some(r.error) else None;
    }

    /** add_task: the id given to the task by the attempt that was stored, or the exception. */
    method AddTask(task: Dict, now: string, env: seq<Interference>) returns (r: Result<string>)
      modifies this
      ensures var (u, after) := UpdateSpec(old(jsonFiles), "tasks.json", AddTaskUpdate(task, now), env, 0);
        && jsonFiles == after
        && (u.Err? <==> r.Err?)
        && (r.Ok? ==> LastTaskId(u.value) == JStr(r.value) && StartsWith(r.value, "task_"))
      ensures textFiles == old(textFiles)
    {
      ghost var files := jsonFiles;
      var u := UpdateJson("tasks.json", AddTaskUpdate(task, now), env);
      if u.Err? {
        return Err(u.error);
      }
      UpdateStoresResult(files, "tasks.json", AddTaskUpdate(task, now), env, 0);
      StoredTaskId(task, now, LoadJsonFrom(Deciding(files, "tasks.json", AddTaskUpdate(task, now), env, 0).0, "tasks.json"), u.value);
      return Ok(LastTaskId(u.value).s);
    }

    /** get_plan. */
    function GetPlan(): (s: string)
      reads this
      ensures "plan.md" !in textFiles ==> s == ""
    {
      LoadText("plan.md")
    }

    /** save_plan. */
    method SavePlan(plan: string)
      modifies this
      ensures textFiles == old(textFiles)["plan.md" := plan] && jsonFiles == old(jsonFiles)
      ensures GetPlan() == plan
    {
      SaveText("plan.md", plan);
    }
  }
}

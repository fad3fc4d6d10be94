/** Task records as the planner and the state store exchange them: status and
    priority enumerations, the task result, the full task with its
    dict conversion and dict-like access, the tasks.json index and the
    status statistics. */
module TaskModels {
  import opened Common
  import opened Json

  // ---------------------------------------------------------------------------
  // Status

  datatype TaskStatus = Pending | InProgress | Completed | Failed

  /** TaskStatus.value. */
  function StatusValue(st: TaskStatus): string {
    match st
    case Pending => "pending"
    case InProgress => "in_progress"
    case Completed => "completed"
    case Failed => "failed"
  }

  /** TaskStatus(s): the member whose value is s, or ValueError. */
  function ParseStatus(s: string): (r: Result<TaskStatus>)
    ensures r.Ok? <==> s == "pending" || s == "in_progress" || s == "completed" || s == "failed"
    ensures r.Ok? ==> StatusValue(r.value) == s
    ensures r.Err? ==> r.error.ValueError?
  {
    if s == "pending" then Ok(Pending)
    else if s == "in_progress" then Ok(InProgress)
    else if s == "completed" then Ok(Completed)
    else if s == "failed" then Ok(Failed)
    else Err(ValueError("'" + s + "' is not a valid TaskStatus"))
  }

  lemma ParseStatusValue(st: TaskStatus)
    ensures ParseStatus(StatusValue(st)) == Ok(st)
  {
  }

  /** Task.__post_init__ on a status string: an unknown value becomes PENDING instead of raising. */
  function PostInitStatus(s: string): (st: TaskStatus)
    ensures ParseStatus(s).Ok? ==> st == ParseStatus(s).value
    ensures ParseStatus(s).Err? ==> st == Pending
  {
    match ParseStatus(s)
    case Ok(v) => v
    case Err(_) => Pending
  }

  // ---------------------------------------------------------------------------
  // Priority

  datatype TaskPriority = Low | Medium | High

  function PriorityValue(p: TaskPriority): string {
    match p
    case Low => "low"
    case Medium => "medium"
    case High => "high"
  }

  /** TaskPriority.from_string: the member named by the lower-cased string, MEDIUM when none is. */
  function PriorityFromString(s: string): (p: TaskPriority)
    ensures PriorityValue(p) == Lower(s) || (p == Medium && Lower(s) != "low" && Lower(s) != "high")
  {
    var v := Lower(s);
    if v == "low" then Low else if v == "high" then High else Medium
  }

  /** Lower-casing is the identity on the values themselves, so from_string inverts .value. */
  lemma PriorityValueRoundTrip(p: TaskPriority)
    ensures PriorityFromString(PriorityValue(p)) == p
  {
    var v := PriorityValue(p);
    assert Lower(v) == v by {
      forall i | 0 <= i < |v| ensures Lower(v)[i] == v[i] { }
    }
  }

  /** Any capitalisation of a value names the same member. */
  lemma PriorityFromStringIgnoresCase(s: string, p: TaskPriority)
    requires Lower(s) == PriorityValue(p)
    ensures PriorityFromString(s) == p
  {
  }

  /** TaskPriority.to_score. */
  function ToScore(p: TaskPriority): (n: int)
    ensures 1 <= n <= 3
  {
    match p
    case High => 3
    case Medium => 2
    case Low => 1
  }

  /** The score orders HIGH above MEDIUM above LOW and tells the priorities apart. */
  lemma ScoreOrder(p: TaskPriority, q: TaskPriority)
    ensures ToScore(High) > ToScore(Medium) > ToScore(Low)
    ensures ToScore(p) == ToScore(q) <==> p == q
  {
  }

  // ---------------------------------------------------------------------------
  // TaskResult

  datatype TaskResult = TaskResult(report: string, success: bool, errorMessage: Option<string>)

  /** Python's truthiness of an Optional[str]. */
  predicate Present(o: Option<string>) { o.Some? && o.value != "" }

  /** What a round trip keeps of an Optional[str]: the empty string is dropped and reads back as None. */
  function NormalizeOpt(o: Option<string>): (n: Option<string>)
    ensures n.Some? <==> Present(o)
    ensures Present(o) ==> n == o
  {
    if Present(o) then o else None
  }

  /** TaskResult.to_dict: report always, success only when False, error_message only when non-empty. */
  function ResultToDict(r: TaskResult): Dict {
    var d := map["report" := JStr(r.report)];
    var d := if !r.success then d["success" := JBool(r.success)] else d;
    if Present(r.errorMessage) then d["error_message" := JStr(r.errorMessage.value)] else d
  }

  /** The shape TaskResult.from_dict relies on for the keys it reads. */
  predicate ResultDictTyped(d: Dict) {
    && ("report" in d ==> d["report"].JStr?)
    && ("success" in d ==> d["success"].JBool?)
    && OptStrAt(d, "error_message")
  }

  /** TaskResult.from_dict. */
  function ResultFromDict(d: Dict): (r: TaskResult)
    requires ResultDictTyped(d)
    ensures "report" !in d ==> r.report == ""
    ensures "success" !in d ==> r.success
  {
    TaskResult(Get(d, "report", JStr("")).s, Get(d, "success", JBool(true)).b, GetOptStr(d, "error_message"))
  }

  function NormalizeResult(r: TaskResult): TaskResult {
    r.(errorMessage := NormalizeOpt(r.errorMessage))
  }

  /** from_dict(to_dict(r)) gives r back, except that an empty error message reads back as None. */
  lemma ResultRoundTrip(r: TaskResult)
    ensures ResultDictTyped(ResultToDict(r))
    ensures ResultFromDict(ResultToDict(r)) == NormalizeResult(r)
    ensures "success" in ResultToDict(r) <==> !r.success
    ensures Truthy(JObj(ResultToDict(r)))
  {
    assert "report" in ResultToDict(r);
  }

  // ---------------------------------------------------------------------------
  // Task

  /** A Task after __post_init__: priority and status are members, created_at is set. */
  datatype Task = Task(
    id: string,
    title: string,
    description: string,
    priority: TaskPriority,
    status: TaskStatus,
    createdAt: string,
    updatedAt: Option<string>,
    startedAt: Option<string>,
    completedAt: Option<string>,
    failedAt: Option<string>,
    assignedTo: Option<string>,
    result: Option<TaskResult>,
    resultFile: Option<string>,
    error: Option<string>,
    files: seq<string>,
    dependencies: seq<string>,
    estimatedHours: real,
    recoveredAt: Option<string>,
    recoveryReason: Option<string>)

  /** Task(id, title, ...) with string priority and status: __post_init__ parses them and stamps created_at. */
  function NewTask(id: string, title: string, priority: string, status: string, createdAt: Option<string>, now: string): (t: Task)
    ensures t.priority == PriorityFromString(priority) && t.status == PostInitStatus(status)
    ensures t.createdAt == if createdAt.Some? then createdAt.value else now
    ensures t.files == [] && t.dependencies == [] && t.result.None? && t.estimatedHours == 0.0
  {
    Task(id, title, "", PriorityFromString(priority), PostInitStatus(status),
      if createdAt.Some? then createdAt.value else now,
      None, None, None, None, None, None, None, None, [], [], 0.0, None, None)
  }

  /** The dataclass fields of Task, by their Python names. */
  const TaskFields: set<string> := {
    "id", "title", "description", "priority", "status", "created_at", "updated_at",
    "started_at", "completed_at", "failed_at", "assigned_to", "result", "result_file",
    "error", "files", "dependencies", "estimated_hours", "recovered_at", "recovery_reason" }

  /** The keys to_dict always writes. */
  const MandatoryFields: set<string> := { "id", "title", "description", "priority", "status", "created_at" }

  /** The JSON rendering of one field: enum members by value, the result by its to_dict, None as null. */
  function FieldValue(t: Task, key: string): Value
    requires key in TaskFields
  {
    if key == "id" then JStr(t.id)
    else if key == "title" then JStr(t.title)
    else if key == "description" then JStr(t.description)
    else if key == "priority" then JStr(PriorityValue(t.priority))
    else if key == "status" then JStr(StatusValue(t.status))
    else if key == "created_at" then JStr(t.createdAt)
    else if key == "updated_at" then OptStr(t.updatedAt)
    else if key == "started_at" then OptStr(t.startedAt)
    else if key == "completed_at" then OptStr(t.completedAt)
    else if key == "failed_at" then OptStr(t.failedAt)
    else if key == "assigned_to" then OptStr(t.assignedTo)
    else if key == "result" then (if t.result.Some? then JObj(ResultToDict(t.result.value)) else JNull)
    else if key == "result_file" then OptStr(t.resultFile)
    else if key == "error" then OptStr(t.error)
    else if key == "files" then StrList(t.files)
    else if key == "dependencies" then StrList(t.dependencies)
    else if key == "estimated_hours" then JFloat(t.estimatedHours)
    else if key == "recovered_at" then OptStr(t.recoveredAt)
    else OptStr(t.recoveryReason)
  }

  /** Task.to_dict: the mandatory fields, and each other field only when its value is truthy. */
  function ToDict(t: Task): Dict {
    map k | k in TaskFields && (k in MandatoryFields || Truthy(FieldValue(t, k))) :: FieldValue(t, k)
  }

  /** The shape Task.from_dict relies on: every field it reads holds a value of the field's type
      (or a falsy value, for result). */
  predicate TaskDictTyped(d: Dict) {
    TaskStringsTyped(d) && TaskCollectionsTyped(d)
  }

  predicate TaskStringsTyped(d: Dict) {
    && ("id" in d ==> d["id"].JStr?)
    && ("title" in d ==> d["title"].JStr?)
    && ("description" in d ==> d["description"].JStr?)
    && OptStrAt(d, "created_at") && OptStrAt(d, "updated_at") && OptStrAt(d, "started_at")
    && OptStrAt(d, "completed_at") && OptStrAt(d, "failed_at") && OptStrAt(d, "assigned_to")
    && OptStrAt(d, "result_file") && OptStrAt(d, "error")
    && OptStrAt(d, "recovered_at") && OptStrAt(d, "recovery_reason")
  }

  predicate TaskCollectionsTyped(d: Dict) {
    && ("result" in d && Truthy(d["result"]) ==> d["result"].JObj? && ResultDictTyped(d["result"].fields))
    && ("files" in d ==> IsStrList(d["files"]))
    && ("dependencies" in d ==> IsStrList(d["dependencies"]))
    && ("estimated_hours" in d ==> d["estimated_hours"].JInt? || d["estimated_hours"].JFloat?)
  }

  /** TaskPriority.from_string(data.get("priority", "medium")): a non-string has no lower(). */
  function PriorityFromValue(v: Value): (r: Result<TaskPriority>)
    ensures r.Ok? <==> v.JStr?
    ensures r.Ok? ==> r.value == PriorityFromString(v.s)
  {
    if v.JStr? then Ok(PriorityFromString(v.s)) else Err(AttributeError("lower"))
  }

  /** TaskStatus(data.get("status", "pending")): anything but one of the four values raises. */
  function StatusFromValue(v: Value): (r: Result<TaskStatus>)
    ensures r.Ok? <==> v.JStr? && (v.s == "pending" || v.s == "in_progress" || v.s == "completed" || v.s == "failed")
    ensures r.Ok? ==> StatusValue(r.value) == v.s
    ensures r.Err? ==> r.error.ValueError?
  {
    if v.JStr? then ParseStatus(v.s) else Err(ValueError("not a valid TaskStatus"))
  }

  function HoursFromValue(v: Value): real
    requires v.JInt? || v.JFloat?
  {
    if v.JInt? then v.i as real else v.r
  }

  /** Task.from_dict; `now` is the timestamp __post_init__ gives a task without created_at.
      The priority is converted before the status, so its error is the one raised. */
  function FromDict(d: Dict, now: string): (r: Result<Task>)
    requires TaskDictTyped(d)
    ensures r.Ok? ==> r.value.id == Get(d, "id", JStr("")).s && r.value.title == Get(d, "title", JStr("No title")).s
    ensures r.Err? <==> PriorityFromValue(Get(d, "priority", JStr("medium"))).Err?
                        || StatusFromValue(Get(d, "status", JStr("pending"))).Err?
  {
    var resultData := Get(d, "result", JNull);
    var result := if Truthy(resultData) then Some(ResultFromDict(resultData.fields)) else None;
    var createdAt := GetOptStr(d, "created_at");
    match PriorityFromValue(Get(d, "priority", JStr("medium")))
    case Err(e) => Err(e)
    case Ok(priority) =>
      match StatusFromValue(Get(d, "status", JStr("pending")))
      case Err(e) => Err(e)
      case Ok(status) =>
        Ok(Task(
          Get(d, "id", JStr("")).s,
          Get(d, "title", JStr("No title")).s,
          Get(d, "description", JStr("")).s,
          priority,
          status,
          if createdAt.Some? then createdAt.value else now,
          GetOptStr(d, "updated_at"),
          GetOptStr(d, "started_at"),
          GetOptStr(d, "completed_at"),
          GetOptStr(d, "failed_at"),
          GetOptStr(d, "assigned_to"),
          result,
          GetOptStr(d, "result_file"),
          GetOptStr(d, "error"),
          if "files" in d then AsStrList(d["files"]) else [],
          if "dependencies" in d then AsStrList(d["dependencies"]) else [],
          if "estimated_hours" in d then HoursFromValue(d["estimated_hours"]) else 0.0,
          GetOptStr(d, "recovered_at"),
          GetOptStr(d, "recovery_reason")))
  }

  /** What survives a to_dict/from_dict round trip: empty optional strings read back as None. */
  function Normalize(t: Task): Task {
    t.(updatedAt := NormalizeOpt(t.updatedAt), startedAt := NormalizeOpt(t.startedAt),
       completedAt := NormalizeOpt(t.completedAt), failedAt := NormalizeOpt(t.failedAt),
       assignedTo := NormalizeOpt(t.assignedTo),
       result := if t.result.Some? then Some(NormalizeResult(t.result.value)) else None,
       resultFile := NormalizeOpt(t.resultFile), error := NormalizeOpt(t.error),
       recoveredAt := NormalizeOpt(t.recoveredAt), recoveryReason := NormalizeOpt(t.recoveryReason))
  }

  /** to_dict writes the six mandatory keys and, beside them, exactly the fields whose values are truthy. */
  lemma ToDictKeys(t: Task)
    ensures MandatoryFields <= ToDict(t).Keys <= TaskFields
    ensures "updated_at" in ToDict(t) <==> Present(t.updatedAt)
    ensures "result" in ToDict(t) <==> t.result.Some?
    ensures "files" in ToDict(t) <==> t.files != []
    ensures "estimated_hours" in ToDict(t) <==> t.estimatedHours != 0.0
  {
    assert MandatoryFields <= ToDict(t).Keys <= TaskFields by { ToDictMandatory(t); }
    assert "updated_at" in ToDict(t) <==> Present(t.updatedAt) by { UpdatedAtKey(t); }
    assert "result" in ToDict(t) <==> t.result.Some? by { ToDictResult(t); }
    assert "files" in ToDict(t) <==> t.files != [] by { ToDictFiles(t); }
    assert "estimated_hours" in ToDict(t) <==> t.estimatedHours != 0.0 by { ToDictLists(t); }
  }

  lemma UpdatedAtKey(t: Task)
    ensures "updated_at" in ToDict(t) <==> Present(t.updatedAt)
  {
    FieldUpdatedAt(t);
    ToDictAt(t, "updated_at");
  }

  lemma FieldUpdatedAt(t: Task)
    ensures "updated_at" in TaskFields - MandatoryFields && FieldValue(t, "updated_at") == OptStr(t.updatedAt)
  {
  }

  lemma ToDictMandatory(t: Task)
    ensures MandatoryFields <= ToDict(t).Keys <= TaskFields
    ensures ToDict(t)["id"] == JStr(t.id) && ToDict(t)["title"] == JStr(t.title)
    ensures ToDict(t)["description"] == JStr(t.description)
    ensures ToDict(t)["priority"] == JStr(PriorityValue(t.priority))
    ensures ToDict(t)["status"] == JStr(StatusValue(t.status))
    ensures ToDict(t)["created_at"] == JStr(t.createdAt)
  {
  }

  lemma ToDictCollections(t: Task)
    ensures "result" in ToDict(t) <==> t.result.Some?
    ensures t.result.Some? ==> ToDict(t)["result"] == JObj(ResultToDict(t.result.value))
    ensures "files" in ToDict(t) <==> t.files != []
    ensures "files" in ToDict(t) ==> ToDict(t)["files"] == StrList(t.files)
  {
    ToDictResult(t);
    ToDictFiles(t);
  }

  lemma ToDictResult(t: Task)
    ensures "result" in ToDict(t) <==> t.result.Some?
    ensures t.result.Some? ==> ToDict(t)["result"] == JObj(ResultToDict(t.result.value))
  {
    FieldResult(t);
    ToDictAt(t, "result");
    if t.result.Some? {
      assert "report" in ResultToDict(t.result.value);
    }
  }

  lemma ToDictFiles(t: Task)
    ensures "files" in ToDict(t) <==> t.files != []
    ensures "files" in ToDict(t) ==> ToDict(t)["files"] == StrList(t.files)
  {
    FieldFiles(t);
    ToDictAt(t, "files");
  }

  lemma ToDictLists(t: Task)
    ensures "dependencies" in ToDict(t) <==> t.dependencies != []
    ensures "dependencies" in ToDict(t) ==> ToDict(t)["dependencies"] == StrList(t.dependencies)
    ensures "estimated_hours" in ToDict(t) <==> t.estimatedHours != 0.0
    ensures "estimated_hours" in ToDict(t) ==> ToDict(t)["estimated_hours"] == JFloat(t.estimatedHours)
  {
    FieldLists(t);
    ToDictAt(t, "dependencies");
    ToDictAt(t, "estimated_hours");
  }

  /** A field is in to_dict's output when mandatory or truthy, and then holds its rendering. */
  lemma ToDictAt(t: Task, key: string)
    requires key in TaskFields
    ensures key in ToDict(t) <==> key in MandatoryFields || Truthy(FieldValue(t, key))
    ensures key in ToDict(t) ==> ToDict(t)[key] == FieldValue(t, key)
  {
  }

  lemma FieldResult(t: Task)
    ensures "result" in TaskFields - MandatoryFields
    ensures FieldValue(t, "result") == if t.result.Some? then JObj(ResultToDict(t.result.value)) else JNull
  {
  }

  lemma FieldFiles(t: Task)
    ensures "files" in TaskFields - MandatoryFields && FieldValue(t, "files") == StrList(t.files)
  {
  }

  lemma FieldLists(t: Task)
    ensures "dependencies" in TaskFields - MandatoryFields
    ensures FieldValue(t, "dependencies") == StrList(t.dependencies)
    ensures "estimated_hours" in TaskFields - MandatoryFields
    ensures FieldValue(t, "estimated_hours") == JFloat(t.estimatedHours)
  {
  }

  /** The optional string `o` written under `key` reads back as `o`, an empty string as None. */
  predicate OptStrBack(d: Dict, key: string, o: Option<string>) {
    OptStrAt(d, key) && GetOptStr(d, key) == NormalizeOpt(o)
  }

  lemma OptStrRoundTrip(t: Task, key: string, o: Option<string>)
    requires key in TaskFields - MandatoryFields && FieldValue(t, key) == OptStr(o)
    ensures OptStrBack(ToDict(t), key, o)
  {
  }

  lemma UpdatedAtBack(t: Task)
    ensures OptStrBack(ToDict(t), "updated_at", t.updatedAt)
  {
    OptStrRoundTrip(t, "updated_at", t.updatedAt);
  }

  lemma StartedAtBack(t: Task)
    ensures OptStrBack(ToDict(t), "started_at", t.startedAt)
  {
    OptStrRoundTrip(t, "started_at", t.startedAt);
  }

  lemma CompletedAtBack(t: Task)
    ensures OptStrBack(ToDict(t), "completed_at", t.completedAt)
  {
    OptStrRoundTrip(t, "completed_at", t.completedAt);
  }

  lemma FailedAtBack(t: Task)
    ensures OptStrBack(ToDict(t), "failed_at", t.failedAt)
  {
    OptStrRoundTrip(t, "failed_at", t.failedAt);
  }

  lemma AssignedToBack(t: Task)
    ensures OptStrBack(ToDict(t), "assigned_to", t.assignedTo)
  {
    OptStrRoundTrip(t, "assigned_to", t.assignedTo);
  }

  lemma ResultFileBack(t: Task)
    ensures OptStrBack(ToDict(t), "result_file", t.resultFile)
  {
    OptStrRoundTrip(t, "result_file", t.resultFile);
  }

  lemma ErrorBack(t: Task)
    ensures OptStrBack(ToDict(t), "error", t.error)
  {
    OptStrRoundTrip(t, "error", t.error);
  }

  lemma RecoveredAtBack(t: Task)
    ensures OptStrBack(ToDict(t), "recovered_at", t.recoveredAt)
  {
    OptStrRoundTrip(t, "recovered_at", t.recoveredAt);
  }

  lemma RecoveryReasonBack(t: Task)
    ensures OptStrBack(ToDict(t), "recovery_reason", t.recoveryReason)
  {
    OptStrRoundTrip(t, "recovery_reason", t.recoveryReason);
  }

  lemma OptStrsRoundTripA(t: Task)
    ensures OptStrBack(ToDict(t), "updated_at", t.updatedAt)
    ensures OptStrBack(ToDict(t), "started_at", t.startedAt)
    ensures OptStrBack(ToDict(t), "completed_at", t.completedAt)
  {
    UpdatedAtBack(t);
    StartedAtBack(t);
    CompletedAtBack(t);
  }

  lemma OptStrsRoundTripB(t: Task)
    ensures OptStrBack(ToDict(t), "failed_at", t.failedAt)
    ensures OptStrBack(ToDict(t), "assigned_to", t.assignedTo)
    ensures OptStrBack(ToDict(t), "result_file", t.resultFile)
  {
    FailedAtBack(t);
    AssignedToBack(t);
    ResultFileBack(t);
  }

  lemma OptStrsRoundTripC(t: Task)
    ensures OptStrBack(ToDict(t), "error", t.error)
    ensures OptStrBack(ToDict(t), "recovered_at", t.recoveredAt)
    ensures OptStrBack(ToDict(t), "recovery_reason", t.recoveryReason)
  {
    ErrorBack(t);
    RecoveredAtBack(t);
    RecoveryReasonBack(t);
  }

  lemma ToDictTyped(t: Task)
    ensures TaskDictTyped(ToDict(t))
  {
    ToDictStringsTyped(t);
    ToDictCollectionsTyped(t);
  }

  lemma ToDictStringsTyped(t: Task)
    ensures TaskStringsTyped(ToDict(t))
  {
    ToDictMandatory(t);
    OptStrsRoundTripA(t);
    OptStrsRoundTripB(t);
    OptStrsRoundTripC(t);
  }

  lemma ToDictCollectionsTyped(t: Task)
    ensures TaskCollectionsTyped(ToDict(t))
  {
    ToDictCollections(t);
    ToDictLists(t);
    if t.result.Some? {
      ResultRoundTrip(t.result.value);
    }
    StrListRoundTrip(t.files);
    StrListRoundTrip(t.dependencies);
  }

  /** from_dict(to_dict(t)) == t up to the normalisation of empty optional strings, whatever the clock says. */
  lemma RoundTrip(t: Task, now: string)
    ensures TaskDictTyped(ToDict(t))
    ensures FromDict(ToDict(t), now) == Ok(Normalize(t))
  {
    ToDictTyped(t);
    RoundTripHead(t, now);
    RoundTripOptional(t, now);
    RoundTripCollections(t, now);
  }

  /** The mandatory fields come back unchanged, so from_dict succeeds. */
  lemma RoundTripHead(t: Task, now: string)
    ensures TaskDictTyped(ToDict(t))
    ensures var r := FromDict(ToDict(t), now);
      && r.Ok? && r.value.id == t.id && r.value.title == t.title && r.value.description == t.description
      && r.value.priority == t.priority && r.value.status == t.status && r.value.createdAt == t.createdAt
  {
    ToDictTyped(t);
    ToDictMandatory(t);
    PriorityValueRoundTrip(t.priority);
    ParseStatusValue(t.status);
    assert GetOptStr(ToDict(t), "created_at") == Some(t.createdAt);
  }

  /** Each optional string comes back, an empty one as None. */
  lemma RoundTripOptional(t: Task, now: string)
    requires TaskDictTyped(ToDict(t)) && FromDict(ToDict(t), now).Ok?
    ensures var r := FromDict(ToDict(t), now).value;
      && r.updatedAt == NormalizeOpt(t.updatedAt) && r.startedAt == NormalizeOpt(t.startedAt)
      && r.completedAt == NormalizeOpt(t.completedAt) && r.failedAt == NormalizeOpt(t.failedAt)
      && r.assignedTo == NormalizeOpt(t.assignedTo) && r.resultFile == NormalizeOpt(t.resultFile)
      && r.error == NormalizeOpt(t.error) && r.recoveredAt == NormalizeOpt(t.recoveredAt)
      && r.recoveryReason == NormalizeOpt(t.recoveryReason)
  {
    OptStrsRoundTripA(t);
    OptStrsRoundTripB(t);
    OptStrsRoundTripC(t);
  }

  /** The result, the two lists and the estimate come back. */
  lemma RoundTripCollections(t: Task, now: string)
    requires TaskDictTyped(ToDict(t)) && FromDict(ToDict(t), now).Ok?
    ensures var r := FromDict(ToDict(t), now).value;
      && r.result == Normalize(t).result && r.files == t.files && r.dependencies == t.dependencies
      && r.estimatedHours == t.estimatedHours
  {
    RoundTripResult(t, now);
    RoundTripFiles(t, now);
    RoundTripLists(t, now);
  }

  lemma RoundTripResult(t: Task, now: string)
    requires TaskDictTyped(ToDict(t)) && FromDict(ToDict(t), now).Ok?
    ensures FromDict(ToDict(t), now).value.result == Normalize(t).result
  {
    ToDictResult(t);
    ResultReadBack(ToDict(t), t, now);
  }

  /** A dict holding t's result the way to_dict writes it gives that result back. */
  lemma ResultReadBack(d: Dict, t: Task, now: string)
    requires TaskDictTyped(d) && FromDict(d, now).Ok?
    requires "result" in d <==> t.result.Some?
    requires t.result.Some? ==> d["result"] == JObj(ResultToDict(t.result.value))
    ensures FromDict(d, now).value.result == Normalize(t).result
  {
    FromDictResult(d, now);
    if t.result.Some? {
      ResultRoundTrip(t.result.value);
    }
  }

  /** The result from_dict builds: TaskResult.from_dict of a truthy "result", None otherwise. */
  lemma FromDictResult(d: Dict, now: string)
    requires TaskDictTyped(d) && FromDict(d, now).Ok?
    ensures var v := Get(d, "result", JNull);
      FromDict(d, now).value.result == if Truthy(v) then Some(ResultFromDict(v.fields)) else None
  {
  }

  lemma RoundTripFiles(t: Task, now: string)
    requires TaskDictTyped(ToDict(t)) && FromDict(ToDict(t), now).Ok?
    ensures FromDict(ToDict(t), now).value.files == t.files
  {
    ToDictFiles(t);
    StrListRoundTrip(t.files);
  }

  lemma RoundTripLists(t: Task, now: string)
    requires TaskDictTyped(ToDict(t)) && FromDict(ToDict(t), now).Ok?
    ensures FromDict(ToDict(t), now).value.dependencies == t.dependencies
    ensures FromDict(ToDict(t), now).value.estimatedHours == t.estimatedHours
  {
    ToDictLists(t);
    StrListRoundTrip(t.dependencies);
  }

  // ---------------------------------------------------------------------------
  // Dict-like access (the utils copy of Task)

  /** Task.get(key, default): a field's rendering, or the default for a name that is not a field. */
  function GetAttr(t: Task, key: string, default: Value): (v: Value)
    ensures key !in TaskFields ==> v == default
    ensures key in ToDict(t) ==> v == ToDict(t)[key]
    ensures key in TaskFields && key !in ToDict(t) ==> !Truthy(v)
  {
    if key in TaskFields then FieldValue(t, key) else default
  }

  /** task[key]: KeyError exactly when key is not a field; a None field reads as null. */
  function GetItem(t: Task, key: string): (r: Result<Value>)
    ensures r.Err? <==> key !in TaskFields
    ensures r.Err? ==> r.error == KeyError(key)
    ensures r.Ok? ==> r.value == GetAttr(t, key, JNull)
  {
    var v := GetAttr(t, key, JNull);
    if v == JNull && key !in TaskFields then Err(KeyError(key)) else Ok(v)
  }

  /** key in task: the field exists and is not None. */
  predicate Contains(t: Task, key: string) {
    key in TaskFields && FieldValue(t, key) != JNull
  }

  /** `key in task` holds exactly when task[key] succeeds with a non-null value, and every
      key that to_dict writes is in the task. */
  lemma ContainsIffGetItem(t: Task, key: string)
    ensures Contains(t, key) <==> GetItem(t, key).Ok? && GetItem(t, key).value != JNull
    ensures key in ToDict(t) ==> Contains(t, key)
  {
    if key in ToDict(t) && key !in MandatoryFields {
      assert Truthy(FieldValue(t, key));
    }
  }

  // ---------------------------------------------------------------------------
  // TaskIndex and TasksFile

  datatype TaskIndex = TaskIndex(id: string, title: string, priority: TaskPriority, createdAt: string)

  function IndexToDict(x: TaskIndex): Dict {
    map["id" := JStr(x.id), "title" := JStr(x.title), "priority" := JStr(PriorityValue(x.priority)),
        "created_at" := JStr(x.createdAt)]
  }

  predicate IndexDictTyped(d: Dict) {
    && ("id" in d ==> d["id"].JStr?)
    && ("title" in d ==> d["title"].JStr?)
    && OptStrAt(d, "created_at")
  }

  /** TaskIndex.from_dict; `now` stamps an entry without created_at. */
  function IndexFromDict(d: Dict, now: string): (r: Result<TaskIndex>)
    requires IndexDictTyped(d)
    ensures r.Ok? <==> Get(d, "priority", JStr("medium")).JStr?
    ensures r.Ok? && "created_at" !in d ==> r.value.createdAt == now
  {
    match PriorityFromValue(Get(d, "priority", JStr("medium")))
    case Err(e) => Err(e)
    case Ok(p) =>
      var c := GetOptStr(d, "created_at");
      Ok(TaskIndex(Get(d, "id", JStr("")).s, Get(d, "title", JStr("No title")).s, p,
                   if c.Some? then c.value else now))
  }

  lemma IndexRoundTrip(x: TaskIndex, now: string)
    ensures IndexDictTyped(IndexToDict(x)) && IndexFromDict(IndexToDict(x), now) == Ok(x)
  {
    PriorityValueRoundTrip(x.priority);
  }

  datatype TasksFile = TasksFile(tasks: seq<TaskIndex>, nextTaskId: int, version: int)

  function IndexesToValues(xs: seq<TaskIndex>): (vs: seq<Value>)
    ensures |vs| == |xs|
  {
    if xs == [] then [] else [JObj(IndexToDict(xs[0]))] + IndexesToValues(xs[1..])
  }

  function TasksFileToDict(f: TasksFile): Dict {
    map["tasks" := JArr(IndexesToValues(f.tasks)), "next_task_id" := JInt(f.nextTaskId),
        "version" := JInt(f.version)]
  }

  predicate IndexValuesTyped(vs: seq<Value>) {
    forall i | 0 <= i < |vs| :: vs[i].JObj? && IndexDictTyped(vs[i].fields)
  }

  predicate TasksFileDictTyped(d: Dict) {
    && ("tasks" in d ==> d["tasks"].JArr? && IndexValuesTyped(d["tasks"].items))
    && ("next_task_id" in d ==> d["next_task_id"].JInt?)
    && ("version" in d ==> d["version"].JInt?)
  }

  /** [TaskIndex.from_dict(t) for t in tasks_data]: the first failing entry's error propagates. */
  function IndexesFromValues(vs: seq<Value>, now: string): (r: Result<seq<TaskIndex>>)
    requires IndexValuesTyped(vs)
    ensures r.Ok? ==> |r.value| == |vs|
  {
    if vs == [] then Ok([])
    else match IndexFromDict(vs[0].fields, now)
      case Err(e) => Err(e)
      case Ok(x) =>
        match IndexesFromValues(vs[1..], now)
        case Err(e) => Err(e)
        case Ok(rest) => Ok([x] + rest)
  }

  /** TasksFile.from_dict: next_task_id defaults to 1 and version to 0. */
  function TasksFileFromDict(d: Dict, now: string): (r: Result<TasksFile>)
    requires TasksFileDictTyped(d)
    ensures r.Ok? && "next_task_id" !in d ==> r.value.nextTaskId == 1
    ensures r.Ok? && "version" !in d ==> r.value.version == 0
    ensures "tasks" !in d ==> r.Ok? && r.value.tasks == []
  {
    var vs := if "tasks" in d then d["tasks"].items else [];
    match IndexesFromValues(vs, now)
    case Err(e) => Err(e)
    case Ok(tasks) => Ok(TasksFile(tasks, Get(d, "next_task_id", JInt(1)).i, Get(d, "version", JInt(0)).i))
  }

  lemma {:induction false} IndexesTyped(xs: seq<TaskIndex>)
    ensures IndexValuesTyped(IndexesToValues(xs))
  {
    if xs != [] {
      IndexRoundTrip(xs[0], "");
      IndexesTyped(xs[1..]);
      var vs := IndexesToValues(xs);
      assert vs == [JObj(IndexToDict(xs[0]))] + IndexesToValues(xs[1..]);
      forall i | 0 <= i < |vs|
        ensures vs[i].JObj? && IndexDictTyped(vs[i].fields)
      {
        if i > 0 {
          assert vs[i] == IndexesToValues(xs[1..])[i - 1];
        }
      }
    }
  }

  lemma {:induction false} IndexesRoundTrip(xs: seq<TaskIndex>, now: string)
    ensures IndexValuesTyped(IndexesToValues(xs))
    ensures IndexesFromValues(IndexesToValues(xs), now) == Ok(xs)
  {
    IndexesTyped(xs);
    if xs != [] {
      var vs := IndexesToValues(xs);
      IndexRoundTrip(xs[0], now);
      IndexesRoundTrip(xs[1..], now);
      assert vs[0].fields == IndexToDict(xs[0]);
      assert vs[1..] == IndexesToValues(xs[1..]);
      assert [xs[0]] + xs[1..] == xs;
    }
  }

  /** TasksFile round-trips through to_dict/from_dict. */
  lemma TasksFileRoundTrip(f: TasksFile, now: string)
    ensures TasksFileDictTyped(TasksFileToDict(f))
    ensures TasksFileFromDict(TasksFileToDict(f), now) == Ok(f)
  {
    IndexesRoundTrip(f.tasks, now);
  }

  /** TasksFile.get_task_index: the position of the first entry with the id. */
  function FindIndex(tasks: seq<TaskIndex>, taskId: string): (r: Option<nat>)
    ensures r.Some? ==> r.value < |tasks| && tasks[r.value].id == taskId
    ensures r.Some? ==> forall j | 0 <= j < r.value :: tasks[j].id != taskId
    ensures r.None? ==> forall j | 0 <= j < |tasks| :: tasks[j].id != taskId
  {
    if tasks == [] then None
    else if tasks[0].id == taskId then Some(0)
    else match FindIndex(tasks[1..], taskId)
      case None => None
      case Some(i) => Some(i + 1)
  }

  function GetTaskIndex(f: TasksFile, taskId: string): Option<TaskIndex> {
    match FindIndex(f.tasks, taskId)
    case None => None
    case Some(i) => Some(f.tasks[i])
  }

  /** TasksFile.has_task: any entry carries the id. */
  predicate HasTask(f: TasksFile, taskId: string) {
    exists i | 0 <= i < |f.tasks| :: f.tasks[i].id == taskId
  }

  /** has_task agrees with get_task_index, which returns the first entry with the id. */
  lemma HasTaskIffIndexed(f: TasksFile, taskId: string)
    ensures HasTask(f, taskId) <==> GetTaskIndex(f, taskId).Some?
    ensures GetTaskIndex(f, taskId).Some? ==> exists i | 0 <= i < |f.tasks| ::
              f.tasks[i] == GetTaskIndex(f, taskId).value && forall j | 0 <= j < i :: f.tasks[j].id != taskId
  {
    var r := FindIndex(f.tasks, taskId);
    if r.Some? {
      assert f.tasks[r.value].id == taskId;
    }
  }

  // ---------------------------------------------------------------------------
  // Statistics

  datatype TaskStatistics = TaskStatistics(total: int, completed: int, failed: int, pending: int, inProgress: int)

  /** len([t for t in tasks if t.status == st]). */
  function CountStatus(tasks: seq<Task>, st: TaskStatus): (n: nat)
    ensures n <= |tasks|
  {
    if tasks == [] then 0 else (if tasks[0].status == st then 1 else 0) + CountStatus(tasks[1..], st)
  }

  /** TaskStatistics.from_tasks. */
  function FromTasks(tasks: seq<Task>): TaskStatistics {
    TaskStatistics(|tasks|, CountStatus(tasks, Completed), CountStatus(tasks, Failed),
                   CountStatus(tasks, Pending), CountStatus(tasks, InProgress))
  }

  /** Every task has exactly one of the four statuses, so the per-status counts add up to the total. */
  lemma {:induction false} StatisticsSum(tasks: seq<Task>)
    ensures var s := FromTasks(tasks); s.completed + s.failed + s.pending + s.inProgress == s.total
  {
    if tasks != [] {
      StatisticsSum(tasks[1..]);
    }
  }

  /** Appending one task raises the total and its status's count by one and no other count. */
  lemma {:induction false} StatisticsAppend(tasks: seq<Task>, t: Task, st: TaskStatus)
    ensures CountStatus(tasks + [t], st) == CountStatus(tasks, st) + (if t.status == st then 1 else 0)
  {
    if tasks == [] {
      assert tasks + [t] == [t];
    } else {
      assert (tasks + [t])[1..] == tasks[1..] + [t];
      StatisticsAppend(tasks[1..], t, st);
    }
  }

  function StatisticsToDict(s: TaskStatistics): Dict {
    map["total" := JInt(s.total), "completed" := JInt(s.completed), "failed" := JInt(s.failed),
        "pending" := JInt(s.pending), "in_progress" := JInt(s.inProgress)]
  }

  predicate StatisticsDictTyped(d: Dict) {
    forall k | k in d && k in {"total", "completed", "failed", "pending", "in_progress"} :: d[k].JInt?
  }

  /** TaskStatistics.from_dict: a present count is taken as it is, and every missing count is 0. */
  function StatisticsFromDict(d: Dict): (s: TaskStatistics)
    requires StatisticsDictTyped(d)
    ensures "total" in d ==> JInt(s.total) == d["total"]
    ensures "completed" in d ==> JInt(s.completed) == d["completed"]
    ensures "failed" in d ==> JInt(s.failed) == d["failed"]
    ensures "pending" in d ==> JInt(s.pending) == d["pending"]
    ensures "in_progress" in d ==> JInt(s.inProgress) == d["in_progress"]
    ensures "total" !in d ==> s.total == 0
    ensures "completed" !in d ==> s.completed == 0
    ensures "failed" !in d ==> s.failed == 0
    ensures "pending" !in d ==> s.pending == 0
    ensures "in_progress" !in d ==> s.inProgress == 0
  {
    TaskStatistics(Get(d, "total", JInt(0)).i, Get(d, "completed", JInt(0)).i, Get(d, "failed", JInt(0)).i,
                   Get(d, "pending", JInt(0)).i, Get(d, "in_progress", JInt(0)).i)
  }

  lemma StatisticsRoundTrip(s: TaskStatistics)
    ensures StatisticsDictTyped(StatisticsToDict(s)) && StatisticsFromDict(StatisticsToDict(s)) == s
  {
  }
}

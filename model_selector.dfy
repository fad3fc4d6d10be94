/** Model tier selection: a complexity score computed from a task dict, and a threshold
    classification of that score into a light, standard or powerful model. */
module ModelSelector {
  import opened Common
  import opened Json

  /** The configuration a ModelSelector is built with; it is never changed afterwards.
      A model name of None stands for Python's None. */
  datatype Selector = Selector(
    enabled: bool,
    thresholdLight: real,
    thresholdPowerful: real,
    modelLight: Option<string>,
    modelStandard: Option<string>,
    modelPowerful: Option<string>,
    modelDefault: Option<string>)

  /** ModelSelector() with every argument left at its default. */
  function DefaultSelector(): (s: Selector)
    ensures !s.enabled && s.thresholdLight < s.thresholdPowerful
  {
    Selector(false, 10.0, 30.0, None, None, None, None)
  }

  datatype Category = Light | Standard | Powerful | Default

  /** The category names get_complexity_category returns. */
  function CategoryName(c: Category): (name: string)
    ensures name in {"light", "standard", "powerful", "default"}
  {
    match c
    case Light => "light"
    case Standard => "standard"
    case Powerful => "powerful"
    case Default => "default"
  }

  // ---------------------------------------------------------------------------
  // Complexity score

  /** Values len() accepts. */
  predicate Sized(v: Value) {
    v.JStr? || v.JArr? || v.JObj?
  }

  /** `len(v) if v else 0`: a falsy value counts 0; len() of a truthy number raises TypeError. */
  function LenIfTruthy(v: Value): (r: Result<nat>)
    ensures r.Err? <==> Truthy(v) && !Sized(v)
    ensures r.Ok? && Truthy(v) ==> r.value > 0
    ensures r.Ok? && !Truthy(v) ==> r.value == 0
  {
    if v.JStr? then Ok(|v.s|)
    else if v.JArr? then Ok(|v.items|)
    else if v.JObj? then Ok(|v.fields.Keys|)
    else if Truthy(v) then Err(TypeError("object of type '" + TypeName(v) + "' has no len()"))
    else Ok(0)
  }

  /** `float(h) * 5.0` for an int or float estimate (a bool is an int in Python), 0.0 otherwise. */
  function HoursScore(v: Value): real {
    match v
    case JBool(b) => if b then 5.0 else 0.0
    case JInt(i) => i as real * 5.0
    case JFloat(r) => r * 5.0
    case _ => 0.0
  }

  /** priority_map.get(priority.lower(), 2); a priority that is not a str has no lower(). */
  function PriorityWeight(v: Value): (r: Result<nat>)
    ensures r.Err? <==> !v.JStr?
    ensures r.Ok? ==> 1 <= r.value <= 3
  {
    if !v.JStr? then Err(AttributeError("'" + TypeName(v) + "' object has no attribute 'lower'"))
    else
      var p := Lower(v.s);
      if p == "high" then Ok(3) else if p == "low" then Ok(1) else Ok(2)
  }

  /** calculate_complexity_score: description length / 1000 + 2 per file + 5 per estimated hour
      + the priority weight. The first exception raised, in the order of the source, is the result. */
  function Score(t: Dict): Result<real> {
    ScoreOf(Get(t, "description", JStr("")), Get(t, "files", JArr([])),
            Get(t, "estimated_hours", JInt(0)), Get(t, "priority", JStr("medium")))
  }

  /** The score from the four fields it reads. */
  function ScoreOf(descriptionField: Value, filesField: Value, hoursField: Value, priorityField: Value): Result<real> {
    var description := LenIfTruthy(descriptionField);
    var files := LenIfTruthy(filesField);
    var hours := HoursScore(hoursField);
    var weight := PriorityWeight(priorityField);
    if description.Err? then Err(description.error)
    else if files.Err? then Err(files.error)
    else if weight.Err? then Err(weight.error)
    else Ok(description.value as real / 1000.0 + files.value as real * 2.0 + hours + weight.value as real)
  }

  /** The score fails exactly when the description or the file list is a truthy value without a
      length, or the priority is present and not a string; a missing description, file list or
      estimate contributes nothing, and a missing priority weighs as "medium". */
  lemma ScoreErrors(t: Dict)
    ensures Score(t).Err? <==>
      || ("description" in t && Truthy(t["description"]) && !Sized(t["description"]))
      || ("files" in t && Truthy(t["files"]) && !Sized(t["files"]))
      || ("priority" in t && !t["priority"].JStr?)
    ensures "description" !in t && "files" !in t && "estimated_hours" !in t && "priority" !in t
      ==> Score(t) == Ok(2.0)
  {
    ScoreOfErrors(Get(t, "description", JStr("")), Get(t, "files", JArr([])),
                  Get(t, "estimated_hours", JInt(0)), Get(t, "priority", JStr("medium")));
  }

  /** The score of the four fields fails exactly when one of the three checked ones is ill-typed. */
  lemma ScoreOfErrors(description: Value, files: Value, hours: Value, priority: Value)
    ensures ScoreOf(description, files, hours, priority).Err? <==>
      (Truthy(description) && !Sized(description)) || (Truthy(files) && !Sized(files)) || !priority.JStr?
  {
  }

  /** The score of a task with a string description, a list of files, an estimate and a string
      priority, term by term. */
  lemma ScoreTerms(t: Dict, description: string, files: seq<Value>, hours: real, priority: string)
    requires t == map["description" := JStr(description), "files" := JArr(files),
                      "estimated_hours" := JFloat(hours), "priority" := JStr(priority)]
    ensures Score(t).Ok?
    ensures Score(t).value == |description| as real / 1000.0 + 2.0 * |files| as real + 5.0 * hours
      + (if Lower(priority) == "high" then 3.0 else if Lower(priority) == "low" then 1.0 else 2.0)
  {
    assert Truthy(JStr(description)) ==> Sized(JStr(description));
  }

  /** The priority is compared case-insensitively: "HIGH", "High" and "high" weigh the same. */
  lemma PriorityCaseInsensitive(t: Dict, p: string, q: string)
    requires Lower(p) == Lower(q)
    ensures Score(t["priority" := JStr(p)]) == Score(t["priority" := JStr(q)])
  {
    ScoreWithPriority(t, JStr(p));
    ScoreWithPriority(t, JStr(q));
    ScoreOfSameWeight(Get(t, "description", JStr("")), Get(t, "files", JArr([])),
                      Get(t, "estimated_hours", JInt(0)), JStr(p), JStr(q));
  }

  lemma ScoreOfSameWeight(description: Value, files: Value, hours: Value, p: Value, q: Value)
    requires PriorityWeight(p) == PriorityWeight(q)
    ensures ScoreOf(description, files, hours, p) == ScoreOf(description, files, hours, q)
  {
  }

  /** Setting the priority changes only the last of the four fields the score reads. */
  lemma ScoreWithPriority(t: Dict, v: Value)
    ensures Score(t["priority" := v]) ==
      ScoreOf(Get(t, "description", JStr("")), Get(t, "files", JArr([])), Get(t, "estimated_hours", JInt(0)), v)
  {
    var t' := t["priority" := v];
    assert Get(t', "description", JStr("")) == Get(t, "description", JStr(""));
    assert Get(t', "files", JArr([])) == Get(t, "files", JArr([]));
    assert Get(t', "estimated_hours", JInt(0)) == Get(t, "estimated_hours", JInt(0));
  }

  /** The task with one more file: appended to its list, or a list of one where it had none. */
  function WithFile(t: Dict, f: Value): Dict {
    if "files" in t && t["files"].JArr? then t["files" := JArr(t["files"].items + [f])]
    else t["files" := JArr([f])]
  }

  /** Adding one file raises the score by exactly 2 (and leaves a failing score failing the
      same way), when the task's files are a list or nothing. */
  lemma AddFileRaisesScore(t: Dict, f: Value)
    requires "files" !in t || t["files"].JArr? || !Truthy(t["files"])
    ensures Score(t).Ok? ==> Score(WithFile(t, f)) == Ok(Score(t).value + 2.0)
    ensures Score(t).Err? ==> Score(WithFile(t, f)) == Score(t)
  {
    var before := Get(t, "files", JArr([]));
    var after := JArr(if "files" in t && t["files"].JArr? then t["files"].items + [f] else [f]);
    assert WithFile(t, f) == t["files" := after];
    ScoreWithFiles(t, after);
    assert LenIfTruthy(before).Ok? && LenIfTruthy(after) == Ok(LenIfTruthy(before).value + 1);
    ScoreOfOneMoreFile(Get(t, "description", JStr("")), before, after,
                       Get(t, "estimated_hours", JInt(0)), Get(t, "priority", JStr("medium")));
  }

  /** Setting the files changes only the second of the four fields the score reads. */
  lemma ScoreWithFiles(t: Dict, v: Value)
    ensures Score(t["files" := v]) ==
      ScoreOf(Get(t, "description", JStr("")), v, Get(t, "estimated_hours", JInt(0)), Get(t, "priority", JStr("medium")))
  {
    var t' := t["files" := v];
    assert Get(t', "description", JStr("")) == Get(t, "description", JStr(""));
    assert Get(t', "estimated_hours", JInt(0)) == Get(t, "estimated_hours", JInt(0));
    assert Get(t', "priority", JStr("medium")) == Get(t, "priority", JStr("medium"));
  }

  lemma ScoreOfOneMoreFile(description: Value, before: Value, after: Value, hours: Value, priority: Value)
    requires LenIfTruthy(before).Ok? && LenIfTruthy(after) == Ok(LenIfTruthy(before).value + 1)
    ensures ScoreOf(description, before, hours, priority).Ok? ==>
      ScoreOf(description, after, hours, priority) == Ok(ScoreOf(description, before, hours, priority).value + 2.0)
    ensures ScoreOf(description, before, hours, priority).Err? ==>
      ScoreOf(description, after, hours, priority) == ScoreOf(description, before, hours, priority)
  {
  }

  // ---------------------------------------------------------------------------
  // Classification

  /** The tier a score falls in: below the light threshold, from the powerful threshold on, or between. */
  function Tier(s: Selector, score: real): Category {
    if score < s.thresholdLight then Light
    else if score >= s.thresholdPowerful then Powerful
    else Standard
  }

  /** get_complexity_category. A disabled selector answers Default without scoring the task. */
  function CategoryOf(s: Selector, t: Dict): Result<Category> {
    if !s.enabled then Ok(Default)
    else match Score(t)
      case Err(e) => Err(e)
      case Ok(score) => Ok(Tier(s, score))
  }

  /** `a or b` on optional model names: None and "" fall through to b. */
  function OrElse(a: Option<string>, b: Option<string>): (r: Option<string>)
    ensures r == a || r == b
    ensures (a.Some? && a.value != "") <==> r == a && r.Some? && r.value != ""
  {
    if a.Some? && a.value != "" then a else b
  }

  /** The configured model of a tier; Default has none of its own. */
  function TierModel(s: Selector, c: Category): Option<string> {
    match c
    case Light => s.modelLight
    case Standard => s.modelStandard
    case Powerful => s.modelPowerful
    case Default => s.modelDefault
  }

  /** select_model: the model of the score's tier, or the default model when that one is unset. */
  function SelectModel(s: Selector, t: Dict): Result<Option<string>> {
    if !s.enabled then Ok(s.modelDefault)
    else match Score(t)
      case Err(e) => Err(e)
      case Ok(score) =>
        match Tier(s, score)
        case Light => Ok(OrElse(s.modelLight, s.modelDefault))
        case Powerful => Ok(OrElse(s.modelPowerful, s.modelDefault))
        case _ => Ok(OrElse(s.modelStandard, s.modelDefault))
  }

  /** The category partitions the scores: light below the light threshold, powerful from the
      powerful threshold on (unless light), standard in between, and default whatever the task
      when selection is off. */
  lemma CategorySpec(s: Selector, t: Dict)
    ensures !s.enabled ==> CategoryOf(s, t) == Ok(Default)
    ensures s.enabled ==> (CategoryOf(s, t).Err? <==> Score(t).Err?)
    ensures s.enabled && Score(t).Ok? ==>
      var score := Score(t).value;
      && (CategoryOf(s, t) == Ok(Light) <==> score < s.thresholdLight)
      && (CategoryOf(s, t) == Ok(Powerful) <==> !(score < s.thresholdLight) && score >= s.thresholdPowerful)
      && (CategoryOf(s, t) == Ok(Standard) <==> s.thresholdLight <= score < s.thresholdPowerful)
  {
  }

  /** select_model and get_complexity_category agree: the model is the category's own model,
      or the default model when that one is None or empty. When selection is off the default
      model is returned, even for a task whose score would fail. */
  lemma SelectModelFollowsCategory(s: Selector, t: Dict)
    ensures !s.enabled ==> SelectModel(s, t) == Ok(s.modelDefault)
    ensures s.enabled ==> (SelectModel(s, t).Err? <==> CategoryOf(s, t).Err?)
    ensures s.enabled && CategoryOf(s, t).Ok? ==>
      SelectModel(s, t) == Ok(OrElse(TierModel(s, CategoryOf(s, t).value), s.modelDefault))
  {
  }

  /** A rank on the tiers, cheapest first. */
  function Rank(c: Category): nat {
    match c
    case Light => 0
    case Standard => 1
    case Powerful => 2
    case Default => 1
  }

  /** A more complex task never gets a cheaper tier, whatever the two thresholds are. */
  lemma {:induction false} CategoryMonotone(s: Selector, t1: Dict, t2: Dict)
    requires s.enabled && Score(t1).Ok? && Score(t2).Ok? && Score(t1).value <= Score(t2).value
    ensures Rank(CategoryOf(s, t1).value) <= Rank(CategoryOf(s, t2).value)
  {
    var a, b := Score(t1).value, Score(t2).value;
    if b < s.thresholdLight {
      assert a < s.thresholdLight;
    } else if a >= s.thresholdPowerful {
      assert b >= s.thresholdPowerful;
    }
  }
}

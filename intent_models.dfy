/** Intent records: why a task was done, and the commits that carried it out. */
module IntentModels {
  import opened Common
  import opened Json

  // ---------------------------------------------------------------------------
  // Commit and IntentData

  /** A Commit after __post_init__: the timestamp is always set. */
  datatype Commit = Commit(hash: string, message: string, timestamp: string)

  function CommitToDict(c: Commit): Dict {
    map["hash" := JStr(c.hash), "message" := JStr(c.message), "timestamp" := JStr(c.timestamp)]
  }

  predicate CommitDictTyped(d: Dict) {
    ("hash" in d ==> d["hash"].JStr?) && ("message" in d ==> d["message"].JStr?) && OptStrAt(d, "timestamp")
  }

  /** Commit.from_dict; `now` stamps a commit without timestamp. */
  function CommitFromDict(d: Dict, now: string): (c: Commit)
    requires CommitDictTyped(d)
    ensures "hash" !in d ==> c.hash == ""
    ensures "timestamp" !in d ==> c.timestamp == now
  {
    var t := GetOptStr(d, "timestamp");
    Commit(Get(d, "hash", JStr("")).s, Get(d, "message", JStr("")).s, if t.Some? then t.value else now)
  }

  lemma CommitRoundTrip(c: Commit, now: string)
    ensures CommitDictTyped(CommitToDict(c)) && CommitFromDict(CommitToDict(c), now) == c
  {
  }

  datatype IntentData = IntentData(goal: string, rationale: string)

  function IntentDataToDict(x: IntentData): Dict {
    map["goal" := JStr(x.goal), "rationale" := JStr(x.rationale)]
  }

  predicate IntentDataDictTyped(d: Dict) {
    ("goal" in d ==> d["goal"].JStr?) && ("rationale" in d ==> d["rationale"].JStr?)
  }

  /** IntentData.from_dict: missing goal and rationale are "". */
  function IntentDataFromDict(d: Dict): (x: IntentData)
    requires IntentDataDictTyped(d)
    ensures "goal" !in d ==> x.goal == ""
    ensures "rationale" !in d ==> x.rationale == ""
  {
    IntentData(Get(d, "goal", JStr("")).s, Get(d, "rationale", JStr("")).s)
  }

  lemma IntentDataRoundTrip(x: IntentData)
    ensures IntentDataDictTyped(IntentDataToDict(x)) && IntentDataFromDict(IntentDataToDict(x)) == x
  {
  }

  // ---------------------------------------------------------------------------
  // Intent

  /** An Intent after __post_init__: created_at is always set. */
  datatype Intent = Intent(
    taskId: string,
    intent: IntentData,
    commits: seq<Commit>,
    relatedAdr: Option<string>,
    createdAt: string,
    updatedAt: Option<string>)

  function CommitsToValues(cs: seq<Commit>): (vs: seq<Value>)
    ensures |vs| == |cs|
    ensures forall i | 0 <= i < |cs| :: vs[i] == JObj(CommitToDict(cs[i]))
  {
    seq(|cs|, i requires 0 <= i < |cs| => JObj(CommitToDict(cs[i])))
  }

  /** Intent.to_dict: related_adr only when it is a non-empty string; updated_at may be null. */
  function IntentToDict(x: Intent): Dict {
    var d := map["task_id" := JStr(x.taskId), "intent" := JObj(IntentDataToDict(x.intent)),
                 "commits" := JArr(CommitsToValues(x.commits)), "created_at" := JStr(x.createdAt),
                 "updated_at" := OptStr(x.updatedAt)];
    if x.relatedAdr.Some? && x.relatedAdr.value != "" then d["related_adr" := JStr(x.relatedAdr.value)] else d
  }

  predicate CommitValuesTyped(vs: seq<Value>) {
    forall i | 0 <= i < |vs| :: vs[i].JObj? && CommitDictTyped(vs[i].fields)
  }

  /** The shape Intent.from_dict relies on. Any `intent` value is accepted: a non-dict one is replaced. */
  predicate IntentDictTyped(d: Dict) {
    && ("task_id" in d ==> d["task_id"].JStr?)
    && ("intent" in d && d["intent"].JObj? ==> IntentDataDictTyped(d["intent"].fields))
    && ("commits" in d ==> d["commits"].JArr? && CommitValuesTyped(d["commits"].items))
    && OptStrAt(d, "related_adr") && OptStrAt(d, "created_at") && OptStrAt(d, "updated_at")
  }

  /** Intent.from_dict; `now` stamps an intent without created_at. */
  function IntentFromDict(d: Dict, now: string): (x: Intent)
    requires IntentDictTyped(d)
    ensures "task_id" !in d ==> x.taskId == "unknown"
    ensures "intent" in d && !d["intent"].JObj? ==> x.intent == IntentData("", "")
    ensures "intent" !in d ==> x.intent == IntentData("", "")
    ensures "created_at" !in d ==> x.createdAt == now
  {
    var intentData := Get(d, "intent", JObj(map[]));
    var intent := if intentData.JObj? then IntentDataFromDict(intentData.fields) else IntentData("", "");
    var vs := if "commits" in d then d["commits"].items else [];
    var commits := seq(|vs|, i requires 0 <= i < |vs| => CommitFromDict(vs[i].fields, now));
    var c := GetOptStr(d, "created_at");
    Intent(Get(d, "task_id", JStr("unknown")).s, intent, commits, GetOptStr(d, "related_adr"),
           if c.Some? then c.value else now, GetOptStr(d, "updated_at"))
  }

  /** from_dict(to_dict(x)) == x, except that an empty related_adr reads back as None. */
  lemma IntentRoundTrip(x: Intent, now: string)
    ensures IntentDictTyped(IntentToDict(x))
    ensures IntentFromDict(IntentToDict(x), now)
         == x.(relatedAdr := if x.relatedAdr == Some("") then None else x.relatedAdr)
  {
    var d := IntentToDict(x);
    var vs := CommitsToValues(x.commits);
    assert d["commits"] == JArr(vs);
    forall i | 0 <= i < |vs| ensures vs[i].JObj? && CommitDictTyped(vs[i].fields)
                                  && CommitFromDict(vs[i].fields, now) == x.commits[i] {
      CommitRoundTrip(x.commits[i], now);
    }
    var y := IntentFromDict(d, now);
    assert y.commits == x.commits;
  }

  // ---------------------------------------------------------------------------
  // add_commit

  predicate HasHash(commits: seq<Commit>, hash: string) {
    exists i | 0 <= i < |commits| :: commits[i].hash == hash
  }

  predicate DistinctHashes(commits: seq<Commit>) {
    forall i, j | 0 <= i < j < |commits| :: commits[i].hash != commits[j].hash
  }

  /** Intent.add_commit as a value: a known hash changes nothing and yields False; a new one is
      appended, stamped `now`, and updated_at is set to `now`. */
  function AddCommit(x: Intent, hash: string, message: string, now: string): (r: (bool, Intent))
    ensures r.0 <==> !HasHash(x.commits, hash)
    ensures !r.0 ==> r.1 == x
    ensures r.0 ==> r.1 == x.(commits := x.commits + [Commit(hash, message, now)], updatedAt := Some(now))
  {
    if HasHash(x.commits, hash) then (false, x)
    else (true, x.(commits := x.commits + [Commit(hash, message, now)], updatedAt := Some(now)))
  }

  /** add_commit never records a hash twice. */
  lemma AddCommitKeepsDistinct(x: Intent, hash: string, message: string, now: string)
    requires DistinctHashes(x.commits)
    ensures DistinctHashes(AddCommit(x, hash, message, now).1.commits)
    ensures HasHash(AddCommit(x, hash, message, now).1.commits, hash)
  {
    var cs := AddCommit(x, hash, message, now).1.commits;
    if !HasHash(x.commits, hash) {
      assert cs[|cs| - 1].hash == hash;
    } else {
      var i :| 0 <= i < |x.commits| && x.commits[i].hash == hash;
      assert cs[i].hash == hash;
    }
  }

  /** One add_commit call, as data. */
  datatype CommitCall = CommitCall(hash: string, message: string, now: string)

  function AddCommits(x: Intent, calls: seq<CommitCall>): Intent
    decreases |calls|
  {
    if calls == [] then x
    else AddCommits(AddCommit(x, calls[0].hash, calls[0].message, calls[0].now).1, calls[1..])
  }

  /** Distinct commit hashes stay distinct across any sequence of add_commit calls, and only
      grow: every earlier commit is kept, in place. */
  lemma {:induction false} AddCommitsKeepDistinct(x: Intent, calls: seq<CommitCall>)
    requires DistinctHashes(x.commits)
    ensures DistinctHashes(AddCommits(x, calls).commits)
    ensures x.commits <= AddCommits(x, calls).commits
    decreases |calls|
  {
    if calls != [] {
      var y := AddCommit(x, calls[0].hash, calls[0].message, calls[0].now).1;
      AddCommitKeepsDistinct(x, calls[0].hash, calls[0].message, calls[0].now);
      AddCommitsKeepDistinct(y, calls[1..]);
    }
  }

  /** The Intent object, whose add_commit appends to its commit list in place. */
  class IntentObject {
    var taskId: string
    var intent: IntentData
    var commits: seq<Commit>
    var relatedAdr: Option<string>
    var createdAt: string
    var updatedAt: Option<string>

    function Value(): Intent reads this {
      Intent(taskId, intent, commits, relatedAdr, createdAt, updatedAt)
    }

    constructor (x: Intent)
      ensures Value() == x
    {
      taskId, intent, commits := x.taskId, x.intent, x.commits;
      relatedAdr, createdAt, updatedAt := x.relatedAdr, x.createdAt, x.updatedAt;
    }

    /** add_commit; `now` is the timestamp of the new commit and of updated_at. */
    method AddCommitTo(hash: string, message: string, now: string) returns (added: bool)
      modifies this
      ensures (added, Value()) == AddCommit(old(Value()), hash, message, now)
    {
      if HasHash(commits, hash) {
        return false;
      }
      commits := commits + [Commit(hash, message, now)];
      updatedAt := Some(now);
      return true;
    }
  }
}

/** System status, checkpoint metadata and the result of validating the state files. */
module StateModels {
  import opened Common
  import opened Json

  // ---------------------------------------------------------------------------
  // Status

  /** A Status after __post_init__: last_updated is always set. */
  datatype Status = Status(lastUpdated: string, version: int, currentPhase: Option<string>)

  /** Status.to_dict: current_phase only when it is a non-empty string. */
  function StatusToDict(s: Status): Dict {
    var d := map["last_updated" := JStr(s.lastUpdated), "version" := JInt(s.version)];
    if s.currentPhase.Some? && s.currentPhase.value != "" then d["current_phase" := JStr(s.currentPhase.value)] else d
  }

  predicate StatusDictTyped(d: Dict) {
    OptStrAt(d, "last_updated") && ("version" in d ==> d["version"].JInt?) && OptStrAt(d, "current_phase")
  }

  /** Status.from_dict; `now` stamps a status without last_updated. */
  function StatusFromDict(d: Dict, now: string): (s: Status)
    requires StatusDictTyped(d)
    ensures "version" !in d ==> s.version == 0
    ensures "last_updated" !in d ==> s.lastUpdated == now
    ensures "current_phase" !in d ==> s.currentPhase.None?
  {
    var u := GetOptStr(d, "last_updated");
    Status(if u.Some? then u.value else now, Get(d, "version", JInt(0)).i, GetOptStr(d, "current_phase"))
  }

  /** from_dict(to_dict(s)) == s, except that an empty current_phase reads back as None. */
  lemma StatusRoundTrip(s: Status, now: string)
    ensures StatusDictTyped(StatusToDict(s))
    ensures StatusFromDict(StatusToDict(s), now)
         == s.(currentPhase := if s.currentPhase == Some("") then None else s.currentPhase)
    ensures "current_phase" in StatusToDict(s) <==> s.currentPhase.Some? && s.currentPhase.value != ""
  {
  }

  // ---------------------------------------------------------------------------
  // CheckpointMetadata

  datatype CheckpointMetadata = CheckpointMetadata(checkpointName: string, createdAt: string, files: seq<string>)

  function CheckpointToDict(c: CheckpointMetadata): Dict {
    map["checkpoint_name" := JStr(c.checkpointName), "created_at" := JStr(c.createdAt), "files" := StrList(c.files)]
  }

  predicate CheckpointDictTyped(d: Dict) {
    && ("checkpoint_name" in d ==> d["checkpoint_name"].JStr?)
    && ("created_at" in d ==> d["created_at"].JStr?)
    && ("files" in d ==> IsStrList(d["files"]))
  }

  /** CheckpointMetadata.from_dict: missing names and times are "", missing files []. */
  function CheckpointFromDict(d: Dict): (c: CheckpointMetadata)
    requires CheckpointDictTyped(d)
    ensures "files" !in d ==> c.files == []
    ensures "files" in d ==> StrList(c.files) == d["files"]
    ensures "checkpoint_name" !in d ==> c.checkpointName == ""
    ensures "checkpoint_name" in d ==> JStr(c.checkpointName) == d["checkpoint_name"]
    ensures "created_at" !in d ==> c.createdAt == ""
    ensures "created_at" in d ==> JStr(c.createdAt) == d["created_at"]
  {
    CheckpointMetadata(Get(d, "checkpoint_name", JStr("")).s, Get(d, "created_at", JStr("")).s,
                       if "files" in d then AsStrList(d["files"]) else [])
  }

  lemma CheckpointRoundTrip(c: CheckpointMetadata)
    ensures CheckpointDictTyped(CheckpointToDict(c)) && CheckpointFromDict(CheckpointToDict(c)) == c
  {
    StrListRoundTrip(c.files);
  }

  // ---------------------------------------------------------------------------
  // ValidationResult

  /** The value of a ValidationResult. */
  datatype Validation = Validation(valid: bool, errors: seq<string>, warnings: seq<string>)

  /** The two mutators, as data, so that their effect over any sequence of calls can be stated. */
  datatype ValidationOp = AddErrorOp(error: string) | AddWarningOp(warning: string)

  /** The effect of one add_error / add_warning call. */
  function Apply(v: Validation, op: ValidationOp): Validation {
    match op
    case AddErrorOp(e) => Validation(false, v.errors + [e], v.warnings)
    case AddWarningOp(w) => v.(warnings := v.warnings + [w])
  }

  function ApplyAll(v: Validation, ops: seq<ValidationOp>): Validation
    decreases |ops|
  {
    if ops == [] then v else ApplyAll(Apply(v, ops[0]), ops[1..])
  }

  function ErrorsOf(ops: seq<ValidationOp>): seq<string> {
    if ops == [] then [] else (if ops[0].AddErrorOp? then [ops[0].error] else []) + ErrorsOf(ops[1..])
  }

  function WarningsOf(ops: seq<ValidationOp>): seq<string> {
    if ops == [] then [] else (if ops[0].AddWarningOp? then [ops[0].warning] else []) + WarningsOf(ops[1..])
  }

  /** After any sequence of calls the result is valid exactly when it was valid before and no error
      was added; the errors and warnings are the old ones followed by the new ones in call order.
      In particular, once valid is False it stays False. */
  lemma ApplyAllEffect(v: Validation, ops: seq<ValidationOp>)
    ensures ApplyAll(v, ops).valid <==> v.valid && ErrorsOf(ops) == []
    ensures ApplyAll(v, ops).errors == v.errors + ErrorsOf(ops)
    ensures ApplyAll(v, ops).warnings == v.warnings + WarningsOf(ops)
  {
    ApplyAllValid(v, ops);
    ApplyAllErrors(v, ops);
    ApplyAllWarnings(v, ops);
  }

  lemma {:induction false} ApplyAllValid(v: Validation, ops: seq<ValidationOp>)
    ensures ApplyAll(v, ops).valid <==> v.valid && ErrorsOf(ops) == []
    decreases |ops|
  {
    if ops != [] {
      ApplyAllValid(Apply(v, ops[0]), ops[1..]);
      if ops[0].AddErrorOp? {
        assert ErrorsOf(ops)[0] == ops[0].error;
      }
    }
  }

  lemma {:induction false} ApplyAllErrors(v: Validation, ops: seq<ValidationOp>)
    ensures ApplyAll(v, ops).errors == v.errors + ErrorsOf(ops)
    decreases |ops|
  {
    if ops != [] {
      ApplyAllErrors(Apply(v, ops[0]), ops[1..]);
      if ops[0].AddErrorOp? {
        var e := ops[0].error;
        assert (v.errors + [e]) + ErrorsOf(ops[1..]) == v.errors + ([e] + ErrorsOf(ops[1..]));
      }
    }
  }

  lemma {:induction false} ApplyAllWarnings(v: Validation, ops: seq<ValidationOp>)
    ensures ApplyAll(v, ops).warnings == v.warnings + WarningsOf(ops)
    decreases |ops|
  {
    if ops != [] {
      ApplyAllWarnings(Apply(v, ops[0]), ops[1..]);
      if ops[0].AddWarningOp? {
        var x := ops[0].warning;
        assert (v.warnings + [x]) + WarningsOf(ops[1..]) == v.warnings + ([x] + WarningsOf(ops[1..]));
      }
    }
  }

  lemma InvalidStaysInvalid(v: Validation, ops: seq<ValidationOp>)
    requires !v.valid
    ensures !ApplyAll(v, ops).valid
  {
    ApplyAllEffect(v, ops);
  }

  /** ValidationResult, updated in place by add_error and add_warning. */
  class ValidationResult {
    var valid: bool
    var errors: seq<string>
    var warnings: seq<string>

    function Value(): Validation reads this {
      Validation(valid, errors, warnings)
    }

    constructor ()
      ensures Value() == Validation(true, [], [])
    {
      valid, errors, warnings := true, [], [];
    }

    /** add_error appends exactly one error and marks the result invalid. */
    method AddError(error: string)
      modifies this
      ensures Value() == Apply(old(Value()), AddErrorOp(error))
      ensures !valid && errors == old(errors) + [error] && warnings == old(warnings)
    {
      errors := errors + [error];
      valid := false;
    }

    /** add_warning appends exactly one warning and touches neither valid nor errors. */
    method AddWarning(warning: string)
      modifies this
      ensures Value() == Apply(old(Value()), AddWarningOp(warning))
      ensures valid == old(valid) && errors == old(errors) && warnings == old(warnings) + [warning]
    {
      warnings := warnings + [warning];
    }
  }

  function ValidationToDict(v: Validation): Dict {
    map["valid" := JBool(v.valid), "errors" := StrList(v.errors), "warnings" := StrList(v.warnings)]
  }

  predicate ValidationDictTyped(d: Dict) {
    && ("valid" in d ==> d["valid"].JBool?)
    && ("errors" in d ==> IsStrList(d["errors"]))
    && ("warnings" in d ==> IsStrList(d["warnings"]))
  }

  /** ValidationResult.from_dict: valid defaults to True, the lists to []. */
  function ValidationFromDict(d: Dict): (v: Validation)
    requires ValidationDictTyped(d)
    ensures "valid" !in d ==> v.valid
    ensures "valid" in d ==> JBool(v.valid) == d["valid"]
    ensures "errors" !in d ==> v.errors == []
    ensures "errors" in d ==> StrList(v.errors) == d["errors"]
    ensures "warnings" !in d ==> v.warnings == []
    ensures "warnings" in d ==> StrList(v.warnings) == d["warnings"]
  {
    Validation(Get(d, "valid", JBool(true)).b,
               if "errors" in d then AsStrList(d["errors"]) else [],
               if "warnings" in d then AsStrList(d["warnings"]) else [])
  }

  lemma ValidationRoundTrip(v: Validation)
    ensures ValidationDictTyped(ValidationToDict(v)) && ValidationFromDict(ValidationToDict(v)) == v
  {
    StrListRoundTrip(v.errors);
    StrListRoundTrip(v.warnings);
  }
}

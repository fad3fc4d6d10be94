/** The agent system's exception hierarchy: each kind of error, its message and
    whether the caller may retry the failed operation. */
module Exceptions {
  import opened Common

  /** One constructor per exception class; the subclass relation is given by
      IsLLMError and IsStateError. */
  datatype AgentError =
    | Agent(msg: string, retry: bool)
    | LLM(msg: string, retry: bool)
    | LLMTimeout(timeout: nat)
    | LLMRateLimit(msg: string)
    | State(msg: string, retry: bool)
    | StateCorruption(filename: string)
    | TaskFailure(taskId: string, msg: string, retry: bool)

  /** The constructors with their Python default arguments. */
  function NewAgentError(message: string, retryable: bool := false): AgentError { Agent(message, retryable) }
  function NewLLMError(message: string, retryable: bool := true): AgentError { LLM(message, retryable) }
  function NewRateLimitError(message: string := "Rate limit exceeded"): AgentError { LLMRateLimit(message) }
  function NewStateError(message: string, retryable: bool := false): AgentError { State(message, retryable) }
  function NewTaskError(taskId: string, message: string, retryable: bool := false): AgentError {
    TaskFailure(taskId, message, retryable)
  }

  predicate IsLLMError(e: AgentError) { e.LLM? || e.LLMTimeout? || e.LLMRateLimit? }

  predicate IsStateError(e: AgentError) { e.State? || e.StateCorruption? }

  /** str(e): the message the constructor composed. */
  function Message(e: AgentError): (m: string)
    ensures e.TaskFailure? ==> StartsWith(m, "Task " + e.taskId + ": ")
  {
    match e
    case Agent(msg, _) => msg
    case LLM(msg, _) => msg
    case LLMTimeout(t) => "LLM API call timed out after " + IntToString(t) + " seconds"
    case LLMRateLimit(msg) => msg
    case State(msg, _) => msg
    case StateCorruption(f) => "State file corrupted: " + f
    case TaskFailure(id, msg, _) => "Task " + id + ": " + msg
  }

  /** e.retryable. */
  function Retryable(e: AgentError): (r: bool)
    ensures e.LLMTimeout? || e.LLMRateLimit? ==> r
    ensures e.StateCorruption? ==> !r
  {
    match e
    case Agent(_, retry) => retry
    case LLM(_, retry) => retry
    case LLMTimeout(_) => true
    case LLMRateLimit(_) => true
    case State(_, retry) => retry
    case StateCorruption(_) => false
    case TaskFailure(_, _, retry) => retry
  }

  /** AgentError, StateError and TaskError default to not retryable; LLMError defaults to retryable. */
  lemma RetryableDefaults(message: string, taskId: string)
    ensures !Retryable(NewAgentError(message)) && !Retryable(NewStateError(message))
    ensures !Retryable(NewTaskError(taskId, message)) && Retryable(NewLLMError(message))
    ensures Retryable(NewRateLimitError()) && Message(NewRateLimitError()) == "Rate limit exceeded"
  {
  }

  /** A TaskError's message determines the message it was built from, once the task id is known. */
  lemma TaskMessageRecoversMessage(taskId: string, m1: string, m2: string, r1: bool, r2: bool)
    requires Message(TaskFailure(taskId, m1, r1)) == Message(TaskFailure(taskId, m2, r2))
    ensures m1 == m2
  {
    var p := "Task " + taskId + ": ";
    assert Message(TaskFailure(taskId, m1, r1)) == p + m1;
    assert m1 == (p + m1)[|p|..];
    assert m2 == (p + m2)[|p|..];
  }

  /** The timeout message names the timeout, and distinct timeouts give distinct messages. */
  lemma TimeoutMessageInjective(t1: nat, t2: nat)
    requires Message(LLMTimeout(t1)) == Message(LLMTimeout(t2))
    ensures t1 == t2
  {
    var p := "LLM API call timed out after ";
    var s1, s2 := IntToString(t1), IntToString(t2);
    assert Message(LLMTimeout(t1)) == p + s1 + " seconds";
    assert |s1| == |s2|;
    assert s1 == (p + s1 + " seconds")[|p|..|p| + |s1|];
    assert s2 == (p + s2 + " seconds")[|p|..|p| + |s2|];
    DigitsValueOfNatToString(t1);
    DigitsValueOfNatToString(t2);
  }
}

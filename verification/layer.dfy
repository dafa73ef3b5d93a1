/** The layer manager: creating a sandbox layer (create, activate, prepare, find its mount path)
 *  and removing one (unprepare, deactivate, destroy) as resumable step machines. A failed step
 *  is remembered, and the next call on the same manager starts again at that step. */
module Layer {
  import opened Wrappers
  import opened Errors
  import opened Text

  /** `createStep`: which creation step failed last. */
  datatype CreateStep = NoCreateFailure | CreateSandboxLayerFailed | ActivateLayerFailed | PrepareLayerFailed | GetLayerMountPathFailed

  /** `deleteStep`: which removal step failed last. */
  datatype DeleteStep = NoDeleteFailure | UnprepareLayerFailed | DeactivateLayerFailed | DestroyLayerFailed

  /** The manager's remembered failures; the store directory is the driver's home. */
  datatype Manager = Manager(homeDir: string, createFailed: CreateStep, deleteFailed: DeleteStep)

  /** The storage calls, in the order the machines make them. */
  datatype StoreCall =
    | MakeStoreDir
    | CreateSandboxLayer | ActivateLayer | PrepareLayer | GetLayerMountPath
    | UnprepareLayer | DeactivateLayer | DestroyLayer

  /** How the storage calls go in one call on the manager. */
  datatype Client = Client(
    mkdirAll: Outcome<Error>,
    createSandbox: Outcome<Error>,
    activate: Outcome<Error>,
    prepare: Outcome<Error>,
    mountPath: Result<string, Error>,
    unprepare: Outcome<Error>,
    deactivate: Outcome<Error>,
    destroy: Outcome<Error>)

  const CREATE_CALLS: seq<StoreCall> := [CreateSandboxLayer, ActivateLayer, PrepareLayer, GetLayerMountPath]
  const CREATE_FAILURES: seq<CreateStep> := [CreateSandboxLayerFailed, ActivateLayerFailed, PrepareLayerFailed, GetLayerMountPathFailed]
  const REMOVE_CALLS: seq<StoreCall> := [UnprepareLayer, DeactivateLayer, DestroyLayer]
  const REMOVE_FAILURES: seq<DeleteStep> := [UnprepareLayerFailed, DeactivateLayerFailed, DestroyLayerFailed]

  /** `NewManager`: nothing has failed yet. */
  function NewManager(storePath: string): (m: Manager)
    ensures m.homeDir == storePath && m.createFailed == NoCreateFailure && m.deleteFailed == NoDeleteFailure
  {
    Manager(storePath, NoCreateFailure, NoDeleteFailure)
  }

  /** The creation step a call starts at: the one that failed, or the first. */
  function CreateResume(s: CreateStep): (i: nat)
    ensures i < |CREATE_CALLS|
    ensures s != NoCreateFailure ==> CREATE_FAILURES[i] == s
  {
    match s
    case NoCreateFailure => 0
    case CreateSandboxLayerFailed => 0
    case ActivateLayerFailed => 1
    case PrepareLayerFailed => 2
    case GetLayerMountPathFailed => 3
  }

  /** The removal step a call starts at: the one that failed, or the first. */
  function RemoveResume(s: DeleteStep): (i: nat)
    ensures i < |REMOVE_CALLS|
    ensures s != NoDeleteFailure ==> REMOVE_FAILURES[i] == s
  {
    match s
    case NoDeleteFailure => 0
    case UnprepareLayerFailed => 0
    case DeactivateLayerFailed => 1
    case DestroyLayerFailed => 2
  }

  /** The first step from `from` on whose answer is a failure; `|answers|` if none. */
  function FirstFailing(answers: seq<Outcome<Error>>, from: nat): (k: nat)
    requires from <= |answers|
    ensures from <= k <= |answers|
    ensures forall i :: from <= i < k ==> answers[i].Pass?
    ensures k < |answers| ==> answers[k].Fail?
    decreases |answers| - from
  {
    if from == |answers| || answers[from].Fail? then from else FirstFailing(answers, from + 1)
  }

  /** The answers of the four creation steps; finding the mount path fails only on an error. */
  function CreateAnswers(c: Client): (a: seq<Outcome<Error>>)
    ensures |a| == |CREATE_CALLS|
    ensures a[..3] == [c.createSandbox, c.activate, c.prepare]
    ensures a[3].Pass? <==> c.mountPath.Success?
    ensures a[3].Fail? ==> a[3].error == c.mountPath.error
  {
    [c.createSandbox, c.activate, c.prepare, if c.mountPath.Failure? then Fail(c.mountPath.error) else Pass]
  }

  function RemoveAnswers(c: Client): (a: seq<Outcome<Error>>)
    ensures |a| == |REMOVE_CALLS|
  {
    [c.unprepare, c.deactivate, c.destroy]
  }

  /** One call of a layer operation: its result, the manager afterwards, and the storage calls
   *  it made. */
  datatype Step<T> = Step(result: Result<T, Error>, after: Manager, calls: seq<StoreCall>)

  /** `CreateLayer`: make the store directory, then run the creation steps from the one that
   *  failed last. A failing step is remembered and ends the call; a mount path that comes
   *  back empty is an error that is not remembered; success leaves the memory as it was. */
  function CreateLayer(m: Manager, id: string, c: Client): (r: Step<string>)
    ensures c.mkdirAll.Fail? ==> r == Step(Failure(c.mkdirAll.error), m, [MakeStoreDir])
    ensures c.mkdirAll.Pass? ==>
              var from := CreateResume(m.createFailed);
              var k := FirstFailing(CreateAnswers(c), from);
              (k < |CREATE_CALLS| ==>
                 r == Step(Failure(CreateAnswers(c)[k].error), m.(createFailed := CREATE_FAILURES[k]), [MakeStoreDir] + CREATE_CALLS[from..k + 1]))
              && (k == |CREATE_CALLS| ==> r.after == m && r.calls == [MakeStoreDir] + CREATE_CALLS[from..])
    ensures r.result.Success? <==>
              c.mkdirAll.Pass? && FirstFailing(CreateAnswers(c), CreateResume(m.createFailed)) == |CREATE_CALLS| && c.mountPath.value != ""
    ensures r.result.Success? ==> r.result.value == c.mountPath.value
    ensures c.mkdirAll.Pass? && c.mountPath == Success("") && FirstFailing(CreateAnswers(c), CreateResume(m.createFailed)) == |CREATE_CALLS| ==>
              r.result == Failure(MissingVolumePath(id))
    ensures r.after.homeDir == m.homeDir && r.after.deleteFailed == m.deleteFailed
  {
    if c.mkdirAll.Fail? then Step(Failure(c.mkdirAll.error), m, [MakeStoreDir])
    else
      var from := CreateResume(m.createFailed);
      var answers := CreateAnswers(c);
      var k := FirstFailing(answers, from);
      if k < |CREATE_CALLS| then
        Step(Failure(answers[k].error), m.(createFailed := CREATE_FAILURES[k]), [MakeStoreDir] + CREATE_CALLS[from..k + 1])
      else if c.mountPath.value == "" then Step(Failure(MissingVolumePath(id)), m, [MakeStoreDir] + CREATE_CALLS[from..])
      else Step(Success(c.mountPath.value), m, [MakeStoreDir] + CREATE_CALLS[from..])
  }

  /** `RemoveLayer`: run the removal steps from the one that failed last; a failing step is
   *  remembered and ends the call. */
  function RemoveLayer(m: Manager, c: Client): (r: Step<()>)
    ensures var from := RemoveResume(m.deleteFailed);
            var k := FirstFailing(RemoveAnswers(c), from);
            (k < |REMOVE_CALLS| ==>
               r == Step(Failure(RemoveAnswers(c)[k].error), m.(deleteFailed := REMOVE_FAILURES[k]), REMOVE_CALLS[from..k + 1]))
            && (k == |REMOVE_CALLS| ==> r == Step(Success(()), m, REMOVE_CALLS[from..]))
    ensures r.after.homeDir == m.homeDir && r.after.createFailed == m.createFailed
  {
    var from := RemoveResume(m.deleteFailed);
    var answers := RemoveAnswers(c);
    var k := FirstFailing(answers, from);
    if k < |REMOVE_CALLS| then Step(Failure(answers[k].error), m.(deleteFailed := REMOVE_FAILURES[k]), REMOVE_CALLS[from..k + 1])
    else Step(Success(()), m, REMOVE_CALLS[from..])
  }

  /** A retry after a failed creation step starts at that step, skipping every step that
   *  already succeeded; when every step it runs succeeds, the two calls together ran each
   *  creation step from the first call's starting point on exactly once. */
  lemma CreateResumesAtFailedStep(m: Manager, id: string, first: Client, second: Client)
    requires first.mkdirAll.Pass? && second.mkdirAll.Pass?
    requires CreateLayer(m, id, first).result.Failure? && CreateLayer(m, id, first).result != Failure(MissingVolumePath(id))
    ensures var from := CreateResume(m.createFailed);
            var k := FirstFailing(CreateAnswers(first), from);
            k < |CREATE_CALLS| && CreateResume(CreateLayer(m, id, first).after.createFailed) == k
            && CreateLayer(m, id, first).calls == [MakeStoreDir] + CREATE_CALLS[from..k + 1]
            && (forall i :: from <= i < k ==> CreateAnswers(first)[i].Pass?)
    ensures var from := CreateResume(m.createFailed);
            var k := FirstFailing(CreateAnswers(first), from);
            var retry := CreateLayer(CreateLayer(m, id, first).after, id, second);
            (forall i :: k <= i < |CREATE_CALLS| ==> CreateAnswers(second)[i].Pass?) && second.mountPath.value != "" ==>
              retry.result == Success(second.mountPath.value) && CREATE_CALLS[from..k] + retry.calls[1..] == CREATE_CALLS[from..]
  {
    var from := CreateResume(m.createFailed);
    var k := FirstFailing(CreateAnswers(first), from);
    FirstCallRecordsFailure(m, id, first);
    ResumeAtFailure(k);
    var after := CreateLayer(m, id, first).after;
    if (forall i :: k <= i < |CREATE_CALLS| ==> CreateAnswers(second)[i].Pass?) && second.mountPath.Success? && second.mountPath.value != "" {
      RetryRunsRest(after, id, second, k);
      CallsSplitAt(from, k);
    }
  }

  /** A failed first call records the failing step and ran the steps up to it. */
  lemma FirstCallRecordsFailure(m: Manager, id: string, first: Client)
    requires first.mkdirAll.Pass?
    requires CreateLayer(m, id, first).result.Failure? && CreateLayer(m, id, first).result != Failure(MissingVolumePath(id))
    ensures var from := CreateResume(m.createFailed);
            var k := FirstFailing(CreateAnswers(first), from);
            k < |CREATE_CALLS| && CreateLayer(m, id, first).after.createFailed == CREATE_FAILURES[k]
            && CreateLayer(m, id, first).calls == [MakeStoreDir] + CREATE_CALLS[from..k + 1]
            && (forall i :: from <= i < k ==> CreateAnswers(first)[i].Pass?)
  {
  }

  /** A call resuming at step `k` whose steps all succeed runs exactly the steps from `k` on. */
  lemma RetryRunsRest(after: Manager, id: string, second: Client, k: nat)
    requires k <= |CREATE_CALLS| && CreateResume(after.createFailed) == k
    requires second.mkdirAll.Pass? && second.mountPath.Success? && second.mountPath.value != ""
    requires forall i :: k <= i < |CREATE_CALLS| ==> CreateAnswers(second)[i].Pass?
    ensures CreateLayer(after, id, second).result == Success(second.mountPath.value)
    ensures CreateLayer(after, id, second).calls[1..] == CREATE_CALLS[k..]
  {
    assert FirstFailing(CreateAnswers(second), k) == |CREATE_CALLS|;
    var calls := CreateLayer(after, id, second).calls;
    assert calls == [MakeStoreDir] + CREATE_CALLS[k..];
  }

  /** The steps from `from` on are those before `k` followed by those from `k` on. */
  lemma CallsSplitAt(from: nat, k: nat)
    requires from <= k <= |CREATE_CALLS|
    ensures CREATE_CALLS[from..k] + CREATE_CALLS[k..] == CREATE_CALLS[from..]
  {
    assert forall i :: 0 <= i < |CREATE_CALLS| - from ==> (CREATE_CALLS[from..k] + CREATE_CALLS[k..])[i] == CREATE_CALLS[from + i];
  }

  /** Resuming at a remembered failure resumes at that failure's step. */
  lemma ResumeAtFailure(k: nat)
    requires k < |CREATE_CALLS|
    ensures CreateResume(CREATE_FAILURES[k]) == k
  {
  }

  /** The same for removal: a retry starts at the failed step, and a retry whose steps all
   *  succeed completes the removal, each step having run once from the first call's starting
   *  point on. */
  lemma RemoveResumesAtFailedStep(m: Manager, first: Client, second: Client)
    requires RemoveLayer(m, first).result.Failure?
    ensures var from := RemoveResume(m.deleteFailed);
            var k := FirstFailing(RemoveAnswers(first), from);
            k < |REMOVE_CALLS| && RemoveResume(RemoveLayer(m, first).after.deleteFailed) == k
            && RemoveLayer(m, first).calls == REMOVE_CALLS[from..k + 1]
    ensures var from := RemoveResume(m.deleteFailed);
            var k := FirstFailing(RemoveAnswers(first), from);
            var retry := RemoveLayer(RemoveLayer(m, first).after, second);
            (forall i :: k <= i < |REMOVE_CALLS| ==> RemoveAnswers(second)[i].Pass?) ==>
              retry.result.Success? && REMOVE_CALLS[from..k] + retry.calls == REMOVE_CALLS[from..]
  {
    var from := RemoveResume(m.deleteFailed);
    var k := FirstFailing(RemoveAnswers(first), from);
    var after := RemoveLayer(m, first).after;
    assert after.deleteFailed == REMOVE_FAILURES[k];
    assert RemoveResume(REMOVE_FAILURES[k]) == k;
    var retry := RemoveLayer(after, second);
    if forall i :: k <= i < |REMOVE_CALLS| ==> RemoveAnswers(second)[i].Pass? {
      assert FirstFailing(RemoveAnswers(second), k) == |REMOVE_CALLS|;
      assert REMOVE_CALLS[from..k] + REMOVE_CALLS[k..] == REMOVE_CALLS[from..];
    }
  }

  const TIMEOUT_TEXT: string := "This operation returned because the timeout period expired"

  /** `Retryable`: a non-nil error whose text mentions the timeout. */
  predicate Retryable(err: Outcome<Error>)
  {
    err.Fail? && Contains(Message(err.error), TIMEOUT_TEXT)
  }

  /** An error is retryable exactly when its text has the timeout message somewhere in it; a
   *  nil error never is. */
  lemma RetryableIff(prefix: string, suffix: string)
    ensures Retryable(Fail(Msg(prefix + TIMEOUT_TEXT + suffix)))
    ensures !Retryable(Pass)
    ensures forall t: string :: |t| < |TIMEOUT_TEXT| ==> !Retryable(Fail(Msg(t)))
  {
    ContainsMiddle(prefix, TIMEOUT_TEXT, suffix);
    forall t: string | |t| < |TIMEOUT_TEXT| ensures !Retryable(Fail(Msg(t))) {
      if Contains(t, TIMEOUT_TEXT) {
        ContainsNeedsLength(t, TIMEOUT_TEXT);
      }
    }
  }
}

/** What a control epoch exchanges with its callers, the provider connection and its environment. */
module ControlTypes {

  import opened Options

  datatype ThreadState = ThreadUnknown | NotLoaded | Idle | Active | WaitingOnApproval | WaitingOnUserInput | SystemError

  /** NoTurn is Go's empty turn state, which is not the state "unknown". */
  datatype TurnState = NoTurn | TurnUnknown | InProgress | Completed | Failed | Interrupted

  predicate Ended(t: TurnState) {
    t.Completed? || t.Failed? || t.Interrupted?
  }

  predicate Running(t: ThreadState) {
    t.Active? || t.WaitingOnApproval? || t.WaitingOnUserInput?
  }

  datatype Identity = Identity(agentUID: string, paneUID: string, runtimeID: string, generation: string, threadID: string)

  datatype Snapshot = Snapshot(threadID: string, threadState: ThreadState, turnID: string, turnState: TurnState)

  datatype ApprovalKind = Command | FileChange | Permissions | OtherKind

  datatype Decision = Accept | Decline | Cancel | GrantTurn | Unlisted(text: string)

  /** A decoded approval request. `detail` stands for the displayed fields, which only equality reads. */
  datatype Envelope = Envelope(
    rawID: string, requestID: string, kind: ApprovalKind, threadID: string, turnID: string, itemID: string,
    decisions: seq<Decision>, supportedProfile: bool, detail: string)

  datatype Notification =
    | Approval(envelope: Envelope)
    | BrokenApproval
    | TurnStarted(threadID: string, turnID: string)
    | TurnCompleted(threadID: string, turnID: string, turnState: TurnState)
    | ThreadStatus(threadID: string, threadState: ThreadState)
    | Resolved(threadID: string, rawID: string)
    | Unrecognized

  datatype Operation = Status | Start | Steer | Deliver | Peer | Interrupt | Approvals | Review | OtherOperation

  datatype Request = Request(op: Operation, identity: Identity, epoch: string, text: string, key: string, decision: Decision)

  datatype Code =
    | StaleEpoch | StaleBinding | Unavailable | StaleTurn | TurnStateUnavailable | PayloadTooLarge
    | LifecycleRetry | LifecycleBusy | DrainRequired | TurnInProgress | NoActiveTurn | TurnStartFailed
    | TurnInterruptFailed | Timeout | ProtocolError | AmbiguousRequest | UnsafeDecision | ResponseIndeterminate
    | PeerInjectionUnsupported | PeerInvalid | PeerClaimUsed | PeerBusy | ProviderRefused | PeerOutcomeUnknown
    | InvalidOperation

  datatype Availability = Availability(start: bool, steer: bool, interrupt: bool, review: bool)

  /** `accepted` is the pair acceptance=provider, delivery=unconfirmed. */
  datatype Response =
    | Refused(code: Code)
    | Served(availability: Availability, approvals: set<Envelope>)
    | Done(threadID: string, turnID: string, accepted: bool)

  /** errors.As(err, responseError) and errors.Is(err, DeadlineExceeded). */
  datatype WireError = WireError(response: bool, deadline: bool)

  datatype ControlResult = ControlResult(threadID: string, turnID: string)

  datatype Answer<+T> = Answered(value: T) | Lost(error: WireError)

  datatype BrokerRefusal = NoRefusal | RetryLater | Busy | Drain | TooLarge | OtherRefusal

  datatype ReadAnswer = Fresh(snapshot: Snapshot) | Unread(payloadTooLarge: bool, refusal: BrokerRefusal)

  datatype ClaimAnswer = Claimed | ClaimsFull | ClaimFailed

  /** What the surroundings answer while one request is handled, one field a call site. */
  datatype World = World(
    fenceAtEntry: bool, fenceAfterRead: bool, fenceAfterPrune: bool, fenceAfterEnvelope: bool,
    firstRead: ReadAnswer, waited: bool, secondRead: ReadAnswer,
    start: Answer<ControlResult>, steer: Answer<ControlResult>, interrupt: Answer<ControlResult>,
    respond: Option<WireError>, inject: Option<WireError>,
    injectionSupported: bool, peerReady: bool,
    cancelledAfterRead: bool, cancelledAfterPrune: bool, cancelledAfterEnvelope: bool,
    pruned: set<string>, pruneFailed: bool, peerText: Option<string>, claim: ClaimAnswer)

  /** The calls one request makes outside the epoch, in order. */
  datatype Call =
    | Fence(ok: bool)
    | ReadSnapshot
    | WaitRetry
    | StartTurn(threadID: string, text: string)
    | SteerTurn(threadID: string, turnID: string, text: string)
    | InterruptTurn(threadID: string, turnID: string)
    | Respond(rawID: string, decision: Decision)
    | Inject(threadID: string, text: string)
    | PruneClaims
    | ReadEnvelope(ref: string)
    | ClaimRef(ref: string)

  /** The calls that can change something at the provider. */
  predicate IsMutation(c: Call) {
    c.StartTurn? || c.SteerTurn? || c.InterruptTurn? || c.Respond? || c.Inject?
  }
}

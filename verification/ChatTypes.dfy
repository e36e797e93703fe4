/** The public event, output and envelope types of one chat request. */
module ChatTypes {
  import opened Prelude

  datatype Ids = Ids(request: nat, trace: nat, session: nat)

  /** Event types of the public event contract; only the two response types are terminal. */
  datatype AgentKind = ResponseCompleted | ResponseFailed | Activity(name: string)

  datatype EventStatus = Accepted | Started | Completed | Warning | Refused | Faulted

  datatype Node =
    | InitializeRequest | ValidateRequest | LoadMemory | ResolveFollowup | ClassifyIntent | Supervisor
    | SimpleRetrievalNode | ValidateEvidence | DirectResponseNode | DenyRequest | UnsupportedNode
    | PythonAnalysisNode | ExecuteMcpTool | CrossDocumentResearch | GenerateResponse | ValidateCitations
    | PrepareOutput | UpdateMemory | HandleFailure | FinalizeExecution

  datatype AgentEvent = AgentEvent(kind: AgentKind, sequence: nat, ids: Ids, node: Option<Node>, status: EventStatus)

  datatype RunStatus = Running | RunCompleted | PartialSuccess | Denied | Failed

  datatype Route =
    | SimpleRetrieval | DirectResponse | Deny | FailureRoute | RecursiveResearch
    | PythonAnalysis | McpTool | HumanApproval | Unsupported

  datatype Output = Output(ids: Ids, status: RunStatus, route: Route)

  datatype EnvelopeKind = StreamStarted | StreamError | Agent(kind: AgentKind)

  datatype Envelope = Envelope(
    eventId: nat, sequence: nat, ids: Ids, kind: EnvelopeKind,
    event: Option<AgentEvent>, response: Option<Output>, hasError: bool)

  predicate TerminalKind(kind: AgentKind) {
    kind.ResponseCompleted? || kind.ResponseFailed?
  }

  predicate Terminal(kind: EnvelopeKind) {
    kind.StreamError? || (kind.Agent? && TerminalKind(kind.kind))
  }
}

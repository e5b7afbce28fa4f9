/** Value types shared by policy, data plane and audit. */
module Domain {
  import opened Common

  datatype Protocol = Http | Tcp

  datatype Direction = ClientToUpstream | UpstreamToClient | HttpRequestBody | HttpResponseBody

  datatype InspectionMode = Preflight | Streaming

  datatype EnforcementMode = Observe | Enforce

  datatype PolicyStage =
    | RequestedDestination
    | ResolvedDestination
    | HttpRequestStage
    | HttpResponseStage
    | StreamingStage

  datatype TargetHost = Ip(address: IpAddr) | Name(name: string)

  /** IPv4 addresses occupy 32 bits and IPv6 addresses 128. */
  datatype IpAddr = V4(v4: nat) | V6(v6: nat)

  datatype Endpoint = Endpoint(host: TargetHost, port: nat)

  datatype RuleAction = Allow | Deny | Detour(destination: Endpoint)

  datatype EnforcementAction =
    | AllowFlow
    | HttpReject
    | TcpClose
    | TcpDetour(destination: Endpoint)

  /** What a reason displays; rendering it as text is left to the caller. */
  datatype Observed =
    | Text(text: string)
    | IpText(ip: IpAddr)
    | HostText(host: TargetHost)
    | PortText(port: nat)
    | ProtocolText(protocol: Protocol)
    | ActionText(action: RuleAction)

  datatype MatchReason = MatchReason(criterion: string, observed: Observed)

  datatype Decision = Decision(
    action: EnforcementAction,
    generation: nat,
    stage: PolicyStage,
    matchedRule: Option<string>,
    reasons: seq<MatchReason>)

  /** A decision lets the flow continue when policy only observes or when it allows. */
  predicate Permits(enforcement: EnforcementMode, decision: Decision) {
    enforcement == Observe || decision.action == AllowFlow
  }

  datatype Severity = Informational | Low | Medium | High | Critical

  datatype Confidence = Heuristic | Probable | Confirmed
}

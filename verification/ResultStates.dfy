// Classification of discovery outcomes (backend/app/discovery/result_states.py).

module ResultStates {
  import opened Common
  import opened Contracts

  datatype ResultState =
    | Unreachable | ReachableNoManagement | AuthenticationFailed | PartialDiscovery
    | Discovered | Unverified | Stopped | Interrupted

  // What one failed attempt says about the host.
  datatype Indicators = Indicators(reachable: bool, authFailed: bool, serviceAvailable: bool, unavailable: bool)

  function ClassifyTransportFailure(failure: Option<FailureCode>): Indicators {
    match failure
    case None => Indicators(true, false, true, false)
    case Some(code) =>
      match code
      case AUTHENTICATION_FAILED => Indicators(true, true, true, false)
      case CREDENTIAL_RESOLUTION_FAILED => Indicators(true, false, false, false)
      case UNSUPPORTED_CREDENTIAL => Indicators(true, false, true, false)
      case TRANSPORT_DISABLED => Indicators(true, false, false, false)
      case CONNECTION_REFUSED => Indicators(true, false, false, false)
      case HOST_UNREACHABLE => Indicators(false, false, false, false)
      case CONNECTION_TIMEOUT => Indicators(false, false, false, false)
      case TIMEOUT => Indicators(false, false, false, false)
      case DISCOVERY_TIMEOUT => Indicators(false, false, false, false)
      case TRANSPORT_UNAVAILABLE => Indicators(false, false, false, true)
      case CONNECTION_FAILED => Indicators(false, false, false, false)
      case _ => Indicators(true, false, true, false)
  }

  function FromFailureAndSuccess(
    reachable: bool, hasService: bool, authFailed: bool, hasPartialData: bool,
    fullyDiscovered: bool, unavailable: bool): ResultState
  {
    if fullyDiscovered then Discovered
    else if hasPartialData then PartialDiscovery
    else if authFailed then AuthenticationFailed
    else if unavailable then Unverified
    else if !reachable then Unreachable
    else ReachableNoManagement
  }
}

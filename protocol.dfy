/** The single-line responses of the command protocol: `success`, `success <key>=<value>`
    or `failure <reason>`. The failure texts are macros of qsap_api.h and appear here as
    the reasons they stand for. */
module Protocol {

  datatype Reason =
    | ResUnavailable        // ERR_RES_UNAVAILABLE: a file could not be opened
    | FeatureNotEnabled     // ERR_FEATURE_NOT_ENABLED: the key is absent and has no default
    | InvalidParam          // ERR_INVALID_PARAM
    | InvalidArg            // ERR_INVALID_ARG
    | InvalidRequest        // ERR_INVALIDREQ: the verb is neither get nor set
    | Unknown               // ERR_UNKNOWN
    | NotSupported          // ERR_NOT_SUPPORTED
    | SoftapNotStarted      // ERR_SOFTAP_NOT_STARTED
    | CouldNotEnableSoftap  // "failure Could not enable softap"

  /** `Success(text)` is the line "success" when `text` is empty and
      "success " + text otherwise. */
  datatype Response = Success(text: string) | Failure(reason: Reason)

  const Ok: Response := Success("")

  datatype Option<T> = None | Some(value: T)
}

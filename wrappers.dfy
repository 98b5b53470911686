/** Option, Result and the exceptions the sn-sync core can raise. */
module Wrappers {

  datatype Option<+T> = None | Some(value: T)

  /** The exceptions raised by the core, and the Python errors its code runs into. */
  datatype Error =
    | KeyError                          // a missing dictionary key
    | IndexError                        // indexing an empty list
    | TypeError                         // subscripting None
    | LoginFailed(instance: string)
    | ConfigurationFileNotFound(fileName: string)
    | InvalidConfiguration(name: string)
    | HTTPError(status: int)            // `raise_for_status` on a 4xx or 5xx reply
    | RequestFailed                     // a requests exception other than HTTPError
    | PasswordDeleteError               // deleting a keyring entry that is not there

  datatype Result<+T> = Ok(value: T) | Err(error: Error)
}

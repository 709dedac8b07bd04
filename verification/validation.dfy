/** Argument validation of the fitter (`_check_parameters`): a fit with more
    than one mode needs a responsibility matrix unless an earlier fit left
    one behind. */
module Validation {

  /** Outcome of the validation: nothing happens, or the `ValueError` the source
      raises with the message "Inverse Gamma Mixture requires 'z'". */
  datatype Check = Pass | Fail(message: string)

  const MissingZMessage: string := "Inverse Gamma Mixture requires 'z'"

  /** `fitted` is the base class's `_fit` flag, `hasZ` says whether the
      keyword arguments hold a `"z"` entry, `nModes` is K. */
  function CheckParameters(fitted: bool, hasZ: bool, nModes: int): (r: Check)
    ensures r.Fail? <==> !fitted && !hasZ && nModes > 1
    ensures r.Fail? ==> r.message == MissingZMessage
  {
    if !fitted && !hasZ && nModes > 1 then Fail(MissingZMessage) else Pass
  }
}

/** The errors the handlers pass to `next`, with their HTTP status and message text. */
module Failures {
  import opened VisitModel

  datatype Failure =
    /** `createVisit`: the requested id is not a doctor's. */
    | DoctorNotFound
    /** `createVisit`: the caller already has an in-progress visit with the named doctor. */
    | ActiveVisitWith(doctorName: string)
    /** `createVisit`: the caller already has an open visit with this doctor. */
    | AlreadyOpen(status: Status, doctorName: string)
    /** `register`: the email is taken. */
    | UserAlreadyExists
    /** `register`: the role is not one of the accepted roles. */
    | InvalidRole
    /** `login`: unknown email or wrong password. */
    | InvalidCredentials
    /** A runtime exception (a property read on a missing populated document). */
    | Internal

  /** The status code the error carries; an error without one is answered with 500. */
  function HttpStatus(f: Failure): (code: nat)
    ensures f.DoctorNotFound? <==> code == 404
    ensures code == 401 <==> f.InvalidCredentials?
    ensures code == 400 <==> (f.ActiveVisitWith? || f.AlreadyOpen? || f.UserAlreadyExists? || f.InvalidRole?)
    ensures code == 500 <==> f.Internal?
  {
    match f
    case DoctorNotFound => 404
    case ActiveVisitWith(_) => 400
    case AlreadyOpen(_, _) => 400
    case UserAlreadyExists => 400
    case InvalidRole => 400
    case InvalidCredentials => 401
    case Internal => 500
  }

  function Message(f: Failure): string
  {
    match f
    case DoctorNotFound => "Doctor not found"
    case ActiveVisitWith(name) => "You are currently in an active visit with Dr. " + name + "."
    case AlreadyOpen(s, name) => "You already have a " + StatusName(s) + " visit with Dr. " + name + "."
    case UserAlreadyExists => "User Already Exist"
    case InvalidRole => "Invalid role"
    case InvalidCredentials => "Invalid Email or Password"
    case Internal => "Internal Server Error"
  }
}

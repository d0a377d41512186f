/** What the BirdTag form handlers produce: either a status message and no
    request, or the request that would be sent. */
module Requests {

  datatype Option<T> = None | Some(value: T)

  /** The result of validating a form: `Rejected` carries the status message
      the handler shows before it returns; `Accepted` carries the request it
      goes on to send. */
  datatype Outcome<R> = Rejected(message: string) | Accepted(request: R)

  /** The status shown once validation is over: the rejection message, or
      the form's "in progress" message when the request goes out. */
  function StatusAfter<R>(o: Outcome<R>, inProgress: string): (status: string)
    ensures o.Rejected? ==> status == o.message
    ensures o.Accepted? ==> status == inProgress
  {
    match o
    case Rejected(m) => m
    case Accepted(_) => inProgress
  }

  /** The request, if one is sent. */
  function RequestOf<R>(o: Outcome<R>): (r: Option<R>)
    ensures r.Some? <==> o.Accepted?
    ensures o.Accepted? ==> r.value == o.request
  {
    match o
    case Rejected(_) => None
    case Accepted(req) => Some(req)
  }

  /** The template literal `Bearer ${token}`: an absent token is printed as
      `undefined`. */
  function Bearer(token: Option<string>): (header: string)
    ensures |header| >= 7 && header[..7] == "Bearer "
    ensures token.Some? ==> header[7..] == token.value
    ensures token.None? ==> header[7..] == "undefined"
  {
    "Bearer " + match token
                case Some(t) => t
                case None => "undefined"
  }
}

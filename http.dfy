/** What a handler sends back: a status code and a JSON body, and the common
    `catch` block every handler ends with. */
module Http {
  import opened Base
  import opened MysqlErrors

  /** A response body: `{ message }`, a JSON value, or nothing (204). */
  datatype Body<+T> = Message(text: string) | Json(value: T) | Empty

  datatype Response<+T> = Response(status: int, body: Body<T>)

  /** The outcome of a validation step: go on with a value, or answer now. */
  datatype Check<+T> = Proceed(value: T) | Reject(status: int, message: string)

  function Reply<T>(status: int, message: string): Response<T>
  {
    Response(status, Message(message))
  }

  const InternalError: string := "Internal Server Error"

  /** The 400 every handler answers for a route id that is not a positive
      integer. */
  const MsgIdentificadorInvalido: string := "Identificador inválido."

  /** `catch (error)`: a mapped database error is answered with its status
      and message; anything else goes to `next(error)`, where the
      application's last handler answers 500 (src/app.js:33-37). */
  function ErrorResponse<T>(f: Failure): (r: Response<T>)
    ensures r.body.Message?
    ensures r.status == 400 || r.status == 409 || r.status == 500
    ensures r.status == 500 <==> MapMysqlError(Some(f)).None?
    ensures r.status == 500 ==> r.body.text == InternalError
  {
    match MapMysqlError(Some(f))
    case Some((status, message)) => Response(status, Message(message))
    case None => Response(500, Message(InternalError))
  }
}

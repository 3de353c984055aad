/**
 * The values the ORM core passes around without looking inside them: Go's
 * `interface{}` arguments and parameters, the errors its operations return
 * (a Go panic is modelled as the error `Panic`), and the (text, parameters)
 * pair every generator and every executed statement consists of.
 */
module Values {

  datatype Option<T> = None | Some(value: T)

  /** An `interface{}` value as far as the core distinguishes it. */
  datatype Value =
    | Null                                  // the zero value of an unset attribute
    | Int(i: int)
    | Str(s: string)
    | Dict(entries: map<string, Value>)     // a map[string]interface{}
    | Opaque(id: nat)                       // any other value (floats, times, byte slices, ...)

  datatype Error =
    | Panic(message: string)    // the Go program would abort here
    | Driver(message: string)   // an error returned by database/sql or the driver, passed on unchanged
    | NotFound                  // errors.New("not found") of Session.First

  datatype Result<T> = Ok(value: T) | Err(error: Error)

  /** SQL text with its bound parameters, in placeholder order. */
  datatype Sql = Sql(text: string, vars: seq<Value>)
}

/** Results and errors as the connect RPC framework carries them between handlers,
    interceptors and the transport. */
module Rpc {
  import opened Strings

  datatype Option<+T> = None | Some(value: T)

  /** The two error codes the stub service raises. */
  datatype Code = NotFound | Unimplemented

  /** A connect error: a machine-readable code and a human-readable message. */
  datatype RpcError = RpcError(code: Code, message: string)

  /** What a unary handler returns: a response, or an error (never both). */
  datatype Outcome<+T> = Ok(value: T) | Err(error: RpcError)

  /** The wire name of a code. */
  function CodeName(c: Code): string
  {
    match c
    case NotFound => "not_found"
    case Unimplemented => "unimplemented"
  }

  /** The text `%v` prints for a connect error: the code's name, followed by
      ": " and the message when there is one. */
  function ErrorText(e: RpcError): (s: string)
    ensures IsPrefix(CodeName(e.code), s)
    ensures Contains(s, e.message)
  {
    if e.message == "" then
      ContainsEmpty(CodeName(e.code));
      CodeName(e.code)
    else
      ContainsInfix(CodeName(e.code) + ": ", e.message, "");
      assert CodeName(e.code) + ": " + e.message + "" == CodeName(e.code) + ": " + e.message;
      CodeName(e.code) + ": " + e.message
  }
}

/**
 * The errors the downloader sends on its `errs` channel, one constructor per
 * place in the Go code that produces one.
 */
module Errors {

  /** The two ways strconv.Atoi rejects a string (strconv.ErrSyntax, strconv.ErrRange). */
  datatype NumError = Syntax | Range

  /** The file-system operation named in a Go *os.PathError. */
  datatype Op = Open | Remove

  /** Why that operation failed (fs.ErrNotExist, fs.ErrPermission). */
  datatype Reason = NotExist | Permission

  datatype Error =
      /** client.Head returned no response at all. */
    | Transport
      /** "<url> returned status code <code>". */
    | BadStatus(url: string, code: int)
      /** strconv.Atoi refused the Content-Length header value. */
    | BadContentLength(text: string, kind: NumError)
      /** An os.OpenFile or os.Remove failure, with the path it was given. */
    | PathError(op: Op, path: string, reason: Reason)
}

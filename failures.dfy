/** The exceptions the modelled classes raise or let through, and the results
    of calls that may raise them. */
module Failures {

  /** Why an FTP directory operation failed; each maps to one IOException message. */
  datatype IOReason =
    | DirectoryNotCreated   // "Falha ao criar diretório: " + path
    | FileNotDeleted        // "Falha ao deletar arquivo: " + path
    | DirectoryNotRemoved   // "Falha ao remover diretório: " + path

  datatype Failure =
      /** com.jcraft.jsch.SftpException: the server refused a request with this status code. */
    | SftpStatus(id: nat)
      /** com.jcraft.jsch.JSchException: the SSH session or channel could not be set up. */
    | JschFailure
      /** com.murilonerdx.exceptions.SftpException, with its message and optional cause. */
    | SftpError(message: string, wrapped: Option<Failure>)
      /** java.io.IOException raised by the FTP transfer, naming the path that failed. */
    | IOFailure(reason: IOReason, path: string)
      /** java.lang.NullPointerException. */
    | NullPointer
      /** java.lang.ClassCastException. */
    | ClassCast
      /** java.lang.IllegalArgumentException. */
    | IllegalArgument(message: string)
      /** java.lang.RuntimeException wrapping a cause. */
    | Runtime(inner: Failure)
      /** com.murilonerdx.exceptions.FileTransferException, with its message and cause. */
    | FileTransferError(message: string, cause: Failure)

  datatype Option<T> = None | Some(value: T)

  /** The outcome of a call that returns a value or raises. */
  datatype Result<T> = Ok(value: T) | Err(error: Failure)

  /** The outcome of a `void` call: it returns or it raises. */
  datatype Outcome = Pass | Fail(error: Failure)
}

/** FileTransferFactory: picks the transfer for a protocol tag, matched without
    regard to letter case, and lets every failure out only as a
    FileTransferException carrying the original cause. */
module Factory {
  import opened Failures

  const CreateFailedMessage: string := "Erro ao criar FileTransfer"
  const UnsupportedMessage: string := "Unsupported protocol: "

  /** The connection handed to the factory, by its class: an FtpConnection, any
      other GateConnection (standing for the JSch SFTP connection), or null. */
  datatype Gate = FtpGate | SftpGate | NoGate

  /** The transfer the factory builds. */
  datatype Transfer = FtpTransfer | SftpTransfer

  /** Lower-casing of one character, for the letters A to Z. */
  function LowerChar(c: char): char {
    if 'A' <= c <= 'Z' then (c as int + 32) as char else c
  }

  /** Upper-casing of one character, for the letters a to z. */
  function UpperChar(c: char): char {
    if 'a' <= c <= 'z' then (c as int - 32) as char else c
  }

  /** `String.toLowerCase`, on the letters A to Z. */
  function Lower(s: string): (r: string)
    ensures |r| == |s|
  {
    if s == [] then [] else [LowerChar(s[0])] + Lower(s[1..])
  }

  /** `s` spells `t` up to the case of its letters (`String.equalsIgnoreCase`
      for a lower-case `t`). */
  predicate EqualsIgnoreCase(s: string, t: string) {
    |s| == |t| && forall i :: 0 <= i < |s| ==> s[i] == t[i] || s[i] == UpperChar(t[i])
  }

  predicate IsLowerCase(t: string) {
    forall i :: 0 <= i < |t| ==> LowerChar(t[i]) == t[i] && LowerChar(UpperChar(t[i])) == t[i]
  }

  /** Each character of `Lower(s)` is its character of `s` lower-cased. */
  lemma {:induction false} LowerAt(s: string, i: nat)
    requires i < |s|
    ensures Lower(s)[i] == LowerChar(s[i])
    decreases |s|
  {
    if i > 0 {
      LowerAt(s[1..], i - 1);
    }
  }

  /** Lower-casing `s` gives the lower-case tag `t` exactly when `s` spells
      `t` in any case. */
  lemma LowerMatches(s: string, t: string)
    requires IsLowerCase(t)
    ensures Lower(s) == t <==> EqualsIgnoreCase(s, t)
  {
    if |s| == |t| {
      forall i | 0 <= i < |s| ensures Lower(s)[i] == LowerChar(s[i]) {
        LowerAt(s, i);
      }
      if EqualsIgnoreCase(s, t) {
        assert forall i :: 0 <= i < |s| ==> Lower(s)[i] == t[i];
      }
      if Lower(s) == t {
        forall i | 0 <= i < |s| ensures s[i] == t[i] || s[i] == UpperChar(t[i]) {
          assert LowerChar(s[i]) == t[i];
        }
      }
    }
  }

  /** `create(protocol, connection)`, where `connect` is how the connection's
      own `connect()` ends when it is called: "ftp" takes an FtpConnection's
      client without connecting; "sftp" builds the SFTP transfer, whose
      constructor connects; any other tag is unsupported. A null tag, a failed
      cast, a null connection, a failed connect and an unsupported tag are all
      wrapped alike. */
  function Create(protocol: Option<string>, gate: Gate, connect: Outcome): (r: Result<Transfer>)
    ensures r.Err? ==> r.error.FileTransferError? && r.error.message == CreateFailedMessage
  {
    match protocol
    case None => Err(FileTransferError(CreateFailedMessage, NullPointer))
    case Some(p) =>
      var tag := Lower(p);
      if tag == "ftp" then
        match gate
        case FtpGate => Ok(FtpTransfer)
        case SftpGate => Err(FileTransferError(CreateFailedMessage, ClassCast))
        case NoGate => Err(FileTransferError(CreateFailedMessage, NullPointer))
      else if tag == "sftp" then
        if gate == NoGate then Err(FileTransferError(CreateFailedMessage, NullPointer))
        else if connect.Fail? then Err(FileTransferError(CreateFailedMessage, connect.error))
        else Ok(SftpTransfer)
      else
        Err(FileTransferError(CreateFailedMessage, IllegalArgument(UnsupportedMessage + p)))
  }

  /** "ftp" in any case gives the FTP transfer for an FtpConnection, and never
      depends on how a connect would end. */
  lemma CreateFtp(p: string, gate: Gate, connect: Outcome, other: Outcome)
    requires EqualsIgnoreCase(p, "ftp")
    ensures Create(Some(p), gate, connect) == Create(Some(p), gate, other)
    ensures Create(Some(p), gate, connect).Ok? <==> gate == FtpGate
    ensures Create(Some(p), gate, connect).Ok? ==> Create(Some(p), gate, connect).value == FtpTransfer
    ensures gate == SftpGate ==> Create(Some(p), gate, connect) == Err(FileTransferError(CreateFailedMessage, ClassCast))
  {
    LowerMatches(p, "ftp");
  }

  /** "sftp" in any case gives the SFTP transfer exactly when the connection
      is there and connects; a failed connect is the cause of the failure. */
  lemma CreateSftp(p: string, gate: Gate, connect: Outcome)
    requires EqualsIgnoreCase(p, "sftp")
    ensures Create(Some(p), gate, connect).Ok? <==> gate != NoGate && connect.Pass?
    ensures Create(Some(p), gate, connect).Ok? ==> Create(Some(p), gate, connect).value == SftpTransfer
    ensures gate != NoGate && connect.Fail? ==>
              Create(Some(p), gate, connect) == Err(FileTransferError(CreateFailedMessage, connect.error))
  {
    LowerMatches(p, "sftp");
    assert Lower(p) != "ftp";
  }

  /** Any other tag is unsupported, named as it was given. */
  lemma CreateUnsupported(p: string, gate: Gate, connect: Outcome)
    requires !EqualsIgnoreCase(p, "ftp") && !EqualsIgnoreCase(p, "sftp")
    ensures Create(Some(p), gate, connect)
            == Err(FileTransferError(CreateFailedMessage, IllegalArgument(UnsupportedMessage + p)))
  {
    LowerMatches(p, "ftp");
    LowerMatches(p, "sftp");
  }

  /** The tag is matched on its lower-cased form: tags that lower-case alike
      pick the same transfer. */
  lemma CreateIgnoresCase(p: string, q: string, gate: Gate, connect: Outcome)
    requires Lower(p) == Lower(q)
    ensures Create(Some(p), gate, connect).Ok? <==> Create(Some(q), gate, connect).Ok?
    ensures Create(Some(p), gate, connect).Ok? ==> Create(Some(p), gate, connect) == Create(Some(q), gate, connect)
  {
  }
}

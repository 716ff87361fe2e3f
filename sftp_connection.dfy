/** The SFTP connection (JschSftpConnection): an SSH session and the SFTP channel
    opened over it, created by `connect`, torn down by `disconnect`, and handed
    out by `getChannel` only while the channel is connected. */
module SftpConnection {
  import opened Remote
  import opened Failures
  import opened Jsch

  const ConnectFailedMessage: string := "Falha ao conectar SFTP"
  const NotConnectedMessage: string := "Canal SFTP não está conectado"

  /** The step of `connect` at which the JSch library raises a JSchException:
      obtaining the session, connecting it, opening the channel, connecting it. */
  datatype Stage = GetSession | SessionConnect | OpenChannel | ChannelConnect

  /** What the server offers a new channel: its tree, the home directory a new
      channel starts in, and the paths it refuses requests on. */
  datatype Server = Server(tree: Tree, home: Key, faults: map<Key, nat>)
  {
    ghost predicate Valid() {
      WellFormed(tree) && ProperKey(home)
    }
  }

  /** The handles `disconnect` closes, recorded in the order it closes them. */
  datatype Handle = ChannelHandle | SessionHandle

  class JschSftpConnection {
    const host: string
    const port: int
    const username: string
    const password: string
    var session: Session?
    var channelSftp: SftpChannel?
    ghost var closed: seq<Handle>

    ghost predicate Valid()
      reads this, channelSftp
    {
      channelSftp != null ==> channelSftp.Valid()
    }

    /** `getChannel` hands out the channel exactly when this holds. */
    predicate Live()
      reads this, channelSftp
    {
      channelSftp != null && channelSftp.connected
    }

    /** Stores the endpoint only; nothing is opened yet. */
    constructor(host: string, port: int, username: string, password: string)
      ensures Valid() && !Live()
      ensures session == null && channelSftp == null && closed == []
      ensures this.host == host && this.port == port
      ensures this.username == username && this.password == password
    {
      this.host := host;
      this.port := port;
      this.username := username;
      this.password := password;
      session := null;
      channelSftp := null;
      closed := [];
    }

    /** Opens a session and an SFTP channel on `server`; `failAt` is the step at
        which the library fails, if any. The handles assigned before the failing
        step stay assigned; the channel field is set only at the end. */
    method Connect(server: Server, failAt: Option<Stage>) returns (r: Outcome)
      requires Valid() && server.Valid()
      modifies this
      ensures Valid() && closed == old(closed)
      ensures r.Pass? <==> failAt.None?
      ensures r.Fail? ==> r.error == SftpError(ConnectFailedMessage, Some(JschFailure))
      ensures r.Fail? ==> channelSftp == old(channelSftp)
      ensures failAt == Some(GetSession) ==> session == old(session)
      ensures failAt != Some(GetSession) ==>
                session != null && fresh(session) && session.connected == (failAt != Some(SessionConnect))
      ensures r.Pass? ==>
                && channelSftp != null && fresh(channelSftp) && Live()
                && channelSftp.fs == server.tree && channelSftp.cwd == server.home
                && channelSftp.faults == server.faults && channelSftp.log == []
    {
      if failAt == Some(GetSession) {
        return Fail(SftpError(ConnectFailedMessage, Some(JschFailure)));
      }
      session := new Session();
      if failAt == Some(SessionConnect) {
        return Fail(SftpError(ConnectFailedMessage, Some(JschFailure)));
      }
      session.Connect();
      if failAt == Some(OpenChannel) {
        return Fail(SftpError(ConnectFailedMessage, Some(JschFailure)));
      }
      var channel := new SftpChannel(server.tree, server.home, server.faults);
      if failAt.Some? {
        return Fail(SftpError(ConnectFailedMessage, Some(JschFailure)));
      }
      channel.Connect();
      channelSftp := channel;
      r := Pass;
    }

    /** Closes the channel, then the session, each only if it is there and
        connected; never fails, and a second call closes nothing. */
    method Disconnect()
      requires Valid()
      modifies this, channelSftp, session
      ensures Valid() && !Live()
      ensures channelSftp == old(channelSftp) && session == old(session)
      ensures session != null ==> !session.connected
      ensures closed == old(closed)
                        + (if old(channelSftp != null && channelSftp.connected) then [ChannelHandle] else [])
                        + (if old(session != null && session.connected) then [SessionHandle] else [])
      ensures channelSftp != null ==>
                && channelSftp.fs == old(channelSftp.fs) && channelSftp.cwd == old(channelSftp.cwd)
                && channelSftp.log == old(channelSftp.log)
    {
      if channelSftp != null && channelSftp.connected {
        channelSftp.Disconnect();
        closed := closed + [ChannelHandle];
      }
      if session != null && session.connected {
        session.Disconnect();
        closed := closed + [SessionHandle];
      }
    }

    /** The connected channel, or the "not connected" failure. */
    method GetChannel() returns (r: Result<SftpChannel>)
      ensures r.Ok? <==> Live()
      ensures r.Ok? ==> r.value == channelSftp
      ensures r.Err? ==> r.error == SftpError(NotConnectedMessage, None)
    {
      if channelSftp == null || !channelSftp.connected {
        return Err(SftpError(NotConnectedMessage, None));
      }
      r := Ok(channelSftp);
    }
  }

  /** A new connection, to any endpoint, refuses `getChannel`; after a successful `connect` it hands
      out the channel just opened; after `disconnect`, twice, it refuses again and
      only the first `disconnect` closed anything, channel first. */
  method ConnectionLifecycle(host: string, port: int, username: string, password: string, server: Server)
    returns (before: Result<SftpChannel>, during: Result<SftpChannel>, after: Result<SftpChannel>)
    requires server.Valid()
    ensures before == Err(SftpError(NotConnectedMessage, None))
    ensures during.Ok? && during.value.fs == server.tree && during.value.cwd == server.home
    ensures after == Err(SftpError(NotConnectedMessage, None))
  {
    var c := new JschSftpConnection(host, port, username, password);
    before := c.GetChannel();
    var connected := c.Connect(server, None);
    during := c.GetChannel();
    c.Disconnect();
    assert c.closed == [ChannelHandle, SessionHandle];
    c.Disconnect();
    assert c.closed == [ChannelHandle, SessionHandle];
    after := c.GetChannel();
  }

  /** On a new connection to any endpoint, a `connect` that fails at any step
      leaves `getChannel` refusing. (On a connection that was live, the old
      channel stays, and stays handed out.) */
  method FailedConnectLeavesNoChannel(host: string, port: int, username: string, password: string,
                                      server: Server, failAt: Stage)
    returns (r: Outcome, g: Result<SftpChannel>)
    requires server.Valid()
    ensures r == Fail(SftpError(ConnectFailedMessage, Some(JschFailure)))
    ensures g == Err(SftpError(NotConnectedMessage, None))
  {
    var c := new JschSftpConnection(host, port, username, password);
    r := c.Connect(server, Some(failAt));
    g := c.GetChannel();
  }
}

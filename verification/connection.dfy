/** The `connection.update` listener: what the bot does when the socket
    reports a QR code to scan, a closed connection or an open one. Printing,
    drawing the QR code and the timer itself are effects; here they are
    results. */
module Connection {
  import opened Optional

  /** The socket's connection state as reported in an update. */
  datatype Link = Connecting | Open | Close

  /** The error a close came with: none, a Boom error carrying an HTTP-style
      status code, or any other error. */
  datatype Disconnect = NoError | BoomError(statusCode: int) | OtherError

  /** One update: each field may be absent. */
  datatype Update = Update(connection: Option<Link>, lastDisconnect: Disconnect, qr: Option<string>)

  /** What the listener does: show a QR code, schedule a fresh start of the
      bot after a delay in milliseconds, or announce that it is online. */
  datatype Effect = ShowQr(code: string) | ScheduleRestart(delayMs: nat) | AnnounceOnline

  /** Milliseconds before a closed connection is started again. */
  const RestartDelay: nat := 3000

  /** The status code a close is judged by: a Boom error's own code, and 0
      for no error or an error of any other kind. */
  function StatusCode(d: Disconnect): int
  {
    match d
    case BoomError(c) => c
    case _ => 0
  }

  /** Whether a closed connection is started again: unless the code is the
      library's "logged out" code, passed in as `loggedOut`. */
  predicate Restarts(u: Update, loggedOut: int) {
    u.connection == Some(Close) && StatusCode(u.lastDisconnect) != loggedOut
  }

  /** The listener's effects, in order. A non-empty QR string is shown first;
      then a close that is not a log-out schedules a restart, and an open
      connection is announced. */
  function OnUpdate(u: Update, loggedOut: int): (effects: seq<Effect>)
    ensures |effects| == (if u.qr.Some? && u.qr.value != "" then 1 else 0)
                         + (if Restarts(u, loggedOut) || u.connection == Some(Open) then 1 else 0)
    ensures forall i, j :: 0 <= i < j < |effects| ==> effects[i] != effects[j]
    ensures forall q :: ShowQr(q) in effects <==> u.qr == Some(q) && q != ""
    ensures forall d :: ScheduleRestart(d) in effects <==> d == RestartDelay && Restarts(u, loggedOut)
    ensures AnnounceOnline in effects <==> u.connection == Some(Open)
    ensures |effects| > 0 && effects[0].ShowQr? ==> u.qr.Some?
    ensures u.qr.Some? && u.qr.value != "" ==> effects[0] == ShowQr(u.qr.value)
  {
    var shown := if u.qr.Some? && u.qr.value != "" then [ShowQr(u.qr.value)] else [];
    var after :=
      if u.connection == Some(Close) then
        (if StatusCode(u.lastDisconnect) != loggedOut then [ScheduleRestart(RestartDelay)] else [])
      else if u.connection == Some(Open) then [AnnounceOnline]
      else [];
    shown + after
  }

  /** A close with no error, or with an error that is not a Boom error, is
      judged as code 0, so it is always started again unless 0 is the
      log-out code; a Boom close with the log-out code never is. */
  lemma CloseWithoutBoomRestarts(u: Update, loggedOut: int)
    requires u.connection == Some(Close)
    ensures !u.lastDisconnect.BoomError? ==>
              (ScheduleRestart(RestartDelay) in OnUpdate(u, loggedOut) <==> loggedOut != 0)
    ensures u.lastDisconnect == BoomError(loggedOut) ==>
              forall e :: e in OnUpdate(u, loggedOut) ==> e.ShowQr?
  {
  }

  /** Without a connection state the listener does nothing but show a QR
      code it was given. */
  lemma QrOnly(u: Update, loggedOut: int)
    requires u.connection.None? || u.connection == Some(Connecting)
    ensures forall e :: e in OnUpdate(u, loggedOut) ==> e.ShowQr?
  {
  }
}

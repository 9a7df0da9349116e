/**
 The chat server's handlers, one pure step each: the roster before the event
 and the event's payload in, the roster after it and what the handler did
 out.  A broadcast is a value the step returns; delivering it to every open
 socket is the transport's job.
 */
module Server {
  import opened Wrappers
  import opened Roster
  import opened JsString

  /** The events the server emits to all clients. */
  datatype Event =
    | NewConnection(participants: Roster)
    | NameChanged(id: string, name: string)
    | UserDisconnected(id: string, sender: string)
    | IncomingMessage(message: string, senderName: Option<string>)  // sent as `{message, name}`

  /** The `sender` of every `userDisconnected` event. */
  const SystemSender: string := "system"
  const InvalidMessage: string := "Message is invalid"
  const MessageReceived: string := "Message received"
  const BadRequest: nat := 400
  const Ok: nat := 200

  /** The JSON body of an HTTP reply: `{error: …}` or `{message: …}`. */
  datatype ReplyBody = ErrorBody(error: string) | AckBody(message: string)

  datatype Response = Response(status: nat, body: ReplyBody)

  /** The TypeError raised by assigning `.name` on the `undefined` a failed lookup returns. */
  datatype HandlerError = NameOfUndefined

  /** What one handler run produced. */
  datatype Outcome =
    | Broadcast(event: Event)
    | Reply(emitted: seq<Event>, response: Response)
    | Threw(error: HandlerError)

  datatype Step = Step(roster: Roster, outcome: Outcome)

  /** The payload of `newUser` and `nameChange`. */
  datatype UserData = UserData(id: string, name: string)

  /** The payload of `disconnectUser`. */
  datatype LeaveData = LeaveData(id: string)

  /** The JSON body of `POST /message`; either field may be missing. */
  datatype MessageBody = MessageBody(message: Option<string>, name: Option<string>)

  /** The broadcasts an outcome sends, in order. */
  function Emitted(o: Outcome): seq<Event> {
    match o
    case Broadcast(e) => [e]
    case Reply(es, _) => es
    case Threw(_) => []
  }

  /**
   `newUser`: the record is appended behind every earlier entry, with no check
   on the id or the name, and the roster as it stands after the append is
   broadcast, so the joiner is its last entry.
   */
  function OnNewUser(r: Roster, data: UserData): (s: Step)
    ensures |s.roster| == |r| + 1
    ensures s.roster[..|r|] == r
    ensures s.outcome.Broadcast? && s.outcome.event.NewConnection?
    ensures s.outcome.event.participants == s.roster
    ensures s.roster[|s.roster| - 1] == Participant(data.id, data.name)
  {
    var r' := Join(r, data.id, data.name);
    Step(r', Broadcast(NewConnection(r')))
  }

  /**
   `nameChange`: the first entry with the id takes the new name, everything
   else stays as it was, and the change is broadcast.  An id nobody holds makes
   the lookup yield `undefined`, the assignment throws, and neither the roster
   nor any client hears of it.
   */
  function OnNameChange(r: Roster, data: UserData): (s: Step)
    ensures s.outcome.Threw? <==> Absent(r, data.id)
    ensures s.outcome.Threw? ==> s.outcome.error == NameOfUndefined && s.roster == r
    ensures !s.outcome.Threw? ==>
              && s.outcome == Broadcast(NameChanged(data.id, data.name))
              && |s.roster| == |r|
              && (forall i :: 0 <= i < |r| ==> s.roster[i].id == r[i].id)
              && var k := FirstIndex(r, data.id).value;
                 && s.roster[k] == Participant(data.id, data.name)
                 && (forall i :: 0 <= i < |r| && i != k ==> s.roster[i] == r[i])
  {
    match Rename(r, data.id, data.name)
    case None => Step(r, Threw(NameOfUndefined))
    case Some(r') => Step(r', Broadcast(NameChanged(data.id, data.name)))
  }

  /** Both removal handlers share this: drop the first entry with the id, then announce it. */
  function RemoveAndAnnounce(r: Roster, id: string): (s: Step)
    ensures s.outcome == Broadcast(UserDisconnected(id, SystemSender))
    ensures Absent(r, id) ==> s.roster == r
    ensures !Absent(r, id) ==> |s.roster| == |r| - 1 && s.roster == SkipFirst(r, id)
  {
    LeaveIsSkipFirst(r, id);
    Step(Leave(r, id), Broadcast(UserDisconnected(id, SystemSender)))
  }

  /** `disconnect`: the transport saw the socket close; the id is the socket's own. */
  function OnDisconnect(r: Roster, socketId: string): (s: Step)
    ensures s.outcome == Broadcast(UserDisconnected(socketId, SystemSender))
    ensures Absent(r, socketId) ==> s.roster == r
    ensures !Absent(r, socketId) ==> s.roster == SkipFirst(r, socketId)
  {
    RemoveAndAnnounce(r, socketId)
  }

  /** `disconnectUser`: a client asked to leave; the id is the payload's. */
  function OnDisconnectUser(r: Roster, data: LeaveData): (s: Step)
    ensures s.outcome == Broadcast(UserDisconnected(data.id, SystemSender))
    ensures Absent(r, data.id) ==> s.roster == r
    ensures !Absent(r, data.id) ==> s.roster == SkipFirst(r, data.id)
  {
    RemoveAndAnnounce(r, data.id)
  }

  /** The two removal paths differ only in where the id comes from. */
  lemma DisconnectPathsAgree(r: Roster, id: string)
    ensures OnDisconnect(r, id) == OnDisconnectUser(r, LeaveData(id))
  {
  }

  /** The endpoint's validity test: the message is present and not blank. */
  predicate ValidMessage(body: MessageBody) {
    body.message.Some? && !AllWhitespace(body.message.value)
  }

  /**
   `POST /message`: a missing or blank message is a 400 with no broadcast;
   otherwise the untrimmed text and the sender's name (possibly missing) go out
   in one `incomingMessage` broadcast before the 200.  The roster is never
   touched.
   */
  function OnPostMessage(r: Roster, body: MessageBody): (s: Step)
    ensures s.roster == r
    ensures !ValidMessage(body) ==>
              s.outcome == Reply([], Response(BadRequest, ErrorBody(InvalidMessage)))
    ensures ValidMessage(body) ==>
              s.outcome == Reply([IncomingMessage(body.message.value, body.name)],
                                 Response(Ok, AckBody(MessageReceived)))
  {
    if body.message.None? then
      Step(r, Reply([], Response(BadRequest, ErrorBody(InvalidMessage))))
    else
      TrimEmptyIffBlank(body.message.value);
      if |Trim(body.message.value)| == 0 then
        Step(r, Reply([], Response(BadRequest, ErrorBody(InvalidMessage))))
      else
        Step(r, Reply([IncomingMessage(body.message.value, body.name)],
                      Response(Ok, AckBody(MessageReceived))))
  }
}

/**
 A run of the server: the handlers applied one at a time, in arrival order,
 to one roster.  The event loop never interleaves two handlers, so each step
 is atomic.  A handler that throws ends the run: what the process does after
 an uncaught exception belongs to Node and Socket.IO.
 */
module Session {
  import opened Wrappers
  import opened Roster
  import opened RosterView
  import opened Server

  /** Everything that can reach the server, with its payload. */
  datatype Input =
    | NewUser(user: UserData)
    | NameChange(change: UserData)
    | Disconnect(socketId: string)
    | DisconnectUser(leave: LeaveData)
    | PostMessage(body: MessageBody)

  /**
   Dispatch to the handler.  Every handler broadcasts exactly once, except a
   rename that throws and a rejected message, which broadcast nothing; only
   the socket handlers touch the roster.
   */
  function Handle(r: Roster, input: Input): (s: Step)
    ensures input.PostMessage? ==> s.roster == r && s.outcome.Reply?
    ensures !input.PostMessage? ==> !s.outcome.Reply?
    ensures s.outcome.Threw? ==> input.NameChange? && s.roster == r
    ensures |Emitted(s.outcome)| <= 1
    ensures |Emitted(s.outcome)| == 0 <==>
              s.outcome.Threw? || (input.PostMessage? && !ValidMessage(input.body))
  {
    match input
    case NewUser(d) => OnNewUser(r, d)
    case NameChange(d) => OnNameChange(r, d)
    case Disconnect(sid) => OnDisconnect(r, sid)
    case DisconnectUser(d) => OnDisconnectUser(r, d)
    case PostMessage(b) => OnPostMessage(r, b)
  }

  /** The roster at the end of a run, every broadcast in order, and whether a handler threw. */
  datatype Run = Run(roster: Roster, emitted: seq<Event>, crashed: bool)

  /** The `POST /message` requests in `inputs` whose message is missing or blank. */
  function Rejected(inputs: seq<Input>): (n: nat)
    ensures n <= |inputs|
    decreases |inputs|
  {
    if |inputs| == 0 then 0
    else (if inputs[0].PostMessage? && !ValidMessage(inputs[0].body) then 1 else 0)
         + Rejected(inputs[1..])
  }

  /**
   A run broadcasts once per input it accepts: a run that does not crash
   sends exactly one event for every input but the rejected messages.
   */
  function Replay(r: Roster, inputs: seq<Input>): (run: Run)
    ensures |run.emitted| <= |inputs|
    ensures !run.crashed ==> |run.emitted| == |inputs| - Rejected(inputs)
    ensures run.crashed ==> exists i :: 0 <= i < |inputs| && inputs[i].NameChange?
    decreases |inputs|
  {
    if |inputs| == 0 then Run(r, [], false)
    else
      var s := Handle(r, inputs[0]);
      if s.outcome.Threw? then Run(r, [], true)
      else
        var rest := Replay(s.roster, inputs[1..]);
        assert rest.crashed ==> exists i :: 0 <= i < |inputs| && inputs[i].NameChange? by {
          if rest.crashed {
            var i :| 0 <= i < |inputs| - 1 && inputs[1..][i].NameChange?;
            assert inputs[i + 1].NameChange?;
          }
        }
        Run(rest.roster, Emitted(s.outcome) + rest.emitted, rest.crashed)
  }

  /**
   What each event is meant to do to "who is present, under what name":
   a join adds the id, a rename changes its name (and fails for an id nobody
   holds), a leave drops the id, a chat message changes nothing.
   */
  function Intended(m: map<string, string>, input: Input): Option<map<string, string>> {
    match input
    case NewUser(d) => Some(m[d.id := d.name])
    case NameChange(d) => if d.id in m then Some(m[d.id := d.name]) else None
    case Disconnect(sid) => Some(m - {sid})
    case DisconnectUser(d) => Some(m - {d.id})
    case PostMessage(_) => Some(m)
  }

  datatype Presence = Presence(names: map<string, string>, crashed: bool)

  /** The intended presence after a run, stopping where a rename fails. */
  function IntendedRun(m: map<string, string>, inputs: seq<Input>): Presence
    decreases |inputs|
  {
    if |inputs| == 0 then Presence(m, false)
    else match Intended(m, inputs[0])
      case None => Presence(m, true)
      case Some(m') => IntendedRun(m', inputs[1..])
  }

  /**
   Every join brings an id nobody present holds.  The server takes the id
   from the payload unchecked; it is fresh because the browser client sends
   its own connection id and the transport never gives two open connections
   the same one.  Stated on the intended presence, so it speaks of the run,
   not of the list that implements it.
   */
  predicate FreshJoins(m: map<string, string>, inputs: seq<Input>)
    decreases |inputs|
  {
    if |inputs| == 0 then true
    else
      (inputs[0].NewUser? ==> inputs[0].user.id !in m)
      && match Intended(m, inputs[0])
         case None => true
         case Some(m') => FreshJoins(m', inputs[1..])
  }

  /** One step of the server keeps one entry per id and does to the view what the event intends. */
  lemma StepMatchesIntended(r: Roster, input: Input)
    requires UniqueIds(r)
    requires input.NewUser? ==> input.user.id !in View(r)
    ensures var s := Handle(r, input);
            && (s.outcome.Threw? <==> Intended(View(r), input).None?)
            && (!s.outcome.Threw? ==>
                  UniqueIds(s.roster) && Intended(View(r), input) == Some(View(s.roster)))
  {
    match input
    case NewUser(d) =>
      JoinKeepsUniqueIds(r, d.id, d.name);
      ViewAfterJoin(r, d.id, d.name);
    case NameChange(d) =>
      if !Absent(r, d.id) {
        RenameKeepsUniqueIds(r, d.id, d.name);
        ViewAfterRename(r, d.id, d.name);
      }
    case Disconnect(sid) =>
      LeaveKeepsUniqueIds(r, sid);
      ViewAfterLeave(r, sid);
    case DisconnectUser(d) =>
      LeaveKeepsUniqueIds(r, d.id);
      ViewAfterLeave(r, d.id);
    case PostMessage(_) =>
  }

  /**
   For every sequence of events whose joins bring fresh ids, the roster keeps
   one entry per id and lists exactly the ids joined and not yet left, each
   under its most recent name; and the run fails exactly where a rename names
   an id that is not present.
   */
  lemma {:induction false} ReplayMatchesIntended(r: Roster, inputs: seq<Input>)
    requires UniqueIds(r)
    requires FreshJoins(View(r), inputs)
    ensures UniqueIds(Replay(r, inputs).roster)
    ensures IntendedRun(View(r), inputs)
            == Presence(View(Replay(r, inputs).roster), Replay(r, inputs).crashed)
    decreases |inputs|
  {
    if |inputs| > 0 {
      StepMatchesIntended(r, inputs[0]);
      var s := Handle(r, inputs[0]);
      if !s.outcome.Threw? {
        ReplayMatchesIntended(s.roster, inputs[1..]);
      }
    }
  }

  /**
   The server starts with `participants = []`: from there, every run whose
   joins bring fresh ids keeps the roster equal to the intended presence.
   */
  lemma ReplayFromEmpty(inputs: seq<Input>)
    requires FreshJoins(map[], inputs)
    ensures UniqueIds(Replay([], inputs).roster)
    ensures IntendedRun(map[], inputs)
            == Presence(View(Replay([], inputs).roster), Replay([], inputs).crashed)
  {
    assert View([]) == map[];
    ReplayMatchesIntended([], inputs);
  }
}

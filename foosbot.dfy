/** The game session of the `/` handler: the process-wide `current` status
    (a state and the roster of joined players with their random scores), the
    command dispatch that updates it, and the reply each command produces. */
module Foosbot {
  import opened Slack
  import opened Roster
  import Teams

  /** The session state is a byte: any of 256 values, of which two are named. */
  newtype State = x: int | 0 <= x < 0x100

  const NoGame: State := 0
  const WaitingForPlayers: State := 1

  /** The two states the handler's `switch` has a case for. */
  predicate Known(st: State)
  {
    st == NoGame || st == WaitingForPlayers
  }

  const Explain := "/explain"
  const GiveUp := "/giveup"
  const New := "/new"
  const Play := "/play"
  const Reset := "/reset"
  const Current := "/current"

  const ExplainMessage := "Available commands:\n\t*/new*\t\tStarts a new game\n\t*/play*\t\tJoins current game\n\t*/giveup*\tAbandon current game\n\t*/reset*\t\tHard reset\n\t*/current*\t\tShow status\n"

  const UseNew := "Use the */new* command to start a new one"
  const UseJoin := "Use */play* to join"
  const UseExplain := "Use */explain* for a list of all available commands"
  const GameOn := "<!here> :bell::soccer: *Game is on!* :bell::soccer:"
  const NoPlayersLeft := "No players left: game has been canceled!"

  /** The session: its state and the score of every joined player. */
  datatype Status = Status(state: State, players: map<string, int>)

  /** The value `current` starts with and is reset to. */
  const Initial := Status(NoGame, map[])

  /** The at-rest invariant: no roster without a game, one to three players
      while waiting, and never a state the `switch` has no case for. */
  ghost predicate Invariant(s: Status)
  {
    && Known(s.state)
    && (s.state == NoGame ==> s.players == map[])
    && (s.state == WaitingForPlayers ==> 1 <= |s.players| <= 3)
  }

  /** The status after one request. In `NoGame` only `/new` changes anything;
      while waiting, `/play` by a newcomer, `/giveup` by a player and `/reset`
      do, and a roster that fills up or empties resets the session. */
  function Next(s: Status, command: string, userId: string, score: int): (r: Status)
    requires Known(s.state)
    ensures Known(r.state)
    ensures Invariant(s) ==> Invariant(r)
  {
    if s.state == NoGame then
      if command == New then Status(WaitingForPlayers, map[userId := score]) else s
    else if command == Play && userId !in s.players then
      var joined := s.players[userId := score];
      if |joined| == 4 then Initial else Status(WaitingForPlayers, joined)
    else if command == GiveUp && userId in s.players then
      var remaining := s.players - {userId};
      if |remaining| == 0 then Initial else Status(WaitingForPlayers, remaining)
    else if command == Reset then Initial
    else s
  }

  /** One already-authenticated, already-parsed request, with the score
      `rand.Int()` would give a joining player. */
  datatype Request = Request(command: string, userId: string, score: int)

  /** The status after a sequence of requests, handled one at a time. Every
      status reached from one that keeps the invariant keeps it too. */
  function Run(s: Status, requests: seq<Request>): (r: Status)
    requires Invariant(s)
    ensures Invariant(r)
    decreases |requests|
  {
    if requests == [] then s
    else Run(Next(s, requests[0].command, requests[0].userId, requests[0].score), requests[1..])
  }

  /** Every status the handler can reach from the initial one keeps the
      invariant, so the `default:` case of the `switch` is never taken. */
  lemma ReachableKeepsInvariant(requests: seq<Request>)
    ensures Invariant(Initial)
    ensures Invariant(Run(Initial, requests))
    ensures Known(Run(Initial, requests).state)
  {
  }

  /** `/new` with no game open starts one with the caller alone on the
      roster, whatever map was there before. */
  lemma NewStartsGame(s: Status, userId: string, score: int)
    requires s.state == NoGame
    ensures Next(s, New, userId, score) == Status(WaitingForPlayers, map[userId := score])
  {
  }

  /** The requests that leave the session exactly as it was. */
  ghost predicate Idle(s: Status, command: string, userId: string)
  {
    if s.state == NoGame then command != New
    else if s.state == WaitingForPlayers then
      if command == Play then userId in s.players
      else if command == GiveUp then userId !in s.players
      else command != Reset
    else false
  }

  lemma IdleRequestsChangeNothing(s: Status, command: string, userId: string, score: int)
    requires Invariant(s)
    ensures Idle(s, command, userId) <==> Next(s, command, userId, score) == s
  {
  }

  /** `/play` by someone not yet on the roster adds exactly that player; the
      fourth player completes the game and the session resets. */
  lemma PlayAddsNewcomer(s: Status, userId: string, score: int)
    requires Invariant(s) && s.state == WaitingForPlayers && userId !in s.players
    ensures var r := Next(s, Play, userId, score);
      if |s.players| == 3 then r == Initial
      else
        && r.state == WaitingForPlayers
        && r.players.Keys == s.players.Keys + {userId}
        && r.players[userId] == score
        && (forall uid :: uid in s.players ==> r.players[uid] == s.players[uid])
        && 1 <= 4 - |r.players| <= 2
  {
  }

  /** `/giveup` by a player on the roster removes exactly that player; the
      last one leaving cancels the game. */
  lemma GiveUpRemovesPlayer(s: Status, userId: string, score: int)
    requires Invariant(s) && s.state == WaitingForPlayers && userId in s.players
    ensures var r := Next(s, GiveUp, userId, score);
      if |s.players| == 1 then r == Initial
      else
        && r.state == WaitingForPlayers
        && r.players.Keys == s.players.Keys - {userId}
        && (forall uid :: uid in r.players ==> r.players[uid] == s.players[uid])
        && 2 <= 4 - |r.players| <= 3
  {
  }

  /** `/reset` always leaves no game and an empty roster. */
  lemma ResetCancels(s: Status, userId: string, score: int)
    requires Invariant(s)
    ensures Next(s, Reset, userId, score) == Initial
  {
  }

  /** Whenever a reply asks for `4 - len(Players)` more players, that number
      is between one and three. */
  lemma MissingCountInRange(s: Status, command: string, userId: string, score: int)
    requires Invariant(s)
    ensures var r := Next(s, command, userId, score);
      r.state == WaitingForPlayers ==> 1 <= 4 - |r.players| <= 3
  {
  }

  /** A second `/play` by the same user changes nothing more than the first,
      as long as the first did not complete the game. */
  lemma PlayTwiceJoinsOnce(s: Status, userId: string, score: int, again: int)
    requires Invariant(s) && s.state == WaitingForPlayers
    requires Next(s, Play, userId, score).state == WaitingForPlayers
    ensures var r := Next(s, Play, userId, score);
      Next(r, Play, userId, again) == r
  {
  }

  /** Four distinct users, one `/new` and three `/play`s: the roster grows to
      one, two and three players, and the fourth join resets the session. */
  lemma FourPlayersCompleteGame(u1: string, u2: string, u3: string, u4: string, x1: int, x2: int, x3: int, x4: int)
    requires u1 != u2 && u1 != u3 && u1 != u4 && u2 != u3 && u2 != u4 && u3 != u4
    ensures var s1 := Next(Initial, New, u1, x1);
      var s2 := Next(s1, Play, u2, x2);
      var s3 := Next(s2, Play, u3, x3);
      && s1.state == s2.state == s3.state == WaitingForPlayers
      && |s1.players| == 1 && |s2.players| == 2 && |s3.players| == 3
      && Next(s3, Play, u4, x4) == Initial
      && Run(Initial, [Request(New, u1, x1), Request(Play, u2, x2), Request(Play, u3, x3), Request(Play, u4, x4)]) == Initial
  {
    var s1 := Next(Initial, New, u1, x1);
    var s2 := Next(s1, Play, u2, x2);
    var s3 := Next(s2, Play, u3, x3);
    assert s2.players.Keys == {u1, u2};
    assert s3.players.Keys == {u1, u2, u3};
    assert s3.players[u4 := x4].Keys == {u1, u2, u3, u4};
    var requests := [Request(New, u1, x1), Request(Play, u2, x2), Request(Play, u3, x3), Request(Play, u4, x4)];
    var rest := requests[1..];
    assert rest == [Request(Play, u2, x2), Request(Play, u3, x3), Request(Play, u4, x4)];
    assert rest[1..] == [Request(Play, u3, x3), Request(Play, u4, x4)];
    assert rest[1..][1..] == [Request(Play, u4, x4)];
    assert Run(s3, rest[1..][1..]) == Run(Initial, []);
    assert Run(s2, rest[1..]) == Run(s3, rest[1..][1..]);
    assert Run(s1, rest) == Run(s2, rest[1..]);
    assert Run(Initial, requests) == Run(s1, rest);
  }

  /** The "need k more" attachment. */
  function NeedMore(missing: seq<string>): (notice: string)
  {
    "<!here> The game needs " + Join(missing, "") + " more players"
  }

  /** The headline announcing the two teams. */
  function Versus(first: seq<string>, second: seq<string>): (headline: string)
    requires |first| == 2 && |second| == 2
  {
    "[" + Mention(first[0]) + " - " + Mention(first[1]) + "] vs. ["
    + Mention(second[0]) + " - " + Mention(second[1]) + "]"
  }

  /** The reply to a completed roster names the two lowest-scoring players as
      BOTH teams, as `mkTeams` builds them. */
  ghost predicate AnnouncesTeams(reply: Reply, roster: map<string, int>)
  {
    exists a, b :: Teams.LowestPair(roster, a, b) && Says(reply, Versus([a, b], [a, b]), [GameOn])
  }

  /** The reply the handler writes for one request against status `s`, when
      the k-th `rand.Int()` drawn for glyphs is `draws(k)`. */
  ghost predicate Answers(s: Status, command: string, userId: string, score: int, draws: nat -> nat, reply: Reply)
    requires Known(s.state)
  {
    var r := Next(s, command, userId, score);
    var needMore := [NeedMore(Glyphs(4 - |r.players|, draws))];
    if s.state == NoGame then
      if command in {Play, GiveUp, Current, Reset} then
        Says(reply, Mention(userId) + " There is no open game", [UseNew])
      else if command == New then
        Says(reply, "<!here> User " + Mention(userId) + " just started a new game", [UseJoin])
      else if command == Explain then Says(reply, ExplainMessage, [])
      else Says(reply, "Unrecognized command", [UseExplain])
    else if command == Play then
      if userId in s.players then
        Says(reply, Mention(userId) + " you have already been added to the current game", needMore)
      else if r.state == NoGame then AnnouncesTeams(reply, s.players[userId := score])
      else Says(reply, Mention(userId) + " you have been added to the current game", needMore)
    else if command == GiveUp then
      if userId !in s.players then Says(reply, Mention(userId) + " you are not in the current game", [])
      else if r.state == NoGame then
        Says(reply, "<!here> " + Mention(userId) + " Just abandoned the game", [NoPlayersLeft])
      else Says(reply, "<!here> " + Mention(userId) + " Just abandoned the game", needMore)
    else if command == Reset then Says(reply, "<!here> Game has been canceled!", [])
    else if command == Explain then reply == Raw(ExplainMessage)
    else if command == New then Says(reply, "Game already created", needMore)
    else if command == Current then
      exists mentions :: MentionsExactly(mentions, s.players)
        && Says(reply, "Current players: [" + Join(mentions, ", ") + "]", [UseJoin])
    else Says(reply, "Unrecognized command", [UseExplain])
  }

  /** The process-wide `current` status, updated in place by each request. */
  class Session {
    var state: State
    var players: map<string, int>

    function AsStatus(): (s: Status)
      reads this
    {
      Status(state, players)
    }

    ghost predicate Valid()
      reads this
    {
      Invariant(AsStatus())
    }

    constructor ()
      ensures Valid()
      ensures AsStatus() == Initial
    {
      state := NoGame;
      players := map[];
    }

    /** The `/` handler after authentication and parsing: dispatches on the
        state and the command, updates the session and builds the reply.
        `score` is the `rand.Int()` a joining player gets. */
    method Handle(command: string, userId: string, score: nat, draws: nat -> nat) returns (reply: Reply)
      requires Valid()
      modifies this
      ensures Valid()
      ensures AsStatus() == Next(old(AsStatus()), command, userId, score)
      ensures Answers(old(AsStatus()), command, userId, score, draws, reply)
    {
      if state == NoGame {
        reply := HandleNoGame(command, userId, score);
      } else if state == WaitingForPlayers {
        reply := HandleWaiting(command, userId, score, draws);
      } else {
        assert false;
      }
    }

    /** The `NoGame` case of the `switch`. */
    method HandleNoGame(command: string, userId: string, score: nat) returns (reply: Reply)
      requires Valid() && state == NoGame
      modifies this
      ensures Valid()
      ensures AsStatus() == Next(old(AsStatus()), command, userId, score)
      ensures forall draws :: Answers(old(AsStatus()), command, userId, score, draws, reply)
    {
      if command == Play || command == GiveUp || command == Current || command == Reset {
        var resp := MkSlackResp(Mention(userId) + " There is no open game", [UseNew]);
        reply := Json(resp);
      } else if command == New {
        state := WaitingForPlayers;
        players := map[];
        players := players[userId := score];
        var resp := MkSlackResp("<!here> User " + Mention(userId) + " just started a new game", [UseJoin]);
        reply := Json(resp);
      } else if command == Explain {
        var resp := MkSlackResp(ExplainMessage, []);
        reply := Json(resp);
      } else {
        var resp := MkSlackResp("Unrecognized command", [UseExplain]);
        reply := Json(resp);
      }
    }

    /** The `WaitingForPlayers` case of the `switch`. */
    method HandleWaiting(command: string, userId: string, score: nat, draws: nat -> nat) returns (reply: Reply)
      requires Valid() && state == WaitingForPlayers
      modifies this
      ensures Valid()
      ensures AsStatus() == Next(old(AsStatus()), command, userId, score)
      ensures Answers(old(AsStatus()), command, userId, score, draws, reply)
    {
      if command == Play {
        reply := HandlePlay(userId, score, draws);
      } else if command == GiveUp {
        reply := HandleGiveUp(userId, score, draws);
      } else if command == Reset {
        var resp := MkSlackResp("<!here> Game has been canceled!", []);
        reply := Json(resp);
        state, players := NoGame, map[];
      } else if command == Explain {
        reply := Raw(ExplainMessage);
      } else if command == New {
        var missing := MkMissingPlayers(4 - |players|, draws);
        GlyphsDetermined(missing, 4 - |players|, draws);
        var resp := MkSlackResp("Game already created", [NeedMore(missing)]);
        reply := Json(resp);
      } else if command == Current {
        var mentions := GetPlayers(players);
        var resp := MkSlackResp("Current players: [" + Join(mentions, ", ") + "]", [UseJoin]);
        reply := Json(resp);
      } else {
        var resp := MkSlackResp("Unrecognized command", [UseExplain]);
        reply := Json(resp);
      }
    }

    /** `/play` while waiting for players. */
    method HandlePlay(userId: string, score: nat, draws: nat -> nat) returns (reply: Reply)
      requires Valid() && state == WaitingForPlayers
      modifies this
      ensures Valid()
      ensures AsStatus() == Next(old(AsStatus()), Play, userId, score)
      ensures Answers(old(AsStatus()), Play, userId, score, draws, reply)
    {
      var ok := userId in players;
      if !ok {
        players := players[userId := score];
        if |players| == 4 {
          var firstTeam, secondTeam := Teams.MkTeams(players);
          var resp := MkSlackResp(Versus(firstTeam, secondTeam), [GameOn]);
          reply := Json(resp);
          state, players := NoGame, map[];
        } else {
          var missing := MkMissingPlayers(4 - |players|, draws);
          GlyphsDetermined(missing, 4 - |players|, draws);
          var resp := MkSlackResp(Mention(userId) + " you have been added to the current game", [NeedMore(missing)]);
          reply := Json(resp);
        }
      } else {
        var missing := MkMissingPlayers(4 - |players|, draws);
        GlyphsDetermined(missing, 4 - |players|, draws);
        var resp := MkSlackResp(Mention(userId) + " you have already been added to the current game", [NeedMore(missing)]);
        reply := Json(resp);
      }
    }

    /** `/giveup` while waiting for players. `score` only names the
        transition: `/giveup` draws no score. */
    method HandleGiveUp(userId: string, score: nat, draws: nat -> nat) returns (reply: Reply)
      requires Valid() && state == WaitingForPlayers
      modifies this
      ensures Valid()
      ensures AsStatus() == Next(old(AsStatus()), GiveUp, userId, score)
      ensures Answers(old(AsStatus()), GiveUp, userId, score, draws, reply)
    {
      var ok := userId in players;
      if ok {
        players := players - {userId};
        if |players| == 0 {
          var resp := MkSlackResp("<!here> " + Mention(userId) + " Just abandoned the game", [NoPlayersLeft]);
          reply := Json(resp);
          state, players := NoGame, map[];
        } else {
          var missing := MkMissingPlayers(4 - |players|, draws);
          GlyphsDetermined(missing, 4 - |players|, draws);
          var resp := MkSlackResp("<!here> " + Mention(userId) + " Just abandoned the game", [NeedMore(missing)]);
          reply := Json(resp);
        }
      } else {
        var resp := MkSlackResp(Mention(userId) + " you are not in the current game", []);
        reply := Json(resp);
      }
    }
  }
}

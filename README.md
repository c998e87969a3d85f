# foosbot game session, modelled in Dafny

foosbot is a Slack slash-command bot that gathers four players for a game of
table football. This project models the core of its `/` handler in
`foosbot.go`: the single process-wide `current` status (a state and a roster
mapping each joined user id to the random score drawn when they joined), the
command dispatch that moves it between `NoGame` and `WaitingForPlayers`, and
the helpers the handler uses to build its reply. Those helpers are the team
builder `mkTeams` with its `byScore` ordering, the "need k more" glyph list
`mkMissingPlayers`, the roster listing `Status.getPlayers`, and the attachment
list of `mkSlackResp`.

Files and modules:

- `slack.dfy`, module `Slack`: the response (`response_type`, `text`,
  attachments), the raw-body reply that `/explain` writes while a game is
  open, and `MkSlackResp`.
- `roster.dfy`, module `Roster`: user mentions, `GetPlayers`, the glyphs and
  `MkMissingPlayers`, and `strings.Join`.
- `teams.dfy`, module `Teams`: challengers, `byScore` (`Less`, `Swap` and an
  insertion sort standing in for `sort.Sort`), and `MkTeams`.
- `foosbot.dfy`, module `Foosbot`: the `Status` value, the invariant, the
  transition function `Next` that specifies each request, the reply each
  request gets (`Answers`), lemmas about them, and the class `Session`. Its
  fields `state` and `players` are updated in place by `Handle`, which is
  split into one method per case of the handler's `switch`.

The invariant is "no game means an empty roster, and a waiting game has one to
three players". It also requires the state to be one of the two that the
`switch` handles. `Next` preserves it, so every reachable status satisfies it.
So the `default:` case (a process abort) is never reached, and every
"need k more" notice asks for one to three players.

`mkTeams` is modelled as written. Lines 126-129 fill both teams from the two
lowest-scoring challengers, so the handler announces the same pair of players
as both sides. The model states exactly that (`right == left`). It does not
claim the teams are disjoint, and it does not break score ties by user id:
`sort.Sort` is not stable, and the model promises only ordering by score and a
permutation.

The three places the handler calls `rand.Int()` are inputs. A joining
player's score is the `score` argument. The k-th draw inside
`mkMissingPlayers` is `draws(k)`, whose parity picks `:man:` or `:woman:`.
Go's map iteration order is left unspecified. The model picks keys with `:|`,
so `GetPlayers` and `MkTeams` are proved for every order.

The code has no lock around `current`, so each request is modelled as one
sequential step. Duplicate `/play` deliveries are absorbed by the "already
joined" branch (`PlayTwiceJoinsOnce`).

## Model

| member | source | states |
|---|---|---|
| `Slack.MkSlackResp` | foosbot.go:150-162 | the response is `in_channel`, carries the given text, and has one attachment per input text, in the same order |
| `Roster.MentionInjective` | foosbot.go:73 | two users with the same `<@uid>` mention are the same user |
| `Roster.GetPlayers` | foosbot.go:70-76 | returns `len(Players)` strings, exactly one `<@uid>` per key of the roster, with no repeats and nothing else |
| `Roster.MkMissingPlayers` | foosbot.go:79-91 | returns exactly `n` glyphs, each `:man:` or `:woman:`, the i-th picked by the parity of the i-th draw |
| `Roster.GlyphsDetermined` | foosbot.go:79-91 | a glyph list of length `n` drawn from `:man:`/`:woman:`, each `:man:` exactly when its draw is even, is determined by the draws: it is the notice `Answers` expects |
| `Teams.Swap` | foosbot.go:114 | exchanges two entries and keeps the same multiset of challengers |
| `Teams.SortByScore` | foosbot.go:111-124 | after `sort.Sort(byScore(...))`, ordered by `byScore.Less` (`Less`), no challenger has a lower score than one before it, and the slice is a permutation of its input |
| `Teams.ListsRosterPermutation` | foosbot.go:119-124 | reordering a slice that lists every roster entry once with its score still lists every entry once with its score |
| `Teams.CollectChallengers` | foosbot.go:117-122 | the four-slot slice lists every roster entry exactly once, with its score |
| `Teams.MkTeams` | foosbot.go:116-132 | `LowestPair`: `left` holds two distinct roster keys whose scores are not above those of the other two keys, and `right` equals `left` |
| `Foosbot.Next` | foosbot.go:202-299 | every transition of a status satisfying the invariant yields one satisfying it, and never a state outside the `switch` |
| `Foosbot.Run` | foosbot.go:195-303 | any sequence of requests handled one at a time from a valid status ends in a valid status |
| `Foosbot.ReachableKeepsInvariant` | foosbot.go:65-68 | the initial status is valid, and every status reached from it is valid with a state the `switch` handles, so the `default:` case at lines 300-302 cannot be reached |
| `Foosbot.NewStartsGame` | foosbot.go:208-212 | `/new` with no game open gives `WaitingForPlayers` with exactly `{userId: score}`, replacing any previous map |
| `Foosbot.IdleRequestsChangeNothing` | foosbot.go:202-299 | a request leaves state and roster unchanged if and only if it is one of these. With no game: any command but `/new`. While waiting: `/play` by a joined user, `/giveup` by an absent one, or any command other than `/play`, `/giveup` and `/reset` |
| `Foosbot.PlayAddsNewcomer` | foosbot.go:225-243 | `/play` by a new user adds exactly that key with its score and keeps every other entry. The fourth player resets to `NoGame` with an empty roster. Otherwise one or two players are still missing |
| `Foosbot.GiveUpRemovesPlayer` | foosbot.go:252-269 | `/giveup` by a joined user removes exactly that key and keeps every other entry. The last player leaving resets to `NoGame` with an empty roster. Otherwise two or three players are missing |
| `Foosbot.ResetCancels` | foosbot.go:276-281 | `/reset` from any valid status gives `NoGame` with an empty roster |
| `Foosbot.MissingCountInRange` | foosbot.go:240-288 | whenever the session is left waiting, `4 - len(Players)` is between 1 and 3 |
| `Foosbot.PlayTwiceJoinsOnce` | foosbot.go:244-251 | a second `/play` by a user whose first `/play` did not complete the game changes nothing |
| `Foosbot.FourPlayersCompleteGame` | foosbot.go:208-237 | `/new` and three `/play`s by four distinct users pass through rosters of size 1, 2 and 3, then return to `NoGame` with an empty roster |
| `Foosbot.Session.constructor` | foosbot.go:65-68 | `current` starts as `NoGame` with an empty map, which satisfies the invariant |
| `Foosbot.Session.Handle` | foosbot.go:202-303 | the new status is `Next` of the old one, the invariant is kept, and the reply is the one `Answers` gives for that state and command |
| `Foosbot.Session.HandleNoGame` | foosbot.go:203-222 | the `NoGame` case: only `/new` changes the status; each command group gets its headline and attachments |
| `Foosbot.Session.HandleWaiting` | foosbot.go:223-299 | the `WaitingForPlayers` case: `/reset` cancels the game, `/explain` writes the raw command list, `/new` reports the open game with a "need k more" notice, `/current` lists every player exactly once |
| `Foosbot.Session.HandlePlay` | foosbot.go:225-251 | `/play` while waiting: a newcomer is added. A full roster announces the two lowest-scoring players as both teams and resets. Otherwise the reply carries `4 - len(Players)` glyphs |
| `Foosbot.Session.HandleGiveUp` | foosbot.go:252-275 | `/giveup` while waiting: a joined user is removed, and the last one leaving cancels the game. An absent user gets a "not in the game" reply and nothing changes |

## Left out

- Request authentication (`exSignedReqBody`, lines 20-43) is left out. It is built on HMAC-SHA256 and hex encoding from Go's library, reads the request body and indexes header maps. The model takes an already-verified request.
- Request parsing (`parseCommand`, lines 134-148) is left out. It relies on `net/url.ParseQuery`. The model takes the parsed `(command, userId)` pair. The `user_name` field is only logged and is not modelled.
- JSON marshalling, the `Content-Type` header and writing to the `http.ResponseWriter` (lines 151, 164-170, 214, 283) are left out. The model returns the response value, or the raw body that `/explain` writes while a game is open.
- `main`, the HTTP server and `/ping` (lines 182-193, 306), reading `SECRET` in `init` (lines 174-180), and every `log` call are left out. This includes the `log.Fatalf` aborts at lines 189 and 199. The abort at line 301 is proved unreachable instead.
- Randomness (`rand.Int`, lines 82, 212, 228) is an input: the `score` argument and the `draws` function.
- Concurrency is left out. The source takes no lock around `current`, and each request is modelled as one sequential step.
- Integer widths are not modelled. Scores are only stored and compared, and rosters never exceed four entries, so 64-bit `int` and unbounded integers agree here.
- Teams.MkTeams: requires exactly four roster entries, which is the only way the handler calls it (line 230). With more entries Go panics on the slice index. With fewer, the zero-valued challengers take part in the sort. Neither case is modelled.
- Teams.SortByScore: is an insertion sort standing in for `sort.Sort`. It promises only order by score and a permutation, and nothing about the order of equal scores.
- Roster.MkMissingPlayers: requires `n >= 0`, because `make([]string, 0, n)` panics on a negative capacity. Every call site passes 1 to 3 (`Foosbot.MissingCountInRange`).

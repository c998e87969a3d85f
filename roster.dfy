/** Text helpers of the handler: the `<@uid>` mention of a user, the list of
    mentions of the current players, and the "need k more" glyph list. */
module Roster {

  /** Slack's mention syntax for a user id, as `fmt.Sprintf("<@%s>", uid)`. */
  function Mention(uid: string): (m: string)
  {
    "<@" + uid + ">"
  }

  /** Different users get different mentions. */
  lemma MentionInjective(a: string, b: string)
    requires Mention(a) == Mention(b)
    ensures a == b
  {
    assert a == Mention(a)[2..|Mention(a)| - 1];
    assert b == Mention(b)[2..|Mention(b)| - 1];
  }

  /** `strings.Join(parts, sep)`. */
  function Join(parts: seq<string>, sep: string): (joined: string)
  {
    if |parts| == 0 then ""
    else if |parts| == 1 then parts[0]
    else parts[0] + sep + Join(parts[1..], sep)
  }

  /** `r` holds one mention per user of `players`, each exactly once, in
      some order. */
  ghost predicate MentionsExactly(r: seq<string>, players: map<string, int>)
  {
    && |r| == |players|
    && (forall i :: 0 <= i < |r| ==> exists uid :: uid in players && r[i] == Mention(uid))
    && (forall uid :: uid in players ==> Mention(uid) in r)
    && (forall i, j :: 0 <= i < j < |r| ==> r[i] != r[j])
  }

  /** `Status.getPlayers`: the mentions of every player, in map iteration
      order (which is unspecified, so it is chosen freely here). */
  method GetPlayers(players: map<string, int>) returns (r: seq<string>)
    ensures MentionsExactly(r, players)
  {
    r := [];
    ghost var done: seq<string> := [];
    var rest := players.Keys;
    while rest != {}
      invariant rest <= players.Keys
      invariant |r| == |done|
      invariant forall i :: 0 <= i < |done| ==> r[i] == Mention(done[i])
      invariant forall i :: 0 <= i < |done| ==> done[i] in players && done[i] !in rest
      invariant forall uid :: uid in players && uid !in rest ==> uid in done
      invariant forall i, j :: 0 <= i < j < |done| ==> done[i] != done[j]
      invariant |done| + |rest| == |players|
      decreases rest
    {
      var uid :| uid in rest;
      forall i | 0 <= i < |r|
        ensures r[i] != Mention(uid)
      {
        if r[i] == Mention(uid) {
          MentionInjective(done[i], uid);
        }
      }
      r := r + [Mention(uid)];
      done := done + [uid];
      rest := rest - {uid};
    }
    forall i, j | 0 <= i < j < |r|
      ensures r[i] != r[j]
    {
      if r[i] == r[j] {
        MentionInjective(done[i], done[j]);
      }
    }
    forall uid | uid in players
      ensures Mention(uid) in r
    {
      var i :| 0 <= i < |done| && done[i] == uid;
      assert r[i] == Mention(uid);
    }
  }

  const Man := ":man:"
  const Woman := ":woman:"

  /** The glyph drawn from one `rand.Int()` value. */
  function Glyph(draw: nat): (g: string)
  {
    if draw % 2 == 0 then Man else Woman
  }

  /** The glyph list `mkMissingPlayers(n)` builds when its k-th call to
      `rand.Int()` returns `draws(k)`. */
  function Glyphs(n: int, draws: nat -> nat): (r: seq<string>)
  {
    seq(if n > 0 then n else 0, i requires 0 <= i => Glyph(draws(i)))
  }

  /** `mkMissingPlayers`: one glyph per missing player, `:man:` for an even
      draw and `:woman:` for an odd one. A negative `n` makes
      `make([]string, 0, n)` panic, so callers must pass `n >= 0`. */
  method MkMissingPlayers(n: int, draws: nat -> nat) returns (missing: seq<string>)
    requires n >= 0
    ensures |missing| == n
    ensures forall g :: g in missing ==> g == Man || g == Woman
    ensures forall i :: 0 <= i < n ==> (missing[i] == Man <==> draws(i) % 2 == 0)
  {
    missing := [];
    var left := n;
    var k: nat := 0;
    while left > 0
      invariant k == |missing|
      invariant left == n - k && left >= 0
      invariant forall i :: 0 <= i < k ==> missing[i] == Glyph(draws(i))
    {
      var r := draws(k) % 2;
      if r == 0 {
        missing := missing + [Man];
      } else {
        missing := missing + [Woman];
      }
      left := left - 1;
      k := k + 1;
    }
  }

  /** A list of `n` glyphs from the two-glyph alphabet, each `:man:` exactly
      when its draw is even, is the one `Glyphs` describes: the draws
      determine the notice. */
  lemma GlyphsDetermined(missing: seq<string>, n: nat, draws: nat -> nat)
    requires |missing| == n
    requires forall g :: g in missing ==> g == Man || g == Woman
    requires forall i :: 0 <= i < n ==> (missing[i] == Man <==> draws(i) % 2 == 0)
    ensures missing == Glyphs(n, draws)
  {
    var expected := Glyphs(n, draws);
    assert |expected| == n;
    forall i | 0 <= i < n
      ensures missing[i] == expected[i]
    {
      assert missing[i] in missing;
    }
  }
}

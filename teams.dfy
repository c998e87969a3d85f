/** Team building once four players have joined: every player carries the
    random score drawn when they joined, the four are sorted by score, and the
    two lowest are announced. */
module Teams {

  datatype Challenger = Challenger(uid: string, score: int)

  /** `byScore.Less`. */
  predicate Less(x: Challenger, y: Challenger)
  {
    x.score < y.score
  }

  /** No challenger is less than one before it. Ties are left in any order:
      `sort.Sort` is not stable. */
  ghost predicate SortedByScore(s: seq<Challenger>)
  {
    forall i, j :: 0 <= i < j < |s| ==> !Less(s[j], s[i])
  }

  /** `byScore.Swap`. */
  method Swap(a: array<Challenger>, i: nat, j: nat)
    requires i < a.Length && j < a.Length
    modifies a
    ensures a[..] == old(a[..])[i := old(a[j])][j := old(a[i])]
    ensures multiset(a[..]) == old(multiset(a[..]))
  {
    a[i], a[j] := a[j], a[i];
  }

  /** `sort.Sort(byScore(a))`, written as an insertion sort over `Less` and
      `Swap`: the result is ordered by score and a permutation of the input. */
  method SortByScore(a: array<Challenger>)
    modifies a
    ensures SortedByScore(a[..])
    ensures multiset(a[..]) == old(multiset(a[..]))
  {
    var i := 0;
    while i < a.Length
      invariant 0 <= i <= a.Length
      invariant SortedByScore(a[..i])
      invariant multiset(a[..]) == old(multiset(a[..]))
    {
      var j := i;
      while j > 0 && Less(a[j], a[j - 1])
        invariant 0 <= j <= i
        invariant forall p, q :: 0 <= p < q <= i && p != j && q != j ==> a[p].score <= a[q].score
        invariant forall q :: j < q <= i ==> a[j].score <= a[q].score
        invariant multiset(a[..]) == old(multiset(a[..]))
      {
        Swap(a, j - 1, j);
        j := j - 1;
      }
      i := i + 1;
    }
  }

  /** `s` lists every entry of `players` exactly once, with its score. */
  ghost predicate ListsRoster(s: seq<Challenger>, players: map<string, int>)
  {
    && |s| == |players|
    && (forall i :: 0 <= i < |s| ==> s[i].uid in players && players[s[i].uid] == s[i].score)
    && (forall uid :: uid in players ==> exists i :: 0 <= i < |s| && s[i].uid == uid)
    && (forall i, j :: 0 <= i < j < |s| ==> s[i].uid != s[j].uid)
  }

  /** In a sequence without repetitions every value occurs at most once. */
  lemma {:induction false} DistinctOccursOnce<T>(s: seq<T>, x: T)
    requires forall i, j :: 0 <= i < j < |s| ==> s[i] != s[j]
    ensures multiset(s)[x] <= 1
  {
    if |s| > 0 {
      var init := s[..|s| - 1];
      assert s == init + [s[|s| - 1]];
      DistinctOccursOnce(init, x);
      if x == s[|s| - 1] {
        assert x !in init;
      }
    }
  }

  /** A value at two positions occurs at least twice. */
  lemma RepeatOccursTwice<T>(s: seq<T>, i: nat, j: nat)
    requires i < j < |s| && s[i] == s[j]
    ensures multiset(s)[s[i]] >= 2
  {
    assert s == s[..j] + s[j..];
    assert s[i] in s[..j];
    assert s[j] in s[j..];
  }

  /** Listing a roster does not depend on the order of the list. */
  lemma ListsRosterPermutation(s: seq<Challenger>, t: seq<Challenger>, players: map<string, int>)
    requires ListsRoster(s, players)
    requires multiset(s) == multiset(t)
    ensures ListsRoster(t, players)
  {
    assert |t| == |multiset(t)| == |multiset(s)| == |s|;
    forall i | 0 <= i < |t|
      ensures t[i] in s
    {
      assert t[i] in multiset(t);
    }
    forall uid | uid in players
      ensures exists i :: 0 <= i < |t| && t[i].uid == uid
    {
      var k :| 0 <= k < |s| && s[k].uid == uid;
      assert s[k] in multiset(s);
      assert s[k] in t;
    }
    forall i, j | 0 <= i < j < |t|
      ensures t[i].uid != t[j].uid
    {
      if t[i].uid == t[j].uid {
        assert t[i] == t[j];
        RepeatOccursTwice(t, i, j);
        forall p, q | 0 <= p < q < |s|
          ensures s[p] != s[q]
        {
        }
        DistinctOccursOnce(s, t[i]);
        assert false;
      }
    }
  }

  /** The first half of `mkTeams`: a fresh four-slot slice of zero
      challengers, filled with the entries of `players` in map iteration order
      (unspecified, so chosen freely here). */
  method CollectChallengers(players: map<string, int>) returns (challengers: array<Challenger>)
    requires |players| == 4
    ensures fresh(challengers)
    ensures ListsRoster(challengers[..], players)
  {
    challengers := new Challenger[4](_ => Challenger("", 0));
    var i := 0;
    var rest := players.Keys;
    ghost var done: seq<string> := [];
    while rest != {}
      invariant rest <= players.Keys
      invariant i + |rest| == 4 && |done| == i
      invariant forall k :: 0 <= k < i ==>
                  challengers[k].uid == done[k] && done[k] in players && done[k] !in rest &&
                  players[done[k]] == challengers[k].score
      invariant forall uid :: uid in players && uid !in rest ==> uid in done
      invariant forall p, q :: 0 <= p < q < i ==> done[p] != done[q]
      decreases rest
    {
      var p :| p in rest;
      challengers[i] := Challenger(p, players[p]);
      i := i + 1;
      done := done + [p];
      rest := rest - {p};
    }
    forall uid | uid in players
      ensures exists k :: 0 <= k < 4 && challengers[k].uid == uid
    {
      var k :| 0 <= k < 4 && done[k] == uid;
    }
  }

  /** `a` and `b` are two different players of `roster`, `a` scoring no more
      than `b`, and `b` scoring no more than anyone else. */
  ghost predicate LowestPair(roster: map<string, int>, a: string, b: string)
  {
    && a != b && a in roster && b in roster
    && roster[a] <= roster[b]
    && (forall uid :: uid in roster && uid != a && uid != b ==> roster[b] <= roster[uid])
  }

  /** `mkTeams`: collects the four entries, sorts them by score and fills
      BOTH teams with the two lowest-scoring players, so the two teams are the
      same pair. */
  method MkTeams(players: map<string, int>) returns (left: seq<string>, right: seq<string>)
    requires |players| == 4
    ensures |left| == 2 && LowestPair(players, left[0], left[1])
    ensures right == left
  {
    var challengers := CollectChallengers(players);
    ghost var listed := challengers[..];
    SortByScore(challengers);
    ghost var sorted := challengers[..];
    ListsRosterPermutation(listed, sorted, players);

    left := [challengers[0].uid, challengers[1].uid];
    right := [challengers[0].uid, challengers[1].uid];

    forall uid | uid in players && uid != left[0] && uid != left[1]
      ensures players[left[1]] <= players[uid]
    {
      var k :| 0 <= k < 4 && sorted[k].uid == uid;
      assert !Less(sorted[k], sorted[1]);
    }
    assert !Less(sorted[1], sorted[0]);
  }
}

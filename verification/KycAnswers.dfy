/** What each step of a tier request and of its review does, cause by cause, in terms of its inputs. */
module KycAnswers {
  import opened Common
  import opened KycTiers

  /** The four tiers by rank, whatever the case of their letters. */
  ghost predicate Rank(name: string, n: nat) {
    || (n == 0 && Upper(name) == "NONE") || (n == 1 && Upper(name) == "BASIC")
    || (n == 2 && Upper(name) == "ADVANCED") || (n == 3 && Upper(name) == "VERIFIED")
  }

  /** A user without a tier, or with one that is none of the four, ranks lowest. */
  ghost predicate RanksAt(tier: Option<string>, n: nat) {
    if tier.Some? && exists m: nat :: Rank(tier.value, m) then Rank(tier.value, n) else n == 0
  }

  lemma RankIsLevel(name: string, n: nat)
    ensures Rank(name, n) <==> TierLevel(Upper(name)) == Some(n)
  {
    assert "NONE"[0] == 'N' && "BASIC"[0] == 'B' && "ADVANCED"[0] == 'A' && "VERIFIED"[0] == 'V';
  }

  lemma NoTierIsLowest()
    ensures TierLevel(Upper("NONE")) == Some(0)
  {
    TierFacts();
  }

  lemma RanksAtLevel(tier: Option<string>, n: nat)
    ensures RanksAt(tier, n) <==> Level(tier) == n
  {
    NoTierIsLowest();
    if tier.Some? {
      RankIsLevel(tier.value, Level(tier));
      RankIsLevel(tier.value, n);
      forall m: nat ensures Rank(tier.value, m) <==> TierLevel(Upper(tier.value)) == Some(m) { RankIsLevel(tier.value, m); }
    }
  }

  /** The refusals of a request, cause by cause: an unknown user; a tier that is none of the four; one that does not rank above the
      user's; and, at the second read, a pending request. */
  lemma RequestExactly(s: State, u: string, tier: string)
    ensures var refusal := RequestRefusal(s, u, tier);
            && (refusal == Some(UserNotFound) <==> u !in s.users)
            && (refusal == Some(InvalidTier) <==> u in s.users && forall n: nat :: !Rank(tier, n))
            && (refusal == Some(NotHigher) <==> u in s.users && exists n: nat, m: nat :: Rank(tier, n) && RanksAt(s.users[u], m) && n <= m)
            && (refusal == Some(AlreadyPending) <==>
                  && u in s.users && (exists n: nat, m: nat :: Rank(tier, n) && RanksAt(s.users[u], m) && n > m)
                  && exists i :: 0 <= i < |s.upgrades| && s.upgrades[i].userId == u && s.upgrades[i].review == Waiting)
            && (refusal == None <==>
                  && u in s.users && (exists n: nat, m: nat :: Rank(tier, n) && RanksAt(s.users[u], m) && n > m)
                  && forall i :: 0 <= i < |s.upgrades| && s.upgrades[i].userId == u ==> s.upgrades[i].review != Waiting)
  {
    LevelExactly(s.users, u, tier);
    PendingExactly(s.upgrades, u);
  }

  lemma PendingExactly(rows: seq<Upgrade>, u: string)
    ensures HasPending(rows, u) <==> exists i :: 0 <= i < |rows| && rows[i].userId == u && rows[i].review == Waiting
  {
    if i :| 0 <= i < |rows| && rows[i].userId == u && rows[i].review == Waiting { assert IsPending(rows, i); }
  }

  lemma LevelExactly(users: map<string, Option<string>>, u: string, tier: string)
    ensures var refusal := LevelRefusal(users, u, tier);
            && (refusal == Some(UserNotFound) <==> u !in users)
            && (refusal == Some(InvalidTier) <==> u in users && forall n: nat :: !Rank(tier, n))
            && (refusal == Some(NotHigher) <==> u in users && exists n: nat, m: nat :: Rank(tier, n) && RanksAt(users[u], m) && n <= m)
            && (refusal == None <==> u in users && exists n: nat, m: nat :: Rank(tier, n) && RanksAt(users[u], m) && n > m)
            && (refusal.Some? ==> refusal.value in {UserNotFound, InvalidTier, NotHigher})
  {
    forall n: nat ensures Rank(tier, n) <==> TierLevel(Upper(tier)) == Some(n) { RankIsLevel(tier, n); }
    if u in users {
      forall m: nat ensures RanksAt(users[u], m) <==> Level(users[u]) == m { RanksAtLevel(users[u], m); }
      var requested := TierLevel(Upper(tier));
      if requested.Some? { assert Rank(tier, requested.value) && RanksAt(users[u], Level(users[u])); }
    }
  }

  /** The steps of a request: the first read records the tier as the user has it, NONE for none, and the tier asked for in capitals; the
      second goes on if and only if the user has no pending request at that moment; the write adds the row as it was recorded. */
  lemma RequestSteps(s: State, u: string, tier: string, c: nat)
    ensures u in s.users && LevelRefusal(s.users, u, tier) == None ==>
              var row := Upgrade(u, if s.users[u].Some? then s.users[u].value else "NONE", Upper(tier), Waiting);
              Step(s, ReadUser(u, tier)) == s.(calls := s.calls + [Call(row, |s.upgrades|, UserRead)])
    ensures LevelRefusal(s.users, u, tier) != None ==> Step(s, ReadUser(u, tier)) == s
    ensures c < |s.calls| && s.calls[c].at == UserRead ==>
              var user := s.calls[c].row.userId;
              var pending := exists i :: 0 <= i < |s.upgrades| && s.upgrades[i].userId == user && s.upgrades[i].review == Waiting;
              Step(s, ReadPending(c)) == s.(calls := s.calls[c := s.calls[c].(at := if pending then Ended else Checked)])
    ensures c < |s.calls| && s.calls[c].at == Checked ==>
              Step(s, Store(c)) == s.(upgrades := s.upgrades + [s.calls[c].row], calls := s.calls[c := s.calls[c].(at := Ended)])
    ensures c < |s.calls| && s.calls[c].at != UserRead ==> Step(s, ReadPending(c)) == s
    ensures c < |s.calls| && s.calls[c].at != Checked ==> Step(s, Store(c)) == s
  {
    if c < |s.calls| { PendingExactly(s.upgrades, s.calls[c].row.userId); }
  }

  /** The steps of a review: it is refused when there is no such request, and when the request is not pending; its save decides the
      request whatever that has become; and only an approval goes on, to give the user the tier that was asked for. */
  lemma ReviewSteps(s: State, id: nat, approve: bool, v: nat, ok: bool)
    ensures ReviewRefusal(s, id) == Some(RequestNotFound) <==> id >= |s.upgrades|
    ensures ReviewRefusal(s, id) == Some(NotPending) <==> id < |s.upgrades| && s.upgrades[id].review != Waiting
    ensures ReviewRefusal(s, id) == None <==> id < |s.upgrades| && s.upgrades[id].review == Waiting
    ensures Step(s, FindRequest(id, approve))
            == if id < |s.upgrades| && s.upgrades[id].review == Waiting
               then s.(visits := s.visits + [Visit(id, s.upgrades[id], approve, Found)]) else s
    ensures v < |s.visits| && s.visits[v].at == Found && s.visits[v].id < |s.upgrades| ==>
              var x := s.visits[v];
              Step(s, SaveReview(v)) == s.(upgrades := s.upgrades[x.id := s.upgrades[x.id].(review := if x.approve then Approved else Rejected)],
                                           visits := s.visits[v := x.(at := if x.approve then TierDue else Done)])
    ensures v < |s.visits| && s.visits[v].at == TierDue && s.visits[v].id < |s.upgrades| ==>
              var x := s.visits[v];
              Step(s, SaveTier(v, ok)) == s.(users := if ok && x.row.userId in s.users then s.users[x.row.userId := Some(x.row.requestedTier)]
                                                      else s.users,
                                             visits := s.visits[v := x.(at := Done)])
    ensures v < |s.visits| && s.visits[v].at != Found ==> Step(s, SaveReview(v)) == s
    ensures v < |s.visits| && s.visits[v].at != TierDue ==> Step(s, SaveTier(v, ok)) == s
  {
  }
}

/** Refresh tokens: each login starts a family, each rotation appends to it, a revocation closes all of a user's tokens. A rotation
    reads its row and saves later, and other calls may run between. The hash is an arbitrary function; fresh random values appear as
    a condition on the events. */
module RefreshTokens {
  import opened Common

  datatype Row = Row(id: string, userId: string, familyId: string, tokenHash: string, parentTokenId: Option<string>,
                     replacedByTokenId: Option<string>, expiresAt: int, revokedAt: Option<int>)

  datatype TokenError = InvalidOrRevoked | Expired

  /** A rotation past its checks: the row it read, the time it read as now, and whether it has saved. */
  datatype Reading = Reading(i: nat, now: int, saved: bool)

  datatype State = State(rows: seq<Row>, readings: seq<Reading>)

  /** The calls, with the random values they draw and the clock readings they take; a rotation is Read and Save. */
  datatype Event =
    | Create(userId: string, token: string, familyId: string, id: string, now: int)
    | Read(oldToken: string, now: int)
    | Save(c: nat, newToken: string, id: string, later: int)
    | RevokeUser(userId: string, now: int)

  // ---------------------------------------------------------------- steps

  /** The row with this hash; the index on the hash is unique, so the first is the only one. */
  function Find(rows: seq<Row>, h: string): (i: Option<nat>)
    ensures i.Some? ==> i.value < |rows| && rows[i.value].tokenHash == h && forall j :: 0 <= j < i.value ==> rows[j].tokenHash != h
    ensures i.None? ==> forall j :: 0 <= j < |rows| ==> rows[j].tokenHash != h
  {
    FindFrom(rows, h, 0)
  }

  function FindFrom(rows: seq<Row>, h: string, k: nat): (i: Option<nat>)
    requires k <= |rows|
    ensures i.Some? ==> k <= i.value < |rows| && rows[i.value].tokenHash == h && forall j :: k <= j < i.value ==> rows[j].tokenHash != h
    ensures i.None? ==> forall j :: k <= j < |rows| ==> rows[j].tokenHash != h
    decreases |rows| - k
  {
    if k == |rows| then None else if rows[k].tokenHash == h then Some(k) else FindFrom(rows, h, k + 1)
  }

  /** Why presenting a token is refused, if it is. */
  function Refusal(rows: seq<Row>, h: string, now: int): Option<TokenError> {
    match Find(rows, h)
    case None => Some(InvalidOrRevoked)
    case Some(i) => if rows[i].revokedAt.Some? then Some(InvalidOrRevoked) else if rows[i].expiresAt < now then Some(Expired) else None
  }

  function Revoked(rows: seq<Row>, userId: string, now: int): (r: seq<Row>)
    ensures |r| == |rows|
    ensures forall i :: 0 <= i < |rows| ==> r[i] == if rows[i].userId == userId then rows[i].(revokedAt := Some(now)) else rows[i]
  {
    seq(|rows|, i requires 0 <= i < |rows| => if rows[i].userId == userId then rows[i].(revokedAt := Some(now)) else rows[i])
  }

  /** The table after row i has been replaced by a new row. */
  function Replaced(rows: seq<Row>, i: nat, id: string, tokenHash: string, now: int, expiresAt: int): (r: seq<Row>)
    requires i < |rows|
    ensures |r| == |rows| + 1 && forall j :: 0 <= j < |rows| && j != i ==> r[j] == rows[j]
  {
    rows[i := rows[i].(replacedByTokenId := Some(id), revokedAt := Some(now))]
    + [Row(id, rows[i].userId, rows[i].familyId, tokenHash, Some(rows[i].id), None, expiresAt, None)]
  }

  predicate Open(s: State, c: int) {
    0 <= c < |s.readings| && !s.readings[c].saved && s.readings[c].i < |s.rows|
  }

  function Step(hash: string -> string, expiry: int, s: State, e: Event): State {
    match e
    case Create(userId, token, familyId, id, now) =>
      s.(rows := s.rows + [Row(id, userId, familyId, hash(token), None, None, now + expiry, None)])
    case Read(oldToken, now) =>
      if Refusal(s.rows, hash(oldToken), now).Some? then s
      else s.(readings := s.readings + [Reading(Find(s.rows, hash(oldToken)).value, now, false)])
    case Save(c, newToken, id, later) =>
      if !Open(s, c) then s
      else State(Replaced(s.rows, s.readings[c].i, id, hash(newToken), s.readings[c].now, later + expiry),
                 s.readings[c := s.readings[c].(saved := true)])
    case RevokeUser(userId, now) => s.(rows := Revoked(s.rows, userId, now))
  }

  function Run(hash: string -> string, expiry: int, events: seq<Event>): State {
    if events == [] then State([], []) else Step(hash, expiry, Run(hash, expiry, events[..|events| - 1]), events[|events| - 1])
  }

  /** The rows after an uninterrupted rotation. */
  function Rotated(hash: string -> string, expiry: int, rows: seq<Row>, oldToken: string, newToken: string, id: string, now: int,
                   later: int): seq<Row>
  {
    if Refusal(rows, hash(oldToken), now).Some? then rows
    else Replaced(rows, Find(rows, hash(oldToken)).value, id, hash(newToken), now, later + expiry)
  }

  /** Reading and saving with nothing in between is the rotation. */
  lemma RotationIsReadAndSave(hash: string -> string, expiry: int, s: State, oldToken: string, newToken: string, id: string, now: int,
                              later: int)
    ensures Refusal(s.rows, hash(oldToken), now).Some? ==> Step(hash, expiry, s, Read(oldToken, now)) == s
    ensures Refusal(s.rows, hash(oldToken), now).None? ==>
              Step(hash, expiry, Step(hash, expiry, s, Read(oldToken, now)), Save(|s.readings|, newToken, id, later)).rows
              == Rotated(hash, expiry, s.rows, oldToken, newToken, id, now, later)
  {
  }

  // ---------------------------------------------------------------- families as chains

  /** No row has this id or this hash. */
  ghost predicate Unused(rows: seq<Row>, id: string, tokenHash: string) {
    forall i :: 0 <= i < |rows| ==> rows[i].id != id && rows[i].tokenHash != tokenHash
  }

  ghost predicate NoFamily(rows: seq<Row>, familyId: string) {
    forall i :: 0 <= i < |rows| ==> rows[i].familyId != familyId
  }

  /** The random values of an event are new. */
  ghost predicate Fresh(hash: string -> string, rows: seq<Row>, e: Event) {
    match e
    case Create(_, token, familyId, id, _) => Unused(rows, id, hash(token)) && NoFamily(rows, familyId)
    case Save(_, newToken, id, _) => Unused(rows, id, hash(newToken))
    case _ => true
  }

  /** Every event of a run draws new values. */
  ghost predicate AlwaysFresh(hash: string -> string, expiry: int, events: seq<Event>) {
    events == [] ||
    var before := events[..|events| - 1];
    AlwaysFresh(hash, expiry, before) && Fresh(hash, Run(hash, expiry, before).rows, events[|events| - 1])
  }

  /** The k-th row of p is the child of the one before and replaced by the one after, and revoked unless it is the last. */
  ghost predicate Linked(rows: seq<Row>, p: seq<nat>, k: nat)
    requires k < |p| && forall l :: 0 <= l < |p| ==> p[l] < |rows|
  {
    rows[p[k]].parentTokenId == (if k == 0 then None else Some(rows[p[k - 1]].id))
    && rows[p[k]].replacedByTokenId == (if k == |p| - 1 then None else Some(rows[p[k + 1]].id))
    && (k < |p| - 1 ==> rows[p[k]].revokedAt.Some?)
  }

  /** p lists rows of one family and one user in the order they were created, linked one to the next: the first has no
      parent, the last no successor. */
  ghost predicate Chain(rows: seq<Row>, family: string, p: seq<nat>) {
    p != []
    && (forall k :: 0 <= k < |p| ==> p[k] < |rows|)
    && (forall k, l :: 0 <= k < l < |p| ==> p[k] < p[l])
    && (forall k :: 0 <= k < |p| ==> rows[p[k]].familyId == family && rows[p[k]].userId == rows[p[0]].userId)
    && (forall k :: 0 <= k < |p| ==> Linked(rows, p, k))
  }

  ghost predicate OnChain(rows: seq<Row>, chains: map<string, seq<nat>>, i: nat)
    requires i < |rows|
  {
    rows[i].familyId in chains && exists k :: 0 <= k < |chains[rows[i].familyId]| && chains[rows[i].familyId][k] == i
  }

  ghost predicate Differ(a: Row, b: Row) {
    a.id != b.id && a.tokenHash != b.tokenHash
  }

  /** Every row lies on the chain of its family, and ids and hashes are unique. */
  ghost predicate Chains(rows: seq<Row>, chains: map<string, seq<nat>>) {
    (forall f :: f in chains ==> Chain(rows, f, chains[f]))
    && (forall i: nat {:trigger OnChain(rows, chains, i)} :: i < |rows| ==> OnChain(rows, chains, i))
    && (forall i, j {:trigger Differ(rows[i], rows[j])} :: 0 <= i < j < |rows| ==> Differ(rows[i], rows[j]))
  }

  /** The families are chains. */
  ghost predicate Chained(rows: seq<Row>) {
    exists chains :: Chains(rows, chains)
  }

  /** A row that was not replaced is the last of its chain; an unrevoked one was not replaced. */
  lemma UnreplacedIsLast(rows: seq<Row>, chains: map<string, seq<nat>>, i: nat)
    requires Chains(rows, chains) && i < |rows|
    ensures rows[i].revokedAt.None? ==> rows[i].replacedByTokenId.None?
    ensures rows[i].replacedByTokenId.None? ==>
              rows[i].familyId in chains && i == chains[rows[i].familyId][|chains[rows[i].familyId]| - 1]
  {
    assert OnChain(rows, chains, i);
    var p := chains[rows[i].familyId];
    var k :| 0 <= k < |p| && p[k] == i;
    assert Linked(rows, p, k);
  }

  /** Rows that keep the fields a chain is about keep the chain. */
  lemma SameChain(rows: seq<Row>, rows': seq<Row>, family: string, p: seq<nat>)
    requires Chain(rows, family, p) && |rows| <= |rows'|
    requires forall k :: 0 <= k < |p| ==>
               var r, r' := rows[p[k]], rows'[p[k]];
               r' == r.(revokedAt := r'.revokedAt) && (r.revokedAt.Some? ==> r'.revokedAt.Some?)
    ensures Chain(rows', family, p)
  {
    forall k | 0 <= k < |p| ensures Linked(rows', p, k) { assert Linked(rows, p, k); }
  }

  lemma CreateKeepsChains(rows: seq<Row>, chains: map<string, seq<nat>>, row: Row)
    requires Chains(rows, chains) && row.parentTokenId.None? && row.replacedByTokenId.None?
    requires Unused(rows, row.id, row.tokenHash) && NoFamily(rows, row.familyId)
    ensures Chains(rows + [row], chains[row.familyId := [|rows|]])
  {
    var rows', chains' := rows + [row], chains[row.familyId := [|rows|]];
    assert rows'[|rows|] == row && chains'[row.familyId][0] == |rows|;
    forall i: nat | i < |rows'| ensures OnChain(rows', chains', i) {
      if i < |rows| { assert OnChain(rows, chains, i); }
    }
    forall i, j | 0 <= i < j < |rows'| ensures Differ(rows'[i], rows'[j]) {
      if j < |rows| { assert Differ(rows[i], rows[j]); }
    }
    forall f | f in chains' ensures Chain(rows', f, chains'[f]) {
      if f != row.familyId { SameChain(rows, rows', f, chains[f]); } else { assert Linked(rows', [|rows|], 0); }
    }
  }

  lemma RevokeKeepsChains(rows: seq<Row>, chains: map<string, seq<nat>>, userId: string, now: int)
    requires Chains(rows, chains)
    ensures Chains(Revoked(rows, userId, now), chains)
  {
    var rows' := Revoked(rows, userId, now);
    forall f | f in chains ensures Chain(rows', f, chains[f]) {
      SameChain(rows, rows', f, chains[f]);
    }
    forall i: nat | i < |rows'| ensures OnChain(rows', chains, i) { assert OnChain(rows, chains, i); }
    forall i, j | 0 <= i < j < |rows'| ensures Differ(rows'[i], rows'[j]) { assert Differ(rows[i], rows[j]); }
  }

  lemma ExtendLink(rows: seq<Row>, p: seq<nat>, k: nat, id: string, tokenHash: string, now: int, expiresAt: int)
    requires k < |p| && (forall l :: 0 <= l < |p| ==> p[l] < |rows|) && (forall l, m :: 0 <= l < m < |p| ==> p[l] < p[m])
    requires Linked(rows, p, k)
    ensures Linked(Replaced(rows, p[|p| - 1], id, tokenHash, now, expiresAt), p + [|rows|], k)
  {
  }

  lemma ExtendLast(rows: seq<Row>, p: seq<nat>, id: string, tokenHash: string, now: int, expiresAt: int)
    requires p != [] && forall l :: 0 <= l < |p| ==> p[l] < |rows|
    ensures Linked(Replaced(rows, p[|p| - 1], id, tokenHash, now, expiresAt), p + [|rows|], |p|)
  {
  }

  /** The listed rows and the new one are of one family and one user. */
  lemma ExtendOwners(rows: seq<Row>, family: string, p: seq<nat>, k: nat, id: string, tokenHash: string, now: int, expiresAt: int)
    requires p != [] && k <= |p| && forall l :: 0 <= l < |p| ==> p[l] < |rows| && rows[p[l]].familyId == family
    requires forall l :: 0 <= l < |p| ==> rows[p[l]].userId == rows[p[0]].userId
    ensures var rows', q := Replaced(rows, p[|p| - 1], id, tokenHash, now, expiresAt), p + [|rows|];
            q[k] < |rows'| && rows'[q[k]].familyId == family && rows'[q[k]].userId == rows[p[0]].userId
  {
  }

  /** Replacing the last row of a chain extends the chain by the new row. */
  lemma ExtendChain(rows: seq<Row>, family: string, p: seq<nat>, id: string, tokenHash: string, now: int, expiresAt: int)
    requires Chain(rows, family, p)
    ensures Chain(Replaced(rows, p[|p| - 1], id, tokenHash, now, expiresAt), family, p + [|rows|])
  {
    var n := |p|;
    var rows', q := Replaced(rows, p[n - 1], id, tokenHash, now, expiresAt), p + [|rows|];
    forall k | 0 <= k <= n ensures q[k] < |rows'| && rows'[q[k]].familyId == family && rows'[q[k]].userId == rows[p[0]].userId {
      ExtendOwners(rows, family, p, k, id, tokenHash, now, expiresAt);
    }
    forall k | 0 <= k <= n ensures Linked(rows', q, k) {
      if k < n { ExtendLink(rows, p, k, id, tokenHash, now, expiresAt); } else { ExtendLast(rows, p, id, tokenHash, now, expiresAt); }
    }
  }

  lemma RotateKeepsChains(rows: seq<Row>, chains: map<string, seq<nat>>, i: nat, id: string, tokenHash: string, now: int, expiresAt: int)
    requires Chains(rows, chains) && i < |rows| && rows[i].replacedByTokenId.None?
    requires Unused(rows, id, tokenHash)
    ensures var f := rows[i].familyId;
            f in chains && Chains(Replaced(rows, i, id, tokenHash, now, expiresAt), chains[f := chains[f] + [|rows|]])
  {
    UnreplacedIsLast(rows, chains, i);
    var f := rows[i].familyId;
    var rows', chains' := Replaced(rows, i, id, tokenHash, now, expiresAt), chains[f := chains[f] + [|rows|]];
    forall g | g in chains' ensures Chain(rows', g, chains'[g]) {
      if g == f {
        ExtendChain(rows, f, chains[f], id, tokenHash, now, expiresAt);
      } else {
        var p := chains[g];
        assert forall k :: 0 <= k < |p| ==> p[k] != i;
        SameChain(rows, rows', g, p);
      }
    }
    forall j: nat | j < |rows'| ensures OnChain(rows', chains', j) {
      if j < |rows| {
        assert OnChain(rows, chains, j) && rows'[j].familyId == rows[j].familyId;
        var k :| 0 <= k < |chains[rows[j].familyId]| && chains[rows[j].familyId][k] == j;
        assert chains'[rows[j].familyId][k] == j;
      } else {
        assert chains'[f][|chains[f]|] == j;
      }
    }
    forall j, k | 0 <= j < k < |rows'| ensures Differ(rows'[j], rows'[k]) {
      if k < |rows| { assert Differ(rows[j], rows[k]); }
    }
  }

  /** No save finds its row replaced since it was read. */
  ghost predicate Clean(hash: string -> string, expiry: int, events: seq<Event>) {
    events == [] ||
    var before := events[..|events| - 1];
    Clean(hash, expiry, before) && !Overlaps(Run(hash, expiry, before), events[|events| - 1])
  }

  /** This save finds its row replaced. */
  predicate Overlaps(s: State, e: Event) {
    e.Save? && Open(s, e.c) && s.rows[s.readings[e.c].i].replacedByTokenId.Some?
  }

  lemma CreateKeepsChained(rows: seq<Row>, row: Row)
    requires Chained(rows) && row.parentTokenId.None? && row.replacedByTokenId.None?
    requires Unused(rows, row.id, row.tokenHash) && NoFamily(rows, row.familyId)
    ensures Chained(rows + [row])
  {
    var chains :| Chains(rows, chains);
    CreateKeepsChains(rows, chains, row);
  }

  lemma RevokeKeepsChained(rows: seq<Row>, userId: string, now: int)
    requires Chained(rows)
    ensures Chained(Revoked(rows, userId, now))
  {
    var chains :| Chains(rows, chains);
    RevokeKeepsChains(rows, chains, userId, now);
  }

  lemma ReplaceKeepsChained(rows: seq<Row>, i: nat, id: string, tokenHash: string, now: int, expiresAt: int)
    requires Chained(rows) && i < |rows| && rows[i].replacedByTokenId.None? && Unused(rows, id, tokenHash)
    ensures Chained(Replaced(rows, i, id, tokenHash, now, expiresAt))
  {
    var chains :| Chains(rows, chains);
    RotateKeepsChains(rows, chains, i, id, tokenHash, now, expiresAt);
  }

  /** A row replaced again has two children and points to one of them only. */
  lemma ReplaceAgainForks(rows: seq<Row>, i: nat, id: string, tokenHash: string, now: int, expiresAt: int)
    requires Chained(rows) && i < |rows| && rows[i].replacedByTokenId.Some? && Unused(rows, id, tokenHash)
    ensures !Chained(Replaced(rows, i, id, tokenHash, now, expiresAt))
  {
    var chains :| Chains(rows, chains);
    var p, k := PlaceOf(rows, chains, i);
    var j := p[k + 1];
    var rows' := Replaced(rows, i, id, tokenHash, now, expiresAt);
    assert j < |rows| && j != i && rows[j].parentTokenId == Some(rows[i].id);
    assert rows'[j] == rows[j] && rows'[i].id == rows[i].id && rows'[i].replacedByTokenId == Some(id) && rows[j].id != id;
    forall chains' ensures !Chains(rows', chains') {
      if Chains(rows', chains') { LinksAreInverse(rows', chains', i, j); }
    }
  }

  /** A step with new random values keeps the chains if and only if it is no save that overlaps. */
  lemma StepKeepsChained(hash: string -> string, expiry: int, s: State, e: Event)
    requires Chained(s.rows) && Fresh(hash, s.rows, e)
    ensures Chained(Step(hash, expiry, s, e).rows) <==> !Overlaps(s, e)
  {
    match e
    case Create(userId, token, familyId, id, now) =>
      CreateKeepsChained(s.rows, Row(id, userId, familyId, hash(token), None, None, now + expiry, None));
    case Read(_, _) =>
    case Save(c, newToken, id, later) =>
      if Open(s, c) {
        var r := s.readings[c];
        if s.rows[r.i].replacedByTokenId.None? {
          ReplaceKeepsChained(s.rows, r.i, id, hash(newToken), r.now, later + expiry);
        } else {
          ReplaceAgainForks(s.rows, r.i, id, hash(newToken), r.now, later + expiry);
        }
      }
    case RevokeUser(userId, now) => RevokeKeepsChained(s.rows, userId, now);
  }

  lemma NothingIsChained()
    ensures Chained([])
  {
    assert Chains([], map[]);
  }

  /** In every interleaving in which no save overlaps, each family is one acyclic path of a single user whose only possibly
      unrevoked token is the last. */
  lemma {:induction false} FamiliesAreChains(hash: string -> string, expiry: int, events: seq<Event>)
    requires AlwaysFresh(hash, expiry, events) && Clean(hash, expiry, events)
    ensures Chained(Run(hash, expiry, events).rows)
    decreases |events|
  {
    NothingIsChained();
    if events != [] {
      var before := events[..|events| - 1];
      FamiliesAreChains(hash, expiry, before);
      StepKeepsChained(hash, expiry, Run(hash, expiry, before), events[|before|]);
    }
  }

  /** The families are chains after every event of a run. */
  ghost predicate AllChained(hash: string -> string, expiry: int, events: seq<Event>) {
    Chained(Run(hash, expiry, events).rows) && (events == [] || AllChained(hash, expiry, events[..|events| - 1]))
  }

  /** Families are chains all along a run if and only if no save of it overlaps. */
  lemma {:induction false} ChainsExactly(hash: string -> string, expiry: int, events: seq<Event>)
    requires AlwaysFresh(hash, expiry, events)
    ensures AllChained(hash, expiry, events) <==> Clean(hash, expiry, events)
    decreases |events|
  {
    NothingIsChained();
    if events != [] {
      var before := events[..|events| - 1];
      ChainsExactly(hash, expiry, before);
      if AllChained(hash, expiry, before) {
        StepKeepsChained(hash, expiry, Run(hash, expiry, before), events[|before|]);
      }
    }
  }

  /** Every row has a place on the chain of its family. */
  lemma PlaceOf(rows: seq<Row>, chains: map<string, seq<nat>>, i: nat) returns (p: seq<nat>, k: nat)
    requires Chains(rows, chains) && i < |rows|
    ensures rows[i].familyId in chains && p == chains[rows[i].familyId] && Chain(rows, rows[i].familyId, p)
    ensures k < |p| && p[k] == i && Linked(rows, p, k)
    ensures k > 0 ==> Linked(rows, p, k - 1)
    ensures k < |p| - 1 ==> Linked(rows, p, k + 1)
  {
    assert OnChain(rows, chains, i);
    p := chains[rows[i].familyId];
    k :| 0 <= k < |p| && p[k] == i;
  }

  /** parentTokenId and replacedByTokenId are inverse to each other. */
  lemma LinksAreInverse(rows: seq<Row>, chains: map<string, seq<nat>>, i: nat, j: nat)
    requires Chains(rows, chains) && i < |rows| && j < |rows|
    ensures rows[j].parentTokenId == Some(rows[i].id) <==> rows[i].replacedByTokenId == Some(rows[j].id)
  {
    if rows[j].parentTokenId == Some(rows[i].id) { ParentOf(rows, chains, i, j); }
    if rows[i].replacedByTokenId == Some(rows[j].id) { SuccessorOf(rows, chains, i, j); }
  }

  lemma SameId(rows: seq<Row>, chains: map<string, seq<nat>>, i: nat, j: nat)
    requires Chains(rows, chains) && i < |rows| && j < |rows| && rows[i].id == rows[j].id
    ensures i == j
  {
    assert i < j ==> Differ(rows[i], rows[j]);
    assert j < i ==> Differ(rows[j], rows[i]);
  }

  lemma ParentOf(rows: seq<Row>, chains: map<string, seq<nat>>, i: nat, j: nat)
    requires Chains(rows, chains) && i < |rows| && j < |rows| && rows[j].parentTokenId == Some(rows[i].id)
    ensures rows[i].replacedByTokenId == Some(rows[j].id)
  {
    var q, l := PlaceOf(rows, chains, j);
    SameId(rows, chains, q[l - 1], i);
  }

  lemma SuccessorOf(rows: seq<Row>, chains: map<string, seq<nat>>, i: nat, j: nat)
    requires Chains(rows, chains) && i < |rows| && j < |rows| && rows[i].replacedByTokenId == Some(rows[j].id)
    ensures rows[j].parentTokenId == Some(rows[i].id)
  {
    var p, k := PlaceOf(rows, chains, i);
    SameId(rows, chains, p[k + 1], j);
  }

  /** Among chains a token is accepted exactly when it is the unrevoked, unexpired last of its family; anything else is refused and
      changes nothing. */
  lemma OnlyTheLastIsAccepted(hash: string -> string, expiry: int, s: State, chains: map<string, seq<nat>>, i: nat, token: string, now: int)
    requires Chains(s.rows, chains) && i < |s.rows| && s.rows[i].tokenHash == hash(token)
    ensures s.rows[i].familyId in chains
    ensures var p := chains[s.rows[i].familyId];
            Refusal(s.rows, hash(token), now).None?
            <==> i == p[|p| - 1] && s.rows[i].revokedAt.None? && now <= s.rows[i].expiresAt
    ensures Refusal(s.rows, hash(token), now).Some? ==> Step(hash, expiry, s, Read(token, now)) == s
  {
    assert OnChain(s.rows, chains, i);
    var j := Find(s.rows, hash(token)).value;
    assert j < i ==> Differ(s.rows[j], s.rows[i]);
    assert i == j;
    UnreplacedIsLast(s.rows, chains, i);
  }

  // ---------------------------------------------------------------- once rotated, never again

  /** The token with this hash is on record and revoked. */
  ghost predicate Dead(rows: seq<Row>, h: string) {
    Find(rows, h).Some? && rows[Find(rows, h).value].revokedAt.Some?
  }

  lemma FindStays(rows: seq<Row>, rows': seq<Row>, h: string)
    requires Find(rows, h).Some? && |rows| <= |rows'|
    requires forall i :: 0 <= i < |rows| ==> rows'[i].tokenHash == rows[i].tokenHash
    ensures Find(rows', h) == Find(rows, h)
  {
    var i := Find(rows, h).value;
    assert rows'[i].tokenHash == h;
    assert Find(rows', h).Some?;
  }

  lemma DeadStaysDead(hash: string -> string, expiry: int, s: State, e: Event, h: string)
    requires Dead(s.rows, h)
    ensures Dead(Step(hash, expiry, s, e).rows, h)
  {
    FindStays(s.rows, Step(hash, expiry, s, e).rows, h);
  }

  /** A token that was rotated once, or revoked, is refused for ever after, whatever overlaps, without a state change. */
  lemma ReuseIsRefused(hash: string -> string, expiry: int, events: seq<Event>, n: nat, token: string, now: int)
    requires n <= |events| && Dead(Run(hash, expiry, events[..n]).rows, hash(token))
    ensures var s := Run(hash, expiry, events);
            Refusal(s.rows, hash(token), now).Some? && Step(hash, expiry, s, Read(token, now)) == s
  {
    DeadAfter(hash, expiry, events, n, hash(token));
  }

  lemma {:induction false} DeadAfter(hash: string -> string, expiry: int, events: seq<Event>, n: nat, h: string)
    requires n <= |events| && Dead(Run(hash, expiry, events[..n]).rows, h)
    ensures Dead(Run(hash, expiry, events).rows, h)
    decreases |events|
  {
    if n == |events| {
      assert events[..n] == events;
    } else {
      var before := events[..|events| - 1];
      assert before[..n] == events[..n];
      DeadAfter(hash, expiry, before, n, h);
      DeadStaysDead(hash, expiry, Run(hash, expiry, before), events[|events| - 1], h);
    }
  }

  /** A save kills the token that was read. */
  lemma RotationKills(hash: string -> string, expiry: int, s: State, e: Event, h: string)
    requires e.Save? && Open(s, e.c) && Find(s.rows, h) == Some(s.readings[e.c].i)
    ensures Dead(Step(hash, expiry, s, e).rows, h)
  {
    FindStays(s.rows, Step(hash, expiry, s, e).rows, h);
  }

  // ---------------------------------------------------------------- overlapping calls

  /** The new token a step issues and when it expires, if it issues one. */
  function NewToken(s: State, e: Event, expiry: int): Option<(string, int)> {
    match e
    case Create(_, token, _, _, now) => Some((token, now + expiry))
    case Save(c, newToken, _, later) => if Open(s, c) then Some((newToken, later + expiry)) else None
    case _ => None
  }

  /** A token just issued, by a login or by a save, is accepted until its expiry and refused as expired after it; whatever has become
      of the row that was read. */
  lemma IssuedIsAccepted(hash: string -> string, expiry: int, s: State, e: Event, t: int)
    requires Fresh(hash, s.rows, e) && NewToken(s, e, expiry).Some?
    ensures var (token, deadline) := NewToken(s, e, expiry).value;
            Refusal(Step(hash, expiry, s, e).rows, hash(token), t) == if deadline < t then Some(Expired) else None
  {
    var rows' := Step(hash, expiry, s, e).rows;
    var h := hash(NewToken(s, e, expiry).value.0);
    assert rows'[|s.rows|].tokenHash == h && rows'[|s.rows|].revokedAt.None?;
    forall j | 0 <= j < |s.rows| ensures rows'[j].tokenHash != h { assert rows'[j].tokenHash == s.rows[j].tokenHash; }
    assert Find(rows', h) == Some(|s.rows|);
  }

  /** A save leaves every row but the one it read as it was. */
  lemma SaveSpares(hash: string -> string, expiry: int, s: State, e: Event, h: string, t: int)
    requires e.Save? && Open(s, e.c) && Find(s.rows, h).Some? && Find(s.rows, h).value != s.readings[e.c].i
    ensures Refusal(Step(hash, expiry, s, e).rows, h, t) == Refusal(s.rows, h, t)
  {
    FindStays(s.rows, Step(hash, expiry, s, e).rows, h);
  }

  /** Two rotations that both read a row before either saves leave two tokens of one family, both accepted until they expire. */
  lemma OverlappingRotations(hash: string -> string, expiry: int, s: State, c: nat, d: nat, e: Event, f: Event, t: int)
    requires c != d && Open(s, c) && Open(s, d) && s.readings[c].i == s.readings[d].i
    requires e.Save? && f.Save? && e.c == c && f.c == d
    requires Fresh(hash, s.rows, e) && Fresh(hash, Step(hash, expiry, s, e).rows, f)
    requires t <= e.later + expiry && t <= f.later + expiry
    ensures var s1 := Step(hash, expiry, s, e);
            var s2 := Step(hash, expiry, s1, f);
            && Overlaps(s1, f)
            && Refusal(s2.rows, hash(e.newToken), t).None? && Refusal(s2.rows, hash(f.newToken), t).None?
            && s2.rows[|s.rows|].familyId == s2.rows[|s.rows| + 1].familyId == s.rows[s.readings[c].i].familyId
  {
    var s1 := Step(hash, expiry, s, e);
    IssuedIsAccepted(hash, expiry, s, e, t);
    IssuedIsAccepted(hash, expiry, s1, f, t);
    var h := hash(e.newToken);
    assert s1.rows[|s.rows|].tokenHash == h;
    SaveSpares(hash, expiry, s1, f, h, t);
  }

  /** A revocation between a read and its save leaves the new token alive. */
  lemma RevocationMissed(hash: string -> string, expiry: int, s: State, e: Event, now: int, t: int)
    requires e.Save? && Open(s, e.c) && Fresh(hash, s.rows, e) && t <= e.later + expiry
    ensures var user := s.rows[s.readings[e.c].i].userId;
            var s1 := Step(hash, expiry, s, RevokeUser(user, now));
            && (forall i :: 0 <= i < |s1.rows| && s1.rows[i].userId == user ==> s1.rows[i].revokedAt.Some?)
            && Refusal(Step(hash, expiry, s1, e).rows, hash(e.newToken), t).None?
  {
    var s1 := Step(hash, expiry, s, RevokeUser(s.rows[s.readings[e.c].i].userId, now));
    assert Fresh(hash, s1.rows, e);
    IssuedIsAccepted(hash, expiry, s1, e, t);
  }

  // ---------------------------------------------------------------- what each call does

  /** The answer to a token, cause by cause: unknown or revoked, expired before this instant, or accepted. The hash of a token is that of
      at most one row. */
  lemma AnswerExactly(rows: seq<Row>, h: string, now: int)
    requires forall i, j :: 0 <= i < j < |rows| ==> rows[i].tokenHash != rows[j].tokenHash
    ensures Refusal(rows, h, now) == Some(InvalidOrRevoked) <==> forall i :: 0 <= i < |rows| && rows[i].tokenHash == h ==> rows[i].revokedAt.Some?
    ensures Refusal(rows, h, now) == Some(Expired) <==>
              exists i :: 0 <= i < |rows| && rows[i].tokenHash == h && rows[i].revokedAt.None? && rows[i].expiresAt < now
    ensures Refusal(rows, h, now) == None <==>
              exists i :: 0 <= i < |rows| && rows[i].tokenHash == h && rows[i].revokedAt.None? && rows[i].expiresAt >= now
  {
  }

  /** A login adds one row, of a family of its own, that expires when its time is over. */
  lemma CreateExactly(hash: string -> string, expiry: int, s: State, u: string, token: string, family: string, id: string, now: int)
    ensures Step(hash, expiry, s, Create(u, token, family, id, now))
            == State(s.rows + [Row(id, u, family, hash(token), None, None, now + expiry, None)], s.readings)
  {
  }

  /** The read of a rotation changes no row. It goes on, with the row of the token it was given, if and only if the token is accepted. */
  lemma ReadExactly(hash: string -> string, expiry: int, s: State, token: string, now: int, i: nat)
    requires i < |s.rows| && s.rows[i].tokenHash == hash(token) && forall j :: 0 <= j < i ==> s.rows[j].tokenHash != hash(token)
    ensures Step(hash, expiry, s, Read(token, now))
            == if s.rows[i].revokedAt.None? && now <= s.rows[i].expiresAt
               then State(s.rows, s.readings + [Reading(i, now, false)]) else s
  {
    var f := Find(s.rows, hash(token));
    assert f.Some? && f.value == i;
  }

  /** The save of a rotation adds the new row, of the same user and family and with the old one for its parent, and points the old row
      to it, revoked at the time it was read; it changes no other row. */
  lemma SaveExactly(hash: string -> string, expiry: int, s: State, c: nat, token: string, id: string, later: int, k: nat)
    requires c < |s.readings| && !s.readings[c].saved && s.readings[c].i < |s.rows| && k < |s.rows|
    ensures var (t, i) := (Step(hash, expiry, s, Save(c, token, id, later)), s.readings[c].i);
            var found := s.rows[i];
            && |t.rows| == |s.rows| + 1
            && t.rows[|s.rows|] == Row(id, found.userId, found.familyId, hash(token), Some(found.id), None, later + expiry, None)
            && t.rows[k] == (if k == i then found.(replacedByTokenId := Some(id), revokedAt := Some(s.readings[c].now)) else s.rows[k])
            && t.readings == s.readings[c := s.readings[c].(saved := true)]
  {
  }

  /** A revocation sets the time of every row of the user, and of no other, and changes nothing else. */
  lemma RevokeExactly(hash: string -> string, expiry: int, s: State, u: string, now: int, k: nat)
    requires k < |s.rows|
    ensures var t := Step(hash, expiry, s, RevokeUser(u, now));
            && |t.rows| == |s.rows| && t.readings == s.readings
            && t.rows[k] == (if s.rows[k].userId == u then s.rows[k].(revokedAt := Some(now)) else s.rows[k])
  {
  }

  // ---------------------------------------------------------------- the service

  datatype Issued = Issued(token: string, expiresAt: int)

  class RefreshTokensService {
    const hash: string -> string
    const expiryMs: int
    var rows: seq<Row>
    var readings: seq<Reading>

    function Now(): State
      reads this
    {
      State(rows, readings)
    }

    constructor (hash: string -> string, expirySeconds: int)
      ensures this.hash == hash && expiryMs == expirySeconds * 1000 && Now() == Run(hash, expiryMs, [])
    {
      this.hash, this.expiryMs, rows, readings := hash, expirySeconds * 1000, [], [];
    }

    method CreateToken(userId: string, token: string, familyId: string, id: string, now: int) returns (r: Issued)
      modifies this`rows
      ensures Now() == Step(hash, expiryMs, old(Now()), Create(userId, token, familyId, id, now))
      ensures r == Issued(token, now + expiryMs)
    {
      var expiresAt := now + expiryMs;
      rows := rows + [Row(id, userId, familyId, hash(token), None, None, expiresAt, None)];
      r := Issued(token, expiresAt);
    }

    /** rotateToken up to its save: the suspended call, or why the token is refused. */
    method ReadToken(oldToken: string, now: int) returns (r: Result<nat, TokenError>)
      modifies this`readings
      ensures Now() == Step(hash, expiryMs, old(Now()), Read(oldToken, now))
      ensures r == match Refusal(rows, hash(oldToken), now) case Some(e) => Err(e) case None => Ok(|old(readings)|)
    {
      var found := Find(rows, hash(oldToken));
      if found.None? || rows[found.value].revokedAt.Some? { return Err(InvalidOrRevoked); }
      if rows[found.value].expiresAt < now { return Err(Expired); }
      readings := readings + [Reading(found.value, now, false)];
      r := Ok(|readings| - 1);
    }

    /** The save of both rows, which may come later. */
    method SaveTokens(c: nat, newToken: string, id: string, later: int) returns (r: Issued)
      requires Open(Now(), c)
      modifies this
      ensures Now() == Step(hash, expiryMs, old(Now()), Save(c, newToken, id, later))
      ensures r == Issued(newToken, later + expiryMs)
    {
      var i := readings[c].i;
      var existing := rows[i];
      var newEntity := Row(id, existing.userId, existing.familyId, hash(newToken), Some(existing.id), None, later + expiryMs, None);
      existing := existing.(replacedByTokenId := Some(newEntity.id), revokedAt := Some(readings[c].now));
      rows := rows[i := existing] + [newEntity];
      readings := readings[c := readings[c].(saved := true)];
      r := Issued(newToken, newEntity.expiresAt);
    }

    /** An uninterrupted rotation. */
    method RotateToken(oldToken: string, newToken: string, id: string, now: int, later: int) returns (r: Result<Issued, TokenError>)
      modifies this
      ensures rows == Rotated(hash, expiryMs, old(rows), oldToken, newToken, id, now, later)
      ensures r == match Refusal(old(rows), hash(oldToken), now)
                   case Some(e) => Err(e)
                   case None => Ok(Issued(newToken, later + expiryMs))
    {
      RotationIsReadAndSave(hash, expiryMs, Now(), oldToken, newToken, id, now, later);
      var c := ReadToken(oldToken, now);
      if c.Err? { return Err(c.error); }
      var issued := SaveTokens(c.value, newToken, id, later);
      r := Ok(issued);
    }

    method RevokeUserTokens(userId: string, now: int)
      modifies this`rows
      ensures Now() == Step(hash, expiryMs, old(Now()), RevokeUser(userId, now))
    {
      rows := Revoked(rows, userId, now);
    }
  }
}

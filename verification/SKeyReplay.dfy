/** When one reply is accepted twice. The check uses the row as it was read, so a session that was opened
    before a reply is stored accepts that reply again; everything here is about runs in which sessions of one
    user overlap in any way. */
module SKeyReplay {
  import opened HashChain
  import opened AccountStore
  import opened SKeyServer
  import opened SKeyWorld
  import opened SKeyRuns

  // ----- one stored reply, another session -----

  /** A reply stored in one session is accepted by another one exactly when that session has read the same
      seed at the same count. */
  lemma StoredReplyAcceptedIff(md5: Md5, policy: Policy, w: World, e: Event, id: string, sid: nat, hashed: set<string>)
    requires Inv(md5, w) && Succeeds(md5, w, e, id) && sid in w.sessions && sid != e.sid
    requires e.sid in w.reader && sid in w.reader && CollisionFree(md5, hashed)
    requires LinksIn(md5, w.reader[e.sid] + w.sessions[e.sid].verifier.random, DEFAULT_CHALLENGE + 1, hashed)
    requires LinksIn(md5, w.reader[sid] + w.sessions[sid].verifier.random, DEFAULT_CHALLENGE + 1, hashed)
    ensures var w' := Next(md5, policy, w, e);
      var first, second := w.sessions[e.sid].verifier, w.sessions[sid].verifier;
      && sid in w'.sessions && w'.sessions[sid].verifier == second
      && (Accepts(md5, second, e.iterate) <==>
           first.challenge == second.challenge && w.reader[e.sid] + first.random == w.reader[sid] + second.random)
  {
    var first, second := w.sessions[e.sid].verifier, w.sessions[sid].verifier;
    SessionOfRun(md5, w, e.sid);
    SessionOfRun(md5, w, sid);
    SameIterationIff(md5, w.reader[e.sid], first, w.reader[sid], second, hashed);
  }

  lemma SameIterationIff(md5: Md5, p1: string, v1: Verifier, p2: string, v2: Verifier, hashed: set<string>)
    requires Holds(md5, p1, v1) && Holds(md5, p2, v2) && CollisionFree(md5, hashed)
    requires LinksIn(md5, p1 + v1.random, DEFAULT_CHALLENGE + 1, hashed)
    requires LinksIn(md5, p2 + v2.random, DEFAULT_CHALLENGE + 1, hashed)
    ensures v1.iteration == v2.iteration <==> v1.challenge == v2.challenge && p1 + v1.random == p2 + v2.random
  {
    if v1.iteration == v2.iteration {
      FewerLinks(md5, p1 + v1.random, v1.challenge + 1, DEFAULT_CHALLENGE + 1, hashed);
      FewerLinks(md5, p2 + v2.random, v2.challenge + 1, DEFAULT_CHALLENGE + 1, hashed);
      SameIteration(md5, p1, v1, p2, v2, hashed);
    }
  }

  // ----- runs of one seed -----

  /** An accepted reply of this user was computed from the owner's password and what its session read. */
  ghost predicate Typed(md5: Md5, w: World, e: Event, id: string) {
    Succeeds(md5, w, e, id) ==> e.iterate == HonestReply(md5, OwnerOf(w, id), w.sessions[e.sid].verifier)
  }

  /** So are all accepted replies of the run, and no step but possibly the last replaces the seed. */
  ghost predicate TypedSeed(md5: Md5, policy: Policy, w: World, es: seq<Event>, id: string)
    decreases |es|
  {
    es == [] || (Typed(md5, w, es[0], id) &&
      (|es| == 1 || (!Reseeds(md5, w, es[0], id) && TypedSeed(md5, policy, Next(md5, policy, w, es[0]), es[1..], id))))
  }

  /** The count a session had read whose reply the step accepts. */
  ghost function ReadCount(md5: Md5, w: World, e: Event, id: string): seq<int> {
    if Succeeds(md5, w, e, id) then [w.sessions[e.sid].verifier.challenge] else []
  }

  ghost function ReadCounts(md5: Md5, policy: Policy, w: World, es: seq<Event>, id: string): seq<int>
    decreases |es|
  {
    if es == [] then []
    else ReadCount(md5, w, es[0], id) + ReadCounts(md5, policy, Next(md5, policy, w, es[0]), es[1..], id)
  }

  /** A waiting session keeps what it read; a new one reads the present row. */
  lemma SessionsAfter(md5: Md5, policy: Policy, w: World, e: Event, sid: nat)
    requires sid in Next(md5, policy, w, e).sessions
    ensures var p := Next(md5, policy, w, e).sessions[sid];
      || (sid in w.sessions && p == w.sessions[sid])
      || (p.id in w.store.accounts && p.verifier == RecordOf(w, p.id))
  {
  }

  // ----- in any run: equal replies are replies to equal counts -----

  /** A value of the chain from link 2 on, with a count that need not fit it. */
  ghost predicate OnChain(md5: Md5, s: string, top: int, v: Verifier) {
    v.challenge <= top && exists l :: 2 <= l <= top + 1 && v.iteration == Chain(md5, s, l)
  }

  ghost predicate SessionOnChain(md5: Md5, w: World, id: string, s: string, r: string, top: int, sid: nat) {
    sid in w.sessions && w.sessions[sid].id == id ==>
      w.sessions[sid].verifier.random == r && OnChain(md5, s, top, w.sessions[sid].verifier)
  }

  ghost predicate AllOnChain(md5: Md5, w: World, id: string, s: string, r: string, top: int) {
    && id in w.store.accounts && SeedString(w, id) == s && RecordOf(w, id).random == r
    && OnChain(md5, s, top, RecordOf(w, id))
    && forall sid :: SessionOnChain(md5, w, id, s, r, top, sid)
  }

  /** What the hypotheses on MD5 come to for one chain. */
  ghost predicate ChainIsInjective(md5: Md5, s: string, hashed: set<string>) {
    |s| != HEX_LENGTH && CollisionFree(md5, hashed) && LinksIn(md5, s, DEFAULT_CHALLENGE + 1, hashed)
  }

  lemma SameLink(md5: Md5, s: string, i: int, j: int, hashed: set<string>)
    requires ChainIsInjective(md5, s, hashed)
    requires 0 <= i <= DEFAULT_CHALLENGE + 1 && 0 <= j <= DEFAULT_CHALLENGE + 1 && Chain(md5, s, i) == Chain(md5, s, j)
    ensures i == j
  {
    FewerLinks(md5, s, i, DEFAULT_CHALLENGE + 1, hashed);
    FewerLinks(md5, s, j, DEFAULT_CHALLENGE + 1, hashed);
    ChainsMeet(md5, s, s, i, j, hashed);
  }

  /** An honest reply to a value of the chain is accepted only if the count fits it. */
  lemma TypedReplyIsLink(md5: Md5, s: string, top: int, v: Verifier, reply: string, hashed: set<string>)
    requires ChainIsInjective(md5, s, hashed) && top <= DEFAULT_CHALLENGE
    requires OnChain(md5, s, top, v) && reply == Chain(md5, s, v.challenge) && Accepts(md5, v, reply)
    ensures 1 <= v.challenge <= top
  {
    var l :| 2 <= l <= top + 1 && v.iteration == Chain(md5, s, l);
    var c := if v.challenge < 0 then 0 else v.challenge;
    assert reply + "" == reply == Chain(md5, s, c);
    assert Chain(md5, reply, 1) == Hex(md5(Chain(md5, reply, 0))) == Chain(md5, s, c + 1);
    SameLink(md5, s, c + 1, l, hashed);
  }

  ghost predicate AreLinks(md5: Md5, s: string, top: int, replies: seq<string>, counts: seq<int>) {
    && |replies| == |counts|
    && forall k :: 0 <= k < |counts| ==> 1 <= counts[k] <= top && replies[k] == Chain(md5, s, counts[k])
  }

  lemma StepOnChain(md5: Md5, policy: Policy, w: World, e: Event, id: string, s: string, r: string, top: int,
                    hashed: set<string>)
    requires AllOnChain(md5, w, id, s, r, top) && ChainIsInjective(md5, s, hashed) && top <= DEFAULT_CHALLENGE
    requires Typed(md5, w, e, id)
    ensures AreLinks(md5, s, top, Accepted(md5, w, e, id), ReadCount(md5, w, e, id))
    ensures !Reseeds(md5, w, e, id) ==> AllOnChain(md5, Next(md5, policy, w, e), id, s, r, top)
  {
    if Succeeds(md5, w, e, id) {
      assert SessionOnChain(md5, w, id, s, r, top, e.sid);
      TypedReplyIsLink(md5, s, top, w.sessions[e.sid].verifier, e.iterate, hashed);
    }
    if !Reseeds(md5, w, e, id) {
      var w' := Next(md5, policy, w, e);
      StepUnderSeed(md5, policy, w, e, id);
      forall sid ensures SessionOnChain(md5, w', id, s, r, top, sid) {
        if sid in w'.sessions {
          SessionsAfter(md5, policy, w, e, sid);
          assert SessionOnChain(md5, w, id, s, r, top, sid);
        }
      }
    }
  }

  lemma LinksAppend(md5: Md5, s: string, top: int, r1: seq<string>, c1: seq<int>, r2: seq<string>, c2: seq<int>)
    requires AreLinks(md5, s, top, r1, c1) && AreLinks(md5, s, top, r2, c2)
    ensures AreLinks(md5, s, top, r1 + r2, c1 + c2)
  {
    forall k | 0 <= k < |c1 + c2|
      ensures 1 <= (c1 + c2)[k] <= top && (r1 + r2)[k] == Chain(md5, s, (c1 + c2)[k])
    {
      if k >= |c1| {
        assert (r1 + r2)[k] == r2[k - |r1|] && (c1 + c2)[k] == c2[k - |c1|];
      } else {
        assert (r1 + r2)[k] == r1[k] && (c1 + c2)[k] == c1[k];
      }
    }
  }

  lemma {:induction false} RepliesAreLinks(md5: Md5, policy: Policy, w: World, es: seq<Event>, id: string,
                                           s: string, r: string, top: int, hashed: set<string>)
    requires AllOnChain(md5, w, id, s, r, top) && ChainIsInjective(md5, s, hashed) && top <= DEFAULT_CHALLENGE
    requires TypedSeed(md5, policy, w, es, id)
    ensures AreLinks(md5, s, top, AcceptedReplies(md5, policy, w, es, id), ReadCounts(md5, policy, w, es, id))
    decreases |es|
  {
    if es != [] {
      var w' := Next(md5, policy, w, es[0]);
      StepOnChain(md5, policy, w, es[0], id, s, r, top, hashed);
      if |es| > 1 {
        RepliesAreLinks(md5, policy, w', es[1..], id, s, r, top, hashed);
      }
      LinksAppend(md5, s, top, Accepted(md5, w, es[0], id), ReadCount(md5, w, es[0], id),
                  AcceptedReplies(md5, policy, w', es[1..], id), ReadCounts(md5, policy, w', es[1..], id));
    }
  }

  /** The sessions already open were opened under the user's present seed. */
  ghost predicate OnPresentSeed(w: World, id: string) {
    forall sid :: sid in w.sessions && w.sessions[sid].id == id ==>
      sid in w.reader && w.reader[sid] == OwnerOf(w, id) && w.sessions[sid].verifier.random == RecordOf(w, id).random
  }

  /** In every run of one seed, however its sessions overlap: two accepted replies are equal exactly when the
      sessions they were sent to had read the same count. */
  lemma RepliesEqualIff(md5: Md5, policy: Policy, w: World, es: seq<Event>, id: string, i: int, j: int,
                        hashed: set<string>)
    requires Inv(md5, w) && id in w.store.accounts && OnPresentSeed(w, id) && TypedSeed(md5, policy, w, es, id)
    requires CollisionFree(md5, hashed) && LinksIn(md5, SeedString(w, id), DEFAULT_CHALLENGE + 1, hashed)
    requires 0 <= i < |AcceptedReplies(md5, policy, w, es, id)| && 0 <= j < |AcceptedReplies(md5, policy, w, es, id)|
    ensures |ReadCounts(md5, policy, w, es, id)| == |AcceptedReplies(md5, policy, w, es, id)|
    ensures AcceptedReplies(md5, policy, w, es, id)[i] == AcceptedReplies(md5, policy, w, es, id)[j]
      <==> ReadCounts(md5, policy, w, es, id)[i] == ReadCounts(md5, policy, w, es, id)[j]
  {
    var s, r := SeedString(w, id), RecordOf(w, id).random;
    var replies, counts := AcceptedReplies(md5, policy, w, es, id), ReadCounts(md5, policy, w, es, id);
    StartOnChain(md5, w, id);
    SeedIsNoLink(OwnerOf(w, id), r);
    RepliesAreLinks(md5, policy, w, es, id, s, r, DEFAULT_CHALLENGE, hashed);
    if replies[i] == replies[j] {
      SameLink(md5, s, counts[i], counts[j], hashed);
    }
  }

  lemma StartOnChain(md5: Md5, w: World, id: string)
    requires Inv(md5, w) && id in w.store.accounts && OnPresentSeed(w, id)
    ensures AllOnChain(md5, w, id, SeedString(w, id), RecordOf(w, id).random, DEFAULT_CHALLENGE)
    ensures Holds(md5, OwnerOf(w, id), RecordOf(w, id))
  {
    var s, r := SeedString(w, id), RecordOf(w, id).random;
    RecordsOfRun(md5, w, id);
    assert RecordOf(w, id).iteration == Chain(md5, s, RecordOf(w, id).challenge + 1);
    forall sid ensures SessionOnChain(md5, w, id, s, r, DEFAULT_CHALLENGE, sid) {
      if sid in w.sessions && w.sessions[sid].id == id {
        SessionOfRun(md5, w, sid);
        assert w.sessions[sid].verifier.iteration == Chain(md5, s, w.sessions[sid].verifier.challenge + 1);
      }
    }
  }

  // ----- exactly when a reply is accepted twice -----

  /** The row still shows what the session has read: something the server could look at before it stores. */
  ghost predicate FreshCommit(md5: Md5, w: World, e: Event, id: string) {
    Succeeds(md5, w, e, id) ==> w.sessions[e.sid].verifier.iteration == RecordOf(w, id).iteration
  }

  ghost predicate FreshRun(md5: Md5, policy: Policy, w: World, es: seq<Event>, id: string)
    decreases |es|
  {
    es == [] || (FreshCommit(md5, w, es[0], id) && FreshRun(md5, policy, Next(md5, policy, w, es[0]), es[1..], id))
  }

  /** A record of the chain at a count between low and top. */
  ghost predicate At(md5: Md5, s: string, r: string, low: int, top: int, v: Verifier) {
    low <= v.challenge <= top && v.random == r && v.iteration == Chain(md5, s, v.challenge + 1)
  }

  ghost predicate SessionInStep(md5: Md5, w: World, id: string, s: string, r: string, top: int, sid: nat) {
    sid in w.sessions && w.sessions[sid].id == id ==>
      At(md5, s, r, RecordOf(w, id).challenge, top, w.sessions[sid].verifier)
  }

  /** The row is a good record of the chain; the open sessions have read it as it is or as it was before. */
  ghost predicate InStep(md5: Md5, w: World, id: string, s: string, r: string, top: int) {
    && id in w.store.accounts && SeedString(w, id) == s
    && At(md5, s, r, 1, top, RecordOf(w, id))
    && forall sid :: SessionInStep(md5, w, id, s, r, top, sid)
  }

  /** A typed reply in such a state is the link at the count that was read, and fresh only at the present count. */
  lemma AcceptedInStep(md5: Md5, w: World, e: Event, id: string, s: string, r: string, top: int, hashed: set<string>)
    requires InStep(md5, w, id, s, r, top) && Typed(md5, w, e, id) && Succeeds(md5, w, e, id)
    requires ChainIsInjective(md5, s, hashed) && top <= DEFAULT_CHALLENGE
    ensures var k, c := w.sessions[e.sid].verifier.challenge, RecordOf(w, id).challenge;
      && 1 <= c <= k <= top && e.iterate == Chain(md5, s, k)
      && (FreshCommit(md5, w, e, id) <==> k == c)
  {
    assert SessionInStep(md5, w, id, s, r, top, e.sid);
    var k, c := w.sessions[e.sid].verifier.challenge, RecordOf(w, id).challenge;
    if FreshCommit(md5, w, e, id) {
      SameLink(md5, s, k + 1, c + 1, hashed);
    }
  }

  lemma FreshStepInStep(md5: Md5, policy: Policy, w: World, e: Event, id: string, s: string, r: string, top: int,
                        hashed: set<string>)
    requires InStep(md5, w, id, s, r, top) && Typed(md5, w, e, id) && FreshCommit(md5, w, e, id)
    requires ChainIsInjective(md5, s, hashed) && top <= DEFAULT_CHALLENGE && !Reseeds(md5, w, e, id)
    ensures var w' := Next(md5, policy, w, e);
      && InStep(md5, w', id, s, r, top)
      && RecordOf(w', id).challenge == RecordOf(w, id).challenge - |Accepted(md5, w, e, id)|
  {
    var w' := Next(md5, policy, w, e);
    StepUnderSeed(md5, policy, w, e, id);
    if Succeeds(md5, w, e, id) {
      AcceptedInStep(md5, w, e, id, s, r, top, hashed);
    }
    forall sid ensures SessionInStep(md5, w', id, s, r, top, sid) {
      if sid in w'.sessions {
        SessionsAfter(md5, policy, w, e, sid);
        assert SessionInStep(md5, w, id, s, r, top, sid);
      }
    }
  }

  predicate Repeats(replies: seq<string>) {
    exists i, j :: 0 <= i < j < |replies| && replies[i] == replies[j]
  }

  /** Some reply is a link above c, that is, one spent before. */
  ghost predicate Reuses(md5: Md5, s: string, c: int, top: int, replies: seq<string>) {
    exists i, k :: 0 <= i < |replies| && c < k <= top && replies[i] == Chain(md5, s, k)
  }

  lemma RepeatsLater(first: seq<string>, rest: seq<string>)
    requires Repeats(rest)
    ensures Repeats(first + rest)
  {
    var i, j :| 0 <= i < j < |rest| && rest[i] == rest[j];
    var n := |first|;
    assert (first + rest)[n + i] == rest[i] && (first + rest)[n + j] == rest[j];
  }

  lemma ReusesLater(md5: Md5, s: string, c: int, top: int, first: seq<string>, rest: seq<string>)
    requires first == [] || first == [Chain(md5, s, c)]
    requires Repeats(rest) || Reuses(md5, s, c - |first|, top, rest)
    ensures Repeats(first + rest) || Reuses(md5, s, c, top, first + rest)
  {
    var all := first + rest;
    if Repeats(rest) {
      RepeatsLater(first, rest);
    } else {
      var i, k :| 0 <= i < |rest| && c - |first| < k <= top && rest[i] == Chain(md5, s, k);
      assert all[|first| + i] == rest[i];
      if k == c && first != [] {
        assert all[0] == all[|first| + i];
      }
    }
  }

  /** Once a stored reply meets a row that has moved on, a link is spent a second time. */
  lemma {:induction false} StaleReuses(md5: Md5, policy: Policy, w: World, es: seq<Event>, id: string,
                                       s: string, r: string, top: int, hashed: set<string>)
    requires InStep(md5, w, id, s, r, top) && ChainIsInjective(md5, s, hashed) && top <= DEFAULT_CHALLENGE
    requires TypedSeed(md5, policy, w, es, id) && !FreshRun(md5, policy, w, es, id)
    ensures var replies := AcceptedReplies(md5, policy, w, es, id);
      Repeats(replies) || Reuses(md5, s, RecordOf(w, id).challenge, top, replies)
    decreases |es|
  {
    var w' := Next(md5, policy, w, es[0]);
    var first, rest := Accepted(md5, w, es[0], id), AcceptedReplies(md5, policy, w', es[1..], id);
    if Succeeds(md5, w, es[0], id) {
      AcceptedInStep(md5, w, es[0], id, s, r, top, hashed);
      assert (first + rest)[0] == es[0].iterate;
    }
    if FreshCommit(md5, w, es[0], id) {
      FreshStepInStep(md5, policy, w, es[0], id, s, r, top, hashed);
      StaleReuses(md5, policy, w', es[1..], id, s, r, top, hashed);
      ReusesLater(md5, s, RecordOf(w, id).challenge, top, first, rest);
    }
  }

  lemma FreshIsTopLink(md5: Md5, w: World, e: Event, id: string, s: string, r: string, top: int, hashed: set<string>)
    requires InStep(md5, w, id, s, r, top) && Typed(md5, w, e, id) && FreshCommit(md5, w, e, id)
    requires ChainIsInjective(md5, s, hashed) && top <= DEFAULT_CHALLENGE
    ensures var c := RecordOf(w, id).challenge;
      c >= 1 && (Accepted(md5, w, e, id) == [] || Accepted(md5, w, e, id) == [Chain(md5, s, c)])
  {
    if Succeeds(md5, w, e, id) {
      AcceptedInStep(md5, w, e, id, s, r, top, hashed);
    }
  }

  lemma FreshCountsFirst(md5: Md5, w: World, e: Event, id: string, s: string, r: string, top: int,
                         rest: seq<string>, hashed: set<string>)
    requires InStep(md5, w, id, s, r, top) && Typed(md5, w, e, id) && FreshCommit(md5, w, e, id)
    requires ChainIsInjective(md5, s, hashed) && top <= DEFAULT_CHALLENGE
    requires rest == [] || CountsDown(md5, s, RecordOf(w, id).challenge - |Accepted(md5, w, e, id)|, rest)
    ensures CountsDown(md5, s, RecordOf(w, id).challenge, Accepted(md5, w, e, id) + rest)
  {
    FreshIsTopLink(md5, w, e, id, s, r, top, hashed);
    CountsFrom(md5, s, RecordOf(w, id).challenge, Accepted(md5, w, e, id), rest);
  }

  lemma CountsFrom(md5: Md5, s: string, c: int, first: seq<string>, rest: seq<string>)
    requires c >= 1 && (first == [] || first == [Chain(md5, s, c)])
    requires rest == [] || CountsDown(md5, s, c - |first|, rest)
    ensures CountsDown(md5, s, c, first + rest)
  {
    if rest == [] {
      assert CountsDown(md5, s, c - |first|, []);
    }
    CountsOn(md5, s, c, first, rest);
  }

  lemma {:induction false} FreshCountsDown(md5: Md5, policy: Policy, w: World, es: seq<Event>, id: string,
                                           s: string, r: string, top: int, hashed: set<string>)
    requires InStep(md5, w, id, s, r, top) && ChainIsInjective(md5, s, hashed) && top <= DEFAULT_CHALLENGE
    requires TypedSeed(md5, policy, w, es, id) && FreshRun(md5, policy, w, es, id)
    ensures CountsDown(md5, s, RecordOf(w, id).challenge, AcceptedReplies(md5, policy, w, es, id))
    decreases |es|
  {
    if |es| == 1 {
      assert AcceptedReplies(md5, policy, Next(md5, policy, w, es[0]), es[1..], id) == [];
      FreshCountsFirst(md5, w, es[0], id, s, r, top, [], hashed);
    } else if |es| > 1 {
      var w' := Next(md5, policy, w, es[0]);
      FreshStepInStep(md5, policy, w, es[0], id, s, r, top, hashed);
      FreshCountsDown(md5, policy, w', es[1..], id, s, r, top, hashed);
      FreshCountsFirst(md5, w, es[0], id, s, r, top, AcceptedReplies(md5, policy, w', es[1..], id), hashed);
    }
  }

  /** Every open session of the user has read the row as it is; in particular when none is open. */
  ghost predicate NoneBehind(w: World, id: string) {
    forall sid :: sid in w.sessions && w.sessions[sid].id == id ==> w.sessions[sid].verifier == RecordOf(w, id)
  }

  /** What the hypotheses below give: the row and the open sessions are in step at the present count. */
  lemma StartInStep(md5: Md5, w: World, id: string, hashed: set<string>)
    requires Inv(md5, w) && id in w.store.accounts && NoneBehind(w, id)
    requires CollisionFree(md5, hashed) && LinksIn(md5, SeedString(w, id), DEFAULT_CHALLENGE + 1, hashed)
    ensures 1 <= RecordOf(w, id).challenge <= DEFAULT_CHALLENGE && ChainIsInjective(md5, SeedString(w, id), hashed)
    ensures InStep(md5, w, id, SeedString(w, id), RecordOf(w, id).random, RecordOf(w, id).challenge)
  {
    var s, r, c := SeedString(w, id), RecordOf(w, id).random, RecordOf(w, id).challenge;
    RecordsOfRun(md5, w, id);
    SeedIsNoLink(OwnerOf(w, id), r);
    forall sid ensures SessionInStep(md5, w, id, s, r, c, sid) {
    }
  }

  /** The promise of the one-time passwords, exactly: in a run of one seed some reply is accepted twice if and
      only if some accepted reply is stored over a row that no longer shows what its session had read. */
  lemma ReplayIff(md5: Md5, policy: Policy, w: World, es: seq<Event>, id: string, hashed: set<string>)
    requires Inv(md5, w) && id in w.store.accounts && NoneBehind(w, id) && TypedSeed(md5, policy, w, es, id)
    requires CollisionFree(md5, hashed) && LinksIn(md5, SeedString(w, id), DEFAULT_CHALLENGE + 1, hashed)
    ensures Repeats(AcceptedReplies(md5, policy, w, es, id)) <==> !FreshRun(md5, policy, w, es, id)
  {
    var s, r, c := SeedString(w, id), RecordOf(w, id).random, RecordOf(w, id).challenge;
    StartInStep(md5, w, id, hashed);
    if FreshRun(md5, policy, w, es, id) {
      FreshCountsDown(md5, policy, w, es, id, s, r, c, hashed);
      NoneRepeats(md5, s, c, AcceptedReplies(md5, policy, w, es, id), hashed);
    } else {
      StaleReuses(md5, policy, w, es, id, s, r, c, hashed);
    }
  }

  lemma LinksDiffer(md5: Md5, s: string, i: int, j: int, hashed: set<string>)
    requires ChainIsInjective(md5, s, hashed) && 0 <= i < j <= DEFAULT_CHALLENGE
    ensures Chain(md5, s, i) != Chain(md5, s, j)
  {
    if Chain(md5, s, i) == Chain(md5, s, j) {
      SameLink(md5, s, i, j, hashed);
    }
  }

  lemma NoneRepeats(md5: Md5, s: string, c: int, replies: seq<string>, hashed: set<string>)
    requires CountsDown(md5, s, c, replies) && c <= DEFAULT_CHALLENGE && ChainIsInjective(md5, s, hashed)
    ensures !Repeats(replies)
  {
    CountedLength(md5, s, c, replies);
    forall i, j | 0 <= i < j < |replies| ensures replies[i] != replies[j] {
      CountedAt(md5, s, c, replies, i);
      CountedAt(md5, s, c, replies, j);
      LinksDiffer(md5, s, c - j, c - i, hashed);
    }
  }

  /** And exactly then the accepted replies are the chain counted down from the present count, so that there are
      at most that many of them. */
  lemma RepliesCountDownIff(md5: Md5, policy: Policy, w: World, es: seq<Event>, id: string, hashed: set<string>)
    requires Inv(md5, w) && id in w.store.accounts && NoneBehind(w, id) && TypedSeed(md5, policy, w, es, id)
    requires CollisionFree(md5, hashed) && LinksIn(md5, SeedString(w, id), DEFAULT_CHALLENGE + 1, hashed)
    ensures CountsDown(md5, SeedString(w, id), RecordOf(w, id).challenge, AcceptedReplies(md5, policy, w, es, id))
      <==> FreshRun(md5, policy, w, es, id)
    ensures FreshRun(md5, policy, w, es, id) ==> |AcceptedReplies(md5, policy, w, es, id)| <= RecordOf(w, id).challenge
  {
    var s, r, c := SeedString(w, id), RecordOf(w, id).random, RecordOf(w, id).challenge;
    StartInStep(md5, w, id, hashed);
    ReplayIff(md5, policy, w, es, id, hashed);
    if FreshRun(md5, policy, w, es, id) {
      FreshCountsDown(md5, policy, w, es, id, s, r, c, hashed);
      CountedLength(md5, s, c, AcceptedReplies(md5, policy, w, es, id));
    } else if CountsDown(md5, s, c, AcceptedReplies(md5, policy, w, es, id)) {
      NoneRepeats(md5, s, c, AcceptedReplies(md5, policy, w, es, id), hashed);
    }
  }
}

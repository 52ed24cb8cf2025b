/** Runs in which a session stores its reply over a row that has changed since it was read, and the owner's
    record does not survive. */
module SKeyOverlap {
  import opened HashChain
  import opened AccountStore
  import opened SKeyServer
  import opened PasswordHistory
  import opened SKeyWorld
  import opened SKeyRuns
  import PasswordRule

  // ----- two overlapping logins under one seed -----

  function TwoLogins(id: string, r0: string, r1: string, now: int): seq<Event> {
    [Open(0, id, r0, now), Open(1, id, r1, now)]
  }

  function TwoReplies(reply: string, now: int): seq<Event> {
    [Reply(0, reply, "", now), Reply(1, reply, "", now)]
  }

  /** Two sessions of one user opened on the same row. */
  lemma BothOpen(md5: Md5, policy: Policy, w: World, id: string, r0: string, r1: string, now: int)
    requires Inv(md5, w) && ResetConstant(md5) && |r0| == |r1| == MAX_RANDOM
    requires OfferLogin(w.store, policy, id, r0, now).Offered?
    ensures var es := TwoLogins(id, r0, r1, now);
      var w2 := Run(md5, policy, w, es);
      && Inv(md5, w2) && w2.store == w.store && w2.owner == w.owner && 0 in w2.sessions && 1 in w2.sessions
      && w2.sessions[0].id == w2.sessions[1].id == id
      && w2.sessions[0].verifier == w2.sessions[1].verifier == RecordOf(w, id)
      && AcceptedReplies(md5, policy, w, es, id) == [] && NoReseed(md5, policy, w, es, id)
  {
    var e0, e1 := Open(0, id, r0, now), Open(1, id, r1, now);
    TwoSteps(md5, policy, w, e0, e1, id);
    StepKeepsOthers(md5, policy, w, e0);
    StepKeepsOthers(md5, policy, Next(md5, policy, w, e0), e1);
  }

  /** The first of them commits. */
  lemma FirstCommit(md5: Md5, policy: Policy, w: World, id: string, now: int)
    requires Inv(md5, w) && ResetConstant(md5) && id in w.store.accounts && RecordOf(w, id).challenge > 1
    requires 0 in w.sessions && w.sessions[0].id == id && w.sessions[0].verifier == RecordOf(w, id)
    ensures var reply := HonestReply(md5, OwnerOf(w, id), RecordOf(w, id));
      var w' := Next(md5, policy, w, Reply(0, reply, "", now));
      && Inv(md5, w') && id in w'.store.accounts && OwnerOf(w', id) == OwnerOf(w, id)
      && RecordOf(w', id) == Advance(RecordOf(w, id), reply) && w'.sessions == w.sessions - {0}
      && Succeeds(md5, w, Reply(0, reply, "", now), id) && !Reseeds(md5, w, Reply(0, reply, "", now), id)
  {
    var reply := HonestReply(md5, OwnerOf(w, id), RecordOf(w, id));
    RecordsOfRun(md5, w, id);
    HonestReplyAccepted(md5, OwnerOf(w, id), RecordOf(w, id));
    AdvanceHolds(md5, OwnerOf(w, id), RecordOf(w, id));
    StoredIs(md5, policy, w, Reply(0, reply, "", now));
    StepKeepsOthers(md5, policy, w, Reply(0, reply, "", now));
  }

  /** The second of two sessions that read the same row under one seed: its honest reply is accepted as well. */
  lemma SecondCommit(md5: Md5, policy: Policy, w: World, id: string, sid: nat, read: Verifier, now: int)
    requires id in w.store.accounts && sid in w.sessions
    requires w.sessions[sid].id == id && w.sessions[sid].verifier == read
    requires Holds(md5, OwnerOf(w, id), read) && read.challenge > 1
    requires RecordOf(w, id) == Advance(read, HonestReply(md5, OwnerOf(w, id), read))
    ensures var reply := HonestReply(md5, OwnerOf(w, id), read);
      var e := Reply(sid, reply, "", now);
      var w' := Next(md5, policy, w, e);
      && Succeeds(md5, w, e, id) && !Reseeds(md5, w, e, id)
      && id in w'.store.accounts && OwnerOf(w', id) == OwnerOf(w, id)
      && RecordOf(w', id) == Verifier(reply, read.challenge - 2, read.random)
  {
    HonestReplyAccepted(md5, OwnerOf(w, id), read);
  }

  /** The two replies, in a state where both sessions wait on the present row. */
  lemma BothCommit(md5: Md5, policy: Policy, w: World, id: string, now: int)
    requires Inv(md5, w) && ResetConstant(md5) && id in w.store.accounts && RecordOf(w, id).challenge > 1
    requires 0 in w.sessions && w.sessions[0].id == id && w.sessions[0].verifier == RecordOf(w, id)
    requires 1 in w.sessions && w.sessions[1].id == id && w.sessions[1].verifier == RecordOf(w, id)
    ensures var v, reply := RecordOf(w, id), HonestReply(md5, OwnerOf(w, id), RecordOf(w, id));
      var es := TwoReplies(reply, now);
      var w2 := Run(md5, policy, w, es);
      && AcceptedReplies(md5, policy, w, es, id) == [reply, reply] && NoReseed(md5, policy, w, es, id)
      && id in w2.store.accounts && OwnerOf(w2, id) == OwnerOf(w, id)
      && RecordOf(w2, id) == Verifier(reply, v.challenge - 2, v.random)
  {
    var v, reply := RecordOf(w, id), HonestReply(md5, OwnerOf(w, id), RecordOf(w, id));
    var e0, e1 := Reply(0, reply, "", now), Reply(1, reply, "", now);
    TwoSteps(md5, policy, w, e0, e1, id);
    RecordsOfRun(md5, w, id);
    FirstCommit(md5, policy, w, id, now);
    SecondCommit(md5, policy, Next(md5, policy, w, e0), id, 1, v, now);
  }

  lemma OutOfStep(md5: Md5, owner: string, read: Verifier, hashed: set<string>)
    requires Holds(md5, owner, read) && read.challenge > 1
    requires CollisionFree(md5, hashed) && LinksIn(md5, owner + read.random, DEFAULT_CHALLENGE + 1, hashed)
    ensures var left := Verifier(HonestReply(md5, owner, read), read.challenge - 2, read.random);
      !Holds(md5, owner, left) && !Accepts(md5, left, HonestReply(md5, owner, left))
  {
    var s := owner + read.random;
    var c := read.challenge;
    SeedIsNoLink(owner, read.random);
    ChainRestart(md5, owner, read.random, c - 2, 1);
    FewerLinks(md5, s, c, DEFAULT_CHALLENGE + 1, hashed);
    FewerLinks(md5, s, c - 1, DEFAULT_CHALLENGE + 1, hashed);
    if Chain(md5, s, c - 1) == Chain(md5, s, c) {
      ChainsMeet(md5, s, s, c - 1, c, hashed);
    }
  }

  /** From every good state in which a user is offered a login under the same seed, two overlapping logins with
      one and the same reply both succeed, no step replaces the seed, and afterwards the owner's reply is refused. */
  lemma OverlapLocksOut(md5: Md5, policy: Policy, w: World, id: string, r0: string, r1: string, now: int,
                        hashed: set<string>)
    requires Inv(md5, w) && ResetConstant(md5) && |r0| == |r1| == MAX_RANDOM
    requires OfferLogin(w.store, policy, id, r0, now).Offered? && RecordOf(w, id).challenge > 1
    requires CollisionFree(md5, hashed)
    requires LinksIn(md5, OwnerOf(w, id) + RecordOf(w, id).random, DEFAULT_CHALLENGE + 1, hashed)
    ensures var reply := HonestReply(md5, OwnerOf(w, id), RecordOf(w, id));
      var es := TwoLogins(id, r0, r1, now) + TwoReplies(reply, now);
      var w' := Run(md5, policy, w, es);
      && NoReseed(md5, policy, w, es, id) && AcceptedReplies(md5, policy, w, es, id) == [reply, reply]
      && id in w'.store.accounts && !RecordHolds(md5, w', id)
      && !Accepts(md5, RecordOf(w', id), HonestReply(md5, OwnerOf(w', id), RecordOf(w', id)))
  {
    var reply := HonestReply(md5, OwnerOf(w, id), RecordOf(w, id));
    RecordsOfRun(md5, w, id);
    BothOpen(md5, policy, w, id, r0, r1, now);
    BothCommit(md5, policy, Run(md5, policy, w, TwoLogins(id, r0, r1, now)), id, now);
    RunThen(md5, policy, w, TwoLogins(id, r0, r1, now), TwoReplies(reply, now));
    RepliesThen(md5, policy, w, TwoLogins(id, r0, r1, now), TwoReplies(reply, now), id);
    NoReseedThen(md5, policy, w, TwoLogins(id, r0, r1, now), TwoReplies(reply, now), id);
    OutOfStep(md5, OwnerOf(w, id), RecordOf(w, id), hashed);
  }

  // ----- a login that starts a new seed, overtaken by a password change -----

  function LoginAndChange(id: string, r0: string, r1: string, now: int): seq<Event> {
    [Open(0, id, r0, now), OpenChange(0, id, r1)]
  }

  function ChangeThenReply(password: string, reply: string, newIterate: string, now: int): seq<Event> {
    [Change(0, password, now), Reply(0, reply, newIterate, now)]
  }

  /** A login offered at the last link, and a change of the password. */
  lemma LoginAndChangeOpen(md5: Md5, policy: Policy, w: World, id: string, r0: string, r1: string, now: int)
    requires Inv(md5, w) && ResetConstant(md5) && |r0| == |r1| == MAX_RANDOM
    requires OfferLogin(w.store, policy, id, r0, now).Offered?
    ensures var w2 := Run(md5, policy, w, LoginAndChange(id, r0, r1, now));
      && Inv(md5, w2) && w2.store == w.store && w2.owner == w.owner && 0 in w2.sessions && 0 in w2.changes
      && w2.sessions[0].id == id && w2.sessions[0].verifier == RecordOf(w, id) && w2.sessions[0].newRandom == r0
      && w2.changes[0] == PendingChange(id, Compared(w.store, id), r1)
  {
    var e0, e1 := Open(0, id, r0, now), OpenChange(0, id, r1);
    TwoSteps(md5, policy, w, e0, e1, id);
    StepKeepsOthers(md5, policy, w, e0);
    StepKeepsOthers(md5, policy, Next(md5, policy, w, e0), e1);
  }

  lemma ChangeCommits(md5: Md5, policy: Policy, w: World, sid: nat, password: string, now: int)
    requires Inv(md5, w) && ResetConstant(md5) && PasswordRule.Acceptable(password)
    requires sid in w.changes && !Reproduces(md5, password, w.changes[sid].rows)
    ensures var id, w' := w.changes[sid].id, Next(md5, policy, w, Change(sid, password, now));
      Inv(md5, w') && id in w'.store.accounts && OwnerOf(w', id) == password && w'.sessions == w.sessions
  {
    ChangeOfRun(md5, w, sid);
    StepKeepsOthers(md5, policy, w, Change(sid, password, now));
  }

  /** The change is stored first, then the reply to what was read before it. */
  lemma ReplyAfterChange(md5: Md5, policy: Policy, w: World, id: string, password: string, reply: string,
                         newIterate: string, now: int)
    requires Inv(md5, w) && ResetConstant(md5) && PasswordRule.Acceptable(password)
    requires 0 in w.changes && w.changes[0].id == id && !Reproduces(md5, password, w.changes[0].rows)
    requires 0 in w.sessions && w.sessions[0].id == id && w.sessions[0].verifier.challenge <= 1
    requires Accepts(md5, w.sessions[0].verifier, reply)
    ensures var w' := Run(md5, policy, w, ChangeThenReply(password, reply, newIterate, now));
      && id in w'.store.accounts && OwnerOf(w', id) == password
      && RecordOf(w', id) == Reseed(newIterate, w.sessions[0].newRandom)
  {
    var e0, e1 := Change(0, password, now), Reply(0, reply, newIterate, now);
    TwoSteps(md5, policy, w, e0, e1, id);
    ChangeCommits(md5, policy, w, 0, password, now);
    StoredIs(md5, policy, Next(md5, policy, w, e0), e1);
  }

  /** From every good state in which a user is offered a login at the last count, and for every new password
      that is not refused: when the change overtakes the login, the login still goes through, and afterwards
      the record is one of the old password and refuses the new one. */
  lemma OldPasswordReturns(md5: Md5, policy: Policy, w: World, id: string, r0: string, r1: string, password: string,
                           now: int, hashed: set<string>)
    requires Inv(md5, w) && ResetConstant(md5) && |r0| == |r1| == MAX_RANDOM && PasswordRule.Acceptable(password)
    requires OfferLogin(w.store, policy, id, r0, now).Offered? && RecordOf(w, id).challenge <= 1
    requires !Reproduces(md5, password, Compared(w.store, id))
    requires CollisionFree(md5, hashed)
    requires LinksIn(md5, OwnerOf(w, id) + r0, DEFAULT_CHALLENGE + 1, hashed)
    requires LinksIn(md5, password + r0, DEFAULT_CHALLENGE + 1, hashed)
    ensures var reply := HonestReply(md5, OwnerOf(w, id), RecordOf(w, id));
      var renewed := FreshIteration(md5, OwnerOf(w, id), r0);
      var es := LoginAndChange(id, r0, r1, now) + ChangeThenReply(password, reply, renewed, now);
      var w' := Run(md5, policy, w, es);
      && OwnerOf(w', id) == password && id in w'.store.accounts
      && Holds(md5, OwnerOf(w, id), RecordOf(w', id)) && !Holds(md5, password, RecordOf(w', id))
      && !Accepts(md5, RecordOf(w', id), HonestReply(md5, password, RecordOf(w', id)))
  {
    var owner, reply := OwnerOf(w, id), HonestReply(md5, OwnerOf(w, id), RecordOf(w, id));
    var renewed := FreshIteration(md5, owner, r0);
    RecordsOfRun(md5, w, id);
    HonestReplyAccepted(md5, owner, RecordOf(w, id));
    LoginAndChangeOpen(md5, policy, w, id, r0, r1, now);
    var w2 := Run(md5, policy, w, LoginAndChange(id, r0, r1, now));
    ReplyAfterChange(md5, policy, w2, id, password, reply, renewed, now);
    RunThen(md5, policy, w, LoginAndChange(id, r0, r1, now), ChangeThenReply(password, reply, renewed, now));
    NotRefusedIsOther(md5, w, id, password);
    OldRecordOnly(md5, owner, password, r0, hashed);
  }

  lemma OldRecordOnly(md5: Md5, owner: string, password: string, random: string, hashed: set<string>)
    requires |owner| <= MAX_PASSWORD && |password| <= MAX_PASSWORD && |random| <= MAX_RANDOM && password != owner
    requires CollisionFree(md5, hashed)
    requires LinksIn(md5, owner + random, DEFAULT_CHALLENGE + 1, hashed)
    requires LinksIn(md5, password + random, DEFAULT_CHALLENGE + 1, hashed)
    ensures var left := Reseed(FreshIteration(md5, owner, random), random);
      Holds(md5, owner, left) && !Holds(md5, password, left) && !Accepts(md5, left, HonestReply(md5, password, left))
  {
    var left := Reseed(FreshIteration(md5, owner, random), random);
    ReseedHolds(md5, owner, random);
    StaleReseedIff(md5, password, owner, random, hashed);
    if Accepts(md5, left, HonestReply(md5, password, left)) {
      WrongPasswordRefused(md5, owner, password, left, hashed);
    }
  }

  /** A new password that is not refused is not the present one. */
  lemma NotRefusedIsOther(md5: Md5, w: World, id: string, password: string)
    requires Inv(md5, w) && id in w.store.accounts && !Reproduces(md5, password, Compared(w.store, id))
    ensures password !in Recent(w, id) && password != OwnerOf(w, id)
  {
    ComparedHold(md5, w, id);
    if password in Recent(w, id) {
      ReuseIsNoticed(md5, password, Recent(w, id), Compared(w.store, id));
    }
    assert Recent(w, id)[0] == OwnerOf(w, id);
  }
}

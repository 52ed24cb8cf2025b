/** Login and registration, both ends. A server procedure that sends a message and waits for the
    answer is cut at that point into an offer and a finish, so that sessions can interleave. */
module SKeyServer {
  import opened HashChain
  import opened AccountStore
  import PasswordRule

  const S_ACCESS := 2001
  const S_FAILED := 2002
  const S_UPDATE_PASSWORD := 2003
  const S_FROZEN := 2004
  const S_NEXTSTEP := 2005
  const S_NEW_RANDOM := 2006
  const S_USER_EXIST := 2007
  const S_BLOCK := 2008

  const BLOCK_SECONDS := 300

  datatype Policy = Policy(noLoginPeriod: int, passwordChangePeriod: int)

  /** What Login holds in local variables while it waits for the reply. */
  datatype Pending = Pending(id: string, verifier: Verifier, newRandom: string, firstError: bool, updateDue: bool)

  datatype Offer = Refused(code: int) | Offered(code: int, pending: Pending)

  function OfferLogin(st: Store, policy: Policy, id: string, newRandom: string, now: int): Offer {
    if id !in st.accounts then Refused(S_FAILED) else
      var a := st.accounts[id];
      if a.blockTime + BLOCK_SECONDS > now then Refused(S_BLOCK)
      else if a.loginDate + policy.noLoginPeriod < Day(now) then Refused(S_FROZEN)
      else Offered(if a.verifier.challenge <= 1 then S_NEW_RANDOM else S_NEXTSTEP,
                   Pending(id, a.verifier, newRandom, a.errorTime + BLOCK_SECONDS < now,
                           a.updateDate + policy.passwordChangePeriod <= Day(now)))
  }

  /** One more hash of the reply must give the stored iteration value. */
  predicate Accepts(md5: Md5, v: Verifier, reply: string) {
    Chain(md5, reply + "", 1) == v.iteration
  }

  function AfterFinish(md5: Md5, st: Store, p: Pending, iterate: string, newIterate: string, now: int): Store {
    if !Accepts(md5, p.verifier, iterate) then AfterLoginFailed(st, p.id, p.firstError, now)
    else if p.verifier.challenge > 1 then AfterUpdateValue(st, p.id, iterate, false, "", false, now)
    else AfterUpdateValue(st, p.id, newIterate, true, p.newRandom, false, now)
  }

  class Server {
    const db: DataBase
    const policy: Policy

    constructor (db: DataBase, policy: Policy)
      ensures this.db == db && this.policy == policy
    {
      this.db := db;
      this.policy := policy;
    }

    method LoginOffer(id: string, newRandom: string, now: int) returns (offer: Offer)
      ensures offer == OfferLogin(db.State(), policy, id, newRandom, now)
      // who is refused and why
      ensures id !in db.accounts <==> offer == Refused(S_FAILED)
      ensures id in db.accounts ==>
        var a := db.accounts[id];
        var blocked, visitedBy := now < a.blockTime + 5 * 60, a.loginDate + policy.noLoginPeriod;
        && (offer == Refused(S_BLOCK) <==> blocked)
        && (offer == Refused(S_FROZEN) <==> !blocked && visitedBy < Day(now))
        && (offer.Offered? <==> !blocked && visitedBy >= Day(now))
      // what is offered, and what is kept for the finish
      ensures offer.Offered? ==>
        var a, p := db.accounts[id], offer.pending;
        && (offer.code == S_NEW_RANDOM <==> a.verifier.challenge <= 1)
        && (offer.code == S_NEXTSTEP <==> a.verifier.challenge > 1)
        && p.id == id && p.verifier == a.verifier && p.newRandom == newRandom
        && (p.firstError <==> a.errorTime + 5 * 60 < now)
        && (p.updateDue <==> a.updateDate + policy.passwordChangePeriod <= Day(now))
    {
      if id !in db.accounts {
        return Refused(S_FAILED);
      }
      var a := db.accounts[id];
      var unblockTime := a.blockTime + BLOCK_SECONDS;
      var lastLoginDate := a.loginDate + policy.noLoginPeriod;
      if unblockTime > now {
        return Refused(S_BLOCK);
      }
      if lastLoginDate < Day(now) {
        return Refused(S_FROZEN);
      }
      var operate := S_NEXTSTEP;
      if a.verifier.challenge <= 1 {
        operate := S_NEW_RANDOM;
      }
      return Offered(operate, Pending(id, a.verifier, newRandom, a.errorTime + BLOCK_SECONDS < now,
                                      !(a.updateDate + policy.passwordChangePeriod > Day(now))));
    }

    method LoginFinish(md5: Md5, p: Pending, iterate: string, newIterate: string, now: int) returns (operate: int)
      modifies db
      ensures operate == S_FAILED <==> !Accepts(md5, p.verifier, iterate)
      ensures Accepts(md5, p.verifier, iterate) ==> operate == (if p.updateDue then S_UPDATE_PASSWORD else S_ACCESS)
      ensures db.State() == AfterFinish(md5, old(db.State()), p, iterate, newIterate, now)
      // what a good reply leaves behind
      ensures Accepts(md5, p.verifier, iterate) && p.id in old(db.accounts) && InRange(old(db.State())) ==>
        && p.id in db.accounts && db.history == old(db.history)
        && var a, b := old(db.accounts[p.id]), db.accounts[p.id];
        && b.verifier == (
             if p.verifier.challenge > 1 then Verifier(iterate, a.verifier.challenge - 1, a.verifier.random)
             else Verifier(newIterate, 255, p.newRandom))
        && b == a.(verifier := b.verifier, loginDate := Day(now), resetRequested := false)
      // and a wrong one
      ensures !Accepts(md5, p.verifier, iterate) && p.id in old(db.accounts) && InRange(old(db.State())) ==>
        && p.id in db.accounts && db.history == old(db.history)
        && var a, b := old(db.accounts[p.id]), db.accounts[p.id];
        && b == a.(errorTime := b.errorTime, errorTimes := b.errorTimes, blockTime := b.blockTime)
        && b.errorTime == (if p.firstError then now else a.errorTime)
        && b.errorTimes == (if p.firstError then 1 else if a.errorTimes == 2 then 0 else a.errorTimes + 1)
        && b.blockTime == (if !p.firstError && a.errorTimes == 2 then now else a.blockTime)
    {
      var recvIterate := PasswdToMD5(md5, iterate, "", 1);
      if p.verifier.iteration != recvIterate {
        db.LoginFailed(p.id, p.firstError, now);
        return S_FAILED;
      }
      operate := if p.updateDue then S_UPDATE_PASSWORD else S_ACCESS;
      if p.verifier.challenge > 1 {
        db.UpdateChallengeAndRandom(p.id, iterate, false, "", false, now);
      } else {
        db.UpdateChallengeAndRandom(p.id, newIterate, true, p.newRandom, false, now);
      }
    }

    /** The check before a registration; the seed it offers is not kept. */
    method RegisterOffer(id: string) returns (operate: int)
      ensures operate == if id in db.accounts then S_USER_EXIST else S_NEXTSTEP
    {
      if id in db.accounts {
        return S_USER_EXIST;
      }
      return S_NEXTSTEP;
    }

    /** The insertion, after the client has answered; another registration may have come first. */
    method RegisterFinish(id: string, name: string, iterate: string, random: string, now: int) returns (operate: int)
      modifies db
      ensures operate == (if id in old(db.accounts) then S_FAILED else S_ACCESS)
      ensures db.State() == AfterAddUser(old(db.State()), id, name, Verifier(iterate, DEFAULT_CHALLENGE, random), now)
    {
      var added := db.AddUser(name, id, random, iterate, DEFAULT_CHALLENGE, now);
      return if added then S_ACCESS else S_FAILED;
    }
  }

  // ----- the client's answers -----

  /** The link whose hash the server already holds. */
  function HonestReply(md5: Md5, password: string, v: Verifier): string {
    Chain(md5, password + v.random, v.challenge)
  }

  /** A fresh iteration value, sent wherever a new seed starts. */
  function FreshIteration(md5: Md5, password: string, random: string): string {
    Chain(md5, password + random, DEFAULT_CHALLENGE + 1)
  }

  method ClientLogin(md5: Md5, password: string, offer: Offer) returns (iterate: string, newIterate: string)
    requires offer.Offered?
    ensures iterate == HonestReply(md5, password, offer.pending.verifier)
    ensures newIterate ==
      if offer.code == S_NEW_RANDOM then FreshIteration(md5, password, offer.pending.newRandom) else ""
  {
    var v := offer.pending.verifier;
    iterate := PasswdToMD5(md5, password, v.random, v.challenge);
    newIterate := "";
    if offer.code == S_NEW_RANDOM {
      newIterate := PasswdToMD5(md5, password, offer.pending.newRandom, DEFAULT_CHALLENGE + 1);
    }
  }

  // ----- one record -----

  const MAX_RANDOM := 8
  const MAX_PASSWORD := PasswordRule.MAX_LENGTH

  /** The record belongs to this password: one hash past the link the client will be asked for. */
  ghost predicate Holds(md5: Md5, password: string, v: Verifier) {
    && v.iteration == Chain(md5, password + v.random, v.challenge + 1)
    && 1 <= v.challenge <= DEFAULT_CHALLENGE
    && |password| <= MAX_PASSWORD && |v.random| <= MAX_RANDOM
  }

  /** The honest reply passes the one-more-hash check. */
  lemma HonestReplyAccepted(md5: Md5, password: string, v: Verifier)
    requires Holds(md5, password, v)
    ensures Accepts(md5, v, HonestReply(md5, password, v))
  {
    ChainRestart(md5, password, v.random, v.challenge, 1);
  }

  /** What crosses the network is always a hash, never the password itself. */
  lemma ReplyIsHashed(md5: Md5, password: string, v: Verifier)
    requires Holds(md5, password, v)
    ensures |HonestReply(md5, password, v)| == HEX_LENGTH && HonestReply(md5, password, v) != password + v.random
  {
    ChainShape(md5, password + v.random, v.challenge);
  }

  /** Storing the accepted reply with the count reduced keeps the record, down to the last link. */
  lemma AdvanceHolds(md5: Md5, password: string, v: Verifier)
    requires Holds(md5, password, v)
    ensures Holds(md5, password, Advance(v, HonestReply(md5, password, v))) <==> v.challenge > 1
  {
  }

  /** A seed of the lengths in use is shorter than any link. */
  lemma SeedIsNoLink(password: string, random: string)
    requires |password| <= MAX_PASSWORD && |random| <= MAX_RANDOM
    ensures |password + random| != HEX_LENGTH
  {
  }

  /** The only reply the server can accept is the honest one, unless MD5 collides on these very strings. */
  lemma AcceptedIsHonest(md5: Md5, password: string, v: Verifier, reply: string, hashed: set<string>)
    requires Holds(md5, password, v) && Accepts(md5, v, reply)
    requires CollisionFree(md5, hashed) && reply in hashed && HonestReply(md5, password, v) in hashed
    ensures reply == HonestReply(md5, password, v)
  {
    var honest := HonestReply(md5, password, v);
    HonestReplyAccepted(md5, password, v);
    assert reply + "" == reply && honest + "" == honest;
    assert Chain(md5, reply, 1) == Hex(md5(Chain(md5, reply, 0)));
    assert Chain(md5, honest, 1) == Hex(md5(Chain(md5, honest, 0)));
    HexInjective(md5(reply), md5(honest));
    assert Apart(md5, reply, honest);
  }

  /** Two good records show the same iteration value only if they expect the same reply at the same count. */
  lemma SameIteration(md5: Md5, p1: string, v1: Verifier, p2: string, v2: Verifier, hashed: set<string>)
    requires Holds(md5, p1, v1) && Holds(md5, p2, v2) && v1.iteration == v2.iteration
    requires CollisionFree(md5, hashed)
    requires LinksIn(md5, p1 + v1.random, v1.challenge + 1, hashed)
    requires LinksIn(md5, p2 + v2.random, v2.challenge + 1, hashed)
    ensures v1.challenge == v2.challenge && p1 + v1.random == p2 + v2.random
  {
    SeedIsNoLink(p1, v1.random);
    SeedIsNoLink(p2, v2.random);
    ChainsMeet(md5, p1 + v1.random, p2 + v2.random, v1.challenge + 1, v2.challenge + 1, hashed);
  }

  lemma FewerLinks(md5: Md5, s: string, m: int, n: int, hashed: set<string>)
    requires m <= n && LinksIn(md5, s, n, hashed)
    ensures LinksIn(md5, s, m, hashed)
  {
  }

  /** Login reads the row, waits for the reply, and then decrements whatever row is there. The record
      survives exactly when the row still shows the iteration value that was read. */
  lemma StaleCommitIff(md5: Md5, owner: string, row: Verifier, typed: string, read: Verifier, hashed: set<string>)
    requires Holds(md5, owner, row) && Holds(md5, typed, read) && read.challenge > 1
    requires CollisionFree(md5, hashed)
    requires LinksIn(md5, owner + row.random, DEFAULT_CHALLENGE + 1, hashed)
    requires LinksIn(md5, typed + read.random, DEFAULT_CHALLENGE + 1, hashed)
    ensures Holds(md5, owner, Advance(row, HonestReply(md5, typed, read))) <==> row.iteration == read.iteration
  {
    if row.iteration == read.iteration {
      FewerLinks(md5, owner + row.random, row.challenge + 1, DEFAULT_CHALLENGE + 1, hashed);
      FewerLinks(md5, typed + read.random, read.challenge + 1, DEFAULT_CHALLENGE + 1, hashed);
      SameIteration(md5, owner, row, typed, read, hashed);
    }
    if Holds(md5, owner, Advance(row, HonestReply(md5, typed, read))) {
      SameReplySameIteration(md5, owner, row, typed, read);
    }
  }

  lemma SameReplySameIteration(md5: Md5, p1: string, v1: Verifier, p2: string, v2: Verifier)
    requires Holds(md5, p1, v1) && Holds(md5, p2, v2)
    requires HonestReply(md5, p1, v1) == HonestReply(md5, p2, v2)
    ensures v1.iteration == v2.iteration
  {
    assert v1.iteration == Hex(md5(HonestReply(md5, p1, v1)));
    assert v2.iteration == Hex(md5(HonestReply(md5, p2, v2)));
  }

  /** A reseeding commit overwrites the whole record and cannot go stale. */
  lemma ReseedHolds(md5: Md5, owner: string, newRandom: string)
    requires |owner| <= MAX_PASSWORD && |newRandom| <= MAX_RANDOM
    ensures Holds(md5, owner, Reseed(FreshIteration(md5, owner, newRandom), newRandom))
  {
  }

  /** So it leaves a record of the owner's password exactly when it was made from that password, even where
      the owner has changed it since the session was opened. */
  lemma StaleReseedIff(md5: Md5, owner: string, typed: string, newRandom: string, hashed: set<string>)
    requires |owner| <= MAX_PASSWORD && |newRandom| <= MAX_RANDOM
    requires CollisionFree(md5, hashed)
    requires LinksIn(md5, owner + newRandom, DEFAULT_CHALLENGE + 1, hashed)
    requires LinksIn(md5, typed + newRandom, DEFAULT_CHALLENGE + 1, hashed)
    ensures Holds(md5, owner, Reseed(FreshIteration(md5, typed, newRandom), newRandom)) <==> typed == owner
  {
    if Holds(md5, owner, Reseed(FreshIteration(md5, typed, newRandom), newRandom)) {
      ChainInjective(md5, typed + newRandom, owner + newRandom, DEFAULT_CHALLENGE + 1, hashed);
      SamePrefix(typed, owner, newRandom);
    }
  }

  lemma SamePrefix(a: string, b: string, tail: string)
    requires a + tail == b + tail
    ensures a == b
  {
    assert a == (a + tail)[..|a + tail| - |tail|] && b == (b + tail)[..|b + tail| - |tail|];
  }

  /** A wrong password is refused, unless MD5 collides on the two chains. */
  lemma WrongPasswordRefused(md5: Md5, owner: string, typed: string, v: Verifier, hashed: set<string>)
    requires Holds(md5, owner, v) && Accepts(md5, v, HonestReply(md5, typed, v))
    requires CollisionFree(md5, hashed)
    requires LinksIn(md5, owner + v.random, DEFAULT_CHALLENGE + 1, hashed)
    requires LinksIn(md5, typed + v.random, DEFAULT_CHALLENGE + 1, hashed)
    ensures typed == owner
  {
    ChainRestart(md5, typed, v.random, v.challenge, 1);
    FewerLinks(md5, owner + v.random, v.challenge + 1, DEFAULT_CHALLENGE + 1, hashed);
    FewerLinks(md5, typed + v.random, v.challenge + 1, DEFAULT_CHALLENGE + 1, hashed);
    ChainInjective(md5, typed + v.random, owner + v.random, v.challenge + 1, hashed);
    SamePrefix(typed, owner, v.random);
  }

  /** Both ends of one login with nothing in between. Whatever is typed, the record stays one of the owner's
      password; and an offered login goes through exactly when that password is typed. */
  method Login(md5: Md5, server: Server, id: string, typed: string, newRandom: string, offered: int, answered: int,
               ghost owner: string, ghost hashed: set<string>) returns (operate: int)
    requires id in server.db.accounts ==> Holds(md5, owner, server.db.accounts[id].verifier)
    requires |newRandom| == MAX_RANDOM && CollisionFree(md5, hashed)
    requires id in server.db.accounts ==>
      && LinksIn(md5, owner + server.db.accounts[id].verifier.random, DEFAULT_CHALLENGE + 1, hashed)
      && LinksIn(md5, typed + server.db.accounts[id].verifier.random, DEFAULT_CHALLENGE + 1, hashed)
    modifies server.db
    ensures var offer := OfferLogin(old(server.db.State()), server.policy, id, newRandom, offered);
      && (offer.Refused? ==> operate == offer.code && server.db.State() == old(server.db.State()))
      && (offer.Offered? && typed != owner ==> operate == S_FAILED)
      && (offer.Offered? && typed == owner ==>
           operate == if offer.pending.updateDue then S_UPDATE_PASSWORD else S_ACCESS)
    // nobody is let in but a known user with the right password, neither blocked nor frozen
    ensures id !in old(server.db.accounts) ==> operate == S_FAILED
    ensures operate == S_ACCESS || operate == S_UPDATE_PASSWORD <==>
      && id in old(server.db.accounts) && typed == owner
      && var a := old(server.db.accounts[id]);
      a.blockTime + 5 * 60 <= offered && Day(offered) <= a.loginDate + server.policy.noLoginPeriod
    ensures operate == S_UPDATE_PASSWORD ==>
      old(server.db.accounts[id]).updateDate + server.policy.passwordChangePeriod <= Day(offered)
    ensures operate == S_ACCESS ==>
      old(server.db.accounts[id]).updateDate + server.policy.passwordChangePeriod > Day(offered)
    ensures id in server.db.accounts <==> id in old(server.db.accounts)
    ensures id in server.db.accounts ==> Holds(md5, owner, server.db.accounts[id].verifier)
  {
    var offer := server.LoginOffer(id, newRandom, offered);
    if offer.Refused? {
      return offer.code;
    }
    var v := offer.pending.verifier;
    var iterate, newIterate := ClientLogin(md5, typed, offer);
    if typed == owner {
      HonestReplyAccepted(md5, owner, v);
      AdvanceHolds(md5, owner, v);
      ReseedHolds(md5, owner, newRandom);
    } else if Accepts(md5, v, iterate) {
      WrongPasswordRefused(md5, owner, typed, v, hashed);
    }
    operate := server.LoginFinish(md5, offer.pending, iterate, newIterate, answered);
  }

  method ClientRegister(md5: Md5, password: string, random: string, challenge: int) returns (iterate: string)
    ensures iterate == Chain(md5, password + random, challenge + 1)
  {
    iterate := PasswdToMD5(md5, password, random, challenge + 1);
  }

  /** Both ends of one registration with nothing in between: a known user keeps everything; a new one has a
      record of the chosen password, and is at once offered a login at the full count. */
  method Enrol(md5: Md5, server: Server, id: string, name: string, password: string, random: string, now: int)
    returns (operate: int)
    requires PasswordRule.Acceptable(password) && |random| == MAX_RANDOM
    requires LONG_AGO + BLOCK_SECONDS <= now && server.policy.noLoginPeriod >= 0
    modifies server.db
    ensures id in old(server.db.accounts) ==> operate == S_USER_EXIST && server.db.State() == old(server.db.State())
    ensures id !in old(server.db.accounts) ==>
      && operate == S_ACCESS && id in server.db.accounts && server.db.history == old(server.db.history)
      && (forall other :: other != id ==> (other in server.db.accounts <==> other in old(server.db.accounts)))
      && (forall other :: other != id && other in server.db.accounts ==>
           server.db.accounts[other] == old(server.db.accounts[other]))
      && Holds(md5, password, server.db.accounts[id].verifier)
      && server.db.accounts[id] == Account(name, 946684800, 946684800, Day(now), Day(now), 0,
                                           server.db.accounts[id].verifier, false, false)
      && server.db.accounts[id].verifier.challenge == 255 && server.db.accounts[id].verifier.random == random
      && var offer := OfferLogin(server.db.State(), server.policy, id, "", now);
      && offer.Offered? && offer.code == S_NEXTSTEP
      && (server.policy.passwordChangePeriod > 0 ==> !offer.pending.updateDue)
  {
    operate := server.RegisterOffer(id);
    if operate == S_USER_EXIST {
      return;
    }
    var iterate := ClientRegister(md5, password, random, DEFAULT_CHALLENGE);
    operate := server.RegisterFinish(id, name, iterate, random, now);
  }

  /** A new user who registers and logs in on the same day is let in, with no change of password demanded. */
  method EnrolAndLogin(md5: Md5, server: Server, id: string, name: string, password: string, random: string,
                       enrolled: int, newRandom: string, offered: int, answered: int, ghost hashed: set<string>)
    returns (operate: int)
    requires PasswordRule.Acceptable(password) && |random| == MAX_RANDOM && |newRandom| == MAX_RANDOM
    requires LONG_AGO + BLOCK_SECONDS <= enrolled <= offered && Day(offered) == Day(enrolled)
    requires server.policy.noLoginPeriod >= 0 && server.policy.passwordChangePeriod > 0
    requires id !in server.db.accounts
    requires CollisionFree(md5, hashed) && LinksIn(md5, password + random, DEFAULT_CHALLENGE + 1, hashed)
    modifies server.db
    ensures operate == S_ACCESS
    ensures id in server.db.accounts && Holds(md5, password, server.db.accounts[id].verifier)
  {
    operate := Enrol(md5, server, id, name, password, random, enrolled);
    operate := Login(md5, server, id, password, newRandom, offered, answered, password, hashed);
  }
}

/** Whole runs: what every step keeps, and what one seed is worth. */
module SKeyRuns {
  import opened HashChain
  import opened AccountStore
  import opened Optional
  import opened SKeyServer
  import opened PasswordHistory
  import opened SKeyWorld

  lemma ResetHolds(md5: Md5)
    requires ResetConstant(md5)
    ensures Holds(md5, RESET_PASSWORD, RESET_VERIFIER)
  {
  }

  lemma RecordsOfRun(md5: Md5, w: World, id: string)
    requires Inv(md5, w) && id in w.store.accounts
    ensures id in w.owner && Holds(md5, OwnerOf(w, id), RecordOf(w, id))
  {
    assert RecordHolds(md5, w, id);
  }

  lemma SessionOfRun(md5: Md5, w: World, sid: nat)
    requires Inv(md5, w) && sid in w.sessions
    ensures |w.sessions[sid].newRandom| == MAX_RANDOM && w.sessions[sid].id in w.store.accounts
    ensures sid in w.reader && Holds(md5, w.reader[sid], w.sessions[sid].verifier)
  {
    assert SessionHolds(md5, w, sid);
  }

  lemma ChangeOfRun(md5: Md5, w: World, sid: nat)
    requires Inv(md5, w) && sid in w.changes
    ensures |w.changes[sid].newRandom| == MAX_RANDOM && w.changes[sid].id in w.store.accounts
    ensures sid in w.compared && AllHold(md5, w.compared[sid], w.changes[sid].rows)
  {
    assert ChangeHolds(md5, w, sid);
  }

  // ----- the records compared are those of the recent passwords -----

  lemma {:induction false} NewestHold(md5: Md5, history: seq<HistoryRow>, owners: seq<string>, id: string)
    requires |history| == |owners|
    requires forall i :: 0 <= i < |owners| ==> Holds(md5, owners[i], history[i].verifier)
    ensures forall k :: 0 <= k < |Newest(history, id)| ==>
      Holds(md5, NewestOwners(history, owners, id)[k], Newest(history, id)[k].verifier)
  {
    if history != [] {
      var n := |history| - 1;
      forall i | 0 <= i < n ensures Holds(md5, owners[..n][i], history[..n][i].verifier) {
        assert Holds(md5, owners[i], history[i].verifier);
      }
      NewestHold(md5, history[..n], owners[..n], id);
      assert Holds(md5, owners[n], history[n].verifier);
    }
  }

  lemma PastOwnersHold(md5: Md5, w: World, id: string, k: nat)
    requires Inv(md5, w) && k < |Newest(w.store.history, id)|
    ensures k < |Earlier(w, id)| && Holds(md5, Earlier(w, id)[k], Newest(w.store.history, id)[k].verifier)
  {
    forall i | 0 <= i < |w.pastOwner| ensures Holds(md5, w.pastOwner[i], w.store.history[i].verifier) {
      assert PastHolds(md5, w, i);
    }
    NewestHold(md5, w.store.history, w.pastOwner, id);
  }

  lemma ComparedAt(w: World, id: string, i: nat)
    requires id in w.store.accounts && |w.store.history| == |w.pastOwner|
    requires 0 < i < |Compared(w.store, id)|
    ensures |Recent(w, id)| == |Compared(w.store, id)| && i - 1 < |Newest(w.store.history, id)|
    ensures Compared(w.store, id)[i] == Newest(w.store.history, id)[i - 1].verifier
    ensures Recent(w, id)[i] == Earlier(w, id)[i - 1]
  {
    assert Compared(w.store, id)[i] == PastRows(w.store, id)[i - 1].verifier;
  }

  /** In every good state the records a change would be compared with are those of the recent passwords. */
  lemma ComparedHold(md5: Md5, w: World, id: string)
    requires Inv(md5, w) && id in w.store.accounts
    ensures AllHold(md5, Recent(w, id), Compared(w.store, id))
  {
    var rows, recent := Compared(w.store, id), Recent(w, id);
    assert |rows| == |recent|;
    RecordsOfRun(md5, w, id);
    forall i | 0 <= i < |rows| ensures Holds(md5, recent[i], rows[i]) {
      if i > 0 {
        ComparedAt(w, id, i);
        PastOwnersHold(md5, w, id, i - 1);
      }
    }
  }

  // ----- which statement each event issues -----

  /** The statement behind an event, None where the tables are only read or the procedure ends without one. */
  ghost function StatementOf(md5: Md5, w: World, e: Event): Option<Statement> {
    match e
    case Register(id, name, password, random, _) =>
      Some(AddUser(id, name, Verifier(Chain(md5, password + random, 256), 255, random)))
    case Reply(sid, iterate, newIterate, _) =>
      if sid !in w.sessions then None else
        var p := w.sessions[sid];
        if Chain(md5, iterate, 1) != p.verifier.iteration then Some(LoginFailed(p.id, p.firstError))
        else if p.verifier.challenge > 1 then Some(UpdateValue(p.id, iterate, false, "", false))
        else Some(UpdateValue(p.id, newIterate, true, p.newRandom, false))
    case Change(sid, password, _) =>
      if !Changes(md5, w, e) then None else
        var p := w.changes[sid];
        Some(UpdateValue(p.id, Chain(md5, password + p.newRandom, 256), true, p.newRandom, true))
    case Request(id, requestType, _) => Some(SetFlag(id, requestType))
    case Process(id, requestType, mode, _) => Some(ProcessRequest(id, requestType, mode))
    case _ => None
  }

  lemma EventIssues(md5: Md5, policy: Policy, w: World, e: Event)
    ensures Next(md5, policy, w, e).store == match StatementOf(md5, w, e)
      case None => w.store
      case Some(s) => Issue(w.store, s, e.now)
  {
    if e.Reply? {
      assert e.iterate + "" == e.iterate;
    }
  }

  /** Which sessions wait: an offer opens one, an answer of any kind closes it, and nothing else touches them. */
  lemma EventSessions(md5: Md5, policy: Policy, w: World, e: Event, sid: nat)
    ensures var w' := Next(md5, policy, w, e);
      && (sid in w'.sessions <==>
           || (e.Open? && e.sid == sid && OfferLogin(w.store, policy, e.id, e.newRandom, e.now).Offered?)
           || (sid in w.sessions && !(e.Reply? && e.sid == sid)))
      && (sid in w'.changes <==>
           || (e.OpenChange? && e.sid == sid && e.id in w.store.accounts)
           || (sid in w.changes && !(e.Change? && e.sid == sid)))
      && (sid in w'.changes && e.OpenChange? && e.sid == sid && e.id in w.store.accounts ==>
           w'.changes[sid] == PendingChange(e.id, Compared(w.store, e.id), e.newRandom))
      && (sid in w'.sessions && e.Open? && e.sid == sid && sid !in w.sessions ==>
           w'.sessions[sid] == OfferLogin(w.store, policy, e.id, e.newRandom, e.now).pending)
  {
  }

  // ----- one step -----

  lemma StoredIs(md5: Md5, policy: Policy, w: World, e: Event)
    requires Stores(md5, w, e) && w.sessions[e.sid].id in w.store.accounts
    ensures var p, w' := w.sessions[e.sid], Next(md5, policy, w, e);
      && p.id in w'.store.accounts && w'.owner == w.owner
      && RecordOf(w', p.id)
        == if p.verifier.challenge > 1 then Advance(RecordOf(w, p.id), e.iterate) else Reseed(e.newIterate, p.newRandom)
  {
  }

  /** Whoever sends it, an accepted reply is the one computed from the password behind what was read, unless
      MD5 collides. */
  lemma AcceptedIsTyped(md5: Md5, w: World, e: Event, hashed: set<string>)
    requires Inv(md5, w) && Stores(md5, w, e) && CollisionFree(md5, hashed)
    requires e.iterate in hashed && ChainsIn(md5, w, e.sid, hashed)
    ensures e.iterate == HonestReply(md5, ReaderOf(w, e.sid), w.sessions[e.sid].verifier)
  {
    var typed, read := ReaderOf(w, e.sid), w.sessions[e.sid].verifier;
    SessionOfRun(md5, w, e.sid);
    assert LinkIn(md5, typed + read.random, read.challenge, hashed);
    AcceptedIsHonest(md5, typed, read, e.iterate, hashed);
  }

  /** Under one seed: the owner's record stays good if and only if the row still shows the iteration value the
      session has read. */
  lemma CommitKeepsRecordIff(md5: Md5, policy: Policy, w: World, e: Event, hashed: set<string>)
    requires Inv(md5, w) && Stores(md5, w, e) && w.sessions[e.sid].verifier.challenge > 1
    requires e.iterate == HonestReply(md5, ReaderOf(w, e.sid), w.sessions[e.sid].verifier)
    requires CollisionFree(md5, hashed) && ChainsIn(md5, w, e.sid, hashed)
    ensures var p := w.sessions[e.sid];
      RecordHolds(md5, Next(md5, policy, w, e), p.id) <==> RecordOf(w, p.id).iteration == p.verifier.iteration
  {
    var p := w.sessions[e.sid];
    SessionOfRun(md5, w, e.sid);
    RecordsOfRun(md5, w, p.id);
    StaleCommitIff(md5, OwnerOf(w, p.id), RecordOf(w, p.id), ReaderOf(w, e.sid), p.verifier, hashed);
    StoredIs(md5, policy, w, e);
  }

  /** Where a new seed starts the row may have changed in any way: the record stays the owner's if and only if
      the new value was made from the password the owner has now. */
  lemma ReseedKeepsRecordIff(md5: Md5, policy: Policy, w: World, e: Event, typed: string, hashed: set<string>)
    requires Inv(md5, w) && Stores(md5, w, e) && w.sessions[e.sid].verifier.challenge <= 1
    requires e.newIterate == FreshIteration(md5, typed, w.sessions[e.sid].newRandom)
    requires CollisionFree(md5, hashed)
    requires LinksIn(md5, typed + w.sessions[e.sid].newRandom, DEFAULT_CHALLENGE + 1, hashed)
    requires LinksIn(md5, OwnerOf(w, w.sessions[e.sid].id) + w.sessions[e.sid].newRandom, DEFAULT_CHALLENGE + 1, hashed)
    ensures var p := w.sessions[e.sid];
      RecordHolds(md5, Next(md5, policy, w, e), p.id) <==> typed == OwnerOf(w, p.id)
  {
    var p := w.sessions[e.sid];
    SessionOfRun(md5, w, e.sid);
    RecordsOfRun(md5, w, p.id);
    StaleReseedIff(md5, OwnerOf(w, p.id), typed, p.newRandom, hashed);
    StoredIs(md5, policy, w, e);
  }

  lemma ChangeKeepsRecord(md5: Md5, policy: Policy, w: World, e: Event, id: string)
    requires e.Change? && Inv(md5, w) && WellFormed(e)
    ensures RecordHolds(md5, Next(md5, policy, w, e), id)
  {
    assert RecordHolds(md5, w, id);
    if Changes(md5, w, e) {
      ChangeOfRun(md5, w, e.sid);
      ReseedHolds(md5, e.password, w.changes[e.sid].newRandom);
    }
  }

  /** Every record that the step does not store a reply in stays good. */
  lemma StepKeepsRecord(md5: Md5, policy: Policy, w: World, e: Event, id: string)
    requires ResetConstant(md5) && Inv(md5, w) && WellFormed(e) && !(Stores(md5, w, e) && w.sessions[e.sid].id == id)
    ensures RecordHolds(md5, Next(md5, policy, w, e), id)
  {
    if e.Change? {
      ChangeKeepsRecord(md5, policy, w, e, id);
    } else {
      assert RecordHolds(md5, w, id);
      ResetHolds(md5);
    }
  }

  lemma AccountsStay(md5: Md5, policy: Policy, w: World, e: Event, id: string)
    requires id in w.store.accounts
    ensures id in Next(md5, policy, w, e).store.accounts
  {
  }

  lemma StepKeepsPast(md5: Md5, policy: Policy, w: World, e: Event)
    requires Inv(md5, w)
    ensures var w' := Next(md5, policy, w, e);
      && |w'.store.history| == |w'.pastOwner|
      && forall i :: 0 <= i < |w'.pastOwner| ==> PastHolds(md5, w', i)
  {
    var w' := Next(md5, policy, w, e);
    if Changes(md5, w, e) || Resets(w, e) {
      assert RecordHolds(md5, w, Subject(w, e));
    }
    forall i | 0 <= i < |w'.pastOwner| ensures PastHolds(md5, w', i) {
      if i < |w.pastOwner| {
        assert PastHolds(md5, w, i);
      }
    }
  }

  lemma StepKeepsSession(md5: Md5, policy: Policy, w: World, e: Event, sid: nat)
    requires Inv(md5, w) && WellFormed(e)
    ensures SessionHolds(md5, Next(md5, policy, w, e), sid)
  {
    if e.Open? && e.sid == sid && OfferLogin(w.store, policy, e.id, e.newRandom, e.now).Offered? {
      RecordsOfRun(md5, w, e.id);
    } else if sid in w.sessions {
      SessionOfRun(md5, w, sid);
      AccountsStay(md5, policy, w, e, w.sessions[sid].id);
    }
  }

  lemma StepKeepsChange(md5: Md5, policy: Policy, w: World, e: Event, sid: nat)
    requires Inv(md5, w) && WellFormed(e)
    ensures ChangeHolds(md5, Next(md5, policy, w, e), sid)
  {
    if e.OpenChange? && e.sid == sid && e.id in w.store.accounts {
      ComparedHold(md5, w, e.id);
    } else if sid in w.changes {
      ChangeOfRun(md5, w, sid);
      AccountsStay(md5, policy, w, e, w.changes[sid].id);
    }
  }

  /** Of everything the invariant says, a step can only spoil the record it stores a reply in. */
  lemma StepKeepsOthers(md5: Md5, policy: Policy, w: World, e: Event)
    requires ResetConstant(md5) && Inv(md5, w) && WellFormed(e)
    requires Stores(md5, w, e) ==> RecordHolds(md5, Next(md5, policy, w, e), w.sessions[e.sid].id)
    ensures Inv(md5, Next(md5, policy, w, e))
  {
    var w' := Next(md5, policy, w, e);
    forall id ensures RecordHolds(md5, w', id) {
      if !(Stores(md5, w, e) && w.sessions[e.sid].id == id) {
        StepKeepsRecord(md5, policy, w, e, id);
      }
    }
    StepKeepsPast(md5, policy, w, e);
    forall sid ensures SessionHolds(md5, w', sid) {
      StepKeepsSession(md5, policy, w, e, sid);
    }
    forall sid ensures ChangeHolds(md5, w', sid) {
      StepKeepsChange(md5, policy, w, e, sid);
    }
  }

  /** A step of honest clients keeps the invariant if and only if it is in time. */
  lemma StepKeepsInvIff(md5: Md5, policy: Policy, w: World, e: Event, hashed: set<string>)
    requires ResetConstant(md5) && Inv(md5, w) && Honest(md5, w, e) && CollisionFree(md5, hashed)
    requires Stores(md5, w, e) ==> ChainsIn(md5, w, e.sid, hashed) && NewChainsIn(md5, w, e.sid, hashed)
    ensures Inv(md5, Next(md5, policy, w, e)) <==> InTime(md5, w, e)
  {
    var w' := Next(md5, policy, w, e);
    if Stores(md5, w, e) {
      var id := w.sessions[e.sid].id;
      if w.sessions[e.sid].verifier.challenge > 1 {
        CommitKeepsRecordIff(md5, policy, w, e, hashed);
      } else {
        ReseedKeepsRecordIff(md5, policy, w, e, ReaderOf(w, e.sid), hashed);
      }
      if Inv(md5, w') {
        assert RecordHolds(md5, w', id);
      }
    }
    if InTime(md5, w, e) {
      StepKeepsOthers(md5, policy, w, e);
    }
  }

  // ----- whole runs -----

  /** The central result. Honest clients, any number of users and sessions, any interleaving: all records, past
      rows and waiting sessions stay good throughout a run if and only if every accepted reply is stored in time. */
  lemma {:induction false} RunKeepsInvIff(md5: Md5, policy: Policy, w: World, es: seq<Event>, hashed: set<string>)
    requires ResetConstant(md5) && Inv(md5, w) && HonestRun(md5, policy, w, es)
    requires CollisionFree(md5, hashed) && ChainsMet(md5, policy, w, es, hashed)
    ensures InvThroughout(md5, policy, w, es) <==> InTimeRun(md5, policy, w, es)
    decreases |es|
  {
    if es != [] {
      var w' := Next(md5, policy, w, es[0]);
      StepKeepsInvIff(md5, policy, w, es[0], hashed);
      if Inv(md5, w') {
        RunKeepsInvIff(md5, policy, w', es[1..], hashed);
      } else {
        assert !InvThroughout(md5, policy, w', es[1..]);
      }
    }
  }

  lemma {:induction false} InvAtEnd(md5: Md5, policy: Policy, w: World, es: seq<Event>)
    requires InvThroughout(md5, policy, w, es)
    ensures Inv(md5, Run(md5, policy, w, es))
    decreases |es|
  {
    if es != [] {
      InvAtEnd(md5, policy, Next(md5, policy, w, es[0]), es[1..]);
    }
  }

  /** So at the end of every such run from the empty database each record belongs to its owner's password, and
      the owner can log in. */
  lemma OwnerCanAlwaysLogIn(md5: Md5, policy: Policy, es: seq<Event>, id: string, hashed: set<string>)
    requires ResetConstant(md5) && HonestRun(md5, policy, EMPTY, es) && InTimeRun(md5, policy, EMPTY, es)
    requires CollisionFree(md5, hashed) && ChainsMet(md5, policy, EMPTY, es, hashed)
    requires id in Run(md5, policy, EMPTY, es).store.accounts
    ensures var w := Run(md5, policy, EMPTY, es);
      && id in w.owner
      && var v := w.store.accounts[id].verifier;
      && Holds(md5, w.owner[id], v)
      && Accepts(md5, v, HonestReply(md5, w.owner[id], v))
      && |HonestReply(md5, w.owner[id], v)| == HEX_LENGTH
  {
    var w := Run(md5, policy, EMPTY, es);
    RunKeepsInvIff(md5, policy, EMPTY, es, hashed);
    InvAtEnd(md5, policy, EMPTY, es);
    assert RecordHolds(md5, w, id);
    HonestReplyAccepted(md5, w.owner[id], w.store.accounts[id].verifier);
    ReplyIsHashed(md5, w.owner[id], w.store.accounts[id].verifier);
  }

  /** The password a session was opened under is still the user's as long as no step replaces it, so a reply
      that starts a new seed is then in time whatever else has happened to the row. */
  lemma {:induction false} ReaderStays(md5: Md5, policy: Policy, w: World, es: seq<Event>, sid: nat, id: string)
    requires id in w.store.accounts && ReaderOf(w, sid) == OwnerOf(w, id) && NoneReplaces(md5, policy, w, es, sid, id)
    ensures var w' := Run(md5, policy, w, es);
      id in w'.store.accounts && ReaderOf(w', sid) == OwnerOf(w', id) == OwnerOf(w, id)
    decreases |es|
  {
    if es != [] {
      AccountsStay(md5, policy, w, es[0], id);
      ReaderStays(md5, policy, Next(md5, policy, w, es[0]), es[1..], sid, id);
    }
  }

  /** No step replaces the user's password, and none opens this session anew. */
  ghost predicate NoneReplaces(md5: Md5, policy: Policy, w: World, es: seq<Event>, sid: nat, id: string)
    decreases |es|
  {
    es == [] || (!Replaces(md5, w, es[0], id) && !(es[0].Open? && es[0].sid == sid)
                 && NoneReplaces(md5, policy, Next(md5, policy, w, es[0]), es[1..], sid, id))
  }

  // ----- one seed, counted down -----

  /** The step replaces the seed of this user. */
  ghost predicate Reseeds(md5: Md5, w: World, e: Event, id: string) {
    Replaces(md5, w, e, id) || (Succeeds(md5, w, e, id) && w.sessions[e.sid].verifier.challenge <= 1)
  }

  ghost predicate NoReseed(md5: Md5, policy: Policy, w: World, es: seq<Event>, id: string)
    decreases |es|
  {
    es == [] || (!Reseeds(md5, w, es[0], id) && NoReseed(md5, policy, Next(md5, policy, w, es[0]), es[1..], id))
  }

  /** The reply of this user that the step accepts, if it does. */
  ghost function Accepted(md5: Md5, w: World, e: Event, id: string): seq<string> {
    if Succeeds(md5, w, e, id) then [e.iterate] else []
  }

  ghost function AcceptedReplies(md5: Md5, policy: Policy, w: World, es: seq<Event>, id: string): seq<string>
    decreases |es|
  {
    if es == [] then []
    else Accepted(md5, w, es[0], id) + AcceptedReplies(md5, policy, Next(md5, policy, w, es[0]), es[1..], id)
  }

  /** Runs compose. */
  lemma {:induction false} RunThen(md5: Md5, policy: Policy, w: World, es: seq<Event>, more: seq<Event>)
    ensures Run(md5, policy, w, es + more) == Run(md5, policy, Run(md5, policy, w, es), more)
    decreases |es|
  {
    if es == [] {
      assert es + more == more;
    } else {
      assert (es + more)[0] == es[0] && (es + more)[1..] == es[1..] + more;
      RunThen(md5, policy, Next(md5, policy, w, es[0]), es[1..], more);
    }
  }

  lemma {:induction false} RepliesThen(md5: Md5, policy: Policy, w: World, es: seq<Event>, more: seq<Event>, id: string)
    ensures AcceptedReplies(md5, policy, w, es + more, id)
      == AcceptedReplies(md5, policy, w, es, id) + AcceptedReplies(md5, policy, Run(md5, policy, w, es), more, id)
    decreases |es|
  {
    if es == [] {
      assert es + more == more;
    } else {
      assert (es + more)[0] == es[0] && (es + more)[1..] == es[1..] + more;
      var w' := Next(md5, policy, w, es[0]);
      RepliesThen(md5, policy, w', es[1..], more, id);
      Associative(Accepted(md5, w, es[0], id), AcceptedReplies(md5, policy, w', es[1..], id),
                  AcceptedReplies(md5, policy, Run(md5, policy, w, es), more, id));
    }
  }

  lemma Associative(a: seq<string>, b: seq<string>, c: seq<string>)
    ensures a + (b + c) == (a + b) + c
  {
  }

  lemma {:induction false} NoReseedThen(md5: Md5, policy: Policy, w: World, es: seq<Event>, more: seq<Event>,
                                        id: string)
    requires NoReseed(md5, policy, w, es, id) && NoReseed(md5, policy, Run(md5, policy, w, es), more, id)
    ensures NoReseed(md5, policy, w, es + more, id)
    decreases |es|
  {
    if es == [] {
      assert es + more == more;
    } else {
      assert (es + more)[0] == es[0] && (es + more)[1..] == es[1..] + more;
      NoReseedThen(md5, policy, Next(md5, policy, w, es[0]), es[1..], more, id);
    }
  }

  lemma TwoSteps(md5: Md5, policy: Policy, w: World, e0: Event, e1: Event, id: string)
    ensures var w1 := Next(md5, policy, w, e0);
      && Run(md5, policy, w, [e0, e1]) == Next(md5, policy, w1, e1)
      && AcceptedReplies(md5, policy, w, [e0, e1], id) == Accepted(md5, w, e0, id) + Accepted(md5, w1, e1, id)
      && (NoReseed(md5, policy, w, [e0, e1], id) <==> !Reseeds(md5, w, e0, id) && !Reseeds(md5, w1, e1, id))
  {
    var w1 := Next(md5, policy, w, e0);
    var w2 := Next(md5, policy, w1, e1);
    assert [e0, e1][1..] == [e1] && [e1][1..] == [];
    assert Run(md5, policy, w2, []) == w2;
    assert AcceptedReplies(md5, policy, w2, [], id) == [] && NoReseed(md5, policy, w2, [], id);
    assert Run(md5, policy, w1, [e1]) == w2;
    assert AcceptedReplies(md5, policy, w1, [e1], id) == Accepted(md5, w1, e1, id);
    assert NoReseed(md5, policy, w1, [e1], id) <==> !Reseeds(md5, w1, e1, id);
  }

  /** What a step does to one record while its seed lasts, in any state and whatever is sent: nothing, or the
      accepted reply is stored and the count goes down. */
  lemma StepUnderSeed(md5: Md5, policy: Policy, w: World, e: Event, id: string)
    requires id in w.store.accounts && !Reseeds(md5, w, e, id)
    ensures var w' := Next(md5, policy, w, e);
      && id in w'.store.accounts
      && OwnerOf(w', id) == OwnerOf(w, id)
      && RecordOf(w', id) == if Succeeds(md5, w, e, id) then Advance(RecordOf(w, id), e.iterate) else RecordOf(w, id)
  {
  }

  /** The string under all links of the user's present chain. */
  ghost function SeedString(w: World, id: string): string {
    OwnerOf(w, id) + RecordOf(w, id).random
  }

  /** The strings are links c, c - 1 and so on, down to link 1 at most. */
  ghost predicate CountsDown(md5: Md5, s: string, c: int, replies: seq<string>)
    decreases |replies|
  {
    0 <= c && (replies == [] || (c > 0 && replies[0] == Chain(md5, s, c) && CountsDown(md5, s, c - 1, replies[1..])))
  }

  /** So there are at most c. */
  lemma {:induction false} CountedLength(md5: Md5, s: string, c: int, replies: seq<string>)
    requires CountsDown(md5, s, c, replies)
    ensures |replies| <= c
    decreases |replies|
  {
    if replies != [] {
      CountedLength(md5, s, c - 1, replies[1..]);
    }
  }

  lemma {:induction false} CountedTail(md5: Md5, s: string, c: int, replies: seq<string>, k: int)
    requires CountsDown(md5, s, c, replies) && 0 <= k <= |replies|
    ensures CountsDown(md5, s, c - k, replies[k..])
    decreases k
  {
    if k == 0 {
      assert replies[0..] == replies;
    } else {
      CountedTail(md5, s, c, replies, k - 1);
      assert replies[k - 1..][1..] == replies[k..];
    }
  }

  /** And the k-th is the link k steps below link c. */
  lemma CountedAt(md5: Md5, s: string, c: int, replies: seq<string>, k: int)
    requires CountsDown(md5, s, c, replies) && 0 <= k < |replies|
    ensures replies[k] == Chain(md5, s, c - k)
  {
    CountedTail(md5, s, c, replies, k);
    assert replies[k..][0] == replies[k];
  }

  lemma CountsOn(md5: Md5, s: string, c: int, first: seq<string>, rest: seq<string>)
    requires c >= 1 && (first == [] || first == [Chain(md5, s, c)])
    requires CountsDown(md5, s, c - |first|, rest)
    ensures CountsDown(md5, s, c, first + rest)
  {
    if first == [] {
      assert first + rest == rest;
    } else {
      assert (first + rest)[0] == first[0] && (first + rest)[1..] == rest;
    }
  }

  lemma SeedLasts(md5: Md5, policy: Policy, w: World, e: Event, id: string)
    requires id in w.store.accounts && !Reseeds(md5, w, e, id)
    ensures var w' := Next(md5, policy, w, e);
      && id in w'.store.accounts
      && SeedString(w', id) == SeedString(w, id)
      && RecordOf(w', id).challenge == RecordOf(w, id).challenge - |Accepted(md5, w, e, id)|
  {
    StepUnderSeed(md5, policy, w, e, id);
  }

  /** In every run at all, overlapping or not: the count left under a seed is the count at the start less
      the logins accepted. */
  lemma {:induction false} LoginsAreCounted(md5: Md5, policy: Policy, w: World, es: seq<Event>, id: string)
    requires id in w.store.accounts && NoReseed(md5, policy, w, es, id)
    ensures id in Run(md5, policy, w, es).store.accounts
    ensures SeedString(Run(md5, policy, w, es), id) == SeedString(w, id)
    ensures RecordOf(Run(md5, policy, w, es), id).challenge
      == RecordOf(w, id).challenge - |AcceptedReplies(md5, policy, w, es, id)|
    decreases |es|
  {
    if es != [] {
      SeedLasts(md5, policy, w, es[0], id);
      LoginsAreCounted(md5, policy, Next(md5, policy, w, es[0]), es[1..], id);
    }
  }
}

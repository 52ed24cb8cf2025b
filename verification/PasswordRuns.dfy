/** The promise behind the comparison, over whole runs: when the current password of a user and the four
    before it are all different, and exactly which steps end that. */
module PasswordRuns {
  import opened HashChain
  import opened AccountStore
  import opened SKeyServer
  import opened PasswordHistory
  import opened SKeyWorld
  import opened SKeyRuns

  predicate Distinct(ps: seq<string>) {
    forall i, j :: 0 <= i < j < |ps| ==> ps[i] != ps[j]
  }

  // ----- when a change goes through -----

  /** MD5 does not collide on the chains of these passwords and of the new one over the seeds of the rows. */
  ghost predicate ComparisonIsExact(md5: Md5, newPassword: string, passwords: seq<string>, rows: seq<Verifier>,
                                    hashed: set<string>) {
    && CollisionFree(md5, hashed) && |passwords| == |rows|
    && forall i :: 0 <= i < |rows| ==>
         LinksIn(md5, newPassword + rows[i].random, rows[i].challenge + 1, hashed) &&
         LinksIn(md5, passwords[i] + rows[i].random, rows[i].challenge + 1, hashed)
  }

  lemma ReproducesIff(md5: Md5, newPassword: string, passwords: seq<string>, rows: seq<Verifier>, hashed: set<string>)
    requires AllHold(md5, passwords, rows) && ComparisonIsExact(md5, newPassword, passwords, rows, hashed)
    ensures Reproduces(md5, newPassword, rows) <==> newPassword in passwords
  {
    if newPassword in passwords {
      ReuseIsNoticed(md5, newPassword, passwords, rows);
    }
    if Reproduces(md5, newPassword, rows) {
      OnlyReuseIsRefused(md5, newPassword, passwords, rows, hashed);
    }
  }

  /** Whatever happened since it was opened, a change goes through exactly when the new password is none of
      the five that were the user's last ones at that time. */
  lemma ChangeIff(md5: Md5, w: World, e: Event, hashed: set<string>)
    requires Inv(md5, w) && e.Change? && e.sid in w.changes && e.sid in w.compared
    requires ComparisonIsExact(md5, e.password, w.compared[e.sid], w.changes[e.sid].rows, hashed)
    ensures Changes(md5, w, e) <==> e.password !in w.compared[e.sid]
  {
    ChangeOfRun(md5, w, e.sid);
    ReproducesIff(md5, e.password, w.compared[e.sid], w.changes[e.sid].rows, hashed);
  }

  // ----- how the list of recent passwords moves, in any run at all -----

  lemma StepKeepsBooks(md5: Md5, policy: Policy, w: World, e: Event)
    requires Books(w)
    ensures Books(Next(md5, policy, w, e))
  {
  }

  lemma {:induction false} RunKeepsBooks(md5: Md5, policy: Policy, w: World, es: seq<Event>)
    requires Books(w)
    ensures Books(Run(md5, policy, w, es))
    decreases |es|
  {
    if es != [] {
      StepKeepsBooks(md5, policy, w, es[0]);
      RunKeepsBooks(md5, policy, Next(md5, policy, w, es[0]), es[1..]);
    }
  }

  lemma InvIsBooks(md5: Md5, w: World)
    requires Inv(md5, w)
    ensures Books(w)
  {
    forall id | id in w.store.accounts ensures id in w.owner {
      assert RecordHolds(md5, w, id);
    }
    forall i | 0 <= i < |w.store.history| ensures w.store.history[i].uid in w.store.accounts {
      assert PastHolds(md5, w, i);
    }
  }

  lemma {:induction false} NoRowsOf(history: seq<HistoryRow>, owners: seq<string>, id: string)
    requires |history| == |owners| && forall i :: 0 <= i < |history| ==> history[i].uid != id
    ensures NewestOwners(history, owners, id) == []
  {
    if history != [] {
      NoRowsOf(history[..|history| - 1], owners[..|history| - 1], id);
    }
  }

  lemma Appended(history: seq<HistoryRow>, owners: seq<string>, row: HistoryRow, owner: string, id: string)
    requires |history| == |owners|
    ensures NewestOwners(history + [row], owners + [owner], id)
      == (if row.uid == id then [owner] else []) + NewestOwners(history, owners, id)
  {
    assert (history + [row])[..|history|] == history && (owners + [owner])[..|history|] == owners;
  }

  /** Archiving the current row adds its password in front for that user and nothing for others. */
  lemma EarlierAfter(md5: Md5, policy: Policy, w: World, e: Event, id: string)
    requires Books(w)
    ensures Earlier(Next(md5, policy, w, e), id)
      == if Replaces(md5, w, e, id) then [OwnerOf(w, id)] + Earlier(w, id) else Earlier(w, id)
  {
    var w' := Next(md5, policy, w, e);
    if Changes(md5, w, e) || Resets(w, e) {
      var subject := Subject(w, e);
      var row := HistoryRow(subject, RecordOf(w, subject));
      assert w'.store.history == w.store.history + [row] && w'.pastOwner == w.pastOwner + [OwnerOf(w, subject)];
      Appended(w.store.history, w.pastOwner, row, OwnerOf(w, subject), id);
      assert [] + Earlier(w, id) == Earlier(w, id);
    } else {
      assert w'.store.history == w.store.history && w'.pastOwner == w.pastOwner;
    }
  }

  lemma OwnerAfter(md5: Md5, policy: Policy, w: World, e: Event, id: string)
    ensures OwnerOf(Next(md5, policy, w, e), id) ==
      if Replaces(md5, w, e, id) then NewPassword(e)
      else if Enrols(w, e) && Subject(w, e) == id then e.password
      else OwnerOf(w, id)
    ensures id in Next(md5, policy, w, e).store.accounts ==>
      id in w.store.accounts || (Enrols(w, e) && Subject(w, e) == id)
  {
  }

  lemma NewUserHasNoPast(w: World, id: string)
    requires Books(w) && id !in w.store.accounts
    ensures Earlier(w, id) == []
  {
    NoRowsOf(w.store.history, w.pastOwner, id);
  }

  /** Only replacing this user's password moves the list of recent ones. */
  lemma RecentStays(md5: Md5, policy: Policy, w: World, e: Event, id: string)
    requires Books(w) && id in w.store.accounts && !Replaces(md5, w, e, id)
    ensures Recent(Next(md5, policy, w, e), id) == Recent(w, id)
  {
    EarlierAfter(md5, policy, w, e, id);
    OwnerAfter(md5, policy, w, e, id);
  }

  lemma Replaced(md5: Md5, policy: Policy, w: World, e: Event, id: string)
    requires Books(w) && id in w.store.accounts && Replaces(md5, w, e, id)
    ensures var w' := Next(md5, policy, w, e);
      && id in w'.store.accounts && OwnerOf(w', id) == NewPassword(e)
      && Earlier(w', id) == [OwnerOf(w, id)] + Earlier(w, id)
  {
    OwnerAfter(md5, policy, w, e, id);
    EarlierAfter(md5, policy, w, e, id);
    AccountsStay(md5, policy, w, e, id);
  }

  // ----- exactly when the last five stay different -----

  predicate RecentDistinct(w: World, id: string) {
    id in w.store.accounts ==> Distinct(Recent(w, id))
  }

  /** The current password and the three before it, the ones still compared after the next replacement. */
  function Kept(w: World, id: string): seq<string> {
    FirstFour(Recent(w, id))
  }

  lemma PushDistinctIff(added: string, older: seq<string>, current: string)
    requires Distinct([current] + FirstFour(older))
    ensures Distinct([added] + FirstFour([current] + older)) <==> added !in FirstFour([current] + FirstFour(older))
  {
    var before, kept := [current] + FirstFour(older), FirstFour([current] + older);
    var after := [added] + kept;
    assert kept == FirstFour(before);
    assert forall k :: 0 <= k < |kept| ==> kept[k] == before[k];
    assert forall k :: 1 <= k < |after| ==> after[k] == kept[k - 1];
    if added in kept {
      var k :| 0 <= k < |kept| && kept[k] == added;
      assert after[0] == after[k + 1];
    }
  }

  /** Every step at all, changes against rows of any age and resets included: the last five stay different
      exactly when the step does not put back one of the last four. */
  lemma StepKeepsDistinctIff(md5: Md5, policy: Policy, w: World, e: Event, id: string)
    requires Books(w) && RecentDistinct(w, id)
    ensures RecentDistinct(Next(md5, policy, w, e), id)
      <==> !(Replaces(md5, w, e, id) && NewPassword(e) in Kept(w, id))
  {
    OwnerAfter(md5, policy, w, e, id);
    if id !in w.store.accounts {
      EarlierAfter(md5, policy, w, e, id);
      NewUserHasNoPast(w, id);
    } else if Replaces(md5, w, e, id) {
      Replaced(md5, policy, w, e, id);
      PushDistinctIff(NewPassword(e), Earlier(w, id), OwnerOf(w, id));
    } else {
      RecentStays(md5, policy, w, e, id);
    }
  }

  function KeptRows(w: World, id: string): seq<Verifier>
    requires id in w.store.accounts
  {
    FirstFour(Compared(w.store, id))
  }

  lemma KeptHold(md5: Md5, w: World, id: string)
    requires Inv(md5, w) && id in w.store.accounts
    ensures AllHold(md5, Kept(w, id), KeptRows(w, id))
  {
    ComparedHold(md5, w, id);
  }

  /** What the server could test before it stores a change, or an administrator before a reset: the new password
      gives the stored value of the present row or of one of the three newest past rows. */
  ghost predicate Reproduced(md5: Md5, w: World, e: Event, id: string) {
    Replaces(md5, w, e, id) && id in w.store.accounts && Reproduces(md5, NewPassword(e), KeptRows(w, id))
  }

  /** MD5 does not collide on the strings hashed for that test. */
  ghost predicate TestIsExact(md5: Md5, w: World, e: Event, id: string, hashed: set<string>) {
    Replaces(md5, w, e, id) && id in w.store.accounts ==>
      ComparisonIsExact(md5, NewPassword(e), Kept(w, id), KeptRows(w, id), hashed)
  }

  lemma ReproducedIff(md5: Md5, w: World, e: Event, id: string, hashed: set<string>)
    requires Inv(md5, w) && Replaces(md5, w, e, id) && TestIsExact(md5, w, e, id, hashed)
    ensures Reproduced(md5, w, e, id) <==> NewPassword(e) in Kept(w, id)
  {
    KeptHold(md5, w, id);
    ReproducesIff(md5, NewPassword(e), Kept(w, id), KeptRows(w, id), hashed);
  }

  /** For one replacement that test finds exactly the repetitions. */
  lemma ReplacementKeepsDistinctIff(md5: Md5, policy: Policy, w: World, e: Event, id: string, hashed: set<string>)
    requires Inv(md5, w) && RecentDistinct(w, id) && Replaces(md5, w, e, id) && TestIsExact(md5, w, e, id, hashed)
    ensures RecentDistinct(Next(md5, policy, w, e), id) <==> !Reproduced(md5, w, e, id)
  {
    InvIsBooks(md5, w);
    StepKeepsDistinctIff(md5, policy, w, e, id);
    ReproducedIff(md5, w, e, id, hashed);
  }

  // ----- whole runs -----

  ghost predicate NothingReproduced(md5: Md5, policy: Policy, w: World, es: seq<Event>, id: string)
    decreases |es|
  {
    es == [] || (!Reproduced(md5, w, es[0], id)
                 && NothingReproduced(md5, policy, Next(md5, policy, w, es[0]), es[1..], id))
  }

  ghost predicate TestsAreExact(md5: Md5, policy: Policy, w: World, es: seq<Event>, id: string, hashed: set<string>)
    decreases |es|
  {
    es == [] || (TestIsExact(md5, w, es[0], id, hashed)
                 && TestsAreExact(md5, policy, Next(md5, policy, w, es[0]), es[1..], id, hashed))
  }

  ghost predicate DistinctThroughout(md5: Md5, policy: Policy, w: World, es: seq<Event>, id: string)
    decreases |es|
  {
    RecentDistinct(w, id) && (es == [] || DistinctThroughout(md5, policy, Next(md5, policy, w, es[0]), es[1..], id))
  }

  /** Honest clients whose replies are all stored in time. */
  ghost predicate GoodRun(md5: Md5, policy: Policy, w: World, es: seq<Event>, hashed: set<string>) {
    && ResetConstant(md5) && CollisionFree(md5, hashed) && ChainsMet(md5, policy, w, es, hashed)
    && HonestRun(md5, policy, w, es) && InTimeRun(md5, policy, w, es)
  }

  lemma GoodStep(md5: Md5, policy: Policy, w: World, es: seq<Event>, hashed: set<string>)
    requires es != [] && Inv(md5, w) && GoodRun(md5, policy, w, es, hashed)
    ensures Inv(md5, Next(md5, policy, w, es[0])) && GoodRun(md5, policy, Next(md5, policy, w, es[0]), es[1..], hashed)
  {
    StepKeepsInvIff(md5, policy, w, es[0], hashed);
  }

  /** The last five passwords of a user are different throughout a run if and only if no new password, chosen or
      reset, reproduces one of the four rows the server could compare it with when it is stored. */
  lemma {:induction false} RunKeepsDistinctIff(md5: Md5, policy: Policy, w: World, es: seq<Event>, id: string,
                                               hashed: set<string>)
    requires Inv(md5, w) && GoodRun(md5, policy, w, es, hashed) && TestsAreExact(md5, policy, w, es, id, hashed)
    requires RecentDistinct(w, id)
    ensures DistinctThroughout(md5, policy, w, es, id) <==> NothingReproduced(md5, policy, w, es, id)
    decreases |es|
  {
    if es != [] {
      var w' := Next(md5, policy, w, es[0]);
      if Replaces(md5, w, es[0], id) {
        ReplacementKeepsDistinctIff(md5, policy, w, es[0], id, hashed);
      } else {
        InvIsBooks(md5, w);
        StepKeepsDistinctIff(md5, policy, w, es[0], id);
      }
      if RecentDistinct(w', id) {
        GoodStep(md5, policy, w, es, hashed);
        RunKeepsDistinctIff(md5, policy, w', es[1..], id, hashed);
      } else {
        assert !DistinctThroughout(md5, policy, w', es[1..], id);
      }
    }
  }

  /** No other change or reset of the user has come between the offer of a change and its answer. */
  ghost predicate UpToDate(w: World, sid: nat, id: string) {
    sid in w.changes && sid in w.compared && w.changes[sid].id == id && w.compared[sid] == Recent(w, id)
  }

  /** A change of the user is stored against up-to-date rows, and a reset only after the test above. */
  ghost predicate Steady(md5: Md5, w: World, e: Event, id: string) {
    Replaces(md5, w, e, id) ==> if e.Change? then UpToDate(w, e.sid, id) else !Reproduced(md5, w, e, id)
  }

  ghost predicate SteadyRun(md5: Md5, policy: Policy, w: World, es: seq<Event>, id: string)
    decreases |es|
  {
    es == [] || (Steady(md5, w, es[0], id) && SteadyRun(md5, policy, Next(md5, policy, w, es[0]), es[1..], id))
  }

  /** Neither puts back a kept password: nothing is assumed about MD5. */
  lemma SteadyIsNew(md5: Md5, w: World, e: Event, id: string)
    requires Inv(md5, w) && Replaces(md5, w, e, id) && Steady(md5, w, e, id)
    ensures NewPassword(e) !in Kept(w, id)
  {
    if e.Change? {
      ChangeOfRun(md5, w, e.sid);
      if e.password in Recent(w, id) {
        ReuseIsNoticed(md5, e.password, Recent(w, id), w.changes[e.sid].rows);
      }
    } else if NewPassword(e) in Kept(w, id) {
      KeptHold(md5, w, id);
      ReuseIsNoticed(md5, NewPassword(e), Kept(w, id), KeptRows(w, id));
    }
  }

  lemma {:induction false} SteadyKeepsDistinct(md5: Md5, policy: Policy, w: World, es: seq<Event>, id: string,
                                               hashed: set<string>)
    requires Inv(md5, w) && GoodRun(md5, policy, w, es, hashed)
    requires SteadyRun(md5, policy, w, es, id) && RecentDistinct(w, id)
    ensures DistinctThroughout(md5, policy, w, es, id)
    decreases |es|
  {
    if es != [] {
      InvIsBooks(md5, w);
      if Replaces(md5, w, es[0], id) {
        SteadyIsNew(md5, w, es[0], id);
      }
      StepKeepsDistinctIff(md5, policy, w, es[0], id);
      GoodStep(md5, policy, w, es, hashed);
      SteadyKeepsDistinct(md5, policy, Next(md5, policy, w, es[0]), es[1..], id, hashed);
    }
  }

  /** So in every such run from the empty database, with logins and refused changes interleaved in any way,
      the last five passwords of every user are different at all times. */
  lemma RunKeepsDistinct(md5: Md5, policy: Policy, es: seq<Event>, id: string, hashed: set<string>)
    requires GoodRun(md5, policy, EMPTY, es, hashed) && SteadyRun(md5, policy, EMPTY, es, id)
    ensures DistinctThroughout(md5, policy, EMPTY, es, id)
  {
    SteadyKeepsDistinct(md5, policy, EMPTY, es, id, hashed);
  }

  /** The session is not used for another change, and the user's password is not replaced. */
  ghost predicate Undisturbed(md5: Md5, policy: Policy, w: World, es: seq<Event>, sid: nat, id: string)
    decreases |es|
  {
    es == [] || (!Replaces(md5, w, es[0], id) && !((es[0].Change? || es[0].OpenChange?) && es[0].sid == sid)
                 && Undisturbed(md5, policy, Next(md5, policy, w, es[0]), es[1..], sid, id))
  }

  /** Rows stay up to date through everything else, in any run: logins of the same user, other users, requests. */
  lemma {:induction false} StaysUpToDate(md5: Md5, policy: Policy, w: World, es: seq<Event>, sid: nat, id: string)
    requires Books(w) && id in w.store.accounts
    requires UpToDate(w, sid, id) && Undisturbed(md5, policy, w, es, sid, id)
    ensures UpToDate(Run(md5, policy, w, es), sid, id)
    decreases |es|
  {
    if es != [] {
      RecentStays(md5, policy, w, es[0], id);
      StepKeepsBooks(md5, policy, w, es[0]);
      AccountsStay(md5, policy, w, es[0], id);
      StaysUpToDate(md5, policy, Next(md5, policy, w, es[0]), es[1..], sid, id);
    }
  }

  lemma OpensUpToDate(md5: Md5, policy: Policy, w: World, sid: nat, id: string, newRandom: string)
    requires Books(w) && id in w.store.accounts
    ensures UpToDate(Next(md5, policy, w, OpenChange(sid, id, newRandom)), sid, id)
  {
    RecentStays(md5, policy, w, OpenChange(sid, id, newRandom), id);
  }

  // ----- runs that do put a password back -----

  lemma BothChangesOpen(md5: Md5, policy: Policy, w: World, id: string, r0: string, r1: string)
    requires id in w.store.accounts
    ensures var w2 := Next(md5, policy, Next(md5, policy, w, OpenChange(0, id, r0)), OpenChange(1, id, r1));
      && w2.store == w.store && w2.owner == w.owner && w2.pastOwner == w.pastOwner && 0 in w2.changes && 1 in w2.changes
      && w2.changes[0].id == w2.changes[1].id == id
      && w2.changes[0].rows == w2.changes[1].rows == Compared(w.store, id)
  {
  }

  lemma OtherChangeWaits(md5: Md5, policy: Policy, w: World, e: Event, sid: nat)
    requires e.Change? && e.sid != sid && sid in w.changes
    ensures sid in Next(md5, policy, w, e).changes && Next(md5, policy, w, e).changes[sid] == w.changes[sid]
  {
  }

  /** Two changes to one and the same new password, opened on the same rows: both are stored. */
  lemma TwoChangesRepeat(md5: Md5, policy: Policy, w: World, id: string, password: string, r0: string, r1: string,
                         now: int)
    requires Books(w) && id in w.store.accounts && !Reproduces(md5, password, Compared(w.store, id))
    ensures var w2 := Next(md5, policy, Next(md5, policy, w, OpenChange(0, id, r0)), OpenChange(1, id, r1));
      var w3 := Next(md5, policy, w2, Change(0, password, now));
      var w4 := Next(md5, policy, w3, Change(1, password, now));
      && Changes(md5, w2, Change(0, password, now)) && Changes(md5, w3, Change(1, password, now))
      && id in w4.store.accounts && !Distinct(Recent(w4, id))
  {
    var w2 := Next(md5, policy, Next(md5, policy, w, OpenChange(0, id, r0)), OpenChange(1, id, r1));
    BothChangesOpen(md5, policy, w, id, r0, r1);
    OtherChangeWaits(md5, policy, w2, Change(0, password, now), 1);
    AccountsStay(md5, policy, w2, Change(0, password, now), id);
    ReplacedTwice(md5, policy, w2, Change(0, password, now), Change(1, password, now), id);
  }

  /** Putting the present password in its own place. */
  lemma SameAgainRepeats(md5: Md5, policy: Policy, w: World, e: Event, id: string)
    requires Books(w) && id in w.store.accounts && Replaces(md5, w, e, id) && NewPassword(e) == OwnerOf(w, id)
    ensures var w' := Next(md5, policy, w, e);
      id in w'.store.accounts && !Distinct(Recent(w', id))
  {
    var w' := Next(md5, policy, w, e);
    Replaced(md5, policy, w, e, id);
    assert Recent(w', id)[0] == Recent(w', id)[1];
  }

  lemma ReplacedTwice(md5: Md5, policy: Policy, w: World, e1: Event, e2: Event, id: string)
    requires Books(w) && id in w.store.accounts && NewPassword(e1) == NewPassword(e2)
    requires Replaces(md5, w, e1, id) && Replaces(md5, Next(md5, policy, w, e1), e2, id)
    ensures var w2 := Next(md5, policy, Next(md5, policy, w, e1), e2);
      id in w2.store.accounts && !Distinct(Recent(w2, id))
  {
    StepKeepsBooks(md5, policy, w, e1);
    Replaced(md5, policy, w, e1, id);
    SameAgainRepeats(md5, policy, Next(md5, policy, w, e1), e2, id);
  }

  /** Two approved resets of one user. */
  lemma TwoResetsRepeat(md5: Md5, policy: Policy, w: World, id: string, now: int)
    requires Books(w) && id in w.store.accounts
    ensures var e := Process(id, RESET, PASS, now);
      var w2 := Next(md5, policy, Next(md5, policy, w, e), e);
      id in w2.store.accounts && !Distinct(Recent(w2, id))
  {
    var e := Process(id, RESET, PASS, now);
    AccountsStay(md5, policy, w, e, id);
    ReplacedTwice(md5, policy, w, e, e, id);
  }
}

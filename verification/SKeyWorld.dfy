/** The server as a state machine: any number of users, of logins and of password changes that wait for
    an answer at the same time. */
module SKeyWorld {
  import opened HashChain
  import opened AccountStore
  import opened SKeyServer
  import opened PasswordHistory
  import PasswordRule

  const RESET_PASSWORD := "123456"

  /** What UpdatePassword holds while it waits for the client's answers. */
  datatype PendingChange = PendingChange(id: string, rows: seq<Verifier>, newRandom: string)

  /** The last four fields are not held by the server. owner and pastOwner say whose password each record was
      made from; reader and compared say the same of the records a waiting session has read. */
  datatype World = World(
    store: Store, sessions: map<nat, Pending>, changes: map<nat, PendingChange>,
    owner: map<string, string>, pastOwner: seq<string>, reader: map<nat, string>, compared: map<nat, seq<string>>)

  /** Register is the insertion that ends a registration; the check before it changes nothing. */
  datatype Event =
    | Register(id: string, name: string, password: string, random: string, now: int)
    | Open(sid: nat, id: string, newRandom: string, now: int)
    | Reply(sid: nat, iterate: string, newIterate: string, now: int)
    | OpenChange(sid: nat, id: string, newRandom: string)
    | Change(sid: nat, password: string, now: int)
    | Request(id: string, requestType: int, now: int)
    | Process(id: string, requestType: int, mode: int, now: int)

  /** The user whose password a step replaces, if it replaces one. */
  function Subject(w: World, e: Event): string {
    match e
    case Register(id, _, _, _, _) => id
    case Process(id, _, _, _) => id
    case Change(sid, _, _) => if sid in w.changes then w.changes[sid].id else ""
    case _ => ""
  }

  ghost predicate Changes(md5: Md5, w: World, e: Event) {
    e.Change? && e.sid in w.changes && w.changes[e.sid].id in w.store.accounts &&
    !Reproduces(md5, e.password, w.changes[e.sid].rows)
  }

  ghost predicate Resets(w: World, e: Event) {
    e.Process? && e.id in w.store.accounts && e.requestType == RESET && e.mode == PASS
  }

  ghost predicate Enrols(w: World, e: Event) {
    e.Register? && e.id !in w.store.accounts
  }

  /** A reply that passes the check of its session. */
  ghost predicate Succeeds(md5: Md5, w: World, e: Event, id: string) {
    e.Reply? && e.sid in w.sessions && w.sessions[e.sid].id == id && Accepts(md5, w.sessions[e.sid].verifier, e.iterate)
  }

  ghost function NextStore(md5: Md5, w: World, e: Event): Store {
    match e
    case Register(id, name, password, random, now) =>
      AfterAddUser(w.store, id, name, Verifier(FreshIteration(md5, password, random), DEFAULT_CHALLENGE, random), now)
    case Open(_, _, _, _) => w.store
    case Reply(sid, iterate, newIterate, now) =>
      if sid in w.sessions then AfterFinish(md5, w.store, w.sessions[sid], iterate, newIterate, now) else w.store
    case OpenChange(_, _, _) => w.store
    case Change(sid, password, now) =>
      if Changes(md5, w, e) then AfterChange(md5, w.store, w.changes[sid].id, password, w.changes[sid].newRandom, now)
      else w.store
    case Request(id, requestType, now) => AfterSetFlag(w.store, id, requestType, now)
    case Process(id, requestType, mode, now) => AfterProcessRequest(w.store, requestType, mode, id, now)
  }

  ghost function NextSessions(policy: Policy, w: World, e: Event): map<nat, Pending> {
    match e
    case Open(sid, id, newRandom, now) =>
      var offer := OfferLogin(w.store, policy, id, newRandom, now);
      if offer.Offered? then w.sessions[sid := offer.pending] else w.sessions
    case Reply(sid, _, _, _) => w.sessions - {sid}
    case _ => w.sessions
  }

  function NextChanges(w: World, e: Event): map<nat, PendingChange> {
    match e
    case OpenChange(sid, id, newRandom) =>
      if id in w.store.accounts then w.changes[sid := PendingChange(id, Compared(w.store, id), newRandom)]
      else w.changes
    case Change(sid, _, _) => w.changes - {sid}
    case _ => w.changes
  }

  ghost function NextOwner(md5: Md5, w: World, e: Event): map<string, string> {
    if Enrols(w, e) || Changes(md5, w, e) then w.owner[Subject(w, e) := e.password]
    else if Resets(w, e) then w.owner[Subject(w, e) := RESET_PASSWORD]
    else w.owner
  }

  /** The step stores a record of another password for this user; the record before it goes to the history. */
  ghost predicate Replaces(md5: Md5, w: World, e: Event, id: string) {
    (Changes(md5, w, e) || Resets(w, e)) && Subject(w, e) == id
  }

  function NewPassword(e: Event): string {
    if e.Change? then e.password else RESET_PASSWORD
  }

  ghost function NextPastOwner(md5: Md5, w: World, e: Event): seq<string> {
    if (Changes(md5, w, e) || Resets(w, e)) && Subject(w, e) in w.owner then w.pastOwner + [w.owner[Subject(w, e)]]
    else w.pastOwner
  }

  function OwnerOf(w: World, id: string): string {
    if id in w.owner then w.owner[id] else ""
  }

  function RecordOf(w: World, id: string): Verifier {
    if id in w.store.accounts then w.store.accounts[id].verifier else RESET_VERIFIER
  }

  /** The user's passwords before the present one, newest first. */
  function Earlier(w: World, id: string): seq<string> {
    if |w.store.history| == |w.pastOwner| then NewestOwners(w.store.history, w.pastOwner, id) else []
  }

  /** The passwords of the records a change is compared with. */
  function Recent(w: World, id: string): seq<string> {
    [OwnerOf(w, id)] + FirstFour(Earlier(w, id))
  }

  ghost function NextReader(policy: Policy, w: World, e: Event): map<nat, string> {
    if e.Open? && OfferLogin(w.store, policy, e.id, e.newRandom, e.now).Offered? then
      w.reader[e.sid := OwnerOf(w, e.id)]
    else w.reader
  }

  function NextCompared(w: World, e: Event): map<nat, seq<string>> {
    if e.OpenChange? && e.id in w.store.accounts then w.compared[e.sid := Recent(w, e.id)] else w.compared
  }

  ghost function Next(md5: Md5, policy: Policy, w: World, e: Event): World {
    World(NextStore(md5, w, e), NextSessions(policy, w, e), NextChanges(w, e), NextOwner(md5, w, e),
          NextPastOwner(md5, w, e), NextReader(policy, w, e), NextCompared(w, e))
  }

  ghost function Run(md5: Md5, policy: Policy, w: World, es: seq<Event>): World
    decreases |es|
  {
    if es == [] then w else Run(md5, policy, Next(md5, policy, w, es[0]), es[1..])
  }

  const EMPTY := World(Store(map[], []), map[], map[], map[], [], map[], map[])

  // ----- what clients send -----

  /** New passwords pass the client's rule, and random parts have the server's length. */
  ghost predicate WellFormed(e: Event) {
    match e
    case Register(_, _, password, random, _) => PasswordRule.Acceptable(password) && |random| == MAX_RANDOM
    case Change(_, password, _) => PasswordRule.Acceptable(password)
    case OpenChange(_, _, newRandom) => |newRandom| == MAX_RANDOM
    case Open(_, _, newRandom, _) => |newRandom| == MAX_RANDOM
    case _ => true
  }

  /** The step stores an accepted reply. */
  predicate Stores(md5: Md5, w: World, e: Event) {
    e.Reply? && e.sid in w.sessions && Accepts(md5, w.sessions[e.sid].verifier, e.iterate)
  }

  /** The password that was the user's when the session was opened. */
  function ReaderOf(w: World, sid: nat): string {
    if sid in w.reader then w.reader[sid] else ""
  }

  /** An accepted reply is what the client computes from the password that was the user's when the session was
      opened, and from what the server sent. Refused replies may be anything, at any time, in any number, and
      sessions of all kinds overlap. */
  ghost predicate Honest(md5: Md5, w: World, e: Event) {
    && WellFormed(e)
    && (Stores(md5, w, e) ==>
         var p, typed := w.sessions[e.sid], ReaderOf(w, e.sid);
         && e.iterate == HonestReply(md5, typed, p.verifier)
         && (p.verifier.challenge <= 1 ==> e.newIterate == FreshIteration(md5, typed, p.newRandom)))
  }

  /** When it is stored, the row still shows the value that was read; where it starts a new seed, the user's
      password is the one the session was opened under. */
  predicate InTime(md5: Md5, w: World, e: Event) {
    Stores(md5, w, e) ==>
      var p := w.sessions[e.sid];
      if p.verifier.challenge > 1 then RecordOf(w, p.id).iteration == p.verifier.iteration
      else ReaderOf(w, e.sid) == OwnerOf(w, p.id)
  }

  ghost predicate HonestRun(md5: Md5, policy: Policy, w: World, es: seq<Event>)
    decreases |es|
  {
    es == [] || (Honest(md5, w, es[0]) && HonestRun(md5, policy, Next(md5, policy, w, es[0]), es[1..]))
  }

  ghost predicate InTimeRun(md5: Md5, policy: Policy, w: World, es: seq<Event>)
    decreases |es|
  {
    es == [] || (InTime(md5, w, es[0]) && InTimeRun(md5, policy, Next(md5, policy, w, es[0]), es[1..]))
  }

  /** The links of the chain of the user's record, and of the chain the session has read, are among these strings. */
  ghost predicate ChainsIn(md5: Md5, w: World, sid: nat, hashed: set<string>)
    requires sid in w.sessions
  {
    var p := w.sessions[sid];
    && LinksIn(md5, OwnerOf(w, p.id) + RecordOf(w, p.id).random, DEFAULT_CHALLENGE + 1, hashed)
    && LinksIn(md5, ReaderOf(w, sid) + p.verifier.random, DEFAULT_CHALLENGE + 1, hashed)
  }

  /** And those of the chains that may start with the new seed. */
  ghost predicate NewChainsIn(md5: Md5, w: World, sid: nat, hashed: set<string>)
    requires sid in w.sessions
  {
    var p := w.sessions[sid];
    && LinksIn(md5, OwnerOf(w, p.id) + p.newRandom, DEFAULT_CHALLENGE + 1, hashed)
    && LinksIn(md5, ReaderOf(w, sid) + p.newRandom, DEFAULT_CHALLENGE + 1, hashed)
  }

  /** All chains met when replies are stored. */
  ghost predicate ChainsMet(md5: Md5, policy: Policy, w: World, es: seq<Event>, hashed: set<string>)
    decreases |es|
  {
    es == [] || (
      && (Stores(md5, w, es[0]) ==> ChainsIn(md5, w, es[0].sid, hashed) && NewChainsIn(md5, w, es[0].sid, hashed))
      && ChainsMet(md5, policy, Next(md5, policy, w, es[0]), es[1..], hashed))
  }

  // ----- the invariant -----

  ghost predicate RecordHolds(md5: Md5, w: World, id: string) {
    id in w.store.accounts ==> id in w.owner && Holds(md5, w.owner[id], w.store.accounts[id].verifier)
  }

  ghost predicate PastHolds(md5: Md5, w: World, i: int)
    requires 0 <= i < |w.store.history| == |w.pastOwner|
  {
    Holds(md5, w.pastOwner[i], w.store.history[i].verifier) && w.store.history[i].uid in w.store.accounts
  }

  /** What a waiting login has read belonged to the password it was opened under. */
  ghost predicate SessionHolds(md5: Md5, w: World, sid: nat) {
    sid in w.sessions ==>
      && |w.sessions[sid].newRandom| == MAX_RANDOM && w.sessions[sid].id in w.store.accounts
      && sid in w.reader && Holds(md5, w.reader[sid], w.sessions[sid].verifier)
  }

  /** What a waiting change will compare with belongs to the passwords that were recent when it was opened. */
  ghost predicate ChangeHolds(md5: Md5, w: World, sid: nat) {
    sid in w.changes ==>
      && |w.changes[sid].newRandom| == MAX_RANDOM && w.changes[sid].id in w.store.accounts
      && sid in w.compared && AllHold(md5, w.compared[sid], w.changes[sid].rows)
  }

  ghost predicate Inv(md5: Md5, w: World) {
    && (forall id :: RecordHolds(md5, w, id))
    && |w.store.history| == |w.pastOwner|
    && (forall i :: 0 <= i < |w.pastOwner| ==> PastHolds(md5, w, i))
    && (forall sid :: SessionHolds(md5, w, sid))
    && (forall sid :: ChangeHolds(md5, w, sid))
  }

  ghost predicate InvThroughout(md5: Md5, policy: Policy, w: World, es: seq<Event>)
    decreases |es|
  {
    Inv(md5, w) && (es == [] || InvThroughout(md5, policy, Next(md5, policy, w, es[0]), es[1..]))
  }

  /** What holds in every run at all: each user has an owner, and past rows and past owners match. */
  ghost predicate Books(w: World) {
    && (forall id :: id in w.store.accounts ==> id in w.owner)
    && |w.store.history| == |w.pastOwner|
    && (forall i :: 0 <= i < |w.store.history| ==> w.store.history[i].uid in w.store.accounts)
  }

  /** The constant an approved reset stores is the record of the reset password. */
  ghost predicate ResetConstant(md5: Md5) {
    Chain(md5, RESET_PASSWORD + RESET_RANDOM, 2) == RESET_VERIFIER.iteration
  }
}

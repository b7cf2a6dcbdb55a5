/** Password provenance over every run of the login handlers of one machine: any number of
    handlers, in any interleaving, share the stored configurations. Every peer has a fixed
    salt, and tokens are made by `get_conn_token` only. */
module PasswordRuns {
  import opened Wrappers
  import opened LoginState

  /** The handlers at work, the configurations on disk, and the tokens issued so far with
      the peers they were issued for. The disk inside a handler's own state is refreshed
      whenever it acts. */
  datatype World = World(logins: map<nat, Login>, disk: Disk, issued: set<(string, ConnToken)>)

  datatype Act =
    | NewHandler
    | Init(id: string, args: InitArgs)
    | IssueToken
    | OnHash(given: HashArgs)
    | OnError(err: LoginError)
    | OnUi(text: Bytes, remember: bool)
    | OnPeerInfo(info: Info)
    | OnToggle(name: string)

  /** One handler does something. */
  datatype Event = Event(handler: nat, act: Act)

  /** The salt of every peer, by the id it is stored under. */
  type Salts = string -> Bytes

  function Handler(w: World, h: nat): Login {
    if h in w.logins then w.logins[h].(disk := w.disk) else NewLogin(w.disk)
  }

  /** A peer asks for nothing and is told nothing before its hash message; tokens and
      passwords stay with the peer they are for; and sides are not switched. */
  predicate Allowed(s: Login, a: Act, issued: set<(string, ConnToken)>, salts: Salts) {
    match a
    case Init(id, args) =>
      if args.token.Some? then (ParseId(id).id, args.token.value) in issued
      else s.password == [] || s.id == ParseId(id).id
    case OnHash(args) => args.hash.salt == salts(s.id) && !SwitchesSides(s, args)
    case OnUi(_, _) => s.hash.salt == salts(s.id)
    case OnPeerInfo(_) => s.hash.salt == salts(s.id)
    case _ => true
  }

  function Acted(s: Login, a: Act, sha: Digest): Login {
    match a
    case NewHandler => NewLogin(s.disk)
    case Init(id, args) => Initialize(s, id, args)
    case IssueToken => s
    case OnHash(args) => HandleHash(s, args, sha)
    case OnError(err) => HandleLoginError(s, err)
    case OnUi(text, remember) => HandleLoginFromUi(s, text, remember, sha)
    case OnPeerInfo(info) => HandlePeerInfo(s, info, sha)
    case OnToggle(name) => ToggleOption(s, name)
  }

  function Tokens(s: Login, a: Act): set<(string, ConnToken)> {
    if a.IssueToken? && GetConnToken(s).Some? then {(s.id, GetConnToken(s).value)} else {}
  }

  function Step(w: World, e: Event, sha: Digest): World {
    var s := Handler(w, e.handler);
    var t := Acted(s, e.act, sha);
    World(w.logins[e.handler := t], t.disk, w.issued + Tokens(s, e.act))
  }

  function Run(w: World, run: seq<Event>, sha: Digest): World {
    if run == [] then w else Step(Run(w, run[..|run| - 1], sha), run[|run| - 1], sha)
  }

  predicate Enabled(w: World, e: Event, salts: Salts) {
    Allowed(Handler(w, e.handler), e.act, w.issued, salts)
  }

  predicate Legal(w: World, run: seq<Event>, salts: Salts, sha: Digest) {
    run == [] ||
    (Legal(w, run[..|run| - 1], salts, sha) && Enabled(Run(w, run[..|run| - 1], sha), run[|run| - 1], salts))
  }

  /** The passwords an action brings in that are the user's own: preset, typed in, or from
      the personal address book. */
  function OwnNow(s: Login, a: Act, salt: Bytes, sha: Digest): set<Bytes> {
    match a
    case OnHash(args) =>
      (if args.preset != [] then {sha(args.preset + salt)} else {}) +
      {PersonalAbPassword(args.accessToken, args.ab, s.id)}
    case OnUi(text, _) => if text != [] then {sha(text + salt)} else {}
    case _ => {}
  }

  function OwnStep(w: World, e: Event, salts: Salts, sha: Digest): set<Bytes> {
    var s := Handler(w, e.handler);
    OwnNow(s, e.act, salts(s.id), sha)
  }

  function Own(w: World, run: seq<Event>, salts: Salts, sha: Digest): set<Bytes> {
    if run == [] then {}
    else
      var init := run[..|run| - 1];
      Own(w, init, salts, sha) + OwnStep(Run(w, init, sha), run[|run| - 1], salts, sha)
  }

  /** The passwords stored for any peer. */
  function StoredIn(disk: Disk): set<Bytes> {
    set id | id in disk.peers :: disk.peers[id].password
  }

  // ---- the invariant ------------------------------------------------------

  /** A non-empty password agrees with its recorded source, and unless that is a shared
      address book the password is one of `own`. */
  ghost predicate Agrees(password: Bytes, source: PasswordSource, own: set<Bytes>, salt: Bytes, sha: Digest) {
    password != [] ==>
      match source
      case SharedAb(text) => password == sha(text + salt)
      case PersonalAb(p) => password == p && password in own
      case Undefined => password in own
  }

  ghost predicate StoredOwn(disk: Disk, own: set<Bytes>) {
    forall id :: id in disk.peers ==> disk.peers[id].password == [] || disk.peers[id].password in own
  }

  /** What holds of one handler. */
  ghost predicate Held(s: Login, own: set<Bytes>, salts: Salts, sha: Digest) {
    Agrees(s.password, s.source, own, salts(s.id), sha) && (s.config.password == [] || s.config.password in own)
  }

  ghost predicate TokensAgree(issued: set<(string, ConnToken)>, own: set<Bytes>, salts: Salts, sha: Digest) {
    forall t :: t in issued ==> t.1.password != [] && Agrees(t.1.password, t.1.source, own, salts(t.0), sha)
  }

  ghost predicate Inv(w: World, own: set<Bytes>, salts: Salts, sha: Digest) {
    && (forall h :: h in w.logins ==> Held(w.logins[h], own, salts, sha))
    && StoredOwn(w.disk, own)
    && TokensAgree(w.issued, own, salts, sha)
  }

  lemma LoadedOwn(s: Login, own: set<Bytes>)
    requires StoredOwn(s.disk, own)
    ensures s.Load().password == [] || s.Load().password in own
  {
  }

  lemma InvGrows(w: World, own: set<Bytes>, more: set<Bytes>, salts: Salts, sha: Digest)
    requires Inv(w, own, salts, sha) && own <= more
    ensures Inv(w, more, salts, sha)
  {
  }

  // ---- one handler acts ---------------------------------------------------

  lemma InitHolds(s: Login, id: string, args: InitArgs, issued: set<(string, ConnToken)>, own: set<Bytes>, salts: Salts,
                  sha: Digest)
    requires Held(s, own, salts, sha) && StoredOwn(s.disk, own) && TokensAgree(issued, own, salts, sha)
    requires Allowed(s, Init(id, args), issued, salts)
    ensures Held(Initialize(s, id, args), own, salts, sha) && StoredOwn(Initialize(s, id, args).disk, own)
  {
    InitializeFacts(s, id, args);
    LoadedOwn(Initialize(s, id, args), own);
    if args.token.Some? {
      assert (ParseId(id).id, args.token.value) in issued;
    }
  }

  lemma ChoiceAgrees(s: Login, args: HashArgs, own: set<Bytes>, salt: Bytes, sha: Digest)
    requires Agrees(s.password, s.source, own, salt, sha) && args.hash.salt == salt
    requires s.config.password == [] || s.config.password in own
    ensures var c := Choose(s, args, sha);
            Agrees(c.password, c.source, own + OwnNow(s, OnHash(args), salt, sha), salt, sha)
  {
  }

  lemma HashHolds(s: Login, args: HashArgs, own: set<Bytes>, salts: Salts, sha: Digest)
    requires Held(s, own, salts, sha) && args.hash.salt == salts(s.id) && !SwitchesSides(s, args)
    ensures Held(HandleHash(s, args, sha), own + OwnNow(s, OnHash(args), salts(s.id), sha), salts, sha)
    ensures HandleHash(s, args, sha).disk == s.disk
  {
    ChoiceAgrees(s.(hash := args.hash, switchUuid := None), args, own, salts(s.id), sha);
  }

  lemma SetOptionPasswords(s: Login, k: string, v: string)
    ensures var t := SetOption(s, k, v);
            && t.password == s.password && t.source == s.source && t.id == s.id
            && (t == s || (t == s.Save(t.config) && t.config.password == s.Load().password))
  {
  }

  lemma ErrorHolds(s: Login, err: LoginError, own: set<Bytes>, salts: Salts, sha: Digest)
    requires Held(s, own, salts, sha) && StoredOwn(s.disk, own)
    ensures Held(HandleLoginError(s, err), own, salts, sha) && StoredOwn(HandleLoginError(s, err).disk, own)
  {
    if err.TwoFactor? {
      LoadedOwn(s, own);
      SetOptionPasswords(s, "trust-this-device", "");
    }
  }

  lemma UiHolds(s: Login, text: Bytes, remember: bool, own: set<Bytes>, salts: Salts, sha: Digest)
    requires Held(s, own, salts, sha) && s.hash.salt == salts(s.id)
    ensures var t := HandleLoginFromUi(s, text, remember, sha);
            Held(t, own + OwnNow(s, OnUi(text, remember), salts(s.id), sha), salts, sha) && t.disk == s.disk
  {
  }

  /** What peer info stores is never a shared password. */
  lemma StoredIsOwn(s: Login, own: set<Bytes>, salt: Bytes, sha: Digest)
    requires Agrees(s.password, s.source, own, salt, sha) && s.hash.salt == salt
    requires s.Load().password == [] || s.Load().password in own
    ensures var p := StoredPassword(s, s.Load().password, sha); p == [] || p in own
  {
  }

  lemma PeerInfoPasswords(s: Login, info: Info, sha: Digest)
    ensures var t := HandlePeerInfo(s, info, sha);
            && t.id == s.id && t.password == s.password && t.source == s.source && t == s.Save(t.config)
            && t.config.password == StoredPassword(s, s.Load().password, sha)
  {
  }

  lemma PeerInfoHolds(s: Login, info: Info, own: set<Bytes>, salts: Salts, sha: Digest)
    requires Held(s, own, salts, sha) && StoredOwn(s.disk, own) && s.hash.salt == salts(s.id)
    ensures Held(HandlePeerInfo(s, info, sha), own, salts, sha) && StoredOwn(HandlePeerInfo(s, info, sha).disk, own)
  {
    LoadedOwn(s, own);
    StoredIsOwn(s, own, salts(s.id), sha);
    PeerInfoPasswords(s, info, sha);
  }

  lemma TogglePasswords(s: Login, name: string)
    ensures var t := ToggleOption(s, name);
            && t.password == s.password && t.source == s.source && t.id == s.id
            && (t == s || (t == s.Save(t.config) && t.config.password in {s.config.password, s.Load().password}))
  {
  }

  lemma ToggleHolds(s: Login, name: string, own: set<Bytes>, salts: Salts, sha: Digest)
    requires Held(s, own, salts, sha) && StoredOwn(s.disk, own)
    ensures Held(ToggleOption(s, name), own, salts, sha) && StoredOwn(ToggleOption(s, name).disk, own)
  {
    LoadedOwn(s, own);
    TogglePasswords(s, name);
  }

  lemma ActHolds(s: Login, a: Act, issued: set<(string, ConnToken)>, own: set<Bytes>, salts: Salts, sha: Digest)
    requires Held(s, own, salts, sha) && StoredOwn(s.disk, own) && TokensAgree(issued, own, salts, sha)
    requires Allowed(s, a, issued, salts)
    ensures var t, more := Acted(s, a, sha), own + OwnNow(s, a, salts(s.id), sha);
            Held(t, more, salts, sha) && StoredOwn(t.disk, more)
  {
    match a
    case Init(id, args) => InitHolds(s, id, args, issued, own, salts, sha);
    case OnHash(args) => HashHolds(s, args, own, salts, sha);
    case OnError(err) => ErrorHolds(s, err, own, salts, sha);
    case OnUi(text, remember) => UiHolds(s, text, remember, own, salts, sha);
    case OnPeerInfo(info) => PeerInfoHolds(s, info, own, salts, sha);
    case OnToggle(name) => ToggleHolds(s, name, own, salts, sha);
    case _ =>
  }

  /** Whatever one handler does, every handler, every stored password and every token keeps
      agreeing with what the user presented. */
  lemma StepKeepsInv(w: World, e: Event, own: set<Bytes>, salts: Salts, sha: Digest)
    requires Inv(w, own, salts, sha) && Enabled(w, e, salts)
    ensures Inv(Step(w, e, sha), own + OwnStep(w, e, salts, sha), salts, sha)
  {
    var s := Handler(w, e.handler);
    ActHolds(s, e.act, w.issued, own, salts, sha);
    InvGrows(w, own, own + OwnStep(w, e, salts, sha), salts, sha);
  }

  function Begin(disk: Disk): World {
    World(map[], disk, {})
  }

  /** The passwords that may be stored after a run. */
  function Presented(disk: Disk, run: seq<Event>, salts: Salts, sha: Digest): set<Bytes> {
    StoredIn(disk) + Own(Begin(disk), run, salts, sha)
  }

  lemma {:induction false} RunKeepsInv(disk: Disk, run: seq<Event>, salts: Salts, sha: Digest)
    requires Legal(Begin(disk), run, salts, sha)
    ensures Inv(Run(Begin(disk), run, sha), Presented(disk, run, salts, sha), salts, sha)
  {
    var w0 := Begin(disk);
    if run == [] {
      assert forall id :: id in disk.peers ==> disk.peers[id].password in StoredIn(disk);
    } else {
      var init, e := run[..|run| - 1], run[|run| - 1];
      RunKeepsInv(disk, init, salts, sha);
      var w, own := Run(w0, init, sha), Presented(disk, init, salts, sha);
      StepKeepsInv(w, e, own, salts, sha);
      assert own + OwnStep(w, e, salts, sha) == Presented(disk, run, salts, sha);
    }
  }

  lemma HandlerHolds(w: World, h: nat, own: set<Bytes>, salts: Salts, sha: Digest)
    requires Inv(w, own, salts, sha)
    ensures Held(Handler(w, h), own, salts, sha) && StoredOwn(Handler(w, h).disk, own)
  {
  }

  // ---- the results --------------------------------------------------------

  /** After every run, of any number of handlers in any interleaving, a non-empty password
      agrees with its recorded source, and every password stored for any peer was stored
      before or is one the user presented: no password from a shared address book or the
      built-in default is ever newly saved. */
  lemma SharedPasswordsAreNeverSaved(disk: Disk, run: seq<Event>, salts: Salts, sha: Digest)
    requires Legal(Begin(disk), run, salts, sha)
    ensures var w := Run(Begin(disk), run, sha);
            && (forall h :: h in w.logins ==>
                 var s := w.logins[h];
                 && (s.password != [] && s.source.SharedAb? ==> s.password == sha(s.source.text + salts(s.id)))
                 && (s.password != [] && s.source.PersonalAb? ==> s.password == s.source.p))
            && forall id :: id in w.disk.peers ==>
                 w.disk.peers[id].password == [] || w.disk.peers[id].password in Presented(disk, run, salts, sha)
  {
    RunKeepsInv(disk, run, salts, sha);
    var w := Run(Begin(disk), run, sha);
    assert forall h :: h in w.logins ==> Held(w.logins[h], Presented(disk, run, salts, sha), salts, sha);
  }

  /** With remember off, peer info leaves the personal address book's password if that is
      the one in use, and none otherwise. */
  lemma RememberOffForgets(disk: Disk, run: seq<Event>, h: nat, info: Info, salts: Salts, sha: Digest)
    requires Legal(Begin(disk), run + [Event(h, OnPeerInfo(info))], salts, sha)
    requires !Handler(Run(Begin(disk), run, sha), h).remember
    ensures var s := Handler(Run(Begin(disk), run, sha), h);
            var after := Run(Begin(disk), run + [Event(h, OnPeerInfo(info))], sha).disk.peers;
            && s.id in after
            && after[s.id].password == if s.source.PersonalAb? then s.password else []
  {
    var all, w := run + [Event(h, OnPeerInfo(info))], Run(Begin(disk), run, sha);
    assert all[..|all| - 1] == run;
    RunKeepsInv(disk, run, salts, sha);
    HandlerHolds(w, h, Presented(disk, run, salts, sha), salts, sha);
    PeerInfoPasswords(Handler(w, h), info, sha);
  }

  /** What is offered to the personal address book is the user's own as well. */
  lemma SyncedPasswordIsOwn(disk: Disk, run: seq<Event>, h: nat, info: Info, salts: Salts, sha: Digest)
    requires Legal(Begin(disk), run + [Event(h, OnPeerInfo(info))], salts, sha)
    ensures var s := Handler(Run(Begin(disk), run, sha), h);
            var p := SyncedPassword(s, StoredPassword(s, s.Load().password, sha), sha);
            p.Some? ==> p.value in Presented(disk, run, salts, sha)
  {
    var all, w := run + [Event(h, OnPeerInfo(info))], Run(Begin(disk), run, sha);
    assert all[..|all| - 1] == run;
    RunKeepsInv(disk, run, salts, sha);
    var s, own := Handler(w, h), Presented(disk, run, salts, sha);
    HandlerHolds(w, h, own, salts, sha);
    LoadedOwn(s, own);
    StoredIsOwn(s, own, salts(s.id), sha);
  }

  /** It is offered exactly when a password is stored afterwards that is neither the personal
      address book's nor a shared one: then it is the stored one. */
  lemma SyncedExactly(disk: Disk, run: seq<Event>, h: nat, info: Info, salts: Salts, sha: Digest)
    requires Legal(Begin(disk), run + [Event(h, OnPeerInfo(info))], salts, sha)
    ensures var s := Handler(Run(Begin(disk), run, sha), h);
            var kept := HandlePeerInfo(s, info, sha).Load().password;
            SyncedPassword(s, kept, sha) ==
            if kept != [] && (s.password == [] || s.source.Undefined?) then Some(kept) else None
  {
    var all, w := run + [Event(h, OnPeerInfo(info))], Run(Begin(disk), run, sha);
    assert all[..|all| - 1] == run;
    RunKeepsInv(disk, run, salts, sha);
    HandlerHolds(w, h, Presented(disk, run, salts, sha), salts, sha);
    SourceShows(Handler(w, h), Presented(disk, run, salts, sha), salts(Handler(w, h).id), sha);
  }

  lemma SourceShows(s: Login, own: set<Bytes>, salt: Bytes, sha: Digest)
    requires Agrees(s.password, s.source, own, salt, sha) && s.hash.salt == salt
    ensures s.source.IsSharedAb(s.password, s.hash, sha) <==> s.password != [] && s.source.SharedAb?
    ensures s.source.IsPersonalAb(s.password) <==> s.password != [] && s.source.PersonalAb?
  {
  }

  // ---- why the runs are restricted as they are ----------------------------

  /** A peer with a stored password is opened with a shared one, and once its hash message
      is answered a token goes to a second handler for the same peer. */
  predicate Shares(disk: Disk, id: string, first: InitArgs, given: HashArgs, text: Bytes, sha: Digest) {
    && ParseId(id).id in disk.peers && disk.peers[ParseId(id).id].password != []
    && disk.peers[ParseId(id).id].password != sha(text + given.hash.salt)
    && text != [] && sha(text + given.hash.salt) != []
    && first.sharedPassword == Some(text) && first.token.None? && first.switchUuid.None?
  }

  /** The second handler right after its initialisation with the token. */
  function Second(s: Login, id: string, first: InitArgs, given: HashArgs, second: InitArgs, sha: Digest): Login {
    var t := HandleHash(Initialize(s, id, first), given, sha);
    Initialize(NewLogin(t.disk), id, second.(token := GetConnToken(t)))
  }

  /** It remembers the peer, uses the shared password, and has seen no hash message. */
  predicate Ready(s: Login, disk: Disk, id: string, given: HashArgs, text: Bytes, sha: Digest) {
    && s.id == ParseId(id).id && s.disk == disk && s.remember && s.hash == Hash([], [])
    && s.password == sha(text + given.hash.salt) && s.source == SharedAb(text)
  }

  lemma SecondStarts(disk: Disk, id: string, first: InitArgs, given: HashArgs, text: Bytes,
                     second: InitArgs, sha: Digest)
    requires Shares(disk, id, first, given, text, sha)
    ensures var s := Second(NewLogin(disk), id, first, given, second, sha);
            Ready(s, disk, id, given, text, sha) && s.switchUuid == second.switchUuid
  {
    FirstShares(disk, id, first, given, text, sha);
    SecondFields(disk, id, second.(token := GetConnToken(HandleHash(Initialize(NewLogin(disk), id, first), given, sha))));
  }

  lemma FirstShares(disk: Disk, id: string, first: InitArgs, given: HashArgs, text: Bytes, sha: Digest)
    requires Shares(disk, id, first, given, text, sha)
    ensures var t := HandleHash(Initialize(NewLogin(disk), id, first), given, sha);
            t.disk == disk && t.password == sha(text + given.hash.salt) && t.source == SharedAb(text)
  {
    InitializeFacts(NewLogin(disk), id, first);
  }

  lemma SecondFields(disk: Disk, id: string, args: InitArgs)
    requires ParseId(id).id in disk.peers && disk.peers[ParseId(id).id].password != [] && args.token.Some?
    ensures var s := Initialize(NewLogin(disk), id, args);
            && s.id == ParseId(id).id && s.disk == disk && s.remember && s.hash == Hash([], [])
            && s.password == args.token.value.password && s.source == args.token.value.source
            && s.switchUuid == args.switchUuid
  {
  }

  /** Opened with a shared password, answered, and the token handed to a second handler. */
  function Opening(disk: Disk, id: string, first: InitArgs, given: HashArgs, second: InitArgs,
                   sha: Digest): seq<Event> {
    var t := HandleHash(Initialize(NewLogin(disk), id, first), given, sha);
    HandOver(Init(id, first), OnHash(given), Init(id, second.(token := GetConnToken(t))))
  }

  /** Two actions of one handler, a token from it, and another handler's action. */
  function HandOver(a: Act, b: Act, c: Act): seq<Event> {
    [Event(0, a)] + [Event(0, b)] + [Event(0, IssueToken)] + [Event(1, c)]
  }

  /** What one more event does to the world and to the legality of the run. */
  lemma OneEvent(w0: World, run: seq<Event>, e: Event, s: Login, t: Login, salts: Salts, sha: Digest)
    requires Handler(Run(w0, run, sha), e.handler) == s && Acted(s, e.act, sha) == t
    ensures var w, w' := Run(w0, run, sha), Run(w0, run + [e], sha);
            && w'.disk == t.disk && Handler(w', e.handler) == t && w'.issued == w.issued + Tokens(s, e.act)
            && (t.disk == w.disk ==> forall h :: h != e.handler ==> Handler(w', h) == Handler(w, h))
            && (Legal(w0, run + [e], salts, sha) <==> Legal(w0, run, salts, sha) && Allowed(s, e.act, w.issued, salts))
  {
    assert (run + [e])[..|run + [e]| - 1] == run;
  }

  lemma FirstAction(disk: Disk, a: Act, s: Login, salts: Salts, sha: Digest)
    requires Acted(NewLogin(disk), a, sha) == s && s.disk == disk && Allowed(NewLogin(disk), a, {}, salts)
    ensures var run := [Event(0, a)];
            var w := Run(Begin(disk), run, sha);
            Legal(Begin(disk), run, salts, sha) && w.disk == disk && Handler(w, 0) == s && Handler(w, 1) == NewLogin(disk)
  {
    OneEvent(Begin(disk), [], Event(0, a), NewLogin(disk), s, salts, sha);
    assert [] + [Event(0, a)] == [Event(0, a)];
  }

  /** The same handler acts again. */
  lemma NextAction(run: seq<Event>, b: Act, disk: Disk, s: Login, t: Login, salts: Salts, sha: Digest)
    requires Handler(Run(Begin(disk), run, sha), 0) == s && Handler(Run(Begin(disk), run, sha), 1) == NewLogin(disk)
    requires Acted(s, b, sha) == t && t.disk == disk && Legal(Begin(disk), run, salts, sha)
    requires forall issued :: Allowed(s, b, issued, salts)
    ensures var all := run + [Event(0, b)];
            var w := Run(Begin(disk), all, sha);
            Legal(Begin(disk), all, salts, sha) && w.disk == disk && Handler(w, 0) == t && Handler(w, 1) == NewLogin(disk)
  {
    OneEvent(Begin(disk), run, Event(0, b), s, t, salts, sha);
  }

  lemma TokenHandedOn(run: seq<Event>, c: Act, disk: Disk, t: Login, u: Login, salts: Salts, sha: Digest)
    requires Handler(Run(Begin(disk), run, sha), 0) == t && Handler(Run(Begin(disk), run, sha), 1) == NewLogin(disk)
    requires t.disk == u.disk == disk && Acted(NewLogin(disk), c, sha) == u && Legal(Begin(disk), run, salts, sha)
    requires forall issued :: Tokens(t, IssueToken) <= issued ==> Allowed(NewLogin(disk), c, issued, salts)
    ensures var all := run + [Event(0, IssueToken)] + [Event(1, c)];
            var w := Run(Begin(disk), all, sha);
            Legal(Begin(disk), all, salts, sha) && w.disk == disk && Handler(w, 1) == u
  {
    OneEvent(Begin(disk), run, Event(0, IssueToken), t, t, salts, sha);
    OneEvent(Begin(disk), run + [Event(0, IssueToken)], Event(1, c), NewLogin(disk), u, salts, sha);
  }

  /** The opening is a legal run, and ends with the second handler ready. */
  lemma OpeningLeaves(disk: Disk, id: string, first: InitArgs, given: HashArgs, text: Bytes,
                      second: InitArgs, salts: Salts, sha: Digest)
    requires Shares(disk, id, first, given, text, sha) && salts(ParseId(id).id) == given.hash.salt
    ensures var run := Opening(disk, id, first, given, second, sha);
            var w := Run(Begin(disk), run, sha);
            && Legal(Begin(disk), run, salts, sha)
            && w.disk == disk && Handler(w, 1) == Second(NewLogin(disk), id, first, given, second, sha)
  {
    var s := Initialize(NewLogin(disk), id, first);
    var t := HandleHash(s, given, sha);
    FirstShares(disk, id, first, given, text, sha);
    FirstFields(disk, id, first, given, sha);
    var args := second.(token := GetConnToken(t));
    InitializeFacts(NewLogin(disk), id, args);
    assert (t.id, args.token.value) in Tokens(t, IssueToken);
    FirstAction(disk, Init(id, first), s, salts, sha);
    NextAction([Event(0, Init(id, first))], OnHash(given), disk, s, t, salts, sha);
    TokenHandedOn([Event(0, Init(id, first))] + [Event(0, OnHash(given))], Init(id, args), disk, t,
                  Initialize(NewLogin(disk), id, args), salts, sha);
  }

  lemma FirstFields(disk: Disk, id: string, first: InitArgs, given: HashArgs, sha: Digest)
    ensures var s := Initialize(NewLogin(disk), id, first);
            && s.id == ParseId(id).id && s.disk == disk && s.switchUuid == first.switchUuid
            && HandleHash(s, given, sha).id == s.id
  {
  }

  /** Peer info writes a remembered peer's new password exactly when the salt at hand does
      not show that it is a shared one. */
  lemma SharedSavedExactly(s: Login, info: Info, sha: Digest)
    requires s.id in s.disk.peers && s.disk.peers[s.id].password != s.password && s.remember && s.password != []
    ensures var after := HandlePeerInfo(s, info, sha).disk.peers;
            && s.id in after
            && (after[s.id].password == s.password <==> !(s.source.SharedAb? && s.password == sha(s.source.text + s.hash.salt)))
  {
    PeerInfoPasswords(s, info, sha);
  }

  lemma OpeningReady(disk: Disk, id: string, first: InitArgs, given: HashArgs, text: Bytes,
                     second: InitArgs, salts: Salts, sha: Digest)
    requires Shares(disk, id, first, given, text, sha) && salts(ParseId(id).id) == given.hash.salt
    ensures var run := Opening(disk, id, first, given, second, sha);
            var s := Handler(Run(Begin(disk), run, sha), 1);
            Legal(Begin(disk), run, salts, sha) && Ready(s, disk, id, given, text, sha) && s.switchUuid == second.switchUuid
  {
    OpeningLeaves(disk, id, first, given, text, second, salts, sha);
    SecondStarts(disk, id, first, given, text, second, sha);
  }

  /** Peer info that comes before the second handler's hash message writes the shared
      password to the peer's configuration exactly when the salt matters to its digest. */
  lemma EarlyPeerInfoSaves(disk: Disk, id: string, first: InitArgs, given: HashArgs, text: Bytes,
                           second: InitArgs, info: Info, salts: Salts, sha: Digest)
    requires Shares(disk, id, first, given, text, sha) && salts(ParseId(id).id) == given.hash.salt
    ensures var opening := Opening(disk, id, first, given, second, sha);
            var after := Run(Begin(disk), opening + [Event(1, OnPeerInfo(info))], sha).disk.peers;
            && Legal(Begin(disk), opening, salts, sha)
            && ParseId(id).id in after
            && (after[ParseId(id).id].password == sha(text + given.hash.salt) <==> sha(text + given.hash.salt) != sha(text))
  {
    OpeningReady(disk, id, first, given, text, second, salts, sha);
    ReadyToldEarly(Opening(disk, id, first, given, second, sha), disk, id, first, given, text, info, salts, sha);
  }

  lemma ReadyToldEarly(run: seq<Event>, disk: Disk, id: string, first: InitArgs, given: HashArgs,
                       text: Bytes, info: Info, salts: Salts, sha: Digest)
    requires Shares(disk, id, first, given, text, sha)
    requires Ready(Handler(Run(Begin(disk), run, sha), 1), disk, id, given, text, sha)
    ensures var after := Run(Begin(disk), run + [Event(1, OnPeerInfo(info))], sha).disk.peers;
            && ParseId(id).id in after
            && (after[ParseId(id).id].password == sha(text + given.hash.salt) <==> sha(text + given.hash.salt) != sha(text))
  {
    var s := Handler(Run(Begin(disk), run, sha), 1);
    TellPeerInfo(run, disk, s, info, salts, sha);
    assert s.source.text + s.hash.salt == text;
  }

  lemma TellPeerInfo(run: seq<Event>, disk: Disk, s: Login, info: Info, salts: Salts, sha: Digest)
    requires Handler(Run(Begin(disk), run, sha), 1) == s
    requires s.id in s.disk.peers && s.disk.peers[s.id].password != s.password && s.remember && s.password != []
    ensures var after := Run(Begin(disk), run + [Event(1, OnPeerInfo(info))], sha).disk.peers;
            && s.id in after
            && (after[s.id].password == s.password <==> !s.source.IsSharedAb(s.password, s.hash, sha))
  {
    OneEvent(Begin(disk), run, Event(1, OnPeerInfo(info)), s, HandlePeerInfo(s, info, sha), salts, sha);
    SharedSavedExactly(s, info, sha);
  }

  /** So does a confirmed switch of sides: it forgets that the password was shared. */
  lemma SwitchForgetsSource(disk: Disk, id: string, first: InitArgs, given: HashArgs, text: Bytes,
                            second: InitArgs, switched: HashArgs, info: Info, salts: Salts, sha: Digest)
    requires Shares(disk, id, first, given, text, sha) && salts(ParseId(id).id) == given.hash.salt
    requires second.switchUuid.Some? && switched.trusted
    ensures var opening := Opening(disk, id, first, given, second, sha);
            var after := Run(Begin(disk), opening + [Event(1, OnHash(switched))] + [Event(1, OnPeerInfo(info))], sha).disk.peers;
            && Legal(Begin(disk), opening, salts, sha)
            && ParseId(id).id in after && after[ParseId(id).id].password == sha(text + given.hash.salt)
  {
    var opening := Opening(disk, id, first, given, second, sha);
    var s := Handler(Run(Begin(disk), opening, sha), 1);
    OpeningReady(disk, id, first, given, text, second, salts, sha);
    TellSwitch(opening, disk, s, switched, info, salts, sha);
  }

  lemma TellSwitch(run: seq<Event>, disk: Disk, s: Login, switched: HashArgs, info: Info, salts: Salts,
                   sha: Digest)
    requires Handler(Run(Begin(disk), run, sha), 1) == s && SwitchesSides(s, switched)
    requires s.id in s.disk.peers && s.disk.peers[s.id].password != s.password && s.remember && s.password != []
    ensures var after := Run(Begin(disk), run + [Event(1, OnHash(switched))] + [Event(1, OnPeerInfo(info))], sha).disk.peers;
            s.id in after && after[s.id].password == s.password
  {
    var t := HandleHash(s, switched, sha);
    SwitchFields(s, switched, sha);
    OneEvent(Begin(disk), run, Event(1, OnHash(switched)), s, t, salts, sha);
    TellPeerInfo(run + [Event(1, OnHash(switched))], disk, t, info, salts, sha);
  }

  lemma SwitchFields(s: Login, args: HashArgs, sha: Digest)
    requires SwitchesSides(s, args)
    ensures var t := HandleHash(s, args, sha);
            && t.id == s.id && t.disk == s.disk && t.password == s.password && t.source == Undefined
            && t.remember == s.remember
  {
  }
}

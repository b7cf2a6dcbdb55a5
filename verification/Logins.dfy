/** What one step of a login offers, keeps and forgets (rustdesk-master/src/client.rs), and
    what the serving side makes of it (rustdesk-master/src/server/connection.rs). */
module Logins {
  import opened Wrappers
  import opened LoginState

  // ---- the order of application -------------------------------------------

  function FirstNonEmpty(candidates: seq<Choice>): Option<Choice> {
    if candidates == [] then None
    else if candidates[0].password != [] then Some(candidates[0])
    else FirstNonEmpty(candidates[1..])
  }

  function Hashed(text: Bytes, salt: Bytes, sha: Digest): Bytes {
    if text == [] then [] else sha(text + salt)
  }

  /** Everything `handle_hash` could use, best first. */
  function Candidates(s: Login, args: HashArgs, sha: Digest): seq<Choice> {
    var salt := args.hash.salt;
    var shared := if s.sharedPassword.Some? then s.sharedPassword.value else [];
    var ab := PersonalAbPassword(args.accessToken, args.ab, s.id);
    [Choice(Hashed(shared, salt, sha), SharedAb(shared)), Choice(s.password, s.source),
     Choice(Hashed(args.preset, salt, sha), Undefined), Choice(s.config.password, Undefined),
     Choice(ab, PersonalAb(ab)), Choice(Hashed(args.builtin, salt, sha), SharedAb(args.builtin))]
  }

  /** With a digest that is never empty, the step-by-step choice is the first password
      there is in the order shared, last, preset, stored, personal, built-in, together
      with its own source; and none is used only if there is none. */
  lemma ChoiceIsFirstNonEmpty(s: Login, args: HashArgs, sha: Digest)
    requires forall b: Bytes :: sha(b) != []
    ensures var c := Choose(s, args, sha);
            match FirstNonEmpty(Candidates(s, args, sha))
            case Some(best) => c == best
            case None => c.password == []
  {
    var all := Candidates(s, args, sha);
    assert FirstNonEmpty(all[5..]) == if all[5].password != [] then Some(all[5]) else None;
    assert all[4..][1..] == all[5..] && all[3..][1..] == all[4..] && all[2..][1..] == all[3..];
    assert all[1..][1..] == all[2..];
    assert FirstNonEmpty(all[4..]) == if all[4].password != [] then Some(all[4]) else FirstNonEmpty(all[5..]);
    assert FirstNonEmpty(all[3..]) == if all[3].password != [] then Some(all[3]) else FirstNonEmpty(all[4..]);
    assert FirstNonEmpty(all[2..]) == if all[2].password != [] then Some(all[2]) else FirstNonEmpty(all[3..]);
    assert FirstNonEmpty(all[1..]) == if all[1].password != [] then Some(all[1]) else FirstNonEmpty(all[2..]);
  }

  // ---- the address book ---------------------------------------------------

  predicate FirstPersonal(entries: seq<AbEntry>, i: nat) {
    i < |entries| && entries[i].personal && forall k :: 0 <= k < i ==> !entries[k].personal
  }

  predicate FirstPeer(peers: seq<AbPeer>, id: string, j: nat) {
    j < |peers| && peers[j].id == id && forall k :: 0 <= k < j ==> peers[k].id != id
  }

  lemma {:induction false} PersonalFound(entries: seq<AbEntry>, i: nat)
    requires FirstPersonal(entries, i)
    ensures FindPersonal(entries) == Some(entries[i])
  {
    if i > 0 {
      PersonalFound(entries[1..], i - 1);
    }
  }

  lemma {:induction false} PersonalMissing(entries: seq<AbEntry>)
    requires forall k :: 0 <= k < |entries| ==> !entries[k].personal
    ensures FindPersonal(entries) == None
  {
    if entries != [] {
      PersonalMissing(entries[1..]);
    }
  }

  lemma {:induction false} PeerFound(peers: seq<AbPeer>, id: string, j: nat)
    requires FirstPeer(peers, id, j)
    ensures FindPeer(peers, id) == Some(peers[j])
  {
    if j > 0 {
      PeerFound(peers[1..], id, j - 1);
    }
  }

  lemma {:induction false} PeerMissing(peers: seq<AbPeer>, id: string)
    requires forall k :: 0 <= k < |peers| ==> peers[k].id != id
    ensures FindPeer(peers, id) == None
  {
    if peers != [] {
      PeerMissing(peers[1..], id);
    }
  }

  /** A password comes from the address book only while it belongs to the account logged in,
      and then from the first entry of the peer in the first personal book. */
  lemma AddressBookPassword(accessToken: string, ab: AddressBook, id: string, i: nat, j: nat)
    requires FirstPersonal(ab.entries, i) && FirstPeer(ab.entries[i].peers, id, j)
    ensures PersonalAbPassword(accessToken, ab, id) ==
            if accessToken != "" && accessToken == ab.accessToken && ab.entries[i].peers[j].hash.Some?
            then ab.entries[i].peers[j].hash.value else []
  {
    PersonalFound(ab.entries, i);
    PeerFound(ab.entries[i].peers, id, j);
  }

  lemma AddressBookNothing(accessToken: string, ab: AddressBook, id: string)
    requires forall i: nat, j: nat :: FirstPersonal(ab.entries, i) ==> !FirstPeer(ab.entries[i].peers, id, j)
    ensures PersonalAbPassword(accessToken, ab, id) == []
  {
    if k :| 0 <= k < |ab.entries| && ab.entries[k].personal {
      var i := FirstPersonalAt(ab.entries, k);
      PersonalFound(ab.entries, i);
      NoFirstPeer(ab.entries[i].peers, id);
      PeerMissing(ab.entries[i].peers, id);
    } else {
      PersonalMissing(ab.entries);
    }
  }

  lemma FirstPersonalAt(entries: seq<AbEntry>, k: nat) returns (i: nat)
    requires k < |entries| && entries[k].personal
    ensures FirstPersonal(entries, i)
  {
    i := k;
    if m :| 0 <= m < k && entries[m].personal {
      i := FirstPersonalAt(entries, m);
    }
  }

  lemma NoFirstPeer(peers: seq<AbPeer>, id: string)
    requires forall j: nat :: !FirstPeer(peers, id, j)
    ensures forall k :: 0 <= k < |peers| ==> peers[k].id != id
  {
    forall k | 0 <= k < |peers| ensures peers[k].id != id {
      NotUpTo(peers, id, k);
    }
  }

  lemma {:induction false} NotUpTo(peers: seq<AbPeer>, id: string, n: nat)
    requires n < |peers| && forall j: nat :: !FirstPeer(peers, id, j)
    ensures forall k :: 0 <= k <= n ==> peers[k].id != id
  {
    if n > 0 {
      NotUpTo(peers, id, n - 1);
    }
    assert !FirstPeer(peers, id, n);
  }

  // ---- the answer to the challenge ----------------------------------------

  /** What the serving side checks: the salted digest, hashed with its challenge. */
  predicate VerifyH1(h1: Bytes, hash: Hash, sent: Bytes, sha: Digest) {
    sha(h1 + hash.challenge) == sent
  }

  predicate ValidatePasswordPlain(password: Bytes, hash: Hash, sent: Bytes, sha: Digest) {
    password != [] && VerifyH1(sha(password + hash.salt), hash, sent, sha)
  }

  predicate AdminTerminal(s: Login) {
    s.connType == Terminal && s.terminalAdmin
  }

  /** What is sent on a hash message: nothing yet for an administrator's terminal, an empty
      password exactly when no place has one, and otherwise the best password hashed with
      the challenge of this very message. */
  lemma LoginAnswersChallenge(s: Login, given: HashArgs, sha: Digest)
    requires !SwitchesSides(s, given) && forall b: Bytes :: sha(b) != []
    ensures var sent := LoginFor(HandleHash(s, given, sha), sha);
            var best := FirstNonEmpty(Candidates(s, given, sha));
            && (sent.NotYet? <==> AdminTerminal(s))
            && (sent == Sent([]) <==> best.None? && !AdminTerminal(s))
            && (best.Some? && !AdminTerminal(s) ==> sent == Sent(sha(best.value.password + given.hash.challenge)))
  {
    ChoiceIsFirstNonEmpty(s.(hash := given.hash, switchUuid := None), given, sha);
    FirstIsNonEmpty(Candidates(s, given, sha));
  }

  lemma {:induction false} FirstIsNonEmpty(candidates: seq<Choice>)
    ensures var best := FirstNonEmpty(candidates);
            best.Some? ==> best.value.password != [] && best.value in candidates
  {
    if candidates != [] && candidates[0].password == [] {
      FirstIsNonEmpty(candidates[1..]);
    }
  }

  /** The right password gets in: when the best candidate was made from a text and the salt
      of this message, the serving side that knows the text accepts what is sent. */
  lemma RightPasswordAccepted(s: Login, given: HashArgs, text: Bytes, sha: Digest)
    requires !SwitchesSides(s, given) && !AdminTerminal(s) && forall b: Bytes :: sha(b) != []
    requires var best := FirstNonEmpty(Candidates(s, given, sha));
             text != [] && best.Some? && best.value.password == sha(text + given.hash.salt)
    ensures var sent := LoginFor(HandleHash(s, given, sha), sha);
            sent.Sent? && ValidatePasswordPlain(text, given.hash, sent.answer, sha)
  {
    LoginAnswersChallenge(s, given, sha);
  }

  /** A second hash message uses the password of the first again: shared passwords and
      switches of sides are used up, and the last password goes before all but them. */
  lemma HashAgainKeepsPassword(s: Login, given: HashArgs, again: HashArgs, sha: Digest)
    requires HandleHash(s, given, sha).password != [] && !SwitchesSides(s, given)
    ensures var t := HandleHash(s, given, sha);
            var u := HandleHash(t, again, sha);
            u.password == t.password && u.source == t.source && u.hash == again.hash
            && LoginFor(u, sha) == if AdminTerminal(s) then NotYet else Sent(sha(t.password + again.hash.challenge))
  {
  }

  /** A typed password is accepted by the serving side that knows it. */
  lemma TypedPasswordAccepted(s: Login, text: Bytes, remember: bool, sha: Digest)
    requires text != []
    ensures var t := HandleLoginFromUi(s, text, remember, sha);
            ValidatePasswordPlain(text, s.hash, sha(t.password + t.hash.challenge), sha)
  {
  }

  /** With nothing typed the last password is offered again, or else the stored one. */
  lemma NothingTyped(s: Login, remember: bool, sha: Digest)
    ensures var t := HandleLoginFromUi(s, [], remember, sha);
            && FirstNonEmpty([Choice(s.password, s.source), Choice(s.config.password, Undefined)]) ==
               (if t.password == [] then None else Some(Choice(t.password, t.source)))
            && t.remember == s.remember
  {
    var all := [Choice(s.password, s.source), Choice(s.config.password, Undefined)];
    assert all[1..] == [all[1]] && all[1..][1..] == [];
    assert FirstNonEmpty(all[1..][1..]) == None;
    assert FirstNonEmpty(all[1..]) == if all[1].password != [] then Some(all[1]) else None;
  }

  /** What the user asks to be remembered is stored once the peer has answered, and what
      not is forgotten. */
  lemma TypedPasswordStored(s: Login, text: Bytes, remember: bool, info: Info, sha: Digest)
    requires text != [] && sha(text + s.hash.salt) != []
    ensures var t := HandlePeerInfo(HandleLoginFromUi(s, text, remember, sha), info, sha);
            s.id in t.disk.peers && t.disk.peers[s.id].password == if remember then sha(text + s.hash.salt) else []
  {
  }

  // ---- refused logins -----------------------------------------------------

  /** A refused password is neither handed on nor offered again; any other error keeps it. */
  lemma RefusedIsForgotten(s: Login, err: LoginError, remember: bool, sha: Digest)
    ensures var t := HandleLoginError(s, err);
            if err.PasswordWrong? || err.PasswordEmpty?
            then GetConnToken(t) == None && HandleLoginFromUi(t, [], remember, sha).password == s.config.password
            else GetConnToken(t) == GetConnToken(s)
  {
  }

  /** A refused second factor ends the trust in this device; no other error touches an
      option. */
  lemma TrustEnds(s: Login, err: LoginError)
    ensures var t := HandleLoginError(s, err);
            if err.TwoFactor? then t.GetOption("trust-this-device") != "Y" else t.config == s.config && t.disk == s.disk
  {
  }

  // ---- tokens and sessions ------------------------------------------------

  /** A token carries a session over: password, source and session id. */
  lemma TokenRestores(s: Login, other: Login, id: string, args: InitArgs)
    requires s.password != [] && s.sessionId != 0 && args.token == GetConnToken(s)
    ensures var t := Initialize(other, id, args);
            t.password == s.password && t.source == s.source && t.sessionId == s.sessionId
            && GetConnToken(t) == GetConnToken(s)
  {
  }

  /** What else initialising settles: a session id that is never zero, and that the peer is
      remembered exactly when a password is stored for it. */
  lemma InitializeSession(s: Login, id: string, args: InitArgs)
    ensures var t := Initialize(s, id, args);
            && t.sessionId != 0
            && (args.token.None? && args.random != 0 ==> t.sessionId == args.random)
            && (t.remember <==> t.id in s.disk.peers && s.disk.peers[t.id].password != [])
            && t.connType == args.connType && t.sharedPassword == args.sharedPassword && t.switchUuid == args.switchUuid
            && (AdminTerminal(t) <==> args.connType == Terminal && args.terminalAdmin)
  {
    InitializeFacts(s, id, args);
  }

  /** Switching back is allowed by a confirmed switch of sides only, once, and not after
      initialising again. */
  lemma SwitchBackAllowed(s: Login, given: HashArgs, id: string, args: InitArgs, sha: Digest)
    ensures var t := HandleHash(s, given, sha);
            && (t.switchBackAllowed <==> s.switchBackAllowed || (s.switchUuid.Some? && given.trusted))
            && t.switchUuid.None? && !Initialize(s, id, args).switchBackAllowed
  {
  }

  // ---- peer info ----------------------------------------------------------

  /** The two options about the connection, where this session has something to say. */
  predicate Says(s: Login, k: string) {
    || (k == "other-server-key" && s.otherServer.Some? && s.otherServer.value.server != "public")
    || (k == "force-always-relay" && s.forceRelay)
  }

  /** Peer info stores what the peer says of itself, leaves toggles and all other options
      alone, and touches no other peer. */
  lemma PeerInfoStores(s: Login, info: Info, sha: Digest, other: string, k: string)
    ensures var t := HandlePeerInfo(s, info, sha);
            var before, after := s.Load(), t.Load();
            && after.info == info && after.toggles == before.toggles && t.config == after
            && (!Says(s, k) ==>
                  (k in after.options <==> k in before.options) && (k in before.options ==> after.options[k] == before.options[k]))
            && (Says(s, k) ==>
                  k in after.options && after.options[k] == if k == "force-always-relay" then "Y" else s.otherServer.value.key)
            && (other != s.id ==> t.disk.Load(other) == s.disk.Load(other))
  {
  }

  /** Hearing it twice changes nothing more. */
  lemma PeerInfoTwice(s: Login, info: Info, sha: Digest)
    ensures var t := HandlePeerInfo(s, info, sha); HandlePeerInfo(t, info, sha) == t
  {
    var t := HandlePeerInfo(s, info, sha);
    KeptTwice(s, s.Load().password, sha);
    assert t.Load() == t.config;
    assert HandlePeerInfo(t, info, sha).config == t.config;
    assert t.disk.Store(t.id, t.config) == t.disk;
  }

  lemma KeptTwice(s: Login, before: Bytes, sha: Digest)
    ensures StoredPassword(s, StoredPassword(s, before, sha), sha) == StoredPassword(s, before, sha)
  {
  }
}

/** Incremental option messages against the full login message: when the peer that folds
    the messages of `toggle_option` ends where a fresh login would put it. */
module ToggleOptions {
  import opened Wrappers
  import opened LoginState

  /** What the peer keeps of the option messages it receives: every flag they carry. */
  datatype Peer = Peer(
    lockAfterSessionEnd: bool,
    showRemoteCursor: bool,
    privacyMode: bool,
    blockInput: bool,
    disableAudio: bool,
    disableClipboard: bool,
    enableFileTransfer: bool,
    disableKeyboard: bool,
    followRemoteCursor: bool,
    followRemoteWindow: bool,
    terminalPersistent: bool,
    showMyCursor: bool
  )

  const ALL_OFF := Peer(false, false, false, false, false, false, false, false, false, false, false, false)

  /** `NotSet` means unchanged. */
  function Folded(before: bool, o: BoolOption): bool {
    if o == NotSet then before else o == Yes
  }

  function Receive(p: Peer, m: Option<OptionMessage>): Peer {
    match m
    case None => p
    case Some(o) =>
      Peer(Folded(p.lockAfterSessionEnd, o.lockAfterSessionEnd), Folded(p.showRemoteCursor, o.showRemoteCursor),
           Folded(p.privacyMode, o.privacyMode), Folded(p.blockInput, o.blockInput),
           Folded(p.disableAudio, o.disableAudio), Folded(p.disableClipboard, o.disableClipboard),
           Folded(p.enableFileTransfer, o.enableFileTransfer), Folded(p.disableKeyboard, o.disableKeyboard),
           Folded(p.followRemoteCursor, o.followRemoteCursor), Folded(p.followRemoteWindow, o.followRemoteWindow),
           Folded(p.terminalPersistent, o.terminalPersistent), Folded(p.showMyCursor, o.showMyCursor))
  }

  /** The state a fresh login sets on a peer that starts all off. */
  function Fresh(s: Login): Peer {
    Receive(ALL_OFF, GetOptionMessage(s.connType, s.config.toggles))
  }

  /** In every flag. */
  predicate Agrees(p: Peer, s: Login) {
    p == Fresh(s)
  }

  /** The configuration in memory is what loading gives, as `initialize` leaves it and
      every toggle keeps it. */
  predicate Synced(s: Login) {
    s.Load() == s.config
  }

  lemma InitializeSyncs(s: Login, id: string, args: InitArgs)
    ensures Synced(Initialize(s, id, args))
  {
    InitializeFacts(s, id, args);
  }

  predicate CursorNeedsViewOnly(s: Login) {
    s.config.toggles.showMyCursor ==> s.config.toggles.viewOnly
  }

  predicate Remote(connType: ConnType) {
    connType == DefaultConn || connType == ViewCamera
  }

  predicate CursorFine(s: Login) {
    Remote(s.connType) ==> CursorNeedsViewOnly(s)
  }

  // ---- the toggles that part the peer from a fresh login ------------------

  /** At a screen or camera, in what the login is about: switching an overridden option
      away from what view-only dictates while view-only is on, or showing the cursor while
      it is off. */
  predicate PartsShown(c: Toggles, t: Toggle) {
    match t
    case ShowRemoteCursor => c.viewOnly && c.showRemoteCursor
    case DisableClipboard => c.viewOnly && c.disableClipboard
    case LockAfterSessionEnd => c.viewOnly && !c.lockAfterSessionEnd
    case EnableFileCopyPaste => c.viewOnly && !c.enableFileCopyPaste
    case ShowMyCursor => !c.viewOnly && !c.showMyCursor
    case _ => false
  }

  /** And in what it leaves out: switching on what no such login ever switches on. */
  predicate PartsBeside(c: Toggles, t: Toggle) {
    match t
    case PrivacyMode => !c.privacyMode
    case BlockInput => true
    case TerminalPersistent => !c.terminalPersistent
    case _ => false
  }

  /** In any other session the login says nothing of a screen, and every toggle parts that
      switches something on; so does leaving view-only, if it restores something. */
  predicate PartsBare(c: Toggles, t: Toggle) {
    match t
    case ShowRemoteCursor => !c.showRemoteCursor
    case FollowRemoteCursor => !c.followRemoteCursor
    case FollowRemoteWindow => !c.followRemoteWindow
    case DisableAudio => !c.disableAudio
    case DisableClipboard => !c.disableClipboard
    case LockAfterSessionEnd => !c.lockAfterSessionEnd
    case PrivacyMode => !c.privacyMode
    case EnableFileCopyPaste => !c.enableFileCopyPaste
    case BlockInput => true
    case ViewOnly => !c.viewOnly || c.disableClipboard || c.showRemoteCursor || c.enableFileCopyPaste || c.lockAfterSessionEnd
    case ShowMyCursor => !c.showMyCursor
    case _ => false
  }

  predicate PartsKnown(connType: ConnType, c: Toggles, t: Toggle) {
    if Remote(connType) then PartsShown(c, t) || PartsBeside(c, t)
    else PartsBare(c, t) || (connType != Terminal && t.TerminalPersistent? && !c.terminalPersistent)
  }

  predicate Parts(s: Login, name: string) {
    Known(name).Some? && PartsKnown(s.connType, s.config.toggles, Known(name).value)
  }

  // ---- one toggle in a session with a screen or a camera ------------------

  /** The nine fields a login to a screen or a camera is about, spelled out. */
  predicate Meets(p: Peer, c: Toggles) {
    && p.disableKeyboard == c.viewOnly
    && p.showRemoteCursor == (c.viewOnly || c.showRemoteCursor)
    && p.showMyCursor == (c.viewOnly && c.showMyCursor)
    && p.followRemoteCursor == c.followRemoteCursor
    && p.followRemoteWindow == c.followRemoteWindow
    && p.lockAfterSessionEnd == (!c.viewOnly && c.lockAfterSessionEnd)
    && p.disableAudio == c.disableAudio
    && p.enableFileTransfer == (!c.viewOnly && c.enableFileCopyPaste)
    && p.disableClipboard == (c.viewOnly || c.disableClipboard)
  }

  /** The flags such a login leaves alone. */
  predicate Quiet(p: Peer) {
    !p.privacyMode && !p.blockInput && !p.terminalPersistent
  }

  lemma FreshMeets(s: Login)
    requires Remote(s.connType)
    ensures Meets(Fresh(s), s.config.toggles) && Quiet(Fresh(s))
  {
  }

  lemma MeetsDetermines(p: Peer, q: Peer, c: Toggles)
    requires Meets(p, c) && Quiet(p) && Meets(q, c) && Quiet(q)
    ensures p == q
  {
  }

  lemma RemoteAgrees(p: Peer, s: Login)
    requires Remote(s.connType)
    ensures Agrees(p, s) <==> Meets(p, s.config.toggles) && Quiet(p)
  {
    FreshMeets(s);
    if Meets(p, s.config.toggles) && Quiet(p) {
      MeetsDetermines(p, Fresh(s), s.config.toggles);
    }
  }

  /** What one toggle should do to a peer that meets the configuration. */
  predicate FlipsWell(p: Peer, c: Toggles, t: Toggle) {
    var f := FlipKnown(t, c, c);
    && (Meets(Receive(p, Some(f.message)), f.toggles) <==> !PartsShown(c, t))
    && (!PartsShown(c, t) ==> f.toggles.showMyCursor ==> f.toggles.viewOnly)
  }

  lemma RemoteFlip(p: Peer, c: Toggles, t: Toggle)
    requires (c.showMyCursor ==> c.viewOnly) && Meets(p, c)
    ensures FlipsWell(p, c, t)
  {
    match t
    case ViewOnly => ViewOnlyFlip(p, c);
    case ShowRemoteCursor => OverriddenOnFlip(p, c, t);
    case DisableClipboard => OverriddenOnFlip(p, c, t);
    case LockAfterSessionEnd => OverriddenOffFlip(p, c, t);
    case EnableFileCopyPaste => OverriddenOffFlip(p, c, t);
    case ShowMyCursor => CursorFlip(p, c);
    case FollowRemoteCursor => FollowFlip(p, c, t);
    case FollowRemoteWindow => FollowFlip(p, c, t);
    case DisableAudio => AudioFlip(p, c);
    case TerminalPersistent => LocalFlip(p, c, t);
    case ShowQualityMonitor => LocalFlip(p, c, t);
    case AllowSwapKey => LocalFlip(p, c, t);
    case _ => MomentaryFlip(p, c, t);
  }

  lemma OverriddenOnFlip(p: Peer, c: Toggles, t: Toggle)
    requires (c.showMyCursor ==> c.viewOnly) && Meets(p, c)
    requires t.ShowRemoteCursor? || t.DisableClipboard?
    ensures FlipsWell(p, c, t)
  {
  }

  lemma OverriddenOffFlip(p: Peer, c: Toggles, t: Toggle)
    requires (c.showMyCursor ==> c.viewOnly) && Meets(p, c)
    requires t.LockAfterSessionEnd? || t.EnableFileCopyPaste?
    ensures FlipsWell(p, c, t)
  {
  }

  lemma CursorFlip(p: Peer, c: Toggles)
    requires (c.showMyCursor ==> c.viewOnly) && Meets(p, c)
    ensures FlipsWell(p, c, ShowMyCursor)
  {
  }

  lemma FollowFlip(p: Peer, c: Toggles, t: Toggle)
    requires (c.showMyCursor ==> c.viewOnly) && Meets(p, c)
    requires t.FollowRemoteCursor? || t.FollowRemoteWindow?
    ensures FlipsWell(p, c, t)
  {
  }

  lemma AudioFlip(p: Peer, c: Toggles)
    requires (c.showMyCursor ==> c.viewOnly) && Meets(p, c)
    ensures FlipsWell(p, c, DisableAudio)
  {
  }

  /** Toggles that change nothing stored. */
  lemma MomentaryFlip(p: Peer, c: Toggles, t: Toggle)
    requires (c.showMyCursor ==> c.viewOnly) && Meets(p, c)
    requires t.PrivacyMode? || t.BlockInput? || t.UnblockInput?
    ensures FlipsWell(p, c, t)
  {
    var m := FlipKnown(t, c, c).message;
    assert FlipKnown(t, c, c).toggles == c;
    assert m == BLANK_MESSAGE.(privacyMode := m.privacyMode, blockInput := m.blockInput);
    MeetsBeside(p, c, m.privacyMode, m.blockInput);
  }

  lemma MeetsBeside(p: Peer, c: Toggles, privacy: BoolOption, block: BoolOption)
    requires Meets(p, c)
    ensures Meets(Receive(p, Some(BLANK_MESSAGE.(privacyMode := privacy, blockInput := block))), c)
  {
  }

  /** Toggles about what the login to a screen leaves out. */
  lemma LocalFlip(p: Peer, c: Toggles, t: Toggle)
    requires (c.showMyCursor ==> c.viewOnly) && Meets(p, c)
    requires t.TerminalPersistent? || t.ShowQualityMonitor? || t.AllowSwapKey?
    ensures FlipsWell(p, c, t)
  {
    var d, m := NextToggles(t, c), MessageFor(t, c, c);
    LocalSteps(c, t);
    MeetsIgnores(p, c, d, m.terminalPersistent);
  }

  lemma LocalSteps(c: Toggles, t: Toggle)
    requires t.TerminalPersistent? || t.ShowQualityMonitor? || t.AllowSwapKey?
    ensures var d, m := NextToggles(t, c), MessageFor(t, c, c);
            && m == BLANK_MESSAGE.(terminalPersistent := m.terminalPersistent)
            && d == c.(terminalPersistent := d.terminalPersistent, showQualityMonitor := d.showQualityMonitor,
                       allowSwapKey := d.allowSwapKey)
  {
  }

  lemma MeetsIgnores(p: Peer, c: Toggles, d: Toggles, o: BoolOption)
    requires Meets(p, c)
    requires d == c.(terminalPersistent := d.terminalPersistent, showQualityMonitor := d.showQualityMonitor,
                     allowSwapKey := d.allowSwapKey)
    ensures Meets(Receive(p, Some(BLANK_MESSAGE.(terminalPersistent := o))), d)
  {
  }

  lemma ViewOnlyFlip(p: Peer, c: Toggles)
    requires (c.showMyCursor ==> c.viewOnly) && Meets(p, c)
    ensures FlipsWell(p, c, ViewOnly)
  {
  }

  /** Only its own toggle touches the persistence of a terminal. */
  predicate Persistence(before: bool, after: bool, m: OptionMessage, t: Toggle) {
    if t.TerminalPersistent? then after == !before && m.terminalPersistent == ToOption(!before)
    else after == before && m.terminalPersistent == NotSet
  }

  lemma PersistenceFlip(c: Toggles, t: Toggle)
    ensures var f := FlipKnown(t, c, c); Persistence(c.terminalPersistent, f.toggles.terminalPersistent, f.message, t)
  {
    PersistenceStored(c, t);
    PersistenceSent(c, t);
  }

  lemma PersistenceStored(c: Toggles, t: Toggle)
    ensures FlipKnown(t, c, c).toggles.terminalPersistent == (c.terminalPersistent != t.TerminalPersistent?)
  {
    match t
    case ShowRemoteCursor | FollowRemoteCursor | FollowRemoteWindow | DisableAudio | DisableClipboard =>
    case LockAfterSessionEnd | TerminalPersistent | PrivacyMode | EnableFileCopyPaste | BlockInput =>
    case UnblockInput | ShowQualityMonitor | AllowSwapKey | ViewOnly | ShowMyCursor =>
  }

  lemma PersistenceSent(c: Toggles, t: Toggle)
    ensures FlipKnown(t, c, c).message.terminalPersistent ==
            if t.TerminalPersistent? then ToOption(!c.terminalPersistent) else NotSet
  {
  }

  lemma MomentaryFields(c: Toggles, t: Toggle)
    ensures var m := FlipKnown(t, c, c).message;
            && m.privacyMode == (if t == PrivacyMode then ToOption(!c.privacyMode) else NotSet)
            && m.blockInput == (if t == BlockInput then Yes else if t == UnblockInput then No else NotSet)
  {
  }

  lemma ReceiveBeside(p: Peer, m: OptionMessage)
    ensures var q := Receive(p, Some(m));
            && q.terminalPersistent == Folded(p.terminalPersistent, m.terminalPersistent)
            && q.privacyMode == Folded(p.privacyMode, m.privacyMode) && q.blockInput == Folded(p.blockInput, m.blockInput)
  {
  }

  lemma QuietFlip(p: Peer, c: Toggles, t: Toggle)
    requires Quiet(p)
    ensures Quiet(Receive(p, Some(FlipKnown(t, c, c).message))) <==> !PartsBeside(c, t)
  {
    PersistenceFlip(c, t);
    MomentaryFields(c, t);
    ReceiveBeside(p, FlipKnown(t, c, c).message);
  }

  // ---- one toggle in any other session ------------------------------------

  /** All off but the persistence of a terminal. */
  function Bare(persistent: bool): Peer {
    ALL_OFF.(terminalPersistent := persistent)
  }

  lemma FreshBare(s: Login)
    requires !Remote(s.connType)
    ensures Fresh(s) == Bare(s.connType == Terminal && s.config.toggles.terminalPersistent)
  {
  }

  /** The message switches something on, persistence aside. */
  predicate SwitchesOn(m: OptionMessage) {
    m.lockAfterSessionEnd == Yes || m.showRemoteCursor == Yes || m.privacyMode == Yes || m.blockInput == Yes
    || m.disableAudio == Yes || m.disableClipboard == Yes || m.enableFileTransfer == Yes || m.disableKeyboard == Yes
    || m.followRemoteCursor == Yes || m.followRemoteWindow == Yes || m.showMyCursor == Yes
  }

  lemma ReceiveBare(b: bool, m: OptionMessage, after: bool)
    ensures Receive(Bare(b), Some(m)) == Bare(after) <==> !SwitchesOn(m) && Folded(b, m.terminalPersistent) == after
  {
  }

  /** The meaning of `PartsBare`. */
  lemma BareFlip(c: Toggles, t: Toggle)
    ensures SwitchesOn(FlipKnown(t, c, c).message) <==> PartsBare(c, t)
  {
    match t
    case ViewOnly =>
    case ShowRemoteCursor =>
    case FollowRemoteCursor =>
    case FollowRemoteWindow =>
    case DisableAudio =>
    case DisableClipboard =>
    case _ =>
  }

  lemma BareFolds(terminal: bool, before: bool, after: bool, m: OptionMessage, t: Toggle)
    requires Persistence(before, after, m, t)
    ensures Receive(Bare(terminal && before), Some(m)) == Bare(terminal && after) <==>
            !SwitchesOn(m) && (terminal || !t.TerminalPersistent? || before)
  {
    ReceiveBare(terminal && before, m, terminal && after);
  }

  lemma BareParts(connType: ConnType, c: Toggles, t: Toggle)
    requires !Remote(connType)
    ensures PartsKnown(connType, c, t) <==>
            PartsBare(c, t) || !(connType == Terminal || !t.TerminalPersistent? || c.terminalPersistent)
  {
  }

  lemma BareStep(s: Login, s': Login, m: OptionMessage, t: Toggle)
    requires !Remote(s.connType) && s'.connType == s.connType
    requires SwitchesOn(m) <==> PartsBare(s.config.toggles, t)
    requires Persistence(s.config.toggles.terminalPersistent, s'.config.toggles.terminalPersistent, m, t)
    ensures Receive(Fresh(s), Some(m)) == Fresh(s') <==> !PartsKnown(s.connType, s.config.toggles, t)
  {
    var before, after := s.config.toggles.terminalPersistent, s'.config.toggles.terminalPersistent;
    FreshBare(s);
    FreshBare(s');
    BareFolds(s.connType == Terminal, before, after, m, t);
    BareParts(s.connType, s.config.toggles, t);
  }

  // ---- one toggle ---------------------------------------------------------

  lemma UnsavedFlip(t: Toggle, c: Toggles)
    ensures FlipKnown(t, c, c).saved || FlipKnown(t, c, c).toggles == c
  {
  }

  /** A known toggle, in terms of the toggles alone. */
  lemma KnownToggle(s: Login, t: Toggle)
    requires Synced(s)
    ensures var f := FlipKnown(t, s.config.toggles, s.config.toggles);
            && MessageKnown(s, t) == f.message && ToggleKnown(s, t).config.toggles == f.toggles
            && Synced(ToggleKnown(s, t)) && ToggleKnown(s, t).connType == s.connType
  {
    UnsavedFlip(t, s.config.toggles);
  }

  lemma RemoteStep(p: Peer, s: Login, s': Login, m: OptionMessage, t: Toggle)
    requires Remote(s.connType) && s'.connType == s.connType && CursorFine(s) && Agrees(p, s)
    requires var f := FlipKnown(t, s.config.toggles, s.config.toggles); m == f.message && s'.config.toggles == f.toggles
    ensures Agrees(Receive(p, Some(m)), s') <==> !PartsKnown(s.connType, s.config.toggles, t)
    ensures !PartsKnown(s.connType, s.config.toggles, t) ==> CursorFine(s')
  {
    RemoteAgrees(p, s);
    RemoteAgrees(Receive(p, Some(m)), s');
    RemoteFlip(p, s.config.toggles, t);
    QuietFlip(p, s.config.toggles, t);
  }

  lemma KnownStep(p: Peer, s: Login, t: Toggle)
    requires Synced(s) && CursorFine(s) && Agrees(p, s)
    ensures var s' := ToggleKnown(s, t);
            && Synced(s') && s'.connType == s.connType
            && (Agrees(Receive(p, Some(MessageKnown(s, t))), s') <==> !PartsKnown(s.connType, s.config.toggles, t))
            && (!PartsKnown(s.connType, s.config.toggles, t) ==> CursorFine(s'))
  {
    KnownToggle(s, t);
    if Remote(s.connType) {
      RemoteStep(p, s, ToggleKnown(s, t), MessageKnown(s, t), t);
    } else {
      BareFlip(s.config.toggles, t);
      PersistenceFlip(s.config.toggles, t);
      BareStep(s, ToggleKnown(s, t), MessageKnown(s, t), t);
    }
  }

  /** One toggle, from a peer in agreement: agreement survives exactly when the toggle is
      not one of the parting ones, and then the cursor still needs view-only. */
  lemma ToggleStep(p: Peer, s: Login, name: string)
    requires Synced(s) && CursorFine(s) && Agrees(p, s)
    ensures var s' := ToggleOption(s, name);
            && Synced(s') && s'.connType == s.connType
            && (Agrees(Receive(p, ToggleMessage(s, name)), s') <==> !Parts(s, name))
            && (!Parts(s, name) ==> CursorFine(s'))
  {
    if Known(name).Some? {
      KnownStep(p, s, Known(name).value);
    } else {
      NamedStep(p, s, name);
    }
  }

  lemma NamedStep(p: Peer, s: Login, name: string)
    requires CursorFine(s) && Agrees(p, s)
    ensures var s' := ToggleNamed(s, name); Synced(s') && s'.connType == s.connType && Agrees(p, s') && CursorFine(s')
  {
  }

  // ---- runs ---------------------------------------------------------------

  function After(s: Login, names: seq<string>): Login {
    if names == [] then s else ToggleOption(After(s, names[..|names| - 1]), names[|names| - 1])
  }

  /** The peer after folding every message of the run. */
  function PeerAfter(p: Peer, s: Login, names: seq<string>): Peer {
    if names == [] then p
    else
      var init := names[..|names| - 1];
      Receive(PeerAfter(p, s, init), ToggleMessage(After(s, init), names[|names| - 1]))
  }

  /** No toggle of the run parts the peer from the session. */
  predicate NeverParts(s: Login, names: seq<string>) {
    names == [] ||
    (NeverParts(s, names[..|names| - 1]) && !Parts(After(s, names[..|names| - 1]), names[|names| - 1]))
  }

  /** The peer, having logged in and folded every message, is where a fresh login would
      put it. */
  predicate AgreesAfter(s: Login, names: seq<string>) {
    Agrees(PeerAfter(Fresh(s), s, names), After(s, names))
  }

  /** From agreement, one more toggle keeps it exactly when it is not a parting one. */
  lemma OneMore(s: Login, names: seq<string>)
    requires names != []
    requires var init := names[..|names| - 1]; Synced(After(s, init)) && CursorFine(After(s, init)) && AgreesAfter(s, init)
    ensures var parts := Parts(After(s, names[..|names| - 1]), names[|names| - 1]);
            && Synced(After(s, names)) && (AgreesAfter(s, names) <==> !parts) && (!parts ==> CursorFine(After(s, names)))
  {
    var init := names[..|names| - 1];
    ToggleStep(PeerAfter(Fresh(s), s, init), After(s, init), names[|names| - 1]);
  }

  lemma {:induction false} RunAgrees(s: Login, names: seq<string>)
    requires Synced(s) && CursorFine(s) && NeverParts(s, names)
    ensures Synced(After(s, names)) && CursorFine(After(s, names)) && AgreesAfter(s, names)
    decreases |names|
  {
    if names != [] {
      RunAgrees(s, names[..|names| - 1]);
      OneMore(s, names);
    }
  }

  lemma {:induction false} PrefixNeverParts(s: Login, names: seq<string>, k: nat)
    requires NeverParts(s, names) && k <= |names|
    ensures NeverParts(s, names[..k])
    decreases |names|
  {
    if k == |names| {
      assert names[..k] == names;
    } else {
      PrefixNeverParts(s, names[..|names| - 1], k);
      assert names[..|names| - 1][..k] == names[..k];
    }
  }

  /** The first parting toggle breaks the agreement on the spot. */
  lemma {:induction false} PartingShows(s: Login, names: seq<string>) returns (k: nat)
    requires Synced(s) && CursorFine(s) && !NeverParts(s, names)
    ensures k <= |names| && !AgreesAfter(s, names[..k])
    decreases |names|
  {
    var init := names[..|names| - 1];
    if NeverParts(s, init) {
      k := |names|;
      RunAgrees(s, init);
      OneMore(s, names);
      assert names[..k] == names;
    } else {
      k := PartingShows(s, init);
      assert init[..k] == names[..k];
    }
  }

  /** Deltas refine the full message. From a login, the peer that folds the messages of a
      run of toggles agrees with a fresh login after every step of the run exactly when no
      step is a parting one; and then show-my-cursor implies view-only all along. */
  lemma DeltasRefineLogin(s: Login, names: seq<string>)
    requires Synced(s) && CursorFine(s)
    ensures NeverParts(s, names) <==> forall k :: 0 <= k <= |names| ==> AgreesAfter(s, names[..k])
    ensures NeverParts(s, names) ==> forall k :: 0 <= k <= |names| ==> CursorFine(After(s, names[..k]))
  {
    if NeverParts(s, names) {
      forall k | 0 <= k <= |names| ensures AgreesAfter(s, names[..k]) && CursorFine(After(s, names[..k])) {
        PrefixNeverParts(s, names, k);
        RunAgrees(s, names[..k]);
      }
    } else {
      var k := PartingShows(s, names);
    }
  }

  /** Input blocking, privacy mode and a terminal's persistence are carried by messages but
      by no login to a screen: switching one on parts the peer at once. */
  lemma SilentOptionsPart(s: Login)
    requires Synced(s) && Remote(s.connType) && CursorFine(s)
    ensures !AgreesAfter(s, ["block-input"])
    ensures !s.config.toggles.privacyMode ==> !AgreesAfter(s, ["privacy-mode"])
    ensures !s.config.toggles.terminalPersistent ==> !AgreesAfter(s, ["terminal-persistent"])
  {
    KnownSilent();
    SilentParts(s, "block-input", BlockInput);
    SilentParts(s, "privacy-mode", PrivacyMode);
    SilentParts(s, "terminal-persistent", TerminalPersistent);
  }

  lemma SilentParts(s: Login, name: string, t: Toggle)
    requires Synced(s) && Remote(s.connType) && CursorFine(s) && Known(name) == Some(t)
    ensures PartsBeside(s.config.toggles, t) ==> !AgreesAfter(s, [name])
  {
    if PartsBeside(s.config.toggles, t) {
      PartsAtOnce(s, name);
    }
  }

  lemma KnownSilent()
    ensures Known("block-input") == Some(BlockInput) && Known("privacy-mode") == Some(PrivacyMode)
    ensures Known("terminal-persistent") == Some(TerminalPersistent)
  {
  }

  lemma PartsAtOnce(s: Login, name: string)
    requires Synced(s) && CursorFine(s) && Parts(s, name)
    ensures !AgreesAfter(s, [name])
  {
    OneToggle(s, name);
    ToggleStep(Fresh(s), s, name);
  }

  lemma OneToggle(s: Login, name: string)
    ensures After(s, [name]) == ToggleOption(s, name)
    ensures PeerAfter(Fresh(s), s, [name]) == Receive(Fresh(s), ToggleMessage(s, name))
  {
    assert [name][..0] == [];
  }

  // ---- the user interface's rule ------------------------------------------

  /** Overridden options change only while view-only is off, and the cursor only while it
      is on. */
  predicate RuleKept(s: Login, name: string) {
    && (name in {"show-remote-cursor", "disable-clipboard", "lock-after-session-end", "enable-file-copy-paste"}
        ==> !s.config.toggles.viewOnly)
    && (name == "show-my-cursor" ==> s.config.toggles.viewOnly)
  }

  /** And what no login to a screen carries is never switched on. */
  predicate SilentKept(s: Login, name: string) {
    && name != "block-input"
    && (name == "privacy-mode" ==> s.config.toggles.privacyMode)
    && (name == "terminal-persistent" ==> s.config.toggles.terminalPersistent)
  }

  lemma RuleKeptOnce(s: Login, name: string)
    requires RuleKept(s, name) && Known(name).Some?
    ensures !PartsShown(s.config.toggles, Known(name).value)
  {
  }

  lemma SilentKeptOnce(s: Login, name: string)
    requires SilentKept(s, name) && Known(name).Some?
    ensures !PartsBeside(s.config.toggles, Known(name).value)
  {
  }

  predicate RuleKeptThroughout(s: Login, names: seq<string>) {
    forall k :: 0 <= k < |names| ==> RuleKept(After(s, names[..k]), names[k])
  }

  predicate SilentKeptThroughout(s: Login, names: seq<string>) {
    forall k :: 0 <= k < |names| ==> SilentKept(After(s, names[..k]), names[k])
  }

  lemma RuleKeptBefore(s: Login, names: seq<string>)
    requires names != []
    ensures RuleKeptThroughout(s, names) ==>
              RuleKeptThroughout(s, names[..|names| - 1]) && RuleKept(After(s, names[..|names| - 1]), names[|names| - 1])
    ensures SilentKeptThroughout(s, names) ==>
              SilentKeptThroughout(s, names[..|names| - 1]) && SilentKept(After(s, names[..|names| - 1]), names[|names| - 1])
  {
    var init := names[..|names| - 1];
    assert forall k :: 0 <= k < |init| ==> init[..k] == names[..k];
  }

  lemma {:induction false} ConnTypeKept(s: Login, names: seq<string>)
    ensures After(s, names).connType == s.connType
  {
    if names != [] {
      ConnTypeKept(s, names[..|names| - 1]);
    }
  }

  lemma {:induction false} RuleKeptAlong(s: Login, names: seq<string>)
    requires Remote(s.connType) && RuleKeptThroughout(s, names) && SilentKeptThroughout(s, names)
    ensures NeverParts(s, names)
    decreases |names|
  {
    if names != [] {
      var before, name := After(s, names[..|names| - 1]), names[|names| - 1];
      RuleKeptBefore(s, names);
      RuleKeptAlong(s, names[..|names| - 1]);
      ConnTypeKept(s, names[..|names| - 1]);
      if Known(name).Some? {
        RuleKeptOnce(before, name);
        SilentKeptOnce(before, name);
      }
    }
  }

  /** At a screen or camera, if every toggle keeps the rule in the state it meets and none
      switches on what the login does not carry, the peer agrees with a fresh login in
      every flag after every step. */
  lemma RuleNeverParts(s: Login, names: seq<string>)
    requires Synced(s) && CursorFine(s) && Remote(s.connType)
    requires RuleKeptThroughout(s, names) && SilentKeptThroughout(s, names)
    ensures NeverParts(s, names)
    ensures forall k :: 0 <= k <= |names| ==> AgreesAfter(s, names[..k]) && CursorFine(After(s, names[..k]))
  {
    RuleKeptAlong(s, names);
    DeltasRefineLogin(s, names);
  }

  lemma ShownStep(p: Peer, s: Login, name: string)
    requires Remote(s.connType) && Synced(s) && CursorFine(s) && Meets(p, s.config.toggles) && RuleKept(s, name)
    ensures var s' := ToggleOption(s, name);
            && Synced(s') && CursorFine(s') && s'.connType == s.connType
            && Meets(Receive(p, ToggleMessage(s, name)), s'.config.toggles)
  {
    if Known(name).Some? {
      RuleKeptOnce(s, name);
      KnownToggle(s, Known(name).value);
      RemoteFlip(p, s.config.toggles, Known(name).value);
    } else {
      NamedStep(Fresh(s), s, name);
    }
  }

  /** Whatever becomes of the other three flags, the rule alone keeps the nine that such a
      login carries as a fresh one would set them, over every run. */
  lemma {:induction false} RuleKeepsShown(s: Login, names: seq<string>)
    requires Synced(s) && CursorFine(s) && Remote(s.connType) && RuleKeptThroughout(s, names)
    ensures Synced(After(s, names)) && CursorFine(After(s, names)) && After(s, names).connType == s.connType
    ensures Meets(PeerAfter(Fresh(s), s, names), After(s, names).config.toggles)
    decreases |names|
  {
    if names == [] {
      FreshMeets(s);
    } else {
      var init := names[..|names| - 1];
      RuleKeptBefore(s, names);
      RuleKeepsShown(s, init);
      ShownStep(PeerAfter(Fresh(s), s, init), After(s, init), names[|names| - 1]);
    }
  }
}

/** What the names of the options mean: `toggle_option` against `get_toggle_option`
    (rustdesk-master/src/client.rs), and the field of the message that speaks of each. */
module ToggleNames {
  import opened Wrappers
  import opened LoginState
  import opened ToggleOptions

  /** Names that stand for an action, or for state that only the peer keeps. */
  predicate ChangesNothing(name: string) {
    name == "privacy-mode" || name == "block-input" || name == "unblock-input"
  }

  // ---- names and toggles --------------------------------------------------

  /** The stored value behind a toggle. */
  function ValueOf(c: Toggles, t: Toggle): bool {
    match t
    case ShowRemoteCursor => c.showRemoteCursor
    case FollowRemoteCursor => c.followRemoteCursor
    case FollowRemoteWindow => c.followRemoteWindow
    case DisableAudio => c.disableAudio
    case DisableClipboard => c.disableClipboard
    case LockAfterSessionEnd => c.lockAfterSessionEnd
    case TerminalPersistent => c.terminalPersistent
    case PrivacyMode => c.privacyMode
    case EnableFileCopyPaste => c.enableFileCopyPaste
    case ShowQualityMonitor => c.showQualityMonitor
    case AllowSwapKey => c.allowSwapKey
    case ViewOnly => c.viewOnly
    case ShowMyCursor => c.showMyCursor
    case _ => false
  }

  predicate Momentary(t: Toggle) {
    t.BlockInput? || t.UnblockInput?
  }

  /** The name of a toggle. */
  function NameOf(t: Toggle): string {
    match t
    case ShowRemoteCursor => "show-remote-cursor"
    case FollowRemoteCursor => "follow-remote-cursor"
    case FollowRemoteWindow => "follow-remote-window"
    case DisableAudio => "disable-audio"
    case DisableClipboard => "disable-clipboard"
    case LockAfterSessionEnd => "lock-after-session-end"
    case TerminalPersistent => "terminal-persistent"
    case PrivacyMode => "privacy-mode"
    case EnableFileCopyPaste => "enable-file-copy-paste"
    case BlockInput => "block-input"
    case UnblockInput => "unblock-input"
    case ShowQualityMonitor => "show-quality-monitor"
    case AllowSwapKey => "allow_swap_key"
    case ViewOnly => "view-only"
    case ShowMyCursor => "show-my-cursor"
  }

  lemma KnownIsName(name: string)
    ensures Known(name).Some? ==> name == NameOf(Known(name).value)
  {
  }

  lemma GetOfKnown(s: Login, t: Toggle)
    ensures GetToggle(s, NameOf(t)) == if Momentary(t) then s.GetOption(NameOf(t)) != "" else ValueOf(s.config.toggles, t)
  {
    match t
    case ShowRemoteCursor | FollowRemoteCursor | FollowRemoteWindow | DisableAudio | DisableClipboard =>
    case LockAfterSessionEnd | TerminalPersistent | PrivacyMode | EnableFileCopyPaste | BlockInput =>
    case UnblockInput | ShowQualityMonitor | AllowSwapKey | ViewOnly | ShowMyCursor =>
  }

  lemma GetOfString(s: Login, name: string)
    requires Known(name).None?
    ensures GetToggle(s, name) == (s.GetOption(name) != "")
  {
  }

  lemma GetIsValue(s: Login, name: string)
    ensures GetToggle(s, name) == match Known(name)
                                  case Some(t) => if Momentary(t) then s.GetOption(name) != "" else ValueOf(s.config.toggles, t)
                                  case None => s.GetOption(name) != ""
  {
    if Known(name).Some? {
      KnownIsName(name);
      GetOfKnown(s, Known(name).value);
    } else {
      GetOfString(s, name);
    }
  }

  lemma NameOfToggle(name: string, t: Toggle)
    requires Known(name) == Some(t)
    ensures t.ViewOnly? <==> name == "view-only"
    ensures t.ShowMyCursor? <==> name == "show-my-cursor"
    ensures Momentary(t) || t.PrivacyMode? <==> ChangesNothing(name)
    ensures t.BlockInput? <==> name == "block-input"
    ensures t.UnblockInput? <==> name == "unblock-input"
    ensures Local(t) <==> name == "show-quality-monitor" || name == "allow_swap_key"
  {
    KnownIsName(name);
    NamesApart(t);
  }

  lemma NamesApart(t: Toggle)
    ensures t.ViewOnly? <==> NameOf(t) == "view-only"
    ensures t.ShowMyCursor? <==> NameOf(t) == "show-my-cursor"
    ensures Momentary(t) || t.PrivacyMode? <==> ChangesNothing(NameOf(t))
    ensures t.BlockInput? <==> NameOf(t) == "block-input"
    ensures t.UnblockInput? <==> NameOf(t) == "unblock-input"
    ensures Local(t) <==> NameOf(t) == "show-quality-monitor" || NameOf(t) == "allow_swap_key"
  {
    match t
    case ShowRemoteCursor | FollowRemoteCursor | FollowRemoteWindow | DisableAudio | DisableClipboard =>
    case LockAfterSessionEnd | TerminalPersistent | PrivacyMode | EnableFileCopyPaste | BlockInput =>
    case UnblockInput | ShowQualityMonitor | AllowSwapKey | ViewOnly | ShowMyCursor =>
  }

  lemma KnownOnce(a: string, b: string)
    requires Known(a).Some? && Known(a) == Known(b)
    ensures a == b
  {
    KnownIsName(a);
    KnownIsName(b);
  }

  lemma FlipValue(c: Toggles, t: Toggle, u: Toggle)
    ensures ValueOf(NextToggles(t, c), u) ==
            if t == u && !Momentary(t) && !t.PrivacyMode? then !ValueOf(c, u)
            else if t.ViewOnly? && u.ShowMyCursor? && c.viewOnly then false
            else ValueOf(c, u)
  {
    match t
    case ShowRemoteCursor | FollowRemoteCursor | FollowRemoteWindow | DisableAudio | DisableClipboard =>
    case LockAfterSessionEnd | TerminalPersistent | PrivacyMode | EnableFileCopyPaste | BlockInput =>
    case UnblockInput | ShowQualityMonitor | AllowSwapKey | ViewOnly | ShowMyCursor =>
  }

  lemma KnownKeepsOptions(s: Login, t: Toggle)
    requires Synced(s)
    ensures ToggleKnown(s, t).config == s.config.(toggles := FlipKnown(t, s.config.toggles, s.config.toggles).toggles)
  {
    UnsavedFlip(t, s.config.toggles);
  }

  // ---- the results --------------------------------------------------------

  /** Toggling an option negates exactly that option, for every name, string options
      included; leaving view-only also hides the cursor, and three names change nothing. */
  lemma ToggleNegatesOne(s: Login, name: string, other: string)
    requires Synced(s)
    ensures GetToggle(ToggleOption(s, name), other) ==
            if ChangesNothing(name) then GetToggle(s, other)
            else if name == other then !GetToggle(s, other)
            else if name == "view-only" && other == "show-my-cursor" && GetToggle(s, "view-only") then false
            else GetToggle(s, other)
  {
    var s' := ToggleOption(s, name);
    GetIsValue(s, other);
    GetIsValue(s', other);
    if Known(name).Some? {
      var t := Known(name).value;
      KnownKeepsOptions(s, t);
      NameOfToggle(name, t);
      if Known(other).Some? {
        var u := Known(other).value;
        FlipValue(s.config.toggles, t, u);
        NameOfToggle(other, u);
        if t == u {
          KnownOnce(name, other);
        }
      }
    } else {
      NoKnownName(name);
      StringOption(s, name, other);
    }
  }

  lemma NoKnownName(name: string)
    requires Known(name).None?
    ensures !ChangesNothing(name) && name != "view-only"
  {
  }

  lemma StringOption(s: Login, name: string, other: string)
    requires Known(name).None?
    ensures var s' := ToggleOption(s, name);
            && s'.config.toggles == s.config.toggles
            && (s'.GetOption(other) != "") == (if name == other then s.GetOption(name) == "" else s.GetOption(other) != "")
  {
  }

  /** A string option appears as "Y" or disappears, and no other option is touched. */
  lemma StringOptionToggles(s: Login, name: string)
    requires Known(name).None?
    ensures var before, after := s.config.options, ToggleOption(s, name).config.options;
            && (forall k :: k != name ==> (k in after <==> k in before) && (k in before ==> after[k] == before[k]))
            && (if s.GetOption(name) != "" then name !in after else name in after && after[name] == "Y")
  {
  }

  /** Every toggle is stored for the peer, but for input blocking, which only the peer knows. */
  lemma ToggleIsStored(s: Login, name: string)
    ensures var s' := ToggleOption(s, name);
            if name == "block-input" || name == "unblock-input" then s' == s
            else s.id in s'.disk.peers && s'.disk.peers[s.id] == s'.config
  {
    if Known(name).Some? {
      NameOfToggle(name, Known(name).value);
    } else {
      NoKnownName(name);
    }
  }

  /** Toggling twice restores every option but the cursor after view-only, and string
      options come back as "Y". */
  lemma ToggleTwice(s: Login, name: string, other: string)
    requires Synced(s)
    ensures var twice := ToggleOption(ToggleOption(s, name), name);
            GetToggle(twice, other) == if name == "view-only" && other == "show-my-cursor" then false else GetToggle(s, other)
  {
    var once := ToggleOption(s, name);
    ToggleSyncs(s, name);
    ToggleNegatesOne(s, name, other);
    ToggleNegatesOne(s, name, "view-only");
    ToggleNegatesOne(once, name, other);
  }

  lemma ToggleSyncs(s: Login, name: string)
    requires Synced(s)
    ensures Synced(ToggleOption(s, name))
  {
    if Known(name).Some? {
      KnownToggle(s, Known(name).value);
    }
  }

  // ---- what the message says ----------------------------------------------

  /** The field of the message that speaks of an option, by the option's name. */
  function SentUnder(m: OptionMessage, name: string): BoolOption {
    if name == "show-remote-cursor" then m.showRemoteCursor
    else if name == "lock-after-session-end" then m.lockAfterSessionEnd
    else if name == "terminal-persistent" then m.terminalPersistent
    else if name == "privacy-mode" then m.privacyMode
    else if name == "enable-file-copy-paste" then m.enableFileTransfer
    else if name == "disable-audio" then m.disableAudio
    else if name == "disable-clipboard" then m.disableClipboard
    else if name == "view-only" then m.disableKeyboard
    else if name == "show-my-cursor" then m.showMyCursor
    else if name == "follow-remote-cursor" then m.followRemoteCursor
    else if name == "follow-remote-window" then m.followRemoteWindow
    else if name == "block-input" then m.blockInput
    else NotSet
  }

  /** The same by toggle. */
  function FieldOf(m: OptionMessage, t: Toggle): BoolOption {
    match t
    case ShowRemoteCursor => m.showRemoteCursor
    case FollowRemoteCursor => m.followRemoteCursor
    case FollowRemoteWindow => m.followRemoteWindow
    case DisableAudio => m.disableAudio
    case DisableClipboard => m.disableClipboard
    case LockAfterSessionEnd => m.lockAfterSessionEnd
    case TerminalPersistent => m.terminalPersistent
    case PrivacyMode => m.privacyMode
    case EnableFileCopyPaste => m.enableFileTransfer
    case ViewOnly => m.disableKeyboard
    case ShowMyCursor => m.showMyCursor
    case BlockInput => m.blockInput
    case _ => NotSet
  }

  lemma SentOfKnown(m: OptionMessage, t: Toggle)
    ensures SentUnder(m, NameOf(t)) == FieldOf(m, t)
  {
    match t
    case ShowRemoteCursor | FollowRemoteCursor | FollowRemoteWindow | DisableAudio | DisableClipboard =>
    case LockAfterSessionEnd | TerminalPersistent | PrivacyMode | EnableFileCopyPaste | BlockInput =>
    case UnblockInput | ShowQualityMonitor | AllowSwapKey | ViewOnly | ShowMyCursor =>
  }

  lemma SentOfString(m: OptionMessage, name: string)
    requires Known(name).None?
    ensures SentUnder(m, name) == NotSet
  {
  }

  lemma SentIsField(m: OptionMessage, name: string)
    ensures SentUnder(m, name) == match Known(name) case Some(t) => FieldOf(m, t) case None => NotSet
  {
    if Known(name).Some? {
      KnownIsName(name);
      SentOfKnown(m, Known(name).value);
    } else {
      SentOfString(m, name);
    }
  }

  /** Options the peer is not told about. */
  predicate Local(t: Toggle) {
    t.ShowQualityMonitor? || t.AllowSwapKey?
  }

  lemma FlipField(c: Toggles, t: Toggle, u: Toggle)
    requires !t.ViewOnly?
    ensures FieldOf(MessageFor(t, c, c), u) ==
            if u.BlockInput? && t.BlockInput? then Yes
            else if u.BlockInput? && t.UnblockInput? then No
            else if t == u && !Momentary(t) && !Local(t) then ToOption(!ValueOf(c, t))
            else NotSet
  {
    match t
    case ShowRemoteCursor | FollowRemoteCursor | FollowRemoteWindow | DisableAudio | DisableClipboard =>
    case LockAfterSessionEnd | TerminalPersistent | PrivacyMode | EnableFileCopyPaste | BlockInput =>
    case UnblockInput | ShowQualityMonitor | AllowSwapKey | ShowMyCursor =>
  }

  /** The message of a toggle, view-only apart: the field of that option carries the
      negated value, input blocking what was asked for, and every other field is unset. */
  lemma MessageSpeaksOfOne(s: Login, name: string, other: string)
    requires Synced(s) && name != "view-only"
    ensures ToggleMessage(s, name).Some? <==> Known(name).Some?
    ensures ToggleMessage(s, name).Some? ==>
            SentUnder(ToggleMessage(s, name).value, other) ==
            if other == "block-input" && name == "block-input" then Yes
            else if other == "block-input" && name == "unblock-input" then No
            else if name == other && name != "unblock-input" && name != "show-quality-monitor" && name != "allow_swap_key"
            then ToOption(!GetToggle(s, name))
            else NotSet
  {
    if Known(name).Some? {
      var t, m := Known(name).value, ToggleMessage(s, name).value;
      NameOfToggle(name, t);
      GetIsValue(s, name);
      SentIsField(m, other);
      if Known(other).Some? {
        var u := Known(other).value;
        FlipField(s.config.toggles, t, u);
        NameOfToggle(other, u);
        if t == u {
          KnownOnce(name, other);
        }
      }
    }
  }
}

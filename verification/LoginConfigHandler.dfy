/** The handler object itself (rustdesk-master/src/client.rs): its methods update fields
    in place, and each is shown to do what `LoginState` says. */
module LoginConfigHandler {
  import opened Wrappers
  import opened Strings
  import opened LoginState

  class LoginConfigHandler {
    var id: string
    var connType: ConnType
    var isTerminalAdmin: bool
    var hash: Hash
    var password: Bytes
    var remember: bool
    var config: PeerConfig
    var sessionId: nat
    var forceRelay: bool
    var switchUuid: Option<string>
    var switchBackAllowed: bool
    var otherServer: Option<OtherServer>
    var sharedPassword: Option<Bytes>
    var passwordSource: PasswordSource
    /** What is stored. */
    var disk: Disk

    function State(): Login
      reads this
    {
      Login(id, connType, isTerminalAdmin, hash, password, remember, config, sessionId, forceRelay,
            switchUuid, switchBackAllowed, otherServer, sharedPassword, passwordSource, disk)
    }

    constructor (disk: Disk)
      ensures State() == NewLogin(disk)
    {
      id, connType, isTerminalAdmin, hash, password, remember := "", DefaultConn, false, Hash([], []), [], false;
      config, sessionId, forceRelay, otherServer, sharedPassword := disk.Default(), 0, false, None, None;
      passwordSource, switchUuid, switchBackAllowed := Undefined, None, false;
      this.disk := disk;
    }

    function LoadConfig(): PeerConfig
      reads this
    {
      disk.Load(id)
    }

    method SaveConfig(c: PeerConfig)
      modifies this`config, this`disk
      ensures State() == old(State()).Save(c)
    {
      disk := disk.Store(id, c);
      config := c;
    }

    method Initialize(newId: string, args: InitArgs)
      modifies this
      ensures State() == LoginState.Initialize(old(State()), newId, args)
    {
      var relay := args.forceRelay;
      var parsed := ParseId(newId);
      if parsed.relay {
        relay := true;
      }
      Locate(parsed, args.connType);
      Resume(args.token, args.random);
      Restore(relay || args.useWs || args.isProxy);
      Tell(args);
    }

    method Locate(parsed: ParsedId, newType: ConnType)
      modifies this
      ensures State() == Located(old(State()), parsed, newType)
    {
      if parsed.other.Some? {
        otherServer := parsed.other;
      }
      id := parsed.id;
      connType := newType;
      var loaded := LoadConfig();
      remember := loaded.password != [];
      config := loaded;
    }

    method Resume(token: Option<LoginState.ConnToken>, random: nat)
      modifies this
      ensures State() == Resumed(old(State()), token, random)
    {
      var sid := 0;
      if token.Some? {
        sid := token.value.sessionId;
        password := token.value.password;
        passwordSource := token.value.source;
      }
      if sid == 0 {
        sid := random;
        if sid == 0 {
          sid := 1;
        }
      }
      sessionId := sid;
    }

    method Restore(relay: bool)
      modifies this
      ensures State() == Restored(old(State()), relay)
    {
      forceRelay := State().GetOption("force-always-relay") == "Y" || relay;
      if otherServer.Some? {
        var key := State().GetOption("other-server-key");
        if key != "" && otherServer.value.key == "" {
          otherServer := Some(otherServer.value.(key := key));
        }
      }
    }

    method Tell(args: InitArgs)
      modifies this
      ensures State() == Told(old(State()), args)
    {
      switchBackAllowed := false;
      switchUuid := args.switchUuid;
      sharedPassword := args.sharedPassword;
      isTerminalAdmin := connType == Terminal && args.terminalAdmin;
    }

    /** A confirmed switch of sides is answered at once; otherwise the password is taken from
        the first place that has one, shared before stored. */
    method HandleHash(given: HashArgs, sha: Digest) returns (sent: LoginSent)
      modifies this
      ensures State() == LoginState.HandleHash(old(State()), given, sha)
      ensures sent == if SwitchesSides(old(State()), given) then Switched(old(switchUuid).value) else LoginFor(State(), sha)
    {
      hash := given.hash;
      var uuid := switchUuid;
      switchUuid := None;
      if uuid.Some? && given.trusted {
        switchBackAllowed := true;
        passwordSource := Undefined;
        return Switched(uuid.value);
      }
      ApplyPasswords(given, sha);
      sent := AnswerChallenge(sha);
    }

    method AnswerChallenge(sha: Digest) returns (sent: LoginSent)
      ensures sent == LoginFor(State(), sha)
    {
      if connType == Terminal && isTerminalAdmin {
        return NotYet;
      }
      sent := Sent(if password == [] then [] else sha(password + hash.challenge));
    }

    /** The order of application, one place after the other. */
    method ApplyPasswords(given: HashArgs, sha: Digest)
      modifies this`password, this`passwordSource, this`sharedPassword
      ensures State() == WithChoice(old(State()), Choose(old(State()), given, sha))
    {
      var pw := password;
      if pw == [] && given.preset != [] {
        pw := sha(given.preset + given.hash.salt);
        passwordSource := Undefined;
      }
      ghost var c1 := PresetOr(Choice(password, old(passwordSource)), given.preset, given.hash.salt, sha);
      assert Choice(pw, passwordSource) == c1;
      var shared := sharedPassword;
      sharedPassword := None;
      if shared.Some? && shared.value != [] {
        pw := sha(shared.value + given.hash.salt);
        passwordSource := SharedAb(shared.value);
      }
      ghost var c2 := SharedOr(c1, shared, given.hash.salt, sha);
      assert Choice(pw, passwordSource) == c2;
      if pw == [] {
        pw := config.password;
        if pw != [] {
          passwordSource := Undefined;
        }
      }
      ghost var c3 := StoredOr(c2, config.password);
      assert Choice(pw, passwordSource) == c3;
      if pw == [] {
        var ab := PersonalAbPassword(given.accessToken, given.ab, id);
        if ab != [] {
          pw := ab;
          passwordSource := PersonalAb(ab);
        }
      }
      assert Choice(pw, passwordSource) == PersonalOr(c3, PersonalAbPassword(given.accessToken, given.ab, id));
      if pw == [] && given.builtin != [] {
        pw := sha(given.builtin + given.hash.salt);
        passwordSource := SharedAb(given.builtin);
      }
      password := pw;
    }

    method SetOption(k: string, v: string)
      modifies this`config, this`disk
      ensures State() == LoginState.SetOption(old(State()), k, v)
    {
      var c := LoadConfig();
      if v == State().GetOption(k) {
        return;
      }
      SaveConfig(c.(options := c.options[k := v]));
    }

    method HandleLoginError(err: LoginError) returns (tryAgain: bool)
      modifies this
      ensures State() == LoginState.HandleLoginError(old(State()), err)
      ensures tryAgain <==> !err.Fatal? && (err.Listed? ==> err.tryAgain)
    {
      match err {
        case PasswordEmpty =>
          password := [];
          return true;
        case PasswordWrong =>
          password := [];
          return true;
        case TwoFactor =>
          if State().GetOption("trust-this-device") == "Y" {
            SetOption("trust-this-device", "");
          }
          return true;
        case Listed(again) => return again;
        case Fatal => return false;
      }
    }

    method HandleLoginFromUi(text: Bytes, rememberIt: bool, sha: Digest) returns (answer: Bytes)
      modifies this
      ensures State() == LoginState.HandleLoginFromUi(old(State()), text, rememberIt, sha)
      ensures answer == sha(password + hash.challenge)
    {
      var hashed := [];
      if text == [] {
        hashed := password;
        if hashed == [] {
          hashed := config.password;
          if hashed != [] {
            passwordSource := Undefined;
          }
        }
      } else {
        passwordSource := Undefined;
        remember := rememberIt;
        hashed := sha(text + hash.salt);
      }
      password := hashed;
      answer := sha(hashed + hash.challenge);
    }

    method HandlePeerInfo(info: Info, sha: Digest) returns (synced: Option<Bytes>)
      modifies this
      ensures State() == LoginState.HandlePeerInfo(old(State()), info, sha)
      ensures synced == SyncedPassword(old(State()), config.password, sha)
    {
      var c := LoadConfig().(info := info);
      var kept := PasswordToKeep(c.password, sha);
      c := c.(password := kept);
      if otherServer.Some? && otherServer.value.server != PUBLIC_SERVER {
        c := c.(options := c.options["other-server-key" := otherServer.value.key]);
      }
      if forceRelay {
        c := c.(options := c.options["force-always-relay" := "Y"]);
      }
      synced := None;
      if c.password != [] && !passwordSource.IsSharedAb(password, hash, sha) && !passwordSource.IsPersonalAb(password) {
        synced := Some(c.password);
      }
      SaveConfig(c);
    }

    /** Remembered unless shared; otherwise only the personal address book's is kept. */
    method PasswordToKeep(password0: Bytes, sha: Digest) returns (kept: Bytes)
      ensures kept == StoredPassword(State(), password0, sha)
    {
      kept := password0;
      if remember {
        if password != [] && password != password0 && !passwordSource.IsSharedAb(password, hash, sha) {
          kept := password;
        }
      } else {
        if passwordSource.IsPersonalAb(password) {
          kept := password;
        } else if password0 != [] {
          kept := [];
        }
      }
    }

    method ConnToken() returns (token: Option<ConnToken>)
      ensures token == GetConnToken(State())
    {
      if password == [] {
        return None;
      }
      return Some(LoginState.ConnToken(password, passwordSource, sessionId));
    }

    method ToggleOption(name: string) returns (message: Option<OptionMessage>)
      modifies this
      ensures State() == LoginState.ToggleOption(old(State()), name)
      ensures message == ToggleMessage(old(State()), name)
    {
      var known := Known(name);
      if known.None? {
        ToggleStringOption(name);
        return None;
      }
      var c := LoadConfig();
      var m := BLANK_MESSAGE;
      var t := c.toggles;
      match known.value {
        case ShowRemoteCursor =>
          t := t.(showRemoteCursor := !t.showRemoteCursor);
          m := m.(showRemoteCursor := ToOption(t.showRemoteCursor));
        case FollowRemoteCursor =>
          t := t.(followRemoteCursor := !t.followRemoteCursor);
          m := m.(followRemoteCursor := ToOption(t.followRemoteCursor));
        case FollowRemoteWindow =>
          t := t.(followRemoteWindow := !t.followRemoteWindow);
          m := m.(followRemoteWindow := ToOption(t.followRemoteWindow));
        case DisableAudio =>
          t := t.(disableAudio := !t.disableAudio);
          m := m.(disableAudio := ToOption(t.disableAudio));
        case DisableClipboard =>
          t := t.(disableClipboard := !t.disableClipboard);
          m := m.(disableClipboard := ToOption(t.disableClipboard));
        case LockAfterSessionEnd =>
          t := t.(lockAfterSessionEnd := !t.lockAfterSessionEnd);
          m := m.(lockAfterSessionEnd := ToOption(t.lockAfterSessionEnd));
        case TerminalPersistent =>
          t := t.(terminalPersistent := !t.terminalPersistent);
          m := m.(terminalPersistent := ToOption(t.terminalPersistent));
        case PrivacyMode => m := m.(privacyMode := ToOption(!t.privacyMode));
        case EnableFileCopyPaste =>
          t := t.(enableFileCopyPaste := !t.enableFileCopyPaste);
          m := m.(enableFileTransfer := ToOption(t.enableFileCopyPaste));
        case BlockInput => m := m.(blockInput := Yes);
        case UnblockInput => m := m.(blockInput := No);
        case ShowQualityMonitor => t := t.(showQualityMonitor := !t.showQualityMonitor);
        case AllowSwapKey => t := t.(allowSwapKey := !t.allowSwapKey);
        case ViewOnly => t, m := ToggleViewOnly(t);
        case ShowMyCursor =>
          t := t.(showMyCursor := !t.showMyCursor);
          m := m.(showMyCursor := ToOption(t.showMyCursor));
      }
      if known.value != BlockInput && known.value != UnblockInput {
        SaveConfig(c.(toggles := t));
      }
      return Some(m);
    }

    method ToggleStringOption(name: string)
      modifies this`config, this`disk
      ensures State() == ToggleNamed(old(State()), name)
    {
      if name in config.options && config.options[name] != "" {
        config := config.(options := config.options - {name});
      } else {
        config := config.(options := config.options[name := "Y"]);
      }
      disk := disk.Store(id, config);
    }

    /** The branch for view-only; switching it off restores from the configuration in
        memory and hides the cursor. */
    method ToggleViewOnly(c: Toggles) returns (t: Toggles, m: OptionMessage)
      ensures t == NextToggles(ViewOnly, c) && m == ViewOnlyMessage(c, config.toggles)
    {
      t := c.(viewOnly := !c.viewOnly);
      m := BLANK_MESSAGE;
      if t.viewOnly {
        m := m.(disableKeyboard := Yes, disableClipboard := Yes, showRemoteCursor := Yes,
                enableFileTransfer := No, lockAfterSessionEnd := No);
      } else {
        m := m.(disableKeyboard := No, disableClipboard := ToOption(config.toggles.disableClipboard),
                showRemoteCursor := ToOption(config.toggles.showRemoteCursor),
                enableFileTransfer := ToOption(config.toggles.enableFileCopyPaste),
                lockAfterSessionEnd := ToOption(config.toggles.lockAfterSessionEnd));
        if t.showMyCursor {
          t := t.(showMyCursor := false);
          m := m.(showMyCursor := No);
        }
      }
    }

    /** The options a login carries, built field by field. */
    method LoginOptions() returns (msg: Option<OptionMessage>)
      ensures msg == GetOptionMessage(connType, config.toggles)
    {
      var c := config.toggles;
      if connType == PortForward || connType == Rdp || connType == FileTransfer {
        return None;
      }
      var m := BLANK_MESSAGE;
      if connType == Terminal {
        if c.terminalPersistent {
          return Some(m.(terminalPersistent := Yes));
        }
        return None;
      }
      if c.viewOnly {
        m := m.(disableKeyboard := Yes);
      }
      if c.viewOnly || c.showRemoteCursor {
        m := m.(showRemoteCursor := Yes);
      }
      if c.viewOnly && c.showMyCursor {
        m := m.(showMyCursor := Yes);
      }
      if c.followRemoteCursor {
        m := m.(followRemoteCursor := Yes);
      }
      if c.followRemoteWindow {
        m := m.(followRemoteWindow := Yes);
      }
      if !c.viewOnly && c.lockAfterSessionEnd {
        m := m.(lockAfterSessionEnd := Yes);
      }
      if c.disableAudio {
        m := m.(disableAudio := Yes);
      }
      if !c.viewOnly && c.enableFileCopyPaste {
        m := m.(enableFileTransfer := Yes);
      }
      if c.viewOnly || c.disableClipboard {
        m := m.(disableClipboard := Yes);
      }
      return Some(m);
    }
  }
}

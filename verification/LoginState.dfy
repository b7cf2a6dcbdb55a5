/** The state behind `LoginConfigHandler` (rustdesk-master/src/client.rs) and what each
    of its operations does to it, as functions on values. */
module LoginState {
  import opened Wrappers
  import opened Strings

  type Byte = x: int | 0 <= x < 256
  type Bytes = seq<Byte>

  /** SHA-256, uninterpreted. */
  type Digest = Bytes -> Bytes

  // ---- configuration of a peer --------------------------------------------

  datatype Toggles = Toggles(
    showRemoteCursor: bool,
    followRemoteCursor: bool,
    followRemoteWindow: bool,
    disableAudio: bool,
    disableClipboard: bool,
    lockAfterSessionEnd: bool,
    terminalPersistent: bool,
    privacyMode: bool,
    enableFileCopyPaste: bool,
    showQualityMonitor: bool,
    allowSwapKey: bool,
    viewOnly: bool,
    showMyCursor: bool
  )

  datatype Info = Info(username: string, hostname: string, platform: string)

  datatype PeerConfig = PeerConfig(toggles: Toggles, password: Bytes, options: map<string, string>, info: Info)

  /** The user's own defaults. */
  datatype Defaults = Defaults(toggles: Toggles, options: map<string, string>)

  /** What is stored: a configuration for every peer known, and the defaults for the rest. */
  datatype Disk = Disk(peers: map<string, PeerConfig>, defaults: Defaults) {
    function Load(id: string): PeerConfig {
      if id in peers then peers[id] else Default()
    }

    function Store(id: string, c: PeerConfig): Disk {
      this.(peers := peers[id := c])
    }

    /** `PeerConfig::default()`. */
    function Default(): PeerConfig {
      PeerConfig(defaults.toggles, [], defaults.options, Info("", "", ""))
    }
  }

  datatype ConnType = DefaultConn | FileTransfer | PortForward | Rdp | ViewCamera | Terminal

  datatype Hash = Hash(salt: Bytes, challenge: Bytes)

  /** Where the sent password comes from. */
  datatype PasswordSource = PersonalAb(p: Bytes) | SharedAb(text: Bytes) | Undefined {
    predicate IsPersonalAb(password: Bytes) {
      password != [] && PersonalAb? && p == password
    }

    predicate IsSharedAb(password: Bytes, hash: Hash, sha: Digest) {
      password != [] && SharedAb? && password == sha(text + hash.salt)
    }
  }

  datatype ConnToken = ConnToken(password: Bytes, source: PasswordSource, sessionId: nat)

  datatype OtherServer = OtherServer(id: string, server: string, key: string)

  /** The handler's fields that matter here, and what is stored. */
  datatype Login = Login(
    id: string,
    connType: ConnType,
    terminalAdmin: bool,
    hash: Hash,
    password: Bytes,
    remember: bool,
    config: PeerConfig,
    sessionId: nat,
    forceRelay: bool,
    switchUuid: Option<string>,
    switchBackAllowed: bool,
    otherServer: Option<OtherServer>,
    sharedPassword: Option<Bytes>,
    source: PasswordSource,
    disk: Disk
  ) {
    function Load(): PeerConfig {
      disk.Load(id)
    }

    function Save(c: PeerConfig): Login {
      this.(config := c, disk := disk.Store(id, c))
    }

    function GetOption(k: string): string {
      if k in config.options then config.options[k] else ""
    }
  }

  /** `LoginConfigHandler::default()`, over what is already stored. */
  function NewLogin(disk: Disk): Login {
    Login("", DefaultConn, false, Hash([], []), [], false, disk.Default(), 0, false, None, false, None, None,
          Undefined, disk)
  }

  // ---- initialize ---------------------------------------------------------

  const PUBLIC_SERVER := "public"
  const RS_PUB_KEY := "OeVuKk5nlHiXp+APNn0Y3pC1Iwpwn44JGqrQCsWqmBw="

  /** A trailing `\r` or `/r`, written out in two characters. */
  predicate HasRelaySuffix(id: string) {
    EndsWith(id, "\\r") || EndsWith(id, "/r")
  }

  /** Strips one relay suffix. */
  function HandleRelayId(id: string): (r: string)
    ensures r <= id
  {
    if HasRelaySuffix(id) then id[..|id| - 2] else id
  }

  /** The value of the last `key=` argument, in any letter case. */
  function KeyOf(args: seq<string>): string {
    if args == [] then ""
    else
      var arg := args[|args| - 1];
      if Contains(arg, "=") && Lower(arg[..Find(arg, "=")]) == "key" then arg[Find(arg, "=") + 1..]
      else KeyOf(args[..|args| - 1])
  }

  function PieceAt(pieces: seq<string>, i: nat): string {
    if i < |pieces| then pieces[i] else ""
  }

  /** The id under which a peer is stored, the other server, and whether a relay suffix
      was stripped. */
  datatype ParsedId = ParsedId(id: string, other: Option<OtherServer>, relay: bool)

  function ParseId(id: string): ParsedId {
    if Contains(id, "@") then
      var rawId := PieceAt(Split(id, "@"), 0);
      var serverKey := Split(PieceAt(Split(id, "@"), 1), "?");
      var server := PieceAt(serverKey, 0);
      var key := if server == PUBLIC_SERVER then RS_PUB_KEY else KeyOf(Split(PieceAt(serverKey, 1), "&"));
      var realId := HandleRelayId(rawId);
      ParsedId(realId + "@" + server, Some(OtherServer(realId, server, key)), realId != rawId)
    else
      var realId := HandleRelayId(id);
      ParsedId(realId, None, realId != id)
  }

  /** What the surroundings contribute to `initialize`. */
  datatype InitArgs = InitArgs(
    connType: ConnType,
    switchUuid: Option<string>,
    forceRelay: bool,
    useWs: bool,
    isProxy: bool,
    sharedPassword: Option<Bytes>,
    token: Option<ConnToken>,
    random: nat,
    terminalAdmin: bool
  )

  /** First part: which peer it is, and what is stored about it. */
  function Located(s: Login, parsed: ParsedId, connType: ConnType): Login {
    var s1 := s.(id := parsed.id, otherServer := if parsed.other.Some? then parsed.other else s.otherServer,
                 connType := connType);
    s1.(remember := s1.Load().password != [], config := s1.Load())
  }

  /** Second part: the token of an earlier session, or a new session id. */
  function Resumed(s: Login, token: Option<ConnToken>, random: nat): Login {
    var s1 := if token.Some? then s.(password := token.value.password, source := token.value.source) else s;
    var sid := if token.Some? then token.value.sessionId else 0;
    s1.(sessionId := if sid != 0 then sid else if random != 0 then random else 1)
  }

  /** Third part: relay mode and the other server's key, from the arguments and the
      options stored. */
  function Restored(s: Login, relay: bool): Login {
    var stored := s.GetOption("other-server-key");
    s.(forceRelay := s.GetOption("force-always-relay") == "Y" || relay,
       otherServer := if s.otherServer.Some? && stored != "" && s.otherServer.value.key == ""
                      then Some(s.otherServer.value.(key := stored)) else s.otherServer)
  }

  /** Fourth part: what this session alone is told. */
  function Told(s: Login, args: InitArgs): Login {
    s.(switchBackAllowed := false, switchUuid := args.switchUuid, sharedPassword := args.sharedPassword,
       terminalAdmin := s.connType == Terminal && args.terminalAdmin)
  }

  function Initialize(s: Login, id: string, args: InitArgs): Login {
    var parsed := ParseId(id);
    var s1 := Resumed(Located(s, parsed, args.connType), args.token, args.random);
    Told(Restored(s1, args.forceRelay || parsed.relay || args.useWs || args.isProxy), args)
  }

  /** The facts `initialize` leaves behind: the configuration in memory is the one
      loaded, and a token brings its password with its source. */
  lemma InitializeFacts(s: Login, id: string, args: InitArgs)
    ensures var t := Initialize(s, id, args);
            && t.id == ParseId(id).id && t.disk == s.disk && t.config == t.Load()
            && t.password == (if args.token.Some? then args.token.value.password else s.password)
            && t.source == (if args.token.Some? then args.token.value.source else s.source)
  {
  }

  // ---- passwords ----------------------------------------------------------

  datatype AbPeer = AbPeer(id: string, hash: Option<Bytes>)
  datatype AbEntry = AbEntry(personal: bool, peers: seq<AbPeer>)

  /** The cached address book; a peer's hash is `None` when it is not base64. */
  datatype AddressBook = AddressBook(accessToken: string, entries: seq<AbEntry>)

  function FindPeer(peers: seq<AbPeer>, id: string): Option<AbPeer> {
    if peers == [] then None else if peers[0].id == id then Some(peers[0]) else FindPeer(peers[1..], id)
  }

  function FindPersonal(entries: seq<AbEntry>): Option<AbEntry> {
    if entries == [] then None else if entries[0].personal then Some(entries[0]) else FindPersonal(entries[1..])
  }

  /** The password the personal address book holds for a peer, or nothing. */
  function PersonalAbPassword(accessToken: string, ab: AddressBook, id: string): Bytes {
    if accessToken == "" || accessToken != ab.accessToken then []
    else
      match FindPersonal(ab.entries)
      case None => []
      case Some(entry) =>
        match FindPeer(entry.peers, id)
        case None => []
        case Some(peer) => if peer.hash.Some? then peer.hash.value else []
  }

  /** What `handle_hash` is given besides the state; `trusted` says that the pending switch
      of sides has a well-formed uuid that the local process confirms. */
  datatype HashArgs =
    HashArgs(preset: Bytes, hash: Hash, accessToken: string, ab: AddressBook, builtin: Bytes, trusted: bool)

  /** A password under consideration and its source. */
  datatype Choice = Choice(password: Bytes, source: PasswordSource)

  function PresetOr(c: Choice, preset: Bytes, salt: Bytes, sha: Digest): Choice {
    if c.password == [] && preset != [] then Choice(sha(preset + salt), Undefined) else c
  }

  /** A shared password goes before one already found. */
  function SharedOr(c: Choice, shared: Option<Bytes>, salt: Bytes, sha: Digest): Choice {
    if shared.Some? && shared.value != [] then Choice(sha(shared.value + salt), SharedAb(shared.value)) else c
  }

  function StoredOr(c: Choice, stored: Bytes): Choice {
    if c.password == [] && stored != [] then Choice(stored, Undefined) else c
  }

  function PersonalOr(c: Choice, ab: Bytes): Choice {
    if c.password == [] && ab != [] then Choice(ab, PersonalAb(ab)) else c
  }

  /** The built-in default reuses the shared source. */
  function BuiltinOr(c: Choice, builtin: Bytes, salt: Bytes, sha: Digest): Choice {
    if c.password == [] && builtin != [] then Choice(sha(builtin + salt), SharedAb(builtin)) else c
  }

  /** The order of application: last, preset, shared, stored, personal, built-in. */
  function Choose(s: Login, args: HashArgs, sha: Digest): Choice {
    var c1 := PresetOr(Choice(s.password, s.source), args.preset, args.hash.salt, sha);
    var c2 := SharedOr(c1, s.sharedPassword, args.hash.salt, sha);
    var c3 := StoredOr(c2, s.config.password);
    var c4 := PersonalOr(c3, PersonalAbPassword(args.accessToken, args.ab, s.id));
    BuiltinOr(c4, args.builtin, args.hash.salt, sha)
  }

  function WithChoice(s: Login, c: Choice): Login {
    s.(sharedPassword := None, password := c.password, source := c.source)
  }

  /** A confirmed switch of sides logs in without a password. */
  predicate SwitchesSides(s: Login, args: HashArgs) {
    s.switchUuid.Some? && args.trusted
  }

  /** The shortcut for a switch resets the source and leaves the password. */
  function HandleHash(s: Login, args: HashArgs, sha: Digest): Login {
    var s1 := s.(hash := args.hash, switchUuid := None);
    if SwitchesSides(s, args) then s1.(switchBackAllowed := true, source := Undefined)
    else WithChoice(s1, Choose(s1, args, sha))
  }

  /** What is sent at once: nothing while an administrator's terminal password is asked
      for, otherwise a login with the challenge answered, or with an empty password; or
      the answer to a switch of sides. */
  datatype LoginSent = NotYet | Sent(answer: Bytes) | Switched(uuid: string)

  function LoginFor(s: Login, sha: Digest): LoginSent {
    if s.connType == Terminal && s.terminalAdmin then NotYet
    else if s.password == [] then Sent([])
    else Sent(sha(s.password + s.hash.challenge))
  }

  datatype LoginError = PasswordEmpty | PasswordWrong | TwoFactor | Listed(tryAgain: bool) | Fatal

  /** `set_option`: skipped when the value in memory is already the wanted one. */
  function SetOption(s: Login, k: string, v: string): Login {
    if v == s.GetOption(k) then s
    else s.Save(s.Load().(options := s.Load().options[k := v]))
  }

  function HandleLoginError(s: Login, err: LoginError): Login {
    match err
    case PasswordEmpty => s.(password := [])
    case PasswordWrong => s.(password := [])
    case TwoFactor => if s.GetOption("trust-this-device") == "Y" then SetOption(s, "trust-this-device", "") else s
    case _ => s
  }

  function HandleLoginFromUi(s: Login, text: Bytes, remember: bool, sha: Digest): Login {
    if text != [] then
      s.(source := Undefined, remember := remember, password := sha(text + s.hash.salt))
    else if s.password != [] then s
    else s.(password := s.config.password, source := if s.config.password != [] then Undefined else s.source)
  }

  /** The password `handle_peer_info` leaves in the stored configuration. */
  function StoredPassword(s: Login, before: Bytes, sha: Digest): Bytes {
    if s.remember then
      if s.password != [] && s.password != before && !s.source.IsSharedAb(s.password, s.hash, sha) then s.password else before
    else if s.source.IsPersonalAb(s.password) then s.password
    else []
  }

  function HandlePeerInfo(s: Login, info: Info, sha: Digest): Login {
    var c := s.Load();
    var c1 := c.(info := info, password := StoredPassword(s, c.password, sha));
    var c2 := if s.otherServer.Some? && s.otherServer.value.server != PUBLIC_SERVER
              then c1.(options := c1.options["other-server-key" := s.otherServer.value.key]) else c1;
    var c3 := if s.forceRelay then c2.(options := c2.options["force-always-relay" := "Y"]) else c2;
    s.Save(c3)
  }

  /** The password offered to the personal address book afterwards, if any. */
  function SyncedPassword(s: Login, stored: Bytes, sha: Digest): Option<Bytes> {
    if stored != [] && !s.source.IsSharedAb(s.password, s.hash, sha) && !s.source.IsPersonalAb(s.password)
    then Some(stored) else None
  }

  function GetConnToken(s: Login): Option<ConnToken> {
    if s.password == [] then None else Some(ConnToken(s.password, s.source, s.sessionId))
  }

  // ---- toggles ------------------------------------------------------------

  datatype BoolOption = NotSet | No | Yes

  function ToOption(b: bool): BoolOption {
    if b then Yes else No
  }

  datatype OptionMessage = OptionMessage(
    lockAfterSessionEnd: BoolOption,
    showRemoteCursor: BoolOption,
    privacyMode: BoolOption,
    blockInput: BoolOption,
    disableAudio: BoolOption,
    disableClipboard: BoolOption,
    enableFileTransfer: BoolOption,
    disableKeyboard: BoolOption,
    followRemoteCursor: BoolOption,
    followRemoteWindow: BoolOption,
    terminalPersistent: BoolOption,
    showMyCursor: BoolOption
  )

  const BLANK_MESSAGE :=
    OptionMessage(NotSet, NotSet, NotSet, NotSet, NotSet, NotSet, NotSet, NotSet, NotSet, NotSet, NotSet, NotSet)

  /** The changed configuration (if it is to be saved) and the message to send. */
  datatype Flip = Flip(toggles: Toggles, message: OptionMessage, saved: bool)

  /** The options `toggle_option` knows by name. */
  datatype Toggle =
    | ShowRemoteCursor | FollowRemoteCursor | FollowRemoteWindow | DisableAudio | DisableClipboard
    | LockAfterSessionEnd | TerminalPersistent | PrivacyMode | EnableFileCopyPaste | BlockInput | UnblockInput
    | ShowQualityMonitor | AllowSwapKey | ViewOnly | ShowMyCursor

  function Known(name: string): Option<Toggle> {
    if name == "show-remote-cursor" then Some(ShowRemoteCursor)
    else if name == "follow-remote-cursor" then Some(FollowRemoteCursor)
    else if name == "follow-remote-window" then Some(FollowRemoteWindow)
    else if name == "disable-audio" then Some(DisableAudio)
    else if name == "disable-clipboard" then Some(DisableClipboard)
    else if name == "lock-after-session-end" then Some(LockAfterSessionEnd)
    else if name == "terminal-persistent" then Some(TerminalPersistent)
    else if name == "privacy-mode" then Some(PrivacyMode)
    else if name == "enable-file-copy-paste" then Some(EnableFileCopyPaste)
    else if name == "block-input" then Some(BlockInput)
    else if name == "unblock-input" then Some(UnblockInput)
    else if name == "show-quality-monitor" then Some(ShowQualityMonitor)
    else if name == "allow_swap_key" then Some(AllowSwapKey)
    else if name == "view-only" then Some(ViewOnly)
    else if name == "show-my-cursor" then Some(ShowMyCursor)
    else None
  }

  /** What `toggle_option` stores for a known option. */
  function NextToggles(t: Toggle, c: Toggles): Toggles {
    match t
    case ShowRemoteCursor => c.(showRemoteCursor := !c.showRemoteCursor)
    case FollowRemoteCursor => c.(followRemoteCursor := !c.followRemoteCursor)
    case FollowRemoteWindow => c.(followRemoteWindow := !c.followRemoteWindow)
    case DisableAudio => c.(disableAudio := !c.disableAudio)
    case DisableClipboard => c.(disableClipboard := !c.disableClipboard)
    case LockAfterSessionEnd => c.(lockAfterSessionEnd := !c.lockAfterSessionEnd)
    case TerminalPersistent => c.(terminalPersistent := !c.terminalPersistent)
    case EnableFileCopyPaste => c.(enableFileCopyPaste := !c.enableFileCopyPaste)
    case ShowQualityMonitor => c.(showQualityMonitor := !c.showQualityMonitor)
    case AllowSwapKey => c.(allowSwapKey := !c.allowSwapKey)
    case ViewOnly => c.(viewOnly := !c.viewOnly, showMyCursor := !c.viewOnly && c.showMyCursor)
    case ShowMyCursor => c.(showMyCursor := !c.showMyCursor)
    case _ => c
  }

  /** What it sends; `c` is the configuration loaded from disk, and `mem` the one in memory,
      which the view-only branch reads instead. */
  function MessageFor(t: Toggle, c: Toggles, mem: Toggles): OptionMessage {
    var m := BLANK_MESSAGE;
    match t
    case ShowRemoteCursor => m.(showRemoteCursor := ToOption(!c.showRemoteCursor))
    case FollowRemoteCursor => m.(followRemoteCursor := ToOption(!c.followRemoteCursor))
    case FollowRemoteWindow => m.(followRemoteWindow := ToOption(!c.followRemoteWindow))
    case DisableAudio => m.(disableAudio := ToOption(!c.disableAudio))
    case DisableClipboard => m.(disableClipboard := ToOption(!c.disableClipboard))
    case LockAfterSessionEnd => m.(lockAfterSessionEnd := ToOption(!c.lockAfterSessionEnd))
    case TerminalPersistent => m.(terminalPersistent := ToOption(!c.terminalPersistent))
    case PrivacyMode => m.(privacyMode := ToOption(!c.privacyMode))
    case EnableFileCopyPaste => m.(enableFileTransfer := ToOption(!c.enableFileCopyPaste))
    case BlockInput => m.(blockInput := Yes)
    case UnblockInput => m.(blockInput := No)
    case ViewOnly => ViewOnlyMessage(c, mem)
    case ShowMyCursor => m.(showMyCursor := ToOption(!c.showMyCursor))
    case _ => m
  }

  function ViewOnlyMessage(c: Toggles, mem: Toggles): OptionMessage {
    if !c.viewOnly then
      BLANK_MESSAGE.(disableKeyboard := Yes, disableClipboard := Yes, showRemoteCursor := Yes,
                     enableFileTransfer := No, lockAfterSessionEnd := No)
    else
      BLANK_MESSAGE.(disableKeyboard := No, disableClipboard := ToOption(mem.disableClipboard),
                     showRemoteCursor := ToOption(mem.showRemoteCursor),
                     enableFileTransfer := ToOption(mem.enableFileCopyPaste),
                     lockAfterSessionEnd := ToOption(mem.lockAfterSessionEnd),
                     showMyCursor := if c.showMyCursor then No else NotSet)
  }

  function FlipKnown(t: Toggle, c: Toggles, mem: Toggles): Flip {
    Flip(NextToggles(t, c), MessageFor(t, c, mem), !t.BlockInput? && !t.UnblockInput?)
  }

  /** A name it does not know is a string option, set to "Y" or removed. */
  function FlipNamed(options: map<string, string>, name: string): map<string, string> {
    if name in options && options[name] != "" then options - {name} else options[name := "Y"]
  }

  function ToggleNamed(s: Login, name: string): Login {
    s.Save(s.config.(options := FlipNamed(s.config.options, name)))
  }

  function ToggleKnown(s: Login, t: Toggle): Login {
    var f := FlipKnown(t, s.Load().toggles, s.config.toggles);
    if f.saved then s.Save(s.Load().(toggles := f.toggles)) else s
  }

  function MessageKnown(s: Login, t: Toggle): OptionMessage {
    FlipKnown(t, s.Load().toggles, s.config.toggles).message
  }

  function ToggleOption(s: Login, name: string): Login {
    match Known(name)
    case None => ToggleNamed(s, name)
    case Some(t) => ToggleKnown(s, t)
  }

  function ToggleMessage(s: Login, name: string): Option<OptionMessage> {
    match Known(name)
    case None => None
    case Some(t) => Some(MessageKnown(s, t))
  }

  /** `get_toggle_option`. */
  function GetToggle(s: Login, name: string): bool {
    var c := s.config.toggles;
    if name == "show-remote-cursor" then c.showRemoteCursor
    else if name == "lock-after-session-end" then c.lockAfterSessionEnd
    else if name == "terminal-persistent" then c.terminalPersistent
    else if name == "privacy-mode" then c.privacyMode
    else if name == "enable-file-copy-paste" then c.enableFileCopyPaste
    else if name == "disable-audio" then c.disableAudio
    else if name == "disable-clipboard" then c.disableClipboard
    else if name == "show-quality-monitor" then c.showQualityMonitor
    else if name == "allow_swap_key" then c.allowSwapKey
    else if name == "view-only" then c.viewOnly
    else if name == "show-my-cursor" then c.showMyCursor
    else if name == "follow-remote-cursor" then c.followRemoteCursor
    else if name == "follow-remote-window" then c.followRemoteWindow
    else s.GetOption(name) != ""
  }

  function IfYes(b: bool): BoolOption {
    if b then Yes else NotSet
  }

  /** The options a login carries, without image quality and supported decodings. */
  function GetOptionMessage(connType: ConnType, c: Toggles): Option<OptionMessage> {
    match connType
    case FileTransfer => None
    case PortForward => None
    case Rdp => None
    case Terminal => if c.terminalPersistent then Some(BLANK_MESSAGE.(terminalPersistent := Yes)) else None
    case _ =>
      Some(BLANK_MESSAGE.(
             disableKeyboard := IfYes(c.viewOnly),
             showRemoteCursor := IfYes(c.viewOnly || c.showRemoteCursor),
             showMyCursor := IfYes(c.viewOnly && c.showMyCursor),
             followRemoteCursor := IfYes(c.followRemoteCursor),
             followRemoteWindow := IfYes(c.followRemoteWindow),
             lockAfterSessionEnd := IfYes(!c.viewOnly && c.lockAfterSessionEnd),
             disableAudio := IfYes(c.disableAudio),
             enableFileTransfer := IfYes(!c.viewOnly && c.enableFileCopyPaste),
             disableClipboard := IfYes(c.viewOnly || c.disableClipboard)))
  }
}

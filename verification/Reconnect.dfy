/** Restoring a connection to another server from what was stored about it: initialize
    with `id@server?key=K`, handle peer info, and initialize again with the stored id. */
module Reconnect {
  import opened Wrappers
  import opened Strings
  import opened LoginState

  predicate Without(s: string, c: char) {
    forall i :: 0 <= i < |s| ==> s[i] != c
  }

  lemma SeparatorClear(a: string, b: string, c: char)
    requires Without(a, c)
    ensures Clear(a, b, [c])
  {
    forall i | 0 <= i < |a| ensures !([c] <= (a + b)[i..]) {
      Mismatch(a + b, [c], i, 0);
    }
  }

  lemma SplitAlone(s: string, c: char)
    requires Without(s, c)
    ensures Split(s, [c]) == [s]
  {
    SeparatorClear(s, "", c);
    SplitClear(s, "", [c]);
    assert s + "" == s;
    assert Split("", [c]) == [""];
  }

  lemma SplitOnce(a: string, b: string, c: char)
    requires Without(a, c)
    ensures Split(a + [c] + b, [c]) == [a] + Split(b, [c])
  {
    SeparatorClear(a, [c] + b, c);
    SplitStep(a, b, [c]);
  }

  lemma {:induction false} PiecesWithout(s: string, c: char)
    ensures forall i :: 0 <= i < |Split(s, [c])| ==> Without(Split(s, [c])[i], c)
    decreases |s|
  {
    if s != "" {
      PiecesWithout(s[1..], c);
      assert [c] <= s <==> s[0] == c;
    }
  }

  lemma {:induction false} SplitHasTwo(s: string, c: char)
    requires Contains(s, [c])
    ensures |Split(s, [c])| >= 2
    decreases |s|
  {
    if !([c] <= s) {
      SplitHasTwo(s[1..], c);
    }
  }

  lemma AtContained(a: string, b: string)
    ensures Contains(a + "@" + b, "@")
  {
    assert (a + "@" + b)[|a|..] == "@" + b;
    ContainsAt(a + "@" + b, "@", |a|);
  }

  lemma NoArguments()
    ensures KeyOf(Split("", "&")) == ""
  {
    assert Split("", "&") == [""];
    assert !Contains("", "=");
    assert [""][..0] == [];
    assert KeyOf([""]) == KeyOf([]);
  }

  /** How a stored id parses: the key is known for the public server only. */
  lemma StoredIdParses(bare: string, server: string)
    requires Without(bare, '@') && Without(server, '@') && Without(server, '?')
    ensures ParseId(bare + "@" + server) ==
            ParsedId(HandleRelayId(bare) + "@" + server,
                     Some(OtherServer(HandleRelayId(bare), server, if server == PUBLIC_SERVER then RS_PUB_KEY else "")),
                     HandleRelayId(bare) != bare)
  {
    AtContained(bare, server);
    SplitOnce(bare, server, '@');
    SplitAlone(server, '@');
    SplitAlone(server, '?');
    NoArguments();
  }

  /** What stands in front of the first `@`. */
  function RawId(id: string): string {
    Split(id, "@")[0]
  }

  /** What stands between the first `@` and a `?` or another `@`. */
  function ServerOf(id: string): string {
    Split(PieceAt(Split(id, "@"), 1), "?")[0]
  }

  lemma FirstPieceWithout(s: string, p: char, c: char)
    requires Without(s, c)
    ensures Without(Split(s, [p])[0], c)
  {
    FirstPieceInFront(s, [p]);
    var piece := Split(s, [p])[0];
    assert forall i :: 0 <= i < |piece| ==> piece[i] == s[i];
  }

  lemma PartsClean(id: string)
    requires Contains(id, "@")
    ensures Without(RawId(id), '@') && Without(ServerOf(id), '@') && Without(ServerOf(id), '?')
  {
    PiecesWithout(id, '@');
    SplitHasTwo(id, '@');
    var second := Split(id, "@")[1];
    assert Without(RawId(id), '@') && Without(second, '@');
    PiecesWithout(second, '?');
    FirstPieceWithout(second, '?', '@');
  }

  lemma ParsedParts(id: string)
    requires Contains(id, "@")
    ensures var o := ParseId(id).other;
            && o.Some? && o.value.id == HandleRelayId(RawId(id)) && o.value.server == ServerOf(id)
            && ParseId(id).id == o.value.id + "@" + o.value.server
            && (o.value.server == PUBLIC_SERVER ==> o.value.key == RS_PUB_KEY)
  {
  }

  // ---- the three calls ----------------------------------------------------

  lemma InitializeFields(s: Login, id: string, args: InitArgs)
    requires Contains(id, "@")
    ensures var parsed := ParseId(id);
            var t := Initialize(s, id, args);
            var stored := t.GetOption("other-server-key");
            && t.id == parsed.id && t.disk == s.disk && t.config == t.Load() && parsed.other.Some?
            && t.otherServer == Some(if parsed.other.value.key == "" && stored != ""
                                     then parsed.other.value.(key := stored) else parsed.other.value)
            && t.forceRelay == (t.GetOption("force-always-relay") == "Y" || args.forceRelay || parsed.relay
                                || args.useWs || args.isProxy)
  {
    ParsedParts(id);
    var parsed := ParseId(id);
    LocatedFields(s, parsed, args.connType);
    ResumedFields(Located(s, parsed, args.connType), args.token, args.random);
  }

  lemma LocatedFields(s: Login, parsed: ParsedId, connType: ConnType)
    requires parsed.other.Some?
    ensures var t := Located(s, parsed, connType);
            t.id == parsed.id && t.disk == s.disk && t.config == t.Load() && t.otherServer == parsed.other
  {
  }

  lemma ResumedFields(s: Login, token: Option<ConnToken>, random: nat)
    ensures var t := Resumed(s, token, random);
            t.id == s.id && t.disk == s.disk && t.config == s.config && t.otherServer == s.otherServer
  {
  }

  lemma PeerInfoFields(s: Login, info: Info, sha: Digest)
    requires s.otherServer.Some?
    ensures var c := HandlePeerInfo(s, info, sha).disk.peers;
            && s.id in c
            && (s.otherServer.value.server != PUBLIC_SERVER ==>
                  "other-server-key" in c[s.id].options && c[s.id].options["other-server-key"] == s.otherServer.value.key)
            && (s.forceRelay ==> "force-always-relay" in c[s.id].options && c[s.id].options["force-always-relay"] == "Y")
  {
  }

  /** What the first call leaves, in terms of the id as typed. */
  ghost predicate OpenedAs(first: Login, id: string) {
    && first.otherServer.Some?
    && var o := first.otherServer.value;
       && o.id == HandleRelayId(RawId(id)) && o.server == ServerOf(id) && first.id == o.id + "@" + o.server
       && (o.server == PUBLIC_SERVER ==> o.key == RS_PUB_KEY)
  }

  lemma FirstCall(s: Login, id: string, args: InitArgs)
    requires Contains(id, "@")
    ensures OpenedAs(Initialize(s, id, args), id)
  {
    ParsedParts(id);
    InitializeFields(s, id, args);
  }

  /** For every id with an `@`, well formed or not: initialising again from what peer info
      stored, on the same handler or a new one, gives the same stored id and the same id,
      server and key, exactly when the id as typed has no second relay suffix in front of
      the `@`; and forced relay mode is kept in any case. */
  lemma ReconnectRestores(s: Login, id: string, args: InitArgs, info: Info, sha: Digest, again: Login, args2: InitArgs)
    requires Contains(id, "@")
    requires again.disk == HandlePeerInfo(Initialize(s, id, args), info, sha).disk
    ensures var first := Initialize(s, id, args);
            var second := Initialize(again, first.id, args2);
            && first.otherServer.Some?
            && (second.id == first.id && second.otherServer == first.otherServer
                <==> !HasRelaySuffix(HandleRelayId(RawId(id))))
            && (first.forceRelay ==> second.forceRelay)
  {
    FirstCall(s, id, args);
    SecondCall(Initialize(s, id, args), id, info, sha, again, args2);
  }

  lemma SecondCall(first: Login, id: string, info: Info, sha: Digest, again: Login, args: InitArgs)
    requires Contains(id, "@") && OpenedAs(first, id) && again.disk == HandlePeerInfo(first, info, sha).disk
    ensures var second := Initialize(again, first.id, args);
            && (second.id == first.id && second.otherServer == first.otherServer
                <==> !HasRelaySuffix(HandleRelayId(RawId(id))))
            && (first.forceRelay ==> second.forceRelay)
  {
    var o := first.otherServer.value;
    PartsClean(id);
    PeerInfoFields(first, info, sha);
    StoredIdParses(o.id, o.server);
    AtContained(o.id, o.server);
    Again(first, again, args);
  }

  /** The two relay suffixes, and nothing else, are stripped, once. */
  lemma RelaySuffixes(id: string)
    ensures HandleRelayId(id + "/r") == id && HandleRelayId(id + "\\r") == id
    ensures HandleRelayId(id) != id ==> id == HandleRelayId(id) + "/r" || id == HandleRelayId(id) + "\\r"
  {
    assert (id + "/r")[|id|..] == "/r" && (id + "\\r")[|id|..] == "\\r";
    if HasRelaySuffix(id) {
      assert id == id[..|id| - 2] + id[|id| - 2..];
    }
  }

  /** Of several arguments the last one named `key`, in any letter case, counts. */
  lemma LastKeyCounts(args: seq<string>, name: string, value: string)
    requires Without(name, '=')
    ensures KeyOf(args + [name + "=" + value]) == if Lower(name) == "key" then value else KeyOf(args)
  {
    var arg := name + "=" + value;
    assert (args + [arg])[..|args|] == args;
    assert arg == name + ("=" + value);
    SeparatorClear(name, "=" + value, '=');
    FindClear(name, "=" + value, "=");
    assert "=" <= "=" + value;
    assert Find("=" + value, "=") == 0;
    assert arg[..|name|] == name && arg[|name| + 1..] == value;
  }

  // ---- ids without a server -----------------------------------------------

  lemma DirectIdParses(id: string)
    requires !Contains(id, "@")
    ensures ParseId(id) == ParsedId(HandleRelayId(id), None, HasRelaySuffix(id))
  {
  }

  lemma DirectFields(s: Login, id: string, args: InitArgs)
    requires !Contains(id, "@")
    ensures var t := Initialize(s, id, args);
            && t.id == HandleRelayId(id) && t.disk == s.disk && t.config == t.Load()
            && t.forceRelay == (t.GetOption("force-always-relay") == "Y" || args.forceRelay || HasRelaySuffix(id)
                                || args.useWs || args.isProxy)
            && (s.otherServer.None? ==> t.otherServer.None?)
            && (s.otherServer.Some? ==>
                  && t.otherServer.Some? && t.otherServer.value.id == s.otherServer.value.id
                  && t.otherServer.value.server == s.otherServer.value.server)
  {
    DirectIdParses(id);
    var s1 := Located(s, ParseId(id), args.connType);
    ResumedFields(s1, args.token, args.random);
  }

  /** For every id without an `@`, on new handlers: the stored id is found again exactly when
      the id as typed had no second relay suffix, relay mode is kept, and no other server
      comes up. */
  lemma DirectReconnects(disk: Disk, id: string, args: InitArgs, info: Info, sha: Digest, args2: InitArgs)
    requires !Contains(id, "@")
    ensures var first := Initialize(NewLogin(disk), id, args);
            var second := Initialize(NewLogin(HandlePeerInfo(first, info, sha).disk), first.id, args2);
            && (second.id == first.id <==> !HasRelaySuffix(HandleRelayId(id)))
            && (second.id == first.id && first.forceRelay ==> second.forceRelay)
            && first.otherServer.None? && second.otherServer.None?
  {
    var first := Initialize(NewLogin(disk), id, args);
    DirectFields(NewLogin(disk), id, args);
    if Contains(HandleRelayId(id), "@") {
      ContainsPrefix(HandleRelayId(id), id, "@");
    }
    DirectAgain(first, HandlePeerInfo(first, info, sha).disk, info, sha, args2);
  }

  lemma DirectAgain(first: Login, disk: Disk, info: Info, sha: Digest, args: InitArgs)
    requires !Contains(first.id, "@") && disk == HandlePeerInfo(first, info, sha).disk
    ensures var second := Initialize(NewLogin(disk), first.id, args);
            && second.id == HandleRelayId(first.id) && second.otherServer.None?
            && (second.id == first.id && first.forceRelay ==> second.forceRelay)
  {
    DirectFields(NewLogin(disk), first.id, args);
  }

  lemma OneSuffixOff(s: Login, raw: string, server: string, args: InitArgs)
    requires Without(raw, '@') && Without(server, '@') && Without(server, '?')
    ensures Initialize(s, raw + "@" + server, args).id == HandleRelayId(raw) + "@" + server
  {
    StoredIdParses(raw, server);
    AtContained(raw, server);
    InitializeFields(s, raw + "@" + server, args);
  }

  /** Two suffixes: the connection stored under `7/r@host` is looked for under `7@host`. */
  lemma SecondSuffixLosesStored(s: Login, server: string, args: InitArgs, again: Login, args2: InitArgs)
    requires Without(server, '@') && Without(server, '?')
    ensures var first := Initialize(s, "7/r/r" + "@" + server, args);
            first.id == "7/r" + "@" + server && Initialize(again, first.id, args2).id == "7" + "@" + server
  {
    TwoSuffixes();
    OneSuffixOff(s, "7/r/r", server, args);
    OneSuffixOff(again, "7/r", server, args2);
  }

  lemma TwoSuffixes()
    ensures HandleRelayId("7/r/r") == "7/r" && HandleRelayId("7/r") == "7"
    ensures Without("7/r/r", '@') && Without("7/r", '@')
  {
    assert "7/r/r"[3..] == "/r" && "7/r"[1..] == "/r";
    assert "7/r/r"[..3] == "7/r" && "7/r"[..1] == "7";
  }

  lemma Again(first: Login, again: Login, args: InitArgs)
    requires first.otherServer.Some?
    requires var o := first.otherServer.value;
             && first.id == o.id + "@" + o.server && first.id in again.disk.peers && Contains(first.id, "@")
             && ParseId(first.id) == ParsedId(HandleRelayId(o.id) + "@" + o.server,
                  Some(OtherServer(HandleRelayId(o.id), o.server, if o.server == PUBLIC_SERVER then RS_PUB_KEY else "")),
                  HandleRelayId(o.id) != o.id)
             && (o.server == PUBLIC_SERVER ==> o.key == RS_PUB_KEY)
             && (o.server != PUBLIC_SERVER ==>
                   "other-server-key" in again.disk.peers[first.id].options
                   && again.disk.peers[first.id].options["other-server-key"] == o.key)
             && (first.forceRelay ==>
                   "force-always-relay" in again.disk.peers[first.id].options
                   && again.disk.peers[first.id].options["force-always-relay"] == "Y")
    ensures var o := first.otherServer.value;
            var second := Initialize(again, first.id, args);
            && (second.id == first.id && second.otherServer == first.otherServer <==> HandleRelayId(o.id) == o.id)
            && (first.forceRelay ==> second.forceRelay)
  {
    InitializeFields(again, first.id, args);
    var o := first.otherServer.value;
    if HandleRelayId(o.id) == o.id {
      assert Initialize(again, first.id, args).id == first.id;
    }
  }

  /** A well-formed `id@server?key=K` means what it says, K possibly ending in `=` signs. */
  lemma TypedIdParses(raw: string, server: string, key: string)
    requires Without(raw, '@') && Without(server, '@') && Without(server, '?') && server != PUBLIC_SERVER
    requires Without(key, '@') && Without(key, '?') && Without(key, '&')
    ensures ParseId(raw + "@" + (server + "?" + ("key=" + key))).other == Some(OtherServer(HandleRelayId(raw), server, key))
  {
    KeyArgument(key);
    ArgumentParses(raw, server, "key=" + key, key);
  }

  lemma TypedPieces(raw: string, server: string, arg: string)
    requires Without(raw, '@') && Without(server, '@') && Without(server, '?')
    requires Without(arg, '@') && Without(arg, '?') && Without(arg, '&')
    ensures var second := server + "?" + arg;
            && Split(raw + "@" + second, "@") == [raw, second] && Split(second, "?") == [server, arg]
            && Split(arg, "&") == [arg]
  {
    var second := server + "?" + arg;
    SplitOnce(raw, second, '@');
    SplitAlone(second, '@');
    SplitOnce(server, arg, '?');
    SplitAlone(arg, '?');
    SplitAlone(arg, '&');
  }

  lemma ArgumentParses(raw: string, server: string, arg: string, key: string)
    requires Without(raw, '@') && Without(server, '@') && Without(server, '?') && server != PUBLIC_SERVER
    requires Without(arg, '@') && Without(arg, '?') && Without(arg, '&') && KeyOf([arg]) == key
    ensures ParseId(raw + "@" + (server + "?" + arg)).other == Some(OtherServer(HandleRelayId(raw), server, key))
  {
    var second := server + "?" + arg;
    AtContained(raw, second);
    TypedPieces(raw, server, arg);
    PiecesParse(raw + "@" + second, raw, second, server, arg);
  }

  lemma PiecesParse(id: string, raw: string, second: string, server: string, arg: string)
    requires Contains(id, "@") && Split(id, "@") == [raw, second] && Split(second, "?") == [server, arg]
    requires Split(arg, "&") == [arg] && server != PUBLIC_SERVER
    ensures ParseId(id).other == Some(OtherServer(HandleRelayId(raw), server, KeyOf([arg])))
  {
  }

  lemma KeyArgument(key: string)
    ensures KeyOf(["key=" + key]) == key
  {
    var arg := "key=" + key;
    assert Without("key", '=');
    SeparatorClear("key", "=" + key, '=');
    assert "key" + ("=" + key) == arg;
    assert "=" <= "=" + key;
    FindClear("key", "=" + key, "=");
    assert Find("=" + key, "=") == 0;
    assert arg[..3] == "key" && arg[4..] == key;
    assert Lower("key") == "key";
  }
}

/**
 * The server's built-in `/limbo`-style subcommands and their tab completion.
 *
 * `execute` dispatches on its first argument, ignoring case, with a permission check
 * per subcommand and an arity check per usage. Its effects on the world (teleports,
 * kicks, game-mode changes, stopping the server, reloads) and the messages it sends
 * are returned as a list of effects, in the order the source performs them. A message
 * is its key in the messages file with its arguments, or, for the chat broadcast of
 * `say`, the text itself.
 *
 * The server instance is an input: its online players in order, its player lookup by
 * name, `GameMode.fromId`/`fromName` (None where they throw), the version strings and
 * the legacy text serializer's round trip of a kick reason.
 */
module DefaultCommands {
  import opened Wrappers
  import opened Text
  import DataTypeIO

  datatype GameMode = GameMode(id: int, name: string)

  datatype Player = Player(name: string)

  datatype SenderKind = ConsoleSender | PlayerSender

  /** Who runs the command: the console or a player, with the permissions it holds. */
  datatype Sender = Sender(kind: SenderKind, name: string, permissions: set<string>) {
    predicate HasPermission(p: string) {
      p in permissions
    }

    /** The sender as a player, when it is one. */
    function AsPlayer(): Option<Player> {
      if kind == PlayerSender then Some(Player(name)) else None
    }
  }

  /** What `execute` and `tabComplete` consult of the running server. */
  datatype Server = Server(
    players: seq<Player>,
    getPlayer: string -> Option<Player>,
    fromId: int -> Option<GameMode>,
    fromName: string -> Option<GameMode>,
    limboVersion: string,
    serverVersion: string,
    legacyRoundTrip: string -> string)

  datatype Message =
    | Keyed(key: string, args: seq<string>)
    | Plain(text: string)

  datatype Target = ToSender | ToConsole | ToPlayer(player: Player)

  datatype KickReason = DefaultKickReason | CustomReason(raw: string)

  datatype Effect =
    | Send(to: Target, message: Message)
    | Teleport(player: Player)               // to the world spawn
    | Disconnect(player: Player, reason: KickReason)
    | StopServer
    | SetGamemode(player: Player, mode: GameMode)
    | ReloadWhitelist
    | ReloadMessages

  /** A message from the messages file sent back to the sender. */
  function Reply(key: string, args: seq<string>): Effect {
    Send(ToSender, Keyed(key, args))
  }

  function Permission(subcommand: string): string {
    "limboserver." + subcommand
  }

  const NO_PERMISSION: Effect := Reply("no-permission", [])
  const INVALID_USAGE: Effect := Reply("invalid-usage", [])

  /** The subcommands `execute` knows, in the order it tries them. */
  const SUBCOMMANDS: seq<string> := ["version", "spawn", "stop", "kick", "gamemode", "say", "whitelist", "messages"]

  // ---------------------------------------------------------------------------
  // Integer.parseInt

  predicate IsDigit(c: char) {
    '0' <= c <= '9'
  }

  /** The value of a string of decimal digits. */
  function DigitsValue(s: string): nat
    requires forall i :: 0 <= i < |s| ==> IsDigit(s[i])
  {
    if s == [] then 0
    else
      var last := s[|s| - 1];
      assert IsDigit(last);
      10 * DigitsValue(s[..|s| - 1]) + (last as int - '0' as int)
  }

  /**
   * `Integer.parseInt` on ASCII decimal text: an optional sign, at least one digit,
   * and a value that fits Java's `int`; anything else throws (None).
   */
  function ParseInt(s: string): (r: Option<int>)
    ensures r.Some? ==> DataTypeIO.IsInt32(r.value)
    ensures s == [] ==> r.None?
  {
    var negative := |s| > 0 && s[0] == '-';
    var digits := if |s| > 0 && (s[0] == '-' || s[0] == '+') then s[1..] else s;
    if digits == [] || exists i :: 0 <= i < |digits| && !IsDigit(digits[i]) then None
    else
      var magnitude: int := DigitsValue(digits);
      var v := if negative then -magnitude else magnitude;
      if DataTypeIO.IsInt32(v) then Some(v) else None
  }

  /** `Integer.toString` of a natural number. */
  function Decimal(n: nat): (s: string)
    ensures |s| >= 1 && forall i :: 0 <= i < |s| ==> IsDigit(s[i])
  {
    if n < 10 then [('0' as int + n) as char]
    else Decimal(n / 10) + [('0' as int + n % 10) as char]
  }

  lemma {:induction false} DecimalValue(n: nat)
    ensures DigitsValue(Decimal(n)) == n
  {
    if n >= 10 {
      var s := Decimal(n);
      assert s[..|s| - 1] == Decimal(n / 10);
      DecimalValue(n / 10);
    }
  }

  /** The text of any `int` parses back to it. */
  lemma ParseIntDecimal(v: int)
    requires DataTypeIO.IsInt32(v)
    ensures v >= 0 ==> ParseInt(Decimal(v)) == Some(v)
    ensures v < 0 ==> ParseInt("-" + Decimal(-v)) == Some(v)
  {
    if v >= 0 {
      DecimalValue(v);
      assert Decimal(v)[0] != '-' && Decimal(v)[0] != '+';
    } else {
      DecimalValue(-v);
      assert ("-" + Decimal(-v))[1..] == Decimal(-v);
    }
  }

  // ---------------------------------------------------------------------------
  // execute: what each subcommand does, as a function of its operands (the
  // arguments after the subcommand's name)

  /** A subcommand's effects for a sender with its permission, or the one refusal. */
  function Gated(sender: Sender, subcommand: string, effects: seq<Effect>): seq<Effect> {
    if sender.HasPermission(Permission(subcommand)) then effects else [NO_PERMISSION]
  }

  function SpawnOutcome(server: Server, sender: Sender, operands: seq<string>): seq<Effect> {
    if |operands| == 0 && sender.AsPlayer().Some? then
      [Teleport(sender.AsPlayer().value), Reply("command-spawn", [])]
    else if |operands| == 1 then
      match server.getPlayer(operands[0])
      case Some(p) => [Teleport(p), Reply("command-spawn-other", [p.name])]
      case None => [Reply("player-not-online", [])]
    else [INVALID_USAGE]
  }

  /** The reason typed after the player's name, words joined by single spaces. */
  function ReasonText(operands: seq<string>): string
    requires |operands| >= 1
  {
    Join(operands[1..], ' ')
  }

  function KickOutcome(server: Server, operands: seq<string>): seq<Effect> {
    if |operands| == 0 then [Reply("specify-player", [])]
    else
      match server.getPlayer(operands[0])
      case None => [Reply("player-not-online", [])]
      case Some(p) =>
        var raw := ReasonText(operands);
        if |Trim(raw)| > 0 then
          [Disconnect(p, CustomReason(raw)), Reply("command-kick", [p.name, server.legacyRoundTrip(raw)])]
        else
          [Disconnect(p, DefaultKickReason), Reply("command-kick-no-reason", [p.name])]
  }

  /** The mode an argument names: as a number through `fromId` first, then as a name. */
  function ModeFor(server: Server, arg: string): Option<GameMode> {
    match ParseInt(arg)
    case Some(n) =>
      (match server.fromId(n)
       case Some(m) => Some(m)
       case None => server.fromName(arg))
    case None => server.fromName(arg)
  }

  function GamemodeOutcome(server: Server, sender: Sender, operands: seq<string>): seq<Effect> {
    if |operands| == 0 then [INVALID_USAGE]
    else if sender.AsPlayer().None? then [Reply("specify-player", [])]
    else
      var target := if |operands| > 1 then server.getPlayer(operands[1]) else sender.AsPlayer();
      match target
      case None => [Reply("player-not-online", [])]
      case Some(p) =>
        match ModeFor(server, operands[0])
        case None => [INVALID_USAGE]
        case Some(m) => [SetGamemode(p, m), Reply("command-gamemode", [m.name])]
  }

  /** The chat line `say` produces: the speaker in brackets, then the words. */
  function SayLine(sender: Sender, operands: seq<string>): string {
    if sender.kind == ConsoleSender then "[Server] " + Join(operands, ' ')
    else "[" + sender.name + "] " + Join(operands, ' ')
  }

  /** The line sent to each player, in the order of the player list. */
  function Broadcast(players: seq<Player>, line: string): (r: seq<Effect>)
    ensures |r| == |players|
    ensures forall i :: 0 <= i < |players| ==> r[i] == Send(ToPlayer(players[i]), Plain(line))
  {
    if players == [] then []
    else Broadcast(players[..|players| - 1], line) + [Send(ToPlayer(players[|players| - 1]), Plain(line))]
  }

  function SayOutcome(server: Server, sender: Sender, operands: seq<string>): seq<Effect> {
    if |operands| == 0 then []
    else [Send(ToConsole, Plain(SayLine(sender, operands)))] + Broadcast(server.players, SayLine(sender, operands))
  }

  /** `whitelist reload` and `messages reload`. */
  function ReloadOutcome(operands: seq<string>, reload: Effect, confirmation: string): seq<Effect> {
    if |operands| != 1 || ToLower(operands[0]) != "reload" then [INVALID_USAGE]
    else [reload, Reply(confirmation, [])]
  }

  /** The branch of the subcommand whose folded name is `name`; any other name does nothing. */
  function Dispatch(server: Server, sender: Sender, name: string, operands: seq<string>): seq<Effect> {
    if name == "version" then
      Gated(sender, "version", [Reply("command-version", [server.limboVersion, server.serverVersion])])
    else if name == "spawn" then Gated(sender, "spawn", SpawnOutcome(server, sender, operands))
    else if name == "stop" then Gated(sender, "stop", [StopServer])
    else if name == "kick" then Gated(sender, "kick", KickOutcome(server, operands))
    else if name == "gamemode" then Gated(sender, "gamemode", GamemodeOutcome(server, sender, operands))
    else if name == "say" then Gated(sender, "say", SayOutcome(server, sender, operands))
    else if name == "whitelist" then Gated(sender, "whitelist", ReloadOutcome(operands, ReloadWhitelist, "command-whitelist"))
    else if name == "messages" then Gated(sender, "messages", ReloadOutcome(operands, ReloadMessages, "command-messages"))
    else []
  }

  /** What `execute` does: the subcommand is `args[0]` in any casing. */
  function Outcome(server: Server, sender: Sender, args: seq<string>): seq<Effect> {
    if |args| == 0 then [] else Dispatch(server, sender, ToLower(args[0]), args[1..])
  }

  /** The names compared with `equalsIgnoreCase` are lower case: comparing is folding the argument. */
  lemma FoldedNames()
    ensures ToLower("version") == "version" && ToLower("spawn") == "spawn" && ToLower("stop") == "stop"
    ensures ToLower("kick") == "kick" && ToLower("gamemode") == "gamemode" && ToLower("say") == "say"
    ensures ToLower("whitelist") == "whitelist" && ToLower("messages") == "messages"
    ensures ToLower("reload") == "reload"
  {
    LowerIsFixed("version");
    LowerIsFixed("spawn");
    LowerIsFixed("stop");
    LowerIsFixed("kick");
    LowerIsFixed("gamemode");
    LowerIsFixed("say");
    LowerIsFixed("whitelist");
    LowerIsFixed("messages");
    LowerIsFixed("reload");
  }

  /** The permission strings the source spells out. */
  lemma PermissionNames()
    ensures Permission("version") == "limboserver.version" && Permission("spawn") == "limboserver.spawn"
    ensures Permission("stop") == "limboserver.stop" && Permission("kick") == "limboserver.kick"
    ensures Permission("gamemode") == "limboserver.gamemode" && Permission("say") == "limboserver.say"
    ensures Permission("whitelist") == "limboserver.whitelist" && Permission("messages") == "limboserver.messages"
  {
  }

  // ---------------------------------------------------------------------------
  // execute: the source's branches

  /** `execute`: tries each subcommand in turn and returns after the first that matches. */
  method Execute(server: Server, sender: Sender, args: seq<string>) returns (effects: seq<Effect>)
    ensures effects == Outcome(server, sender, args)
  {
    effects := [];
    if |args| == 0 {
      return;
    }
    FoldedNames();
    if EqualsIgnoreCase(args[0], "version") {
      if sender.HasPermission(Permission("version")) {
        effects := [Reply("command-version", [server.limboVersion, server.serverVersion])];
      } else {
        effects := [NO_PERMISSION];
      }
      return;
    }
    if EqualsIgnoreCase(args[0], "spawn") {
      effects := Spawn(server, sender, args);
      return;
    }
    if EqualsIgnoreCase(args[0], "stop") {
      if sender.HasPermission(Permission("stop")) {
        effects := [StopServer];
      } else {
        effects := [NO_PERMISSION];
      }
      return;
    }
    if EqualsIgnoreCase(args[0], "kick") {
      effects := Kick(server, sender, args);
      return;
    }
    if EqualsIgnoreCase(args[0], "gamemode") {
      effects := Gamemode(server, sender, args);
      return;
    }
    if EqualsIgnoreCase(args[0], "say") {
      effects := Say(server, sender, args);
      return;
    }
    if EqualsIgnoreCase(args[0], "whitelist") {
      effects := Reload(sender, args, "whitelist", ReloadWhitelist, "command-whitelist");
      return;
    }
    if EqualsIgnoreCase(args[0], "messages") {
      effects := Reload(sender, args, "messages", ReloadMessages, "command-messages");
    }
  }

  /** The `spawn` branch: teleports the sender, or the player named, to the world spawn. */
  method Spawn(server: Server, sender: Sender, args: seq<string>) returns (effects: seq<Effect>)
    requires |args| >= 1
    ensures effects == Gated(sender, "spawn", SpawnOutcome(server, sender, args[1..]))
  {
    if sender.HasPermission(Permission("spawn")) {
      if |args| == 1 && sender.kind == PlayerSender {
        var player := Player(sender.name);
        effects := [Teleport(player), Reply("command-spawn", [])];
      } else if |args| == 2 {
        var player := server.getPlayer(args[1]);
        if player.Some? {
          effects := [Teleport(player.value), Reply("command-spawn-other", [player.value.name])];
        } else {
          effects := [Reply("player-not-online", [])];
        }
      } else {
        effects := [INVALID_USAGE];
      }
    } else {
      effects := [NO_PERMISSION];
    }
  }

  /** The `kick` branch: disconnects the player named, with the reason typed after the name if it is not blank. */
  method Kick(server: Server, sender: Sender, args: seq<string>) returns (effects: seq<Effect>)
    requires |args| >= 1
    ensures effects == Gated(sender, "kick", KickOutcome(server, args[1..]))
  {
    if sender.HasPermission(Permission("kick")) {
      var reason := DefaultKickReason;
      var customReason := false;
      if |args| > 1 {
        var player := server.getPlayer(args[1]);
        if player.Some? {
          var reasonRaw := Join(args[2..], ' ');
          assert reasonRaw == ReasonText(args[1..]) by {
            assert args[1..][1..] == args[2..];
          }
          if |Trim(reasonRaw)| > 0 {
            reason := CustomReason(reasonRaw);
            customReason := true;
          }
          effects := [Disconnect(player.value, reason)];
          if customReason {
            effects := effects + [Reply("command-kick", [player.value.name, server.legacyRoundTrip(reason.raw)])];
          } else {
            effects := effects + [Reply("command-kick-no-reason", [player.value.name])];
          }
        } else {
          effects := [Reply("player-not-online", [])];
        }
      } else {
        effects := [Reply("specify-player", [])];
      }
    } else {
      effects := [NO_PERMISSION];
    }
  }

  /** The `gamemode` branch: sets the mode of the sender, or of the player named third. */
  method Gamemode(server: Server, sender: Sender, args: seq<string>) returns (effects: seq<Effect>)
    requires |args| >= 1
    ensures effects == Gated(sender, "gamemode", GamemodeOutcome(server, sender, args[1..]))
  {
    if sender.HasPermission(Permission("gamemode")) {
      if |args| > 1 {
        var player := if |args| > 2 then server.getPlayer(args[2])
                      else if sender.kind == PlayerSender then Some(Player(sender.name)) else None;
        if sender.kind != PlayerSender {
          effects := [Reply("specify-player", [])];
        } else if player.Some? {
          var mode: Option<GameMode> := None;
          var id := ParseInt(args[1]);
          if id.Some? {
            mode := server.fromId(id.value);
          }
          if mode.None? {
            mode := server.fromName(args[1]);
            if mode.None? {
              effects := [INVALID_USAGE];
              return;
            }
          }
          effects := [SetGamemode(player.value, mode.value), Reply("command-gamemode", [mode.value.name])];
        } else {
          effects := [Reply("player-not-online", [])];
        }
      } else {
        effects := [INVALID_USAGE];
      }
    } else {
      effects := [NO_PERMISSION];
    }
  }

  /** The `say` branch: the line goes to the console, then to every online player. */
  method Say(server: Server, sender: Sender, args: seq<string>) returns (effects: seq<Effect>)
    requires |args| >= 1
    ensures effects == Gated(sender, "say", SayOutcome(server, sender, args[1..]))
  {
    effects := [];
    if sender.HasPermission(Permission("say")) {
      if |args| > 1 {
        var message := if sender.kind == ConsoleSender then "[Server] " + Join(args[1..], ' ')
                       else "[" + sender.name + "] " + Join(args[1..], ' ');
        effects := [Send(ToConsole, Plain(message))];
        var players := server.players;
        var i := 0;
        while i < |players|
          invariant 0 <= i <= |players|
          invariant effects == [Send(ToConsole, Plain(message))] + Broadcast(players[..i], message)
        {
          assert players[..i + 1][..i] == players[..i];
          effects := effects + [Send(ToPlayer(players[i]), Plain(message))];
          i := i + 1;
        }
        assert players[..i] == players;
      }
    } else {
      effects := [NO_PERMISSION];
    }
  }

  /** The `whitelist` and `messages` branches: `reload` is the one usage. */
  method Reload(sender: Sender, args: seq<string>, subcommand: string, reload: Effect, confirmation: string)
    returns (effects: seq<Effect>)
    requires |args| >= 1
    ensures effects == Gated(sender, subcommand, ReloadOutcome(args[1..], reload, confirmation))
  {
    FoldedNames();
    if sender.HasPermission(Permission(subcommand)) {
      if |args| != 2 {
        effects := [INVALID_USAGE];
      } else if !EqualsIgnoreCase(args[1], "reload") {
        effects := [INVALID_USAGE];
      } else {
        effects := [reload, Reply(confirmation, [])];
      }
    } else {
      effects := [NO_PERMISSION];
    }
  }

  // ---------------------------------------------------------------------------
  // execute: properties

  /** No arguments: nothing happens and nothing is sent. */
  lemma EmptyArgsDoNothing(server: Server, sender: Sender)
    ensures Outcome(server, sender, []) == []
  {
  }

  /** Only the folding of the first argument matters: any casing of a subcommand runs the same branch. */
  lemma DispatchIgnoresCase(server: Server, sender: Sender, a: string, b: string, rest: seq<string>)
    requires EqualsIgnoreCase(a, b)
    ensures Outcome(server, sender, [a] + rest) == Outcome(server, sender, [b] + rest)
  {
    assert ([a] + rest)[1..] == rest == ([b] + rest)[1..];
  }

  /** A first argument naming no subcommand does nothing. */
  lemma UnknownSubcommandDoesNothing(server: Server, sender: Sender, args: seq<string>)
    requires |args| >= 1 && ToLower(args[0]) !in SUBCOMMANDS
    ensures Outcome(server, sender, args) == []
  {
  }

  /** A sender without the subcommand's permission gets exactly one `no-permission` message. */
  lemma NoPermissionOnlyRefuses(server: Server, sender: Sender, args: seq<string>)
    requires |args| >= 1 && ToLower(args[0]) in SUBCOMMANDS
    requires !sender.HasPermission(Permission(ToLower(args[0])))
    ensures Outcome(server, sender, args) == [NO_PERMISSION]
  {
  }

  /**
   * `whitelist` and `messages`, with the permission: the reload happens exactly when
   * there are two arguments and the second is `reload` in any casing; otherwise the
   * only effect is `invalid-usage`.
   */
  lemma ReloadNeedsExactUsage(server: Server, sender: Sender, args: seq<string>)
    requires |args| >= 1 && ToLower(args[0]) in {"whitelist", "messages"}
    requires sender.HasPermission(Permission(ToLower(args[0])))
    ensures var reload := if ToLower(args[0]) == "whitelist" then ReloadWhitelist else ReloadMessages;
            && (reload in Outcome(server, sender, args) <==> |args| == 2 && EqualsIgnoreCase(args[1], "reload"))
            && (reload !in Outcome(server, sender, args) ==> Outcome(server, sender, args) == [INVALID_USAGE])
  {
    FoldedNames();
  }

  /**
   * `kick`, with the permission: no player named gives `specify-player`, an unknown one
   * `player-not-online`, and a blank reason kicks with the default reason and says so.
   */
  lemma KickRules(server: Server, sender: Sender, args: seq<string>)
    requires |args| >= 1 && ToLower(args[0]) == "kick" && sender.HasPermission(Permission("kick"))
    ensures |args| == 1 ==> Outcome(server, sender, args) == [Reply("specify-player", [])]
    ensures |args| >= 2 && server.getPlayer(args[1]).None? ==>
              Outcome(server, sender, args) == [Reply("player-not-online", [])]
    ensures |args| >= 2 && server.getPlayer(args[1]).Some? && IsBlank(Join(args[2..], ' ')) ==>
              var p := server.getPlayer(args[1]).value;
              Outcome(server, sender, args) == [Disconnect(p, DefaultKickReason), Reply("command-kick-no-reason", [p.name])]
  {
    if |args| >= 2 {
      assert args[1..][1..] == args[2..];
      TrimEmptyIffBlank(Join(args[2..], ' '));
    }
  }

  /**
   * `gamemode`, with the permission and a mode argument: a sender that is not a player
   * gets `specify-player`; a player has the mode the argument names as a number, else
   * as a name; when it names neither, `invalid-usage` is the only effect and no mode
   * is set.
   */
  lemma GamemodeRules(server: Server, sender: Sender, args: seq<string>)
    requires |args| >= 2 && ToLower(args[0]) == "gamemode" && sender.HasPermission(Permission("gamemode"))
    ensures sender.kind == ConsoleSender ==> Outcome(server, sender, args) == [Reply("specify-player", [])]
    ensures sender.kind == PlayerSender && |args| == 2 ==>
              var me := Player(sender.name);
              match ModeFor(server, args[1])
              case Some(m) => Outcome(server, sender, args) == [SetGamemode(me, m), Reply("command-gamemode", [m.name])]
              case None => Outcome(server, sender, args) == [INVALID_USAGE]
    ensures sender.kind == PlayerSender && |args| > 2 && server.getPlayer(args[2]).Some? && ModeFor(server, args[1]).None? ==>
              Outcome(server, sender, args) == [INVALID_USAGE]
    ensures ParseInt(args[1]).Some? && server.fromId(ParseInt(args[1]).value).Some? ==>
              ModeFor(server, args[1]) == server.fromId(ParseInt(args[1]).value)
  {
  }

  /** `say`, with the permission and a text: the console and then every online player, in order, get the line. */
  lemma SayReachesEveryone(server: Server, sender: Sender, args: seq<string>, p: Player)
    requires |args| >= 2 && ToLower(args[0]) == "say" && sender.HasPermission(Permission("say"))
    requires p in server.players
    ensures Outcome(server, sender, args)[0] == Send(ToConsole, Plain(SayLine(sender, args[1..])))
    ensures Send(ToPlayer(p), Plain(SayLine(sender, args[1..]))) in Outcome(server, sender, args)
    ensures |Outcome(server, sender, args)| == |server.players| + 1
  {
    var i :| 0 <= i < |server.players| && server.players[i] == p;
    assert Outcome(server, sender, args)[i + 1] == Broadcast(server.players, SayLine(sender, args[1..]))[i];
  }

  // ---------------------------------------------------------------------------
  // tabComplete

  /** `name` offered when the sender may run it and it starts with what was typed. */
  function Offer(sender: Sender, name: string, typed: string): seq<string> {
    if sender.HasPermission(Permission(name)) && StartsWith(name, typed) then [name] else []
  }

  /** The first-word suggestions: spawn, kick, stop, say and gamemode, in this order. */
  function FirstWord(sender: Sender, typed: string): seq<string> {
    Offer(sender, "spawn", typed) + Offer(sender, "kick", typed) + Offer(sender, "stop", typed)
    + Offer(sender, "say", typed) + Offer(sender, "gamemode", typed)
  }

  /** Whether a name is completed by what was typed, both folded. */
  predicate Completes(name: string, typed: string) {
    StartsWith(ToLower(name), ToLower(typed))
  }

  /** The names of the players that `typed` completes, in list order. */
  function MatchingPlayers(players: seq<Player>, typed: string): (r: seq<string>)
    ensures |r| <= |players|
    ensures forall x :: x in r <==> exists p :: p in players && p.name == x && Completes(x, typed)
  {
    if players == [] then []
    else
      var last := players[|players| - 1];
      var front := players[..|players| - 1];
      assert forall p :: p in players <==> p in front || p == last;
      MatchingPlayers(front, typed) + (if Completes(last.name, typed) then [last.name] else [])
  }

  /** The names of the game modes that `typed` completes, in list order. */
  function MatchingModes(modes: seq<GameMode>, typed: string): (r: seq<string>)
    ensures |r| <= |modes|
    ensures forall x :: x in r <==> exists m :: m in modes && m.name == x && Completes(x, typed)
  {
    if modes == [] then []
    else
      var last := modes[|modes| - 1];
      var front := modes[..|modes| - 1];
      assert forall m :: m in modes <==> m in front || m == last;
      MatchingModes(front, typed) + (if Completes(last.name, typed) then [last.name] else [])
  }

  /** What `tabComplete` suggests; `modes` is `GameMode.values()`. */
  function Completions(server: Server, modes: seq<GameMode>, sender: Sender, args: seq<string>): seq<string> {
    if |args| == 0 then FirstWord(sender, "")
    else if |args| == 1 then FirstWord(sender, ToLower(args[0]))
    else if |args| == 2 then
      (if sender.HasPermission(Permission("kick")) && ToLower(args[0]) == "kick"
       then MatchingPlayers(server.players, args[1]) else [])
      + (if sender.HasPermission(Permission("gamemode")) && ToLower(args[0]) == "gamemode"
         then MatchingModes(modes, args[1]) else [])
    else if |args| == 3 then
      (if sender.HasPermission(Permission("gamemode")) && ToLower(args[0]) == "gamemode"
       then MatchingPlayers(server.players, args[2]) else [])
    else []
  }

  /** The player names that `typed` completes, appended to `tab` one player at a time. */
  method AddMatchingPlayers(tab: seq<string>, players: seq<Player>, typed: string) returns (out: seq<string>)
    ensures out == tab + MatchingPlayers(players, typed)
  {
    out := tab;
    var i := 0;
    while i < |players|
      invariant 0 <= i <= |players|
      invariant out == tab + MatchingPlayers(players[..i], typed)
    {
      assert players[..i + 1][..i] == players[..i];
      if StartsWith(ToLower(players[i].name), ToLower(typed)) {
        out := out + [players[i].name];
      }
      i := i + 1;
    }
    assert players[..i] == players;
  }

  /** The game-mode names that `typed` completes, appended to `tab` one mode at a time. */
  method AddMatchingModes(tab: seq<string>, modes: seq<GameMode>, typed: string) returns (out: seq<string>)
    ensures out == tab + MatchingModes(modes, typed)
  {
    out := tab;
    var i := 0;
    while i < |modes|
      invariant 0 <= i <= |modes|
      invariant out == tab + MatchingModes(modes[..i], typed)
    {
      assert modes[..i + 1][..i] == modes[..i];
      if StartsWith(ToLower(modes[i].name), ToLower(typed)) {
        out := out + [modes[i].name];
      }
      i := i + 1;
    }
    assert modes[..i] == modes;
  }

  /** `tabComplete`: a switch on the number of arguments. */
  method TabComplete(server: Server, modes: seq<GameMode>, sender: Sender, args: seq<string>) returns (tab: seq<string>)
    ensures tab == Completions(server, modes, sender, args)
  {
    tab := [];
    if |args| == 0 {
      tab := PermittedSubcommands(sender);
    } else if |args| == 1 {
      tab := SubcommandsStartingWith(sender, ToLower(args[0]));
    } else if |args| == 2 {
      FoldedNames();
      if sender.HasPermission(Permission("kick")) && EqualsIgnoreCase(args[0], "kick") {
        tab := AddMatchingPlayers(tab, server.players, args[1]);
      }
      if sender.HasPermission(Permission("gamemode")) && EqualsIgnoreCase(args[0], "gamemode") {
        tab := AddMatchingModes(tab, modes, args[1]);
      }
    } else if |args| == 3 {
      FoldedNames();
      if sender.HasPermission(Permission("gamemode")) && EqualsIgnoreCase(args[0], "gamemode") {
        tab := AddMatchingPlayers(tab, server.players, args[2]);
      }
    }
  }

  /** No argument yet: every first-word subcommand the sender may run. */
  method PermittedSubcommands(sender: Sender) returns (tab: seq<string>)
    ensures tab == FirstWord(sender, "")
  {
    tab := [];
    if sender.HasPermission(Permission("spawn")) {
      tab := tab + ["spawn"];
    }
    assert tab == Offer(sender, "spawn", "");
    if sender.HasPermission(Permission("kick")) {
      tab := tab + ["kick"];
    }
    assert tab == Offer(sender, "spawn", "") + Offer(sender, "kick", "");
    if sender.HasPermission(Permission("stop")) {
      tab := tab + ["stop"];
    }
    assert tab == Offer(sender, "spawn", "") + Offer(sender, "kick", "") + Offer(sender, "stop", "");
    if sender.HasPermission(Permission("say")) {
      tab := tab + ["say"];
    }
    assert tab == Offer(sender, "spawn", "") + Offer(sender, "kick", "") + Offer(sender, "stop", "") + Offer(sender, "say", "");
    if sender.HasPermission(Permission("gamemode")) {
      tab := tab + ["gamemode"];
    }
    assert tab == Offer(sender, "spawn", "") + Offer(sender, "kick", "") + Offer(sender, "stop", "") + Offer(sender, "say", "") + Offer(sender, "gamemode", "");
  }

  /** One argument: the first-word subcommands the sender may run that start with it, folded. */
  method SubcommandsStartingWith(sender: Sender, typed: string) returns (tab: seq<string>)
    ensures tab == FirstWord(sender, typed)
  {
    tab := [];
    if sender.HasPermission(Permission("spawn")) && StartsWith("spawn", typed) {
      tab := tab + ["spawn"];
    }
    assert tab == Offer(sender, "spawn", typed);
    if sender.HasPermission(Permission("kick")) && StartsWith("kick", typed) {
      tab := tab + ["kick"];
    }
    assert tab == Offer(sender, "spawn", typed) + Offer(sender, "kick", typed);
    if sender.HasPermission(Permission("stop")) && StartsWith("stop", typed) {
      tab := tab + ["stop"];
    }
    assert tab == Offer(sender, "spawn", typed) + Offer(sender, "kick", typed) + Offer(sender, "stop", typed);
    if sender.HasPermission(Permission("say")) && StartsWith("say", typed) {
      tab := tab + ["say"];
    }
    assert tab == Offer(sender, "spawn", typed) + Offer(sender, "kick", typed) + Offer(sender, "stop", typed) + Offer(sender, "say", typed);
    if sender.HasPermission(Permission("gamemode")) && StartsWith("gamemode", typed) {
      tab := tab + ["gamemode"];
    }
    assert tab == Offer(sender, "spawn", typed) + Offer(sender, "kick", typed) + Offer(sender, "stop", typed) + Offer(sender, "say", typed) + Offer(sender, "gamemode", typed);
  }

  /** The subcommands offered for the first word. */
  const SUGGESTED: seq<string> := ["spawn", "kick", "stop", "say", "gamemode"]

  /**
   * With at most one argument, the suggestions are exactly the subcommands among spawn,
   * kick, stop, say and gamemode that the sender may run and that start with the folded
   * argument; `version`, `whitelist` and `messages` are never suggested.
   */
  lemma FirstWordSuggestions(server: Server, modes: seq<GameMode>, sender: Sender, args: seq<string>, x: string)
    requires |args| <= 1
    ensures var typed := if |args| == 0 then "" else ToLower(args[0]);
            x in Completions(server, modes, sender, args)
            <==> x in SUGGESTED && sender.HasPermission(Permission(x)) && StartsWith(x, typed)
    ensures x in {"version", "whitelist", "messages"} ==> x !in Completions(server, modes, sender, args)
  {
  }

  /** With no argument every permitted suggestion is offered: the empty prefix completes everything. */
  lemma NoArgsOffersAllPermitted(server: Server, modes: seq<GameMode>, sender: Sender, x: string)
    requires x in SUGGESTED && sender.HasPermission(Permission(x))
    ensures x in Completions(server, modes, sender, [])
  {
    assert StartsWith(x, "");
  }

  /** More than three arguments are never completed. */
  lemma NoSuggestionsPastThreeArgs(server: Server, modes: seq<GameMode>, sender: Sender, args: seq<string>)
    requires |args| > 3
    ensures Completions(server, modes, sender, args) == []
  {
  }

  /**
   * The third word of `gamemode` completes to exactly the online players whose folded
   * name starts with the folded word.
   */
  lemma PlayerNameSuggestions(server: Server, modes: seq<GameMode>, sender: Sender, args: seq<string>, p: Player)
    requires |args| == 3 && p in server.players
    requires sender.HasPermission(Permission("gamemode")) && ToLower(args[0]) == "gamemode"
    ensures p.name in Completions(server, modes, sender, args) <==> Completes(p.name, args[2])
  {
  }

  /** The second word of `kick` completes to exactly the online players whose folded name starts with the folded word. */
  lemma KickCompletesPlayers(server: Server, modes: seq<GameMode>, sender: Sender, args: seq<string>, p: Player)
    requires |args| == 2 && p in server.players
    requires sender.HasPermission(Permission("kick")) && ToLower(args[0]) == "kick"
    ensures p.name in Completions(server, modes, sender, args) <==> Completes(p.name, args[1])
  {
  }
}

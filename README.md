# Limbo: forwarding, login, configuration and commands, in Dafny

Limbo is a standalone Minecraft server that keeps players in a fixed world. This
project models four parts of it and proves properties of the model:

- **Velocity modern forwarding** (`ForwardingUtils`). A proxy in front of the server
  forwards each player's identity as a payload: a 32-byte HMAC-SHA256 signature, then
  the signed data. The signed data holds a VarInt version (must be 1), the player's
  address, UUID and name, and a counted list of profile properties. The server accepts
  the payload when some configured secret, tried in order, MACs the data to the
  signature. The decoder keeps the first `textures` property as the player's skin and
  stops reading there.
- **The LoginStart packet** (`PacketLoginInLoginStart`): a length-prefixed player name,
  then a UUID.
- **Loading `server.properties`** (`ServerProperties`).
  - The user's file is completed from the defaults with `putIfAbsent`.
  - The forwarding mode comes from three flags. Velocity wins over BungeeGuard, which
    wins over BungeeCord. Velocity or BungeeGuard without a `forwarding-secrets` value
    stops the server.
  - The secrets are split on `;`.
  - `whitelist.json` is read into a map from UUID to name.
- **The built-in commands** (`DefaultCommands`). `execute` runs `version`, `spawn`,
  `stop`, `kick`, `gamemode`, `say`, `whitelist reload` and `messages reload`. Each
  subcommand sits behind the permission `limboserver.<name>`. `tabComplete` suggests
  subcommands, player names and game-mode names.

The protocol readers these call are modelled beside them (`DataTypeIO`). VarInt,
string and UUID stand for `DataTypeIO`'s readers. The boolean reader is the JDK's
`DataInputStream.readBoolean`, which `getVelocityDataFrom` calls directly
(ForwardingUtils.java:93). The long reader follows `DataInputStream.readLong`: eight
big-endian bytes. The UUID is read as two such longs. The Java string operations the
core relies on are modelled too (`Text`: `toLowerCase`, `equalsIgnoreCase`,
`startsWith`, `trim`, `String.join`, `split`).
`DataTypeIO.java` is not part of this model: its readers are written from the wire
format the callers expect, with encoders as their inverses.

How the model is built:

- **Readers are functions.** A reader maps the unread bytes to a value and the rest,
  or to `EndOfStream`, `VarIntTooBig` or `NegativeLength`.
- **Loops stay methods.** The source's loops are methods proved equal to specification
  functions:
  - the secret search and the property loop (`ValidateVelocityModernResponse`,
    `GetVelocityDataFrom`);
  - the defaults merge (`MergeDefaults`);
  - the whitelist loop (`ServerProperties.ReloadWhitelist`, a method of a class whose
    fields it updates);
  - the `say` broadcast, and the player and game-mode loops of `tabComplete`.
- **Command effects are values.** `execute` returns the list of its effects and
  messages, in the order the source performs them. A message is a messages-file key
  with its arguments.
- **The outside world is passed in.** The MAC, `UUID.fromString`, the player lookup,
  `GameMode.fromId`/`fromName`, the parsed files and the legacy text serializer are all
  parameters.

Where a description of the system and the code differ, the model follows the code:

- The signature is compared with `Arrays.equals`. This is not a constant-time
  comparison, and the model claims none.
- A forwarding version other than 1 is an `AssertionError` ("Unknown Velocity Packet")
  thrown out of `getVelocityDataFrom`. The model calls it `UnknownVelocityPacket`; it
  is not an authentication error of its own.
- `getVelocityDataFrom` does not check the signature. The caller checks it separately,
  and `DecodingIgnoresSignature` states this.

## Model

| member | source | states |
|---|---|---|
| DataTypeIO.VarIntRoundTrip | src/main/java/com/loohp/limbo/utils/ForwardingUtils.java:77 | every `int` encodes to 1 to 5 bytes, and reading them back gives the value and leaves what follows unread |
| DataTypeIO.VarIntFrame | src/main/java/com/loohp/limbo/utils/ForwardingUtils.java:88 | a VarInt read depends only on the bytes it consumes |
| DataTypeIO.VarIntTruncated | src/main/java/com/loohp/limbo/utils/ForwardingUtils.java:88 | a VarInt cut short fails with end of stream |
| DataTypeIO.StringRoundTrip | src/main/java/com/loohp/limbo/utils/ForwardingUtils.java:82-84 | a length-prefixed string reads back as the same bytes, leaving the rest |
| DataTypeIO.StringFrame | src/main/java/com/loohp/limbo/utils/ForwardingUtils.java:90-91 | a string read depends only on the bytes it consumes |
| DataTypeIO.StringTruncated | src/main/java/com/loohp/limbo/utils/ForwardingUtils.java:90-91 | a string cut short fails with end of stream |
| DataTypeIO.BooleanRoundTrip | src/main/java/com/loohp/limbo/utils/ForwardingUtils.java:93 | an encoded boolean reads back as itself |
| DataTypeIO.UuidRoundTrip | src/main/java/com/loohp/limbo/utils/ForwardingUtils.java:83 | a UUID written as two big-endian longs reads back as itself |
| DataTypeIO.UuidFrame | src/main/java/com/loohp/limbo/network/protocol/packets/PacketLoginInLoginStart.java:40 | a UUID read depends only on its sixteen bytes |
| ForwardingUtils.FirstValidSecret | src/main/java/com/loohp/limbo/utils/ForwardingUtils.java:51-60 | the search finds a secret exactly when one MACs the data to the signature; the one it finds is the first such secret in list order |
| ForwardingUtils.SecretLoopStop | src/main/java/com/loohp/limbo/utils/ForwardingUtils.java:51-60 | the secret loop stops at the first secret that is empty, whose key constructor throws, or that MACs the data to the signature; every secret before it is non-empty and does not match |
| ForwardingUtils.ValidateVelocityModernResponse | src/main/java/com/loohp/limbo/utils/ForwardingUtils.java:41-69 | a payload under 32 bytes raises end of stream. Otherwise the secrets are tried in order. Reaching an empty secret before any match raises `EmptySecret`, the `IllegalArgumentException` of `SecretKeySpec` that the two catch clauses do not handle. A match accepts, and running out of secrets rejects. The loop computes one MAC per secret up to and including the match |
| ForwardingUtils.SecretLoopStopIsLeast | src/main/java/com/loohp/limbo/utils/ForwardingUtils.java:51-60 | the loop's stopping position is unique: it goes on before it, and stops at it or at the end |
| ForwardingUtils.NonEmptySecretsValidate | src/main/java/com/loohp/limbo/utils/ForwardingUtils.java:51-60 | with no empty secret configured, the check never raises: it accepts exactly when some secret matches, and stops at the first one |
| ForwardingUtils.EmptySecretFirstRaises | src/main/java/com/loohp/limbo/utils/ForwardingUtils.java:52 | an empty secret ahead of every matching one (for example the leading piece of `;k`) makes the check raise, whatever secrets follow it |
| ForwardingUtils.FirstValidSecretIsLeast | src/main/java/com/loohp/limbo/utils/ForwardingUtils.java:51-60 | the first matching position is unique: no match before it, and a match at it |
| ForwardingUtils.NoSecretsRejectsAll | src/main/java/com/loohp/limbo/utils/ForwardingUtils.java:48-68 | with no secrets configured, no payload is accepted |
| ForwardingUtils.SkipSignature | src/main/java/com/loohp/limbo/utils/ForwardingUtils.java:75 | `skipBytes(32)` leaves the bytes after the signature, or nothing when the payload is shorter |
| ForwardingUtils.GetVelocityDataFrom | src/main/java/com/loohp/limbo/utils/ForwardingUtils.java:71-104 | the decoding loop, with its break at the first `textures`, yields exactly the specified decoding of the payload |
| ForwardingUtils.PropertyRoundTrip | src/main/java/com/loohp/limbo/utils/ForwardingUtils.java:90-96 | a property the proxy encodes, with or without a signature, is read back exactly |
| ForwardingUtils.HeaderRoundTrip | src/main/java/com/loohp/limbo/utils/ForwardingUtils.java:77-88 | version 1, address, UUID, username and count are read back exactly |
| ForwardingUtils.FirstTextures | src/main/java/com/loohp/limbo/utils/ForwardingUtils.java:97-100 | the position of the first property named `textures`, with none before it; None when there is none |
| ForwardingUtils.ScanFindsFirstTextures | src/main/java/com/loohp/limbo/utils/ForwardingUtils.java:89-101 | a scan whose count reaches past the first `textures` reports that property's skin, whatever follows it |
| ForwardingUtils.EncodedPropertiesParse | src/main/java/com/loohp/limbo/utils/ForwardingUtils.java:89-96 | an encoded property list parses back property by property, followed by whatever comes after it |
| ForwardingUtils.ScanWithoutTextures | src/main/java/com/loohp/limbo/utils/ForwardingUtils.java:89-101 | a scan over properties with no `textures` among them reads them all and reports no skin |
| ForwardingUtils.ScanStopsAtTextures | src/main/java/com/loohp/limbo/utils/ForwardingUtils.java:97-99 | the scan stops right after the first `textures`: the bytes after it are left unread, whatever the count says |
| ForwardingUtils.DecodeAfterHeader | src/main/java/com/loohp/limbo/utils/ForwardingUtils.java:75-88 | after the signature and a well-formed header, decoding is the property scan with the header's count |
| ForwardingUtils.EncodedScanWithoutTextures | src/main/java/com/loohp/limbo/utils/ForwardingUtils.java:89-101 | encoded properties with no `textures` are all read and give no skin |
| ForwardingUtils.EncodedScanStopsAt | src/main/java/com/loohp/limbo/utils/ForwardingUtils.java:89-101 | encoded properties give the skin of the first `textures` once the count reaches it |
| ForwardingUtils.EncodedScanStops | src/main/java/com/loohp/limbo/utils/ForwardingUtils.java:97-99 | encoded properties that end in the first `textures` are consumed exactly |
| ForwardingUtils.VelocityDataRoundTrip | src/main/java/com/loohp/limbo/utils/ForwardingUtils.java:71-104 | a payload the proxy builds decodes to its version, address, UUID and username, with the skin of the first `textures` property (or none) |
| ForwardingUtils.NothingReadAfterTextures | src/main/java/com/loohp/limbo/utils/ForwardingUtils.java:97-99 | properties after the first `textures` are never read: the result is the same whatever bytes follow it, and whatever the count |
| ForwardingUtils.NonPositiveCountReadsNoProperty | src/main/java/com/loohp/limbo/utils/ForwardingUtils.java:88-89 | a property count of zero or less reads nothing and reports no skin |
| ForwardingUtils.DecodingIgnoresSignature | src/main/java/com/loohp/limbo/utils/ForwardingUtils.java:75 | decoding skips the signature without looking at it |
| ForwardingUtils.ShortPayloadFails | src/main/java/com/loohp/limbo/utils/ForwardingUtils.java:75-77 | a payload shorter than the signature fails with end of stream at the version |
| ForwardingUtils.UnsupportedVersionRejected | src/main/java/com/loohp/limbo/utils/ForwardingUtils.java:77-81 | a version other than 1 fails with that version before anything else is read |
| PacketLoginInLoginStart.Decode | src/main/java/com/loohp/limbo/network/protocol/packets/PacketLoginInLoginStart.java:39-41 | a decoded packet consumes at least 17 bytes; shorter input fails; once the name is read, any failure is end of stream |
| PacketLoginInLoginStart.DecodeRoundTrip | src/main/java/com/loohp/limbo/network/protocol/packets/PacketLoginInLoginStart.java:34-41 | a packet built from a name and a UUID decodes back to the same fields, leaving what follows |
| PacketLoginInLoginStart.DecodeReadsInOrder | src/main/java/com/loohp/limbo/network/protocol/packets/PacketLoginInLoginStart.java:40 | the name is the string at the start and the UUID is the sixteen bytes right after it |
| PacketLoginInLoginStart.DecodeFrame | src/main/java/com/loohp/limbo/network/protocol/packets/PacketLoginInLoginStart.java:39-41 | decoding depends only on the packet's own bytes |
| PacketLoginInLoginStart.DecodeTruncated | src/main/java/com/loohp/limbo/network/protocol/packets/PacketLoginInLoginStart.java:39-41 | a packet cut short fails with end of stream |
| Text.ToLowerIdempotent | src/main/java/com/loohp/limbo/commands/DefaultCommands.java:226 | folding case twice is folding once |
| Text.EqualsIgnoreCaseLower | src/main/java/com/loohp/limbo/commands/DefaultCommands.java:45 | compared with a lower-case name, `equalsIgnoreCase` is equality after folding the argument |
| Text.EqualsIgnoreCaseOfFolded | src/main/java/com/loohp/limbo/commands/DefaultCommands.java:45 | every string matches its own folding, ignoring case |
| Text.TrimEmptyIffBlank | src/main/java/com/loohp/limbo/commands/DefaultCommands.java:94 | `trim()` is empty exactly when every character is a space or a control character |
| Text.JoinSplitAll | src/main/java/com/loohp/limbo/file/ServerProperties.java:152 | joining the `;`-separated pieces back with `;` gives the string |
| Text.SplitAllJoin | src/main/java/com/loohp/limbo/file/ServerProperties.java:152 | splitting a join of `;`-free pieces gives the pieces back |
| Text.SplitAllWithoutDelimiter | src/main/java/com/loohp/limbo/file/ServerProperties.java:152 | a string without `;` is its own single piece |
| Text.SplitKeepsLeadingPieces | src/main/java/com/loohp/limbo/file/ServerProperties.java:152 | `split(";")` keeps the pieces in order up to the last non-empty one, which is the last kept piece; it drops only empty trailing pieces and keeps leading and middle empty ones |
| Text.SplitJoinsBack | src/main/java/com/loohp/limbo/file/ServerProperties.java:152 | the kept secrets joined with `;` are a prefix of the secrets string followed only by `;` characters in the string, and the join itself does not end with `;` |
| ServerProperties.Merged | src/main/java/com/loohp/limbo/file/ServerProperties.java:107-111 | the merged file has exactly the keys of the defaults and of the user's file |
| ServerProperties.MergeDefaults | src/main/java/com/loohp/limbo/file/ServerProperties.java:107-111 | the `putIfAbsent` loop gives the merge: every default key is present, and every user value is kept |
| ServerProperties.MergeIdempotent | src/main/java/com/loohp/limbo/file/ServerProperties.java:107-113 | merging the written-back file again changes nothing |
| ServerProperties.MergeKeepsCompleteFile | src/main/java/com/loohp/limbo/file/ServerProperties.java:107-111 | a file that already has every default key is left as it is |
| ServerProperties.ResolveForwarding | src/main/java/com/loohp/limbo/file/ServerProperties.java:141-171 | loading fails exactly when Velocity or BungeeGuard is on and `forwarding-secrets` is missing or empty; otherwise at most one mode is left on, the type follows Velocity, BungeeGuard, BungeeCord precedence, and the secrets are the `;` split |
| ServerProperties.FirstHalt | src/main/java/com/loohp/limbo/file/ServerProperties.java:234-258 | the first element whose uuid or name makes the loop throw, with none before it |
| ServerProperties.CollectKeys | src/main/java/com/loohp/limbo/file/ServerProperties.java:234-255 | a UUID is in the built map exactly when some element adds it |
| ServerProperties.CollectLastWins | src/main/java/com/loohp/limbo/file/ServerProperties.java:254 | the name kept for a UUID is the one from the last element that adds it |
| ServerProperties.WhitelistMembership | src/main/java/com/loohp/limbo/file/ServerProperties.java:222-258 | a UUID is whitelisted exactly when an element before the first failure adds it |
| ServerProperties.HaltKeepsEarlier | src/main/java/com/loohp/limbo/file/ServerProperties.java:251-258 | an element that throws keeps everything added before it and drops everything after it |
| ServerProperties.FirstHaltIsLeast | src/main/java/com/loohp/limbo/file/ServerProperties.java:234-258 | the first failure is unique: no failure before it, and a failure at it or the end of the array |
| ServerProperties.NonArrayGivesEmpty | src/main/java/com/loohp/limbo/file/ServerProperties.java:222-230 | an unreadable document, or one that is not an array, leaves the whitelist empty |
| ServerProperties.ServerProperties.constructor | src/main/java/com/loohp/limbo/file/ServerProperties.java:163-171 | the object holds the resolved forward type and secrets and the enforce flag, with an empty whitelist |
| ServerProperties.ServerProperties.ReloadWhitelist | src/main/java/com/loohp/limbo/file/ServerProperties.java:211-259 | the whitelist is rebuilt from scratch as the document specifies (skips, stop at the first exception, later entries winning); the other fields are unchanged |
| ServerProperties.WhitelistedAfterReload | src/main/java/com/loohp/limbo/file/ServerProperties.java:377-379 | after a reload from an array, `uuidWhitelisted` holds exactly for the UUIDs added before the first failure |
| ServerProperties.ForwardingChecksExclusive | src/main/java/com/loohp/limbo/file/ServerProperties.java:269-279 | at most one of `isBungeecord`, `isVelocityModern` and `isBungeeGuard` holds, and none holds exactly when the type is NONE |
| ServerProperties.Load | src/main/java/com/loohp/limbo/file/ServerProperties.java:107-206 | the constructor: the merged properties are written back whether or not loading then fails. Among the failures it models, it fails exactly as the missing-secret exit does. Otherwise the forward type follows the flags' precedence, the secrets are the `;` split of `forwarding-secrets` when Velocity or BungeeGuard is on (and absent otherwise), `enforce-whitelist` is read, and the whitelist is loaded |
| DefaultCommands.ParseInt | src/main/java/com/loohp/limbo/commands/DefaultCommands.java:124 | `Integer.parseInt` gives only `int` values, and empty text never parses |
| DefaultCommands.ParseIntDecimal | src/main/java/com/loohp/limbo/commands/DefaultCommands.java:124 | the decimal text of every `int`, with a minus sign for negatives, parses back to it |
| DefaultCommands.Broadcast | src/main/java/com/loohp/limbo/commands/DefaultCommands.java:152-154 | one message per online player, in list order, each carrying the line |
| DefaultCommands.Execute | src/main/java/com/loohp/limbo/commands/DefaultCommands.java:38-201 | the chain of `equalsIgnoreCase` branches with early returns performs exactly the specified outcome of the arguments |
| DefaultCommands.Spawn | src/main/java/com/loohp/limbo/commands/DefaultCommands.java:54-75 | the `spawn` branch performs the outcome specified for its operands, behind its permission |
| DefaultCommands.Kick | src/main/java/com/loohp/limbo/commands/DefaultCommands.java:86-114 | the `kick` branch performs the outcome specified for its operands, behind its permission |
| DefaultCommands.Gamemode | src/main/java/com/loohp/limbo/commands/DefaultCommands.java:116-144 | the `gamemode` branch, with its numeric-then-name fallback, performs the outcome specified for its operands |
| DefaultCommands.Say | src/main/java/com/loohp/limbo/commands/DefaultCommands.java:146-169 | the `say` branch and its broadcast loop perform the outcome specified for its operands |
| DefaultCommands.Reload | src/main/java/com/loohp/limbo/commands/DefaultCommands.java:171-200 | the `whitelist` and `messages` branches perform the outcome specified for their operands |
| DefaultCommands.EmptyArgsDoNothing | src/main/java/com/loohp/limbo/commands/DefaultCommands.java:39-41 | no arguments: no effect and no message |
| DefaultCommands.DispatchIgnoresCase | src/main/java/com/loohp/limbo/commands/DefaultCommands.java:45-187 | two first arguments equal ignoring case give the same outcome |
| DefaultCommands.UnknownSubcommandDoesNothing | src/main/java/com/loohp/limbo/commands/DefaultCommands.java:38-201 | a first argument naming none of the eight subcommands does nothing |
| DefaultCommands.NoPermissionOnlyRefuses | src/main/java/com/loohp/limbo/commands/DefaultCommands.java:45-200 | without `limboserver.<subcommand>`, the only effect is one `no-permission` message |
| DefaultCommands.ReloadNeedsExactUsage | src/main/java/com/loohp/limbo/commands/DefaultCommands.java:171-200 | the reload happens exactly when there are two arguments and the second is `reload` in any casing; otherwise the only effect is `invalid-usage` |
| DefaultCommands.KickRules | src/main/java/com/loohp/limbo/commands/DefaultCommands.java:86-114 | no name gives `specify-player`; an offline name gives `player-not-online`; a blank reason kicks with the default reason and sends `command-kick-no-reason` |
| DefaultCommands.GamemodeRules | src/main/java/com/loohp/limbo/commands/DefaultCommands.java:116-144 | a console sender gets `specify-player`; the numeric id is tried before the name; when neither names a mode, `invalid-usage` is the only effect and no mode is set |
| DefaultCommands.SayReachesEveryone | src/main/java/com/loohp/limbo/commands/DefaultCommands.java:146-169 | the console gets the line first, then every online player gets it, one message each |
| DefaultCommands.MatchingPlayers | src/main/java/com/loohp/limbo/commands/DefaultCommands.java:254-258 | the names suggested are exactly those of players whose folded name starts with the folded word |
| DefaultCommands.MatchingModes | src/main/java/com/loohp/limbo/commands/DefaultCommands.java:263-267 | the names suggested are exactly those of game modes whose folded name starts with the folded word |
| DefaultCommands.AddMatchingPlayers | src/main/java/com/loohp/limbo/commands/DefaultCommands.java:254-258 | the player loop appends exactly the matching names, in list order |
| DefaultCommands.AddMatchingModes | src/main/java/com/loohp/limbo/commands/DefaultCommands.java:263-267 | the game-mode loop appends exactly the matching names, in `values()` order |
| DefaultCommands.PermittedSubcommands | src/main/java/com/loohp/limbo/commands/DefaultCommands.java:207-223 | with no argument, the five permission checks build the specified first-word list |
| DefaultCommands.SubcommandsStartingWith | src/main/java/com/loohp/limbo/commands/DefaultCommands.java:224-250 | with one argument, the checks on permission and prefix build the specified first-word list |
| DefaultCommands.TabComplete | src/main/java/com/loohp/limbo/commands/DefaultCommands.java:204-284 | the switch on the argument count returns exactly the specified suggestions |
| DefaultCommands.FirstWordSuggestions | src/main/java/com/loohp/limbo/commands/DefaultCommands.java:207-250 | with at most one argument, a name is suggested exactly when it is one of spawn, kick, stop, say and gamemode, the sender may run it, and it starts with the folded argument; version, whitelist and messages never are |
| DefaultCommands.NoArgsOffersAllPermitted | src/main/java/com/loohp/limbo/commands/DefaultCommands.java:207-223 | with no argument, every suggestible subcommand the sender may run is offered |
| DefaultCommands.NoSuggestionsPastThreeArgs | src/main/java/com/loohp/limbo/commands/DefaultCommands.java:206-282 | more than three arguments get no suggestion |
| DefaultCommands.KickCompletesPlayers | src/main/java/com/loohp/limbo/commands/DefaultCommands.java:251-260 | the second word of `kick` completes exactly to the online players whose folded name starts with it |
| DefaultCommands.PlayerNameSuggestions | src/main/java/com/loohp/limbo/commands/DefaultCommands.java:271-281 | the third word of `gamemode` completes exactly to the online players whose folded name starts with it |

## Left out

- HMAC-SHA256 itself (RFC 2104 over SHA-256) is a function parameter. Its key is the secret's UTF-8 bytes. `InvalidKeyException` and `NoSuchAlgorithmException` cannot arise from a parameter, so they are not modelled.
- ValidateVelocityModernResponse: its ghost count of MACs computed is only a proof device. Constant-time comparison is not claimed, because the source compares with `Arrays.equals`. An empty secret raises `EmptySecret` when reached, because `SecretKeySpec` rejects an empty key. Other key lengths are valid for HMAC and are passed to the MAC parameter.
- ServerProperties.Load: the only failure it models is the missing-secret exit. The source can also fail earlier, before the forwarding flags are read:
  - `Integer.parseInt` of `max-players` or `server-port` (ServerProperties.java:118-119);
  - `level[1]` when `level-name` has no `;` (:123);
  - the `world-spawn` parse with `Double.parseDouble` and `Float.parseFloat` (:126-132).
  These depend on fields outside this core.
- Strings read from the wire are kept as UTF-8 bytes. UTF-8 decoding and its malformed-input replacement are not modelled. `textures` is compared as its ASCII bytes.
- `DataTypeIO.java` is not part of this model. Its readers are written from the wire format the callers rely on.
- The skin response is modelled as a value and signature pair. Mojang API utilities are not part of this model.
- File I/O is left out: loading and storing `server.properties`, creating and reading `whitelist.json`, and the icon. The parsed properties and the parsed JSON (None when unreadable) are inputs, and the merged properties are returned for the caller to write.
- The `server.properties` fields other than forwarding, secrets and `enforce-whitelist` are left out. These are ports, world, spawn, MOTD, resource pack, tab list, view distance and ticks. They involve floating point, text components and world lookups outside this core.
- The console messages and `System.exit(1)` are left out. A missing secret is the error result `MissingForwardingSecret`. The informational messages about disabled modes are not kept.
- The order in which `Properties` iterates its defaults is not modelled: a set is iterated in an arbitrary order. The merge does not depend on the order.
- JSON numbers are kept as their text. A JSON parser is not part of this model.
- Case folding covers ASCII letters only. Java's `toLowerCase` and `equalsIgnoreCase` fold all of Unicode (and `toLowerCase` depends on the locale).
- DefaultCommands.ParseInt: only ASCII digits are accepted. Java also accepts other Unicode decimal digits.
- `trim` removes characters up to U+0020, as Java does. Surrogate pairs are not considered.
- The messages file and `MessageFormat` are left out. A message is its key with its arguments; the text it renders to is not modelled.
- The legacy text serializer is left out. The kick confirmation carries its round trip of the raw reason as an opaque function. The disconnect carries the raw reason text rather than a text component.
- Teleporting, disconnecting, stopping the server, setting a game mode and reloading are effects in the returned list. Their consequences in the game are not modelled.
- DefaultCommands.Gamemode: `GameMode.fromId` and `fromName` are partial functions, with None where they throw. The confirmation names the mode just set. This assumes `setGamemode` stores the mode and `getGamemode` returns it; `Player` is not part of this model.
- Command senders other than the console and players are not modelled. The source's `instanceof Console` and `instanceof Player` tests are the two sender kinds.
- Concurrency is left out: players joining or leaving while a command runs. The player list is a snapshot.

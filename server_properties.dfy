/**
 * Loading the server configuration: the user's properties are completed from the
 * defaults, the forwarding mode is resolved from three flags (failing when a mode that
 * needs a secret has none), and the whitelist is rebuilt from a parsed JSON document.
 *
 * File reading and writing are left to the caller: the parsed properties, the parsed
 * whitelist document and `UUID.fromString` are inputs.
 */
module ServerProperties {
  import opened Wrappers
  import opened DataTypeIO
  import opened Text
  import ForwardingUtils

  /** A `java.util.Properties` table: keys and values are strings. */
  type Properties = map<string, string>

  // ---------------------------------------------------------------------------
  // Defaults merge

  /** The user's properties completed from the defaults: the user's value wins, a default fills a gap. */
  function Merged(def: Properties, user: Properties): (m: Properties)
    ensures m.Keys == def.Keys + user.Keys
  {
    map k | k in def.Keys + user.Keys :: if k in user then user[k] else def[k]
  }

  /** The merge loop: `putIfAbsent` of every default entry into the user's properties. */
  method MergeDefaults(def: Properties, user: Properties) returns (prop: Properties)
    ensures prop == Merged(def, user)
    ensures forall k :: k in def ==> k in prop
    ensures forall k :: k in user ==> k in prop && prop[k] == user[k]
  {
    prop := user;
    var todo := def.Keys;
    while todo != {}
      invariant todo <= def.Keys
      invariant prop.Keys == user.Keys + (def.Keys - todo)
      invariant forall k :: k in prop ==> prop[k] == if k in user then user[k] else def[k]
      decreases |todo|
    {
      var key :| key in todo;
      if key !in prop {
        prop := prop[key := def[key]];
      }
      todo := todo - {key};
    }
  }

  /** Merging again changes nothing: the stored file is already complete. */
  lemma MergeIdempotent(def: Properties, user: Properties)
    ensures Merged(def, Merged(def, user)) == Merged(def, user)
  {
  }

  /** A file that already has every default key is kept exactly as it is. */
  lemma MergeKeepsCompleteFile(def: Properties, user: Properties)
    requires def.Keys <= user.Keys
    ensures Merged(def, user) == user
  {
  }

  // ---------------------------------------------------------------------------
  // Forwarding mode

  /** `getProperty`: the value, or None (Java's null) when the key is absent. */
  function GetProperty(prop: Properties, key: string): Option<string> {
    if key in prop then Some(prop[key]) else None
  }

  /** `Boolean.parseBoolean`: true exactly for "true" in any casing; null is false. */
  predicate ParseBoolean(v: Option<string>) {
    v.Some? && EqualsIgnoreCase(v.value, "true")
  }

  /** The forwarding settings the constructor leaves behind. */
  datatype ForwardingConfig = ForwardingConfig(
    bungeecord: bool,
    velocityModern: bool,
    bungeeGuard: bool,
    forwardType: ForwardingUtils.Type,
    forwardingSecrets: Option<seq<string>>)   // None: the field is never assigned (null)

  /** Why loading stops: the server exits with status 1. */
  datatype LoadError = MissingForwardingSecret

  /** The forwarding mode three flags select, Velocity first, then BungeeGuard, then BungeeCord. */
  function Precedence(velocityModern: bool, bungeeGuard: bool, bungeecord: bool): ForwardingUtils.Type {
    if velocityModern then ForwardingUtils.VelocityModern
    else if bungeeGuard then ForwardingUtils.BungeeGuard
    else if bungeecord then ForwardingUtils.BungeeCord
    else ForwardingUtils.NoForwarding
  }

  /** At most one flag is left set, and the forward type is the one it names. */
  predicate Exclusive(c: ForwardingConfig) {
    && (c.velocityModern ==> !c.bungeeGuard && !c.bungeecord)
    && (c.bungeeGuard ==> !c.bungeecord)
    && (c.forwardType == ForwardingUtils.VelocityModern <==> c.velocityModern)
    && (c.forwardType == ForwardingUtils.BungeeGuard <==> c.bungeeGuard)
    && (c.forwardType == ForwardingUtils.BungeeCord <==> c.bungeecord)
  }

  /**
   * The forwarding part of the constructor: reads the three flags; when Velocity or
   * BungeeGuard is on, a missing or empty `forwarding-secrets` aborts loading, and
   * otherwise the secrets are split on `;`, BungeeCord is switched off, and BungeeGuard
   * too when Velocity is on. The forward type is then read off the remaining flags.
   */
  method ResolveForwarding(prop: Properties) returns (r: Result<ForwardingConfig, LoadError>)
    ensures var vm := ParseBoolean(GetProperty(prop, "velocity-modern"));
            var bg := ParseBoolean(GetProperty(prop, "bungee-guard"));
            var bc := ParseBoolean(GetProperty(prop, "bungeecord"));
            var secrets := GetProperty(prop, "forwarding-secrets");
            && (r.Err? <==> (vm || bg) && (secrets.None? || secrets.value == ""))
            && (r.Ok? ==>
                  && Exclusive(r.value)
                  && r.value.forwardType == Precedence(vm, bg, bc)
                  && r.value.velocityModern == vm
                  && r.value.forwardingSecrets == if vm || bg then Some(Split(secrets.value, ';')) else None)
  {
    var bungeecord := ParseBoolean(GetProperty(prop, "bungeecord"));
    var velocityModern := ParseBoolean(GetProperty(prop, "velocity-modern"));
    var bungeeGuard := ParseBoolean(GetProperty(prop, "bungee-guard"));
    var forwardingSecrets: Option<seq<string>> := None;
    if velocityModern || bungeeGuard {
      var forwardingSecretsStr := GetProperty(prop, "forwarding-secrets");
      if forwardingSecretsStr.None? || forwardingSecretsStr.value == "" {
        return Err(MissingForwardingSecret);
      }
      forwardingSecrets := Some(Split(forwardingSecretsStr.value, ';'));
      if bungeecord {
        bungeecord := false;
      }
      if velocityModern && bungeeGuard {
        bungeeGuard := false;
      }
    }
    var forwardType;
    if velocityModern {
      forwardType := ForwardingUtils.VelocityModern;
    } else if bungeeGuard {
      forwardType := ForwardingUtils.BungeeGuard;
    } else if bungeecord {
      forwardType := ForwardingUtils.BungeeCord;
    } else {
      forwardType := ForwardingUtils.NoForwarding;
    }
    r := Ok(ForwardingConfig(bungeecord, velocityModern, bungeeGuard, forwardType, forwardingSecrets));
  }

  // ---------------------------------------------------------------------------
  // Whitelist

  /** A JSON value as json-simple parses it; numbers are kept as their text. */
  datatype Json =
    | JNull
    | JBool(b: bool)
    | JNumber(literal: string)
    | JString(str: string)
    | JArray(items: seq<Json>)
    | JObject(fields: map<string, Json>)

  /** `UUID.fromString`: a UUID, or None where it throws. */
  type UuidParser = string -> Option<Uuid>

  /** What one array element does to the whitelist being built. */
  datatype Entry =
    | Skip                                  // skipped with a console message
    | Add(uuid: Uuid, name: Option<string>) // put into the map (a null name is None)
    | Halt                                  // an exception: the remaining elements are not read

  /**
   * One element: non-objects and objects whose `uuid` is missing, null or not a string
   * are skipped; a uuid `UUID.fromString` rejects, or a `name` that is neither a string
   * nor null (a failed cast), ends the processing; otherwise the element is added with
   * its name, or a null name when there is none.
   */
  function EntryOf(e: Json, parseUuid: UuidParser): Entry {
    match e
    case JObject(fields) =>
      if "uuid" !in fields || !fields["uuid"].JString? then Skip
      else
        (match parseUuid(fields["uuid"].str)
         case None => Halt
         case Some(u) =>
           if "name" !in fields then Add(u, None)
           else
             match fields["name"]
             case JNull => Add(u, None)
             case JString(n) => Add(u, Some(n))
             case _ => Halt)
    case _ => Skip
  }

  /** `e` adds `u` to the whitelist. */
  predicate Adds(e: Json, parseUuid: UuidParser, u: Uuid) {
    EntryOf(e, parseUuid).Add? && EntryOf(e, parseUuid).uuid == u
  }

  /** The position of the first element that ends the processing, or the length when none does. */
  function FirstHalt(items: seq<Json>, parseUuid: UuidParser): (n: nat)
    ensures n <= |items|
    ensures forall j :: 0 <= j < n ==> EntryOf(items[j], parseUuid) != Halt
    ensures n < |items| ==> EntryOf(items[n], parseUuid) == Halt
  {
    if items == [] then 0
    else if EntryOf(items[0], parseUuid) == Halt then 0
    else 1 + FirstHalt(items[1..], parseUuid)
  }

  /** The map the elements build, in order, later elements overwriting earlier ones. */
  function Collect(items: seq<Json>, parseUuid: UuidParser): map<Uuid, Option<string>> {
    if items == [] then map[]
    else
      var m := Collect(items[..|items| - 1], parseUuid);
      match EntryOf(items[|items| - 1], parseUuid)
      case Add(u, n) => m[u := n]
      case _ => m
  }

  /** The whitelist a document gives: empty unless it is an array, which is read up to the first failure. */
  function WhitelistFrom(json: Option<Json>, parseUuid: UuidParser): map<Uuid, Option<string>> {
    match json
    case Some(JArray(items)) => Collect(items[..FirstHalt(items, parseUuid)], parseUuid)
    case _ => map[]
  }

  /** A UUID is in the collected map exactly when some element adds it. */
  lemma {:induction false} CollectKeys(items: seq<Json>, parseUuid: UuidParser, u: Uuid)
    ensures u in Collect(items, parseUuid) <==> exists j :: 0 <= j < |items| && Adds(items[j], parseUuid, u)
    decreases |items|
  {
    if items != [] {
      var front := items[..|items| - 1];
      CollectKeys(front, parseUuid, u);
      if u in Collect(front, parseUuid) {
        var j :| 0 <= j < |front| && Adds(front[j], parseUuid, u);
        assert items[j] == front[j];
      }
      if j :| 0 <= j < |items| && Adds(items[j], parseUuid, u) {
        if j < |front| {
          assert front[j] == items[j];
        }
      }
    }
  }

  /** The name kept for a UUID is the one of the last element that adds it. */
  lemma {:induction false} CollectLastWins(items: seq<Json>, parseUuid: UuidParser, j: nat)
    requires j < |items| && EntryOf(items[j], parseUuid).Add?
    requires forall k :: j < k < |items| ==> !Adds(items[k], parseUuid, EntryOf(items[j], parseUuid).uuid)
    ensures EntryOf(items[j], parseUuid).uuid in Collect(items, parseUuid)
    ensures Collect(items, parseUuid)[EntryOf(items[j], parseUuid).uuid] == EntryOf(items[j], parseUuid).name
    decreases |items|
  {
    if j < |items| - 1 {
      var front := items[..|items| - 1];
      assert front[j] == items[j];
      CollectLastWins(front, parseUuid, j);
    }
  }

  /**
   * `uuidWhitelisted` after a reload: a UUID is whitelisted exactly when an element
   * before the first failing one adds it.
   */
  lemma WhitelistMembership(items: seq<Json>, parseUuid: UuidParser, u: Uuid)
    ensures u in WhitelistFrom(Some(JArray(items)), parseUuid)
            <==> exists j :: 0 <= j < FirstHalt(items, parseUuid) && Adds(items[j], parseUuid, u)
  {
    var n := FirstHalt(items, parseUuid);
    CollectKeys(items[..n], parseUuid, u);
    assert forall j :: 0 <= j < n ==> items[..n][j] == items[j];
  }

  /**
   * An element that ends the processing keeps what was added before it and drops
   * everything after it.
   */
  lemma HaltKeepsEarlier(front: seq<Json>, bad: Json, back: seq<Json>, parseUuid: UuidParser)
    requires forall j :: 0 <= j < |front| ==> EntryOf(front[j], parseUuid) != Halt
    requires EntryOf(bad, parseUuid) == Halt
    ensures WhitelistFrom(Some(JArray(front + [bad] + back)), parseUuid) == Collect(front, parseUuid)
    ensures WhitelistFrom(Some(JArray(front + [bad] + back)), parseUuid) == WhitelistFrom(Some(JArray(front)), parseUuid)
  {
    var items := front + [bad] + back;
    FirstHaltIsLeast(items, parseUuid, |front|);
    assert items[..|front|] == front;
    FirstHaltIsLeast(front, parseUuid, |front|);
    assert front[..|front|] == front;
  }

  /** A position before which no element fails, and at which one does (or the end), is the first failure. */
  lemma {:induction false} FirstHaltIsLeast(items: seq<Json>, parseUuid: UuidParser, n: nat)
    requires n <= |items|
    requires forall j :: 0 <= j < n ==> EntryOf(items[j], parseUuid) != Halt
    requires n < |items| ==> EntryOf(items[n], parseUuid) == Halt
    ensures FirstHalt(items, parseUuid) == n
  {
  }

  /** A whitelist document that is not an array gives an empty whitelist. */
  lemma NonArrayGivesEmpty(json: Option<Json>, parseUuid: UuidParser)
    requires json.None? || !json.value.JArray?
    ensures WhitelistFrom(json, parseUuid) == map[]
  {
  }

  // ---------------------------------------------------------------------------
  // The loaded configuration

  class ServerProperties {
    var forwardType: ForwardingUtils.Type
    var forwardingSecrets: Option<seq<string>>
    var enforceWhitelist: bool
    var whitelist: map<Uuid, Option<string>>

    constructor (forwarding: ForwardingConfig, enforce: bool)
      ensures forwardType == forwarding.forwardType
      ensures forwardingSecrets == forwarding.forwardingSecrets
      ensures enforceWhitelist == enforce
      ensures whitelist == map[]
    {
      forwardType := forwarding.forwardType;
      forwardingSecrets := forwarding.forwardingSecrets;
      enforceWhitelist := enforce;
      whitelist := map[];
    }

    predicate IsBungeecord()
      reads this
    {
      forwardType == ForwardingUtils.BungeeCord
    }

    predicate IsVelocityModern()
      reads this
    {
      forwardType == ForwardingUtils.VelocityModern
    }

    predicate IsBungeeGuard()
      reads this
    {
      forwardType == ForwardingUtils.BungeeGuard
    }

    predicate UuidWhitelisted(u: Uuid)
      reads this
    {
      u in whitelist
    }

    /**
     * `reloadWhitelist`: starts from an empty map; a document that could not be read or
     * is not an array leaves it empty; otherwise the elements are processed in order,
     * skipping the unusable ones, until one of them fails.
     */
    method ReloadWhitelist(json: Option<Json>, parseUuid: UuidParser)
      modifies this
      ensures whitelist == WhitelistFrom(json, parseUuid)
      ensures forwardType == old(forwardType) && forwardingSecrets == old(forwardingSecrets)
      ensures enforceWhitelist == old(enforceWhitelist)
    {
      whitelist := map[];
      if json.None? || !json.value.JArray? {
        return;
      }
      var items := json.value.items;
      var i := 0;
      while i < |items|
        invariant 0 <= i <= FirstHalt(items, parseUuid)
        invariant whitelist == Collect(items[..i], parseUuid)
        invariant forwardType == old(forwardType) && forwardingSecrets == old(forwardingSecrets)
        invariant enforceWhitelist == old(enforceWhitelist)
      {
        var o := items[i];
        assert items[..i + 1][..i] == items[..i] && items[..i + 1][i] == o;
        assert i < FirstHalt(items, parseUuid) || EntryOf(o, parseUuid) == Halt;
        if !o.JObject? {
          i := i + 1;
          continue;
        }
        var element := o.fields;
        if "uuid" !in element || !element["uuid"].JString? {
          i := i + 1;
          continue;
        }
        var uuid := parseUuid(element["uuid"].str);
        if uuid.None? {
          break;
        }
        var name: Option<string> := None;
        if "name" in element {
          match element["name"]
          case JNull =>
          case JString(n) =>
            name := Some(n);
          case _ =>
            break;
        }
        whitelist := whitelist[uuid.value := name];
        i := i + 1;
      }
      FirstHaltIsLeast(items, parseUuid, i);
    }
  }

  /**
   * `uuidWhitelisted` once the whitelist is loaded from an array: true exactly for the
   * UUIDs an element before the first failing one adds.
   */
  lemma WhitelistedAfterReload(p: ServerProperties, items: seq<Json>, parseUuid: UuidParser, u: Uuid)
    requires p.whitelist == WhitelistFrom(Some(JArray(items)), parseUuid)
    ensures p.UuidWhitelisted(u) <==> exists j :: 0 <= j < FirstHalt(items, parseUuid) && Adds(items[j], parseUuid, u)
  {
    WhitelistMembership(items, parseUuid, u);
  }

  /** At most one forwarding check holds, and none does exactly when there is no forwarding. */
  lemma ForwardingChecksExclusive(p: ServerProperties)
    ensures !(p.IsBungeecord() && p.IsVelocityModern())
    ensures !(p.IsBungeecord() && p.IsBungeeGuard())
    ensures !(p.IsVelocityModern() && p.IsBungeeGuard())
    ensures !p.IsBungeecord() && !p.IsVelocityModern() && !p.IsBungeeGuard()
            <==> p.forwardType == ForwardingUtils.NoForwarding
  {
  }

  /**
   * The constructor: completes the properties from the defaults and writes them back
   * to the file (`written`, before anything can fail), resolves forwarding (failing as
   * the server's exit does), reads `enforce-whitelist` and loads the whitelist.
   */
  method Load(def: Properties, user: Properties, whitelistJson: Option<Json>, parseUuid: UuidParser)
    returns (written: Properties, r: Result<ServerProperties, LoadError>)
    ensures written == Merged(def, user)
    ensures r.Ok? ==> fresh(r.value)
    ensures var prop := Merged(def, user);
            var vm := ParseBoolean(GetProperty(prop, "velocity-modern"));
            var bg := ParseBoolean(GetProperty(prop, "bungee-guard"));
            var bc := ParseBoolean(GetProperty(prop, "bungeecord"));
            && (r.Err? <==> (vm || bg) && (GetProperty(prop, "forwarding-secrets").None? || prop["forwarding-secrets"] == ""))
            && (r.Ok? ==>
                  && r.value.forwardType == Precedence(vm, bg, bc)
                  && r.value.forwardingSecrets ==
                       (if vm || bg then Some(Split(GetProperty(prop, "forwarding-secrets").value, ';')) else None)
                  && r.value.enforceWhitelist == ParseBoolean(GetProperty(prop, "enforce-whitelist"))
                  && r.value.whitelist == WhitelistFrom(whitelistJson, parseUuid))
  {
    var prop := MergeDefaults(def, user);
    written := prop;
    var forwarding := ResolveForwarding(prop);
    if forwarding.Err? {
      return written, Err(forwarding.error);
    }
    var enforce := ParseBoolean(GetProperty(prop, "enforce-whitelist"));
    var properties := new ServerProperties(forwarding.value, enforce);
    properties.ReloadWhitelist(whitelistJson, parseUuid);
    r := Ok(properties);
  }
}

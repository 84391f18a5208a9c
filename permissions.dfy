/**
 * Permission and Patreon decisions about a user (`UserExtensions`). A guild
 * member is the set of role IDs it holds; a user who is not a member of the
 * configured guild is `None`.
 */
module Permissions {
  import opened Common

  datatype PermissionLevel = Default | Unifursal | GreetFur | Moderator | Developer | Administrator

  /** The role IDs that grant permissions, from the bot configuration. */
  datatype RoleConfig = RoleConfig(
    administratorRoleID: nat,
    developerRoleID: nat,
    moderatorRoleID: nat,
    greetFurRoleID: nat,
    unifursalRoleID: nat)

  /** How much a level allows, Default lowest. */
  function Rank(level: PermissionLevel): (r: nat)
    ensures r <= 5
    ensures r == 0 <==> level == Default
  {
    match level
    case Default => 0
    case Unifursal => 1
    case GreetFur => 2
    case Moderator => 3
    case Developer => 4
    case Administrator => 5
  }

  /** The roles in the order they are checked, each with the level it gives. */
  function Precedence(config: RoleConfig): (order: seq<(nat, PermissionLevel)>)
    ensures |order| == 5
    ensures forall k :: 0 <= k < 5 ==> Rank(order[k].1) == 5 - k
  {
    [(config.administratorRoleID, Administrator),
     (config.developerRoleID, Developer),
     (config.moderatorRoleID, Moderator),
     (config.greetFurRoleID, GreetFur),
     (config.unifursalRoleID, Unifursal)]
  }

  lemma PrecedenceEntries(config: RoleConfig)
    ensures var order := Precedence(config);
            && order[0] == (config.administratorRoleID, Administrator)
            && order[1] == (config.developerRoleID, Developer)
            && order[2] == (config.moderatorRoleID, Moderator)
            && order[3] == (config.greetFurRoleID, GreetFur)
            && order[4] == (config.unifursalRoleID, Unifursal)
  {
  }

  /** `GetPermissionLevel`: `Default` for a non-member; otherwise the level of
      the first role held in the order Administrator, Developer, Moderator,
      GreetFur, Unifursal, and `Default` when none is held. */
  function GetPermissionLevel(member: Option<set<nat>>, config: RoleConfig): (level: PermissionLevel)
    ensures member.None? ==> level == Default
    ensures member.Some? ==>
              (level == Default <==> forall k :: 0 <= k < 5 ==> Precedence(config)[k].0 !in member.value)
    ensures member.Some? ==>
              forall k :: 0 <= k < 5 && Precedence(config)[k].0 in member.value
                          && (forall j :: 0 <= j < k ==> Precedence(config)[j].0 !in member.value)
                          ==> level == Precedence(config)[k].1
  {
    if member.None? then Default
    else
      var roles := member.value;
      PrecedenceEntries(config);
      if config.administratorRoleID in roles then Administrator
      else if config.developerRoleID in roles then Developer
      else if config.moderatorRoleID in roles then Moderator
      else if config.greetFurRoleID in roles then GreetFur
      else if config.unifursalRoleID in roles then Unifursal
      else Default
  }

  /** The position of the first role held, when one is. */
  lemma FirstHeld(order: seq<(nat, PermissionLevel)>, roles: set<nat>) returns (k: int)
    requires exists i :: 0 <= i < |order| && order[i].0 in roles
    ensures 0 <= k < |order| && order[k].0 in roles
    ensures forall j :: 0 <= j < k ==> order[j].0 !in roles
  {
    k := 0;
    while order[k].0 !in roles
      invariant 0 <= k < |order|
      invariant forall j :: 0 <= j < k ==> order[j].0 !in roles
      decreases |order| - k
    {
      k := k + 1;
    }
  }

  /** Gaining roles never lowers a member's permission level. */
  lemma GainingRolesNeverLowers(roles: set<nat>, more: set<nat>, config: RoleConfig)
    requires roles <= more
    ensures Rank(GetPermissionLevel(Some(roles), config)) <= Rank(GetPermissionLevel(Some(more), config))
  {
    var order := Precedence(config);
    var before := GetPermissionLevel(Some(roles), config);
    var after := GetPermissionLevel(Some(more), config);
    if before != Default {
      var k := FirstHeld(order, roles);
      var k' := FirstHeld(order, more);
      assert k' <= k;
      assert before == order[k].1 && after == order[k'].1;
    }
  }

  // ---------------------------------------------------------------------------
  // Patreon tier
  // ---------------------------------------------------------------------------

  /** The tier of the highest of the first `n` Patreon roles held: its index
      plus one, or 0 when none of them is held. */
  function TopTier(roles: set<nat>, patreonRoleIDs: seq<nat>, n: nat): (tier: nat)
    requires n <= |patreonRoleIDs|
    ensures tier <= n
    ensures tier == 0 <==> forall i :: 0 <= i < n ==> patreonRoleIDs[i] !in roles
    ensures tier > 0 ==> patreonRoleIDs[tier - 1] in roles
    ensures forall i :: tier <= i < n ==> patreonRoleIDs[i] !in roles
  {
    if n == 0 then 0
    else if patreonRoleIDs[n - 1] in roles then n
    else TopTier(roles, patreonRoleIDs, n - 1)
  }

  /** Gaining roles never lowers the Patreon tier. */
  lemma {:induction false} TierMonotone(roles: set<nat>, more: set<nat>, patreonRoleIDs: seq<nat>, n: nat)
    requires roles <= more && n <= |patreonRoleIDs|
    ensures TopTier(roles, patreonRoleIDs, n) <= TopTier(more, patreonRoleIDs, n)
  {
    if n > 0 && patreonRoleIDs[n - 1] !in more {
      TierMonotone(roles, more, patreonRoleIDs, n - 1);
    }
  }

  /** `GetPatreonTier`: searches the Patreon roles from the last down and
      returns the index plus one of the first one held, or 0. The guild
      member is only looked at when there is a role to test, so a non-member
      throws only then. */
  method GetPatreonTier(member: Option<set<nat>>, patreonRoleIDs: seq<nat>) returns (r: Outcome<int>)
    ensures |patreonRoleIDs| == 0 ==> r == Ok(0)
    ensures |patreonRoleIDs| > 0 && member.None? ==> r == Thrown("NullReferenceException")
    ensures member.Some? ==> r == Ok(TopTier(member.value, patreonRoleIDs, |patreonRoleIDs|))
  {
    var i := |patreonRoleIDs| - 1;
    while i >= 0
      invariant -1 <= i < |patreonRoleIDs|
      invariant member.Some? ==>
                  TopTier(member.value, patreonRoleIDs, |patreonRoleIDs|) == TopTier(member.value, patreonRoleIDs, i + 1)
      invariant i < |patreonRoleIDs| - 1 ==> member.Some?
    {
      if member.None? {
        return Thrown("NullReferenceException");
      }
      if patreonRoleIDs[i] in member.value {
        return Ok(i + 1);
      }
      i := i - 1;
    }
    return Ok(0);
  }

  // ---------------------------------------------------------------------------
  // User information
  // ---------------------------------------------------------------------------

  /** `GetUserInformation`: "{Username}#{Discriminator} ({Mention}) ({Id})".
      The prefix, the suffix and the length together fix the text: nothing
      lies between the opening parenthesis and the ID. */
  function GetUserInformation(username: string, discriminator: string, mention: string, id: nat): (r: string)
    ensures StartsWith(r, username + "#" + discriminator + " (" + mention + ") (")
    ensures EndsWith(r, "(" + NatToString(id) + ")")
    ensures |r| == |username| + |discriminator| + |mention| + |NatToString(id)| + 7
  {
    var head := username + "#" + discriminator + " (" + mention + ") (";
    var r := head + NatToString(id) + ")";
    assert r[..|head|] == head;
    assert r[|r| - |NatToString(id)| - 2..] == "(" + NatToString(id) + ")";
    r
  }

  /** The ID can be read back from the end of the text: the digits before
      the closing parenthesis, after the last opening one. */
  lemma UserIdReadBack(username: string, discriminator: string, mention: string, id: nat)
    ensures var r := GetUserInformation(username, discriminator, mention, id);
            var digits := NatToString(id);
            && r[|r| - 1] == ')'
            && r[|r| - |digits| - 2] == '('
            && DigitsValue(r[|r| - |digits| - 1..|r| - 1]) == id
            && !ContainsChar(r[|r| - |digits| - 1..|r| - 1], '(')
  {
    var r := GetUserInformation(username, discriminator, mention, id);
    var digits := NatToString(id);
    assert r[|r| - |digits| - 2..] == "(" + digits + ")";
    assert r[|r| - |digits| - 1..|r| - 1] == digits;
    DigitsValueOfNatToString(id);
  }
}

/**
 * Experience and ranked roles (`LevelingService`). Experience grants are
 * recorded in a ledger instead of being written to the levels database;
 * roles are identified by their IDs; the random amounts come from the
 * injected generator.
 */
module Leveling {
  import opened Common

  /** The parts of `LevelingConfiguration` these decisions read. */
  datatype LevelingConfig = LevelingConfig(
    handleRoles: bool,
    memberRoleLevel: int,
    memberRoleID: nat,
    levels: seq<(int, nat)>,
    nicknameDisabledRole: nat,
    nicknameDisabledReplacement: nat,
    voiceCountMutedMembers: bool,
    vcMinUsers: int,
    disabledVCs: set<nat>,
    vcMinXPGiven: int,
    vcMaxXPGiven: int,
    manageTextXP: bool,
    disabledTCs: set<nat>,
    textMinXPGiven: int,
    textMaxXPGiven: int)

  // ---------------------------------------------------------------------------
  // Experience amounts: `Random.Next(min, max + 1)`
  // ---------------------------------------------------------------------------

  /** The exclusive bound `max + 1`, computed in unchecked Int32 arithmetic:
      it wraps to `int.MinValue` at `int.MaxValue`. */
  function DrawBound(max: int): (b: int)
    ensures IsInt32(max) && max < INT32_MAX ==> b == max + 1
    ensures max == INT32_MAX ==> b == INT32_MIN
  {
    Wrap32(max + 1)
  }

  /** `Random.Next(min, max + 1)` throws `ArgumentOutOfRangeException` when
      its bound is below `min`. */
  predicate DrawThrows(min: int, max: int) { min > DrawBound(max) }

  /** What `Random.Next(min, max + 1)` returns when it does not throw: `min`
      itself (the only value when the bound equals `min`), or a value from
      `min` up to the bound. */
  predicate InDrawRange(amount: int, min: int, max: int)
  {
    amount == min || min <= amount < DrawBound(max)
  }

  /** On Int32 bounds the draw throws exactly when `min` exceeds `max + 1`,
      or when `max` is `int.MaxValue` and `min` is not `int.MinValue`. An
      ordered range below `int.MaxValue` gives an amount in `[min, max]`;
      a range that does not throw otherwise gives `min`. */
  lemma DrawRange(min: int, max: int, amount: int)
    requires IsInt32(min) && IsInt32(max)
    ensures DrawThrows(min, max) <==> min > max + 1 || (max == INT32_MAX && min != INT32_MIN)
    ensures min <= max < INT32_MAX ==> !DrawThrows(min, max) && (InDrawRange(amount, min, max) <==> min <= amount <= max)
    ensures !DrawThrows(min, max) && (min > max || max == INT32_MAX) ==> (InDrawRange(amount, min, max) <==> amount == min)
  {
  }

  // ---------------------------------------------------------------------------
  // Ranked roles
  // ---------------------------------------------------------------------------

  /** The member role is due: it is configured, the level reaches it and it
      is not held yet. */
  predicate MemberRoleDue(config: LevelingConfig, level: int, roles: set<nat>)
  {
    config.memberRoleLevel > 0 && level >= config.memberRoleLevel && config.memberRoleID !in roles
  }

  /** The rank roles to add among the first `n` ranks, in rank order. */
  function RankAdds(ranks: seq<(int, nat)>, n: nat, level: int, roles: set<nat>): seq<nat>
    requires n <= |ranks|
  {
    if n == 0 then []
    else
      var rank := ranks[n - 1];
      RankAdds(ranks, n - 1, level, roles) + (if level >= rank.0 && rank.1 !in roles then [rank.1] else [])
  }

  /** The rank roles added are those of the ranks reached whose role is not
      held. */
  lemma {:induction false} RankAddsMembers(ranks: seq<(int, nat)>, n: nat, level: int, roles: set<nat>)
    requires n <= |ranks|
    ensures forall r :: r in RankAdds(ranks, n, level, roles) <==>
              exists i :: 0 <= i < n && level >= ranks[i].0 && ranks[i].1 == r && r !in roles
  {
    if n > 0 {
      RankAddsMembers(ranks, n - 1, level, roles);
    }
  }

  /** The rank roles to remove among the first `n` ranks: only with
      `removeExtra`, for ranks above the level whose role is held. */
  function RankRemoves(ranks: seq<(int, nat)>, n: nat, level: int, roles: set<nat>, removeExtra: bool): (removes: seq<nat>)
    requires n <= |ranks|
    ensures !removeExtra ==> removes == []
  {
    if n == 0 then []
    else
      var rank := ranks[n - 1];
      RankRemoves(ranks, n - 1, level, roles, removeExtra)
      + (if removeExtra && level < rank.0 && rank.1 in roles then [rank.1] else [])
  }

  /** The rank roles removed are those of the ranks above the level whose
      role is held, and only with `removeExtra`. */
  lemma {:induction false} RankRemovesMembers(ranks: seq<(int, nat)>, n: nat, level: int, roles: set<nat>, removeExtra: bool)
    requires n <= |ranks|
    ensures forall r :: r in RankRemoves(ranks, n, level, roles, removeExtra) <==>
              removeExtra && exists i :: 0 <= i < n && level < ranks[i].0 && ranks[i].1 == r && r in roles
  {
    if n > 0 {
      RankRemovesMembers(ranks, n - 1, level, roles, removeExtra);
    }
  }

  /** `List.Remove`: drops the first occurrence, if any. */
  function RemoveFirst(s: seq<nat>, x: nat): (r: seq<nat>)
    ensures x !in s ==> r == s
    ensures multiset(r) == multiset(s) - multiset{x}
  {
    if s == [] then []
    else
      assert s == [s[0]] + s[1..];
      if s[0] == x then s[1..]
      else [s[0]] + RemoveFirst(s[1..], x)
  }

  /** The roles `UpdateRoles` adds and removes for a member holding `roles`
      at `level`: the member role, then every rank reached and not held;
      the rank roles above the level that are held when `removeExtra` is
      set; and, for a member whose nickname is disabled, the replacement role
      moved from the additions to the removals. */
  /** The roles to add before the nickname rule: the member role when it
      is due, then the rank roles in rank order. */
  function BaseAdds(config: LevelingConfig, level: int, roles: set<nat>): seq<nat>
  {
    (if MemberRoleDue(config, level, roles) then [config.memberRoleID] else [])
    + RankAdds(config.levels, |config.levels|, level, roles)
  }

  function RoleDiff(config: LevelingConfig, level: int, roles: set<nat>, removeExtra: bool): (diff: (seq<nat>, seq<nat>))
  {
    var ranks := config.levels;
    var adds := BaseAdds(config, level, roles);
    var removes := RankRemoves(ranks, |ranks|, level, roles, removeExtra);
    var nicknameDisabled := config.nicknameDisabledRole in roles;
    var repl := config.nicknameDisabledReplacement;
    (if nicknameDisabled then RemoveFirst(adds, repl) else adds,
     removes + (if nicknameDisabled && repl in roles then [repl] else []))
  }

  /** Every role added is one not held and every role removed is one held,
      so no role is both added and removed. */
  lemma RoleDiffDisjoint(config: LevelingConfig, level: int, roles: set<nat>, removeExtra: bool)
    ensures var (toAdd, toRemove) := RoleDiff(config, level, roles, removeExtra);
            && (forall r :: r in toAdd ==> r !in roles)
            && (forall r :: r in toRemove ==> r in roles)
            && (forall r :: !(r in toAdd && r in toRemove))
  {
    var ranks := config.levels;
    RankAddsMembers(ranks, |ranks|, level, roles);
    RankRemovesMembers(ranks, |ranks|, level, roles, removeExtra);
    var (toAdd, _) := RoleDiff(config, level, roles, removeExtra);
    var adds := BaseAdds(config, level, roles);
    forall r | r in toAdd ensures r in adds {
      assert multiset(toAdd)[r] > 0;
    }
  }

  /** Which ranks change: a rank role is added exactly when its level is
      reached and it is not held; it is removed (apart from the nickname
      replacement) only with `removeExtra`, above the level and held. The
      member role is added exactly when due. */
  lemma RoleDiffRanks(config: LevelingConfig, level: int, roles: set<nat>, removeExtra: bool, i: int)
    requires 0 <= i < |config.levels|
    requires config.nicknameDisabledRole !in roles
    ensures var (toAdd, toRemove) := RoleDiff(config, level, roles, removeExtra);
            var rank := config.levels[i];
            && (level >= rank.0 && rank.1 !in roles ==> rank.1 in toAdd)
            && (removeExtra && level < rank.0 && rank.1 in roles ==> rank.1 in toRemove)
            && (!removeExtra ==> toRemove == [])
            && (MemberRoleDue(config, level, roles) ==> |toAdd| > 0 && toAdd[0] == config.memberRoleID)
  {
    RankAddsMembers(config.levels, |config.levels|, level, roles);
    RankRemovesMembers(config.levels, |config.levels|, level, roles, removeExtra);
  }

  /** A member whose nickname is disabled is not given the replacement role
      when the additions held it at most once (`List.Remove` drops a single
      occurrence), and loses it when it was held. */
  lemma NicknameReplacementWithheld(config: LevelingConfig, level: int, roles: set<nat>, removeExtra: bool)
    requires config.nicknameDisabledRole in roles
    requires multiset(BaseAdds(config, level, roles))[config.nicknameDisabledReplacement] <= 1
    ensures var (toAdd, toRemove) := RoleDiff(config, level, roles, removeExtra);
            && config.nicknameDisabledReplacement !in toAdd
            && (config.nicknameDisabledReplacement in roles ==> config.nicknameDisabledReplacement in toRemove)
  {
    var (toAdd, _) := RoleDiff(config, level, roles, removeExtra);
    assert multiset(toAdd)[config.nicknameDisabledReplacement] == 0;
  }

  // ---------------------------------------------------------------------------
  // Voice experience
  // ---------------------------------------------------------------------------

  datatype VoiceUser = VoiceUser(
    id: nat, isBot: bool, isDeafened: bool, isSelfDeafened: bool,
    isMuted: bool, isSelfMuted: bool, isSuppressed: bool)

  datatype VoiceChannel = VoiceChannel(id: nat, users: seq<VoiceUser>)

  /** A user the channel's head count includes; muted users count only when
      the configuration says so. */
  predicate Counted(u: VoiceUser, restricted: set<nat>, countMuted: bool)
  {
    !(u.isBot || u.isDeafened || u.isSelfDeafened || u.id in restricted
      || (!countMuted && (u.isMuted || u.isSelfMuted || u.isSuppressed)))
  }

  /** A user who is given voice experience. */
  predicate Receives(u: VoiceUser, restricted: set<nat>)
  {
    !(u.isMuted || u.isDeafened || u.isSelfMuted || u.isSelfDeafened || u.isSuppressed
      || u.isBot || u.id in restricted)
  }

  /** Whoever receives experience was also counted, whatever the setting for
      muted members. */
  lemma ReceiversAreCounted(u: VoiceUser, restricted: set<nat>, countMuted: bool)
    requires Receives(u, restricted)
    ensures Counted(u, restricted, countMuted)
  {
  }

  /** How many of the first `n` users are counted. */
  function CountedIn(users: seq<VoiceUser>, n: nat, restricted: set<nat>, countMuted: bool): (c: nat)
    requires n <= |users|
    ensures c <= n
  {
    if n == 0 then 0
    else CountedIn(users, n - 1, restricted, countMuted) + (if Counted(users[n - 1], restricted, countMuted) then 1 else 0)
  }

  /** The IDs of the users among the first `n` who receive experience. */
  function ReceiversIn(users: seq<VoiceUser>, n: nat, restricted: set<nat>): (ids: seq<nat>)
    requires n <= |users|
    ensures |ids| <= n
  {
    if n == 0 then []
    else ReceiversIn(users, n - 1, restricted) + (if Receives(users[n - 1], restricted) then [users[n - 1].id] else [])
  }

  /** The receivers are exactly the users who pass the stricter filter. */
  lemma {:induction false} ReceiversMembers(users: seq<VoiceUser>, n: nat, restricted: set<nat>)
    requires n <= |users|
    ensures forall k :: k in ReceiversIn(users, n, restricted) <==>
              exists i :: 0 <= i < n && Receives(users[i], restricted) && users[i].id == k
  {
    if n > 0 {
      ReceiversMembers(users, n - 1, restricted);
    }
  }

  /** A channel grants experience when enough users are counted in it and it
      is not disabled. */
  predicate ChannelGrants(ch: VoiceChannel, restricted: set<nat>, config: LevelingConfig)
  {
    CountedIn(ch.users, |ch.users|, restricted, config.voiceCountMutedMembers) >= config.vcMinUsers
    && ch.id !in config.disabledVCs
  }

  /** Who receives voice experience in the first `n` channels, in order. */
  function VoiceRecipients(channels: seq<VoiceChannel>, n: nat, restricted: set<nat>, config: LevelingConfig): seq<nat>
    requires n <= |channels|
  {
    if n == 0 then []
    else
      var ch := channels[n - 1];
      VoiceRecipients(channels, n - 1, restricted, config)
      + (if ChannelGrants(ch, restricted, config) then ReceiversIn(ch.users, |ch.users|, restricted) else [])
  }

  /** Every recipient is a user who passes the stricter filter, in a channel
      with enough counted users that is not disabled. */
  lemma {:induction false} RecipientEligible(channels: seq<VoiceChannel>, n: nat, restricted: set<nat>,
                                             config: LevelingConfig, k: nat)
    returns (c: int, i: int)
    requires n <= |channels| && k in VoiceRecipients(channels, n, restricted, config)
    ensures 0 <= c < n && 0 <= i < |channels[c].users|
    ensures ChannelGrants(channels[c], restricted, config)
    ensures Receives(channels[c].users[i], restricted) && channels[c].users[i].id == k
  {
    if k in VoiceRecipients(channels, n - 1, restricted, config) {
      c, i := RecipientEligible(channels, n - 1, restricted, config, k);
    } else {
      c := n - 1;
      var ch := channels[c];
      ReceiversMembers(ch.users, |ch.users|, restricted);
      i :| 0 <= i < |ch.users| && Receives(ch.users[i], restricted) && ch.users[i].id == k;
    }
  }

  /** An experience grant written to the levels database. */
  datatype Grant = Grant(userId: nat, amount: int, isText: bool)

  function GrantIds(gs: seq<Grant>): (ids: seq<nat>)
    ensures |ids| == |gs|
    ensures forall i :: 0 <= i < |gs| ==> ids[i] == gs[i].userId
  {
    if gs == [] then [] else GrantIds(gs[..|gs| - 1]) + [gs[|gs| - 1].userId]
  }

  /** All grants are of one kind, with an amount `Random.Next(min, max + 1)`
      can return. */
  predicate GrantsWithin(gs: seq<Grant>, isText: bool, min: int, max: int)
  {
    forall g :: g in gs ==> g.isText == isText && InDrawRange(g.amount, min, max)
  }

  /** A text message as the handler sees it. */
  datatype Message = Message(authorId: nat, authorIsBot: bool, channelId: nat, isDM: bool)

  class LevelingService {
    const config: LevelingConfig
    const rng: Rng
    /** `OnTextCooldowns`: the users who already earned text experience in
        this interval. */
    var cooldowns: set<nat>
    /** Every experience grant made, in order. */
    var grants: seq<Grant>

    constructor (config: LevelingConfig, rng: Rng)
      ensures this.config == config && this.rng == rng
      ensures cooldowns == {} && grants == []
    {
      this.config := config;
      this.rng := rng;
      cooldowns := {};
      grants := [];
    }

    /** Whether a message earns text experience right now. */
    predicate Earns(message: Message)
      reads this
    {
      && config.manageTextXP
      && !message.authorIsBot
      && !message.isDM && message.channelId !in config.disabledTCs
      && message.authorId !in cooldowns
    }

    /** `UpdateRoles`: nothing changes for a missing user, when role handling
        is off, or when the level is to be looked up (a negative `level`) and
        the user has no level record; otherwise the roles of `RoleDiff`, and
        whether there were any. */
    method UpdateRoles(user: Option<set<nat>>, storedLevel: Option<int>, removeExtra: bool, level: int)
      returns (changed: bool, toAdd: seq<nat>, toRemove: seq<nat>)
      ensures user.None? || !config.handleRoles || (level < 0 && storedLevel.None?) ==>
                !changed && toAdd == [] && toRemove == []
      ensures user.Some? && config.handleRoles && (level >= 0 || storedLevel.Some?) ==>
                var effective := if level < 0 then storedLevel.value else level;
                toAdd == RoleDiff(config, effective, user.value, removeExtra).0
                && toRemove == RoleDiff(config, effective, user.value, removeExtra).1
      ensures changed <==> toAdd != [] || toRemove != []
      ensures user.Some? ==> (forall r :: r in toAdd ==> r !in user.value) && (forall r :: r in toRemove ==> r in user.value)
    {
      if user.None? || !config.handleRoles {
        return false, [], [];
      }
      var lvl := level;
      if lvl < 0 {
        if storedLevel.None? {
          return false, [], [];
        }
        lvl := storedLevel.value;
      }
      toAdd, toRemove := RoleChanges(lvl, user.value, removeExtra);
      RoleDiffDisjoint(config, lvl, user.value, removeExtra);
      changed := |toAdd| > 0 || |toRemove| > 0;
    }

    /** The lists `UpdateRoles` builds for a member holding `roles` at
        `level`. */
    method RoleChanges(level: int, roles: set<nat>, removeExtra: bool) returns (toAdd: seq<nat>, toRemove: seq<nat>)
      ensures toAdd == RoleDiff(config, level, roles, removeExtra).0
      ensures toRemove == RoleDiff(config, level, roles, removeExtra).1
    {
      toAdd, toRemove := BaseChanges(level, roles, removeExtra);
      if config.nicknameDisabledRole in roles {
        var repl := config.nicknameDisabledReplacement;
        if repl in roles {
          toRemove := toRemove + [repl];
        }
        if repl in toAdd {
          toAdd := RemoveFirst(toAdd, repl);
        }
      }
    }

    /** The member role and the rank loop of `UpdateRoles`, before the
        nickname rule. */
    method BaseChanges(level: int, roles: set<nat>, removeExtra: bool) returns (toAdd: seq<nat>, toRemove: seq<nat>)
      ensures toAdd == BaseAdds(config, level, roles)
      ensures toRemove == RankRemoves(config.levels, |config.levels|, level, roles, removeExtra)
    {
      toAdd := [];
      if config.memberRoleLevel > 0 && level >= config.memberRoleLevel && config.memberRoleID !in roles {
        toAdd := toAdd + [config.memberRoleID];
      }
      var rankAdds, rankRemoves := RankChanges(level, roles, removeExtra);
      toAdd := toAdd + rankAdds;
      toRemove := rankRemoves;
    }

    /** The loop of `UpdateRoles` over the ranks. */
    method RankChanges(level: int, roles: set<nat>, removeExtra: bool) returns (toAdd: seq<nat>, toRemove: seq<nat>)
      ensures toAdd == RankAdds(config.levels, |config.levels|, level, roles)
      ensures toRemove == RankRemoves(config.levels, |config.levels|, level, roles, removeExtra)
    {
      toAdd := [];
      toRemove := [];
      var ranks := config.levels;
      var k := 0;
      while k < |ranks|
        invariant 0 <= k <= |ranks|
        invariant toAdd == RankAdds(ranks, k, level, roles)
        invariant toRemove == RankRemoves(ranks, k, level, roles, removeExtra)
      {
        var rank := ranks[k];
        if level >= rank.0 && rank.1 !in roles {
          toAdd := toAdd + [rank.1];
        } else if removeExtra && level < rank.0 && rank.1 in roles {
          toRemove := toRemove + [rank.1];
        }
        k := k + 1;
      }
    }

    /** The head count of one voice channel. */
    method CountVoiceUsers(ch: VoiceChannel, restricted: set<nat>) returns (nonbotusers: int)
      ensures nonbotusers == CountedIn(ch.users, |ch.users|, restricted, config.voiceCountMutedMembers)
    {
      nonbotusers := 0;
      var i := 0;
      while i < |ch.users|
        invariant 0 <= i <= |ch.users|
        invariant nonbotusers == CountedIn(ch.users, i, restricted, config.voiceCountMutedMembers)
      {
        var u := ch.users[i];
        if !(u.isBot || u.isDeafened || u.isSelfDeafened || u.id in restricted
             || (!config.voiceCountMutedMembers && (u.isMuted || u.isSelfMuted || u.isSuppressed))) {
          nonbotusers := nonbotusers + 1;
        }
        i := i + 1;
      }
    }

    /** `Random.Next(min, max + 1)`: the bound is computed in unchecked
        Int32 arithmetic; below `min` it throws, otherwise one draw. */
    method DrawExperience(min: int, max: int) returns (r: Outcome<int>)
      modifies rng
      ensures r.Thrown? <==> DrawThrows(min, max)
      ensures r.Thrown? ==> r.exception == "ArgumentOutOfRangeException" && rng.pos == old(rng.pos)
      ensures r.Ok? ==> InDrawRange(r.value, min, max) && rng.pos == old(rng.pos) + 1
      ensures !r.Hangs?
    {
      var bound := DrawBound(max);
      if min > bound {
        return Thrown("ArgumentOutOfRangeException");
      }
      var amount := rng.NextRange(min, bound);
      return Ok(amount);
    }

    /** Grants voice experience to the users of one channel who pass the
        stricter filter; `added` is what is appended to the ledger. The
        draw for the first receiver throws when the voice range is
        inverted, and then nothing is granted. */
    method GrantVoice(ch: VoiceChannel, restricted: set<nat>) returns (ghost added: seq<Grant>, r: Outcome<()>)
      modifies this`grants, rng
      ensures grants == old(grants) + added
      ensures r.Thrown? <==> DrawThrows(config.vcMinXPGiven, config.vcMaxXPGiven)
                             && ReceiversIn(ch.users, |ch.users|, restricted) != []
      ensures r.Thrown? ==> r.exception == "ArgumentOutOfRangeException" && added == []
      ensures r.Ok? ==> GrantIds(added) == ReceiversIn(ch.users, |ch.users|, restricted)
      ensures !r.Hangs? && GrantsWithin(added, false, config.vcMinXPGiven, config.vcMaxXPGiven)
    {
      added := [];
      var i := 0;
      while i < |ch.users|
        invariant 0 <= i <= |ch.users|
        invariant grants == old(grants) + added
        invariant GrantIds(added) == ReceiversIn(ch.users, i, restricted)
        invariant DrawThrows(config.vcMinXPGiven, config.vcMaxXPGiven) ==> added == []
        invariant GrantsWithin(added, false, config.vcMinXPGiven, config.vcMaxXPGiven)
      {
        var u := ch.users[i];
        ghost var more: seq<Grant> := [];
        if !(u.isMuted || u.isDeafened || u.isSelfMuted || u.isSelfDeafened || u.isSuppressed
             || u.isBot || u.id in restricted) {
          var amount := DrawExperience(config.vcMinXPGiven, config.vcMaxXPGiven);
          if amount.Thrown? {
            ReceiversGrow(ch.users, i + 1, |ch.users|, restricted);
            return added, Thrown(amount.exception);
          }
          var g := Grant(u.id, amount.value, false);
          grants := grants + [g];
          more := [g];
        }
        ReceiversStep(ch.users, i, restricted, added, more, config.vcMinXPGiven, config.vcMaxXPGiven);
        added := added + more;
        i := i + 1;
      }
      return added, Ok(());
    }

    /** One voice channel of `AddLevels`: skipped when too few of its users
        are counted or it is disabled, otherwise `GrantVoice`. */
    method GrantChannel(ch: VoiceChannel, restricted: set<nat>) returns (ghost more: seq<Grant>, r: Outcome<()>)
      modifies this`grants, rng
      ensures grants == old(grants) + more
      ensures r.Thrown? <==> ChannelGrants(ch, restricted, config) && DrawThrows(config.vcMinXPGiven, config.vcMaxXPGiven)
                             && ReceiversIn(ch.users, |ch.users|, restricted) != []
      ensures r.Thrown? ==> r.exception == "ArgumentOutOfRangeException"
      ensures DrawThrows(config.vcMinXPGiven, config.vcMaxXPGiven) ==> more == []
      ensures r.Ok? && ChannelGrants(ch, restricted, config) ==> GrantIds(more) == ReceiversIn(ch.users, |ch.users|, restricted)
      ensures !ChannelGrants(ch, restricted, config) ==> more == [] && r == Ok(())
      ensures !r.Hangs? && GrantsWithin(more, false, config.vcMinXPGiven, config.vcMaxXPGiven)
    {
      var nonbotusers := CountVoiceUsers(ch, restricted);
      if nonbotusers < config.vcMinUsers || ch.id in config.disabledVCs {
        return [], Ok(());
      }
      more, r := GrantVoice(ch, restricted);
      if r.Ok? && DrawThrows(config.vcMinXPGiven, config.vcMaxXPGiven) {
        assert |GrantIds(more)| == 0;
      }
    }

    /** `AddLevels`: voice experience for every channel with enough counted
        users that is not disabled, then every text cooldown cleared;
        `added` is what is appended to the ledger. An inverted voice range
        throws at the first recipient, before anything is granted or
        cleared. */
    method AddLevels(channels: seq<VoiceChannel>, restricted: set<nat>) returns (ghost added: seq<Grant>, r: Outcome<()>)
      modifies this`grants, this`cooldowns, rng
      ensures grants == old(grants) + added
      ensures r.Thrown? <==> DrawThrows(config.vcMinXPGiven, config.vcMaxXPGiven)
                             && VoiceRecipients(channels, |channels|, restricted, config) != []
      ensures r.Thrown? ==> r.exception == "ArgumentOutOfRangeException" && added == [] && cooldowns == old(cooldowns)
      ensures r.Ok? ==> cooldowns == {} && GrantIds(added) == VoiceRecipients(channels, |channels|, restricted, config)
      ensures !r.Hangs? && GrantsWithin(added, false, config.vcMinXPGiven, config.vcMaxXPGiven)
    {
      added := [];
      ghost var initial := grants;
      var c := 0;
      while c < |channels|
        invariant 0 <= c <= |channels|
        invariant grants == initial + added
        invariant GrantIds(added) == VoiceRecipients(channels, c, restricted, config)
        invariant DrawThrows(config.vcMinXPGiven, config.vcMaxXPGiven) ==> added == []
        invariant GrantsWithin(added, false, config.vcMinXPGiven, config.vcMaxXPGiven)
        invariant cooldowns == old(cooldowns)
      {
        var more, granted := GrantChannel(channels[c], restricted);
        if granted.Thrown? {
          RecipientsFrom(channels, c, restricted, config);
          return added, granted;
        }
        AppendAssoc(initial, added, more);
        VoiceLedgerStep(channels, c, restricted, config, added, more);
        added := added + more;
        c := c + 1;
      }
      cooldowns := {};
      return added, Ok(());
    }

    /** `HandleMessage`: a message that earns text experience gives its
        author one grant within the text range and puts the author on
        cooldown, unless the text range is inverted and the draw throws;
        any other message changes nothing. */
    method HandleMessage(message: Message) returns (r: Outcome<()>)
      modifies this`grants, this`cooldowns, rng
      ensures r.Thrown? <==> old(Earns(message)) && DrawThrows(config.textMinXPGiven, config.textMaxXPGiven)
      ensures r.Thrown? ==> r.exception == "ArgumentOutOfRangeException"
      ensures !r.Hangs?
      ensures !old(Earns(message)) || r.Thrown? ==> grants == old(grants) && cooldowns == old(cooldowns)
      ensures old(Earns(message)) && r.Ok? ==>
                && |grants| == |old(grants)| + 1 && grants[..|old(grants)|] == old(grants)
                && grants[|old(grants)|].userId == message.authorId
                && GrantsWithin(grants[|old(grants)|..], true, config.textMinXPGiven, config.textMaxXPGiven)
                && cooldowns == old(cooldowns) + {message.authorId}
      ensures r.Ok? ==> !Earns(message)
    {
      if !config.manageTextXP { return Ok(()); }
      if message.authorIsBot { return Ok(()); }
      if message.isDM || message.channelId in config.disabledTCs { return Ok(()); }
      if message.authorId in cooldowns { return Ok(()); }
      var amount := DrawExperience(config.textMinXPGiven, config.textMaxXPGiven);
      if amount.Thrown? {
        return Thrown(amount.exception);
      }
      grants := grants + [Grant(message.authorId, amount.value, true)];
      if message.authorId in cooldowns { return Ok(()); }
      cooldowns := cooldowns + {message.authorId};
      return Ok(());
    }
  }

  /** A later prefix of the users has at least the receivers of an earlier
      one. */
  lemma {:induction false} ReceiversGrow(users: seq<VoiceUser>, m: nat, n: nat, restricted: set<nat>)
    requires m <= n <= |users|
    ensures |ReceiversIn(users, m, restricted)| <= |ReceiversIn(users, n, restricted)|
    decreases n
  {
    if m < n {
      ReceiversGrow(users, m, n - 1, restricted);
    }
  }

  /** A later prefix of the channels has at least the recipients of an
      earlier one. */
  lemma {:induction false} RecipientsGrow(channels: seq<VoiceChannel>, m: nat, n: nat, restricted: set<nat>,
                                          config: LevelingConfig)
    requires m <= n <= |channels|
    ensures |VoiceRecipients(channels, m, restricted, config)| <= |VoiceRecipients(channels, n, restricted, config)|
    decreases n
  {
    if m < n {
      RecipientsGrow(channels, m, n - 1, restricted, config);
    }
  }

  /** The grant of one more user extends the receivers by that user, or by
      nothing when the user does not receive. */
  lemma ReceiversStep(users: seq<VoiceUser>, i: nat, restricted: set<nat>, added: seq<Grant>, more: seq<Grant>,
                      min: int, max: int)
    requires i < |users|
    requires GrantIds(added) == ReceiversIn(users, i, restricted)
    requires Receives(users[i], restricted) ==>
               |more| == 1 && more[0].userId == users[i].id && !more[0].isText && InDrawRange(more[0].amount, min, max)
    requires !Receives(users[i], restricted) ==> more == []
    requires GrantsWithin(added, false, min, max)
    ensures GrantIds(added + more) == ReceiversIn(users, i + 1, restricted)
    ensures GrantsWithin(added + more, false, min, max)
  {
    GrantIdsAppend(added, more);
  }

  /** A channel that grants to somebody leaves the recipients of the whole
      list non-empty. */
  lemma RecipientsFrom(channels: seq<VoiceChannel>, c: nat, restricted: set<nat>, config: LevelingConfig)
    requires c < |channels| && ChannelGrants(channels[c], restricted, config)
    requires ReceiversIn(channels[c].users, |channels[c].users|, restricted) != []
    ensures VoiceRecipients(channels, |channels|, restricted, config) != []
  {
    RecipientsGrow(channels, c + 1, |channels|, restricted, config);
  }

  /** The grants of one more channel extend the recipients by that
      channel's receivers, or by nothing when it does not grant. */
  lemma VoiceLedgerStep(channels: seq<VoiceChannel>, c: nat, restricted: set<nat>, config: LevelingConfig,
                        added: seq<Grant>, more: seq<Grant>)
    requires c < |channels|
    requires GrantIds(added) == VoiceRecipients(channels, c, restricted, config)
    requires GrantsWithin(added, false, config.vcMinXPGiven, config.vcMaxXPGiven)
    requires GrantsWithin(more, false, config.vcMinXPGiven, config.vcMaxXPGiven)
    requires ChannelGrants(channels[c], restricted, config) ==>
               GrantIds(more) == ReceiversIn(channels[c].users, |channels[c].users|, restricted)
    requires !ChannelGrants(channels[c], restricted, config) ==> more == []
    ensures GrantIds(added + more) == VoiceRecipients(channels, c + 1, restricted, config)
    ensures GrantsWithin(added + more, false, config.vcMinXPGiven, config.vcMaxXPGiven)
  {
    GrantIdsAppend(added, more);
  }

  lemma GrantIdsAppend(a: seq<Grant>, b: seq<Grant>)
    ensures GrantIds(a + b) == GrantIds(a) + GrantIds(b)
  {
    var l, r := GrantIds(a + b), GrantIds(a) + GrantIds(b);
    assert |l| == |r|;
    forall i | 0 <= i < |l| ensures l[i] == r[i] {
      if i < |a| {
        assert (a + b)[i] == a[i];
      } else {
        assert (a + b)[i] == b[i - |a|];
      }
    }
  }
}

/**
 * The custom-command table (`CustomCommandDB`) and the commands that change
 * it: the `cc` command's validation, the callbacks that run once an
 * administrator approves a suggestion, and `ccedit`. The table is the
 * sequence of its rows in the order the database returns them; a found
 * command is identified by its row position. Suggestions sent for approval
 * are recorded in an outbox.
 */
module CustomCommands {
  import opened Common

  /** `UserCommandSource`; the members other than `Unspecified` and `Staff`
      are not part of this model and are told apart by a number. */
  datatype UserCommandSource = Unspecified | Staff | OtherSource(kind: nat)

  /** A row of the table. `alias` is the JSON list of aliases; `None` stands
      for the empty alias text that the callbacks store for a new command,
      which deserialises to no list at all. */
  datatype CustomCommand = CustomCommand(
    commandName: string,
    reply: string,
    alias: Option<seq<string>>,
    user: nat,
    commandType: UserCommandSource)

  // ---------------------------------------------------------------------------
  // Queries
  // ---------------------------------------------------------------------------

  /** `Find(name)`: the row whose key is `name`, or -1. */
  function KeyIndex(rows: seq<CustomCommand>, name: string): (i: int)
    ensures -1 <= i < |rows|
    ensures i >= 0 ==> rows[i].commandName == name
    ensures i == -1 <==> forall j :: 0 <= j < |rows| ==> rows[j].commandName != name
    ensures forall j :: i < j < |rows| ==> rows[j].commandName != name
    decreases |rows|
  {
    if |rows| == 0 then -1
    else if rows[|rows| - 1].commandName == name then |rows| - 1
    else
      var i := KeyIndex(rows[..|rows| - 1], name);
      assert forall j :: 0 <= j < |rows| - 1 ==> rows[..|rows| - 1][j] == rows[j];
      i
  }

  /** One row of the alias query: the row is skipped, matches, or its empty
      alias text is deserialised (for the empty name, which every text
      contains) into no list, whose `Contains` throws. */
  function AliasHit(row: CustomCommand, name: string): Outcome<bool>
  {
    match row.alias
    case None => if |name| == 0 then Thrown("NullReferenceException") else Ok(false)
    case Some(aliases) => Ok(name in aliases)
  }

  /** The alias query from row `k` on: the first row with `name` among its
      aliases, or -1. */
  function AliasScan(rows: seq<CustomCommand>, name: string, k: nat): (r: Outcome<int>)
    requires k <= |rows|
    ensures r.Ok? ==> -1 <= r.value < |rows|
    decreases |rows| - k
  {
    if k == |rows| then Ok(-1)
    else match AliasHit(rows[k], name)
      case Thrown(e) => Thrown(e)
      case Hangs => Hangs
      case Ok(hit) => if hit then Ok(k) else AliasScan(rows, name, k + 1)
  }

  /** `GetCommandByNameOrAlias`: the row keyed `name`, else the first row
      with `name` among its aliases, else -1. */
  function ByNameOrAlias(rows: seq<CustomCommand>, name: string): (r: Outcome<int>)
    ensures r.Ok? ==> -1 <= r.value < |rows|
  {
    var i := KeyIndex(rows, name);
    if i >= 0 then Ok(i) else AliasScan(rows, name, 0)
  }

  predicate HasAlias(row: CustomCommand, name: string)
  {
    row.alias.Some? && name in row.alias.value
  }

  /** What the alias query finds is the first row from `k` on that has the
      alias; -1 means no row from `k` on has it. */
  lemma {:induction false} AliasScanFirst(rows: seq<CustomCommand>, name: string, k: nat)
    requires k <= |rows|
    ensures AliasScan(rows, name, k).Ok? && AliasScan(rows, name, k).value >= 0 ==>
              var i := AliasScan(rows, name, k).value;
              k <= i && HasAlias(rows[i], name) && forall j :: k <= j < i ==> !HasAlias(rows[j], name)
    ensures AliasScan(rows, name, k) == Ok(-1) ==> forall j :: k <= j < |rows| ==> !HasAlias(rows[j], name)
    ensures !AliasScan(rows, name, k).Hangs?
    ensures AliasScan(rows, name, k).Thrown? ==> |name| == 0
    decreases |rows| - k
  {
    if k < |rows| {
      AliasScanFirst(rows, name, k + 1);
    }
  }

  /** The lookup finds a row keyed `name` first, then a row with that alias;
      -1 means no row has that key or alias. Only the empty name can make
      it throw. */
  lemma ByNameOrAliasSound(rows: seq<CustomCommand>, name: string)
    ensures ByNameOrAlias(rows, name).Ok? && ByNameOrAlias(rows, name).value >= 0 ==>
              var i := ByNameOrAlias(rows, name).value;
              rows[i].commandName == name || HasAlias(rows[i], name)
    ensures ByNameOrAlias(rows, name) == Ok(-1) ==>
              forall j :: 0 <= j < |rows| ==> rows[j].commandName != name && !HasAlias(rows[j], name)
    ensures (exists j :: 0 <= j < |rows| && rows[j].commandName == name) ==>
              ByNameOrAlias(rows, name).Ok? && rows[ByNameOrAlias(rows, name).value].commandName == name
    ensures !ByNameOrAlias(rows, name).Hangs?
    ensures ByNameOrAlias(rows, name).Thrown? ==> |name| == 0
  {
    AliasScanFirst(rows, name, 0);
  }

  /** Names and aliases: all the lookup looks at. */
  function Shape(rows: seq<CustomCommand>): (s: seq<(string, Option<seq<string>>)>)
    ensures |s| == |rows|
  {
    seq(|rows|, j requires 0 <= j < |rows| => (rows[j].commandName, rows[j].alias))
  }

  lemma {:induction false} AliasScanShape(rows: seq<CustomCommand>, rows': seq<CustomCommand>, name: string, k: nat)
    requires Shape(rows) == Shape(rows') && k <= |rows|
    ensures AliasScan(rows, name, k) == AliasScan(rows', name, k)
    decreases |rows| - k
  {
    if k < |rows| {
      assert Shape(rows)[k] == Shape(rows')[k];
      AliasScanShape(rows, rows', name, k + 1);
    }
  }

  /** Changing replies, users or types never changes what a name resolves
      to. */
  lemma ByNameOrAliasShape(rows: seq<CustomCommand>, rows': seq<CustomCommand>, name: string)
    requires Shape(rows) == Shape(rows')
    ensures ByNameOrAlias(rows, name) == ByNameOrAlias(rows', name)
  {
    forall j | 0 <= j < |rows|
      ensures rows[j].commandName == rows'[j].commandName
    {
      assert Shape(rows)[j] == Shape(rows')[j];
    }
    AliasScanShape(rows, rows', name, 0);
  }

  /** The row matched by `GetCommandByUser`'s filter. */
  predicate UserMatch(row: CustomCommand, id: nat, commandType: UserCommandSource)
  {
    row.user == id && (commandType == Unspecified || row.commandType == commandType)
  }

  /** `GetCommandByUser`: -1 for user 0; otherwise the first row attached to
      the user whose type is the one asked for (any type for
      `Unspecified`), or -1. */
  function ByUser(rows: seq<CustomCommand>, id: nat, commandType: UserCommandSource): (i: int)
    ensures -1 <= i < |rows|
    decreases |rows|
  {
    if id == 0 || |rows| == 0 then -1
    else if UserMatch(rows[0], id, commandType) then 0
    else
      var i := ByUser(rows[1..], id, commandType);
      if i < 0 then -1 else i + 1
  }

  /** `GetCommandByUser` finds the first matching row, and -1 exactly when
      the user is 0 or no row matches. */
  lemma {:induction false} ByUserFirst(rows: seq<CustomCommand>, id: nat, commandType: UserCommandSource)
    ensures var i := ByUser(rows, id, commandType);
            && (i >= 0 ==> UserMatch(rows[i], id, commandType) && forall j :: 0 <= j < i ==> !UserMatch(rows[j], id, commandType))
            && (i == -1 <==> id == 0 || forall j :: 0 <= j < |rows| ==> !UserMatch(rows[j], id, commandType))
    decreases |rows|
  {
    if id != 0 && |rows| > 0 && !UserMatch(rows[0], id, commandType) {
      ByUserFirst(rows[1..], id, commandType);
      assert forall j :: 1 <= j < |rows| ==> rows[j] == rows[1..][j - 1];
    }
  }

  // ---------------------------------------------------------------------------
  // The table invariant
  // ---------------------------------------------------------------------------

  /** The table's key is unique, and a user has at most one command of each
      specified type. */
  predicate ValidTable(rows: seq<CustomCommand>)
  {
    && (forall i, j :: 0 <= i < j < |rows| ==> rows[i].commandName != rows[j].commandName)
    && (forall i, j :: 0 <= i < j < |rows| && rows[i].user != 0 && rows[i].commandType != Unspecified ==>
          !UserMatch(rows[j], rows[i].user, rows[i].commandType))
  }

  function RemoveAt(rows: seq<CustomCommand>, i: nat): (r: seq<CustomCommand>)
    requires i < |rows|
    ensures |r| == |rows| - 1
    ensures forall j :: 0 <= j < i ==> r[j] == rows[j]
    ensures forall j :: i <= j < |r| ==> r[j] == rows[j + 1]
  {
    rows[..i] + rows[i + 1..]
  }

  lemma RemoveKeepsValid(rows: seq<CustomCommand>, i: nat)
    requires ValidTable(rows) && i < |rows|
    ensures ValidTable(RemoveAt(rows, i))
  {
    var r := RemoveAt(rows, i);
    forall a, b | 0 <= a < b < |r|
      ensures r[a].commandName != r[b].commandName
    {
      var a', b' := if a < i then a else a + 1, if b < i then b else b + 1;
      assert r[a] == rows[a'] && r[b] == rows[b'];
    }
    forall a, b | 0 <= a < b < |r| && r[a].user != 0 && r[a].commandType != Unspecified
      ensures !UserMatch(r[b], r[a].user, r[a].commandType)
    {
      var a', b' := if a < i then a else a + 1, if b < i then b else b + 1;
      assert r[a] == rows[a'] && r[b] == rows[b'];
    }
  }

  /** Removing a row that `GetCommandByUser` skips leaves the row it finds
      in place, one position earlier when it came after the removed one. */
  lemma ByUserAfterRemoval(rows: seq<CustomCommand>, p: nat, id: nat, commandType: UserCommandSource)
    requires p < |rows| && !UserMatch(rows[p], id, commandType)
    ensures var i := ByUser(rows, id, commandType);
            ByUser(RemoveAt(rows, p), id, commandType) == (if i > p then i - 1 else i)
  {
    var r := RemoveAt(rows, p);
    var i := ByUser(rows, id, commandType);
    var i' := ByUser(r, id, commandType);
    ByUserFirst(rows, id, commandType);
    ByUserFirst(r, id, commandType);
    if i' >= 0 {
      var k := if i' < p then i' else i' + 1;
      assert rows[k] == r[i'];
    }
    if i > p {
      assert r[i - 1] == rows[i];
    } else if i >= 0 {
      assert r[i] == rows[i];
    }
  }

  // ---------------------------------------------------------------------------
  // The changes the callbacks make, as functions of the table
  // ---------------------------------------------------------------------------

  /** `CustomCommands.Add` then `SaveChanges`: the new row is appended, or
      the save fails when its key is taken. */
  function AddRow(rows: seq<CustomCommand>, c: CustomCommand): (r: (Outcome<()>, seq<CustomCommand>))
  {
    if KeyIndex(rows, c.commandName) >= 0 then (Thrown("DbUpdateException"), rows)
    else (Ok(()), rows + [c])
  }

  /** The table after `CreateCommandCallback`. A command that is not
      attached to a user and a type is added; otherwise an unattached
      command found under the name is removed first and the rest is
      `Attach`. The removal is saved even when a later step fails. */
  function Create(rows: seq<CustomCommand>, name: string, reply: string, commandType: UserCommandSource, user: nat)
    : (r: (Outcome<()>, seq<CustomCommand>))
  {
    if user == 0 || commandType == Unspecified then AddRow(rows, CustomCommand(name, reply, None, user, commandType))
    else
      var incompat := ByNameOrAlias(rows, name);
      if !incompat.Ok? then (Fail(incompat), rows)
      else Attach(AfterIncompat(rows, name), name, reply, commandType, user)
  }

  /** The table once an unattached command found under the name is gone. */
  function AfterIncompat(rows: seq<CustomCommand>, name: string): (r: seq<CustomCommand>)
    ensures |r| <= |rows|
  {
    var incompat := ByNameOrAlias(rows, name);
    if incompat.Ok? && incompat.value >= 0 && rows[incompat.value].commandType == Unspecified
    then RemoveAt(rows, incompat.value) else rows
  }

  /** The rest of `CreateCommandCallback` for a command attached to a user
      and a type: a command the user already has of that type is replaced
      by the new one; otherwise an unattached command found under the name
      is attached and given the reply; otherwise the new command is added. */
  function Attach(rows: seq<CustomCommand>, name: string, reply: string, commandType: UserCommandSource, user: nat)
    : (r: (Outcome<()>, seq<CustomCommand>))
  {
    var created := CustomCommand(name, reply, None, user, commandType);
    var uc := ByUser(rows, user, commandType);
    if uc >= 0 then AddRow(RemoveAt(rows, uc), created)
    else
      var found := ByNameOrAlias(rows, name);
      if !found.Ok? then (Fail(found), rows)
      else if found.value >= 0 && rows[found.value].commandType == Unspecified then
        (Ok(()), rows[found.value := rows[found.value].(user := user, reply := reply, commandType := commandType)])
      else AddRow(rows, created)
  }

  /** Adding a row keeps the table valid when the user has no command of
      that type. */
  lemma AddRowKeepsValid(rows: seq<CustomCommand>, c: CustomCommand)
    requires ValidTable(rows)
    requires c.user != 0 && c.commandType != Unspecified ==> ByUser(rows, c.user, c.commandType) == -1
    ensures ValidTable(AddRow(rows, c).1)
  {
    if c.user != 0 && c.commandType != Unspecified {
      ByUserFirst(rows, c.user, c.commandType);
    }
    var r := AddRow(rows, c).1;
    if r != rows {
      forall a, b | 0 <= a < b < |r| && r[a].user != 0 && r[a].commandType != Unspecified
        ensures !UserMatch(r[b], r[a].user, r[a].commandType)
      {
        if b == |rows| {
          assert r[b] == c && r[a] == rows[a];
          if UserMatch(c, r[a].user, r[a].commandType) {
            assert UserMatch(rows[a], c.user, c.commandType);
          }
        }
      }
    }
  }

  /** Attaching an unattached row to a user who has no command of the type
      keeps the table valid. */
  lemma ClaimKeepsValid(rows: seq<CustomCommand>, i: nat, reply: string, commandType: UserCommandSource, user: nat)
    requires ValidTable(rows) && i < |rows| && rows[i].commandType == Unspecified
    requires user != 0 && commandType != Unspecified && ByUser(rows, user, commandType) == -1
    ensures ValidTable(rows[i := rows[i].(user := user, reply := reply, commandType := commandType)])
  {
    ByUserFirst(rows, user, commandType);
    var r := rows[i := rows[i].(user := user, reply := reply, commandType := commandType)];
    forall a, b | 0 <= a < b < |r| && r[a].user != 0 && r[a].commandType != Unspecified
      ensures !UserMatch(r[b], r[a].user, r[a].commandType)
    {
      if a == i {
        assert !UserMatch(rows[b], user, commandType);
      } else if b == i {
        assert rows[a].commandType != Unspecified;
        if UserMatch(r[b], r[a].user, r[a].commandType) {
          assert UserMatch(rows[a], user, commandType);
        }
      }
    }
  }

  /** In a valid table, once the user's command of a type is removed the
      user has none of that type left. */
  lemma ReplacedIsOnly(rows: seq<CustomCommand>, commandType: UserCommandSource, user: nat)
    requires ValidTable(rows) && user != 0 && commandType != Unspecified
    requires ByUser(rows, user, commandType) >= 0
    ensures ByUser(RemoveAt(rows, ByUser(rows, user, commandType)), user, commandType) == -1
  {
    var uc := ByUser(rows, user, commandType);
    var rest := RemoveAt(rows, uc);
    ByUserFirst(rows, user, commandType);
    forall k | 0 <= k < |rest|
      ensures !UserMatch(rest[k], user, commandType)
    {
      var k' := if k < uc then k else k + 1;
      assert rest[k] == rows[k'];
    }
    ByUserFirst(rest, user, commandType);
  }

  lemma AttachKeepsValid(rows: seq<CustomCommand>, name: string, reply: string, commandType: UserCommandSource, user: nat)
    requires ValidTable(rows) && user != 0 && commandType != Unspecified
    ensures ValidTable(Attach(rows, name, reply, commandType, user).1)
  {
    var created := CustomCommand(name, reply, None, user, commandType);
    var uc := ByUser(rows, user, commandType);
    if uc >= 0 {
      RemoveKeepsValid(rows, uc);
      ReplacedIsOnly(rows, commandType, user);
      AddRowKeepsValid(RemoveAt(rows, uc), created);
    } else {
      var found := ByNameOrAlias(rows, name);
      if found.Ok? && found.value >= 0 && rows[found.value].commandType == Unspecified {
        ClaimKeepsValid(rows, found.value, reply, commandType, user);
      } else {
        AddRowKeepsValid(rows, created);
      }
    }
  }

  /** `CreateCommandCallback` keeps the table valid: keys stay unique and a
      user keeps at most one command of each type. */
  lemma CreateKeepsValid(rows: seq<CustomCommand>, name: string, reply: string, commandType: UserCommandSource, user: nat)
    requires ValidTable(rows)
    ensures ValidTable(Create(rows, name, reply, commandType, user).1)
  {
    if user == 0 || commandType == Unspecified {
      AddRowKeepsValid(rows, CustomCommand(name, reply, None, user, commandType));
    } else if ByNameOrAlias(rows, name).Ok? {
      var incompat := ByNameOrAlias(rows, name).value;
      if incompat >= 0 && rows[incompat].commandType == Unspecified {
        RemoveKeepsValid(rows, incompat);
      }
      AttachKeepsValid(AfterIncompat(rows, name), name, reply, commandType, user);
    }
  }

  /** An appended row is found under its own name. */
  lemma AppendedFound(rows: seq<CustomCommand>, c: CustomCommand)
    ensures ByNameOrAlias(rows + [c], c.commandName) == Ok(|rows|)
  {
    assert (rows + [c])[|rows|] == c;
  }

  /** After a successful `Attach` the name resolves to a command with the
      reply, the user and the type asked for. */
  lemma AttachThenFound(rows: seq<CustomCommand>, name: string, reply: string, commandType: UserCommandSource, user: nat)
    requires Attach(rows, name, reply, commandType, user).0.Ok?
    ensures var after := Attach(rows, name, reply, commandType, user).1;
            var found := ByNameOrAlias(after, name);
            && found.Ok? && found.value >= 0
            && after[found.value] == after[found.value].(reply := reply, user := user, commandType := commandType)
  {
    var created := CustomCommand(name, reply, None, user, commandType);
    var uc := ByUser(rows, user, commandType);
    if uc >= 0 {
      AppendedFound(RemoveAt(rows, uc), created);
    } else {
      var found := ByNameOrAlias(rows, name);
      if found.value >= 0 && rows[found.value].commandType == Unspecified {
        var after := rows[found.value := rows[found.value].(user := user, reply := reply, commandType := commandType)];
        assert Shape(after) == Shape(rows);
        ByNameOrAliasShape(rows, after, name);
      } else {
        AppendedFound(rows, created);
      }
    }
  }

  /** After a successful `CreateCommandCallback` the name resolves to a
      command with the reply, the user and the type asked for. */
  lemma CreateThenFound(rows: seq<CustomCommand>, name: string, reply: string, commandType: UserCommandSource, user: nat)
    requires Create(rows, name, reply, commandType, user).0.Ok?
    ensures var after := Create(rows, name, reply, commandType, user).1;
            var found := ByNameOrAlias(after, name);
            && found.Ok? && found.value >= 0
            && after[found.value].reply == reply
            && after[found.value].user == user
            && after[found.value].commandType == commandType
  {
    if user == 0 || commandType == Unspecified {
      AppendedFound(rows, CustomCommand(name, reply, None, user, commandType));
    } else {
      AttachThenFound(AfterIncompat(rows, name), name, reply, commandType, user);
    }
  }

  /** The reply of the command found under `name` set to `reply`, and the
      reply it had; `missing` is what is thrown when nothing is found
      (`EditCommandCallback` dereferences the missing command, `ccedit`
      throws `InvalidOperationException`). */
  function EditReply(rows: seq<CustomCommand>, name: string, reply: string, missing: string)
    : (r: (Outcome<string>, seq<CustomCommand>))
  {
    var found := ByNameOrAlias(rows, name);
    if !found.Ok? then (Fail(found), rows)
    else if found.value < 0 then (Thrown(missing), rows)
    else (Ok(rows[found.value].reply), rows[found.value := rows[found.value].(reply := reply)])
  }

  /** Editing a reply touches the reply of the command the name resolves to
      and nothing else, returns the reply it had, and so leaves every
      lookup and the table's validity as they were. */
  lemma EditReplyOnlyReply(rows: seq<CustomCommand>, name: string, reply: string, missing: string)
    requires EditReply(rows, name, reply, missing).0.Ok?
    ensures var (r, after) := EditReply(rows, name, reply, missing);
            var i := ByNameOrAlias(rows, name).value;
            && 0 <= i < |rows| && |after| == |rows|
            && r.value == rows[i].reply
            && after[i] == rows[i].(reply := reply)
            && (forall j :: 0 <= j < |rows| && j != i ==> after[j] == rows[j])
            && (forall n :: ByNameOrAlias(after, n) == ByNameOrAlias(rows, n))
            && (ValidTable(rows) ==> ValidTable(after))
  {
    var after := EditReply(rows, name, reply, missing).1;
    assert Shape(after) == Shape(rows);
    forall n | true
      ensures ByNameOrAlias(after, n) == ByNameOrAlias(rows, n)
    {
      ByNameOrAliasShape(rows, after, n);
    }
  }

  /** After an edit the name resolves to the same command, with the new
      reply. */
  lemma EditThenFound(rows: seq<CustomCommand>, name: string, reply: string, missing: string)
    requires EditReply(rows, name, reply, missing).0.Ok?
    ensures var after := EditReply(rows, name, reply, missing).1;
            && ByNameOrAlias(after, name) == ByNameOrAlias(rows, name)
            && after[ByNameOrAlias(after, name).value].reply == reply
  {
    EditReplyOnlyReply(rows, name, reply, missing);
  }

  /** `RemoveCommandCallback`: the command found under the name is removed;
      removing the missing command throws. */
  function RemoveByName(rows: seq<CustomCommand>, name: string): (r: (Outcome<()>, seq<CustomCommand>))
  {
    var found := ByNameOrAlias(rows, name);
    if !found.Ok? then (Fail(found), rows)
    else if found.value < 0 then (Thrown("ArgumentNullException"), rows)
    else (Ok(()), RemoveAt(rows, found.value))
  }

  /** A removal takes out exactly the command the name resolves to: the
      other rows stay, in order, and its key is no longer in a valid
      table. */
  lemma RemoveByNameGone(rows: seq<CustomCommand>, name: string)
    requires RemoveByName(rows, name).0.Ok?
    ensures var after := RemoveByName(rows, name).1;
            var i := ByNameOrAlias(rows, name).value;
            && 0 <= i < |rows|
            && after == rows[..i] + rows[i + 1..]
            && multiset(after) == multiset(rows) - multiset{rows[i]}
            && (ValidTable(rows) ==> ValidTable(after) && KeyIndex(after, rows[i].commandName) == -1)
  {
    var i := ByNameOrAlias(rows, name).value;
    var after := RemoveByName(rows, name).1;
    assert rows == rows[..i] + [rows[i]] + rows[i + 1..];
    if ValidTable(rows) {
      RemoveKeepsValid(rows, i);
      forall j | 0 <= j < |after|
        ensures after[j].commandName != rows[i].commandName
      {
        var j' := if j < i then j else j + 1;
        assert after[j] == rows[j'];
      }
    }
  }

  // ---------------------------------------------------------------------------
  // Validation of `cc`
  // ---------------------------------------------------------------------------

  datatype ActionType = Add | Edit | Remove | Get | OtherAction

  /** Why `cc` answers without doing anything. */
  datatype Refusal = NoReply | AlreadyExists | ReplyTooLong | DoesNotExist | NoSuchAction

  /** A change sent to the administrators for approval, with the arguments
      its callback receives. */
  datatype Proposal =
    | CreateProposal(name: string, reply: string, commandType: UserCommandSource, user: nat)
    | EditProposal(name: string, reply: string)
    | RemoveProposal(name: string)

  datatype Response = Refused(refusal: Refusal) | Suggested(proposal: Proposal) | EditedNow | Shown(reply: string, aliases: seq<string>)

  /** The checks of `cc add` as written: a reply is given, no command is
      found under the name as typed, and the reply is not too long. */
  function AddRefusal(rows: seq<CustomCommand>, name: string, reply: string, maximumReplyLength: int)
    : (r: Outcome<Option<Refusal>>)
  {
    if |reply| == 0 then Ok(Some(NoReply))
    else
      var found := ByNameOrAlias(rows, name);
      if !found.Ok? then Fail(found)
      else if found.value >= 0 then Ok(Some(AlreadyExists))
      else if |reply| > maximumReplyLength then Ok(Some(ReplyTooLong))
      else Ok(None)
  }

  /** The written check passes a name that differs only in case from an
      existing command; the approved suggestion, which stores the name in
      lower case, then clashes with that command's key. */
  lemma AddCheckIgnoresCase()
    ensures var rows := [CustomCommand("foo", "hi", None, 0, Unspecified)];
            && AddRefusal(rows, "Foo", "hello", 1000) == Ok(None)
            && Create(rows, ToLower("Foo"), "hello", Unspecified, 0).0 == Thrown("DbUpdateException")
  {
    var rows := [CustomCommand("foo", "hi", None, 0, Unspecified)];
    assert ToLower("Foo") == "foo";
    assert KeyIndex(rows, "Foo") == -1;
    assert AliasScan(rows, "Foo", 0) == Ok(-1);
    assert KeyIndex(rows, "foo") == 0;
  }

  /** The checks of `cc add` as evidently intended: the name looked up is
      the lower-case one the suggestion will store. */
  function AddRefusalFixed(rows: seq<CustomCommand>, name: string, reply: string, maximumReplyLength: int)
    : (r: Outcome<Option<Refusal>>)
    ensures |reply| == 0 ==> r == Ok(Some(NoReply))
    ensures r == Ok(None) ==> 0 < |reply| <= maximumReplyLength
  {
    AddRefusal(rows, ToLower(name), reply, maximumReplyLength)
  }

  /** A suggestion that passes the corrected checks can be approved as long
      as the table has not changed: the new command is added under its
      lower-case name. */
  lemma FixedAddApprovable(rows: seq<CustomCommand>, name: string, reply: string, maximumReplyLength: int)
    requires AddRefusalFixed(rows, name, reply, maximumReplyLength) == Ok(None)
    ensures Create(rows, ToLower(name), reply, Unspecified, 0)
            == (Ok(()), rows + [CustomCommand(ToLower(name), reply, None, 0, Unspecified)])
  {
    ByNameOrAliasSound(rows, ToLower(name));
  }

  // ---------------------------------------------------------------------------
  // The table and the commands, as objects
  // ---------------------------------------------------------------------------

  class CustomCommandDB {
    /** The `CustomCommands` table, in the order the database returns it. */
    var rows: seq<CustomCommand>

    constructor ()
      ensures rows == []
    {
      rows := [];
    }

    /** `GetCommandByNameOrAlias`: the key first, then the aliases row by
        row. */
    method GetCommandByNameOrAlias(name: string) returns (r: Outcome<int>)
      ensures r == ByNameOrAlias(rows, name)
    {
      var byName := KeyIndex(rows, name);
      if byName >= 0 {
        return Ok(byName);
      }
      var k := 0;
      while k < |rows|
        invariant 0 <= k <= |rows|
        invariant AliasScan(rows, name, k) == AliasScan(rows, name, 0)
      {
        match rows[k].alias {
          case None =>
            if |name| == 0 {
              return Thrown("NullReferenceException");
            }
          case Some(aliases) =>
            if name in aliases {
              return Ok(k);
            }
        }
        k := k + 1;
      }
      return Ok(-1);
    }

    /** `CustomCommands.Add` then `SaveChanges`. */
    method Add(c: CustomCommand) returns (r: Outcome<()>)
      modifies this
      ensures r == AddRow(old(rows), c).0 && rows == AddRow(old(rows), c).1
    {
      if KeyIndex(rows, c.commandName) >= 0 {
        return Thrown("DbUpdateException");
      }
      rows := rows + [c];
      return Ok(());
    }
  }

  /** The custom-command module: the `cc` and `ccedit` commands and the
      callbacks run on approval. */
  class CommandModule {
    const db: CustomCommandDB
    const maximumReplyLength: int
    const staffCommandsSkipConfirmation: bool
    /** The suggestions sent for administrator approval, in order. */
    var proposals: seq<Proposal>

    constructor (db: CustomCommandDB, maximumReplyLength: int, staffCommandsSkipConfirmation: bool)
      ensures this.db == db && this.maximumReplyLength == maximumReplyLength
      ensures this.staffCommandsSkipConfirmation == staffCommandsSkipConfirmation
      ensures proposals == []
    {
      this.db := db;
      this.maximumReplyLength := maximumReplyLength;
      this.staffCommandsSkipConfirmation := staffCommandsSkipConfirmation;
      proposals := [];
    }

    /** `CreateCommandCallback`. */
    method CreateCommandCallback(name: string, reply: string, commandType: UserCommandSource, user: nat)
      returns (r: Outcome<()>)
      modifies db
      ensures r == Create(old(db.rows), name, reply, commandType, user).0
      ensures db.rows == Create(old(db.rows), name, reply, commandType, user).1
    {
      var created := CustomCommand(name, reply, None, user, commandType);
      if user == 0 || commandType == Unspecified {
        r := db.Add(created);
        return;
      }
      var uc := ByUser(db.rows, user, commandType);
      var incompat := db.GetCommandByNameOrAlias(name);
      if !incompat.Ok? {
        return Fail(incompat);
      }
      if incompat.value >= 0 && db.rows[incompat.value].commandType == Unspecified {
        ByUserAfterRemoval(db.rows, incompat.value, user, commandType);
        db.rows := RemoveAt(db.rows, incompat.value);
        if uc > incompat.value {
          uc := uc - 1;
        }
      }
      assert db.rows == AfterIncompat(old(db.rows), name);
      r := AttachCommand(name, reply, commandType, user, uc);
    }

    /** The rest of `CreateCommandCallback` for a command attached to a user
        and a type, given the user's command of that type found before. */
    method AttachCommand(name: string, reply: string, commandType: UserCommandSource, user: nat, uc: int)
      returns (r: Outcome<()>)
      requires uc == ByUser(db.rows, user, commandType)
      modifies db
      ensures r == Attach(old(db.rows), name, reply, commandType, user).0
      ensures db.rows == Attach(old(db.rows), name, reply, commandType, user).1
    {
      var created := CustomCommand(name, reply, None, user, commandType);
      if uc >= 0 {
        db.rows := RemoveAt(db.rows, uc);
        r := db.Add(created);
        return;
      }
      var found := db.GetCommandByNameOrAlias(name);
      if !found.Ok? {
        return Fail(found);
      }
      if found.value >= 0 && db.rows[found.value].commandType == Unspecified {
        db.rows := db.rows[found.value := db.rows[found.value].(user := user, reply := reply, commandType := commandType)];
        return Ok(());
      }
      r := db.Add(created);
    }

    /** `EditCommandCallback`. */
    method EditCommandCallback(name: string, reply: string) returns (r: Outcome<()>)
      modifies db
      ensures var edit := EditReply(old(db.rows), name, reply, "NullReferenceException").0;
              if edit.Ok? then r == Ok(()) else r == Fail(edit)
      ensures db.rows == EditReply(old(db.rows), name, reply, "NullReferenceException").1
    {
      var found := db.GetCommandByNameOrAlias(name);
      if !found.Ok? {
        return Fail(found);
      }
      if found.value < 0 {
        return Thrown("NullReferenceException");
      }
      db.rows := db.rows[found.value := db.rows[found.value].(reply := reply)];
      return Ok(());
    }

    /** `RemoveCommandCallback`. */
    method RemoveCommandCallback(name: string) returns (r: Outcome<()>)
      modifies db
      ensures r == RemoveByName(old(db.rows), name).0 && db.rows == RemoveByName(old(db.rows), name).1
    {
      var found := db.GetCommandByNameOrAlias(name);
      if !found.Ok? {
        return Fail(found);
      }
      if found.value < 0 {
        return Thrown("ArgumentNullException");
      }
      db.rows := RemoveAt(db.rows, found.value);
      return Ok(());
    }

    /** `ccedit`: sets the reply of the command found under the name and
        answers with the reply it had; throws when none is found. */
    method EditCommandsAsync(name: string, editedReply: string) returns (r: Outcome<string>)
      modifies db
      ensures r == EditReply(old(db.rows), name, editedReply, "InvalidOperationException").0
      ensures db.rows == EditReply(old(db.rows), name, editedReply, "InvalidOperationException").1
    {
      var command := db.GetCommandByNameOrAlias(name);
      var again := db.GetCommandByNameOrAlias(name);
      if !again.Ok? {
        return Fail(again);
      }
      if again.value < 0 {
        return Thrown("InvalidOperationException");
      }
      var oldReply := db.rows[command.value].reply;
      db.rows := db.rows[command.value := db.rows[command.value].(reply := editedReply)];
      return Ok(oldReply);
    }

    /** `cc`: validates the action and either refuses, sends a suggestion
        for approval, edits a staff member's own command at once, or shows a
        command. `cc add` uses the corrected name check. */
    method CcCommand(action: ActionType, name: string, reply: string, caller: nat) returns (r: Outcome<Response>)
      modifies this`proposals, db
      ensures action != Edit ==> db.rows == old(db.rows)
      ensures r.Ok? && r.value.Suggested? ==> proposals == old(proposals) + [r.value.proposal]
      ensures !(r.Ok? && r.value.Suggested?) ==> proposals == old(proposals)
      ensures action == Add ==>
                match AddRefusalFixed(old(db.rows), name, reply, maximumReplyLength)
                case Ok(None) => r == Ok(Suggested(CreateProposal(ToLower(name), reply, Unspecified, 0)))
                case Ok(Some(refusal)) => r == Ok(Refused(refusal))
                case Thrown(e) => r == Thrown(e)
                case Hangs => r == Hangs
      ensures action == Edit ==>
                var found := ByNameOrAlias(old(db.rows), name);
                if |reply| == 0 then r == Ok(Refused(NoReply)) && db.rows == old(db.rows)
                else if !found.Ok? then r == Fail(found) && db.rows == old(db.rows)
                else if found.value < 0 then r == Ok(Refused(DoesNotExist)) && db.rows == old(db.rows)
                else if |reply| > maximumReplyLength then r == Ok(Refused(ReplyTooLong)) && db.rows == old(db.rows)
                else
                  var command := old(db.rows)[found.value];
                  if command.commandType == Staff && command.user == caller && staffCommandsSkipConfirmation then
                    var (edit, after) := EditReply(old(db.rows), ToLower(name), reply, "NullReferenceException");
                    db.rows == after && (if edit.Ok? then r == Ok(EditedNow) else r == Fail(edit))
                  else r == Ok(Suggested(EditProposal(ToLower(name), reply))) && db.rows == old(db.rows)
      ensures action == Remove ==> r == Ok(Suggested(RemoveProposal(ToLower(name))))
      ensures action == Get ==>
                var found := ByNameOrAlias(old(db.rows), name);
                if !found.Ok? then r == Fail(found)
                else if found.value < 0 then r == Ok(Refused(DoesNotExist))
                else if old(db.rows)[found.value].alias.None? then r == Thrown("ArgumentNullException")
                else r == Ok(Shown(old(db.rows)[found.value].reply, old(db.rows)[found.value].alias.value))
      ensures action == OtherAction ==> r == Ok(Refused(NoSuchAction))
    {
      match action {
        case Add =>
          if |reply| == 0 {
            return Ok(Refused(NoReply));
          }
          var existing := db.GetCommandByNameOrAlias(ToLower(name));
          if !existing.Ok? {
            return Fail(existing);
          }
          if existing.value >= 0 {
            return Ok(Refused(AlreadyExists));
          }
          if |reply| > maximumReplyLength {
            return Ok(Refused(ReplyTooLong));
          }
          var proposal := CreateProposal(ToLower(name), reply, Unspecified, 0);
          proposals := proposals + [proposal];
          return Ok(Suggested(proposal));
        case Edit =>
          if |reply| == 0 {
            return Ok(Refused(NoReply));
          }
          var found := db.GetCommandByNameOrAlias(name);
          if !found.Ok? {
            return Fail(found);
          }
          if found.value < 0 {
            return Ok(Refused(DoesNotExist));
          }
          if |reply| > maximumReplyLength {
            return Ok(Refused(ReplyTooLong));
          }
          var command := db.rows[found.value];
          if command.commandType == Staff && command.user == caller && staffCommandsSkipConfirmation {
            var edited := EditCommandCallback(ToLower(name), reply);
            if !edited.Ok? {
              return Fail(edited);
            }
            return Ok(EditedNow);
          }
          var proposal := EditProposal(ToLower(name), reply);
          proposals := proposals + [proposal];
          return Ok(Suggested(proposal));
        case Remove =>
          var proposal := RemoveProposal(ToLower(name));
          proposals := proposals + [proposal];
          return Ok(Suggested(proposal));
        case Get =>
          var found := db.GetCommandByNameOrAlias(name);
          if !found.Ok? {
            return Fail(found);
          }
          if found.value < 0 {
            return Ok(Refused(DoesNotExist));
          }
          var command := db.rows[found.value];
          if command.alias.None? {
            return Thrown("ArgumentNullException");
          }
          return Ok(Shown(command.reply, command.alias.value));
        case OtherAction =>
          return Ok(Refused(NoSuchAction));
      }
    }
  }
}
